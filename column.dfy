/** The table-column builder of the BREAD screens: a fluent object whose
    setters update its properties, with the label it derives from its name,
    its visibility, its badge colours and the way it formats a value. */
module Columns {
  import opened Values
  import opened PhpStrings

  /** What a column does to a value before showing it: a caller's closure,
      or the date formatting that date() and datetime() install. */
  datatype Formatter = Custom(callback: Callback) | DateFormat(format: string)

  const DefaultBadgeColor := "bg-gray-500"

  /** The text getLabel title-cases when no label is set: the name with
      every `_` and then every `-` replaced by a space. */
  function LabelSource(name: string): (r: string)
    ensures '_' !in r && '-' !in r
    ensures |r| == |name|
    ensures forall i :: 0 <= i < |name| ==> r[i] == if name[i] == '_' || name[i] == '-' then ' ' else name[i]
  {
    StrReplaceChar('_', ' ', name);
    StrReplaceChar('-', ' ', StrReplace("_", " ", name));
    StrReplace("-", " ", StrReplace("_", " ", name))
  }

  class Column {
    const name: string
    var labelText: Option<string>
    var sortable: bool
    var searchable: bool
    var formatter: Option<Formatter>
    var align: Option<string>
    var hidden: bool
    var condition: Option<Callback>
    var kind: string
    var badgeColors: map<string, string>
    var width: Option<string>

    /** Column::make($name): a plain text column, neither sortable nor
        searchable nor hidden. */
    constructor (name: string)
      ensures this.name == name && kind == "text"
      ensures !sortable && !searchable && !hidden
      ensures labelText == None && formatter == None && condition == None
      ensures align == None && width == None && badgeColors == map[]
    {
      this.name := name;
      labelText := None;
      sortable := false;
      searchable := false;
      formatter := None;
      align := None;
      hidden := false;
      condition := None;
      kind := "text";
      badgeColors := map[];
      width := None;
    }

    method Label(l: string)
      modifies this`labelText
      ensures labelText == Some(l)
    {
      labelText := Some(l);
    }

    method Sortable(b: bool := true)
      modifies this`sortable
      ensures sortable == b
    {
      sortable := b;
    }

    method Searchable(b: bool := true)
      modifies this`searchable
      ensures searchable == b
    {
      searchable := b;
    }

    method SetFormatter(f: Callback)
      modifies this`formatter
      ensures formatter == Some(Custom(f))
    {
      formatter := Some(Custom(f));
    }

    method Align(a: string)
      modifies this`align
      ensures align == Some(a)
    {
      align := Some(a);
    }

    method Hidden(b: bool := true)
      modifies this`hidden
      ensures hidden == b
    {
      hidden := b;
    }

    method When(c: Callback)
      modifies this`condition
      ensures condition == Some(c)
    {
      condition := Some(c);
    }

    /** badge($colors): a badge column whose colour map is replaced. */
    method Badge(colors: map<string, string> := map[])
      modifies this`kind, this`badgeColors
      ensures kind == "badge" && badgeColors == colors
    {
      kind := "badge";
      badgeColors := colors;
    }

    method Image()
      modifies this`kind
      ensures kind == "image"
    {
      kind := "image";
    }

    /** date($format): a date column formatting with `format`. */
    method Date(format: string := "Y-m-d")
      modifies this`kind, this`formatter
      ensures kind == "date" && formatter == Some(DateFormat(format))
    {
      kind := "date";
      formatter := Some(DateFormat(format));
    }

    /** datetime($format): also a column of type "date"; only the default
        format differs from date(). */
    method Datetime(format: string := "Y-m-d H:i:s")
      modifies this`kind, this`formatter
      ensures kind == "date" && formatter == Some(DateFormat(format))
    {
      kind := "date";
      formatter := Some(DateFormat(format));
    }

    method Boolean()
      modifies this`kind
      ensures kind == "boolean"
    {
      kind := "boolean";
    }

    method Width(w: string)
      modifies this`width
      ensures width == Some(w)
    {
      width := Some(w);
    }

    /** getLabel: the label when it is truthy, otherwise the title-cased
        name with `_` and `-` read as spaces. */
    function GetLabel(inflect: Inflector): (r: string)
      reads this`labelText
      ensures TruthyText(labelText) ==> r == labelText.value
      ensures !TruthyText(labelText) ==> r == inflect.title(LabelSource(name))
    {
      if TruthyText(labelText) then labelText.value else inflect.title(LabelSource(name))
    }

    /** isVisible: a set condition decides alone, whatever `hidden` says;
        without one the column shows unless it is hidden. */
    function IsVisible(call: (Callback, Value) -> Value, data: Value := List([])): (r: bool)
      reads this`condition, this`hidden
      ensures condition.Some? ==> r == Truthy(call(condition.value, data))
      ensures condition.None? ==> r == !hidden
    {
      match condition
      case Some(c) => Truthy(call(c, data))
      case None => !hidden
    }

    /** formatValue: the value itself without a formatter; a date column
        shows "-" for a falsy value and the formatted date otherwise. */
    function FormatValue(value: Value, call: (Callback, Value, Value) -> Value,
                         formatDate: (string, string) -> string, record: Value := Null): (r: Value)
      reads this`formatter
      ensures formatter.None? ==> r == value
      ensures formatter.Some? && formatter.value.DateFormat? && !Truthy(value) ==> r == Str("-")
      ensures formatter.Some? && formatter.value.DateFormat? && Truthy(value) ==>
        r == Str(formatDate(formatter.value.format, ToText(value)))
      ensures formatter.Some? && formatter.value.Custom? ==> r == call(formatter.value.callback, value, record)
    {
      match formatter
      case None => value
      case Some(Custom(f)) => call(f, value, record)
      case Some(DateFormat(format)) => if Truthy(value) then Str(formatDate(format, ToText(value))) else Str("-")
    }

    /** getBadgeColor: the colour mapped to the value's key, or the grey
        default. */
    function GetBadgeColor(value: Value): (r: string)
      requires KeyOf(value).Some?
      reads this`badgeColors
      ensures KeyOf(value).value in badgeColors ==> r == badgeColors[KeyOf(value).value]
      ensures KeyOf(value).value !in badgeColors ==> r == DefaultBadgeColor
    {
      var key := KeyOf(value).value;
      if key in badgeColors then badgeColors[key] else DefaultBadgeColor
    }
  }
}
