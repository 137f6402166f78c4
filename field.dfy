/** The form-field builder of the BREAD screens: a fluent object whose
    setters update its properties, the validation rules it carries, its
    grid span, and the HTML attribute string it renders. */
module Fields {
  import opened Values
  import opened PhpStrings
  import opened OrderedMaps

  /** rules('a|b'): the pieces of the string between `|`, each trimmed. */
  function RulesFromString(s: string): (r: seq<Value>)
    ensures |r| == |Explode(s, '|')|
    ensures forall i :: 0 <= i < |r| ==> r[i] == Str(Trim(Explode(s, '|')[i], Whitespace))
  {
    Strs(TrimEach(Explode(s, '|')))
  }

  function Strs(parts: seq<string>): (r: seq<Value>)
    ensures |r| == |parts|
    ensures forall i :: 0 <= i < |parts| ==> r[i] == Str(parts[i])
  {
    seq(|parts|, i requires 0 <= i < |parts| => Str(parts[i]))
  }

  /** Rule names without `|` and without surrounding blanks, joined by `|`,
      come back from rules() as the same names in the same order. */
  lemma RulesRoundTrip(names: seq<string>)
    requires |names| >= 1
    requires forall i :: 0 <= i < |names| ==> '|' !in names[i] && Trimmed(names[i], Whitespace)
    ensures RulesFromString(Implode("|", names)) == Strs(names)
  {
    ExplodeImplode(names, '|');
    assert "|" == ['|'];
    TrimEachTrimmed(names);
  }

  lemma TrimEachTrimmed(parts: seq<string>)
    requires forall i :: 0 <= i < |parts| ==> Trimmed(parts[i], Whitespace)
    ensures TrimEach(parts) == parts
  {
    forall i | 0 <= i < |parts| ensures Trim(parts[i], Whitespace) == parts[i] {
      TrimLeftOfTrimmed(parts[i], Whitespace);
      TrimRightOfTrimmed(parts[i], Whitespace);
    }
  }

  /** min(12, max(1, n)) */
  function ClampSpan(n: int): (r: int)
    ensures 1 <= r <= 12
    ensures 1 <= n <= 12 ==> r == n
    ensures n < 1 ==> r == 1
    ensures n > 12 ==> r == 12
  {
    var atLeastOne := if n > 1 then n else 1;
    if atLeastOne < 12 then atLeastOne else 12
  }

  /** One custom attribute as getAttributesString renders it: a true boolean
      as the bare key, a false one not at all, any other value as
      key="escaped value". */
  function AttributePart(key: string, v: Value, escape: string -> string): seq<string> {
    match v
    case Bool(b) => if b then [key] else []
    case _ => [key + "=\"" + escape(ToText(v)) + "\""]
  }

  /** The custom attributes, rendered in insertion order. */
  function CustomParts(attrs: Dict<Value>, escape: string -> string): seq<string>
    decreases |attrs|
  {
    if attrs == [] then []
    else CustomParts(attrs[..|attrs| - 1], escape) + AttributePart(attrs[|attrs| - 1].0, attrs[|attrs| - 1].1, escape)
  }

  lemma CustomPartsSnoc(a: Dict<Value>, i: int, escape: string -> string)
    requires 0 <= i < |a|
    ensures CustomParts(a[..i + 1], escape) == CustomParts(a[..i], escape) + AttributePart(a[i].0, a[i].1, escape)
  {
    assert a[..i + 1][..i] == a[..i];
  }

  /** The number of custom attributes that are the boolean false. */
  function FalseCount(attrs: Dict<Value>): nat
    decreases |attrs|
  {
    if attrs == [] then 0
    else FalseCount(attrs[..|attrs| - 1]) + (if attrs[|attrs| - 1].1 == Bool(false) then 1 else 0)
  }

  /** The attributes render piece by piece: those of a longer list are
      those of its first part followed by those of the rest. */
  lemma {:induction false} CustomPartsAppend(a: Dict<Value>, b: Dict<Value>, escape: string -> string)
    ensures CustomParts(a + b, escape) == CustomParts(a, escape) + CustomParts(b, escape)
    decreases |b|
  {
    if b != [] {
      var n := |b| - 1;
      assert (a + b)[..|a + b| - 1] == a + b[..n];
      CustomPartsAppend(a, b[..n], escape);
    } else {
      assert a + b == a;
    }
  }

  /** Every custom attribute gives exactly one part, except the false
      booleans, which give none. */
  lemma {:induction false} CustomPartsCount(a: Dict<Value>, escape: string -> string)
    ensures |CustomParts(a, escape)| + FalseCount(a) == |a|
    decreases |a|
  {
    if a != [] {
      CustomPartsCount(a[..|a| - 1], escape);
    }
  }

  class Field {
    const name: string
    const kind: string
    var value: Value
    var labelText: Option<string>
    var placeholder: Option<string>
    var helperText: Option<string>
    var rules: seq<Value>
    var options: Value
    var required: bool
    var disabled: bool
    var readonly: bool
    var attributes: Dict<Value>
    var formatter: Option<Callback>
    var condition: Option<Callback>
    var group: Option<string>
    var tab: Option<string>
    var columnSpan: int
    var defaultValue: Value
    var dependsOn: Option<string>
    var dependsOnValues: seq<Value>
    var repeatable: bool
    var maxRepeat: int

    /** The grid span stays between 1 and 12. */
    ghost predicate Valid()
      reads this`columnSpan
    {
      1 <= columnSpan <= 12
    }

    /** Field::make($name, $type) */
    constructor (name: string, kind: string := "text")
      ensures Valid()
      ensures this.name == name && this.kind == kind
      ensures value == Null && defaultValue == Null
      ensures labelText == None && placeholder == None && helperText == None
      ensures rules == [] && options == List([]) && attributes == []
      ensures !required && !disabled && !readonly && !repeatable
      ensures formatter == None && condition == None && group == None && tab == None
      ensures columnSpan == 12 && dependsOn == None && dependsOnValues == [] && maxRepeat == 10
    {
      this.name := name;
      this.kind := kind;
      value := Null;
      labelText := None;
      placeholder := None;
      helperText := None;
      rules := [];
      options := List([]);
      required := false;
      disabled := false;
      readonly := false;
      attributes := [];
      formatter := None;
      condition := None;
      group := None;
      tab := None;
      columnSpan := 12;
      defaultValue := Null;
      dependsOn := None;
      dependsOnValues := [];
      repeatable := false;
      maxRepeat := 10;
    }

    method Label(l: string)
      modifies this`labelText
      ensures labelText == Some(l)
    {
      labelText := Some(l);
    }

    method Placeholder(p: string)
      modifies this`placeholder
      ensures placeholder == Some(p)
    {
      placeholder := Some(p);
    }

    method HelperText(t: string)
      modifies this`helperText
      ensures helperText == Some(t)
    {
      helperText := Some(t);
    }

    /** rules('a|b'): the trimmed pieces become the rules; a `required`
        among them sets the flag, and the flag is never cleared here. */
    method Rules(s: string)
      modifies this`rules, this`required
      ensures rules == RulesFromString(s)
      ensures required == (old(required) || Str("required") in rules)
    {
      rules := RulesFromString(s);
      if Str("required") in rules {
        required := true;
      }
    }

    /** rules([...]): the list is kept as given. */
    method RulesList(list: seq<Value>)
      modifies this`rules, this`required
      ensures rules == list
      ensures required == (old(required) || Str("required") in list)
    {
      rules := list;
      if Str("required") in rules {
        required := true;
      }
    }

    method Options(o: Value)
      modifies this`options
      ensures options == o
    {
      options := o;
    }

    /** required($b): sets the flag; when it is set, `required` joins the
        rules unless it is already there, so it is never doubled. Clearing
        the flag leaves the rules as they are. */
    method Required(b: bool := true)
      modifies this`required, this`rules
      ensures required == b
      ensures rules == if b && Str("required") !in old(rules) then old(rules) + [Str("required")] else old(rules)
      ensures b ==> Str("required") in rules
      ensures multiset(rules)[Str("required")] <= 1 || rules == old(rules)
    {
      required := b;
      if b && Str("required") !in rules {
        rules := rules + [Str("required")];
      }
    }

    method Disabled(b: bool := true)
      modifies this`disabled
      ensures disabled == b
    {
      disabled := b;
    }

    method Readonly(b: bool := true)
      modifies this`readonly
      ensures readonly == b
    {
      readonly := b;
    }

    method Attributes(a: Dict<Value>)
      modifies this`attributes
      ensures attributes == a
    {
      attributes := a;
    }

    method Formatter(f: Callback)
      modifies this`formatter
      ensures formatter == Some(f)
    {
      formatter := Some(f);
    }

    /** when($condition) */
    method When(c: Callback)
      modifies this`condition
      ensures condition == Some(c)
    {
      condition := Some(c);
    }

    method Group(g: string)
      modifies this`group
      ensures group == Some(g)
    {
      group := Some(g);
    }

    method Tab(t: string)
      modifies this`tab
      ensures tab == Some(t)
    {
      tab := Some(t);
    }

    /** columnSpan($n): the span is clamped into 1..12. */
    method ColumnSpan(n: int)
      modifies this`columnSpan
      ensures Valid()
      ensures columnSpan == ClampSpan(n)
    {
      columnSpan := ClampSpan(n);
    }

    method Default(d: Value)
      modifies this`defaultValue
      ensures defaultValue == d
    {
      defaultValue := d;
    }

    method DependsOn(fieldName: string, values: seq<Value> := [])
      modifies this`dependsOn, this`dependsOnValues
      ensures dependsOn == Some(fieldName) && dependsOnValues == values
    {
      dependsOn := Some(fieldName);
      dependsOnValues := values;
    }

    method Repeatable(b: bool := true, max: int := 10)
      modifies this`repeatable, this`maxRepeat
      ensures repeatable == b && maxRepeat == max
    {
      repeatable := b;
      maxRepeat := max;
    }

    /** value($v) */
    method SetValue(v: Value)
      modifies this`value
      ensures value == v
    {
      value := v;
    }

    /** getValue: the value unless it is null, then the default. */
    function GetValue(): (r: Value)
      reads this`value, this`defaultValue
      ensures value != Null ==> r == value
      ensures value == Null ==> r == defaultValue
    {
      if value != Null then value else defaultValue
    }

    /** getLabel: the label when it is truthy, otherwise the headline form
        of the name. */
    function GetLabel(inflect: Inflector): (r: string)
      reads this`labelText
      ensures TruthyText(labelText) ==> r == labelText.value
      ensures !TruthyText(labelText) ==> r == inflect.headline(name)
    {
      if TruthyText(labelText) then labelText.value else inflect.headline(name)
    }

    /** isVisible: the condition's answer on the form data, and true when
        no condition is set. */
    function IsVisible(call: (Callback, Value) -> Value, formData: Value := List([])): (r: bool)
      reads this`condition
      ensures condition.None? ==> r
      ensures condition.Some? ==> r == Truthy(call(condition.value, formData))
    {
      match condition
      case None => true
      case Some(c) => Truthy(call(c, formData))
    }

    /** getFormattedValue: the formatter applied to getValue, or getValue
        itself without one. */
    function GetFormattedValue(call: (Callback, Value) -> Value): (r: Value)
      reads this`formatter, this`value, this`defaultValue
      ensures formatter.None? ==> r == GetValue()
      ensures formatter.Some? ==> r == call(formatter.value, GetValue())
    {
      match formatter
      case None => GetValue()
      case Some(f) => call(f, GetValue())
    }

    /** The flags getAttributesString emits first, in the order required,
        disabled, readonly, then the escaped placeholder when it is truthy. */
    function FlagParts(escape: string -> string): seq<string>
      reads this`required, this`disabled, this`readonly, this`placeholder
    {
      (if required then ["required"] else [])
        + (if disabled then ["disabled"] else [])
        + (if readonly then ["readonly"] else [])
        + (if TruthyText(placeholder) then ["placeholder=\"" + escape(placeholder.value) + "\""] else [])
    }

    /** The parts getAttributesString joins: the flags, then the custom
        attributes in insertion order. */
    function AttributeParts(escape: string -> string): seq<string>
      reads this`required, this`disabled, this`readonly, this`placeholder, this`attributes
    {
      FlagParts(escape) + CustomParts(attributes, escape)
    }

    /** getAttributesString: the parts joined with single spaces. */
    method GetAttributesString(escape: string -> string) returns (s: string)
      ensures s == Implode(" ", AttributeParts(escape))
    {
      var attrs := FlagAttributes(escape);
      ghost var flags := attrs;
      assert attributes[..0] == [];
      var i := 0;
      while i < |attributes|
        invariant 0 <= i <= |attributes|
        invariant attrs == flags + CustomParts(attributes[..i], escape)
      {
        var key := attributes[i].0;
        var v := attributes[i].1;
        if v.Bool? {
          if v.b {
            attrs := attrs + [key];
          }
        } else {
          attrs := attrs + [key + "=\"" + escape(ToText(v)) + "\""];
        }
        CustomPartsSnoc(attributes, i, escape);
        i := i + 1;
      }
      assert attributes[..i] == attributes;
      s := Implode(" ", attrs);
    }

    /** The flag part of getAttributesString, before its loop. */
    method FlagAttributes(escape: string -> string) returns (attrs: seq<string>)
      ensures attrs == FlagParts(escape)
    {
      attrs := [];
      if required {
        attrs := attrs + ["required"];
      }
      if disabled {
        attrs := attrs + ["disabled"];
      }
      if readonly {
        attrs := attrs + ["readonly"];
      }
      if TruthyText(placeholder) {
        attrs := attrs + ["placeholder=\"" + escape(placeholder.value) + "\""];
      }
    }

    /** toArray: the field's twenty properties, with the value and the
        label as getValue and getLabel give them. */
    function ToArray(inflect: Inflector): Dict<Value>
      reads this
    {
      [("name", Str(name)), ("type", Str(kind)), ("value", GetValue()), ("label", Str(GetLabel(inflect))),
       ("placeholder", TextValue(placeholder)), ("helperText", TextValue(helperText)),
       ("rules", List(rules)), ("options", options), ("required", Bool(required)),
       ("disabled", Bool(disabled)), ("readonly", Bool(readonly)), ("attributes", DictValue(attributes)),
       ("group", TextValue(group)), ("tab", TextValue(tab)), ("columnSpan", Int(columnSpan)),
       ("default", defaultValue), ("dependsOn", TextValue(dependsOn)), ("dependsOnValues", List(dependsOnValues)),
       ("repeatable", Bool(repeatable)), ("maxRepeat", Int(maxRepeat))]
    }
  }

  /** A nullable string property as a PHP value. */
  function TextValue(s: Option<string>): Value {
    match s
    case None => Null
    case Some(t) => Str(t)
  }

  function DictValue(d: Dict<Value>): Value {
    Dict(map k | k in Keys(d) :: Get(d, k).value)
  }

  /** The keys of toArray, in order. */
  const ArrayKeys: seq<string> :=
    ["name", "type", "value", "label", "placeholder", "helperText", "rules", "options", "required", "disabled",
     "readonly", "attributes", "group", "tab", "columnSpan", "default", "dependsOn", "dependsOnValues",
     "repeatable", "maxRepeat"]

  lemma ArrayKeysDistinct()
    ensures forall i, j :: 0 <= i < j < |ArrayKeys| ==> ArrayKeys[i] != ArrayKeys[j]
  {
  }

  /** toArray has twenty distinct keys; its `tab` and `group` entries are
      the field's own, null when unset, and its `value` is getValue. */
  lemma ToArraySpec(f: Field, inflect: Inflector)
    ensures |f.ToArray(inflect)| == 20 && DistinctKeys(f.ToArray(inflect))
    ensures Get(f.ToArray(inflect), "tab") == Some(TextValue(f.tab))
    ensures Get(f.ToArray(inflect), "group") == Some(TextValue(f.group))
    ensures Get(f.ToArray(inflect), "value") == Some(f.GetValue())
    ensures Get(f.ToArray(inflect), "label") == Some(Str(f.GetLabel(inflect)))
  {
    var a := f.ToArray(inflect);
    assert Keys(a) == ArrayKeys;
    ArrayKeysDistinct();
    GetAt(a, 2);
    GetAt(a, 3);
    GetAt(a, 12);
    GetAt(a, 13);
  }
}
