/** The form builder of the BREAD screens: the fields it registers by name,
    the validation rules it gathers from them, the data it hands to the
    model on save (only fillable fields, through the beforeSave hook), and
    its fields grouped by tab and by group. */
module Forms {
  import opened Values
  import opened PhpStrings
  import opened OrderedMaps
  import opened Fields

  /** An element of the array given to the constructor or to fields(). */
  datatype FieldArg = FieldObject(field: Field) | FieldName(name: string) | OtherArg(value: Value)

  /** The data validate() and save() are given: a request, an array or an
      Arrayable all come down to an array of entries; anything else is
      `NoData`. */
  datatype Input = NoData | Data(entries: Dict<Value>)

  /** What the validator answers: its errors, or the validated data. */
  datatype ValidatorResult = Failed(errors: Dict<seq<string>>) | Passed(data: Dict<Value>)

  /** How validate() decides. */
  datatype Check = NoInput | Rejected(errors: Dict<seq<string>>) | Accepted(data: Dict<Value>)

  /** What save() returns: false, or the model once filled with `filled`
      and saved. */
  datatype SaveOutcome = NotSaved | Saved(filled: Dict<Value>)

  /** Fields keyed by name, each under its own name. */
  predicate Keyed(fs: Dict<Field>) {
    DistinctKeys(fs) && forall i :: 0 <= i < |fs| ==> fs[i].1.name == fs[i].0
  }

  /** Storing a field under its own name keeps the fields keyed. */
  lemma {:induction false} PutKeyed(fs: Dict<Field>, f: Field)
    requires Keyed(fs)
    ensures Keyed(Put(fs, f.name, f))
  {
    PutDistinct(fs, f.name, f);
    var next := Put(fs, f.name, f);
    forall i | 0 <= i < |next| ensures next[i].1.name == next[i].0 {
      PutKeepsEntries(fs, f.name, f, i);
    }
  }

  /** The field objects among the constructor's arguments, each under its
      name; anything else is skipped. */
  function FieldItems(items: seq<FieldArg>): (r: seq<Option<(string, Field)>>)
    ensures |r| == |items|
    ensures forall i :: 0 <= i < |items| ==>
      r[i] == if items[i].FieldObject? then Some((items[i].field.name, items[i].field)) else None
  {
    seq(|items|, i requires 0 <= i < |items| =>
      if items[i].FieldObject? then Some((items[i].field.name, items[i].field)) else None)
  }

  /** The value a request or a model supplies for a name: `input($name)`
      and the model's `isset`/`get` give nothing for a missing name or a
      null. */
  function Supplied(source: map<string, Value>, name: string): (r: Option<Value>)
    ensures r.Some? <==> name in source && source[name] != Null
    ensures r.Some? ==> r.value == source[name]
  {
    if name in source && source[name] != Null then Some(source[name]) else None
  }

  /** The names the fields report, in order. */
  function Names(fs: Dict<Field>): (r: seq<string>)
    ensures |r| == |fs|
    ensures forall i :: 0 <= i < |fs| ==> r[i] == fs[i].1.name
  {
    seq(|fs|, i requires 0 <= i < |fs| => fs[i].1.name)
  }

  /** A single rule name with no `|` and no surrounding blanks is read back
      by rules() as exactly that rule. */
  lemma SingleRule(name: string)
    requires '|' !in name && Trimmed(name, Whitespace)
    ensures RulesFromString(name) == [Str(name)]
  {
    RulesRoundTrip([name]);
    assert Implode("|", [name]) == name;
  }

  /** The rules validate() checks: each field with a non-empty rule list,
      under the field's name. */
  function RuleMap(fs: seq<Field>): Dict<seq<Value>>
    reads fs
    decreases |fs|
  {
    if fs == [] then []
    else
      var n := |fs| - 1;
      if fs[n].rules != [] then Put(RuleMap(fs[..n]), fs[n].name, fs[n].rules) else RuleMap(fs[..n])
  }

  /** A name no field has carries no rules. */
  lemma {:induction false} RuleMapAbsent(fs: seq<Field>, k: string)
    requires forall i :: 0 <= i < |fs| ==> fs[i].name != k
    ensures Get(RuleMap(fs), k) == None
    decreases |fs|
  {
    if fs != [] {
      var n := |fs| - 1;
      assert forall i :: 0 <= i < n ==> fs[..n][i] == fs[i];
      RuleMapAbsent(fs[..n], k);
      if fs[n].rules != [] {
        GetPut(RuleMap(fs[..n]), fs[n].name, fs[n].rules, k);
      }
    }
  }

  /** Among fields with distinct names, a field's name carries that
      field's rules exactly when they are not empty. */
  lemma {:induction false} RuleMapAt(fs: seq<Field>, i: int)
    requires forall a, b :: 0 <= a < b < |fs| ==> fs[a].name != fs[b].name
    requires 0 <= i < |fs|
    ensures Get(RuleMap(fs), fs[i].name) == if fs[i].rules != [] then Some(fs[i].rules) else None
    decreases |fs|
  {
    var n := |fs| - 1;
    var k := fs[i].name;
    var init := fs[..n];
    assert forall a :: 0 <= a < n ==> init[a] == fs[a];
    if i == n {
      RuleMapAbsent(init, k);
    } else {
      RuleMapAt(init, i);
    }
    if fs[n].rules != [] {
      GetPut(RuleMap(init), fs[n].name, fs[n].rules, k);
    }
  }

  /** With no rules on any field, nothing is left to check. */
  lemma {:induction false} RuleMapEmpty(fs: seq<Field>)
    requires forall i :: 0 <= i < |fs| ==> fs[i].rules == []
    ensures RuleMap(fs) == []
    decreases |fs|
  {
    if fs != [] {
      var n := |fs| - 1;
      assert forall i :: 0 <= i < n ==> fs[..n][i] == fs[i];
      RuleMapEmpty(fs[..n]);
    }
  }

  /** validate(): without data it fails; with no rules any data is valid as
      it stands; otherwise the validator decides. */
  function CheckInput(rules: Dict<seq<Value>>, data: Input,
                      validator: (Dict<seq<Value>>, Dict<Value>) -> ValidatorResult): (r: Check)
    ensures data.NoData? <==> r.NoInput?
    ensures data.Data? && rules == [] ==> r == Accepted(data.entries)
    ensures data.Data? && rules != [] && validator(rules, data.entries).Failed? ==>
      r == Rejected(validator(rules, data.entries).errors)
    ensures data.Data? && rules != [] && validator(rules, data.entries).Passed? ==>
      r == Accepted(validator(rules, data.entries).data)
  {
    match data
    case NoData => NoInput
    case Data(entries) =>
      if rules == [] then Accepted(entries)
      else
        match validator(rules, entries)
        case Failed(errors) => Rejected(errors)
        case Passed(validated) => Accepted(validated)
  }

  /** When no field carries a rule, any data given is accepted unchanged,
      whatever the validator would say. */
  lemma NoRulesAcceptsAll(fs: seq<Field>, entries: Dict<Value>,
                          validator: (Dict<seq<Value>>, Dict<Value>) -> ValidatorResult)
    requires forall i :: 0 <= i < |fs| ==> fs[i].rules == []
    ensures CheckInput(RuleMap(fs), Data(entries), validator) == Accepted(entries)
  {
    RuleMapEmpty(fs);
  }

  /** The data save() hands on: for each field named in `names` (all of
      them when `fillable` is empty, else only those it lists), the entry
      of `data` under that name, when there is one. */
  function FillableData(names: seq<string>, fillable: seq<string>, data: Dict<Value>): Dict<Value>
    decreases |names|
  {
    if names == [] then []
    else
      var n := |names| - 1;
      var r := FillableData(names[..n], fillable, data);
      var k := names[n];
      if (fillable == [] || k in fillable) && Has(data, k) then Put(r, k, Get(data, k).value) else r
  }

  /** A key is saved exactly when it names a field, is fillable, and is in
      the data, and then with the data's value; the keys stay distinct. */
  lemma {:induction false} FillableDataSpec(names: seq<string>, fillable: seq<string>, data: Dict<Value>, k: string)
    ensures Get(FillableData(names, fillable, data), k) ==
      if k in names && (fillable == [] || k in fillable) && Has(data, k) then Get(data, k) else None
    ensures DistinctKeys(FillableData(names, fillable, data))
    decreases |names|
  {
    if names != [] {
      var n := |names| - 1;
      var r := FillableData(names[..n], fillable, data);
      FillableDataSpec(names[..n], fillable, data, k);
      assert names == names[..n] + [names[n]];
      if (fillable == [] || names[n] in fillable) && Has(data, names[n]) {
        GetPut(r, names[n], Get(data, names[n]).value, k);
        PutDistinct(r, names[n], Get(data, names[n]).value);
      }
    }
  }

  /** The tab (or group) each field is filed under: its own, or "default"
      when it has none. */
  function SectionKeys(fs: seq<Field>, byTab: bool): (r: seq<string>)
    reads fs
    ensures |r| == |fs|
    ensures forall i :: 0 <= i < |fs| ==> r[i] == (if byTab then fs[i].tab else fs[i].group).GetOr("default")
    decreases |fs|
  {
    if fs == [] then []
    else
      var n := |fs| - 1;
      SectionKeys(fs[..n], byTab) + [(if byTab then fs[n].tab else fs[n].group).GetOr("default")]
  }

  class Form {
    var fields: Dict<Field>
    var errors: Dict<seq<string>>
    var validatedData: Dict<Value>
    var action: Option<string>
    var httpMethod: string
    var tabs: Dict<string>
    var groups: Dict<string>
    var fillable: seq<string>
    var submitLabel: string
    var beforeSave: Option<Callback>
    var afterSave: Option<Callback>

    ghost function FieldObjects(): set<Field>
      reads this`fields
    {
      set i | 0 <= i < |fields| :: fields[i].1
    }

    ghost predicate Valid()
      reads this`fields
    {
      Keyed(fields)
    }

    /** Form::make($model, $fields): only the Field objects are kept, each
        under its name; when the model exists (`model` is its attributes),
        the fields take their values from it. */
    constructor (model: Option<map<string, Value>>, items: seq<FieldArg> := [])
      modifies set i | 0 <= i < |items| && items[i].FieldObject? :: items[i].field
      ensures Valid()
      ensures fields == PutEach([], FieldItems(items))
      ensures forall j :: 0 <= j < |fields| ==> exists i :: 0 <= i < |items| && items[i] == FieldObject(fields[j].1)
      ensures forall j :: 0 <= j < |fields| ==>
        (var f := fields[j].1; f.value == if model.Some? then Supplied(model.value, f.name).GetOr(old(f.value)) else old(f.value))
      ensures errors == [] && validatedData == [] && action == None && httpMethod == "POST"
      ensures tabs == [] && groups == [] && fillable == [] && submitLabel == "Save"
      ensures beforeSave == None && afterSave == None
    {
      var kept := FieldItems(items);
      var fs: Dict<Field> := [];
      var i := 0;
      while i < |items|
        invariant 0 <= i <= |items|
        invariant Keyed(fs)
        invariant fs == PutEach([], kept[..i])
        invariant forall k :: 0 <= k < |items| && items[k].FieldObject? ==> unchanged(items[k].field)
      {
        assert kept[..i + 1][..i] == kept[..i];
        match items[i] {
          case FieldObject(f) =>
            PutKeyed(fs, f);
            fs := Put(fs, f.name, f);
          case FieldName(_) =>
          case OtherArg(_) =>
        }
        i := i + 1;
      }
      assert kept[..i] == kept;
      fields := fs;
      errors := [];
      validatedData := [];
      action := None;
      httpMethod := "POST";
      tabs := [];
      groups := [];
      fillable := [];
      submitLabel := "Save";
      beforeSave := None;
      afterSave := None;
      new;
      forall j | 0 <= j < |fields| ensures exists i :: 0 <= i < |items| && items[i] == FieldObject(fields[j].1) {
        PutEachEntries([], kept, j);
        var i :| 0 <= i < |kept| && kept[i] == Some(fields[j]);
        assert items[i] == FieldObject(fields[j].1);
      }
      if model.Some? {
        FillValues(model.value);
      }
    }

    /** field($name, $type), and text(), textarea(), select() and the other
        plain builders: a new field of that type under its name. */
    method AddField(name: string, kind: string := "text") returns (f: Field)
      requires Valid()
      modifies this`fields
      ensures Valid()
      ensures fresh(f) && f.name == name && f.kind == kind && f.Valid()
      ensures f.rules == [] && !f.required && !f.repeatable && f.value == Null
      ensures fields == Put(old(fields), name, f)
    {
      f := new Field(name, kind);
      PutKeyed(fields, f);
      fields := Put(fields, name, f);
    }

    /** email($name): an email field that carries the `email` rule. */
    method Email(name: string) returns (f: Field)
      requires Valid()
      modifies this`fields
      ensures Valid()
      ensures fresh(f) && f.name == name && f.kind == "email" && f.rules == [Str("email")] && !f.required
      ensures fields == Put(old(fields), name, f)
    {
      f := AddField(name, "email");
      f.Rules("email");
      SingleRule("email");
    }

    /** image($name): an image field that carries the `image` rule. */
    method Image(name: string) returns (f: Field)
      requires Valid()
      modifies this`fields
      ensures Valid()
      ensures fresh(f) && f.name == name && f.kind == "image" && f.rules == [Str("image")] && !f.required
      ensures fields == Put(old(fields), name, f)
    {
      f := AddField(name, "image");
      f.Rules("image");
      SingleRule("image");
    }

    /** url($name): a url field that carries the `url` rule. */
    method Url(name: string) returns (f: Field)
      requires Valid()
      modifies this`fields
      ensures Valid()
      ensures fresh(f) && f.name == name && f.kind == "url" && f.rules == [Str("url")] && !f.required
      ensures fields == Put(old(fields), name, f)
    {
      f := AddField(name, "url");
      f.Rules("url");
      SingleRule("url");
    }

    /** repeater($name): a repeatable field, up to ten times by default. */
    method Repeater(name: string) returns (f: Field)
      requires Valid()
      modifies this`fields
      ensures Valid()
      ensures fresh(f) && f.name == name && f.kind == "repeater" && f.repeatable && f.maxRepeat == 10
      ensures fields == Put(old(fields), name, f)
    {
      f := AddField(name, "repeater");
      f.Repeatable();
    }

    /** fields([...]): each Field is stored under its name and each string
        becomes a new text field; anything else is ignored. The ghost
        `stored` says, item by item, what was stored. */
    method AddFields(items: seq<FieldArg>) returns (ghost stored: seq<Option<(string, Field)>>)
      requires Valid()
      modifies this`fields
      ensures Valid()
      ensures |stored| == |items|
      ensures forall i :: 0 <= i < |items| && items[i].FieldObject? ==>
        stored[i] == Some((items[i].field.name, items[i].field))
      ensures forall i :: 0 <= i < |items| && items[i].FieldName? ==>
        stored[i].Some? && stored[i].value.0 == items[i].name && stored[i].value.1.name == items[i].name &&
        fresh(stored[i].value.1) && stored[i].value.1.kind == "text"
      ensures forall i :: 0 <= i < |items| && items[i].OtherArg? ==> stored[i].None?
      ensures fields == PutEach(old(fields), stored)
    {
      stored := [];
      var i := 0;
      while i < |items|
        invariant 0 <= i <= |items|
        invariant Valid()
        invariant |stored| == i
        invariant forall j :: 0 <= j < i && items[j].FieldObject? ==>
          stored[j] == Some((items[j].field.name, items[j].field))
        invariant forall j :: 0 <= j < i && items[j].FieldName? ==>
          stored[j].Some? && stored[j].value.0 == items[j].name && stored[j].value.1.name == items[j].name &&
          fresh(stored[j].value.1) && stored[j].value.1.kind == "text"
        invariant forall j :: 0 <= j < i && items[j].OtherArg? ==> stored[j].None?
        invariant fields == PutEach(old(fields), stored)
      {
        match items[i] {
          case FieldObject(f) =>
            PutKeyed(fields, f);
            fields := Put(fields, f.name, f);
            stored := stored + [Some((f.name, f))];
          case FieldName(name) =>
            var f := AddField(name);
            stored := stored + [Some((name, f))];
          case OtherArg(_) =>
            stored := stored + [None];
        }
        assert stored[..i] == stored[..|stored| - 1];
        i := i + 1;
      }
    }

    method Action(url: string)
      modifies this`action
      ensures action == Some(url)
    {
      action := Some(url);
    }

    /** method($m): kept upper-cased. */
    method Method(m: string)
      modifies this`httpMethod
      ensures httpMethod == Upper(m)
      ensures forall i :: 0 <= i < |m| ==> 'a' <= m[i] <= 'z' ==> httpMethod[i] == m[i] - 'a' + 'A'
    {
      httpMethod := Upper(m);
    }

    method SubmitLabel(l: string)
      modifies this`submitLabel
      ensures submitLabel == l
    {
      submitLabel := l;
    }

    method Tab(name: string, caption: string)
      modifies this`tabs
      ensures tabs == Put(old(tabs), name, caption)
    {
      tabs := Put(tabs, name, caption);
    }

    method Group(name: string, caption: string)
      modifies this`groups
      ensures groups == Put(old(groups), name, caption)
    {
      groups := Put(groups, name, caption);
    }

    method BeforeSave(c: Callback)
      modifies this`beforeSave
      ensures beforeSave == Some(c)
    {
      beforeSave := Some(c);
    }

    method AfterSave(c: Callback)
      modifies this`afterSave
      ensures afterSave == Some(c)
    {
      afterSave := Some(c);
    }

    method Fillable(names: seq<string>)
      modifies this`fillable
      ensures fillable == names
    {
      fillable := names;
    }

    /** The loop of fillFromRequest and fillFromModel: every field the
        source supplies a value for takes that value; the others, and every
        field's rules, tab and group, stay as they were. */
    method FillValues(source: map<string, Value>)
      requires Valid()
      modifies ValuesOf(fields)
      ensures forall i :: 0 <= i < |fields| ==>
        fields[i].1.value == Supplied(source, fields[i].1.name).GetOr(old(fields[i].1.value))
      ensures forall i :: 0 <= i < |fields| ==>
        fields[i].1.rules == old(fields[i].1.rules) && fields[i].1.tab == old(fields[i].1.tab) &&
        fields[i].1.group == old(fields[i].1.group)
    {
      var i := 0;
      while i < |fields|
        invariant 0 <= i <= |fields|
        invariant forall j :: 0 <= j < i ==>
          fields[j].1.value == Supplied(source, fields[j].1.name).GetOr(old(fields[j].1.value))
        invariant forall j :: i <= j < |fields| ==> fields[j].1.value == old(fields[j].1.value)
        invariant forall j :: 0 <= j < |fields| ==>
          fields[j].1.rules == old(fields[j].1.rules) && fields[j].1.tab == old(fields[j].1.tab) &&
          fields[j].1.group == old(fields[j].1.group)
      {
        var f := fields[i].1;
        var v := Supplied(source, f.name);
        if v.Some? {
          f.SetValue(v.value);
        }
        i := i + 1;
      }
    }

    /** fillFromRequest($request) */
    method FillFromRequest(request: map<string, Value>)
      requires Valid()
      modifies ValuesOf(fields)
      ensures forall i :: 0 <= i < |fields| ==>
        fields[i].1.value == Supplied(request, fields[i].1.name).GetOr(old(fields[i].1.value))
      ensures forall i :: 0 <= i < |fields| ==>
        fields[i].1.rules == old(fields[i].1.rules) && fields[i].1.tab == old(fields[i].1.tab) &&
        fields[i].1.group == old(fields[i].1.group)
    {
      FillValues(request);
    }

    /** The rule-gathering loop of validate(). */
    method CollectRules() returns (rules: Dict<seq<Value>>)
      ensures rules == RuleMap(ValuesOf(fields))
    {
      rules := [];
      ghost var fs := ValuesOf(fields);
      var i := 0;
      while i < |fields|
        invariant 0 <= i <= |fields|
        invariant rules == RuleMap(fs[..i])
      {
        assert fs[..i + 1][..i] == fs[..i];
        var f := fields[i].1;
        if f.rules != [] {
          rules := Put(rules, f.name, f.rules);
        }
        i := i + 1;
      }
      assert fs[..i] == fs;
    }

    /** validate($data): true when the data is valid; the validated data is
        kept when it is, the validator's errors when it is not, and nothing
        changes without data. */
    method Validate(validator: (Dict<seq<Value>>, Dict<Value>) -> ValidatorResult, data: Input := NoData) returns (ok: bool)
      modifies this`errors, this`validatedData
      ensures ok <==> CheckInput(RuleMap(ValuesOf(fields)), data, validator).Accepted?
      ensures !ok ==> validatedData == old(validatedData)
      ensures ok ==> validatedData == CheckInput(RuleMap(ValuesOf(fields)), data, validator).data
      ensures errors == match CheckInput(RuleMap(ValuesOf(fields)), data, validator)
                        case Rejected(e) => e
                        case _ => old(errors)
    {
      if data.NoData? {
        return false;
      }
      var rules := CollectRules();
      if rules == [] {
        validatedData := data.entries;
        return true;
      }
      var result := validator(rules, data.entries);
      if result.Failed? {
        errors := result.errors;
        return false;
      }
      validatedData := result.data;
      ok := true;
    }

    /** The field-filtering loop of save(). */
    method CollectFillable(toSave: Dict<Value>) returns (filled: Dict<Value>)
      ensures filled == FillableData(Names(fields), fillable, toSave)
    {
      filled := [];
      var names := Names(fields);
      var i := 0;
      while i < |fields|
        invariant 0 <= i <= |fields|
        invariant filled == FillableData(names[..i], fillable, toSave)
      {
        assert names[..i + 1][..i] == names[..i];
        var name := fields[i].1.name;
        if fillable == [] || name in fillable {
          var v := Get(toSave, name);
          if v.Some? {
            filled := Put(filled, name, v.value);
          }
        }
        i := i + 1;
      }
      assert names[..i] == names;
    }

    /** The data the model is filled with: the fillable entries, replaced
        by what beforeSave returns unless it returns null. */
    function Prepared(toSave: Dict<Value>, callBefore: (Callback, Dict<Value>) -> Option<Dict<Value>>): Dict<Value>
      reads this`fields, this`fillable, this`beforeSave
    {
      var filled := FillableData(Names(fields), fillable, toSave);
      match beforeSave
      case None => filled
      case Some(c) => callBefore(c, filled).GetOr(filled)
    }

    /** save($data, $validate): validates first when asked to (and gives up
        when that fails), otherwise takes the data as given (and gives up
        without data); then fills the model with the prepared data and
        returns it when the model saves. */
    method Save(validator: (Dict<seq<Value>>, Dict<Value>) -> ValidatorResult,
                callBefore: (Callback, Dict<Value>) -> Option<Dict<Value>>,
                modelSave: Dict<Value> -> bool,
                data: Input := NoData, validate: bool := true) returns (outcome: SaveOutcome)
      modifies this`errors, this`validatedData
      ensures !validate ==> errors == old(errors) && validatedData == old(validatedData)
      ensures validate ==> (errors == match CheckInput(RuleMap(ValuesOf(fields)), data, validator)
                                      case Rejected(e) => e
                                      case _ => old(errors))
      ensures validate ==> (validatedData ==
        var checked := CheckInput(RuleMap(ValuesOf(fields)), data, validator);
        if checked.Accepted? then checked.data else old(validatedData))
      ensures !validate ==> (outcome ==
        if data.NoData? || !modelSave(Prepared(data.entries, callBefore)) then NotSaved
        else Saved(Prepared(data.entries, callBefore)))
      ensures validate ==> (outcome ==
        var checked := CheckInput(RuleMap(ValuesOf(fields)), data, validator);
        if !checked.Accepted? || !modelSave(Prepared(checked.data, callBefore)) then NotSaved
        else Saved(Prepared(checked.data, callBefore)))
    {
      var toSave: Dict<Value>;
      if validate {
        var ok := Validate(validator, data);
        if !ok {
          return NotSaved;
        }
        toSave := validatedData;
      } else {
        if data.NoData? {
          return NotSaved;
        }
        toSave := data.entries;
      }
      var filled := CollectFillable(toSave);
      if beforeSave.Some? {
        filled := callBefore(beforeSave.value, filled).GetOr(filled);
      }
      var saved := modelSave(filled);
      if !saved {
        return NotSaved;
      }
      outcome := Saved(filled);
    }

    /** getError($name): the first message for that field, if any. */
    function GetError(name: string): (r: Option<string>)
      reads this`errors
      ensures r.Some? <==> Get(errors, name).Some? && Get(errors, name).value != []
      ensures r.Some? ==> r.value == Get(errors, name).value[0]
    {
      match Get(errors, name)
      case Some(messages) => if messages != [] then Some(messages[0]) else None
      case None => None
    }

    /** hasError($name): whether the validator reported on that field, even
        with no message. */
    predicate HasError(name: string): (b: bool)
      reads this`errors
      ensures b <==> name in Keys(errors)
      ensures GetError(name).Some? ==> b
    {
      Has(errors, name)
    }

    /** getField($name) */
    function GetField(name: string): (r: Option<Field>)
      reads this`fields
      ensures Valid() && r.Some? ==> r.value.name == name
      ensures r.Some? <==> name in Keys(fields)
    {
      Get(fields, name)
    }

    /** The grouping loop of getFieldsByTabs and getFieldsByGroups. */
    method GroupFields(byTab: bool) returns (grouped: Dict<seq<Field>>)
      ensures grouped == GroupByKeys(ValuesOf(fields), SectionKeys(ValuesOf(fields), byTab))
    {
      grouped := [];
      ghost var xs, keys := ValuesOf(fields), SectionKeys(ValuesOf(fields), byTab);
      var i := 0;
      while i < |fields|
        invariant 0 <= i <= |fields|
        invariant grouped == GroupByKeys(xs[..i], keys[..i])
      {
        assert xs[..i + 1][..i] == xs[..i] && keys[..i + 1][..i] == keys[..i];
        var f := fields[i].1;
        var key := (if byTab then f.tab else f.group).GetOr("default");
        grouped := Append(grouped, key, f);
        i := i + 1;
      }
      assert xs[..i] == xs && keys[..i] == keys;
    }

    /** getFieldsByTabs: every field in the list of its tab ("default" when
        it has none) and in no other, in field order, with one non-empty
        list per tab that occurs, the tabs in the order they first occur. */
    method GetFieldsByTabs() returns (grouped: Dict<seq<Field>>)
      ensures DistinctKeys(grouped)
      ensures Keys(grouped) == FirstOccurrences(SectionKeys(ValuesOf(fields), true))
      ensures forall b :: (Get(grouped, b) ==
        if b in SectionKeys(ValuesOf(fields), true) then Some(Bucket(ValuesOf(fields), SectionKeys(ValuesOf(fields), true), b)) else None)
    {
      grouped := GroupFields(true);
      forall b ensures Get(grouped, b) ==
        if b in SectionKeys(ValuesOf(fields), true) then Some(Bucket(ValuesOf(fields), SectionKeys(ValuesOf(fields), true), b)) else None
      {
        GroupByKeysSpec(ValuesOf(fields), SectionKeys(ValuesOf(fields), true), b);
      }
      GroupByKeysDistinct(ValuesOf(fields), SectionKeys(ValuesOf(fields), true));
      GroupByKeysOrder(ValuesOf(fields), SectionKeys(ValuesOf(fields), true));
    }

    /** getFieldsByGroups: as getFieldsByTabs, by group. */
    method GetFieldsByGroups() returns (grouped: Dict<seq<Field>>)
      ensures DistinctKeys(grouped)
      ensures Keys(grouped) == FirstOccurrences(SectionKeys(ValuesOf(fields), false))
      ensures forall b :: (Get(grouped, b) ==
        if b in SectionKeys(ValuesOf(fields), false) then Some(Bucket(ValuesOf(fields), SectionKeys(ValuesOf(fields), false), b)) else None)
    {
      grouped := GroupFields(false);
      forall b ensures Get(grouped, b) ==
        if b in SectionKeys(ValuesOf(fields), false) then Some(Bucket(ValuesOf(fields), SectionKeys(ValuesOf(fields), false), b)) else None
      {
        GroupByKeysSpec(ValuesOf(fields), SectionKeys(ValuesOf(fields), false), b);
      }
      GroupByKeysDistinct(ValuesOf(fields), SectionKeys(ValuesOf(fields), false));
      GroupByKeysOrder(ValuesOf(fields), SectionKeys(ValuesOf(fields), false));
    }
  }
}
