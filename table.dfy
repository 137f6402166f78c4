/** The table builder of the BREAD screens: the columns, filters and row
    actions it registers by name, and the decisions its data query takes
    from the request (which column to sort by, which filters to run) and
    the row-action links it renders. */
module Tables {
  import opened Values
  import opened PhpStrings
  import opened OrderedMaps
  import opened Columns

  /** A registered filter: a choice list with its optional query closure,
      or the date-range filter, which has no query. */
  datatype Filter =
    | Choice(caption: string, options: Dict<Value>, query: Option<Callback>)
    | DateRange(caption: string, column: string)

  /** An element of the array given to columns(). */
  datatype ColumnArg = ColumnObject(column: Column) | ColumnName(name: string) | OtherArg(value: Value)

  /** The statuses statusFilter offers when it is given none. */
  const DefaultStatuses: Dict<Value> :=
    [("published", Str("Published")), ("draft", Str("Draft")), ("pending", Str("Pending")), ("trash", Str("Trash"))]

  /** The array action() stores: label and url, merged with the options. */
  function ActionEntry(caption: string, url: Value, options: Dict<Value>): Dict<Value> {
    Merge([("label", Str(caption)), ("url", url)], options)
  }

  /** An action's label and url come first; an option of the same name
      overrides either, and every other option is kept. */
  lemma ActionEntrySpec(caption: string, url: Value, options: Dict<Value>, k: string)
    requires DistinctKeys(options)
    ensures |ActionEntry(caption, url, options)| >= 2
    ensures Keys(ActionEntry(caption, url, options))[..2] == ["label", "url"]
    ensures DistinctKeys(ActionEntry(caption, url, options))
    ensures Get(ActionEntry(caption, url, options), k) ==
      if Has(options, k) then Get(options, k)
      else if k == "label" then Some(Str(caption))
      else if k == "url" then Some(url)
      else None
  {
    var base := [("label", Str(caption)), ("url", url)];
    MergeKeepsOrder(base, options);
    MergeDistinct(base, options);
    MergeGet(base, options, k);
    assert Keys(base) == ["label", "url"];
  }

  /** Whether getData runs a filter's query: the request carries the
      filter's name with a value that is neither null nor the empty string,
      and the filter has a query. */
  predicate FilterApplies(name: string, f: Filter, request: map<string, Value>) {
    name in request && request[name] != Null && request[name] != Str("") && f.Choice? && f.query.Some?
  }

  /** The query calls getData makes for the filters, in their order, each
      with the request's value. */
  function FilterCalls(filters: Dict<Filter>, request: map<string, Value>): seq<(Callback, Value)>
    decreases |filters|
  {
    if filters == [] then []
    else
      var n := |filters| - 1;
      var (name, f) := filters[n];
      FilterCalls(filters[..n], request) + (if FilterApplies(name, f, request) then [(f.query.value, request[name])] else [])
  }

  /** A call is made for exactly the filters that apply, with the value the
      request gives that filter. */
  lemma {:induction false} FilterCallsSpec(filters: Dict<Filter>, request: map<string, Value>, q: Callback, v: Value)
    ensures (q, v) in FilterCalls(filters, request) <==>
      exists i :: 0 <= i < |filters| && FilterApplies(filters[i].0, filters[i].1, request)
                  && q == filters[i].1.query.value && v == request[filters[i].0]
    decreases |filters|
  {
    if filters != [] {
      var n := |filters| - 1;
      FilterCallsSpec(filters[..n], request, q, v);
      if exists i :: 0 <= i < |filters| && FilterApplies(filters[i].0, filters[i].1, request)
                     && q == filters[i].1.query.value && v == request[filters[i].0] {
        var i :| 0 <= i < |filters| && FilterApplies(filters[i].0, filters[i].1, request)
                 && q == filters[i].1.query.value && v == request[filters[i].0];
        if i < n {
          assert filters[..n][i] == filters[i];
        }
      }
    }
  }

  /** `$request->input($key, $default)`: the request's value, or the
      default when the request does not carry the key. */
  function Input(request: map<string, Value>, key: string, default: Value): Value {
    if key in request then request[key] else default
  }

  class Table {
    var columns: Dict<Column>
    var filters: Dict<Filter>
    var actions: Dict<Dict<Value>>
    var perPage: int
    var defaultSort: (string, string)
    var emptyStateMessage: string

    ghost function ColumnObjects(): set<Column>
      reads this`columns
    {
      set i | 0 <= i < |columns| :: columns[i].1
    }

    /** Columns, filters and actions are keyed by name, and every column
        sits under its own name. */
    ghost predicate Valid()
      reads this`columns, this`filters, this`actions
    {
      DistinctKeys(columns) && DistinctKeys(filters) && DistinctKeys(actions) &&
      forall i :: 0 <= i < |columns| ==> columns[i].1.name == columns[i].0
    }

    /** Table::make($model): fifteen rows a page, sorted by id descending. */
    constructor ()
      ensures Valid()
      ensures columns == [] && filters == [] && actions == []
      ensures perPage == 15 && defaultSort == ("id", "desc")
      ensures emptyStateMessage == "No records found."
    {
      columns := [];
      filters := [];
      actions := [];
      perPage := 15;
      defaultSort := ("id", "desc");
      emptyStateMessage := "No records found.";
    }

    /** column($name): a new text column under its name, replacing any
        column of that name. */
    method AddColumn(name: string) returns (c: Column)
      requires Valid()
      modifies this`columns
      ensures Valid()
      ensures fresh(c) && c.name == name && c.kind == "text" && !c.sortable && !c.searchable && !c.hidden
      ensures c.labelText == None && c.formatter == None && c.condition == None
      ensures columns == Put(old(columns), name, c)
    {
      c := new Column(name);
      PutColumn(c);
    }

    /** Stores a column under its own name. */
    method PutColumn(c: Column)
      requires Valid()
      modifies this`columns
      ensures Valid()
      ensures columns == Put(old(columns), c.name, c)
    {
      PutDistinct(columns, c.name, c);
      var next := Put(columns, c.name, c);
      forall i | 0 <= i < |next| ensures next[i].1.name == next[i].0 {
        PutKeepsEntries(columns, c.name, c, i);
      }
      columns := next;
    }

    /** columns([...]): each Column is stored under its name and each
        string becomes a new text column; anything else is ignored. The
        ghost `stored` says, item by item, what was stored. */
    method AddColumns(items: seq<ColumnArg>) returns (ghost stored: seq<Option<(string, Column)>>)
      requires Valid()
      modifies this`columns
      ensures Valid()
      ensures |stored| == |items|
      ensures forall i :: 0 <= i < |items| && items[i].ColumnObject? ==>
        stored[i] == Some((items[i].column.name, items[i].column))
      ensures forall i :: 0 <= i < |items| && items[i].ColumnName? ==>
        stored[i].Some? && stored[i].value.0 == items[i].name && stored[i].value.1.name == items[i].name &&
        fresh(stored[i].value.1) && stored[i].value.1.kind == "text"
      ensures forall i :: 0 <= i < |items| && items[i].OtherArg? ==> stored[i].None?
      ensures columns == PutEach(old(columns), stored)
    {
      stored := [];
      var i := 0;
      while i < |items|
        invariant 0 <= i <= |items|
        invariant Valid()
        invariant |stored| == i
        invariant forall j :: 0 <= j < i && items[j].ColumnObject? ==>
          stored[j] == Some((items[j].column.name, items[j].column))
        invariant forall j :: 0 <= j < i && items[j].ColumnName? ==>
          stored[j].Some? && stored[j].value.0 == items[j].name && stored[j].value.1.name == items[j].name &&
          fresh(stored[j].value.1) && stored[j].value.1.kind == "text"
        invariant forall j :: 0 <= j < i && items[j].OtherArg? ==> stored[j].None?
        invariant columns == PutEach(old(columns), stored)
      {
        match items[i] {
          case ColumnObject(c) =>
            PutColumn(c);
            stored := stored + [Some((c.name, c))];
          case ColumnName(name) =>
            var c := AddColumn(name);
            stored := stored + [Some((name, c))];
          case OtherArg(_) =>
            stored := stored + [None];
        }
        assert stored[..i] == stored[..|stored| - 1];
        i := i + 1;
      }
    }

    /** filter($name, $label, $options, $query) */
    method AddFilter(name: string, caption: string, options: Dict<Value>, query: Option<Callback> := None)
      requires Valid()
      modifies this`filters
      ensures Valid()
      ensures filters == Put(old(filters), name, Choice(caption, options, query))
    {
      PutDistinct(filters, name, Choice(caption, options, query));
      filters := Put(filters, name, Choice(caption, options, query));
    }

    /** statusFilter($statuses): the "status" filter, offering the four
        default statuses when it is given none. `statusQuery` is the
        closure it creates to match the status column. */
    method StatusFilter(statusQuery: Callback, statuses: Dict<Value> := [])
      requires Valid()
      modifies this`filters
      ensures Valid()
      ensures filters == Put(old(filters), "status",
                             Choice("Status", if statuses == [] then DefaultStatuses else statuses, Some(statusQuery)))
    {
      var offered := statuses;
      if offered == [] {
        offered := DefaultStatuses;
      }
      AddFilter("status", "Status", offered, Some(statusQuery));
    }

    /** dateRangeFilter($column, $label) */
    method DateRangeFilter(column: string := "created_at", caption: string := "Date Range")
      requires Valid()
      modifies this`filters
      ensures Valid()
      ensures filters == Put(old(filters), "date_range", DateRange(caption, column))
    {
      PutDistinct(filters, "date_range", DateRange(caption, column));
      filters := Put(filters, "date_range", DateRange(caption, column));
    }

    /** action($name, $label, $url, $options) */
    method Action(name: string, caption: string, url: Value, options: Dict<Value> := [])
      requires Valid()
      modifies this`actions
      ensures Valid()
      ensures actions == Put(old(actions), name, ActionEntry(caption, url, options))
    {
      PutDistinct(actions, name, ActionEntry(caption, url, options));
      actions := Put(actions, name, ActionEntry(caption, url, options));
    }

    method EditAction(url: Value)
      requires Valid()
      modifies this`actions
      ensures Valid()
      ensures actions == Put(old(actions), "edit", ActionEntry("Edit", url, [("icon", Str("pencil")), ("color", Str("primary"))]))
    {
      Action("edit", "Edit", url, [("icon", Str("pencil")), ("color", Str("primary"))]);
    }

    method ViewAction(url: Value)
      requires Valid()
      modifies this`actions
      ensures Valid()
      ensures actions == Put(old(actions), "view", ActionEntry("View", url, [("icon", Str("eye")), ("color", Str("secondary"))]))
    {
      Action("view", "View", url, [("icon", Str("eye")), ("color", Str("secondary"))]);
    }

    method DeleteAction(url: Value)
      requires Valid()
      modifies this`actions
      ensures Valid()
      ensures actions == Put(old(actions), "delete", ActionEntry("Delete", url, DeleteOptions))
    {
      Action("delete", "Delete", url, DeleteOptions);
    }

    method PerPage(n: int)
      modifies this`perPage
      ensures perPage == n
    {
      perPage := n;
    }

    /** defaultSort($column, $direction): the direction is kept lower-cased. */
    method DefaultSort(column: string, direction: string := "desc")
      modifies this`defaultSort
      ensures defaultSort == (column, Lower(direction))
    {
      defaultSort := (column, Lower(direction));
    }

    /** Whether `key` names a declared column that is sortable. */
    predicate SortableColumn(key: string)
      reads this`columns, ColumnObjects()
    {
      Get(columns, key).Some? && Get(columns, key).value.sortable
    }

    /** The column and direction getData orders by: the requested ones when
        the requested column is declared and sortable, otherwise the default
        column and the default direction together, whatever direction was
        requested. */
    function SortOrder(request: map<string, Value>): (r: (Value, Value))
      requires "sort" in request ==> KeyOf(request["sort"]).Some?
      reads this`columns, this`defaultSort, ColumnObjects()
      ensures r == (Str(defaultSort.0), Str(defaultSort.1)) || (KeyOf(r.0).Some? && SortableColumn(KeyOf(r.0).value))
      ensures SortableColumn(KeyOf(Input(request, "sort", Str(defaultSort.0))).value) ==>
        r == (Input(request, "sort", Str(defaultSort.0)), Input(request, "direction", Str(defaultSort.1)))
      ensures !SortableColumn(KeyOf(Input(request, "sort", Str(defaultSort.0))).value) ==>
        r == (Str(defaultSort.0), Str(defaultSort.1))
    {
      var sortColumn := Input(request, "sort", Str(defaultSort.0));
      var sortDirection := Input(request, "direction", Str(defaultSort.1));
      if SortableColumn(KeyOf(sortColumn).value) then (sortColumn, sortDirection)
      else (Str(defaultSort.0), Str(defaultSort.1))
    }

    /** The filter part of getData: the query calls it makes, in order. */
    method ApplyFilters(request: map<string, Value>) returns (calls: seq<(Callback, Value)>)
      ensures calls == FilterCalls(filters, request)
    {
      calls := [];
      var i := 0;
      while i < |filters|
        invariant 0 <= i <= |filters|
        invariant calls == FilterCalls(filters[..i], request)
      {
        var name := filters[i].0;
        var filter := filters[i].1;
        if name in request {
          var value := request[name];
          if value != Null && value != Str("") {
            if filter.Choice? && filter.query.Some? {
              calls := calls + [(filter.query.value, value)];
            }
          }
        }
        assert filters[..i + 1][..i] == filters[..i];
        i := i + 1;
      }
      assert filters[..i] == filters;
    }

    /** getVisibleColumns: exactly the visible columns, under their keys,
        in their order. */
    function GetVisibleColumns(call: (Callback, Value) -> Value): (r: Dict<Column>)
      reads this`columns, ColumnObjects()
      ensures forall i :: 0 <= i < |columns| && columns[i].1.IsVisible(call) ==> columns[i] in r
      ensures forall j :: 0 <= j < |r| ==> KeptFrom(columns, VisibleFlags(columns, call), r[j])
      ensures |r| == |Flagged(VisibleFlags(columns, call))|
      ensures forall j :: 0 <= j < |r| ==> r[j] == columns[Flagged(VisibleFlags(columns, call))[j]]
    {
      WhereKeptAll(columns, VisibleFlags(columns, call));
      WhereAt(columns, VisibleFlags(columns, call));
      Where(columns, VisibleFlags(columns, call))
    }

    /** getActionUrl: null for an unknown action; a closure url is called
        with the record; any other url has every `{id}` replaced by the
        record's id (the empty string when it has none). */
    function GetActionUrl(actionName: string, record: Value,
                          call: (Callback, Value) -> Option<string>): (r: Option<string>)
      reads this`actions
      ensures !Has(actions, actionName) ==> r == None
      ensures Has(actions, actionName) && ActionUrl(Get(actions, actionName).value).Fn? ==>
        r == call(ActionUrl(Get(actions, actionName).value).callback, record)
      ensures Has(actions, actionName) && !ActionUrl(Get(actions, actionName).value).Fn? ==>
        r == Some(StrReplace("{id}", ToText(RecordId(record)), ToText(ActionUrl(Get(actions, actionName).value))))
    {
      match Get(actions, actionName)
      case None => None
      case Some(action) =>
        var url := ActionUrl(action);
        if url.Fn? then call(url.callback, record)
        else Some(StrReplace("{id}", ToText(RecordId(record)), ToText(url)))
    }
  }

  /** `$record->id ?? $record['id'] ?? ''`: a record's id when it has a
      non-null one, and the empty string otherwise. */
  function RecordId(record: Value): (r: Value)
    ensures record.Dict? && "id" in record.entries && record.entries["id"] != Null ==> r == record.entries["id"]
    ensures !(record.Dict? && "id" in record.entries && record.entries["id"] != Null) ==> r == Str("")
    ensures r != Null
  {
    if record.Dict? && "id" in record.entries && record.entries["id"] != Null then record.entries["id"]
    else Str("")
  }

  /** Whether each column is visible, asked without data as
      getVisibleColumns asks it. */
  function VisibleFlags(cols: Dict<Column>, call: (Callback, Value) -> Value): (r: seq<bool>)
    reads set i | 0 <= i < |cols| :: cols[i].1
    ensures |r| == |cols|
    ensures forall i :: 0 <= i < |cols| ==> r[i] == cols[i].1.IsVisible(call)
    decreases |cols|
  {
    if cols == [] then []
    else
      var n := |cols| - 1;
      VisibleFlags(cols[..n], call) + [cols[n].1.IsVisible(call)]
  }

  const DeleteOptions: Dict<Value> :=
    [("icon", Str("trash")), ("color", Str("danger")), ("confirm", Str("Are you sure you want to delete this record?"))]

  /** `$action['url']` */
  function ActionUrl(action: Dict<Value>): Value {
    Get(action, "url").GetOr(Null)
  }

  /** An action registered with a string url and no "url" option links to
      that url, unchanged when it has no `{id}` placeholder. */
  lemma ActionUrlWithoutPlaceholder(caption: string, url: string, options: Dict<Value>, record: Value)
    requires DistinctKeys(options) && !Has(options, "url")
    requires forall i :: !OccursAt("{id}", url, i)
    ensures ActionUrl(ActionEntry(caption, Str(url), options)) == Str(url)
    ensures StrReplace("{id}", ToText(RecordId(record)), url) == url
  {
    ActionEntrySpec(caption, Str(url), options, "url");
    StrReplaceAbsent("{id}", ToText(RecordId(record)), url);
  }

  /** A url with one `{id}` placeholder, and no other brace, links to
      the url with the record's id in place of the placeholder. */
  lemma {:induction false} ActionUrlWithPlaceholder(before: string, after: string, id: string)
    requires '{' !in before && '{' !in after
    ensures StrReplace("{id}", id, before + "{id}" + after) == before + id + after
    decreases |before|
  {
    var s := before + "{id}" + after;
    if before == [] {
      assert s == "{id}" + after && s[..4] == "{id}" && s[4..] == after;
      forall i ensures !OccursAt("{id}", after, i) {
        if 0 <= i && i + 4 <= |after| {
          assert after[i..i + 4][0] == after[i] && after[i] in after;
        }
      }
      StrReplaceAbsent("{id}", id, after);
    } else {
      assert s[..4][0] == before[0] && before[0] in before;
      assert s[1..] == before[1..] + "{id}" + after;
      ActionUrlWithPlaceholder(before[1..], after, id);
      assert [before[0]] + before[1..] == before;
    }
  }
}
