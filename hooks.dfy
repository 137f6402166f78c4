/** The action/filter registry (src/app/Modules/Hooks.php). Two stores map a
    tag to the list of hooks registered under it, in registration order.
    Dispatch sorts a tag's hooks by priority (stable, so equal priorities
    run in registration order). Callbacks are opaque identities; what an
    action does is not modelled, so dispatching an action yields the
    sequence of calls it makes, and a filter's result is supplied by the
    caller as a function of the callback and its arguments. */
module HookRegistry {
  import opened Values
  import opened Sorting

  /** One `['callback' => …, 'priority' => …, 'accepted_args' => …]` entry. */
  datatype HookEntry = HookEntry(callback: Callback, priority: int, acceptedArgs: int)

  /** One `call_user_func_array($callback, $args)`. */
  datatype Invocation<T> = Invocation(callback: Callback, args: seq<T>)

  datatype Kind = Actions | Filters

  type Store = map<string, seq<HookEntry>>

  function Priority(e: HookEntry): int { e.priority }

  function Min(a: int, b: int): int { if a < b then a else b }

  function Max(a: int, b: int): int { if a < b then b else a }

  /** `array_slice($xs, 0, $n)` on a list: the first `n` elements when `n`
      is not negative, and all but the last `-n` when it is. */
  function SliceFromStart<T>(xs: seq<T>, n: int): (r: seq<T>)
    ensures |r| <= |xs| && r == xs[..|r|]
    ensures n >= 0 ==> |r| == Min(n, |xs|)
    ensures n < 0 ==> |r| == Max(0, |xs| + n)
  {
    if n >= 0 then (if n <= |xs| then xs[..n] else xs)
    else if |xs| + n > 0 then xs[..|xs| + n]
    else []
  }

  /** The order in which a tag's hooks run: `collect($hooks)->sortBy('priority')`. */
  function Dispatched(entries: seq<HookEntry>): seq<HookEntry> {
    SortBy(entries, Priority)
  }

  /** The calls doAction makes, one per hook in the given order. */
  function ActionCalls<T>(entries: seq<HookEntry>, args: seq<T>): seq<Invocation<T>> {
    seq(|entries|, i requires 0 <= i < |entries| =>
      Invocation(entries[i].callback, SliceFromStart(args, entries[i].acceptedArgs)))
  }

  /** `array_merge([$value], array_slice($args, 0, $acceptedArgs - 1))` */
  function FilterArgs<T>(e: HookEntry, value: T, args: seq<T>): seq<T> {
    [value] + SliceFromStart(args, e.acceptedArgs - 1)
  }

  /** The value threaded through the filters in the given order. */
  function FilterChain<T>(entries: seq<HookEntry>, value: T, args: seq<T>, call: (Callback, seq<T>) -> T): T
    decreases |entries|
  {
    if entries == [] then value
    else FilterChain(entries[1..], call(entries[0].callback, FilterArgs(entries[0], value, args)), args, call)
  }

  /** The array_filter predicate of removeHook, as written: an entry stays
      when its callback differs, or when a priority is given and the entry's
      priority is equal to it. */
  predicate Keeps(e: HookEntry, callback: Callback, priority: Option<int>) {
    var callbackMatch := e.callback != callback;
    var priorityMatch := priority.None? || e.priority != priority.value;
    callbackMatch || !priorityMatch
  }

  /** `array_values(array_filter($tagHooks, …))` */
  function Kept(entries: seq<HookEntry>, callback: Callback, priority: Option<int>): seq<HookEntry>
    decreases |entries|
  {
    if entries == [] then []
    else
      var head := if Keeps(entries[0], callback, priority) then [entries[0]] else [];
      head + Kept(entries[1..], callback, priority)
  }

  /** The removal filter keeps exactly the stored hooks the predicate keeps,
      and never adds one. */
  lemma {:induction false} KeptMembers(entries: seq<HookEntry>, callback: Callback, priority: Option<int>)
    ensures |Kept(entries, callback, priority)| <= |entries|
    ensures forall e :: e in Kept(entries, callback, priority) <==> e in entries && Keeps(e, callback, priority)
    decreases |entries|
  {
    if entries != [] {
      KeptMembers(entries[1..], callback, priority);
      assert entries == [entries[0]] + entries[1..];
    }
  }

  /** The filter keeps the surviving hooks in their order: filtering a
      concatenation concatenates the filtered parts. */
  lemma {:induction false} KeptAppend(a: seq<HookEntry>, b: seq<HookEntry>, callback: Callback, priority: Option<int>)
    ensures Kept(a + b, callback, priority) == Kept(a, callback, priority) + Kept(b, callback, priority)
    decreases |a|
  {
    if a == [] {
      assert a + b == b;
    } else {
      var head := if Keeps(a[0], callback, priority) then [a[0]] else [];
      assert (a + b)[0] == a[0] && (a + b)[1..] == a[1..] + b;
      assert Kept(a + b, callback, priority) == head + Kept(a[1..] + b, callback, priority);
      assert Kept(a, callback, priority) == head + Kept(a[1..], callback, priority);
      KeptAppend(a[1..], b, callback, priority);
      assert head + (Kept(a[1..], callback, priority) + Kept(b, callback, priority))
          == (head + Kept(a[1..], callback, priority)) + Kept(b, callback, priority);
    }
  }

  /** A single hook stays exactly when the predicate keeps it. */
  lemma KeptSingle(x: HookEntry, callback: Callback, priority: Option<int>)
    ensures Kept([x], callback, priority) == if Keeps(x, callback, priority) then [x] else []
  {
    assert [x][1..] == [];
  }

  /** The filter keeps every copy of a hook it keeps: a hook registered
      twice with the same callback and priority survives twice or not at
      all. */
  lemma {:induction false} KeptCount(entries: seq<HookEntry>, callback: Callback, priority: Option<int>, e: HookEntry)
    ensures multiset(Kept(entries, callback, priority))[e]
         == if Keeps(e, callback, priority) then multiset(entries)[e] else 0
    decreases |entries|
  {
    if entries != [] {
      KeptCount(entries[1..], callback, priority, e);
      assert entries == [entries[0]] + entries[1..];
    }
  }

  /** Among the hooks of one priority, the survivors keep the relative order
      they had before the removal. */
  lemma {:induction false} KeptSelect(entries: seq<HookEntry>, callback: Callback, priority: Option<int>, p: int)
    ensures Select(Kept(entries, callback, priority), Priority, p)
         == Kept(Select(entries, Priority, p), callback, priority)
    decreases |entries|
  {
    if entries != [] {
      var x, rest := entries[0], entries[1..];
      var sx := if x.priority == p then [x] else [];
      KeptSelect(rest, callback, priority, p);
      assert Select(entries, Priority, p) == sx + Select(rest, Priority, p);
      KeptAppend(sx, Select(rest, Priority, p), callback, priority);
      KeptSingle(x, callback, priority);
      if Keeps(x, callback, priority) {
        var k := Kept(rest, callback, priority);
        assert Kept(entries, callback, priority) == [x] + k;
        assert ([x] + k)[0] == x && ([x] + k)[1..] == k;
        assert Kept(sx, callback, priority) == sx;
      } else {
        var sr := Select(rest, Priority, p);
        assert Kept(entries, callback, priority) == [] + Kept(rest, callback, priority) == Kept(rest, callback, priority);
        assert Kept(sx, callback, priority) == [];
        assert Kept(sx + sr, callback, priority) == [] + Kept(sr, callback, priority) == Kept(sr, callback, priority);
      }
    }
  }

  /** Every tag present in a store holds at least one hook. */
  predicate NoEmptyTags(s: Store) {
    forall t :: t in s ==> s[t] != []
  }

  /** The store after addHook appends `e` under `tag`. */
  function Added(s: Store, tag: string, e: HookEntry): Store {
    s[tag := (if tag in s then s[tag] else []) + [e]]
  }

  /** The store after removeHook. */
  function Removed(s: Store, tag: string, callback: Option<Callback>, priority: Option<int>): Store {
    if tag !in s then s
    else if callback.None? then s - {tag}
    else
      var filtered := Kept(s[tag], callback.value, priority);
      if filtered == [] then s - {tag} else s[tag := filtered]
  }

  /** What hasHook answers. */
  predicate HasIn(s: Store, tag: string, callback: Option<Callback>) {
    tag in s && (callback.None? || exists i :: 0 <= i < |s[tag]| && s[tag][i].callback == callback.value)
  }

  /** The calls doAction makes for `tag`. */
  function CallsFor<T>(s: Store, tag: string, args: seq<T>): seq<Invocation<T>> {
    if tag in s then ActionCalls(Dispatched(s[tag]), args) else []
  }

  /** The value applyFilters returns for `tag`. */
  function FilteredBy<T>(s: Store, tag: string, value: T, args: seq<T>, call: (Callback, seq<T>) -> T): T {
    if tag in s then FilterChain(Dispatched(s[tag]), value, args, call) else value
  }

  /** Running the filters of `xs` and then those of `ys` is running `xs + ys`. */
  lemma {:induction false} FilterChainAppend<T>(xs: seq<HookEntry>, ys: seq<HookEntry>, value: T, args: seq<T>,
                                                call: (Callback, seq<T>) -> T)
    ensures FilterChain(xs + ys, value, args, call)
         == FilterChain(ys, FilterChain(xs, value, args, call), args, call)
    decreases |xs|
  {
    if xs != [] {
      var next := call(xs[0].callback, FilterArgs(xs[0], value, args));
      assert (xs + ys)[0] == xs[0] && (xs + ys)[1..] == xs[1..] + ys;
      assert FilterChain(xs + ys, value, args, call) == FilterChain(xs[1..] + ys, next, args, call);
      FilterChainAppend(xs[1..], ys, next, args, call);
    } else {
      assert xs + ys == ys;
    }
  }

  /** Hooks run in ascending priority, every registered hook exactly once,
      and hooks of equal priority in the order they were registered. */
  lemma DispatchOrder(entries: seq<HookEntry>)
    ensures Sorted(Dispatched(entries), Priority)
    ensures multiset(Dispatched(entries)) == multiset(entries)
    ensures forall p :: Select(Dispatched(entries), Priority, p) == Select(entries, Priority, p)
  {
    SortBySpec(entries, Priority);
  }

  /** doAction calls each hook once, in dispatch order, with the first
      `accepted_args` arguments (all but the last `-accepted_args` ones
      when that number is negative). */
  lemma ActionCallsSpec<T>(s: Store, tag: string, args: seq<T>)
    ensures tag !in s ==> CallsFor(s, tag, args) == []
    ensures tag in s ==> |CallsFor(s, tag, args)| == |s[tag]|
    ensures tag in s ==> forall i :: 0 <= i < |s[tag]| ==>
      var e := Dispatched(s[tag])[i];
      var c := CallsFor(s, tag, args)[i];
      c.callback == e.callback && c.args == args[..|c.args|] &&
      |c.args| == (if e.acceptedArgs >= 0 then Min(e.acceptedArgs, |args|) else Max(0, |args| + e.acceptedArgs))
  {
    if tag in s {
      SortBySpec(s[tag], Priority);
      assert |Dispatched(s[tag])| == |multiset(Dispatched(s[tag]))| == |s[tag]|;
    }
  }

  /** A hook added to a tag is found by hasHook, and the store keeps every
      other tag and its non-empty-list invariant. */
  lemma AddedSpec(s: Store, tag: string, e: HookEntry)
    requires NoEmptyTags(s)
    ensures NoEmptyTags(Added(s, tag, e))
    ensures HasIn(Added(s, tag, e), tag, Some(e.callback)) && HasIn(Added(s, tag, e), tag, None)
    ensures Added(s, tag, e) - {tag} == s - {tag}
  {
    var after := Added(s, tag, e)[tag];
    assert after[|after| - 1] == e;
  }

  /** A hook added to a tag runs after every hook of the same priority
      that was already there, and in the same relative order as before
      among hooks of any other priority. */
  lemma AddedRunsLast(s: Store, tag: string, e: HookEntry, p: int)
    ensures Select(Dispatched(Added(s, tag, e)[tag]), Priority, p)
         == Select(if tag in s then s[tag] else [], Priority, p) + (if p == e.priority then [e] else [])
  {
    var before := if tag in s then s[tag] else [];
    assert Added(s, tag, e)[tag] == before + [e];
    SortBySpec(before + [e], Priority);
    SelectAppend(before, e, Priority, p);
  }

  /** Removing with no matching callback leaves a tag's list as it was. */
  lemma {:induction false} KeptNoMatch(entries: seq<HookEntry>, callback: Callback, priority: Option<int>)
    requires forall i :: 0 <= i < |entries| ==> entries[i].callback != callback
    ensures Kept(entries, callback, priority) == entries
    decreases |entries|
  {
    if entries != [] {
      KeptNoMatch(entries[1..], callback, priority);
    }
  }

  /** Removal on an absent tag changes nothing; with no callback it drops
      the tag; with a callback and no priority it drops every hook with
      that callback and keeps the others, and drops the tag when none is
      left. Either way the non-empty-list invariant holds. */
  lemma RemovedSpec(s: Store, tag: string, callback: Option<Callback>, priority: Option<int>)
    requires NoEmptyTags(s)
    ensures NoEmptyTags(Removed(s, tag, callback, priority))
    ensures tag !in s ==> Removed(s, tag, callback, priority) == s
    ensures Removed(s, tag, callback, priority) - {tag} == s - {tag}
    ensures callback.None? ==> !HasIn(Removed(s, tag, callback, priority), tag, None)
    ensures callback.Some? && priority.None? ==> !HasIn(Removed(s, tag, callback, priority), tag, callback)
    ensures tag in s && callback.Some? ==> forall i :: 0 <= i < |s[tag]| && s[tag][i].callback != callback.value ==>
      tag in Removed(s, tag, callback, priority) && s[tag][i] in Removed(s, tag, callback, priority)[tag]
    ensures tag in s && callback.Some? && tag in Removed(s, tag, callback, priority) ==>
      Removed(s, tag, callback, priority)[tag] == Kept(s[tag], callback.value, priority)
    ensures tag in s && callback.Some? && tag in Removed(s, tag, callback, priority) ==> forall p ::
      Select(Dispatched(Removed(s, tag, callback, priority)[tag]), Priority, p)
        == Kept(Select(s[tag], Priority, p), callback.value, priority)
  {
    if tag in s && callback.Some? {
      RemovedKeeps(s, tag, callback.value, priority);
      if tag in Removed(s, tag, callback, priority) {
        RemovedOrder(s, tag, callback.value, priority);
      }
    }
  }

  /** Membership half of RemovedSpec for a given callback. */
  lemma RemovedKeeps(s: Store, tag: string, callback: Callback, priority: Option<int>)
    requires tag in s
    ensures forall i :: 0 <= i < |s[tag]| && s[tag][i].callback != callback ==>
      tag in Removed(s, tag, Some(callback), priority) && s[tag][i] in Removed(s, tag, Some(callback), priority)[tag]
    ensures priority.None? ==> !HasIn(Removed(s, tag, Some(callback), priority), tag, Some(callback))
  {
    var r: Store := Removed(s, tag, Some(callback), priority);
    var kept := Kept(s[tag], callback, priority);
    KeptMembers(s[tag], callback, priority);
    forall i | 0 <= i < |s[tag]| && s[tag][i].callback != callback
      ensures tag in r && s[tag][i] in r[tag]
    {
      assert s[tag][i] in kept;
    }
    if priority.None? && tag in r {
      forall i | 0 <= i < |r[tag]| ensures r[tag][i].callback != callback {
        assert r[tag][i] in kept;
      }
    }
  }

  /** Order half of RemovedSpec: the surviving list is the filtered list,
      and within each priority the dispatch order is the filtered order. */
  lemma RemovedOrder(s: Store, tag: string, callback: Callback, priority: Option<int>)
    requires tag in s && tag in Removed(s, tag, Some(callback), priority)
    ensures Removed(s, tag, Some(callback), priority)[tag] == Kept(s[tag], callback, priority)
    ensures forall p ::
      Select(Dispatched(Removed(s, tag, Some(callback), priority)[tag]), Priority, p)
        == Kept(Select(s[tag], Priority, p), callback, priority)
  {
    var kept := Kept(s[tag], callback, priority);
    assert Removed(s, tag, Some(callback), priority)[tag] == kept;
    SortBySpec(kept, Priority);
    forall p ensures Select(Dispatched(kept), Priority, p) == Kept(Select(s[tag], Priority, p), callback, priority) {
      KeptSelect(s[tag], callback, priority, p);
    }
  }

  /** With a priority given, removeHook as written keeps the hooks of that
      callback registered at exactly that priority and drops the hooks of
      that callback registered at any other priority. */
  lemma RemovedWithPriority(s: Store, tag: string, callback: Callback, p: int, e: HookEntry)
    requires tag in s && e in s[tag] && e.callback == callback
    ensures e.priority == p ==> HasIn(Removed(s, tag, Some(callback), Some(p)), tag, Some(callback))
    ensures e.priority != p && tag in Removed(s, tag, Some(callback), Some(p))
      ==> e !in Removed(s, tag, Some(callback), Some(p))[tag]
  {
    var kept := Kept(s[tag], callback, Some(p));
    KeptMembers(s[tag], callback, Some(p));
    if e.priority == p {
      assert e in kept;
      var i :| 0 <= i < |kept| && kept[i] == e;
    }
  }

  /** The removal the doc comments of removeAction and removeFilter
      describe: a hook goes when it holds the callback and, when a priority
      is given, is registered at that priority. */
  predicate KeepsIntended(e: HookEntry, callback: Callback, priority: Option<int>) {
    e.callback != callback || (priority.Some? && e.priority != priority.value)
  }

  function KeptIntended(entries: seq<HookEntry>, callback: Callback, priority: Option<int>): seq<HookEntry>
    decreases |entries|
  {
    if entries == [] then []
    else
      var head := if KeepsIntended(entries[0], callback, priority) then [entries[0]] else [];
      head + KeptIntended(entries[1..], callback, priority)
  }

  lemma {:induction false} KeptIntendedMembers(entries: seq<HookEntry>, callback: Callback, priority: Option<int>)
    ensures forall e :: e in KeptIntended(entries, callback, priority) <==> e in entries && KeepsIntended(e, callback, priority)
    decreases |entries|
  {
    if entries != [] {
      KeptIntendedMembers(entries[1..], callback, priority);
      assert entries == [entries[0]] + entries[1..];
    }
  }

  /** removeHook with the intended predicate. */
  function RemovedIntended(s: Store, tag: string, callback: Option<Callback>, priority: Option<int>): Store {
    if tag !in s then s
    else if callback.None? then s - {tag}
    else
      var filtered := KeptIntended(s[tag], callback.value, priority);
      if filtered == [] then s - {tag} else s[tag := filtered]
  }

  /** Under the intended predicate a hook of the tag survives exactly when
      it holds another callback or sits at another priority than the one
      given; other tags are untouched. */
  lemma RemovedIntendedSpec(s: Store, tag: string, callback: Callback, priority: Option<int>)
    requires tag in s
    ensures RemovedIntended(s, tag, Some(callback), priority) - {tag} == s - {tag}
    ensures forall e :: e in s[tag] ==>
      ((tag in RemovedIntended(s, tag, Some(callback), priority) && e in RemovedIntended(s, tag, Some(callback), priority)[tag])
        <==> (e.callback != callback || (priority.Some? && e.priority != priority.value)))
  {
    KeptIntendedMembers(s[tag], callback, priority);
  }

  /** With a priority given, the intended removal drops the callback's hooks
      at that priority and keeps its hooks at every other priority: the
      opposite of `RemovedWithPriority`. */
  lemma RemovedIntendedWithPriority(s: Store, tag: string, callback: Callback, p: int, e: HookEntry)
    requires tag in s && e in s[tag] && e.callback == callback
    ensures e.priority == p ==> !(tag in RemovedIntended(s, tag, Some(callback), Some(p))
                                  && e in RemovedIntended(s, tag, Some(callback), Some(p))[tag])
    ensures e.priority != p ==> tag in RemovedIntended(s, tag, Some(callback), Some(p))
                                && e in RemovedIntended(s, tag, Some(callback), Some(p))[tag]
  {
    RemovedIntendedSpec(s, tag, callback, Some(p));
  }

  /** One callback registered under "init" at priorities 10 and 20; asking to
      remove it at priority 10 keeps the priority-10 hook and drops the
      priority-20 one as written, where the intended removal does the
      reverse. */
  lemma RemovedWithPriorityInverted()
    ensures Removed(map["init" := [HookEntry(Callback(1), 10, 1), HookEntry(Callback(1), 20, 1)]],
                    "init", Some(Callback(1)), Some(10))
            == map["init" := [HookEntry(Callback(1), 10, 1)]]
    ensures RemovedIntended(map["init" := [HookEntry(Callback(1), 10, 1), HookEntry(Callback(1), 20, 1)]],
                            "init", Some(Callback(1)), Some(10))
            == map["init" := [HookEntry(Callback(1), 20, 1)]]
  {
    var a, b := HookEntry(Callback(1), 10, 1), HookEntry(Callback(1), 20, 1);
    assert [a, b][1..] == [b] && [b][1..] == [];
    assert Kept([b], Callback(1), Some(10)) == [];
    assert Kept([a, b], Callback(1), Some(10)) == [a];
    assert KeptIntended([b], Callback(1), Some(10)) == [b];
    assert KeptIntended([a, b], Callback(1), Some(10)) == [b];
  }

  class Hooks {
    var actions: Store
    var filters: Store

    ghost predicate Valid()
      reads this
    {
      NoEmptyTags(actions) && NoEmptyTags(filters)
    }

    function StoreOf(kind: Kind): Store
      reads this
    {
      if kind == Actions then actions else filters
    }

    constructor ()
      ensures Valid() && actions == map[] && filters == map[]
    {
      actions := map[];
      filters := map[];
    }

    method AddHook(kind: Kind, tag: string, callback: Callback, priority: int, acceptedArgs: int) returns (ok: bool)
      requires Valid()
      modifies this
      ensures Valid() && ok
      ensures StoreOf(kind) == Added(old(StoreOf(kind)), tag, HookEntry(callback, priority, acceptedArgs))
      ensures kind == Actions ==> filters == old(filters)
      ensures kind == Filters ==> actions == old(actions)
    {
      var hooks := StoreOf(kind);
      if tag !in hooks {
        hooks := hooks[tag := []];
      }
      var tagHooks := hooks[tag] + [HookEntry(callback, priority, acceptedArgs)];
      hooks := hooks[tag := tagHooks];
      if kind == Actions {
        actions := hooks;
      } else {
        filters := hooks;
      }
      AddedSpec(old(StoreOf(kind)), tag, HookEntry(callback, priority, acceptedArgs));
      ok := true;
    }

    method AddAction(tag: string, callback: Callback, priority: int := 10, acceptedArgs: int := 1) returns (ok: bool)
      requires Valid()
      modifies this
      ensures Valid() && ok
      ensures actions == Added(old(actions), tag, HookEntry(callback, priority, acceptedArgs))
      ensures filters == old(filters)
    {
      ok := AddHook(Actions, tag, callback, priority, acceptedArgs);
    }

    method AddFilter(tag: string, callback: Callback, priority: int := 10, acceptedArgs: int := 1) returns (ok: bool)
      requires Valid()
      modifies this
      ensures Valid() && ok
      ensures filters == Added(old(filters), tag, HookEntry(callback, priority, acceptedArgs))
      ensures actions == old(actions)
    {
      ok := AddHook(Filters, tag, callback, priority, acceptedArgs);
    }

    /** doAction: the calls made, in order. */
    method DoAction<T>(tag: string, args: seq<T>) returns (calls: seq<Invocation<T>>)
      ensures calls == CallsFor(actions, tag, args)
    {
      calls := [];
      if tag !in actions {
        return;
      }
      var hooks := Dispatched(actions[tag]);
      var i := 0;
      while i < |hooks|
        invariant 0 <= i <= |hooks|
        invariant |calls| == i
        invariant forall j :: 0 <= j < i ==>
          calls[j] == Invocation(hooks[j].callback, SliceFromStart(args, hooks[j].acceptedArgs))
      {
        var hook := hooks[i];
        calls := calls + [Invocation(hook.callback, SliceFromStart(args, hook.acceptedArgs))];
        i := i + 1;
      }
    }

    /** applyFilters: `call` gives each callback's result on its arguments. */
    method ApplyFilters<T>(tag: string, value: T, args: seq<T>, call: (Callback, seq<T>) -> T) returns (r: T)
      ensures r == FilteredBy(filters, tag, value, args, call)
    {
      if tag !in filters {
        return value;
      }
      var hooks := Dispatched(filters[tag]);
      r := value;
      var i := 0;
      while i < |hooks|
        invariant 0 <= i <= |hooks|
        invariant r == FilterChain(hooks[..i], value, args, call)
      {
        var hook := hooks[i];
        var callbackArgs := [r] + SliceFromStart(args, hook.acceptedArgs - 1);
        FilterChainAppend(hooks[..i], [hook], value, args, call);
        assert hooks[..i + 1] == hooks[..i] + [hook];
        r := call(hook.callback, callbackArgs);
        i := i + 1;
      }
      assert hooks[..i] == hooks;
    }

    method RemoveHook(kind: Kind, tag: string, callback: Option<Callback>, priority: Option<int>) returns (ok: bool)
      requires Valid()
      modifies this
      ensures Valid()
      ensures ok == (tag in old(StoreOf(kind)))
      ensures StoreOf(kind) == Removed(old(StoreOf(kind)), tag, callback, priority)
      ensures kind == Actions ==> filters == old(filters)
      ensures kind == Filters ==> actions == old(actions)
    {
      RemovedSpec(StoreOf(kind), tag, callback, priority);
      var hooks := StoreOf(kind);
      if tag !in hooks {
        return false;
      }
      if callback.None? {
        hooks := hooks - {tag};
      } else {
        var filtered := Kept(hooks[tag], callback.value, priority);
        if filtered == [] {
          hooks := hooks - {tag};
        } else {
          hooks := hooks[tag := filtered];
        }
      }
      if kind == Actions {
        actions := hooks;
      } else {
        filters := hooks;
      }
      ok := true;
    }

    method RemoveAction(tag: string, callback: Option<Callback> := None, priority: Option<int> := None) returns (ok: bool)
      requires Valid()
      modifies this
      ensures Valid() && ok == (tag in old(actions))
      ensures actions == Removed(old(actions), tag, callback, priority)
      ensures filters == old(filters)
    {
      ok := RemoveHook(Actions, tag, callback, priority);
    }

    method RemoveFilter(tag: string, callback: Option<Callback> := None, priority: Option<int> := None) returns (ok: bool)
      requires Valid()
      modifies this
      ensures Valid() && ok == (tag in old(filters))
      ensures filters == Removed(old(filters), tag, callback, priority)
      ensures actions == old(actions)
    {
      ok := RemoveHook(Filters, tag, callback, priority);
    }

    method HasHook(kind: Kind, tag: string, callback: Option<Callback>) returns (found: bool)
      ensures found == HasIn(StoreOf(kind), tag, callback)
    {
      var hooks := StoreOf(kind);
      if tag !in hooks {
        return false;
      }
      if callback.None? {
        return true;
      }
      var tagHooks := hooks[tag];
      var i := 0;
      while i < |tagHooks|
        invariant 0 <= i <= |tagHooks|
        invariant forall j :: 0 <= j < i ==> tagHooks[j].callback != callback.value
      {
        if tagHooks[i].callback == callback.value {
          return true;
        }
        i := i + 1;
      }
      return false;
    }

    method HasAction(tag: string, callback: Option<Callback> := None) returns (found: bool)
      ensures found == HasIn(actions, tag, callback)
    {
      found := HasHook(Actions, tag, callback);
    }

    method HasFilter(tag: string, callback: Option<Callback> := None) returns (found: bool)
      ensures found == HasIn(filters, tag, callback)
    {
      found := HasHook(Filters, tag, callback);
    }

    method RemoveAllActions(tag: string) returns (ok: bool)
      requires Valid()
      modifies this`actions
      ensures Valid() && ok == (tag in old(actions))
      ensures actions == old(actions) - {tag}
    {
      if tag in actions {
        actions := actions - {tag};
        return true;
      }
      return false;
    }

    method RemoveAllFilters(tag: string) returns (ok: bool)
      requires Valid()
      modifies this`filters
      ensures Valid() && ok == (tag in old(filters))
      ensures filters == old(filters) - {tag}
    {
      if tag in filters {
        filters := filters - {tag};
        return true;
      }
      return false;
    }
  }
}
