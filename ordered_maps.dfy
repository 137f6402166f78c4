/** PHP arrays with string keys (and the framework's Collection over them)
    where the order of the keys is observed: assigning to an existing key
    keeps its place, a new key goes to the end, iteration follows that order. */
module OrderedMaps {
  import opened Values

  type Dict<V> = seq<(string, V)>

  function Keys<V>(d: Dict<V>): (r: seq<string>)
    ensures |r| == |d|
    ensures forall i :: 0 <= i < |d| ==> r[i] == d[i].0
  {
    seq(|d|, i requires 0 <= i < |d| => d[i].0)
  }

  function ValuesOf<V>(d: Dict<V>): (r: seq<V>)
    ensures |r| == |d|
    ensures forall i :: 0 <= i < |d| ==> r[i] == d[i].1
  {
    seq(|d|, i requires 0 <= i < |d| => d[i].1)
  }

  predicate DistinctKeys<V>(d: Dict<V>) {
    forall i, j :: 0 <= i < j < |d| ==> d[i].0 != d[j].0
  }

  predicate Has<V>(d: Dict<V>, k: string) {
    k in Keys(d)
  }

  /** `$a[$k] ?? null`: the value stored under `k`. */
  function Get<V>(d: Dict<V>, k: string): (r: Option<V>)
    ensures r.Some? <==> Has(d, k)
    ensures r.Some? ==> exists i :: 0 <= i < |d| && d[i] == (k, r.value)
    decreases |d|
  {
    if d == [] then None
    else if d[0].0 == k then Some(d[0].1)
    else Get(d[1..], k)
  }

  /** `$a[$k] = $v` / Collection::put: replace in place, or append. */
  function Put<V>(d: Dict<V>, k: string, v: V): Dict<V>
    decreases |d|
  {
    if d == [] then [(k, v)]
    else if d[0].0 == k then [(k, v)] + d[1..]
    else [d[0]] + Put(d[1..], k, v)
  }

  /** `unset($a[$k])` / Collection::forget. */
  function Forget<V>(d: Dict<V>, k: string): Dict<V>
    decreases |d|
  {
    if d == [] then []
    else if d[0].0 == k then Forget(d[1..], k)
    else [d[0]] + Forget(d[1..], k)
  }

  /** array_filter over a dictionary: keep the entries whose flag is set,
      with their keys and in their order. */
  function Where<V>(d: Dict<V>, keep: seq<bool>): (r: Dict<V>)
    requires |keep| == |d|
    ensures |r| <= |d|
    ensures forall i :: 0 <= i < |d| && keep[i] ==> d[i] in r
    ensures forall j :: 0 <= j < |r| ==> r[j] in d
    decreases |d|
  {
    if d == [] then []
    else (if keep[0] then [d[0]] else []) + Where(d[1..], keep[1..])
  }

  lemma WhereKeepsDistinct<V>(d: Dict<V>, keep: seq<bool>)
    requires |keep| == |d| && DistinctKeys(d)
    ensures DistinctKeys(Where(d, keep))
    decreases |d|
  {
    if d != [] {
      WhereKeepsDistinct(d[1..], keep[1..]);
      var rest := Where(d[1..], keep[1..]);
      forall j | 0 <= j < |rest| ensures rest[j].0 != d[0].0 {
        assert rest[j] in rest;
      }
    }
  }

  lemma {:induction false} GetPut<V>(d: Dict<V>, k: string, v: V, j: string)
    ensures Get(Put(d, k, v), j) == if j == k then Some(v) else Get(d, j)
    decreases |d|
  {
    if d != [] && d[0].0 != k {
      GetPut(d[1..], k, v, j);
      assert ([d[0]] + Put(d[1..], k, v))[1..] == Put(d[1..], k, v);
    } else if d != [] {
      assert ([(k, v)] + d[1..])[1..] == d[1..];
    }
  }

  lemma KeysAppend<V>(a: Dict<V>, b: Dict<V>)
    ensures Keys(a + b) == Keys(a) + Keys(b)
  {
  }

  lemma AppendAssoc<V>(a: Dict<V>, b: Dict<V>, c: Dict<V>)
    ensures (a + b) + c == a + (b + c)
  {
  }

  /** A new key is appended at the end; an existing key keeps its place. */
  lemma {:induction false} PutKeys<V>(d: Dict<V>, k: string, v: V)
    ensures Keys(Put(d, k, v)) == if Has(d, k) then Keys(d) else Keys(d) + [k]
    decreases |d|
  {
    if d == [] {
    } else if d[0].0 == k {
      assert Keys(Put(d, k, v)) == Keys(d);
    } else {
      PutKeys(d[1..], k, v);
      assert Keys(d) == [d[0].0] + Keys(d[1..]);
      assert Keys(Put(d, k, v)) == [d[0].0] + Keys(Put(d[1..], k, v));
    }
  }

  lemma PutAbsent<V>(d: Dict<V>, k: string, v: V)
    requires !Has(d, k)
    ensures Put(d, k, v) == d + [(k, v)]
    decreases |d|
  {
    if d != [] {
      assert Keys(d) == [d[0].0] + Keys(d[1..]);
      PutAbsent(d[1..], k, v);
    }
  }

  lemma {:induction false} PutDistinct<V>(d: Dict<V>, k: string, v: V)
    requires DistinctKeys(d)
    ensures DistinctKeys(Put(d, k, v))
  {
    PutKeys(d, k, v);
    var r := Put(d, k, v);
    assert Keys(r) == if Has(d, k) then Keys(d) else Keys(d) + [k];
    forall i, j | 0 <= i < j < |r| ensures r[i].0 != r[j].0 {
      assert Keys(r)[i] == r[i].0 && Keys(r)[j] == r[j].0;
    }
  }

  /** The last write under a key wins, and the key keeps its place. */
  lemma {:induction false} PutTwice<V>(d: Dict<V>, k: string, a: V, b: V)
    ensures Put(Put(d, k, a), k, b) == Put(d, k, b)
    decreases |d|
  {
    if d != [] && d[0].0 != k {
      PutTwice(d[1..], k, a, b);
    }
  }

  /** The entry under `k` is replaced in place; every other entry stays. */
  lemma {:induction false} PutAt<V>(d: Dict<V>, k: string, v: V, i: int)
    requires DistinctKeys(d) && 0 <= i < |d| && d[i].0 == k
    ensures Put(d, k, v) == d[i := (k, v)]
    decreases |d|
  {
    if i > 0 {
      PutAt(d[1..], k, v, i - 1);
    }
  }

  lemma GetAt<V>(d: Dict<V>, i: int)
    requires DistinctKeys(d) && 0 <= i < |d|
    ensures Get(d, d[i].0) == Some(d[i].1)
    decreases |d|
  {
    if i > 0 {
      GetAt(d[1..], i - 1);
    }
  }

  lemma {:induction false} GetForget<V>(d: Dict<V>, k: string, j: string)
    ensures Get(Forget(d, k), j) == if j == k then None else Get(d, j)
    ensures !Has(Forget(d, k), k)
    decreases |d|
  {
    if d != [] {
      GetForget(d[1..], k, j);
      if d[0].0 != k {
        assert ([d[0]] + Forget(d[1..], k))[1..] == Forget(d[1..], k);
      }
    }
  }

  /** `$a[$k][] = $x`, creating the list when the key is new. */
  function Append<T>(d: Dict<seq<T>>, k: string, x: T): Dict<seq<T>> {
    Put(d, k, Get(d, k).GetOr([]) + [x])
  }

  /** `foreach ($xs as $i => $x) $out[$keys[$i]][] = $x;` */
  function GroupByKeys<T>(xs: seq<T>, keys: seq<string>): Dict<seq<T>>
    requires |xs| == |keys|
    decreases |xs|
  {
    if xs == [] then []
    else Append(GroupByKeys(xs[..|xs| - 1], keys[..|xs| - 1]), keys[|xs| - 1], xs[|xs| - 1])
  }

  /** The elements whose key is `b`, in their order. */
  function Bucket<T>(xs: seq<T>, keys: seq<string>, b: string): seq<T>
    requires |xs| == |keys|
    decreases |xs|
  {
    if xs == [] then []
    else Bucket(xs[..|xs| - 1], keys[..|xs| - 1], b) + (if keys[|xs| - 1] == b then [xs[|xs| - 1]] else [])
  }

  lemma AppendGet<T>(g: Dict<seq<T>>, k: string, x: T, b: string)
    ensures Get(Append(g, k, x), b) == if b == k then Some(Get(g, k).GetOr([]) + [x]) else Get(g, b)
  {
    GetPut(g, k, Get(g, k).GetOr([]) + [x], b);
  }

  lemma {:induction false} BucketAbsent<T>(xs: seq<T>, keys: seq<string>, b: string)
    requires |xs| == |keys| && b !in keys
    ensures Bucket(xs, keys, b) == []
    decreases |xs|
  {
    if xs != [] {
      var n := |xs| - 1;
      assert keys[..n] + [keys[n]] == keys;
      BucketAbsent(xs[..n], keys[..n], b);
    }
  }

  lemma {:induction false} GroupByKeysDistinct<T>(xs: seq<T>, keys: seq<string>)
    requires |xs| == |keys|
    ensures DistinctKeys(GroupByKeys(xs, keys))
    decreases |xs|
  {
    if xs != [] {
      var n := |xs| - 1;
      var g := GroupByKeys(xs[..n], keys[..n]);
      GroupByKeysDistinct(xs[..n], keys[..n]);
      PutDistinct(g, keys[n], Get(g, keys[n]).GetOr([]) + [xs[n]]);
    }
  }

  /** Grouping puts every element in the bucket of its own key and in no
      other, keeps the elements' order inside each bucket, and has one
      bucket per key that occurs, each non-empty. */
  lemma {:induction false} GroupByKeysSpec<T>(xs: seq<T>, keys: seq<string>, b: string)
    requires |xs| == |keys|
    ensures Get(GroupByKeys(xs, keys), b) == if b in keys then Some(Bucket(xs, keys, b)) else None
    ensures b in keys ==> Bucket(xs, keys, b) != []
    ensures DistinctKeys(GroupByKeys(xs, keys))
    decreases |xs|
  {
    GroupByKeysDistinct(xs, keys);
    if xs != [] {
      var n := |xs| - 1;
      var init, initKeys := xs[..n], keys[..n];
      var g := GroupByKeys(init, initKeys);
      GroupByKeysSpec(init, initKeys, b);
      AppendGet(g, keys[n], xs[n], b);
      assert keys == initKeys + [keys[n]];
      assert GroupByKeys(xs, keys) == Append(g, keys[n], xs[n]);
      if b != keys[n] {
        assert b in keys <==> b in initKeys;
        assert Bucket(xs, keys, b) == Bucket(init, initKeys, b) + [];
        assert Bucket(init, initKeys, b) + [] == Bucket(init, initKeys, b);
        assert Get(GroupByKeys(xs, keys), b) == Get(g, b);
      } else {
        assert b in keys;
        assert Bucket(xs, keys, b) == Bucket(init, initKeys, b) + [xs[n]];
        if b !in initKeys {
          BucketAbsent(init, initKeys, b);
        }
      }
    }
  }
  /** The keys in the order they first occur, each once. */
  function FirstOccurrences(keys: seq<string>): seq<string>
    decreases |keys|
  {
    if keys == [] then []
    else
      var n := |keys| - 1;
      var d := FirstOccurrences(keys[..n]);
      if keys[n] in d then d else d + [keys[n]]
  }

  /** `x` occurs in `keys` at a position where `y` has not occurred yet. */
  predicate OccursBefore(keys: seq<string>, x: string, y: string) {
    exists a :: 0 <= a < |keys| && keys[a] == x && y !in keys[..a + 1]
  }

  /** FirstOccurrences lists every key that occurs, once, and a key before
      another only when it occurs first: at some position of `keys` where
      the later one has not occurred yet. */
  lemma {:induction false} FirstOccurrencesSpec(keys: seq<string>)
    ensures forall k :: k in FirstOccurrences(keys) <==> k in keys
    ensures forall i, j :: 0 <= i < j < |FirstOccurrences(keys)| ==> FirstOccurrences(keys)[i] != FirstOccurrences(keys)[j]
    ensures forall i, j :: 0 <= i < j < |FirstOccurrences(keys)| ==>
      OccursBefore(keys, FirstOccurrences(keys)[i], FirstOccurrences(keys)[j])
  {
    FirstOccurrencesMembers(keys);
    FirstOccurrencesDistinct(keys);
    FirstOccurrencesOrder(keys);
  }

  lemma {:induction false} FirstOccurrencesMembers(keys: seq<string>)
    ensures forall k :: k in FirstOccurrences(keys) <==> k in keys
    decreases |keys|
  {
    if keys != [] {
      var n := |keys| - 1;
      FirstOccurrencesMembers(keys[..n]);
      assert keys == keys[..n] + [keys[n]];
    }
  }

  lemma {:induction false} FirstOccurrencesDistinct(keys: seq<string>)
    ensures forall i, j :: 0 <= i < j < |FirstOccurrences(keys)| ==> FirstOccurrences(keys)[i] != FirstOccurrences(keys)[j]
    decreases |keys|
  {
    if keys != [] {
      var n := |keys| - 1;
      var d := FirstOccurrences(keys[..n]);
      FirstOccurrencesDistinct(keys[..n]);
      if keys[n] !in d {
        forall i | 0 <= i < |d| ensures d[i] != keys[n] {
          assert d[i] in d;
        }
      }
    }
  }

  lemma {:induction false} FirstOccurrencesOrder(keys: seq<string>)
    ensures forall i, j :: 0 <= i < j < |FirstOccurrences(keys)| ==>
      OccursBefore(keys, FirstOccurrences(keys)[i], FirstOccurrences(keys)[j])
    decreases |keys|
  {
    if keys != [] {
      var n := |keys| - 1;
      var init := keys[..n];
      var d := FirstOccurrences(init);
      var r := FirstOccurrences(keys);
      FirstOccurrencesMembers(init);
      FirstOccurrencesOrder(init);
      assert keys == init + [keys[n]];
      forall i, j | 0 <= i < j < |r|
        ensures OccursBefore(keys, r[i], r[j])
      {
        assert r[i] == d[i] && d[i] in d;
        if j < |d| {
          assert OccursBefore(init, d[i], d[j]);
          var a :| 0 <= a < |init| && init[a] == d[i] && d[j] !in init[..a + 1];
          assert keys[..a + 1] == init[..a + 1];
          assert keys[a] == r[i] && r[j] == d[j];
        } else {
          var a :| 0 <= a < n && init[a] == r[i];
          assert keys[..a + 1] == init[..a + 1];
          assert r[j] == keys[n] && keys[n] !in init;
          var before := init[..a + 1];
          forall b | 0 <= b < |before| ensures before[b] != keys[n] {
            assert before[b] == init[b] && init[b] in init;
          }
          assert keys[n] !in before;
        }
      }
    }
  }

  /** Grouping creates the buckets in the order their keys first occur. */
  lemma {:induction false} GroupByKeysOrder<T>(xs: seq<T>, keys: seq<string>)
    requires |xs| == |keys|
    ensures Keys(GroupByKeys(xs, keys)) == FirstOccurrences(keys)
    decreases |xs|
  {
    if xs != [] {
      var n := |xs| - 1;
      var g := GroupByKeys(xs[..n], keys[..n]);
      GroupByKeysOrder(xs[..n], keys[..n]);
      PutKeys(g, keys[n], Get(g, keys[n]).GetOr([]) + [xs[n]]);
    }
  }

  /** Reading a dictionary extended at its end: the earlier entries win. */
  lemma {:induction false} GetSnoc<V>(d: Dict<V>, k: string, v: V, j: string)
    ensures Get(d + [(k, v)], j) == if Has(d, j) then Get(d, j) else if j == k then Some(v) else None
    decreases |d|
  {
    if d != [] {
      assert (d + [(k, v)])[1..] == d[1..] + [(k, v)];
      GetSnoc(d[1..], k, v, j);
      assert Keys(d) == [d[0].0] + Keys(d[1..]);
    }
  }

  /** array_merge($a, $b) for string keys: a key of `b` overwrites the same
      key of `a` in place, and the new keys follow in the order of `b`. */
  function Merge<V>(a: Dict<V>, b: Dict<V>): Dict<V>
    decreases |b|
  {
    if b == [] then a else Put(Merge(a, b[..|b| - 1]), b[|b| - 1].0, b[|b| - 1].1)
  }

  /** A key of the merge reads as in `b` when `b` has it, else as in `a`. */
  lemma {:induction false} MergeGet<V>(a: Dict<V>, b: Dict<V>, k: string)
    requires DistinctKeys(b)
    ensures Get(Merge(a, b), k) == if Has(b, k) then Get(b, k) else Get(a, k)
    decreases |b|
  {
    if b != [] {
      var n := |b| - 1;
      var init := b[..n];
      assert b == init + [b[n]];
      MergeGet(a, init, k);
      GetPut(Merge(a, init), b[n].0, b[n].1, k);
      GetSnoc(init, b[n].0, b[n].1, k);
    }
  }

  lemma {:induction false} MergeDistinct<V>(a: Dict<V>, b: Dict<V>)
    requires DistinctKeys(a)
    ensures DistinctKeys(Merge(a, b))
    decreases |b|
  {
    if b != [] {
      MergeDistinct(a, b[..|b| - 1]);
      PutDistinct(Merge(a, b[..|b| - 1]), b[|b| - 1].0, b[|b| - 1].1);
    }
  }

  /** `foreach ($items as $x) $d[key($x)] = $x;`, where the items that
      are skipped are `None`. */
  function PutEach<V>(d: Dict<V>, items: seq<Option<(string, V)>>): Dict<V>
    decreases |items|
  {
    if items == [] then d
    else
      var n := |items| - 1;
      var r := PutEach(d, items[..n]);
      if items[n].Some? then Put(r, items[n].value.0, items[n].value.1) else r
  }

  /** A key no item carries reads as before. */
  lemma {:induction false} PutEachUntouched<V>(d: Dict<V>, items: seq<Option<(string, V)>>, k: string)
    requires forall i :: 0 <= i < |items| && items[i].Some? ==> items[i].value.0 != k
    ensures Get(PutEach(d, items), k) == Get(d, k)
    decreases |items|
  {
    if items != [] {
      var n := |items| - 1;
      PutEachUntouched(d, items[..n], k);
      if items[n].Some? {
        GetPut(PutEach(d, items[..n]), items[n].value.0, items[n].value.1, k);
      }
    }
  }

  /** The last item carrying a key is the one stored under it. */
  lemma {:induction false} PutEachLast<V>(d: Dict<V>, items: seq<Option<(string, V)>>, i: int)
    requires 0 <= i < |items| && items[i].Some?
    requires forall j :: i < j < |items| && items[j].Some? ==> items[j].value.0 != items[i].value.0
    ensures Get(PutEach(d, items), items[i].value.0) == Some(items[i].value.1)
    decreases |items|
  {
    var n := |items| - 1;
    var k := items[i].value.0;
    var r := PutEach(d, items[..n]);
    assert PutEach(d, items) == if items[n].Some? then Put(r, items[n].value.0, items[n].value.1) else r;
    if i == n {
      GetPut(r, k, items[n].value.1, k);
    } else {
      var init := items[..n];
      forall j | i < j < |init| && init[j].Some? ensures init[j].value.0 != k {
        assert init[j] == items[j];
      }
      PutEachLast(d, init, i);
      if items[n].Some? {
        GetPut(r, items[n].value.0, items[n].value.1, k);
      }
    }
  }

  lemma {:induction false} PutEachDistinct<V>(d: Dict<V>, items: seq<Option<(string, V)>>)
    requires DistinctKeys(d)
    ensures DistinctKeys(PutEach(d, items))
    decreases |items|
  {
    if items != [] {
      var n := |items| - 1;
      PutEachDistinct(d, items[..n]);
      if items[n].Some? {
        PutDistinct(PutEach(d, items[..n]), items[n].value.0, items[n].value.1);
      }
    }
  }

  /** Every entry array_filter keeps is an entry of the input whose flag is set. */
  lemma {:induction false} WhereKept<V>(d: Dict<V>, keep: seq<bool>, j: int)
    requires |keep| == |d| && 0 <= j < |Where(d, keep)|
    ensures exists i :: 0 <= i < |d| && keep[i] && Where(d, keep)[j] == d[i]
    decreases |d|
  {
    var rest := Where(d[1..], keep[1..]);
    if keep[0] && j == 0 {
      assert Where(d, keep)[0] == d[0];
    } else {
      var j' := if keep[0] then j - 1 else j;
      assert Where(d, keep)[j] == rest[j'];
      WhereKept(d[1..], keep[1..], j');
      var i :| 0 <= i < |d| - 1 && keep[1..][i] && rest[j'] == d[1..][i];
      assert keep[i + 1] && Where(d, keep)[j] == d[i + 1];
    }
  }

  /** Every entry after a put is the new one or an entry from before. */
  lemma PutKeepsEntries<V>(d: Dict<V>, k: string, v: V, i: int)
    requires 0 <= i < |Put(d, k, v)|
    ensures Put(d, k, v)[i] == (k, v) || (exists j :: 0 <= j < |d| && d[j] == Put(d, k, v)[i])
    decreases |d|
  {
    if d != [] && d[0].0 != k && i > 0 {
      PutKeepsEntries(d[1..], k, v, i - 1);
      var r := Put(d[1..], k, v);
      if r[i - 1] != (k, v) {
        var j :| 0 <= j < |d[1..]| && d[1..][j] == r[i - 1];
        assert d[j + 1] == r[i - 1];
      }
    } else if d != [] && d[0].0 == k && i > 0 {
      assert d[i] == Put(d, k, v)[i];
    }
  }

  /** Every entry stored by PutEach is an entry of `d` or one of the items. */
  lemma {:induction false} PutEachEntries<V>(d: Dict<V>, items: seq<Option<(string, V)>>, i: int)
    requires 0 <= i < |PutEach(d, items)|
    ensures PutEach(d, items)[i] in d || Some(PutEach(d, items)[i]) in items
    decreases |items|
  {
    if items != [] {
      var n := |items| - 1;
      var r := PutEach(d, items[..n]);
      var e := PutEach(d, items)[i];
      var j := i;
      if items[n].Some? {
        PutKeepsEntries(r, items[n].value.0, items[n].value.1, i);
        if e == items[n].value {
          return;
        }
        j :| 0 <= j < |r| && r[j] == e;
      }
      PutEachEntries(d, items[..n], j);
      assert Some(e) in items[..n] ==> Some(e) in items;
    }
  }

  /** `e` is an entry of `d` whose flag is set. */
  ghost predicate KeptFrom<V>(d: Dict<V>, keep: seq<bool>, e: (string, V))
    requires |keep| == |d|
  {
    exists i :: 0 <= i < |d| && keep[i] && d[i] == e
  }

  /** Every entry array_filter keeps is an entry of the input whose flag is
      set. */
  lemma {:induction false} WhereKeptAll<V>(d: Dict<V>, keep: seq<bool>)
    requires |keep| == |d|
    ensures forall j :: 0 <= j < |Where(d, keep)| ==> KeptFrom(d, keep, Where(d, keep)[j])
  {
    forall j | 0 <= j < |Where(d, keep)| ensures KeptFrom(d, keep, Where(d, keep)[j]) {
      WhereKept(d, keep, j);
    }
  }

  /** The positions whose flag is set, counted from `base`, in increasing
      order. */
  function FlaggedFrom(keep: seq<bool>, base: int): (r: seq<int>)
    ensures forall j :: 0 <= j < |r| ==> base <= r[j] < base + |keep|
    decreases |keep|
  {
    if keep == [] then []
    else (if keep[0] then [base] else []) + FlaggedFrom(keep[1..], base + 1)
  }

  /** The positions whose flag is set, in increasing order. */
  function Flagged(keep: seq<bool>): (r: seq<int>)
    ensures forall j :: 0 <= j < |r| ==> 0 <= r[j] < |keep|
  {
    FlaggedFrom(keep, 0)
  }

  /** Every listed position is flagged. */
  lemma {:induction false} FlaggedFromSet(keep: seq<bool>, base: int, j: int)
    requires 0 <= j < |FlaggedFrom(keep, base)|
    ensures keep[FlaggedFrom(keep, base)[j] - base]
    decreases |keep|
  {
    var rest := FlaggedFrom(keep[1..], base + 1);
    assert FlaggedFrom(keep, base) == (if keep[0] then [base] else []) + rest;
    if keep[0] && j == 0 {
    } else {
      var k := if keep[0] then j - 1 else j;
      FlaggedFromSet(keep[1..], base + 1, k);
      assert FlaggedFrom(keep, base)[j] == rest[k];
    }
  }

  /** The listed positions increase. */
  lemma {:induction false} FlaggedFromIncreasing(keep: seq<bool>, base: int)
    ensures forall j, k :: 0 <= j < k < |FlaggedFrom(keep, base)| ==> FlaggedFrom(keep, base)[j] < FlaggedFrom(keep, base)[k]
    decreases |keep|
  {
    if keep != [] {
      var rest := FlaggedFrom(keep[1..], base + 1);
      FlaggedFromIncreasing(keep[1..], base + 1);
      assert FlaggedFrom(keep, base) == (if keep[0] then [base] else []) + rest;
    }
  }

  /** Every flagged position is listed. */
  lemma {:induction false} FlaggedFromComplete(keep: seq<bool>, base: int, i: int)
    requires 0 <= i < |keep| && keep[i]
    ensures base + i in FlaggedFrom(keep, base)
    decreases |keep|
  {
    var rest := FlaggedFrom(keep[1..], base + 1);
    assert FlaggedFrom(keep, base) == (if keep[0] then [base] else []) + rest;
    if i > 0 {
      assert keep[1..][i - 1];
      FlaggedFromComplete(keep[1..], base + 1, i - 1);
    }
  }

  /** Exactly the flagged positions are listed, each once, in increasing
      order. */
  lemma FlaggedSpec(keep: seq<bool>)
    ensures forall j :: 0 <= j < |Flagged(keep)| ==> keep[Flagged(keep)[j]]
    ensures forall j, k :: 0 <= j < k < |Flagged(keep)| ==> Flagged(keep)[j] < Flagged(keep)[k]
    ensures forall i :: 0 <= i < |keep| && keep[i] ==> i in Flagged(keep)
  {
    forall j | 0 <= j < |Flagged(keep)| ensures keep[Flagged(keep)[j]] {
      FlaggedFromSet(keep, 0, j);
    }
    FlaggedFromIncreasing(keep, 0);
    forall i | 0 <= i < |keep| && keep[i] ensures i in Flagged(keep) {
      FlaggedFromComplete(keep, 0, i);
    }
  }

  lemma {:induction false} WhereFlaggedLength<V>(d: Dict<V>, keep: seq<bool>, base: int)
    requires |keep| == |d|
    ensures |Where(d, keep)| == |FlaggedFrom(keep, base)|
    decreases |d|
  {
    if d != [] {
      WhereFlaggedLength(d[1..], keep[1..], base + 1);
    }
  }

  /** The j-th kept entry is the entry at the j-th flagged position. */
  lemma {:induction false} WhereAtFrom<V>(d: Dict<V>, keep: seq<bool>, base: int, j: int)
    requires |keep| == |d| && 0 <= j < |Where(d, keep)| && j < |FlaggedFrom(keep, base)|
    requires base <= FlaggedFrom(keep, base)[j] < base + |d|
    ensures Where(d, keep)[j] == d[FlaggedFrom(keep, base)[j] - base]
    decreases |d|
  {
    var rest, idx := Where(d[1..], keep[1..]), FlaggedFrom(keep[1..], base + 1);
    assert Where(d, keep) == (if keep[0] then [d[0]] else []) + rest;
    assert FlaggedFrom(keep, base) == (if keep[0] then [base] else []) + idx;
    if keep[0] && j == 0 {
    } else {
      var k := if keep[0] then j - 1 else j;
      assert Where(d, keep)[j] == rest[k] && FlaggedFrom(keep, base)[j] == idx[k];
      WhereAtFrom(d[1..], keep[1..], base + 1, k);
      var p := idx[k] - (base + 1);
      assert 0 <= p < |d| - 1 && d[1..][p] == d[p + 1];
      assert FlaggedFrom(keep, base)[j] - base == p + 1;
    }
  }

  /** array_filter keeps the flagged entries in their order: the j-th
      entry kept is the entry at the j-th flagged position. */
  lemma WhereAt<V>(d: Dict<V>, keep: seq<bool>)
    requires |keep| == |d|
    ensures |Where(d, keep)| == |Flagged(keep)|
    ensures forall j :: 0 <= j < |Where(d, keep)| ==> Where(d, keep)[j] == d[Flagged(keep)[j]]
  {
    WhereFlaggedLength(d, keep, 0);
    forall j | 0 <= j < |Where(d, keep)| ensures Where(d, keep)[j] == d[Flagged(keep)[j]] {
      WhereAtFrom(d, keep, 0, j);
    }
  }

  /** array_merge keeps the keys of its first array first, in their order. */
  lemma {:induction false} MergeKeepsOrder<V>(a: Dict<V>, b: Dict<V>)
    ensures |Merge(a, b)| >= |a| && Keys(Merge(a, b))[..|a|] == Keys(a)
    decreases |b|
  {
    if b != [] {
      var m := Merge(a, b[..|b| - 1]);
      MergeKeepsOrder(a, b[..|b| - 1]);
      PutKeys(m, b[|b| - 1].0, b[|b| - 1].1);
    }
  }
}
