/** Collection::sortBy on an integer field. PHP 8's sort is stable, so
    elements with equal keys keep the order they had. The sort is an
    insertion sort; its specification is Sorted plus "the elements of each
    key, in order, are unchanged" (Select), which also makes it a
    permutation and determines the result uniquely. */
module Sorting {

  predicate Sorted<T>(s: seq<T>, key: T -> int) {
    forall i, j :: 0 <= i < j < |s| ==> key(s[i]) <= key(s[j])
  }

  /** The elements of `s` whose key is `p`, in their order in `s`. */
  function Select<T>(s: seq<T>, key: T -> int, p: int): seq<T>
    decreases |s|
  {
    if s == [] then []
    else (if key(s[0]) == p then [s[0]] else []) + Select(s[1..], key, p)
  }

  /** Insert `x` after every element whose key is at most its own. */
  function Insert<T>(x: T, s: seq<T>, key: T -> int): seq<T>
    decreases |s|
  {
    if s == [] then [x]
    else if key(x) < key(s[0]) then [x] + s
    else [s[0]] + Insert(x, s[1..], key)
  }

  function SortBy<T>(s: seq<T>, key: T -> int): seq<T>
    decreases |s|
  {
    if s == [] then [] else Insert(s[|s| - 1], SortBy(s[..|s| - 1], key), key)
  }

  lemma {:induction false} SelectAppend<T>(s: seq<T>, x: T, key: T -> int, p: int)
    ensures Select(s + [x], key, p) == Select(s, key, p) + (if key(x) == p then [x] else [])
    decreases |s|
  {
    if s == [] {
      assert [x][1..] == [];
    } else {
      assert (s + [x])[1..] == s[1..] + [x];
      SelectAppend(s[1..], x, key, p);
    }
  }

  lemma {:induction false} SelectAbove<T>(s: seq<T>, key: T -> int, p: int)
    requires forall i :: 0 <= i < |s| ==> key(s[i]) > p
    ensures Select(s, key, p) == []
    decreases |s|
  {
    if s != [] {
      SelectAbove(s[1..], key, p);
    }
  }

  lemma {:induction false} InsertMultiset<T>(x: T, s: seq<T>, key: T -> int)
    ensures multiset(Insert(x, s, key)) == multiset(s) + multiset{x}
    decreases |s|
  {
    if s != [] && key(x) >= key(s[0]) {
      InsertMultiset(x, s[1..], key);
      assert s == [s[0]] + s[1..];
    }
  }

  lemma {:induction false} InsertSelect<T>(x: T, s: seq<T>, key: T -> int, p: int)
    requires Sorted(s, key)
    ensures Select(Insert(x, s, key), key, p) == Select(s, key, p) + (if key(x) == p then [x] else [])
    decreases |s|
  {
    if s == [] {
    } else if key(x) < key(s[0]) {
      assert ([x] + s)[1..] == s;
      if key(x) == p {
        assert forall i :: 0 <= i < |s| ==> key(s[0]) <= key(s[i]);
        SelectAbove(s, key, p);
      }
    } else {
      assert Sorted(s[1..], key) by {
        forall i, j | 0 <= i < j < |s| - 1 ensures key(s[1..][i]) <= key(s[1..][j]) {
          assert s[1..][i] == s[i + 1] && s[1..][j] == s[j + 1];
        }
      }
      InsertSelect(x, s[1..], key, p);
      var r := Insert(x, s[1..], key);
      var h := if key(s[0]) == p then [s[0]] else [];
      assert Insert(x, s, key) == [s[0]] + r;
      assert ([s[0]] + r)[1..] == r;
      assert Select(Insert(x, s, key), key, p) == h + Select(r, key, p);
      assert Select(s, key, p) == h + Select(s[1..], key, p);
    }
  }

  lemma {:induction false} InsertSorted<T>(x: T, s: seq<T>, key: T -> int)
    requires Sorted(s, key)
    ensures Sorted(Insert(x, s, key), key)
    decreases |s|
  {
    if s != [] && key(x) >= key(s[0]) {
      InsertSorted(x, s[1..], key);
      InsertMultiset(x, s[1..], key);
      var r := Insert(x, s[1..], key);
      assert s == [s[0]] + s[1..];
      forall i | 0 <= i < |r| ensures key(s[0]) <= key(r[i]) {
        assert r[i] in multiset(r);
        if r[i] != x {
          assert r[i] in multiset(s[1..]);
          var k :| 0 <= k < |s[1..]| && s[1..][k] == r[i];
          assert s[k + 1] == r[i];
        }
      }
    }
  }

  /** Collection::sortBy: ascending, stable, and a permutation of its input. */
  lemma {:induction false} SortBySpec<T>(s: seq<T>, key: T -> int)
    ensures Sorted(SortBy(s, key), key)
    ensures multiset(SortBy(s, key)) == multiset(s)
    ensures forall p :: Select(SortBy(s, key), key, p) == Select(s, key, p)
    decreases |s|
  {
    if s != [] {
      var init, x := s[..|s| - 1], s[|s| - 1];
      SortBySpec(init, key);
      InsertSorted(x, SortBy(init, key), key);
      InsertMultiset(x, SortBy(init, key), key);
      assert s == init + [x];
      forall p ensures Select(SortBy(s, key), key, p) == Select(s, key, p) {
        InsertSelect(x, SortBy(init, key), key, p);
        SelectAppend(init, x, key, p);
      }
    }
  }

  lemma {:induction false} SelectHead<T>(s: seq<T>, key: T -> int)
    requires s != []
    ensures Select(s, key, key(s[0])) != [] && Select(s, key, key(s[0]))[0] == s[0]
  {
  }

  lemma {:induction false} SelectMember<T>(s: seq<T>, key: T -> int, p: int)
    requires Select(s, key, p) != []
    ensures exists i :: 0 <= i < |s| && key(s[i]) == p && s[i] == Select(s, key, p)[0]
    decreases |s|
  {
    if key(s[0]) != p {
      SelectMember(s[1..], key, p);
      var i :| 0 <= i < |s[1..]| && key(s[1..][i]) == p && s[1..][i] == Select(s[1..], key, p)[0];
      assert s[i + 1] == s[1..][i];
    }
  }

  lemma SameHead<T>(a: seq<T>, b: seq<T>, key: T -> int)
    requires a != [] && b != []
    requires Sorted(a, key) && Sorted(b, key)
    requires forall p :: Select(a, key, p) == Select(b, key, p)
    ensures a[0] == b[0]
  {
    var pa, pb := key(a[0]), key(b[0]);
    SelectHead(a, key);
    SelectHead(b, key);
    assert Select(a, key, pb) == Select(b, key, pb);
    SelectMember(a, key, pb);
    var i :| 0 <= i < |a| && key(a[i]) == pb && a[i] == Select(a, key, pb)[0];
    assert pa <= pb by {
      if i > 0 {
        assert key(a[0]) <= key(a[i]);
      }
    }
    assert Select(b, key, pa) == Select(a, key, pa);
    SelectMember(b, key, pa);
    var j :| 0 <= j < |b| && key(b[j]) == pa && b[j] == Select(b, key, pa)[0];
    assert pb <= pa by {
      if j > 0 {
        assert key(b[0]) <= key(b[j]);
      }
    }
  }

  lemma SameTails<T>(a: seq<T>, b: seq<T>, key: T -> int)
    requires a != [] && b != [] && a[0] == b[0]
    requires forall p :: Select(a, key, p) == Select(b, key, p)
    ensures forall p :: Select(a[1..], key, p) == Select(b[1..], key, p)
  {
    forall p ensures Select(a[1..], key, p) == Select(b[1..], key, p) {
      var h := if key(a[0]) == p then [a[0]] else [];
      assert Select(a, key, p) == h + Select(a[1..], key, p);
      assert Select(b, key, p) == h + Select(b[1..], key, p);
      assert (h + Select(a[1..], key, p))[|h|..] == Select(a[1..], key, p);
      assert (h + Select(b[1..], key, p))[|h|..] == Select(b[1..], key, p);
    }
  }

  /** Two sorted sequences that agree on the elements of every key are equal:
      "ascending and stable" leaves exactly one possible order. */
  lemma {:induction false} SortedUnique<T>(a: seq<T>, b: seq<T>, key: T -> int)
    requires Sorted(a, key) && Sorted(b, key)
    requires forall p :: Select(a, key, p) == Select(b, key, p)
    ensures a == b
    decreases |a|
  {
    if a == [] {
      if b != [] {
        SelectHead(b, key);
      }
    } else if b == [] {
      SelectHead(a, key);
    } else {
      SameHead(a, b, key);
      SameTails(a, b, key);
      SortedUnique(a[1..], b[1..], key);
      assert a == [a[0]] + a[1..];
      assert b == [b[0]] + b[1..];
    }
  }
}
