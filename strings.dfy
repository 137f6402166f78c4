/** The PHP string functions the core relies on, on `seq<char>`, with the
    single-byte (ASCII) case mapping PHP 8 uses for strtolower/strtoupper. */
module PhpStrings {

  function LowerChar(c: char): char {
    if 'A' <= c <= 'Z' then (c as int + 32) as char else c
  }

  function UpperChar(c: char): char {
    if 'a' <= c <= 'z' then (c as int - 32) as char else c
  }

  /** strtolower */
  function Lower(s: string): (r: string)
    ensures |r| == |s|
    ensures forall i :: 0 <= i < |s| ==> r[i] == LowerChar(s[i])
  {
    seq(|s|, i requires 0 <= i < |s| => LowerChar(s[i]))
  }

  /** strtoupper */
  function Upper(s: string): (r: string)
    ensures |r| == |s|
    ensures forall i :: 0 <= i < |s| ==> r[i] == UpperChar(s[i])
  {
    seq(|s|, i requires 0 <= i < |s| => UpperChar(s[i]))
  }

  lemma LowerIdempotent(s: string)
    ensures Lower(Lower(s)) == Lower(s)
  {
  }

  /** An upper-cased string has no lower-case ASCII letter left, and
      upper-casing it again changes nothing. */
  lemma UpperResult(s: string)
    ensures forall i :: 0 <= i < |Upper(s)| ==> !('a' <= Upper(s)[i] <= 'z')
    ensures Upper(Upper(s)) == Upper(s)
  {
  }

  /** ucfirst */
  function Ucfirst(s: string): (r: string)
    ensures |r| == |s|
    ensures s != [] ==> r[0] == UpperChar(s[0])
    ensures forall i :: 0 < i < |s| ==> r[i] == s[i]
  {
    if s == [] then [] else [UpperChar(s[0])] + s[1..]
  }

  /** ltrim($s, $chars): drop leading characters that belong to `cs`. */
  function TrimLeft(s: string, cs: set<char>): (r: string)
    ensures |r| <= |s| && r == s[|s| - |r|..]
    ensures r == [] || r[0] !in cs
    ensures forall i :: 0 <= i < |s| - |r| ==> s[i] in cs
    decreases |s|
  {
    if |s| > 0 && s[0] in cs then TrimLeft(s[1..], cs) else s
  }

  /** rtrim($s, $chars): drop trailing characters that belong to `cs`. */
  function TrimRight(s: string, cs: set<char>): (r: string)
    ensures |r| <= |s| && r == s[..|r|]
    ensures r == [] || r[|r| - 1] !in cs
    ensures forall i :: |r| <= i < |s| ==> s[i] in cs
    decreases |s|
  {
    if |s| > 0 && s[|s| - 1] in cs then TrimRight(s[..|s| - 1], cs) else s
  }

  /** trim($s, $chars) */
  function Trim(s: string, cs: set<char>): string {
    TrimRight(TrimLeft(s, cs), cs)
  }

  /** The characters PHP's trim() strips when it is given none. */
  const Whitespace: set<char> := {' ', '\t', '\n', '\r', 0 as char, 11 as char}

  /** A string that neither starts nor ends with a character of `cs`. */
  predicate Trimmed(s: string, cs: set<char>) {
    s == [] || (s[0] !in cs && s[|s| - 1] !in cs)
  }

  lemma TrimLeftOfTrimmed(s: string, cs: set<char>)
    requires s == [] || s[0] !in cs
    ensures TrimLeft(s, cs) == s
  {
  }

  lemma TrimRightOfTrimmed(s: string, cs: set<char>)
    requires s == [] || s[|s| - 1] !in cs
    ensures TrimRight(s, cs) == s
  {
  }

  /** trim() removes exactly the characters of `cs` at both ends: its result
      is a middle slice of the input with nothing left to trim, so trimming
      twice is the same as trimming once. */
  lemma TrimSpec(s: string, cs: set<char>)
    ensures Trimmed(Trim(s, cs), cs)
    ensures exists a, b :: 0 <= a <= b <= |s| && Trim(s, cs) == s[a..b]
    ensures Trim(Trim(s, cs), cs) == Trim(s, cs)
  {
    var l := TrimLeft(s, cs);
    var r := TrimRight(l, cs);
    if r != [] {
      assert r[0] == l[0];
    }
    assert r == s[|s| - |l|..][..|r|] == s[|s| - |l|..|s| - |l| + |r|];
    TrimLeftOfTrimmed(r, cs);
    TrimRightOfTrimmed(r, cs);
  }

  /** explode($sep, $s) for a one-character separator. */
  function Explode(s: string, sep: char): (r: seq<string>)
    ensures |r| >= 1
    decreases |s|
  {
    if s == [] then [""]
    else if s[0] == sep then [""] + Explode(s[1..], sep)
    else
      var rest := Explode(s[1..], sep);
      [[s[0]] + rest[0]] + rest[1..]
  }

  /** implode($sep, $parts) */
  function Implode(sep: string, parts: seq<string>): string
    decreases |parts|
  {
    if |parts| == 0 then ""
    else if |parts| == 1 then parts[0]
    else parts[0] + sep + Implode(sep, parts[1..])
  }

  /** Joining the pieces of explode() with the separator gives the input back. */
  lemma {:induction false} ImplodeExplode(s: string, sep: char)
    ensures Implode([sep], Explode(s, sep)) == s
    decreases |s|
  {
    if s == [] {
    } else if s[0] == sep {
      var e := Explode(s[1..], sep);
      ImplodeExplode(s[1..], sep);
      assert Explode(s, sep) == [""] + e;
      assert ([""] + e)[1..] == e;
    } else {
      var e := Explode(s[1..], sep);
      ImplodeExplode(s[1..], sep);
      var parts := [[s[0]] + e[0]] + e[1..];
      assert Explode(s, sep) == parts;
      if |e| == 1 {
        assert Implode([sep], parts) == [s[0]] + e[0];
        assert s == [s[0]] + s[1..];
      } else {
        assert parts[1..] == e[1..];
        calc {
          Implode([sep], parts);
          ([s[0]] + e[0]) + [sep] + Implode([sep], e[1..]);
          [s[0]] + (e[0] + [sep] + Implode([sep], e[1..]));
          [s[0]] + Implode([sep], e);
          [s[0]] + s[1..];
        }
        assert [s[0]] + s[1..] == s;
      }
    }
  }

  lemma {:induction false} ExplodeWithout(a: string, sep: char)
    requires sep !in a
    ensures Explode(a, sep) == [a]
    decreases |a|
  {
    if a != [] {
      ExplodeWithout(a[1..], sep);
      assert [a[0]] + a[1..] == a;
    }
  }

  lemma {:induction false} ExplodeSplit(a: string, sep: char, b: string)
    requires sep !in a
    ensures Explode(a + [sep] + b, sep) == [a] + Explode(b, sep)
    decreases |a|
  {
    if a == [] {
      assert a + [sep] + b == [sep] + b;
      assert ([sep] + b)[1..] == b;
    } else {
      var s := a + [sep] + b;
      assert s[0] == a[0] && s[1..] == a[1..] + [sep] + b;
      ExplodeSplit(a[1..], sep, b);
      assert [a[0]] + a[1..] == a;
    }
  }

  /** Splitting a join of separator-free pieces gives the pieces back. */
  lemma {:induction false} ExplodeImplode(parts: seq<string>, sep: char)
    requires |parts| >= 1
    requires forall i :: 0 <= i < |parts| ==> sep !in parts[i]
    ensures Explode(Implode([sep], parts), sep) == parts
    decreases |parts|
  {
    if |parts| == 1 {
      ExplodeWithout(parts[0], sep);
    } else {
      ExplodeImplode(parts[1..], sep);
      ExplodeSplit(parts[0], sep, Implode([sep], parts[1..]));
      assert [parts[0]] + parts[1..] == parts;
    }
  }

  /** array_map('trim', …) */
  function TrimEach(parts: seq<string>): (r: seq<string>)
    ensures |r| == |parts|
    ensures forall i :: 0 <= i < |parts| ==> r[i] == Trim(parts[i], Whitespace)
  {
    seq(|parts|, i requires 0 <= i < |parts| => Trim(parts[i], Whitespace))
  }

  /** str_replace($search, $replace, $subject): every non-overlapping
      occurrence, scanning left to right. An empty search string leaves the
      subject as it is. */
  function StrReplace(search: string, replace: string, s: string): string
    decreases |s|
  {
    if search == [] || |s| < |search| then s
    else if s[..|search|] == search then replace + StrReplace(search, replace, s[|search|..])
    else [s[0]] + StrReplace(search, replace, s[1..])
  }

  predicate OccursAt(p: string, s: string, i: int) {
    0 <= i && i + |p| <= |s| && s[i..i + |p|] == p
  }

  /** A subject without the search string comes back unchanged. */
  lemma {:induction false} StrReplaceAbsent(search: string, replace: string, s: string)
    requires forall i :: !OccursAt(search, s, i)
    ensures StrReplace(search, replace, s) == s
    decreases |s|
  {
    if search == [] || |s| < |search| {
    } else {
      assert !OccursAt(search, s, 0);
      forall i ensures !OccursAt(search, s[1..], i) {
        if OccursAt(search, s[1..], i) {
          assert s[1..][i..i + |search|] == s[i + 1..i + 1 + |search|];
          assert OccursAt(search, s, i + 1);
        }
      }
      StrReplaceAbsent(search, replace, s[1..]);
      assert [s[0]] + s[1..] == s;
    }
  }

  /** Replacing a string by itself changes nothing. */
  lemma {:induction false} StrReplaceSelf(search: string, s: string)
    ensures StrReplace(search, search, s) == s
    decreases |s|
  {
    if search == [] || |s| < |search| {
    } else if s[..|search|] == search {
      StrReplaceSelf(search, s[|search|..]);
      assert s[..|search|] + s[|search|..] == s;
    } else {
      StrReplaceSelf(search, s[1..]);
      assert [s[0]] + s[1..] == s;
    }
  }
  /** The string with every `c` turned into `d`. */
  function ReplaceChar(c: char, d: char, s: string): (r: string)
    ensures |r| == |s|
    ensures forall i :: 0 <= i < |s| ==> r[i] == if s[i] == c then d else s[i]
  {
    seq(|s|, i requires 0 <= i < |s| => if s[i] == c then d else s[i])
  }

  /** str_replace with a one-character search and replacement maps the
      string character by character. */
  lemma {:induction false} StrReplaceChar(c: char, d: char, s: string)
    ensures StrReplace([c], [d], s) == ReplaceChar(c, d, s)
    decreases |s|
  {
    if s != [] {
      StrReplaceChar(c, d, s[1..]);
      if s[..1] == [c] {
        assert s[1..] == s[|[c]|..];
        assert StrReplace([c], [d], s) == [d] + ReplaceChar(c, d, s[1..]);
      } else {
        assert s[0] != c;
      }
    }
  }
}
