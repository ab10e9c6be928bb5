/** The behaviour of Python's `str` and `list` built-ins that the memory subsystem relies on:
    `strip`, `lower`, `in` on strings, `startswith`, slicing, `split`, `join` and `str(int)`. */
module PyText {
  import opened Wrappers

  /** The characters for which Python's `str.isspace()` holds: what `str.strip()` removes. */
  const Whitespace: set<char> := {
    '\t', '\n', '\U{B}', '\U{C}', '\r', '\U{1C}', '\U{1D}', '\U{1E}', '\U{1F}', ' ',
    '\U{85}', '\U{A0}', '\U{1680}', '\U{2000}', '\U{2001}', '\U{2002}', '\U{2003}', '\U{2004}',
    '\U{2005}', '\U{2006}', '\U{2007}', '\U{2008}', '\U{2009}', '\U{200A}', '\U{2028}',
    '\U{2029}', '\U{202F}', '\U{205F}', '\U{3000}'
  }

  /** `p` occurs in `s` starting at position `k`. */
  predicate MatchAt<T(==)>(s: seq<T>, p: seq<T>, k: int) {
    0 <= k && k + |p| <= |s| && s[k..k + |p|] == p
  }

  /** `r` occurs in `s` as a contiguous piece. */
  ghost predicate IsInfix<T>(r: seq<T>, s: seq<T>) {
    exists i :: MatchAt(s, r, i)
  }

  /** `s.lstrip(cs)` */
  function StripLeft(s: string, cs: set<char>): (r: string)
    ensures |r| <= |s| && r == s[|s| - |r|..]
    ensures r == [] || r[0] !in cs
  {
    if |s| > 0 && s[0] in cs then StripLeft(s[1..], cs) else s
  }

  /** `s.rstrip(cs)` */
  function StripRight(s: string, cs: set<char>): (r: string)
    ensures |r| <= |s| && r == s[..|r|]
    ensures r == [] || r[|r| - 1] !in cs
  {
    if |s| > 0 && s[|s| - 1] in cs then StripRight(s[..|s| - 1], cs) else s
  }

  /** `lstrip` removes only characters of `cs`. */
  lemma {:induction false} StripLeftRemovesOnly(s: string, cs: set<char>)
    ensures forall i :: 0 <= i < |s| - |StripLeft(s, cs)| ==> s[i] in cs
    decreases |s|
  {
    if |s| > 0 && s[0] in cs {
      StripLeftRemovesOnly(s[1..], cs);
      assert forall i :: 1 <= i < |s| ==> s[i] == s[1..][i - 1];
    }
  }

  /** `rstrip` removes only characters of `cs`. */
  lemma {:induction false} StripRightRemovesOnly(s: string, cs: set<char>)
    ensures forall i :: |StripRight(s, cs)| <= i < |s| ==> s[i] in cs
    decreases |s|
  {
    if |s| > 0 && s[|s| - 1] in cs {
      StripRightRemovesOnly(s[..|s| - 1], cs);
    }
  }

  /** `s` neither starts nor ends with a character of `cs`. */
  predicate Trimmed(s: string, cs: set<char>) {
    s == [] || (s[0] !in cs && s[|s| - 1] !in cs)
  }

  /** Every character of `t` is in `cs`. */
  predicate AllIn(t: string, cs: set<char>) {
    forall i :: 0 <= i < |t| ==> t[i] in cs
  }

  /** `r` is `s[a..b]`, and everything cut off before `a` and after `b` is a character of `cs`. */
  predicate CutAt(r: string, s: string, cs: set<char>, a: int, b: int) {
    0 <= a <= b <= |s| && r == s[a..b] && AllIn(s[..a], cs) && AllIn(s[b..], cs)
  }

  /** `r` is what is left of `s` after cutting characters of `cs` off its two ends. */
  ghost predicate CutFrom(r: string, s: string, cs: set<char>) {
    exists a, b :: CutAt(r, s, cs, a, b)
  }

  /** `s.strip(cs)`: what is left after removing characters of `cs` from both ends, and only from
      the ends; it neither starts nor ends with one of them, and a string that already does not
      is returned as is. */
  function Strip(s: string, cs: set<char>): (r: string)
    ensures IsInfix(r, s)
    ensures CutFrom(r, s, cs)
    ensures Trimmed(r, cs)
    ensures Trimmed(s, cs) ==> r == s
  {
    var l := StripLeft(s, cs);
    var r := StripRight(l, cs);
    StripIsPiece(s, l, r);
    StripLeftRemovesOnly(s, cs);
    StripRightRemovesOnly(l, cs);
    StripCuts(s, cs, l, r);
    StripTrims(cs, l, r);
    StripKeepsTrimmed(s, cs, l, r);
    r
  }

  lemma StripIsPiece(s: string, l: string, r: string)
    requires |l| <= |s| && l == s[|s| - |l|..]
    requires |r| <= |l| && r == l[..|r|]
    ensures IsInfix(r, s)
  {
    var i := |s| - |l|;
    assert s[i..i + |r|] == l[..|r|];
    assert MatchAt(s, r, i);
  }

  lemma StripTrims(cs: set<char>, l: string, r: string)
    requires l == [] || l[0] !in cs
    requires r == [] || r[|r| - 1] !in cs
    requires |r| <= |l| && r == l[..|r|]
    ensures Trimmed(r, cs)
  {
    if r != [] {
      assert r[0] == l[0];
    }
  }

  lemma StripKeepsTrimmed(s: string, cs: set<char>, l: string, r: string)
    requires l == StripLeft(s, cs) && r == StripRight(l, cs)
    ensures Trimmed(s, cs) ==> r == s
  {
    if Trimmed(s, cs) {
      assert l == s;
    }
  }

  lemma StripCuts(s: string, cs: set<char>, l: string, r: string)
    requires |l| <= |s| && l == s[|s| - |l|..]
    requires |r| <= |l| && r == l[..|r|]
    requires forall i :: 0 <= i < |s| - |l| ==> s[i] in cs
    requires forall i :: |r| <= i < |l| ==> l[i] in cs
    ensures CutAt(r, s, cs, |s| - |l|, |s| - |l| + |r|)
  {
    var a := |s| - |l|;
    var b := a + |r|;
    assert s[a..b] == r;
    var pre, post := s[..a], s[b..];
    forall i | 0 <= i < |pre|
      ensures pre[i] in cs
    {
      assert pre[i] == s[i];
    }
    forall i | 0 <= i < |post|
      ensures post[i] in cs
    {
      assert post[i] == l[|r| + i];
    }
  }

  /** The two facts `Strip` ensures fix its result: any trimmed piece cut from `s` by removing
      characters of `cs` at the ends is `s.strip(cs)`. */
  lemma StripUnique(s: string, cs: set<char>, r: string)
    requires CutFrom(r, s, cs) && Trimmed(r, cs)
    ensures r == Strip(s, cs)
  {
    var t := Strip(s, cs);
    var a, b :| CutAt(r, s, cs, a, b);
    var c, d :| CutAt(t, s, cs, c, d);
    TrimmedCutsAgree(s, cs, r, t, a, b, c, d);
  }

  /** Two cuts that both leave a trimmed piece leave the same piece. */
  lemma TrimmedCutsAgree(s: string, cs: set<char>, r: string, t: string, a: int, b: int, c: int, d: int)
    requires CutAt(r, s, cs, a, b) && Trimmed(r, cs)
    requires CutAt(t, s, cs, c, d) && Trimmed(t, cs)
    ensures r == t
  {
    if a == b {
      CutEmptyAll(s, cs, a);
      EmptyWhenAllIn(s, cs, t, c, d);
    } else if c == d {
      CutEmptyAll(s, cs, c);
      EmptyWhenAllIn(s, cs, r, a, b);
    } else {
      PieceStart(s, cs, a, b, c, d);
      PieceStart(s, cs, c, d, a, b);
      PieceEnd(s, cs, a, b, c, d);
      PieceEnd(s, cs, c, d, a, b);
    }
  }

  /** Cutting everything off leaves no character outside `cs`. */
  lemma CutEmptyAll(s: string, cs: set<char>, a: int)
    requires 0 <= a <= |s| && AllIn(s[..a], cs) && AllIn(s[a..], cs)
    ensures forall i :: 0 <= i < |s| ==> s[i] in cs
  {
    AllInConcat(s[..a], s[a..], cs, cs, cs);
    assert s[..a] + s[a..] == s;
  }

  lemma EmptyWhenAllIn(s: string, cs: set<char>, r: string, a: int, b: int)
    requires 0 <= a <= b <= |s| && r == s[a..b] && Trimmed(r, cs)
    requires forall i :: 0 <= i < |s| ==> s[i] in cs
    ensures r == []
  {
  }

  /** A non-empty piece that does not start with a character of `cs` cannot start inside a part
      cut off on the left. */
  lemma PieceStart(s: string, cs: set<char>, a: int, b: int, c: int, d: int)
    requires 0 <= a < b <= |s| && 0 <= c <= d <= |s|
    requires Trimmed(s[a..b], cs) && AllIn(s[..c], cs)
    ensures c <= a
  {
    assert s[a..b][0] == s[a];
  }

  /** A non-empty piece that does not end with a character of `cs` cannot end inside a part cut
      off on the right. */
  lemma PieceEnd(s: string, cs: set<char>, a: int, b: int, c: int, d: int)
    requires 0 <= a < b <= |s| && 0 <= c <= d <= |s|
    requires Trimmed(s[a..b], cs) && AllIn(s[d..], cs)
    ensures b <= d
  {
    assert s[a..b][b - a - 1] == s[b - 1];
  }

  /** Cutting twice cuts once: a piece of a piece of `z` is a piece of `z`, and everything cut
      off, at either step, is in `u`. */
  lemma CutFromTrans(x: string, y: string, z: string, cs1: set<char>, cs2: set<char>, u: set<char>)
    requires CutFrom(x, y, cs1) && CutFrom(y, z, cs2) && cs1 <= u && cs2 <= u
    ensures CutFrom(x, z, u)
  {
    var c, d :| CutAt(x, y, cs1, c, d);
    var a, b :| CutAt(y, z, cs2, a, b);
    CutAtTrans(x, y, z, cs1, cs2, u, a, b, c, d);
  }

  lemma CutAtTrans(x: string, y: string, z: string, cs1: set<char>, cs2: set<char>, u: set<char>,
                   a: int, b: int, c: int, d: int)
    requires CutAt(x, y, cs1, c, d) && CutAt(y, z, cs2, a, b) && cs1 <= u && cs2 <= u
    ensures CutAt(x, z, u, a + c, a + d)
  {
    assert x == z[a + c..a + d] by {
      forall k | 0 <= k < |x|
        ensures x[k] == z[a + c + k]
      {
        assert x[k] == y[c + k];
      }
    }
    AllInConcat(z[..a], y[..c], cs2, cs1, u);
    assert z[..a] + y[..c] == z[..a + c];
    AllInConcat(y[d..], z[b..], cs1, cs2, u);
    assert y[d..] + z[b..] == z[a + d..];
  }

  lemma AllInConcat(p: string, q: string, cp: set<char>, cq: set<char>, u: set<char>)
    requires AllIn(p, cp) && AllIn(q, cq) && cp <= u && cq <= u
    ensures AllIn(p + q, u)
  {
    forall i | 0 <= i < |p + q|
      ensures (p + q)[i] in u
    {
      if i < |p| {
        assert (p + q)[i] == p[i];
      } else {
        assert (p + q)[i] == q[i - |p|];
      }
    }
  }

  /** `s.strip()` with no argument. */
  function StripSpace(s: string): (r: string)
    ensures IsInfix(r, s)
    ensures CutFrom(r, s, Whitespace)
    ensures Trimmed(r, Whitespace)
    ensures Trimmed(s, Whitespace) ==> r == s
  {
    Strip(s, Whitespace)
  }

  /** Lower-casing of one character; only the ASCII letters are mapped. */
  function LowerChar(c: char): char {
    if 'A' <= c <= 'Z' then (c as int - 'A' as int + 'a' as int) as char else c
  }

  /** `s.lower()`, restricted to ASCII letters. */
  function Lower(s: string): (r: string)
    ensures |r| == |s| && forall i :: 0 <= i < |s| ==> r[i] == LowerChar(s[i])
  {
    if s == [] then [] else [LowerChar(s[0])] + Lower(s[1..])
  }

  /** `s.startswith(p)` */
  predicate StartsWith(s: string, p: string) {
    |p| <= |s| && s[..|p|] == p
  }

  /** `sub in s` for strings. */
  predicate Contains(s: string, sub: string) {
    exists i | 0 <= i <= |s| :: MatchAt(s, sub, i)
  }

  /** `s[:n]` for a non-negative `n`. */
  function Take<T>(s: seq<T>, n: nat): (r: seq<T>)
    ensures |r| == if n <= |s| then n else |s|
    ensures r == s[..|r|]
  {
    if n <= |s| then s[..n] else s
  }

  /** The first position at or after `from` where `p` occurs in `s`. */
  function FindFrom(s: string, p: string, from: nat): (r: Option<nat>)
    requires from <= |s|
    ensures r.Some? ==> from <= r.value && MatchAt(s, p, r.value)
    ensures forall k :: from <= k && (r.None? || k < r.value) ==> !MatchAt(s, p, k)
    decreases |s| - from
  {
    if from + |p| > |s| then None
    else if s[from..from + |p|] == p then Some(from)
    else FindFrom(s, p, from + 1)
  }

  /** `s.split(sep)` for a non-empty separator: the pieces between non-overlapping occurrences
      of `sep`, scanned from the left. */
  function Split(s: string, sep: string): (parts: seq<string>)
    requires |sep| > 0
    ensures |parts| >= 1
    decreases |s|
  {
    match FindFrom(s, sep, 0)
    case None => [s]
    case Some(k) => [s[..k]] + Split(s[k + |sep|..], sep)
  }

  /** `sep.join(parts)` */
  function Join(parts: seq<string>, sep: string): (r: string)
    ensures parts == [] ==> r == ""
    ensures |parts| == 1 ==> r == parts[0]
    ensures |parts| > 0 ==> StartsWith(r, parts[0])
  {
    if |parts| == 0 then ""
    else if |parts| == 1 then parts[0]
    else parts[0] + sep + Join(parts[1..], sep)
  }

  /** Joining a concatenation puts one separator between the two joined halves. */
  lemma {:induction false} JoinAppend(a: seq<string>, b: seq<string>, sep: string)
    requires |a| > 0 && |b| > 0
    ensures Join(a + b, sep) == Join(a, sep) + sep + Join(b, sep)
  {
    if |a| == 1 {
      assert (a + b)[1..] == b;
    } else {
      assert (a + b)[1..] == a[1..] + b;
      JoinAppend(a[1..], b, sep);
    }
  }

  /** A joined list is empty exactly when it is empty or its only part is (for a non-empty
      separator). */
  lemma {:induction false} JoinEmpty(parts: seq<string>, sep: string)
    requires |sep| > 0
    ensures Join(parts, sep) == "" <==> parts == [] || parts == [""]
  {
    if |parts| > 1 {
      assert |Join(parts, sep)| >= |parts[0]| + |sep|;
    }
  }

  function DigitChar(d: nat): char
    requires d < 10
  {
    ('0' as int + d) as char
  }

  /** The number a string of decimal digits denotes, most significant digit first. */
  function DigitsValue(s: string): nat {
    if s == [] then 0
    else
      var c := s[|s| - 1];
      DigitsValue(s[..|s| - 1]) * 10 + (if '0' <= c <= '9' then c as int - '0' as int else 0)
  }

  /** The number a decimal numeral with an optional leading minus sign denotes. */
  function NumeralValue(s: string): int {
    if s != [] && s[0] == '-' then -(DigitsValue(s[1..]) as int) else DigitsValue(s)
  }

  /** `str(n)` for a natural number: its decimal numeral, with no leading zero. */
  function NatToString(n: nat): (r: string)
    ensures |r| >= 1 && '0' <= r[0] <= '9'
    ensures DigitsValue(r) == n
    ensures r[0] == '0' ==> n == 0
  {
    if n < 10 then [DigitChar(n)]
    else
      var r := NatToString(n / 10) + [DigitChar(n % 10)];
      assert r[..|r| - 1] == NatToString(n / 10);
      r
  }

  /** `str(n)` consists of decimal digits only. */
  lemma {:induction false} NatToStringDigits(n: nat)
    ensures forall i :: 0 <= i < |NatToString(n)| ==> '0' <= NatToString(n)[i] <= '9'
  {
    if n >= 10 {
      NatToStringDigits(n / 10);
    }
  }

  /** `str(i)` for an integer: a minus sign exactly for a negative `i`, then the numeral of its
      magnitude; read back, it denotes `i`. */
  function IntToString(i: int): (r: string)
    ensures |r| >= 1
    ensures (r[0] == '-') <==> i < 0
    ensures NumeralValue(r) == i
    ensures r[if i < 0 then 1 else 0..] == NatToString(if i < 0 then -i else i)
  {
    if i < 0 then
      var r := "-" + NatToString(-i);
      assert r[1..] == NatToString(-i);
      r
    else NatToString(i)
  }

  /** Python's `int(x)` on a float: truncation toward zero. */
  function Trunc(x: real): int {
    if x >= 0.0 then x.Floor else -((-x).Floor)
  }

  /** `int(x)` is the integer next to `x` on the side of zero. */
  lemma TruncBounds(x: real)
    ensures x >= 0.0 ==> Trunc(x) as real <= x < Trunc(x) as real + 1.0
    ensures x < 0.0 ==> Trunc(x) as real - 1.0 < x <= Trunc(x) as real
  {
  }

  /** The list has no repeated element. */
  predicate Distinct<T(==)>(s: seq<T>) {
    forall i, j :: 0 <= i < j < |s| ==> s[i] != s[j]
  }

  /** The elements of a list, as a set. */
  function ToSet<T>(s: seq<T>): set<T> {
    set x | x in s
  }

  lemma ToSetAppend<T>(s: seq<T>, x: T)
    ensures ToSet(s + [x]) == ToSet(s) + {x}
  {
    assert forall y :: y in s + [x] <==> y in s || y == x;
  }

  lemma DistinctAppend<T>(s: seq<T>, x: T)
    requires Distinct(s) && x !in s
    ensures Distinct(s + [x])
  {
  }

  /** A list without repetitions has as many elements as its set. */
  lemma {:induction false} DistinctCard<T>(s: seq<T>)
    requires Distinct(s)
    ensures |ToSet(s)| == |s|
    decreases |s|
  {
    if |s| > 0 {
      var p := s[..|s| - 1];
      assert s == p + [s[|s| - 1]];
      DistinctCard(p);
      ToSetAppend(p, s[|s| - 1]);
    }
  }

  /** The value of an option as a list of at most one element. */
  function OptionToSeq<U>(o: Option<U>): seq<U> {
    if o.Some? then [o.value] else []
  }

  /** The values `f` gives for the items, in order, skipping the items it gives none for; `f` is
      also told each item's position. */
  function FilterMap<T, U>(items: seq<T>, f: (nat, T) -> Option<U>): (r: seq<U>)
    ensures |r| <= |items|
    decreases |items|
  {
    if items == [] then []
    else FilterMap(items[..|items| - 1], f) + OptionToSeq(f(|items| - 1, items[|items| - 1]))
  }

  lemma FilterMapSnoc<T, U>(items: seq<T>, x: T, f: (nat, T) -> Option<U>)
    ensures FilterMap(items + [x], f) == FilterMap(items, f) + OptionToSeq(f(|items|, x))
  {
    assert (items + [x])[..|items|] == items;
  }

  /** A value is kept exactly when `f` gives it for some item. */
  lemma {:induction false} FilterMapMembers<T, U>(items: seq<T>, f: (nat, T) -> Option<U>, u: U)
    ensures u in FilterMap(items, f) <==> exists i :: 0 <= i < |items| && f(i, items[i]) == Some(u)
    decreases |items|
  {
    if items != [] {
      var n := |items| - 1;
      FilterMapMembers(items[..n], f, u);
      assert forall i :: 0 <= i < n ==> items[..n][i] == items[i];
    }
  }

  /** `"".join(f(x) for x in s)`: the pieces for the elements, one after the other. */
  function ConcatMap<T>(s: seq<T>, f: T -> string): string
    decreases |s|
  {
    if |s| == 0 then "" else ConcatMap(s[..|s| - 1], f) + f(s[|s| - 1])
  }

  lemma ConcatMapSnoc<T>(s: seq<T>, x: T, f: T -> string)
    ensures ConcatMap(s + [x], f) == ConcatMap(s, f) + f(x)
  {
    assert (s + [x])[..|s|] == s;
  }

  /** Concatenating over two lists one after the other gives the two results one after the other. */
  lemma {:induction false} ConcatMapAppend<T>(a: seq<T>, b: seq<T>, f: T -> string)
    ensures ConcatMap(a + b, f) == ConcatMap(a, f) + ConcatMap(b, f)
    decreases |b|
  {
    if |b| == 0 {
      assert a + b == a;
    } else {
      var front, x := b[..|b| - 1], b[|b| - 1];
      calc {
        ConcatMap(a + b, f);
      == { assert a + b == (a + front) + [x]; }
        ConcatMap((a + front) + [x], f);
      == { ConcatMapSnoc(a + front, x, f); }
        ConcatMap(a + front, f) + f(x);
      == { ConcatMapAppend(a, front, f); }
        ConcatMap(a, f) + ConcatMap(front, f) + f(x);
      == { ConcatMapSnoc(front, x, f); assert front + [x] == b; }
        ConcatMap(a, f) + ConcatMap(b, f);
      }
    }
  }

  lemma ConcatMapHead<T>(s: seq<T>, f: T -> string)
    requires |s| > 0
    ensures ConcatMap(s, f) == f(s[0]) + ConcatMap(s[1..], f)
  {
    var x, rest := s[0], s[1..];
    assert ConcatMap(s, f) == ConcatMap([x], f) + ConcatMap(rest, f) by {
      assert s == [x] + rest;
      ConcatMapAppend([x], rest, f);
    }
    assert ConcatMap([x], f) == f(x) by {
      assert [x][..0] == [];
    }
  }

  /** The lists of `hs`, one after the other (`parts.extend(h)` for each `h`). */
  function Flatten<T>(hs: seq<seq<T>>): seq<T>
    decreases |hs|
  {
    if |hs| == 0 then [] else Flatten(hs[..|hs| - 1]) + hs[|hs| - 1]
  }

  lemma FlattenSnoc<T>(hs: seq<seq<T>>, k: nat)
    requires k < |hs|
    ensures Flatten(hs[..k + 1]) == Flatten(hs[..k]) + hs[k]
  {
    assert hs[..k + 1][..k] == hs[..k];
  }

  /** The result is empty exactly when every list is. */
  lemma {:induction false} FlattenEmpty<T>(hs: seq<seq<T>>)
    ensures Flatten(hs) == [] <==> forall k :: 0 <= k < |hs| ==> hs[k] == []
    decreases |hs|
  {
    if |hs| > 0 {
      var front := hs[..|hs| - 1];
      FlattenEmpty(front);
      assert forall k :: 0 <= k < |front| ==> front[k] == hs[k];
    }
  }

  /** When every non-empty list starts with something other than `x`, so does the result. */
  lemma {:induction false} FlattenHead<T>(hs: seq<seq<T>>, x: T)
    requires forall k :: 0 <= k < |hs| ==> hs[k] == [] || hs[k][0] != x
    ensures Flatten(hs) == [] || Flatten(hs)[0] != x
    decreases |hs|
  {
    if |hs| > 0 {
      var front := hs[..|hs| - 1];
      assert forall k :: 0 <= k < |front| ==> front[k] == hs[k];
      FlattenHead(front, x);
    }
  }

  /** When only the `k`-th list is non-empty, the result is that list. */
  lemma {:induction false} FlattenSingle<T>(hs: seq<seq<T>>, k: nat)
    requires k < |hs|
    requires forall j :: 0 <= j < |hs| && j != k ==> hs[j] == []
    ensures Flatten(hs) == hs[k]
    decreases |hs|
  {
    var front := hs[..|hs| - 1];
    if k == |hs| - 1 {
      assert Flatten(front) == [] by {
        FlattenEmpty(front);
      }
      assert [] + hs[k] == hs[k];
    } else {
      assert forall j :: 0 <= j < |front| ==> front[j] == hs[j];
      FlattenSingle(front, k);
      assert Flatten(front) + [] == Flatten(front);
    }
  }
}
