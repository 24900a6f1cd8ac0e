/** Option, used wherever the source has "no match" or an absent JSON key. */
module Wrappers {
  datatype Option<+T> = None | Some(value: T)
}

/**
  Character classes of the two runtimes and the string helpers both code bases
  lean on: JavaScript's `\s` / `String.prototype.trim` set, Python's
  `str.isspace` / `\s` set, ASCII letters and digits, trimming, splitting and
  joining. Strings are sequences of characters; letters, digits and case
  mapping are ASCII only.
 */
module Text {
  import opened Wrappers

  const NBSP: char := '\U{00A0}'

  predicate IsNbsp(c: char) { c == NBSP }

  function Min(a: int, b: int): int { if a <= b then a else b }

  predicate IsLf(c: char) { c == '\n' }

  predicate IsAsciiLetter(c: char) { 'A' <= c <= 'Z' || 'a' <= c <= 'z' }

  predicate IsAsciiDigit(c: char) { '0' <= c <= '9' }

  predicate IsAsciiAlnum(c: char) { IsAsciiLetter(c) || IsAsciiDigit(c) }

  /** `\w` in a regex without the Unicode flag: letters, digits and the underscore. */
  predicate IsWordChar(c: char) { IsAsciiAlnum(c) || c == '_' }

  /** JavaScript WhiteSpace and LineTerminator: the set `\s` matches and `trim` removes. */
  predicate IsJsSpace(c: char) {
    c == '\t' || c == '\n' || c == '\U{000B}' || c == '\U{000C}' || c == '\r' ||
    c == ' ' || c == '\U{00A0}' || c == '\U{1680}' || ('\U{2000}' <= c <= '\U{200A}') ||
    c == '\U{2028}' || c == '\U{2029}' || c == '\U{202F}' || c == '\U{205F}' ||
    c == '\U{3000}' || c == '\U{FEFF}'
  }

  /** Python `str.isspace`, which is also what `\s` and `str.strip()` use on str. */
  predicate IsPySpace(c: char) {
    ('\t' <= c <= '\r') || ('\U{001C}' <= c <= '\U{001F}') || c == ' ' ||
    c == '\U{0085}' || c == '\U{00A0}' || c == '\U{1680}' || ('\U{2000}' <= c <= '\U{200A}') ||
    c == '\U{2028}' || c == '\U{2029}' || c == '\U{202F}' || c == '\U{205F}' || c == '\U{3000}'
  }

  function AsciiLower(c: char): char {
    if 'A' <= c <= 'Z' then (c as int + 32) as char else c
  }

  function AsciiUpper(c: char): char {
    if 'a' <= c <= 'z' then (c as int - 32) as char else c
  }

  /** `toLowerCase()` / `lower()`, restricted to ASCII letters. */
  function Lower(s: string): (r: string)
    ensures |r| == |s|
    ensures forall i :: 0 <= i < |s| ==> r[i] == AsciiLower(s[i])
  {
    if |s| == 0 then [] else [AsciiLower(s[0])] + Lower(s[1..])
  }

  /** `str.capitalize`: the first character upper-cased, the rest lower-cased (ASCII letters only). */
  function Capitalize(w: string): (r: string)
    ensures |r| == |w|
  {
    if |w| == 0 then "" else [AsciiUpper(w[0])] + Lower(w[1..])
  }

  /** Every character of `r` occurs in `s`. */
  ghost predicate CharsFrom(r: string, s: string) {
    forall c :: c in r ==> c in s
  }

  predicate AllChars(s: string, p: char -> bool) {
    forall i :: 0 <= i < |s| ==> p(s[i])
  }

  predicate SomeChar(s: string, p: char -> bool) {
    exists i :: 0 <= i < |s| && p(s[i])
  }

  predicate OccursAt(s: string, i: nat, w: string) {
    i + |w| <= |s| && s[i..i + |w|] == w
  }

  /** `s.includes(w)` / `w in s`. */
  predicate Contains(s: string, w: string) {
    exists i :: 0 <= i <= |s| && OccursAt(s, i, w)
  }

  function CountWhere(s: string, p: char -> bool): (n: nat)
    ensures n <= |s|
  {
    if |s| == 0 then 0 else (if p(s[0]) then 1 else 0) + CountWhere(s[1..], p)
  }

  function DigitCount(s: string): nat { CountWhere(s, IsAsciiDigit) }

  lemma {:induction false} CountWhereConcat(a: string, b: string, p: char -> bool)
    ensures CountWhere(a + b, p) == CountWhere(a, p) + CountWhere(b, p)
  {
    if |a| > 0 {
      assert (a + b)[0] == a[0];
      assert (a + b)[1..] == a[1..] + b;
      CountWhereConcat(a[1..], b, p);
    } else {
      assert a + b == b;
    }
  }

  /** Keeps the characters that satisfy `keep`, in order (a global `replace(/[...]/g, "")`). */
  function Filter(s: string, keep: char -> bool): (r: string)
    ensures |r| <= |s|
    ensures AllChars(r, keep)
    ensures forall c :: c in r ==> c in s
    ensures (forall i :: 0 <= i < |s| ==> keep(s[i])) ==> r == s
  {
    if |s| == 0 then [] else (if keep(s[0]) then [s[0]] else []) + Filter(s[1..], keep)
  }

  /** Replaces every character of a class by one space (a global `replace(/[...]/g, " ")`). */
  function ReplaceWithSpace(s: string, inClass: char -> bool): (r: string)
    ensures |r| == |s|
    ensures forall i :: 0 <= i < |s| ==> r[i] == if inClass(s[i]) then ' ' else s[i]
  {
    if |s| == 0 then [] else [if inClass(s[0]) then ' ' else s[0]] + ReplaceWithSpace(s[1..], inClass)
  }

  /** The number of leading characters of the class `ws`. */
  function LeadCount(s: string, ws: char -> bool): (n: nat)
    ensures n <= |s|
    ensures forall k :: 0 <= k < n ==> ws(s[k])
    ensures n < |s| ==> !ws(s[n])
  {
    if |s| > 0 && ws(s[0]) then 1 + LeadCount(s[1..], ws) else 0
  }

  /** The number of trailing characters of the class `ws`. */
  function TrailCount(s: string, ws: char -> bool): (n: nat)
    ensures n <= |s|
    ensures forall k :: |s| - n <= k < |s| ==> ws(s[k])
    ensures n < |s| ==> !ws(s[|s| - n - 1])
  {
    if |s| > 0 && ws(s[|s| - 1]) then 1 + TrailCount(s[..|s| - 1], ws) else 0
  }

  function TrimStart(s: string, ws: char -> bool): string {
    s[LeadCount(s, ws)..]
  }

  function TrimEnd(s: string, ws: char -> bool): string {
    s[..|s| - TrailCount(s, ws)]
  }

  /** Removes leading and trailing characters of the class `ws`. */
  function Trim(s: string, ws: char -> bool): (r: string)
    ensures |r| <= |s|
    ensures r == [] || (!ws(r[0]) && !ws(r[|r| - 1]))
    ensures forall c :: c in r ==> c in s
    ensures (s == [] || (!ws(s[0]) && !ws(s[|s| - 1]))) ==> r == s
  {
    var a := TrimStart(s, ws);
    var r := TrimEnd(a, ws);
    assert forall c :: c in a ==> c in s by {
      forall c | c in a ensures c in s {
        var k :| 0 <= k < |a| && a[k] == c;
        assert s[|s| - |a| + k] == c;
      }
    }
    assert forall c :: c in r ==> c in a by {
      forall c | c in r ensures c in a {
        var k :| 0 <= k < |r| && r[k] == c;
        assert a[k] == c;
      }
    }
    r
  }

  /** Trimming leaves nothing exactly when every character is in the class. */
  lemma TrimEmptyIff(s: string, ws: char -> bool)
    ensures Trim(s, ws) == [] <==> AllChars(s, ws)
  {
    var a := TrimStart(s, ws);
    assert TrimEnd(a, ws) == [] ==> a == [];
  }

  /** The trimmed string is the slice of `s` between the leading run and a trailing run of the class. */
  lemma TrimSlice(s: string, ws: char -> bool)
    ensures LeadCount(s, ws) + |Trim(s, ws)| <= |s|
    ensures Trim(s, ws) == s[LeadCount(s, ws)..LeadCount(s, ws) + |Trim(s, ws)|]
    ensures forall k :: LeadCount(s, ws) + |Trim(s, ws)| <= k < |s| ==> ws(s[k])
  {
    var n := LeadCount(s, ws);
    var u := s[n..];
    assert TrimStart(s, ws) == u;
    var tc := TrailCount(u, ws);
    var r := u[..|u| - tc];
    assert Trim(s, ws) == r;
    assert r == s[n..n + |r|];
    forall k | n + |r| <= k < |s| ensures ws(s[k]) {
      assert s[k] == u[k - n];
    }
  }

  lemma {:induction false} FilterConcat(a: string, b: string, p: char -> bool)
    ensures Filter(a + b, p) == Filter(a, p) + Filter(b, p)
  {
    if |a| > 0 {
      assert (a + b)[0] == a[0];
      assert (a + b)[1..] == a[1..] + b;
      FilterConcat(a[1..], b, p);
    } else {
      assert a + b == b;
    }
  }

  lemma {:induction false} FilterNone(s: string, p: char -> bool)
    requires forall i :: 0 <= i < |s| ==> !p(s[i])
    ensures Filter(s, p) == []
  {
    if |s| > 0 {
      FilterNone(s[1..], p);
    }
  }

  lemma FilterCons(c: char, b: string, p: char -> bool)
    ensures Filter([c] + b, p) == (if p(c) then [c] else []) + Filter(b, p)
  {
    assert ([c] + b)[1..] == b;
  }

  /** A front piece that keeps nothing drops out of the filtered text. */
  lemma FilterDropFront(m: string, b: string, p: char -> bool)
    requires Filter(m, p) == []
    ensures Filter(m + b, p) == Filter(b, p)
  {
    FilterConcat(m, b, p);
  }

  /** A prefix that keeps nothing can be dropped before filtering. */
  lemma FilterSkip(s: string, n: nat, p: char -> bool)
    requires n <= |s| && forall i :: 0 <= i < n ==> !p(s[i])
    ensures Filter(s, p) == Filter(s[n..], p)
  {
    FilterNone(s[..n], p);
    TakeDrop(s, n);
    FilterConcat(s[..n], s[n..], p);
  }

  /** A middle piece that keeps nothing drops out of the filtered text. */
  lemma FilterAround(a: string, m: string, b: string, p: char -> bool)
    requires Filter(m, p) == []
    ensures Filter(a + m + b, p) == Filter(a, p) + Filter(b, p)
  {
    FilterConcat(a + m, b, p);
    FilterConcat(a, m, p);
  }

  /** Filtering leaves nothing exactly when no character is kept. */
  lemma {:induction false} FilterEmptyIff(s: string, p: char -> bool)
    ensures Filter(s, p) == [] <==> forall i :: 0 <= i < |s| ==> !p(s[i])
  {
    if |s| > 0 {
      FilterEmptyIff(s[1..], p);
      assert forall i :: 1 <= i < |s| ==> s[i] == s[1..][i - 1];
    }
  }

  /** Trimming the class `ws` drops no character that `keep` keeps when `keep` rejects the class. */
  lemma FilterTrim(s: string, ws: char -> bool, keep: char -> bool)
    requires forall c :: ws(c) ==> !keep(c)
    ensures Filter(Trim(s, ws), keep) == Filter(s, keep)
  {
    TrimSlice(s, ws);
    var n := LeadCount(s, ws);
    var t := Trim(s, ws);
    var u := s[n..];
    FilterSkip(s, n, keep);
    assert t == u[..|t|];
    TakeDrop(u, |t|);
    var back := u[|t|..];
    assert forall k :: 0 <= k < |back| ==> back[k] == s[n + |t| + k];
    FilterNone(back, keep);
    FilterConcat(t, back, keep);
  }

  function JsTrim(s: string): string { Trim(s, IsJsSpace) }

  function PyStrip(s: string): string { Trim(s, IsPySpace) }

  predicate IsJsTrimmed(s: string) { s == [] || (!IsJsSpace(s[0]) && !IsJsSpace(s[|s| - 1])) }

  predicate IsPyStripped(s: string) { s == [] || (!IsPySpace(s[0]) && !IsPySpace(s[|s| - 1])) }

  /** Index of the first character satisfying `p`, or `|s|` when there is none. */
  function FirstIndex(s: string, p: char -> bool): (i: nat)
    ensures i <= |s|
    ensures forall k :: 0 <= k < i ==> !p(s[k])
    ensures i < |s| ==> p(s[i])
  {
    if |s| == 0 then 0 else if p(s[0]) then 0 else 1 + FirstIndex(s[1..], p)
  }

  /** The index of the first element of `xs` that satisfies `p`, or `|xs|` when none does. */
  function FirstWhere<T>(xs: seq<T>, p: T -> bool): (k: nat)
    ensures k <= |xs|
    ensures forall i :: 0 <= i < k ==> !p(xs[i])
    ensures k < |xs| ==> p(xs[k])
  {
    if |xs| == 0 then 0 else if p(xs[0]) then 0 else 1 + FirstWhere(xs[1..], p)
  }

  /** `xs.indexOf(x)`, with `|xs|` for -1: the position of the first occurrence of `x`. */
  function IndexOf<T(==)>(xs: seq<T>, x: T): (i: nat)
    ensures i <= |xs|
    ensures i < |xs| <==> x in xs
    ensures i < |xs| ==> xs[i] == x
    ensures forall k :: 0 <= k < i ==> xs[k] != x
  {
    if |xs| == 0 then 0 else if xs[0] == x then 0 else 1 + IndexOf(xs[1..], x)
  }

  /** Appending to a sequence leaves the first occurrence of each of its elements where it was. */
  lemma IndexOfAppend<T>(a: seq<T>, b: seq<T>)
    ensures forall x | x in a :: IndexOf(a + b, x) == IndexOf(a, x)
  {
    forall x | x in a ensures IndexOf(a + b, x) == IndexOf(a, x) {
      assert (a + b)[IndexOf(a, x)] == x;
    }
  }

  /** The index that no earlier element satisfies and that satisfies `p` itself (or is `|xs|`) is the first one. */
  /** Passing over an element that fails `p` keeps the scan before the first that satisfies it. */
  lemma FirstWherePast<T>(xs: seq<T>, p: T -> bool, i: nat)
    requires i < |xs| && i <= FirstWhere(xs, p) && !p(xs[i])
    ensures i + 1 <= FirstWhere(xs, p)
  {
  }

  lemma FirstWhereIs<T>(xs: seq<T>, p: T -> bool, k: nat)
    requires k <= |xs| && forall i :: 0 <= i < k ==> !p(xs[i])
    requires k < |xs| ==> p(xs[k])
    ensures FirstWhere(xs, p) == k
  {
  }

  /**
    The leftmost position from `s` to `n` at which `at` finds something, with
    what it found there: the way a regex search tries each start in turn.
   */
  function Leftmost<R>(at: nat -> Option<R>, s: nat, n: nat): (r: Option<(nat, R)>)
    requires s <= n
    ensures r.Some? ==> s <= r.value.0 <= n && at(r.value.0) == Some(r.value.1)
    ensures r.Some? ==> forall q :: s <= q < r.value.0 ==> at(q).None?
    ensures r.None? ==> forall q :: s <= q <= n ==> at(q).None?
    decreases n - s
  {
    match at(s)
    case Some(e) => Some((s, e))
    case None => if s == n then None else Leftmost(at, s + 1, n)
  }

  /**
    The concatenation of `piece(xs[j])` for `j` from `i` up to `stop`,
    cut short at the first `j` with `ends(xs[j])`.
   */
  function ConcatUntil<T, U>(xs: seq<T>, i: nat, stop: nat, ends: T -> bool, piece: T -> seq<U>): seq<U>
    requires stop <= |xs|
    decreases stop - i
  {
    if i >= stop || ends(xs[i]) then [] else piece(xs[i]) + ConcatUntil(xs, i + 1, stop, ends, piece)
  }

  /** The loop that computes `ConcatUntil`: append each piece, break at the first end. */
  method ConcatLoop<T, U>(xs: seq<T>, i: nat, stop: nat, ends: T -> bool, piece: T -> seq<U>) returns (acc: seq<U>)
    requires i <= stop <= |xs|
    ensures acc == ConcatUntil(xs, i, stop, ends, piece)
  {
    acc := [];
    var j := i;
    while j < stop
      invariant i <= j <= stop
      invariant acc + ConcatUntil(xs, j, stop, ends, piece) == ConcatUntil(xs, i, stop, ends, piece)
    {
      if ends(xs[j]) {
        assert acc + [] == acc;
        break;
      }
      var p := piece(xs[j]);
      var rest := ConcatUntil(xs, j + 1, stop, ends, piece);
      assert (acc + p) + rest == acc + (p + rest);
      acc := acc + p;
      j := j + 1;
    }
  }

  /** `s.split(sep)` for a one-character separator class: every separator ends a piece. */
  function SplitBy(s: string, isSep: char -> bool): (r: seq<string>)
    ensures |r| >= 1
    ensures forall i :: 0 <= i < |r| ==> forall k :: 0 <= k < |r[i]| ==> !isSep(r[i][k])
    decreases |s|
  {
    var i := FirstIndex(s, isSep);
    if i == |s| then [s] else [s[..i]] + SplitBy(s[i + 1..], isSep)
  }

  /** The strings of `ts` that satisfy `keep`, in order (a list comprehension with a condition). */
  function FilterSeq(ts: seq<string>, keep: string -> bool): (r: seq<string>)
    ensures |r| <= |ts|
    ensures forall i :: 0 <= i < |r| ==> keep(r[i]) && r[i] in ts
  {
    if |ts| == 0 then []
    else (if keep(ts[0]) then [ts[0]] else []) + FilterSeq(ts[1..], keep)
  }

  lemma TakeDrop<T>(s: seq<T>, n: nat)
    requires n <= |s|
    ensures s == s[..n] + s[n..]
  {
  }

  /** `[f(x) for x in xs]` */
  function Map<T, U>(xs: seq<T>, f: T -> U): (r: seq<U>)
    ensures |r| == |xs|
    ensures forall i :: 0 <= i < |xs| ==> r[i] == f(xs[i])
  {
    if |xs| == 0 then [] else [f(xs[0])] + Map(xs[1..], f)
  }

  lemma SliceAround<T>(s: seq<T>, i: nat)
    requires i < |s|
    ensures s == s[..i] + [s[i]] + s[i + 1..]
  {
  }

  /** `SplitBy` cuts at the first separator `i` and goes on after it. */
  lemma SplitByFirst(s: string, isSep: char -> bool, i: nat)
    requires i == FirstIndex(s, isSep) < |s|
    ensures SplitBy(s, isSep) == [s[..i]] + SplitBy(s[i + 1..], isSep)
  {
  }

  /** `parts.join(sep)` / `sep.join(parts)`. */
  function Join(parts: seq<string>, sep: string): string {
    if |parts| == 0 then "" else if |parts| == 1 then parts[0] else parts[0] + sep + Join(parts[1..], sep)
  }

  lemma {:induction false} JoinEmpty(parts: seq<string>, sep: string)
    requires forall i :: 0 <= i < |parts| ==> parts[i] != ""
    ensures Join(parts, sep) == "" <==> parts == []
  {
    if |parts| > 1 {
      assert |Join(parts, sep)| >= |parts[0]| > 0;
    }
  }

  /** A join of pieces, and of a separator, drawn from one character class stays in that class. */
  lemma {:induction false} JoinAllChars(parts: seq<string>, sep: string, p: char -> bool)
    requires forall i :: 0 <= i < |parts| ==> AllChars(parts[i], p)
    requires AllChars(sep, p)
    ensures AllChars(Join(parts, sep), p)
    decreases |parts|
  {
    if |parts| > 1 {
      JoinAllChars(parts[1..], sep, p);
      var s := parts[0] + sep + Join(parts[1..], sep);
      assert Join(parts, sep) == s;
      assert forall i :: 0 <= i < |s| ==> p(s[i]) by {
        forall i | 0 <= i < |s|
          ensures p(s[i])
        {
          if i < |parts[0]| {
            assert s[i] == parts[0][i];
          } else if i < |parts[0]| + |sep| {
            assert s[i] == sep[i - |parts[0]|];
          } else {
            assert s[i] == Join(parts[1..], sep)[i - |parts[0]| - |sep|];
          }
        }
      }
    }
  }

  /** Joining pieces free of the separator class and splitting again gives the pieces back. */
  lemma {:induction false} SplitJoin(parts: seq<string>, isSep: char -> bool, c: char)
    requires isSep(c) && |parts| >= 1
    requires forall i, k :: 0 <= i < |parts| && 0 <= k < |parts[i]| ==> !isSep(parts[i][k])
    ensures SplitBy(Join(parts, [c]), isSep) == parts
  {
    if |parts| == 1 {
      assert FirstIndex(parts[0], isSep) == |parts[0]|;
    } else {
      SplitJoinHead(parts, isSep, c);
      SplitJoin(parts[1..], isSep, c);
      assert parts == [parts[0]] + parts[1..];
    }
  }

  /** The first separator of a join is the one after its first part. */
  lemma SplitJoinHead(parts: seq<string>, isSep: char -> bool, c: char)
    requires isSep(c) && |parts| >= 2
    requires forall k :: 0 <= k < |parts[0]| ==> !isSep(parts[0][k])
    ensures SplitBy(Join(parts, [c]), isSep) == [parts[0]] + SplitBy(Join(parts[1..], [c]), isSep)
  {
    var rest := Join(parts[1..], [c]);
    var s := parts[0] + [c] + rest;
    assert Join(parts, [c]) == s;
    var i := |parts[0]|;
    assert s[i] == c;
    assert forall k :: 0 <= k < i ==> s[k] == parts[0][k];
    assert FirstIndex(s, isSep) == i;
    SplitByFirst(s, isSep, i);
    assert s[..i] == parts[0];
    assert s[i + 1..] == rest;
  }

  /** Splitting on a one-character class and joining with that character gives the text back. */
  lemma {:induction false} JoinSplit(s: string, isSep: char -> bool, c: char)
    requires forall x :: isSep(x) <==> x == c
    ensures Join(SplitBy(s, isSep), [c]) == s
    decreases |s|
  {
    var i := FirstIndex(s, isSep);
    if i < |s| {
      JoinSplit(s[i + 1..], isSep, c);
      var rest := SplitBy(s[i + 1..], isSep);
      assert SplitBy(s, isSep) == [s[..i]] + rest;
      assert s == s[..i] + [c] + s[i + 1..];
    }
  }
}
