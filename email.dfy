/**
  The two email patterns of the system, scanned the way a backtracking regex
  engine scans them:

    JavaScript  /[A-Z0-9._%+-]+@[A-Z0-9.-]+\.[A-Z]{2,}/i   (lib/parse.ts:2, lib/pdf.ts:49)
    Python      [\w\.-]+@[\w\.-]+\.\w+                      (python_resume_analyzer/app.py:23)

  Both have the shape  local+ '@' domain+ '.' tld{min,}  where '@' is in no
  class. The greedy local part therefore has to stop right before the '@'; the
  greedy domain part takes the whole run of domain characters and gives back
  one character at a time until a '.' followed by enough tld characters is
  found. `IsMatch` states the pattern declaratively; the lemmas show that the
  scanner finds exactly the leftmost start and, there, the longest match.
 */
module EmailPattern {
  import opened Wrappers
  import opened Text

  datatype Dialect = Js | Py

  /** The three character classes of the pattern. */
  datatype Part = Local | Domain | Tld

  predicate InPart(d: Dialect, part: Part, c: char) {
    match (d, part)
    case (Js, Local) => IsAsciiAlnum(c) || c == '.' || c == '_' || c == '%' || c == '+' || c == '-'
    case (Js, Domain) => IsAsciiAlnum(c) || c == '.' || c == '-'
    case (Js, Tld) => IsAsciiLetter(c)
    case (Py, Tld) => IsWordChar(c)
    case (Py, _) => IsWordChar(c) || c == '.' || c == '-'
  }

  function MinTld(d: Dialect): nat {
    match d
    case Js => 2
    case Py => 1
  }

  /** End of the maximal run of characters satisfying `p` that starts at `i`. */
  function RunEnd(d: Dialect, part: Part, t: string, i: nat): (e: nat)
    requires i <= |t|
    ensures i <= e <= |t|
    ensures forall k :: i <= k < e ==> InPart(d, part, t[k])
    ensures e < |t| ==> !InPart(d, part, t[e])
    decreases |t| - i
  {
    if i < |t| && InPart(d, part, t[i]) then RunEnd(d, part, t, i + 1) else i
  }

  /** `t[s..e]` matches the pattern with its '@' at `k` and the dot before the tld at `j`. */
  ghost predicate MatchShape(d: Dialect, t: string, s: nat, k: nat, j: nat, e: nat) {
    && s < k && k + 1 < j && j < e && e <= |t|
    && (forall i :: s <= i < k ==> InPart(d, Local, t[i]))
    && t[k] == '@'
    && (forall i :: k < i < j ==> InPart(d, Domain, t[i]))
    && t[j] == '.'
    && e - (j + 1) >= MinTld(d)
    && (forall i :: j < i < e ==> InPart(d, Tld, t[i]))
  }

  /** `t[s..e]` is a match of the pattern. */
  ghost predicate IsMatch(d: Dialect, t: string, s: nat, e: nat) {
    exists k: nat, j: nat :: MatchShape(d, t, s, k, j, e)
  }

  function TldEnd(d: Dialect, t: string, j: nat): nat
    requires j < |t|
  {
    RunEnd(d, Tld, t, j + 1)
  }

  /** The dot is at `j` and enough tld characters follow it. */
  predicate DotFits(d: Dialect, t: string, j: nat) {
    j < |t| && t[j] == '.' && TldEnd(d, t, j) - (j + 1) >= MinTld(d)
  }

  /**
    Backtracking of the greedy domain part: the domain is `t[k+1..j]`, tried
    for `j` from the end of the domain run downwards; the first `j` whose dot
    and tld fit wins, and the tld then takes its whole run.
   */
  function TryDot(d: Dialect, t: string, k: nat, j: nat): Option<nat>
    requires j <= |t|
    decreases j
  {
    if j < k + 2 then None
    else if DotFits(d, t, j) then Some(TldEnd(d, t, j))
    else TryDot(d, t, k, j - 1)
  }

  /** The backtracking finds the largest fitting dot position, and its tld end is the largest one. */
  lemma {:induction false} TryDotSpec(d: Dialect, t: string, k: nat, j: nat)
    requires j <= |t|
    ensures TryDot(d, t, k, j).Some? ==> exists j': nat ::
      k + 2 <= j' <= j && DotFits(d, t, j') && TryDot(d, t, k, j).value == TldEnd(d, t, j')
    ensures TryDot(d, t, k, j).None? ==> forall j': nat :: k + 2 <= j' <= j ==> !DotFits(d, t, j')
    ensures TryDot(d, t, k, j).Some? ==> forall j': nat ::
      k + 2 <= j' <= j && DotFits(d, t, j') ==> TldEnd(d, t, j') <= TryDot(d, t, k, j).value
    decreases j
  {
    if j >= k + 2 && !DotFits(d, t, j) {
      TryDotSpec(d, t, k, j - 1);
    } else if j >= k + 2 {
      forall j': nat | k + 2 <= j' < j && DotFits(d, t, j') ensures TldEnd(d, t, j') <= TldEnd(d, t, j) {
        DotBeforeDot(d, t, j', j);
      }
    }
  }

  /** A tld run never crosses a later dot, since '.' is not a tld character. */
  lemma DotBeforeDot(d: Dialect, t: string, j': nat, j: nat)
    requires j' < j < |t| && t[j] == '.'
    ensures TldEnd(d, t, j') <= j
  {
    assert !InPart(d, Tld, t[j]);
  }

  /** The match the regex engine reports when it starts at `s`, as its end. */
  function MatchAt(d: Dialect, t: string, s: nat): Option<nat>
    requires s <= |t|
  {
    var k := RunEnd(d, Local, t, s);
    if k == s || k == |t| || t[k] != '@' then None
    else TryDot(d, t, k, RunEnd(d, Domain, t, k + 1))
  }

  /** The engine's search: the first start position at which the scanner reports a match. */
  function Search(d: Dialect, t: string): (r: Option<(nat, nat)>)
    ensures r.Some? ==> var (s, e) := r.value;
      s <= |t| && MatchAt(d, t, s) == Some(e) && forall q :: 0 <= q < s ==> MatchAt(d, t, q).None?
    ensures r.None? ==> forall q :: 0 <= q <= |t| ==> MatchAt(d, t, q).None?
  {
    var at := (s: nat) => if s <= |t| then MatchAt(d, t, s) else None;
    assert forall s: nat :: s <= |t| ==> at(s) == MatchAt(d, t, s);
    Leftmost(at, 0, |t|)
  }

  /** `text.match(EMAIL_REGEX)?.[0] ?? ""` and `m.group(0) if m else ""`. */
  function FirstEmail(d: Dialect, t: string): string {
    match Search(d, t)
    case Some((s, e)) => if s <= e <= |t| then t[s..e] else ""
    case None => ""
  }

  /** `EMAIL_REGEX.test(t)`. */
  predicate HasEmail(d: Dialect, t: string) {
    Search(d, t).Some?
  }

  lemma {:induction false} RunEndIs(d: Dialect, part: Part, t: string, i: nat, e: nat)
    requires i <= e < |t|
    requires forall k :: i <= k < e ==> InPart(d, part, t[k])
    requires !InPart(d, part, t[e])
    ensures RunEnd(d, part, t, i) == e
    decreases e - i
  {
    if i < e {
      RunEndIs(d, part, t, i + 1, e);
    }
  }

  lemma {:induction false} RunEndReaches(d: Dialect, part: Part, t: string, i: nat, e: nat)
    requires i <= e <= |t|
    requires forall k :: i <= k < e ==> InPart(d, part, t[k])
    ensures RunEnd(d, part, t, i) >= e
    decreases e - i
  {
    if i < e {
      RunEndReaches(d, part, t, i + 1, e);
    }
  }

  /** Every tld character is a domain character, in both dialects. */
  lemma TldIsDomain(d: Dialect, c: char)
    ensures InPart(d, Tld, c) ==> InPart(d, Domain, c)
  {
  }

  /** What the scanner reports at `s` is a match of the pattern. */
  lemma MatchAtSound(d: Dialect, t: string, s: nat)
    requires s <= |t|
    ensures MatchAt(d, t, s).Some? ==> IsMatch(d, t, s, MatchAt(d, t, s).value)
  {
    var k := RunEnd(d, Local, t, s);
    if MatchAt(d, t, s).Some? {
      var de := RunEnd(d, Domain, t, k + 1);
      TryDotSpec(d, t, k, de);
      var j: nat :| k + 2 <= j <= de && DotFits(d, t, j) && MatchAt(d, t, s).value == TldEnd(d, t, j);
      assert MatchShape(d, t, s, k, j, TldEnd(d, t, j));
    }
  }

  lemma MatchAtUnfold(d: Dialect, t: string, s: nat, k: nat)
    requires s < k < |t| && t[k] == '@' && RunEnd(d, Local, t, s) == k
    ensures MatchAt(d, t, s) == TryDot(d, t, k, RunEnd(d, Domain, t, k + 1))
  {
  }

  /**
    Whenever the pattern matches at `s`, the scanner reports a match there, and
    the one it reports is the longest match starting at `s`.
   */
  lemma MatchAtComplete(d: Dialect, t: string, s: nat, e: nat)
    requires s <= |t|
    requires IsMatch(d, t, s, e)
    ensures MatchAt(d, t, s).Some? && e <= MatchAt(d, t, s).value
  {
    var k: nat, j: nat :| MatchShape(d, t, s, k, j, e);
    RunEndIs(d, Local, t, s, k);
    ShapeDomainRun(d, t, s, k, j, e);
    var de := RunEnd(d, Domain, t, k + 1);
    RunEndReaches(d, Domain, t, k + 1, e);
    ShapeDotFits(d, t, s, k, j, e);
    MatchAtUnfold(d, t, s, k);
    TryDotSpec(d, t, k, de);
  }

  /** Past the '@' of a match, every character up to its end is a domain character. */
  lemma ShapeDomainRun(d: Dialect, t: string, s: nat, k: nat, j: nat, e: nat)
    requires MatchShape(d, t, s, k, j, e)
    ensures forall i :: k + 1 <= i < e ==> InPart(d, Domain, t[i])
  {
    forall i | k + 1 <= i < e ensures InPart(d, Domain, t[i]) {
      if i > j {
        TldIsDomain(d, t[i]);
      }
    }
  }

  /** The dot of a match fits, and its tld run reaches at least the end of the match. */
  lemma ShapeDotFits(d: Dialect, t: string, s: nat, k: nat, j: nat, e: nat)
    requires MatchShape(d, t, s, k, j, e)
    ensures DotFits(d, t, j) && TldEnd(d, t, j) >= e
  {
    RunEndReaches(d, Tld, t, j + 1, e);
  }

  /**
    The search finds the leftmost start at which the pattern matches, and the
    longest match there; when it finds nothing, the pattern matches nowhere.
   */
  lemma {:induction false} SearchLeftmost(d: Dialect, t: string)
    ensures Search(d, t).Some? ==>
      var (s, e) := Search(d, t).value;
      s <= |t| && IsMatch(d, t, s, e) &&
      (forall s': nat, e': nat :: s' < s ==> !IsMatch(d, t, s', e')) &&
      (forall e': nat :: IsMatch(d, t, s, e') ==> e' <= e)
    ensures Search(d, t).None? ==> forall s': nat, e': nat :: !IsMatch(d, t, s', e')
  {
    forall s': nat, e': nat | IsMatch(d, t, s', e')
      ensures s' <= |t| && MatchAt(d, t, s').Some? && e' <= MatchAt(d, t, s').value
    {
      var k: nat, j: nat :| MatchShape(d, t, s', k, j, e');
      MatchAtComplete(d, t, s', e');
    }
    if Search(d, t).Some? {
      var (s, e) := Search(d, t).value;
      MatchAtSound(d, t, s);
    }
  }

  /**
    `FirstEmail` is "" exactly when the pattern matches nowhere; otherwise it is
    the leftmost(-longest) match, which contains exactly one '@' and ends with a
    '.' and at least `MinTld` tld characters.
   */
  lemma FirstEmailSpec(d: Dialect, t: string)
    ensures FirstEmail(d, t) == "" <==> forall s: nat, e: nat :: !IsMatch(d, t, s, e)
    ensures FirstEmail(d, t) != "" ==> exists s: nat, e: nat ::
      && s <= e <= |t| && FirstEmail(d, t) == t[s..e] && IsMatch(d, t, s, e)
      && (forall s': nat, e': nat :: s' < s ==> !IsMatch(d, t, s', e'))
      && (forall e': nat :: IsMatch(d, t, s, e') ==> e' <= e)
    ensures FirstEmail(d, t) != "" ==> IsEmailText(d, FirstEmail(d, t))
  {
    SearchLeftmost(d, t);
    if Search(d, t).Some? {
      var (s, e) := Search(d, t).value;
      var k: nat, j: nat :| MatchShape(d, t, s, k, j, e);
      assert FirstEmail(d, t) == t[s..e];
      ShapeText(d, t, s, k, j, e);
    }
  }

  /** Exactly one '@', a '.' before the last `MinTld` or more tld characters. */
  ghost predicate IsEmailText(d: Dialect, w: string) {
    exists a: nat, j: nat ::
      && 0 < a < |w| && w[a] == '@'
      && (forall i :: 0 <= i < |w| && i != a ==> w[i] != '@')
      && a + 1 < j < |w| && w[j] == '.'
      && |w| - (j + 1) >= MinTld(d)
      && (forall i :: j < i < |w| ==> InPart(d, Tld, w[i]))
  }

  lemma ShapeText(d: Dialect, t: string, s: nat, k: nat, j: nat, e: nat)
    requires MatchShape(d, t, s, k, j, e)
    ensures IsEmailText(d, t[s..e])
  {
    var w := t[s..e];
    assert w[k - s] == '@';
    assert w[j - s] == '.';
    forall i | 0 <= i < |w| && i != k - s ensures w[i] != '@' {
      assert w[i] == t[s + i];
    }
    forall i | j - s < i < |w| ensures InPart(d, Tld, w[i]) {
      assert w[i] == t[s + i];
    }
  }
}
