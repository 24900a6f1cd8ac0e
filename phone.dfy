/**
  The phone patterns, scanned depth-first in the order a backtracking regex
  engine tries the alternatives: an optional part is tried present first, a
  counted repetition tries its largest count first, and the first complete
  path wins.

    JavaScript  /(?:(?:\+?\d{1,3}[\s-]?)?(?:\(?\d{2,4}\)?[\s-]?)?\d{3,4}[\s-]?\d{4,6})/g
                (lib/parse.ts:3, lib/pdf.ts:51), used with matchAll
    Python      (\+?\d{1,3}[\s-]?)?\d{10}   (python_resume_analyzer/app.py:24), used with search

  The JavaScript scanner has one function per element of the pattern, each
  given the position where that element starts; it continues with the rest of
  the pattern through `Scan`, which names the element to match next.
 */
module PhonePattern {
  import opened Wrappers
  import opened Text

  /** `[\s-]` in a JavaScript regex: `\s` includes newlines and tabs. */
  predicate IsJsSep(c: char) { IsJsSpace(c) || c == '-' }

  /** `[\s-]` in a Python str regex. */
  predicate IsPySep(c: char) { IsPySpace(c) || c == '-' }

  predicate DigitsAt(t: string, q: nat, k: nat) {
    q + k <= |t| && forall i :: q <= i < q + k ==> IsAsciiDigit(t[i])
  }

  predicate CharAt(t: string, q: nat, c: char) { q < |t| && t[q] == c }

  /** No '+' in `t[a..b]`. */
  predicate PlusFree(t: string, a: nat, b: nat) {
    forall i :: a <= i < b && i < |t| ==> t[i] != '+'
  }

  /** The first alternative that succeeds. */
  function OrElse(first: Option<nat>, second: Option<nat>): Option<nat> {
    if first.Some? then first else second
  }

  // ---------------------------------------------------------------- JavaScript

  /**
    The elements of the JavaScript pattern, in the order they are matched. A
    counted element carries the count tried next; `MidGroup(4)` starts the
    mandatory part `\d{3,4}[\s-]?\d{4,6}`.
   */
  datatype Part =
    | CountryPlus            // `\+?` opening the country-code group
    | CountryDigits(k: nat)  // `\d{1,3}` of the country code
    | CountrySep             // `[\s-]?` closing the country-code group
    | AfterCountry           // `(?:\(?\d{2,4}\)?[\s-]?)?` tried present first, then the mandatory part
    | AreaOpen               // `\(?`
    | AreaDigits(k: nat)     // `\d{2,4}` of the area code
    | AreaClose              // `\)?`
    | AreaSep                // `[\s-]?` closing the area-code group
    | MidGroup(k: nat)       // `\d{3,4}`
    | TailSep                // `[\s-]?` before the last group
    | LastGroup(k: nat)      // `\d{4,6}`, the last element

  /** How far a part is from the end of the pattern; a count goes down within a part. */
  function Stage(part: Part): nat {
    match part
    case LastGroup(_) => 0
    case TailSep => 1
    case MidGroup(_) => 2
    case AreaSep => 3
    case AreaClose => 4
    case AreaDigits(_) => 5
    case AreaOpen => 6
    case AfterCountry => 7
    case CountrySep => 8
    case CountryDigits(_) => 9
    case CountryPlus => 10
  }

  /** The count a counted element tries next. */
  function Count(part: Part): nat {
    match part
    case CountryDigits(k) => k
    case AreaDigits(k) => k
    case MidGroup(k) => k
    case LastGroup(k) => k
    case _ => 0
  }

  /** The fewest characters the pattern from `part` on can match. */
  function MinLength(part: Part): nat {
    match part
    case LastGroup(_) => 4
    case TailSep => 4
    case _ => 7
  }

  /**
    Where a match of the pattern from `part`, started at `q`, ends: the parts
    are tried depth-first, an optional element present first and a count
    largest first, and the first complete path wins.
   */
  function Scan(t: string, q: nat, part: Part): (r: Option<nat>)
    ensures r.Some? ==> q + MinLength(part) <= r.value <= |t|
    ensures r.Some? ==> PlusFree(t, if part.CountryPlus? then q + 1 else q, r.value)
    decreases Stage(part), Count(part), |t|, 1
  {
    match part
    case CountryPlus => ScanCountryPlus(t, q)
    case CountryDigits(k) => ScanCountryDigits(t, q, k)
    case CountrySep => ScanCountrySep(t, q)
    case AfterCountry => ScanAfterCountry(t, q)
    case AreaOpen => ScanAreaOpen(t, q)
    case AreaDigits(k) => ScanAreaDigits(t, q, k)
    case AreaClose => ScanAreaClose(t, q)
    case AreaSep => ScanAreaSep(t, q)
    case MidGroup(k) => ScanMidGroup(t, q, k)
    case TailSep => ScanTailSep(t, q)
    case LastGroup(k) => ScanLastGroup(t, q, k)
  }

  // One function per element of `Part`, each continuing with the next element
  // through `Scan`; the bounds say a match holds at least the mandatory digits.

  function ScanLastGroup(t: string, q: nat, k: nat): (r: Option<nat>)
    ensures r.Some? ==> q + 4 <= r.value <= |t| && PlusFree(t, q, r.value)
    decreases 0, k, |t|, 0
  {
    if k < 4 then None
    else if DigitsAt(t, q, k) then Some(q + k)
    else Scan(t, q, LastGroup(k - 1))
  }

  function ScanTailSep(t: string, q: nat): (r: Option<nat>)
    ensures r.Some? ==> q + 4 <= r.value <= |t| && PlusFree(t, q, r.value)
    decreases 1, 0, |t|, 0
  {
    if q < |t| && IsJsSep(t[q]) then OrElse(Scan(t, q + 1, LastGroup(6)), Scan(t, q, LastGroup(6)))
    else Scan(t, q, LastGroup(6))
  }

  function ScanMidGroup(t: string, q: nat, k: nat): (r: Option<nat>)
    ensures r.Some? ==> q + 7 <= r.value <= |t| && PlusFree(t, q, r.value)
    decreases 2, k, |t|, 0
  {
    if k < 3 then None
    else if DigitsAt(t, q, k) then OrElse(Scan(t, q + k, TailSep), Scan(t, q, MidGroup(k - 1)))
    else Scan(t, q, MidGroup(k - 1))
  }

  function ScanAreaSep(t: string, q: nat): (r: Option<nat>)
    ensures r.Some? ==> q + 7 <= r.value <= |t| && PlusFree(t, q, r.value)
    decreases 3, 0, |t|, 0
  {
    if q < |t| && IsJsSep(t[q]) then OrElse(Scan(t, q + 1, MidGroup(4)), Scan(t, q, MidGroup(4)))
    else Scan(t, q, MidGroup(4))
  }

  function ScanAreaClose(t: string, q: nat): (r: Option<nat>)
    ensures r.Some? ==> q + 7 <= r.value <= |t| && PlusFree(t, q, r.value)
    decreases 4, 0, |t|, 0
  {
    if CharAt(t, q, ')') then OrElse(Scan(t, q + 1, AreaSep), Scan(t, q, AreaSep))
    else Scan(t, q, AreaSep)
  }

  function ScanAreaDigits(t: string, q: nat, k: nat): (r: Option<nat>)
    ensures r.Some? ==> q + 7 <= r.value <= |t| && PlusFree(t, q, r.value)
    decreases 5, k, |t|, 0
  {
    if k < 2 then None
    else if DigitsAt(t, q, k) then OrElse(Scan(t, q + k, AreaClose), Scan(t, q, AreaDigits(k - 1)))
    else Scan(t, q, AreaDigits(k - 1))
  }

  function ScanAreaOpen(t: string, q: nat): (r: Option<nat>)
    ensures r.Some? ==> q + 7 <= r.value <= |t| && PlusFree(t, q, r.value)
    decreases 6, 0, |t|, 0
  {
    var plain := Scan(t, q, AreaDigits(4));
    if CharAt(t, q, '(') then
      var inner := Scan(t, q + 1, AreaDigits(4));
      assert inner.Some? ==> PlusFree(t, q, inner.value);
      OrElse(inner, plain)
    else plain
  }

  function ScanAfterCountry(t: string, q: nat): (r: Option<nat>)
    ensures r.Some? ==> q + 7 <= r.value <= |t| && PlusFree(t, q, r.value)
    decreases 7, 0, |t|, 0
  {
    OrElse(Scan(t, q, AreaOpen), Scan(t, q, MidGroup(4)))
  }

  function ScanCountrySep(t: string, q: nat): (r: Option<nat>)
    ensures r.Some? ==> q + 7 <= r.value <= |t| && PlusFree(t, q, r.value)
    decreases 8, 0, |t|, 0
  {
    if q < |t| && IsJsSep(t[q]) then
      var skipped := Scan(t, q + 1, AfterCountry);
      if skipped.Some? then PlusFreeStep(t, q, skipped.value); skipped
      else Scan(t, q, AfterCountry)
    else Scan(t, q, AfterCountry)
  }

  function ScanCountryDigits(t: string, q: nat, k: nat): (r: Option<nat>)
    ensures r.Some? ==> q + 7 <= r.value <= |t| && PlusFree(t, q, r.value)
    decreases 9, k, |t|, 0
  {
    if k < 1 then None
    else if DigitsAt(t, q, k) then OrElse(Scan(t, q + k, CountrySep), Scan(t, q, CountryDigits(k - 1)))
    else Scan(t, q, CountryDigits(k - 1))
  }

  function ScanCountryPlus(t: string, q: nat): (r: Option<nat>)
    ensures r.Some? ==> q + 7 <= r.value <= |t| && PlusFree(t, q + 1, r.value)
    decreases 10, 0, |t|, 0
  {
    if CharAt(t, q, '+') then OrElse(Scan(t, q + 1, CountryDigits(3)), Scan(t, q, CountryDigits(3)))
    else Scan(t, q, CountryDigits(3))
  }

  /** A character other than '+' in front of a '+'-free stretch extends it. */
  lemma PlusFreeStep(t: string, q: nat, b: nat)
    requires q < |t| && t[q] != '+' && PlusFree(t, q + 1, b)
    ensures PlusFree(t, q, b)
  {
  }

  /** The whole pattern at start `p`, the optional country-code group tried first. */
  function PhoneAt(t: string, p: nat): (r: Option<nat>)
    ensures r.Some? ==> p + 7 <= r.value <= |t| && PlusFree(t, p + 1, r.value)
  {
    OrElse(Scan(t, p, CountryPlus), Scan(t, p, AfterCountry))
  }

  // ------------------------------------------------- the JavaScript pattern, declaratively

  /** `t[a..b]` is a run of `lo` to `hi` digits. */
  ghost predicate DigitRun(t: string, a: nat, b: nat, lo: nat, hi: nat) {
    a + lo <= b <= a + hi && DigitsAt(t, a, b - a)
  }

  /** `t[a..b]` is empty or the one character `c`. */
  ghost predicate OptChar(t: string, a: nat, b: nat, c: char) {
    b == a || (b == a + 1 && CharAt(t, a, c))
  }

  /** `t[a..b]` matches `[\s-]?`. */
  ghost predicate OptSep(t: string, a: nat, b: nat) {
    b == a || (b == a + 1 && a < |t| && IsJsSep(t[a]))
  }

  /** `t[a..b]` matches `(?:\+?\d{1,3}[\s-]?)?`. */
  ghost predicate CountryPart(t: string, a: nat, b: nat) {
    b == a || exists x: nat, y: nat :: OptChar(t, a, x, '+') && DigitRun(t, x, y, 1, 3) && OptSep(t, y, b)
  }

  /** `t[a..b]` matches `(?:\(?\d{2,4}\)?[\s-]?)?`. */
  ghost predicate AreaPart(t: string, a: nat, b: nat) {
    b == a || exists x: nat, y: nat, z: nat ::
      OptChar(t, a, x, '(') && DigitRun(t, x, y, 2, 4) && OptChar(t, y, z, ')') && OptSep(t, z, b)
  }

  /** `t[a..b]` matches `\d{3,4}[\s-]?\d{4,6}`. */
  ghost predicate TailPart(t: string, a: nat, b: nat) {
    exists x: nat, y: nat :: DigitRun(t, a, x, 3, 4) && OptSep(t, x, y) && DigitRun(t, y, b, 4, 6)
  }

  /** `t[p..e]` matches the JavaScript phone pattern. */
  ghost predicate IsPhoneMatch(t: string, p: nat, e: nat) {
    exists m: nat, n: nat :: CountryPart(t, p, m) && AreaPart(t, m, n) && TailPart(t, n, e)
  }

  /** Whatever the scanner reports at `p` is a match of the pattern. */
  lemma PhoneAtSound(t: string, p: nat)
    requires PhoneAt(t, p).Some?
    ensures IsPhoneMatch(t, p, PhoneAt(t, p).value)
  {
    var m, n;
    if Scan(t, p, CountryPlus).Some? {
      m, n := CountryPlusSound(t, p);
    } else {
      m := p;
      n := AfterCountrySound(t, p);
    }
  }

  lemma CountryPlusSound(t: string, q: nat) returns (m: nat, n: nat)
    requires Scan(t, q, CountryPlus).Some?
    ensures CountryPart(t, q, m) && AreaPart(t, m, n) && TailPart(t, n, Scan(t, q, CountryPlus).value)
  {
    var x := if CharAt(t, q, '+') && Scan(t, q + 1, CountryDigits(3)).Some? then q + 1 else q;
    var y;
    y, m, n := CountryDigitsSound(t, x, 3);
    assert OptChar(t, q, x, '+');
  }

  lemma {:induction false} CountryDigitsSound(t: string, q: nat, k: nat) returns (y: nat, m: nat, n: nat)
    requires k <= 3 && Scan(t, q, CountryDigits(k)).Some?
    ensures DigitRun(t, q, y, 1, 3) && OptSep(t, y, m) && AreaPart(t, m, n)
    ensures TailPart(t, n, Scan(t, q, CountryDigits(k)).value)
    decreases k
  {
    if DigitsAt(t, q, k) && Scan(t, q + k, CountrySep).Some? {
      y := q + k;
      m, n := CountrySepSound(t, y);
    } else {
      y, m, n := CountryDigitsSound(t, q, k - 1);
    }
  }

  lemma CountrySepSound(t: string, q: nat) returns (m: nat, n: nat)
    requires Scan(t, q, CountrySep).Some?
    ensures OptSep(t, q, m) && AreaPart(t, m, n) && TailPart(t, n, Scan(t, q, CountrySep).value)
  {
    m := if q < |t| && IsJsSep(t[q]) && Scan(t, q + 1, AfterCountry).Some? then q + 1 else q;
    n := AfterCountrySound(t, m);
  }

  lemma AfterCountrySound(t: string, q: nat) returns (n: nat)
    requires Scan(t, q, AfterCountry).Some?
    ensures AreaPart(t, q, n) && TailPart(t, n, Scan(t, q, AfterCountry).value)
  {
    if Scan(t, q, AreaOpen).Some? {
      n := AreaOpenSound(t, q);
    } else {
      n := q;
      MidGroupSound(t, q, 4);
    }
  }

  lemma AreaOpenSound(t: string, q: nat) returns (n: nat)
    requires Scan(t, q, AreaOpen).Some?
    ensures AreaPart(t, q, n) && TailPart(t, n, Scan(t, q, AreaOpen).value)
  {
    var x := if CharAt(t, q, '(') && Scan(t, q + 1, AreaDigits(4)).Some? then q + 1 else q;
    var y, z;
    y, z, n := AreaDigitsSound(t, x, 4);
    assert OptChar(t, q, x, '(');
  }

  lemma {:induction false} AreaDigitsSound(t: string, q: nat, k: nat) returns (y: nat, z: nat, n: nat)
    requires k <= 4 && Scan(t, q, AreaDigits(k)).Some?
    ensures DigitRun(t, q, y, 2, 4) && OptChar(t, y, z, ')') && OptSep(t, z, n)
    ensures TailPart(t, n, Scan(t, q, AreaDigits(k)).value)
    decreases k
  {
    if DigitsAt(t, q, k) && Scan(t, q + k, AreaClose).Some? {
      y := q + k;
      z, n := AreaCloseSound(t, y);
    } else {
      y, z, n := AreaDigitsSound(t, q, k - 1);
    }
  }

  lemma AreaCloseSound(t: string, q: nat) returns (z: nat, n: nat)
    requires Scan(t, q, AreaClose).Some?
    ensures OptChar(t, q, z, ')') && OptSep(t, z, n) && TailPart(t, n, Scan(t, q, AreaClose).value)
  {
    z := if CharAt(t, q, ')') && Scan(t, q + 1, AreaSep).Some? then q + 1 else q;
    n := AreaSepSound(t, z);
  }

  lemma AreaSepSound(t: string, q: nat) returns (n: nat)
    requires Scan(t, q, AreaSep).Some?
    ensures OptSep(t, q, n) && TailPart(t, n, Scan(t, q, AreaSep).value)
  {
    n := if q < |t| && IsJsSep(t[q]) && Scan(t, q + 1, MidGroup(4)).Some? then q + 1 else q;
    MidGroupSound(t, n, 4);
  }

  lemma {:induction false} MidGroupSound(t: string, q: nat, k: nat)
    requires k <= 4 && Scan(t, q, MidGroup(k)).Some?
    ensures TailPart(t, q, Scan(t, q, MidGroup(k)).value)
    decreases k
  {
    if DigitsAt(t, q, k) && Scan(t, q + k, TailSep).Some? {
      var x := q + k;
      assert Scan(t, x, TailSep) == ScanTailSep(t, x);
      var y := if x < |t| && IsJsSep(t[x]) && Scan(t, x + 1, LastGroup(6)).Some? then x + 1 else x;
      LastGroupSound(t, y, 6);
      assert DigitRun(t, q, x, 3, 4);
    } else {
      MidGroupSound(t, q, k - 1);
    }
  }

  lemma {:induction false} LastGroupSound(t: string, q: nat, k: nat)
    requires k <= 6 && Scan(t, q, LastGroup(k)).Some?
    ensures DigitRun(t, q, Scan(t, q, LastGroup(k)).value, 4, 6)
    decreases k
  {
    if !DigitsAt(t, q, k) {
      LastGroupSound(t, q, k - 1);
    }
  }

  /** Conversely, wherever the pattern matches, the scanner reports a match. */
  lemma PhoneAtComplete(t: string, p: nat, e: nat)
    requires IsPhoneMatch(t, p, e)
    ensures PhoneAt(t, p).Some?
  {
    var m: nat, n: nat :| CountryPart(t, p, m) && AreaPart(t, m, n) && TailPart(t, n, e);
    if m == p {
      AfterCountryComplete(t, p, n, e);
    } else {
      var x: nat, y: nat :| OptChar(t, p, x, '+') && DigitRun(t, x, y, 1, 3) && OptSep(t, y, m);
      CountryPlusComplete(t, p, x, y, m, n, e);
    }
  }

  /** A country part `\+?` from `q` to `x`, `\d{1,3}` to `y`, `[\s-]?` to `m`, then the rest. */
  lemma CountryPlusComplete(t: string, q: nat, x: nat, y: nat, m: nat, n: nat, e: nat)
    requires OptChar(t, q, x, '+') && DigitRun(t, x, y, 1, 3) && OptSep(t, y, m)
    requires AreaPart(t, m, n) && TailPart(t, n, e)
    ensures Scan(t, q, CountryPlus).Some?
  {
    AfterCountryComplete(t, m, n, e);
    assert Scan(t, y, CountrySep) == ScanCountrySep(t, y);
    CountryDigitsComplete(t, x, 3, y - x);
    assert Scan(t, q, CountryPlus) == ScanCountryPlus(t, q);
  }

  /** An area part from `q` to `n`, then a tail part from `n` to `e`. */
  lemma AfterCountryComplete(t: string, q: nat, n: nat, e: nat)
    requires AreaPart(t, q, n) && TailPart(t, n, e)
    ensures Scan(t, q, AfterCountry).Some?
  {
    TailComplete(t, n, e);
    if n != q {
      var x: nat, y: nat, z: nat :|
        OptChar(t, q, x, '(') && DigitRun(t, x, y, 2, 4) && OptChar(t, y, z, ')') && OptSep(t, z, n);
      AreaOpenComplete(t, q, x, y, z, n);
    }
    assert Scan(t, q, AfterCountry) == ScanAfterCountry(t, q);
  }

  /** `\(?` from `q` to `x`, `\d{2,4}` to `y`, `\)?` to `z`, `[\s-]?` to `n`, then the mandatory part. */
  lemma AreaOpenComplete(t: string, q: nat, x: nat, y: nat, z: nat, n: nat)
    requires OptChar(t, q, x, '(') && DigitRun(t, x, y, 2, 4) && OptChar(t, y, z, ')') && OptSep(t, z, n)
    requires Scan(t, n, MidGroup(4)).Some?
    ensures Scan(t, q, AreaOpen).Some?
  {
    assert Scan(t, z, AreaSep) == ScanAreaSep(t, z);
    assert Scan(t, y, AreaClose) == ScanAreaClose(t, y);
    AreaDigitsComplete(t, x, 4, y - x);
    assert Scan(t, q, AreaOpen) == ScanAreaOpen(t, q);
  }

  /** A tail part from `q` to `e`. */
  lemma TailComplete(t: string, q: nat, e: nat)
    requires TailPart(t, q, e)
    ensures Scan(t, q, MidGroup(4)).Some?
  {
    var x: nat, y: nat :| DigitRun(t, q, x, 3, 4) && OptSep(t, x, y) && DigitRun(t, y, e, 4, 6);
    LastGroupComplete(t, y, 6, e - y);
    assert Scan(t, x, TailSep).Some?;
    MidGroupComplete(t, q, 4, x - q);
  }

  // A counted element succeeds from count `k` when the rest of the pattern
  // succeeds after `j <= k` digits: the larger counts either succeed first
  // or fall through to `j`.

  lemma {:induction false} CountryDigitsComplete(t: string, q: nat, k: nat, j: nat)
    requires 1 <= j <= k && DigitsAt(t, q, j) && Scan(t, q + j, CountrySep).Some?
    ensures Scan(t, q, CountryDigits(k)).Some?
    decreases k
  {
    if k != j {
      CountryDigitsComplete(t, q, k - 1, j);
    }
  }

  lemma {:induction false} AreaDigitsComplete(t: string, q: nat, k: nat, j: nat)
    requires 2 <= j <= k && DigitsAt(t, q, j) && Scan(t, q + j, AreaClose).Some?
    ensures Scan(t, q, AreaDigits(k)).Some?
    decreases k
  {
    if k != j {
      AreaDigitsComplete(t, q, k - 1, j);
    }
  }

  lemma {:induction false} MidGroupComplete(t: string, q: nat, k: nat, j: nat)
    requires 3 <= j <= k && DigitsAt(t, q, j) && Scan(t, q + j, TailSep).Some?
    ensures Scan(t, q, MidGroup(k)).Some?
    decreases k
  {
    if k != j {
      MidGroupComplete(t, q, k - 1, j);
    }
  }

  lemma {:induction false} LastGroupComplete(t: string, q: nat, k: nat, j: nat)
    requires 4 <= j <= k && DigitsAt(t, q, j)
    ensures Scan(t, q, LastGroup(k)).Some?
    decreases k
  {
    if k != j && !DigitsAt(t, q, k) {
      LastGroupComplete(t, q, k - 1, j);
    }
  }

  /** A '+' can occur only as the first character. */
  predicate PlusOnlyFirst(s: string) {
    forall i :: 1 <= i < |s| ==> s[i] != '+'
  }

  /**
    The spans of `text.matchAll(PHONE_REGEX)` from position `p`: each match is
    taken at the leftmost position where the pattern matches and the scan
    resumes at its end, so the spans come in text order and do not overlap.
   */
  function MatchesFrom(t: string, p: nat): (r: seq<(nat, nat)>)
    requires p <= |t|
    ensures forall i :: 0 <= i < |r| ==> p <= r[i].0 && r[i].0 + 7 <= r[i].1 <= |t| && PhoneAt(t, r[i].0) == Some(r[i].1)
    ensures forall i :: 0 < i < |r| ==> r[i - 1].1 <= r[i].0
    decreases |t| - p
  {
    if p == |t| then []
    else match PhoneAt(t, p)
      case Some(e) => [(p, e)] + MatchesFrom(t, e)
      case None => MatchesFrom(t, p + 1)
  }

  /** The text of each span. */
  function Texts(t: string, spans: seq<(nat, nat)>): (r: seq<string>)
    requires forall i :: 0 <= i < |spans| ==> spans[i].0 <= spans[i].1 <= |t|
    ensures |r| == |spans|
    ensures forall i :: 0 <= i < |r| ==> r[i] == t[spans[i].0..spans[i].1]
  {
    if |spans| == 0 then [] else [t[spans[0].0..spans[0].1]] + Texts(t, spans[1..])
  }

  /** `Array.from(text.matchAll(PHONE_REGEX)).map(m => m[0])` */
  function Candidates(t: string): (r: seq<string>)
    ensures forall i :: 0 <= i < |r| ==> |r[i]| >= 7 && PlusOnlyFirst(r[i])
  {
    var spans := MatchesFrom(t, 0);
    var r := Texts(t, spans);
    assert forall i :: 0 <= i < |r| ==> |r[i]| >= 7 && PlusOnlyFirst(r[i]) by {
      forall i | 0 <= i < |r| ensures |r[i]| >= 7 && PlusOnlyFirst(r[i]) {
        MatchText(t, spans[i].0, spans[i].1);
      }
    }
    r
  }

  /** The text of a match has at least 7 characters and a '+' at most in front. */
  lemma MatchText(t: string, s: nat, e: nat)
    requires PhoneAt(t, s) == Some(e)
    ensures |t[s..e]| >= 7 && PlusOnlyFirst(t[s..e])
  {
    var c := t[s..e];
    assert forall k :: 1 <= k < |c| ==> c[k] == t[s + k];
  }

  /**
    No match is skipped: a position where the pattern matches lies inside one
    of the spans `matchAll` reports (it starts one, or an earlier match covers it).
   */
  lemma {:induction false} MatchCovered(t: string, p: nat, q: nat) returns (i: nat)
    requires p <= q < |t| && PhoneAt(t, q).Some?
    ensures i < |MatchesFrom(t, p)| && MatchesFrom(t, p)[i].0 <= q < MatchesFrom(t, p)[i].1
    decreases |t| - p
  {
    match PhoneAt(t, p)
    case Some(e) =>
      MatchesFromAt(t, p, e);
      if q < e {
        i := 0;
      } else {
        var i' := MatchCovered(t, e, q);
        i := i' + 1;
      }
    case None =>
      i := MatchCovered(t, p + 1, q);
  }

  /**
    Stated on the pattern: every position where the pattern matches lies
    inside one of the spans `matchAll` reports from the start of the text.
   */
  lemma PatternCovered(t: string, q: nat, e: nat) returns (i: nat)
    requires IsPhoneMatch(t, q, e)
    ensures i < |MatchesFrom(t, 0)| && MatchesFrom(t, 0)[i].0 <= q < MatchesFrom(t, 0)[i].1
  {
    PhoneAtComplete(t, q, e);
    i := MatchCovered(t, 0, q);
  }

  lemma MatchesFromAt(t: string, p: nat, e: nat)
    requires p < |t| && PhoneAt(t, p) == Some(e)
    ensures MatchesFrom(t, p) == [(p, e)] + MatchesFrom(t, e)
  {
  }

  /**
    `[\s-]` takes a line break: lines of 3, 4, 4 and 6 digits in a row are
    one match, every part of the pattern taking its largest count and the
    line breaks serving as its separators.
   */
  lemma MatchAcrossLines(t: string, q: nat)
    requires q + 20 <= |t|
    requires DigitsAt(t, q, 3) && t[q + 3] == '\n' && DigitsAt(t, q + 4, 4) && t[q + 8] == '\n'
    requires DigitsAt(t, q + 9, 4) && t[q + 13] == '\n' && DigitsAt(t, q + 14, 6)
    ensures PhoneAt(t, q) == Some(q + 20)
  {
    assert Scan(t, q + 14, LastGroup(6)) == ScanLastGroup(t, q + 14, 6) == Some(q + 20);
    assert Scan(t, q + 13, TailSep) == ScanTailSep(t, q + 13) == Some(q + 20);
    assert Scan(t, q + 9, MidGroup(4)) == ScanMidGroup(t, q + 9, 4) == Some(q + 20);
    assert Scan(t, q + 8, AreaSep) == ScanAreaSep(t, q + 8) == Some(q + 20);
    assert Scan(t, q + 8, AreaClose) == ScanAreaClose(t, q + 8) == Some(q + 20);
    assert Scan(t, q + 4, AreaDigits(4)) == ScanAreaDigits(t, q + 4, 4) == Some(q + 20);
    assert IsAsciiDigit(t[q + 4]);
    assert Scan(t, q + 4, AreaOpen) == ScanAreaOpen(t, q + 4) == Some(q + 20);
    assert Scan(t, q + 4, AfterCountry) == ScanAfterCountry(t, q + 4) == Some(q + 20);
    assert Scan(t, q + 3, CountrySep) == ScanCountrySep(t, q + 3) == Some(q + 20);
    assert Scan(t, q, CountryDigits(3)) == ScanCountryDigits(t, q, 3) == Some(q + 20);
    assert IsAsciiDigit(t[q]);
    assert Scan(t, q, CountryPlus) == ScanCountryPlus(t, q) == Some(q + 20);
  }


  predicate IsPhoneChar(c: char) { c == '+' || IsAsciiDigit(c) }

  /** `p.replace(/[^+\d]/g, "")` and `re.sub(r"[^\d+]", "", ...)`. */
  function StripPhone(s: string): string {
    Filter(s, IsPhoneChar)
  }

  predicate LengthFits(s: string) { 10 <= |s| <= 15 }

  /** `.find(p => p.length >= 10 && p.length <= 15) || ""` over the stripped candidates. */
  function FirstFitting(cands: seq<string>): string {
    if |cands| == 0 then ""
    else if LengthFits(StripPhone(cands[0])) then StripPhone(cands[0])
    else FirstFitting(cands[1..])
  }

  /** The phone field of lib/parse.ts (lines 11-14). */
  function JsPhone(t: string): string {
    FirstFitting(Candidates(t))
  }

  /** Digits only, except for an optional leading '+'. */
  predicate IsPhoneText(s: string) {
    forall i :: 0 <= i < |s| ==> IsAsciiDigit(s[i]) || (i == 0 && s[i] == '+')
  }

  lemma {:induction false} StripKeepsPlusFirst(s: string)
    requires PlusOnlyFirst(s)
    ensures IsPhoneText(StripPhone(s))
  {
    if |s| > 0 {
      var rest := StripPhone(s[1..]);
      assert '+' !in s[1..];
      assert '+' !in rest;
      assert StripPhone(s) == (if IsPhoneChar(s[0]) then [s[0]] else []) + rest;
      assert AllChars(rest, IsPhoneChar);
    }
  }

  /**
    The selection: the result is "" exactly when no stripped candidate has 10
    to 15 characters; otherwise it is the first stripped candidate that does.
   */
  lemma {:induction false} FirstFittingSpec(cands: seq<string>)
    ensures FirstFitting(cands) == "" <==> forall i :: 0 <= i < |cands| ==> !LengthFits(StripPhone(cands[i]))
    ensures FirstFitting(cands) != "" ==> exists i ::
      && 0 <= i < |cands| && FirstFitting(cands) == StripPhone(cands[i])
      && LengthFits(FirstFitting(cands))
      && forall j :: 0 <= j < i ==> !LengthFits(StripPhone(cands[j]))
  {
    if |cands| > 0 && !LengthFits(StripPhone(cands[0])) {
      FirstFittingSpec(cands[1..]);
      assert forall i :: 1 <= i < |cands| ==> cands[i] == cands[1..][i - 1];
      if FirstFitting(cands) != "" {
        var i :| 0 <= i < |cands[1..]| && FirstFitting(cands[1..]) == StripPhone(cands[1..][i])
          && forall j :: 0 <= j < i ==> !LengthFits(StripPhone(cands[1..][j]));
        assert FirstFitting(cands) == StripPhone(cands[i + 1]);
      }
    }
  }

  /**
    The JavaScript phone field is "" or 10 to 15 characters of digits with at
    most a leading '+', and it is the first matched candidate, in text order,
    whose stripped form has that length.
   */
  lemma JsPhoneSpec(t: string)
    ensures JsPhone(t) == "" <==> forall i :: 0 <= i < |Candidates(t)| ==> !LengthFits(StripPhone(Candidates(t)[i]))
    ensures JsPhone(t) != "" ==> LengthFits(JsPhone(t)) && IsPhoneText(JsPhone(t))
    ensures JsPhone(t) != "" ==> exists i ::
      && 0 <= i < |Candidates(t)| && JsPhone(t) == StripPhone(Candidates(t)[i])
      && forall j :: 0 <= j < i ==> !LengthFits(StripPhone(Candidates(t)[j]))
  {
    var cands := Candidates(t);
    FirstFittingSpec(cands);
    if JsPhone(t) != "" {
      var i :| 0 <= i < |cands| && JsPhone(t) == StripPhone(cands[i]) && LengthFits(JsPhone(t));
      StripKeepsPlusFirst(cands[i]);
    }
  }

  // -------------------------------------------------------------------- Python

  /** `\d{10}` */
  function PyTen(t: string, q: nat): (r: Option<nat>)
    ensures r.Some? ==> r.value == q + 10 && DigitsAt(t, q, 10)
  {
    if DigitsAt(t, q, 10) then Some(q + 10) else None
  }

  /** `[\s-]?` closing the optional group. */
  function PySep(t: string, q: nat): Option<nat> {
    if q < |t| && IsPySep(t[q]) then OrElse(PyTen(t, q + 1), PyTen(t, q)) else PyTen(t, q)
  }

  /** `\d{1,3}` */
  function PyCountryDigits(t: string, q: nat, k: nat): Option<nat>
    decreases k
  {
    if k < 1 then None
    else if DigitsAt(t, q, k) then OrElse(PySep(t, q + k), PyCountryDigits(t, q, k - 1))
    else PyCountryDigits(t, q, k - 1)
  }

  /** `\+?` */
  function PyPlus(t: string, q: nat): Option<nat> {
    if CharAt(t, q, '+') then OrElse(PyCountryDigits(t, q + 1, 3), PyCountryDigits(t, q, 3))
    else PyCountryDigits(t, q, 3)
  }

  /** The whole Python pattern at `p`, the optional group tried first. */
  function PyPhoneAt(t: string, p: nat): Option<nat> {
    OrElse(PyPlus(t, p), PyTen(t, p))
  }

  /** `t[a..b]` matches `[\s-]?` in a Python str regex. */
  ghost predicate OptPySep(t: string, a: nat, b: nat) {
    b == a || (b == a + 1 && a < |t| && IsPySep(t[a]))
  }

  /** `t[a..b]` matches `(\+?\d{1,3}[\s-]?)?`. */
  ghost predicate PyCountryPart(t: string, a: nat, b: nat) {
    b == a || exists x: nat, y: nat :: OptChar(t, a, x, '+') && DigitRun(t, x, y, 1, 3) && OptPySep(t, y, b)
  }

  /** `t[p..e]` matches the Python phone pattern. */
  ghost predicate IsPyPhoneMatch(t: string, p: nat, e: nat) {
    exists m: nat :: PyCountryPart(t, p, m) && DigitRun(t, m, e, 10, 10)
  }

  /** Whatever the Python scanner reports at `p` is a match of the pattern. */
  lemma PyPhoneAtSound(t: string, p: nat)
    requires PyPhoneAt(t, p).Some?
    ensures IsPyPhoneMatch(t, p, PyPhoneAt(t, p).value)
  {
    if PyPlus(t, p).Some? {
      var x := if CharAt(t, p, '+') && PyCountryDigits(t, p + 1, 3).Some? then p + 1 else p;
      var y, m := PyCountryDigitsSound(t, x, 3);
      assert OptChar(t, p, x, '+');
      assert PyCountryPart(t, p, m);
    } else {
      assert PyCountryPart(t, p, p);
    }
  }

  lemma {:induction false} PyCountryDigitsSound(t: string, q: nat, k: nat) returns (y: nat, m: nat)
    requires k <= 3 && PyCountryDigits(t, q, k).Some?
    ensures DigitRun(t, q, y, 1, 3) && OptPySep(t, y, m) && DigitRun(t, m, PyCountryDigits(t, q, k).value, 10, 10)
    decreases k
  {
    if DigitsAt(t, q, k) && PySep(t, q + k).Some? {
      y := q + k;
      m := if y < |t| && IsPySep(t[y]) && PyTen(t, y + 1).Some? then y + 1 else y;
    } else {
      y, m := PyCountryDigitsSound(t, q, k - 1);
    }
  }

  /** Conversely, wherever the Python pattern matches, the scanner reports a match. */
  lemma PyPhoneAtComplete(t: string, p: nat, e: nat)
    requires IsPyPhoneMatch(t, p, e)
    ensures PyPhoneAt(t, p).Some?
  {
    var m :| PyCountryPart(t, p, m) && DigitRun(t, m, e, 10, 10);
    if m != p {
      var x: nat, y: nat :| OptChar(t, p, x, '+') && DigitRun(t, x, y, 1, 3) && OptPySep(t, y, m);
      PyCountryDigitsComplete(t, x, 3, y, m, e);
      assert PyPlus(t, p).Some?;
    } else {
      assert PyTen(t, p).Some?;
    }
  }

  lemma {:induction false} PyCountryDigitsComplete(t: string, q: nat, k: nat, y: nat, m: nat, e: nat)
    requires DigitRun(t, q, y, 1, 3) && y - q <= k && OptPySep(t, y, m) && DigitRun(t, m, e, 10, 10)
    ensures PyCountryDigits(t, q, k).Some?
    decreases k
  {
    if k == y - q {
      assert PySep(t, y).Some?;
    } else {
      PyCountryDigitsComplete(t, q, k - 1, y, m, e);
    }
  }

  /** `PHONE_REGEX.search(text)`: the first start position with a match. */
  function PySearch(t: string): (r: Option<(nat, nat)>)
    ensures r.Some? ==> var (p, e) := r.value;
      p <= |t| && PyPhoneAt(t, p) == Some(e) && forall q :: 0 <= q < p ==> PyPhoneAt(t, q).None?
    ensures r.None? ==> forall q :: 0 <= q <= |t| ==> PyPhoneAt(t, q).None?
  {
    var at := (q: nat) => PyPhoneAt(t, q);
    assert forall q: nat :: at(q) == PyPhoneAt(t, q);
    Leftmost(at, 0, |t|)
  }

  /**
    `PHONE_REGEX.search` finds the leftmost position where the pattern
    matches, and a match there; it finds nothing exactly when the pattern
    matches nowhere.
   */
  lemma PySearchLeftmost(t: string)
    ensures PySearch(t).Some? ==> var (p, e) := PySearch(t).value;
      && IsPyPhoneMatch(t, p, e)
      && forall q: nat, e': nat :: q < p ==> !IsPyPhoneMatch(t, q, e')
    ensures PySearch(t).None? <==> forall q: nat, e: nat :: !IsPyPhoneMatch(t, q, e)
  {
    forall q: nat, e: nat | IsPyPhoneMatch(t, q, e)
      ensures q <= |t| && PyPhoneAt(t, q).Some?
    {
      PyPhoneAtComplete(t, q, e);
    }
    if PySearch(t).Some? {
      var (p, e) := PySearch(t).value;
      PyPhoneAtSound(t, p);
    }
  }

  /** `extract_phone` (python_resume_analyzer/app.py:80-85). */
  function PyPhone(t: string): string {
    match PySearch(t)
    case Some((p, e)) => if p <= e <= |t| then StripPhone(t[p..e]) else ""
    case None => ""
  }

  /** What a Python match looks like: optional '+', 0-3 digits, optional separator, 10 digits. */
  ghost predicate PyShape(t: string, p: nat, e: nat) {
    p <= e <= |t| && PlusFree(t, p + 1, e) && 10 <= DigitCount(t[p..e]) <= 13
  }

  lemma DigitsCount(t: string, q: nat, k: nat)
    requires DigitsAt(t, q, k)
    ensures DigitCount(t[q..q + k]) == k
  {
    var s := t[q..q + k];
    assert forall i :: 0 <= i < |s| ==> s[i] == t[q + i];
    AllCount(s, IsAsciiDigit);
  }

  lemma {:induction false} AllCount(s: string, p: char -> bool)
    requires AllChars(s, p)
    ensures CountWhere(s, p) == |s|
  {
    if |s| > 0 {
      AllCount(s[1..], p);
    }
  }

  lemma SplitCount(t: string, a: nat, b: nat, c: nat)
    requires a <= b <= c <= |t|
    ensures DigitCount(t[a..c]) == DigitCount(t[a..b]) + DigitCount(t[b..c])
  {
    assert t[a..c] == t[a..b] + t[b..c];
    CountWhereConcat(t[a..b], t[b..c], IsAsciiDigit);
  }

  lemma OneCount(t: string, a: nat)
    requires a < |t|
    ensures DigitCount(t[a..a + 1]) == if IsAsciiDigit(t[a]) then 1 else 0
  {
    assert t[a..a + 1] == [t[a]];
  }

  lemma PySepShape(t: string, q: nat)
    requires PySep(t, q).Some?
    ensures var e := PySep(t, q).value;
      q + 10 <= e <= |t| && PlusFree(t, q, e) && DigitCount(t[q..e]) == 10
  {
    var e := PySep(t, q).value;
    if q < |t| && IsPySep(t[q]) && PyTen(t, q + 1).Some? {
      DigitsCount(t, q + 1, 10);
      SplitCount(t, q, q + 1, e);
      OneCount(t, q);
    } else {
      DigitsCount(t, q, 10);
    }
  }

  lemma {:induction false} PyCountryDigitsShape(t: string, q: nat, k: nat)
    requires PyCountryDigits(t, q, k).Some?
    ensures var e := PyCountryDigits(t, q, k).value;
      q <= e <= |t| && PlusFree(t, q, e) && 11 <= DigitCount(t[q..e]) <= 10 + k
    decreases k
  {
    if DigitsAt(t, q, k) && PySep(t, q + k).Some? {
      var e := PySep(t, q + k).value;
      PySepShape(t, q + k);
      DigitsCount(t, q, k);
      SplitCount(t, q, q + k, e);
    } else {
      PyCountryDigitsShape(t, q, k - 1);
    }
  }

  lemma PyPhoneAtShape(t: string, p: nat)
    requires PyPhoneAt(t, p).Some?
    ensures PyShape(t, p, PyPhoneAt(t, p).value)
  {
    var e := PyPhoneAt(t, p).value;
    if PyPlus(t, p).Some? {
      if CharAt(t, p, '+') && PyCountryDigits(t, p + 1, 3).Some? {
        PyCountryDigitsShape(t, p + 1, 3);
        SplitCount(t, p, p + 1, e);
        OneCount(t, p);
      } else {
        PyCountryDigitsShape(t, p, 3);
      }
    } else {
      DigitsCount(t, p, 10);
    }
  }

  lemma {:induction false} StripCounts(s: string)
    ensures DigitCount(StripPhone(s)) == DigitCount(s)
    ensures |StripPhone(s)| == DigitCount(s) + CountWhere(s, c => c == '+')
  {
    if |s| > 0 {
      StripCounts(s[1..]);
      var head := if IsPhoneChar(s[0]) then [s[0]] else [];
      assert StripPhone(s) == head + StripPhone(s[1..]);
      CountWhereConcat(head, StripPhone(s[1..]), IsAsciiDigit);
    }
  }

  /**
    `extract_phone` returns "" exactly when the pattern matches at no position;
    otherwise it is the leftmost match with everything but digits and '+'
    removed: 10 to 13 digits, and a '+' only as the first character.
   */
  lemma PyPhoneSpec(t: string)
    ensures PyPhone(t) == "" <==> forall q :: 0 <= q <= |t| ==> PyPhoneAt(t, q).None?
    ensures PyPhone(t) == "" <==> forall q: nat, e: nat :: !IsPyPhoneMatch(t, q, e)
    ensures PyPhone(t) != "" ==> IsPhoneText(PyPhone(t)) && 10 <= DigitCount(PyPhone(t)) <= 13
    ensures PyPhone(t) != "" ==> exists p, e ::
      && 0 <= p <= e <= |t| && PyPhoneAt(t, p) == Some(e) && PyPhone(t) == StripPhone(t[p..e])
      && IsPyPhoneMatch(t, p, e)
      && (forall q :: 0 <= q < p ==> PyPhoneAt(t, q).None?)
      && (forall q: nat, e': nat :: q < p ==> !IsPyPhoneMatch(t, q, e'))
  {
    PySearchLeftmost(t);
    if PySearch(t).Some? {
      var (p, e) := PySearch(t).value;
      PyPhoneAtShape(t, p);
      var c := t[p..e];
      assert forall i :: 1 <= i < |c| ==> c[i] == t[p + i];
      StripKeepsPlusFirst(c);
      StripCounts(c);
      assert PyPhone(t) != "";
    }
  }
}
