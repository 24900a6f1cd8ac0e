/**
  `parseResumeFields` of lib/parse.ts: the heuristics that turn the text of a
  resume into name, email, phone and skills. `Parse` is the specification as
  a function of the text; `ParseResumeFields` is the source's procedure, with
  its two loops (the name search and the skills-section scan), proved to
  compute `Parse`. The lemmas state what each field is.
 */
module ResumeParser {
  import opened Wrappers
  import opened Text
  import EmailPattern
  import PhonePattern

  datatype Fields = Fields(name: string, email: string, phone: string, skills: string)

  // ------------------------------------------------------------ text preparation

  /** `text.replace(/\u00A0/g, " ")` */
  function Normalize(text: string): (r: string)
    ensures |r| == |text|
    ensures NBSP !in r
  {
    ReplaceWithSpace(text, IsNbsp)
  }

  /** `split(/\r?\n/)`: every '\n' ends a piece, and a '\r' right before it goes with it. */
  function SplitLines(s: string): (r: seq<string>)
    ensures |r| >= 1
    decreases |s|
  {
    var i := FirstIndex(s, IsLf);
    if i == |s| then [s]
    else (if i > 0 && s[i - 1] == '\r' then [s[..i - 1]] else [s[..i]]) + SplitLines(s[i + 1..])
  }

  /** `.map(l => l.trim()).filter(Boolean)` */
  function TrimmedLines(pieces: seq<string>): (r: seq<string>)
    ensures forall i :: 0 <= i < |r| ==> r[i] != "" && IsJsTrimmed(r[i])
  {
    if |pieces| == 0 then []
    else
      var t := JsTrim(pieces[0]);
      (if t != "" then [t] else []) + TrimmedLines(pieces[1..])
  }

  /** The trimmed non-empty lines, in order. */
  function Lines(normalized: string): seq<string> {
    TrimmedLines(SplitLines(normalized))
  }

  // ------------------------------------------------------------------- the name

  const LabelWords: seq<string> := [
    "curriculum vitae", "resume", "contact", "email", "phone", "mobile",
    "address", "skills", "experience", "education", "summary", "objective"]

  /** `labelWords.some(w => lower.includes(w))` */
  predicate HasLabel(line: string) {
    exists i | 0 <= i < |LabelWords| :: Contains(Lower(line), LabelWords[i])
  }

  /** `(line.match(/\d/g)?.length ?? 0) >= 4` */
  predicate HasManyDigits(line: string) { DigitCount(line) >= 4 }

  predicate SpacesBetween(s: string, a: int, b: int)
    requires 0 <= a <= b <= |s|
  {
    forall k | a <= k < b :: IsJsSpace(s[k])
  }

  /** Two letters at `i`, whitespace from `i + 2` to `j`, two letters at `j`. */
  predicate NameShapeAt(s: string, i: nat, j: nat)
    requires i + 2 < j && j + 2 <= |s|
  {
    IsAsciiLetter(s[i]) && IsAsciiLetter(s[i + 1]) && SpacesBetween(s, i + 2, j) &&
    IsAsciiLetter(s[j]) && IsAsciiLetter(s[j + 1])
  }

  /** `/[A-Za-z]{2,}\s+[A-Za-z]{2,}/.test(line)`: two letters, one or more spaces, two letters. */
  predicate HasNameShape(s: string) {
    exists i: nat, j: nat | i + 2 < j && j + 2 <= |s| :: NameShapeAt(s, i, j)
  }

  /** The three exclusion tests are negative and the line has the two-word shape. */
  predicate IsNameLine(line: string) {
    !HasLabel(line) && !EmailPattern.HasEmail(EmailPattern.Js, line) && !HasManyDigits(line) && HasNameShape(line)
  }

  // `line.replace(/^[^A-Za-z]*/, "").trim()`: drop what precedes the first letter, then trim.
  function NameFromLine(line: string): string {
    JsTrim(line[FirstIndex(line, IsAsciiLetter)..])
  }

  /** The index of the first line that passes the tests, or `|lines|`. */
  function NameIndex(lines: seq<string>): nat {
    FirstWhere(lines, IsNameLine)
  }

  /** The name search looks at `lines.slice(0, 10)` only; "" when no line there passes. */
  function ExtractName(lines: seq<string>): string {
    var head := lines[..Min(10, |lines|)];
    var k := NameIndex(head);
    if k < |head| then NameFromLine(head[k]) else ""
  }

  // --------------------------------------------------------------- skills tier 1

  /** The alternatives of `(skills|technical skills|key skills|skills & tools)`, in source order. */
  const HeaderAlternatives: seq<string> := ["skills", "technical skills", "key skills", "skills & tools"]

  /** The first alternative that matches at `p` (case-insensitively), or 4 when none does. */
  function AltAt(lower: string, p: nat): (a: nat)
    ensures a <= |HeaderAlternatives|
    ensures a < |HeaderAlternatives| ==> OccursAt(lower, p, HeaderAlternatives[a])
  {
    if OccursAt(lower, p, "skills") then 0
    else if OccursAt(lower, p, "technical skills") then 1
    else if OccursAt(lower, p, "key skills") then 2
    else if OccursAt(lower, p, "skills & tools") then 3
    else 4
  }

  function SpaceRunEnd(s: string, i: nat): (e: nat)
    requires i <= |s|
    ensures i <= e <= |s|
    ensures forall k :: i <= k < e ==> IsJsSpace(s[k])
    ensures e == |s| || !IsJsSpace(s[e])
    decreases |s| - i
  {
    if i < |s| && IsJsSpace(s[i]) then SpaceRunEnd(s, i + 1) else i
  }

  /**
    Where a match of `/(skills|technical skills|key skills|skills & tools)[:\-]?\s*\/i`
    starting at `p` ends, if one starts there: the first alternative that fits,
    then an optional ':' or '-', then all following whitespace.
   */
  function HeaderEndAt(line: string, p: nat): (r: Option<nat>)
    requires p <= |line|
    ensures r.Some? ==> p <= r.value <= |line|
  {
    var a := AltAt(Lower(line), p);
    if a < |HeaderAlternatives| then
      var q := p + |HeaderAlternatives[a]|;
      var q' := if q < |line| && (line[q] == ':' || line[q] == '-') then q + 1 else q;
      Some(SpaceRunEnd(line, q'))
    else None
  }

  /** The leftmost match of the header pattern in `line`, as (start, end). */
  function HeaderMatch(line: string): (r: Option<(nat, nat)>)
    ensures r.Some? ==> var (s, e) := r.value;
      s <= e <= |line| && HeaderEndAt(line, s) == Some(e) && forall q :: 0 <= q < s ==> HeaderEndAt(line, q).None?
    ensures r.None? ==> forall q :: 0 <= q <= |line| ==> HeaderEndAt(line, q).None?
  {
    var at := (p: nat) => if p <= |line| then HeaderEndAt(line, p) else None;
    assert forall p: nat :: p <= |line| ==> at(p) == HeaderEndAt(line, p);
    Leftmost(at, 0, |line|)
  }

  /** `skillsSectionRegex.test(line)` */
  predicate HasSkillsHeader(line: string) {
    HeaderMatch(line).Some?
  }

  /** `lines.findIndex(l => skillsSectionRegex.test(l))`, with `|lines|` for -1. */
  function HeaderIndex(lines: seq<string>): nat {
    FirstWhere(lines, HasSkillsHeader)
  }

  /** `line.replace(skillsSectionRegex, "")`: only the first match is removed. */
  function RemoveHeader(line: string): string {
    match HeaderMatch(line)
    case Some((s, e)) => line[..s] + line[e..]
    case None => line
  }

  /** The character class `[â€¢\-•]`: five separate characters. */
  predicate IsBulletChar(c: char) {
    c == '\U{00E2}' || c == '\U{20AC}' || c == '\U{00A2}' || c == '-' || c == '\U{2022}'
  }

  predicate NotBullet(c: char) { !IsBulletChar(c) }

  /** `line.replace(skillsSectionRegex, "").replace(/[â€¢\-•]/g, "").trim()` */
  function CleanSkillLine(line: string): string {
    JsTrim(Filter(RemoveHeader(line), NotBullet))
  }

  /** What one line of the section contributes: its cleaned text, unless that is empty. */
  function Pushed(line: string): seq<string> {
    var c := CleanSkillLine(line);
    if c != "" then [c] else []
  }

  const SectionWords: seq<string> := [
    "experience", "work experience", "education", "projects", "summary", "objective", "certifications"]

  /** `w` starts `lower` and is followed by a word boundary. */
  predicate StartsWithWord(lower: string, w: string) {
    OccursAt(lower, 0, w) && (|lower| == |w| || !IsWordChar(lower[|w|]))
  }

  /** `/^(experience|work experience|...|certifications)\b/i.test(line)` */
  predicate EndsSection(line: string) {
    exists i | 0 <= i < |SectionWords| :: StartsWithWord(Lower(line), SectionWords[i])
  }

  /** The pieces the tier-1 loop pushes for lines `i` up to `stop`, stopping at a section end. */
  function CollectFrom(lines: seq<string>, i: nat, stop: nat): seq<string>
    requires stop <= |lines|
  {
    ConcatUntil(lines, i, stop, EndsSection, Pushed)
  }

  /** The end of the tier-1 window: the header line and at most the next 7. */
  function WindowEnd(lines: seq<string>, k: nat): nat {
    Min(|lines|, k + 8)
  }

  /** The tier-1 result: "" when no line has a header, else the pieces joined with ", ". */
  function Tier1(lines: seq<string>): string {
    var k := HeaderIndex(lines);
    if k == |lines| then "" else Join(CollectFrom(lines, k, WindowEnd(lines, k)), ", ")
  }

  // --------------------------------------------------------------- skills tier 2

  predicate IsTokenSep(c: char) { c == ';' || c == ',' || c == '|' }

  function TrimAll(ts: seq<string>): (r: seq<string>)
    ensures |r| == |ts|
    ensures forall i :: 0 <= i < |r| ==> r[i] == JsTrim(ts[i])
  {
    if |ts| == 0 then [] else [JsTrim(ts[0])] + TrimAll(ts[1..])
  }

  /** `t.length > 1 && t.length < 50` */
  predicate SizedToken(t: string) { 1 < |t| < 50 }

  /** `/[A-Za-z]/.test(t) && !EMAIL_REGEX.test(t) && (t.match(/\d/g)?.length ?? 0) < 4` */
  predicate PlausibleToken(t: string) {
    SomeChar(t, IsAsciiLetter) && !EmailPattern.HasEmail(EmailPattern.Js, t) && DigitCount(t) < 4
  }

  /**
    `Array.from(new Set(ts))`: each token once, in the order of its first
    occurrence in `ts` (a `Set` iterates in insertion order).
   */
  function Dedupe(ts: seq<string>): (r: seq<string>)
    ensures |r| <= |ts|
    ensures forall i, j :: 0 <= i < j < |r| ==> r[i] != r[j]
    ensures forall x :: x in r <==> x in ts
    ensures forall i, j :: 0 <= i < j < |r| ==> IndexOf(ts, r[i]) < IndexOf(ts, r[j])
  {
    if |ts| == 0 then []
    else
      var front, last := ts[..|ts| - 1], ts[|ts| - 1];
      var d := Dedupe(front);
      assert ts == front + [last];
      IndexOfAppend(front, [last]);
      if last in d then d
      else
        assert IndexOf(ts, last) == |front|;
        d + [last]
  }

  /** The token fallback over the first 40 lines, before the final join. */
  function FallbackTokens(lines: seq<string>): seq<string> {
    var potential := Join(lines[..Min(40, |lines|)], " ");
    var tokens := FilterSeq(TrimAll(SplitBy(potential, IsTokenSep)), SizedToken);
    var unique := Dedupe(FilterSeq(tokens, PlausibleToken));
    unique[..Min(20, |unique|)]
  }

  /** The skills field: tier 1, and the fallback only when tier 1 gives "". */
  function Skills(lines: seq<string>): string {
    var t1 := Tier1(lines);
    if t1 != "" then t1 else Join(FallbackTokens(lines), ", ")
  }

  // ------------------------------------------------------------------ the whole

  /** `parseResumeFields(text)` as a function of the text. */
  function Parse(text: string): Fields {
    var normalized := Normalize(text);
    var lines := Lines(normalized);
    Fields(
      ExtractName(lines),
      EmailPattern.FirstEmail(EmailPattern.Js, normalized),
      PhonePattern.JsPhone(normalized),
      Skills(lines))
  }

  /** The name loop: the first of the first ten lines that passes every test gives the name. */
  method FindName(lines: seq<string>) returns (name: string)
    ensures name == ExtractName(lines)
  {
    var head := lines[..Min(10, |lines|)];
    name := "";
    var i := 0;
    while i < |head|
      invariant 0 <= i <= |head|
      invariant name == "" && i <= NameIndex(head)
    {
      if IsNameLine(head[i]) {
        assert NameIndex(head) == i;
        name := NameFromLine(head[i]);
        return;
      }
      assert NameIndex(head) != i;
      i := i + 1;
    }
    assert NameIndex(head) == |head|;
  }

  /** The skills-section loop, from the header line `k` to the end of its window or a section heading. */
  method CollectSection(lines: seq<string>, k: nat) returns (collect: seq<string>)
    requires k < |lines|
    ensures collect == CollectFrom(lines, k, WindowEnd(lines, k))
  {
    collect := ConcatLoop(lines, k, WindowEnd(lines, k), EndsSection, Pushed);
  }

  /** `parseResumeFields(text)`. */
  method ParseResumeFields(text: string) returns (f: Fields)
    ensures f == Parse(text)
  {
    var normalized := Normalize(text);
    var lines := Lines(normalized);
    var email := EmailPattern.FirstEmail(EmailPattern.Js, normalized);
    var phone := PhonePattern.JsPhone(normalized);
    var name := FindName(lines);
    var skills := "";
    var k := HeaderIndex(lines);
    if k != |lines| {
      var collect := CollectSection(lines, k);
      skills := Join(collect, ", ");
    }
    if skills == "" {
      skills := Join(FallbackTokens(lines), ", ");
    }
    f := Fields(name, email, phone, skills);
  }
}
