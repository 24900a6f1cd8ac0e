/**
  What `parseResumeFields` (lib/parse.ts) promises about each field, proved
  about the `ResumeParser.Parse` specification.
 */
module ParseProperties {
  import opened Wrappers
  import opened Text
  import EmailPattern
  import PhonePattern
  import opened ResumeParser

  /** No string of `ss` contains `c`. */
  ghost predicate NoneContain(ss: seq<string>, c: char) {
    forall i :: 0 <= i < |ss| ==> c !in ss[i]
  }

  /** The pieces the fallback splits the first 40 lines into. */
  function FallbackPieces(lines: seq<string>): seq<string> {
    SplitBy(Join(lines[..Min(40, |lines|)], " "), IsTokenSep)
  }

  /** The tokens that pass both fallback filters, in order and with repetitions: what `new Set` receives. */
  function FallbackCandidates(lines: seq<string>): seq<string> {
    FilterSeq(FilterSeq(TrimAll(FallbackPieces(lines)), SizedToken), PlausibleToken)
  }

  /** The strings the tier-1 loop pushes for the lines `ls`, in order. */
  function PushedAll(ls: seq<string>): seq<string> {
    if |ls| == 0 then [] else Pushed(ls[0]) + PushedAll(ls[1..])
  }

  // ------------------------------------------------------------------ the name

  lemma NameShapeHasLetter(line: string)
    requires HasNameShape(line)
    ensures SomeChar(line, IsAsciiLetter)
  {
    var i: nat, j: nat :| i + 2 < j && j + 2 <= |line| && NameShapeAt(line, i, j);
    assert IsAsciiLetter(line[j]);
  }

  /** The name taken from a line starts with a letter; from a trimmed line it is the line from its first letter on. */
  lemma NameFromLineSpec(line: string)
    requires SomeChar(line, IsAsciiLetter)
    ensures NameFromLine(line) != "" && IsAsciiLetter(NameFromLine(line)[0])
    ensures IsJsTrimmed(line) ==> NameFromLine(line) == line[FirstIndex(line, IsAsciiLetter)..]
  {
    var k := FirstIndex(line, IsAsciiLetter);
    var rest := line[k..];
    assert !IsJsSpace(rest[0]);
    assert LeadCount(rest, IsJsSpace) == 0;
    assert TrimStart(rest, IsJsSpace) == rest;
    if IsJsTrimmed(line) {
      assert rest[|rest| - 1] == line[|line| - 1];
      assert TrailCount(rest, IsJsSpace) == 0;
    }
  }

  /**
    The name search: "" exactly when none of the first ten lines passes the
    tests; otherwise the first such line from its first letter on.
   */
  lemma ExtractNameSpec(lines: seq<string>)
    requires forall i :: 0 <= i < |lines| ==> IsJsTrimmed(lines[i])
    ensures ExtractName(lines) == "" <==> forall i :: 0 <= i < Min(10, |lines|) ==> !IsNameLine(lines[i])
    ensures var name := ExtractName(lines);
      name != "" ==> exists i ::
        && 0 <= i < Min(10, |lines|) && IsNameLine(lines[i])
        && (forall j :: 0 <= j < i ==> !IsNameLine(lines[j]))
        && name == lines[i][FirstIndex(lines[i], IsAsciiLetter)..]
        && IsAsciiLetter(name[0])
  {
    var head := lines[..Min(10, |lines|)];
    var k := NameIndex(head);
    assert forall j :: 0 <= j < |head| ==> head[j] == lines[j];
    if k < |head| {
      var line := lines[k];
      assert head[k] == line;
      assert ExtractName(lines) == NameFromLine(line);
      assert IsNameLine(line) && IsJsTrimmed(line);
      NameShapeHasLetter(line);
      NameFromLineSpec(line);
      assert forall j :: 0 <= j < k ==> !IsNameLine(lines[j]);
    } else {
      assert ExtractName(lines) == "";
      assert forall j :: 0 <= j < |head| ==> !IsNameLine(lines[j]);
    }
  }

  /** The name field of `Parse` is the name search over the normalized text's lines. */
  lemma NameField(text: string)
    ensures var lines := Lines(Normalize(text));
      Parse(text).name == "" <==> forall i :: 0 <= i < Min(10, |lines|) ==> !IsNameLine(lines[i])
    ensures var lines := Lines(Normalize(text)); var name := Parse(text).name;
      name != "" ==> exists i ::
        && 0 <= i < Min(10, |lines|) && IsNameLine(lines[i])
        && (forall j :: 0 <= j < i ==> !IsNameLine(lines[j]))
        && name == lines[i][FirstIndex(lines[i], IsAsciiLetter)..]
        && IsAsciiLetter(name[0])
  {
    var lines := Lines(Normalize(text));
    assert Parse(text).name == ExtractName(lines);
    assert forall i :: 0 <= i < |lines| ==> IsJsTrimmed(lines[i]);
    ExtractNameSpec(lines);
  }

  // ------------------------------------------------------------ the skills header

  /** No line reaches the fourth alternative: any text it matches starts with the first. */
  lemma FourthAlternativeUnreachable(lower: string, p: nat)
    ensures AltAt(lower, p) != 3
  {
    if OccursAt(lower, p, "skills & tools") {
      assert lower[p..p + 6] == lower[p..p + 14][..6];
    }
  }

  /** Every alternative contains "skills", at offset 0, 10, 4 and 0. */
  lemma AltContainsSkills(lower: string, p: nat)
    requires AltAt(lower, p) < |HeaderAlternatives|
    ensures exists q: nat :: p <= q && OccursAt(lower, q, "skills")
  {
    var a := AltAt(lower, p);
    FourthAlternativeUnreachable(lower, p);
    if a == 1 {
      assert lower[p + 10..p + 16] == lower[p..p + 16][10..] == "technical skills"[10..] == "skills";
      assert OccursAt(lower, p + 10, "skills");
    } else if a == 2 {
      assert lower[p + 4..p + 10] == lower[p..p + 10][4..] == "key skills"[4..] == "skills";
      assert OccursAt(lower, p + 4, "skills");
    } else {
      assert OccursAt(lower, p, "skills");
    }
  }

  /** A match starts at `p` exactly when an alternative fits there; it covers the alternative and the whitespace after it. */
  lemma HeaderEndAtSpec(line: string, p: nat)
    requires p <= |line|
    ensures HeaderEndAt(line, p).None? <==> AltAt(Lower(line), p) == 4
    ensures HeaderEndAt(line, p).Some? ==>
      var e := HeaderEndAt(line, p).value;
      && p + |HeaderAlternatives[AltAt(Lower(line), p)]| <= e
      && (e == |line| || !IsJsSpace(line[e]))
  {
    var a := AltAt(Lower(line), p);
    if a < |HeaderAlternatives| {
      var q := p + |HeaderAlternatives[a]|;
      var q' := if q < |line| && (line[q] == ':' || line[q] == '-') then q + 1 else q;
      assert HeaderEndAt(line, p) == Some(SpaceRunEnd(line, q'));
    }
  }

  /** `skillsSectionRegex.test(line)` holds exactly when the lower-cased line contains "skills". */
  lemma HeaderIffSkills(line: string)
    ensures HasSkillsHeader(line) <==> Contains(Lower(line), "skills")
  {
    var lower := Lower(line);
    if HeaderMatch(line).Some? {
      var s := HeaderMatch(line).value.0;
      HeaderEndAtSpec(line, s);
      AltContainsSkills(lower, s);
    } else {
      forall q | 0 <= q <= |lower| ensures !OccursAt(lower, q, "skills") {
        HeaderEndAtSpec(line, q);
      }
    }
  }

  /**
    The match `replace` removes: it starts at the leftmost position where an
    alternative fits, covers that alternative, and runs to the end of the
    following whitespace.
   */
  lemma HeaderMatchSpec(line: string)
    ensures HeaderMatch(line).None? ==> forall q :: 0 <= q <= |line| ==> AltAt(Lower(line), q) == 4
    ensures HeaderMatch(line).Some? ==>
      var (s, e) := HeaderMatch(line).value;
      && AltAt(Lower(line), s) < 4
      && s + |HeaderAlternatives[AltAt(Lower(line), s)]| <= e
      && (e == |line| || !IsJsSpace(line[e]))
      && forall q :: 0 <= q < s ==> AltAt(Lower(line), q) == 4
  {
    var lower := Lower(line);
    if HeaderMatch(line).Some? {
      var (s, e) := HeaderMatch(line).value;
      forall q | 0 <= q < s ensures AltAt(lower, q) == 4 {
        HeaderEndAtSpec(line, q);
      }
      HeaderEndAtSpec(line, s);
    } else {
      forall q | 0 <= q <= |line| ensures AltAt(lower, q) == 4 {
        HeaderEndAtSpec(line, q);
      }
    }
  }

  // ------------------------------------------------------------------- tier 1

  lemma PushedSpec(line: string)
    ensures |Pushed(line)| <= 1
    ensures forall i :: 0 <= i < |Pushed(line)| ==>
      Pushed(line)[i] != "" && IsJsTrimmed(Pushed(line)[i]) && AllChars(Pushed(line)[i], NotBullet)
  {
    var f := Filter(RemoveHeader(line), NotBullet);
    var c := JsTrim(f);
    forall k | 0 <= k < |c| ensures NotBullet(c[k]) {
      assert c[k] in f;
    }
  }

  lemma {:induction false} PushedAllSpec(ls: seq<string>)
    ensures |PushedAll(ls)| <= |ls|
    ensures forall i :: 0 <= i < |PushedAll(ls)| ==>
      PushedAll(ls)[i] != "" && IsJsTrimmed(PushedAll(ls)[i]) && AllChars(PushedAll(ls)[i], NotBullet)
  {
    if |ls| > 0 {
      PushedSpec(ls[0]);
      PushedAllSpec(ls[1..]);
    }
  }

  /** The first line from `i` on, before `stop`, that starts a new section; `stop` when none does. */
  function SectionCut(lines: seq<string>, i: nat, stop: nat): (cut: nat)
    requires i <= stop <= |lines|
    ensures i <= cut <= stop
    ensures forall j :: i <= j < cut ==> !EndsSection(lines[j])
    ensures cut < stop ==> EndsSection(lines[cut])
    decreases stop - i
  {
    if i == stop || EndsSection(lines[i]) then i else SectionCut(lines, i + 1, stop)
  }

  /**
    The tier-1 loop reads from line `i` up to the first section heading
    before `stop`, and pushes the cleaned non-empty lines of that stretch.
   */
  lemma {:induction false} CollectWindow(lines: seq<string>, i: nat, stop: nat)
    requires i <= stop <= |lines|
    ensures CollectFrom(lines, i, stop) == PushedAll(lines[i..SectionCut(lines, i, stop)])
    decreases stop - i
  {
    var cut := SectionCut(lines, i, stop);
    if i == stop || EndsSection(lines[i]) {
      assert lines[i..cut] == [];
    } else {
      CollectWindow(lines, i + 1, stop);
      assert lines[i..cut][0] == lines[i];
      assert lines[i..cut][1..] == lines[i + 1..cut];
    }
  }

  /** The pieces tier 1 joins: those of the header line up to the first section heading within the window. */
  function SectionPieces(lines: seq<string>, k: nat): seq<string>
    requires k < |lines|
  {
    PushedAll(lines[k..SectionCut(lines, k, WindowEnd(lines, k))])
  }

  lemma SectionPiecesSpec(lines: seq<string>, k: nat)
    requires k < |lines|
    ensures CollectFrom(lines, k, WindowEnd(lines, k)) == SectionPieces(lines, k)
    ensures Join(SectionPieces(lines, k), ", ") == "" <==> SectionPieces(lines, k) == []
  {
    var stop := WindowEnd(lines, k);
    var cut := SectionCut(lines, k, stop);
    CollectWindow(lines, k, stop);
    PushedAllSpec(lines[k..cut]);
    JoinEmpty(PushedAll(lines[k..cut]), ", ");
  }

  /**
    Tier 1: "" when no line has a skills header; otherwise the pieces from the
    header line up to the first section heading, within 8 lines, joined with
    ", ", and "" exactly when there are no pieces.
   */
  lemma Tier1Spec(lines: seq<string>)
    ensures HeaderIndex(lines) == |lines| ==> Tier1(lines) == ""
    ensures var k := HeaderIndex(lines); k < |lines| ==>
      && Tier1(lines) == Join(SectionPieces(lines, k), ", ")
      && (Tier1(lines) == "" <==> SectionPieces(lines, k) == [])
  {
    var k := HeaderIndex(lines);
    if k < |lines| {
      SectionPiecesSpec(lines, k);
      assert Tier1(lines) == Join(CollectFrom(lines, k, WindowEnd(lines, k)), ", ");
    }
  }

  // ------------------------------------------------------------------ tier 2

  lemma TrimKeepsOut(s: string, ws: char -> bool, p: char -> bool)
    requires forall k :: 0 <= k < |s| ==> !p(s[k])
    ensures forall k :: 0 <= k < |Trim(s, ws)| ==> !p(Trim(s, ws)[k])
  {
    var r := Trim(s, ws);
    forall k | 0 <= k < |r| ensures !p(r[k]) {
      assert r[k] in s;
    }
  }

  /**
    The fallback tokens: at most 20, pairwise distinct, each one trimmed piece
    of the first 40 lines split at ';', ',' and '|', 2 to 49 characters long,
    with a letter, no email and fewer than four digits.
   */
  lemma FallbackSpec(lines: seq<string>)
    ensures |FallbackTokens(lines)| <= 20
    ensures forall i, j :: 0 <= i < j < |FallbackTokens(lines)| ==> FallbackTokens(lines)[i] != FallbackTokens(lines)[j]
    ensures forall t | t in FallbackTokens(lines) ::
      && (exists k :: 0 <= k < |FallbackPieces(lines)| && t == JsTrim(FallbackPieces(lines)[k]))
      && SizedToken(t) && PlausibleToken(t)
      && IsJsTrimmed(t) && !SomeChar(t, IsTokenSep)
  {
    var r := FallbackTokens(lines);
    forall t | t in r
      ensures
        && (exists k :: 0 <= k < |FallbackPieces(lines)| && t == JsTrim(FallbackPieces(lines)[k]))
        && SizedToken(t) && PlausibleToken(t)
        && IsJsTrimmed(t) && !SomeChar(t, IsTokenSep)
    {
      var k := FallbackToken(lines, t);
    }
  }

  /**
    The fallback keeps the first 20 distinct candidates: its tokens are
    candidates, in the order of their first occurrence; a candidate is left
    out only when 20 tokens are kept already, and then it first occurs after
    every kept one.
   */
  lemma FallbackFirstTwenty(lines: seq<string>)
    ensures var p, r := FallbackCandidates(lines), FallbackTokens(lines);
      && (forall t :: t in r ==> t in p)
      && (forall i, j :: 0 <= i < j < |r| ==> IndexOf(p, r[i]) < IndexOf(p, r[j]))
      && (forall t | t in p && t !in r :: |r| == 20)
      && (forall t, i | t in p && t !in r && 0 <= i < |r| :: IndexOf(p, r[i]) < IndexOf(p, t))
  {
    var p := FallbackCandidates(lines);
    assert FallbackTokens(lines) == Dedupe(p)[..Min(20, |Dedupe(p)|)];
    FirstDistinct(p, 20);
  }

  /** The first `n` distinct elements of `p`, as `Array.from(new Set(p)).slice(0, n)` takes them. */
  lemma FirstDistinct(p: seq<string>, n: nat)
    ensures var u := Dedupe(p); var r := u[..Min(n, |u|)];
      && (forall t :: t in r ==> t in p)
      && (forall i, j :: 0 <= i < j < |r| ==> IndexOf(p, r[i]) < IndexOf(p, r[j]))
      && (forall t | t in p && t !in r :: |r| == n)
      && (forall t, i | t in p && t !in r && 0 <= i < |r| :: IndexOf(p, r[i]) < IndexOf(p, t))
  {
    var u := Dedupe(p);
    var r := u[..Min(n, |u|)];
    forall t | t in p && t !in r
      ensures |r| == n
      ensures forall i :: 0 <= i < |r| ==> IndexOf(p, r[i]) < IndexOf(p, t)
    {
      var m := IndexOf(u, t);
      assert m >= n;
      forall i | 0 <= i < |r| ensures IndexOf(p, r[i]) < IndexOf(p, t) {
        assert r[i] == u[i] && u[m] == t;
      }
    }
  }

  /** Where a fallback token comes from: a piece of the joined lines, trimmed; and it passed both filters. */
  lemma FallbackToken(lines: seq<string>, t: string) returns (k: nat)
    requires t in FallbackTokens(lines)
    ensures k < |FallbackPieces(lines)| && t == JsTrim(FallbackPieces(lines)[k])
    ensures SizedToken(t) && PlausibleToken(t)
    ensures IsJsTrimmed(t) && !SomeChar(t, IsTokenSep)
  {
    var pieces := FallbackPieces(lines);
    FallbackTokensKept(lines, t);
    k := TokenOrigin(pieces, t);
    PieceTrimmed(lines, k);
  }

  lemma FallbackTokensKept(lines: seq<string>, t: string)
    requires t in FallbackTokens(lines)
    ensures t in Dedupe(FilterSeq(FilterSeq(TrimAll(FallbackPieces(lines)), SizedToken), PlausibleToken))
  {
    var unique := Dedupe(FilterSeq(FilterSeq(TrimAll(FallbackPieces(lines)), SizedToken), PlausibleToken));
    assert FallbackTokens(lines) == unique[..Min(20, |unique|)];
  }

  /** A piece split at the token separators, once trimmed, is trimmed and holds no separator. */
  lemma PieceTrimmed(lines: seq<string>, k: nat)
    requires k < |FallbackPieces(lines)|
    ensures var t := JsTrim(FallbackPieces(lines)[k]); IsJsTrimmed(t) && !SomeChar(t, IsTokenSep)
  {
    var piece := FallbackPieces(lines)[k];
    assert forall j :: 0 <= j < |piece| ==> !IsTokenSep(piece[j]);
    TrimKeepsOut(piece, IsJsSpace, IsTokenSep);
  }

  /** A token kept by the filters and the deduplication is one of the trimmed pieces. */
  lemma TokenOrigin(pieces: seq<string>, t: string) returns (k: nat)
    requires t in Dedupe(FilterSeq(FilterSeq(TrimAll(pieces), SizedToken), PlausibleToken))
    ensures k < |pieces| && t == JsTrim(pieces[k]) && SizedToken(t) && PlausibleToken(t)
  {
    var trimmed := TrimAll(pieces);
    var tokens := FilterSeq(trimmed, SizedToken);
    var plausible := FilterSeq(tokens, PlausibleToken);
    assert t in plausible;
    var a :| 0 <= a < |plausible| && plausible[a] == t;
    assert t in tokens;
    var b :| 0 <= b < |tokens| && tokens[b] == t;
    assert t in trimmed;
    k :| 0 <= k < |trimmed| && trimmed[k] == t;
  }

  // ------------------------------------------------------------- whole record

  /** Empty text gives four empty fields. */
  lemma ParseEmpty()
    ensures Parse("") == Fields("", "", "", "")
  {
    assert Normalize("") == "";
    assert SplitLines("") == [""];
    assert Lines("") == [];
    assert EmailPattern.Search(EmailPattern.Js, "") == None;
    assert PhonePattern.Candidates("") == [];
    assert SplitBy("", IsTokenSep) == [""];
    assert TrimAll([""]) == [""];
    assert FallbackTokens([]) == [];
  }

  // ---------------------------------------------------- no non-breaking space

  lemma {:induction false} JoinAvoids(parts: seq<string>, sep: string, c: char)
    requires NoneContain(parts, c) && c !in sep
    ensures c !in Join(parts, sep)
  {
    if |parts| > 1 {
      JoinAvoids(parts[1..], sep, c);
    }
  }

  lemma {:induction false} SplitByAvoids(s: string, isSep: char -> bool, c: char)
    requires c !in s
    ensures NoneContain(SplitBy(s, isSep), c)
    decreases |s|
  {
    var i := FirstIndex(s, isSep);
    if i < |s| {
      SplitByAvoids(s[i + 1..], isSep, c);
      assert c !in s[..i];
    }
  }

  lemma {:induction false} SplitLinesAvoids(s: string, c: char)
    requires c !in s
    ensures NoneContain(SplitLines(s), c)
    decreases |s|
  {
    var i := FirstIndex(s, IsLf);
    if i < |s| {
      SplitLinesAvoids(s[i + 1..], c);
      assert c !in s[..i];
      if i > 0 {
        assert c !in s[..i - 1];
      }
    }
  }

  lemma {:induction false} TrimmedLinesAvoids(pieces: seq<string>, c: char)
    requires NoneContain(pieces, c)
    ensures NoneContain(TrimmedLines(pieces), c)
  {
    if |pieces| > 0 {
      TrimmedLinesAvoids(pieces[1..], c);
    }
  }

  lemma RemoveHeaderAvoids(line: string, c: char)
    requires c !in line
    ensures c !in RemoveHeader(line)
  {
    match HeaderMatch(line)
    case Some((s, e)) =>
      assert c !in line[..s] && c !in line[e..];
    case None =>
  }

  lemma {:induction false} PushedAllAvoids(ls: seq<string>, c: char)
    requires NoneContain(ls, c)
    ensures NoneContain(PushedAll(ls), c)
  {
    if |ls| > 0 {
      RemoveHeaderAvoids(ls[0], c);
      PushedAllAvoids(ls[1..], c);
    }
  }

  lemma Tier1Avoids(lines: seq<string>, c: char)
    requires NoneContain(lines, c) && c != ',' && c != ' '
    ensures c !in Tier1(lines)
  {
    var k := HeaderIndex(lines);
    if k < |lines| {
      Tier1Spec(lines);
      var cut := SectionCut(lines, k, WindowEnd(lines, k));
      assert NoneContain(lines[k..cut], c);
      PushedAllAvoids(lines[k..cut], c);
      JoinAvoids(SectionPieces(lines, k), ", ", c);
    }
  }

  lemma FallbackAvoids(lines: seq<string>, c: char)
    requires NoneContain(lines, c) && c != ' '
    ensures NoneContain(FallbackTokens(lines), c)
  {
    var first := lines[..Min(40, |lines|)];
    assert NoneContain(first, c);
    JoinAvoids(first, " ", c);
    var pieces := FallbackPieces(lines);
    SplitByAvoids(Join(first, " "), IsTokenSep, c);
    var r := FallbackTokens(lines);
    forall i | 0 <= i < |r| ensures c !in r[i] {
      var k := FallbackToken(lines, r[i]);
      assert c !in pieces[k];
    }
  }

  lemma SkillsAvoid(lines: seq<string>, c: char)
    requires NoneContain(lines, c) && c != ',' && c != ' '
    ensures c !in Skills(lines)
  {
    Tier1Avoids(lines, c);
    FallbackAvoids(lines, c);
    JoinAvoids(FallbackTokens(lines), ", ", c);
  }

  lemma LinesAvoid(normalized: string, c: char)
    requires c !in normalized
    ensures NoneContain(Lines(normalized), c)
  {
    SplitLinesAvoids(normalized, c);
    TrimmedLinesAvoids(SplitLines(normalized), c);
  }

  lemma NameAvoids(lines: seq<string>, c: char)
    requires NoneContain(lines, c)
    ensures c !in ExtractName(lines)
  {
    var head := lines[..Min(10, |lines|)];
    var k := NameIndex(head);
    if k < |head| {
      assert c !in head[k];
      var line := head[k];
      assert c !in line[FirstIndex(line, IsAsciiLetter)..];
    }
  }

  lemma EmailAvoids(t: string, c: char)
    requires c !in t
    ensures c !in EmailPattern.FirstEmail(EmailPattern.Js, t)
  {
    match EmailPattern.Search(EmailPattern.Js, t)
    case Some((s, e)) =>
      if s <= e <= |t| {
        assert c !in t[s..e];
      }
    case None =>
  }

  lemma PhoneAvoids(t: string, c: char)
    requires !IsAsciiDigit(c) && c != '+'
    ensures c !in PhonePattern.JsPhone(t)
  {
    PhonePattern.JsPhoneSpec(t);
  }

  /** The non-breaking spaces replaced at the start appear in no field. */
  lemma NoNbspInFields(text: string)
    ensures var f := Parse(text);
      NBSP !in f.name && NBSP !in f.email && NBSP !in f.phone && NBSP !in f.skills
  {
    var normalized := Normalize(text);
    LinesAvoid(normalized, NBSP);
    NameAvoids(Lines(normalized), NBSP);
    EmailAvoids(normalized, NBSP);
    PhoneAvoids(normalized, NBSP);
    SkillsAvoid(Lines(normalized), NBSP);
  }
}
