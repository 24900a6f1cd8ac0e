/**
  `clean_text` of python_resume_analyzer/app.py: the normalisation every
  extracted PDF text goes through before the field heuristics see it. Line
  breaks become '\n', tab runs become one space, every line has its space runs
  squeezed and is stripped, runs of three or more line breaks become two, and
  the whole text is stripped. The UTF-8 round trip with `errors="ignore"` is
  the identity on Dafny strings, which hold no lone surrogates.
 */
module PyClean {
  import opened Text

  predicate IsCr(c: char) { c == '\r' }

  predicate IsTab(c: char) { c == '\t' }

  predicate IsSpaceChar(c: char) { c == ' ' }

  /** What survives every whitespace rewrite: the characters that are not Python whitespace. */
  predicate IsPyVisible(c: char) { !IsPySpace(c) }

  // ------------------------------------------------------------- line breaks

  /** `replace("\r\n", "\n")`, scanning left to right. */
  function ReplaceCrLf(s: string): (r: string)
    ensures |r| <= |s|
    decreases |s|
  {
    if |s| == 0 then []
    else if |s| >= 2 && s[0] == '\r' && s[1] == '\n' then "\n" + ReplaceCrLf(s[2..])
    else [s[0]] + ReplaceCrLf(s[1..])
  }

  /** `replace("\r", "\n")` */
  function CrToLf(s: string): (r: string)
    ensures |r| == |s|
    ensures forall i :: 0 <= i < |s| ==> r[i] == if s[i] == '\r' then '\n' else s[i]
  {
    if |s| == 0 then [] else [if s[0] == '\r' then '\n' else s[0]] + CrToLf(s[1..])
  }

  lemma {:induction false} ReplaceCrLfIdentity(s: string)
    requires forall i :: 0 <= i < |s| ==> s[i] != '\r'
    ensures ReplaceCrLf(s) == s
  {
    if |s| > 0 {
      ReplaceCrLfIdentity(s[1..]);
    }
  }

  lemma {:induction false} ReplaceCrLfKeeps(s: string)
    ensures Filter(ReplaceCrLf(s), IsPyVisible) == Filter(s, IsPyVisible)
    decreases |s|
  {
    if |s| >= 2 && s[0] == '\r' && s[1] == '\n' {
      ReplaceCrLfKeeps(s[2..]);
      FilterNone("\n", IsPyVisible);
      FilterDropFront("\n", ReplaceCrLf(s[2..]), IsPyVisible);
      FilterSkip(s, 2, IsPyVisible);
    } else if |s| > 0 {
      ReplaceCrLfKeeps(s[1..]);
      FilterCons(s[0], ReplaceCrLf(s[1..]), IsPyVisible);
    }
  }

  lemma {:induction false} CrToLfKeeps(s: string)
    ensures Filter(CrToLf(s), IsPyVisible) == Filter(s, IsPyVisible)
  {
    if |s| > 0 {
      CrToLfKeeps(s[1..]);
      assert CrToLf(s)[1..] == CrToLf(s[1..]);
    }
  }

  // ------------------------------------------------------------ squeezing runs

  /**
    Every maximal run of characters in the class `inRun` becomes the one
    character `rep`: `re.sub(r"\t+", " ", s)` and `re.sub(r"[ ]+", " ", s)`.
   */
  function SqueezeRuns(s: string, inRun: char -> bool, rep: char): (r: string)
    ensures |r| <= |s|
    ensures |s| > 0 ==> |r| > 0 && r[0] == (if inRun(s[0]) then rep else s[0])
    ensures forall i :: 0 <= i < |r| && inRun(r[i]) ==> r[i] == rep
    ensures forall i :: 0 < i < |r| && inRun(r[i - 1]) ==> !inRun(r[i])
    decreases |s|
  {
    if |s| == 0 then []
    else if inRun(s[0]) then
      var n := LeadCount(s, inRun);
      [rep] + SqueezeRuns(s[n..], inRun, rep)
    else [s[0]] + SqueezeRuns(s[1..], inRun, rep)
  }

  /** Text whose runs are already single `rep` characters is left as it is. */
  lemma {:induction false} SqueezeIdentity(s: string, inRun: char -> bool, rep: char)
    requires forall i :: 0 <= i < |s| && inRun(s[i]) ==> s[i] == rep && (i + 1 == |s| || !inRun(s[i + 1]))
    ensures SqueezeRuns(s, inRun, rep) == s
    decreases |s|
  {
    if |s| > 0 {
      SqueezeIdentity(s[1..], inRun, rep);
      if inRun(s[0]) {
        assert LeadCount(s, inRun) == 1;
      }
    }
  }

  /** Squeezing whitespace into whitespace keeps every visible character, in order. */
  lemma {:induction false} SqueezeKeeps(s: string, inRun: char -> bool, rep: char)
    requires forall c :: inRun(c) ==> IsPySpace(c)
    requires IsPySpace(rep)
    ensures Filter(SqueezeRuns(s, inRun, rep), IsPyVisible) == Filter(s, IsPyVisible)
    decreases |s|
  {
    if |s| > 0 {
      var n := if inRun(s[0]) then LeadCount(s, inRun) else 1;
      var head := if inRun(s[0]) then [rep] else [s[0]];
      SqueezeKeeps(s[n..], inRun, rep);
      FilterConcat(head, SqueezeRuns(s[n..], inRun, rep), IsPyVisible);
      TakeDrop(s, n);
      FilterConcat(s[..n], s[n..], IsPyVisible);
      if inRun(s[0]) {
        FilterNone(s[..n], IsPyVisible);
      } else {
        assert s[..n] == head;
      }
    }
  }

  /** Squeezing never brings in a character outside a class that holds `rep`. */
  lemma {:induction false} SqueezeAllChars(s: string, inRun: char -> bool, rep: char, p: char -> bool)
    requires AllChars(s, p) && p(rep)
    ensures AllChars(SqueezeRuns(s, inRun, rep), p)
    decreases |s|
  {
    if |s| > 0 {
      var n := if inRun(s[0]) then LeadCount(s, inRun) else 1;
      assert AllChars(s[n..], p);
      SqueezeAllChars(s[n..], inRun, rep, p);
    }
  }

  // ----------------------------------------------------------------- the shape

  predicate IsCleanChar(c: char) { c != '\r' && c != '\t' }

  /** No two spaces in a row, and no whitespace other than '\n' beside a '\n'. */
  predicate CleanPair(a: char, b: char) {
    && !(a == ' ' && b == ' ')
    && (a == '\n' && b != '\n' ==> !IsPySpace(b))
    && (b == '\n' && a != '\n' ==> !IsPySpace(a))
  }

  /** What `clean_text` leaves, locally: neither '\r' nor tab, and only clean neighbours. */
  predicate CleanShape(s: string) {
    AllChars(s, IsCleanChar) && forall i :: 0 < i < |s| ==> CleanPair(s[i - 1], s[i])
  }

  /** The text ends on either side in a line break or in a visible character. */
  predicate EndsOk(s: string) {
    |s| > 0 ==> (s[0] == '\n' || !IsPySpace(s[0])) && (s[|s| - 1] == '\n' || !IsPySpace(s[|s| - 1]))
  }

  /** No three line breaks in a row. */
  predicate NoBlankRun(s: string) {
    forall i :: 1 < i < |s| ==> !(s[i - 2] == '\n' && s[i - 1] == '\n' && s[i] == '\n')
  }

  lemma ShapeSlice(s: string, a: nat, b: nat)
    requires CleanShape(s) && a <= b <= |s|
    ensures CleanShape(s[a..b])
  {
    var t := s[a..b];
    assert forall i :: 0 <= i < |t| ==> t[i] == s[a + i];
  }

  lemma ShapeConcat(a: string, b: string)
    requires CleanShape(a) && CleanShape(b)
    requires |a| > 0 && |b| > 0 ==> CleanPair(a[|a| - 1], b[0])
    ensures CleanShape(a + b)
  {
    var t := a + b;
    forall i | 0 < i < |t| ensures CleanPair(t[i - 1], t[i]) {
      if i < |a| {
        assert t[i - 1] == a[i - 1] && t[i] == a[i];
      } else if i == |a| {
        assert t[i - 1] == a[|a| - 1] && t[i] == b[0];
      } else {
        assert t[i - 1] == b[i - 1 - |a|] && t[i] == b[i - |a|];
      }
    }
  }

  // ------------------------------------------------------------------- lines

  /** One line: `re.sub(r"[ ]+", " ", line).strip()`. */
  function CleanLine(line: string): (r: string)
    ensures IsPyStripped(r)
  {
    PyStrip(SqueezeRuns(line, IsSpaceChar, ' '))
  }

  /** `"\n".join(<clean line> for line in txt.split("\n"))` */
  function CleanLines(s: string): string {
    Join(Map(SplitBy(s, IsLf), CleanLine), "\n")
  }

  /** `CleanLines` takes the text apart at its first line break `i`. */
  lemma CleanLinesUnfold(s: string, i: nat)
    requires i == FirstIndex(s, IsLf)
    ensures i == |s| ==> CleanLines(s) == CleanLine(s)
    ensures i < |s| ==> CleanLines(s) == CleanLine(s[..i]) + "\n" + CleanLines(s[i + 1..])
  {
    if i < |s| {
      var rest := SplitBy(s[i + 1..], IsLf);
      var lines := SplitBy(s, IsLf);
      SplitByFirst(s, IsLf, i);
      assert lines[1..] == rest;
      var cleaned := Map(lines, CleanLine);
      assert cleaned == [CleanLine(s[..i])] + Map(rest, CleanLine);
      assert cleaned[1..] == Map(rest, CleanLine);
    }
  }

  /** Squeezing the spaces of a line without '\r', tab or line break leaves it clean-shaped. */
  lemma SqueezedLineShape(line: string)
    requires AllChars(line, IsCleanChar) && forall k :: 0 <= k < |line| ==> line[k] != '\n'
    ensures CleanShape(SqueezeRuns(line, IsSpaceChar, ' '))
  {
    var q := SqueezeRuns(line, IsSpaceChar, ' ');
    SqueezeAllChars(line, IsSpaceChar, ' ', IsCleanChar);
    SqueezeAllChars(line, IsSpaceChar, ' ', c => c != '\n');
    assert forall i :: 0 <= i < |q| ==> q[i] != '\n';
  }

  /** Stripping keeps the clean shape. */
  lemma StripKeepsShape(s: string)
    requires CleanShape(s)
    ensures CleanShape(PyStrip(s))
  {
    TrimSlice(s, IsPySpace);
    ShapeSlice(s, LeadCount(s, IsPySpace), LeadCount(s, IsPySpace) + |PyStrip(s)|);
  }

  /** A clean line of a text without '\r' or tab is clean-shaped and stripped. */
  lemma CleanLineShape(line: string)
    requires AllChars(line, IsCleanChar) && forall k :: 0 <= k < |line| ==> line[k] != '\n'
    ensures CleanShape(CleanLine(line)) && IsPyStripped(CleanLine(line))
  {
    SqueezedLineShape(line);
    StripKeepsShape(SqueezeRuns(line, IsSpaceChar, ' '));
  }

  /** A stripped clean line, a line break and clean text with clean ends make clean text with clean ends. */
  lemma BreakShape(head: string, rest: string)
    requires CleanShape(head) && IsPyStripped(head) && CleanShape(rest) && EndsOk(rest)
    ensures CleanShape(head + "\n" + rest) && EndsOk(head + "\n" + rest)
  {
    ShapeConcat(head, "\n");
    ShapeConcat(head + "\n", rest);
  }

  /** The first line of clean-shaped text with clean ends is stripped. */
  lemma FirstLine(s: string, i: nat)
    requires CleanShape(s) && EndsOk(s) && i == FirstIndex(s, IsLf)
    ensures CleanShape(s[..i]) && IsPyStripped(s[..i])
  {
    var line := s[..i];
    ShapeSlice(s, 0, i);
    if line != [] && i < |s| {
      assert CleanPair(s[i - 1], s[i]);
    }
  }

  /** After the first line break, the text is still clean-shaped with clean ends. */
  lemma AfterFirstLine(s: string, i: nat)
    requires CleanShape(s) && EndsOk(s) && i == FirstIndex(s, IsLf) && i < |s|
    ensures CleanShape(s[i + 1..]) && EndsOk(s[i + 1..])
  {
    ShapeSlice(s, i + 1, |s|);
    if |s| > i + 1 {
      assert CleanPair(s[i], s[i + 1]);
    }
  }

  lemma CleanLineKeeps(line: string)
    ensures Filter(CleanLine(line), IsPyVisible) == Filter(line, IsPyVisible)
  {
    SqueezeKeeps(line, IsSpaceChar, ' ');
    FilterTrim(SqueezeRuns(line, IsSpaceChar, ' '), IsPySpace, IsPyVisible);
  }

  lemma CleanLineIdentity(line: string)
    requires CleanShape(line) && IsPyStripped(line)
    ensures CleanLine(line) == line
  {
    SqueezeIdentity(line, IsSpaceChar, ' ');
  }

  /** A line break between two pieces contributes nothing visible. */
  lemma BreakKeeps(a: string, b: string)
    ensures Filter(a + "\n" + b, IsPyVisible) == Filter(a, IsPyVisible) + Filter(b, IsPyVisible)
  {
    FilterNone("\n", IsPyVisible);
    FilterAround(a, "\n", b, IsPyVisible);
  }

  lemma {:induction false} CleanLinesShape(s: string)
    requires AllChars(s, IsCleanChar)
    ensures CleanShape(CleanLines(s)) && EndsOk(CleanLines(s))
    decreases |s|
  {
    var i := FirstIndex(s, IsLf);
    CleanLinesUnfold(s, i);
    CleanLineShape(s[..i]);
    if i < |s| {
      var head := CleanLine(s[..i]);
      var rest := CleanLines(s[i + 1..]);
      assert AllChars(s[i + 1..], IsCleanChar);
      CleanLinesShape(s[i + 1..]);
      BreakShape(head, rest);
    } else {
      assert s[..i] == s;
    }
  }

  lemma {:induction false} CleanLinesKeeps(s: string)
    ensures Filter(CleanLines(s), IsPyVisible) == Filter(s, IsPyVisible)
    decreases |s|
  {
    var i := FirstIndex(s, IsLf);
    CleanLinesUnfold(s, i);
    CleanLineKeeps(s[..i]);
    if i < |s| {
      CleanLinesKeeps(s[i + 1..]);
      BreakKeeps(CleanLine(s[..i]), CleanLines(s[i + 1..]));
      SliceAround(s, i);
      BreakKeeps(s[..i], s[i + 1..]);
    } else {
      assert s[..i] == s;
    }
  }

  /** Text already in clean shape comes back from the line pass unchanged. */
  lemma {:induction false} CleanLinesIdentity(s: string)
    requires CleanShape(s) && EndsOk(s)
    ensures CleanLines(s) == s
    decreases |s|
  {
    var i := FirstIndex(s, IsLf);
    CleanLinesUnfold(s, i);
    FirstLine(s, i);
    CleanLineIdentity(s[..i]);
    if i < |s| {
      AfterFirstLine(s, i);
      CleanLinesIdentity(s[i + 1..]);
      SliceAround(s, i);
    } else {
      assert s[..i] == s;
    }
  }

  /** Every line, as `split("\n")` cuts it, of a clean-shaped text with clean ends is stripped. */
  lemma {:induction false} LinesStripped(s: string)
    requires CleanShape(s) && EndsOk(s)
    ensures forall k :: 0 <= k < |SplitBy(s, IsLf)| ==> IsPyStripped(SplitBy(s, IsLf)[k])
    decreases |s|
  {
    var i := FirstIndex(s, IsLf);
    FirstLine(s, i);
    if i < |s| {
      AfterFirstLine(s, i);
      LinesStripped(s[i + 1..]);
      SplitByFirst(s, IsLf, i);
    } else {
      assert s[..i] == s;
    }
  }

  // ------------------------------------------------------------ blank lines

  /** Where the first piece of nonempty text ends: after its run of line breaks, or after its first character. */
  function PieceEnd(s: string): (n: nat)
    requires |s| > 0
    ensures 0 < n <= |s|
    ensures s[0] == '\n' ==> (forall k :: 0 <= k < n ==> s[k] == '\n') && (n < |s| ==> s[n] != '\n')
    ensures s[0] != '\n' ==> n == 1
  {
    if s[0] == '\n' then LeadCount(s, IsLf) else 1
  }

  /** What the first piece becomes: a run of three or more line breaks is cut to two. */
  function PieceImage(s: string): (r: string)
    requires |s| > 0
  {
    if s[0] == '\n' && PieceEnd(s) >= 3 then "\n\n" else s[..PieceEnd(s)]
  }

  /** `re.sub(r"\n{3,}", "\n\n", s)` */
  function LimitBreaks(s: string): (r: string)
    ensures |r| <= |s|
    ensures |s| > 0 ==> |r| > 0 && r[0] == s[0]
    decreases |s|
  {
    if |s| == 0 then [] else PieceImage(s) + LimitBreaks(s[PieceEnd(s)..])
  }

  lemma {:induction false} LimitNoBlankRun(s: string)
    ensures NoBlankRun(LimitBreaks(s))
    decreases |s|
  {
    if |s| > 0 {
      var n := PieceEnd(s);
      var head := PieceImage(s);
      var rest := LimitBreaks(s[n..]);
      LimitNoBlankRun(s[n..]);
      var r := head + rest;
      assert s[0] == '\n' ==> |head| <= 2 && forall k :: 0 <= k < |head| ==> head[k] == '\n';
      assert s[0] != '\n' ==> head == [s[0]];
      assert |rest| > 0 ==> rest[0] == s[n];
      assert forall j :: |head| <= j < |r| ==> r[j] == rest[j - |head|];
    }
  }

  lemma {:induction false} LimitIdentity(s: string)
    requires NoBlankRun(s)
    ensures LimitBreaks(s) == s
    decreases |s|
  {
    if |s| > 0 {
      var n := PieceEnd(s);
      assert 2 < |s| ==> !(s[0] == '\n' && s[1] == '\n' && s[2] == '\n');
      assert PieceImage(s) == s[..n];
      assert NoBlankRun(s[n..]) by {
        assert forall i :: 0 <= i < |s| - n ==> s[n..][i] == s[n + i];
      }
      LimitIdentity(s[n..]);
      TakeDrop(s, n);
    }
  }

  lemma PieceKeeps(s: string)
    requires |s| > 0
    ensures Filter(PieceImage(s), IsPyVisible) == Filter(s[..PieceEnd(s)], IsPyVisible)
  {
    if s[0] == '\n' {
      FilterNone(s[..PieceEnd(s)], IsPyVisible);
      FilterNone(PieceImage(s), IsPyVisible);
    }
  }

  lemma {:induction false} LimitKeeps(s: string)
    ensures Filter(LimitBreaks(s), IsPyVisible) == Filter(s, IsPyVisible)
    decreases |s|
  {
    if |s| > 0 {
      var n := PieceEnd(s);
      LimitKeeps(s[n..]);
      PieceKeeps(s);
      FilterConcat(PieceImage(s), LimitBreaks(s[n..]), IsPyVisible);
      TakeDrop(s, n);
      FilterConcat(s[..n], s[n..], IsPyVisible);
    }
  }

  lemma PieceShape(s: string)
    requires |s| > 0 && CleanShape(s)
    ensures CleanShape(PieceImage(s))
    ensures PieceEnd(s) < |s| ==> CleanPair(PieceImage(s)[|PieceImage(s)| - 1], s[PieceEnd(s)])
  {
    var n := PieceEnd(s);
    ShapeSlice(s, 0, n);
    if n < |s| {
      assert CleanPair(s[n - 1], s[n]);
    }
  }

  lemma {:induction false} LimitShape(s: string)
    requires CleanShape(s)
    ensures CleanShape(LimitBreaks(s))
    decreases |s|
  {
    if |s| > 0 {
      var n := PieceEnd(s);
      PieceShape(s);
      ShapeSlice(s, n, |s|);
      LimitShape(s[n..]);
      ShapeConcat(PieceImage(s), LimitBreaks(s[n..]));
    }
  }

  // ------------------------------------------------------------------ clean_text

  /** `clean_text(raw)` */
  function CleanText(raw: string): string {
    if raw == "" then ""
    else
      var unified := CrToLf(ReplaceCrLf(raw));
      var untabbed := SqueezeRuns(unified, IsTab, ' ');
      var lined := CleanLines(untabbed);
      PyStrip(LimitBreaks(lined))
  }

  /**
    What `clean_text` promises: neither '\r' nor tab is left, no two spaces
    stand together, no three line breaks, the text and each of its lines are
    stripped, and exactly the visible characters of the input remain, in
    order; so the result is empty exactly when the input is all whitespace.
   */
  lemma CleanTextSpec(raw: string)
    ensures var r := CleanText(raw);
      && AllChars(r, IsCleanChar)
      && (forall i :: 0 < i < |r| ==> !(r[i - 1] == ' ' && r[i] == ' '))
      && NoBlankRun(r)
      && IsPyStripped(r)
      && (forall k :: 0 <= k < |SplitBy(r, IsLf)| ==> IsPyStripped(SplitBy(r, IsLf)[k]))
      && Filter(r, IsPyVisible) == Filter(raw, IsPyVisible)
      && (r == "" <==> AllChars(raw, IsPySpace))
  {
    var r := CleanText(raw);
    CleanTextShape(raw);
    CleanTextKeeps(raw);
    LinesStripped(r);
    FilterEmptyIff(r, IsPyVisible);
    FilterEmptyIff(raw, IsPyVisible);
  }

  lemma StripNoBlankRun(s: string)
    requires NoBlankRun(s)
    ensures NoBlankRun(PyStrip(s))
  {
    TrimSlice(s, IsPySpace);
    var a := LeadCount(s, IsPySpace);
    var r := PyStrip(s);
    assert forall i :: 0 <= i < |r| ==> r[i] == s[a + i];
  }

  lemma CleanTextShape(raw: string)
    ensures CleanShape(CleanText(raw)) && NoBlankRun(CleanText(raw)) && IsPyStripped(CleanText(raw))
  {
    if raw != "" {
      var unified := CrToLf(ReplaceCrLf(raw));
      var untabbed := SqueezeRuns(unified, IsTab, ' ');
      SqueezeAllChars(unified, IsTab, ' ', c => c != '\r');
      assert AllChars(untabbed, IsCleanChar);
      var lined := CleanLines(untabbed);
      CleanLinesShape(untabbed);
      var limited := LimitBreaks(lined);
      LimitShape(lined);
      LimitNoBlankRun(lined);
      StripKeepsShape(limited);
      StripNoBlankRun(limited);
    }
  }

  lemma CleanTextKeeps(raw: string)
    ensures Filter(CleanText(raw), IsPyVisible) == Filter(raw, IsPyVisible)
  {
    if raw != "" {
      ReplaceCrLfKeeps(raw);
      var unified := CrToLf(ReplaceCrLf(raw));
      CrToLfKeeps(ReplaceCrLf(raw));
      SqueezeKeeps(unified, IsTab, ' ');
      var untabbed := SqueezeRuns(unified, IsTab, ' ');
      CleanLinesKeeps(untabbed);
      LimitKeeps(CleanLines(untabbed));
      FilterTrim(LimitBreaks(CleanLines(untabbed)), IsPySpace, IsPyVisible);
    }
  }

  /** Cleaning cleaned text changes nothing. */
  lemma CleanTextIdempotent(raw: string)
    ensures CleanText(CleanText(raw)) == CleanText(raw)
  {
    var r := CleanText(raw);
    if r != "" {
      CleanTextShape(raw);
      ReplaceCrLfIdentity(r);
      assert CrToLf(r) == r;
      SqueezeIdentity(r, IsTab, ' ');
      assert EndsOk(r);
      CleanLinesIdentity(r);
      LimitIdentity(r);
    }
  }
}
