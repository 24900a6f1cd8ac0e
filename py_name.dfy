/**
  `extract_name` of python_resume_analyzer/app.py: the first of the first 30
  nonblank lines of the cleaned text that looks like a person's name, or else
  a name built from the local part of the email address found in the text.
 */
module PyName {
  import opened Wrappers
  import opened Text
  import PyClean

  const MaxScannedLines := 30
  const MaxNameLength := 60

  /** The set `label_words`; a line containing any of them, lower-cased, is not a name. */
  const LabelWords: seq<string> := [
    "resume", "curriculum", "vitae", "cv", "contact", "email", "phone", "mobile", "address",
    "skills", "experience", "education", "summary", "objective", "projects", "certifications"]

  predicate IsAt(c: char) { c == '@' }

  predicate IsNonEmpty(s: string) { s != "" }

  /**
    `re.split(pattern, s)` for a pattern matching one or more characters of
    the class `isSep`: the pieces between maximal runs of the class.
   */
  function SplitRuns(s: string, isSep: char -> bool): (r: seq<string>)
    ensures |r| >= 1
    ensures forall i, k :: 0 <= i < |r| && 0 <= k < |r[i]| ==> !isSep(r[i][k])
    decreases |s|
  {
    var i := FirstIndex(s, isSep);
    if i == |s| then [s]
    else
      var n := LeadCount(s[i..], isSep);
      [s[..i]] + SplitRuns(s[i + n..], isSep)
  }

  /** `s.split()`: the runs of non-whitespace characters. */
  function PyWords(s: string): seq<string> {
    FilterSeq(SplitRuns(s, IsPySpace), IsNonEmpty)
  }

  // ------------------------------------------------------------ the name line

  /** `[l.strip() for l in cleaned.split("\n") if l.strip()]` */
  function NonBlankLines(cleaned: string): seq<string> {
    FilterSeq(Map(SplitBy(cleaned, IsLf), PyStrip), IsNonEmpty)
  }

  /** `lines[:30]` */
  function ScannedLines(cleaned: string): seq<string> {
    var lines := NonBlankLines(cleaned);
    lines[..Min(MaxScannedLines, |lines|)]
  }

  /** `any(w in low for w in ("@", "linkedin", "github", "www."))` */
  predicate HasMarker(low: string) {
    Contains(low, "@") || Contains(low, "linkedin") || Contains(low, "github") || Contains(low, "www.")
  }

  /** `any(lbl in low for lbl in label_words)` */
  predicate HasLabel(low: string) {
    exists i | 0 <= i < |LabelWords| :: Contains(low, LabelWords[i])
  }

  /** The middle class of the pattern: ASCII letters, '.', '\'', '-' and `\s`. */
  predicate IsNameChar(c: char) {
    IsAsciiLetter(c) || c == '.' || c == '\'' || c == '-' || IsPySpace(c)
  }

  /** `re.fullmatch(r"[A-Za-z][A-Za-z\.'\-\s]*[A-Za-z]", line)` */
  predicate FullNameShape(line: string) {
    && |line| >= 2 && IsAsciiLetter(line[0]) && IsAsciiLetter(line[|line| - 1])
    && forall k :: 0 < k < |line| - 1 ==> IsNameChar(line[k])
  }

  /** `len(re.sub(r"[^A-Za-z]", "", w)) >= 2` */
  predicate HasTwoLetters(w: string) { CountWhere(w, IsAsciiLetter) >= 2 }

  /** The number of words of the line with at least two letters. */
  function LetterWordCount(line: string): nat {
    |FilterSeq(PyWords(line), HasTwoLetters)|
  }

  /** `re.search(r"\d", line)` */
  predicate HasDigit(line: string) { SomeChar(line, IsAsciiDigit) }

  /** Whether the loop of lines 55-65 returns this line. */
  predicate IsNameLine(line: string) {
    var low := Lower(line);
    && !HasMarker(low)
    && !HasLabel(low)
    && |line| <= MaxNameLength
    && FullNameShape(line)
    && LetterWordCount(line) >= 2
    && !HasDigit(line)
  }

  // ------------------------------------------------------------ the fallback

  /** The separator class `[._\-]` of the local part. */
  predicate IsHintSep(c: char) { c == '.' || c == '_' || c == '-' }

  /** `p and p.isalpha()` */
  predicate IsAlphaWord(p: string) { p != "" && AllChars(p, IsAsciiLetter) }

  /** The alphabetic pieces of the text before the first '@' of the hint. */
  function HintParts(hint: string): seq<string> {
    var user := hint[..FirstIndex(hint, IsAt)];
    FilterSeq(SplitRuns(user, IsHintSep), IsAlphaWord)
  }

  /** Lines 66-71: two or three capitalized pieces of the email's local part. */
  function HintName(hint: string): string {
    if hint != "" && '@' in hint then
      var parts := HintParts(hint);
      if |parts| >= 2 then Join(Map(parts[..Min(3, |parts|)], Capitalize), " ") else ""
    else ""
  }

  /** `extract_name(cleaned, email_hint)` as a function of its inputs. */
  function NameOf(cleaned: string, hint: string): string {
    if cleaned == "" then ""
    else
      var head := ScannedLines(cleaned);
      var k := FirstWhere(head, IsNameLine);
      if k < |head| then head[k] else HintName(hint)
  }

  /**
    The loop of lines 55-65 over `lines[:30]`: each line is skipped when it
    carries a contact marker, a section label or more than 60 characters, and
    the first that then matches the name pattern with two words of two
    letters and has no digit is returned.
   */
  method FirstNameLine(head: seq<string>) returns (found: Option<string>)
    ensures found.None? <==> FirstWhere(head, IsNameLine) == |head|
    ensures found.Some? ==> found.value == head[FirstWhere(head, IsNameLine)] && IsNameLine(found.value)
  {
    for i := 0 to |head|
      invariant i <= FirstWhere(head, IsNameLine)
    {
      var line := head[i];
      var low := Lower(line);
      if HasMarker(low) {
        FirstWherePast(head, IsNameLine, i);
        continue;
      }
      if HasLabel(low) {
        FirstWherePast(head, IsNameLine, i);
        continue;
      }
      if |line| > MaxNameLength {
        FirstWherePast(head, IsNameLine, i);
        continue;
      }
      if FullNameShape(line) && LetterWordCount(line) >= 2 {
        if !HasDigit(line) {
          FirstWhereIs(head, IsNameLine, i);
          return Some(line);
        }
      }
      FirstWherePast(head, IsNameLine, i);
    }
    found := None;
  }

  /** `extract_name(cleaned, email_hint)`: the scan of the first 30 nonblank lines, then the fallback on the hint. */
  method ExtractName(cleaned: string, hint: string) returns (name: string)
    ensures name == NameOf(cleaned, hint)
  {
    if cleaned == "" {
      return "";
    }
    var head := ScannedLines(cleaned);
    var found := FirstNameLine(head);
    if found.Some? {
      return found.value;
    }
    name := HintName(hint);
  }

  // ---------------------------------------------------------------- properties

  /**
    A name taken from the text is one of its first 30 nonblank lines, the
    first of them that passes the test; when none passes, the name comes from
    the hint; the name is empty exactly when the text is empty or neither
    source gives one.
   */
  lemma NameOfSpec(cleaned: string, hint: string)
    ensures var head := ScannedLines(cleaned);
      NameOf(cleaned, hint) == "" <==>
        cleaned == "" || ((forall k :: 0 <= k < |head| ==> !IsNameLine(head[k])) && HintName(hint) == "")
    ensures var head := ScannedLines(cleaned);
      cleaned != "" && (exists k :: 0 <= k < |head| && IsNameLine(head[k])) ==>
        exists k :: 0 <= k < |head| && k < MaxScannedLines && NameOf(cleaned, hint) == head[k] &&
          head[k] in NonBlankLines(cleaned) && IsNameLine(head[k]) &&
          forall j :: 0 <= j < k ==> !IsNameLine(head[j])
  {
    var head := ScannedLines(cleaned);
    var k := FirstWhere(head, IsNameLine);
    if cleaned != "" && k < |head| {
      assert head[k] == NonBlankLines(cleaned)[k];
      assert head[k] != "";
    }
  }

  /** What a name line looks like: stripped, at most 60 characters, no '@', no digit, two words at least. */
  lemma NameLineShape(line: string)
    requires IsNameLine(line)
    ensures IsPyStripped(line) && |line| <= MaxNameLength
    ensures '@' !in line
    ensures forall k :: 0 <= k < |line| ==> !IsAsciiDigit(line[k])
    ensures |PyWords(line)| >= 2
  {
    assert forall k :: 0 <= k < |line| ==> IsNameChar(line[k]);
  }

  /**
    The digit test of line 64 never rejects a line: the pattern of line 63
    already admits letters, '.', '\'', '-' and whitespace only.
   */
  lemma DigitTestRedundant(line: string)
    requires FullNameShape(line)
    ensures !HasDigit(line)
  {
    assert forall k :: 0 <= k < |line| ==> IsNameChar(line[k]);
  }

  /** A single stripped nonblank line is the only line scanned. */
  lemma SingleLineScanned(line: string)
    requires line != "" && IsPyStripped(line)
    requires forall k :: 0 <= k < |line| ==> line[k] != '\n'
    ensures ScannedLines(line) == [line]
  {
    assert FirstIndex(line, IsLf) == |line|;
    assert SplitBy(line, IsLf) == [line];
    assert Map([line], PyStrip) == [line];
    assert FilterSeq([line], IsNonEmpty) == [line];
  }

  /** A name line given alone, as the whole text, is found again. */
  lemma NameLineFoundAlone(line: string, hint: string)
    requires IsNameLine(line) && forall k :: 0 <= k < |line| ==> line[k] != '\n'
    ensures NameOf(line, hint) == line
  {
    SingleLineScanned(line);
    FirstWhereIs([line], IsNameLine, 0);
  }

  /**
    The fallback gives a name exactly when the hint has an '@' and its local
    part has two alphabetic pieces; the name is then the first two or three of
    them, capitalized, and splitting it at its spaces gives them back.
   */
  lemma HintNameSpec(hint: string)
    ensures HintName(hint) != "" <==> '@' in hint && |HintParts(hint)| >= 2
    ensures HintName(hint) != "" ==>
      var parts := HintParts(hint);
      SplitBy(HintName(hint), PyClean.IsSpaceChar) == Map(parts[..Min(3, |parts|)], Capitalize)
    ensures forall w :: w in HintParts(hint) ==> IsAlphaWord(w)
  {
    var parts := HintParts(hint);
    if '@' in hint && |parts| >= 2 {
      var words := Map(parts[..Min(3, |parts|)], Capitalize);
      forall i | 0 <= i < |words|
        ensures words[i] != "" && forall k :: 0 <= k < |words[i]| ==> IsAsciiLetter(words[i][k])
      {
        CapitalizeLetters(parts[i]);
      }
      JoinEmpty(words, " ");
      SplitJoin(words, PyClean.IsSpaceChar, ' ');
    }
  }

  predicate IsLetterOrSpace(c: char) { IsAsciiLetter(c) || c == ' ' }

  /** A name built from the hint holds ASCII letters and single spaces only. */
  lemma HintNameLetters(hint: string)
    ensures AllChars(HintName(hint), IsLetterOrSpace)
  {
    var parts := HintParts(hint);
    if hint != "" && '@' in hint && |parts| >= 2 {
      var words := Map(parts[..Min(3, |parts|)], Capitalize);
      HintNameSpec(hint);
      forall i | 0 <= i < |words|
        ensures AllChars(words[i], IsLetterOrSpace)
      {
        CapitalizeLetters(parts[i]);
      }
      JoinAllChars(words, " ", IsLetterOrSpace);
    }
  }

  /**
    Whichever way it is found, a name never contains '@': so the name field
    can never hold the email address, which always does.
   */
  lemma NameHasNoAt(cleaned: string, hint: string)
    ensures '@' !in NameOf(cleaned, hint)
  {
    var head := ScannedLines(cleaned);
    var k := FirstWhere(head, IsNameLine);
    if cleaned != "" && k < |head| {
      NameLineShape(head[k]);
    } else {
      HintNameLetters(hint);
    }
  }

  /** Without an email hint a name can only be a line of the text that passes the test. */
  lemma NameWithoutHint(cleaned: string)
    ensures var name := NameOf(cleaned, "");
      name != "" ==> exists k :: 0 <= k < |ScannedLines(cleaned)| && name == ScannedLines(cleaned)[k] && IsNameLine(name)
  {
    var head := ScannedLines(cleaned);
    var k := FirstWhere(head, IsNameLine);
    if cleaned != "" && k < |head| {
      assert NameOf(cleaned, "") == head[k];
    }
  }

  /** Capitalizing an alphabetic word keeps it alphabetic and nonempty. */
  lemma CapitalizeLetters(w: string)
    requires IsAlphaWord(w)
    ensures Capitalize(w) != "" && forall k :: 0 <= k < |Capitalize(w)| ==> IsAsciiLetter(Capitalize(w)[k])
  {
  }

}
