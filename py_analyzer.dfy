/**
  The `/analyze` endpoint of python_resume_analyzer/app.py: the upload is
  checked (present, not over 5 MB, named or typed as a PDF, not empty), its
  text is extracted and cleaned, and `parse_fields` runs the four extractors
  on the cleaned text. The text the PDF library would extract is a parameter:
  `None` stands for the library raising.
 */
module PyAnalyzer {
  import opened Wrappers
  import opened Text
  import EmailPattern
  import PhonePattern
  import PyClean
  import PyName
  import PySkills

  /** `5 * 1024 * 1024`, the request and file size limit. */
  const MaxBytes: nat := 5 * 1024 * 1024

  const NoFile := "No file provided"
  const TooLarge := "File too large. Max 5 MB."
  const NotPdf := "Invalid format. Only PDF files are supported."
  const EmptyFile := "Empty file."
  const Unreadable := "Failed to read PDF."

  /** The record `parse_fields` returns; an empty field becomes `None`. */
  datatype Fields = Fields(
    filename: Option<string>, name: Option<string>, email: Option<string>,
    phone: Option<string>, skills: Option<seq<string>>)

  /** What the endpoint sees of a POST request. */
  datatype Upload = Upload(
    hasFile: bool,              // `'file' in request.files`
    contentLength: Option<nat>, // the Content-Length header, if any
    filename: Option<string>,   // `f.filename`
    mimetype: Option<string>,   // `f.mimetype`
    size: nat)                  // the number of bytes `f.read()` gives

  datatype Rejection = Rejection(status: nat, message: string)

  datatype Response =
    | Refused(error: Rejection)
    | Analysis(fields: Fields, rawText: Option<string>)

  /** `extract_email(cleaned)` */
  function ExtractEmail(cleaned: string): string {
    EmailPattern.FirstEmail(EmailPattern.Py, cleaned)
  }

  /** `extract_phone(cleaned)` */
  function ExtractPhone(cleaned: string): string {
    PhonePattern.PyPhone(cleaned)
  }

  /** `s or None` */
  function OrNone(s: string): Option<string> {
    if s == "" then None else Some(s)
  }

  /** `parse_fields(filename, cleaned)` as a function of its inputs. */
  ghost function FieldsOf(filename: Option<string>, cleaned: string): Fields {
    var email := ExtractEmail(cleaned);
    var skills := PySkills.SkillsOf(cleaned);
    Fields(filename, OrNone(PyName.NameOf(cleaned, email)), OrNone(email),
      OrNone(ExtractPhone(cleaned)), if skills == [] then None else Some(skills))
  }

  /** `parse_fields(filename, cleaned)`: the email first, since it is the name's fallback hint. */
  method ParseFields(filename: Option<string>, cleaned: string) returns (f: Fields)
    ensures f == FieldsOf(filename, cleaned)
  {
    var email := ExtractEmail(cleaned);
    var name := PyName.ExtractName(cleaned, email);
    var phone := ExtractPhone(cleaned);
    var skills := PySkills.ExtractSkills(cleaned);
    f := Fields(filename, OrNone(name), OrNone(email), OrNone(phone), if skills == [] then None else Some(skills));
  }

  /** `(x or "").lower()` */
  function LowerOrEmpty(x: Option<string>): string {
    match x
    case Some(s) => Lower(s)
    case None => ""
  }

  /** `s.endswith(".pdf")` */
  predicate EndsWithPdf(s: string) {
    |s| >= 4 && s[|s| - 4..] == ".pdf"
  }

  /** The format test: the lower-cased name ends in ".pdf" or the lower-cased type contains "pdf". */
  predicate LooksLikePdf(u: Upload) {
    EndsWithPdf(LowerOrEmpty(u.filename)) || Contains(LowerOrEmpty(u.mimetype), "pdf")
  }

  /** The checks of `analyze` before extraction, in the order the source makes them. */
  function Check(u: Upload): Option<Rejection> {
    if !u.hasFile then Some(Rejection(400, NoFile))
    // a Content-Length of 0 is falsy and skips the test, as no header does
    else if u.contentLength.Some? && u.contentLength.value > MaxBytes then Some(Rejection(413, TooLarge))
    else if !LooksLikePdf(u) then Some(Rejection(400, NotPdf))
    else if u.size == 0 then Some(Rejection(400, EmptyFile))
    else if u.size > MaxBytes then Some(Rejection(413, TooLarge))
    else None
  }

  /** The response of `analyze` to the upload `u` whose PDF yields the text `extracted`. */
  ghost function AnalysisOf(u: Upload, extracted: Option<string>): Response {
    match Check(u)
    case Some(rejection) => Refused(rejection)
    case None =>
      match extracted
      case None => Refused(Rejection(400, Unreadable))
      case Some(raw) =>
        var cleaned := PyClean.CleanText(raw);
        Analysis(FieldsOf(u.filename, cleaned), OrNone(cleaned))
  }

  /** `analyze()` for a POST request. */
  method Analyze(u: Upload, extracted: Option<string>) returns (r: Response)
    ensures r == AnalysisOf(u, extracted)
  {
    var rejection := Check(u);
    if rejection.Some? {
      return Refused(rejection.value);
    }
    if extracted.None? {
      return Refused(Rejection(400, Unreadable));
    }
    var cleaned := PyClean.CleanText(extracted.value);
    var fields := ParseFields(u.filename, cleaned);
    r := Analysis(fields, OrNone(cleaned));
  }

  // ---------------------------------------------------------------- properties

  /**
    An upload passes the checks exactly when a file is present, the declared
    length (if any) is within the limit, it is named or typed as a PDF, and it
    holds between 1 and 5 MB of bytes.
   */
  lemma CheckAccepts(u: Upload)
    ensures Check(u).None? <==>
      && u.hasFile
      && (u.contentLength.None? || u.contentLength.value <= MaxBytes)
      && LooksLikePdf(u)
      && 0 < u.size <= MaxBytes
  {
  }

  /**
    Every refusal is a 400 or a 413, and a 413 is always the size message:
    a request is refused as too large exactly when its file is present and
    its declared or actual size exceeds 5 MB before any other test fails.
   */
  lemma CheckStatus(u: Upload)
    ensures Check(u).Some? ==> Check(u).value.status in {400, 413}
    ensures Check(u).Some? ==> (Check(u).value.status == 413 <==> Check(u).value.message == TooLarge)
    ensures Check(u).Some? && Check(u).value.status == 413 ==>
      u.hasFile && ((u.contentLength.Some? && u.contentLength.value > MaxBytes) || u.size > MaxBytes)
  {
  }

  /** Either spelling of the extension, in any case, passes the format test whatever the type. */
  lemma UpperCaseExtension(name: string, u: Upload)
    requires |name| >= 4 && Lower(name[|name| - 4..]) == ".pdf"
    requires u.filename == Some(name)
    ensures LooksLikePdf(u)
  {
    LowerSuffix(name, |name| - 4);
  }

  /** Lower-casing commutes with taking a suffix. */
  lemma {:induction false} LowerSuffix(s: string, k: nat)
    requires k <= |s|
    ensures Lower(s)[k..] == Lower(s[k..])
    decreases k
  {
    if k > 0 {
      LowerSuffix(s[1..], k - 1);
      assert s[1..][k - 1..] == s[k..];
    }
  }

  /**
    An analysis is returned exactly when the checks pass and the text can be
    read; its fields are those of the cleaned text, under the uploaded name,
    and the text is absent exactly when the PDF holds only whitespace.
   */
  lemma AnalysisSpec(u: Upload, extracted: Option<string>)
    ensures AnalysisOf(u, extracted).Analysis? <==> Check(u).None? && extracted.Some?
    ensures AnalysisOf(u, extracted).Analysis? ==>
      var cleaned := PyClean.CleanText(extracted.value);
      && AnalysisOf(u, extracted).fields == FieldsOf(u.filename, cleaned)
      && AnalysisOf(u, extracted).fields.filename == u.filename
      && (AnalysisOf(u, extracted).rawText.None? <==> AllChars(extracted.value, IsPySpace))
  {
    if Check(u).None? && extracted.Some? {
      PyClean.CleanTextSpec(extracted.value);
    }
  }

  /**
    The email field is present exactly when the text holds a match of the
    pattern, and is then an address: one '@', a dot and a top-level part of
    two or more word characters.
   */
  lemma FieldsEmail(filename: Option<string>, cleaned: string)
    ensures var f := FieldsOf(filename, cleaned);
      && (f.email.None? <==> forall s: nat, e: nat :: !EmailPattern.IsMatch(EmailPattern.Py, cleaned, s, e))
      && (f.email.Some? ==> EmailPattern.IsEmailText(EmailPattern.Py, f.email.value))
  {
    EmailPattern.FirstEmailSpec(EmailPattern.Py, cleaned);
  }

  /**
    The name field never holds the email address; and when the text has no
    email, a name can only be one of its first 30 nonblank lines that passes
    the name test.
   */
  lemma FieldsName(filename: Option<string>, cleaned: string)
    ensures var f := FieldsOf(filename, cleaned);
      && (f.name.Some? ==> '@' !in f.name.value && f.name != f.email)
      && (f.name.Some? && f.email.None? ==>
        exists k :: 0 <= k < |PyName.ScannedLines(cleaned)| &&
          f.name.value == PyName.ScannedLines(cleaned)[k] && PyName.IsNameLine(f.name.value))
  {
    var email := ExtractEmail(cleaned);
    PyName.NameHasNoAt(cleaned, email);
    if email != "" {
      EmailPattern.FirstEmailSpec(EmailPattern.Py, cleaned);
      var w := email;
      var a: nat, j: nat :| 0 < a < |w| && w[a] == '@';
      assert '@' in w;
    } else {
      PyName.NameWithoutHint(cleaned);
    }
  }

  /** A phone field holds 10 to 13 digits, with at most a leading '+' besides. */
  lemma FieldsPhone(filename: Option<string>, cleaned: string)
    ensures var f := FieldsOf(filename, cleaned);
      && (f.phone.None? <==> forall q :: 0 <= q <= |cleaned| ==> PhonePattern.PyPhoneAt(cleaned, q).None?)
      && (f.phone.Some? ==> PhonePattern.IsPhoneText(f.phone.value) && 10 <= DigitCount(f.phone.value) <= 13)
  {
    PhonePattern.PyPhoneSpec(cleaned);
  }

  /**
    The skills field is absent exactly when no dictionary skill occurs in the
    text; otherwise it lists at most one entry per dictionary skill.
   */
  lemma FieldsSkills(filename: Option<string>, cleaned: string)
    ensures var f := FieldsOf(filename, cleaned);
      && (f.skills.None? <==>
        forall i :: 0 <= i < |PySkills.Skills| ==> !PySkills.SkillFound(Lower(cleaned), Lower(PySkills.Skills[i])))
      && (f.skills.Some? ==> 0 < |f.skills.value| <= |PySkills.Skills|)
  {
    PySkills.SkillsFromEmpty(cleaned, PySkills.Skills);
    PySkills.SkillsFromSize(cleaned, PySkills.Skills);
  }
}
