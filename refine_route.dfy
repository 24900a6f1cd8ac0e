/**
  The refine endpoint of app/api/refine/route.ts: `sanitizeText`, and the
  response `POST` chooses, taken as a function of the request body, of whether
  an API key and the model SDK are available, and of what the model replied.
  The model call itself and the JSON parsing of its reply are inputs here.
 */
module RefineRoute {
  import opened Wrappers
  import opened Text
  import ResumeParser

  // ------------------------------------------------------------- sanitizeText

  /** `[\u0000-\u0008\u000B\u000C\u000E-\u001F\u007F]`: control characters other than tab, LF and CR. */
  predicate IsControl(c: char) {
    ('\U{0000}' <= c <= '\U{0008}') || c == '\U{000B}' || c == '\U{000C}' ||
    ('\U{000E}' <= c <= '\U{001F}') || c == '\U{007F}'
  }

  /** `[\uFFFD\u0093\u0094\u0080-\u009F]`: the replacement character and the C1 controls. */
  predicate IsReplacementOrC1(c: char) {
    c == '\U{FFFD}' || c == '\U{0093}' || c == '\U{0094}' || ('\U{0080}' <= c <= '\U{009F}')
  }

  /** A character one of the three character-class replacements turns into a space. */
  predicate IsScrubbed(c: char) { IsControl(c) || IsReplacementOrC1(c) || IsNbsp(c) }

  predicate NotJsSpace(c: char) { !IsJsSpace(c) }

  /** The characters that survive sanitizing as themselves wherever they stand. */
  predicate IsKept(c: char) { !IsScrubbed(c) && !IsJsSpace(c) }

  /** The three `replace(/[...]/g, " ")` calls, in source order. */
  function Scrub(s: string): (r: string)
    ensures |r| == |s|
    ensures forall i :: 0 <= i < |s| ==> r[i] == if IsScrubbed(s[i]) then ' ' else s[i]
  {
    ReplaceWithSpace(ReplaceWithSpace(ReplaceWithSpace(s, IsControl), IsReplacementOrC1), IsNbsp)
  }

  /** No two neighbouring characters are both whitespace. */
  predicate NoAdjacentSpaces(s: string) {
    forall i :: 0 < i < |s| ==> !IsJsSpace(s[i - 1]) || !IsJsSpace(s[i])
  }

  /**
    `replace(/\s{2,}/g, " ")`: every run of two or more whitespace characters
    becomes one space; a single whitespace character stays as it is.
   */
  function CollapseSpaces(s: string): (r: string)
    ensures |r| <= |s|
    ensures forall c :: c in r ==> c in s || c == ' '
    ensures NoAdjacentSpaces(r)
    ensures r != [] ==> (IsJsSpace(r[0]) <==> IsJsSpace(s[0]))
    decreases |s|
  {
    if |s| == 0 then []
    else if IsJsSpace(s[0]) then
      var n := LeadCount(s, IsJsSpace);
      var rest := CollapseSpaces(s[n..]);
      assert n < |s| ==> !IsJsSpace(s[n]);
      (if n >= 2 then [' '] else [s[0]]) + rest
    else
      [s[0]] + CollapseSpaces(s[1..])
  }

  /** `sanitizeText(input)` */
  function Sanitize(s: string): string {
    JsTrim(CollapseSpaces(Scrub(s)))
  }

  // --------------------------------------------------- what sanitizing keeps

  /** A string with no two neighbouring whitespace characters is left alone by the collapse. */
  lemma {:induction false} CollapseIdentity(s: string)
    requires NoAdjacentSpaces(s)
    ensures CollapseSpaces(s) == s
    decreases |s|
  {
    if |s| > 0 {
      assert NoAdjacentSpaces(s[1..]);
      CollapseIdentity(s[1..]);
      if IsJsSpace(s[0]) {
        assert |s| > 1 ==> !IsJsSpace(s[1]);
        assert LeadCount(s, IsJsSpace) == 1;
      }
      assert s == [s[0]] + s[1..];
    }
  }

  /** The collapse keeps every non-whitespace character, in order. */
  lemma {:induction false} CollapseKeepsText(s: string)
    ensures Filter(CollapseSpaces(s), NotJsSpace) == Filter(s, NotJsSpace)
    decreases |s|
  {
    if |s| > 0 {
      if IsJsSpace(s[0]) {
        var n := LeadCount(s, IsJsSpace);
        CollapseKeepsText(s[n..]);
        CollapseRunStep(s, n);
      } else {
        CollapseKeepsText(s[1..]);
        CollapseCharStep(s);
      }
    }
  }

  /** A leading whitespace run becomes at most one space, which the filter drops like the run. */
  lemma CollapseRunStep(s: string, n: nat)
    requires |s| > 0 && IsJsSpace(s[0]) && n == LeadCount(s, IsJsSpace)
    requires Filter(CollapseSpaces(s[n..]), NotJsSpace) == Filter(s[n..], NotJsSpace)
    ensures Filter(CollapseSpaces(s), NotJsSpace) == Filter(s, NotJsSpace)
  {
    var head := if n >= 2 then [' '] else [s[0]];
    FilterNone(head, NotJsSpace);
    FilterDropFront(head, CollapseSpaces(s[n..]), NotJsSpace);
    FilterSkip(s, n, NotJsSpace);
  }

  /** A leading non-whitespace character is kept by the collapse and by the filter. */
  lemma CollapseCharStep(s: string)
    requires |s| > 0 && !IsJsSpace(s[0])
    requires Filter(CollapseSpaces(s[1..]), NotJsSpace) == Filter(s[1..], NotJsSpace)
    ensures Filter(CollapseSpaces(s), NotJsSpace) == Filter(s, NotJsSpace)
  {
    FilterCons(s[0], CollapseSpaces(s[1..]), NotJsSpace);
    FilterCons(s[0], s[1..], NotJsSpace);
    assert [s[0]] + s[1..] == s;
  }

  /** Trimming removes whitespace only. */
  lemma TrimKeepsText(s: string)
    ensures Filter(JsTrim(s), NotJsSpace) == Filter(s, NotJsSpace)
  {
    FilterTrim(s, IsJsSpace, NotJsSpace);
  }

  /** Scrubbing turns exactly the listed characters into spaces, so the rest of the text is kept. */
  lemma {:induction false} ScrubKeepsText(s: string)
    ensures Filter(Scrub(s), NotJsSpace) == Filter(s, IsKept)
    decreases |s|
  {
    if |s| > 0 {
      ScrubKeepsText(s[1..]);
      var r := Scrub(s);
      assert r[1..] == Scrub(s[1..]);
      assert r == [r[0]] + r[1..];
      assert s == [s[0]] + s[1..];
      FilterConcat([r[0]], r[1..], NotJsSpace);
      FilterConcat([s[0]], s[1..], IsKept);
    }
  }

  /** None of the three replaced classes is left in the output. */
  lemma SanitizeScrubs(s: string)
    ensures forall i :: 0 <= i < |Sanitize(s)| ==> !IsScrubbed(Sanitize(s)[i])
  {
    var b := CollapseSpaces(Scrub(s));
    ScrubbedAway(s);
    assert !IsScrubbed(' ');
    assert forall c :: c in b ==> !IsScrubbed(c);
    var r := JsTrim(b);
    forall i | 0 <= i < |r| ensures !IsScrubbed(r[i]) {
      assert r[i] in b;
    }
  }

  /** After scrubbing, no character of the three classes is left. */
  lemma ScrubbedAway(s: string)
    ensures forall c :: c in Scrub(s) ==> !IsScrubbed(c)
  {
    var a := Scrub(s);
    forall c | c in a ensures !IsScrubbed(c) {
      var j :| 0 <= j < |a| && a[j] == c;
    }
  }

  /** The output has no two neighbouring whitespace characters, none at either end, and is no longer than the input. */
  lemma SanitizeShape(s: string)
    ensures NoAdjacentSpaces(Sanitize(s))
    ensures IsJsTrimmed(Sanitize(s))
    ensures |Sanitize(s)| <= |s|
  {
    var b := CollapseSpaces(Scrub(s));
    var r := JsTrim(b);
    TrimSlice(b, IsJsSpace);
    var n := LeadCount(b, IsJsSpace);
    forall i | 0 < i < |r| ensures !IsJsSpace(r[i - 1]) || !IsJsSpace(r[i]) {
      assert r[i - 1] == b[n + i - 1] && r[i] == b[n + i];
    }
  }

  /** The non-whitespace characters of the output are the input's, in order, less the replaced ones. */
  lemma SanitizeKeepsText(s: string)
    ensures Filter(Sanitize(s), NotJsSpace) == Filter(s, IsKept)
  {
    var a := Scrub(s);
    ScrubKeepsText(s);
    CollapseKeepsText(a);
    TrimKeepsText(CollapseSpaces(a));
  }

  /** Sanitizing twice is sanitizing once. */
  lemma SanitizeIdempotent(s: string)
    ensures Sanitize(Sanitize(s)) == Sanitize(s)
  {
    var t := Sanitize(s);
    SanitizeScrubs(s);
    SanitizeShape(s);
    assert Scrub(t) == t;
    CollapseIdentity(t);
  }

  // ------------------------------------------------------------------- POST

  /** The request body: unreadable JSON, or the two string members, absent or null as `None`. */
  datatype Request = Unreadable | Body(rawText: Option<string>, filename: Option<string>)

  /** Whether `GROQ_API_KEY` is set and the `groq-sdk` import succeeds. */
  datatype Env = Env(hasApiKey: bool, sdkAvailable: bool)

  /** The string members the handler reads from the parsed reply. */
  datatype AiRecord = AiRecord(
    name: Option<string>, email: Option<string>, phone: Option<string>, skills: Option<string>,
    cleaned_text: Option<string>, cleanedText: Option<string>)

  /**
    How the model call ended: it threw; the reply had no content (parsed as
    "{}"); the content was not JSON; it was JSON `null`; some other JSON value
    that is not an object; or an object.
   */
  datatype AiReply = CallFailed | NoContent | Unparseable | JsonNull | JsonOther | JsonObject(record: AiRecord)

  /** What `POST` answers: an error with its status, or the refined record (status 200). */
  datatype Response =
    | Failure(status: nat, error: string)
    | Refined(filename: string, name: string, email: string, phone: string, skills: string,
              rawText: string, cleanedText: string)

  const NoFields := AiRecord(None, None, None, None, None, None)

  /** JavaScript truthiness of an optional string. */
  predicate Truthy(v: Option<string>) { v.Some? && v.value != "" }

  /** `v || fallback` */
  function Or(v: Option<string>, fallback: string): string {
    if Truthy(v) then v.value else fallback
  }

  /** The heuristic record with the sanitized text as both texts (lines 53 and 64). */
  function HeuristicOnly(filename: string, h: ResumeParser.Fields, rawText: string): Response {
    Refined(filename, h.name, h.email, h.phone, h.skills, rawText, rawText)
  }

  /** The merge of lines 88-96. */
  function Merge(filename: string, ai: AiRecord, h: ResumeParser.Fields, rawText: string): Response {
    Refined(filename,
      Or(ai.name, h.name), Or(ai.email, h.email), Or(ai.phone, h.phone), Or(ai.skills, h.skills),
      rawText, Or(ai.cleaned_text, Or(ai.cleanedText, rawText)))
  }

  /** The parsed reply as the handler sees it: anything but an object reads like `{}`. */
  function AiFields(reply: AiReply): AiRecord {
    if reply.JsonObject? then reply.record else NoFields
  }

  /**
    `POST(request)`. It answers 400 exactly when the body has no truthy
    `rawText` (whitespace-only text passes), and 500 exactly when the body
    cannot be read or the model is asked and the call throws or its reply is
    JSON `null` (reading `ai.name` then throws). A record always carries the
    sanitized text and the given file name, "resume.pdf" when none is given.
   */
  function Refine(req: Request, env: Env, reply: AiReply): (r: Response)
    ensures r.Failure? ==> r.status == 400 || r.status == 500
    ensures r == Failure(400, "No text provided") <==> req.Body? && !Truthy(req.rawText)
    ensures r == Failure(500, "Failed to refine") <==>
      || req.Unreadable?
      || (req.Body? && Truthy(req.rawText) && env.hasApiKey && env.sdkAvailable &&
          (reply.CallFailed? || reply.JsonNull?))
    ensures r.Refined? ==>
      && req.Body? && Truthy(req.rawText)
      && r.rawText == Sanitize(req.rawText.value) && IsJsTrimmed(r.rawText)
      && r.filename == (if Truthy(req.filename) then req.filename.value else "resume.pdf")
      && r.filename != ""
  {
    match req
    case Unreadable => Failure(500, "Failed to refine")
    case Body(raw, file) =>
      var original := Or(raw, "");
      var filename := Or(file, "resume.pdf");
      if original == "" then Failure(400, "No text provided")
      else
        var rawText := Sanitize(original);
        SanitizeShape(original);
        var heuristic := ResumeParser.Parse(rawText);
        if !env.hasApiKey || !env.sdkAvailable then HeuristicOnly(filename, heuristic, rawText)
        else if reply.CallFailed? || reply.JsonNull? then Failure(500, "Failed to refine")
        else Merge(filename, AiFields(reply), heuristic, rawText)
  }

  // -------------------------------------------------------- what POST promises

  /** Without a key or without the SDK the reply is never used: the record is the heuristic parse of the sanitized text. */
  lemma HeuristicWithoutModel(text: string, file: Option<string>, env: Env, reply: AiReply)
    requires text != "" && !(env.hasApiKey && env.sdkAvailable)
    ensures var r := Refine(Body(Some(text), file), env, reply);
      var h := ResumeParser.Parse(Sanitize(text));
      && r.Refined?
      && r.name == h.name && r.email == h.email && r.phone == h.phone && r.skills == h.skills
      && r.rawText == Sanitize(text) && r.cleanedText == Sanitize(text)
  {
    RefineUnfold(text, file, env, reply, ResumeParser.Parse(Sanitize(text)));
  }

  /**
    With the model: each field is the model's value when truthy, else the
    heuristic one; the cleaned text is `cleaned_text`, else `cleanedText`, else
    the sanitized text. A reply that is no object behaves like `{}`.
   */
  lemma MergePriority(text: string, file: Option<string>, reply: AiReply)
    requires text != "" && !reply.CallFailed? && !reply.JsonNull?
    ensures var r := Refine(Body(Some(text), file), Env(true, true), reply);
      var h := ResumeParser.Parse(Sanitize(text));
      var ai := if reply.JsonObject? then reply.record else AiRecord(None, None, None, None, None, None);
      && r.Refined?
      && r.name == (if Truthy(ai.name) then ai.name.value else h.name)
      && r.email == (if Truthy(ai.email) then ai.email.value else h.email)
      && r.phone == (if Truthy(ai.phone) then ai.phone.value else h.phone)
      && r.skills == (if Truthy(ai.skills) then ai.skills.value else h.skills)
      && r.cleanedText == (if Truthy(ai.cleaned_text) then ai.cleaned_text.value
                           else if Truthy(ai.cleanedText) then ai.cleanedText.value
                           else Sanitize(text))
  {
  }

  /** A field of the record is empty only when both the model and the heuristic left it empty. */
  lemma MergeKeepsHeuristic(text: string, file: Option<string>, env: Env, reply: AiReply)
    requires text != "" && Refine(Body(Some(text), file), env, reply).Refined?
    ensures var r := Refine(Body(Some(text), file), env, reply);
      var h := ResumeParser.Parse(Sanitize(text));
      && (h.name != "" ==> r.name != "") && (h.email != "" ==> r.email != "")
      && (h.phone != "" ==> r.phone != "") && (h.skills != "" ==> r.skills != "")
  {
    var h := ResumeParser.Parse(Sanitize(text));
    RefineUnfold(text, file, env, reply, h);
  }

  /** A refined answer to a nonempty text is the heuristic record or its merge with the model's fields. */
  lemma RefineUnfold(text: string, file: Option<string>, env: Env, reply: AiReply, h: ResumeParser.Fields)
    requires text != "" && h == ResumeParser.Parse(Sanitize(text))
    ensures var filename := Or(file, "resume.pdf");
      Refine(Body(Some(text), file), env, reply) ==
        if !env.hasApiKey || !env.sdkAvailable then HeuristicOnly(filename, h, Sanitize(text))
        else if reply.CallFailed? || reply.JsonNull? then Failure(500, "Failed to refine")
        else Merge(filename, AiFields(reply), h, Sanitize(text))
  {
  }

  /** Without a key the handler never asks the model, so its reply cannot matter. */
  lemma ReplyIgnoredWithoutKey(req: Request, env: Env, r1: AiReply, r2: AiReply)
    requires !env.hasApiKey
    ensures Refine(req, env, r1) == Refine(req, env, r2)
  {
  }
}
