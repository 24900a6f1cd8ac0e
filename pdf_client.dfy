/**
  The record the browser-side extraction builds (lib/pdf.ts): once the text of
  a PDF page set or of an OCR pass is in hand, `extractResumeData` and
  `extractResumeDataFromImage` assemble the same record from it. The
  `parseResumeFields` copy in lib/pdf.ts is the same procedure as the one in
  lib/parse.ts and is modelled once, by `ResumeParser`.
 */
module PdfClient {
  import opened Wrappers
  import ResumeParser
  import RefineRoute

  datatype ResumeData = ResumeData(
    filename: string, name: string, email: string, phone: string, skills: string, rawText: string)

  /**
    The object both extraction functions return for a file named `fileName`
    whose extracted text is `rawText`.
   */
  function AssembleResumeData(fileName: string, rawText: string): (d: ResumeData)
    ensures d.filename == fileName && d.rawText == rawText
    ensures ResumeParser.Fields(d.name, d.email, d.phone, d.skills) == ResumeParser.Parse(rawText)
  {
    var f := ResumeParser.Parse(rawText);
    ResumeData(fileName, f.name, f.email, f.phone, f.skills, rawText)
  }

  /** The assembly as the source writes it: parse, then copy the four fields beside the name and text. */
  method ExtractResumeData(fileName: string, rawText: string) returns (d: ResumeData)
    ensures d == AssembleResumeData(fileName, rawText)
  {
    var fields := ResumeParser.ParseResumeFields(rawText);
    d := ResumeData(fileName, fields.name, fields.email, fields.phone, fields.skills, rawText);
  }

  /**
    When the browser's text is already what the refine endpoint's sanitizer
    would make of it, the endpoint without a model returns the same fields as
    the browser-side record, and both texts equal to that text.
   */
  lemma BrowserAgreesWithRefine(fileName: string, rawText: string, env: RefineRoute.Env, reply: RefineRoute.AiReply)
    requires rawText != "" && fileName != ""
    requires RefineRoute.Sanitize(rawText) == rawText
    requires !(env.hasApiKey && env.sdkAvailable)
    ensures var d := AssembleResumeData(fileName, rawText);
      RefineRoute.Refine(RefineRoute.Body(Some(rawText), Some(fileName)), env, reply) ==
        RefineRoute.Refined(d.filename, d.name, d.email, d.phone, d.skills, d.rawText, d.rawText)
  {
    RefineRoute.HeuristicWithoutModel(rawText, Some(fileName), env, reply);
  }
}
