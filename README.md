# Resume field extraction, modelled in Dafny

The application reads a resume, as a PDF or an image, and fills four fields from its text: the candidate's name, email address, phone number and skills. It has three heuristic extractors:

- **Browser and Next.js parser** (`lib/parse.ts`, copied verbatim in `lib/pdf.ts`):
  - the name is one of the first ten nonblank lines that looks like a name;
  - the email and phone come from regular expressions;
  - the skills come from a "skills" section, or else from a token fallback.
- **Refine endpoint** (`app/api/refine/route.ts`):
  - sanitizes the text and runs the parser above;
  - when an API key and the model SDK are available, merges in the fields a language model returns.
- **Flask analyzer** (`python_resume_analyzer/app.py`):
  - validates an upload, cleans its text, then extracts a name, email, phone and a normalized, sorted skill list.

Each extractor is modelled as it is written. Loops become methods proved equal to specification functions. The regular expressions become scanners that follow a backtracking engine's order. The properties the code promises are proved as lemmas.

| file | module | models |
|---|---|---|
| `text.dfy` | `Wrappers`, `Text` | `Option`; character classes (JavaScript `\s`, Python `isspace`), trim/strip, split, join, filters, first-match search |
| `email.dfy` | `EmailPattern` | both email patterns (JavaScript and Python dialects) and the leftmost-longest search |
| `phone.dfy` | `PhonePattern` | the JavaScript phone pattern with `matchAll` and the 10–15 selection; the Python phone pattern with `search` |
| `resume_parser.dfy` | `ResumeParser` | `parseResumeFields` |
| `parse_properties.dfy` | `ParseProperties` | what `parseResumeFields` promises |
| `refine_route.dfy` | `RefineRoute` | `sanitizeText` and the response `POST` chooses |
| `pdf_client.dfy` | `PdfClient` | the record `extractResumeData` / `extractResumeDataFromImage` assemble |
| `py_clean.dfy` | `PyClean` | `clean_text` |
| `py_name.dfy` | `PyName` | `extract_name` |
| `py_skills.dfy` | `PySkills` | `extract_skills` |
| `py_analyzer.dfy` | `PyAnalyzer` | `extract_email`, `extract_phone`, `parse_fields` and the checks of `/analyze` |

Behaviours of the code that the model reproduces, each stated by the contract of the member named:

- The fourth header alternative `skills & tools` can never be chosen: `ResumeParser.AltAt` always picks `skills` first (`ParseProperties.FourthAlternativeUnreachable`). The section test therefore holds exactly when the lower-cased line contains "skills" (`ParseProperties.HeaderIffSkills`).
- In `extract_name`, the digit test of line 64 never rejects a line. The full-match pattern of line 63 already excludes digits (`PyName.DigitTestRedundant`).
- In `extract_skills`, a text that mentions "node.js" also matches the separate entry "node". Both normalize to "Node.js", so the list holds "Node.js" twice (`PySkills.NodeJsTwice`).
- The phone pattern's separator class `[\s-]` includes the line break, so a phone candidate can run across lines (`PhonePattern.MatchAcrossLines`).
- In the refine endpoint, the "No text provided" answer depends only on whether `rawText` is truthy (`RefineRoute.Refine`). A text of whitespace only therefore passes it and is then sanitized.

## Model

| member | source | states |
|---|---|---|
| EmailPattern.Search | lib/parse.ts:2-9 | the search reports the first start position where the scanner finds a match, and nothing before it; when it reports nothing, no position matches |
| EmailPattern.MatchAtSound | lib/parse.ts:2 | what the scanner reports at a position is a match of `[A-Z0-9._%+-]+@[A-Z0-9.-]+\.[A-Z]{2,}` |
| EmailPattern.MatchAtComplete | lib/parse.ts:2 | whenever the pattern matches at a position, the scanner reports a match there that is at least as long (the greedy, backtracking end) |
| EmailPattern.TryDotSpec | lib/parse.ts:2 | backtracking over the domain picks the last dot followed by enough tld characters, and the longest tld |
| EmailPattern.SearchLeftmost | lib/parse.ts:8-9 | the search finds the leftmost match and the longest match at that start |
| EmailPattern.FirstEmailSpec | lib/parse.ts:8-9 | the email field is "" exactly when no substring matches; otherwise it is the leftmost-longest match, has exactly one '@', and ends in a dot and two or more tld letters (for the Python pattern `[\w\.-]+@[\w\.-]+\.\w+` of python_resume_analyzer/app.py:23, one or more word characters) |
| PhonePattern.PhoneAt | lib/parse.ts:3 | a match of the phone pattern spans at least 7 characters and holds a '+' at most as its first character |
| PhonePattern.PhoneAtSound | lib/parse.ts:3 | what the scanner reports at a position is a match of `(?:(?:\+?\d{1,3}[\s-]?)?(?:\(?\d{2,4}\)?[\s-]?)?\d{3,4}[\s-]?\d{4,6})`, stated part by part in `IsPhoneMatch` |
| PhonePattern.PhoneAtComplete | lib/parse.ts:3 | conversely, wherever the pattern matches some stretch starting at a position, the scanner reports a match there |
| PhonePattern.MatchAcrossLines | lib/parse.ts:3 | since `[\s-]` takes a line break, lines of 3, 4, 4 and 6 digits in a row form one match spanning all four lines |
| PhonePattern.MatchesFrom | lib/parse.ts:11 | each `matchAll` span is a match of the scanner at its start, at least 7 characters long; the spans come in text order and do not overlap |
| PhonePattern.MatchCovered | lib/parse.ts:11 | no match is skipped: every position where the scanner reports a match lies inside a span reported from an earlier or equal start |
| PhonePattern.PatternCovered | lib/parse.ts:3-11 | stated on the pattern: every position where the pattern matches lies inside one of the spans `matchAll` reports for the whole text |
| PhonePattern.Candidates | lib/parse.ts:11 | every `matchAll` candidate has at least 7 characters, with '+' only in front |
| PhonePattern.StripKeepsPlusFirst | lib/parse.ts:13 | stripping everything but digits and '+' from a candidate leaves digits with at most a leading '+' |
| PhonePattern.FirstFittingSpec | lib/parse.ts:12-14 | the selection is "" exactly when no stripped candidate has 10 to 15 characters; otherwise it is the first one that does |
| PhonePattern.JsPhoneSpec | lib/parse.ts:11-14 | the phone field is "" or 10 to 15 digits with at most a leading '+', the first candidate in text order whose stripped form fits |
| PhonePattern.PyPhoneAtSound | python_resume_analyzer/app.py:24 | what the Python scanner reports at a position is a match of `(\+?\d{1,3}[\s-]?)?\d{10}`, stated in `IsPyPhoneMatch` |
| PhonePattern.PyPhoneAtComplete | python_resume_analyzer/app.py:24 | conversely, wherever `(\+?\d{1,3}[\s-]?)?\d{10}` matches a stretch starting at a position, the Python scanner reports a match there |
| PhonePattern.PySearch | python_resume_analyzer/app.py:24 | `PHONE_REGEX.search` returns the leftmost position where the scanner matches, with that match; nothing exactly when the scanner matches nowhere |
| PhonePattern.PySearchLeftmost | python_resume_analyzer/app.py:24 | stated on the pattern: the search result is a match of `IsPyPhoneMatch` and no earlier position starts one; the search finds nothing exactly when the pattern matches nowhere |
| PhonePattern.PyPhoneSpec | python_resume_analyzer/app.py:80-85 | `extract_phone` is "" exactly when the pattern matches nowhere; otherwise it is the leftmost match of the pattern with separators removed: 10 to 13 digits, with '+' only in front |
| ResumeParser.Normalize | lib/parse.ts:5 | the normalized text has the same length and no non-breaking space |
| ResumeParser.SplitLines | lib/parse.ts:6 | `split(/\r?\n/)` yields at least one piece |
| ResumeParser.TrimmedLines | lib/parse.ts:6 | the kept lines are nonempty and trimmed |
| ResumeParser.FindName | lib/parse.ts:17-27 | the name loop returns the specification's name: the first qualifying line of the first ten, from its first letter, or "" |
| ResumeParser.AltAt | lib/parse.ts:29 | the chosen header alternative occurs at the position |
| ResumeParser.HeaderEndAt | lib/parse.ts:29 | a header match starting at a position ends inside the line |
| ResumeParser.HeaderMatch | lib/parse.ts:29 | the header match is the leftmost position where the pattern matches |
| ResumeParser.CollectSection | lib/parse.ts:32-39 | the section loop pushes the cleaned lines from the header line to the end of its 8-line window, stopping at a section heading |
| ResumeParser.TrimAll | lib/parse.ts:48 | each token is the trimmed piece at the same position |
| ResumeParser.Dedupe | lib/parse.ts:50 | `Array.from(new Set(..))` keeps each token once, keeps exactly the tokens of its input, and orders them by first occurrence in the input |
| ResumeParser.ParseResumeFields | lib/parse.ts:1-54 | the procedure computes `Parse(text)`, whose properties follow; lib/pdf.ts:49-106 (its two patterns and the function) is a verbatim copy of it |
| ParseProperties.NameFromLineSpec | lib/parse.ts:24 | the name taken from a line starts with a letter; from a trimmed line it is the line from its first letter on |
| ParseProperties.ExtractNameSpec | lib/parse.ts:16-27 | the name is "" exactly when none of the first ten lines passes the label, email, digit and two-word tests; otherwise it is the first such line from its first letter on |
| ParseProperties.NameField | lib/parse.ts:5-27 | the same, for the name field of the whole parse over the normalized text |
| ParseProperties.FourthAlternativeUnreachable | lib/parse.ts:29 | the alternative `skills & tools` is never the one that matches |
| ParseProperties.HeaderIffSkills | lib/parse.ts:29-31 | a line opens the skills section exactly when its lower-cased form contains "skills" |
| ParseProperties.HeaderEndAtSpec | lib/parse.ts:29 | a header match at a position exists exactly when an alternative fits there, and covers the alternative and the whitespace after it |
| ParseProperties.HeaderMatchSpec | lib/parse.ts:37 | the part `replace` removes starts at the leftmost fitting alternative and runs to the end of the following whitespace |
| ParseProperties.PushedAllSpec | lib/parse.ts:37-38 | each pushed piece is nonempty, trimmed and free of bullet characters, at most one per line |
| ParseProperties.CollectWindow | lib/parse.ts:34-39 | the loop's pieces are those of the lines before the first section heading in the window |
| ParseProperties.Tier1Spec | lib/parse.ts:29-41 | tier 1 is "" when no line has a header; otherwise it is the section's pieces joined with ", ", and "" exactly when there are none |
| ParseProperties.FallbackSpec | lib/parse.ts:43-51 | the fallback gives at most 20 pairwise distinct tokens. Each is a trimmed piece of the first 40 lines split at ';', ',' and '\|', has 2 to 49 characters and a letter, has no email and fewer than four digits |
| ParseProperties.FallbackFirstTwenty | lib/parse.ts:43-51 | the fallback tokens are exactly the first 20 distinct tokens that pass both filters: they come in order of first occurrence, a passing token is left out only when 20 are kept, and it then first occurs after every kept one |
| ParseProperties.FirstDistinct | lib/parse.ts:50 | `Array.from(new Set(p)).slice(0, n)` holds elements of `p` in order of first occurrence; an element is missing only when `n` are kept, and it first occurs after all of them |
| ParseProperties.FallbackToken | lib/parse.ts:44-50 | a fallback token comes from one piece, trimmed, and passed both filters |
| ParseProperties.ParseEmpty | lib/parse.ts:1-54 | empty text gives four empty fields |
| ParseProperties.NoNbspInFields | lib/parse.ts:5 | after the initial replacement, no field contains a non-breaking space |
| ParseProperties.SkillsAvoid | lib/parse.ts:29-51 | a character absent from the lines, other than ',' and ' ', is absent from the skills field |
| RefineRoute.Scrub | app/api/refine/route.ts:29-31 | the three class replacements turn exactly the listed characters into spaces and keep the others in place |
| RefineRoute.CollapseSpaces | app/api/refine/route.ts:32 | the collapse leaves no two neighbouring whitespace characters and introduces only spaces |
| RefineRoute.CollapseKeepsText | app/api/refine/route.ts:32 | the collapse keeps every non-whitespace character, in order |
| RefineRoute.SanitizeScrubs | app/api/refine/route.ts:25-34 | no control, replacement, C1 or non-breaking-space character survives sanitizing |
| RefineRoute.SanitizeShape | app/api/refine/route.ts:25-34 | the sanitized text has no two neighbouring whitespace characters, none at either end, and is no longer than the input |
| RefineRoute.SanitizeKeepsText | app/api/refine/route.ts:25-34 | the visible characters of the output are exactly those of the input, less the replaced ones, in order |
| RefineRoute.SanitizeIdempotent | app/api/refine/route.ts:25-34 | sanitizing twice is sanitizing once |
| RefineRoute.Refine | app/api/refine/route.ts:36-102 | 400 exactly when the body has no truthy `rawText`; 500 exactly when the body is unreadable, or the model is asked and throws or replies `null`; a record always has the sanitized text and the given file name, "resume.pdf" by default |
| RefineRoute.HeuristicWithoutModel | app/api/refine/route.ts:51-65 | without a key or without the SDK, the record is the heuristic parse of the sanitized text, with that text as both texts |
| RefineRoute.MergePriority | app/api/refine/route.ts:80-96 | with the model, each field is the model's value when truthy, else the heuristic one; the cleaned text falls back from `cleaned_text` to `cleanedText` to the sanitized text; a non-object reply acts as `{}` |
| RefineRoute.MergeKeepsHeuristic | app/api/refine/route.ts:88-96 | a field of the record is empty only when the heuristic left it empty too |
| RefineRoute.ReplyIgnoredWithoutKey | app/api/refine/route.ts:51-54 | without a key the model's reply cannot change the response |
| PdfClient.AssembleResumeData | lib/pdf.ts:108-119 | the record carries the file name, the extracted text, and exactly the four fields of the parse of that text |
| PdfClient.ExtractResumeData | lib/pdf.ts:139-149 | the assembly as written computes that record, for a PDF's text and for an OCR result alike |
| PdfClient.BrowserAgreesWithRefine | lib/pdf.ts:108-119 | for a text already in sanitized form, the browser's record and the refine endpoint without a model agree on every field |
| PyClean.CleanLine | python_resume_analyzer/app.py:44 | a cleaned line is stripped |
| PyClean.CleanTextSpec | python_resume_analyzer/app.py:39-47 | the result has no '\r', no tab, no two neighbouring spaces and no three line breaks in a row. It and each of its lines are stripped. Exactly the visible characters of the input remain, in order, so it is "" exactly when the input is all whitespace |
| PyClean.CleanTextIdempotent | python_resume_analyzer/app.py:39-47 | cleaning cleaned text changes nothing |
| PyName.SplitRuns | python_resume_analyzer/app.py:68 | `re.split` on a separator class gives at least one piece, none containing a separator |
| PyName.FirstNameLine | python_resume_analyzer/app.py:55-65 | the loop returns the first line that passes the marker, label, length, pattern and digit tests, or none exactly when no line does |
| PyName.ExtractName | python_resume_analyzer/app.py:50-72 | `extract_name` computes the specification `NameOf` |
| PyName.NameOfSpec | python_resume_analyzer/app.py:50-72 | the name is "" exactly when the text is empty, or no scanned line qualifies and the hint gives nothing. A name from the text is the first of the first 30 nonblank lines that qualifies |
| PyName.NameLineShape | python_resume_analyzer/app.py:55-65 | a name line is stripped, at most 60 characters long, with no '@', no digit and at least two words |
| PyName.DigitTestRedundant | python_resume_analyzer/app.py:63-64 | a line the full-match pattern accepts has no digit, so the test of line 64 never rejects |
| PyName.NameLineFoundAlone | python_resume_analyzer/app.py:52-65 | a name line given alone as the text is returned as the name |
| PyName.HintNameSpec | python_resume_analyzer/app.py:66-71 | the fallback gives a name exactly when the hint has an '@' and its local part has two alphabetic pieces; the name is the first two or three of them, capitalized, separated by spaces |
| PyName.HintNameLetters | python_resume_analyzer/app.py:66-71 | a name from the fallback holds ASCII letters and spaces only |
| PyName.NameHasNoAt | python_resume_analyzer/app.py:50-72 | whichever way it is found, the name contains no '@' |
| PyName.NameWithoutHint | python_resume_analyzer/app.py:50-72 | without an email hint, a name is one of the scanned lines that passes the test |
| PySkills.FindSkills | python_resume_analyzer/app.py:89-94 | the search loop collects the display spelling of every dictionary entry that occurs as a token of the lower-cased text |
| PySkills.SortByLower | python_resume_analyzer/app.py:102 | the selection sort returns the found set in the order of the lower-cased key |
| PySkills.SortedSetMembers | python_resume_analyzer/app.py:102 | the sorted list has exactly the elements of the set, each once |
| PySkills.SortedSetOrder | python_resume_analyzer/app.py:102 | the sorted list is strictly increasing by lower-cased key, with ties broken by the string |
| PySkills.KeyLessOrder | python_resume_analyzer/app.py:102 | the sort key is a strict total order on distinct strings |
| PySkills.ExtractSkills | python_resume_analyzer/app.py:88-102 | `extract_skills` computes the specification `SkillsOf` |
| PySkills.SkillsFromMembers | python_resume_analyzer/app.py:88-102 | an entry is in the result exactly when it is the normalized display spelling of a dictionary skill occurring in the text |
| PySkills.SkillsFromEmpty | python_resume_analyzer/app.py:88-102 | the result is empty exactly when no dictionary skill occurs in the text |
| PySkills.SkillsFromSize | python_resume_analyzer/app.py:88-102 | the result has at most one entry per dictionary skill |
| PySkills.SkillsFromOrder | python_resume_analyzer/app.py:95-102 | the result is the normalization, entry by entry, of the found spellings in increasing key order |
| PySkills.DisplayKey | python_resume_analyzer/app.py:94 | the display spelling differs from the entry only in case |
| PySkills.NodeMatches | python_resume_analyzer/app.py:92-93 | where "node.js" occurs as a token, "node" does too |
| PySkills.NodeJsTwice | python_resume_analyzer/app.py:88-102 | a text mentioning "node.js" yields "Node.js" twice in the result |
| PyAnalyzer.ParseFields | python_resume_analyzer/app.py:105-116 | `parse_fields` computes `FieldsOf`: the email first, used as the name's hint; each empty field becomes `None` |
| PyAnalyzer.Analyze | python_resume_analyzer/app.py:140-170 | `analyze` for a POST computes `AnalysisOf` |
| PyAnalyzer.CheckAccepts | python_resume_analyzer/app.py:140-157 | an upload passes the checks exactly when a file is present, a declared length is within 5 MB, it is named or typed as a PDF, and it holds 1 byte to 5 MB |
| PyAnalyzer.CheckStatus | python_resume_analyzer/app.py:140-157 | every refusal is 400 or 413. A 413 always carries the size message, and, in the order of the handler's own tests, only for a present file whose declared or actual size exceeds 5 MB |
| PyAnalyzer.UpperCaseExtension | python_resume_analyzer/app.py:148-151 | a name ending in ".pdf" in any case passes the format test |
| PyAnalyzer.AnalysisSpec | python_resume_analyzer/app.py:140-170 | an analysis is returned exactly when the checks pass and the text can be read. Its fields are those of the cleaned text under the uploaded name, and the text is `None` exactly when the PDF holds only whitespace |
| PyAnalyzer.FieldsEmail | python_resume_analyzer/app.py:105-116 | the email field is present exactly when the text holds a match, and is then an address |
| PyAnalyzer.FieldsName | python_resume_analyzer/app.py:105-116 | the name field never equals the email field; without an email, a name is a qualifying line of the text |
| PyAnalyzer.FieldsPhone | python_resume_analyzer/app.py:105-116 | a phone field holds 10 to 13 digits with at most a leading '+' |
| PyAnalyzer.FieldsSkills | python_resume_analyzer/app.py:105-116 | the skills field is absent exactly when no dictionary skill occurs, and otherwise has 1 to 36 entries |

## Left out

- Text extraction from PDFs and images (`extractTextFromPdf` in lib/pdf.ts:18-47, `extractTextFromImage` in lib/pdf.ts:121-137, `extract_text_from_pdf` in python_resume_analyzer/app.py:27-36). These are library calls. Their text is a parameter of the model, and a library failure is the `None` of `PyAnalyzer.Analyze`'s `extracted`.
- The model call of the refine endpoint (route.ts:56-86): the prompt, the SDK import, the request and the JSON parsing. The outcome is the input `AiReply`: call failed, JSON `null`, a non-object, or an object whose fields are strings. Non-string JSON values in the reply are not modelled.
- RefineRoute.Refine: the request body's `rawText` and `filename` are taken as absent or strings. The source passes any JSON value through `String(body?.rawText || "")` (app/api/refine/route.ts:39-40): a number such as `5` becomes "5", `0` or `false` gives the 400 answer, and an object becomes "[object Object]". The same holds for `filename`. These coercions are not modelled.
- RefineRoute.Refine: the 500 answer also carries `details: String(err?.message || err)` (app/api/refine/route.ts:100), the text of the caught error; the model keeps the status and the "Failed to refine" message only, since the error's text comes from code outside the model.
- HTTP and Flask plumbing: CORS headers, the OPTIONS answer, the `RequestEntityTooLarge` handler, JSON serialization and the static index page.
- The user interface and the other routes (`app/analyzed/page.tsx`, `app/api/extract/route.ts`, the components).
- `raw.encode("utf-8", errors="ignore").decode(...)` in `clean_text` is the identity on a Dafny string, whose characters are Unicode scalar values. So it is left out.
- Letters, digits, JavaScript's `toLowerCase()` (lib/parse.ts:19, and the `/i` flag of the header pattern), Python's `lower()`, `capitalize()`, `title()` and `isalpha()` are modelled on ASCII only. Non-ASCII letters count as neither letters nor digits. For example, `toLowerCase()` turns the Kelvin sign U+212A into "k", so the source takes "S\u212AILLS" for a label word where `ResumeParser.HasLabel` does not. JavaScript strings are taken as sequences of BMP characters, so lengths equal code-unit counts.
- PySkills.SortByLower: Python's `sorted(found, key=str.lower)` leaves the order of two spellings with the same lower-cased key to the set's iteration order. The model breaks such ties by the strings themselves. The dictionary's display spellings have distinct keys, so no tie arises for `SKILLS`.
- PyAnalyzer.CheckStatus: with `MAX_CONTENT_LENGTH` set (python_resume_analyzer/app.py:13), Werkzeug raises `RequestEntityTooLarge` while reading `request.files` at line 140, before the "No file provided" test. A request declaring more than 5 MB therefore gets the 413 size message of the handler at lines 127-129 even when it holds no file, where `PyAnalyzer.Check` answers 400. The model follows the handler's own order of tests, and the "only for a present file" of `CheckStatus` holds for that order only.
- PyAnalyzer.Analyze: the "Failed to read PDF." response also carries the exception text as `details`, which is not modelled.

