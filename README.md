# easy-ats core, modelled in Dafny

easy-ats is a Next.js application that scores a resume against a job
description with a language model and asks the model for an optimized
resume. Most of it is UI and calls to the model. This project models the
deterministic logic around those calls and proves properties of it:

- **Resume information** (`src/lib/pdfUtils.ts`): `extractResumeInfo` and
  `extractOriginalResumeInfo` split the text into trimmed non-empty lines and
  do three things:
  - pick a name line by fixed rejection rules;
  - take the first email and the first phone match, found by hand-written
    scanners that follow the two regular expressions;
  - run the section state machine, in which all-uppercase lines switch
    between "education" and "experience".

  Both variants are one model with a `Variant` parameter (`Display` and
  `Original`). The loops are methods proved against specification functions
  (`ChosenName`, `Routing`, `Pick`).
- **Fallback PDF text recovery** (`src/app/results/page.tsx`):
  - `extractTextFromPDF`, with its signature guard and its three patterns:
    parenthesised strings, `BT … ET` text arrays, and the largest
    `stream … endstream`;
  - `removeRepeatedHeadersFooters`, whose line counting is a method filling a
    `map`.
- **Results page** (`src/app/results/page.tsx`): the class `ResultsView`
  holds the browser cache as a `map<string, string>` field and the React
  state as fields. Its methods are:
  - `GetNewScore`: picking the re-score source;
  - `OptimizeResume`: picking the text to optimize;
  - `SaveChanges`.

  Each method is proved against a step function on `PageState`, and the
  cache-write and source-priority properties are lemmas about those steps.
  `generateBasicResumePlaceholder` is a function.
- **Prompt preparation and reply checking** (`src/lib/langchain.ts`):
  - `truncateText` and its limits of 4000, 3000 and 500 characters;
  - the "Not provided" defaults for user information;
  - locating the JSON (a fenced block, else first `{` to last `}`, else the
    whole reply);
  - the loop over the five required fields.

  The model, `JSON.parse` and the API key are parameters.
- **API routes**:
  - `analyze-resume`: input resolution across text, file and PDF extraction,
    then validation in order;
  - `optimize-resume`: the file overrides the text, and a blank resume is
    replaced by a placeholder;
  - `extract-pdf`: the signature test and classifying the parser's result.

  The analyze and optimize handlers are methods that reassign their locals
  as the handlers do, each proved equal to a function from request to
  response. The extract-pdf handler reassigns nothing and is a function. In
  all three, a body that `request.formData()` cannot read is answered by the
  handler's `catch` with a 500.
- **Score bands** (`src/components/main/AnalysisResults.tsx`): the colour and
  description threshold chains, and which view is rendered.

Regular expressions become scanners whose matches are characterised by ghost
predicates (`EmailAt`, `PhoneAt`). A scanner is proved to return the leftmost
match, with the alternative the backtracking engine prefers at that
position. The character class `[A-Z|a-z]` of the email pattern admits a
literal `|`, and the model keeps that.

The model follows the code on these points:
- Pattern 1 of `extractTextFromPDF` is accepted on its length *before* blank
  lines and repeated lines are removed. See Findings.
- `removeRepeatedHeadersFooters` counts lines in a plain object, so a line
  named like an inherited property is dropped. See Findings.
- The results page calls the extraction as written
  (`ExtractTextFromPdfAsWritten`). The corrected `ExtractTextFromPdf` is the
  evidently intended behaviour, and its properties are proved beside it.
- The brace fallback spans from the first `{` to the *last* `}`. It is not the
  first balanced object.
- The analyze route falls back to the raw file text when PDF extraction is
  unusable. It does not reject that text.
- The last re-score source, the cached extracted text, needs only a length
  over 100. It is not checked for the `%PDF` signature.
- Lengths are compared with `> 100` or `< 100`, as written at each site.

## Model

| member | source | states |
|---|---|---|
| JsText.Trim | src/lib/pdfUtils.ts:41 | `String.prototype.trim`: the result is the slice left after removing leading and trailing white space, and neither of its ends is white space |
| JsText.TrimEmptyIff | src/lib/pdfUtils.ts:41-42 | a line trims to nothing exactly when every character is white space |
| JsText.Split | src/lib/pdfUtils.ts:39-40 | `split("\n")` gives at least one part, and no part holds the separator |
| JsText.UpperFixedIff | src/lib/pdfUtils.ts:83 | `line.toUpperCase() === line` holds exactly when the line has no lower-case letter |
| ContactPatterns.MatchEmailAt | src/lib/pdfUtils.ts:63-67 | at a fixed start, the email match the engine prefers: the latest dot, then the longest top-level domain; none when no match starts there |
| ContactPatterns.EmailAtForced | src/lib/pdfUtils.ts:63 | in any email match, the local part is the whole greedy run and the dot lies inside the domain run |
| ContactPatterns.BestTld | src/lib/pdfUtils.ts:63 | the longest top-level domain of two or more letters or vertical bars that ends on a word boundary |
| ContactPatterns.TryDot | src/lib/pdfUtils.ts:63 | backtracking picks the rightmost dot that is followed by a valid top-level domain |
| ContactPatterns.FindEmailFrom | src/lib/pdfUtils.ts:63-67 | the leftmost email match at or after a position, with the preferred extent at that start; none iff no match exists |
| ContactPatterns.FirstEmail | src/lib/pdfUtils.ts:63-67 | no email exactly when no substring matches the pattern; otherwise a matching substring |
| ContactPatterns.PhoneShapeForced | src/lib/pdfUtils.ts:69-70 | the optional parts of a phone match are decided by the characters themselves, so only one shape fits at a start |
| ContactPatterns.PhoneAtGreedy | src/lib/pdfUtils.ts:69-70 | a phone match from a start ends exactly where the greedy shape ends |
| ContactPatterns.MatchPhoneAt | src/lib/pdfUtils.ts:69-70 | the unique phone match at a start, or none |
| ContactPatterns.PhoneMatchShape | src/lib/pdfUtils.ts:69-70 | every phone match is 10 to 14 characters long and ends in a digit |
| ContactPatterns.FindPhoneFrom | src/lib/pdfUtils.ts:69-74 | the leftmost phone match at or after a position; none iff no match exists |
| ContactPatterns.FirstPhone | src/lib/pdfUtils.ts:69-74 | no phone exactly when no substring matches; otherwise a matching substring |
| ResumeInfo.NonBlankTrimmed | src/lib/pdfUtils.ts:39-42 | no more lines than parts; every line is non-empty and trimmed |
| ResumeInfo.ResumeLines | src/lib/pdfUtils.ts:39-42 | every scanned line is non-empty and starts and ends with a non-space character |
| ResumeInfo.BlankTextHasNoLines | src/lib/pdfUtils.ts:39-42 | text made only of white space yields no lines |
| ResumeInfo.FirstCandidate | src/lib/pdfUtils.ts:45-60 | the first line in range that passes every name rule, no earlier line passing; none iff no line in range passes |
| ResumeInfo.ChosenName | src/lib/pdfUtils.ts:45-60 | when a line among the first min(5 or 10, n) passes every rule, the name is the first such line; when none passes, it is the default |
| ResumeInfo.PickName | src/lib/pdfUtils.ts:45-60 | the `for` loop with `break` returns the first candidate (`ChosenName`) |
| ResumeInfo.Routing | src/lib/pdfUtils.ts:81-99 | one destination per line, and a line is routed to `Heading` exactly when it is a header, so no line goes to two lists |
| ResumeInfo.RoutingStep | src/lib/pdfUtils.ts:81-99 | one more line extends the routing, the flags and each list by that line alone |
| ResumeInfo.CollectSections | src/lib/pdfUtils.ts:77-99 | the section loop produces exactly the education and experience lists of `Routing` |
| ResumeInfo.ExtractResumeInfo | src/lib/pdfUtils.ts:28-102 | the name, the first email and phone (else the defaults) and both section lists; with `Original` the defaults, the rules and the caps of lines 273-356 |
| ResumeInfo.RoutingPrefix | src/lib/pdfUtils.ts:81-99 | the routing of a prefix of the lines is the prefix of the routing |
| ResumeInfo.RouteOfLine | src/lib/pdfUtils.ts:81-98 | each line is routed by the flags and list sizes left by the lines before it |
| ResumeInfo.FlagsFromLastHeader | src/lib/pdfUtils.ts:83-91 | the section flags are those set by the most recent header; with no header both are off |
| ResumeInfo.FlagsWithoutHeader | src/lib/pdfUtils.ts:77-91 | with no header line, neither section is active |
| ResumeInfo.FlagsAfterHeader | src/lib/pdfUtils.ts:83-91 | after a header with no later header, the flags are the ones that header sets |
| ResumeInfo.DisplayRouting | src/lib/pdfUtils.ts:94-98 | a non-header line goes to education iff that flag is on, to experience iff only that flag is on, and is dropped iff neither is on |
| ResumeInfo.OriginalCaps | src/lib/pdfUtils.ts:347-352 | the original-resume variant never collects more than 10 education or 15 experience lines |
| ResumeInfo.PickIsSubsequence | src/lib/pdfUtils.ts:94-98 | each collected list is an order-preserving subsequence of the lines |
| ResumeInfo.PickedLinesAreNotHeaders | src/lib/pdfUtils.ts:83-91 | no header line is ever collected |
| ResumeInfo.LetterlessLineIsHeader | src/lib/pdfUtils.ts:83 | a non-blank line with no lower-case letter, such as `2019 - 2022`, counts as a header |
| ResumeInfo.BlankTextKeepsDefaults | src/lib/pdfUtils.ts:30-36 | blank text leaves the default name, no email or phone match, and empty lists |
| PdfText.MatchesFrom | src/app/results/page.tsx:268 | a global match never yields an empty string |
| PdfText.ParenEnd | src/app/results/page.tsx:268 | a parenthesised match spans at least three characters |
| PdfText.ParenGroupAt | src/app/results/page.tsx:268 | `(`, one or more non-`)` characters and `)` form one match, and scanning resumes after it |
| PdfText.Largest | src/app/results/page.tsx:335-338 | the longest stream, the earliest one on ties, never shorter than the initial value |
| PdfText.Pattern3Printable | src/app/results/page.tsx:340-344 | the text of pattern 3 holds only printable ASCII and line breaks |
| PdfText.LaterPatterns | src/app/results/page.tsx:309-357 | patterns 2 and 3 return a text longer than 100 characters or nothing |
| PdfText.ExtractTextFromPdf | src/app/results/page.tsx:256-358 | every non-empty result is longer than 100 characters (pattern 1 checked after its cleanup) |
| PdfText.SignatureGuard | src/app/results/page.tsx:258-261 | content not starting with `%PDF` yields the empty text |
| PdfText.CorrectionKeepsLongResults | src/app/results/page.tsx:294-305 | where the code returns more than 100 characters and no pattern-1 line is an inherited name, the corrected extraction returns the same text |
| PdfText.ExtractTextFromPdfAsWritten | src/app/results/page.tsx:256-358 | as written, text comes only from content with the `%PDF` signature, and text from patterns 2 and 3 is longer than 100 characters; pattern-1 text is not bounded (see `ShortPattern1Result`) |
| PdfText.ShortPattern1Result | src/app/results/page.tsx:294-305 | as written, a 164-character PDF with three copies of a 50-character group and one `(xy)` yields "xy" |
| PdfText.CleanupIdentity | src/app/results/page.tsx:279-291 | text with no backslash, `T`, `B` or double white space passes the pattern-1 replacements unchanged |
| PdfText.InheritedNameIsDropped | src/app/results/page.tsx:363-381 | as written, a line "toString" is removed; counted properly it stays |
| PdfText.DeduplicatedAsWritten | src/app/results/page.tsx:361-385 | as written, when no line trims to a name inherited from `Object.prototype`, the de-duplication equals the corrected one (`InheritedNameIsDropped` shows the difference otherwise) |
| PdfText.AsWrittenDropsMore | src/app/results/page.tsx:363-384 | the lines the code keeps are an order-preserving subsequence of those the corrected version keeps |
| PdfText.AlwaysKept | src/app/results/page.tsx:374-382 | blank lines, lines over 50 characters and lines seen fewer than three times always stay |
| PdfText.KeptLinesSubsequence | src/app/results/page.tsx:375-384 | the de-duplicated lines are an order-preserving subsequence of the input lines |
| PdfText.KeptLinesMembers | src/app/results/page.tsx:375-383 | a line stays iff it is blank, rarer than max(3, ⌊n/10⌋), or over 50 characters once trimmed |
| PdfText.CountLines | src/app/results/page.tsx:363-371 | the dictionary holds exactly the non-blank trimmed lines, each with its number of occurrences |
| PdfText.RemoveRepeatedHeadersFooters | src/app/results/page.tsx:361-385 | the counting loop and filter compute `Deduplicated` |
| ScoreBands.ScoreColor | src/components/main/AnalysisResults.tsx:55-61 | the colour is the one whose floor (80, 60, 40) the score reaches and the next floor it does not |
| ScoreBands.ScoreBand | src/components/main/AnalysisResults.tsx:64-77 | six bands cut at 90, 80, 70, 60 and 40; the score lies between its band's floor and the next |
| ScoreBands.ColorMonotone | src/components/main/AnalysisResults.tsx:55-61 | a higher score never gets a lower colour |
| ScoreBands.BandMonotone | src/components/main/AnalysisResults.tsx:64-77 | a higher score never gets a worse description |
| ScoreBands.ColorFollowsBand | src/components/main/AnalysisResults.tsx:55-77 | primary iff great or excellent, accent iff moderate or good, secondary iff fair, default iff needs improvement |
| ScoreBands.Render | src/components/main/AnalysisResults.tsx:25-165 | loading whenever analyzing; nothing without a result; otherwise the score card with its colour, description and lists, and the generate action iff `optimizedResume` is falsy |
| ScoreBands.GenerateOfferedIff | src/components/main/AnalysisResults.tsx:109-165 | the generate action is offered iff `optimizedResume` is null or empty |
| LanguageModel.TruncateText | src/lib/langchain.ts:20-27 | text within the limit is unchanged; longer text becomes its first `maxLength` characters followed by the marker |
| LanguageModel.TruncateBounds | src/lib/langchain.ts:20-27 | the result exceeds the limit by at most the marker and keeps as much of the text as the limit allows |
| LanguageModel.TruncatedFields | src/lib/langchain.ts:139-141 | job description, resume and skills are capped at 3000, 4000 and 500 characters plus the marker, and are unchanged within them |
| LanguageModel.OrNotProvided | src/lib/langchain.ts:227-229 | a non-empty value is kept; an absent or empty one becomes "Not provided" |
| LanguageModel.JoinEmptyIff | src/lib/langchain.ts:230-231 | a list joins to the empty string iff it is empty or holds one empty line |
| LanguageModel.UserPromptFields | src/lib/langchain.ts:226-231 | all five user fields are non-empty; without user information all are "Not provided" |
| LanguageModel.SectionsJoined | src/lib/langchain.ts:230-231 | education and experience are shown joined by line breaks, or as "Not provided" when the join is empty |
| LanguageModel.FenceBodyStart | src/lib/langchain.ts:162 | the fenced body starts after the fence, the optional `json` tag and the white space |
| LanguageModel.FenceMatch | src/lib/langchain.ts:162 | a capture exists iff a second fence follows the first one's tag and white space; it is the text from there up to that next fence, without trailing white space, and neither of its ends is white space |
| LanguageModel.FenceMatchIff | src/lib/langchain.ts:162 | the fence pattern matches iff the reply holds two non-overlapping fences |
| LanguageModel.FenceAfterOpening | src/lib/langchain.ts:162 | the tag and white space after an opening fence contain no later fence |
| LanguageModel.FenceBodyHasNoFence | src/lib/langchain.ts:162 | the lazy capture stops at the first closing fence |
| LanguageModel.NoFenceBeforeClosing | src/lib/langchain.ts:162 | no fence occurs inside the captured body |
| LanguageModel.LastIndexOf | src/lib/langchain.ts:163 | the last position of a character below a bound, or none |
| LanguageModel.BraceBounds | src/lib/langchain.ts:163 | the brace span, when there is one, runs forward inside the reply |
| LanguageModel.BraceBoundsSpec | src/lib/langchain.ts:163 | the brace pattern matches iff some `{` precedes some `}`, and then spans from the first `{` to the last `}` |
| LanguageModel.BraceSpan | src/lib/langchain.ts:163 | none iff no `{` precedes a `}`; otherwise the slice from the first `{` to the last `}` |
| LanguageModel.LocateJson | src/lib/langchain.ts:161-168 | the trimmed fenced body, else the trimmed brace span, else the whole reply; an empty fenced body leaves the reply whole |
| LanguageModel.EmptyFenceShadowsObject | src/lib/langchain.ts:161-168 | an empty fenced block before an object makes the whole reply the JSON text |
| LanguageModel.RequiredFieldsCheck | src/lib/langchain.ts:173-184 | a parsed value passes iff it is an object holding all five required fields, and it passes unchanged |
| LanguageModel.CheckRequiredFields | src/lib/langchain.ts:180-184 | the `for` loop with its early throw computes `RequiredFieldsCheck` |
| LanguageModel.MissingFieldNamesFirst | src/lib/langchain.ts:173-184 | the error names the first missing field in the order score, strengths, weaknesses, keywords, improvement_suggestions |
| LanguageModel.PresenceIsEnough | src/lib/langchain.ts:180-186 | only presence is checked: any object with the five fields passes, whatever their types |
| LanguageModel.ParseAnalysis | src/lib/langchain.ts:159-194 | success iff the located JSON parses to an object with the five fields; every failure carries the parse-failure prefix |
| LanguageModel.AnalyzeResume | src/lib/langchain.ts:131-199 | without an API key the missing-key error; otherwise the checked reply to the truncated fields |
| LanguageModel.GenerateOptimizedResume | src/lib/langchain.ts:202-288 | without an API key the missing-key error; otherwise the model's reply to the truncated fields and defaulted user fields |
| ExtractPdfRoute.ExtractPdf | src/app/api/extract-pdf/route.ts:15-92 | 400 without a file or without the signature; success iff the parser returns text, which defaults to "", with `length` its length and a warning iff it is under 50 characters; 500 with details when the parser throws |
| ExtractPdfRoute.PostExtractPdf | src/app/api/extract-pdf/route.ts:11-103 | a body that is not a form is answered 500 "Server error during PDF extraction" with the error message; a form is handled by `ExtractPdf` on its "pdfFile" field |
| FormData.ErrorMessage | src/app/api/extract-pdf/route.ts:98 | an `Error` gives its message, any other throw "Unknown error" |
| ExtractPdfRoute.BareSignatureRejected | src/app/api/extract-pdf/route.ts:36-46 | a four-byte `%PDF` buffer is rejected |
| ExtractPdfRoute.ParserOnlyForPdf | src/app/api/extract-pdf/route.ts:15-46 | the answer to a missing or unsigned file does not depend on the parser |
| AnalyzeRoute.ResolveForm | src/app/api/analyze-resume/route.ts:40-155 | a non-empty resume field wins; with neither a resume field nor a file the resume stays empty; PDF-extracted text is used only with at least 100 characters and is then also the extracted text |
| AnalyzeRoute.ResolveInput | src/app/api/analyze-resume/route.ts:17-44 | a JSON request with a malformed body is answered 400, and a well-formed one gives its three fields, each defaulting to "", without PDF extraction; a form request gives `ResolveForm` of its fields, and a form that cannot be read is answered 500 "Failed to analyze resume" by the outer `catch` (lines 190-196) |
| AnalyzeRoute.Respond | src/app/api/analyze-resume/route.ts:157-189 | job description checked first, then a trimmed resume of at least 100 characters; when both hold, a model failure is answered 500 "Failed to analyze resume" and a success returns the analysis, with `extractedText` added on the PDF path |
| AnalyzeRoute.PostAnalyzeResume | src/app/api/analyze-resume/route.ts:5-197 | the handler's reassignments compute `PostAnalyzeResult` |
| AnalyzeRoute.PdfUploadPolicy | src/app/api/analyze-resume/route.ts:85-144 | for a PDF upload, extraction is used iff it succeeded with at least 100 characters; otherwise the raw file text is used |
| AnalyzeRoute.NonPdfUploadUsesFileText | src/app/api/analyze-resume/route.ts:145-152 | a non-PDF upload always uses the file's text |
| AnalyzeRoute.TrustedThroughExtractRoute | src/app/api/analyze-resume/route.ts:85-118 | through the extract route, extraction is trusted iff the file is signed and the parser gives at least 100 characters |
| AnalyzeRoute.JobDescriptionCheckedFirst | src/app/api/analyze-resume/route.ts:158-163 | a missing job description is answered 400 before anything else |
| AnalyzeRoute.ShortResumeNeverAnalyzed | src/app/api/analyze-resume/route.ts:166-174 | a short resume is refused whatever the model would answer |
| AnalyzeRoute.ExtractedTextOnlyFromPdf | src/app/api/analyze-resume/route.ts:182-189 | `extractedText` is added to the analysis only on the PDF-extraction path |
| OptimizeRoute.Placeholder | src/app/api/optimize-resume/route.ts:35-37 | the instruction embeds the skills, or "general professional skills" when they are empty |
| OptimizeRoute.ResumeToSend | src/app/api/optimize-resume/route.ts:11-38 | the file's text when a file came, else the text field; a blank result becomes the placeholder |
| OptimizeRoute.PostOptimizeResult | src/app/api/optimize-resume/route.ts:5-56 | a form that cannot be read is answered 500 with the generation-failure prefix and the error message; a missing job description is answered 400; every 500 carries the prefix |
| OptimizeRoute.PostOptimizeResume | src/app/api/optimize-resume/route.ts:5-58 | the handler's reassignments compute `PostOptimizeResult` |
| OptimizeRoute.FileOverridesText | src/app/api/optimize-resume/route.ts:14-24 | a file wins over the text field when both are present |
| OptimizeRoute.BlankResumeUsesPlaceholder | src/app/api/optimize-resume/route.ts:34-38 | with no resume, the placeholder instruction is sent and the user fields read "Not provided" |
| OptimizeRoute.SuccessIsModelReply | src/app/api/optimize-resume/route.ts:42-48 | on success the body is exactly the model's reply |
| ResultsPage.SaveChangesWritesTabKeys | src/app/results/page.tsx:880-898 | saving writes the edited text to exactly the two keys of the active tab and leaves every other key alone |
| ResultsPage.RescoreChoice | src/app/results/page.tsx:625-714 | the chosen source is a candidate of the active tab that qualifies; none iff no candidate qualifies |
| ResultsPage.ChoiceFollowsChain | src/app/results/page.tsx:625-714 | the choice is the first qualifying source in the order of each tab: five sources on the optimized tab, three on the original |
| ResultsPage.RescoreSourcePriority | src/app/results/page.tsx:625-714 | the stored optimized text wins on the optimized tab; the original tab never uses optimized text |
| ResultsPage.AfterChoiceKeepsFlags | src/app/results/page.tsx:637-708 | adopting a source commutes with setting the busy flag and clearing the error |
| ResultsPage.ExtractedTextOf | src/app/results/page.tsx:752 | extracted text is taken from the reply only when longer than 100 characters |
| ResultsPage.RescoreIgnoredWhileOptimizing | src/app/results/page.tsx:582-585 | a re-score while optimizing changes nothing and sends nothing |
| ResultsPage.RescoreSendsFirstQualifying | src/app/results/page.tsx:580-725 | a request is sent iff a source qualifies, with that source's text of over 100 characters; otherwise "No valid resume content found" |
| ResultsPage.RescoreCacheWrites | src/app/results/page.tsx:740-771 | the cache changes only after a successful analysis; `extractedResumeText` only with long extracted text, `resume` only on the original tab; no other key |
| ResultsPage.RescoreCacheKeys | src/app/results/page.tsx:752-771 | a stored analysis always writes `analysisResult`; the other two keys follow the extracted text and the tab |
| ResultsPage.OptimizationSource | src/app/results/page.tsx:427-476 | text in the state wins. For PDF content, a cached extraction over 100 characters comes first, then a fresh extraction (as written) over 100 characters, then a cached resume that is text. With none of these the step fails, and only then. An empty state with no cached extraction gives the empty text |
| ResultsPage.OptimizeSendsOnlyUsableText | src/app/results/page.tsx:479-483 | an optimize request is sent only with a job description and a non-blank text of at least 100 characters |
| ResultsPage.OptimizedWrittenOnlyOnSuccess | src/app/results/page.tsx:514-553 | `optimizedResume` changes only on a non-empty reply, which it then holds, switching to the optimized tab |
| ResultsPage.ReplyWritesOptimized | src/app/results/page.tsx:503-558 | a non-empty reply is stored and shown; any other reply leaves the optimized text alone; the busy flag is cleared |
| ResultsPage.LocalExtractionCached | src/app/results/page.tsx:450-461 | text recovered locally from PDF content by the extraction as written is cached under `extractedResumeText` |
| ResultsPage.ReplyKeepsExtractedText | src/app/results/page.tsx:521-568 | handling the optimize reply never changes `extractedResumeText` |
| ResultsPage.GenerateBasicResumePlaceholder | src/app/results/page.tsx:388-414 | the placeholder is longer than 100 characters: the name line (or "Your Name"), then the email and phone separated by a vertical bar, with the defaults "email@example.com" and "(123) 456-7890", then the fixed section prompts |
| ResultsPage.ResultsView.constructor | src/app/results/page.tsx:20-37 | the page starts on the original tab with empty state over the given cache |
| ResultsPage.ResultsView.SaveChanges | src/app/results/page.tsx:880-898 | the new state is `SaveChangesStep` of the old |
| ResultsPage.ResultsView.GetNewScore | src/app/results/page.tsx:580-781 | the new state and the request sent are `GetNewScoreStep` of the old state |
| ResultsPage.ResultsView.ChooseRescoreText | src/app/results/page.tsx:597-714 | returns the text of `RescoreChoice` and adopts it into state, or returns none and changes nothing |
| ResultsPage.ResultsView.ChooseResumeText | src/app/results/page.tsx:683-713 | stored resume, else resume in state, else extracted text, each only if it qualifies |
| ResultsPage.ResultsView.FinishRescore | src/app/results/page.tsx:740-780 | the new state is `RescoreReplyStep` of the old |
| ResultsPage.ResultsView.OptimizeResume | src/app/results/page.tsx:416-578 | the new state and the request sent are `OptimizeResumeStep` of the old state |
| ResultsPage.ResultsView.ChooseOptimizationText | src/app/results/page.tsx:427-476 | returns `OptimizationSource`, with the extraction as written, and caches a local extraction |
| ResultsPage.ResultsView.FinishOptimization | src/app/results/page.tsx:503-577 | the new state is `OptimizeReplyStep` of the old |
| ResultsPage.ResultsView.StoreOptimized | src/app/results/page.tsx:521-568 | the new state is `StoreOptimizedStep` of the old |

## Left out

- The language model, `JSON.parse`, `pdf-parse`, `fetch`, `File.text()` and the Groq API key are parameters. A failed `fetch` of the extraction route is an absent answer. The provider's error messages are not modelled.
- A failure of `File.text()` or `arrayBuffer()` after the form was read is not modelled. Those are the other throws that reach the routes' outer `catch`.
- Prompt templates, the model name and its settings are not modelled: `getGroqModel`, `PromptTemplate.format`, `StringOutputParser`. A prompt is the record of the fields it is filled with.
- The console logging and the `contentSource` bookkeeping are not modelled.
- Lengths count UTF-16 code units in the source; the model counts characters.
- `toUpperCase` and the case-insensitive prefix tests cover ASCII letters only.
- Non-string form values are not modelled: a `File` under a text field reads as "", and `as string` on `null` is an absent field. The reverse case is not modelled either. A non-empty string under a file field makes `resumeFile.text()` (`src/app/api/analyze-resume/route.ts:148`, `src/app/api/optimize-resume/route.ts:23`) or `pdfFile.arrayBuffer()` (`src/app/api/extract-pdf/route.ts:30`) throw a `TypeError`, which the route answers with a 500. A file field is an `Option<UploadedFile>` in the model, so it cannot hold a string.
- A `null` from `localStorage.getItem` is a missing key in the cache map.
- The JSON body of `analyzeResume`'s result is opaque. Score values, NaN and their ranges are not checked; the source does not check them either.
- `JSON.stringify` of the analysis is a parameter.
- `PdfText.CorrectionKeepsLongResults`: requires that no pattern-1 line trims to a name inherited from `Object.prototype`. Where one does, the code drops that line and the corrected version keeps it (second Findings row), so the two can differ.
- `LanguageModel.RequiredFieldsCheck`: the `TypeError` for a parsed value that is not an object ends at the field name. V8 appends " in " and the value itself, which the model does not render.
- `ContactPatterns.FirstEmail`: states only that the text matches. That it is the leftmost, preferred match is stated on `ContactPatterns.FindEmailFrom`, which it returns.
- `ContactPatterns.FirstPhone`: likewise, leftmost is stated on `ContactPatterns.FindPhoneFrom`.
- `ScoreBands.Render`: the JSX layout, icons and class names are not modelled. The view is the record of the values shown.
- The following page features are asynchronous UI scheduling and are not modelled:
  - the mount effect, which reloads the state from the cache and re-runs the extraction (`src/app/results/page.tsx:41-253`);
  - `handleTabSwitch`, which reloads the optimized text and starts an optimization through `setTimeout` (`src/app/results/page.tsx:906-974`);
  - the state updates that `renderResumeDocument` defers with `setTimeout` (`src/app/results/page.tsx:1066-1143`);
  - React's batching of state updates.

  Each handler is modelled as one synchronous step.
- `ResultsPage.ResultsView.GetNewScore`: the check `length < 100` after the choice (`src/app/results/page.tsx:721-725`) is unreachable, since every qualifying source is longer than 100. It is not modelled separately.
- `ResultsPage.ResultsView.FinishOptimization`: the reply branches that read `extractedText` and `userInfo` (`src/app/results/page.tsx:529-543, 561-565`) are not modelled. The optimize route never sends those fields, so the reply type has none.
- The duplicate score functions in `src/app/results/page.tsx:1015-1037` equal those of `AnalysisResults.tsx` and are modelled once.
- Not modelled:
  - `generateResumePDF` and `downloadPDF` (`src/lib/pdfUtils.ts:110-264`): jsPDF, the DOM and the clock;
  - `handleCopyToClipboard`: the clipboard.
- The following are UI or I/O and are not part of this model:
  - `src/app/page.tsx`, the generate-pdf route and `Progress.tsx`;
  - the UI primitives, `OptimizedResume.tsx` and `InputForm.tsx`;
  - `toggleEditMode`, `handleContentChange` and `goToHomePage` (`src/app/results/page.tsx:852-877, 901-903`): edit-mode UI and navigation. The save they trigger is `SaveChanges`.

## Findings

| source | as written | input that shows it | evidently intended | confidence | as-written member | corrected member |
|---|---|---|---|---|---|---|
| src/app/results/page.tsx:294-305 | Pattern 1 tests `length > 100` before it drops blank lines and repeated header and footer lines, so the text returned can be far shorter than 100 characters | `%PDF` followed by three copies of `(` + 50 × `a` + `)` and then `(xy)` (164 characters): the joined text is 155 characters, the three repeated lines are removed, and "xy" is returned | every non-empty recovered text is longer than 100 characters, as for patterns 2 and 3 | not executed | PdfText.ExtractTextFromPdfAsWritten, PdfText.ShortPattern1Result | PdfText.ExtractTextFromPdf |
| src/app/results/page.tsx:363-381 | The line counts live in a plain object `{}`, so a trimmed line equal to an inherited name reads back a function or object. `+ 1` then concatenates, `< threshold` is false, and the line is dropped unless it is longer than 50 characters | the text "toString" (one line) gives "" | a line is kept iff it is blank, occurs fewer than max(3, ⌊n/10⌋) times or is longer than 50 characters | not executed | PdfText.DeduplicatedAsWritten, PdfText.InheritedNameIsDropped | PdfText.RemoveRepeatedHeadersFooters |
