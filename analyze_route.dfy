/** The `/api/analyze-resume` route: decides which text is the resume (the
    text field, the PDF text from the extraction route, or the raw file
    text), validates the inputs in a fixed order and scores the resume with
    the language model. The extraction route's answer, the model and the
    JSON parser are inputs. */
module AnalyzeRoute {

  import opened Outcomes
  import opened JsText
  import opened FormData
  import ExtractPdfRoute
  import LanguageModel

  const JsonContentType: string := "application/json"
  const PdfMimeType: string := "application/pdf"

  const InvalidJsonError: string := "Invalid JSON request"
  const JobDescriptionRequired: string := "Job description is required"
  const ResumeTooShort: string := "Resume content is too short or empty"
  const AnalysisFailed: string := "Failed to analyze resume"

  /** Extracted PDF text shorter than this is not trusted. */
  const TrustedPdfTextLength: nat := 100
  /** A resume whose trimmed text is shorter than this is refused. */
  const MinResumeLength: nat := 100

  /** The three fields of a JSON body; a missing field is `None`. */
  datatype JsonFields = JsonFields(jobDescription: Option<string>, skills: Option<string>, resume: Option<string>)

  datatype FormFields = FormFields(
    jobDescription: Option<string>,
    skills: Option<string>,
    resume: Option<FormEntry>,
    resumeFile: Option<UploadedFile>)

  /** A request: its content type, its JSON body (`None` when `request.json()`
      fails) and its form (`Unreadable` when `request.formData()` throws).
      Which of the two bodies is read depends on the content type. */
  datatype AnalyzeRequest = AnalyzeRequest(contentType: string, jsonBody: Option<JsonFields>, form: FormRead<FormFields>)

  datatype AnalyzeResponse = Analysis(body: LanguageModel.JsonValue) | ErrorResponse(status: nat, error: string)

  /** The inputs after resolution, as the `let` variables hold them at the
      validation checks. */
  datatype ResolvedInput = ResolvedInput(
    jobDescription: string,
    skills: string,
    resume: string,
    extractedText: string,
    usedPdfExtraction: bool)

  /** The extraction route answered OK and successfully with text of at least
      100 characters. A fetch that failed is `None`. */
  predicate PdfTextTrusted(extraction: Option<ExtractPdfRoute.ExtractResponse>)
  {
    && extraction.Some? && extraction.value.Extracted?
    && extraction.value.extractedText != ""
    && |extraction.value.extractedText| >= TrustedPdfTextLength
  }

  /** Where the resume comes from in a form request: the text field if it is
      non-empty, else the uploaded file, read through the extraction route
      for a PDF whose extraction is trusted and as raw text otherwise. */
  function ResolveForm(form: FormFields, extraction: Option<ExtractPdfRoute.ExtractResponse>): (r: ResolvedInput)
    ensures r.jobDescription == TextOrEmpty(form.jobDescription) && r.skills == TextOrEmpty(form.skills)
    ensures r.usedPdfExtraction ==> r.extractedText == r.resume && |r.resume| >= TrustedPdfTextLength
    ensures !r.usedPdfExtraction ==> r.extractedText == ""
    ensures TextEntryOrEmpty(form.resume) != "" ==> r.resume == TextEntryOrEmpty(form.resume) && !r.usedPdfExtraction
    ensures TextEntryOrEmpty(form.resume) == "" && form.resumeFile.None? ==> r.resume == "" && !r.usedPdfExtraction
  {
    var jobDescription := TextOrEmpty(form.jobDescription);
    var skills := TextOrEmpty(form.skills);
    var text := TextEntryOrEmpty(form.resume);
    if text != "" then ResolvedInput(jobDescription, skills, text, "", false)
    else if form.resumeFile.None? then ResolvedInput(jobDescription, skills, "", "", false)
    else
      var file := form.resumeFile.value;
      if file.mimeType == PdfMimeType && PdfTextTrusted(extraction) then
        var t := extraction.value.extractedText;
        ResolvedInput(jobDescription, skills, t, t, true)
      else ResolvedInput(jobDescription, skills, file.text, "", false)
  }

  /** The input-reading half of the handler: a JSON body (each field
      defaulting to "") or the form. A body that cannot be read as JSON is a
      400; a form that cannot be read reaches the outer `catch`, a 500. */
  function ResolveInput(request: AnalyzeRequest, extraction: Option<ExtractPdfRoute.ExtractResponse>)
    : (r: Result<ResolvedInput, AnalyzeResponse>)
    ensures r.Err? <==> if Contains(request.contentType, JsonContentType) then request.jsonBody.None?
                        else request.form.Unreadable?
    ensures r.Err? && Contains(request.contentType, JsonContentType) ==> r.error == ErrorResponse(400, InvalidJsonError)
    ensures r.Err? && !Contains(request.contentType, JsonContentType) ==> r.error == ErrorResponse(500, AnalysisFailed)
    ensures Contains(request.contentType, JsonContentType) && request.jsonBody.Some? ==>
            var body := request.jsonBody.value;
            r == Ok(ResolvedInput(TextOrEmpty(body.jobDescription), TextOrEmpty(body.skills),
                                  TextOrEmpty(body.resume), "", false))
    ensures !Contains(request.contentType, JsonContentType) && request.form.Read? ==>
            r == Ok(ResolveForm(request.form.fields, extraction))
  {
    if Contains(request.contentType, JsonContentType) then
      if request.jsonBody.None? then Err(ErrorResponse(400, InvalidJsonError))
      else
        var body := request.jsonBody.value;
        Ok(ResolvedInput(TextOrEmpty(body.jobDescription), TextOrEmpty(body.skills),
                         TextOrEmpty(body.resume), "", false))
    else if request.form.Unreadable? then Err(ErrorResponse(500, AnalysisFailed))
    else Ok(ResolveForm(request.form.fields, extraction))
  }

  /** `{...analysisResult, extractedText}` */
  function WithExtractedText(v: LanguageModel.JsonValue, text: string): LanguageModel.JsonValue
  {
    if v.JsonObject? then LanguageModel.JsonObject(v.members["extractedText" := LanguageModel.JsonString(text)])
    else v
  }

  /** The validating half of the handler: job description first, then the
      resume length, then the model. */
  function Respond(input: ResolvedInput, apiKey: string,
                   invoke: LanguageModel.PromptFields -> string,
                   parse: string -> LanguageModel.ParseOutcome): (r: AnalyzeResponse)
    ensures input.jobDescription == "" ==> r == ErrorResponse(400, JobDescriptionRequired)
    ensures input.jobDescription != "" && |Trim(input.resume)| < MinResumeLength ==>
            r == ErrorResponse(400, ResumeTooShort)
    ensures r.Analysis? ==> input.jobDescription != "" && |Trim(input.resume)| >= MinResumeLength
    ensures input.jobDescription != "" && |Trim(input.resume)| >= MinResumeLength ==>
            var a := LanguageModel.AnalyzeResumeResult(input.jobDescription, input.resume, input.skills,
                                                       apiKey, invoke, parse);
            && (a.Err? ==> r == ErrorResponse(500, AnalysisFailed))
            && (a.Ok? && input.usedPdfExtraction && input.extractedText != "" ==>
                r == Analysis(WithExtractedText(a.value, input.extractedText)))
            && (a.Ok? && !(input.usedPdfExtraction && input.extractedText != "") ==> r == Analysis(a.value))
  {
    if input.jobDescription == "" then ErrorResponse(400, JobDescriptionRequired)
    else if input.resume == "" || |Trim(input.resume)| < MinResumeLength then ErrorResponse(400, ResumeTooShort)
    else
      match LanguageModel.AnalyzeResumeResult(input.jobDescription, input.resume, input.skills, apiKey, invoke, parse)
      case Err(_) => ErrorResponse(500, AnalysisFailed)
      case Ok(v) =>
        if input.usedPdfExtraction && input.extractedText != "" then Analysis(WithExtractedText(v, input.extractedText))
        else Analysis(v)
  }

  function PostAnalyzeResult(request: AnalyzeRequest, extraction: Option<ExtractPdfRoute.ExtractResponse>,
                             apiKey: string, invoke: LanguageModel.PromptFields -> string,
                             parse: string -> LanguageModel.ParseOutcome): AnalyzeResponse
  {
    match ResolveInput(request, extraction)
    case Err(response) => response
    case Ok(input) => Respond(input, apiKey, invoke, parse)
  }

  /** The `POST` handler, overwriting its `let` variables along the branches
      as the route does. */
  method PostAnalyzeResume(request: AnalyzeRequest, extraction: Option<ExtractPdfRoute.ExtractResponse>,
                           apiKey: string, invoke: LanguageModel.PromptFields -> string,
                           parse: string -> LanguageModel.ParseOutcome)
    returns (response: AnalyzeResponse)
    ensures response == PostAnalyzeResult(request, extraction, apiKey, invoke, parse)
  {
    var jobDescription := "";
    var skills := "";
    var resume := "";
    var extractedText := "";
    var usedPdfExtraction := false;

    if Contains(request.contentType, JsonContentType) {
      if request.jsonBody.None? {
        return ErrorResponse(400, InvalidJsonError);
      }
      var body := request.jsonBody.value;
      jobDescription := TextOrEmpty(body.jobDescription);
      skills := TextOrEmpty(body.skills);
      resume := TextOrEmpty(body.resume);
    } else {
      if request.form.Unreadable? {
        return ErrorResponse(500, AnalysisFailed);
      }
      var form := request.form.fields;
      jobDescription := TextOrEmpty(form.jobDescription);
      skills := TextOrEmpty(form.skills);
      if form.resume.Some? && form.resume.value.TextEntry? && form.resume.value.value != "" {
        resume := form.resume.value.value;
      }
      if resume == "" && form.resumeFile.Some? {
        var file := form.resumeFile.value;
        if file.mimeType == PdfMimeType {
          if extraction.Some? && extraction.value.Extracted? && extraction.value.extractedText != "" {
            if |extraction.value.extractedText| < TrustedPdfTextLength {
              resume := file.text;
            } else {
              extractedText := extraction.value.extractedText;
              resume := extractedText;
              usedPdfExtraction := true;
            }
          } else {
            resume := file.text;
          }
        } else {
          resume := file.text;
        }
      }
    }
    assert ResolveInput(request, extraction) == Ok(ResolvedInput(jobDescription, skills, resume, extractedText, usedPdfExtraction));

    if jobDescription == "" {
      return ErrorResponse(400, JobDescriptionRequired);
    }
    if resume == "" || |Trim(resume)| < MinResumeLength {
      return ErrorResponse(400, ResumeTooShort);
    }
    var analysis := LanguageModel.AnalyzeResume(jobDescription, resume, skills, apiKey, invoke, parse);
    if analysis.Err? {
      return ErrorResponse(500, AnalysisFailed);
    }
    if usedPdfExtraction && extractedText != "" {
      return Analysis(WithExtractedText(analysis.value, extractedText));
    }
    return Analysis(analysis.value);
  }

  // ---------------------------------------------------------------------------
  // The policy, stated over the specification

  /** For an uploaded PDF with no resume text, the extracted text is used
      exactly when the extraction is trusted; otherwise the raw file text is. */
  lemma PdfUploadPolicy(form: FormFields, extraction: Option<ExtractPdfRoute.ExtractResponse>)
    requires TextEntryOrEmpty(form.resume) == ""
    requires form.resumeFile.Some? && form.resumeFile.value.mimeType == PdfMimeType
    ensures ResolveForm(form, extraction).usedPdfExtraction <==> PdfTextTrusted(extraction)
    ensures ResolveForm(form, extraction).resume ==
            if PdfTextTrusted(extraction) then extraction.value.extractedText else form.resumeFile.value.text
  {
  }

  /** A file of any other type is always read as raw text. */
  lemma NonPdfUploadUsesFileText(form: FormFields, extraction: Option<ExtractPdfRoute.ExtractResponse>)
    requires TextEntryOrEmpty(form.resume) == ""
    requires form.resumeFile.Some? && form.resumeFile.value.mimeType != PdfMimeType
    ensures ResolveForm(form, extraction).resume == form.resumeFile.value.text
    ensures !ResolveForm(form, extraction).usedPdfExtraction
  {
  }

  /** Through the extraction route itself: the PDF text is trusted exactly
      when the file has the signature and the parser yields at least 100
      characters. */
  lemma TrustedThroughExtractRoute(file: UploadedFile, pdfParse: seq<byte> -> ExtractPdfRoute.ParserOutcome)
    ensures PdfTextTrusted(Some(ExtractPdfRoute.PostExtractPdf(Read(Some(file)), pdfParse))) <==>
            && ExtractPdfRoute.IsPdf(file.bytes)
            && pdfParse(file.bytes).ParserText? && pdfParse(file.bytes).text.Some?
            && |pdfParse(file.bytes).text.value| >= TrustedPdfTextLength
  {
  }

  /** A missing job description is reported before anything about the resume. */
  lemma JobDescriptionCheckedFirst(input: ResolvedInput, apiKey: string,
                                   invoke: LanguageModel.PromptFields -> string,
                                   parse: string -> LanguageModel.ParseOutcome)
    requires input.jobDescription == ""
    ensures Respond(input, apiKey, invoke, parse) == ErrorResponse(400, JobDescriptionRequired)
  {
  }

  /** A short resume is refused whatever the model and the parser would do:
      they are never consulted. */
  lemma ShortResumeNeverAnalyzed(input: ResolvedInput, apiKey: string,
                                 invoke1: LanguageModel.PromptFields -> string,
                                 parse1: string -> LanguageModel.ParseOutcome,
                                 invoke2: LanguageModel.PromptFields -> string,
                                 parse2: string -> LanguageModel.ParseOutcome)
    requires input.jobDescription != "" && |Trim(input.resume)| < MinResumeLength
    ensures Respond(input, apiKey, invoke1, parse1) == Respond(input, apiKey, invoke2, parse2)
    ensures Respond(input, apiKey, invoke1, parse1).Analysis? == false
  {
  }

  /** The response carries the extracted text only when the PDF path was
      used; otherwise it is the model's analysis as it is. */
  lemma ExtractedTextOnlyFromPdf(input: ResolvedInput, apiKey: string,
                                 invoke: LanguageModel.PromptFields -> string,
                                 parse: string -> LanguageModel.ParseOutcome)
    requires Respond(input, apiKey, invoke, parse).Analysis?
    ensures var a := LanguageModel.AnalyzeResumeResult(input.jobDescription, input.resume, input.skills, apiKey, invoke, parse);
            && a.Ok?
            && a.value.JsonObject?
            && (input.usedPdfExtraction && input.extractedText != "" ==>
                 Respond(input, apiKey, invoke, parse).body.members ==
                 a.value.members["extractedText" := LanguageModel.JsonString(input.extractedText)])
            && (!input.usedPdfExtraction ==> Respond(input, apiKey, invoke, parse).body == a.value)
  {
  }
}
