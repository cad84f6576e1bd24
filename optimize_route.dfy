/** The `/api/optimize-resume` route: the uploaded file overrides the resume
    text field, a blank resume becomes an instruction to write one from the
    skills, and the model's reply is returned as the optimized resume. The
    model is an input. */
module OptimizeRoute {

  import opened Outcomes
  import opened JsText
  import opened FormData
  import LanguageModel

  const JobDescriptionRequired: string := "Job description is required"
  const GenerationFailedPrefix: string := "Failed to generate optimized resume: "
  const PlaceholderPrefix: string := "Please create a professional resume based on the following skills: "
  const DefaultSkills: string := "general professional skills"

  datatype OptimizeRequest = OptimizeRequest(
    jobDescription: Option<string>,
    skills: Option<string>,
    resume: Option<FormEntry>,
    resumeFile: Option<UploadedFile>)

  datatype OptimizeResponse = Optimized(optimizedResume: string) | ErrorResponse(status: nat, error: string)

  /** The instruction sent in place of a blank resume. */
  function Placeholder(skills: string): (r: string)
    ensures StartsWith(r, PlaceholderPrefix)
    ensures skills != "" ==> r[|PlaceholderPrefix|..] == skills
    ensures skills == "" ==> r[|PlaceholderPrefix|..] == DefaultSkills
  {
    PlaceholderPrefix + (if skills != "" then skills else DefaultSkills)
  }

  /** The resume the route sends: the file's text when a file came, else the
      text field; a blank result is replaced by the placeholder. */
  function ResumeToSend(request: OptimizeRequest): (r: string)
    ensures request.resumeFile.Some? && Trim(request.resumeFile.value.text) != "" ==>
            r == request.resumeFile.value.text
    ensures request.resumeFile.None? && Trim(TextEntryOrEmpty(request.resume)) != "" ==>
            r == TextEntryOrEmpty(request.resume)
    ensures var sent := if request.resumeFile.Some? then request.resumeFile.value.text else TextEntryOrEmpty(request.resume);
            Trim(sent) == "" ==> r == Placeholder(TextOrEmpty(request.skills))
  {
    var resume := if request.resumeFile.Some? then request.resumeFile.value.text else TextEntryOrEmpty(request.resume);
    if Trim(resume) == "" then Placeholder(TextOrEmpty(request.skills))
    else resume
  }

  /** The handler's answer: a form that cannot be read reaches the `catch`,
      as does a failure of the model. */
  function PostOptimizeResult(form: FormRead<OptimizeRequest>, apiKey: string,
                              invoke: LanguageModel.OptimizePrompt -> string): (r: OptimizeResponse)
    ensures form.Unreadable? ==> r == ErrorResponse(500, GenerationFailedPrefix + ErrorMessage(form.message))
    ensures form.Read? && TextOrEmpty(form.fields.jobDescription) == "" ==>
            r == ErrorResponse(400, JobDescriptionRequired)
    ensures r.ErrorResponse? && r.status == 500 ==> StartsWith(r.error, GenerationFailedPrefix)
  {
    match form
    case Unreadable(message) => ErrorResponse(500, GenerationFailedPrefix + ErrorMessage(message))
    case Read(request) =>
      if TextOrEmpty(request.jobDescription) == "" then ErrorResponse(400, JobDescriptionRequired)
      else
        var skills := TextOrEmpty(request.skills);
        match LanguageModel.GenerateOptimizedResumeResult(TextOrEmpty(request.jobDescription), ResumeToSend(request),
                                                          skills, None, apiKey, invoke)
        case Ok(text) => Optimized(text)
        case Err(message) => ErrorResponse(500, GenerationFailedPrefix + message)
  }

  /** The `POST` handler, reassigning `resume` in the route's order. */
  method PostOptimizeResume(form: FormRead<OptimizeRequest>, apiKey: string,
                            invoke: LanguageModel.OptimizePrompt -> string)
    returns (response: OptimizeResponse)
    ensures response == PostOptimizeResult(form, apiKey, invoke)
  {
    if form.Unreadable? {
      return ErrorResponse(500, GenerationFailedPrefix + ErrorMessage(form.message));
    }
    var request := form.fields;
    var jobDescription := TextOrEmpty(request.jobDescription);
    var skills := TextOrEmpty(request.skills);
    var resume := "";
    if request.resume.Some? && request.resume.value.TextEntry? && request.resume.value.value != "" {
      resume := request.resume.value.value;
    }
    if request.resumeFile.Some? {
      resume := request.resumeFile.value.text;
    }
    if jobDescription == "" {
      return ErrorResponse(400, JobDescriptionRequired);
    }
    if Trim(resume) == "" {
      resume := Placeholder(skills);
    }
    assert resume == ResumeToSend(request);
    var optimized := LanguageModel.GenerateOptimizedResume(jobDescription, resume, skills, None, apiKey, invoke);
    if optimized.Err? {
      return ErrorResponse(500, GenerationFailedPrefix + optimized.error);
    }
    return Optimized(optimized.value);
  }

  /** A file wins over the text field even when both are present. */
  lemma FileOverridesText(request: OptimizeRequest)
    requires request.resume.Some? && request.resumeFile.Some?
    requires Trim(request.resumeFile.value.text) != ""
    ensures ResumeToSend(request) == request.resumeFile.value.text
  {
  }

  /** With no resume at all, the model is asked to write one from the skills
      (or from "general professional skills"), and the route sends no user
      details, so all of them read "Not provided". */
  lemma BlankResumeUsesPlaceholder(request: OptimizeRequest)
    requires request.resume.None? && request.resumeFile.None?
    ensures ResumeToSend(request) == Placeholder(TextOrEmpty(request.skills))
    ensures LanguageModel.UserPromptFields(None).name == LanguageModel.NotProvided
  {
    assert Trim("") == "";
  }

  /** On success the body is exactly the model's reply to the prompt built
      from the resolved inputs. */
  lemma SuccessIsModelReply(request: OptimizeRequest, apiKey: string,
                            invoke: LanguageModel.OptimizePrompt -> string)
    requires TextOrEmpty(request.jobDescription) != "" && apiKey != ""
    ensures PostOptimizeResult(Read(request), apiKey, invoke) ==
            Optimized(invoke(LanguageModel.OptimizePrompt(
              LanguageModel.TruncatedFields(TextOrEmpty(request.jobDescription), ResumeToSend(request),
                                            TextOrEmpty(request.skills)),
              LanguageModel.UserPromptFields(None))))
  {
  }
}
