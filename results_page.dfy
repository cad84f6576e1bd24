/** The results page's handlers that choose resume text and update the
    browser cache: re-scoring, optimizing and saving edits, plus the
    placeholder resume. The page's React state and its `localStorage` are
    the fields of a class; the replies of the API routes are inputs. */
module ResultsPage {

  import opened Outcomes
  import opened JsText
  import PdfText
  import LanguageModel
  import AnalyzeRoute
  import OptimizeRoute

  const PdfMagic: string := "%PDF"

  // Cache keys
  const OptimizedResumeKey: string := "optimizedResume"
  const ExtractedOptimizedKey: string := "extractedOptimizedResumeText"
  const ResumeKey: string := "resume"
  const ExtractedResumeKey: string := "extractedResumeText"
  const AnalysisResultKey: string := "analysisResult"

  // Messages
  const ScoreFailure: string := "Failed to update the score. Please try again."
  const NoValidContent: string := "No valid resume content found. Please edit your resume first."
  const AnalyzeFallback: string := "Failed to analyze resume"
  const OptimizeFailure: string := "Failed to optimize resume. Please try again."
  const JobDescriptionMissing: string := "Job description is required to optimize resume"
  const NoUsableText: string := "No usable resume text found for optimization"
  const TooShortToOptimize: string := "Resume text is too short or empty. Please edit your resume first."
  const OptimizeFallback: string := "Failed to optimize resume"
  const IncompleteResponse: string := "Server returned an incomplete response"

  /** A candidate text must be longer than this to be re-scored. */
  const RescoreMinLength: nat := 100
  /** The text sent for optimization must be at least this long. */
  const OptimizeMinLength: nat := 100

  /** The page's error banner: a fixed sentence and the error's message in parentheses. */
  function WithDetail(prefix: string, message: string): string
  {
    prefix + " (" + message + ")"
  }

  /** `localStorage.getItem(key)`: `null` for a missing key. */
  function Lookup(cache: map<string, string>, key: string): (r: Option<string>)
    ensures r.Some? <==> key in cache
    ensures r.Some? ==> r.value == cache[key]
  {
    if key in cache then Some(cache[key]) else None
  }

  datatype Tab = OriginalTab | OptimizedTab

  /** Everything the handlers read or write. */
  datatype PageState = PageState(
    cache: map<string, string>,
    activeTab: Tab,
    analysisResult: Option<LanguageModel.JsonValue>,
    optimizedResume: Option<string>,
    isOptimizing: bool,
    error: Option<string>,
    jobDescription: string,
    resume: string,
    skills: string,
    isEditMode: bool,
    editableContent: string)

  /** A handler's effect: the new state and the resume text it sent, if it sent a request. */
  datatype Step = Step(state: PageState, sent: Option<string>)

  // ---------------------------------------------------------------------------
  // Saving edits

  /** The two cache keys an edit on a tab is saved under. */
  function TabKeys(tab: Tab): set<string>
  {
    if tab == OptimizedTab then {OptimizedResumeKey, ExtractedOptimizedKey} else {ResumeKey, ExtractedResumeKey}
  }

  /** `saveChanges` */
  function SaveChangesStep(s: PageState): PageState
  {
    var e := s.editableContent;
    if s.activeTab == OptimizedTab then
      s.(optimizedResume := Some(e), cache := s.cache[OptimizedResumeKey := e][ExtractedOptimizedKey := e])
    else
      s.(resume := e, cache := s.cache[ResumeKey := e][ExtractedResumeKey := e])
  }

  /** Saving writes the edited text under exactly the active tab's two keys
      and leaves every other key, and the other tab's text, as it was. */
  lemma SaveChangesWritesTabKeys(s: PageState)
    ensures forall k :: k in TabKeys(s.activeTab) ==> Lookup(SaveChangesStep(s).cache, k) == Some(s.editableContent)
    ensures forall k :: k !in TabKeys(s.activeTab) ==> Lookup(SaveChangesStep(s).cache, k) == Lookup(s.cache, k)
    ensures s.activeTab == OptimizedTab ==>
            SaveChangesStep(s).optimizedResume == Some(s.editableContent) && SaveChangesStep(s).resume == s.resume
    ensures s.activeTab == OriginalTab ==>
            SaveChangesStep(s).resume == s.editableContent && SaveChangesStep(s).optimizedResume == s.optimizedResume
  {
  }

  // ---------------------------------------------------------------------------
  // Re-scoring

  datatype RescoreSource = StoredOptimized | StateOptimized | StoredResume | StateResume | StoredExtracted

  /** The sources tried, in order, on each tab. */
  function RescoreCandidates(tab: Tab): seq<RescoreSource>
  {
    if tab == OptimizedTab then [StoredOptimized, StateOptimized, StoredResume, StateResume, StoredExtracted]
    else [StoredResume, StateResume, StoredExtracted]
  }

  function CandidateText(s: PageState, source: RescoreSource): Option<string>
  {
    match source
    case StoredOptimized => Lookup(s.cache, OptimizedResumeKey)
    case StateOptimized => s.optimizedResume
    case StoredResume => Lookup(s.cache, ResumeKey)
    case StateResume => Some(s.resume)
    case StoredExtracted => Lookup(s.cache, ExtractedResumeKey)
  }

  /** Longer than 100 characters and, except for the extracted text, not raw PDF data. */
  predicate Qualifies(s: PageState, source: RescoreSource)
  {
    var t := CandidateText(s, source);
    t.Some? && |t.value| > RescoreMinLength && (source == StoredExtracted || !StartsWith(t.value, PdfMagic))
  }

  function QualifiesIn(s: PageState): RescoreSource -> bool
  {
    src => Qualifies(s, src)
  }

  /** The first candidate of the active tab that qualifies. */
  function RescoreChoice(s: PageState): (r: Option<RescoreSource>)
    ensures r.Some? ==> Qualifies(s, r.value) && r.value in RescoreCandidates(s.activeTab)
    ensures r.None? <==> forall src :: src in RescoreCandidates(s.activeTab) ==> !Qualifies(s, src)
  {
    var candidates := RescoreCandidates(s.activeTab);
    match FirstIndex(candidates, QualifiesIn(s))
    case None => None
    case Some(i) => Some(candidates[i])
  }

  /** The state updates made while choosing: a stored text that is chosen
      is copied into the matching state variable. */
  function AfterChoice(s: PageState, source: RescoreSource): PageState
    requires CandidateText(s, source).Some?
  {
    var text := CandidateText(s, source).value;
    match source
    case StoredOptimized => s.(optimizedResume := Some(text))
    case StoredResume => s.(resume := text)
    case StoredExtracted => s.(resume := text)
    case _ => s
  }

  /** Choosing a source touches neither the busy flag nor the error. */
  lemma AfterChoiceKeepsFlags(s: PageState, source: RescoreSource)
    requires CandidateText(s, source).Some?
    ensures AfterChoice(s, source).(isOptimizing := true, error := None)
            == AfterChoice(s.(isOptimizing := true, error := None), source)
  {
  }

  /** `result.extractedText` when it is a string longer than 100 characters. */
  function ExtractedTextOf(body: LanguageModel.JsonValue): (r: Option<string>)
    ensures r.Some? ==> |r.value| > RescoreMinLength
  {
    if body.JsonObject? && "extractedText" in body.members && body.members["extractedText"].JsonString?
       && |body.members["extractedText"].s| > RescoreMinLength
    then Some(body.members["extractedText"].s)
    else None
  }

  /** The cache after a successful re-score. */
  function RescoreCache(cache: map<string, string>, tab: Tab, body: LanguageModel.JsonValue,
                        stringify: LanguageModel.JsonValue -> string): map<string, string>
  {
    var withText :=
      match ExtractedTextOf(body)
      case None => cache
      case Some(t) => if tab == OriginalTab then cache[ExtractedResumeKey := t][ResumeKey := t] else cache[ExtractedResumeKey := t];
    withText[AnalysisResultKey := stringify(body)]
  }

  /** The reply's effect on the state once a text was sent. */
  function RescoreReplyStep(s: PageState, reply: AnalyzeRoute.AnalyzeResponse,
                            stringify: LanguageModel.JsonValue -> string): PageState
  {
    match reply
    case ErrorResponse(_, e) =>
      s.(error := Some(WithDetail(ScoreFailure, if e != "" then e else AnalyzeFallback)), isOptimizing := false)
    case Analysis(body) =>
      var extracted := ExtractedTextOf(body);
      s.(analysisResult := Some(body),
         resume := if extracted.Some? && s.activeTab == OriginalTab then extracted.value else s.resume,
         cache := RescoreCache(s.cache, s.activeTab, body, stringify),
         isOptimizing := false)
  }

  /** `handleGetNewScore`, given the analyze route's reply to the request it
      sends and `JSON.stringify`. */
  function GetNewScoreStep(s: PageState, reply: AnalyzeRoute.AnalyzeResponse,
                           stringify: LanguageModel.JsonValue -> string): Step
  {
    if s.isOptimizing then Step(s, None)
    else
      var s0 := s.(isOptimizing := true, error := None);
      match RescoreChoice(s)
      case None => Step(s0.(error := Some(WithDetail(ScoreFailure, NoValidContent)), isOptimizing := false), None)
      case Some(source) =>
        var text := CandidateText(s, source).value;
        Step(RescoreReplyStep(AfterChoice(s0, source), reply, stringify), Some(text))
  }

  /** A re-score requested while one is running changes nothing. */
  lemma RescoreIgnoredWhileOptimizing(s: PageState, reply: AnalyzeRoute.AnalyzeResponse,
                                      stringify: LanguageModel.JsonValue -> string)
    requires s.isOptimizing
    ensures GetNewScoreStep(s, reply, stringify) == Step(s, None)
  {
  }

  /** The request carries the text of the first qualifying source, which is
      longer than 100 characters; with none, no request is sent. */
  lemma RescoreSendsFirstQualifying(s: PageState, reply: AnalyzeRoute.AnalyzeResponse,
                                    stringify: LanguageModel.JsonValue -> string)
    requires !s.isOptimizing
    ensures GetNewScoreStep(s, reply, stringify).sent.Some? <==> RescoreChoice(s).Some?
    ensures RescoreChoice(s).Some? ==>
            GetNewScoreStep(s, reply, stringify).sent == CandidateText(s, RescoreChoice(s).value)
    ensures GetNewScoreStep(s, reply, stringify).sent.Some? ==>
            |GetNewScoreStep(s, reply, stringify).sent.value| > RescoreMinLength
    ensures RescoreChoice(s).None? ==>
            GetNewScoreStep(s, reply, stringify).state.error == Some(WithDetail(ScoreFailure, NoValidContent))
  {
  }

  /** On the optimized tab a qualifying stored optimized resume always wins;
      the original tab never re-scores optimized text. */
  lemma RescoreSourcePriority(s: PageState)
    ensures s.activeTab == OptimizedTab && Qualifies(s, StoredOptimized) ==> RescoreChoice(s) == Some(StoredOptimized)
    ensures s.activeTab == OriginalTab ==> RescoreChoice(s) != Some(StoredOptimized) && RescoreChoice(s) != Some(StateOptimized)
    ensures s.activeTab == OptimizedTab && RescoreChoice(s) == Some(StoredExtracted) ==>
            forall src :: src in {StoredOptimized, StateOptimized, StoredResume, StateResume} ==> !Qualifies(s, src)
  {
    ChoiceFollowsChain(s);
  }

  /** The cache changes only after a successful reply: "analysisResult" is
      then written; "extractedResumeText" only for extracted text longer than
      100 characters; "resume" only on the original tab; nothing else. */
  lemma RescoreCacheWrites(s: PageState, reply: AnalyzeRoute.AnalyzeResponse,
                           stringify: LanguageModel.JsonValue -> string)
    ensures var after := GetNewScoreStep(s, reply, stringify).state.cache;
      && (after != s.cache ==> !s.isOptimizing && RescoreChoice(s).Some? && reply.Analysis?)
      && (!s.isOptimizing && RescoreChoice(s).Some? && reply.Analysis? ==>
            Lookup(after, AnalysisResultKey) == Some(stringify(reply.body)))
      && (Lookup(after, ExtractedResumeKey) != Lookup(s.cache, ExtractedResumeKey) ==>
            reply.Analysis? && ExtractedTextOf(reply.body).Some?)
      && (Lookup(after, ResumeKey) != Lookup(s.cache, ResumeKey) ==>
            reply.Analysis? && ExtractedTextOf(reply.body).Some? && s.activeTab == OriginalTab)
      && (forall k :: k !in {AnalysisResultKey, ExtractedResumeKey, ResumeKey} ==> Lookup(after, k) == Lookup(s.cache, k))
  {
    if !s.isOptimizing && RescoreChoice(s).Some? {
      var source := RescoreChoice(s).value;
      var chosen := AfterChoice(s.(isOptimizing := true, error := None), source);
      assert chosen.cache == s.cache && chosen.activeTab == s.activeTab;
      assert GetNewScoreStep(s, reply, stringify).state == RescoreReplyStep(chosen, reply, stringify);
      if reply.Analysis? {
        RescoreCacheKeys(s.cache, s.activeTab, reply.body, stringify);
      }
    }
  }

  /** The keys `RescoreCache` writes. */
  lemma RescoreCacheKeys(cache: map<string, string>, tab: Tab, body: LanguageModel.JsonValue,
                         stringify: LanguageModel.JsonValue -> string)
    ensures var after := RescoreCache(cache, tab, body, stringify);
      && Lookup(after, AnalysisResultKey) == Some(stringify(body))
      && (Lookup(after, ExtractedResumeKey) != Lookup(cache, ExtractedResumeKey) ==> ExtractedTextOf(body).Some?)
      && (Lookup(after, ResumeKey) != Lookup(cache, ResumeKey) ==> ExtractedTextOf(body).Some? && tab == OriginalTab)
      && (forall k :: k !in {AnalysisResultKey, ExtractedResumeKey, ResumeKey} ==> Lookup(after, k) == Lookup(cache, k))
  {
    assert |AnalysisResultKey| != |ExtractedResumeKey| && |AnalysisResultKey| != |ResumeKey|;
  }

  // ---------------------------------------------------------------------------
  // Optimizing

  /** The text chosen for optimization, and whether it came from extracting
      the PDF held in the state (it is then cached at once). */
  datatype OptimizationText = OptimizationText(text: string, extractedLocally: bool)

  /** The cache holds an extracted text longer than 100 characters. */
  predicate UsableExtractedText(cache: map<string, string>)
  {
    Lookup(cache, ExtractedResumeKey).Some? && |Lookup(cache, ExtractedResumeKey).value| > 100
  }

  /** The cache holds a resume that is non-empty text, not PDF data. */
  predicate UsableSavedResume(cache: map<string, string>)
  {
    Lookup(cache, ResumeKey).Some? && Lookup(cache, ResumeKey).value != "" &&
    !StartsWith(Lookup(cache, ResumeKey).value, PdfMagic)
  }

  /** The priority order of `handleOptimizeResume`: the state's resume if it
      is text; else the cached extracted text if longer than 100 characters;
      else, for PDF data in the state, its extraction when longer than 100
      characters, falling back to the cached resume if that is text; else
      nothing. */
  function OptimizationSource(resume: string, cache: map<string, string>): (r: Result<OptimizationText, string>)
    ensures r.Ok? && r.value.extractedLocally ==>
            StartsWith(resume, PdfMagic) && r.value.text == PdfText.ExtractTextFromPdfAsWritten(resume) && |r.value.text| > 100
    ensures r.Err? ==> r.error == NoUsableText && StartsWith(resume, PdfMagic)
    ensures resume != "" && !StartsWith(resume, PdfMagic) ==> r == Ok(OptimizationText(resume, false))
    ensures StartsWith(resume, PdfMagic) && Lookup(cache, ExtractedResumeKey).Some? &&
            |Lookup(cache, ExtractedResumeKey).value| > 100 ==>
            r == Ok(OptimizationText(Lookup(cache, ExtractedResumeKey).value, false))
    ensures r.Ok? && !r.value.extractedLocally ==>
            r.value.text == resume || Lookup(cache, ExtractedResumeKey) == Some(r.value.text) ||
            Lookup(cache, ResumeKey) == Some(r.value.text)
    ensures StartsWith(resume, PdfMagic) && !UsableExtractedText(cache) &&
            |PdfText.ExtractTextFromPdfAsWritten(resume)| > 100 ==>
            r == Ok(OptimizationText(PdfText.ExtractTextFromPdfAsWritten(resume), true))
    ensures StartsWith(resume, PdfMagic) && !UsableExtractedText(cache) &&
            |PdfText.ExtractTextFromPdfAsWritten(resume)| <= 100 && UsableSavedResume(cache) ==>
            r == Ok(OptimizationText(Lookup(cache, ResumeKey).value, false))
    ensures r.Err? <==>
            StartsWith(resume, PdfMagic) && !UsableExtractedText(cache) &&
            |PdfText.ExtractTextFromPdfAsWritten(resume)| <= 100 && !UsableSavedResume(cache)
    ensures resume == "" && !UsableExtractedText(cache) ==> r == Ok(OptimizationText("", false))
  {
    if resume != "" && !StartsWith(resume, PdfMagic) then Ok(OptimizationText(resume, false))
    else
      var stored := Lookup(cache, ExtractedResumeKey);
      if stored.Some? && |stored.value| > 100 then Ok(OptimizationText(stored.value, false))
      else if resume != "" && StartsWith(resume, PdfMagic) then
        var content := PdfText.ExtractTextFromPdfAsWritten(resume);
        if content != "" && |content| > 100 then Ok(OptimizationText(content, true))
        else
          var saved := Lookup(cache, ResumeKey);
          if saved.Some? && saved.value != "" && !StartsWith(saved.value, PdfMagic) then Ok(OptimizationText(saved.value, false))
          else Err(NoUsableText)
      else Ok(OptimizationText("", false))
  }

  function OptimizeFailed(s: PageState, message: string): PageState
  {
    s.(error := Some(WithDetail(OptimizeFailure, message)), isOptimizing := false)
  }

  /** A text extracted from the PDF in the state is cached as soon as it is chosen. */
  function CacheExtraction(s: PageState, chosen: OptimizationText): PageState
  {
    if chosen.extractedLocally then s.(cache := s.cache[ExtractedResumeKey := chosen.text]) else s
  }

  /** Storing a non-empty optimized resume `o` produced from `text`. */
  function StoreOptimizedStep(s: PageState, text: string, o: string): PageState
  {
    var s1 := if s.resume == "" || StartsWith(s.resume, PdfMagic)
              then s.(resume := text, cache := s.cache[ResumeKey := text]) else s;
    var s2 := s1.(optimizedResume := Some(o), cache := s1.cache[OptimizedResumeKey := o]);
    var s3 := if s.isEditMode && s.activeTab == OptimizedTab then s2.(editableContent := o) else s2;
    s3.(activeTab := OptimizedTab)
  }

  /** The reply's effect on the state once `text` was sent. */
  function OptimizeReplyStep(s: PageState, text: string, reply: OptimizeRoute.OptimizeResponse): PageState
  {
    var after :=
      match reply
      case ErrorResponse(_, e) => s.(error := Some(WithDetail(OptimizeFailure, if e != "" then e else OptimizeFallback)))
      case Optimized(o) =>
        if o == "" then s.(error := Some(WithDetail(OptimizeFailure, IncompleteResponse)))
        else StoreOptimizedStep(s, text, o);
    after.(isOptimizing := false)
  }

  /** `handleOptimizeResume`, given the optimize route's reply to the request it sends. */
  function OptimizeResumeStep(s: PageState, reply: OptimizeRoute.OptimizeResponse): Step
  {
    var s0 := s.(isOptimizing := true, error := None);
    if Trim(s.jobDescription) == "" then Step(OptimizeFailed(s0, JobDescriptionMissing), None)
    else match OptimizationSource(s.resume, s.cache)
      case Err(e) => Step(OptimizeFailed(s0, e), None)
      case Ok(chosen) =>
        var s1 := CacheExtraction(s0, chosen);
        if Trim(chosen.text) == "" || |chosen.text| < OptimizeMinLength then Step(OptimizeFailed(s1, TooShortToOptimize), None)
        else Step(OptimizeReplyStep(s1, chosen.text, reply), Some(chosen.text))
  }

  /** The optimize request is only sent with a job description and with
      non-blank resume text of at least 100 characters. */
  lemma OptimizeSendsOnlyUsableText(s: PageState, reply: OptimizeRoute.OptimizeResponse)
    ensures var sent := OptimizeResumeStep(s, reply).sent;
      sent.Some? ==> Trim(s.jobDescription) != "" && Trim(sent.value) != "" && |sent.value| >= OptimizeMinLength
  {
  }

  /** "optimizedResume" is written, in the cache and the state, only when the
      reply carries a non-empty optimized resume; then both hold it and the
      optimized tab is shown. */
  lemma OptimizedWrittenOnlyOnSuccess(s: PageState, reply: OptimizeRoute.OptimizeResponse)
    ensures var after := OptimizeResumeStep(s, reply).state;
      && ((Lookup(after.cache, OptimizedResumeKey) != Lookup(s.cache, OptimizedResumeKey) || after.optimizedResume != s.optimizedResume)
            ==> reply.Optimized? && reply.optimizedResume != "")
      && (OptimizeResumeStep(s, reply).sent.Some? && reply.Optimized? && reply.optimizedResume != "" ==>
            && Lookup(after.cache, OptimizedResumeKey) == Some(reply.optimizedResume)
            && after.optimizedResume == Some(reply.optimizedResume)
            && after.activeTab == OptimizedTab && after.error.None?)
      && !after.isOptimizing
  {
    var source := OptimizationSource(s.resume, s.cache);
    if Trim(s.jobDescription) != "" && source.Ok? {
      var chosen := source.value;
      var s1 := CacheExtraction(s.(isOptimizing := true, error := None), chosen);
      assert |OptimizedResumeKey| != |ExtractedResumeKey|;
      assert Lookup(s1.cache, OptimizedResumeKey) == Lookup(s.cache, OptimizedResumeKey);
      if Trim(chosen.text) == "" || |chosen.text| < OptimizeMinLength {
        assert OptimizeResumeStep(s, reply) == Step(OptimizeFailed(s1, TooShortToOptimize), None);
      } else {
        assert OptimizeResumeStep(s, reply) == Step(OptimizeReplyStep(s1, chosen.text, reply), Some(chosen.text));
        ReplyWritesOptimized(s1, chosen.text, reply);
      }
    }
  }

  /** The optimize reply's part of the above. */
  lemma ReplyWritesOptimized(s: PageState, text: string, reply: OptimizeRoute.OptimizeResponse)
    ensures var after := OptimizeReplyStep(s, text, reply);
      && (reply.Optimized? && reply.optimizedResume != "" ==>
            && Lookup(after.cache, OptimizedResumeKey) == Some(reply.optimizedResume)
            && after.optimizedResume == Some(reply.optimizedResume)
            && after.activeTab == OptimizedTab && after.error == s.error)
      && (!(reply.Optimized? && reply.optimizedResume != "") ==>
            Lookup(after.cache, OptimizedResumeKey) == Lookup(s.cache, OptimizedResumeKey)
            && after.optimizedResume == s.optimizedResume)
      && !after.isOptimizing
  {
  }

  /** A locally extracted text is cached under "extractedResumeText" even if
      the request later fails. */
  lemma LocalExtractionCached(s: PageState, reply: OptimizeRoute.OptimizeResponse)
    requires Trim(s.jobDescription) != ""
    requires OptimizationSource(s.resume, s.cache).Ok? && OptimizationSource(s.resume, s.cache).value.extractedLocally
    ensures Lookup(OptimizeResumeStep(s, reply).state.cache, ExtractedResumeKey) ==
            Some(PdfText.ExtractTextFromPdfAsWritten(s.resume))
  {
    var chosen := OptimizationSource(s.resume, s.cache).value;
    var s1 := CacheExtraction(s.(isOptimizing := true, error := None), chosen);
    ReplyKeepsExtractedText(s1, chosen.text, reply);
  }

  /** The optimize reply never touches "extractedResumeText". */
  lemma ReplyKeepsExtractedText(s: PageState, text: string, reply: OptimizeRoute.OptimizeResponse)
    ensures Lookup(OptimizeReplyStep(s, text, reply).cache, ExtractedResumeKey) == Lookup(s.cache, ExtractedResumeKey)
  {
    assert |ResumeKey| != |ExtractedResumeKey| && |OptimizedResumeKey| != |ExtractedResumeKey|;
  }

  // ---------------------------------------------------------------------------
  // The placeholder resume

  const PlaceholderNotice: string :=
    "\n\n>> Your original resume text could not be extracted from the PDF. <<\n>> Please replace this text with your resume content. <<\n"

  const PlaceholderBody: string := PlaceholderNotice +
    "\nProfessional Summary:\n(Add a brief summary of your professional background and key qualifications.)\n\nWork Experience:\n(List your work experience, including job titles, companies, dates, and accomplishments.)\n\nEducation:\n(List your educational background, degrees, institutions, and graduation dates.)\n\nSkills:\n(List relevant skills for the position you're applying for.)\n\nCertifications:\n(List any professional certifications you hold.)\n"

  /** `value || fallback` */
  function OrDefault(value: Option<string>, fallback: string): string
  {
    if value.Some? && value.value != "" then value.value else fallback
  }

  /** `generateBasicResumePlaceholder`: a contact header from the saved user
      information (with the display defaults) and fixed section prompts. */
  function GenerateBasicResumePlaceholder(info: Option<LanguageModel.UserInfo>): (r: string)
    ensures |r| > 100
    ensures var name := OrDefault(if info.Some? then info.value.name else None, "Your Name");
            |name| < |r| && r[..|name|] == name && r[|name|] == '\n'
    ensures var name := OrDefault(if info.Some? then info.value.name else None, "Your Name");
            var email := OrDefault(if info.Some? then info.value.email else None, "email@example.com");
            var phone := OrDefault(if info.Some? then info.value.phone else None, "(123) 456-7890");
            |name| < |r| && r[|name| + 1..] == email + " | " + phone + PlaceholderBody
  {
    var name := OrDefault(if info.Some? then info.value.name else None, "Your Name");
    var email := OrDefault(if info.Some? then info.value.email else None, "email@example.com");
    var phone := OrDefault(if info.Some? then info.value.phone else None, "(123) 456-7890");
    var rest := email + " | " + phone + PlaceholderBody;
    FirstLine(name, rest);
    name + "\n" + rest
  }

  /** A line followed by a line break and the rest of the text splits back into both. */
  lemma FirstLine(line: string, rest: string)
    ensures var t := line + "\n" + rest;
      |t| == |line| + 1 + |rest| && t[..|line|] == line && t[|line|] == '\n' && t[|line| + 1..] == rest
  {
    var t := line + "\n" + rest;
    assert t[..|line|] == line;
    assert t[|line| + 1..] == rest;
  }

  // ---------------------------------------------------------------------------
  // The page

  class ResultsView {
    var cache: map<string, string>
    var activeTab: Tab
    var analysisResult: Option<LanguageModel.JsonValue>
    var optimizedResume: Option<string>
    var isOptimizing: bool
    var error: Option<string>
    var jobDescription: string
    var resume: string
    var skills: string
    var isEditMode: bool
    var editableContent: string

    function State(): PageState
      reads this
    {
      PageState(cache, activeTab, analysisResult, optimizedResume, isOptimizing, error,
                jobDescription, resume, skills, isEditMode, editableContent)
    }

    /** The `useState` initial values, over whatever the cache already holds. */
    constructor(cache: map<string, string>)
      ensures State() == PageState(cache, OriginalTab, None, None, false, None, "", "", "", false, "")
    {
      this.cache := cache;
      activeTab := OriginalTab;
      analysisResult := None;
      optimizedResume := None;
      isOptimizing := false;
      error := None;
      jobDescription := "";
      resume := "";
      skills := "";
      isEditMode := false;
      editableContent := "";
    }

    method SaveChanges()
      modifies this
      ensures State() == SaveChangesStep(old(State()))
    {
      if activeTab == OptimizedTab {
        optimizedResume := Some(editableContent);
        cache := cache[OptimizedResumeKey := editableContent];
        cache := cache[ExtractedOptimizedKey := editableContent];
      } else {
        resume := editableContent;
        cache := cache[ResumeKey := editableContent];
        cache := cache[ExtractedResumeKey := editableContent];
      }
    }

    /** `handleGetNewScore`: `sent` is the resume text posted to the analyze route. */
    method GetNewScore(reply: AnalyzeRoute.AnalyzeResponse, stringify: LanguageModel.JsonValue -> string)
      returns (sent: Option<string>)
      modifies this
      ensures Step(State(), sent) == GetNewScoreStep(old(State()), reply, stringify)
    {
      if isOptimizing {
        return None;
      }
      // The handler reads the state it closed over; React applies the two
      // flag updates only afterwards, so reading the sources first is the same.
      ghost var s := State();
      var currentResume := ChooseRescoreText();
      isOptimizing := true;
      error := None;
      if currentResume.None? {
        error := Some(WithDetail(ScoreFailure, NoValidContent));
        isOptimizing := false;
        return None;
      }
      ghost var source := RescoreChoice(s).value;
      ghost var chosen := AfterChoice(s.(isOptimizing := true, error := None), source);
      AfterChoiceKeepsFlags(s, source);
      assert State() == chosen;
      sent := currentResume;
      FinishRescore(reply, stringify);
      assert GetNewScoreStep(s, reply, stringify) == Step(RescoreReplyStep(chosen, reply, stringify), sent);
    }

    /** The source chain of `handleGetNewScore`, copying a chosen stored text
        into the state. */
    method ChooseRescoreText() returns (currentResume: Option<string>)
      modifies this
      ensures var s := old(State());
        match RescoreChoice(s)
        case None => currentResume.None? && State() == s
        case Some(source) => currentResume == CandidateText(s, source) && State() == AfterChoice(s, source)
    {
      ChoiceFollowsChain(State());
      var storedResume := Lookup(cache, ResumeKey);
      var extractedResumeText := Lookup(cache, ExtractedResumeKey);
      if activeTab == OptimizedTab {
        var storedOptimizedResume := Lookup(cache, OptimizedResumeKey);
        if storedOptimizedResume.Some? && |storedOptimizedResume.value| > RescoreMinLength
           && !StartsWith(storedOptimizedResume.value, PdfMagic) {
          currentResume := storedOptimizedResume;
          optimizedResume := storedOptimizedResume;
          return;
        } else if optimizedResume.Some? && |optimizedResume.value| > RescoreMinLength
                  && !StartsWith(optimizedResume.value, PdfMagic) {
          return optimizedResume;
        }
      }
      currentResume := ChooseResumeText(storedResume, extractedResumeText);
    }

    /** The three sources both tabs end with: the stored resume, the resume in
        the state, the stored extracted text. */
    method ChooseResumeText(storedResume: Option<string>, extractedResumeText: Option<string>)
      returns (currentResume: Option<string>)
      requires storedResume == Lookup(cache, ResumeKey) && extractedResumeText == Lookup(cache, ExtractedResumeKey)
      modifies this
      ensures var s := old(State());
        && (Qualifies(s, StoredResume) ==> currentResume == storedResume && State() == s.(resume := storedResume.value))
        && (!Qualifies(s, StoredResume) && Qualifies(s, StateResume) ==> currentResume == Some(s.resume) && State() == s)
        && (!Qualifies(s, StoredResume) && !Qualifies(s, StateResume) && Qualifies(s, StoredExtracted) ==>
              currentResume == extractedResumeText && State() == s.(resume := extractedResumeText.value))
        && (!Qualifies(s, StoredResume) && !Qualifies(s, StateResume) && !Qualifies(s, StoredExtracted) ==>
              currentResume.None? && State() == s)
    {
      if storedResume.Some? && |storedResume.value| > RescoreMinLength && !StartsWith(storedResume.value, PdfMagic) {
        currentResume := storedResume;
        resume := storedResume.value;
      } else if |resume| > RescoreMinLength && !StartsWith(resume, PdfMagic) {
        currentResume := Some(resume);
      } else if extractedResumeText.Some? && |extractedResumeText.value| > RescoreMinLength {
        currentResume := extractedResumeText;
        resume := extractedResumeText.value;
      } else {
        currentResume := None;
      }
    }

    /** The part of `handleGetNewScore` after the analyze route replied. */
    method FinishRescore(reply: AnalyzeRoute.AnalyzeResponse, stringify: LanguageModel.JsonValue -> string)
      modifies this
      ensures State() == RescoreReplyStep(old(State()), reply, stringify)
    {
      match reply {
        case ErrorResponse(_, e) =>
          error := Some(WithDetail(ScoreFailure, if e != "" then e else AnalyzeFallback));
        case Analysis(body) =>
          analysisResult := Some(body);
          var extracted := ExtractedTextOf(body);
          if extracted.Some? {
            cache := cache[ExtractedResumeKey := extracted.value];
            if activeTab == OriginalTab {
              resume := extracted.value;
              cache := cache[ResumeKey := extracted.value];
            }
          }
          cache := cache[AnalysisResultKey := stringify(body)];
      }
      isOptimizing := false;
    }

    /** `handleOptimizeResume`: `sent` is the resume text posted to the optimize route. */
    method OptimizeResume(reply: OptimizeRoute.OptimizeResponse) returns (sent: Option<string>)
      modifies this
      ensures Step(State(), sent) == OptimizeResumeStep(old(State()), reply)
    {
      ghost var s := State();
      isOptimizing := true;
      error := None;
      ghost var s0 := State();
      assert s0 == s.(isOptimizing := true, error := None);
      if Trim(jobDescription) == "" {
        error := Some(WithDetail(OptimizeFailure, JobDescriptionMissing));
        isOptimizing := false;
        assert State() == OptimizeFailed(s0, JobDescriptionMissing);
        return None;
      }
      var chosen := ChooseOptimizationText();
      assert chosen == OptimizationSource(s.resume, s.cache);
      if chosen.Err? {
        error := Some(WithDetail(OptimizeFailure, chosen.error));
        isOptimizing := false;
        assert State() == OptimizeFailed(s0, chosen.error);
        return None;
      }
      ghost var s1 := State();
      assert s1 == CacheExtraction(s0, chosen.value);
      var resumeTextToOptimize := chosen.value.text;
      if Trim(resumeTextToOptimize) == "" || |resumeTextToOptimize| < OptimizeMinLength {
        error := Some(WithDetail(OptimizeFailure, TooShortToOptimize));
        isOptimizing := false;
        assert State() == OptimizeFailed(s1, TooShortToOptimize);
        return None;
      }
      sent := Some(resumeTextToOptimize);
      FinishOptimization(resumeTextToOptimize, reply);
      assert OptimizeResumeStep(s, reply) == Step(OptimizeReplyStep(s1, resumeTextToOptimize, reply), sent);
    }

    /** The priority chain of `handleOptimizeResume`, caching a text it
        extracts from the PDF in the state. */
    method ChooseOptimizationText() returns (chosen: Result<OptimizationText, string>)
      modifies this
      ensures chosen == OptimizationSource(old(resume), old(cache))
      ensures State() == if chosen.Ok? then CacheExtraction(old(State()), chosen.value) else old(State())
    {
      if resume != "" && !StartsWith(resume, PdfMagic) {
        return Ok(OptimizationText(resume, false));
      }
      var extractedResumeText := Lookup(cache, ExtractedResumeKey);
      if extractedResumeText.Some? && |extractedResumeText.value| > 100 {
        return Ok(OptimizationText(extractedResumeText.value, false));
      }
      if resume != "" && StartsWith(resume, PdfMagic) {
        var extractedContent := PdfText.ExtractTextFromPdfAsWritten(resume);
        if extractedContent != "" && |extractedContent| > 100 {
          cache := cache[ExtractedResumeKey := extractedContent];
          return Ok(OptimizationText(extractedContent, true));
        }
        var savedResume := Lookup(cache, ResumeKey);
        if savedResume.Some? && savedResume.value != "" && !StartsWith(savedResume.value, PdfMagic) {
          return Ok(OptimizationText(savedResume.value, false));
        }
        return Err(NoUsableText);
      }
      return Ok(OptimizationText("", false));
    }

    /** The part of `handleOptimizeResume` after the optimize route replied. */
    method FinishOptimization(resumeTextToOptimize: string, reply: OptimizeRoute.OptimizeResponse)
      modifies this
      ensures State() == OptimizeReplyStep(old(State()), resumeTextToOptimize, reply)
    {
      match reply {
        case ErrorResponse(_, e) =>
          error := Some(WithDetail(OptimizeFailure, if e != "" then e else OptimizeFallback));
        case Optimized(o) =>
          if o == "" {
            error := Some(WithDetail(OptimizeFailure, IncompleteResponse));
          } else {
            StoreOptimized(resumeTextToOptimize, o);
          }
      }
      isOptimizing := false;
    }

    method StoreOptimized(resumeTextToOptimize: string, o: string)
      modifies this
      ensures State() == StoreOptimizedStep(old(State()), resumeTextToOptimize, o)
    {
      if resume == "" || StartsWith(resume, PdfMagic) {
        resume := resumeTextToOptimize;
        cache := cache[ResumeKey := resumeTextToOptimize];
      }
      optimizedResume := Some(o);
      cache := cache[OptimizedResumeKey := o];
      if isEditMode && activeTab == OptimizedTab {
        editableContent := o;
      }
      activeTab := OptimizedTab;
    }
  }

  /** The `if`/`else if` chain of `handleGetNewScore` picks `RescoreChoice`. */
  lemma ChoiceFollowsChain(s: PageState)
    ensures s.activeTab == OptimizedTab ==>
      RescoreChoice(s) ==
        if Qualifies(s, StoredOptimized) then Some(StoredOptimized)
        else if Qualifies(s, StateOptimized) then Some(StateOptimized)
        else if Qualifies(s, StoredResume) then Some(StoredResume)
        else if Qualifies(s, StateResume) then Some(StateResume)
        else if Qualifies(s, StoredExtracted) then Some(StoredExtracted)
        else None
    ensures s.activeTab == OriginalTab ==>
      RescoreChoice(s) ==
        if Qualifies(s, StoredResume) then Some(StoredResume)
        else if Qualifies(s, StateResume) then Some(StateResume)
        else if Qualifies(s, StoredExtracted) then Some(StoredExtracted)
        else None
  {
    var c := RescoreCandidates(s.activeTab);
    var p := QualifiesIn(s);
    if s.activeTab == OptimizedTab {
      if p(c[0]) {
        FirstIndexAt(c, p, 0);
      } else if p(c[1]) {
        FirstIndexAt(c, p, 1);
      } else if p(c[2]) {
        FirstIndexAt(c, p, 2);
      } else if p(c[3]) {
        FirstIndexAt(c, p, 3);
      } else if p(c[4]) {
        FirstIndexAt(c, p, 4);
      }
    } else {
      if p(c[0]) {
        FirstIndexAt(c, p, 0);
      } else if p(c[1]) {
        FirstIndexAt(c, p, 1);
      } else if p(c[2]) {
        FirstIndexAt(c, p, 2);
      }
    }
  }
}
