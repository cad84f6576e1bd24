/** The part of the language-model client that does not talk to the model:
    truncating the prompt fields, defaulting the user information, finding
    the JSON in the scoring reply and checking that it has the five fields
    of an analysis. The model, the prompt templates and `JSON.parse` are
    parameters. */
module LanguageModel {

  import opened Outcomes
  import opened JsText

  // ---------------------------------------------------------------------------
  // Truncation

  const TruncationMarker: string :=
    "\n\n[Content truncated due to length limits. The analysis is based on the above portion of the text.]"

  /** Field limits, in characters, used by both the scoring and the optimization prompt. */
  const ResumeLimit: nat := 4000
  const JobDescriptionLimit: nat := 3000
  const SkillsLimit: nat := 500

  /** `truncateText`: a text within the limit (the empty text included) is
      kept as it is; a longer one is cut to its first `maxLength` characters
      and the marker is appended. */
  function TruncateText(text: string, maxLength: nat): (r: string)
    ensures |text| <= maxLength ==> r == text
    ensures |text| > maxLength ==> |r| == maxLength + |TruncationMarker|
    ensures |text| > maxLength ==> r[..maxLength] == text[..maxLength] && r[maxLength..] == TruncationMarker
  {
    if text == [] || |text| <= maxLength then text
    else text[..maxLength] + TruncationMarker
  }

  /** The result never exceeds the limit by more than the marker, and it
      always begins with as much of the text as the limit allows. */
  lemma TruncateBounds(text: string, maxLength: nat)
    ensures |TruncateText(text, maxLength)| <= maxLength + |TruncationMarker|
    ensures |TruncateText(text, maxLength)| >= |text| || |TruncateText(text, maxLength)| > maxLength
    ensures var n := if |text| <= maxLength then |text| else maxLength;
            TruncateText(text, maxLength)[..n] == text[..n]
  {
  }

  /** The three truncated fields both prompts are filled with. */
  datatype PromptFields = PromptFields(jobDescription: string, resume: string, skills: string)

  function TruncatedFields(jobDescription: string, resume: string, skills: string): (f: PromptFields)
    ensures |f.resume| <= ResumeLimit + |TruncationMarker|
    ensures |f.jobDescription| <= JobDescriptionLimit + |TruncationMarker|
    ensures |f.skills| <= SkillsLimit + |TruncationMarker|
    ensures |resume| <= ResumeLimit ==> f.resume == resume
    ensures |jobDescription| <= JobDescriptionLimit ==> f.jobDescription == jobDescription
    ensures |skills| <= SkillsLimit ==> f.skills == skills
  {
    PromptFields(TruncateText(jobDescription, JobDescriptionLimit),
                 TruncateText(resume, ResumeLimit),
                 TruncateText(skills, SkillsLimit))
  }

  // ---------------------------------------------------------------------------
  // User information for the optimization prompt

  const NotProvided: string := "Not provided"

  /** The optional `userInfo` argument; each of its fields may be absent. */
  datatype UserInfo = UserInfo(
    name: Option<string>,
    email: Option<string>,
    phone: Option<string>,
    education: Option<seq<string>>,
    experience: Option<seq<string>>)

  /** The five values the optimization prompt shows for the user. */
  datatype UserFields = UserFields(name: string, email: string, phone: string,
                                   education: string, experience: string)

  /** `value || "Not provided"` for an optional string. */
  function OrNotProvided(value: Option<string>): (r: string)
    ensures r != ""
    ensures value.Some? && value.value != "" ==> r == value.value
    ensures value.None? || value.value == "" ==> r == NotProvided
  {
    if value.Some? && value.value != "" then value.value else NotProvided
  }

  /** `list?.join("\n") || "Not provided"` */
  function JoinedOrNotProvided(list: Option<seq<string>>): (r: string)
    ensures r != ""
  {
    OrNotProvided(if list.Some? then Some(Join(list.value, "\n")) else None)
  }

  /** A list joins to the empty string exactly when it has at most one
      element and that element is empty, so `["", ""]` is shown as a
      single line break rather than "Not provided". */
  lemma {:induction false} JoinEmptyIff(list: seq<string>)
    ensures Join(list, "\n") == "" <==> |list| == 0 || (|list| == 1 && list[0] == "")
  {
    if |list| >= 2 {
      assert |Join(list, "\n")| >= |list[0] + "\n"|;
    }
  }

  function UserPromptFields(info: Option<UserInfo>): (u: UserFields)
    ensures u.name != "" && u.email != "" && u.phone != "" && u.education != "" && u.experience != ""
    ensures info.None? ==> u == UserFields(NotProvided, NotProvided, NotProvided, NotProvided, NotProvided)
    ensures info.Some? ==> u.name == OrNotProvided(info.value.name)
    ensures info.Some? ==> u.email == OrNotProvided(info.value.email)
    ensures info.Some? ==> u.phone == OrNotProvided(info.value.phone)
  {
    if info.None? then UserFields(NotProvided, NotProvided, NotProvided, NotProvided, NotProvided)
    else
      var i := info.value;
      UserFields(OrNotProvided(i.name), OrNotProvided(i.email), OrNotProvided(i.phone),
                 JoinedOrNotProvided(i.education), JoinedOrNotProvided(i.experience))
  }

  /** Education and experience lines reach the prompt joined by line breaks,
      unless they join to nothing. */
  lemma SectionsJoined(info: UserInfo)
    ensures info.education.Some? && Join(info.education.value, "\n") != "" ==>
            UserPromptFields(Some(info)).education == Join(info.education.value, "\n")
    ensures info.education.None? || info.education.value == [] || info.education.value == [""] ==>
            UserPromptFields(Some(info)).education == NotProvided
    ensures info.experience.Some? && Join(info.experience.value, "\n") != "" ==>
            UserPromptFields(Some(info)).experience == Join(info.experience.value, "\n")
    ensures info.experience.None? || info.experience.value == [] || info.experience.value == [""] ==>
            UserPromptFields(Some(info)).experience == NotProvided
  {
  }

  // ---------------------------------------------------------------------------
  // Locating the JSON in the scoring reply

  const Fence: string := "```"

  /** After an opening fence at `p`: skip an optional `json` tag and the white
      space after it. This is where the lazy group of
      /```(?:json)?\s*([\s\S]*?)\s*```/ starts. */
  function FenceBodyStart(s: string, p: nat): (q: nat)
    requires OccursAt(s, Fence, p)
    ensures p + 3 <= q <= |s|
    ensures q == |s| || !IsSpace(s[q])
    ensures forall k :: p + 3 <= k < q ==> s[k] != '`'
  {
    var b := if OccursAt(s, "json", p + 3) then p + 7 else p + 3;
    var n := SpaceRun(s[b..]);
    assert forall k :: b <= k < b + n ==> IsSpace(s[b..][k - b]) && s[k] == s[b..][k - b];
    b + n
  }

  /** Where the fenced body lies: from the body start `q` of the first fence
      to the first fence `c` at or after `q`. */
  function FenceBounds(s: string): (r: Option<(nat, nat)>)
    ensures r.Some? <==> IndexOf(s, Fence, 0).Some? &&
                         IndexOf(s, Fence, FenceBodyStart(s, IndexOf(s, Fence, 0).value)).Some?
    ensures r.Some? ==> r.value.0 == FenceBodyStart(s, IndexOf(s, Fence, 0).value) &&
                        r.value.1 == IndexOf(s, Fence, r.value.0).value && r.value.0 <= r.value.1 <= |s|
  {
    match IndexOf(s, Fence, 0)
    case None => None
    case Some(p) =>
      var q := FenceBodyStart(s, p);
      match IndexOf(s, Fence, q)
      case None => None
      case Some(c) => Some((q, c))
  }

  /** The capture of the fence pattern: the text between the first fence
      and the next one, without the tag and the white space around it. */
  function FenceMatch(s: string): (g: Option<string>)
    ensures g.Some? ==> g.value == [] || (!IsSpace(g.value[0]) && !IsSpace(g.value[|g.value| - 1]))
    ensures g.Some? <==> FenceBounds(s).Some?
    ensures g.Some? ==>
            var (q, c) := FenceBounds(s).value;
            q + |g.value| <= c && g.value == s[q..q + |g.value|] &&
            forall k :: q + |g.value| <= k < c ==> IsSpace(s[k])
  {
    match FenceBounds(s)
    case None => None
    case Some((q, c)) =>
      TrimEndWithin(s, q, c);
      Some(TrimEnd(s[q..c]))
  }

  /** The end-trimmed slice `s[q..c]` is a piece of `s` from `q`, followed by white space up to `c`. */
  lemma TrimEndWithin(s: string, q: nat, c: nat)
    requires q <= c <= |s|
    ensures var b := TrimEnd(s[q..c]);
      && q + |b| <= c && b == s[q..q + |b|] && (b != [] ==> b[0] == s[q])
      && forall k :: q + |b| <= k < c ==> IsSpace(s[k])
  {
    var b := TrimEnd(s[q..c]);
    assert forall k :: q + |b| <= k < c ==> s[k] == s[q..c][k - q];
  }

  /** The fence pattern matches exactly when the reply holds two fences
      that do not overlap. */
  lemma FenceMatchIff(s: string)
    ensures FenceMatch(s).Some? <==>
            exists p: nat, c: nat | p + 3 <= c :: OccursAt(s, Fence, p) && OccursAt(s, Fence, c)
  {
    match IndexOf(s, Fence, 0)
    case None =>
    case Some(p0) =>
      var q := FenceBodyStart(s, p0);
      match IndexOf(s, Fence, q)
      case Some(c) =>
        assert OccursAt(s, Fence, p0) && OccursAt(s, Fence, c);
      case None =>
        forall p: nat, c: nat | p + 3 <= c && OccursAt(s, Fence, p) && OccursAt(s, Fence, c)
          ensures false
        {
          FenceAfterOpening(s, p0, p, c);
        }
  }

  /** A fence at or after `p + 3`, for a fence `p` at or after a fence `p0`,
      lies at or after the body start of `p0`: the tag and the white space
      hold no backquote. */
  lemma FenceAfterOpening(s: string, p0: nat, p: nat, c: nat)
    requires OccursAt(s, Fence, p0)
    requires p0 <= p && p + 3 <= c && OccursAt(s, Fence, p) && OccursAt(s, Fence, c)
    ensures FenceBodyStart(s, p0) <= c
  {
    assert s[c] == s[c..c + 3][0];
  }

  /** The lazy group stops at the first closing fence: the body holds no fence. */
  lemma FenceBodyHasNoFence(s: string)
    requires FenceMatch(s).Some?
    ensures !Contains(FenceMatch(s).value, Fence)
  {
    var p := IndexOf(s, Fence, 0).value;
    var q := FenceBodyStart(s, p);
    var c := IndexOf(s, Fence, q).value;
    NoFenceBeforeClosing(s, q, c, FenceMatch(s).value);
  }

  lemma NoFenceBeforeClosing(s: string, q: nat, c: nat, body: string)
    requires q <= c <= |s| && IndexOf(s, Fence, q) == Some(c)
    requires |body| <= c - q && body == s[q..q + |body|]
    ensures forall k: nat :: !OccursAt(body, Fence, k)
  {
    forall k: nat | OccursAt(body, Fence, k)
      ensures false
    {
      assert k + 3 <= |body|;
      assert |Fence| == 3;
      assert body[k] == s[q + k] && body[k + 1] == s[q + k + 1] && body[k + 2] == s[q + k + 2];
      assert body[k..k + 3] == s[q + k..q + k + 3];
      assert OccursAt(s, Fence, q + k);
    }
  }

  /** `s.lastIndexOf(ch)` restricted to the positions below `end`. */
  function LastIndexOf(s: string, ch: char, end: nat): (r: Option<nat>)
    requires end <= |s|
    ensures r.Some? ==> r.value < end && s[r.value] == ch
    ensures r.Some? ==> forall k :: r.value < k < end ==> s[k] != ch
    ensures r.None? ==> forall k :: 0 <= k < end ==> s[k] != ch
  {
    if end == 0 then None
    else if s[end - 1] == ch then Some(end - 1)
    else LastIndexOf(s, ch, end - 1)
  }

  /** A one-character string occurs where that character stands. */
  lemma OccursAtChar(s: string, ch: char, k: nat)
    ensures OccursAt(s, [ch], k) <==> k < |s| && s[k] == ch
  {
    if k < |s| && s[k] == ch {
      assert s[k..k + 1] == [ch];
    }
  }

  /** The span of /({[\s\S]*})/: from the first `{` to the last `}`, when
      that `}` comes after the `{`. */
  function BraceBounds(s: string): (r: Option<(nat, nat)>)
    ensures r.Some? ==> r.value.0 < r.value.1 < |s|
  {
    match IndexOf(s, "{", 0)
    case None => None
    case Some(f) =>
      match LastIndexOf(s, '}', |s|)
      case None => None
      case Some(l) => if f < l then Some((f, l)) else None
  }

  /** The brace pattern matches exactly when some `{` precedes some `}`, and
      its span runs from the first `{` to the last `}`. */
  lemma BraceBoundsSpec(s: string)
    ensures BraceBounds(s).Some? <==> exists i, j :: 0 <= i < j < |s| && s[i] == '{' && s[j] == '}'
    ensures BraceBounds(s).Some? ==>
      var (f, l) := BraceBounds(s).value;
      && s[f] == '{' && s[l] == '}'
      && (forall k :: 0 <= k < f ==> s[k] != '{')
      && (forall k :: l < k < |s| ==> s[k] != '}')
  {
    match IndexOf(s, "{", 0)
    case None =>
      forall i | 0 <= i < |s| ensures s[i] != '{' {
        OccursAtChar(s, '{', i);
      }
    case Some(f) =>
      OccursAtChar(s, '{', f);
      forall k | 0 <= k < f ensures s[k] != '{' {
        OccursAtChar(s, '{', k);
      }
  }

  /** The capture of the brace pattern: from the first `{` to the last `}`. */
  function BraceSpan(s: string): (r: Option<string>)
    ensures r.Some? ==> r.value != [] && r.value[0] == '{' && r.value[|r.value| - 1] == '}'
    ensures r.None? <==> !exists i, j :: 0 <= i < j < |s| && s[i] == '{' && s[j] == '}'
    ensures r.Some? ==>
              exists f, e :: (0 <= f < e <= |s| && r.value == s[f..e] &&
                              (forall k :: 0 <= k < f ==> s[k] != '{') && (forall k :: e <= k < |s| ==> s[k] != '}'))
  {
    BraceBoundsSpec(s);
    match BraceBounds(s)
    case None => None
    case Some((f, l)) => Some(s[f..l + 1])
  }

  /** The text handed to `JSON.parse`: the trimmed fence body when the fence
      pattern matched with a non-empty body; the whole reply when it matched
      with an empty body (the brace pattern is then never tried); the trimmed
      brace span when only the brace pattern matched; otherwise the reply. */
  function LocateJson(response: string): (json: string)
    ensures FenceMatch(response).Some? && FenceMatch(response).value != [] ==>
            json == FenceMatch(response).value
    ensures FenceMatch(response) == Some([]) ==> json == response
    ensures FenceMatch(response).None? && BraceSpan(response).Some? ==>
            json == BraceSpan(response).value
    ensures FenceMatch(response).None? && BraceSpan(response).None? ==> json == response
  {
    match FenceMatch(response)
    case Some(body) =>
      if body != [] then TrimIdentity(body); Trim(body) else response
    case None =>
      match BraceSpan(response)
      case Some(span) => TrimIdentity(span); Trim(span)
      case None => response
  }

  /** An empty fenced block shadows a JSON object that follows it. */
  lemma EmptyFenceShadowsObject()
    ensures LocateJson("``````{}") == "``````{}"
  {
    var s := "``````{}";
    assert OccursAt(s, Fence, 0);
    assert IndexOf(s, Fence, 0) == Some(0);
    assert s[3..7][0] == '`';
    assert SpaceRun(s[3..]) == 0;
    assert FenceBodyStart(s, 0) == 3;
    assert OccursAt(s, Fence, 3);
    assert IndexOf(s, Fence, 3) == Some(3);
    assert s[3..3] == [];
  }

  // ---------------------------------------------------------------------------
  // Checking the parsed reply

  /** What `JSON.parse` can return. */
  datatype JsonValue =
    | JsonNull
    | JsonBool(b: bool)
    | JsonNumber(n: real)
    | JsonString(s: string)
    | JsonArray(items: seq<JsonValue>)
    | JsonObject(members: map<string, JsonValue>)

  datatype ParseOutcome = Parsed(value: JsonValue) | SyntaxError(message: string)

  const RequiredFields: seq<string> := ["score", "strengths", "weaknesses", "keywords", "improvement_suggestions"]

  const ParseFailurePrefix: string := "Failed to parse response from language model: "

  function MissingFieldMessage(field: string): string
  {
    "Missing required field: " + field
  }

  /** The `TypeError` of `field in v` when `v` is not an object. */
  function InOperatorMessage(field: string): string
  {
    "Cannot use 'in' operator to search for '" + field + "'"
  }

  /** The own keys of a parsed value that `in` can find among the required
      fields: an object's members; an array has none of these names. */
  function Keys(v: JsonValue): set<string>
  {
    if v.JsonObject? then v.members.Keys else {}
  }

  /** The position of the first field in `fields` that `keys` lacks. */
  function FirstMissing(keys: set<string>, fields: seq<string>): Option<nat>
  {
    FirstIndex(fields, f => f !in keys)
  }

  /** The outcome of the loop over the required fields. */
  function RequiredFieldsCheck(v: JsonValue): (r: Result<JsonValue, string>)
    ensures r.Ok? <==> v.JsonObject? && forall f :: f in RequiredFields ==> f in v.members
    ensures r.Ok? ==> r.value == v
  {
    if !(v.JsonObject? || v.JsonArray?) then Err(InOperatorMessage(RequiredFields[0]))
    else match FirstMissing(Keys(v), RequiredFields)
      case None => Ok(v)
      case Some(i) => Err(MissingFieldMessage(RequiredFields[i]))
  }

  /** The `for` loop over the required fields, stopping at the first one missing. */
  method CheckRequiredFields(v: JsonValue) returns (r: Result<JsonValue, string>)
    ensures r == RequiredFieldsCheck(v)
  {
    for i := 0 to |RequiredFields|
      invariant v.JsonObject? || v.JsonArray? || i == 0
      invariant forall k :: 0 <= k < i ==> RequiredFields[k] in Keys(v)
    {
      if !(v.JsonObject? || v.JsonArray?) {
        return Err(InOperatorMessage(RequiredFields[i]));
      }
      if RequiredFields[i] !in Keys(v) {
        return Err(MissingFieldMessage(RequiredFields[i]));
      }
    }
    return Ok(v);
  }

  /** The missing-field error names the first absent field in the order
      score, strengths, weaknesses, keywords, improvement_suggestions. */
  lemma MissingFieldNamesFirst(members: map<string, JsonValue>, i: nat)
    requires i < |RequiredFields| && RequiredFields[i] !in members
    requires forall k :: 0 <= k < i ==> RequiredFields[k] in members
    ensures RequiredFieldsCheck(JsonObject(members)) == Err(MissingFieldMessage(RequiredFields[i]))
  {
    var r := FirstMissing(members.Keys, RequiredFields);
    assert r.Some?;
    assert r.value == i;
  }

  /** Only presence is checked: a reply whose fields all exist passes
      whatever their types, extra members included. */
  lemma PresenceIsEnough(members: map<string, JsonValue>)
    requires forall f :: f in RequiredFields ==> f in members
    ensures RequiredFieldsCheck(JsonObject(members)) == Ok(JsonObject(members))
  {
  }

  // ---------------------------------------------------------------------------
  // The two calls to the model

  const MissingKeyMessage: string := "NEXT_PUBLIC_GROQ_API_KEY environment variable is not set"

  /** The prompt the optimization template is filled with. */
  datatype OptimizePrompt = OptimizePrompt(fields: PromptFields, user: UserFields)

  /** The inner `try` of `analyzeResume`: locate the JSON in the reply,
      parse it and check the required fields; any failure is reported with
      the parse-failure prefix. */
  function ParseAnalysis(responseText: string, parse: string -> ParseOutcome): (r: Result<JsonValue, string>)
    ensures var outcome := parse(LocateJson(responseText));
      && (r.Ok? <==> outcome.Parsed? && outcome.value.JsonObject?
                     && forall f :: f in RequiredFields ==> f in outcome.value.members)
      && (r.Ok? ==> r.value == outcome.value)
      && (r.Err? ==> StartsWith(r.error, ParseFailurePrefix))
      && (outcome.SyntaxError? ==> r == Err(ParseFailurePrefix + outcome.message))
  {
    match parse(LocateJson(responseText))
    case SyntaxError(message) => Err(ParseFailurePrefix + message)
    case Parsed(v) =>
      match RequiredFieldsCheck(v)
      case Ok(_) => Ok(v)
      case Err(e) => Err(ParseFailurePrefix + e)
  }

  /** What `analyzeResume` returns or throws: the missing-key error before
      the model is reached, otherwise the checked reply of the model to the
      truncated fields. */
  function AnalyzeResumeResult(jobDescription: string, resume: string, skills: string, apiKey: string,
                               invoke: PromptFields -> string, parse: string -> ParseOutcome)
    : Result<JsonValue, string>
  {
    if apiKey == "" then Err(MissingKeyMessage)
    else ParseAnalysis(invoke(TruncatedFields(jobDescription, resume, skills)), parse)
  }

  /** `analyzeResume`. `apiKey` is the environment variable (the empty string
      when unset); `invoke` is the model applied to the filled scoring
      template, returning the reply as text; `parse` is `JSON.parse`. */
  method AnalyzeResume(jobDescription: string, resume: string, skills: string, apiKey: string,
                       invoke: PromptFields -> string, parse: string -> ParseOutcome)
    returns (r: Result<JsonValue, string>)
    ensures r == AnalyzeResumeResult(jobDescription, resume, skills, apiKey, invoke, parse)
  {
    var fields := TruncatedFields(jobDescription, resume, skills);
    if apiKey == "" {
      return Err(MissingKeyMessage);
    }
    var responseText := invoke(fields);
    var jsonText := responseText;
    var fence := FenceMatch(responseText);
    var found := if fence.Some? then fence else BraceSpan(responseText);
    if found.Some? && found.value != [] {
      jsonText := Trim(found.value);
    }
    assert jsonText == LocateJson(responseText);
    var parsed := parse(jsonText);
    if parsed.SyntaxError? {
      return Err(ParseFailurePrefix + parsed.message);
    }
    var checked := CheckRequiredFields(parsed.value);
    if checked.Err? {
      return Err(ParseFailurePrefix + checked.error);
    }
    return Ok(parsed.value);
  }

  /** What `generateOptimizedResume` returns or throws: the missing-key
      error, or the reply of the model to the filled optimization template,
      passed through unchanged. */
  function GenerateOptimizedResumeResult(jobDescription: string, resume: string, skills: string,
                                         info: Option<UserInfo>, apiKey: string,
                                         invoke: OptimizePrompt -> string): Result<string, string>
  {
    if apiKey == "" then Err(MissingKeyMessage)
    else Ok(invoke(OptimizePrompt(TruncatedFields(jobDescription, resume, skills), UserPromptFields(info))))
  }

  method GenerateOptimizedResume(jobDescription: string, resume: string, skills: string,
                                 info: Option<UserInfo>, apiKey: string,
                                 invoke: OptimizePrompt -> string)
    returns (r: Result<string, string>)
    ensures r == GenerateOptimizedResumeResult(jobDescription, resume, skills, info, apiKey, invoke)
  {
    var fields := TruncatedFields(jobDescription, resume, skills);
    var user := UserPromptFields(info);
    if apiKey == "" {
      return Err(MissingKeyMessage);
    }
    var optimizedResume := invoke(OptimizePrompt(fields, user));
    return Ok(optimizedResume);
  }
}
