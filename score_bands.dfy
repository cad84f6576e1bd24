/** The analysis record the scoring model returns, and how the results card
    presents it: a card colour and a one-line verdict chosen by threshold
    chains on the score, and the choice between the loading view, nothing,
    and the score card with its optimize action. */
module ScoreBands {

  import opened Outcomes

  /** The parsed scoring response: a score (a JavaScript number, nominally
      0 to 100) and four lists of remarks. */
  datatype AnalysisResult = AnalysisResult(
    score: real,
    strengths: seq<string>,
    weaknesses: seq<string>,
    keywords: seq<string>,
    improvementSuggestions: seq<string>)

  /** The card variants the colour chain picks from, worst first. */
  datatype CardVariant = Default | Secondary | Accent | Primary

  function VariantName(c: CardVariant): string
  {
    match c
    case Default => "default"
    case Secondary => "secondary"
    case Accent => "accent"
    case Primary => "primary"
  }

  /** Position of a variant in the order worst to best. */
  function VariantRank(c: CardVariant): (n: nat)
    ensures n < 4
  {
    match c
    case Default => 0
    case Secondary => 1
    case Accent => 2
    case Primary => 3
  }

  /** The lowest score that earns a variant. */
  function VariantFloor(c: CardVariant): real
    requires c != Default
  {
    match c
    case Secondary => 40.0
    case Accent => 60.0
    case Primary => 80.0
  }

  /** The variant one step better, if any. */
  function NextVariant(c: CardVariant): Option<CardVariant>
  {
    match c
    case Default => Some(Secondary)
    case Secondary => Some(Accent)
    case Accent => Some(Primary)
    case Primary => None
  }

  /** `getScoreColor`: the chain of `>=` tests at 80, 60 and 40. The result
      is the best variant whose floor the score reaches. */
  function ScoreColor(score: real): (c: CardVariant)
    ensures c != Default ==> score >= VariantFloor(c)
    ensures NextVariant(c).Some? ==> score < VariantFloor(NextVariant(c).value)
  {
    if score >= 80.0 then Primary
    else if score >= 60.0 then Accent
    else if score >= 40.0 then Secondary
    else Default
  }

  /** The six verdicts `getScoreDescription` chooses between, worst first. */
  datatype Band = NeedsImprovement | Fair | Moderate | Good | Great | Excellent

  function BandRank(b: Band): (n: nat)
    ensures n < 6
  {
    match b
    case NeedsImprovement => 0
    case Fair => 1
    case Moderate => 2
    case Good => 3
    case Great => 4
    case Excellent => 5
  }

  function BandFloor(b: Band): real
    requires b != NeedsImprovement
  {
    match b
    case Fair => 40.0
    case Moderate => 60.0
    case Good => 70.0
    case Great => 80.0
    case Excellent => 90.0
  }

  function NextBand(b: Band): Option<Band>
  {
    match b
    case NeedsImprovement => Some(Fair)
    case Fair => Some(Moderate)
    case Moderate => Some(Good)
    case Good => Some(Great)
    case Great => Some(Excellent)
    case Excellent => None
  }

  function Description(b: Band): string
  {
    match b
    case Excellent => "Excellent match! Your resume is highly compatible with this job."
    case Great => "Great match! Your resume aligns well with this job."
    case Good => "Good match. A few adjustments could improve your chances."
    case Moderate => "Moderate match. Consider optimizing key areas of your resume."
    case Fair => "Fair match. Several improvements recommended for better ATS compatibility."
    case NeedsImprovement => "Needs improvement. Generate an optimized version to increase your chances."
  }

  /** `getScoreDescription`'s chain at 90, 80, 70, 60 and 40: the best band
      whose floor the score reaches. */
  function ScoreBand(score: real): (b: Band)
    ensures b != NeedsImprovement ==> score >= BandFloor(b)
    ensures NextBand(b).Some? ==> score < BandFloor(NextBand(b).value)
  {
    if score >= 90.0 then Excellent
    else if score >= 80.0 then Great
    else if score >= 70.0 then Good
    else if score >= 60.0 then Moderate
    else if score >= 40.0 then Fair
    else NeedsImprovement
  }

  function ScoreDescription(score: real): string
  {
    Description(ScoreBand(score))
  }

  /** A higher score never gets a worse colour. */
  lemma ColorMonotone(x: real, y: real)
    requires x <= y
    ensures VariantRank(ScoreColor(x)) <= VariantRank(ScoreColor(y))
  {
  }

  /** A higher score never gets a worse verdict. */
  lemma BandMonotone(x: real, y: real)
    requires x <= y
    ensures BandRank(ScoreBand(x)) <= BandRank(ScoreBand(y))
  {
  }

  /** The two chains agree: the colour is the verdict band with Great and
      Excellent merged into primary and Good and Moderate into accent. */
  lemma ColorFollowsBand(score: real)
    ensures ScoreColor(score) == Primary <==> ScoreBand(score) in {Great, Excellent}
    ensures ScoreColor(score) == Accent <==> ScoreBand(score) in {Moderate, Good}
    ensures ScoreColor(score) == Secondary <==> ScoreBand(score) == Fair
    ensures ScoreColor(score) == Default <==> ScoreBand(score) == NeedsImprovement
  {
  }

  /** The button under the score: generate an optimized resume (its label
      reads "Generating..." while a request runs) or view the one there is. */
  datatype ScoreAction = Generate(busy: bool) | ViewOptimized

  function ActionLabel(a: ScoreAction): string
  {
    match a
    case Generate(busy) => if busy then "Generating..." else "Generate Optimized Resume"
    case ViewOptimized => "View Optimized Resume"
  }

  /** What the results component renders. */
  datatype View =
    | Loading
    | Nothing
    | ScoreCard(variant: CardVariant, description: string, score: real, action: ScoreAction,
                strengths: seq<string>, weaknesses: seq<string>, keywords: seq<string>,
                suggestions: seq<string>)

  /** A JavaScript string used as a condition: only "" is falsy. */
  predicate IsTruthy(s: Option<string>)
  {
    s.Some? && s.value != ""
  }

  /** The `AnalysisResults` component: loading while an analysis runs,
      nothing without a result, otherwise the score card. */
  function Render(result: Option<AnalysisResult>, isAnalyzing: bool, isOptimizing: bool,
                  optimizedResume: Option<string>): (v: View)
    ensures isAnalyzing ==> v == Loading
    ensures !isAnalyzing && result.None? ==> v == Nothing
    ensures !isAnalyzing && result.Some? ==>
      && v.ScoreCard?
      && v.variant == ScoreColor(result.value.score)
      && v.description == ScoreDescription(result.value.score)
      && v.score == result.value.score
      && v.strengths == result.value.strengths && v.weaknesses == result.value.weaknesses
      && v.keywords == result.value.keywords && v.suggestions == result.value.improvementSuggestions
      && (v.action.Generate? <==> !IsTruthy(optimizedResume))
      && (v.action.Generate? ==> v.action.busy == isOptimizing)
  {
    if isAnalyzing then Loading
    else if result.None? then Nothing
    else
      var r := result.value;
      ScoreCard(ScoreColor(r.score), ScoreDescription(r.score), r.score,
                if !IsTruthy(optimizedResume) then Generate(isOptimizing) else ViewOptimized,
                r.strengths, r.weaknesses, r.keywords, r.improvementSuggestions)
  }

  /** The generate action is offered exactly when there is no optimized
      resume (null or the empty string), whatever the score. */
  lemma GenerateOfferedIff(result: AnalysisResult, isOptimizing: bool, optimizedResume: Option<string>)
    ensures Render(Some(result), false, isOptimizing, optimizedResume).action.Generate?
            <==> optimizedResume.None? || optimizedResume == Some("")
  {
  }
}
