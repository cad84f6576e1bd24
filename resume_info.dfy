/** The heuristic resume readers of src/lib/pdfUtils.ts: `extractResumeInfo`
    (used on the optimized resume) and `extractOriginalResumeInfo` (used on the
    text the user submitted). Both split the text into trimmed non-empty lines,
    pick a name line, take the first email and phone match of the whole text,
    and route the lines under EDUCATION / EXPERIENCE headers into two lists. */
module ResumeInfo {
  import opened Outcomes
  import opened JsText
  import ContactPatterns

  datatype ExtractedResumeInfo = ExtractedResumeInfo(
    name: string,
    email: string,
    phone: string,
    education: seq<string>,
    experience: seq<string>)

  /** `Display` is `extractResumeInfo`, `Original` is `extractOriginalResumeInfo`. */
  datatype Variant = Display | Original

  function Defaults(v: Variant): ExtractedResumeInfo
  {
    match v
    case Display => ExtractedResumeInfo("Your Name", "email@example.com", "(123) 456-7890", [], [])
    case Original => ExtractedResumeInfo("", "", "", [], [])
  }

  // ---------------------------------------------------------------------------
  // Lines

  /** `parts.map(trim).filter(line => line)` */
  function NonBlankTrimmed(parts: seq<string>): (lines: seq<string>)
    ensures |lines| <= |parts|
    ensures forall k :: 0 <= k < |lines| ==> lines[k] != [] && !IsSpace(lines[k][0]) && !IsSpace(lines[k][|lines[k]| - 1])
  {
    if parts == [] then []
    else
      var t := Trim(parts[0]);
      (if t == [] then [] else [t]) + NonBlankTrimmed(parts[1..])
  }

  /** The lines both readers work on. */
  function ResumeLines(text: string): (lines: seq<string>)
    ensures forall k :: 0 <= k < |lines| ==> lines[k] != [] && !IsSpace(lines[k][0]) && !IsSpace(lines[k][|lines[k]| - 1])
  {
    NonBlankTrimmed(Split(text, '\n'))
  }

  /** A text of white space only has no lines. */
  lemma {:induction false} BlankTextHasNoLines(text: string)
    requires forall k :: 0 <= k < |text| ==> IsSpace(text[k])
    ensures ResumeLines(text) == []
  {
    JoinSplit(text, '\n');
    BlankPartsHaveNoLines(Split(text, '\n'), text);
  }

  lemma {:induction false} BlankPartsHaveNoLines(parts: seq<string>, text: string)
    requires forall k :: 0 <= k < |text| ==> IsSpace(text[k])
    requires Join(parts, "\n") == text
    ensures NonBlankTrimmed(parts) == []
    decreases |parts|
  {
    if parts != [] {
      var p := parts[0];
      if |parts| == 1 {
        assert p == text;
      } else {
        assert text == p + "\n" + Join(parts[1..], "\n");
        assert forall k :: 0 <= k < |p| ==> p[k] == text[k];
        var rest := Join(parts[1..], "\n");
        assert forall k :: 0 <= k < |rest| ==> rest[k] == text[|p| + 1 + k];
        BlankPartsHaveNoLines(parts[1..], rest);
      }
      TrimEmptyIff(p);
    }
  }

  // ---------------------------------------------------------------------------
  // Name

  function NameScanLimit(v: Variant): nat
  {
    match v
    case Display => 5
    case Original => 10
  }

  function StopWords(v: Variant): seq<string>
  {
    match v
    case Display => ["EDUCATION", "EXPERIENCE", "SKILLS", "PROFILE"]
    case Original => ["EDUCATION", "EXPERIENCE", "SKILLS", "PROFILE", "OBJECTIVE", "SUMMARY"]
  }

  function NonEmptyCount(parts: seq<string>): (n: nat)
    ensures n <= |parts|
  {
    if parts == [] then 0
    else (if parts[0] != [] then 1 else 0) + NonEmptyCount(parts[1..])
  }

  /** `line.split(" ").length`, or for `Original` the number of non-empty words. */
  function WordCount(v: Variant, line: string): nat
  {
    match v
    case Display => |Split(line, ' ')|
    case Original => NonEmptyCount(Split(line, ' '))
  }

  /** The rejection rules of the name scan, negated. */
  predicate IsNameCandidate(v: Variant, line: string)
  {
    && line != []
    && '@' !in line
    && !IsDigit(line[0])
    && !StartsWithAnyIgnoreCase(line, StopWords(v))
    && !StartsWith(line, "http") && !StartsWith(line, "www")
    && |line| > 2
    && WordCount(v, line) <= 5
  }

  function Min(a: nat, b: nat): nat
  {
    if a < b then a else b
  }

  /** The first index in `[from, limit)` whose line is a name candidate. */
  function FirstCandidate(v: Variant, lines: seq<string>, from: nat, limit: nat): (r: Option<nat>)
    requires limit <= |lines|
    ensures r.Some? ==> from <= r.value < limit && IsNameCandidate(v, lines[r.value])
    ensures r.Some? ==> forall k :: from <= k < r.value ==> !IsNameCandidate(v, lines[k])
    ensures r.None? ==> forall k :: from <= k < limit ==> !IsNameCandidate(v, lines[k])
    decreases limit - from
  {
    if from >= limit then None
    else if IsNameCandidate(v, lines[from]) then Some(from)
    else FirstCandidate(v, lines, from + 1, limit)
  }

  /** The name the scan settles on: the first candidate among the first lines, or `fallback`. */
  function ChosenName(v: Variant, lines: seq<string>, fallback: string): (name: string)
    ensures name == fallback || exists k :: 0 <= k < Min(NameScanLimit(v), |lines|) && name == lines[k] && IsNameCandidate(v, lines[k])
    ensures (exists k :: 0 <= k < Min(NameScanLimit(v), |lines|) && IsNameCandidate(v, lines[k])) ==>
            exists k :: 0 <= k < Min(NameScanLimit(v), |lines|) && name == lines[k] && IsNameCandidate(v, lines[k]) &&
                        forall j :: 0 <= j < k ==> !IsNameCandidate(v, lines[j])
    ensures (forall k :: 0 <= k < Min(NameScanLimit(v), |lines|) ==> !IsNameCandidate(v, lines[k])) ==> name == fallback
  {
    match FirstCandidate(v, lines, 0, Min(NameScanLimit(v), |lines|))
    case Some(k) => lines[k]
    case None => fallback
  }

  /** The name loop: the first line that passes every rule ends the scan. */
  method PickName(v: Variant, lines: seq<string>, fallback: string) returns (name: string)
    ensures name == ChosenName(v, lines, fallback)
  {
    name := fallback;
    var limit := Min(NameScanLimit(v), |lines|);
    for i := 0 to limit
      invariant name == fallback
      invariant forall k :: 0 <= k < i ==> !IsNameCandidate(v, lines[k])
    {
      var line := lines[i];
      if IsNameCandidate(v, line) {
        name := line;
        return;
      }
    }
  }

  // ---------------------------------------------------------------------------
  // Sections

  /** The header test: a non-blank line equal to its upper-cased form, or for
      `Original` also one that starts with a section word in any case. */
  predicate IsHeader(v: Variant, line: string)
  {
    || (ToUpper(line) == line && Trim(line) != [])
    || (v == Original && StartsWithAnyIgnoreCase(line, ["EDUCATION", "EXPERIENCE", "EMPLOYMENT", "WORK HISTORY"]))
  }

  /** The education and experience flags a header line sets. */
  function HeaderFlags(line: string): (bool, bool)
  {
    var section := ToUpper(line);
    (Contains(section, "EDUCATION"),
     Contains(section, "EXPERIENCE") || Contains(section, "EMPLOYMENT") || Contains(section, "WORK HISTORY"))
  }

  /** The flags after reading `lines`. */
  function Flags(v: Variant, lines: seq<string>): (bool, bool)
    decreases |lines|
  {
    if lines == [] then (false, false)
    else
      var n := |lines| - 1;
      if IsHeader(v, lines[n]) then HeaderFlags(lines[n]) else Flags(v, lines[..n])
  }

  /** Where a line goes. */
  datatype Destination = Heading | ToEducation | ToExperience | Dropped

  /** The destination of one line, given the flags and the list lengths so far. */
  function Route(v: Variant, flags: (bool, bool), educationCount: nat, experienceCount: nat, line: string): Destination
  {
    if IsHeader(v, line) then Heading
    else if flags.0 && line != [] && (v == Display || educationCount < 10) then ToEducation
    else if flags.1 && line != [] && (v == Display || experienceCount < 15) then ToExperience
    else Dropped
  }

  /** The lines of `lines` whose destination is `d`, in order. */
  function Pick(lines: seq<string>, routes: seq<Destination>, d: Destination): (r: seq<string>)
    requires |routes| == |lines|
    ensures |r| <= |lines|
    decreases |lines|
  {
    if lines == [] then []
    else
      var n := |lines| - 1;
      Pick(lines[..n], routes[..n], d) + (if routes[n] == d then [lines[n]] else [])
  }

  /** The destination of every line: exactly the header lines go nowhere as headers. */
  function Routing(v: Variant, lines: seq<string>): (r: seq<Destination>)
    ensures |r| == |lines|
    ensures forall k :: 0 <= k < |lines| ==> (r[k] == Heading <==> IsHeader(v, lines[k]))
    decreases |lines|
  {
    if lines == [] then []
    else
      var n := |lines| - 1;
      var prior := Routing(v, lines[..n]);
      var d := Route(v, Flags(v, lines[..n]), |Pick(lines[..n], prior, ToEducation)|,
                     |Pick(lines[..n], prior, ToExperience)|, lines[n]);
      assert forall k :: 0 <= k < n ==> (prior + [d])[k] == prior[k];
      prior + [d]
  }

  /** One more line: the routing, flags and lists grow by that line alone. */
  lemma RoutingStep(v: Variant, lines: seq<string>, i: nat)
    requires i < |lines|
    ensures
      var prior := Routing(v, lines[..i]);
      var d := Route(v, Flags(v, lines[..i]), |Pick(lines[..i], prior, ToEducation)|,
                     |Pick(lines[..i], prior, ToExperience)|, lines[i]);
      && Routing(v, lines[..i + 1]) == prior + [d]
      && Flags(v, lines[..i + 1]) == (if IsHeader(v, lines[i]) then HeaderFlags(lines[i]) else Flags(v, lines[..i]))
      && Pick(lines[..i + 1], prior + [d], ToEducation)
         == Pick(lines[..i], prior, ToEducation) + (if d == ToEducation then [lines[i]] else [])
      && Pick(lines[..i + 1], prior + [d], ToExperience)
         == Pick(lines[..i], prior, ToExperience) + (if d == ToExperience then [lines[i]] else [])
  {
    assert lines[..i + 1][..i] == lines[..i];
    var prior := Routing(v, lines[..i]);
    var d := Route(v, Flags(v, lines[..i]), |Pick(lines[..i], prior, ToEducation)|,
                   |Pick(lines[..i], prior, ToExperience)|, lines[i]);
    assert (prior + [d])[..i] == prior;
  }

  /** The section loop: header lines reset the flags and are skipped, other
      lines go to the list of the active section while it has room. */
  method CollectSections(v: Variant, lines: seq<string>) returns (education: seq<string>, experience: seq<string>)
    ensures education == Pick(lines, Routing(v, lines), ToEducation)
    ensures experience == Pick(lines, Routing(v, lines), ToExperience)
  {
    education, experience := [], [];
    var inEducation, inExperience := false, false;
    for i := 0 to |lines|
      invariant (inEducation, inExperience) == Flags(v, lines[..i])
      invariant education == Pick(lines[..i], Routing(v, lines[..i]), ToEducation)
      invariant experience == Pick(lines[..i], Routing(v, lines[..i]), ToExperience)
    {
      RoutingStep(v, lines, i);
      var line := lines[i];
      if IsHeader(v, line) {
        var section := ToUpper(line);
        inEducation := Contains(section, "EDUCATION");
        inExperience := Contains(section, "EXPERIENCE") || Contains(section, "EMPLOYMENT") || Contains(section, "WORK HISTORY");
        continue;
      }
      if inEducation && line != [] && (v == Display || |education| < 10) {
        education := education + [line];
      } else if inExperience && line != [] && (v == Display || |experience| < 15) {
        experience := experience + [line];
      }
    }
    assert lines[..|lines|] == lines;
  }

  /** Both readers: defaults, then the name, email, phone and sections of `text`. */
  method ExtractResumeInfo(v: Variant, text: string) returns (info: ExtractedResumeInfo)
    ensures info.name == ChosenName(v, ResumeLines(text), Defaults(v).name)
    ensures info.email == match ContactPatterns.FirstEmail(text) case Some(e) => e case None => Defaults(v).email
    ensures info.phone == match ContactPatterns.FirstPhone(text) case Some(p) => p case None => Defaults(v).phone
    ensures info.education == Pick(ResumeLines(text), Routing(v, ResumeLines(text)), ToEducation)
    ensures info.experience == Pick(ResumeLines(text), Routing(v, ResumeLines(text)), ToExperience)
  {
    info := Defaults(v);
    var lines := ResumeLines(text);
    var name := PickName(v, lines, info.name);
    info := info.(name := name);
    match ContactPatterns.FirstEmail(text) {
      case Some(e) => info := info.(email := e);
      case None =>
    }
    match ContactPatterns.FirstPhone(text) {
      case Some(p) => info := info.(phone := p);
      case None =>
    }
    var education, experience := CollectSections(v, lines);
    info := info.(education := education, experience := experience);
  }

  // ---------------------------------------------------------------------------
  // Properties of the section routing

  /** Extending the input does not change the routing of the lines already read. */
  lemma {:induction false} RoutingPrefix(v: Variant, lines: seq<string>, n: nat)
    requires n <= |lines|
    ensures Routing(v, lines[..n]) == Routing(v, lines)[..n]
    decreases |lines|
  {
    if n < |lines| {
      var m := |lines| - 1;
      assert lines[..m][..n] == lines[..n];
      RoutingPrefix(v, lines[..m], n);
    } else {
      assert lines[..n] == lines;
    }
  }

  /** The routing of line `k` is decided by the flags and list lengths after the lines before it. */
  lemma RouteOfLine(v: Variant, lines: seq<string>, k: nat)
    requires k < |lines|
    ensures
      var prior := Routing(v, lines[..k]);
      Routing(v, lines)[k] == Route(v, Flags(v, lines[..k]), |Pick(lines[..k], prior, ToEducation)|,
                                    |Pick(lines[..k], prior, ToExperience)|, lines[k])
  {
    RoutingPrefix(v, lines, k + 1);
    assert lines[..k + 1][..k] == lines[..k];
  }

  /** The active flags are those of the most recent header; with no header
      yet, no section is active. */
  lemma {:induction false} FlagsFromLastHeader(v: Variant, lines: seq<string>)
    ensures (forall k :: 0 <= k < |lines| ==> !IsHeader(v, lines[k])) ==> Flags(v, lines) == (false, false)
    ensures forall h :: 0 <= h < |lines| && IsHeader(v, lines[h]) && (forall k :: h < k < |lines| ==> !IsHeader(v, lines[k]))
                        ==> Flags(v, lines) == HeaderFlags(lines[h])
  {
    forall h | 0 <= h < |lines| && IsHeader(v, lines[h]) && (forall k :: h < k < |lines| ==> !IsHeader(v, lines[k]))
      ensures Flags(v, lines) == HeaderFlags(lines[h])
    {
      FlagsAfterHeader(v, lines, h);
    }
    if forall k :: 0 <= k < |lines| ==> !IsHeader(v, lines[k]) {
      FlagsWithoutHeader(v, lines);
    }
  }

  lemma {:induction false} FlagsWithoutHeader(v: Variant, lines: seq<string>)
    requires forall k :: 0 <= k < |lines| ==> !IsHeader(v, lines[k])
    ensures Flags(v, lines) == (false, false)
    decreases |lines|
  {
    if lines != [] {
      var n := |lines| - 1;
      var prefix := lines[..n];
      assert !IsHeader(v, lines[n]);
      forall k | 0 <= k < n
        ensures !IsHeader(v, prefix[k])
      {
        assert prefix[k] == lines[k];
      }
      FlagsWithoutHeader(v, prefix);
    }
  }

  lemma {:induction false} FlagsAfterHeader(v: Variant, lines: seq<string>, h: nat)
    requires h < |lines| && IsHeader(v, lines[h])
    requires forall k :: h < k < |lines| ==> !IsHeader(v, lines[k])
    ensures Flags(v, lines) == HeaderFlags(lines[h])
    decreases |lines|
  {
    var n := |lines| - 1;
    var prefix := lines[..n];
    if h < n {
      assert !IsHeader(v, lines[n]);
      assert prefix[h] == lines[h];
      forall k | h < k < n
        ensures !IsHeader(v, prefix[k])
      {
        assert prefix[k] == lines[k];
      }
      FlagsAfterHeader(v, prefix, h);
    }
  }

  /** In `extractResumeInfo` every non-header line inside an education section
      is collected as education, and inside an experience section (and not an
      education one) as experience; nothing is dropped for lack of room. */
  lemma DisplayRouting(lines: seq<string>, k: nat)
    requires k < |lines| && lines[k] != [] && !IsHeader(Display, lines[k])
    ensures Routing(Display, lines)[k] == ToEducation <==> Flags(Display, lines[..k]).0
    ensures Routing(Display, lines)[k] == ToExperience <==> !Flags(Display, lines[..k]).0 && Flags(Display, lines[..k]).1
    ensures Routing(Display, lines)[k] == Dropped <==> !Flags(Display, lines[..k]).0 && !Flags(Display, lines[..k]).1
  {
    RouteOfLine(Display, lines, k);
  }

  /** `extractOriginalResumeInfo` keeps at most 10 education and 15 experience lines. */
  lemma {:induction false} OriginalCaps(lines: seq<string>)
    ensures |Pick(lines, Routing(Original, lines), ToEducation)| <= 10
    ensures |Pick(lines, Routing(Original, lines), ToExperience)| <= 15
    decreases |lines|
  {
    if lines != [] {
      var n := |lines| - 1;
      var r := Routing(Original, lines);
      OriginalCaps(lines[..n]);
      assert r[..n] == Routing(Original, lines[..n]);
    }
  }

  /** Each collected list is the input lines with some deleted, in their order. */
  lemma {:induction false} PickIsSubsequence(lines: seq<string>, routes: seq<Destination>, d: Destination)
    requires |routes| == |lines|
    ensures IsSubsequence(Pick(lines, routes, d), lines)
    decreases |lines|
  {
    if lines == [] {
      SubsequenceOfEmpty(lines);
    } else {
      var n := |lines| - 1;
      var prior := Pick(lines[..n], routes[..n], d);
      assert Pick(lines, routes, d) == if routes[n] == d then prior + [lines[n]] else prior;
      PickIsSubsequence(lines[..n], routes[..n], d);
      SubsequenceExtend(prior, lines[..n], lines[n], routes[n] == d);
      assert lines[..n] + [lines[n]] == lines;
    }
  }

  /** No header line is ever collected: every collected line was routed to its list. */
  lemma {:induction false} PickedLinesAreNotHeaders(v: Variant, lines: seq<string>, d: Destination)
    requires d != Heading
    ensures forall line :: line in Pick(lines, Routing(v, lines), d) ==> !IsHeader(v, line)
    decreases |lines|
  {
    if lines != [] {
      var n := |lines| - 1;
      assert Routing(v, lines)[..n] == Routing(v, lines[..n]);
      PickedLinesAreNotHeaders(v, lines[..n], d);
    }
  }

  /** A non-blank line without lower-case letters, such as a date range
      "2019 - 2022", counts as a header in both readers. */
  lemma LetterlessLineIsHeader(v: Variant, line: string)
    requires Trim(line) != []
    requires forall k :: 0 <= k < |line| ==> !('a' <= line[k] <= 'z')
    ensures IsHeader(v, line)
  {
    UpperFixedIff(line);
  }

  /** A blank text keeps every default. */
  lemma BlankTextKeepsDefaults(v: Variant, text: string)
    requires forall k :: 0 <= k < |text| ==> IsSpace(text[k])
    ensures ChosenName(v, ResumeLines(text), Defaults(v).name) == Defaults(v).name
    ensures Pick(ResumeLines(text), Routing(v, ResumeLines(text)), ToEducation) == []
    ensures Pick(ResumeLines(text), Routing(v, ResumeLines(text)), ToExperience) == []
    ensures ContactPatterns.FirstEmail(text).None?
    ensures ContactPatterns.FirstPhone(text).None?
  {
    BlankTextHasNoLines(text);
    assert forall i, a, d, j :: !ContactPatterns.EmailAt(text, i, a, d, j);
    forall i, j | ContactPatterns.PhoneAt(text, i, j) ensures false {
      ContactPatterns.PhoneMatchShape(text, i, j);
    }
  }
}
