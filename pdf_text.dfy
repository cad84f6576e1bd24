/** The results page's fallback recovery of text from raw PDF content
    (`extractTextFromPDF`, src/app/results/page.tsx:256-358) and its removal of
    repeated header and footer lines (`removeRepeatedHeadersFooters`,
    src/app/results/page.tsx:361-385). Each regular expression of the source
    is a scanner that says where its match at a position ends. */
module PdfText {
  import opened Outcomes
  import opened JsText

  // ---------------------------------------------------------------------------
  // Scanning

  /** A pattern, as the end of its match starting at a position, if it matches there. */
  type Matcher = (string, nat) -> Option<nat>

  /** The pattern matches a non-empty stretch of `s` starting at `i`. */
  predicate Matches(m: Matcher, s: string, i: nat)
  {
    m(s, i).Some? && i < m(s, i).value <= |s|
  }

  /** `s.replace(/pattern/g, rep)`, from position `i` on: every match, taken left
      to right without overlap, becomes `rep`; everything else is copied. */
  function ReplaceFrom(s: string, m: Matcher, rep: string, i: nat): string
    decreases |s| - i
  {
    if i >= |s| then []
    else if Matches(m, s, i) then rep + ReplaceFrom(s, m, rep, m(s, i).value)
    else [s[i]] + ReplaceFrom(s, m, rep, i + 1)
  }

  function ReplaceAll(s: string, m: Matcher, rep: string): string
  {
    ReplaceFrom(s, m, rep, 0)
  }

  /** `s.match(/pattern/g) || []` from position `i` on: the matched substrings, in order. */
  function MatchesFrom(s: string, m: Matcher, i: nat): (r: seq<string>)
    ensures forall t :: t in r ==> t != []
    decreases |s| - i
  {
    if i >= |s| then []
    else if Matches(m, s, i) then [s[i..m(s, i).value]] + MatchesFrom(s, m, m(s, i).value)
    else MatchesFrom(s, m, i + 1)
  }

  /** A replacement where the pattern never matches changes nothing. */
  lemma {:induction false} ReplaceWithoutMatch(s: string, m: Matcher, rep: string, i: nat)
    requires i <= |s|
    requires forall k :: i <= k < |s| ==> !Matches(m, s, k)
    ensures ReplaceFrom(s, m, rep, i) == s[i..]
    decreases |s| - i
  {
    if i < |s| {
      ReplaceWithoutMatch(s, m, rep, i + 1);
      assert [s[i]] + s[i + 1..] == s[i..];
    }
  }

  /** A property of characters that the replacement text and every copied
      character have holds for the whole output. */
  lemma {:induction false} ReplaceKeeps(s: string, m: Matcher, rep: string, i: nat, p: char -> bool)
    requires forall c :: c in rep ==> p(c)
    requires forall k :: i <= k < |s| && !Matches(m, s, k) ==> p(s[k])
    ensures forall c :: c in ReplaceFrom(s, m, rep, i) ==> p(c)
    decreases |s| - i
  {
    if i < |s| {
      if Matches(m, s, i) {
        ReplaceKeeps(s, m, rep, m(s, i).value, p);
      } else {
        ReplaceKeeps(s, m, rep, i + 1, p);
      }
    }
  }

  /** The end of the run of characters with property `p` starting at `k`. */
  function RunEnd(s: string, k: nat, p: char -> bool): (e: nat)
    requires k <= |s|
    ensures k <= e <= |s|
    ensures forall j :: k <= j < e ==> p(s[j])
    ensures e == |s| || !p(s[e])
    decreases |s| - k
  {
    if k < |s| && p(s[k]) then RunEnd(s, k + 1, p) else k
  }

  // ---------------------------------------------------------------------------
  // The patterns

  /** A literal pattern such as `/\\n/g` or `/Tj ET/g`. */
  function Literal(lit: string): Matcher
  {
    (s: string, i: nat) => if OccursAt(s, lit, i) then Some(i + |lit|) else None
  }

  /** `\s{n,}` */
  function SpaceRunOf(n: nat): Matcher
  {
    (s: string, i: nat) =>
      if i <= |s| && RunEnd(s, i, IsSpace) >= i + n then Some(RunEnd(s, i, IsSpace)) else None
  }

  /** `BT\s*\/F\d+\s+\d+\s+Tf`. Every quantifier is followed by a character it
      cannot take, so the maximal runs are the only reading. */
  function FontSelector(s: string, i: nat): Option<nat>
  {
    if !OccursAt(s, "BT", i) then None
    else
      var a := RunEnd(s, i + 2, IsSpace);
      if !OccursAt(s, "/F", a) then None
      else
        var d1 := RunEnd(s, a + 2, IsDigit);
        var w1 := RunEnd(s, d1, IsSpace);
        var d2 := RunEnd(s, w1, IsDigit);
        var w2 := RunEnd(s, d2, IsSpace);
        if a + 2 < d1 < w1 < d2 < w2 && OccursAt(s, "Tf", w2) then Some(w2 + 2) else None
  }

  /** `\]\s*TJ` at `i`. */
  function ArrayCloser(s: string, i: nat): Option<nat>
  {
    if i < |s| && s[i] == ']' && OccursAt(s, "TJ", RunEnd(s, i + 1, IsSpace))
    then Some(RunEnd(s, i + 1, IsSpace) + 2) else None
  }

  /** `BT\s*\[` at `i`. */
  function ArrayOpener(s: string, i: nat): Option<nat>
  {
    if !OccursAt(s, "BT", i) then None
    else
      var a := RunEnd(s, i + 2, IsSpace);
      if a < |s| && s[a] == '[' then Some(a + 1) else None
  }

  /** The lazy `(.*?)` before `\]\s*TJ`: the first closer from `k` on, with no
      line terminator before it. */
  function LazyToCloser(s: string, k: nat): Option<nat>
    decreases |s| - k
  {
    if k >= |s| then None
    else if ArrayCloser(s, k).Some? then ArrayCloser(s, k)
    else if IsLineTerminator(s[k]) then None
    else LazyToCloser(s, k + 1)
  }

  /** `BT\s*\[(.*?)\]\s*TJ` */
  function TextArray(s: string, i: nat): Option<nat>
  {
    match ArrayOpener(s, i)
    case Some(b) => LazyToCloser(s, b)
    case None => None
  }

  predicate IsNumberChar(c: char)
  {
    IsDigit(c) || c == '.' || c == '-'
  }

  /** `[0-9.-]+` */
  function NumberRun(s: string, i: nat): Option<nat>
  {
    if i <= |s| && RunEnd(s, i, IsNumberChar) > i then Some(RunEnd(s, i, IsNumberChar)) else None
  }

  /** `stream([\s\S]*?)endstream`: up to the first "endstream" after the keyword. */
  function Stream(s: string, i: nat): Option<nat>
  {
    if !OccursAt(s, "stream", i) then None
    else
      match IndexOf(s, "endstream", i + 6)
      case Some(k) => Some(k + 9)
      case None => None
  }

  /** The characters `[\x20-\x7E\n]` keeps. */
  predicate IsPrintable(c: char)
  {
    (' ' <= c <= '~') || c == '\n'
  }

  /** `[^\x20-\x7E\n]` */
  function Unprintable(s: string, i: nat): Option<nat>
  {
    if i < |s| && !IsPrintable(s[i]) then Some(i + 1) else None
  }

  /** `\(([^)]+)\)` at `i`: up to the first ')' after the '(', which must not follow it directly. */
  function ParenEnd(s: string, i: nat): (r: Option<nat>)
    ensures r.Some? ==> i + 2 < r.value <= |s|
  {
    if i < |s| && s[i] == '(' then
      match IndexOf(s, ")", i + 1)
      case Some(k) => if k > i + 1 then Some(k + 1) else None
      case None => None
    else None
  }

  /** `s.match(/\(([^)]+)\)/g)`, each match without its parentheses, from `i` on. */
  function ParenGroupsFrom(s: string, i: nat): seq<string>
    decreases |s| - i
  {
    if i >= |s| then []
    else
      match ParenEnd(s, i)
      case Some(e) => [s[i + 1..e - 1]] + ParenGroupsFrom(s, e)
      case None => ParenGroupsFrom(s, i + 1)
  }

  // ---------------------------------------------------------------------------
  // The three attempts

  /** Pattern 1 up to its length check: the parenthesised strings longer than
      one character, joined by lines, unescaped and stripped of text operators. */
  function Pattern1Raw(content: string): string
  {
    Pattern1Cleanup(Join(Filter(ParenGroupsFrom(content, 0), (g: string) => |Trim(g)| > 1), "\n"))
  }

  /** The replacements pattern 1 applies to the joined strings. */
  function Pattern1Cleanup(joined: string): string
  {
    var unescaped := ReplaceAll(ReplaceAll(ReplaceAll(ReplaceAll(joined,
      Literal("\\n"), "\n"), Literal("\\r"), ""), Literal("\\t"), "  "), Literal("\\"), "");
    var stripped := ReplaceAll(ReplaceAll(ReplaceAll(unescaped,
      Literal("Tj ET"), ""), Literal("TJ ET"), ""), FontSelector, "");
    Trim(ReplaceAll(stripped, SpaceRunOf(3), "\n"))
  }

  /** Pattern 1 after its length check, first step: blank lines dropped. */
  function Pattern1Lines(raw: string): string
  {
    Join(Filter(Split(raw, '\n'), (line: string) => Trim(line) != []), "\n")
  }

  /** Pattern 1 after its length check: blank lines dropped, repeated lines
      removed by the plain-object dictionary of the code. */
  function Pattern1FinalAsWritten(raw: string): string
  {
    DeduplicatedAsWritten(Pattern1Lines(raw))
  }

  /** Pattern 1 after its length check, with repeated lines counted properly. */
  function Pattern1Final(raw: string): string
  {
    Deduplicated(Pattern1Lines(raw))
  }

  /** Pattern 2: the `BT [...] TJ` text arrays, without their operators and numbers. */
  function Pattern2Text(content: string): string
  {
    var joined := Join(MatchesFrom(content, TextArray, 0), "\n");
    var cleaned := ReplaceAll(ReplaceAll(ReplaceAll(joined, ArrayOpener, ""), ArrayCloser, ""), NumberRun, " ");
    Trim(ReplaceAll(cleaned, SpaceRunOf(2), "\n"))
  }

  /** `streams.reduce((prev, cur) => cur.length > prev.length ? cur : prev, acc)` */
  function Largest(streams: seq<string>, acc: string): (r: string)
    ensures |acc| <= |r|
    ensures forall k :: 0 <= k < |streams| ==> |streams[k]| <= |r|
    ensures |r| == |acc| ==> r == acc
    ensures |r| > |acc| ==> exists k :: 0 <= k < |streams| && r == streams[k] && forall j :: 0 <= j < k ==> |streams[j]| < |r|
    decreases |streams|
  {
    if streams == [] then acc
    else
      var r := Largest(streams[1..], if |streams[0]| > |acc| then streams[0] else acc);
      assert forall k :: 1 <= k < |streams| ==> streams[k] == streams[1..][k - 1];
      r
  }

  /** Pattern 3: the longest stream, with unprintable characters blanked. */
  function Pattern3Text(content: string): string
  {
    var largest := Largest(MatchesFrom(content, Stream, 0), "");
    Trim(ReplaceAll(ReplaceAll(largest, Unprintable, " "), SpaceRunOf(2), "\n"))
  }

  /** Patterns 2 and 3, tried when pattern 1 is not accepted. */
  function LaterPatterns(content: string): (r: string)
    ensures r != [] ==> |r| > 100
  {
    if |MatchesFrom(content, TextArray, 0)| > 0 && |Pattern2Text(content)| > 100 then
      Pattern2Text(content)
    else if |MatchesFrom(content, Stream, 0)| > 0 && |Pattern3Text(content)| > 100 then
      Pattern3Text(content)
    else ""
  }

  /** Pattern 1 finds something: at least one parenthesised string, and more than 100 characters of text. */
  predicate Pattern1Accepted(content: string)
  {
    |ParenGroupsFrom(content, 0)| > 0 && |Pattern1Raw(content)| > 100
  }

  /** `extractTextFromPDF` as written: pattern 1 is accepted on the length of
      its text BEFORE blank lines and repeated lines are removed. */
  function ExtractTextFromPdfAsWritten(content: string): (r: string)
    ensures r != [] ==> StartsWith(content, "%PDF")
    ensures r != [] && !Pattern1Accepted(content) ==> |r| > 100
  {
    if content == [] || !StartsWith(content, "%PDF") then ""
    else if Pattern1Accepted(content) then Pattern1FinalAsWritten(Pattern1Raw(content))
    else LaterPatterns(content)
  }

  /** `extractTextFromPDF` with the length check applied to what pattern 1
      returns, so that a short pattern-1 text falls through to pattern 2, and
      with repeated lines counted properly. */
  function ExtractTextFromPdf(content: string): (r: string)
    ensures r != [] ==> |r| > 100
  {
    if content == [] || !StartsWith(content, "%PDF") then ""
    else if Pattern1Accepted(content) && |Pattern1Final(Pattern1Raw(content))| > 100 then
      Pattern1Final(Pattern1Raw(content))
    else LaterPatterns(content)
  }

  /** Content without the "%PDF" signature yields nothing, in both versions. */
  lemma SignatureGuard(content: string)
    requires !StartsWith(content, "%PDF")
    ensures ExtractTextFromPdf(content) == [] && ExtractTextFromPdfAsWritten(content) == []
  {
  }

  /** Wherever the code as written returns more than 100 characters and no
      pattern-1 line is an inherited name, the corrected version returns the
      same text. */
  lemma CorrectionKeepsLongResults(content: string)
    requires |ExtractTextFromPdfAsWritten(content)| > 100
    requires NoInheritedLine(Pattern1Lines(Pattern1Raw(content)))
    ensures ExtractTextFromPdf(content) == ExtractTextFromPdfAsWritten(content)
  {
  }

  // ---------------------------------------------------------------------------
  // A short pattern-1 result

  /** The content "%PDF(a…a)(a…a)(a…a)(xy)", with runs of 50 'a': 164 characters. */
  function SampleChar(k: int): char
  {
    if k == 0 then '%' else if k == 1 then 'P' else if k == 2 then 'D' else if k == 3 then 'F'
    else if k == 4 || k == 56 || k == 108 || k == 160 then '('
    else if k == 55 || k == 107 || k == 159 || k == 163 then ')'
    else if k == 161 then 'x' else if k == 162 then 'y'
    else 'a'
  }

  predicate IsShortPattern1Sample(s: string)
  {
    |s| == 164 && forall k :: 0 <= k < |s| ==> s[k] == SampleChar(k)
  }

  predicate IsRunOfA(l: string)
  {
    |l| == 50 && forall k :: 0 <= k < |l| ==> l[k] == 'a'
  }

  /** A '(' followed by `n > 0` characters other than ')' and a ')' is one match. */
  lemma ParenGroupAt(s: string, i: nat, n: nat)
    requires 0 < n && i + n + 2 <= |s|
    requires s[i] == '(' && s[i + n + 1] == ')'
    requires forall k :: i < k <= i + n ==> s[k] != ')'
    ensures ParenGroupsFrom(s, i) == [s[i + 1..i + n + 1]] + ParenGroupsFrom(s, i + n + 2)
  {
    assert OccursAt(s, ")", i + n + 1);
    forall k | i + 1 <= k < i + n + 1 ensures !OccursAt(s, ")", k) {
      assert s[k..k + 1][0] == s[k];
    }
    IndexOfAt(s, ")", i + 1, i + n + 1);
    assert ParenEnd(s, i) == Some(i + n + 2);
  }

  lemma SampleSignature(s: string)
    requires IsShortPattern1Sample(s)
    ensures ParenGroupsFrom(s, 0) == ParenGroupsFrom(s, 4)
  {
    assert ParenEnd(s, 0).None? && ParenEnd(s, 1).None? && ParenEnd(s, 2).None? && ParenEnd(s, 3).None?;
    assert ParenGroupsFrom(s, 3) == ParenGroupsFrom(s, 4);
    assert ParenGroupsFrom(s, 2) == ParenGroupsFrom(s, 3);
    assert ParenGroupsFrom(s, 1) == ParenGroupsFrom(s, 2);
    assert ParenGroupsFrom(s, 0) == ParenGroupsFrom(s, 1);
  }

  lemma SampleGroups(s: string)
    requires IsShortPattern1Sample(s)
    ensures IsRunOfA(s[5..55]) && s[57..107] == s[5..55] && s[109..159] == s[5..55]
    ensures ParenGroupsFrom(s, 0) == [s[5..55], s[5..55], s[5..55], "xy"]
  {
    SampleRuns(s);
    SampleParenGroups(s);
    assert s[161..163] == "xy";
  }

  lemma SampleRuns(s: string)
    requires IsShortPattern1Sample(s)
    ensures IsRunOfA(s[5..55]) && s[57..107] == s[5..55] && s[109..159] == s[5..55]
  {
    assert forall k :: 0 <= k < 50 ==> s[5..55][k] == s[5 + k] == 'a';
    assert forall k :: 0 <= k < 50 ==> s[57..107][k] == s[57 + k] == 'a';
    assert forall k :: 0 <= k < 50 ==> s[109..159][k] == s[109 + k] == 'a';
  }

  lemma SampleParenGroups(s: string)
    requires IsShortPattern1Sample(s)
    ensures ParenGroupsFrom(s, 0) == [s[5..55], s[57..107], s[109..159], s[161..163]]
  {
    SampleSignature(s);
    SampleGroupAt(s, 4, 50);
    SampleGroupAt(s, 56, 50);
    SampleGroupAt(s, 108, 50);
    SampleGroupAt(s, 160, 2);
    assert ParenGroupsFrom(s, 164) == [];
  }

  lemma SampleGroupAt(s: string, i: nat, n: nat)
    requires IsShortPattern1Sample(s)
    requires ((i == 4 || i == 56 || i == 108) && n == 50) || (i == 160 && n == 2)
    ensures ParenGroupsFrom(s, i) == [s[i + 1..i + n + 1]] + ParenGroupsFrom(s, i + n + 2)
  {
    assert s[i] == '(' && s[i + n + 1] == ')';
    assert forall k :: i < k <= i + n ==> s[k] != ')';
    ParenGroupAt(s, i, n);
  }

  /** A literal whose first character does not occur never matches. */
  lemma LiteralNeverMatches(s: string, lit: string)
    requires lit != [] && lit[0] !in s
    ensures forall k: nat :: !Matches(Literal(lit), s, k)
  {
  }

  /** Without two white-space characters in a row, `\s{n,}` for `n >= 2` never matches. */
  lemma SpaceRunNeverMatches(s: string, n: nat)
    requires n >= 2
    requires forall k :: 0 <= k < |s| - 1 ==> !(IsSpace(s[k]) && IsSpace(s[k + 1]))
    ensures forall k: nat :: !Matches(SpaceRunOf(n), s, k)
  {
    forall k: nat | Matches(SpaceRunOf(n), s, k) ensures false {
      SpaceRunStartsWithTwo(s, n, k);
    }
  }

  lemma SpaceRunStartsWithTwo(s: string, n: nat, k: nat)
    requires n >= 2 && Matches(SpaceRunOf(n), s, k)
    ensures k + 1 < |s| && IsSpace(s[k]) && IsSpace(s[k + 1])
  {
    var e := RunEnd(s, k, IsSpace);
    assert SpaceRunOf(n)(s, k) == Some(e);
  }

  /** Non-empty pieces without white space, joined by line feeds, never put two white-space characters in a row. */
  lemma {:induction false} JoinedWithoutAdjacentSpaces(parts: seq<string>)
    requires forall i :: 0 <= i < |parts| ==> parts[i] != [] && forall c :: c in parts[i] ==> !IsSpace(c)
    ensures var j := Join(parts, "\n"); forall k :: 0 <= k < |j| - 1 ==> !(IsSpace(j[k]) && IsSpace(j[k + 1]))
    ensures parts != [] ==> |Join(parts, "\n")| > 0 && Join(parts, "\n")[0] == parts[0][0]
    decreases |parts|
  {
    if |parts| >= 2 {
      var p, rest := parts[0], parts[1..];
      JoinedWithoutAdjacentSpaces(rest);
      var r := Join(rest, "\n");
      var j := Join(parts, "\n");
      assert j == p + "\n" + r;
      forall k | 0 <= k < |j| - 1 ensures !(IsSpace(j[k]) && IsSpace(j[k + 1])) {
        if k < |p| {
          assert j[k] == p[k] && p[k] in p;
        } else if k == |p| {
          assert j[k + 1] == r[0] == rest[0][0] && rest[0][0] in rest[0];
        } else {
          assert j[k] == r[k - |p| - 1] && j[k + 1] == r[k - |p|];
        }
      }
    } else if |parts| == 1 {
      assert forall k :: 0 <= k < |parts[0]| ==> parts[0][k] in parts[0];
    }
  }

  /** Text without a backslash, a 'T', a 'B' or two white-space characters
      in a row, that neither starts nor ends with white space, passes the
      pattern-1 replacements unchanged. */
  lemma CleanupIdentity(j: string)
    requires '\\' !in j && 'T' !in j && 'B' !in j
    requires forall k :: 0 <= k < |j| - 1 ==> !(IsSpace(j[k]) && IsSpace(j[k + 1]))
    requires j == [] || (!IsSpace(j[0]) && !IsSpace(j[|j| - 1]))
    ensures Pattern1Cleanup(j) == j
  {
    LiteralNeverMatches(j, "\\n");
    ReplaceWithoutMatch(j, Literal("\\n"), "\n", 0);
    LiteralNeverMatches(j, "\\r");
    ReplaceWithoutMatch(j, Literal("\\r"), "", 0);
    LiteralNeverMatches(j, "\\t");
    ReplaceWithoutMatch(j, Literal("\\t"), "  ", 0);
    LiteralNeverMatches(j, "\\");
    ReplaceWithoutMatch(j, Literal("\\"), "", 0);
    LiteralNeverMatches(j, "Tj ET");
    ReplaceWithoutMatch(j, Literal("Tj ET"), "", 0);
    LiteralNeverMatches(j, "TJ ET");
    ReplaceWithoutMatch(j, Literal("TJ ET"), "", 0);
    forall k: nat | Matches(FontSelector, j, k) ensures false {
      FontSelectorStartsWithB(j, k);
    }
    ReplaceWithoutMatch(j, FontSelector, "", 0);
    SpaceRunNeverMatches(j, 3);
    ReplaceWithoutMatch(j, SpaceRunOf(3), "\n", 0);
    TrimIdentity(j);
  }

  lemma FontSelectorStartsWithB(s: string, k: nat)
    requires Matches(FontSelector, s, k)
    ensures 'B' in s
  {
    assert s[k..k + 2][0] == s[k];
  }

  /** The lines of the sample, joined. */
  lemma SampleJoined(l: string)
    requires IsRunOfA(l)
    ensures var j := Join([l, l, l, "xy"], "\n");
      && '\\' !in j && 'T' !in j && 'B' !in j
      && (forall k :: 0 <= k < |j| - 1 ==> !(IsSpace(j[k]) && IsSpace(j[k + 1])))
      && |j| == 155 && j[0] == 'a' && j[|j| - 1] == 'y'
  {
    var parts := [l, l, l, "xy"];
    var j := Join(parts, "\n");
    assert parts[1..] == [l, l, "xy"] && [l, l, "xy"][1..] == [l, "xy"] && [l, "xy"][1..] == ["xy"];
    assert Join([l, "xy"], "\n") == l + "\n" + "xy";
    assert Join([l, l, "xy"], "\n") == l + "\n" + (l + "\n" + "xy");
    assert j == l + "\n" + (l + "\n" + (l + "\n" + "xy"));
    assert forall c :: c in l ==> c == 'a';
    assert forall c :: c in j ==> c == 'a' || c == '\n' || c == 'x' || c == 'y';
    assert forall c :: c in l ==> !IsSpace(c);
    JoinedWithoutAdjacentSpaces(parts);
  }

  lemma SampleRaw(s: string, l: string)
    requires IsShortPattern1Sample(s) && IsRunOfA(l)
    requires ParenGroupsFrom(s, 0) == [l, l, l, "xy"]
    ensures Pattern1Raw(s) == Join([l, l, l, "xy"], "\n")
  {
    var parts := [l, l, l, "xy"];
    TrimIdentity(l);
    TrimIdentity("xy");
    FilterKeepsAll(parts, (g: string) => |Trim(g)| > 1);
    SampleJoined(l);
    CleanupIdentity(Join(parts, "\n"));
  }

  /** The three equal lines reach the threshold of 3 and are not longer than
      50: only "xy" stays. No line is an inherited name, so the dictionary of
      the code counts them properly. */
  lemma SampleFinal(l: string)
    requires IsRunOfA(l)
    ensures Pattern1FinalAsWritten(Join([l, l, l, "xy"], "\n")) == "xy"
  {
    var j := Join([l, l, l, "xy"], "\n");
    SampleLines(l);
    SampleKept(l);
    assert Join(["xy"], "\n") == "xy";
  }

  /** The sample has no blank line and no line named like an inherited property. */
  lemma SampleLines(l: string)
    requires IsRunOfA(l)
    ensures var j := Join([l, l, l, "xy"], "\n");
      Pattern1Lines(j) == j && Split(j, '\n') == [l, l, l, "xy"] && NoInheritedLine(j)
  {
    var parts := [l, l, l, "xy"];
    SplitJoin(parts, '\n');
    TrimIdentity(l);
    TrimIdentity("xy");
    FilterKeepsAll(parts, (line: string) => Trim(line) != []);
    InheritedKeyLengths();
  }

  lemma InheritedKeyLengths()
    ensures forall t :: t in InheritedKeys ==> 7 <= |t| <= 20
  {
  }

  lemma SampleKept(l: string)
    requires IsRunOfA(l)
    ensures KeptLines([l, l, l, "xy"], [l, l, l, "xy"], 3) == ["xy"]
  {
    var parts := [l, l, l, "xy"];
    SampleOccurrences(l);
    TrimIdentity(l);
    TrimIdentity("xy");
    assert !Keep(parts, 3, l);
    assert Keep(parts, 3, "xy");
    var p := KeepIn(parts, 3);
    assert parts[1..] == [l, l, "xy"] && [l, l, "xy"][1..] == [l, "xy"] && [l, "xy"][1..] == ["xy"] && ["xy"][1..] == [];
    assert Filter(["xy"], p) == ["xy"];
    assert Filter([l, "xy"], p) == ["xy"];
    assert Filter([l, l, "xy"], p) == ["xy"];
  }

  lemma SampleOccurrences(l: string)
    requires IsRunOfA(l)
    ensures Occurrences([l, l, l, "xy"], l) == 3 && Occurrences([l, l, l, "xy"], "xy") == 1
  {
    TrimIdentity(l);
    TrimIdentity("xy");
    assert |l| != |"xy"|;
    ThreeCopiesAndOne(l, "xy");
  }

  lemma ThreeCopiesAndOne(l: string, x: string)
    requires Trim(l) == l && Trim(x) == x && l != x
    ensures Occurrences([l, l, l, x], l) == 3 && Occurrences([l, l, l, x], x) == 1
  {
    assert [l][..0] == [];
    assert Occurrences([l], l) == 1 && Occurrences([l], x) == 0;
    assert [l, l][..1] == [l];
    assert Occurrences([l, l], l) == 2 && Occurrences([l, l], x) == 0;
    assert [l, l, l][..2] == [l, l];
    assert Occurrences([l, l, l], l) == 3 && Occurrences([l, l, l], x) == 0;
    assert [l, l, l, x][..3] == [l, l, l];
  }

  /** As written, pattern 1 accepts the sample on its 155 characters and then
      returns the two characters "xy": the three repeated lines are removed
      after the length check. */
  lemma ShortPattern1Result(s: string)
    requires IsShortPattern1Sample(s)
    ensures ExtractTextFromPdfAsWritten(s) == "xy"
  {
    assert s[..4] == "%PDF";
    SampleGroups(s);
    var l := s[5..55];
    SampleRaw(s, l);
    SampleFinal(l);
  }

  /** Pattern 3 yields only printable ASCII characters and line feeds. */
  lemma Pattern3Printable(content: string)
    ensures forall c :: c in Pattern3Text(content) ==> IsPrintable(c)
  {
    var largest := Largest(MatchesFrom(content, Stream, 0), "");
    var blanked := ReplaceAll(largest, Unprintable, " ");
    ReplaceKeeps(largest, Unprintable, " ", 0, IsPrintable);
    var collapsed := ReplaceAll(blanked, SpaceRunOf(2), "\n");
    ReplaceKeeps(blanked, SpaceRunOf(2), "\n", 0, IsPrintable);
    var r := Trim(collapsed);
    assert forall c :: c in r ==> c in collapsed;
  }

  // ---------------------------------------------------------------------------
  // Repeated header and footer lines

  /** The number of lines whose trimmed form is `t`. */
  function Occurrences(lines: seq<string>, t: string): (n: nat)
    ensures n <= |lines|
    decreases |lines|
  {
    if lines == [] then 0
    else Occurrences(lines[..|lines| - 1], t) + (if Trim(lines[|lines| - 1]) == t then 1 else 0)
  }

  /** `Math.max(3, Math.floor(lineCount / 10))` */
  function Threshold(lineCount: nat): nat
  {
    if lineCount / 10 > 3 then lineCount / 10 else 3
  }

  /** A line stays when it is blank, rarer than the threshold, or longer than 50 characters once trimmed. */
  predicate Keep(lines: seq<string>, threshold: nat, line: string)
  {
    var t := Trim(line);
    t == [] || Occurrences(lines, t) < threshold || |t| > 50
  }

  function KeepIn(lines: seq<string>, threshold: nat): string -> bool
  {
    line => Keep(lines, threshold, line)
  }

  /** The lines of `prefix` that `Keep` accepts, in order. */
  function KeptLines(prefix: seq<string>, lines: seq<string>, threshold: nat): seq<string>
  {
    Filter(prefix, KeepIn(lines, threshold))
  }

  lemma OccurrencesStep(lines: seq<string>, i: nat)
    requires i < |lines|
    ensures forall t :: Occurrences(lines[..i + 1], t) == Occurrences(lines[..i], t) + (if Trim(lines[i]) == t then 1 else 0)
  {
    assert lines[..i + 1][..i] == lines[..i];
  }

  lemma KeptLinesStep(lines: seq<string>, threshold: nat, i: nat)
    requires i < |lines|
    ensures KeptLines(lines[..i + 1], lines, threshold)
            == KeptLines(lines[..i], lines, threshold) + (if Keep(lines, threshold, lines[i]) then [lines[i]] else [])
  {
    assert lines[..i + 1] == lines[..i] + [lines[i]];
    FilterSnoc(lines[..i], lines[i], KeepIn(lines, threshold));
  }

  /** `removeRepeatedHeadersFooters`, counting lines in a dictionary. */
  function Deduplicated(text: string): string
  {
    var lines := Split(text, '\n');
    Join(KeptLines(lines, lines, Threshold(|lines|)), "\n")
  }

  /** The names an object literal inherits from `Object.prototype`: looking one
      of them up in `{}` yields a function or object, never a count. */
  const InheritedKeys: set<string> := {
    "__proto__", "__defineGetter__", "__defineSetter__", "__lookupGetter__", "__lookupSetter__",
    "constructor", "hasOwnProperty", "isPrototypeOf", "propertyIsEnumerable",
    "toLocaleString", "toString", "valueOf"}

  /** The keep test as written: for an inherited name the count read back is
      not a number (`fn + 1` concatenates; setting `__proto__` to a string is
      ignored), `< threshold` is false, and the line goes unless it is long. */
  predicate KeepAsWritten(lines: seq<string>, threshold: nat, line: string)
  {
    var t := Trim(line);
    t == [] || (t !in InheritedKeys && Occurrences(lines, t) < threshold) || |t| > 50
  }

  function KeepAsWrittenIn(lines: seq<string>, threshold: nat): string -> bool
  {
    line => KeepAsWritten(lines, threshold, line)
  }

  /** The lines of `prefix` that `KeepAsWritten` accepts, in order. */
  function KeptLinesAsWritten(prefix: seq<string>, lines: seq<string>, threshold: nat): seq<string>
  {
    Filter(prefix, KeepAsWrittenIn(lines, threshold))
  }

  /** `removeRepeatedHeadersFooters` as written, with the plain object `{}`
      as dictionary. Without inherited names among the lines, it counts
      correctly and agrees with the corrected version. */
  function DeduplicatedAsWritten(text: string): (r: string)
    ensures NoInheritedLine(text) ==> r == Deduplicated(text)
  {
    var lines := Split(text, '\n');
    var threshold := Threshold(|lines|);
    if NoInheritedLine(text) then
      assert forall i :: 0 <= i < |lines| ==> lines[i] in lines;
      FilterAgree(lines, KeepAsWrittenIn(lines, threshold), KeepIn(lines, threshold));
      Join(KeptLinesAsWritten(lines, lines, threshold), "\n")
    else Join(KeptLinesAsWritten(lines, lines, threshold), "\n")
  }

  /** No line of `text`, once trimmed, is a name inherited from `Object.prototype`. */
  predicate NoInheritedLine(text: string)
  {
    forall line :: line in Split(text, '\n') ==> Trim(line) !in InheritedKeys
  }

  /** The code drops every line the corrected version drops, and possibly more:
      its lines are a subsequence of the corrected lines. */
  lemma AsWrittenDropsMore(lines: seq<string>, threshold: nat)
    ensures IsSubsequence(KeptLinesAsWritten(lines, lines, threshold), KeptLines(lines, lines, threshold))
  {
    FilterStricter(lines, KeepAsWrittenIn(lines, threshold), KeepIn(lines, threshold));
  }

  /** A resume consisting of the single line "toString" loses it as written, and keeps it when counted. */
  lemma InheritedNameIsDropped()
    ensures DeduplicatedAsWritten("toString") == ""
    ensures Deduplicated("toString") == "toString"
  {
    var lines := ["toString"];
    SingleLineFacts();
    assert KeptLinesAsWritten(lines, lines, 3) == [] by {
      assert lines[1..] == [];
    }
    assert KeptLines(lines, lines, 3) == lines by {
      assert lines[1..] == [];
    }
  }

  lemma SingleLineFacts()
    ensures Split("toString", '\n') == ["toString"] && Threshold(1) == 3
    ensures Keep(["toString"], 3, "toString") && !KeepAsWritten(["toString"], 3, "toString")
  {
    SplitNoSeparator("toString", '\n');
    TrimIdentity("toString");
    var lines := ["toString"];
    assert Occurrences(lines, "toString") == 1 by {
      assert lines[..0] == [];
    }
  }

  /** Blank lines, lines longer than 50 characters once trimmed, and lines
      that occur fewer than three times always stay. */
  lemma AlwaysKept(lines: seq<string>, line: string)
    requires Trim(line) == [] || |Trim(line)| > 50 || Occurrences(lines, Trim(line)) < 3
    ensures Keep(lines, Threshold(|lines|), line)
  {
  }

  /** The kept lines are the input lines with some deleted, in their order. */
  lemma KeptLinesSubsequence(prefix: seq<string>, lines: seq<string>, threshold: nat)
    ensures IsSubsequence(KeptLines(prefix, lines, threshold), prefix)
  {
    FilterIsSubsequence(prefix, KeepIn(lines, threshold));
  }

  /** A line is kept exactly when `Keep` accepts it: every accepted line is in
      the output and nothing else is. */
  lemma KeptLinesMembers(prefix: seq<string>, lines: seq<string>, threshold: nat)
    ensures forall x :: x in KeptLines(prefix, lines, threshold) <==> x in prefix && Keep(lines, threshold, x)
  {
    FilterMembers(prefix, KeepIn(lines, threshold));
  }

  /** The dictionary loop of `removeRepeatedHeadersFooters`: the count of
      every non-blank trimmed line. */
  method CountLines(lines: seq<string>) returns (frequency: map<string, nat>)
    ensures forall t :: t in frequency <==> t != [] && Occurrences(lines, t) > 0
    ensures forall t :: t in frequency ==> frequency[t] == Occurrences(lines, t)
  {
    frequency := map[];
    for i := 0 to |lines|
      invariant Counts(frequency, lines[..i])
    {
      CountsStep(frequency, lines, i);
      var trimmed := Trim(lines[i]);
      if |trimmed| > 0 {
        frequency := frequency[trimmed := (if trimmed in frequency then frequency[trimmed] else 0) + 1];
      }
    }
    assert lines[..|lines|] == lines;
  }

  /** `frequency` holds the count of every non-blank trimmed line of `lines`, and nothing else. */
  ghost predicate Counts(frequency: map<string, nat>, lines: seq<string>)
  {
    && (forall t :: t in frequency <==> t != [] && Occurrences(lines, t) > 0)
    && (forall t :: t in frequency ==> frequency[t] == Occurrences(lines, t))
  }

  lemma CountsStep(frequency: map<string, nat>, lines: seq<string>, i: nat)
    requires i < |lines| && Counts(frequency, lines[..i])
    ensures var trimmed := Trim(lines[i]);
      Counts(if |trimmed| > 0 then frequency[trimmed := (if trimmed in frequency then frequency[trimmed] else 0) + 1]
             else frequency, lines[..i + 1])
  {
    OccurrencesStep(lines, i);
  }

  /** `removeRepeatedHeadersFooters`: count the lines, then keep the blank,
      rare and long ones. */
  method RemoveRepeatedHeadersFooters(text: string) returns (r: string)
    ensures r == Deduplicated(text)
  {
    var lines := Split(text, '\n');
    var frequency := CountLines(lines);
    var threshold := Threshold(|lines|);
    var kept: seq<string> := [];
    for i := 0 to |lines|
      invariant kept == KeptLines(lines[..i], lines, threshold)
    {
      KeptLinesStep(lines, threshold, i);
      var trimmed := Trim(lines[i]);
      var count := if trimmed in frequency then frequency[trimmed] else 0;
      if |trimmed| == 0 || count < threshold || |trimmed| > 50 {
        kept := kept + [lines[i]];
      }
    }
    assert lines[..|lines|] == lines;
    r := Join(kept, "\n");
  }
}
