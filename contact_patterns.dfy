/** The two regular expressions `extractResumeInfo` and `extractOriginalResumeInfo`
    run over the whole resume text (src/lib/pdfUtils.ts:63 and :70), written as
    scanners. `String.prototype.match` without the `g` flag returns the match the
    backtracking engine finds first: the leftmost start position, and at that
    position the alternative its greedy quantifiers try first. */
module ContactPatterns {
  import opened Outcomes
  import opened JsText

  // ---------------------------------------------------------------------------
  // Email: \b[A-Za-z0-9._%+-]+@[A-Za-z0-9.-]+\.[A-Z|a-z]{2,}\b

  predicate IsLocalChar(c: char)
  {
    IsAsciiLetter(c) || IsDigit(c) || c == '.' || c == '_' || c == '%' || c == '+' || c == '-'
  }

  predicate IsDomainChar(c: char)
  {
    IsAsciiLetter(c) || IsDigit(c) || c == '.' || c == '-'
  }

  /** `[A-Z|a-z]`: inside a character class the bar is a literal '|'. */
  predicate IsTldChar(c: char)
  {
    IsAsciiLetter(c) || c == '|'
  }

  /** `\.[A-Z|a-z]{2,}\b` matches `s[d..j]`. */
  ghost predicate TldAt(s: string, d: int, j: int)
  {
    && 0 <= d && d + 2 < j <= |s|
    && s[d] == '.'
    && (forall k :: d < k < j ==> IsTldChar(s[k]))
    && IsBoundary(s, j)
  }

  /** The email pattern matches `s[i..j]`, with its '@' at `a` and the dot
      before the top-level domain at `d`. */
  ghost predicate EmailAt(s: string, i: int, a: int, d: int, j: int)
  {
    && 0 <= i < a && a + 1 < d && d + 2 < j <= |s|
    && IsBoundary(s, i)
    && (forall k :: i <= k < a ==> IsLocalChar(s[k]))
    && s[a] == '@'
    && (forall k :: a < k < d ==> IsDomainChar(s[k]))
    && TldAt(s, d, j)
  }

  datatype EmailSpan = EmailSpan(start: nat, at: nat, dot: nat, end: nat)

  function LocalEnd(s: string, k: nat): (e: nat)
    requires k <= |s|
    ensures k <= e <= |s|
    ensures forall m :: k <= m < e ==> IsLocalChar(s[m])
    ensures e == |s| || !IsLocalChar(s[e])
    decreases |s| - k
  {
    if k < |s| && IsLocalChar(s[k]) then LocalEnd(s, k + 1) else k
  }

  function DomainEnd(s: string, k: nat): (e: nat)
    requires k <= |s|
    ensures k <= e <= |s|
    ensures forall m :: k <= m < e ==> IsDomainChar(s[m])
    ensures e == |s| || !IsDomainChar(s[e])
    decreases |s| - k
  {
    if k < |s| && IsDomainChar(s[k]) then DomainEnd(s, k + 1) else k
  }

  function TldEnd(s: string, k: nat): (e: nat)
    requires k <= |s|
    ensures k <= e <= |s|
    ensures forall m :: k <= m < e ==> IsTldChar(s[m])
    ensures e == |s| || !IsTldChar(s[e])
    decreases |s| - k
  {
    if k < |s| && IsTldChar(s[k]) then TldEnd(s, k + 1) else k
  }

  /** `[A-Z|a-z]{2,}\b` after the dot at `d`: the greedy count gives back one
      character at a time, from `j` down, until a word boundary follows. */
  function TryTld(s: string, d: nat, j: nat): (r: Option<nat>)
    requires j <= |s|
    ensures r.Some? ==> d + 3 <= r.value <= j && IsBoundary(s, r.value)
    ensures r.Some? ==> forall k :: r.value < k <= j ==> !IsBoundary(s, k)
    ensures r.None? ==> forall k :: d + 3 <= k <= j ==> !IsBoundary(s, k)
    decreases j
  {
    if j < d + 3 then None
    else if IsBoundary(s, j) then Some(j)
    else TryTld(s, d, j - 1)
  }

  /** The longest top-level domain after a dot at `d`, if there is one. */
  function BestTld(s: string, d: nat): (r: Option<nat>)
    requires d < |s| && s[d] == '.'
    ensures r.Some? ==> TldAt(s, d, r.value) && forall j :: TldAt(s, d, j) ==> j <= r.value
    ensures r.None? ==> forall j :: !TldAt(s, d, j)
  {
    var t := TldEnd(s, d + 1);
    var r := TryTld(s, d, t);
    r
  }

  /** `[A-Za-z0-9.-]+\.` followed by a top-level domain: the greedy domain
      gives back one character at a time, from `d` down, so the LAST dot
      that is followed by a top-level domain wins. */
  function TryDot(s: string, a: nat, d: int): (r: Option<(nat, nat)>)
    requires a < |s| && d < |s|
    requires forall k :: a < k <= d ==> IsDomainChar(s[k])
    ensures r.Some? ==> a + 2 <= r.value.0 <= d && TldAt(s, r.value.0, r.value.1)
    ensures r.Some? ==> forall j :: TldAt(s, r.value.0, j) ==> j <= r.value.1
    ensures r.Some? ==> forall d', j :: r.value.0 < d' <= d ==> !TldAt(s, d', j)
    ensures r.None? ==> forall d', j :: a + 2 <= d' <= d ==> !TldAt(s, d', j)
    decreases d
  {
    if d < a + 2 then None
    else if s[d] == '.' then
      match BestTld(s, d)
      case Some(j) => Some((d, j))
      case None => TryDot(s, a, d - 1)
    else TryDot(s, a, d - 1)
  }

  /** In any match starting at `i`, the '@' ends the run of local-part
      characters and the dot lies inside the run of domain characters. */
  lemma EmailAtForced(s: string, i: nat, a: nat, d: nat, j: nat)
    requires EmailAt(s, i, a, d, j)
    ensures a == LocalEnd(s, i)
    ensures d < DomainEnd(s, a + 1)
  {
  }

  /** The match the engine reports for a start position `i`, if any. */
  function MatchEmailAt(s: string, i: nat): (r: Option<EmailSpan>)
    ensures r.Some? ==> r.value.start == i && EmailAt(s, i, r.value.at, r.value.dot, r.value.end)
    ensures r.Some? ==> forall a, d, j :: EmailAt(s, i, a, d, j) ==>
                          d < r.value.dot || (d == r.value.dot && j <= r.value.end)
    ensures r.None? ==> forall a, d, j :: !EmailAt(s, i, a, d, j)
  {
    if i >= |s| || !IsLocalChar(s[i]) || !IsBoundary(s, i) then None
    else
      var a := LocalEnd(s, i);
      if a >= |s| || s[a] != '@' then
        assert forall a', d, j :: !EmailAt(s, i, a', d, j) by {
          forall a', d, j | EmailAt(s, i, a', d, j) ensures false { EmailAtForced(s, i, a', d, j); }
        }
        None
      else
        var e := DomainEnd(s, a + 1);
        var found := TryDot(s, a, e - 1);
        assert forall a', d, j :: EmailAt(s, i, a', d, j) ==> a' == a && d <= e - 1 by {
          forall a', d, j | EmailAt(s, i, a', d, j) ensures a' == a && d <= e - 1 {
            EmailAtForced(s, i, a', d, j);
          }
        }
        match found
        case Some((d, j)) => Some(EmailSpan(i, a, d, j))
        case None => None
  }

  /** The first match at or after position `i`. */
  function FindEmailFrom(s: string, i: nat): (r: Option<EmailSpan>)
    ensures r.Some? ==> i <= r.value.start && EmailAt(s, r.value.start, r.value.at, r.value.dot, r.value.end)
    ensures r.Some? ==> forall a, d, j :: EmailAt(s, r.value.start, a, d, j) ==>
                          d < r.value.dot || (d == r.value.dot && j <= r.value.end)
    ensures r.Some? ==> forall i', a, d, j :: i <= i' < r.value.start ==> !EmailAt(s, i', a, d, j)
    ensures r.None? ==> forall i', a, d, j :: i <= i' ==> !EmailAt(s, i', a, d, j)
    decreases |s| - i
  {
    if i >= |s| then None
    else
      match MatchEmailAt(s, i)
      case Some(span) => Some(span)
      case None => FindEmailFrom(s, i + 1)
  }

  /** `text.match(emailRegex)?.[0]` */
  function FirstEmail(text: string): (r: Option<string>)
    ensures r.None? <==> forall i, a, d, j :: !EmailAt(text, i, a, d, j)
    ensures r.Some? ==> exists i, a, d, j :: EmailAt(text, i, a, d, j) && r.value == text[i..j]
  {
    match FindEmailFrom(text, 0)
    case Some(span) => Some(text[span.start..span.end])
    case None => None
  }

  // ---------------------------------------------------------------------------
  // Phone: \(?\d{3}\)?[-.\s]?\d{3}[-.\s]?\d{4}

  /** `[-.\s]` */
  predicate IsSeparator(c: char)
  {
    c == '-' || c == '.' || IsSpace(c)
  }

  predicate DigitsAt(s: string, k: nat, n: nat)
  {
    k + n <= |s| && forall m :: k <= m < k + n ==> IsDigit(s[m])
  }

  function Width(b: bool): nat
  {
    if b then 1 else 0
  }

  /** Where the second and third groups of digits start, and where the match
      ends, when each optional part is taken or skipped. */
  function SecondGroup(i: nat, open: bool, close: bool, sep1: bool): nat
  {
    i + Width(open) + 3 + Width(close) + Width(sep1)
  }

  function ThirdGroup(i: nat, open: bool, close: bool, sep1: bool, sep2: bool): nat
  {
    SecondGroup(i, open, close, sep1) + 3 + Width(sep2)
  }

  /** The pattern matches from `i` taking the optional `\(`, `\)`, first and
      second separator exactly when the flags say so. */
  predicate PhoneShape(s: string, i: nat, open: bool, close: bool, sep1: bool, sep2: bool)
  {
    var p := i + Width(open);
    var r := SecondGroup(i, open, close, sep1);
    var t := ThirdGroup(i, open, close, sep1, sep2);
    && t + 4 <= |s|
    && (open ==> s[i] == '(')
    && DigitsAt(s, p, 3)
    && (close ==> s[p + 3] == ')')
    && (sep1 ==> IsSeparator(s[p + 3 + Width(close)]))
    && DigitsAt(s, r, 3)
    && (sep2 ==> IsSeparator(s[r + 3]))
    && DigitsAt(s, t, 4)
  }

  /** The phone pattern matches `s[i..j]`. */
  ghost predicate PhoneAt(s: string, i: int, j: int)
  {
    0 <= i && exists open: bool, close: bool, sep1: bool, sep2: bool ::
      PhoneShape(s, i, open, close, sep1, sep2) && j == ThirdGroup(i, open, close, sep1, sep2) + 4
  }

  /** The optional parts the engine takes at `i`: each one whose character is there. */
  function GreedyFlags(s: string, i: nat): (bool, bool, bool, bool)
  {
    var open := i < |s| && s[i] == '(';
    var p := i + Width(open);
    var close := p + 3 < |s| && s[p + 3] == ')';
    var q := p + 3 + Width(close);
    var sep1 := q < |s| && IsSeparator(s[q]);
    var r := SecondGroup(i, open, close, sep1);
    var sep2 := r + 3 < |s| && IsSeparator(s[r + 3]);
    (open, close, sep1, sep2)
  }

  /** A match at `i` takes exactly the optional parts whose character is
      there, since none of them can be a digit: at most one match per start. */
  lemma PhoneShapeForced(s: string, i: nat, open: bool, close: bool, sep1: bool, sep2: bool)
    requires PhoneShape(s, i, open, close, sep1, sep2)
    ensures (open, close, sep1, sep2) == GreedyFlags(s, i)
  {
  }

  /** The engine's reading is the only one: the pattern matches `s[i..j]`
      exactly when it matches with the greedy choices and ends at `j`. */
  lemma PhoneAtGreedy(s: string, i: nat, j: int)
    ensures PhoneAt(s, i, j) <==>
      var (o, c, x, y) := GreedyFlags(s, i);
      PhoneShape(s, i, o, c, x, y) && j == ThirdGroup(i, o, c, x, y) + 4
  {
    var (o, c, x, y) := GreedyFlags(s, i);
    if PhoneAt(s, i, j) {
      var o', c', x', y' :| PhoneShape(s, i, o', c', x', y') && j == ThirdGroup(i, o', c', x', y') + 4;
      PhoneShapeForced(s, i, o', c', x', y');
    }
  }

  /** The match the engine reports for a start position `i`. */
  function MatchPhoneAt(s: string, i: nat): (r: Option<nat>)
    ensures r.Some? ==> i < r.value <= |s| && PhoneAt(s, i, r.value)
    ensures r.Some? ==> forall j :: PhoneAt(s, i, j) ==> j == r.value
    ensures r.None? ==> forall j :: !PhoneAt(s, i, j)
  {
    var (open, close, sep1, sep2) := GreedyFlags(s, i);
    var e := ThirdGroup(i, open, close, sep1, sep2) + 4;
    assert forall j :: PhoneAt(s, i, j) <==> PhoneShape(s, i, open, close, sep1, sep2) && j == e by {
      forall j ensures PhoneAt(s, i, j) <==> PhoneShape(s, i, open, close, sep1, sep2) && j == e {
        PhoneAtGreedy(s, i, j);
      }
    }
    if PhoneShape(s, i, open, close, sep1, sep2) then Some(e) else None
  }

  /** A phone match is 10 to 14 characters long and ends with a digit. */
  lemma PhoneMatchShape(s: string, i: int, j: int)
    requires PhoneAt(s, i, j)
    ensures 0 <= i && i + 10 <= j <= i + 14 && j <= |s| && IsDigit(s[j - 1])
  {
    var o, c, x, y :| PhoneShape(s, i, o, c, x, y) && j == ThirdGroup(i, o, c, x, y) + 4;
    assert DigitsAt(s, ThirdGroup(i, o, c, x, y), 4);
  }

  /** The first match at or after position `i`, as its start and end. */
  function FindPhoneFrom(s: string, i: nat): (r: Option<(nat, nat)>)
    ensures r.Some? ==> i <= r.value.0 < r.value.1 <= |s| && PhoneAt(s, r.value.0, r.value.1)
    ensures r.Some? ==> forall i', j :: i <= i' < r.value.0 ==> !PhoneAt(s, i', j)
    ensures r.None? ==> forall i', j :: i <= i' ==> !PhoneAt(s, i', j)
    decreases |s| - i
  {
    if i >= |s| then None
    else
      match MatchPhoneAt(s, i)
      case Some(j) => Some((i, j))
      case None => FindPhoneFrom(s, i + 1)
  }

  /** `text.match(phoneRegex)?.[0]` */
  function FirstPhone(text: string): (r: Option<string>)
    ensures r.None? <==> forall i, j :: !PhoneAt(text, i, j)
    ensures r.Some? ==> exists i, j :: PhoneAt(text, i, j) && 0 <= i <= j <= |text| && r.value == text[i..j]
  {
    match FindPhoneFrom(text, 0)
    case Some((i, j)) => Some(text[i..j])
    case None => None
  }
}
