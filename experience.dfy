/**
 * Years of experience (process_resumes.py:322-357): `parse_date`, the
 * date-range pattern that `re.findall` looks for in the lower-cased text, and
 * the loop of `extract_experience_years` that sums the month spans.
 */
module Experience {
  import opened Wrappers
  import opened Text

  /** The part of a `datetime` the pipeline uses. */
  datatype Date = Date(year: int, month: int)

  const Present: string := "настоящее время"
  const FromPresent: string := "по настоящее время"

  /** `month_map`: nominative and genitive month names, as (name, number)
      pairs in the order the dictionary literal lists them. */
  const MonthTable: seq<(string, int)> := [
    ("январь", 1), ("февраль", 2), ("март", 3), ("апрель", 4), ("май", 5), ("июнь", 6),
    ("июль", 7), ("август", 8), ("сентябрь", 9), ("октябрь", 10), ("ноябрь", 11), ("декабрь", 12),
    ("января", 1), ("февраля", 2), ("марта", 3), ("апреля", 4), ("мая", 5), ("июня", 6),
    ("июля", 7), ("августа", 8), ("сентября", 9), ("октября", 10), ("ноября", 11), ("декабря", 12)
  ]

  /** Dictionary lookup: the number paired with `word`, or `None` when no
      entry has that name. */
  function Lookup(table: seq<(string, int)>, word: string): (m: Option<int>)
    ensures m.Some? ==> exists i :: 0 <= i < |table| && table[i] == (word, m.value)
    ensures m.None? ==> forall i :: 0 <= i < |table| ==> table[i].0 != word
  {
    if table == [] then None
    else if table[0].0 == word then Some(table[0].1)
    else Lookup(table[1..], word)
  }

  /** The entry a lookup finds is the first one with that name. */
  lemma {:induction false} LookupFindsFirst(table: seq<(string, int)>, word: string, i: nat)
    requires i < |table| && table[i].0 == word
    requires forall j :: 0 <= j < i ==> table[j].0 != word
    ensures Lookup(table, word) == Some(table[i].1)
    decreases i
  {
    if i > 0 {
      assert table[0].0 != word;
      LookupFindsFirst(table[1..], word, i - 1);
    }
  }

  /** `month_map.get(word)`. */
  function MonthNumber(word: string): (m: Option<int>)
    ensures m.Some? ==> 1 <= m.value <= 12
  {
    assert forall i :: 0 <= i < |MonthTable| ==> 1 <= MonthTable[i].1 <= 12;
    Lookup(MonthTable, word)
  }

  /** `datetime(year, month, 1)` accepts only years 1..9999. */
  predicate ValidYear(y: int) {
    1 <= y <= 9999
  }

  /** `parse_date(date_str)` with `now` in place of `datetime.now()`; `None`
      where the source raises (`int()` of a non-number, an unknown month word,
      a year `datetime` refuses, or any other number of words). */
  function ParseDate(dateStr: string, now: Date): (d: Option<Date>)
    ensures d.Some? ==> d.value == now || (ValidYear(d.value.year) && 1 <= d.value.month <= 12)
  {
    ParseLowered(LowerStr(Strip(dateStr)), now)
  }

  /** `parse_date` once the text is stripped and lower-cased. */
  function ParseLowered(t: string, now: Date): (d: Option<Date>)
    ensures d.Some? ==> d.value == now || (ValidYear(d.value.year) && 1 <= d.value.month <= 12)
  {
    if t == Present || t == FromPresent then Some(now) else ParseWords(Words(t))
  }

  /** `parse_date` on the words of a text that does not mean "now". */
  function ParseWords(parts: seq<string>): (d: Option<Date>)
    ensures d.Some? ==> ValidYear(d.value.year) && 1 <= d.value.month <= 12
  {
    if |parts| == 2 then
      var month := MonthNumber(parts[0]);
      var year := ParseInt(parts[1]);
      if year.Some? && month.Some? && ValidYear(year.value) then Some(Date(year.value, month.value))
      else None
    else if |parts| == 1 then
      var year := ParseInt(parts[0]);
      if year.Some? && ValidYear(year.value) then Some(Date(year.value, 1)) else None
    else None
  }

  // ---------------------------------------------------------------------
  // The date-range pattern
  //   (\w+\s+\d{4}|\d{4})\s*[—\-–]\s*(\w+\s+\d{4}|настоящее время|\d{4})
  // ---------------------------------------------------------------------

  predicate IsDash(c: char) {
    c == '\U{2014}' || c == '-' || c == '\U{2013}'
  }

  /** `\d{4}` at `p`. */
  predicate FourDigitsAt(s: string, p: nat) {
    p + 4 <= |s| && AllDigits(s[p..p + 4])
  }

  /** Where `\w+\s+\d{4}` ends when it matches at `p`.  A shorter `\w+` or
      `\s+` would leave a word or space character where the next item needs a
      space or a digit, so the greedy runs are the only way to match. */
  function WordSpaceYearAt(s: string, p: nat): (e: Option<nat>)
    requires p <= |s|
    ensures e.Some? ==> p < e.value <= |s|
  {
    var w := RunLength(s, p, IsWordChar);
    var m := if w == 0 then 0 else RunLength(s, p + w, IsSpace);
    if w > 0 && m > 0 && FourDigitsAt(s, p + w + m) then Some(p + w + m + 4) else None
  }

  /** The ends of the first group's alternatives that match at `p`, in the order tried. */
  function StartEnds(s: string, p: nat): (ends: seq<nat>)
    requires p <= |s|
    ensures forall i :: 0 <= i < |ends| ==> p < ends[i] <= |s|
  {
    (match WordSpaceYearAt(s, p) case Some(e) => [e] case None => [])
    + (if FourDigitsAt(s, p) then [p + 4] else [])
  }

  /** The ends of the second group's alternatives that match at `q`, in the order tried. */
  function EndEnds(s: string, q: nat): (ends: seq<nat>)
    requires q <= |s|
    ensures forall i :: 0 <= i < |ends| ==> q < ends[i] <= |s|
  {
    (match WordSpaceYearAt(s, q) case Some(e) => [e] case None => [])
    + (if LiteralAt(s, q, Present) then [q + |Present|] else [])
    + (if FourDigitsAt(s, q) then [q + 4] else [])
  }

  /** One way the pattern matches: the two groups and where the match ends. */
  datatype RangeMatch = RangeMatch(startText: string, endText: string, stop: nat)

  /** Every way the pattern matches at `p` once the first group has taken
      `s[p..a]`: `\s*`, one dash and `\s*` (greedy, and only the greedy runs can
      be followed by a dash or by the second group), then the second group. */
  function MatchesAfterStart(s: string, p: nat, a: nat): (ms: seq<RangeMatch>)
    requires p < a <= |s|
    ensures forall i :: 0 <= i < |ms| ==> a < ms[i].stop <= |s| && ms[i].startText == s[p..a]
  {
    match SeparatorEnd(s, a)
    case Some(t2) => MatchesFromEnd(s, p, a, t2)
    case None => []
  }

  /** Where `\s*[—\-–]\s*` ends when it matches at `a`. */
  function SeparatorEnd(s: string, a: nat): (t2: Option<nat>)
    requires a <= |s|
    ensures t2.Some? ==> a < t2.value <= |s|
  {
    var t1 := a + RunLength(s, a, IsSpace);
    if t1 < |s| && IsDash(s[t1]) then Some(t1 + 1 + RunLength(s, t1 + 1, IsSpace)) else None
  }

  /** The ways to match once the first group has taken `s[p..a]` and the
      separator runs up to `t2`: one per second-group alternative at `t2`. */
  function MatchesFromEnd(s: string, p: nat, a: nat, t2: nat): (ms: seq<RangeMatch>)
    requires p < a <= t2 <= |s|
    ensures forall i :: 0 <= i < |ms| ==> a < ms[i].stop <= |s| && ms[i].startText == s[p..a]
  {
    var ends := EndEnds(s, t2);
    seq(|ends|, i requires 0 <= i < |ends| => RangeMatch(s[p..a], s[t2..ends[i]], ends[i]))
  }

  /** Every way the whole pattern matches at `p`, in backtracking order. */
  function MatchesAt(s: string, p: nat): (ms: seq<RangeMatch>)
    requires p <= |s|
    ensures forall i :: 0 <= i < |ms| ==> p < ms[i].stop <= |s|
  {
    var starts := StartEnds(s, p);
    if starts == [] then []
    else if |starts| == 1 then MatchesAfterStart(s, p, starts[0])
    else MatchesAfterStart(s, p, starts[0]) + MatchesAfterStart(s, p, starts[1])
  }

  /** `re.findall(pattern, s)` from position `p`: the first way to match at
      the leftmost position that matches, then on from where that match ends. */
  function FindRanges(s: string, p: nat): (ms: seq<RangeMatch>)
    requires p <= |s|
    ensures forall i :: 0 <= i < |ms| ==> p < ms[i].stop <= |s|
    decreases |s| - p
  {
    if p == |s| then []
    else
      var here := MatchesAt(s, p);
      if here == [] then FindRanges(s, p + 1)
      else [here[0]] + FindRanges(s, here[0].stop)
  }

  // ---------------------------------------------------------------------
  // Summation
  // ---------------------------------------------------------------------

  /** `(end.year - start.year) * 12 + (end.month - start.month)`: whole months
      from the first of the start month to the first of the end month. */
  function MonthsBetween(start: Date, end: Date): int {
    (end.year - start.year) * 12 + (end.month - start.month)
  }

  /** What one found range adds to `total_months`: nothing when either side
      fails to parse (the `except ... continue`). */
  function RangeMonths(m: RangeMatch, now: Date): int {
    var a, b := ParseDate(m.startText, now), ParseDate(m.endText, now);
    if a.Some? && b.Some? then MonthsBetween(a.value, b.value) else 0
  }

  /** `total_months` after the loop over `ms`. */
  function TotalMonths(ms: seq<RangeMatch>, now: Date): (r: int)
    ensures (forall i :: 0 <= i < |ms| ==> RangeMonths(ms[i], now) == 0) ==> r == 0
    ensures (forall i :: 0 <= i < |ms| ==> RangeMonths(ms[i], now) >= 0) ==> r >= 0
    decreases |ms|
  {
    if ms == [] then 0 else TotalMonths(ms[..|ms| - 1], now) + RangeMonths(ms[|ms| - 1], now)
  }

  /** The return value: `str(total // 12)` when the total is positive, else "". */
  function YearsText(total: int): (r: string)
    ensures r == [] <==> total <= 0
    ensures r != [] ==> AllDigits(r) && DigitsValue(r) == total / 12
  {
    if total > 0 then
      NatToStringRoundTrip(total / 12);
      NatToString(total / 12)
    else ""
  }

  /** `extract_experience_years(text)`. */
  method ExtractExperienceYears(text: string, now: Date) returns (years: string)
    ensures years == YearsText(TotalMonths(FindRanges(LowerStr(text), 0), now))
  {
    var dates := FindRanges(LowerStr(text), 0);
    var totalMonths := 0;
    var i := 0;
    while i < |dates|
      invariant 0 <= i <= |dates|
      invariant totalMonths == TotalMonths(dates[..i], now)
    {
      var startDate := ParseDate(dates[i].startText, now);
      var endDate := ParseDate(dates[i].endText, now);
      if startDate.Some? && endDate.Some? {
        totalMonths := totalMonths + MonthsBetween(startDate.value, endDate.value);
      }
      TotalMonthsStep(dates, i, now);
      i := i + 1;
    }
    assert dates[..i] == dates;
    if totalMonths > 0 {
      years := NatToString(totalMonths / 12);
    } else {
      years := "";
    }
  }

  // ---------------------------------------------------------------------
  // Properties
  // ---------------------------------------------------------------------

  /** Taking one more found range adds what that range contributes. */
  lemma TotalMonthsStep(ms: seq<RangeMatch>, i: nat, now: Date)
    requires i < |ms|
    ensures TotalMonths(ms[..i + 1], now) == TotalMonths(ms[..i], now) + RangeMonths(ms[i], now)
  {
    assert ms[..i + 1][..i] == ms[..i];
  }

  /** The total is the sum over the found ranges, each counted on its own. */
  lemma {:induction false} TotalMonthsAppend(a: seq<RangeMatch>, b: seq<RangeMatch>, now: Date)
    ensures TotalMonths(a + b, now) == TotalMonths(a, now) + TotalMonths(b, now)
    decreases |b|
  {
    if b == [] {
      assert a + b == a;
    } else {
      assert (a + b)[..|a + b| - 1] == a + b[..|b| - 1];
      TotalMonthsAppend(a, b[..|b| - 1], now);
    }
  }

  /** A range with a side that does not parse adds nothing: it is skipped, and
      the other ranges still count. */
  lemma UnparsableRangeSkipped(ms: seq<RangeMatch>, m: RangeMatch, now: Date)
    requires ParseDate(m.startText, now).None? || ParseDate(m.endText, now).None?
    ensures TotalMonths(ms + [m], now) == TotalMonths(ms, now)
  {
    assert (ms + [m])[..|ms|] == ms;
  }

  /** Spans are not inclusive: a range whose two sides name the same month
      adds nothing, and January to December of one year adds eleven months. */
  lemma SpansAreNotInclusive(y: int, m: int)
    requires ValidYear(y) && 1 <= m <= 12
    ensures MonthsBetween(Date(y, m), Date(y, m)) == 0
    ensures MonthsBetween(Date(y, 1), Date(y, 12)) == 11
    ensures YearsText(MonthsBetween(Date(y, 1), Date(y + 1, 1))) == "1"
  {
  }

  /** Words of a two-word date such as "январь 2019". */
  lemma WordsOfPair(a: string, b: string)
    requires a != [] && b != [] && NoSpaceIn(a) && NoSpaceIn(b)
    ensures Words(a + " " + b) == [a, b]
  {
    assert a + " " + b == a + (" " + b);
    WordsCons(a, " " + b);
    WordsSkipSpace(" " + b);
    assert (" " + b)[1..] == b + [];
    WordsCons(b, []);
  }

  /** Words of a one-word date such as "2019". */
  lemma WordsOfSingle(a: string)
    requires a != [] && NoSpaceIn(a)
    ensures Words(a) == [a]
  {
    assert a == a + [];
    WordsCons(a, []);
  }

  /** Text made only of digits and lower-case letters is unchanged by `lower()`. */
  lemma LowerStrOfLowerCase(s: string)
    requires forall i :: 0 <= i < |s| ==> IsDigit(s[i]) || s[i] == ' ' || IsDash(s[i]) || '\U{430}' <= s[i] <= '\U{45F}'
    ensures LowerStr(s) == s
  {
  }

  lemma CyrillicHasNoSpace(s: string)
    requires forall i :: 0 <= i < |s| ==> '\U{430}' <= s[i] <= '\U{45F}'
    ensures NoSpaceIn(s)
  {
  }

  /** A month word, a space and a year: `parse_date` sees exactly those two
      words, and the text does not mean "now". */
  lemma MonthYearWords(word: string, y: nat)
    requires IsMonthWord(word)
    ensures var s := word + " " + NatToString(y);
      LowerStr(Strip(s)) == s && s != Present && s != FromPresent
      && Words(s) == [word, NatToString(y)]
  {
    var digits := NatToString(y);
    var s := word + " " + digits;
    CyrillicHasNoSpace(word);
    assert NoSpaceIn(digits);
    assert LowerStr(Strip(s)) == s by {
      StripTrimmed(s);
      LowerStrOfLowerCase(s);
    }
    assert s != Present && s != FromPresent by {
      assert |s| != |Present| || s[|s| - 1] != Present[|Present| - 1];
      assert |s| != |FromPresent| || s[|s| - 1] != FromPresent[|FromPresent| - 1];
    }
    WordsOfPair(word, digits);
  }

  /** A "month-name year" pair, the month written in any form the map
      knows, parses to the first of that month. */
  lemma ParseMonthYear(word: string, m: int, y: nat, now: Date)
    requires IsMonthWord(word) && MonthNumber(word) == Some(m) && ValidYear(y)
    ensures ParseDate(word + " " + NatToString(y), now) == Some(Date(y, m))
  {
    MonthYearWords(word, y);
    NatToStringRoundTrip(y);
  }

  /** A lone year parses to the first of January. */
  lemma ParseLoneYear(y: nat, now: Date)
    requires ValidYear(y)
    ensures ParseDate(NatToString(y), now) == Some(Date(y, 1))
  {
    var digits := NatToString(y);
    assert LowerStr(Strip(digits)) == digits by {
      assert NoSpaceIn(digits);
      assert IsNormalized(digits);
      StripNormalized(digits);
      LowerStrOfLowerCase(digits);
    }
    assert digits != Present && digits != FromPresent by {
      assert IsDigit(digits[0]);
    }
    WordsOfSingle(digits);
    NatToStringRoundTrip(y);
  }

  /** The two lower-case phrases "настоящее время" and "по настоящее время",
      exactly as written, stand for now. */
  lemma ParsePresent(now: Date)
    ensures ParseDate(Present, now) == Some(now)
    ensures ParseDate(FromPresent, now) == Some(now)
  {
    PreparedIsItself(Present);
    PreparedIsItself(FromPresent);
  }

  /** A lower-case phrase with no whitespace at its ends is unchanged by the
      stripping and lower-casing `parse_date` starts with. */
  lemma PreparedIsItself(s: string)
    requires s != [] && s[0] != ' ' && s[|s| - 1] != ' '
    requires forall i :: 0 <= i < |s| ==> s[i] == ' ' || '\U{430}' <= s[i] <= '\U{44F}'
    ensures LowerStr(Strip(s)) == s
  {
    StripTrimmed(s);
    LowerStrOfLowerCase(s);
  }

  /** Two words whose first is not a month name never parse. */
  lemma UnknownMonthFails(word: string, y: nat, now: Date)
    requires IsMonthWord(word)
    requires forall i :: 0 <= i < |MonthTable| ==> MonthTable[i].0 != word
    ensures ParseDate(word + " " + NatToString(y), now) == None
  {
    assert MonthNumber(word) == None;
    MonthYearWords(word, y);
  }

  /** Lower-case Cyrillic letters only: the shape of a month name. */
  predicate IsMonthWord(w: string) {
    w != [] && forall i :: 0 <= i < |w| ==> '\U{430}' <= w[i] <= '\U{45F}'
  }

  predicate IsFourDigits(d: string) {
    |d| == 4 && AllDigits(d)
  }

  /** `\w+\s+\d{4}` matches exactly a word, a space and four digits. */
  lemma WordSpaceYearAtDate(s: string, p: nat, name: string, digits: string)
    requires IsMonthWord(name) && IsFourDigits(digits)
    requires p + |name| + 5 <= |s| && s[p..p + |name| + 5] == name + " " + digits
    ensures WordSpaceYearAt(s, p) == Some(p + |name| + 5)
    ensures !FourDigitsAt(s, p)
  {
    var t := name + " " + digits;
    var l := |name|;
    assert forall i :: p <= i < p + l ==> s[i] == t[i - p] == name[i - p];
    assert s[p + l] == t[l] == ' ';
    assert s[p + l + 1..p + l + 5] == t[l + 1..] == digits;
    WordSpaceYearAtRuns(s, p, l);
  }

  /** The same on characters: `l` word characters, one space, four digits. */
  lemma WordSpaceYearAtRuns(s: string, p: nat, l: nat)
    requires 0 < l && p + l + 5 <= |s|
    requires forall i :: p <= i < p + l ==> '\U{430}' <= s[i] <= '\U{45F}'
    requires s[p + l] == ' ' && AllDigits(s[p + l + 1..p + l + 5])
    ensures WordSpaceYearAt(s, p) == Some(p + l + 5)
    ensures !FourDigitsAt(s, p)
  {
    assert RunLength(s, p, IsWordChar) == l by {
      assert forall i :: p <= i < p + l ==> IsWordChar(s[i]);
      assert !IsWordChar(s[p + l]);
      RunLengthIs(s, p, IsWordChar, l);
    }
    assert RunLength(s, p + l, IsSpace) == 1 by {
      assert s[p + l + 1] == s[p + l + 1..p + l + 5][0];
      assert !IsSpace(s[p + l + 1]);
      RunLengthIs(s, p + l, IsSpace, 1);
    }
    assert FourDigitsAt(s, p + l + 1);
    WordSpaceYearAtIs(s, p, l, 1);
    assert s[p..p + 4][0] == s[p];
  }

  lemma WordSpaceYearAtIs(s: string, p: nat, w: nat, m: nat)
    requires p + w + m <= |s| && 0 < w && 0 < m
    requires RunLength(s, p, IsWordChar) == w && RunLength(s, p + w, IsSpace) == m
    requires FourDigitsAt(s, p + w + m)
    ensures WordSpaceYearAt(s, p) == Some(p + w + m + 4)
  {
  }

  /** Once a separator follows the first group, the first way to match takes
      the second group's first alternative right after it. */
  lemma DashAfterStart(s: string, p: nat, a: nat, t2: nat)
    requires p < a <= |s| && SeparatorEnd(s, a) == Some(t2)
    requires EndEnds(s, t2) != []
    ensures var e := EndEnds(s, t2)[0];
      MatchesAfterStart(s, p, a) != [] && MatchesAfterStart(s, p, a)[0] == RangeMatch(s[p..a], s[t2..e], e)
  {
    AfterStartFromEnd(s, p, a, t2);
    FirstMatchFromEnd(s, p, a, t2);
  }

  lemma AfterStartFromEnd(s: string, p: nat, a: nat, t2: nat)
    requires p < a <= |s| && SeparatorEnd(s, a) == Some(t2)
    ensures MatchesAfterStart(s, p, a) == MatchesFromEnd(s, p, a, t2)
  {
  }

  lemma FirstMatchFromEnd(s: string, p: nat, a: nat, t2: nat)
    requires p < a <= t2 <= |s| && EndEnds(s, t2) != []
    ensures var e := EndEnds(s, t2)[0];
      MatchesFromEnd(s, p, a, t2) != [] && MatchesFromEnd(s, p, a, t2)[0] == RangeMatch(s[p..a], s[t2..e], e)
  {
  }

  /** " — " followed by a non-space: each `\s*` takes exactly one space. */
  lemma SpacedDash(s: string, a: nat)
    requires a + 3 < |s|
    requires s[a] == ' ' && s[a + 1] == '\U{2014}' && s[a + 2] == ' ' && !IsSpace(s[a + 3])
    ensures SeparatorEnd(s, a) == Some(a + 3)
  {
    RunLengthIs(s, a, IsSpace, 1);
    RunLengthIs(s, a + 2, IsSpace, 1);
  }

  /** Where each part of "<word> <year> — <word> <year>" sits. */
  lemma RangeLayout(n1: string, d1: string, n2: string, d2: string, rest: string, s: string)
    requires IsMonthWord(n1) && IsFourDigits(d1) && IsMonthWord(n2) && IsFourDigits(d2)
    requires s == n1 + " " + d1 + " \U{2014} " + n2 + " " + d2 + rest
    ensures var a, b := n1 + " " + d1, n2 + " " + d2;
      |s| == |a| + 3 + |b| + |rest| && s[0..|a|] == a && s[|a| + 3..|a| + 3 + |b|] == b
      && s[|a|] == ' ' && s[|a| + 1] == '\U{2014}' && s[|a| + 2] == ' ' && !IsSpace(s[|a| + 3])
      && s[|a| + 3 + |b|..] == rest
  {
    var a, b := n1 + " " + d1, n2 + " " + d2;
    assert s == a + " \U{2014} " + b + rest;
    assert s[|a|..|a| + 4] == " \U{2014} " + [b[0]];
  }

  /** The first way the pattern matches at the start of a text that opens with
      "<word> <year> — <word> <year>" takes exactly that range, whatever follows. */
  lemma FirstMatchOfRange(n1: string, d1: string, n2: string, d2: string, rest: string, s: string)
    requires IsMonthWord(n1) && IsFourDigits(d1) && IsMonthWord(n2) && IsFourDigits(d2)
    requires s == n1 + " " + d1 + " \U{2014} " + n2 + " " + d2 + rest
    ensures var stop := |n1| + |n2| + 13;
      stop + |rest| == |s| && MatchesAt(s, 0) != []
      && MatchesAt(s, 0)[0] == RangeMatch(n1 + " " + d1, n2 + " " + d2, stop)
  {
    var a, b := n1 + " " + d1, n2 + " " + d2;
    RangeLayout(n1, d1, n2, d2, rest, s);
    var t2 := |a| + 3;
    assert StartEnds(s, 0) == [|a|] by {
      WordSpaceYearAtDate(s, 0, n1, d1);
    }
    assert EndEnds(s, t2) != [] && EndEnds(s, t2)[0] == t2 + |b| by {
      assert s[t2..t2 + |n2| + 5] == b;
      WordSpaceYearAtDate(s, t2, n2, d2);
    }
    SpacedDash(s, |a|);
    FirstMatchAt(s, |a|, t2);
  }

  /** When the only start alternative at 0 ends at `a` and the separator
      after it ends at `t2`, the first match at 0 ends where the first end
      alternative at `t2` ends. */
  lemma FirstMatchAt(s: string, a: nat, t2: nat)
    requires 0 < a <= |s| && StartEnds(s, 0) == [a] && SeparatorEnd(s, a) == Some(t2)
    requires EndEnds(s, t2) != []
    ensures var e := EndEnds(s, t2)[0];
      MatchesAt(s, 0) != [] && MatchesAt(s, 0)[0] == RangeMatch(s[0..a], s[t2..e], e)
  {
    assert MatchesAt(s, 0) == MatchesAfterStart(s, 0, a);
    DashAfterStart(s, 0, a, t2);
  }

  /** Where the scan stands before the `i`-th range of `ms`: the starting
      position, or where the previous range stopped. */
  function StopBefore(ms: seq<RangeMatch>, p: nat, i: nat): nat
    requires i <= |ms|
  {
    if i == 0 then p else ms[i - 1].stop
  }

  /** `ms` is what a left-to-right scan from `p` finds, `qs` where each
      range starts: the `i`-th range is the first way to match at `qs[i]`,
      the leftmost position at or after the previous stop where the pattern
      matches; and after the last range the pattern matches nowhere. */
  predicate IsScan(s: string, p: nat, ms: seq<RangeMatch>, qs: seq<nat>)
    requires p <= |s|
  {
    |qs| == |ms| && ScanStarts(s, p, ms, qs) && ScanGaps(s, p, ms, qs) && ScanEnd(s, p, ms)
  }

  /** Each range is the first way to match at its start, which lies at or
      after the previous stop. */
  predicate ScanStarts(s: string, p: nat, ms: seq<RangeMatch>, qs: seq<nat>)
    requires p <= |s| && |qs| == |ms|
  {
    forall i :: 0 <= i < |qs| ==>
      StopBefore(ms, p, i) <= qs[i] < |s| && MatchesAt(s, qs[i]) != [] && ms[i] == MatchesAt(s, qs[i])[0]
  }

  /** Nothing matches between the previous stop and the next start. */
  predicate ScanGaps(s: string, p: nat, ms: seq<RangeMatch>, qs: seq<nat>)
    requires p <= |s| && |qs| == |ms|
  {
    forall i, j :: 0 <= i < |qs| && StopBefore(ms, p, i) <= j < qs[i] <= |s| ==> MatchesAt(s, j) == []
  }

  /** Nothing matches after the last stop. */
  predicate ScanEnd(s: string, p: nat, ms: seq<RangeMatch>)
    requires p <= |s|
  {
    forall j :: StopBefore(ms, p, |ms|) <= j <= |s| ==> MatchesAt(s, j) == []
  }

  /** `re.findall` skips nothing: what it returns is the scan from the start. */
  lemma {:induction false} FindRangesIsScan(s: string, p: nat) returns (qs: seq<nat>)
    requires p <= |s|
    ensures IsScan(s, p, FindRanges(s, p), qs)
    decreases |s| - p
  {
    if p == |s| {
      qs := [];
      assert StartEnds(s, p) == [];
      return;
    }
    var here := MatchesAt(s, p);
    if here == [] {
      qs := FindRangesIsScan(s, p + 1);
      ScanSkip(s, p, FindRanges(s, p + 1), qs);
    } else {
      var rest := FindRangesIsScan(s, here[0].stop);
      ScanTake(s, p, FindRanges(s, here[0].stop), rest);
      qs := [p] + rest;
    }
  }

  /** A position where nothing matches can be added in front of a scan. */
  lemma ScanSkip(s: string, p: nat, ms: seq<RangeMatch>, qs: seq<nat>)
    requires p < |s| && MatchesAt(s, p) == [] && IsScan(s, p + 1, ms, qs)
    ensures IsScan(s, p, ms, qs)
  {
    assert forall i :: 0 < i <= |qs| ==> StopBefore(ms, p, i) == StopBefore(ms, p + 1, i);
    assert forall i :: 0 <= i < |qs| ==>
      StopBefore(ms, p, i) <= qs[i] < |s| && MatchesAt(s, qs[i]) != [] && ms[i] == MatchesAt(s, qs[i])[0];
    forall i, j | 0 <= i < |qs| && StopBefore(ms, p, i) <= j < qs[i]
      ensures MatchesAt(s, j) == []
    {
      if i == 0 && j == p {
      } else {
        assert StopBefore(ms, p + 1, i) <= j;
      }
    }
    forall j | StopBefore(ms, p, |qs|) <= j <= |s|
      ensures MatchesAt(s, j) == []
    {
      if |qs| == 0 && j == p {
      } else {
        assert StopBefore(ms, p + 1, |qs|) <= j;
      }
    }
  }

  /** The first match at `p` can be added in front of the scan from where it
      stops. */
  lemma ScanTake(s: string, p: nat, ms: seq<RangeMatch>, qs: seq<nat>)
    requires p < |s| && MatchesAt(s, p) != []
    requires IsScan(s, MatchesAt(s, p)[0].stop, ms, qs)
    ensures IsScan(s, p, [MatchesAt(s, p)[0]] + ms, [p] + qs)
  {
    var first := MatchesAt(s, p)[0];
    var all := [first] + ms;
    StopAfterFirst(p, first, ms);
    ScanTakeStarts(s, p, ms, qs);
    ScanTakeGaps(s, p, first, ms, qs);
    assert StopBefore(all, p, |all|) == StopBefore(ms, first.stop, |ms|);
  }

  lemma StopAfterFirst(p: nat, first: RangeMatch, ms: seq<RangeMatch>)
    ensures forall i :: 0 < i <= |ms| + 1 ==> StopBefore([first] + ms, p, i) == StopBefore(ms, first.stop, i - 1)
  {
  }

  lemma ScanTakeStarts(s: string, p: nat, ms: seq<RangeMatch>, qs: seq<nat>)
    requires p < |s| && MatchesAt(s, p) != [] && |qs| == |ms|
    requires ScanStarts(s, MatchesAt(s, p)[0].stop, ms, qs)
    ensures ScanStarts(s, p, [MatchesAt(s, p)[0]] + ms, [p] + qs)
  {
    var first := MatchesAt(s, p)[0];
    var all, starts := [first] + ms, [p] + qs;
    StopAfterFirst(p, first, ms);
    forall i | 0 <= i < |starts|
      ensures StopBefore(all, p, i) <= starts[i] < |s| && MatchesAt(s, starts[i]) != []
      ensures all[i] == MatchesAt(s, starts[i])[0]
    {
      if i > 0 {
        assert starts[i] == qs[i - 1] && all[i] == ms[i - 1];
      }
    }
  }

  lemma ScanTakeGaps(s: string, p: nat, first: RangeMatch, ms: seq<RangeMatch>, qs: seq<nat>)
    requires p < first.stop <= |s| && |qs| == |ms|
    requires ScanGaps(s, first.stop, ms, qs)
    ensures ScanGaps(s, p, [first] + ms, [p] + qs)
  {
    var all, starts := [first] + ms, [p] + qs;
    StopAfterFirst(p, first, ms);
    forall i, j | 0 <= i < |starts| && StopBefore(all, p, i) <= j < starts[i] <= |s|
      ensures MatchesAt(s, j) == []
    {
      if i > 0 {
        var k := i - 1;
        assert 0 <= k < |qs| && StopBefore(ms, first.stop, k) <= j < qs[k] <= |s|;
      }
    }
  }

  /** A text holding just one range "<word> <year> — <word> <year>" yields
      that one range with both dates as written. */
  lemma OneRangeFound(n1: string, d1: string, n2: string, d2: string)
    requires IsMonthWord(n1) && IsFourDigits(d1) && IsMonthWord(n2) && IsFourDigits(d2)
    ensures var s := n1 + " " + d1 + " \U{2014} " + n2 + " " + d2;
      FindRanges(s, 0) == [RangeMatch(n1 + " " + d1, n2 + " " + d2, |s|)]
  {
    var s := n1 + " " + d1 + " \U{2014} " + n2 + " " + d2;
    assert s == s + [];
    FirstMatchOfRange(n1, d1, n2, d2, [], s);
  }

  /** A date as resumes write it: a month word, one space, a four-digit year. */
  function MonthYearText(word: string, y: nat): (t: string)
    requires 1000 <= y <= 9999
    ensures |t| == |word| + 5
  {
    FourDigitNumber(y);
    word + " " + NatToString(y)
  }

  /** The same for two dates written with month words. */
  lemma SingleRangeFound(w1: string, y1: nat, w2: string, y2: nat)
    requires IsMonthWord(w1) && IsMonthWord(w2) && 1000 <= y1 <= 9999 && 1000 <= y2 <= 9999
    ensures var s := MonthYearText(w1, y1) + " \U{2014} " + MonthYearText(w2, y2);
      FindRanges(LowerStr(s), 0) == [RangeMatch(MonthYearText(w1, y1), MonthYearText(w2, y2), |s|)]
  {
    var d1, d2 := NatToString(y1), NatToString(y2);
    FourDigitNumber(y1);
    FourDigitNumber(y2);
    var s := w1 + " " + d1 + " \U{2014} " + w2 + " " + d2;
    assert s == MonthYearText(w1, y1) + " \U{2014} " + MonthYearText(w2, y2);
    assert LowerStr(s) == s by {
      LowerStrOfLowerCase(s);
    }
    OneRangeFound(w1, d1, w2, d2);
  }

  /** The months such a text contributes are the span between its two dates,
      so `ExtractExperienceYears` reports the whole years of that span. */
  lemma SingleRangeMonths(w1: string, m1: int, y1: nat, w2: string, m2: int, y2: nat, now: Date)
    requires IsMonthWord(w1) && MonthNumber(w1) == Some(m1) && 1000 <= y1 <= 9999
    requires IsMonthWord(w2) && MonthNumber(w2) == Some(m2) && 1000 <= y2 <= 9999
    ensures var s := MonthYearText(w1, y1) + " \U{2014} " + MonthYearText(w2, y2);
      TotalMonths(FindRanges(LowerStr(s), 0), now) == MonthsBetween(Date(y1, m1), Date(y2, m2))
  {
    SingleRangeFound(w1, y1, w2, y2);
    ParseMonthYear(w1, m1, y1, now);
    ParseMonthYear(w2, m2, y2, now);
    var a, b := MonthYearText(w1, y1), MonthYearText(w2, y2);
    var s := a + " \U{2014} " + b;
    var m := RangeMatch(a, b, |s|);
    assert FindRanges(LowerStr(s), 0) == [m];
    assert RangeMonths(m, now) == MonthsBetween(Date(y1, m1), Date(y2, m2));
    TotalMonthsSingle(m, now);
  }

  /** The month sum over one range is that range's span. */
  lemma TotalMonthsSingle(m: RangeMatch, now: Date)
    ensures TotalMonths([m], now) == RangeMonths(m, now)
  {
    assert [m][..0] == [];
  }

  /** "январь 2019 — декабря 2021" is 35 months, reported as two years. */
  lemma ThirtyFiveMonthsAreTwoYears(now: Date)
    ensures var s := MonthYearText("январь", 2019) + " \U{2014} " + MonthYearText("декабря", 2021);
      YearsText(TotalMonths(FindRanges(LowerStr(s), 0), now)) == "2"
  {
    assert IsMonthWord("январь") && IsMonthWord("декабря");
    assert MonthNumber("январь") == Some(1);
    assert MonthNumber("декабря") == Some(12) by {
      assert forall j :: 0 <= j < 23 ==> MonthTable[j].0 != "декабря";
      LookupFindsFirst(MonthTable, "декабря", 23);
    }
    SingleRangeMonths("январь", 1, 2019, "декабря", 12, 2021, now);
    assert MonthsBetween(Date(2019, 1), Date(2021, 12)) == 35;
  }
}
