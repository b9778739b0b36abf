/**
 * The label-then-content extractors (process_resumes.py:359-469).  Each
 * searches for a header (case ignored) and takes the text after it up to a
 * boundary.  Two boundary kinds occur:
 *   - the section boundary `((\n[A-ZА-Я].*)|$)` under DOTALL: a newline
 *     followed by a letter, or the end of the text (or a final newline);
 *   - the line boundary `(?:\n|$)` without DOTALL: the first newline, or the end.
 * The lazy `(.*?)` before a boundary always stops at the first one, and the
 * greedy `\s*[:\-]?\s*` before it never has to give anything back, because
 * the lazy group can always run on to the end of the text.
 */
module Sections {
  import opened Wrappers
  import opened Text
  import opened Experience

  /** `[A-ZА-Я]` when case is ignored. */
  predicate IsHeadingLetter(c: char) {
    'A' <= c <= 'Z' || 'a' <= c <= 'z' || '\U{410}' <= c <= '\U{44F}'
  }

  /** `(\n[A-ZА-Я].*)|$` matches at `q`. */
  predicate SectionBoundaryAt(s: string, q: nat) {
    q == |s| || (q < |s| && s[q] == '\n' && (q + 1 == |s| || IsHeadingLetter(s[q + 1])))
  }

  /** `(?:\n|$)` matches at `q`. */
  predicate LineBoundaryAt(s: string, q: nat) {
    q == |s| || (q < |s| && s[q] == '\n')
  }

  /** Where a lazy `(.*?)` started at `b` stops before the section boundary. */
  function SectionEnd(s: string, b: nat): (q: nat)
    requires b <= |s|
    ensures b <= q <= |s| && SectionBoundaryAt(s, q)
    ensures forall j :: b <= j < q ==> !SectionBoundaryAt(s, j)
    decreases |s| - b
  {
    if SectionBoundaryAt(s, b) then b else SectionEnd(s, b + 1)
  }

  /** Where a lazy `(.*?)` started at `b` stops before the line boundary. */
  function LineEnd(s: string, b: nat): (q: nat)
    requires b <= |s|
    ensures b <= q <= |s| && LineBoundaryAt(s, q)
    ensures forall j :: b <= j < q ==> s[j] != '\n'
    decreases |s| - b
  {
    if LineBoundaryAt(s, b) then b else LineEnd(s, b + 1)
  }

  /** The first of `headers` that matches at `p`, case ignored: the regex
      tries the alternatives of `(H1|H2|...)` in order. */
  function HeaderAt(s: string, p: nat, headers: seq<string>): (h: Option<string>)
    ensures h.Some? ==> LiteralAtIgnoreCase(s, p, h.value) && h.value in headers
    ensures h.None? <==> forall i :: 0 <= i < |headers| ==> !LiteralAtIgnoreCase(s, p, headers[i])
  {
    if headers == [] then None
    else if LiteralAtIgnoreCase(s, p, headers[0]) then Some(headers[0])
    else HeaderAt(s, p, headers[1..])
  }

  /** The header found is the first alternative that matches. */
  lemma {:induction false} HeaderAtIsFirst(s: string, p: nat, headers: seq<string>)
    requires HeaderAt(s, p, headers).Some?
    ensures (exists i :: 0 <= i < |headers| && headers[i] == HeaderAt(s, p, headers).value
               && (forall j :: 0 <= j < i ==> !LiteralAtIgnoreCase(s, p, headers[j])))
  {
    if !LiteralAtIgnoreCase(s, p, headers[0]) {
      HeaderAtIsFirst(s, p, headers[1..]);
      var i :| 0 <= i < |headers[1..]| && headers[1..][i] == HeaderAt(s, p, headers[1..]).value
        && (forall j :: 0 <= j < i ==> !LiteralAtIgnoreCase(s, p, headers[1..][j]));
      assert headers[i + 1] == headers[1..][i];
    } else {
      assert headers[0] == HeaderAt(s, p, headers).value;
    }
  }

  /** `re.search` for the header alternatives: the leftmost position at or
      after `p` where one of them matches. */
  function FindHeader(s: string, headers: seq<string>, p: nat): (k: Option<nat>)
    requires p <= |s|
    ensures k.Some? ==> p <= k.value <= |s| && HeaderAt(s, k.value, headers).Some?
    ensures forall j :: p <= j <= |s| && (k.None? || j < k.value) ==> HeaderAt(s, j, headers).None?
    decreases |s| - p
  {
    if HeaderAt(s, p, headers).Some? then Some(p)
    else if p == |s| then None
    else FindHeader(s, headers, p + 1)
  }

  /** Where `\s*[:\-]?\s*` stops when it starts at `a`. */
  function SkipSeparator(s: string, a: nat): (b: nat)
    requires a <= |s|
    ensures a <= b <= |s|
    ensures b == |s| || !IsSpace(s[b])
  {
    var t := a + RunLength(s, a, IsSpace);
    var u := if t < |s| && (s[t] == ':' || s[t] == '-') then t + 1 else t;
    u + RunLength(s, u, IsSpace)
  }

  /** Group 2 of `(H1|...)\s*[:\-]?\s*(.*?)((\n[A-ZА-Я].*)|$)` searched with
      IGNORECASE and DOTALL, or `None` when no header occurs. */
  function SectionBody(s: string, headers: seq<string>): (body: Option<string>)
  {
    match FindHeader(s, headers, 0)
    case None => None
    case Some(p) => Some(BodyAt(s, headers, p))
  }

  /** Where the body of a section whose header starts at `p` begins: after
      the header and its separator. */
  function BodyStart(s: string, headers: seq<string>, p: nat): (b: nat)
    requires p <= |s| && HeaderAt(s, p, headers).Some?
    ensures p + |HeaderAt(s, p, headers).value| <= b <= |s|
  {
    SkipSeparator(s, p + |HeaderAt(s, p, headers).value|)
  }

  /** The body of a section whose header starts at `p`: from the end of the
      separator up to the section boundary. */
  function BodyAt(s: string, headers: seq<string>, p: nat): (body: string)
    requires p <= |s| && HeaderAt(s, p, headers).Some?
  {
    s[BodyStart(s, headers, p)..SectionEnd(s, BodyStart(s, headers, p))]
  }

  /** Group 2 of `(H1|...)\s*[:\-]?\s*(.*?)(?:\n|$)` searched with IGNORECASE. */
  function LineBody(s: string, headers: seq<string>): (body: Option<string>)
    ensures body.Some? ==> '\n' !in body.value
  {
    match FindHeader(s, headers, 0)
    case None => None
    case Some(p) =>
      var b := BodyStart(s, headers, p);
      var q := LineEnd(s, b);
      NoNewlineBetween(s, b, q);
      Some(s[b..q])
  }

  /** A stretch of text holding no newline character has none as a slice. */
  lemma NoNewlineBetween(s: string, b: nat, q: nat)
    requires b <= q <= |s|
    requires forall j :: b <= j < q ==> s[j] != '\n'
    ensures '\n' !in s[b..q]
  {
    assert forall j :: 0 <= j < q - b ==> s[b..q][j] == s[b + j];
  }

  /** A section's text with its ends stripped and its whitespace runs
      collapsed, or "" when the header is missing. */
  function SectionText(s: string, headers: seq<string>): (r: string)
    ensures IsNormalized(r)
    ensures r == [] <==> SectionBody(s, headers).None? || AllSpace(SectionBody(s, headers).value)
  {
    match SectionBody(s, headers)
    case None => ""
    case Some(body) => Squish(body)
  }

  /** A one-line field with its ends stripped, or "" when the header is missing. */
  function LineText(s: string, headers: seq<string>): (r: string)
    ensures '\n' !in r
    ensures r == [] || (!IsSpace(r[0]) && !IsSpace(r[|r| - 1]))
    ensures r == [] <==> LineBody(s, headers).None? || AllSpace(LineBody(s, headers).value)
  {
    match LineBody(s, headers)
    case None => ""
    case Some(body) =>
      var r := Strip(body);
      StripIsSlice(body);
      r
  }

  // ---------------------------------------------------------------------
  // The extractors
  // ---------------------------------------------------------------------

  const LanguageHeaders: seq<string> := ["Владение языками", "Знание языков", "Языки"]
  const CertificationHeaders: seq<string> :=
    ["Сертификаты", "Сертификации", "Certificates", "Повышение квалификации", "Курсы"]
  const QualityHeaders: seq<string> :=
    ["Личностные качества", "Personal qualities", "Обо мне", "Дополнительная информация"]
  const SummaryHeaders: seq<string> :=
    ["Summary", "Обо мне", "Кратко о себе", "Дополнительная информация", "Об обо мне"]
  const SalaryHeaders: seq<string> :=
    ["Заработная плата", "Желаемая зарплата", "Зарплата", "Желаемый доход"]
  const ScheduleHeaders: seq<string> := ["График работы", "Тип занятости", "Занятость"]
  const SkillHeaders: seq<string> := ["Ключевые навыки", "Навыки", "Профессиональные навыки"]

  /** `extract_languages`. */
  function ExtractLanguages(text: string): (r: string)
    ensures IsNormalized(r)
    ensures SectionBody(text, LanguageHeaders).None? ==> r == []
    ensures SectionBody(text, LanguageHeaders).Some? ==> r == Squish(SectionBody(text, LanguageHeaders).value)
  {
    SectionText(text, LanguageHeaders)
  }

  /** `extract_certifications`. */
  function ExtractCertifications(text: string): (r: string)
    ensures IsNormalized(r)
    ensures SectionBody(text, CertificationHeaders).None? ==> r == []
    ensures SectionBody(text, CertificationHeaders).Some? ==> r == Squish(SectionBody(text, CertificationHeaders).value)
  {
    SectionText(text, CertificationHeaders)
  }

  /** `extract_personal_qualities`. */
  function ExtractPersonalQualities(text: string): (r: string)
    ensures IsNormalized(r)
    ensures SectionBody(text, QualityHeaders).None? ==> r == []
    ensures SectionBody(text, QualityHeaders).Some? ==> r == Squish(SectionBody(text, QualityHeaders).value)
  {
    SectionText(text, QualityHeaders)
  }

  /** `extract_summary`. */
  function ExtractSummary(text: string): (r: string)
    ensures IsNormalized(r)
    ensures SectionBody(text, SummaryHeaders).None? ==> r == []
    ensures SectionBody(text, SummaryHeaders).Some? ==> r == Squish(SectionBody(text, SummaryHeaders).value)
  {
    SectionText(text, SummaryHeaders)
  }

  /** `extract_desired_salary`. */
  function ExtractDesiredSalary(text: string): (r: string)
    ensures '\n' !in r
    ensures LineBody(text, SalaryHeaders).None? ==> r == []
    ensures LineBody(text, SalaryHeaders).Some? ==> r == Strip(LineBody(text, SalaryHeaders).value)
  {
    LineText(text, SalaryHeaders)
  }

  /** `extract_work_schedule`. */
  function ExtractWorkSchedule(text: string): (r: string)
    ensures '\n' !in r
    ensures LineBody(text, ScheduleHeaders).None? ==> r == []
    ensures LineBody(text, ScheduleHeaders).Some? ==> r == Strip(LineBody(text, ScheduleHeaders).value)
  {
    LineText(text, ScheduleHeaders)
  }

  /** `position_text.strip().split('\n')[0]`: the text before the first newline. */
  function FirstLine(s: string): (r: string)
    ensures '\n' !in r
    ensures r == s || (|r| < |s| && s[|r|] == '\n' && r == s[..|r|])
  {
    var q := LineEnd(s, 0);
    assert forall j :: 0 <= j < q ==> s[..q][j] == s[j];
    if q == |s| then
      assert s[..q] == s;
      s
    else s[..q]
  }

  const DesiredPositionHeader: string := "Желаемая должность и зарплата"
  const SpecializationsHeader: string := "Специализации"

  /** Group 1 of `Желаемая должность и зарплата\s*(.*?)((\n[A-ZА-Я].*)|$)`. */
  function DesiredPositionSection(text: string): (r: Option<string>)
  {
    match FindHeader(text, [DesiredPositionHeader], 0)
    case None => None
    case Some(p) =>
      var a := p + |DesiredPositionHeader|;
      var b := a + RunLength(text, a, IsSpace);
      Some(text[b..SectionEnd(text, b)])
  }

  /** `extract_field_of_activity`: the line after "Специализации" inside the
      desired-position section, else that section's first line. */
  function ExtractFieldOfActivity(text: string): (r: string)
    ensures '\n' !in r
    ensures DesiredPositionSection(text).None? ==> r == []
    ensures DesiredPositionSection(text).Some? && LineBody(DesiredPositionSection(text).value, [SpecializationsHeader]).None?
      ==> r == Strip(FirstLine(Strip(DesiredPositionSection(text).value)))
    ensures DesiredPositionSection(text).Some? && LineBody(DesiredPositionSection(text).value, [SpecializationsHeader]).Some?
      ==> r == Strip(LineBody(DesiredPositionSection(text).value, [SpecializationsHeader]).value)
  {
    match DesiredPositionSection(text)
    case None => ""
    case Some(positionText) =>
      match LineBody(positionText, [SpecializationsHeader])
      case Some(spec) =>
        StripIsSlice(spec);
        Strip(spec)
      case None =>
        var line := FirstLine(Strip(positionText));
        StripIsSlice(line);
        Strip(line)
  }

  // ---------------------------------------------------------------------
  // Education tier
  // ---------------------------------------------------------------------

  const EducationHeader: string := "Образование"

  /** Group 1 of `(Образование.*?)((\n[A-ZА-Я].*)|$)`: from the header to the
      section boundary. */
  function EducationSection(text: string): (r: Option<string>)
    ensures r.Some? ==> |r.value| >= |EducationHeader|
  {
    match FindHeader(text, [EducationHeader], 0)
    case None => None
    case Some(p) =>
      var q := SectionEnd(text, p + |EducationHeader|);
      Some(text[p..q])
  }

  /** A tier: the words that select it and the category it reports. */
  datatype Tier = Tier(keywords: seq<string>, category: string)

  const Tiers: seq<Tier> := [
    Tier(["Магистр", "Магистратура"], "Магистр"),
    Tier(["Бакалавр", "Бакалавриат"], "Бакалавр"),
    Tier(["Доктор", "Аспирантура"], "Доктор"),
    Tier(["Высшее"], "Высшее"),
    Tier(["Среднее профессиональное"], "Среднее профессиональное")
  ]

  /** `re.search('K1|K2', s, re.IGNORECASE)`. */
  predicate MentionsTier(s: string, t: Tier) {
    exists i :: 0 <= i < |t.keywords| && ContainsIgnoreCase(s, t.keywords[i])
  }

  /** The category of the first tier (in order) that `s` mentions, or "". */
  function ClassifyTier(s: string, tiers: seq<Tier>): (r: string)
    requires forall i :: 0 <= i < |tiers| ==> tiers[i].category != []
    ensures r == [] <==> forall i :: 0 <= i < |tiers| ==> !MentionsTier(s, tiers[i])
    ensures r != [] ==> (exists i :: 0 <= i < |tiers| && r == tiers[i].category && MentionsTier(s, tiers[i])
                           && forall j :: 0 <= j < i ==> !MentionsTier(s, tiers[j]))
  {
    if tiers == [] then ""
    else if MentionsTier(s, tiers[0]) then tiers[0].category
    else
      var r := ClassifyTier(s, tiers[1..]);
      assert r != [] ==> (exists i :: 0 <= i < |tiers| && r == tiers[i].category && MentionsTier(s, tiers[i])
                            && forall j :: 0 <= j < i ==> !MentionsTier(s, tiers[j])) by {
        if r != [] {
          var i :| 0 <= i < |tiers[1..]| && r == tiers[1..][i].category && MentionsTier(s, tiers[1..][i])
            && forall j :: 0 <= j < i ==> !MentionsTier(s, tiers[1..][j]);
          assert tiers[i + 1] == tiers[1..][i];
        }
      }
      r
  }

  /** `extract_education_category`. */
  function ExtractEducationCategory(text: string): (r: string)
    ensures r == [] || exists i :: 0 <= i < |Tiers| && r == Tiers[i].category
    ensures EducationSection(text).None? ==> r == []
    ensures EducationSection(text).Some? ==> r == ClassifyTier(EducationSection(text).value, Tiers)
  {
    match EducationSection(text)
    case None => ""
    case Some(section) => ClassifyTier(section, Tiers)
  }

  /** The category is the first tier, in the fixed order, that the section
      mentions; "" means it mentions none of them. */
  lemma EducationCategoryIsFirstTier(text: string)
    requires EducationSection(text).Some?
    ensures var r, s := ExtractEducationCategory(text), EducationSection(text).value;
      (r == [] <==> forall i :: 0 <= i < |Tiers| ==> !MentionsTier(s, Tiers[i]))
      && (r != [] ==> (exists i :: 0 <= i < |Tiers| && r == Tiers[i].category && MentionsTier(s, Tiers[i])
                         && forall j :: 0 <= j < i ==> !MentionsTier(s, Tiers[j])))
  {
  }

  // ---------------------------------------------------------------------
  // Last position
  // ---------------------------------------------------------------------

  const ExperienceHeaders: seq<string> := ["Опыт работы", "Профессиональный опыт"]

  /** `re.split('(Опыт работы|Профессиональный опыт)', s, flags=re.IGNORECASE)`
      scanned from `p`: where the last of its non-overlapping matches ends,
      given that the last match before `p` ended at `last`. */
  function LastSplitEnd(s: string, headers: seq<string>, p: nat, last: Option<nat>): (e: Option<nat>)
    requires p <= |s|
    requires forall i :: 0 <= i < |headers| ==> headers[i] != []
    requires last.Some? ==> last.value <= p
    ensures e.Some? ==> e.value <= |s|
    ensures last.Some? ==> e.Some?
    ensures e.None? <==> last.None? && NoHeaderFrom(s, headers, p)
    decreases |s| - p
  {
    var h := HeaderAt(s, p, headers);
    if h.Some? then LastSplitEnd(s, headers, p + |h.value|, Some(p + |h.value|))
    else if p == |s| then last
    else LastSplitEnd(s, headers, p + 1, last)
  }

  /** No header occurs at `p` or after it. */
  predicate NoHeaderFrom(s: string, headers: seq<string>, p: nat) {
    forall j :: p <= j <= |s| ==> HeaderAt(s, j, headers).None?
  }

  /** The first newline at or after `q`. */
  function FirstNewline(s: string, q: nat): (n: Option<nat>)
    requires q <= |s|
    ensures n.Some? ==> q <= n.value < |s| && s[n.value] == '\n'
    ensures forall j :: q <= j < |s| && (n.None? || j < n.value) ==> s[j] != '\n'
    decreases |s| - q
  {
    if q == |s| then None else if s[q] == '\n' then Some(q) else FirstNewline(s, q + 1)
  }

  /** Group 1 of `\s*(.*?)\n` (no DOTALL) started at `r`.  The greedy `\s*`
      takes the whole whitespace run; if no newline follows it, it gives
      characters back until the lazy group can end at the run's last newline
      (an empty group); if the run holds no newline either, there is no match. */
  function CaptureLine(s: string, r: nat): (c: Option<string>)
    requires r <= |s|
    ensures c.Some? ==> '\n' !in c.value
    ensures c.None? <==> forall j :: r <= j < |s| ==> s[j] != '\n'
  {
    var w := r + RunLength(s, r, IsSpace);
    match FirstNewline(s, w)
    case Some(n) =>
      assert forall j :: 0 <= j < n - w ==> s[w..n][j] == s[w + j];
      Some(s[w..n])
    case None =>
      match FirstNewline(s[..w], r)
      case Some(_) => Some("")
      case None =>
        assert forall j :: r <= j < w ==> s[..w][j] == s[j];
        None
  }

  /** The first capture among the ways the range can match, in backtracking order. */
  function FirstCapture(s: string, ms: seq<RangeMatch>): (c: Option<string>)
    requires forall i :: 0 <= i < |ms| ==> ms[i].stop <= |s|
    ensures c.Some? ==> '\n' !in c.value
    ensures c.Some? ==> exists i :: 0 <= i < |ms| && CaptureLine(s, ms[i].stop) == c
  {
    if ms == [] then None
    else
      var c := CaptureLine(s, ms[0].stop);
      if c.Some? then c
      else
        var rest := FirstCapture(s, ms[1..]);
        assert rest.Some? ==> exists i :: 0 <= i < |ms| && CaptureLine(s, ms[i].stop) == rest by {
          if rest.Some? {
            var i :| 0 <= i < |ms[1..]| && CaptureLine(s, ms[1..][i].stop) == rest;
            assert ms[i + 1] == ms[1..][i];
          }
        }
        rest
  }

  /** `re.search(range + r'\s*(.*?)\n', s)` from `p`: group 1 at the leftmost
      position where the pattern matches. */
  function FindPosition(s: string, p: nat): (c: Option<string>)
    requires p <= |s|
    ensures c.Some? ==> '\n' !in c.value
    decreases |s| - p
  {
    var c := FirstCapture(s, MatchesAt(s, p));
    if c.Some? then c
    else if p == |s| then None
    else FindPosition(s, p + 1)
  }

  /** `extract_last_position`. */
  function ExtractLastPosition(text: string): (r: string)
    ensures '\n' !in r
    ensures LastSplitEnd(text, ExperienceHeaders, 0, None).None? ==> r == []
  {
    match LastSplitEnd(text, ExperienceHeaders, 0, None)
    case None => ""
    case Some(e) =>
      match FindPosition(text[e..], 0)
      case None => ""
      case Some(c) =>
        StripIsSlice(c);
        Strip(c)
  }

  // ---------------------------------------------------------------------
  // What the patterns do on single-line text
  // ---------------------------------------------------------------------

  /** Without a newline the only section boundary is the end of the text. */
  lemma {:induction false} SectionRunsToEnd(s: string, b: nat)
    requires b <= |s| && '\n' !in s
    ensures SectionEnd(s, b) == |s|
    decreases |s| - b
  {
    if b < |s| {
      assert s[b] in s;
      SectionRunsToEnd(s, b + 1);
    }
  }

  /** So on single-line text a labelled section is everything after its
      header and separator. */
  lemma SectionBodyOnOneLine(s: string, headers: seq<string>)
    requires '\n' !in s && FindHeader(s, headers, 0).Some?
    ensures SectionBody(s, headers) == Some(s[BodyStart(s, headers, FindHeader(s, headers, 0).value)..])
  {
    var p := FindHeader(s, headers, 0).value;
    var b := BodyStart(s, headers, p);
    SectionRunsToEnd(s, b);
    assert BodyAt(s, headers, p) == s[b..];
  }

  /** On a single line a section's text is the squished rest of the line. */
  lemma SectionTextOnOneLine(s: string, headers: seq<string>)
    requires '\n' !in s && FindHeader(s, headers, 0).Some?
    ensures SectionText(s, headers) == Squish(s[BodyStart(s, headers, FindHeader(s, headers, 0).value)..])
  {
    SectionBodyOnOneLine(s, headers);
  }


  /** Without a newline the position pattern never matches. */
  lemma {:induction false} NoPositionOnOneLine(s: string, p: nat)
    requires p <= |s| && '\n' !in s
    ensures FindPosition(s, p) == None
    decreases |s| - p
  {
    var ms := MatchesAt(s, p);
    assert forall j :: 0 <= j < |s| ==> s[j] != '\n' by {
      forall j | 0 <= j < |s| ensures s[j] != '\n' {
        assert s[j] in s;
      }
    }
    NoCaptureOnOneLine(s, ms);
    if p < |s| {
      NoPositionOnOneLine(s, p + 1);
    }
  }

  lemma {:induction false} NoCaptureOnOneLine(s: string, ms: seq<RangeMatch>)
    requires forall i :: 0 <= i < |ms| ==> ms[i].stop <= |s|
    requires forall j :: 0 <= j < |s| ==> s[j] != '\n'
    ensures FirstCapture(s, ms) == None
  {
    if ms != [] {
      NoCaptureOnOneLine(s, ms[1..]);
    }
  }

  /** Hence the last position of single-line text is always "". */
  lemma LastPositionOnOneLine(text: string)
    requires '\n' !in text
    ensures ExtractLastPosition(text) == []
  {
    match LastSplitEnd(text, ExperienceHeaders, 0, None)
    case None =>
    case Some(e) =>
      var tail := text[e..];
      assert forall k :: 0 <= k < |tail| ==> tail[k] == text[e + k];
      NoPositionOnOneLine(tail, 0);
  }

  /** After a range that ends a line, the capture is the whole next line. */
  lemma CaptureNextLine(s: string, stop: nat, title: string)
    requires title != [] && !IsSpace(title[0]) && '\n' !in title
    requires stop <= |s| && s[stop..] == "\n" + title + "\n"
    ensures CaptureLine(s, stop) == Some(title)
  {
    assert s[stop] == '\n' && s[stop + 1] == title[0];
    RunLengthIs(s, stop, IsSpace, 1);
    var w := stop + 1;
    assert s[w..w + |title|] == title;
    assert forall j :: w <= j < w + |title| ==> s[j] == title[j - w] && s[j] != '\n';
    assert s[w + |title|] == '\n';
    FirstNewlineIs(s, w, w + |title|);
  }

  /** On a multi-line tail the pattern does find a position: a range that
      starts the tail and ends its line, then a title on the next line. */
  lemma PositionOnNextLine(n1: string, d1: string, n2: string, d2: string, title: string)
    requires IsMonthWord(n1) && IsFourDigits(d1) && IsMonthWord(n2) && IsFourDigits(d2)
    requires title != [] && !IsSpace(title[0]) && '\n' !in title
    ensures FindPosition(n1 + " " + d1 + " \U{2014} " + n2 + " " + d2 + "\n" + title + "\n", 0) == Some(title)
  {
    var rest := "\n" + title + "\n";
    var s := n1 + " " + d1 + " \U{2014} " + n2 + " " + d2 + rest;
    assert s == n1 + " " + d1 + " \U{2014} " + n2 + " " + d2 + "\n" + title + "\n";
    var stop := |n1| + |n2| + 13;
    assert stop + |rest| == |s| && MatchesAt(s, 0) != [] && MatchesAt(s, 0)[0].stop == stop by {
      FirstMatchOfRange(n1, d1, n2, d2, rest, s);
    }
    assert CaptureLine(s, stop) == Some(title) by {
      assert s[stop..] == rest;
      CaptureNextLine(s, stop, title);
    }
  }

  lemma FirstNewlineIs(s: string, q: nat, n: nat)
    requires q <= n < |s| && s[n] == '\n'
    requires forall j :: q <= j < n ==> s[j] != '\n'
    ensures FirstNewline(s, q) == Some(n)
  {
    var f := FirstNewline(s, q);
    assert f.Some?;
  }
}
