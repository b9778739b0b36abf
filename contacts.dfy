/**
 * Contact details and the literal gender check (process_resumes.py:294-320).
 * `re.findall(...)[0]` is the leftmost match, so both contact patterns are
 * modelled as a leftmost search.
 */
module Contacts {
  import opened Wrappers
  import opened Text

  // ---------------------------------------------------------------------
  // Phone: (\+?\d[\d\-\s]{7,}\d)
  // ---------------------------------------------------------------------

  /** `[\d\-\s]`. */
  predicate IsPhoneChar(c: char) {
    IsDigit(c) || c == '-' || IsSpace(c)
  }

  /** The largest `k` with `lo <= k < hi` and a digit at `s[k]`. */
  function LastDigitIn(s: string, lo: nat, hi: nat): (k: Option<nat>)
    requires hi <= |s|
    ensures k.Some? ==> lo <= k.value < hi && IsDigit(s[k.value])
    ensures forall j :: lo <= j < hi && (k.None? || k.value < j) ==> !IsDigit(s[j])
    decreases hi
  {
    if hi <= lo then None
    else if IsDigit(s[hi - 1]) then Some(hi - 1)
    else LastDigitIn(s, lo, hi - 1)
  }

  /** Where the phone pattern's match ends when it starts at `p`.  The optional
      `+` is taken when present (giving it back leaves a `+` where a digit is
      needed); the class run is greedy and gives characters back until a
      digit can close the match, which must leave at least seven in the run. */
  function PhoneAt(s: string, p: nat): (e: Option<nat>)
    requires p <= |s|
    ensures e.Some? ==> p + 9 <= e.value <= |s| && IsDigit(s[e.value - 1])
  {
    var q := if p < |s| && s[p] == '+' then p + 1 else p;
    if q < |s| && IsDigit(s[q]) then
      var r := RunLength(s, q + 1, IsPhoneChar);
      match LastDigitIn(s, q + 8, q + 1 + r)
      case Some(k) => Some(k + 1)
      case None => None
    else None
  }

  /** The shape of what `PhoneAt` accepts: an optional `+`, a digit, at least
      seven digits, dashes or whitespace, and a closing digit. */
  predicate IsPhoneText(t: string) {
    var q := if t != [] && t[0] == '+' then 1 else 0;
    |t| >= q + 9 && IsDigit(t[q]) && IsDigit(t[|t| - 1])
    && forall i :: q < i < |t| ==> IsPhoneChar(t[i])
  }

  lemma PhoneAtShape(s: string, p: nat)
    requires p <= |s| && PhoneAt(s, p).Some?
    ensures IsPhoneText(s[p..PhoneAt(s, p).value])
  {
    var e := PhoneAt(s, p).value;
    var t := s[p..e];
    var q := if p < |s| && s[p] == '+' then p + 1 else p;
    assert forall i :: 0 <= i < |t| ==> t[i] == s[p + i];
    assert q - p == (if t != [] && t[0] == '+' then 1 else 0);
  }

  /** The leftmost phone match at or after `p`. */
  function FindPhone(s: string, p: nat): (m: Option<(nat, nat)>)
    requires p <= |s|
    ensures m.Some? ==> p <= m.value.0 <= |s| && PhoneAt(s, m.value.0) == Some(m.value.1)
    ensures forall j :: p <= j <= |s| && (m.None? || j < m.value.0) ==> PhoneAt(s, j).None?
    decreases |s| - p
  {
    match PhoneAt(s, p)
    case Some(e) => Some((p, e))
    case None => if p == |s| then None else FindPhone(s, p + 1)
  }

  /** `phone_match[0] if phone_match else ""`. */
  function ExtractPhone(text: string): (r: string)
    ensures r == [] <==> forall j :: 0 <= j <= |text| ==> PhoneAt(text, j).None?
    ensures r != [] ==> IsPhoneText(r)
    ensures FindPhone(text, 0).Some? ==> r == text[FindPhone(text, 0).value.0..FindPhone(text, 0).value.1]
  {
    match FindPhone(text, 0)
    case None => ""
    case Some((p, e)) =>
      PhoneAtShape(text, p);
      text[p..e]
  }

  // ---------------------------------------------------------------------
  // Email: [\w\.-]+@[\w\.-]+
  // ---------------------------------------------------------------------

  /** `[\w\.-]`. */
  predicate IsEmailChar(c: char) {
    IsWordChar(c) || c == '.' || c == '-'
  }

  /** Where the email pattern's match ends when it starts at `p`: both runs
      are greedy, and the first cannot give anything back because `@` is not
      in its class. */
  function EmailAt(s: string, p: nat): (e: Option<nat>)
    requires p <= |s|
    ensures e.Some? ==> p + 3 <= e.value <= |s|
  {
    var a := RunLength(s, p, IsEmailChar);
    if a > 0 && p + a < |s| && s[p + a] == '@' then
      var b := RunLength(s, p + a + 1, IsEmailChar);
      if b > 0 then Some(p + a + 1 + b) else None
    else None
  }

  /** What the email pattern accepts: one `@` with a non-empty run of
      `[\w.-]` on each side. */
  predicate IsEmailText(t: string) {
    exists k :: 0 < k < |t| - 1 && t[k] == '@'
      && (forall i :: 0 <= i < |t| && i != k ==> IsEmailChar(t[i]))
  }

  /** The leftmost email match at or after `p`. */
  function FindEmail(s: string, p: nat): (m: Option<(nat, nat)>)
    requires p <= |s|
    ensures m.Some? ==> p <= m.value.0 <= |s| && EmailAt(s, m.value.0) == Some(m.value.1)
    ensures forall j :: p <= j <= |s| && (m.None? || j < m.value.0) ==> EmailAt(s, j).None?
    decreases |s| - p
  {
    match EmailAt(s, p)
    case Some(e) => Some((p, e))
    case None => if p == |s| then None else FindEmail(s, p + 1)
  }

  /** `email_match[0] if email_match else ""`. */
  function ExtractEmail(text: string): (r: string)
    ensures r == [] <==> forall j :: 0 <= j <= |text| ==> EmailAt(text, j).None?
    ensures FindEmail(text, 0).Some? ==> r == text[FindEmail(text, 0).value.0..FindEmail(text, 0).value.1]
  {
    match FindEmail(text, 0)
    case None => ""
    case Some((p, e)) => text[p..e]
  }

  lemma EmailAtShape(s: string, p: nat)
    requires p <= |s| && EmailAt(s, p).Some?
    ensures IsEmailText(s[p..EmailAt(s, p).value])
  {
    var e := EmailAt(s, p).value;
    var t := s[p..e];
    var k := RunLength(s, p, IsEmailChar);
    assert t[k] == '@';
    assert forall i :: 0 <= i < |t| ==> t[i] == s[p + i];
  }

  /** The second run is greedy: the match is never followed by `[\w.-]`. */
  lemma EmailAtEnd(s: string, p: nat)
    requires p <= |s| && EmailAt(s, p).Some?
    ensures EmailAt(s, p).value == |s| || !IsEmailChar(s[EmailAt(s, p).value])
  {
  }

  /** Starting one `[\w.-]` character earlier gives the same match end. */
  lemma EmailAtExtends(s: string, p: nat)
    requires 0 < p <= |s| && IsEmailChar(s[p - 1]) && EmailAt(s, p).Some?
    ensures EmailAt(s, p - 1) == EmailAt(s, p)
  {
    var a := RunLength(s, p, IsEmailChar);
    RunLengthIs(s, p - 1, IsEmailChar, a + 1);
  }

  /** The address found is a whole token: no `[\w.-]` character touches it on
      either side, since the search would otherwise have started earlier or
      run on further. */
  lemma EmailIsWholeToken(text: string)
    requires FindEmail(text, 0).Some?
    ensures var (p, e) := FindEmail(text, 0).value;
      IsEmailText(text[p..e])
      && (p == 0 || !IsEmailChar(text[p - 1]))
      && (e == |text| || !IsEmailChar(text[e]))
  {
    var (p, e) := FindEmail(text, 0).value;
    EmailAtShape(text, p);
    EmailAtEnd(text, p);
    if p > 0 && IsEmailChar(text[p - 1]) {
      EmailAtExtends(text, p);
      assert false;
    }
  }

  // ---------------------------------------------------------------------
  // Gender: \b(Мужчина|Женщина)\b, case ignored, then capitalize()
  // ---------------------------------------------------------------------

  const Male: string := "Мужчина"
  const Female: string := "Женщина"

  /** What the name-based guess (a morphological analyser, outside this model)
      concludes. */
  datatype NameGender = Masculine | Feminine | Undetermined

  function NameGenderText(g: NameGender): string {
    match g
    case Masculine => Male
    case Feminine => Female
    case Undetermined => ""
  }

  /** `\bW\b` at `p`, case ignored. */
  predicate WholeWordAt(s: string, p: nat, w: string) {
    LiteralAtIgnoreCase(s, p, w)
    && (p == 0 || !IsWordChar(s[p - 1]))
    && (p + |w| == |s| || !IsWordChar(s[p + |w|]))
  }

  /** `str.upper()` of one character, for Latin and basic Cyrillic letters. */
  function Upper(c: char): char {
    if 'a' <= c <= 'z' then (c as int - 32) as char
    else if '\U{430}' <= c <= '\U{44F}' then (c as int - 32) as char
    else if '\U{450}' <= c <= '\U{45F}' then (c as int - 80) as char
    else c
  }

  /** `str.capitalize()`: the first character upper case, the rest lower case. */
  function Capitalize(s: string): (r: string)
    ensures |r| == |s|
  {
    if s == [] then [] else [Upper(s[0])] + LowerStr(s[1..])
  }

  /** Whatever case the text uses, capitalising the matched word gives back
      the word as the pattern spells it. */
  lemma CapitalizeMatch(s: string, p: nat, w: string)
    requires w == Male || w == Female
    requires LiteralAtIgnoreCase(s, p, w)
    ensures Capitalize(s[p..p + |w|]) == w
  {
    var x := s[p..p + |w|];
    assert LowerStr(x) == LowerStr(w);
    assert Lower(x[0]) == Lower(w[0]);
    assert x[1..] == x[1..];
    assert LowerStr(x[1..]) == LowerStr(w)[1..];
    assert LowerStr(w)[1..] == w[1..];
    assert Upper(x[0]) == w[0];
  }

  /** The leftmost whole-word "Мужчина" or "Женщина" at or after `p`, with
      the word as the pattern spells it. */
  function FindGenderWord(s: string, p: nat): (m: Option<(nat, string)>)
    requires p <= |s|
    ensures m.Some? ==> p <= m.value.0 <= |s| && (m.value.1 == Male || m.value.1 == Female)
    ensures m.Some? ==> WholeWordAt(s, m.value.0, m.value.1)
    ensures forall j :: p <= j <= |s| && (m.None? || j < m.value.0) ==> !WholeWordAt(s, j, Male) && !WholeWordAt(s, j, Female)
    decreases |s| - p
  {
    if WholeWordAt(s, p, Male) then Some((p, Male))
    else if WholeWordAt(s, p, Female) then Some((p, Female))
    else if p == |s| then None
    else FindGenderWord(s, p + 1)
  }

  /** `extract_gender` with the name-based guess passed in as `guess`: the
      written word, capitalised, when there is one. */
  function ExtractGender(text: string, guess: NameGender): (r: string)
    ensures FindGenderWord(text, 0).Some? ==> r == FindGenderWord(text, 0).value.1
    ensures FindGenderWord(text, 0).None? ==> r == NameGenderText(guess)
  {
    match FindGenderWord(text, 0)
    case Some((p, w)) =>
      CapitalizeMatch(text, p, w);
      Capitalize(text[p..p + |w|])
    case None => NameGenderText(guess)
  }

  /** The answer is always "Мужчина", "Женщина" or "", and a gender written in
      the text wins over the guess from the name. */
  lemma GenderValues(text: string, g1: NameGender, g2: NameGender)
    ensures var r := ExtractGender(text, g1); r == Male || r == Female || r == []
    ensures FindGenderWord(text, 0).Some? ==> ExtractGender(text, g1) == ExtractGender(text, g2) != []
  {
  }
}
