/**
 * Character classes and string operations shared by the resume pipeline:
 * Python's `str.isspace`, the `\w` and `\d` classes, `str.lower()`,
 * `str.strip()`, `re.sub(r'\s+', ' ', s)`, `str.split()`, `str.join`,
 * `int(...)` and `str(n)`.
 */
module Text {
  import opened Wrappers

  // ---------------------------------------------------------------------
  // Character classes
  // ---------------------------------------------------------------------

  /** The characters for which Python's `str.isspace()` holds; `\s` in a
      `str` pattern and `str.strip()` use this same set. */
  predicate IsSpace(c: char) {
    || ('\t' <= c <= '\r')              // \t \n \v \f \r
    || ('\U{1C}' <= c <= '\U{1F}')
    || c == ' ' || c == '\U{85}' || c == '\U{A0}' || c == '\U{1680}'
    || ('\U{2000}' <= c <= '\U{200A}')
    || c == '\U{2028}' || c == '\U{2029}' || c == '\U{202F}'
    || c == '\U{205F}' || c == '\U{3000}'
  }

  predicate IsDigit(c: char) {
    '0' <= c <= '9'
  }

  /** Latin and Cyrillic letters (U+0400..U+045F). */
  predicate IsLetter(c: char) {
    ('a' <= c <= 'z') || ('A' <= c <= 'Z') || ('\U{400}' <= c <= '\U{45F}')
  }

  /** The regex class `\w`: letters, digits and the underscore. */
  predicate IsWordChar(c: char) {
    IsLetter(c) || IsDigit(c) || c == '_'
  }

  predicate NotSpace(c: char) {
    !IsSpace(c)
  }

  /** `str.lower()` on one character: Latin A-Z, Cyrillic А-Я and Ѐ-Џ. */
  function Lower(c: char): (d: char)
    ensures IsSpace(d) <==> IsSpace(c)
    ensures IsDigit(d) <==> IsDigit(c)
    ensures IsWordChar(d) <==> IsWordChar(c)
    ensures 'a' <= c <= 'z' || '\U{430}' <= c <= '\U{45F}' ==> d == c
  {
    if 'A' <= c <= 'Z' then (c as int + 32) as char
    else if '\U{410}' <= c <= '\U{42F}' then (c as int + 32) as char
    else if '\U{400}' <= c <= '\U{40F}' then (c as int + 80) as char
    else c
  }

  function LowerStr(s: string): (r: string)
    ensures |r| == |s|
    ensures forall i :: 0 <= i < |s| ==> r[i] == Lower(s[i])
  {
    seq(|s|, i requires 0 <= i < |s| => Lower(s[i]))
  }

  predicate AllSpace(s: string) {
    forall i :: 0 <= i < |s| ==> IsSpace(s[i])
  }

  predicate AllDigits(s: string) {
    forall i :: 0 <= i < |s| ==> IsDigit(s[i])
  }

  // ---------------------------------------------------------------------
  // Literal matching
  // ---------------------------------------------------------------------

  predicate StartsWith(s: string, prefix: string) {
    |prefix| <= |s| && s[..|prefix|] == prefix
  }

  predicate EndsWith(s: string, suffix: string) {
    |suffix| <= |s| && s[|s| - |suffix|..] == suffix
  }

  /** `lit` occurs in `s` at position `p`. */
  predicate LiteralAt(s: string, p: nat, lit: string) {
    p + |lit| <= |s| && s[p..p + |lit|] == lit
  }

  /** `lit` occurs at `p` when case is ignored (a regex compiled with `re.IGNORECASE`). */
  predicate LiteralAtIgnoreCase(s: string, p: nat, lit: string) {
    p + |lit| <= |s| && LowerStr(s[p..p + |lit|]) == LowerStr(lit)
  }

  /** Python's `sub in s`. */
  predicate Contains(s: string, sub: string) {
    exists p :: 0 <= p <= |s| - |sub| && LiteralAt(s, p, sub)
  }

  /** `re.search(lit, s, re.IGNORECASE)` for a pattern that is a plain word. */
  predicate ContainsIgnoreCase(s: string, lit: string) {
    exists p :: 0 <= p <= |s| - |lit| && LiteralAtIgnoreCase(s, p, lit)
  }

  // ---------------------------------------------------------------------
  // Runs of a character class
  // ---------------------------------------------------------------------

  /** Length of the longest run of `inClass` characters starting at `p`:
      what a greedy `[...]*` consumes there. */
  function RunLength(s: string, p: nat, inClass: char -> bool): (n: nat)
    requires p <= |s|
    ensures p + n <= |s|
    ensures forall k :: p <= k < p + n ==> inClass(s[k])
    ensures p + n == |s| || !inClass(s[p + n])
    decreases |s| - p
  {
    if p < |s| && inClass(s[p]) then 1 + RunLength(s, p + 1, inClass) else 0
  }

  /** A run of `k` class characters followed by the end or by a character
      outside the class is exactly what `RunLength` measures. */
  lemma RunLengthIs(s: string, p: nat, inClass: char -> bool, k: nat)
    requires p + k <= |s|
    requires forall i :: p <= i < p + k ==> inClass(s[i])
    requires p + k == |s| || !inClass(s[p + k])
    ensures RunLength(s, p, inClass) == k
  {
    var n := RunLength(s, p, inClass);
    assert n <= k;
  }

  // ---------------------------------------------------------------------
  // strip() and re.sub(r'\s+', ' ', s)
  // ---------------------------------------------------------------------

  /** `s.lstrip()`. */
  function DropSpaces(s: string): (r: string)
    ensures |r| <= |s|
    ensures r == [] || !IsSpace(r[0])
  {
    if s != [] && IsSpace(s[0]) then DropSpaces(s[1..]) else s
  }

  /** What `lstrip` removes is a whitespace prefix. */
  lemma {:induction false} DropSpacesSplit(s: string)
    ensures s == s[..|s| - |DropSpaces(s)|] + DropSpaces(s)
    ensures AllSpace(s[..|s| - |DropSpaces(s)|])
  {
    if s != [] && IsSpace(s[0]) {
      DropSpacesSplit(s[1..]);
      var r := DropSpaces(s);
      assert s[..|s| - |r|] == [s[0]] + s[1..][..|s| - 1 - |r|];
    }
  }

  /** `s.rstrip()`. */
  function DropTrailingSpaces(s: string): (r: string)
    ensures |r| <= |s|
    ensures r == [] || !IsSpace(r[|r| - 1])
  {
    if s != [] && IsSpace(s[|s| - 1]) then DropTrailingSpaces(s[..|s| - 1]) else s
  }

  /** What `rstrip` removes is a whitespace suffix. */
  lemma {:induction false} DropTrailingSpacesSplit(s: string)
    ensures s == DropTrailingSpaces(s) + s[|DropTrailingSpaces(s)|..]
    ensures AllSpace(s[|DropTrailingSpaces(s)|..])
  {
    if s != [] && IsSpace(s[|s| - 1]) {
      DropTrailingSpacesSplit(s[..|s| - 1]);
      var r := DropTrailingSpaces(s);
      assert s[..|s| - 1][..|r|] == s[..|r|];
      assert s[|r|..] == s[..|s| - 1][|r|..] + [s[|s| - 1]];
    }
  }

  /** `s.strip()`: the text without its leading and trailing whitespace. */
  function Strip(s: string): (r: string)
    ensures |r| <= |s|
    ensures r == [] || (!IsSpace(r[0]) && !IsSpace(r[|r| - 1]))
    ensures r == [] <==> AllSpace(s)
  {
    var t := DropSpaces(s);
    var r := DropTrailingSpaces(t);
    StripSplit(s, t, r);
    r
  }

  lemma StripSplit(s: string, t: string, r: string)
    requires t == DropSpaces(s) && r == DropTrailingSpaces(t)
    ensures r == t[..|r|]
    ensures r == [] <==> AllSpace(s)
  {
    DropSpacesSplit(s);
    DropTrailingSpacesSplit(t);
    if t == [] {
      assert s == s[..|s|];
    } else {
      assert s[|s| - |t|] == t[0];
    }
  }

  /** Whitespace other than a plain space never occurs, and no two spaces are adjacent. */
  predicate SingleSpaced(s: string) {
    && (forall i :: 0 <= i < |s| && IsSpace(s[i]) ==> s[i] == ' ')
    && (forall i :: 0 <= i < |s| - 1 && s[i] == ' ' ==> s[i + 1] != ' ')
  }

  /** Trimmed and single-spaced: the shape `clean_text` and the record cleanup promise. */
  predicate IsNormalized(s: string) {
    SingleSpaced(s) && (s == [] || (!IsSpace(s[0]) && !IsSpace(s[|s| - 1])))
  }

  /** `re.sub(r'\s+', ' ', s)`: every maximal whitespace run becomes one space. */
  function Collapse(s: string): (r: string)
    ensures |r| <= |s|
    ensures SingleSpaced(r)
    ensures r == [] <==> s == []
    ensures r != [] ==> (r[0] == ' ' <==> IsSpace(s[0]))
    decreases |s|
  {
    if s == [] then []
    else if IsSpace(s[0]) then [' '] + Collapse(DropSpaces(s[1..]))
    else [s[0]] + Collapse(s[1..])
  }

  function DropLeadingBlank(t: string): string {
    if t != [] && t[0] == ' ' then t[1..] else t
  }

  lemma CollapseDropSpaces(x: string)
    ensures Collapse(DropSpaces(x)) == DropLeadingBlank(Collapse(x))
  {
    if x != [] && IsSpace(x[0]) {
      assert DropSpaces(x) == DropSpaces(x[1..]);
    }
  }

  lemma {:induction false} DropSpacesAfterBlank(w: string, a: string)
    requires AllSpace(w)
    ensures DropSpaces(w + a) == DropSpaces(a)
  {
    if w != [] {
      assert (w + a)[0] == w[0];
      assert (w + a)[1..] == w[1..] + a;
      assert DropSpaces(w + a) == DropSpaces((w + a)[1..]);
      DropSpacesAfterBlank(w[1..], a);
    } else {
      assert w + a == a;
    }
  }

  /** A non-empty whitespace prefix collapses to one space, whatever it is. */
  lemma CollapseBlankPrefix(w: string, a: string)
    requires w != [] && AllSpace(w)
    ensures Collapse(w + a) == [' '] + DropLeadingBlank(Collapse(a))
  {
    assert (w + a)[0] == w[0];
    assert (w + a)[1..] == w[1..] + a;
    DropSpacesAfterBlank(w[1..], a);
    CollapseDropSpaces(a);
  }

  /** Texts with the same collapsed form keep it under a common prefix. */
  lemma {:induction false} CollapseCongruence(x: string, a: string, b: string)
    requires Collapse(a) == Collapse(b)
    ensures Collapse(x + a) == Collapse(x + b)
  {
    if x != [] {
      assert (x + a)[0] == x[0] && (x + b)[0] == x[0];
      assert (x + a)[1..] == x[1..] + a;
      assert (x + b)[1..] == x[1..] + b;
      CollapseCongruence(x[1..], a, b);
      if IsSpace(x[0]) {
        CollapseDropSpaces(x[1..] + a);
        CollapseDropSpaces(x[1..] + b);
      }
    } else {
      assert x + a == a && x + b == b;
    }
  }

  /** Replacing one non-empty whitespace run by another leaves the collapsed form unchanged. */
  lemma SplitAt(s: string, n: nat)
    requires n <= |s|
    ensures s == s[..n] + s[n..]
  {
  }

  lemma SplitFirst(s: string)
    requires s != []
    ensures s == [s[0]] + s[1..]
  {
  }

  lemma Regroup(x: string, y: string, z: string)
    ensures x + y + z == x + (y + z)
  {
  }

  lemma CollapseReplaceBlank(w: string, w2: string, a: string, b: string)
    requires w != [] && AllSpace(w) && w2 != [] && AllSpace(w2)
    requires Collapse(a) == Collapse(b)
    ensures Collapse(w + a) == Collapse(w2 + b)
  {
    CollapseBlankPrefix(w, a);
    CollapseBlankPrefix(w2, b);
  }

  /** Collapsing a single-spaced text changes nothing. */
  lemma {:induction false} CollapseSingleSpaced(s: string)
    requires SingleSpaced(s)
    ensures Collapse(s) == s
  {
    if s != [] {
      assert SingleSpaced(s[1..]);
      CollapseSingleSpaced(s[1..]);
      if IsSpace(s[0]) {
        assert DropSpaces(s[1..]) == s[1..];
      }
    }
  }

  /** A non-space last character survives collapsing. */
  lemma {:induction false} CollapseKeepsLast(x: string)
    ensures x != [] && !IsSpace(x[|x| - 1]) ==>
      Collapse(x) != [] && Collapse(x)[|Collapse(x)| - 1] == x[|x| - 1]
    decreases |x|
  {
    if |x| > 1 && !IsSpace(x[|x| - 1]) {
      if IsSpace(x[0]) {
        var t := DropSpaces(x[1..]);
        DropSpacesSplit(x[1..]);
        assert x[1..][|x| - 2] == x[|x| - 1];
        assert t != [] && t[|t| - 1] == x[|x| - 1];
        CollapseKeepsLast(t);
      } else {
        CollapseKeepsLast(x[1..]);
      }
    }
  }

  /** `re.sub(r'\s+', ' ', s.strip())`: the per-value cleanup of the record
      assembler and of the section extractors. */
  function Squish(s: string): (r: string)
    ensures IsNormalized(r)
    ensures r == [] <==> AllSpace(s)
  {
    var t := Strip(s);
    CollapseKeepsLast(t);
    Collapse(t)
  }

  /** `strip()` keeps a contiguous part of its argument. */
  lemma StripIsSlice(s: string)
    ensures exists i, j :: 0 <= i <= j <= |s| && Strip(s) == s[i..j]
  {
    StripSlice(s);
  }

  /** `strip` keeps the characters from the first non-whitespace one on. */
  lemma StripSlice(s: string)
    ensures |s| - |DropSpaces(s)| + |Strip(s)| <= |s|
    ensures Strip(s) == s[|s| - |DropSpaces(s)|..|s| - |DropSpaces(s)| + |Strip(s)|]
  {
    var t := DropSpaces(s);
    DropSpacesSplit(s);
    StripSplit(s, t, DropTrailingSpaces(t));
    var i := |s| - |t|;
    var r := Strip(s);
    assert r == t[..|r|];
    assert t == s[i..];
  }

  /** Text without whitespace at either end is unchanged by `strip()`. */
  lemma StripTrimmed(s: string)
    requires s == [] || (!IsSpace(s[0]) && !IsSpace(s[|s| - 1]))
    ensures Strip(s) == s
  {
  }

  /** Leading whitespace makes no difference to `strip()`. */
  lemma StripAfterSpaces(w: string, x: string)
    requires AllSpace(w)
    ensures Strip(w + x) == Strip(x)
  {
    DropSpacesAfterBlank(w, x);
  }

  lemma StripNormalized(s: string)
    requires IsNormalized(s)
    ensures Strip(s) == s
  {
  }

  lemma SingleSpacedSlice(s: string, i: nat, j: nat)
    requires SingleSpaced(s) && i <= j <= |s|
    ensures SingleSpaced(s[i..j])
  {
    var t := s[i..j];
    forall k | 0 <= k < |t| - 1 && t[k] == ' '
      ensures t[k + 1] != ' '
    {
      assert t[k] == s[i + k] && t[k + 1] == s[i + k + 1];
    }
  }

  /** Stripping a single-spaced text gives a normalized one. */
  lemma StripSingleSpaced(s: string)
    requires SingleSpaced(s)
    ensures IsNormalized(Strip(s))
  {
    StripSlice(s);
    var i := |s| - |DropSpaces(s)|;
    SingleSpacedSlice(s, i, i + |Strip(s)|);
  }

  // ---------------------------------------------------------------------
  // str.split(), str.join
  // ---------------------------------------------------------------------

  /** `s.split()`: the maximal runs of non-whitespace characters, in order. */
  predicate NoSpaceIn(w: string) {
    forall i :: 0 <= i < |w| ==> !IsSpace(w[i])
  }

  function Words(s: string): (ws: seq<string>)
    ensures forall k :: 0 <= k < |ws| ==> ws[k] != [] && NoSpaceIn(ws[k])
    decreases |s|
  {
    var t := DropSpaces(s);
    if t == [] then []
    else
      var n := RunLength(t, 0, NotSpace);
      assert NoSpaceIn(t[..n]);
      [t[..n]] + Words(t[n..])
  }

  /** A word followed by whitespace or by nothing is the first word. */
  lemma WordsCons(a: string, rest: string)
    requires a != [] && NoSpaceIn(a) && (rest == [] || IsSpace(rest[0]))
    ensures Words(a + rest) == [a] + Words(rest)
  {
    var s := a + rest;
    assert DropSpaces(s) == s;
    var n := RunLength(s, 0, NotSpace);
    assert forall k :: 0 <= k < |a| ==> NotSpace(s[k]);
    assert rest != [] ==> !NotSpace(s[|a|]);
    assert n == |a|;
    assert s[..n] == a && s[n..] == rest;
  }

  /** Leading whitespace does not change the words. */
  lemma WordsSkipSpace(rest: string)
    requires rest != [] && IsSpace(rest[0])
    ensures Words(rest) == Words(rest[1..])
  {
  }

  /** `sep.join(parts)`. */
  function Join(parts: seq<string>, sep: string): string {
    if parts == [] then []
    else if |parts| == 1 then parts[0]
    else parts[0] + sep + Join(parts[1..], sep)
  }

  // ---------------------------------------------------------------------
  // str(n) and int(s)
  // ---------------------------------------------------------------------

  function DigitChar(d: nat): (c: char)
    requires d < 10
    ensures IsDigit(c)
  {
    ('0' as int + d) as char
  }

  /** `str(n)` for a natural number: decimal digits without leading zeros. */
  function NatToString(n: nat): (r: string)
    ensures r != [] && AllDigits(r)
    ensures |r| > 1 ==> r[0] != '0'
    decreases n
  {
    if n < 10 then [DigitChar(n)] else NatToString(n / 10) + [DigitChar(n % 10)]
  }

  /** Years from 1000 to 9999 print as four digits. */
  lemma FourDigitNumber(n: nat)
    requires 1000 <= n <= 9999
    ensures |NatToString(n)| == 4
  {
    assert n / 100 / 10 == n / 1000 && n / 10 / 10 == n / 100;
    assert |NatToString(n / 1000)| == 1;
    assert |NatToString(n / 100)| == 2;
    assert |NatToString(n / 10)| == 3;
  }

  /** `str(i)` for any integer. */
  function IntToString(i: int): string {
    if i < 0 then "-" + NatToString(-i) else NatToString(i)
  }

  /** The value of a string of decimal digits. */
  function DigitsValue(s: string): nat
    requires AllDigits(s)
  {
    if s == [] then 0 else DigitsValue(s[..|s| - 1]) * 10 + (s[|s| - 1] as int - '0' as int)
  }

  /** Reading back what `str(n)` wrote gives `n`. */
  lemma {:induction false} NatToStringRoundTrip(n: nat)
    ensures DigitsValue(NatToString(n)) == n
    decreases n
  {
    if n >= 10 {
      var r := NatToString(n);
      assert r[..|r| - 1] == NatToString(n / 10);
      NatToStringRoundTrip(n / 10);
    }
  }

  /** `int(s)` for a token without surrounding whitespace: an optional sign
      followed by ASCII digits; anything else raises `ValueError` (`None`). */
  function ParseInt(s: string): (r: Option<int>)
    ensures r.Some? ==> s != [] && IsDigit(s[|s| - 1])
    ensures AllDigits(s) && s != [] ==> r == Some(DigitsValue(s) as int)
  {
    if s == [] then None
    else if AllDigits(s) then Some(DigitsValue(s))
    else if (s[0] == '+' || s[0] == '-') && |s| > 1 && AllDigits(s[1..]) then
      var v: int := DigitsValue(s[1..]);
      Some(if s[0] == '-' then -v else v)
    else None
  }
}
