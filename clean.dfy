/**
 * The text normaliser `clean_text` (process_resumes.py:262-269): four
 * newline-oriented substitutions, then every whitespace run becomes one
 * space and the ends are stripped.  Each `re.sub` is modelled with Python's
 * semantics: matches are searched left to right, are greedy, do not overlap,
 * and the replacement text is never rescanned.
 */
module Clean {
  import opened Text

  predicate IsNewline(c: char) {
    c == '\n'
  }

  /** `re.sub(r'\r\n', '\n', s)`. */
  function CrLfToLf(s: string): (r: string)
    ensures |r| <= |s|
    decreases |s|
  {
    if s == [] then []
    else if |s| >= 2 && s[0] == '\r' && s[1] == '\n' then ['\n'] + CrLfToLf(s[2..])
    else [s[0]] + CrLfToLf(s[1..])
  }

  /** `re.sub(r'\n+', '\n', s)`: afterwards no two newlines are adjacent. */
  function SqueezeNewlines(s: string): (r: string)
    ensures |r| <= |s|
    ensures r != [] ==> (r[0] == '\n' <==> s[0] == '\n')
    ensures forall i :: 0 <= i < |r| - 1 && r[i] == '\n' ==> r[i + 1] != '\n'
    decreases |s|
  {
    if s == [] then []
    else if s[0] == '\n' then
      var n := RunLength(s, 0, IsNewline);
      ['\n'] + SqueezeNewlines(s[n..])
    else [s[0]] + SqueezeNewlines(s[1..])
  }

  /** The largest `k` with `1 <= k < m` and `s[k] == '\n'`, or 0 when there is
      none: where the greedy `\s+` of `\s+\n` stops after backtracking. */
  function LastNewlineIn(s: string, m: nat): (k: nat)
    requires m <= |s|
    ensures k == 0 || (1 <= k < m && s[k] == '\n')
    ensures forall j :: k < j < m && 1 <= j ==> s[j] != '\n'
    decreases m
  {
    if m <= 1 then 0 else if s[m - 1] == '\n' then m - 1 else LastNewlineIn(s, m - 1)
  }

  /** `re.sub(r'\s+\n', '\n', s)`.  At a whitespace run the pattern matches up
      to the last newline of the run that has whitespace before it; when there
      is none the first character is kept and the scan moves on by one. */
  function SpacesBeforeNewline(s: string): (r: string)
    ensures |r| <= |s|
    decreases |s|
  {
    if s == [] then []
    else if IsSpace(s[0]) then
      var k := LastNewlineIn(s, RunLength(s, 0, IsSpace));
      if k > 0 then ['\n'] + SpacesBeforeNewline(s[k + 1..])
      else [s[0]] + SpacesBeforeNewline(s[1..])
    else [s[0]] + SpacesBeforeNewline(s[1..])
  }

  /** `re.sub(r'\n\s+', '\n', s)`: a newline swallows the whitespace after it. */
  function NewlineThenSpaces(s: string): (r: string)
    ensures |r| <= |s|
    decreases |s|
  {
    if s == [] then []
    else if s[0] == '\n' && |s| >= 2 && IsSpace(s[1]) then
      var n := 1 + RunLength(s, 1, IsSpace);
      ['\n'] + NewlineThenSpaces(s[n..])
    else [s[0]] + NewlineThenSpaces(s[1..])
  }

  /** `clean_text(text)`: a single line without leading or trailing whitespace,
      whose only whitespace is single spaces. */
  function CleanText(text: string): (r: string)
    ensures IsNormalized(r)
    ensures '\n' !in r
    ensures |r| <= |text|
  {
    var s := Collapse(NewlineThenSpaces(SpacesBeforeNewline(SqueezeNewlines(CrLfToLf(text)))));
    StripSingleSpaced(s);
    Strip(s)
  }

  // ---------------------------------------------------------------------
  // Each substitution keeps the collapsed form of the text
  // ---------------------------------------------------------------------

  lemma {:induction false} CrLfToLfKeepsCollapse(s: string)
    ensures Collapse(CrLfToLf(s)) == Collapse(s)
    decreases |s|
  {
    if s == [] {
    } else if |s| >= 2 && s[0] == '\r' && s[1] == '\n' {
      CrLfToLfKeepsCollapse(s[2..]);
      SplitAt(s, 2);
      CollapseReplaceBlank(['\n'], s[..2], CrLfToLf(s[2..]), s[2..]);
    } else {
      CrLfToLfKeepsCollapse(s[1..]);
      SplitFirst(s);
      CollapseCongruence([s[0]], CrLfToLf(s[1..]), s[1..]);
    }
  }

  lemma {:induction false} SqueezeNewlinesKeepsCollapse(s: string)
    ensures Collapse(SqueezeNewlines(s)) == Collapse(s)
    decreases |s|
  {
    if s == [] {
    } else if s[0] == '\n' {
      var n := RunLength(s, 0, IsNewline);
      SqueezeNewlinesKeepsCollapse(s[n..]);
      SplitAt(s, n);
      assert AllSpace(s[..n]) by {
        forall i | 0 <= i < n ensures IsSpace(s[..n][i]) {
          assert IsNewline(s[i]);
        }
      }
      CollapseReplaceBlank(['\n'], s[..n], SqueezeNewlines(s[n..]), s[n..]);
    } else {
      SqueezeNewlinesKeepsCollapse(s[1..]);
      SplitFirst(s);
      CollapseCongruence([s[0]], SqueezeNewlines(s[1..]), s[1..]);
    }
  }

  lemma {:induction false} SpacesBeforeNewlineKeepsCollapse(s: string)
    ensures Collapse(SpacesBeforeNewline(s)) == Collapse(s)
    decreases |s|
  {
    if s == [] {
    } else {
      var k := if IsSpace(s[0]) then LastNewlineIn(s, RunLength(s, 0, IsSpace)) else 0;
      if k > 0 {
        SpacesBeforeNewlineKeepsCollapse(s[k + 1..]);
        SplitAt(s, k + 1);
        assert AllSpace(s[..k + 1]);
        CollapseReplaceBlank(['\n'], s[..k + 1], SpacesBeforeNewline(s[k + 1..]), s[k + 1..]);
      } else {
        SpacesBeforeNewlineKeepsCollapse(s[1..]);
        SplitFirst(s);
        CollapseCongruence([s[0]], SpacesBeforeNewline(s[1..]), s[1..]);
      }
    }
  }

  lemma {:induction false} NewlineThenSpacesKeepsCollapse(s: string)
    ensures Collapse(NewlineThenSpaces(s)) == Collapse(s)
    decreases |s|
  {
    if s == [] {
    } else if s[0] == '\n' && |s| >= 2 && IsSpace(s[1]) {
      var n := 1 + RunLength(s, 1, IsSpace);
      NewlineThenSpacesKeepsCollapse(s[n..]);
      SplitAt(s, n);
      assert AllSpace(s[..n]);
      CollapseReplaceBlank(['\n'], s[..n], NewlineThenSpaces(s[n..]), s[n..]);
    } else {
      NewlineThenSpacesKeepsCollapse(s[1..]);
      SplitFirst(s);
      CollapseCongruence([s[0]], NewlineThenSpaces(s[1..]), s[1..]);
    }
  }

  /** The four newline substitutions change nothing that the final collapse
      and strip would not also produce: `clean_text` is strip-after-collapse. */
  lemma CleanTextIsStripCollapse(text: string)
    ensures CleanText(text) == Strip(Collapse(text))
  {
    var s1 := CrLfToLf(text);
    var s2 := SqueezeNewlines(s1);
    var s3 := SpacesBeforeNewline(s2);
    CrLfToLfKeepsCollapse(text);
    SqueezeNewlinesKeepsCollapse(s1);
    SpacesBeforeNewlineKeepsCollapse(s2);
    NewlineThenSpacesKeepsCollapse(s3);
  }

  /** Cleaning an already cleaned text changes nothing. */
  lemma CleanTextIdempotent(text: string)
    ensures CleanText(CleanText(text)) == CleanText(text)
  {
    var c := CleanText(text);
    CleanTextIsStripCollapse(c);
    CollapseSingleSpaced(c);
    StripNormalized(c);
  }

  /** Two texts that differ only in how their words are separated by
      whitespace clean to the same line. */
  lemma CleanTextIgnoresSpacing(x: string, a: string, w: string, w2: string)
    requires w != [] && AllSpace(w) && w2 != [] && AllSpace(w2)
    ensures CleanText(x + w + a) == CleanText(x + w2 + a)
  {
    CollapseReplaceBlank(w, w2, a, a);
    CollapseCongruence(x, w + a, w2 + a);
    Regroup(x, w, a);
    Regroup(x, w2, a);
    CleanTextIsStripCollapse(x + w + a);
    CleanTextIsStripCollapse(x + w2 + a);
  }
}
