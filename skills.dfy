/**
 * `extract_skills` (process_resumes.py:394-413): the skills section is
 * normalised, split at commas and semicolons, trimmed, and each non-empty
 * token is sent to the soft bucket when its lower-case form contains one of
 * thirteen keywords, to the hard bucket otherwise.
 */
module Skills {
  import opened Text
  import opened Sections

  predicate IsSeparator(c: char) {
    c == ',' || c == ';'
  }

  predicate NotSeparator(c: char) {
    !IsSeparator(c)
  }

  predicate NoSeparatorIn(s: string) {
    forall i :: 0 <= i < |s| ==> !IsSeparator(s[i])
  }

  /** `re.split(r',|;', s)`: the pieces between separators, empty ones included. */
  function SplitSeparators(s: string): (parts: seq<string>)
    ensures |parts| >= 1
    ensures forall i :: 0 <= i < |parts| ==> NoSeparatorIn(parts[i])
    decreases |s|
  {
    var n := RunLength(s, 0, NotSeparator);
    assert NoSeparatorIn(s[..n]);
    if n == |s| then [s] else [s[..n]] + SplitSeparators(s[n + 1..])
  }

  /** A token as the list comprehension keeps it: trimmed and non-empty. */
  predicate IsToken(t: string) {
    t != [] && !IsSpace(t[0]) && !IsSpace(t[|t| - 1]) && NoSeparatorIn(t)
  }

  /** `[p.strip() for p in parts if p.strip()]`. */
  function Tokens(parts: seq<string>): (ts: seq<string>)
    requires forall i :: 0 <= i < |parts| ==> NoSeparatorIn(parts[i])
    ensures forall i :: 0 <= i < |ts| ==> IsToken(ts[i])
    ensures |ts| <= |parts|
  {
    if parts == [] then []
    else
      var t := Strip(parts[0]);
      StripKeepsNoSeparator(parts[0]);
      (if t == [] then [] else [t]) + Tokens(parts[1..])
  }

  lemma StripKeepsNoSeparator(s: string)
    requires NoSeparatorIn(s)
    ensures NoSeparatorIn(Strip(s))
  {
    StripIsSlice(s);
    var i, j :| 0 <= i <= j <= |s| && Strip(s) == s[i..j];
    assert forall k :: 0 <= k < j - i ==> s[i..j][k] == s[i + k];
  }

  const SoftKeywords: seq<string> := [
    "коммуникация", "лидерство", "организация", "управление", "ведение переговоров",
    "командная работа", "обучение", "ответственность", "стрессоустойчивость",
    "внимательность", "креативность", "инициативность", "дисциплина"
  ]

  /** `any(word in skill.lower() for word in soft_skills_keywords)`. */
  predicate IsSoft(skill: string) {
    exists k :: 0 <= k < |SoftKeywords| && Contains(LowerStr(skill), SoftKeywords[k])
  }

  function SoftOf(ts: seq<string>): (r: seq<string>)
    ensures forall i :: 0 <= i < |r| ==> IsSoft(r[i]) && r[i] in ts
  {
    if ts == [] then []
    else (if IsSoft(ts[0]) then [ts[0]] else []) + SoftOf(ts[1..])
  }

  function HardOf(ts: seq<string>): (r: seq<string>)
    ensures forall i :: 0 <= i < |r| ==> !IsSoft(r[i]) && r[i] in ts
  {
    if ts == [] then []
    else (if IsSoft(ts[0]) then [] else [ts[0]]) + HardOf(ts[1..])
  }

  /** The tokens of the skills section, in order; none when there is no section. */
  function SkillTokens(text: string): (ts: seq<string>)
    ensures forall i :: 0 <= i < |ts| ==> IsToken(ts[i])
  {
    match SectionBody(text, SkillHeaders)
    case None => []
    case Some(body) => Tokens(SplitSeparators(Squish(body)))
  }

  /** The dictionary `{'Soft Skills': ..., 'Hard Skills': ...}`: both keys are
      always present. */
  datatype SkillBuckets = SkillBuckets(soft: string, hard: string)

  /** `extract_skills(text)`. */
  method ExtractSkills(text: string) returns (skills: SkillBuckets)
    ensures skills == SkillBuckets(Join(SoftOf(SkillTokens(text)), ", "), Join(HardOf(SkillTokens(text)), ", "))
  {
    var skillsList := SkillTokens(text);
    var softSkills: seq<string> := [];
    var hardSkills: seq<string> := [];
    var i := 0;
    while i < |skillsList|
      invariant 0 <= i <= |skillsList|
      invariant softSkills == SoftOf(skillsList[..i])
      invariant hardSkills == HardOf(skillsList[..i])
    {
      FilterStep(skillsList, i);
      if IsSoft(skillsList[i]) {
        softSkills := softSkills + [skillsList[i]];
      } else {
        hardSkills := hardSkills + [skillsList[i]];
      }
      i := i + 1;
    }
    assert skillsList[..i] == skillsList;
    skills := SkillBuckets(Join(softSkills, ", "), Join(hardSkills, ", "));
  }

  // ---------------------------------------------------------------------
  // Properties
  // ---------------------------------------------------------------------

  /** Filtering distributes over concatenation: each bucket keeps the tokens'
      relative order. */
  lemma {:induction false} SoftOfAppend(a: seq<string>, b: seq<string>)
    ensures SoftOf(a + b) == SoftOf(a) + SoftOf(b)
  {
    if a == [] {
      assert a + b == b;
    } else {
      assert (a + b)[0] == a[0] && (a + b)[1..] == a[1..] + b;
      SoftOfAppend(a[1..], b);
    }
  }

  lemma {:induction false} HardOfAppend(a: seq<string>, b: seq<string>)
    ensures HardOf(a + b) == HardOf(a) + HardOf(b)
  {
    if a == [] {
      assert a + b == b;
    } else {
      assert (a + b)[0] == a[0] && (a + b)[1..] == a[1..] + b;
      HardOfAppend(a[1..], b);
    }
  }

  /** One more token goes to exactly one of the buckets. */
  lemma FilterStep(ts: seq<string>, i: nat)
    requires i < |ts|
    ensures SoftOf(ts[..i + 1]) == SoftOf(ts[..i]) + (if IsSoft(ts[i]) then [ts[i]] else [])
    ensures HardOf(ts[..i + 1]) == HardOf(ts[..i]) + (if IsSoft(ts[i]) then [] else [ts[i]])
  {
    SoftOfAppend(ts[..i], [ts[i]]);
    HardOfAppend(ts[..i], [ts[i]]);
    assert ts[..i + 1] == ts[..i] + [ts[i]];
  }

  /** Every token lands in exactly one bucket: together the buckets hold the
      tokens, each as often as it occurs. */
  lemma {:induction false} BucketsPartition(ts: seq<string>)
    ensures multiset(SoftOf(ts)) + multiset(HardOf(ts)) == multiset(ts)
    ensures |SoftOf(ts)| + |HardOf(ts)| == |ts|
  {
    if ts != [] {
      BucketsPartition(ts[1..]);
      assert ts == [ts[0]] + ts[1..];
    }
  }

  /** Splitting a text that holds one more piece and a comma. */
  lemma SplitAtComma(x: string, rest: string)
    requires NoSeparatorIn(x)
    ensures SplitSeparators(x + "," + rest) == [x] + SplitSeparators(rest)
  {
    var s := x + "," + rest;
    assert forall k :: 0 <= k < |x| ==> s[k] == x[k] && NotSeparator(s[k]);
    assert s[|x|] == ',';
    RunLengthIs(s, 0, NotSeparator, |x|);
    assert s[..|x|] == x && s[|x| + 1..] == rest;
  }

  lemma SplitWhole(x: string)
    requires NoSeparatorIn(x)
    ensures SplitSeparators(x) == [x]
  {
    RunLengthIs(x, 0, NotSeparator, |x|);
  }

  lemma TokensCons(x: string, parts: seq<string>)
    requires NoSeparatorIn(x) && forall i :: 0 <= i < |parts| ==> NoSeparatorIn(parts[i])
    ensures Tokens([x] + parts) == (if Strip(x) == [] then [] else [Strip(x)]) + Tokens(parts)
  {
    assert ([x] + parts)[0] == x && ([x] + parts)[1..] == parts;
  }

  /** A bucket as written to the record, split and trimmed again, gives back
      its tokens; `w` is whitespace that may precede it. */
  lemma {:induction false} TokensOfJoin(w: string, b: seq<string>)
    requires AllSpace(w)
    requires forall i :: 0 <= i < |b| ==> IsToken(b[i])
    ensures Tokens(SplitSeparators(w + Join(b, ", "))) == b
    decreases |b|
  {
    if |b| <= 1 {
      TokensOfShortJoin(w, b);
    } else {
      var rest := Join(b[1..], ", ");
      TokensOfJoin(" ", b[1..]);
      TokensOfJoinStep(w, b[0], rest, b[1..]);
      assert Join(b, ", ") == b[0] + ", " + rest;
      assert b == [b[0]] + b[1..];
    }
  }

  /** No token or one token: the text is that token after whitespace. */
  lemma TokensOfShortJoin(w: string, b: seq<string>)
    requires AllSpace(w) && |b| <= 1
    requires forall i :: 0 <= i < |b| ==> IsToken(b[i])
    ensures Tokens(SplitSeparators(w + Join(b, ", "))) == b
  {
    assert NoSeparatorIn(w);
    if b == [] {
      assert w + Join(b, ", ") == w;
      SplitWhole(w);
      TokensCons(w, []);
    } else {
      var head := w + b[0];
      SpacedToken(w, b[0]);
      assert w + Join(b, ", ") == head;
      SplitWhole(head);
      TokensCons(head, []);
    }
  }

  /** A token after whitespace has no separator and strips to the token. */
  lemma SpacedToken(w: string, t: string)
    requires AllSpace(w) && IsToken(t)
    ensures NoSeparatorIn(w + t) && Strip(w + t) == t
  {
    assert NoSeparatorIn(w);
    StripAfterSpaces(w, t);
    StripTrimmed(t);
  }

  /** The first token, then the rest as read back after its ", ". */
  lemma TokensOfJoinStep(w: string, t: string, rest: string, ts: seq<string>)
    requires AllSpace(w) && IsToken(t)
    requires forall i :: 0 <= i < |ts| ==> IsToken(ts[i])
    requires Tokens(SplitSeparators(" " + rest)) == ts
    ensures Tokens(SplitSeparators(w + (t + ", " + rest))) == [t] + ts
  {
    SpacedToken(w, t);
    TokensAfterComma(w + t, " " + rest, t, ts);
    RegroupComma(w, t, rest);
  }

  lemma RegroupComma(w: string, t: string, rest: string)
    ensures w + (t + ", " + rest) == (w + t) + "," + (" " + rest)
  {
  }

  /** A piece that strips to a token, a comma, then text read as `ts`. */
  lemma TokensAfterComma(head: string, tail: string, t: string, ts: seq<string>)
    requires NoSeparatorIn(head) && Strip(head) == t && t != []
    requires Tokens(SplitSeparators(tail)) == ts
    ensures Tokens(SplitSeparators(head + "," + tail)) == [t] + ts
  {
    SplitAtComma(head, tail);
    TokensCons(head, SplitSeparators(tail));
  }

  /** The buckets hold only tokens. */
  lemma {:induction false} BucketsHoldTokens(ts: seq<string>)
    requires forall i :: 0 <= i < |ts| ==> IsToken(ts[i])
    ensures forall i :: 0 <= i < |SoftOf(ts)| ==> IsToken(SoftOf(ts)[i])
    ensures forall i :: 0 <= i < |HardOf(ts)| ==> IsToken(HardOf(ts)[i])
  {
    if ts != [] {
      BucketsHoldTokens(ts[1..]);
    }
  }

  lemma TokensOfBucket(b: seq<string>)
    requires forall i :: 0 <= i < |b| ==> IsToken(b[i])
    ensures Tokens(SplitSeparators(Join(b, ", "))) == b
  {
    assert "" + Join(b, ", ") == Join(b, ", ");
    TokensOfJoin("", b);
  }

  /** So each bucket in the record splits back into exactly its tokens. */
  lemma BucketsRoundTrip(ts: seq<string>)
    requires forall i :: 0 <= i < |ts| ==> IsToken(ts[i])
    ensures Tokens(SplitSeparators(Join(SoftOf(ts), ", "))) == SoftOf(ts)
    ensures Tokens(SplitSeparators(Join(HardOf(ts), ", "))) == HardOf(ts)
  {
    BucketsHoldTokens(ts);
    TokensOfBucket(SoftOf(ts));
    TokensOfBucket(HardOf(ts));
  }
}
