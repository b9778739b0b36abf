/**
 * The search service's per-user session and result selection (app.py:44-51,
 * 93-115, 131-187): the search history, a front-inserted list of at most ten
 * entries with delete-by-index; the favourites, a list of candidate ids kept
 * free of duplicates; and the selection of matching candidates (threshold,
 * stable sort by descending percentage, first twenty).  The Flask session
 * becomes an object whose two fields are the `history` and `favorites` keys,
 * `None` while the key is absent.  The similarity scores and their rounded
 * percentages come in as values.
 */
module App {
  import opened Wrappers
  import opened Text

  // ---------------------------------------------------------------------
  // Values
  // ---------------------------------------------------------------------

  /** One entry of the result list: `{'FИО': …, 'id': …, 'score': …}`. */
  datatype Match = Match(name: string, id: string, score: real)

  /** One entry of the search history: `{'query': …, 'candidates': …}`. */
  datatype Entry = Entry(query: string, candidates: seq<Match>)

  /** What a route answers with: a JSON status, a JSON error with its HTTP
      code, or an exception Flask turns into a server error. */
  datatype Reply = Status(status: string) | Error(message: string, code: nat) | Uncaught

  /** The `query` member of the search request's JSON body: absent (or no
      body at all), a string, or any other JSON value. */
  datatype Query = NoQuery | QueryText(text: string) | QueryOther

  /** How the search answers: `abort(400)`, an exception Flask turns into a
      server error, or the result list. */
  datatype SearchReply = BadRequest | Crashed | Found(matches: seq<Match>)

  /** The fields of a stored resume the selection reads. */
  datatype Resume = Resume(fullName: Option<string>, id: Option<int>)

  /** A resume with its cosine similarity to the query and the percentage
      `round(similarity * 100, 2)` shown for it. */
  datatype Scored = Scored(resume: Resume, similarity: real, percent: real)

  const HistoryLimit: nat := 10
  const ResultLimit: nat := 20
  const Threshold: real := 0.60
  const UnknownName: string := "Неизвестный кандидат"

  // ---------------------------------------------------------------------
  // Lists
  // ---------------------------------------------------------------------

  predicate Distinct<T(==)>(s: seq<T>) {
    forall i, j :: 0 <= i < j < |s| ==> s[i] != s[j]
  }

  /** `s` without its element at `j`, the rest in order. */
  function Removed<T>(s: seq<T>, j: nat): (r: seq<T>)
    requires j < |s|
    ensures |r| == |s| - 1
    ensures forall k :: 0 <= k < j ==> r[k] == s[k]
    ensures forall k :: j <= k < |r| ==> r[k] == s[k + 1]
  {
    s[..j] + s[j + 1..]
  }

  /** `h.insert(0, e)` followed by `h[:10]`: the new entry first, then the
      previous first (at most nine) entries in their order. */
  function AfterSave(h: seq<Entry>, e: Entry): (r: seq<Entry>)
    ensures |r| == if |h| < HistoryLimit then |h| + 1 else HistoryLimit
    ensures r[0] == e
    ensures r[1..] == h[..|r| - 1]
  {
    var all := [e] + h;
    var r := all[..if |all| < HistoryLimit then |all| else HistoryLimit];
    assert r[1..] == h[..|r| - 1];
    r
  }

  /** What `list.pop(index)` does on a list of length `n`. */
  datatype Pop = Popped(at: nat) | IndexError | OverflowError

  /** The least and the bound above the largest `Py_ssize_t`, the C type
      `list.pop` converts its argument to. */
  const SsizeMin: int := -0x8000_0000_0000_0000
  const SsizeBound: int := 0x8000_0000_0000_0000

  /** `list.pop(index)` on a list of length `n`: an index that does not fit
      a `Py_ssize_t` raises `OverflowError`; a negative index counts from
      the end; anything else outside `-n .. n-1` raises `IndexError`. */
  function PopIndex(n: nat, index: int): (r: Pop)
    ensures r.OverflowError? <==> !(SsizeMin <= index < SsizeBound)
    ensures r.Popped? <==> SsizeMin <= index < SsizeBound && -(n as int) <= index < n
    ensures r.Popped? ==> r.at < n && (r.at == index || r.at == n + index)
  {
    if !(SsizeMin <= index < SsizeBound) then OverflowError
    else if 0 <= index < n then Popped(index)
    else if -(n as int) <= index < 0 then Popped(n + index)
    else IndexError
  }

  /** The position of the first `x` in `s`. */
  function FirstIndex<T(==)>(s: seq<T>, x: T): (j: nat)
    requires x in s
    ensures j < |s| && s[j] == x && x !in s[..j]
  {
    if s[0] == x then 0 else FirstIndex(s[1..], x) + 1
  }

  /** The favourites after `add_favorite`: the id is appended when it is not
      empty and not yet there. */
  function AddedTo(favorites: seq<string>, id: string): (r: seq<string>)
    ensures forall x :: x in r <==> x in favorites || (x == id && id != [])
    ensures |favorites| <= |r| <= |favorites| + 1
    ensures r[..|favorites|] == favorites
  {
    if id != [] && id !in favorites then favorites + [id] else favorites
  }

  /** The favourites after `remove_favorite`. */
  function RemovedFrom(favorites: seq<string>, id: string): (r: seq<string>)
    ensures id !in favorites ==> r == favorites
    ensures id in favorites ==> |r| == |favorites| - 1
    ensures multiset(r) == multiset(favorites) - multiset{id}
  {
    if id in favorites then
      var j := FirstIndex(favorites, id);
      assert favorites == favorites[..j] + [id] + favorites[j + 1..];
      Removed(favorites, j)
    else favorites
  }

  /** `str(request.form.get('candidate_id'))`: a missing field reads "None". */
  function IdText(field: Option<string>): (s: string)
    ensures field.Some? ==> s == field.value
    ensures field.None? ==> s != []
  {
    match field
    case Some(v) => v
    case None => "None"
  }

  // ---------------------------------------------------------------------
  // Result selection
  // ---------------------------------------------------------------------

  /** `candidate.get('ФИО') or "Неизвестный кандидат"`. */
  function NameOf(r: Resume): (name: string)
    ensures name != []
    ensures r.fullName.Some? && r.fullName.value != [] ==> name == r.fullName.value
    ensures r.fullName.None? || r.fullName.value == [] ==> name == UnknownName
  {
    if r.fullName.Some? && r.fullName.value != [] then r.fullName.value else UnknownName
  }

  /** `str(candidate.get('id'))`. */
  function IdOf(r: Resume): string {
    match r.id
    case Some(n) => IntToString(n)
    case None => "None"
  }

  /** The entry the loop appends for a resume. */
  function MatchOf(x: Scored): Match {
    Match(NameOf(x.resume), IdOf(x.resume), x.percent)
  }

  /** The loop over the scores: an entry for every resume whose similarity
      reaches the threshold, in the order of the resumes. */
  function Selected(xs: seq<Scored>): (ms: seq<Match>)
    ensures |ms| <= |xs|
    ensures forall x :: x in xs && x.similarity >= Threshold ==> MatchOf(x) in ms
    ensures forall m :: m in ms ==> exists x :: x in xs && x.similarity >= Threshold && m == MatchOf(x)
    decreases |xs|
  {
    if xs == [] then []
    else
      var n := |xs| - 1;
      var prior := Selected(xs[..n]);
      assert forall x :: x in xs ==> x in xs[..n] || x == xs[n];
      assert forall x :: x in xs[..n] ==> x in xs;
      if xs[n].similarity >= Threshold then prior + [MatchOf(xs[n])] else prior
  }

  /** Non-increasing by score. */
  predicate SortedDesc(ms: seq<Match>) {
    forall i, j :: 0 <= i < j < |ms| ==> ms[i].score >= ms[j].score
  }

  /** The entries of `ms` whose score is `v`, in order. */
  function WithScore(ms: seq<Match>, v: real): seq<Match>
    decreases |ms|
  {
    if ms == [] then []
    else (if ms[0].score == v then [ms[0]] else []) + WithScore(ms[1..], v)
  }

  /** `m` placed into the sorted `ms` after every entry whose score is not
      lower than its own. */
  function Insert(ms: seq<Match>, m: Match): (r: seq<Match>)
    ensures multiset(r) == multiset(ms) + multiset{m}
    decreases |ms|
  {
    if ms == [] then [m]
    else if ms[0].score >= m.score then
      assert ms == [ms[0]] + ms[1..];
      [ms[0]] + Insert(ms[1..], m)
    else [m] + ms
  }

  /** `list.sort(key=lambda x: x['score'], reverse=True)`: a stable sort by
      descending score (equal scores keep their order). */
  function SortDesc(ms: seq<Match>): (r: seq<Match>)
    ensures multiset(r) == multiset(ms)
    decreases |ms|
  {
    if ms == [] then []
    else
      assert ms == ms[..|ms| - 1] + [ms[|ms| - 1]];
      Insert(SortDesc(ms[..|ms| - 1]), ms[|ms| - 1])
  }

  /** `matching_candidates[:20]`. */
  function Top(ms: seq<Match>): (r: seq<Match>)
    ensures |r| == if |ms| <= ResultLimit then |ms| else ResultLimit
    ensures r == ms[..|r|]
    ensures |ms| <= ResultLimit ==> r == ms
  {
    if |ms| <= ResultLimit then ms else ms[..ResultLimit]
  }

  /** The result list the search answers with and saves. */
  function SearchResult(xs: seq<Scored>): (r: seq<Match>)
    ensures |r| == if |Selected(xs)| <= ResultLimit then |Selected(xs)| else ResultLimit
  {
    assert |multiset(SortDesc(Selected(xs)))| == |multiset(Selected(xs))|;
    Top(SortDesc(Selected(xs)))
  }

  /** The loop of `index` that appends every resume over the threshold. */
  method SelectMatches(xs: seq<Scored>) returns (matching: seq<Match>)
    ensures matching == Selected(xs)
  {
    matching := [];
    for i := 0 to |xs|
      invariant matching == Selected(xs[..i])
    {
      assert xs[..i + 1][..i] == xs[..i];
      if xs[i].similarity >= Threshold {
        matching := matching + [MatchOf(xs[i])];
      }
    }
    assert xs[..|xs|] == xs;
  }

  // ---------------------------------------------------------------------
  // The session
  // ---------------------------------------------------------------------

  class Session {
    /** `session['history']`, None while the key is absent. */
    var history: Option<seq<Entry>>
    /** `session['favorites']`, None while the key is absent. */
    var favorites: Option<seq<string>>

    /** A new session holds neither key. */
    constructor ()
      ensures history == None && favorites == None
    {
      history := None;
      favorites := None;
    }

    /** `save_search_history(query, candidates)`. */
    method SaveSearchHistory(query: string, candidates: seq<Match>)
      modifies this
      ensures history == Some(AfterSave(if old(history).Some? then old(history).value else [], Entry(query, candidates)))
      ensures favorites == old(favorites)
    {
      var h := if history.Some? then history.value else [];
      history := Some(AfterSave(h, Entry(query, candidates)));
    }

    /** The POST branch of `index`: a body without a `query` member is
        refused with 400; a `query` that is not a string (null, a number, a
        list) makes `.lower()` raise; otherwise the lower-cased query is
        scored, the matches selected, sorted and cut to twenty, and the query
        saved with its result. */
    method Search(query: Query, xs: seq<Scored>) returns (reply: SearchReply)
      modifies this
      ensures query.NoQuery? ==> reply == BadRequest && history == old(history)
      ensures query.QueryOther? ==> reply == Crashed && history == old(history)
      ensures query.QueryText? ==> reply == Found(SearchResult(xs))
      ensures query.QueryText? ==> history == Some(AfterSave(if old(history).Some? then old(history).value else [],
                                                             Entry(LowerStr(query.text), SearchResult(xs))))
      ensures favorites == old(favorites)
    {
      if query.NoQuery? {
        return BadRequest;
      }
      if query.QueryOther? {
        return Crashed;
      }
      var matching := SelectMatches(xs);
      matching := SortDesc(matching);
      var top := Top(matching);
      SaveSearchHistory(LowerStr(query.text), top);
      reply := Found(top);
    }

    /** `delete_history` with the form's `index` (None when it is missing or
        not an integer, so that `pop(None)` raises `TypeError`).  Neither that
        error nor the `OverflowError` of an index too large for `Py_ssize_t`
        is an `IndexError`, so the route does not catch them. */
    method DeleteHistory(index: Option<int>) returns (reply: Reply)
      modifies this
      ensures old(history).None? ==> reply == Error("No history found", 400) && history == old(history)
      ensures old(history).Some? && index.None? ==> reply == Uncaught && history == old(history)
      ensures old(history).Some? && index.Some? ==>
        match PopIndex(|old(history).value|, index.value)
        case Popped(j) => reply == Status("success") && history == Some(Removed(old(history).value, j))
        case IndexError => reply == Error("Invalid index", 400) && history == old(history)
        case OverflowError => reply == Uncaught && history == old(history)
      ensures favorites == old(favorites)
    {
      if history.None? {
        return Error("No history found", 400);
      }
      if index.None? {
        return Uncaught;
      }
      var h := history.value;
      var j := PopIndex(|h|, index.value);
      if j.OverflowError? {
        return Uncaught;
      }
      if j.IndexError? {
        return Error("Invalid index", 400);
      }
      history := Some(Removed(h, j.at));
      reply := Status("success");
    }

    /** `add_favorite` with the form's `candidate_id` field. */
    method AddFavorite(field: Option<string>) returns (reply: Reply)
      modifies this
      ensures reply == Status("added")
      ensures favorites == Some(AddedTo(if old(favorites).Some? then old(favorites).value else [], IdText(field)))
      ensures history == old(history)
    {
      var id := IdText(field);
      if favorites.None? {
        favorites := Some([]);
      }
      var f := favorites.value;
      if id != [] && id !in f {
        favorites := Some(f + [id]);
      }
      reply := Status("added");
    }

    /** `remove_favorite` with the form's `candidate_id` field. */
    method RemoveFavorite(field: Option<string>) returns (reply: Reply)
      modifies this
      ensures reply == Status("removed")
      ensures old(favorites).None? ==> favorites == None
      ensures old(favorites).Some? ==> favorites == Some(RemovedFrom(old(favorites).value, IdText(field)))
      ensures history == old(history)
    {
      var id := IdText(field);
      if favorites.Some? && id in favorites.value {
        favorites := Some(RemovedFrom(favorites.value, id));
      }
      reply := Status("removed");
    }
  }

  // ---------------------------------------------------------------------
  // Properties
  // ---------------------------------------------------------------------

  /** Saving never lets the history grow past ten entries. */
  lemma HistoryStaysBounded(h: seq<Entry>, e: Entry)
    requires |h| <= HistoryLimit
    ensures |AfterSave(h, e)| <= HistoryLimit
    ensures |AfterSave(h, e)| == |h| + 1 || |h| == HistoryLimit
  {
  }

  /** Deleting the entry just saved gives back the history as it was, as long
      as nothing fell off the end. */
  lemma SaveThenDeleteFirst(h: seq<Entry>, e: Entry)
    requires |h| < HistoryLimit
    ensures PopIndex(|AfterSave(h, e)|, 0) == Popped(0)
    ensures Removed(AfterSave(h, e), 0) == h
  {
    var r := AfterSave(h, e);
    assert r[1..] == h;
  }

  /** `pop(-1)` removes the oldest entry. */
  lemma PopLastIsOldest(h: seq<Entry>)
    requires h != []
    ensures PopIndex(|h|, -1) == Popped(|h| - 1)
    ensures Removed(h, |h| - 1) == h[..|h| - 1]
  {
  }

  /** Adding keeps the favourites free of duplicates. */
  lemma AddKeepsDistinct(f: seq<string>, id: string)
    requires Distinct(f)
    ensures Distinct(AddedTo(f, id))
  {
    if id != [] && id !in f {
      var r := f + [id];
      forall i, j | 0 <= i < j < |r|
        ensures r[i] != r[j]
      {
        if j == |f| {
          assert r[i] == f[i];
        }
      }
    }
  }

  /** Adding the same id twice is adding it once. */
  lemma AddIdempotent(f: seq<string>, id: string)
    ensures AddedTo(AddedTo(f, id), id) == AddedTo(f, id)
  {
    if id != [] && id !in f {
      assert id in f + [id];
    }
  }

  /** Taking one element out of a list without duplicates leaves a list
      without duplicates that no longer holds that element. */
  lemma RemovedDistinct<T>(s: seq<T>, j: nat)
    requires j < |s| && Distinct(s)
    ensures Distinct(Removed(s, j))
    ensures s[j] !in Removed(s, j)
  {
    var r := Removed(s, j);
    forall a, b | 0 <= a < b < |r|
      ensures r[a] != r[b]
    {
      var a' := if a < j then a else a + 1;
      var b' := if b < j then b else b + 1;
      assert r[a] == s[a'] && r[b] == s[b'] && a' < b';
    }
    forall k | 0 <= k < |r|
      ensures r[k] != s[j]
    {
      var k' := if k < j then k else k + 1;
      assert r[k] == s[k'] && k' != j;
    }
  }

  /** Removing keeps the favourites free of duplicates, and a removed id is
      gone from a list without duplicates. */
  lemma RemoveKeepsDistinct(f: seq<string>, id: string)
    requires Distinct(f)
    ensures Distinct(RemovedFrom(f, id))
    ensures id !in RemovedFrom(f, id)
  {
    if id in f {
      RemovedDistinct(f, FirstIndex(f, id));
    }
  }

  /** Adding an id that was not there and removing it again gives back the
      favourites as they were. */
  lemma AddThenRemove(f: seq<string>, id: string)
    requires id !in f
    ensures RemovedFrom(AddedTo(f, id), id) == f
  {
    if id != [] {
      var g := f + [id];
      assert id in g;
      assert g[..|f|] == f;
      assert FirstIndex(g, id) == |f|;
    }
  }

  /** Inserting into a list sorted by descending score keeps it sorted. */
  lemma {:induction false} InsertSorted(ms: seq<Match>, m: Match)
    requires SortedDesc(ms)
    ensures SortedDesc(Insert(ms, m))
    decreases |ms|
  {
    if ms != [] && ms[0].score >= m.score {
      var t := Insert(ms[1..], m);
      InsertSorted(ms[1..], m);
      forall k | 0 <= k < |t|
        ensures ms[0].score >= t[k].score
      {
        assert t[k] in multiset(ms[1..]) + multiset{m};
        if t[k] != m {
          var i :| 0 <= i < |ms[1..]| && ms[1..][i] == t[k];
          assert ms[i + 1] == t[k];
        }
      }
      InsertHead(ms[0], t);
    } else if ms != [] {
      InsertHead(m, ms);
    }
  }

  /** A head not lower than every entry of a sorted tail gives a sorted list. */
  lemma InsertHead(h: Match, t: seq<Match>)
    requires SortedDesc(t)
    requires forall k :: 0 <= k < |t| ==> h.score >= t[k].score
    ensures SortedDesc([h] + t)
  {
    var r := [h] + t;
    forall i, j | 0 <= i < j < |r|
      ensures r[i].score >= r[j].score
    {
      assert r[j] == t[j - 1];
      if i > 0 {
        assert r[i] == t[i - 1];
      }
    }
  }

  /** One step of `WithScore`. */
  lemma WithScoreCons(h: Match, t: seq<Match>, v: real)
    ensures WithScore([h] + t, v) == (if h.score == v then [h] else []) + WithScore(t, v)
  {
    assert ([h] + t)[1..] == t;
  }

  lemma {:induction false} WithScoreAppend(a: seq<Match>, b: seq<Match>, v: real)
    ensures WithScore(a + b, v) == WithScore(a, v) + WithScore(b, v)
    decreases |a|
  {
    if a == [] {
      assert a + b == b;
    } else {
      var c := if a[0].score == v then [a[0]] else [];
      calc {
        WithScore(a + b, v);
        { assert a + b == [a[0]] + (a[1..] + b); }
        WithScore([a[0]] + (a[1..] + b), v);
        { WithScoreCons(a[0], a[1..] + b, v); }
        c + WithScore(a[1..] + b, v);
        { WithScoreAppend(a[1..], b, v); }
        c + (WithScore(a[1..], v) + WithScore(b, v));
        (c + WithScore(a[1..], v)) + WithScore(b, v);
        { WithScoreCons(a[0], a[1..], v); assert [a[0]] + a[1..] == a; }
        WithScore(a, v) + WithScore(b, v);
      }
    }
  }

  lemma {:induction false} WithScoreNone(ms: seq<Match>, v: real)
    requires forall k :: 0 <= k < |ms| ==> ms[k].score != v
    ensures WithScore(ms, v) == []
    decreases |ms|
  {
    if ms != [] {
      WithScoreNone(ms[1..], v);
    }
  }

  /** A tail of a sorted list is sorted. */
  lemma SortedTail(ms: seq<Match>)
    requires ms != [] && SortedDesc(ms)
    ensures SortedDesc(ms[1..])
    ensures forall k :: 0 <= k < |ms| ==> ms[k].score <= ms[0].score
  {
  }

  /** The entries of one score in a one-entry list. */
  lemma WithScoreSingle(m: Match, v: real)
    ensures WithScore([m], v) == if m.score == v then [m] else []
  {
    assert [m][1..] == [];
  }

  /** Inserting `m` into a sorted list adds it after every entry of the same
      score: the entries of each score keep their order, `m` last. */
  lemma {:induction false} InsertWithScore(ms: seq<Match>, m: Match, v: real)
    requires SortedDesc(ms)
    ensures WithScore(Insert(ms, m), v) == WithScore(ms, v) + WithScore([m], v)
    decreases |ms|
  {
    if ms == [] {
      WithScoreSingle(m, v);
    } else if ms[0].score >= m.score {
      SortedTail(ms);
      InsertWithScore(ms[1..], m, v);
      InsertPast(ms, m, v);
    } else {
      SortedTail(ms);
      InsertBelow(ms, m, v);
    }
  }

  /** An entry that `Insert` walks past keeps its place before the inserted
      one. */
  lemma InsertPast(ms: seq<Match>, m: Match, v: real)
    requires ms != [] && ms[0].score >= m.score
    requires WithScore(Insert(ms[1..], m), v) == WithScore(ms[1..], v) + WithScore([m], v)
    ensures WithScore(Insert(ms, m), v) == WithScore(ms, v) + WithScore([m], v)
  {
    var t := Insert(ms[1..], m);
    var c := if ms[0].score == v then [ms[0]] else [];
    calc {
      WithScore(Insert(ms, m), v);
      { assert Insert(ms, m) == [ms[0]] + t; }
      WithScore([ms[0]] + t, v);
      { WithScoreCons(ms[0], t, v); }
      c + WithScore(t, v);
      c + (WithScore(ms[1..], v) + WithScore([m], v));
      (c + WithScore(ms[1..], v)) + WithScore([m], v);
      { WithScoreCons(ms[0], ms[1..], v); assert [ms[0]] + ms[1..] == ms; }
      WithScore(ms, v) + WithScore([m], v);
    }
  }

  /** An entry scoring above every entry of the list goes first, and still
      comes after every entry of its own score. */
  lemma InsertBelow(ms: seq<Match>, m: Match, v: real)
    requires ms != [] && ms[0].score < m.score
    requires forall k :: 0 <= k < |ms| ==> ms[k].score <= ms[0].score
    ensures WithScore(Insert(ms, m), v) == WithScore(ms, v) + WithScore([m], v)
  {
    assert Insert(ms, m) == [m] + ms;
    WithScoreAppend([m], ms, v);
    WithScoreSingle(m, v);
    if v == m.score {
      WithScoreNone(ms, v);
    }
  }

  /** The sort's result is ordered by descending score and holds the same
      entries. */
  lemma {:induction false} SortDescSorted(ms: seq<Match>)
    ensures SortedDesc(SortDesc(ms))
    ensures multiset(SortDesc(ms)) == multiset(ms)
    decreases |ms|
  {
    if ms != [] {
      var n := |ms| - 1;
      var init := ms[..n];
      SortDescSorted(init);
      InsertSorted(SortDesc(init), ms[n]);
      assert SortDesc(ms) == Insert(SortDesc(init), ms[n]);
    }
  }

  /** The sort keeps the entries of each score in their original order. */
  lemma {:induction false} SortDescStable(ms: seq<Match>, v: real)
    ensures WithScore(SortDesc(ms), v) == WithScore(ms, v)
    decreases |ms|
  {
    if ms != [] {
      var n := |ms| - 1;
      var init := ms[..n];
      var sorted := SortDesc(init);
      calc {
        WithScore(SortDesc(ms), v);
        WithScore(Insert(sorted, ms[n]), v);
        { SortDescSorted(init); InsertWithScore(sorted, ms[n], v); }
        WithScore(sorted, v) + WithScore([ms[n]], v);
        { SortDescStable(init, v); }
        WithScore(init, v) + WithScore([ms[n]], v);
        { WithScoreAppend(init, [ms[n]], v); }
        WithScore(init + [ms[n]], v);
        { assert init + [ms[n]] == ms; }
        WithScore(ms, v);
      }
    }
  }

  /** `list.sort(key=…, reverse=True)` is a stable sort: its result is ordered
      by descending score, holds the same entries, and keeps the entries of
      each score in their original order. */
  lemma SortDescCorrect(ms: seq<Match>)
    ensures SortedDesc(SortDesc(ms))
    ensures multiset(SortDesc(ms)) == multiset(ms)
    ensures forall v :: WithScore(SortDesc(ms), v) == WithScore(ms, v)
  {
    SortDescSorted(ms);
    forall v
      ensures WithScore(SortDesc(ms), v) == WithScore(ms, v)
    {
      SortDescStable(ms, v);
    }
  }

  /** Cutting a descending list to twenty leaves out nothing that scores
      higher than what it keeps. */
  lemma TopKeepsBest(ms: seq<Match>)
    requires SortedDesc(ms)
    ensures forall k, m :: k in Top(ms) && m in multiset(ms) - multiset(Top(ms)) ==> k.score >= m.score
  {
    var r := Top(ms);
    var rest := ms[|r|..];
    assert ms == r + rest;
    assert multiset(ms) - multiset(r) == multiset(rest);
    forall k, m | k in r && m in rest
      ensures k.score >= m.score
    {
      var i :| 0 <= i < |r| && r[i] == k;
      var j :| 0 <= j < |rest| && rest[j] == m;
      assert ms[i] == k && ms[|r| + j] == m;
    }
  }

  /** The entries of one score that the cut keeps are the first ones of
      that score. */
  lemma TopWithScore(ms: seq<Match>, v: real)
    ensures WithScore(Top(ms), v) <= WithScore(ms, v)
  {
    var r := Top(ms);
    assert ms == r + ms[|r|..];
    WithScoreAppend(r, ms[|r|..], v);
  }

  /** What the search answers: the first twenty matches at most, best first,
      each one a resume over the threshold; and with at most twenty matches,
      every match over the threshold. */
  lemma SearchResultCorrect(xs: seq<Scored>)
    ensures |SearchResult(xs)| == if |Selected(xs)| <= ResultLimit then |Selected(xs)| else ResultLimit
    ensures SortedDesc(SearchResult(xs))
    ensures forall m :: m in SearchResult(xs) ==>
      exists x :: x in xs && x.similarity >= Threshold && m == MatchOf(x)
    ensures |Selected(xs)| <= ResultLimit ==>
      forall x :: x in xs && x.similarity >= Threshold ==> MatchOf(x) in SearchResult(xs)
  {
    var sel := Selected(xs);
    var sorted := SortDesc(sel);
    SortDescCorrect(sel);
    var r := Top(sorted);
    forall m | m in r
      ensures m in sel
    {
      assert m in sorted;
      assert m in multiset(sorted);
    }
    if |sel| <= ResultLimit {
      forall x | x in xs && x.similarity >= Threshold
        ensures MatchOf(x) in r
      {
        assert MatchOf(x) in multiset(sel);
      }
    }
  }

  /** No match the search leaves out scores higher than one it keeps. */
  lemma SearchResultKeepsBest(xs: seq<Scored>)
    ensures forall k, m :: k in SearchResult(xs) && m in multiset(Selected(xs)) - multiset(SearchResult(xs)) ==>
      k.score >= m.score
  {
    var sel := Selected(xs);
    SortDescSorted(sel);
    TopKeepsBest(SortDesc(sel));
  }

  /** Among matches of equal score, the search keeps the first ones in the
      order of the resumes. */
  lemma SearchResultStable(xs: seq<Scored>, v: real)
    ensures WithScore(SearchResult(xs), v) <= WithScore(Selected(xs), v)
  {
    var sel := Selected(xs);
    SortDescStable(sel, v);
    TopWithScore(SortDesc(sel), v);
  }
}
