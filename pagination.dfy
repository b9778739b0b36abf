/**
 * The browser side of the search page (static/js/script.js): the paging
 * state kept by the page script (`allCandidates`, `currentPage`,
 * `totalPages`), the page slice it renders, the previous/next handlers, the
 * disabled state of the two buttons, and the favourite toggle on the
 * profile page.  The page script becomes an object whose fields are its
 * closure variables plus the part of the page they decide: the entries
 * rendered, whether the "no candidates" warning and the pagination bar are
 * shown, and whether each button carries the `disabled` class.
 */
module Pagination {
  import opened Wrappers
  import App

  /** `candidatesPerPage`. */
  const PerPage: nat := 5

  /** The characters `String.prototype.trim` removes: the ECMAScript white
      space and line terminators. */
  predicate IsJsSpace(c: char) {
    || ('\t' <= c <= '\r')              // \t \n \v \f \r
    || c == ' ' || c == '\U{A0}' || c == '\U{1680}'
    || ('\U{2000}' <= c <= '\U{200A}')
    || c == '\U{2028}' || c == '\U{2029}' || c == '\U{202F}'
    || c == '\U{205F}' || c == '\U{3000}' || c == '\U{FEFF}'
  }

  /** `query.trim() === ''`. */
  predicate Blank(query: string) {
    forall i :: 0 <= i < |query| ==> IsJsSpace(query[i])
  }

  /** `Math.ceil(n / candidatesPerPage)`: the fewest pages of five that hold
      `n` entries. */
  function TotalPages(n: nat): (pages: nat)
    ensures pages * PerPage >= n
    ensures pages == 0 || (pages - 1) * PerPage < n
    ensures pages == 0 <==> n == 0
  {
    (n + PerPage - 1) / PerPage
  }

  /** `Array.prototype.slice(start, end)`: negative bounds count from the end,
      both bounds are clipped to the array, and an end before the start gives
      nothing. */
  function Slice<T>(s: seq<T>, start: int, end: int): (r: seq<T>)
    ensures |r| <= |s|
    ensures 0 <= start <= end <= |s| ==> r == s[start..end]
    ensures 0 <= start && |s| <= end ==> r == s[if start <= |s| then start else |s|..]
  {
    var lo := if start < 0 then (if |s| + start < 0 then 0 else |s| + start)
              else if start > |s| then |s| else start;
    var hi := if end < 0 then (if |s| + end < 0 then 0 else |s| + end)
              else if end > |s| then |s| else end;
    if lo < hi then s[lo..hi] else []
  }

  /** The entries `displayCurrentPage` renders for page `page`. */
  function PageSlice<T>(all: seq<T>, page: int): (r: seq<T>)
    ensures |r| <= PerPage
    ensures page >= 1 && (page - 1) * PerPage >= |all| ==> r == []
    ensures page >= 1 && (page - 1) * PerPage < |all| ==>
      r == all[(page - 1) * PerPage .. if page * PerPage <= |all| then page * PerPage else |all|]
  {
    var start := (page - 1) * PerPage;
    Slice(all, start, start + PerPage)
  }

  /** The pages the two buttons can reach: from the first to the last, or
      only the first while there are no pages. */
  predicate InRange(page: int, total: int) {
    1 <= page && (page <= total || page == 1)
  }

  /** The previous-page handler: one page back unless on the first. */
  function PrevOf(page: int): (p: int)
    ensures page > 1 ==> p == page - 1
    ensures page <= 1 ==> p == page
  {
    if page > 1 then page - 1 else page
  }

  /** The next-page handler: one page on unless on the last. */
  function NextOf(page: int, total: int): (p: int)
    ensures page < total ==> p == page + 1
    ensures page >= total ==> p == page
  {
    if page < total then page + 1 else page
  }

  /** What `displayCurrentPage` leaves in the results list. */
  datatype View = Hidden | Warning | Listing(entries: seq<App.Match>)

  /** The page script of the search page. */
  class SearchPage {
    var allCandidates: seq<App.Match>
    var currentPage: int
    var totalPages: int
    /** The results list and whether the results section is visible. */
    var view: View
    /** Whether the pagination bar is shown. */
    var paginationShown: bool
    var prevDisabled: bool
    var nextDisabled: bool

    /** The page numbers stay within the pages the results have. */
    predicate Valid()
      reads this
    {
      InRange(currentPage, totalPages)
    }

    /** The closure variables as the script declares them, nothing rendered. */
    constructor ()
      ensures allCandidates == [] && currentPage == 1 && totalPages == 1
      ensures view == Hidden && !paginationShown
      ensures !prevDisabled && !nextDisabled
      ensures Valid()
    {
      allCandidates := [];
      currentPage := 1;
      totalPages := 1;
      view := Hidden;
      paginationShown := false;
      prevDisabled := false;
      nextDisabled := false;
    }

    /** The click on "Найти": a blank query is refused with an alert; any
        other resets the paging to the first page and sends the request. */
    method StartSearch(query: string) returns (sent: bool)
      modifies this
      ensures sent <==> !Blank(query)
      ensures currentPage == if sent then 1 else old(currentPage)
      ensures allCandidates == old(allCandidates) && totalPages == old(totalPages)
      ensures view == old(view) && paginationShown == old(paginationShown)
      ensures prevDisabled == old(prevDisabled) && nextDisabled == old(nextDisabled)
      ensures old(Valid()) ==> Valid()
    {
      sent := false;
      var i := 0;
      while i < |query|
        invariant 0 <= i <= |query|
        invariant forall k :: 0 <= k < i ==> IsJsSpace(query[k])
      {
        if !IsJsSpace(query[i]) {
          sent := true;
          break;
        }
        i := i + 1;
      }
      if sent {
        currentPage := 1;
      }
    }

    /** `displayCurrentPage`: the warning without pagination when there are
        no candidates, otherwise the entries of the current page with the
        pagination bar. */
    method DisplayCurrentPage()
      modifies this
      ensures allCandidates == [] ==> view == Warning && !paginationShown
      ensures allCandidates != [] ==>
        view == Listing(PageSlice(allCandidates, currentPage)) && paginationShown
      ensures allCandidates == old(allCandidates) && currentPage == old(currentPage)
      ensures totalPages == old(totalPages)
      ensures prevDisabled == old(prevDisabled) && nextDisabled == old(nextDisabled)
    {
      if |allCandidates| == 0 {
        view := Warning;
        paginationShown := false;
        return;
      }
      var startIndex := (currentPage - 1) * PerPage;
      var endIndex := startIndex + PerPage;
      view := Listing(Slice(allCandidates, startIndex, endIndex));
      paginationShown := true;
    }

    /** `updatePaginationControls`. */
    method UpdatePaginationControls()
      modifies this
      ensures prevDisabled <==> currentPage <= 1
      ensures nextDisabled <==> currentPage >= totalPages
      ensures allCandidates == old(allCandidates) && currentPage == old(currentPage)
      ensures totalPages == old(totalPages)
      ensures view == old(view) && paginationShown == old(paginationShown)
    {
      prevDisabled := currentPage <= 1;
      nextDisabled := currentPage >= totalPages;
    }

    /** The response handler as written: it takes the candidates and the page
        count but keeps whatever `currentPage` the buttons left since the
        click. */
    method ReceiveResultsAsWritten(candidates: seq<App.Match>)
      modifies this
      ensures allCandidates == candidates && totalPages == TotalPages(|candidates|)
      ensures currentPage == old(currentPage)
      ensures candidates != [] ==>
        view == Listing(PageSlice(candidates, currentPage)) && paginationShown
      ensures candidates == [] ==> view == Warning && !paginationShown
      ensures prevDisabled <==> currentPage <= 1
      ensures nextDisabled <==> currentPage >= totalPages
    {
      allCandidates := candidates;
      totalPages := TotalPages(|candidates|);
      DisplayCurrentPage();
      UpdatePaginationControls();
    }

    /** The response handler with the reset moved to the arrival of the
        results: the first page of the new results is shown. */
    method ReceiveResults(candidates: seq<App.Match>)
      modifies this
      ensures allCandidates == candidates && totalPages == TotalPages(|candidates|)
      ensures currentPage == 1 && Valid()
      ensures candidates != [] ==>
        view == Listing(PageSlice(candidates, 1)) && paginationShown
      ensures candidates == [] ==> view == Warning && !paginationShown
      ensures prevDisabled && (nextDisabled <==> |candidates| <= PerPage)
    {
      allCandidates := candidates;
      totalPages := TotalPages(|candidates|);
      currentPage := 1;
      DisplayCurrentPage();
      UpdatePaginationControls();
    }

    /** The previous-page button. */
    method PrevPage()
      modifies this
      ensures currentPage == PrevOf(old(currentPage))
      ensures old(currentPage) > 1 ==>
        (allCandidates != [] ==> view == Listing(PageSlice(allCandidates, currentPage)) && paginationShown)
        && (allCandidates == [] ==> view == Warning && !paginationShown)
        && prevDisabled == (currentPage <= 1) && nextDisabled == (currentPage >= totalPages)
      ensures old(currentPage) <= 1 ==>
        view == old(view) && paginationShown == old(paginationShown)
        && prevDisabled == old(prevDisabled) && nextDisabled == old(nextDisabled)
      ensures allCandidates == old(allCandidates) && totalPages == old(totalPages)
      ensures old(Valid()) ==> Valid()
    {
      if currentPage > 1 {
        currentPage := currentPage - 1;
        DisplayCurrentPage();
        UpdatePaginationControls();
      }
    }

    /** The next-page button. */
    method NextPage()
      modifies this
      ensures currentPage == NextOf(old(currentPage), totalPages)
      ensures old(currentPage) < totalPages ==>
        (allCandidates != [] ==> view == Listing(PageSlice(allCandidates, currentPage)) && paginationShown)
        && (allCandidates == [] ==> view == Warning && !paginationShown)
        && prevDisabled == (currentPage <= 1) && nextDisabled == (currentPage >= totalPages)
      ensures old(currentPage) >= totalPages ==>
        view == old(view) && paginationShown == old(paginationShown)
        && prevDisabled == old(prevDisabled) && nextDisabled == old(nextDisabled)
      ensures allCandidates == old(allCandidates) && totalPages == old(totalPages)
      ensures old(Valid()) ==> Valid()
    {
      if currentPage < totalPages {
        currentPage := currentPage + 1;
        DisplayCurrentPage();
        UpdatePaginationControls();
      }
    }
  }

  /** The favourite button of the profile page: `outline` while it carries
      `btn-outline-success` (not a favourite yet). */
  class FavoriteButton {
    var outline: bool

    constructor (outline: bool)
      ensures this.outline == outline
    {
      this.outline := outline;
    }
  }

  /** A click on the profile page's favourite button. An outlined button also
      carries `btn-outline-success`, so the page's generic add handler sends
      `/add_favorite` first and `toggleFavorite` then sends it a second time
      (the class changes only when a reply arrives); the button turns solid
      on "added". A solid button is handled by `toggleFavorite` alone, which
      asks the server to remove the id and turns the button outlined on
      "removed". Adding twice leaves the favourites as adding once. A button
      without a `data-id` sends nothing, and nothing changes. */
  method ToggleFavorite(session: App.Session, button: FavoriteButton, id: string)
    modifies session, button
    ensures id == [] ==> button.outline == old(button.outline) && session.favorites == old(session.favorites)
    ensures id != [] ==> button.outline == !old(button.outline)
    ensures id != [] && old(button.outline) ==>
      session.favorites == Some(App.AddedTo(if old(session.favorites).Some? then old(session.favorites).value else [], id))
    ensures id != [] && !old(button.outline) && old(session.favorites).Some? ==>
      session.favorites == Some(App.RemovedFrom(old(session.favorites).value, id))
    ensures id != [] && !old(button.outline) && old(session.favorites).None? ==> session.favorites == None
    ensures session.history == old(session.history)
  {
    if id == [] {
      return;
    }
    if button.outline {
      var before := if session.favorites.Some? then session.favorites.value else [];
      var first := session.AddFavorite(Some(id));
      var second := session.AddFavorite(Some(id));
      App.AddIdempotent(before, id);
      if first == App.Status("added") || second == App.Status("added") {
        button.outline := false;
      }
    } else {
      var reply := session.RemoveFavorite(Some(id));
      if reply == App.Status("removed") {
        button.outline := true;
      }
    }
  }

  // ---------------------------------------------------------------------
  // Properties
  // ---------------------------------------------------------------------

  /** Neither button leaves the pages the results have. */
  lemma StepsStayInRange(page: int, total: int)
    requires InRange(page, total)
    ensures InRange(PrevOf(page), total)
    ensures InRange(NextOf(page, total), total)
  {
  }

  /** Next then previous comes back, and so does previous then next. */
  lemma NextPrevInverse(page: int, total: int)
    requires InRange(page, total)
    ensures page < total ==> PrevOf(NextOf(page, total)) == page
    ensures page > 1 ==> NextOf(PrevOf(page), total) == page
  {
  }

  /** After a search every candidate is on exactly one page: the `i`-th on
      page `i / 5 + 1`, at place `i % 5`, and that page exists. */
  lemma PageOfEntry<T>(all: seq<T>, i: nat)
    requires i < |all|
    ensures InRange(i / PerPage + 1, TotalPages(|all|))
    ensures |PageSlice(all, i / PerPage + 1)| > i % PerPage
    ensures PageSlice(all, i / PerPage + 1)[i % PerPage] == all[i]
  {
    var p := i / PerPage + 1;
    assert (p - 1) * PerPage == i - i % PerPage;
    assert (p - 1) * PerPage < |all|;
  }

  /** Every page the buttons can reach holds at least one candidate, and a
      full page unless it is the last. */
  lemma PagesAreFilled<T>(all: seq<T>, page: int)
    requires all != [] && InRange(page, TotalPages(|all|))
    ensures PageSlice(all, page) != []
    ensures page < TotalPages(|all|) ==> |PageSlice(all, page)| == PerPage
  {
    var total := TotalPages(|all|);
    assert (page - 1) * PerPage <= (total - 1) * PerPage;
  }

  /** The button that is disabled is exactly the one whose handler would not
      move. */
  lemma DisabledMeansStuck(page: int, total: int)
    ensures page <= 1 <==> PrevOf(page) == page
    ensures page >= total <==> NextOf(page, total) == page
  {
  }

  /** The response handler as written can leave the script on a page the new
      results do not have: from three pages, a click on "Найти", a click on
      "next" before the answer and an answer of four candidates leave page 2
      of 1, an empty list under a visible pagination bar. */
  lemma ResultsAfterNextOverrun(candidates: seq<App.Match>)
    requires |candidates| == 4
    ensures NextOf(1, TotalPages(15)) == 2
    ensures !InRange(2, TotalPages(|candidates|))
    ensures PageSlice(candidates, 2) == []
  {
  }

  /** Adding through an outlined button and removing through the solid one
      gives the favourites back, for an id that was not a favourite. */
  lemma ToggleTwiceRestores(favorites: seq<string>, id: string)
    requires id !in favorites
    ensures App.RemovedFrom(App.AddedTo(favorites, id), id) == favorites
  {
    App.AddThenRemove(favorites, id);
  }
}
