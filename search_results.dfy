/**
 * `SearchResults` of src/components/searchResults.jsx: the songs matching the search string, a
 * page at a time. It pages like `YourSongs`, but its effect also depends on `searchString` and
 * only fetches when there is both a user and a non-empty search string. A new search string
 * fetches again from the current offset: the offset is not reset.
 */
module SearchResultsPage {
  import opened Wrappers
  import opened SongList

  /** The call `fetchSearchSongs(user, limit, offset, searchString)`. */
  datatype SearchRequest = SearchRequest(user: User, limit: int, offset: int, searchString: string)

  /** The effect's guard, `user && searchString`: an empty string is falsy. */
  predicate ShouldFetch(user: Option<User>, searchString: string) {
    user.Some? && searchString != ""
  }

  class SearchResults {
    var user: Option<User>
    var searchString: string
    var songs: seq<Song>
    var loading: bool
    var error: Option<string>
    /** `limit` is state here, but nothing ever sets it again. */
    const limit: int
    var offset: int

    ghost predicate Valid()
      reads this
    {
      limit == PageSize && OnPageBoundary(offset)
    }

    constructor (user: Option<User>, searchString: string)
      ensures Valid()
      ensures this.user == user && this.searchString == searchString
      ensures songs == [] && !loading && error == None && offset == 0
    {
      this.user := user;
      this.searchString := searchString;
      songs := [];
      loading := false;
      error := None;
      limit := PageSize;
      offset := 0;
    }

    function View(): View
      reads this
    {
      ViewOf(loading, error, songs, offset, limit)
    }

    /** The effect: with a user and a search string, the current page of results is fetched. */
    method RunEffect() returns (req: Option<SearchRequest>)
      modifies this
      ensures user == old(user) && searchString == old(searchString) && songs == old(songs) && offset == old(offset)
      ensures !ShouldFetch(user, searchString) ==> req == None && loading == old(loading) && error == old(error)
      ensures ShouldFetch(user, searchString) ==>
        req == Some(SearchRequest(user.value, limit, offset, searchString)) && loading && error == None
      ensures ShouldFetch(user, searchString) ==> View() == LoadingView
    {
      if ShouldFetch(user, searchString) {
        loading := true;
        error := None;
        req := Some(SearchRequest(user.value, limit, offset, searchString));
      } else {
        req := None;
      }
    }

    /** The fetch settles: new rows, or the failure message; loading ends either way. */
    method CompleteFetch(outcome: Outcome)
      modifies this
      ensures user == old(user) && searchString == old(searchString) && offset == old(offset) && !loading
      ensures outcome.Loaded? ==> songs == outcome.songs && error == old(error)
      ensures outcome.Failed? ==> songs == old(songs) && error == Some(FetchFailed)
      ensures outcome.Failed? ==> View() == ErrorView(FetchFailed)
      ensures outcome.Loaded? && old(error) == None ==>
        View() == TableView(outcome.songs, offset > 0, |outcome.songs| == limit)
    {
      if outcome.Loaded? {
        songs := outcome.songs;
      } else {
        error := Some(FetchFailed);
      }
      loading := false;
    }

    /**
     * A new search string (typed in the menu) reruns the effect for the same offset: the search
     * starts wherever the previous one was paged to.
     */
    method ChangeSearchString(s: string) returns (req: Option<SearchRequest>)
      requires Valid()
      modifies this
      ensures Valid()
      ensures searchString == s && offset == old(offset) && user == old(user) && songs == old(songs)
      ensures s != old(searchString) && ShouldFetch(user, s) ==>
        req == Some(SearchRequest(user.value, PageSize, old(offset), s))
        && loading && error == None && View() == LoadingView
      ensures !(s != old(searchString) && ShouldFetch(user, s)) ==>
        req == None && loading == old(loading) && error == old(error)
    {
      var changed := s != searchString;
      searchString := s;
      if changed {
        req := RunEffect();
      } else {
        req := None;
      }
    }

    /** The user prop changed: the effect runs again when it is a different user. */
    method ChangeUser(u: Option<User>) returns (req: Option<SearchRequest>)
      requires Valid()
      modifies this
      ensures Valid()
      ensures user == u && searchString == old(searchString) && offset == old(offset) && songs == old(songs)
      ensures u != old(user) && ShouldFetch(u, searchString) ==>
        req == Some(SearchRequest(u.value, PageSize, offset, searchString))
        && loading && error == None && View() == LoadingView
      ensures !(u != old(user) && ShouldFetch(u, searchString)) ==>
        req == None && loading == old(loading) && error == old(error)
    {
      var changed := u != user;
      user := u;
      if changed {
        req := RunEffect();
      } else {
        req := None;
      }
    }

    /** Previous, shown only when `offset > 0`: one page back, fetched when the guard allows. */
    method ClickPrevious() returns (req: Option<SearchRequest>)
      requires Valid() && View().TableView? && View().previous
      modifies this
      ensures Valid()
      ensures offset == PreviousOffset(old(offset), PageSize) && offset < old(offset)
      ensures user == old(user) && searchString == old(searchString) && songs == old(songs)
      ensures ShouldFetch(user, searchString) ==>
        req == Some(SearchRequest(user.value, PageSize, offset, searchString))
        && loading && error == None && View() == LoadingView
      ensures !ShouldFetch(user, searchString) ==> req == None && loading == old(loading) && error == old(error)
    {
      PagingKeepsBoundary(offset);
      offset := PreviousOffset(offset, limit);
      req := RunEffect();
    }

    /** Next, shown only when the page is full: one page on, fetched when the guard allows. */
    method ClickNext() returns (req: Option<SearchRequest>)
      requires Valid() && View().TableView? && View().next
      modifies this
      ensures Valid()
      ensures offset == NextOffset(old(offset), PageSize)
      ensures user == old(user) && searchString == old(searchString) && songs == old(songs)
      ensures ShouldFetch(user, searchString) ==>
        req == Some(SearchRequest(user.value, PageSize, offset, searchString))
        && loading && error == None && View() == LoadingView
      ensures !ShouldFetch(user, searchString) ==> req == None && loading == old(loading) && error == old(error)
    {
      PagingKeepsBoundary(offset);
      offset := NextOffset(offset, limit);
      req := RunEffect();
    }

    /** A row click opens that song. */
    method ClickRow(i: int) returns (nav: Navigation)
      requires View().TableView? && 0 <= i < |View().rows|
      ensures nav.page == SongDisplayPage && nav.song == songs[i] && nav.song in View().rows
    {
      nav := Navigation(SongDisplayPage, songs[i]);
    }
  }

  /** Next, then the results arrive: the new rows are shown as a table, with Previous offered. */
  method NextPageShown(page: SearchResults, rows: seq<Song>) returns (req: Option<SearchRequest>)
    requires page.Valid() && page.View().TableView? && page.View().next
    requires ShouldFetch(page.user, page.searchString)
    modifies page
    ensures page.Valid() && req.Some? && req.value.offset == page.offset
    ensures page.View() == TableView(rows, true, |rows| == PageSize)
  {
    req := page.ClickNext();
    page.CompleteFetch(Loaded(rows));
  }
}
