/**
 * `YourSongs` of src/components/yourSongs.jsx: the signed-in user's songs, a page of
 * `limit = 10` at a time. The fetch effect runs whenever `user` or `offset` changes; the
 * server's answer arrives later, as a separate step.
 */
module YourSongsPage {
  import opened Wrappers
  import opened SongList

  /** The call `fetchSongs(user, limit, offset)`. */
  datatype SongsRequest = SongsRequest(user: User, limit: int, offset: int)

  class YourSongs {
    var user: Option<User>
    var songs: seq<Song>
    var loading: bool
    var error: Option<string>
    var offset: int

    /** The offset is always that of a page. */
    ghost predicate Valid()
      reads this
    {
      OnPageBoundary(offset)
    }

    /** The component's initial state, before its first effect. */
    constructor (user: Option<User>)
      ensures Valid()
      ensures this.user == user && songs == [] && !loading && error == None && offset == 0
    {
      this.user := user;
      songs := [];
      loading := false;
      error := None;
      offset := 0;
    }

    function View(): View
      reads this
    {
      ViewOf(loading, error, songs, offset, PageSize)
    }

    /**
     * The effect: with a user, the fetch of the current page starts, showing `Loading...` and
     * clearing the last error; without one nothing happens.
     */
    method RunEffect() returns (req: Option<SongsRequest>)
      modifies this
      ensures user == old(user) && songs == old(songs) && offset == old(offset)
      ensures old(user).None? ==> req == None && loading == old(loading) && error == old(error)
      ensures old(user).Some? ==> req == Some(SongsRequest(user.value, PageSize, offset)) && loading && error == None
      ensures old(user).Some? ==> View() == LoadingView
    {
      if user.Some? {
        loading := true;
        error := None;
        req := Some(SongsRequest(user.value, PageSize, offset));
      } else {
        req := None;
      }
    }

    /**
     * The fetch settles: its songs replace the rows, or the failure message is kept; either way
     * loading ends. A success does not clear an error; only the start of a fetch does.
     */
    method CompleteFetch(outcome: Outcome)
      modifies this
      ensures user == old(user) && offset == old(offset) && !loading
      ensures outcome.Loaded? ==> songs == outcome.songs && error == old(error)
      ensures outcome.Failed? ==> songs == old(songs) && error == Some(FetchFailed)
      ensures outcome.Failed? ==> View() == ErrorView(FetchFailed)
      ensures outcome.Loaded? && old(error) == None ==>
        View() == TableView(outcome.songs, offset > 0, |outcome.songs| == PageSize)
    {
      if outcome.Loaded? {
        songs := outcome.songs;
      } else {
        error := Some(FetchFailed);
      }
      loading := false;
    }

    /** The user prop changed: the effect runs again when it is a different user. */
    method ChangeUser(u: Option<User>) returns (req: Option<SongsRequest>)
      requires Valid()
      modifies this
      ensures Valid()
      ensures user == u && songs == old(songs) && offset == old(offset)
      ensures u == old(user) ==> req == None && loading == old(loading) && error == old(error)
      ensures u != old(user) && u.Some? ==>
        req == Some(SongsRequest(u.value, PageSize, offset)) && loading && error == None && View() == LoadingView
      ensures u.None? ==> req == None && loading == old(loading) && error == old(error)
    {
      var changed := u != user;
      user := u;
      if changed {
        req := RunEffect();
      } else {
        req := None;
      }
    }

    /** Previous, shown only when `offset > 0`: one page back, and the effect fetches it. */
    method ClickPrevious() returns (req: Option<SongsRequest>)
      requires Valid() && View().TableView? && View().previous
      modifies this
      ensures Valid()
      ensures offset == PreviousOffset(old(offset), PageSize) && offset < old(offset)
      ensures user == old(user) && songs == old(songs)
      ensures user.Some? ==>
        req == Some(SongsRequest(user.value, PageSize, offset)) && loading && error == None && View() == LoadingView
      ensures user.None? ==> req == None && loading == old(loading) && error == old(error)
    {
      PagingKeepsBoundary(offset);
      offset := PreviousOffset(offset, PageSize);
      req := RunEffect();
    }

    /** Next, shown only when the page is full: one page on, and the effect fetches it. */
    method ClickNext() returns (req: Option<SongsRequest>)
      requires Valid() && View().TableView? && View().next
      modifies this
      ensures Valid()
      ensures offset == NextOffset(old(offset), PageSize)
      ensures user == old(user) && songs == old(songs)
      ensures user.Some? ==>
        req == Some(SongsRequest(user.value, PageSize, offset)) && loading && error == None && View() == LoadingView
      ensures user.None? ==> req == None && loading == old(loading) && error == old(error)
    {
      PagingKeepsBoundary(offset);
      offset := NextOffset(offset, PageSize);
      req := RunEffect();
    }

    /** A row click opens that song. */
    method ClickRow(i: int) returns (nav: Navigation)
      requires View().TableView? && 0 <= i < |View().rows|
      ensures nav.page == SongDisplayPage && nav.song == songs[i] && nav.song in View().rows
    {
      nav := Navigation(SongDisplayPage, songs[i]);
    }
  }

  /** Next, then the page arrives: the new rows are shown as a table, with Previous offered. */
  method NextPageShown(page: YourSongs, rows: seq<Song>) returns (req: Option<SongsRequest>)
    requires page.Valid() && page.View().TableView? && page.View().next && page.user.Some?
    modifies page
    ensures page.Valid() && req.Some? && req.value.offset == page.offset
    ensures page.View() == TableView(rows, true, |rows| == PageSize)
  {
    req := page.ClickNext();
    page.CompleteFetch(Loaded(rows));
  }
}
