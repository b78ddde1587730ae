/**
 * What src/components/yourSongs.jsx and src/components/searchResults.jsx share: the songs a
 * list shows, the paging arithmetic of their Previous and Next buttons, and the way a list is
 * rendered while a fetch is running, after it failed, or once the rows are in.
 */
module SongList {
  import opened Wrappers

  /** The signed-in user; the session token is all the list fetches need from it. */
  datatype User = User(sessionJwt: string)

  datatype Song = Song(id: int, title: string, artist: string)

  /** `limit`: the number of songs asked for per page. */
  const PageSize: int := 10

  /** The message a failed fetch leaves behind. */
  const FetchFailed: string := "Failed to fetch songs"

  /** The page a clicked row opens. */
  const SongDisplayPage: string := "songDisplay"

  /** What the server answered to one fetch. */
  datatype Outcome = Loaded(songs: seq<Song>) | Failed

  /** What a list renders. */
  datatype View =
    | LoadingView
    | ErrorView(message: string)
    | TableView(rows: seq<Song>, previous: bool, next: bool)

  /** A row click: `setCurrentPage('songDisplay')` and `setCurrentSong(song)`. */
  datatype Navigation = Navigation(page: string, song: Song)

  /** Previous: `Math.max(0, prev - limit)`. */
  function PreviousOffset(offset: int, limit: int): (r: int)
    requires limit > 0
    ensures r >= 0
    ensures offset > 0 ==> r < offset
    ensures r <= offset || offset < 0
  {
    if offset - limit > 0 then offset - limit else 0
  }

  /** Next: `prev + limit`. */
  function NextOffset(offset: int, limit: int): (r: int)
    requires limit > 0
    ensures r > offset
  {
    offset + limit
  }

  /** Going forward a page and back again returns to the same page. */
  lemma PreviousUndoesNext(offset: int, limit: int)
    requires offset >= 0 && limit > 0
    ensures PreviousOffset(NextOffset(offset, limit), limit) == offset
  {
  }

  /** Going back a page and forward again returns to the same page, unless the first page was reached early. */
  lemma NextUndoesPrevious(offset: int, limit: int)
    requires limit > 0
    ensures offset >= limit <==> NextOffset(PreviousOffset(offset, limit), limit) == offset
  {
  }

  /** The offset of a page: a non-negative multiple of the page size. */
  predicate OnPageBoundary(offset: int) {
    offset >= 0 && offset % PageSize == 0
  }

  lemma PagingKeepsBoundary(offset: int)
    requires OnPageBoundary(offset)
    ensures OnPageBoundary(PreviousOffset(offset, PageSize))
    ensures OnPageBoundary(NextOffset(offset, PageSize))
  {
  }

  /** Previous is shown (`offset > 0`) exactly when pressing it moves to another page. */
  lemma PreviousShownIffItMoves(offset: int, limit: int)
    requires offset >= 0 && limit > 0
    ensures offset > 0 <==> PreviousOffset(offset, limit) != offset
  {
  }

  datatype Click = PreviousClick | NextClick

  /** The offset after the Previous and Next buttons are pressed in the order `clicks`. */
  function OffsetAfter(offset: int, clicks: seq<Click>): int
    decreases |clicks|
  {
    if clicks == [] then offset
    else
      var next := if clicks[0].PreviousClick? then PreviousOffset(offset, PageSize) else NextOffset(offset, PageSize);
      OffsetAfter(next, clicks[1..])
  }

  /** Whatever the buttons pressed, the list stays on a page boundary and moves at most a page per press. */
  lemma {:induction false} ClicksStayOnBoundary(offset: int, clicks: seq<Click>)
    requires OnPageBoundary(offset)
    ensures OnPageBoundary(OffsetAfter(offset, clicks))
    ensures OffsetAfter(offset, clicks) <= offset + PageSize * |clicks|
    decreases |clicks|
  {
    if clicks != [] {
      PagingKeepsBoundary(offset);
      var next := if clicks[0].PreviousClick? then PreviousOffset(offset, PageSize) else NextOffset(offset, PageSize);
      ClicksStayOnBoundary(next, clicks[1..]);
    }
  }

  /**
   * The render: `Loading...` while a fetch runs, else the error, else the table with its rows,
   * Previous when `offset > 0` and Next when the page holds `limit` songs.
   */
  function ViewOf(loading: bool, error: Option<string>, songs: seq<Song>, offset: int, limit: int): (v: View)
    ensures v.LoadingView? <==> loading
    ensures v.ErrorView? <==> !loading && error.Some?
    ensures v.ErrorView? ==> v.message == error.value
    ensures v.TableView? ==> v.rows == songs && (v.previous <==> offset > 0) && (v.next <==> |songs| == limit)
  {
    if loading then LoadingView
    else if error.Some? then ErrorView(error.value)
    else TableView(songs, offset > 0, |songs| == limit)
  }
}
