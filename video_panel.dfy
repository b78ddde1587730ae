/**
 * `VideoPanel` of src/components/videoPanel.jsx: the videos of a song, one of them selected
 * for the player, and the drag handle that resizes the panel between 200 and 600 pixels.
 */
module VideoPanelModel {
  import opened Wrappers

  datatype Video = Video(id: int, url: string, videoType: string)

  /** What `fetchVideosForSong` did: answered (possibly with nothing) or threw. */
  datatype VideoOutcome = VideosLoaded(result: Option<seq<Video>>) | VideosFailed

  const MinWidth: int := 200
  const MaxWidth: int := 600

  /** `Math.min(Math.max(newWidth, 200), 600)`. */
  function ClampWidth(w: int): (r: int)
    ensures MinWidth <= r <= MaxWidth
    ensures MinWidth <= w <= MaxWidth ==> r == w
    ensures w < MinWidth ==> r == MinWidth
    ensures w > MaxWidth ==> r == MaxWidth
  {
    var atLeast := if w > MinWidth then w else MinWidth;
    if atLeast < MaxWidth then atLeast else MaxWidth
  }

  /** Clamping a clamped width changes nothing. */
  lemma ClampIdempotent(w: int)
    ensures ClampWidth(ClampWidth(w)) == ClampWidth(w)
  {
  }

  /** Dragging further left never makes the panel narrower. */
  lemma ClampMonotone(a: int, b: int)
    requires a <= b
    ensures ClampWidth(a) <= ClampWidth(b)
  {
  }

  /** `videoList.length > 0 ? videoList[0].url : <unchanged>`. */
  function SelectionAfterLoad(list: seq<Video>, previous: string): string {
    if |list| > 0 then list[0].url else previous
  }

  predicate DistinctUrls(videos: seq<Video>) {
    forall i, j :: 0 <= i < |videos| && 0 <= j < |videos| && videos[i].url == videos[j].url ==> i == j
  }

  class VideoPanel {
    var videos: seq<Video>
    var selectedVideoUrl: string
    var isResizing: bool

    constructor ()
      ensures videos == [] && selectedVideoUrl == "" && !isResizing
    {
      videos := [];
      selectedVideoUrl := "";
      isResizing := false;
    }

    /** The button of video `i` carries the `active` class. */
    predicate IsActive(i: int)
      reads this
      requires 0 <= i < |videos|
    {
      selectedVideoUrl == videos[i].url
    }

    /** `No videos available` is shown. */
    predicate ShowsNoVideos()
      reads this
    {
      |videos| == 0
    }

    /** A new song: the list and the selection are cleared before its videos arrive. */
    method ChangeSong()
      modifies this
      ensures videos == [] && selectedVideoUrl == "" && isResizing == old(isResizing)
      ensures ShowsNoVideos()
    {
      videos := [];
      selectedVideoUrl := "";
    }

    /**
     * The fetch settles. An answer replaces the list (`result || []`) and selects its first video
     * when there is one; a failure empties the list and keeps the selection.
     */
    method CompleteFetch(outcome: VideoOutcome)
      modifies this
      ensures isResizing == old(isResizing)
      ensures outcome.VideosFailed? ==> videos == [] && selectedVideoUrl == old(selectedVideoUrl)
      ensures outcome.VideosLoaded? ==>
        videos == (if outcome.result.Some? then outcome.result.value else [])
        && selectedVideoUrl == SelectionAfterLoad(videos, old(selectedVideoUrl))
      ensures ShowsNoVideos() <==> outcome.VideosFailed? || outcome.result.None? || outcome.result.value == []
      ensures !ShowsNoVideos() ==> IsActive(0)
    {
      if outcome.VideosLoaded? {
        var list := if outcome.result.Some? then outcome.result.value else [];
        videos := list;
        if |list| > 0 {
          selectedVideoUrl := list[0].url;
        }
      } else {
        videos := [];
      }
    }

    /** A click on a video's button plays it: exactly the buttons with its url become active. */
    method ClickVideo(i: int)
      requires 0 <= i < |videos|
      modifies this
      ensures videos == old(videos) && isResizing == old(isResizing)
      ensures selectedVideoUrl == videos[i].url
      ensures forall j :: 0 <= j < |videos| ==> (IsActive(j) <==> videos[j].url == videos[i].url)
      ensures DistinctUrls(videos) ==> forall j :: 0 <= j < |videos| ==> (IsActive(j) <==> j == i)
    {
      selectedVideoUrl := videos[i].url;
    }

    /** Mouse down on the handle starts a resize. */
    method MouseDown()
      modifies this
      ensures isResizing && videos == old(videos) && selectedVideoUrl == old(selectedVideoUrl)
    {
      isResizing := true;
    }

    /** Mouse up ends it (the listener is only attached while resizing; ending twice is harmless). */
    method MouseUp()
      modifies this
      ensures !isResizing && videos == old(videos) && selectedVideoUrl == old(selectedVideoUrl)
    {
      isResizing := false;
    }

    /**
     * Mouse move: while resizing, the panel asks its parent for the width between the pointer
     * and the window's right edge, clamped; otherwise nothing is reported.
     */
    method MouseMove(innerWidth: int, clientX: int) returns (w: Option<int>)
      ensures !isResizing ==> w == None
      ensures isResizing ==> w == Some(ClampWidth(innerWidth - clientX))
      ensures w.Some? ==> MinWidth <= w.value <= MaxWidth
    {
      if isResizing {
        w := Some(ClampWidth(innerWidth - clientX));
      } else {
        w := None;
      }
    }
  }
}
