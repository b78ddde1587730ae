/**
 * `SongDisplay` of src/components/songDisplay.jsx: the tab text with its transpose buttons, the
 * auto-scroll speed and its Start/Stop toggle, and the video panel's visibility and width.
 */
module SongDisplayPage {
  import opened Wrappers
  import Transpose
  import VideoPanelModel

  const InitialSpeed: int := 20
  const SpeedStep: int := 10
  const SlowestSpeed: int := 5
  const InitialPanelWidth: int := 200

  /** The `+` control: `prev + 10`. */
  function FasterSpeed(speed: int): (r: int)
    ensures r > speed
  {
    speed + SpeedStep
  }

  /** The `-` control: `Math.max(5, prev - 10)`. */
  function SlowerSpeed(speed: int): (r: int)
    ensures r >= SlowestSpeed
    ensures speed > SlowestSpeed ==> r < speed
    ensures r <= speed || speed < SlowestSpeed
  {
    if speed - SpeedStep > SlowestSpeed then speed - SpeedStep else SlowestSpeed
  }

  /** The speeds the controls can reach: at least 5 and a multiple of 5. */
  predicate ReachableSpeed(speed: int) {
    speed >= SlowestSpeed && speed % 5 == 0
  }

  /** `-` undoes `+`. */
  lemma SlowerUndoesFaster(speed: int)
    requires speed >= SlowestSpeed
    ensures SlowerSpeed(FasterSpeed(speed)) == speed
  {
  }

  datatype SpeedPress = Plus | Minus

  function SpeedAfter(speed: int, presses: seq<SpeedPress>): int
    decreases |presses|
  {
    if presses == [] then speed
    else SpeedAfter(if presses[0].Plus? then FasterSpeed(speed) else SlowerSpeed(speed), presses[1..])
  }

  /**
   * From the initial 20, any presses of `+` and `-` leave a speed of at least 5 and a multiple
   * of 5, so the interval `3000 / Math.max(0.1, scrollSpeed)` never uses its 0.1 floor.
   */
  lemma {:induction false} PressesKeepSpeedReachable(speed: int, presses: seq<SpeedPress>)
    requires ReachableSpeed(speed)
    ensures ReachableSpeed(SpeedAfter(speed, presses))
    ensures SpeedAfter(speed, presses) <= speed + SpeedStep * |presses|
    decreases |presses|
  {
    if presses != [] {
      var next := if presses[0].Plus? then FasterSpeed(speed) else SlowerSpeed(speed);
      assert ReachableSpeed(next);
      PressesKeepSpeedReachable(next, presses[1..]);
    }
  }

  class SongDisplay {
    var tab: string
    var scrollSpeed: int
    var isScrolling: bool
    var isVideoPanelOpen: bool
    var videoPanelWidth: int
    var hasOpenedPanel: bool
    /** An animation frame has been requested to open the panel and has not run yet. */
    var openRequested: bool

    ghost predicate Valid()
      reads this
    {
      && ReachableSpeed(scrollSpeed)
      && VideoPanelModel.MinWidth <= videoPanelWidth <= VideoPanelModel.MaxWidth
      && (isVideoPanelOpen ==> hasOpenedPanel)
      && (openRequested ==> hasOpenedPanel)
    }

    constructor ()
      ensures Valid()
      ensures tab == "" && scrollSpeed == InitialSpeed && !isScrolling
      ensures !isVideoPanelOpen && videoPanelWidth == InitialPanelWidth && !hasOpenedPanel && !openRequested
    {
      tab := "";
      scrollSpeed := InitialSpeed;
      isScrolling := false;
      isVideoPanelOpen := false;
      videoPanelWidth := InitialPanelWidth;
      hasOpenedPanel := false;
      openRequested := false;
    }

    /** `fetchTabForSong` settled: its text replaces the tab; a failure leaves the tab as it was. */
    method TabFetched(text: Option<string>)
      requires Valid()
      modifies this
      ensures Valid()
      ensures tab == (if text.Some? then text.value else old(tab))
      ensures scrollSpeed == old(scrollSpeed) && isScrolling == old(isScrolling)
      ensures isVideoPanelOpen == old(isVideoPanelOpen) && videoPanelWidth == old(videoPanelWidth)
      ensures hasOpenedPanel == old(hasOpenedPanel) && openRequested == old(openRequested)
    {
      if text.Some? {
        tab := text.value;
      }
    }

    /** `Up +`: every chord of the tab one semitone up. */
    method TransposeUp()
      requires Valid()
      modifies this
      ensures Valid()
      ensures tab == Transpose.TransposeTab(old(tab), 1)
      ensures scrollSpeed == old(scrollSpeed) && isScrolling == old(isScrolling)
      ensures isVideoPanelOpen == old(isVideoPanelOpen) && videoPanelWidth == old(videoPanelWidth)
      ensures hasOpenedPanel == old(hasOpenedPanel) && openRequested == old(openRequested)
    {
      tab := Transpose.TransposeTab(tab, 1);
    }

    /** `Down -`: every chord of the tab one semitone down. */
    method TransposeDown()
      requires Valid()
      modifies this
      ensures Valid()
      ensures tab == Transpose.TransposeTab(old(tab), -1)
      ensures scrollSpeed == old(scrollSpeed) && isScrolling == old(isScrolling)
      ensures isVideoPanelOpen == old(isVideoPanelOpen) && videoPanelWidth == old(videoPanelWidth)
      ensures hasOpenedPanel == old(hasOpenedPanel) && openRequested == old(openRequested)
    {
      tab := Transpose.TransposeTab(tab, -1);
    }

    method IncreaseSpeed()
      requires Valid()
      modifies this
      ensures Valid()
      ensures scrollSpeed == FasterSpeed(old(scrollSpeed)) && tab == old(tab) && isScrolling == old(isScrolling)
      ensures isVideoPanelOpen == old(isVideoPanelOpen) && videoPanelWidth == old(videoPanelWidth)
      ensures hasOpenedPanel == old(hasOpenedPanel) && openRequested == old(openRequested)
    {
      scrollSpeed := FasterSpeed(scrollSpeed);
    }

    method DecreaseSpeed()
      requires Valid()
      modifies this
      ensures Valid()
      ensures scrollSpeed == SlowerSpeed(old(scrollSpeed)) && tab == old(tab) && isScrolling == old(isScrolling)
      ensures isVideoPanelOpen == old(isVideoPanelOpen) && videoPanelWidth == old(videoPanelWidth)
      ensures hasOpenedPanel == old(hasOpenedPanel) && openRequested == old(openRequested)
    {
      scrollSpeed := SlowerSpeed(scrollSpeed);
    }

    /** `Start` / `Stop`. */
    method ToggleScrolling()
      requires Valid()
      modifies this
      ensures Valid()
      ensures isScrolling == !old(isScrolling) && scrollSpeed == old(scrollSpeed) && tab == old(tab)
      ensures isVideoPanelOpen == old(isVideoPanelOpen) && videoPanelWidth == old(videoPanelWidth)
      ensures hasOpenedPanel == old(hasOpenedPanel) && openRequested == old(openRequested)
    {
      isScrolling := !isScrolling;
    }

    /**
     * `Show` mounts the panel at once and opens it on the next animation frame; `Hide` closes it
     * and keeps it mounted.
     */
    method ToggleVideoPanel()
      requires Valid()
      modifies this
      ensures Valid()
      ensures !old(isVideoPanelOpen) ==> hasOpenedPanel && openRequested && !isVideoPanelOpen
      ensures old(isVideoPanelOpen) ==>
        !isVideoPanelOpen && hasOpenedPanel && openRequested == old(openRequested)
      ensures tab == old(tab) && scrollSpeed == old(scrollSpeed) && isScrolling == old(isScrolling)
      ensures videoPanelWidth == old(videoPanelWidth)
    {
      if !isVideoPanelOpen {
        hasOpenedPanel := true;
        openRequested := true;
      } else {
        isVideoPanelOpen := false;
      }
    }

    /** The requested animation frame runs: the panel opens. */
    method AnimationFrame()
      requires Valid()
      modifies this
      ensures Valid()
      ensures old(openRequested) ==> isVideoPanelOpen && !openRequested
      ensures !old(openRequested) ==> isVideoPanelOpen == old(isVideoPanelOpen) && !openRequested
      ensures hasOpenedPanel == old(hasOpenedPanel) && videoPanelWidth == old(videoPanelWidth)
      ensures tab == old(tab) && scrollSpeed == old(scrollSpeed) && isScrolling == old(isScrolling)
    {
      if openRequested {
        isVideoPanelOpen := true;
        openRequested := false;
      }
    }

    /** `onPanelWidthChange`: the width the panel reported while being dragged. */
    method PanelWidthChanged(w: Option<int>)
      requires Valid()
      requires w.Some? ==> VideoPanelModel.MinWidth <= w.value <= VideoPanelModel.MaxWidth
      modifies this
      ensures Valid()
      ensures videoPanelWidth == (if w.Some? then w.value else old(videoPanelWidth))
      ensures isVideoPanelOpen == old(isVideoPanelOpen) && hasOpenedPanel == old(hasOpenedPanel)
      ensures openRequested == old(openRequested)
      ensures tab == old(tab) && scrollSpeed == old(scrollSpeed) && isScrolling == old(isScrolling)
    {
      if w.Some? {
        videoPanelWidth := w.value;
      }
    }
  }

  /** A drag on the panel's handle, from press to release, keeps the width in range. */
  method DragPanel(display: SongDisplay, panel: VideoPanelModel.VideoPanel, innerWidth: int, clientX: int)
    requires display.Valid()
    modifies display, panel
    ensures display.Valid()
    ensures display.videoPanelWidth == VideoPanelModel.ClampWidth(innerWidth - clientX)
    ensures display.tab == old(display.tab) && display.scrollSpeed == old(display.scrollSpeed)
    ensures display.isScrolling == old(display.isScrolling) && display.isVideoPanelOpen == old(display.isVideoPanelOpen)
    ensures display.hasOpenedPanel == old(display.hasOpenedPanel) && display.openRequested == old(display.openRequested)
    ensures !panel.isResizing
    ensures panel.videos == old(panel.videos) && panel.selectedVideoUrl == old(panel.selectedVideoUrl)
  {
    panel.MouseDown();
    var w := panel.MouseMove(innerWidth, clientX);
    display.PanelWidthChanged(w);
    panel.MouseUp();
  }
}
