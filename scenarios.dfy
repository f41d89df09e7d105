/**
 * Worked examples of the control's behaviour, stated over the model:
 * push and pull at fixed offsets, an out-of-range assignment, a press that
 * moves across two segments, and a title list that shrinks to nothing.
 */
module Scenarios {
  import opened Wrappers
  import opened Geometry
  import opened Effects
  import opened Selection
  import opened Gestures
  import opened Control

  /** Two segments, the second selected: the slider sits at offset 0. */
  lemma PushSecondOfTwo(w: real)
    ensures PushTarget(EqualFrames(2, w), 1) == Some(0.0)
  {
    PushEqualLayout(EqualFrames(2, w), w, 1);
  }

  /** Four segments, a drag ending at one and a half pages: `round(1.5) = 2`, so segment 1. */
  lemma PullHalfwayRoundsAway(w: real)
    requires w > 0.0
    ensures PullIndex(4, 1.5 * w, w) == 1
  {
    assert (1.5 * w) / w == 1.5;
  }

  /**
   * Four segments, nothing selected, `selectedSegmentIndex = 5`: the value
   * snaps to `noSegment`, and since that equals the old value there is no
   * value-changed event, only the hide request.
   */
  lemma OutOfRangeFromNoSegment(frames: seq<Frame>)
    ensures Validate(4, 5) == NoSegment
    ensures AssignmentEffects(4, frames, NoSegment, 5) == [SliderVisibility(false, 0.0)]
  {
  }

  /** The same assignment with segment 2 selected: value-changed, then the hide request. */
  lemma OutOfRangeFromSegment(frames: seq<Frame>)
    ensures AssignmentEffects(4, frames, 2, 5) == [ValueChanged, SliderVisibility(false, 0.0)]
  {
  }

  /**
   * A press that begins over segment 2, moves to segment 3 and ends there:
   * the highlight requests are begin on 2, change 2 -> 3, end on 3, the
   * press selects segment 3, and no button is left highlighted.
   */
  method PressAcrossSegments() returns (selected: int, highlightLog: seq<Effect>, anyHighlighted: bool)
    ensures selected == 3
    ensures highlightLog == [
      Highlight(BackgroundSegment(2), true, 0.1, true),
      Highlight(BackgroundSegment(2), false, 0.1, true),
      Highlight(BackgroundSegment(3), true, 0.1, true),
      Highlight(BackgroundSegment(3), false, 0.25, true)]
    ensures !anyHighlighted
  {
    var c := LaidOutControl();
    var start := |c.effects|;
    PressAt(c, Began, 250.0, 2);
    PressAt(c, Changed, 350.0, 3);
    var beforeEnd := |c.effects|;
    c.HandleBackgroundSegmentsLongPress(Ended, 350.0);
    PressedOnLayout(c.backgroundSegments, 3, 350.0);
    selected := c.selectedSegmentIndex;
    highlightLog := c.effects[start..beforeEnd + 1];
    anyHighlighted := exists i :: 0 <= i < |c.backgroundSegments| && c.backgroundSegments[i].isHighlighted;
  }

  /** Four segments on 100-point pages, 400 points in all. */
  ghost predicate LaidOut(c: ScrollingSegmentedControl)
    reads c
  {
    |c.segmentTitles| == 4 && c.stackWidth == 400.0 && Frames(c.backgroundSegments) == EqualFrames(4, 100.0)
  }

  /** On that layout a press at `x`, inside page `i`, finds segment `i`. */
  lemma PressedOnLayout(buttons: seq<SegmentButton>, i: nat, x: real)
    requires Frames(buttons) == EqualFrames(4, 100.0)
    requires i < 4 && i as real * 100.0 < x <= (i + 1) as real * 100.0
    ensures PressedIndex(Frames(buttons), 400.0, x) == Some(i)
  {
    FirstContainingEqualLayout(EqualFrames(4, 100.0), 100.0, i, x);
  }

  /** A began or changed press at `x` over segment `i` moves the highlight to `i`. */
  method PressAt(c: ScrollingSegmentedControl, phase: Phase, x: real, i: nat)
    requires c.Valid() && c.HighlightConsistent() && LaidOut(c)
    requires phase == Began || phase == Changed
    requires i < 4 && i as real * 100.0 < x <= (i + 1) as real * 100.0
    modifies c
    ensures c.Valid() && c.HighlightConsistent() && LaidOut(c)
    ensures c.highlightedSegmentIndex == Some(i)
    ensures c.effects == old(c.effects) + HighlightDiff(old(c.highlightedSegmentIndex), Some(i))
  {
    PressedOnLayout(c.backgroundSegments, i, x);
    c.HandleBackgroundSegmentsLongPress(phase, x);
  }

  /** A new control with four titles laid out on four 100-point pages. */
  method LaidOutControl() returns (c: ScrollingSegmentedControl)
    ensures fresh(c) && c.Valid() && c.HighlightConsistent() && LaidOut(c)
    ensures c.highlightedSegmentIndex == None && c.selectedSegmentIndex == NoSegment
  {
    c := new ScrollingSegmentedControl();
    c.SetSegmentTitles(["A", "B", "C", "D"]);
    c.LayoutSubviews(EqualFrames(4, 100.0), 400.0);
  }

  /**
   * Two segments with segment 1 selected, then the titles become empty:
   * the selection becomes `noSegment`, with one value-changed event and a
   * hide without animation.
   */
  method TitlesShrinkToNothing() returns (selected: int, log: seq<Effect>, visible: bool)
    ensures selected == NoSegment && !visible
    ensures log == [ValueChanged, SliderVisibility(false, 0.0), WidthMultiplierUpdate(0.0), MaskFrameUpdate]
  {
    var c := new ScrollingSegmentedControl();
    c.SetSelectedSegmentIndex(1);
    var start := |c.effects|;
    c.SetSegmentTitles([]);
    selected := c.selectedSegmentIndex;
    log := c.effects[start..];
    visible := c.sliderVisible;
  }
}
