/**
 * `ScrollingSegmentedControl`: the selection and highlight state machine.
 *
 * The views are not modelled.  The buttons of the two stack views are
 * values in `backgroundSegments` and `foregroundSegments`; everything the
 * control asks of UIKit (value-changed events, offset requests, highlight
 * and visibility changes, constraint and mask updates) is appended to
 * `effects`.  The scroll view's offset and width, the segments' frames and
 * the touch location are inputs of the methods that read them.
 */
module Control {
  import opened Wrappers
  import opened Geometry
  import opened Effects
  import opened Selection
  import opened Gestures

  /** The buttons with their frames replaced by a layout pass. */
  function WithFrames(buttons: seq<SegmentButton>, frames: seq<Frame>): (r: seq<SegmentButton>)
    requires |frames| == |buttons|
    ensures |r| == |buttons| && Frames(r) == frames && Titles(r) == Titles(buttons)
    ensures forall i :: 0 <= i < |buttons| ==> r[i].isHighlighted == buttons[i].isHighlighted
  {
    var r := seq(|buttons|, i requires 0 <= i < |buttons| => buttons[i].(frame := frames[i]));
    assert Frames(r) == frames;
    assert Titles(r) == Titles(buttons);
    r
  }

  /** The slider's visibility after the selection observer went from `oldValue` to `newValue`. */
  function VisibleAfter(oldValue: int, newValue: int, wasVisible: bool): bool {
    if oldValue == NoSegment || newValue == NoSegment then newValue != NoSegment else wasVisible
  }

  class ScrollingSegmentedControl {
    var segmentTitles: seq<string>
    var selectedSegmentIndex: int
    var highlightedSegmentIndex: Option<nat>
    /** The control's own `isHighlighted`, driven by the slider press. */
    var isHighlighted: bool
    var backgroundSegments: seq<SegmentButton>
    var foregroundSegments: seq<SegmentButton>
    /** `foregroundStackView.bounds.width` */
    var stackWidth: real
    /** Whether the scroll view and the foreground track are shown (alpha 1) or hidden (alpha 0). */
    var sliderVisible: bool
    var effects: seq<Effect>

    /** The object invariant: one button per title, a valid selection, a slider shown exactly when something is selected. */
    ghost predicate Valid()
      reads this
    {
      && Titles(backgroundSegments) == segmentTitles
      && Titles(foregroundSegments) == segmentTitles
      && IsValidSelection(|segmentTitles|, selectedSegmentIndex)
      && sliderVisible == (selectedSegmentIndex != NoSegment)
      && 0.0 <= stackWidth
    }

    /** Exactly the background button named by `highlightedSegmentIndex` is highlighted. */
    ghost predicate HighlightConsistent()
      reads this
    {
      HighlightExclusive(backgroundSegments, highlightedSegmentIndex)
    }

    /** `numberOfSegments` */
    function NumberOfSegments(): (n: nat)
      reads this
      ensures Valid() ==> n == |backgroundSegments| == |foregroundSegments|
    {
      |segmentTitles|
    }

    /** `init(frame:)`: `setup()` with the default titles. */
    constructor ()
      ensures Valid() && HighlightConsistent()
      ensures segmentTitles == ["First", "Second"]
      ensures selectedSegmentIndex == NoSegment && highlightedSegmentIndex == None && !isHighlighted
      ensures backgroundSegments == NewButtons(segmentTitles) && foregroundSegments == NewButtons(segmentTitles)
      ensures stackWidth == 0.0 && !sliderVisible
      ensures effects == [WidthMultiplierUpdate(WidthMultiplier(2)), VisibilityEffect(NoSegment)]
    {
      segmentTitles := ["First", "Second"];
      selectedSegmentIndex := NoSegment;
      highlightedSegmentIndex := None;
      isHighlighted := false;
      backgroundSegments := [];
      foregroundSegments := [];
      stackWidth := 0.0;
      sliderVisible := true;
      effects := [];
      new;
      UpdateScrollViewWidthAnchorMultiplier();
      SetupSegmentButtons();
      UpdateSliderViewHiddenState();
    }

    // -------------------------------------------------------------------
    // Update methods

    /** `updateScrollViewWidthAnchorMultiplier` */
    method UpdateScrollViewWidthAnchorMultiplier()
      modifies this`effects
      ensures effects == old(effects) + [WidthMultiplierUpdate(WidthMultiplier(|segmentTitles|))]
    {
      effects := effects + [WidthMultiplierUpdate(WidthMultiplier(|segmentTitles|))];
    }

    /** `updateSliderMaskViewFrame` */
    method UpdateSliderMaskViewFrame()
      modifies this`effects
      ensures effects == old(effects) + [MaskFrameUpdate]
    {
      effects := effects + [MaskFrameUpdate];
    }

    /** `setupSegmentButtons`: both lists are rebuilt from the titles, with new buttons. */
    method SetupSegmentButtons()
      modifies this`backgroundSegments, this`foregroundSegments
      ensures backgroundSegments == NewButtons(segmentTitles)
      ensures foregroundSegments == NewButtons(segmentTitles)
    {
      foregroundSegments := NewButtons(segmentTitles);
      backgroundSegments := NewButtons(segmentTitles);
    }

    /** `updateSliderViewHiddenState`: hidden exactly when nothing is selected. */
    method UpdateSliderViewHiddenState()
      modifies this`sliderVisible, this`effects
      ensures sliderVisible <==> selectedSegmentIndex != NoSegment
      ensures effects == old(effects) + [VisibilityEffect(selectedSegmentIndex)]
    {
      sliderVisible := selectedSegmentIndex != NoSegment;
      effects := effects + [VisibilityEffect(selectedSegmentIndex)];
    }

    /**
     * `updateScrollViewOffset(animated:)`: no request without segments or
     * without a selection, otherwise a request for the push target.
     */
    method UpdateScrollViewOffset(animated: bool)
      modifies this`effects
      ensures effects == old(effects) + OffsetEffects(Frames(backgroundSegments), selectedSegmentIndex, animated)
    {
      match PushTarget(Frames(backgroundSegments), selectedSegmentIndex)
      case None =>
      case Some(x) =>
        effects := effects + [ContentOffset(x, animated)];
    }

    /** `setHighlightedState(of:to:animationDuration:)`: the flag ends up as requested, animated or not. */
    method SetHighlightedState(target: HighlightTarget, on: bool, duration: real)
      requires target.BackgroundSegment? ==> target.index < |backgroundSegments|
      modifies this`backgroundSegments, this`isHighlighted, this`effects
      ensures effects == old(effects) + [HighlightEffect(target, on, duration)]
      ensures backgroundSegments == ApplyHighlight(old(backgroundSegments), HighlightEffect(target, on, duration))
      ensures target.BackgroundSegment? ==> backgroundSegments[target.index].isHighlighted == on
      ensures isHighlighted == if target == Control then on else old(isHighlighted)
    {
      var e := HighlightEffect(target, on, duration);
      if target == Control {
        isHighlighted := on;
      } else {
        backgroundSegments := backgroundSegments[target.index := backgroundSegments[target.index].(isHighlighted := on)];
      }
      effects := effects + [e];
    }

    // -------------------------------------------------------------------
    // Stored properties and their observers

    /**
     * `selectedSegmentIndex = v`: validation snaps an invalid value to
     * `noSegment`, then the observer issues its effects.
     */
    method SetSelectedSegmentIndex(v: int)
      modifies this`selectedSegmentIndex, this`sliderVisible, this`effects
      ensures selectedSegmentIndex == Validate(|segmentTitles|, v)
      ensures effects == old(effects) + AssignmentEffects(|segmentTitles|, Frames(backgroundSegments), old(selectedSegmentIndex), v)
      ensures sliderVisible == VisibleAfter(old(selectedSegmentIndex), selectedSegmentIndex, old(sliderVisible))
      ensures old(Valid()) ==> Valid()
    {
      var oldValue := selectedSegmentIndex;
      ghost var log := effects;
      selectedSegmentIndex := v;
      // validation: the corrected value is stored without re-running this observer
      if !(0 <= selectedSegmentIndex < |segmentTitles| || selectedSegmentIndex == NoSegment) {
        selectedSegmentIndex := NoSegment;
      }
      if oldValue != selectedSegmentIndex {
        effects := effects + [ValueChanged];
      }
      ghost var head: seq<Effect> := if oldValue != selectedSegmentIndex then [ValueChanged] else [];
      assert effects == log + head;
      if oldValue == NoSegment || selectedSegmentIndex == NoSegment {
        UpdateSliderViewHiddenState();
        UpdateScrollViewOffset(false);
        assert effects == log + head + ([VisibilityEffect(selectedSegmentIndex)]
          + OffsetEffects(Frames(backgroundSegments), selectedSegmentIndex, false));
        return;
      }
      UpdateScrollViewOffset(true);
    }

    /** `validateSelectedSegmentIndex`: an invalid selection is assigned `noSegment` through the observer. */
    method ValidateSelectedSegmentIndex()
      modifies this`selectedSegmentIndex, this`sliderVisible, this`effects
      ensures selectedSegmentIndex == Validate(|segmentTitles|, old(selectedSegmentIndex))
      ensures effects == old(effects) +
        if IsValidSelection(|segmentTitles|, old(selectedSegmentIndex)) then []
        else ObserverEffects(Frames(backgroundSegments), old(selectedSegmentIndex), NoSegment)
      ensures sliderVisible == if IsValidSelection(|segmentTitles|, old(selectedSegmentIndex)) then old(sliderVisible) else false
      ensures old(Valid()) ==> Valid()
    {
      if !(0 <= selectedSegmentIndex < |segmentTitles| || selectedSegmentIndex == NoSegment) {
        SetSelectedSegmentIndex(NoSegment);
      }
    }

    /**
     * `segmentTitles = titles`: the selection is revalidated (an index past
     * the new end becomes `noSegment`, with a value-changed event and an
     * immediate hide), the slider's width and mask are updated and both
     * button lists are rebuilt.
     */
    method SetSegmentTitles(titles: seq<string>)
      requires Valid()
      modifies this`segmentTitles, this`selectedSegmentIndex, this`sliderVisible, this`effects
      modifies this`backgroundSegments, this`foregroundSegments
      ensures Valid()
      ensures segmentTitles == titles
      ensures selectedSegmentIndex == Validate(|titles|, old(selectedSegmentIndex))
      ensures backgroundSegments == NewButtons(titles) && foregroundSegments == NewButtons(titles)
      ensures effects == old(effects)
        + (if IsValidSelection(|titles|, old(selectedSegmentIndex)) then []
           else [ValueChanged, VisibilityEffect(NoSegment)])
        + [WidthMultiplierUpdate(WidthMultiplier(|titles|)), MaskFrameUpdate]
    {
      segmentTitles := titles;
      ValidateSelectedSegmentIndex();
      UpdateScrollViewWidthAnchorMultiplier();
      UpdateSliderMaskViewFrame();
      SetupSegmentButtons();
    }

    /**
     * `highlightedSegmentIndex = newValue`: the begin/change/end diff is
     * applied to the background buttons.
     */
    method SetHighlightedSegmentIndex(newValue: Option<nat>)
      requires highlightedSegmentIndex.Some? ==> highlightedSegmentIndex.value < |backgroundSegments|
      requires newValue.Some? ==> newValue.value < |backgroundSegments|
      modifies this`highlightedSegmentIndex, this`backgroundSegments, this`isHighlighted, this`effects
      ensures highlightedSegmentIndex == newValue
      ensures effects == old(effects) + HighlightDiff(old(highlightedSegmentIndex), newValue)
      ensures backgroundSegments == ApplyHighlights(old(backgroundSegments), HighlightDiff(old(highlightedSegmentIndex), newValue))
      ensures isHighlighted == old(isHighlighted)
      ensures old(HighlightConsistent()) ==> HighlightConsistent()
      ensures old(Valid()) ==> Valid()
    {
      var oldValue := highlightedSegmentIndex;
      ghost var before := backgroundSegments;
      highlightedSegmentIndex := newValue;
      ApplyHighlightsSteps(before, HighlightDiff(oldValue, newValue));
      if oldValue.None? && newValue.Some? {
        SetHighlightedState(BackgroundSegment(newValue.value), true, SegmentBeginHighlightingDuration);
      } else if oldValue.Some? && newValue.Some? && oldValue.value != newValue.value {
        SetHighlightedState(BackgroundSegment(oldValue.value), false, SegmentChangeHighlightingDuration);
        SetHighlightedState(BackgroundSegment(newValue.value), true, SegmentChangeHighlightingDuration);
      } else if oldValue.Some? && newValue.None? {
        SetHighlightedState(BackgroundSegment(oldValue.value), false, SegmentEndHighlightingDuration);
      }
      if HighlightExclusive(before, oldValue) {
        HighlightDiffKeepsExclusive(before, oldValue, newValue);
      }
    }

    // -------------------------------------------------------------------
    // Layout

    /**
     * `layoutSubviews`: the stack view lays the buttons out at `frames`,
     * then the offset is pushed again without animation.
     */
    method LayoutSubviews(frames: seq<Frame>, width: real)
      requires Valid()
      requires |frames| == |segmentTitles| && 0.0 <= width
      modifies this`backgroundSegments, this`foregroundSegments, this`stackWidth, this`effects
      ensures Valid()
      ensures backgroundSegments == WithFrames(old(backgroundSegments), frames)
      ensures foregroundSegments == WithFrames(old(foregroundSegments), frames)
      ensures stackWidth == width
      ensures effects == old(effects) + OffsetEffects(frames, selectedSegmentIndex, false)
      ensures old(HighlightConsistent()) ==> HighlightConsistent()
    {
      backgroundSegments := WithFrames(backgroundSegments, frames);
      foregroundSegments := WithFrames(foregroundSegments, frames);
      stackWidth := width;
      UpdateScrollViewOffset(false);
    }

    // -------------------------------------------------------------------
    // Gesture handlers

    /** `handleSliderViewLongPress`: the whole control is highlighted while the slider is pressed. */
    method HandleSliderViewLongPress(phase: Phase)
      modifies this`isHighlighted, this`backgroundSegments, this`effects
      ensures backgroundSegments == old(backgroundSegments)
      ensures phase == Began ==>
        isHighlighted && effects == old(effects) + [HighlightEffect(Control, true, ControlBeginHighlightingDuration)]
      ensures phase == Ended || phase == Cancelled ==>
        !isHighlighted && effects == old(effects) + [HighlightEffect(Control, false, ControlEndHighlightingDuration)]
      ensures phase !in {Began, Ended, Cancelled} ==>
        isHighlighted == old(isHighlighted) && effects == old(effects)
    {
      match phase
      case Began =>
        SetHighlightedState(Control, true, ControlBeginHighlightingDuration);
      case Ended | Cancelled =>
        SetHighlightedState(Control, false, ControlEndHighlightingDuration);
      case _ =>
    }

    /**
     * `handleBackgroundSegmentsLongPress`: the press location is clamped to
     * the stack's width and the first segment containing it is found;
     * began/changed highlight it, ended/cancelled clear the highlight and
     * then select it (or `noSegment` when no segment contains it).
     */
    method HandleBackgroundSegmentsLongPress(phase: Phase, locationX: real)
      requires Valid()
      requires highlightedSegmentIndex.Some? ==> highlightedSegmentIndex.value < |backgroundSegments|
      modifies this`highlightedSegmentIndex, this`backgroundSegments, this`isHighlighted
      modifies this`selectedSegmentIndex, this`sliderVisible, this`effects
      ensures Valid()
      ensures isHighlighted == old(isHighlighted) && stackWidth == old(stackWidth)
      ensures Frames(backgroundSegments) == Frames(old(backgroundSegments))
      ensures old(HighlightConsistent()) ==> HighlightConsistent()
      ensures var current := PressedIndex(Frames(old(backgroundSegments)), stackWidth, locationX);
        phase == Began || phase == Changed ==>
          && highlightedSegmentIndex == current
          && selectedSegmentIndex == old(selectedSegmentIndex)
          && backgroundSegments == ApplyHighlights(old(backgroundSegments), HighlightDiff(old(highlightedSegmentIndex), current))
          && effects == old(effects) + HighlightDiff(old(highlightedSegmentIndex), current)
      ensures var current := PressedIndex(Frames(old(backgroundSegments)), stackWidth, locationX);
        phase == Ended || phase == Cancelled ==>
          && highlightedSegmentIndex == None
          && selectedSegmentIndex == IndexOrNoSegment(current, |segmentTitles|)
          && backgroundSegments == ApplyHighlights(old(backgroundSegments), HighlightDiff(old(highlightedSegmentIndex), None))
          && effects == old(effects) + HighlightDiff(old(highlightedSegmentIndex), None)
               + AssignmentEffects(|segmentTitles|, Frames(old(backgroundSegments)), old(selectedSegmentIndex), IndexOrNoSegment(current, |segmentTitles|))
      ensures phase !in {Began, Changed, Ended, Cancelled} ==>
        && highlightedSegmentIndex == old(highlightedSegmentIndex)
        && selectedSegmentIndex == old(selectedSegmentIndex)
        && backgroundSegments == old(backgroundSegments)
        && effects == old(effects)
    {
      var boundedLocationX := Clamp(locationX, stackWidth);
      var currentIndex := FirstContaining(Frames(backgroundSegments), boundedLocationX);
      ghost var frames := Frames(backgroundSegments);
      match phase {
        case Began | Changed =>
          SetHighlightedSegmentIndex(currentIndex);
        case Ended | Cancelled =>
          PressReleased(currentIndex);
        case _ =>
      }
    }

    /**
     * The release arm of `handleBackgroundSegmentsLongPress`: the highlight
     * ends, then the pressed segment, or `noSegment`, is selected.
     */
    method PressReleased(pressed: Option<nat>)
      requires Valid()
      requires pressed.Some? ==> pressed.value < |segmentTitles|
      requires highlightedSegmentIndex.Some? ==> highlightedSegmentIndex.value < |backgroundSegments|
      modifies this`highlightedSegmentIndex, this`backgroundSegments, this`isHighlighted
      modifies this`selectedSegmentIndex, this`sliderVisible, this`effects
      ensures Valid()
      ensures isHighlighted == old(isHighlighted)
      ensures Frames(backgroundSegments) == Frames(old(backgroundSegments))
      ensures old(HighlightConsistent()) ==> HighlightConsistent()
      ensures highlightedSegmentIndex == None
      ensures selectedSegmentIndex == Validate(|segmentTitles|, IndexOrNoSegment(pressed, |segmentTitles|))
      ensures backgroundSegments == ApplyHighlights(old(backgroundSegments), HighlightDiff(old(highlightedSegmentIndex), None))
      ensures effects == old(effects) + HighlightDiff(old(highlightedSegmentIndex), None)
        + AssignmentEffects(|segmentTitles|, Frames(old(backgroundSegments)), old(selectedSegmentIndex), IndexOrNoSegment(pressed, |segmentTitles|))
    {
      SetHighlightedSegmentIndex(None);
      SetSelectedSegmentIndex(IndexOrNoSegment(pressed, |segmentTitles|));
    }

    // -------------------------------------------------------------------
    // Scroll view delegate

    /**
     * `setSelectedSegmentIndexByScrollViewOffset`: pull the index from the
     * offset and assign it through validation, so a result outside the
     * segments becomes `noSegment` rather than a clamped index.
     */
    method SetSelectedSegmentIndexByScrollViewOffset(offsetX: real, boundsWidth: real)
      requires boundsWidth > 0.0
      modifies this`selectedSegmentIndex, this`sliderVisible, this`effects
      ensures var pulled := PullIndex(|segmentTitles|, offsetX, boundsWidth);
        && selectedSegmentIndex == (if 0 <= pulled < |segmentTitles| then pulled else NoSegment)
        && effects == old(effects) + AssignmentEffects(|segmentTitles|, Frames(backgroundSegments), old(selectedSegmentIndex), pulled)
      ensures sliderVisible == VisibleAfter(old(selectedSegmentIndex), selectedSegmentIndex, old(sliderVisible))
      ensures old(Valid()) ==> Valid()
    {
      var index := PullIndex(|segmentTitles|, offsetX, boundsWidth);
      SetSelectedSegmentIndex(index);
    }

    /** `scrollViewDidEndDragging(_:willDecelerate:)`: pull only when the drag stops without deceleration. */
    method ScrollViewDidEndDragging(decelerate: bool, offsetX: real, boundsWidth: real)
      requires !decelerate ==> boundsWidth > 0.0
      modifies this`selectedSegmentIndex, this`sliderVisible, this`effects
      ensures decelerate ==>
        selectedSegmentIndex == old(selectedSegmentIndex) && sliderVisible == old(sliderVisible) && effects == old(effects)
      ensures !decelerate ==>
        var pulled := PullIndex(|segmentTitles|, offsetX, boundsWidth);
        && selectedSegmentIndex == Validate(|segmentTitles|, pulled)
        && effects == old(effects) + AssignmentEffects(|segmentTitles|, Frames(backgroundSegments), old(selectedSegmentIndex), pulled)
        && sliderVisible == VisibleAfter(old(selectedSegmentIndex), selectedSegmentIndex, old(sliderVisible))
      ensures old(Valid()) ==> Valid()
    {
      if decelerate == false {
        SetSelectedSegmentIndexByScrollViewOffset(offsetX, boundsWidth);
      }
    }

    /** `scrollViewDidEndDecelerating`: the settled offset is pulled. */
    method ScrollViewDidEndDecelerating(offsetX: real, boundsWidth: real)
      requires boundsWidth > 0.0
      modifies this`selectedSegmentIndex, this`sliderVisible, this`effects
      ensures var pulled := PullIndex(|segmentTitles|, offsetX, boundsWidth);
        && selectedSegmentIndex == Validate(|segmentTitles|, pulled)
        && effects == old(effects) + AssignmentEffects(|segmentTitles|, Frames(backgroundSegments), old(selectedSegmentIndex), pulled)
      ensures sliderVisible == VisibleAfter(old(selectedSegmentIndex), selectedSegmentIndex, old(sliderVisible))
      ensures old(Valid()) ==> Valid()
    {
      SetSelectedSegmentIndexByScrollViewOffset(offsetX, boundsWidth);
    }

    /** `scrollViewDidScroll`: the mask follows the slider on every scroll. */
    method ScrollViewDidScroll()
      modifies this`effects
      ensures effects == old(effects) + [MaskFrameUpdate]
    {
      UpdateSliderMaskViewFrame();
    }

    /** `sliderViewSizeDidChange(sliderView:)`: the mask follows the slider's size. */
    method SliderViewSizeDidChange()
      modifies this`effects
      ensures effects == old(effects) + [MaskFrameUpdate]
    {
      UpdateSliderMaskViewFrame();
    }
  }
}
