/**
 * The selection model: the `selectedSegmentIndex` sentinel and its
 * validation, the effects its property observer issues, and the
 * begin/change/end diff behind `highlightedSegmentIndex`.
 */
module Selection {
  import opened Wrappers
  import opened Geometry
  import opened Effects

  /** `ScrollingSegmentedControl.noSegment` */
  const NoSegment: int := -1

  /** Animation durations, in seconds. */
  const ControlBeginHighlightingDuration: real := 0.25
  const ControlEndHighlightingDuration: real := 0.25
  const SegmentBeginHighlightingDuration: real := 0.1
  const SegmentChangeHighlightingDuration: real := 0.1
  const SegmentEndHighlightingDuration: real := 0.25
  const SliderAppearDuration: real := 0.25

  /** A selection is a segment index or the `noSegment` sentinel. */
  predicate IsValidSelection(count: int, i: int) {
    0 <= i < count || i == NoSegment
  }

  /** `validateSelectedSegmentIndex`: an invalid index becomes `noSegment`, never a clamped index. */
  function Validate(count: nat, v: int): (r: int)
    ensures IsValidSelection(count, r)
    ensures r == v <==> IsValidSelection(count, v)
    ensures r == v || r == NoSegment
  {
    if 0 <= v < count || v == NoSegment then v else NoSegment
  }

  /** A segment button: its title, its `isHighlighted` flag and its laid-out frame. */
  datatype SegmentButton = SegmentButton(title: string, isHighlighted: bool, frame: Frame)

  function Frames(buttons: seq<SegmentButton>): (frames: seq<Frame>)
    ensures |frames| == |buttons|
    ensures forall i :: 0 <= i < |buttons| ==> frames[i] == buttons[i].frame
  {
    seq(|buttons|, i requires 0 <= i < |buttons| => buttons[i].frame)
  }

  function Titles(buttons: seq<SegmentButton>): (titles: seq<string>)
    ensures |titles| == |buttons|
  {
    seq(|buttons|, i requires 0 <= i < |buttons| => buttons[i].title)
  }

  /** `segmentTitles.map { SegmentButton() with that title }`: new buttons, not yet laid out. */
  function NewButtons(titles: seq<string>): (buttons: seq<SegmentButton>)
    ensures |buttons| == |titles|
    ensures Titles(buttons) == titles
    ensures forall i :: 0 <= i < |titles| ==> !buttons[i].isHighlighted && buttons[i].frame == ZeroFrame
  {
    var buttons := seq(|titles|, i requires 0 <= i < |titles| => SegmentButton(titles[i], false, ZeroFrame));
    assert Titles(buttons) == titles;
    buttons
  }

  // ---------------------------------------------------------------------
  // selectedSegmentIndex

  /** `updateSliderViewHiddenState`: hide at once on `noSegment`, otherwise fade in. */
  function VisibilityEffect(selected: int): (e: Effect)
    ensures e.SliderVisibility?
    ensures e.visible <==> selected != NoSegment
  {
    if selected == NoSegment then SliderVisibility(false, 0.0)
    else SliderVisibility(true, SliderAppearDuration)
  }

  /** `updateScrollViewOffset(animated:)`: one offset request, or none without a target. */
  function OffsetEffects(frames: seq<Frame>, selected: int, animated: bool): seq<Effect> {
    match PushTarget(frames, selected)
    case None => []
    case Some(x) => [ContentOffset(x, animated)]
  }

  /** An offset request is made exactly when the selection is one of the segments. */
  lemma OffsetEffectsPresent(frames: seq<Frame>, selected: int, animated: bool)
    ensures |OffsetEffects(frames, selected, animated)| == if 0 <= selected < |frames| then 1 else 0
    ensures 0 <= selected < |frames| ==>
      OffsetEffects(frames, selected, animated) == [ContentOffset(frames[|frames| - 1].minX - frames[selected].minX, animated)]
  {
  }

  /**
   * The body of the `selectedSegmentIndex` observer once validation has
   * produced `newValue`: a value-changed event when the value changed, then
   * either a visibility update and a non-animated offset request (when
   * `noSegment` is on either side) or an animated offset request.
   */
  function ObserverEffects(frames: seq<Frame>, oldValue: int, newValue: int): seq<Effect> {
    (if oldValue != newValue then [ValueChanged] else [])
    + (if oldValue == NoSegment || newValue == NoSegment
       then [VisibilityEffect(newValue)] + OffsetEffects(frames, newValue, false)
       else OffsetEffects(frames, newValue, true))
  }

  /**
   * The effects of `selectedSegmentIndex = v`, reading the comment
   * at the validation call as the authors intend: the reassignment made by
   * validation only corrects the stored value and the observer runs once.
   */
  function AssignmentEffects(count: nat, frames: seq<Frame>, oldValue: int, v: int): seq<Effect> {
    ObserverEffects(frames, oldValue, Validate(count, v))
  }

  /**
   * The same assignment as Swift runs it: validation assigns through the
   * property's setter from a separate method, so for an invalid value the
   * observer runs again (from `v` to `noSegment`) before the outer
   * run finishes.
   */
  function AssignmentEffectsAsWritten(count: nat, frames: seq<Frame>, oldValue: int, v: int): seq<Effect> {
    if IsValidSelection(count, v) then ObserverEffects(frames, oldValue, v)
    else ObserverEffects(frames, v, NoSegment) + ObserverEffects(frames, oldValue, NoSegment)
  }

  lemma ValueChangedCountOf(a: seq<Effect>, b: seq<Effect>)
    ensures ValueChangedCount(a + b) == ValueChangedCount(a) + ValueChangedCount(b)
  {
    assert multiset(a + b) == multiset(a) + multiset(b);
  }

  /** The observer sends exactly one value-changed event when the value changed, and none otherwise. */
  lemma ObserverValueChanged(frames: seq<Frame>, oldValue: int, newValue: int)
    ensures ValueChangedCount(ObserverEffects(frames, oldValue, newValue)) == if oldValue != newValue then 1 else 0
  {
    var head: seq<Effect> := if oldValue != newValue then [ValueChanged] else [];
    var tail: seq<Effect> :=
      if oldValue == NoSegment || newValue == NoSegment
      then [VisibilityEffect(newValue)] + OffsetEffects(frames, newValue, false)
      else OffsetEffects(frames, newValue, true);
    ValueChangedCountOf(head, tail);
    assert ValueChangedCount(tail) == 0 by {
      assert ValueChanged !in tail;
    }
  }

  /**
   * Assigning `v` sends value-changed exactly when the validated value
   * differs from the old one; assigning the current value sends nothing.
   */
  lemma {:induction false} AssignmentValueChanged(count: nat, frames: seq<Frame>, oldValue: int, v: int)
    ensures ValueChangedCount(AssignmentEffects(count, frames, oldValue, v))
            == if Validate(count, v) != oldValue then 1 else 0
    ensures IsValidSelection(count, oldValue) ==> ValueChangedCount(AssignmentEffects(count, frames, oldValue, oldValue)) == 0
  {
    ObserverValueChanged(frames, oldValue, Validate(count, v));
    ObserverValueChanged(frames, oldValue, Validate(count, oldValue));
  }

  /**
   * When `noSegment` is on either side the observer makes one visibility
   * request, hiding exactly when the new value is `noSegment`, and at most a
   * non-animated offset request (exactly one when a segment is selected).
   */
  lemma {:induction false} ObserverVisibilityBranch(frames: seq<Frame>, oldValue: int, newValue: int)
    requires oldValue == NoSegment || newValue == NoSegment
    requires IsValidSelection(|frames|, newValue)
    ensures VisibilityRequests(ObserverEffects(frames, oldValue, newValue)) == [newValue != NoSegment]
    ensures OffsetRequests(ObserverEffects(frames, oldValue, newValue), true) == []
    ensures |OffsetRequests(ObserverEffects(frames, oldValue, newValue), false)| == if newValue == NoSegment then 0 else 1
  {
    var head: seq<Effect> := if oldValue != newValue then [ValueChanged] else [];
    var offs := OffsetEffects(frames, newValue, false);
    var tail := [VisibilityEffect(newValue)] + offs;
    assert ObserverEffects(frames, oldValue, newValue) == head + tail;
    VisibilityRequestsAppend(head, tail);
    VisibilityRequestsAppend([VisibilityEffect(newValue)], offs);
    OffsetRequestsAppend(head, tail, true);
    OffsetRequestsAppend([VisibilityEffect(newValue)], offs, true);
    OffsetRequestsAppend(head, tail, false);
    OffsetRequestsAppend([VisibilityEffect(newValue)], offs, false);
  }

  /**
   * Between two segments the observer makes exactly one request: an
   * animated offset request to the new segment's push target.
   */
  lemma {:induction false} ObserverAnimatedBranch(frames: seq<Frame>, oldValue: int, newValue: int)
    requires oldValue != NoSegment && newValue != NoSegment
    requires 0 <= newValue < |frames|
    ensures VisibilityRequests(ObserverEffects(frames, oldValue, newValue)) == []
    ensures OffsetRequests(ObserverEffects(frames, oldValue, newValue), false) == []
    ensures OffsetRequests(ObserverEffects(frames, oldValue, newValue), true) == [PushTarget(frames, newValue).value]
  {
    var head: seq<Effect> := if oldValue != newValue then [ValueChanged] else [];
    var tail := OffsetEffects(frames, newValue, true);
    assert tail == [ContentOffset(PushTarget(frames, newValue).value, true)];
    VisibilityRequestsAppend(head, tail);
    OffsetRequestsAppend(head, tail, true);
    OffsetRequestsAppend(head, tail, false);
  }

  /**
   * As written, assigning an invalid index sends one value-changed event
   * more than the intended observer does.
   */
  lemma {:induction false} AsWrittenExtraValueChanged(count: nat, frames: seq<Frame>, oldValue: int, v: int)
    requires !IsValidSelection(count, v)
    ensures ValueChangedCount(AssignmentEffectsAsWritten(count, frames, oldValue, v))
            == ValueChangedCount(AssignmentEffects(count, frames, oldValue, v)) + 1
  {
    ObserverValueChanged(frames, v, NoSegment);
    ObserverValueChanged(frames, oldValue, NoSegment);
    ValueChangedCountOf(ObserverEffects(frames, v, NoSegment), ObserverEffects(frames, oldValue, NoSegment));
  }

  /**
   * With four segments and nothing selected, assigning 5 leaves the
   * selection at `noSegment` yet, as written, sends a value-changed event.
   */
  lemma ReentrantValidationCounterexample(frames: seq<Frame>)
    ensures Validate(4, 5) == NoSegment
    ensures ValueChangedCount(AssignmentEffectsAsWritten(4, frames, NoSegment, 5)) == 1
    ensures ValueChangedCount(AssignmentEffects(4, frames, NoSegment, 5)) == 0
  {
    AssignmentValueChanged(4, frames, NoSegment, 5);
    AsWrittenExtraValueChanged(4, frames, NoSegment, 5);
  }

  /**
   * `index ?? noSegment` for an index found among `count` segments: the
   * result is already a valid selection, so validation leaves it alone,
   * and it is `noSegment` exactly when no segment was found.
   */
  function IndexOrNoSegment(index: Option<nat>, count: nat): (r: int)
    requires index.Some? ==> index.value < count
    ensures IsValidSelection(count, r) && Validate(count, r) == r
    ensures r == NoSegment <==> index.None?
  {
    match index
    case Some(i) => i
    case None => NoSegment
  }

  // ---------------------------------------------------------------------
  // highlightedSegmentIndex

  /** `setHighlightedState(of:to:animationDuration:)`: animated exactly when the duration is positive. */
  function HighlightEffect(target: HighlightTarget, on: bool, duration: real): (e: Effect)
    ensures e.Highlight? && e.target == target && e.on == on && e.duration == duration
    ensures e.animated <==> duration > 0.0
  {
    Highlight(target, on, duration, duration > 0.0)
  }

  /** The `highlightedSegmentIndex` observer: began, changed or ended, and nothing when equal. */
  function HighlightDiff(oldValue: Option<nat>, newValue: Option<nat>): seq<Effect> {
    if oldValue.None? && newValue.Some? then
      [HighlightEffect(BackgroundSegment(newValue.value), true, SegmentBeginHighlightingDuration)]
    else if oldValue.Some? && newValue.Some? && oldValue.value != newValue.value then
      [HighlightEffect(BackgroundSegment(oldValue.value), false, SegmentChangeHighlightingDuration),
       HighlightEffect(BackgroundSegment(newValue.value), true, SegmentChangeHighlightingDuration)]
    else if oldValue.Some? && newValue.None? then
      [HighlightEffect(BackgroundSegment(oldValue.value), false, SegmentEndHighlightingDuration)]
    else []
  }

  /** What a highlight request does to the background buttons. */
  function ApplyHighlight(buttons: seq<SegmentButton>, e: Effect): (r: seq<SegmentButton>)
    ensures |r| == |buttons| && Titles(r) == Titles(buttons) && Frames(r) == Frames(buttons)
  {
    var r :=
      if e.Highlight? && e.target.BackgroundSegment? && e.target.index < |buttons| then
        buttons[e.target.index := buttons[e.target.index].(isHighlighted := e.on)]
      else buttons;
    assert Titles(r) == Titles(buttons);
    assert Frames(r) == Frames(buttons);
    r
  }

  /** Highlight requests change only the flags: titles and frames stay. */
  function ApplyHighlights(buttons: seq<SegmentButton>, effects: seq<Effect>): (r: seq<SegmentButton>)
    ensures |r| == |buttons| && Titles(r) == Titles(buttons) && Frames(r) == Frames(buttons)
    decreases |effects|
  {
    if effects == [] then buttons
    else ApplyHighlights(ApplyHighlight(buttons, effects[0]), effects[1..])
  }

  /** Applying a diff of up to two requests is applying them one after the other. */
  lemma {:induction false} ApplyHighlightsSteps(buttons: seq<SegmentButton>, effects: seq<Effect>)
    requires |effects| <= 2
    ensures |effects| == 0 ==> ApplyHighlights(buttons, effects) == buttons
    ensures |effects| == 1 ==> ApplyHighlights(buttons, effects) == ApplyHighlight(buttons, effects[0])
    ensures |effects| == 2 ==>
      ApplyHighlights(buttons, effects) == ApplyHighlight(ApplyHighlight(buttons, effects[0]), effects[1])
  {
    if |effects| > 0 {
      var rest := effects[1..];
      var mid := ApplyHighlight(buttons, effects[0]);
      assert ApplyHighlights(buttons, effects) == ApplyHighlights(mid, rest);
      if |rest| > 0 {
        assert ApplyHighlights(mid, rest) == ApplyHighlights(ApplyHighlight(mid, rest[0]), rest[1..]);
        assert rest[1..] == [];
      }
      assert rest == [] ==> ApplyHighlights(mid, rest) == mid;
    }
  }

  /** Exactly the button named by `highlighted` is highlighted. */
  ghost predicate HighlightExclusive(buttons: seq<SegmentButton>, highlighted: Option<nat>) {
    && (highlighted.Some? ==> highlighted.value < |buttons|)
    && forall i :: 0 <= i < |buttons| ==> (buttons[i].isHighlighted <==> highlighted == Some(i))
  }

  /** At most one button is highlighted when the highlight is exclusive. */
  lemma ExclusiveAtMostOne(buttons: seq<SegmentButton>, highlighted: Option<nat>)
    requires HighlightExclusive(buttons, highlighted)
    ensures forall i, j :: 0 <= i < j < |buttons| ==> !(buttons[i].isHighlighted && buttons[j].isHighlighted)
  {
  }

  /**
   * Applying the diff from `oldValue` to `newValue` to buttons in which
   * exactly `oldValue` is highlighted leaves exactly `newValue` highlighted.
   */
  lemma {:induction false} HighlightDiffKeepsExclusive(buttons: seq<SegmentButton>, oldValue: Option<nat>, newValue: Option<nat>)
    requires HighlightExclusive(buttons, oldValue)
    requires newValue.Some? ==> newValue.value < |buttons|
    ensures HighlightExclusive(ApplyHighlights(buttons, HighlightDiff(oldValue, newValue)), newValue)
  {
    var d := HighlightDiff(oldValue, newValue);
    if d == [] {
      assert oldValue == newValue;
    } else if |d| == 1 {
      assert ApplyHighlights(buttons, d) == ApplyHighlight(buttons, d[0]);
    } else {
      var mid := ApplyHighlight(buttons, d[0]);
      assert ApplyHighlights(buttons, d) == ApplyHighlights(mid, d[1..]);
      assert ApplyHighlights(mid, d[1..]) == ApplyHighlight(mid, d[1]);
    }
  }

  /**
   * The duration tiers: the diff is empty exactly when nothing changed;
   * every request is animated and for a background segment; highlighting
   * the new index takes 0.1 s, unhighlighting the old one takes 0.1 s on a
   * change and 0.25 s on an end.
   */
  lemma HighlightDiffTiers(oldValue: Option<nat>, newValue: Option<nat>)
    ensures HighlightDiff(oldValue, newValue) == [] <==> oldValue == newValue
    ensures forall e <- HighlightDiff(oldValue, newValue) ::
      e.Highlight? && e.target.BackgroundSegment? && e.animated
    ensures forall e <- HighlightDiff(oldValue, newValue) :: e.on ==>
      newValue == Some(e.target.index)
      && e.duration == (if oldValue.None? then SegmentBeginHighlightingDuration else SegmentChangeHighlightingDuration)
    ensures forall e <- HighlightDiff(oldValue, newValue) :: !e.on ==>
      oldValue == Some(e.target.index)
      && e.duration == (if newValue.None? then SegmentEndHighlightingDuration else SegmentChangeHighlightingDuration)
  {
  }
}
