# ScrollingSegmentedControl — selection and highlight model

`ScrollingSegmentedControl` is a UIKit segmented control whose selected
segment is shown by a slider that the user can drag. The slider is a paging
scroll view, one segment wide. Its content is laid out in reverse order, so
segment `i` is on screen when the scroll offset is `count - 1 - i` pages.
The selection moves in two directions. A *push* scrolls to the selected
segment whenever `selectedSegmentIndex` changes or the control lays itself
out. A *pull* turns a settled scroll offset back into an index and assigns
it. A press on the background segments highlights the segment under the
finger and selects it on release. A press on the slider highlights the
whole control.

This project models that state machine in Dafny:

- `wrappers.dfy` — `Option`.
- `geometry.dfy` — the index/offset arithmetic, with frames and coordinates as `real`:
  - push target and pull index;
  - Swift's `round`;
  - the clamped `firstIndex` search behind a press;
  - the slider's width multiplier.
- `effects.dfy` — the effect log. Every request the control makes of UIKit is a value appended to a log:
  - value-changed events, offset requests, highlight changes;
  - slider visibility, constraint updates, mask updates.
- `selection.dfy` — the `noSegment` sentinel and its validation, plus:
  - the effects of the `selectedSegmentIndex` observer;
  - the begin/change/end diff of the `highlightedSegmentIndex` observer, with its duration tiers.
- `gestures.dfy` — the recognizers as tags, their phases, and the two delegate rules.
- `control.dfy` — the control itself, as a class:
  - its stored properties are fields, its methods update them in place;
  - the observers are the `Set…` methods;
  - scroll-view offsets, bounds and segment frames are inputs of the methods that read them.
- `colors.dfy` — `UIColor(rgb:)`: channel extraction from a `0xRRGGBB` integer.
- `prototype.dfy` — the earlier version of the control:
  - the tap handler that scrolls straight to the tapped page;
  - the label lists that `setupLabels` rebuilds, as a class whose loops empty and refill them.
- `scenarios.dfy` — worked examples over the model.

## Model

| member | source | states |
|---|---|---|
| Geometry.Clamp | Sources/ScrollingSegmentedControl/ScrollingSegmentedControl.swift:401 | `min(max(0, x), width)` lies in `[0, width]`, is `x` inside that range and the nearer end outside it |
| Geometry.SafeGet | Demo/ScrollingSegmentedControlDemo/ScrollingSegmentedControl.swift:521-525 | `subscript(safe:)` yields a value exactly when the index is one of the collection's indices, and then the element at that index |
| Geometry.FirstContaining | Sources/ScrollingSegmentedControl/ScrollingSegmentedControl.swift:403-405 | the `firstIndex` search returns the smallest index whose closed frame contains `x`, and nothing only when no frame contains it |
| Geometry.PushTarget | Sources/ScrollingSegmentedControl/ScrollingSegmentedControl.swift:325-334 | a push target exists exactly when there are segments and the selection is one of them (the guard on `last` and `[safe:]`) |
| Geometry.Round | Sources/ScrollingSegmentedControl/ScrollingSegmentedControl.swift:469 | Swift's `round`: within half a unit of its argument, ties rounded away from zero |
| Geometry.PullIndex | Sources/ScrollingSegmentedControl/ScrollingSegmentedControl.swift:468-472 | the pulled index's page is within half a page of the offset |
| Geometry.WidthMultiplier | Sources/ScrollingSegmentedControl/ScrollingSegmentedControl.swift:108-113 | 0 with no segments, otherwise a positive multiplier with `m * count == 1` |
| Geometry.PushEqualLayout | Sources/ScrollingSegmentedControl/ScrollingSegmentedControl.swift:325-334 | with equal widths `w` the push target of segment `i` is `w * (count - 1 - i)` |
| Geometry.RoundIntegral | Sources/ScrollingSegmentedControl/ScrollingSegmentedControl.swift:469 | rounding an integral value returns it |
| Geometry.PushPullRoundTrip | Sources/ScrollingSegmentedControl/ScrollingSegmentedControl.swift:468-472 | pulling the offset that a push produced gives back the same segment |
| Geometry.PullPushWithinHalfPage | Sources/ScrollingSegmentedControl/ScrollingSegmentedControl.swift:325-334 | pull then push on an equal layout lands within half a page of the starting offset |
| Geometry.FirstContainingEqualLayout | Sources/ScrollingSegmentedControl/ScrollingSegmentedControl.swift:403-405 | on an equal layout a press inside segment `i` finds `i`, and a press on the boundary between `i` and `i + 1` finds the lower index |
| Geometry.FirstContainingLeadingEdge | Sources/ScrollingSegmentedControl/ScrollingSegmentedControl.swift:401-405 | a press clamped to the leading edge finds segment 0 |
| Selection.Validate | Sources/ScrollingSegmentedControl/ScrollingSegmentedControl.swift:366-371 | the result is always a segment or `noSegment`; it is the input exactly when the input is valid, and `noSegment` otherwise (never a clamped index) |
| Selection.NewButtons | Sources/ScrollingSegmentedControl/ScrollingSegmentedControl.swift:240-262 | one new, unhighlighted, unlaid-out button per title, in title order |
| Selection.OffsetEffectsPresent | Sources/ScrollingSegmentedControl/ScrollingSegmentedControl.swift:325-334 | an offset request is made exactly when the selection is one of the segments, and it targets `last.minX - selected.minX` |
| Selection.VisibilityEffect | Sources/ScrollingSegmentedControl/ScrollingSegmentedControl.swift:344-361 | the slider is shown exactly when something is selected |
| Selection.ObserverValueChanged | Sources/ScrollingSegmentedControl/ScrollingSegmentedControl.swift:60-62 | the observer sends exactly one value-changed event when the value changed and none otherwise |
| Selection.AssignmentValueChanged | Sources/ScrollingSegmentedControl/ScrollingSegmentedControl.swift:56-62 | an assignment sends value-changed exactly when the validated value differs from the old one; assigning the current value sends nothing |
| Selection.ObserverVisibilityBranch | Sources/ScrollingSegmentedControl/ScrollingSegmentedControl.swift:63-67 | with `noSegment` on either side: one visibility request (hide exactly on `noSegment`), no animated offset request, and a non-animated one exactly when a segment is selected |
| Selection.ObserverAnimatedBranch | Sources/ScrollingSegmentedControl/ScrollingSegmentedControl.swift:69-70 | between two segments: no visibility request and exactly one animated offset request, to the new segment's push target |
| Selection.AsWrittenExtraValueChanged | Sources/ScrollingSegmentedControl/ScrollingSegmentedControl.swift:56-62 | as written, an invalid assignment sends one value-changed event more than the intended observer |
| Selection.ReentrantValidationCounterexample | Sources/ScrollingSegmentedControl/ScrollingSegmentedControl.swift:56-62 | four segments, nothing selected, assign 5: the selection stays `noSegment` but, as written, one value-changed event is sent |
| Selection.IndexOrNoSegment | Sources/ScrollingSegmentedControl/ScrollingSegmentedControl.swift:403-416 | `currentIndex ?? noSegment` for an index found among the segments is already a valid selection, so validation never changes it, and it is `noSegment` exactly when no segment was found |
| Selection.HighlightEffect | Sources/ScrollingSegmentedControl/ScrollingSegmentedControl.swift:373-383 | a highlight request for the given target and state, animated exactly when the duration is positive |
| Selection.ExclusiveAtMostOne | Sources/ScrollingSegmentedControl/ScrollingSegmentedControl.swift:73-93 | when exactly the highlighted index is highlighted, no two buttons are highlighted at once |
| Selection.HighlightDiffKeepsExclusive | Sources/ScrollingSegmentedControl/ScrollingSegmentedControl.swift:73-93 | applying the begin/change/end diff to buttons where exactly the old index is highlighted leaves exactly the new index highlighted |
| Selection.HighlightDiffTiers | Sources/ScrollingSegmentedControl/ScrollingSegmentedControl.swift:73-93 | the diff is empty exactly when old equals new; every request is animated; highlighting takes 0.1 s on a begin and on a change; unhighlighting takes 0.1 s on a change and 0.25 s on an end |
| Gestures.SimultaneousExactlySliderAndPan | Sources/ScrollingSegmentedControl/ScrollingSegmentedControl.swift:423-429 | two recognizers run together exactly when they are the slider press and the scroll pan, in either order; the rule is symmetric |
| Gestures.RequireFailureOneWay | Sources/ScrollingSegmentedControl/ScrollingSegmentedControl.swift:431-436 | the failure requirement is one-way, disjoint from the simultaneous pair, and never reflexive |
| Control.WithFrames | Sources/ScrollingSegmentedControl/ScrollingSegmentedControl.swift:310-314 | a layout pass gives the buttons the new frames and keeps their titles and highlight flags |
| Control.ScrollingSegmentedControl.NumberOfSegments | Sources/ScrollingSegmentedControl/ScrollingSegmentedControl.swift:104-106 | the number of segments matches both button lists |
| Control.ScrollingSegmentedControl.constructor | Sources/ScrollingSegmentedControl/ScrollingSegmentedControl.swift:162-192 | two default titles, nothing selected or highlighted, the slider hidden, the invariants established |
| Control.ScrollingSegmentedControl.UpdateScrollViewWidthAnchorMultiplier | Sources/ScrollingSegmentedControl/ScrollingSegmentedControl.swift:336-342 | one constraint update carrying the current multiplier |
| Control.ScrollingSegmentedControl.UpdateSliderMaskViewFrame | Sources/ScrollingSegmentedControl/ScrollingSegmentedControl.swift:474-476 | one mask update |
| Control.ScrollingSegmentedControl.SetupSegmentButtons | Sources/ScrollingSegmentedControl/ScrollingSegmentedControl.swift:240-262 | both button lists are rebuilt from the titles |
| Control.ScrollingSegmentedControl.UpdateSliderViewHiddenState | Sources/ScrollingSegmentedControl/ScrollingSegmentedControl.swift:344-361 | the slider is visible exactly when something is selected |
| Control.ScrollingSegmentedControl.UpdateScrollViewOffset | Sources/ScrollingSegmentedControl/ScrollingSegmentedControl.swift:325-334 | the log grows by the offset request for the selection's push target, if it has one, and nothing else changes |
| Control.ScrollingSegmentedControl.SetHighlightedState | Demo/ScrollingSegmentedControlDemo/ScrollingSegmentedControl.swift:373-383 | the target's flag ends up as requested, and nothing else changes |
| Control.ScrollingSegmentedControl.SetSelectedSegmentIndex | Sources/ScrollingSegmentedControl/ScrollingSegmentedControl.swift:56-71 | (corrected observer) the stored value is the validated value and the log grows by the observer's effects, run once; the slider is shown after a change to or from `noSegment` exactly when a segment is selected; the object invariant is kept |
| Control.ScrollingSegmentedControl.ValidateSelectedSegmentIndex | Sources/ScrollingSegmentedControl/ScrollingSegmentedControl.swift:366-371 | a valid selection is left alone with no effects; an invalid one becomes `noSegment` through the observer |
| Control.ScrollingSegmentedControl.SetSegmentTitles | Sources/ScrollingSegmentedControl/ScrollingSegmentedControl.swift:34-41 | after any title change the selection is valid for the new count, with a value-changed event and a hide exactly when it was invalidated; then the multiplier and mask updates; both button lists rebuilt |
| Control.ScrollingSegmentedControl.SetHighlightedSegmentIndex | Sources/ScrollingSegmentedControl/ScrollingSegmentedControl.swift:73-93 | the log grows by the diff and the buttons are the diff applied; exclusivity of the highlight is preserved |
| Control.ScrollingSegmentedControl.LayoutSubviews | Sources/ScrollingSegmentedControl/ScrollingSegmentedControl.swift:310-315 | frames laid out, then a non-animated push of the current selection |
| Control.ScrollingSegmentedControl.HandleSliderViewLongPress | Sources/ScrollingSegmentedControl/ScrollingSegmentedControl.swift:387-398 | began highlights the control in 0.25 s; ended and cancelled unhighlight it in 0.25 s; other phases change nothing |
| Control.ScrollingSegmentedControl.HandleBackgroundSegmentsLongPress | Sources/ScrollingSegmentedControl/ScrollingSegmentedControl.swift:400-421 | began/changed highlight the pressed segment; ended/cancelled clear the highlight and then select the pressed segment or `noSegment`; frames are kept and the exclusive highlight is preserved, so with `Selection.ExclusiveAtMostOne` at most one segment is highlighted |
| Control.ScrollingSegmentedControl.PressReleased | Sources/ScrollingSegmentedControl/ScrollingSegmentedControl.swift:414-416 | the release arm: the highlight ends, then the pressed index (or `noSegment`) is assigned through validation |
| Control.ScrollingSegmentedControl.SetSelectedSegmentIndexByScrollViewOffset | Sources/ScrollingSegmentedControl/ScrollingSegmentedControl.swift:468-472 | the pulled index is assigned through validation: kept when it is a segment, `noSegment` otherwise |
| Control.ScrollingSegmentedControl.ScrollViewDidEndDragging | Sources/ScrollingSegmentedControl/ScrollingSegmentedControl.swift:444-448 | a drag that ends without deceleration pulls; one that decelerates changes nothing |
| Control.ScrollingSegmentedControl.ScrollViewDidEndDecelerating | Sources/ScrollingSegmentedControl/ScrollingSegmentedControl.swift:450-452 | the settled offset is pulled and assigned through validation |
| Control.ScrollingSegmentedControl.ScrollViewDidScroll | Sources/ScrollingSegmentedControl/ScrollingSegmentedControl.swift:454-456 | every scroll updates the mask |
| Control.ScrollingSegmentedControl.SliderViewSizeDidChange | Sources/ScrollingSegmentedControl/ScrollingSegmentedControl.swift:461-463 | every slider size change updates the mask |
| Colors.ChannelsOf | Demo/ScrollingSegmentedControlDemo/ScrollingSegmentedControl.swift:550-557 | each of the three shifted-and-masked channels lies in `[0, 255]` |
| Colors.ColorOf | Demo/ScrollingSegmentedControlDemo/ScrollingSegmentedControl.swift:541-548 | each component is its channel over 255, so in `[0, 1]`; alpha is passed through |
| Colors.ColorFromRGB | Demo/ScrollingSegmentedControlDemo/ScrollingSegmentedControl.swift:550-557 | every component of the colour lies in `[0, 1]`; alpha is passed through |
| Colors.ColorFromRGBRoundTrip | Demo/ScrollingSegmentedControlDemo/ScrollingSegmentedControl.swift:550-557 | for a 24-bit value the components are the masked channels over 255: scaled by 255 and recombined they give the value back |
| Colors.ChannelsRecombine | Demo/ScrollingSegmentedControlDemo/ScrollingSegmentedControl.swift:550-557 | for a 24-bit value the channels recombine to the value |
| Colors.DefaultBackgroundChannels | Sources/ScrollingSegmentedControl/ScrollingSegmentedControl.swift:119 | `0xF1F2F2` splits into `F1`, `F2`, `F2` |
| Prototype.Trunc | ScrollingSegmentedControl/ScrollingSegmentedControl.swift:223 | `Int(x)` rounds toward zero: within one unit of `x`, on the zero side |
| Prototype.TapIndexInRange | ScrollingSegmentedControl/ScrollingSegmentedControl.swift:223 | a tap inside the control falls on one of its pages, and the page's span contains the tap |
| Prototype.TapOffsetRange | ScrollingSegmentedControl/ScrollingSegmentedControl.swift:219-230 | the tap offset lies in `[0, width * (count - 1)]`; the last page scrolls to 0 and the first to `width * (count - 1)` |
| Prototype.TapMatchesPushAndPull | ScrollingSegmentedControl/ScrollingSegmentedControl.swift:219-230 | the prototype's tap offset is the later push target of the tapped page, and pulling it recovers the page |
| Prototype.RemoveFirst | ScrollingSegmentedControl/ScrollingSegmentedControl.swift:166-169 | `removeArrangedSubview` takes out one occurrence of the label and keeps the rest |
| Prototype.PrototypeControl.NumberOfSegments | ScrollingSegmentedControl/ScrollingSegmentedControl.swift:35-37 | the number of segments is the number of titles and, once the labels show the titles, the number of labels in each stack |
| Prototype.PrototypeControl.constructor | ScrollingSegmentedControl/ScrollingSegmentedControl.swift:54-77 | four default titles, each shown by one white and one black label |
| Prototype.PrototypeControl.SetupLabels | ScrollingSegmentedControl/ScrollingSegmentedControl.swift:164-196 | both lists hold one new label per title, in order and in the right colour; each stack arranges exactly its list |
| Prototype.PrototypeControl.SetSegmentTitles | ScrollingSegmentedControl/ScrollingSegmentedControl.swift:23-28 | a new multiplier, then labels rebuilt; no old label survives |
| Prototype.PrototypeControl.TapGestureRecognizerDidTap | ScrollingSegmentedControl/ScrollingSegmentedControl.swift:219-230 | one animated offset request for the tap offset |
| Prototype.PrototypeControl.ScrollViewDidScroll | ScrollingSegmentedControl/ScrollingSegmentedControl.swift:242-244 | every scroll updates the mask |
| Scenarios.PushSecondOfTwo | Sources/ScrollingSegmentedControl/ScrollingSegmentedControl.swift:325-334 | two segments with the second selected: the slider sits at offset 0 |
| Scenarios.PullHalfwayRoundsAway | Sources/ScrollingSegmentedControl/ScrollingSegmentedControl.swift:468-472 | four segments, offset 1.5 pages: `round` gives 2, so segment 1 |
| Scenarios.PressAt | Sources/ScrollingSegmentedControl/ScrollingSegmentedControl.swift:407-412 | on four 100-point pages, a began or changed press inside page `i` moves the highlight to `i` |
| Scenarios.OutOfRangeFromNoSegment | Sources/ScrollingSegmentedControl/ScrollingSegmentedControl.swift:56-71 | (corrected observer) assigning 5 with four segments and nothing selected: `noSegment`, no value-changed, one hide |
| Scenarios.OutOfRangeFromSegment | Sources/ScrollingSegmentedControl/ScrollingSegmentedControl.swift:56-71 | (corrected observer) the same assignment from segment 2: value-changed, then a hide |
| Scenarios.PressAcrossSegments | Sources/ScrollingSegmentedControl/ScrollingSegmentedControl.swift:400-421 | a press from segment 2 to 3: the highlights go begin 2, change 2→3, end 3; segment 3 ends up selected; nothing stays highlighted |
| Scenarios.TitlesShrinkToNothing | Sources/ScrollingSegmentedControl/ScrollingSegmentedControl.swift:34-41 | with segment 1 selected, emptying the titles leads to `noSegment`, value-changed, a non-animated hide, multiplier 0 and a mask update |

## Left out

- Views and Auto Layout are not modelled. Buttons are values, and constraint activation is a single "width multiplier" effect. This covers `setupSubviews`, `setupStackViews`, `setupScrollView`, `setupSliderView`, `setupGestureRecognizers`, `updateCornerRadius` and `UIView+Constraints`.
- Appearance is not modelled: colours, corner radius, the `SegmentButton` state-to-colour dictionaries, `setColors`, `setBackgroundColor` and `setSegmentColor`. The control's `isHighlighted` observer only recolours.
- The mask geometry and the `SliderScrollView` hit-test are not modelled. A mask recomputation is a single effect. `SliderScrollView.swift` and `SliderView.swift` are not part of this model beyond the size-change callback.
- Animation curves are not modelled. Only the duration and whether an animation is used are recorded.
- Gesture arbitration, paging and deceleration physics are UIKit's. The handlers receive an already-decided phase and location.
- CGFloat arithmetic is modelled as exact `real` arithmetic.
- `init(titles:)` is not modelled.
- `init(coder:)` runs the same `setup()` as `init(frame:)`, so one constructor stands for both.
- Control.ScrollingSegmentedControl.SetSelectedSegmentIndex: runs the `selectedSegmentIndex` observer once with the validated value, as the comment at line 58 of the control intends. As written, the nested assignment in `validateSelectedSegmentIndex()` runs the observer a second time (see Findings); `Selection.AssignmentEffectsAsWritten` gives the log of the code as written, and `Scenarios.OutOfRangeFromNoSegment` and `Scenarios.OutOfRangeFromSegment` state the corrected logs.
- Geometry.PullIndex: does not model the trap that `Int(round(...))` raises when the quotient is not finite or exceeds `Int`'s range. Instead it requires a positive page width, and integers are unbounded.
- Control.ScrollingSegmentedControl.HandleBackgroundSegmentsLongPress: requires the current highlight to name a segment. Titles changed in the middle of a press leave a stale highlight, and the next observer run would index past the end and trap. The model does not follow that path.
- Control.ScrollingSegmentedControl.SetHighlightedSegmentIndex: requires both indices to name segments, because the source subscripts `backgroundSegments` with them. An out-of-range index traps there.
- Button identity is not modelled. `setupSegmentButtons` creates new button objects; the model states only their titles, flags and frames. The prototype's labels are objects, and their freshness is stated.
- Prototype.PrototypeControl.TapGestureRecognizerDidTap: requires a positive width. With no segments the scroll view is zero wide and the division is not finite, which is what the source's FIXME records.
- The demo view controllers and `Package.swift` are not part of this model.

Two behaviours of the code worth noting:

- On press release, when no segment is under the finger, the selection becomes `noSegment`.
- A pull that yields the current index still issues an animated offset request, because the observer pushes on every assignment between two segments.

## Findings

| source | as written | input that shows it | evidently intended | confidence | as-written member | corrected member |
|---|---|---|---|---|---|---|
| Sources/ScrollingSegmentedControl/ScrollingSegmentedControl.swift:56-62, 366-371 | The `selectedSegmentIndex` observer calls `validateSelectedSegmentIndex()`, which assigns `noSegment` from a separate method. Swift then runs the observer again for that nested assignment; the comment at line 58 assumes it does not. | Four segments, nothing selected, `selectedSegmentIndex = 5`. The nested run goes from 5 to `noSegment` and sends value-changed, although the selection stays `noSegment`. | The observer runs once with the validated value: value-changed only when it differs from the old value, here none. | medium; not executed | Selection.ReentrantValidationCounterexample | Selection.AssignmentValueChanged |
