/**
 * What the control asks of UIKit, as an append-only log: the views
 * themselves are not modelled, only the requests made to them.
 */
module Effects {

  /** Which control a highlight request is for. */
  datatype HighlightTarget = Control | BackgroundSegment(index: nat)

  datatype Effect =
    /** `sendActions(for: .valueChanged)` */
    | ValueChanged
    /** The slider and the foreground track are shown (fading in over `duration`) or hidden at once. */
    | SliderVisibility(visible: bool, duration: real)
    /** `scrollView.setContentOffset(CGPoint(x: x, y: 0), animated: animated)` */
    | ContentOffset(x: real, animated: bool)
    /** `control.isHighlighted = on`, inside `UIView.animate` when `animated`. */
    | Highlight(target: HighlightTarget, on: bool, duration: real, animated: bool)
    /** The slider's width constraint is replaced with this multiplier of the control's width. */
    | WidthMultiplierUpdate(multiplier: real)
    /** The foreground mask is moved to the slider's frame. */
    | MaskFrameUpdate

  /** The targets of the offset requests made with the given animation flag, in order. */
  function OffsetRequests(effects: seq<Effect>, animated: bool): (xs: seq<real>)
    ensures |xs| <= |effects|
  {
    if effects == [] then []
    else
      var e := effects[0];
      (if e.ContentOffset? && e.animated == animated then [e.x] else [])
      + OffsetRequests(effects[1..], animated)
  }

  /** The visibility requests, in order (true: show, false: hide). */
  function VisibilityRequests(effects: seq<Effect>): (vs: seq<bool>)
    ensures |vs| <= |effects|
  {
    if effects == [] then []
    else
      (if effects[0].SliderVisibility? then [effects[0].visible] else [])
      + VisibilityRequests(effects[1..])
  }

  /** How many value-changed events the log holds. */
  function ValueChangedCount(effects: seq<Effect>): nat {
    multiset(effects)[ValueChanged]
  }

  lemma {:induction false} OffsetRequestsAppend(a: seq<Effect>, b: seq<Effect>, animated: bool)
    ensures OffsetRequests(a + b, animated) == OffsetRequests(a, animated) + OffsetRequests(b, animated)
  {
    if a != [] {
      var e := a[0];
      var head := if e.ContentOffset? && e.animated == animated then [e.x] else [];
      assert (a + b)[0] == e;
      assert (a + b)[1..] == a[1..] + b;
      assert OffsetRequests(a + b, animated) == head + OffsetRequests(a[1..] + b, animated);
      OffsetRequestsAppend(a[1..], b, animated);
      assert OffsetRequests(a, animated) == head + OffsetRequests(a[1..], animated);
    } else {
      assert a + b == b;
    }
  }

  lemma {:induction false} VisibilityRequestsAppend(a: seq<Effect>, b: seq<Effect>)
    ensures VisibilityRequests(a + b) == VisibilityRequests(a) + VisibilityRequests(b)
  {
    if a != [] {
      var head := if a[0].SliderVisibility? then [a[0].visible] else [];
      assert (a + b)[0] == a[0];
      assert (a + b)[1..] == a[1..] + b;
      assert VisibilityRequests(a + b) == head + VisibilityRequests(a[1..] + b);
      VisibilityRequestsAppend(a[1..], b);
    } else {
      assert a + b == b;
    }
  }
}
