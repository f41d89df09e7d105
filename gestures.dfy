/**
 * The gesture recognizers the control creates or hosts, their lifecycle
 * phases, and the two `UIGestureRecognizerDelegate` rules it answers.
 */
module Gestures {

  /** The recognizers the delegate can be asked about, by identity. */
  datatype Recognizer =
    | BackgroundSegmentsLongPress  // the press over the background segments
    | SliderViewLongPress          // the press on the slider
    | ScrollViewPan                // the scroll view's pan, moved onto the slider
    | OtherRecognizer              // any recognizer the control does not own

  /** `UIGestureRecognizer.State` */
  datatype Phase = Possible | Began | Changed | Ended | Cancelled | Failed

  /**
   * `shouldRecognizeSimultaneouslyWith`: the set `{a, b}` holds both the
   * slider press and the scroll pan.
   */
  predicate ShouldRecognizeSimultaneously(a: Recognizer, b: Recognizer) {
    var recognizers := {a, b};
    SliderViewLongPress in recognizers && ScrollViewPan in recognizers
  }

  /** `shouldRequireFailureOf`: only the background press waits, and only for the pan. */
  predicate ShouldRequireFailure(a: Recognizer, b: Recognizer) {
    a == BackgroundSegmentsLongPress && b == ScrollViewPan
  }

  /**
   * Two recognizers run together exactly when they are the slider press
   * and the scroll pan, in either order; the rule is symmetric.
   */
  lemma SimultaneousExactlySliderAndPan(a: Recognizer, b: Recognizer)
    ensures ShouldRecognizeSimultaneously(a, b) <==>
      (a == SliderViewLongPress && b == ScrollViewPan) || (a == ScrollViewPan && b == SliderViewLongPress)
    ensures ShouldRecognizeSimultaneously(a, b) == ShouldRecognizeSimultaneously(b, a)
  {
    if a == SliderViewLongPress && b != ScrollViewPan {
      assert ScrollViewPan !in {a, b};
    }
    if a == ScrollViewPan && b != SliderViewLongPress {
      assert SliderViewLongPress !in {a, b};
    }
    if a != SliderViewLongPress && a != ScrollViewPan {
      assert a in {a, b};
    }
  }

  /**
   * The failure requirement is one-way, never holds for a pair that runs
   * simultaneously, and never makes a recognizer wait for itself.
   */
  lemma RequireFailureOneWay(a: Recognizer, b: Recognizer)
    ensures ShouldRequireFailure(a, b) ==> !ShouldRequireFailure(b, a)
    ensures ShouldRequireFailure(a, b) ==> !ShouldRecognizeSimultaneously(a, b)
    ensures !ShouldRequireFailure(a, a)
  {
  }
}
