/**
 * The first version of the control: two stacks of labels, a tap handler
 * that scrolls straight to the tapped page, and the width multiplier of
 * the scroll view.  Label colours are the only appearance kept.
 */
module Prototype {
  import opened Geometry
  import opened Effects

  /** `Int(x)` for a CGFloat: the integral part, rounded toward zero. */
  function Trunc(x: real): (r: int)
    ensures 0.0 <= x ==> r as real <= x < r as real + 1.0
    ensures x < 0.0 ==> r as real - 1.0 < x <= r as real
  {
    if x >= 0.0 then x.Floor else -((-x).Floor)
  }

  /** `Int(tapLocationX / scrollViewWidth)`: the page under the tap, counted from the leading edge. */
  function TapIndex(x: real, width: real): int
    requires width > 0.0
  {
    Trunc(x / width)
  }

  /**
   * `scrollViewWidth * CGFloat((numberOfSegments - 1) - index)`: the offset
   * the tap handler scrolls to.  The division traps for a zero width, which
   * is what the scroll view has when there are no segments.
   */
  function TapOffset(x: real, width: real, count: int): real
    requires width > 0.0
  {
    width * ((count - 1) - TapIndex(x, width)) as real
  }

  /** Scaling by a positive width keeps a strict order. */
  lemma MulStrict(a: real, b: real, w: real)
    requires w > 0.0 && a < b
    ensures a * w < b * w
  {
  }

  /** Dividing out a positive width keeps a strict order. */
  lemma MulCancelStrict(a: real, b: real, w: real)
    requires w > 0.0 && a * w < b * w
    ensures a < b
  {
    if b <= a {
      MulMono(b, a, w);
      assert false;
    }
  }

  /** The quotient by a positive width scales back, and is non-negative for a non-negative dividend. */
  lemma Quotient(x: real, w: real)
    requires w > 0.0
    ensures (x / w) * w == x
    ensures 0.0 <= x ==> 0.0 <= x / w
  {
  }

  /** A tap inside the control lands on one of its pages. */
  lemma {:induction false} TapIndexInRange(x: real, width: real, count: int)
    requires width > 0.0 && count > 0
    requires 0.0 <= x < width * count as real
    ensures 0 <= TapIndex(x, width) < count
    ensures TapIndex(x, width) as real * width <= x < (TapIndex(x, width) + 1) as real * width
  {
    var q := x / width;
    var i := TapIndex(x, width);
    Quotient(x, width);
    assert 0.0 <= q && q * width == x;
    assert i as real <= q < (i + 1) as real;
    MulMono(i as real, q, width);
    MulStrict(q, (i + 1) as real, width);
    assert x < (i + 1) as real * width;
    assert width * count as real == count as real * width;
    MulCancelStrict(i as real, count as real, width);
  }

  /**
   * For a tap inside the control the offset lies between 0 and
   * `width * (count - 1)`; the last page scrolls to 0 and the first page
   * to `width * (count - 1)`.
   */
  lemma {:induction false} TapOffsetRange(x: real, width: real, count: int)
    requires width > 0.0 && count > 0
    requires 0.0 <= x < width * count as real
    ensures 0.0 <= TapOffset(x, width, count) <= width * (count - 1) as real
    ensures width * (count - 1) as real <= x ==> TapOffset(x, width, count) == 0.0
    ensures x < width ==> TapOffset(x, width, count) == width * (count - 1) as real
  {
    TapIndexInRange(x, width, count);
    var i := TapIndex(x, width);
    var k := (count - 1) - i;
    assert TapOffset(x, width, count) == width * k as real;
    assert width * k as real == k as real * width;
    assert width * (count - 1) as real == (count - 1) as real * width;
    MulMono(0.0, k as real, width);
    MulMono(k as real, (count - 1) as real, width);
    if width * (count - 1) as real <= x {
      PageBelow(x, width, count - 1, i);
    }
    assert i as real * width <= x;
    if x < width {
      PageBelow(x, width, i, 0);
    }
  }

  /** When page `a` starts at or before `x` and page `b` ends after it, `a <= b`. */
  lemma PageBelow(x: real, width: real, a: int, b: int)
    requires width > 0.0
    requires a as real * width <= x < (b + 1) as real * width
    ensures a <= b
  {
    MulCancelStrict(a as real, (b + 1) as real, width);
  }

  /**
   * The tap handler and the later offset arithmetic agree: on an equal
   * layout the tap offset is the push target of the tapped page, and the
   * offset-to-index pull recovers that page.
   */
  lemma {:induction false} TapMatchesPushAndPull(x: real, width: real, count: nat)
    requires width > 0.0 && count > 0
    requires 0.0 <= x < width * count as real
    ensures 0 <= TapIndex(x, width) < count
    ensures PushTarget(EqualFrames(count, width), TapIndex(x, width)).Some?
    ensures PushTarget(EqualFrames(count, width), TapIndex(x, width)).value == TapOffset(x, width, count)
    ensures PullIndex(count, TapOffset(x, width, count), width) == TapIndex(x, width)
  {
    TapIndexInRange(x, width, count);
    var frames := EqualFrames(count, width);
    PushEqualLayout(frames, width, TapIndex(x, width));
    PushPullRoundTrip(frames, width, TapIndex(x, width));
  }

  datatype TextColor = White | Black

  /** A `UILabel` with its text and text colour; each label is its own object. */
  class Label {
    const text: string
    const textColor: TextColor

    constructor (text: string, textColor: TextColor)
      ensures this.text == text && this.textColor == textColor
    {
      this.text := text;
      this.textColor := textColor;
    }
  }

  /** The labels show `titles` in order, in colour `color`. */
  ghost predicate Shows(labels: seq<Label>, titles: seq<string>, color: TextColor) {
    |labels| == |titles| &&
    forall k :: 0 <= k < |labels| ==> labels[k].text == titles[k] && labels[k].textColor == color
  }

  /** `removeArrangedSubview`: the list without the first occurrence of `x`. */
  function RemoveFirst(s: seq<Label>, x: Label): (r: seq<Label>)
    ensures x !in s ==> r == s
    ensures |s| > 0 && s[0] == x ==> r == s[1..]
    ensures multiset(r) == multiset(s) - multiset{x}
  {
    if s == [] then []
    else
      assert s == [s[0]] + s[1..];
      if s[0] == x then s[1..]
      else
      [s[0]] + RemoveFirst(s[1..], x)
  }

  const DefaultTitles: seq<string> := ["First", "Second", "Third", "Fourth"]

  class PrototypeControl {
    var segmentTitles: seq<string>
    var foregroundSegmentLabels: seq<Label>
    var backgroundSegmentLabels: seq<Label>
    /** `foregroundStackView.arrangedSubviews` */
    var foregroundArranged: seq<Label>
    /** `backgroundStackView.arrangedSubviews` */
    var backgroundArranged: seq<Label>
    var effects: seq<Effect>

    /** Each stack arranges exactly the labels its list holds. */
    ghost predicate Valid()
      reads this
    {
      foregroundArranged == foregroundSegmentLabels && backgroundArranged == backgroundSegmentLabels
    }

    /** One white foreground label and one black background label per title, in order. */
    ghost predicate LabelsShowTitles()
      reads this
    {
      Shows(foregroundSegmentLabels, segmentTitles, White) && Shows(backgroundSegmentLabels, segmentTitles, Black)
    }

    /** `numberOfSegments`: once the labels are set up, also the number of labels in each stack. */
    function NumberOfSegments(): (n: nat)
      reads this
      ensures n == |segmentTitles|
      ensures LabelsShowTitles() ==> n == |foregroundSegmentLabels| == |backgroundSegmentLabels|
    {
      |segmentTitles|
    }

    /** `init(frame:)`: the default titles, one white and one black label per title. */
    constructor ()
      ensures Valid() && segmentTitles == DefaultTitles && LabelsShowTitles()
      ensures Shows(foregroundSegmentLabels, DefaultTitles, White)
      ensures Shows(backgroundSegmentLabels, DefaultTitles, Black)
      ensures effects == [WidthMultiplierUpdate(WidthMultiplier(4))]
    {
      segmentTitles := DefaultTitles;
      foregroundSegmentLabels := [];
      backgroundSegmentLabels := [];
      foregroundArranged := [];
      backgroundArranged := [];
      effects := [WidthMultiplierUpdate(WidthMultiplier(|DefaultTitles|))];
      new;
      SetupLabels();
    }

    /**
     * `setupLabels()`: every old label leaves its stack, and a fresh label
     * per title is appended to each list and stack.
     */
    method SetupLabels()
      requires Valid()
      modifies this`foregroundSegmentLabels, this`backgroundSegmentLabels
      modifies this`foregroundArranged, this`backgroundArranged
      ensures Valid() && LabelsShowTitles()
      ensures Shows(foregroundSegmentLabels, segmentTitles, White)
      ensures Shows(backgroundSegmentLabels, segmentTitles, Black)
      ensures forall k :: 0 <= k < |foregroundSegmentLabels| ==> fresh(foregroundSegmentLabels[k])
      ensures forall k :: 0 <= k < |backgroundSegmentLabels| ==> fresh(backgroundSegmentLabels[k])
    {
      var i := 0;
      while i < |foregroundSegmentLabels|
        invariant 0 <= i <= |foregroundSegmentLabels|
        invariant foregroundArranged == foregroundSegmentLabels[i..]
        modifies this`foregroundArranged
      {
        foregroundArranged := RemoveFirst(foregroundArranged, foregroundSegmentLabels[i]);
        i := i + 1;
      }
      foregroundSegmentLabels := [];
      for j := 0 to |segmentTitles|
        invariant foregroundArranged == foregroundSegmentLabels
        invariant Shows(foregroundSegmentLabels, segmentTitles[..j], White)
        invariant forall k :: 0 <= k < |foregroundSegmentLabels| ==> fresh(foregroundSegmentLabels[k])
        modifies this`foregroundArranged, this`foregroundSegmentLabels
      {
        var l := new Label(segmentTitles[j], White);
        foregroundArranged := foregroundArranged + [l];
        foregroundSegmentLabels := foregroundSegmentLabels + [l];
      }
      assert segmentTitles[..|segmentTitles|] == segmentTitles;

      i := 0;
      while i < |backgroundSegmentLabels|
        invariant 0 <= i <= |backgroundSegmentLabels|
        invariant backgroundArranged == backgroundSegmentLabels[i..]
        modifies this`backgroundArranged
      {
        backgroundArranged := RemoveFirst(backgroundArranged, backgroundSegmentLabels[i]);
        i := i + 1;
      }
      backgroundSegmentLabels := [];
      for j := 0 to |segmentTitles|
        invariant backgroundArranged == backgroundSegmentLabels
        invariant Shows(backgroundSegmentLabels, segmentTitles[..j], Black)
        invariant forall k :: 0 <= k < |backgroundSegmentLabels| ==> fresh(backgroundSegmentLabels[k])
        modifies this`backgroundArranged, this`backgroundSegmentLabels
      {
        var l := new Label(segmentTitles[j], Black);
        backgroundArranged := backgroundArranged + [l];
        backgroundSegmentLabels := backgroundSegmentLabels + [l];
      }
      assert segmentTitles[..|segmentTitles|] == segmentTitles;
    }

    /** `segmentTitles` and its `didSet`: new multiplier, then the label rebuild. */
    method SetSegmentTitles(titles: seq<string>)
      requires Valid()
      modifies this
      ensures Valid() && segmentTitles == titles && LabelsShowTitles()
      ensures NumberOfSegments() == |titles|
      ensures Shows(foregroundSegmentLabels, titles, White)
      ensures Shows(backgroundSegmentLabels, titles, Black)
      ensures forall k :: 0 <= k < |foregroundSegmentLabels| ==> foregroundSegmentLabels[k] !in old(foregroundSegmentLabels)
      ensures forall k :: 0 <= k < |backgroundSegmentLabels| ==> backgroundSegmentLabels[k] !in old(backgroundSegmentLabels)
      ensures effects == old(effects) + [WidthMultiplierUpdate(WidthMultiplier(|titles|))]
    {
      segmentTitles := titles;
      effects := effects + [WidthMultiplierUpdate(WidthMultiplier(|segmentTitles|))];
      SetupLabels();
    }

    /** `tapGestureRecognizerDidTap(_:)`: an animated scroll to the tapped page. */
    method TapGestureRecognizerDidTap(tapLocationX: real, scrollViewWidth: real)
      requires scrollViewWidth > 0.0
      modifies this`effects
      ensures effects == old(effects) + [ContentOffset(TapOffset(tapLocationX, scrollViewWidth, |segmentTitles|), true)]
    {
      var index := Trunc(tapLocationX / scrollViewWidth);
      var lastIndex := |segmentTitles| - 1;
      var complementIndex := lastIndex - index;
      var scrollViewOffsetX := scrollViewWidth * complementIndex as real;
      assert scrollViewOffsetX == TapOffset(tapLocationX, scrollViewWidth, |segmentTitles|);
      effects := effects + [ContentOffset(scrollViewOffsetX, true)];
    }

    /** `scrollViewDidScroll(_:)`: the mask follows the slider. */
    method ScrollViewDidScroll()
      modifies this`effects
      ensures effects == old(effects) + [MaskFrameUpdate]
    {
      effects := effects + [MaskFrameUpdate];
    }
  }
}
