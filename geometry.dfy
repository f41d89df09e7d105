/**
 * Index <-> offset arithmetic of the control, in page coordinates.
 *
 * The content of the scroll view is laid out in reverse order: the slider
 * sits at the trailing edge of the content, so segment `i` is shown when
 * the scroll offset is `count - 1 - i` pages.  Coordinates are `real`
 * (CGFloat is not modelled).
 */
module Geometry {
  import opened Wrappers

  /** The horizontal extent of a segment's frame, `[minX, maxX]`. */
  datatype Frame = Frame(minX: real, maxX: real)

  const ZeroFrame: Frame := Frame(0.0, 0.0)

  /** `(frame.minX...frame.maxX).contains(x)`: a closed range. */
  predicate Contains(f: Frame, x: real) {
    f.minX <= x <= f.maxX
  }

  /** `min(max(0, x), width)` */
  function Clamp(x: real, width: real): (r: real)
    requires 0.0 <= width
    ensures 0.0 <= r <= width
    ensures 0.0 <= x <= width ==> r == x
    ensures x < 0.0 ==> r == 0.0
    ensures width < x ==> r == width
  {
    var lower := if 0.0 < x then x else 0.0;
    if lower < width then lower else width
  }

  /** `collection[safe: i]`: the element at `i` when `i` is one of the indices. */
  function SafeGet<T>(s: seq<T>, i: int): (r: Option<T>)
    ensures r.Some? <==> 0 <= i < |s|
    ensures r.Some? ==> r.value == s[i]
  {
    if 0 <= i < |s| then Some(s[i]) else None
  }

  /**
   * `segments.firstIndex { ($0.frame.minX...$0.frame.maxX).contains(x) }`:
   * the smallest index whose frame contains `x`.
   */
  function FirstContaining(frames: seq<Frame>, x: real): (r: Option<nat>)
    ensures r.Some? ==> r.value < |frames| && Contains(frames[r.value], x)
    ensures r.Some? ==> forall j :: 0 <= j < r.value ==> !Contains(frames[j], x)
    ensures r.None? ==> forall j :: 0 <= j < |frames| ==> !Contains(frames[j], x)
  {
    if frames == [] then None
    else if Contains(frames[0], x) then Some(0)
    else match FirstContaining(frames[1..], x)
      case None => None
      case Some(k) => Some(k + 1)
  }

  /** The segment under a press at `x`, after clamping `x` to the stack's width. */
  function PressedIndex(frames: seq<Frame>, width: real, x: real): Option<nat>
    requires 0.0 <= width
  {
    FirstContaining(frames, Clamp(x, width))
  }

  /**
   * The scroll offset that shows segment `i`: the origin of the last
   * segment as seen from segment `i`, that is `last.minX - selected.minX`.
   * Nothing when there are no segments or `i` is not a segment.
   */
  function PushTarget(frames: seq<Frame>, i: int): (r: Option<real>)
    ensures r.Some? <==> 0 <= i < |frames|
  {
    if |frames| == 0 then None
    else match SafeGet(frames, i)
      case None => None
      case Some(selected) => Some(frames[|frames| - 1].minX - selected.minX)
  }

  /** Swift's `round`: to the nearest integer, ties away from zero. */
  function Round(x: real): (r: int)
    ensures -0.5 <= x - r as real <= 0.5
    ensures x - r as real == 0.5 ==> x < 0.0
    ensures x - r as real == -0.5 ==> x > 0.0
  {
    if x >= 0.0 then (x + 0.5).Floor else -((-x + 0.5).Floor)
  }

  /**
   * `(count - 1) - Int(round(offsetX / width))`: the segment whose page is
   * nearest to the scroll offset.  `width` is the page width; the source
   * traps on the division when it is 0.
   */
  function PullIndex(count: int, offsetX: real, width: real): (r: int)
    requires width > 0.0
    ensures -width / 2.0 <= offsetX - (count - 1 - r) as real * width <= width / 2.0
  {
    var complement := Round(offsetX / width);
    ScaleHalfPage(offsetX, complement, width);
    (count - 1) - complement
  }

  lemma ScaleHalfPage(offsetX: real, k: int, width: real)
    requires width > 0.0
    requires -0.5 <= offsetX / width - k as real <= 0.5
    ensures -width / 2.0 <= offsetX - k as real * width <= width / 2.0
  {
    var q := offsetX / width;
    assert q * width == offsetX;
    assert offsetX - k as real * width == (q - k as real) * width;
    MulMono(-0.5, q - k as real, width);
    MulMono(q - k as real, 0.5, width);
    assert -0.5 * width == -width / 2.0 && 0.5 * width == width / 2.0;
    assert -width / 2.0 <= (q - k as real) * width;
    assert (q - k as real) * width <= width / 2.0;
  }

  lemma MulMono(a: real, b: real, w: real)
    requires w > 0.0 && a <= b
    ensures a * w <= b * w
  {
  }

  /** The layout `.fillEqually` gives: segment `j` spans `[j*w, (j+1)*w]`. */
  ghost predicate EqualLayout(frames: seq<Frame>, w: real) {
    forall j :: 0 <= j < |frames| ==> frames[j] == Frame(j as real * w, (j + 1) as real * w)
  }

  function EqualFrames(count: nat, w: real): (frames: seq<Frame>)
    ensures |frames| == count && EqualLayout(frames, w)
  {
    seq(count, j => Frame(j as real * w, (j + 1) as real * w))
  }

  /** `scrollViewWidthMultiplier`: the slider is one page, 1/count of the control. */
  function WidthMultiplier(count: nat): (m: real)
    ensures count == 0 ==> m == 0.0
    ensures count > 0 ==> 0.0 < m <= 1.0 && m * count as real == 1.0
  {
    if count > 0 then 1.0 / count as real else 0.0
  }

  /** With equal widths the push target of segment `i` is `w * (count - 1 - i)`. */
  lemma {:induction false} PushEqualLayout(frames: seq<Frame>, w: real, i: int)
    requires EqualLayout(frames, w)
    requires 0 <= i < |frames|
    ensures PushTarget(frames, i).Some?
    ensures PushTarget(frames, i).value == w * (|frames| - 1 - i) as real
  {
    var n := |frames|;
    assert frames[n - 1].minX == (n - 1) as real * w;
    assert frames[i].minX == i as real * w;
    assert SafeGet(frames, i) == Some(frames[i]);
    assert PushTarget(frames, i) == Some(frames[n - 1].minX - frames[i].minX);
    assert (n - 1 - i) as real == (n - 1) as real - i as real;
    assert (n - 1) as real * w - i as real * w == w * ((n - 1) as real - i as real);
    assert frames[n - 1].minX - frames[i].minX == w * (n - 1 - i) as real;
  }

  /** Rounding an integral value gives it back. */
  lemma RoundIntegral(k: int)
    ensures Round(k as real) == k
  {
  }

  /** Pulling the offset that push produced gives back the same segment. */
  lemma {:induction false} PushPullRoundTrip(frames: seq<Frame>, w: real, i: int)
    requires EqualLayout(frames, w) && w > 0.0
    requires 0 <= i < |frames|
    ensures PushTarget(frames, i).Some?
    ensures PullIndex(|frames|, PushTarget(frames, i).value, w) == i
  {
    var n := |frames|;
    PushEqualLayout(frames, w, i);
    var k := n - 1 - i;
    assert PushTarget(frames, i).value == w * k as real;
    assert (w * k as real) / w == k as real;
    RoundIntegral(k);
  }

  /**
   * Pull then push on an equal layout lands within half a page of the
   * offset it started from, whenever the pulled index is a segment.
   */
  lemma {:induction false} PullPushWithinHalfPage(frames: seq<Frame>, w: real, offsetX: real)
    requires EqualLayout(frames, w) && w > 0.0
    requires 0 <= PullIndex(|frames|, offsetX, w) < |frames|
    ensures PushTarget(frames, PullIndex(|frames|, offsetX, w)).Some?
    ensures -w / 2.0 <= offsetX - PushTarget(frames, PullIndex(|frames|, offsetX, w)).value <= w / 2.0
  {
    var i := PullIndex(|frames|, offsetX, w);
    PushEqualLayout(frames, w, i);
    assert w * (|frames| - 1 - i) as real == (|frames| - 1 - i) as real * w;
  }

  /**
   * On an equal layout a press strictly inside segment `i` selects `i`, and
   * a press on the boundary shared by `i` and `i + 1` goes to the lower
   * index `i`.
   */
  lemma {:induction false} FirstContainingEqualLayout(frames: seq<Frame>, w: real, i: int, x: real)
    requires EqualLayout(frames, w) && w > 0.0
    requires 0 <= i < |frames|
    requires i as real * w < x <= (i + 1) as real * w
    ensures FirstContaining(frames, x) == Some(i)
  {
    forall j | 0 <= j < i
      ensures !Contains(frames[j], x)
    {
      MulMono((j + 1) as real, i as real, w);
      assert frames[j].maxX == (j + 1) as real * w;
    }
    assert Contains(frames[i], x);
  }

  /** A press at the leading edge selects segment 0. */
  lemma FirstContainingLeadingEdge(frames: seq<Frame>, w: real)
    requires EqualLayout(frames, w) && w > 0.0 && |frames| > 0
    ensures FirstContaining(frames, 0.0) == Some(0)
  {
    assert Contains(frames[0], 0.0);
  }
}
