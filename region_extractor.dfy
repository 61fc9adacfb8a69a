/**
 * The face region of one frame (main.py, `process_frame`, lines 78-97):
 * the tight box around the landmarks, padded by 20 pixels and clamped to
 * the frame, and the size of the numpy crop `frame[y_min:y_max, x_min:x_max]`.
 *
 * Landmarks arrive here as integer pixel coordinates: `landmark.x * w`
 * already truncated by `int(...)`.  Truncation is monotone, so
 * `int(min(xs))` is the minimum of the truncated coordinates and nothing
 * is lost by truncating first.
 */
module RegionExtractor {

  /** One landmark, scaled to pixels and truncated. */
  datatype Point = Point(x: int, y: int)

  /** A pixel box; `xMax` and `yMax` are exclusive slice bounds. */
  datatype Box = Box(xMin: int, yMin: int, xMax: int, yMax: int)

  /** The padding added on every side of the tight box. */
  const Padding: int := 20

  function Min(a: int, b: int): int { if a <= b then a else b }
  function Max(a: int, b: int): int { if a >= b then a else b }

  /** The list comprehensions `x_coords` and `y_coords`. */
  function Xs(ps: seq<Point>): (xs: seq<int>)
    ensures |xs| == |ps| && forall i :: 0 <= i < |ps| ==> xs[i] == ps[i].x
  {
    seq(|ps|, i requires 0 <= i < |ps| => ps[i].x)
  }

  function Ys(ps: seq<Point>): (ys: seq<int>)
    ensures |ys| == |ps| && forall i :: 0 <= i < |ps| ==> ys[i] == ps[i].y
  {
    seq(|ps|, i requires 0 <= i < |ps| => ps[i].y)
  }

  /** Python's `min` over a non-empty list. */
  function SeqMin(s: seq<int>): (m: int)
    requires |s| > 0
    ensures m in s
    ensures forall i :: 0 <= i < |s| ==> m <= s[i]
  {
    if |s| == 1 then s[0] else Min(SeqMin(s[..|s| - 1]), s[|s| - 1])
  }

  /** Python's `max` over a non-empty list. */
  function SeqMax(s: seq<int>): (m: int)
    requires |s| > 0
    ensures m in s
    ensures forall i :: 0 <= i < |s| ==> s[i] <= m
  {
    if |s| == 1 then s[0] else Max(SeqMax(s[..|s| - 1]), s[|s| - 1])
  }

  /** Lines 82-85: the smallest box holding every landmark, each edge on a landmark. */
  function TightBox(ps: seq<Point>): (b: Box)
    requires |ps| > 0
    ensures forall i :: 0 <= i < |ps| ==>
      b.xMin <= ps[i].x <= b.xMax && b.yMin <= ps[i].y <= b.yMax
    ensures exists i :: 0 <= i < |ps| && ps[i].x == b.xMin
    ensures exists i :: 0 <= i < |ps| && ps[i].x == b.xMax
    ensures exists i :: 0 <= i < |ps| && ps[i].y == b.yMin
    ensures exists i :: 0 <= i < |ps| && ps[i].y == b.yMax
  {
    Box(SeqMin(Xs(ps)), SeqMin(Ys(ps)), SeqMax(Xs(ps)), SeqMax(Ys(ps)))
  }

  /** Lines 88-92: every edge moved out by `Padding`, then clamped to `[0,w] x [0,h]`. */
  function Pad(b: Box, w: nat, h: nat): Box
  {
    Box(Max(0, b.xMin - Padding), Max(0, b.yMin - Padding),
        Min(w, b.xMax + Padding), Min(h, b.yMax + Padding))
  }

  /** Lines 78-92: the face box of a frame `w` pixels wide and `h` high. */
  function FaceBox(ps: seq<Point>, w: nat, h: nat): (b: Box)
    requires |ps| > 0
    ensures 0 <= b.xMin && 0 <= b.yMin && b.xMax <= w && b.yMax <= h
  {
    Pad(TightBox(ps), w, h)
  }

  /** Every landmark lies in the frame `[0,w] x [0,h]`. */
  predicate InFrame(ps: seq<Point>, w: nat, h: nat)
  {
    forall i :: 0 <= i < |ps| ==> 0 <= ps[i].x <= w && 0 <= ps[i].y <= h
  }

  /**
   * Python's normalisation of one slice bound against a length `n`
   * (step 1): a negative bound counts from the end, and the result is
   * clamped to `[0, n]`.
   */
  function SliceBound(n: nat, i: int): (k: nat)
    ensures k <= n
    ensures 0 <= i <= n ==> k == i
    ensures i < 0 && 0 <= i + n ==> k == i + n
    ensures i + n < 0 ==> k == 0
    ensures n < i ==> k == n
  {
    if i < 0 then (if i + n < 0 then 0 else i + n)
    else if i > n then n
    else i
  }

  /** The number of elements of `xs[start:stop]` for `|xs| == n`. */
  function SliceLength(n: nat, start: int, stop: int): nat
  {
    var a := SliceBound(n, start);
    var b := SliceBound(n, stop);
    if a < b then b - a else 0
  }

  /** `face_roi.size` for `face_roi = frame[b.yMin:b.yMax, b.xMin:b.xMax]`, frame shape (h, w, c). */
  function CropSize(h: nat, w: nat, c: nat, b: Box): nat
  {
    SliceLength(h, b.yMin, b.yMax) * SliceLength(w, b.xMin, b.xMax) * c
  }

  /** Within the sequence, a slice holds exactly the elements between its bounds. */
  lemma SliceLengthInRange(n: nat, start: int, stop: int)
    requires 0 <= start <= n && 0 <= stop <= n
    ensures SliceLength(n, start, stop) == Max(0, stop - start)
  {
  }

  /**
   * Landmarks inside the frame give an ordered box that still holds
   * every landmark.
   */
  lemma FaceBoxOrdered(ps: seq<Point>, w: nat, h: nat)
    requires |ps| > 0 && InFrame(ps, w, h)
    ensures var b := FaceBox(ps, w, h);
      b.xMin <= b.xMax && b.yMin <= b.yMax &&
      forall i :: 0 <= i < |ps| ==>
        b.xMin <= ps[i].x <= b.xMax && b.yMin <= ps[i].y <= b.yMax
  {
    var t := TightBox(ps);
    assert 0 <= ps[0].x <= w && 0 <= ps[0].y <= h;
    assert t.xMin <= ps[0].x <= t.xMax && t.yMin <= ps[0].y <= t.yMax;
  }

  /**
   * Where clamping does not bite, each edge moves out by exactly the
   * padding, so width and height grow by twice the padding.
   */
  lemma FaceBoxUnclamped(ps: seq<Point>, w: nat, h: nat)
    requires |ps| > 0
    requires var t := TightBox(ps);
      Padding <= t.xMin && t.xMax + Padding <= w &&
      Padding <= t.yMin && t.yMax + Padding <= h
    ensures var t, b := TightBox(ps), FaceBox(ps, w, h);
      b == Box(t.xMin - Padding, t.yMin - Padding, t.xMax + Padding, t.yMax + Padding) &&
      b.xMax - b.xMin == t.xMax - t.xMin + 2 * Padding &&
      b.yMax - b.yMin == t.yMax - t.yMin + 2 * Padding
  {
  }

  /**
   * For landmarks inside the frame the numpy crop is exactly the face box:
   * its size is the box's area times the channels.
   */
  lemma CropIsBoxArea(ps: seq<Point>, w: nat, h: nat, c: nat)
    requires |ps| > 0 && InFrame(ps, w, h)
    ensures var b := FaceBox(ps, w, h);
      CropSize(h, w, c, b) == (b.yMax - b.yMin) * (b.xMax - b.xMin) * c
  {
    FaceBoxOrdered(ps, w, h);
    var b := FaceBox(ps, w, h);
    SliceLengthInRange(h, b.yMin, b.yMax);
    SliceLengthInRange(w, b.xMin, b.xMax);
  }

  /**
   * Thanks to the padding, landmarks inside a non-empty frame never give
   * an empty crop, a single landmark included.
   */
  lemma CropNonEmpty(ps: seq<Point>, w: nat, h: nat, c: nat)
    requires |ps| > 0 && InFrame(ps, w, h)
    requires 0 < w && 0 < h && 0 < c
    ensures CropSize(h, w, c, FaceBox(ps, w, h)) > 0
  {
    var t, b := TightBox(ps), FaceBox(ps, w, h);
    assert 0 <= ps[0].x <= w && 0 <= ps[0].y <= h;
    assert t.xMin <= ps[0].x <= t.xMax && t.yMin <= ps[0].y <= t.yMax;
    assert b.xMin < b.xMax && b.yMin < b.yMax;
    SliceLengthInRange(h, b.yMin, b.yMax);
    SliceLengthInRange(w, b.xMin, b.xMax);
    ProductPositive(SliceLength(h, b.yMin, b.yMax), SliceLength(w, b.xMin, b.xMax), c);
  }

  lemma ProductPositive(a: nat, b: nat, c: nat)
    requires 0 < a && 0 < b && 0 < c
    ensures a * b * c > 0
  {
    assert a * b >= b;
  }

  /**
   * The clamp only bounds `x_max` from above: landmarks to the left of the
   * frame give a negative `x_max`.  When `-w < x_max < 0` numpy counts that
   * stop from the right edge, so the crop is non-empty although the box is
   * inverted.
   */
  lemma CropWrapsAround()
    ensures var b := FaceBox([Point(-50, 10)], 100, 100);
      b == Box(0, 0, -30, 30) && CropSize(100, 100, 3, b) == 30 * 70 * 3
  {
    var ps := [Point(-50, 10)];
    assert Xs(ps) == [-50] && Ys(ps) == [10];
  }

  /** When `x_max <= -w` the stop is clamped to 0 and the crop is empty. */
  lemma CropEmptyFarLeft()
    ensures var b := FaceBox([Point(-200, 10)], 100, 100);
      b == Box(0, 0, -180, 30) && CropSize(100, 100, 3, b) == 0
  {
    var ps := [Point(-200, 10)];
    assert Xs(ps) == [-200] && Ys(ps) == [10];
  }
}
