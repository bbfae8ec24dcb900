/** The text rasterizer of `setTargetsFromText`
    (src/components/ParticleScene.tsx): the font-size fitting loops, and the
    stride-3 scan of the rendered white-on-black canvas.

    `measureText` enters as `measure`, the rendered width of the string at a
    given font size. `Math.random()` enters as functions of the pixel
    position, and the HSL-to-RGB conversion of `THREE.Color` as `hsl`. */
module TextSampler {
  import opened Base
  import opened Canvas

  const StartPx: int := 360
  const ShrinkStepPx: int := 10
  /** The shrink loop continues only while the size is above this. */
  const ShrinkFloorPx: int := 48
  /** The smallest size the shrink loop can end on (48 is not a multiple of
      10 below 360). */
  const SmallestPx: int := 40
  const GrowStepPx: int := 8
  const GrowCapPx: int := 420
  /** Strings longer than this after trimming never grow. */
  const GrowMaxLength: int := 2

  /** 88% of the canvas width: the shrink loop's goal. */
  const MaxWidth: real := Size as real * 0.88
  /** 60% of the canvas width: only narrower text is grown. */
  const GrowBelow: real := Size as real * 0.60
  /** 78% of the canvas width: the grow loop's goal. */
  const GrowTarget: real := Size as real * 0.78

  const TextStride: int := 3
  const AlphaFloor: int := 200
  const RedFloor: int := 200
  const TextSpan: real := 50.0
  const DepthJitter: real := 4.0

  /** The size after `k` shrink steps. */
  function ShrinkSize(k: nat): int {
    StartPx - ShrinkStepPx * k
  }

  /** The size after `k` grow steps from `from`. */
  function GrowSize(from: int, k: nat): int {
    from + GrowStepPx * k
  }

  /** `while (w > maxW && fontPx > 48) { fontPx -= 10; ... }` from 360:
      every size tried before the result was too wide, and the result fits
      or is the smallest size the loop reaches. */
  method ShrinkFont(measure: int -> real) returns (px: int, w: real, steps: nat)
    ensures px == ShrinkSize(steps) && w == measure(px)
    ensures SmallestPx <= px <= StartPx
    ensures w <= MaxWidth || px == SmallestPx
    ensures forall k :: 0 <= k < steps ==> ShrinkSize(k) > ShrinkFloorPx && measure(ShrinkSize(k)) > MaxWidth
  {
    px, steps := StartPx, 0;
    w := measure(px);
    while w > MaxWidth && px > ShrinkFloorPx
      invariant px == ShrinkSize(steps) && w == measure(px)
      invariant SmallestPx <= px <= StartPx
      invariant forall k :: 0 <= k < steps ==> ShrinkSize(k) > ShrinkFloorPx && measure(ShrinkSize(k)) > MaxWidth
      decreases px
    {
      px := px - ShrinkStepPx;
      w := measure(px);
      steps := steps + 1;
    }
  }

  /** The guard of the grow phase. */
  predicate ShouldGrow(w: real, trimmedLength: nat, px: int) {
    w < GrowBelow && trimmedLength <= GrowMaxLength && px < GrowCapPx
  }

  /** `while (w < size * 0.78 && fontPx < 420) { fontPx += 8; ... }`, entered
      only for short, narrow text: it then grows at least once and stops at
      the first size wide enough or at the cap, so the result stays below
      428; every size it grew past was too narrow. */
  method GrowFont(measure: int -> real, px0: int, w0: real, trimmedLength: nat) returns (px: int, w: real, steps: nat)
    requires w0 == measure(px0)
    ensures px == GrowSize(px0, steps) && w == measure(px)
    ensures !ShouldGrow(w0, trimmedLength, px0) ==> steps == 0
    ensures ShouldGrow(w0, trimmedLength, px0) ==>
      steps >= 1 && (w >= GrowTarget || px >= GrowCapPx) && px < GrowCapPx + GrowStepPx
    ensures forall k :: 0 <= k < steps ==> GrowSize(px0, k) < GrowCapPx && measure(GrowSize(px0, k)) < GrowTarget
  {
    px, w, steps := px0, w0, 0;
    if ShouldGrow(w0, trimmedLength, px0) {
      while w < GrowTarget && px < GrowCapPx
        invariant px == GrowSize(px0, steps) && w == measure(px)
        invariant px < GrowCapPx + GrowStepPx
        invariant steps == 0 ==> px == px0 && w == w0
        invariant forall k :: 0 <= k < steps ==> GrowSize(px0, k) < GrowCapPx && measure(GrowSize(px0, k)) < GrowTarget
        decreases GrowCapPx - px
      {
        px := px + GrowStepPx;
        w := measure(px);
        steps := steps + 1;
      }
    }
  }

  /** The font size `setTargetsFromText` renders with. */
  method FitFont(measure: int -> real, text: string) returns (px: int, w: real)
    ensures w == measure(px)
    ensures SmallestPx <= px < GrowCapPx + GrowStepPx
    ensures |Trim(text)| > GrowMaxLength ==> px <= StartPx && (w <= MaxWidth || px == SmallestPx)
  {
    var shrunk, w0, shrinkSteps := ShrinkFont(measure);
    var growSteps;
    px, w, growSteps := GrowFont(measure, shrunk, w0, |Trim(text)|);
  }

  // ---------------------------------------------------------------------
  // `String.prototype.trim`

  /** The characters `trim` removes: ECMAScript white space and line
      terminators. */
  predicate IsJsSpace(c: char) {
    || c == ' ' || c == '\t' || c == '\n' || c == '\r' || c == '\U{000B}' || c == '\U{000C}'
    || c == '\U{00A0}' || c == '\U{1680}' || ('\U{2000}' <= c <= '\U{200A}')
    || c == '\U{2028}' || c == '\U{2029}' || c == '\U{202F}' || c == '\U{205F}'
    || c == '\U{3000}' || c == '\U{FEFF}'
  }

  function TrimStart(t: string): (r: string)
    ensures |r| <= |t| && r == t[|t| - |r|..]
    ensures |r| > 0 ==> !IsJsSpace(r[0])
    ensures forall k :: 0 <= k < |t| - |r| ==> IsJsSpace(t[k])
  {
    if |t| > 0 && IsJsSpace(t[0]) then TrimStart(t[1..]) else t
  }

  function TrimEnd(t: string): (r: string)
    ensures |r| <= |t| && r == t[..|r|]
    ensures |r| > 0 ==> !IsJsSpace(r[|r| - 1])
    ensures forall k :: |r| <= k < |t| ==> IsJsSpace(t[k])
  {
    if |t| > 0 && IsJsSpace(t[|t| - 1]) then TrimEnd(t[..|t| - 1]) else t
  }

  function Trim(t: string): string {
    TrimEnd(TrimStart(t))
  }

  // ---------------------------------------------------------------------
  // Scan

  /** A rendered text pixel: opaque and bright red (the glyphs are white). */
  predicate TextKeep(px: Pixel) {
    px.a as int > AlphaFloor && px.r as int > RedFloor
  }

  /** The scanned positions whose pixel passes `TextKeep`, in order. */
  function TextSelect(data: seq<byte>, ps: seq<Pos>): (r: seq<Pos>)
    requires IsCanvasData(data)
    requires forall k :: 0 <= k < |ps| ==> OnCanvas(ps[k])
    ensures forall k :: 0 <= k < |r| ==> r[k] in ps && OnCanvas(r[k]) && TextKeep(PixelAt(data, r[k]))
    ensures forall k :: 0 <= k < |ps| && TextKeep(PixelAt(data, ps[k])) ==> ps[k] in r
  {
    if |ps| == 0 then []
    else
      var rest := TextSelect(data, ps[1..]);
      assert forall k :: 1 <= k < |ps| ==> ps[k] == ps[1..][k - 1];
      if TextKeep(PixelAt(data, ps[0])) then [ps[0]] + rest else rest
  }

  /** Selection keeps the scan order: selecting from two scans one after
      the other is selecting from each and concatenating. */
  lemma {:induction false} TextSelectAppend(data: seq<byte>, a: seq<Pos>, b: seq<Pos>)
    requires IsCanvasData(data)
    requires forall k :: 0 <= k < |a| ==> OnCanvas(a[k])
    requires forall k :: 0 <= k < |b| ==> OnCanvas(b[k])
    ensures TextSelect(data, a + b) == TextSelect(data, a) + TextSelect(data, b)
  {
    if |a| == 0 {
      assert a + b == b;
    } else {
      assert (a + b)[1..] == a[1..] + b;
      TextSelectAppend(data, a[1..], b);
    }
  }

  /** A single scanned pixel is emitted exactly when it passes the text test. */
  lemma TextSelectOne(data: seq<byte>, p: Pos)
    requires IsCanvasData(data) && OnCanvas(p)
    ensures TextSelect(data, [p]) == if TextKeep(PixelAt(data, p)) then [p] else []
  {
    assert [p][1..] == [];
  }

  /** Every position of the stride grid is in `r` exactly when its pixel
      passes the text test. */
  predicate KeptExactlyOnGrid(data: seq<byte>, r: seq<Pos>, step: nat)
    requires IsCanvasData(data) && step >= 1
  {
    forall x, y :: 0 <= x < Size && 0 <= y < Size && x % step == 0 && y % step == 0 ==>
      (Pos(x, y) in r <==> TextKeep(PixelAt(data, Pos(x, y))))
  }

  /** Every position in `r` is on the canvas and passes the text test. */
  predicate AllTextKept(data: seq<byte>, r: seq<Pos>)
    requires IsCanvasData(data)
  {
    forall k :: 0 <= k < |r| ==> OnCanvas(r[k]) && TextKeep(PixelAt(data, r[k]))
  }

  /** The kept pixels of the stride-3 scan over the whole canvas: a
      position is in the result exactly when it is on the stride-3 grid and
      its pixel passes the text test. */
  function TextScan(data: seq<byte>): (r: seq<Pos>)
    requires IsCanvasData(data)
    ensures AllTextKept(data, r)
    ensures WithinGrid(r, 0, TextStride)
    ensures KeptExactlyOnGrid(data, r, TextStride)
  {
    StridedTextScan(data, TextStride)
  }

  /** `TextScan` with the stride as a parameter. */
  function StridedTextScan(data: seq<byte>, step: nat): (r: seq<Pos>)
    requires IsCanvasData(data) && step >= 1
    ensures AllTextKept(data, r)
    ensures WithinGrid(r, 0, step)
    ensures KeptExactlyOnGrid(data, r, step)
  {
    var ps := RasterScan(0, step);
    var r := TextSelect(data, ps);
    TextScanExact(data, step, ps, r);
    TextScanOnGrid(data, step, ps, r);
    r
  }

  lemma TextScanOnGrid(data: seq<byte>, step: nat, ps: seq<Pos>, r: seq<Pos>)
    requires IsCanvasData(data) && step >= 1
    requires ps == RasterScan(0, step) && r == TextSelect(data, ps)
    ensures WithinGrid(r, 0, step)
  {
    RasterScanOnGrid(0, step);
    forall k | 0 <= k < |r|
      ensures OnGrid(0, step, r[k].x, r[k].y)
    {
      var j :| 0 <= j < |ps| && ps[j] == r[k];
    }
  }

  lemma TextScanExact(data: seq<byte>, step: nat, ps: seq<Pos>, r: seq<Pos>)
    requires IsCanvasData(data) && step >= 1
    requires ps == RasterScan(0, step) && r == TextSelect(data, ps)
    ensures KeptExactlyOnGrid(data, r, step)
  {
    RasterScanCovers(0, step);
    forall x, y | 0 <= x < Size && 0 <= y < Size && x % step == 0 && y % step == 0
      ensures Pos(x, y) in r <==> TextKeep(PixelAt(data, Pos(x, y)))
    {
      assert y - 0 == y;
      assert OnGrid(0, step, x, y);
      var k :| 0 <= k < |ps| && ps[k] == Pos(x, y);
      if Pos(x, y) in r {
        var j :| 0 <= j < |r| && r[j] == Pos(x, y);
      }
    }
  }

  /** The normalized point of a kept text pixel, given its depth draw. */
  function TextPoint(p: Pos, zDraw: real): (v: Vec3)
    ensures OnCanvas(p) && 0.0 <= zDraw < 1.0 ==>
      && -TextSpan / 2.0 <= v.x < TextSpan / 2.0
      && -TextSpan / 2.0 < v.y <= TextSpan / 2.0
      && -DepthJitter / 2.0 <= v.z < DepthJitter / 2.0
  {
    Vec3((p.x as real / Size as real - 0.5) * TextSpan,
         (0.5 - p.y as real / Size as real) * TextSpan,
         (zDraw - 0.5) * DepthJitter)
  }

  /** The canvas maps linearly onto the 50 x 50 text square: the top-left
      pixel lands on the square's top-left corner, and each column moves a
      point right, each row down, by the same `TextSpan / Size`. */
  lemma TextPointPitch(p: Pos, zDraw: real)
    ensures TextPoint(Pos(p.x + 1, p.y), zDraw).x - TextPoint(p, zDraw).x == TextSpan / Size as real
    ensures TextPoint(Pos(p.x, p.y + 1), zDraw).y - TextPoint(p, zDraw).y == -TextSpan / Size as real
    ensures TextPoint(Pos(0, 0), zDraw).x == -TextSpan / 2.0
    ensures TextPoint(Pos(0, 0), zDraw).y == TextSpan / 2.0
  {
    var w := Size as real;
    assert (p.x + 1) as real / w - p.x as real / w == 1.0 / w;
    assert (p.y + 1) as real / w - p.y as real / w == 1.0 / w;
  }

  /** `accentHueStart + Math.random() * max(0, accentHueEnd - accentHueStart)`:
      a draw in [0, 1) picks a hue in [start, end) when the range is
      positive, and exactly `start` when it is empty or reversed. */
  function TextHue(hueStart: real, hueEnd: real, u: real): (h: real)
    ensures 0.0 <= u < 1.0 ==> hueStart <= h <= MaxReal(hueStart, hueEnd)
    ensures 0.0 <= u < 1.0 && hueStart < hueEnd ==> h < hueEnd
    ensures 0.0 <= u < 1.0 && hueEnd <= hueStart ==> h == hueStart
  {
    hueStart + Portion(u, MaxReal(0.0, hueEnd - hueStart))
  }

  /** The text sample: one point and one colour per kept pixel of the
      stride-3 scan, in scan order. */
  function TextSample(data: seq<byte>, zDraw: Pos -> real, hueDraw: Pos -> real, hsl: real -> Vec3,
                      hueStart: real, hueEnd: real): (s: Samples)
    requires IsCanvasData(data)
    ensures var kept := TextScan(data);
      && |s.pts| == |kept| && |s.cols| == |kept|
      && forall k :: 0 <= k < |kept| ==> s.pts[k] == TextPoint(kept[k], zDraw(kept[k]))
  {
    var kept := TextScan(data);
    Samples(TextPoints(kept, zDraw), TextColours(kept, hueDraw, hsl, hueStart, hueEnd))
  }

  function TextPoints(kept: seq<Pos>, zDraw: Pos -> real): (r: seq<Vec3>)
    ensures |r| == |kept|
    ensures forall k :: 0 <= k < |kept| ==> r[k] == TextPoint(kept[k], zDraw(kept[k]))
  {
    seq(|kept|, k requires 0 <= k < |kept| => TextPoint(kept[k], zDraw(kept[k])))
  }

  function TextColours(kept: seq<Pos>, hueDraw: Pos -> real, hsl: real -> Vec3, hueStart: real, hueEnd: real): (r: seq<Vec3>)
    ensures |r| == |kept|
  {
    seq(|kept|, k requires 0 <= k < |kept| => hsl(TextHue(hueStart, hueEnd, hueDraw(kept[k]))))
  }

  /** With depth draws in [0, 1), every text point lies in the 50 x 50 x 4
      box around the origin. */
  lemma TextPointsInSquare(data: seq<byte>, zDraw: Pos -> real, hueDraw: Pos -> real, hsl: real -> Vec3,
                           hueStart: real, hueEnd: real)
    requires IsCanvasData(data)
    requires forall p :: OnCanvas(p) ==> 0.0 <= zDraw(p) < 1.0
    ensures var s := TextSample(data, zDraw, hueDraw, hsl, hueStart, hueEnd);
      forall k :: 0 <= k < |s.pts| ==>
        && -25.0 <= s.pts[k].x < 25.0
        && -25.0 < s.pts[k].y <= 25.0
        && -2.0 <= s.pts[k].z < 2.0
  {
    var kept := TextScan(data);
    forall k | 0 <= k < |kept|
      ensures OnCanvas(kept[k]) && 0.0 <= zDraw(kept[k]) < 1.0
    {
    }
  }
}
