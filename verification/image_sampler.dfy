/** The image target sampler: from the RGBA pixels of an image drawn into the
    512x512 canvas it builds a brightness histogram, picks a dynamic
    threshold at a quantile, scans the canvas on a stride, keeps foreground
    pixels, appends a relaxed second pass when the result is sparse, and maps
    the kept pixels to normalized points with colours.

    The worker (src/workers/imageSampler.ts) and the main-thread fallback in
    src/components/ParticleScene.tsx run the same stages; they differ in the
    keep rule, which `Rule` selects, and in how they read their parameters
    (`Resolve`, `MainThreadConfig`). `Math.pow(c / 255, gamma)` enters as a
    256-entry table `lut`, one entry per byte value. */
module ImageSampler {
  import opened Base
  import opened Canvas

  const MaxSamples: int := 30000
  const Bins: int := 256
  const MaxThreshold: int := 200
  /** Search default that the histogram scan never leaves in place. */
  const UnreachedThreshold: int := 20
  const QuantileCap: real := 0.8
  /** The sparse test compares the flat `[x, y, z, ...]` array with this. */
  const SparseFlatLength: int := 1500
  const RelaxedFloor: int := 5
  /** Width of the normalized space for an image spanning the canvas. */
  const Span: real := 50.0

  const DefaultQuantile: real := 0.4
  const DefaultGamma: real := 0.9
  const DefaultAlphaMin: real := 20.0
  const DefaultSaturationMin: real := 0.15
  const DefaultWhiteBrightMin: real := 220.0

  datatype Fit = Contain | Cover

  /** The message the host posts to the worker; a field the sender leaves
      out is `None`. */
  datatype WorkerRequest = WorkerRequest(
    particleCount: int,
    imageFit: Option<Fit>,
    thresholdQuantile: Option<real>,
    gamma: Option<real>,
    colorFidelity: Option<bool>,
    alphaMin: Option<real>,
    saturationMin: Option<real>,
    skipWhites: Option<bool>,
    whiteBrightMin: Option<real>)

  /** The parameters one sampling run actually uses. `quantile` is the raw
      requested value; `Threshold` clamps it. */
  datatype Config = Config(
    fit: Fit,
    quantile: real,
    gamma: real,
    fidelity: bool,
    alphaMin: real,
    satMin: real,
    skipWhites: bool,
    whiteMin: real,
    targetSamples: int)

  /** Which keep predicate a scan applies: the worker's, or the main-thread
      fallback's as written (no white-background test). */
  datatype Rule = WorkerRule | MainThreadRule

  /** A decoded image: its natural size and the canvas bytes after it was
      drawn into the placement rectangle (`drawImage` + `getImageData`). */
  datatype Drawn = Drawn(bw: nat, bh: nat, data: seq<byte>)

  /** Where the image lands on the canvas: offset and drawn size. */
  datatype Placement = Placement(dx: int, dy: int, dw: int, dh: int)

  // ---------------------------------------------------------------------
  // Parameters

  /** The worker's reading of its request: missing fields take their
      defaults, and each is clamped into its documented range. */
  function Resolve(req: WorkerRequest): (c: Config)
    ensures 0.0 <= c.alphaMin <= 255.0
    ensures 0.0 <= c.satMin <= 1.0
    ensures 0.0 <= c.whiteMin <= 255.0
    ensures 1 <= c.targetSamples <= MaxSamples
    ensures req.alphaMin.None? ==> c.alphaMin == DefaultAlphaMin
    ensures req.saturationMin.None? ==> c.satMin == DefaultSaturationMin
    ensures req.whiteBrightMin.None? ==> c.whiteMin == DefaultWhiteBrightMin
    ensures req.thresholdQuantile.None? ==> c.quantile == DefaultQuantile
    ensures req.skipWhites.None? ==> !c.skipWhites
    ensures req.colorFidelity.None? ==> !c.fidelity
    ensures c.fit == Cover <==> req.imageFit == Some(Cover)
    ensures req.alphaMin.Some? ==> c.alphaMin == ClampReal(req.alphaMin.value, 0.0, 255.0)
    ensures req.saturationMin.Some? ==> c.satMin == ClampReal(req.saturationMin.value, 0.0, 1.0)
    ensures req.whiteBrightMin.Some? ==> c.whiteMin == ClampReal(req.whiteBrightMin.value, 0.0, 255.0)
    ensures req.alphaMin.Some? && 0.0 <= req.alphaMin.value <= 255.0 ==> c.alphaMin == req.alphaMin.value
    ensures req.saturationMin.Some? && 0.0 <= req.saturationMin.value <= 1.0 ==> c.satMin == req.saturationMin.value
    ensures req.whiteBrightMin.Some? && 0.0 <= req.whiteBrightMin.value <= 255.0 ==> c.whiteMin == req.whiteBrightMin.value
    ensures req.thresholdQuantile.Some? ==> c.quantile == req.thresholdQuantile.value
    ensures req.gamma.Some? ==> c.gamma == req.gamma.value
    ensures req.gamma.None? ==> c.gamma == DefaultGamma
    ensures c.skipWhites <==> req.skipWhites == Some(true)
    ensures c.fidelity <==> req.colorFidelity == Some(true)
    ensures 1 <= req.particleCount <= MaxSamples ==> c.targetSamples == req.particleCount
    ensures req.particleCount < 1 ==> c.targetSamples == 1
    ensures req.particleCount > MaxSamples ==> c.targetSamples == MaxSamples
  {
    Config(
      fit := if req.imageFit == Some(Cover) then Cover else Contain,
      quantile := ValueOr(req.thresholdQuantile, DefaultQuantile),
      gamma := ValueOr(req.gamma, DefaultGamma),
      fidelity := req.colorFidelity == Some(true),
      alphaMin := ClampReal(ValueOr(req.alphaMin, DefaultAlphaMin), 0.0, 255.0),
      satMin := ClampReal(ValueOr(req.saturationMin, DefaultSaturationMin), 0.0, 1.0),
      skipWhites := req.skipWhites == Some(true),
      whiteMin := ClampReal(ValueOr(req.whiteBrightMin, DefaultWhiteBrightMin), 0.0, 255.0),
      targetSamples := MaxInt(1, MinInt(req.particleCount, MaxSamples)))
  }

  /** `Math.pow(c / 255, gamma)` for every byte value `c`; with the positive
      gammas the host offers every entry lies in [0, 1]. */
  predicate IsGammaTable(lut: seq<real>) {
    |lut| == 256 && forall c :: 0 <= c < 256 ==> 0.0 <= lut[c] <= 1.0
  }

  // ---------------------------------------------------------------------
  // Fit geometry

  /** The scale, drawn size and centred offset of a `bw` x `bh` image. */
  function Place(fit: Fit, bw: nat, bh: nat): (pl: Placement)
    ensures bw >= 1 && bh >= 1 && fit == Contain ==>
      MaxInt(pl.dw, pl.dh) == Size && pl.dw <= Size && pl.dh <= Size
    ensures bw >= 1 && bh >= 1 && fit == Cover ==>
      MinInt(pl.dw, pl.dh) == Size && pl.dw >= Size && pl.dh >= Size
    ensures 2 * pl.dx <= Size - pl.dw <= 2 * pl.dx + 1
    ensures 2 * pl.dy <= Size - pl.dh <= 2 * pl.dy + 1
  {
    var sx := Size as real / MaxInt(1, bw) as real;
    var sy := Size as real / MaxInt(1, bh) as real;
    var s := if fit == Cover then MaxReal(sx, sy) else MinReal(sx, sy);
    var dw := Round(bw as real * s);
    var dh := Round(bh as real * s);
    PlaceFacts(fit, bw, bh, sx, sy, s);
    Placement((Size - dw) / 2, (Size - dh) / 2, dw, dh)
  }

  lemma RoundMonotone(a: real, b: real)
    requires a <= b
    ensures Round(a) <= Round(b)
  {
  }

  lemma ScaledSide(side: nat, other: nat, t: real)
    requires side >= 1 && other >= 1
    requires t == Size as real / side as real
    ensures Round(side as real * t) == Size
    ensures other <= side ==> Round(other as real * t) <= Size
    ensures other >= side ==> Round(other as real * t) >= Size
  {
    assert side as real * t == Size as real;
    if other <= side {
      assert other as real * t <= side as real * t;
      RoundMonotone(other as real * t, Size as real);
    } else {
      assert other as real * t >= side as real * t;
      RoundMonotone(Size as real, other as real * t);
    }
  }

  lemma ScaleOrder(a: nat, b: nat)
    requires 1 <= a <= b
    ensures Size as real / b as real <= Size as real / a as real
  {
    var u, v := Size as real / a as real, Size as real / b as real;
    assert u * a as real == Size as real;
    assert v * b as real == Size as real;
    assert v >= 0.0;
    NonnegMul(v, b as real - a as real);
    assert v * a as real <= u * a as real;
    if v > u {
      PosMul(v - u, a as real);
    }
  }

  lemma PlaceFacts(fit: Fit, bw: nat, bh: nat, sx: real, sy: real, s: real)
    requires sx == Size as real / MaxInt(1, bw) as real
    requires sy == Size as real / MaxInt(1, bh) as real
    requires s == if fit == Cover then MaxReal(sx, sy) else MinReal(sx, sy)
    ensures bw >= 1 && bh >= 1 && fit == Contain ==>
      MaxInt(Round(bw as real * s), Round(bh as real * s)) == Size
      && Round(bw as real * s) <= Size && Round(bh as real * s) <= Size
    ensures bw >= 1 && bh >= 1 && fit == Cover ==>
      MinInt(Round(bw as real * s), Round(bh as real * s)) == Size
      && Round(bw as real * s) >= Size && Round(bh as real * s) >= Size
  {
    if bw >= 1 && bh >= 1 {
      // The larger side gets the smaller scale factor.
      if bw >= bh {
        ScaleOrder(bh, bw);
        ScaledSide(bw, bh, sx);
        ScaledSide(bh, bw, sy);
      } else {
        ScaleOrder(bw, bh);
        ScaledSide(bh, bw, sy);
        ScaledSide(bw, bh, sx);
      }
    }
  }

  /** `d` is `other * Size / side` rounded as `Math.round` does: the drawn
      side `d` over the canvas side keeps the ratio `other / side` to within
      half a pixel. */
  predicate KeepsRatio(d: int, other: nat, side: nat) {
    2 * (d * side - Size * other) <= side && 2 * (Size * other - d * side) < side
  }

  /** Both sides are scaled by the same factor: the side that sets the scale
      (the longer one under contain, the shorter one under cover) is drawn
      at the full 512, and the other keeps the image's aspect ratio. */
  lemma PlaceKeepsAspect(fit: Fit, bw: nat, bh: nat)
    requires bw >= 1 && bh >= 1
    ensures var pl := Place(fit, bw, bh);
      (fit == Contain && bw >= bh) || (fit == Cover && bw <= bh) ==>
        pl.dw == Size && KeepsRatio(pl.dh, bh, bw)
    ensures var pl := Place(fit, bw, bh);
      (fit == Contain && bw <= bh) || (fit == Cover && bw >= bh) ==>
        pl.dh == Size && KeepsRatio(pl.dw, bw, bh)
  {
    if (fit == Contain && bw >= bh) || (fit == Cover && bw <= bh) {
      WidthSetsScale(fit, bw, bh);
    }
    if (fit == Contain && bw <= bh) || (fit == Cover && bw >= bh) {
      HeightSetsScale(fit, bw, bh);
    }
  }

  lemma WidthSetsScale(fit: Fit, bw: nat, bh: nat)
    requires bw >= 1 && bh >= 1
    requires (fit == Contain && bw >= bh) || (fit == Cover && bw <= bh)
    ensures Place(fit, bw, bh).dw == Size && KeepsRatio(Place(fit, bw, bh).dh, bh, bw)
  {
    var sx := Size as real / bw as real;
    var sy := Size as real / bh as real;
    if fit == Contain {
      ScaleOrder(bh, bw);
      assert MinReal(sx, sy) == sx;
    } else {
      ScaleOrder(bw, bh);
      assert MaxReal(sx, sy) == sx;
    }
    ScaledSide(bw, bh, sx);
    RoundScaled(bw, bh, sx);
    assert Place(fit, bw, bh).dw == Round(bw as real * sx);
    assert Place(fit, bw, bh).dh == Round(bh as real * sx);
  }

  lemma HeightSetsScale(fit: Fit, bw: nat, bh: nat)
    requires bw >= 1 && bh >= 1
    requires (fit == Contain && bw <= bh) || (fit == Cover && bw >= bh)
    ensures Place(fit, bw, bh).dh == Size && KeepsRatio(Place(fit, bw, bh).dw, bw, bh)
  {
    var sx := Size as real / bw as real;
    var sy := Size as real / bh as real;
    if fit == Contain {
      ScaleOrder(bw, bh);
      assert MinReal(sx, sy) == sy;
    } else {
      ScaleOrder(bh, bw);
      assert MaxReal(sx, sy) == sy;
    }
    ScaledSide(bh, bw, sy);
    RoundScaled(bh, bw, sy);
    assert Place(fit, bw, bh).dw == Round(bw as real * sy);
    assert Place(fit, bw, bh).dh == Round(bh as real * sy);
  }

  /** Scaling `other` by `Size / side` and rounding keeps the ratio. */
  lemma RoundScaled(side: nat, other: nat, t: real)
    requires side >= 1
    requires t == Size as real / side as real
    ensures KeepsRatio(Round(other as real * t), other, side)
  {
    var v := other as real * t;
    var d := Round(v);
    assert t * side as real == Size as real;
    assert v * side as real == (Size * other) as real;
    var e := d as real - v;
    assert -0.5 < e <= 0.5;
    assert (d * side - Size * other) as real == e * side as real;
    NonnegMul(0.5 - e, side as real);
    PosMul(e + 0.5, side as real);
  }

  function SpanX(pl: Placement): real { Span * (pl.dw as real / Size as real) }
  function SpanY(pl: Placement): real { Span * (pl.dh as real / Size as real) }

  predicate InRect(p: Pos, pl: Placement) {
    pl.dx <= p.x < pl.dx + pl.dw && pl.dy <= p.y < pl.dy + pl.dh
  }

  /** Normalized x of canvas column `x`: the drawn width maps onto
      [-SpanX/2, SpanX/2). */
  function NormX(x: int, pl: Placement): (r: real)
    ensures pl.dx <= x < pl.dx + pl.dw ==> -SpanX(pl) / 2.0 <= r < SpanX(pl) / 2.0
  {
    var u := (x - pl.dx) as real / MaxInt(1, pl.dw) as real;
    UnitFraction(x - pl.dx, pl.dw);
    (u - 0.5) * SpanX(pl)
  }

  /** Normalized y of canvas row `y`, pointing up: the drawn height maps onto
      (-SpanY/2, SpanY/2]. */
  function NormY(y: int, pl: Placement): (r: real)
    ensures pl.dy <= y < pl.dy + pl.dh ==> -SpanY(pl) / 2.0 < r <= SpanY(pl) / 2.0
  {
    var u := (y - pl.dy) as real / MaxInt(1, pl.dh) as real;
    UnitFraction(y - pl.dy, pl.dh);
    (0.5 - u) * SpanY(pl)
  }

  /** The drawn rectangle maps linearly onto the normalized plane: its left
      edge lands on `-SpanX/2`, and each canvas column moves a point by the
      same `Span / Size` whatever the image, so the image is not distorted
      horizontally. */
  lemma NormXPitch(x: int, pl: Placement)
    requires pl.dw >= 1
    ensures NormX(x + 1, pl) - NormX(x, pl) == Span / Size as real
    ensures NormX(pl.dx, pl) == -SpanX(pl) / 2.0
  {
    var w := pl.dw as real;
    var u0 := (x - pl.dx) as real / w;
    var u1 := (x + 1 - pl.dx) as real / w;
    assert u1 - u0 == 1.0 / w;
    assert (u1 - 0.5) * SpanX(pl) - (u0 - 0.5) * SpanX(pl) == (u1 - u0) * SpanX(pl);
    assert (1.0 / w) * (Span * (w / Size as real)) == Span / Size as real;
  }

  /** The top edge of the drawn rectangle lands on `SpanY/2`, and each
      canvas row moves a point down by the same `Span / Size` as a column
      moves it right: both axes share one scale. */
  lemma NormYPitch(y: int, pl: Placement)
    requires pl.dh >= 1
    ensures NormY(y + 1, pl) - NormY(y, pl) == -Span / Size as real
    ensures NormY(pl.dy, pl) == SpanY(pl) / 2.0
  {
    var h := pl.dh as real;
    var u0 := (y - pl.dy) as real / h;
    var u1 := (y + 1 - pl.dy) as real / h;
    assert u1 - u0 == 1.0 / h;
    assert (0.5 - u1) * SpanY(pl) - (0.5 - u0) * SpanY(pl) == -(u1 - u0) * SpanY(pl);
    assert (1.0 / h) * (Span * (h / Size as real)) == Span / Size as real;
  }

  lemma UnitFraction(off: int, len: int)
    ensures 0 <= off < len ==>
      0.0 <= off as real / MaxInt(1, len) as real < 1.0
      && Span * (len as real / Size as real) > 0.0
  {
    if 0 <= off < len {
      var u := off as real / len as real;
      assert u * len as real == off as real;
    }
  }

  // ---------------------------------------------------------------------
  // Per-pixel measures

  /** Mean gamma-corrected channel, scaled to [0, 255]. */
  function Brightness(lut: seq<real>, px: Pixel): (v: real)
    requires IsGammaTable(lut)
    ensures 0.0 <= v <= 255.0
  {
    ((lut[px.r] + lut[px.g] + lut[px.b]) / 3.0) * 255.0
  }

  /** The histogram bin a pixel falls into. */
  function Bin(lut: seq<real>, px: Pixel): (k: int)
    requires IsGammaTable(lut)
    ensures 0 <= k < Bins
  {
    MinInt(255, Round(Brightness(lut, px)))
  }

  /** HSV saturation of the linear channels. */
  function Saturation(px: Pixel): (s: real)
    ensures 0.0 <= s <= 1.0
  {
    var r := px.r as real / 255.0;
    var g := px.g as real / 255.0;
    var b := px.b as real / 255.0;
    var maxc := MaxReal(r, MaxReal(g, b));
    var minc := MinReal(r, MinReal(g, b));
    if maxc > 0.0 then RatioInUnit(maxc - minc, maxc); (maxc - minc) / maxc else 0.0
  }

  predicate Opaque(px: Pixel, alphaMin: real) {
    px.a as real > alphaMin
  }

  /** The worker's white-background test. */
  predicate IsWhiteBackground(lut: seq<real>, px: Pixel, cfg: Config)
    requires IsGammaTable(lut)
  {
    cfg.skipWhites && Saturation(px) < cfg.satMin && Brightness(lut, px) >= cfg.whiteMin
  }

  /** Whether a scanned pixel becomes a target point at threshold `th`. */
  predicate Keep(rule: Rule, lut: seq<real>, px: Pixel, th: int, cfg: Config)
    requires IsGammaTable(lut)
    ensures Keep(rule, lut, px, th, cfg) ==> px.a as real > cfg.alphaMin
    ensures rule == MainThreadRule && px.a as real > cfg.alphaMin && Brightness(lut, px) > th as real ==>
      Keep(rule, lut, px, th, cfg)
  {
    && Opaque(px, cfg.alphaMin)
    && (rule == WorkerRule ==> !IsWhiteBackground(lut, px, cfg))
    && (Brightness(lut, px) > th as real || Saturation(px) >= cfg.satMin)
  }

  /** What the keep predicate promises on its own: transparent pixels and
      (under the worker rule) white background are never kept, and lowering
      the threshold never drops a kept pixel. */
  lemma KeepFacts(rule: Rule, lut: seq<real>, px: Pixel, th: int, lower: int, cfg: Config)
    requires IsGammaTable(lut)
    requires lower <= th
    ensures px.a as real <= cfg.alphaMin ==> !Keep(rule, lut, px, th, cfg)
    ensures (rule == WorkerRule && cfg.skipWhites && Saturation(px) < cfg.satMin
             && Brightness(lut, px) >= cfg.whiteMin) ==> !Keep(rule, lut, px, th, cfg)
    ensures Keep(rule, lut, px, th, cfg) ==> Keep(rule, lut, px, lower, cfg)
  {
  }

  // ---------------------------------------------------------------------
  // Histogram

  /** Sum of the first `m` entries. */
  function Prefix(s: seq<nat>, m: nat): nat
    requires m <= |s|
  {
    if m == 0 then 0 else Prefix(s, m - 1) + s[m - 1]
  }

  function Sum(s: seq<nat>): nat {
    Prefix(s, |s|)
  }

  lemma {:induction false} PrefixBump(s: seq<nat>, b: int, m: nat)
    requires 0 <= b < |s| && m <= |s|
    ensures Prefix(s[b := s[b] + 1], m) == Prefix(s, m) + (if b < m then 1 else 0)
  {
    if m > 0 {
      PrefixBump(s, b, m - 1);
    }
  }

  lemma {:induction false} PrefixZeros(s: seq<nat>, m: nat)
    requires m <= |s|
    requires forall k :: 0 <= k < |s| ==> s[k] == 0
    ensures Prefix(s, m) == 0
  {
    if m > 0 {
      PrefixZeros(s, m - 1);
    }
  }

  /** Number of the first `n` pixels whose alpha exceeds `alphaMin`. */
  function OpaqueCount(data: seq<byte>, alphaMin: real, n: nat): nat
    requires 4 * n <= |data|
  {
    if n == 0 then 0
    else OpaqueCount(data, alphaMin, n - 1) + (if Opaque(PixelOf(data, n - 1), alphaMin) then 1 else 0)
  }

  /** Number of the first `n` pixels that are opaque and fall into bin `k`. */
  function BinCount(data: seq<byte>, lut: seq<real>, alphaMin: real, k: int, n: nat): nat
    requires IsGammaTable(lut) && 4 * n <= |data|
  {
    if n == 0 then 0
    else
      var px := PixelOf(data, n - 1);
      BinCount(data, lut, alphaMin, k, n - 1) + (if Opaque(px, alphaMin) && Bin(lut, px) == k then 1 else 0)
  }

  /** The 256-bin brightness histogram over the first `n` pixels: every
      opaque pixel lands in exactly one bin, so the bins add up to the
      number of opaque pixels. */
  function Histogram(data: seq<byte>, lut: seq<real>, alphaMin: real, n: nat): (h: seq<nat>)
    requires IsGammaTable(lut) && 4 * n <= |data|
    ensures |h| == Bins
    ensures forall k :: 0 <= k < Bins ==> h[k] == BinCount(data, lut, alphaMin, k, n)
    ensures Sum(h) == OpaqueCount(data, alphaMin, n)
  {
    if n == 0 then
      var z := seq(Bins, _ => 0);
      PrefixZeros(z, Bins);
      z
    else
      var h := Histogram(data, lut, alphaMin, n - 1);
      var px := PixelOf(data, n - 1);
      if Opaque(px, alphaMin) then
        var b := Bin(lut, px);
        PrefixBump(h, b, Bins);
        h[b := h[b] + 1]
      else h
  }

  // ---------------------------------------------------------------------
  // Dynamic threshold

  /** `Math.floor(total * p)`: how many pixels the threshold bin must reach. */
  function TargetCount(total: nat, p: real): (c: int)
    requires 0.0 <= p <= QuantileCap
    ensures 0 <= c <= total
  {
    assert (total as real) * p <= total as real;
    ((total as real) * p).Floor
  }

  /** The running count through bin `i` has reached `c`. */
  predicate Reached(freq: seq<nat>, c: int, i: int)
    requires |freq| == Bins && 0 <= i < Bins
  {
    Prefix(freq, i + 1) >= c
  }

  /** `k` is the smallest bin whose running count reaches `c`. */
  predicate IsFirstReach(freq: seq<nat>, c: int, k: int)
    requires |freq| == Bins
  {
    0 <= k < Bins && Reached(freq, c, k) && forall i :: 0 <= i < k ==> !Reached(freq, c, i)
  }

  /** The `for (k = 0; k < 256; k++) { acc += freq[k]; if (acc >= c) break }`
      loop, from bin `k` with `acc` counted so far; `None` if it never
      breaks. */
  function Search(freq: seq<nat>, c: int, k: int, acc: nat): (r: Option<int>)
    requires |freq| == Bins && 0 <= k <= Bins && acc == Prefix(freq, k)
    ensures r.Some? ==> k <= r.value < Bins && Reached(freq, c, r.value)
                        && forall i :: k <= i < r.value ==> !Reached(freq, c, i)
    ensures r.None? ==> forall i :: k <= i < Bins ==> !Reached(freq, c, i)
    decreases Bins - k
  {
    if k == Bins then None
    else if acc + freq[k] >= c then Some(k)
    else Search(freq, c, k + 1, acc + freq[k])
  }

  /** The search always breaks when the target count is at most the total. */
  lemma SearchBreaks(freq: seq<nat>, c: int)
    requires |freq| == Bins && c <= Sum(freq)
    ensures Search(freq, c, 0, 0).Some?
    ensures IsFirstReach(freq, c, Search(freq, c, 0, 0).value)
  {
    assert Reached(freq, c, Bins - 1);
  }

  /** The dynamic threshold for quantile `q`: 0 when the clamped quantile is
      not positive, otherwise the smallest bin whose running count reaches
      `floor(total * q)`, capped at 200. */
  function Threshold(freq: seq<nat>, q: real): (th: int)
    requires |freq| == Bins
    ensures 0 <= th <= MaxThreshold
    ensures q <= 0.0 ==> th == 0
    ensures q > 0.0 ==>
      var c := TargetCount(Sum(freq), ClampReal(q, 0.0, QuantileCap));
      && (th < MaxThreshold ==> IsFirstReach(freq, c, th))
      && (forall i :: 0 <= i < th ==> !Reached(freq, c, i))
  {
    var p := ClampReal(q, 0.0, QuantileCap);
    if p > 0.0 then
      var c := TargetCount(Sum(freq), p);
      SearchBreaks(freq, c);
      var th := match Search(freq, c, 0, 0) case Some(k) => k case None => UnreachedThreshold;
      MaxInt(0, MinInt(MaxThreshold, th))
    else 0
  }

  /** A larger target count never reaches earlier. */
  lemma FirstReachMonotone(freq: seq<nat>, c1: int, c2: int, k1: int, k2: int)
    requires |freq| == Bins && c1 <= c2
    requires IsFirstReach(freq, c1, k1) && IsFirstReach(freq, c2, k2)
    ensures k1 <= k2
  {
    assert Reached(freq, c1, k2);
  }

  lemma TargetCountMonotone(total: nat, p1: real, p2: real)
    requires 0.0 <= p1 <= p2 <= QuantileCap
    ensures TargetCount(total, p1) <= TargetCount(total, p2)
  {
    assert (total as real) * p1 <= (total as real) * p2;
  }

  /** Raising the quantile never lowers the threshold. */
  lemma ThresholdMonotone(freq: seq<nat>, q1: real, q2: real)
    requires |freq| == Bins && q1 <= q2
    ensures Threshold(freq, q1) <= Threshold(freq, q2)
  {
    var t1, t2 := Threshold(freq, q1), Threshold(freq, q2);
    if q1 > 0.0 && t2 < MaxThreshold {
      var p1, p2 := ClampReal(q1, 0.0, QuantileCap), ClampReal(q2, 0.0, QuantileCap);
      var c1, c2 := TargetCount(Sum(freq), p1), TargetCount(Sum(freq), p2);
      TargetCountMonotone(Sum(freq), p1, p2);
      assert Reached(freq, c2, t2);
      assert Reached(freq, c1, t2);
    }
  }

  // ---------------------------------------------------------------------
  // Stride

  /** `floor(sqrt(size * size / max(1, t)))`, at least 1: the largest
      stride whose square, times the sample count, still fits the canvas. */
  function Stride(targetSamples: int): (step: int)
    ensures step >= 1
    ensures MaxInt(1, targetSamples) <= Size * Size ==>
      step * step * MaxInt(1, targetSamples) <= Size * Size
    ensures (step + 1) * (step + 1) * MaxInt(1, targetSamples) > Size * Size
  {
    var t := MaxInt(1, targetSamples);
    var k := ISqrt(Size * Size / t);
    StrideFacts(t, Size * Size / t, k);
    MaxInt(1, k)
  }

  lemma MulMono(a: int, b: int, c: nat)
    requires a <= b
    ensures a * c <= b * c
  {
  }

  lemma DivBounds(n: nat, t: int, q: nat)
    requires t >= 1 && q == n / t
    ensures q * t <= n < q * t + t
  {
  }

  lemma StrideFacts(t: int, q: nat, k: nat)
    requires t >= 1 && q == Size * Size / t
    requires k * k <= q < (k + 1) * (k + 1)
    ensures t <= Size * Size ==> k >= 1 && k * k * t <= Size * Size
    ensures (MaxInt(1, k) + 1) * (MaxInt(1, k) + 1) * t > Size * Size
  {
    DivBounds(Size * Size, t, q);
    if t <= Size * Size {
      assert q >= 1;
      assert k >= 1;
      MulMono(k * k, q, t);
    }
    var s := MaxInt(1, k);
    if k >= 1 {
      assert s == k;
    } else {
      assert q == 0 by { assert (k + 1) * (k + 1) == 1; }
      assert (s + 1) * (s + 1) == 4;
    }
    assert (s + 1) * (s + 1) >= q + 1;
    MulMono(q + 1, (s + 1) * (s + 1), t);
  }

  // ---------------------------------------------------------------------
  // Scan and emit

  /** The scanned pixels kept at threshold `th`, in visiting order. */
  function Select(rule: Rule, data: seq<byte>, lut: seq<real>, cfg: Config, th: int, ps: seq<Pos>): (r: seq<Pos>)
    requires IsCanvasData(data) && IsGammaTable(lut)
    requires forall k :: 0 <= k < |ps| ==> OnCanvas(ps[k])
    ensures |r| <= |ps|
    ensures forall k :: 0 <= k < |r| ==> r[k] in ps && OnCanvas(r[k]) && Keep(rule, lut, PixelAt(data, r[k]), th, cfg)
    ensures forall k :: 0 <= k < |ps| && Keep(rule, lut, PixelAt(data, ps[k]), th, cfg) ==> ps[k] in r
  {
    if |ps| == 0 then []
    else
      var rest := Select(rule, data, lut, cfg, th, ps[1..]);
      assert forall k :: 1 <= k < |ps| ==> ps[k] == ps[1..][k - 1];
      if Keep(rule, lut, PixelAt(data, ps[0]), th, cfg) then [ps[0]] + rest else rest
  }

  /** Selection keeps the scan order: selecting from two scans one after
      the other is selecting from each and concatenating. */
  lemma {:induction false} SelectAppend(rule: Rule, data: seq<byte>, lut: seq<real>, cfg: Config, th: int, a: seq<Pos>, b: seq<Pos>)
    requires IsCanvasData(data) && IsGammaTable(lut)
    requires forall k :: 0 <= k < |a| ==> OnCanvas(a[k])
    requires forall k :: 0 <= k < |b| ==> OnCanvas(b[k])
    ensures Select(rule, data, lut, cfg, th, a + b) == Select(rule, data, lut, cfg, th, a) + Select(rule, data, lut, cfg, th, b)
  {
    if |a| == 0 {
      assert a + b == b;
    } else {
      assert (a + b)[1..] == a[1..] + b;
      SelectAppend(rule, data, lut, cfg, th, a[1..], b);
    }
  }

  /** A single scanned pixel is emitted exactly when it is kept. */
  lemma SelectOne(rule: Rule, data: seq<byte>, lut: seq<real>, cfg: Config, th: int, p: Pos)
    requires IsCanvasData(data) && IsGammaTable(lut) && OnCanvas(p)
    ensures Select(rule, data, lut, cfg, th, [p]) == if Keep(rule, lut, PixelAt(data, p), th, cfg) then [p] else []
  {
    assert [p][1..] == [];
  }

  /** Lowering the threshold keeps at least as many pixels. */
  lemma {:induction false} SelectMonotone(rule: Rule, data: seq<byte>, lut: seq<real>, cfg: Config, th: int, lower: int, ps: seq<Pos>)
    requires IsCanvasData(data) && IsGammaTable(lut)
    requires forall k :: 0 <= k < |ps| ==> OnCanvas(ps[k])
    requires lower <= th
    ensures |Select(rule, data, lut, cfg, th, ps)| <= |Select(rule, data, lut, cfg, lower, ps)|
  {
    if |ps| > 0 {
      SelectMonotone(rule, data, lut, cfg, th, lower, ps[1..]);
      KeepFacts(rule, lut, PixelAt(data, ps[0]), th, lower, cfg);
    }
  }

  /** One colour channel: the raw byte under colour fidelity, the gamma value
      otherwise, capped at 1 (the gamma table already is). */
  function Channel(lut: seq<real>, c: byte, fidelity: bool): (v: real)
    requires IsGammaTable(lut)
    ensures 0.0 <= v <= 1.0
    ensures fidelity ==> v == c as real / 255.0
    ensures !fidelity ==> v == lut[c]
  {
    MinReal(1.0, if fidelity then c as real / 255.0 else lut[c])
  }

  function ColourOf(lut: seq<real>, px: Pixel, fidelity: bool): Vec3
    requires IsGammaTable(lut)
  {
    Vec3(Channel(lut, px.r, fidelity), Channel(lut, px.g, fidelity), Channel(lut, px.b, fidelity))
  }

  function PointOf(p: Pos, pl: Placement): Vec3 {
    Vec3(NormX(p.x, pl), NormY(p.y, pl), 0.0)
  }

  predicate InUnit(c: Vec3) {
    0.0 <= c.x <= 1.0 && 0.0 <= c.y <= 1.0 && 0.0 <= c.z <= 1.0
  }

  /** The lock-step shape of a result: one colour per point, every point on
      the z = 0 plane, every colour channel in [0, 1]. */
  predicate WellFormed(s: Samples) {
    && |s.pts| == |s.cols|
    && (forall k :: 0 <= k < |s.pts| ==> s.pts[k].z == 0.0)
    && (forall k :: 0 <= k < |s.cols| ==> InUnit(s.cols[k]))
  }

  /** The points and colours pushed for the kept pixels, in order. */
  function Emit(data: seq<byte>, lut: seq<real>, pl: Placement, fidelity: bool, kept: seq<Pos>): (s: Samples)
    requires IsCanvasData(data) && IsGammaTable(lut)
    requires forall k :: 0 <= k < |kept| ==> OnCanvas(kept[k])
    ensures |s.pts| == |kept| && |s.cols| == |kept|
    ensures WellFormed(s)
    ensures forall k :: 0 <= k < |kept| ==> s.pts[k].x == NormX(kept[k].x, pl) && s.pts[k].y == NormY(kept[k].y, pl)
    ensures fidelity ==> forall k :: 0 <= k < |kept| ==>
      var px := PixelAt(data, kept[k]);
      s.cols[k] == Vec3(px.r as real / 255.0, px.g as real / 255.0, px.b as real / 255.0)
    ensures !fidelity ==> forall k :: 0 <= k < |kept| ==>
      var px := PixelAt(data, kept[k]);
      s.cols[k] == Vec3(lut[px.r], lut[px.g], lut[px.b])
  {
    Samples(
      seq(|kept|, k requires 0 <= k < |kept| => PointOf(kept[k], pl)),
      seq(|kept|, k requires 0 <= k < |kept| => ColourOf(lut, PixelAt(data, kept[k]), fidelity)))
  }

  /** One full strided pass at threshold `th`. */
  function Scan(rule: Rule, data: seq<byte>, lut: seq<real>, cfg: Config, pl: Placement, th: int, step: int): (s: Samples)
    requires IsCanvasData(data) && IsGammaTable(lut) && step >= 1
    ensures WellFormed(s)
    ensures |s.pts| <= |RasterScan(0, step)|
  {
    Emit(data, lut, pl, cfg.fidelity, Select(rule, data, lut, cfg, th, RasterScan(0, step)))
  }

  function Append(a: Samples, b: Samples): Samples {
    Samples(a.pts + b.pts, a.cols + b.cols)
  }

  /** The relaxed threshold of the sparse fallback, `max(5, floor(th * 0.85))`:
      never above `th` once `th` is at least 5, above it otherwise. */
  function RelaxedThreshold(th: int): (r: int)
    requires 0 <= th
    ensures r >= RelaxedFloor
    ensures r > th <==> th < RelaxedFloor
  {
    assert (th as real) * 0.85 <= th as real;
    MaxInt(RelaxedFloor, ((th as real) * 0.85).Floor)
  }

  /** The primary pass, followed, when it produced fewer than 500 points (a
      flat array shorter than 1500), by a second pass at the relaxed
      threshold whose points are appended. */
  function SampleCanvas(rule: Rule, data: seq<byte>, lut: seq<real>, cfg: Config, pl: Placement): (s: Samples)
    requires IsCanvasData(data) && IsGammaTable(lut)
    ensures WellFormed(s)
  {
    var freq := Histogram(data, lut, cfg.alphaMin, Size * Size);
    var th0 := Threshold(freq, cfg.quantile);
    var step := Stride(cfg.targetSamples);
    var primary := Scan(rule, data, lut, cfg, pl, th0, step);
    if 3 * |primary.pts| < SparseFlatLength then
      Append(primary, Scan(rule, data, lut, cfg, pl, RelaxedThreshold(th0), step))
    else primary
  }

  /** The sparse fallback only appends: the primary result is a prefix of
      the final one, which is unchanged unless the primary flat array is
      shorter than 1500; when the primary threshold is at least 5, the
      second pass keeps every pixel again, so the result at least doubles. */
  lemma SparseFallback(rule: Rule, data: seq<byte>, lut: seq<real>, cfg: Config, pl: Placement)
    requires IsCanvasData(data) && IsGammaTable(lut)
    ensures
      var th0 := Threshold(Histogram(data, lut, cfg.alphaMin, Size * Size), cfg.quantile);
      var primary := Scan(rule, data, lut, cfg, pl, th0, Stride(cfg.targetSamples));
      var s := SampleCanvas(rule, data, lut, cfg, pl);
      && |primary.pts| <= |s.pts|
      && s.pts[..|primary.pts|] == primary.pts
      && s.cols[..|primary.cols|] == primary.cols
      && (3 * |primary.pts| >= SparseFlatLength ==> s == primary)
      && (3 * |primary.pts| < SparseFlatLength && th0 >= RelaxedFloor ==> |s.pts| >= 2 * |primary.pts|)
  {
    var th0 := Threshold(Histogram(data, lut, cfg.alphaMin, Size * Size), cfg.quantile);
    var step := Stride(cfg.targetSamples);
    var primary := Scan(rule, data, lut, cfg, pl, th0, step);
    var s := SampleCanvas(rule, data, lut, cfg, pl);
    if 3 * |primary.pts| < SparseFlatLength {
      assert s.pts[..|primary.pts|] == primary.pts;
      assert s.cols[..|primary.cols|] == primary.cols;
      if th0 >= RelaxedFloor {
        SelectMonotone(rule, data, lut, cfg, th0, RelaxedThreshold(th0), RasterScan(0, step));
      }
    }
  }

  /** A canvas that is transparent wherever the image was not drawn. */
  predicate TransparentOutside(data: seq<byte>, pl: Placement)
    requires IsCanvasData(data)
  {
    forall x, y :: 0 <= x < Size && 0 <= y < Size && !InRect(Pos(x, y), pl) ==> PixelAt(data, Pos(x, y)).a == 0
  }

  /** On such a canvas, with a non-negative alpha floor, every emitted point
      lies in the box the drawn rectangle maps to. */
  lemma ScanWithinSpan(rule: Rule, data: seq<byte>, lut: seq<real>, cfg: Config, pl: Placement, th: int, step: int)
    requires IsCanvasData(data) && IsGammaTable(lut) && step >= 1
    requires TransparentOutside(data, pl) && cfg.alphaMin >= 0.0
    ensures var s := Scan(rule, data, lut, cfg, pl, th, step);
      forall k :: 0 <= k < |s.pts| ==>
        -SpanX(pl) / 2.0 <= s.pts[k].x < SpanX(pl) / 2.0 && -SpanY(pl) / 2.0 < s.pts[k].y <= SpanY(pl) / 2.0
  {
    var kept := Select(rule, data, lut, cfg, th, RasterScan(0, step));
    forall k | 0 <= k < |kept|
      ensures InRect(kept[k], pl)
    {
      assert Keep(rule, lut, PixelAt(data, kept[k]), th, cfg);
      assert PixelAt(data, Pos(kept[k].x, kept[k].y)).a != 0;
    }
  }

  // ---------------------------------------------------------------------
  // The worker and the host's image path

  /** The worker's whole computation for a decoded image. */
  function WorkerSample(req: WorkerRequest, img: Drawn, lut: seq<real>): (s: Samples)
    requires IsCanvasData(img.data) && IsGammaTable(lut)
    ensures WellFormed(s)
  {
    var cfg := Resolve(req);
    SampleCanvas(WorkerRule, img.data, lut, cfg, Place(cfg.fit, img.bw, img.bh))
  }

  /** The image-related props of the inner `Particles` component, defaults
      applied. */
  datatype ImageProps = ImageProps(
    particleCount: int, fit: Fit, fidelity: bool, quantile: real, gamma: real,
    alphaMin: real, satMin: real, skipWhites: bool, whiteMin: real)

  /** The props the outer `ParticleScene` receives; only some are passed on. */
  datatype SceneProps = SceneProps(
    particleCount: Option<int>, imageFit: Option<Fit>, imageColorFidelity: Option<bool>,
    imageThresholdQuantile: Option<real>, imageGamma: Option<real>,
    imageAlphaMin: Option<real>, imageSaturationMin: Option<real>,
    imageSkipWhites: Option<bool>, imageWhiteBrightMin: Option<real>)

  /** `ParticleScene` forwards the count, fit, fidelity, quantile and gamma;
      `Particles` fills the rest with its own defaults. */
  function Forward(sp: SceneProps): (p: ImageProps)
    ensures p.particleCount == ValueOr(sp.particleCount, MaxSamples)
    ensures p.fit == ValueOr(sp.imageFit, Contain)
    ensures p.fidelity == ValueOr(sp.imageColorFidelity, true)
    ensures p.quantile == ValueOr(sp.imageThresholdQuantile, DefaultQuantile)
    ensures p.gamma == ValueOr(sp.imageGamma, DefaultGamma)
    ensures p.alphaMin == DefaultAlphaMin && p.satMin == DefaultSaturationMin
    ensures p.skipWhites && p.whiteMin == DefaultWhiteBrightMin
  {
    ImageProps(
      particleCount := match sp.particleCount case Some(n) => n case None => MaxSamples,
      fit := match sp.imageFit case Some(f) => f case None => Contain,
      fidelity := match sp.imageColorFidelity case Some(b) => b case None => true,
      quantile := match sp.imageThresholdQuantile case Some(q) => q case None => DefaultQuantile,
      gamma := match sp.imageGamma case Some(g) => g case None => DefaultGamma,
      alphaMin := DefaultAlphaMin,
      satMin := DefaultSaturationMin,
      skipWhites := true,
      whiteMin := DefaultWhiteBrightMin)
  }

  /** The message `setTargetsFromImage` posts to the worker: every option is
      sent, and the count is capped at 30000 before it goes. */
  function RequestFrom(p: ImageProps): (req: WorkerRequest)
    ensures req.particleCount <= MaxSamples
    ensures p.particleCount <= MaxSamples ==> req.particleCount == p.particleCount
    ensures req.imageFit == Some(p.fit) && req.thresholdQuantile == Some(p.quantile) && req.gamma == Some(p.gamma)
    ensures req.colorFidelity == Some(p.fidelity) && req.skipWhites == Some(p.skipWhites)
    ensures req.alphaMin == Some(p.alphaMin) && req.saturationMin == Some(p.satMin)
    ensures req.whiteBrightMin == Some(p.whiteMin)
  {
    WorkerRequest(MinInt(p.particleCount, MaxSamples), Some(p.fit), Some(p.quantile), Some(p.gamma),
                  Some(p.fidelity), Some(p.alphaMin), Some(p.satMin), Some(p.skipWhites), Some(p.whiteMin))
  }

  /** Whatever the scene is given for alpha floor, saturation floor,
      white skipping and white brightness, the worker runs with 20, 0.15,
      true and 220. */
  lemma UnforwardedDefaultsApply(sp: SceneProps)
    ensures var c := Resolve(RequestFrom(Forward(sp)));
      c.alphaMin == 20.0 && c.satMin == 0.15 && c.skipWhites && c.whiteMin == 220.0
  {
  }

  /** The main-thread fallback's parameters as written: the alpha floor is
      clamped into [0, 255], while the saturation floor is used unclamped
      and the sample count is only capped at 30000, not raised to 1. */
  function MainThreadConfig(p: ImageProps): (c: Config)
    ensures c.fit == p.fit && c.quantile == p.quantile && c.gamma == p.gamma && c.fidelity == p.fidelity
    ensures 0.0 <= c.alphaMin <= 255.0
    ensures 0.0 <= p.alphaMin <= 255.0 ==> c.alphaMin == p.alphaMin
    ensures c.satMin == p.satMin
    ensures c.targetSamples <= MaxSamples
    ensures p.particleCount <= MaxSamples ==> c.targetSamples == p.particleCount
  {
    Config(p.fit, p.quantile, p.gamma, p.fidelity, ClampReal(p.alphaMin, 0.0, 255.0), p.satMin,
           p.skipWhites, p.whiteMin, MinInt(p.particleCount, MaxSamples))
  }

  /** Where the main thread's parameters and the worker's reading of the
      same props agree: everything but the saturation floor outside [0, 1],
      the white floor (which the main thread never reads) and a
      non-positive sample count. */
  lemma MainThreadConfigAgrees(p: ImageProps)
    ensures var m := MainThreadConfig(p);
      var w := Resolve(RequestFrom(p));
      && m.fit == w.fit && m.quantile == w.quantile && m.gamma == w.gamma
      && m.fidelity == w.fidelity && m.alphaMin == w.alphaMin && m.skipWhites == w.skipWhites
      && (0.0 <= p.satMin <= 1.0 ==> m.satMin == w.satMin)
      && (p.particleCount >= 1 ==> m.targetSamples == w.targetSamples)
      && (p.satMin > 1.0 ==> m.satMin != w.satMin)
      && (p.satMin < 0.0 ==> m.satMin != w.satMin)
      && (p.particleCount < 1 ==> m.targetSamples != w.targetSamples)
  {
  }

  /** The main-thread fallback as written: the worker's pipeline with the
      main thread's own parameters and without the white-background test. */
  function MainThreadSampleAsWritten(p: ImageProps, img: Drawn, lut: seq<real>): (s: Samples)
    requires IsCanvasData(img.data) && IsGammaTable(lut)
    ensures WellFormed(s)
  {
    SampleCanvas(MainThreadRule, img.data, lut, MainThreadConfig(p), Place(p.fit, img.bw, img.bh))
  }

  /** Under the defaults the host always uses, an opaque white pixel is kept
      by the main-thread fallback and dropped by the worker, whatever the
      threshold. */
  lemma MainThreadKeepsWhitePixel(sp: SceneProps, lut: seq<real>, th: int)
    requires IsGammaTable(lut) && lut[255] == 1.0 && th <= MaxThreshold
    ensures var white := Pixel(255, 255, 255, 255);
      && Keep(MainThreadRule, lut, white, th, MainThreadConfig(Forward(sp)))
      && !Keep(WorkerRule, lut, white, th, Resolve(RequestFrom(Forward(sp))))
  {
    var white := Pixel(255, 255, 255, 255);
    assert Brightness(lut, white) == 255.0;
    assert Saturation(white) == 0.0;
  }

  /** The corrected fallback's parameters, from the main thread's own props:
      every floor clamped into its range as the worker does, and the sample
      count capped at 30000 and raised to at least 1. */
  function CorrectedConfig(p: ImageProps): (c: Config)
    ensures 0.0 <= c.alphaMin <= 255.0 && 0.0 <= c.satMin <= 1.0 && 0.0 <= c.whiteMin <= 255.0
    ensures 1 <= c.targetSamples <= MaxSamples
    ensures c.fit == p.fit && c.skipWhites == p.skipWhites && c.fidelity == p.fidelity
  {
    Config(p.fit, p.quantile, p.gamma, p.fidelity,
           ClampReal(p.alphaMin, 0.0, 255.0), ClampReal(p.satMin, 0.0, 1.0),
           p.skipWhites, ClampReal(p.whiteMin, 0.0, 255.0),
           MaxInt(1, MinInt(p.particleCount, MaxSamples)))
  }

  /** The corrected fallback: the worker's keep rule with the corrected
      parameters. */
  function MainThreadSample(p: ImageProps, img: Drawn, lut: seq<real>): (s: Samples)
    requires IsCanvasData(img.data) && IsGammaTable(lut)
    ensures WellFormed(s)
  {
    SampleCanvas(WorkerRule, img.data, lut, CorrectedConfig(p), Place(p.fit, img.bw, img.bh))
  }

  /** The corrected fallback computes exactly what the worker computes for
      the request the host would have posted. */
  lemma MainThreadMatchesWorker(p: ImageProps, img: Drawn, lut: seq<real>)
    requires IsCanvasData(img.data) && IsGammaTable(lut)
    ensures MainThreadSample(p, img, lut) == WorkerSample(RequestFrom(p), img, lut)
  {
    assert CorrectedConfig(p) == Resolve(RequestFrom(p));
  }

  /** With the corrected fallback, no kept pixel is white background when
      white skipping is on. */
  lemma FallbackDropsWhites(p: ImageProps, data: seq<byte>, lut: seq<real>, th: int, step: int)
    requires IsCanvasData(data) && IsGammaTable(lut) && step >= 1
    ensures var cfg := CorrectedConfig(p);
      forall pos :: pos in Select(WorkerRule, data, lut, cfg, th, RasterScan(0, step)) ==>
        OnCanvas(pos) && !IsWhiteBackground(lut, PixelAt(data, pos), cfg)
  {
  }

  /** Under the defaults the host always uses, the corrected fallback drops
      the opaque white pixel the as-written one keeps. */
  lemma CorrectedDropsWhitePixel(sp: SceneProps, lut: seq<real>, th: int)
    requires IsGammaTable(lut) && lut[255] == 1.0
    ensures !Keep(WorkerRule, lut, Pixel(255, 255, 255, 255), th, CorrectedConfig(Forward(sp)))
  {
    var white := Pixel(255, 255, 255, 255);
    assert Brightness(lut, white) == 255.0;
    assert Saturation(white) == 0.0;
  }
}
