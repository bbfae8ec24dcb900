/** Shared vocabulary of the particle-art core: optional values, 3D vectors,
    and the integer views of the JavaScript numeric helpers the samplers use
    (`Math.round`, `Math.floor(Math.sqrt(..))`, `Math.round(Math.cbrt(..))`). */
module Base {

  datatype Option<T> = None | Some(value: T)

  /** `o ?? d`: the value when present, the default otherwise. */
  function ValueOr<T>(o: Option<T>, d: T): (v: T)
    ensures o.Some? ==> v == o.value
    ensures o.None? ==> v == d
  {
    match o
    case Some(x) => x
    case None => d
  }

  /** A 3D point, velocity or RGB triple. */
  datatype Vec3 = Vec3(x: real, y: real, z: real)

  /** A sampler's output: points and their colours. The source keeps them
      in flat number arrays, three numbers per entry, so a flat length is
      three times the length here. */
  datatype Samples = Samples(pts: seq<Vec3>, cols: seq<Vec3>)

  const Zero: Vec3 := Vec3(0.0, 0.0, 0.0)

  function Add(a: Vec3, b: Vec3): Vec3 {
    Vec3(a.x + b.x, a.y + b.y, a.z + b.z)
  }

  function Sub(a: Vec3, b: Vec3): Vec3 {
    Vec3(a.x - b.x, a.y - b.y, a.z - b.z)
  }

  function Scale(a: Vec3, k: real): Vec3 {
    Vec3(a.x * k, a.y * k, a.z * k)
  }

  function MinInt(a: int, b: int): int { if a <= b then a else b }
  function MaxInt(a: int, b: int): int { if a >= b then a else b }
  function MinReal(a: real, b: real): real { if a <= b then a else b }
  function MaxReal(a: real, b: real): real { if a >= b then a else b }

  /** `Math.max(lo, Math.min(hi, v))`. */
  function ClampReal(v: real, lo: real, hi: real): (r: real)
    requires lo <= hi
    ensures lo <= r <= hi
    ensures lo <= v <= hi ==> r == v
    ensures v < lo ==> r == lo
    ensures v > hi ==> r == hi
  {
    MaxReal(lo, MinReal(hi, v))
  }

  lemma PosMul(a: real, b: real)
    requires a > 0.0 && b > 0.0
    ensures a * b > 0.0
  {
  }

  lemma NonnegMul(a: real, b: real)
    requires a >= 0.0 && b >= 0.0
    ensures a * b >= 0.0
  {
  }

  /** A part over a positive whole is a fraction in [0, 1]. */
  lemma RatioInUnit(a: real, m: real)
    requires m > 0.0 && 0.0 <= a <= m
    ensures 0.0 <= a / m <= 1.0
  {
    var q := a / m;
    assert q * m == a;
  }

  /** `u * r`: a draw `u` in [0, 1) takes a part of a non-negative length
      `r` that is never all of it. */
  function Portion(u: real, r: real): (p: real)
    ensures 0.0 <= u < 1.0 && 0.0 <= r ==> 0.0 <= p <= r && (0.0 < r ==> p < r)
  {
    if 0.0 <= u < 1.0 && 0.0 <= r then
      NonnegMul(u, r);
      NonnegMul(1.0 - u, r);
      if 0.0 < r then PosMul(1.0 - u, r); u * r else u * r
    else u * r
  }

  /** A positive multiple of `step` is at least `step`, and one stride less
      is still a multiple: the step a `for (i = from; ...; i += step)` loop
      takes from one visited value to the next. */
  lemma StrideShift(d: int, step: int)
    requires step >= 1 && d > 0 && d % step == 0
    ensures d >= step && (d - step) % step == 0
  {
    var q := d / step;
    assert d == q * step;
    assert q >= 1;
    MulLe(1, q, step);
    DivModUnique(d - step, step, q - 1, 0);
  }

  lemma MulLe(a: nat, b: nat, c: nat)
    requires a <= b
    ensures a * c <= b * c
  {
  }

  /** Division with remainder is unique: any `q, r` with `x = q*d + r` and
      `0 <= r < d` are Dafny's (Euclidean) quotient and remainder. */
  lemma DivModUnique(x: int, d: int, q: int, r: int)
    requires d > 0 && x == q * d + r && 0 <= r < d
    ensures x / d == q && x % d == r
  {
    var q0, r0 := x / d, x % d;
    assert x == q0 * d + r0;
    if q0 > q {
      MulLe(1, q0 - q, d);
    } else if q0 < q {
      MulLe(1, q - q0, d);
    }
  }

  /** `Math.round`: the nearest integer, halves rounded up. */
  function Round(v: real): (r: int)
    ensures v - 0.5 < r as real <= v + 0.5
  {
    (v + 0.5).Floor
  }

  /** `Math.floor(Math.sqrt(n))` for a non-negative integer `n`, found by
      counting up from `k`. */
  function ISqrtFrom(n: nat, k: nat): (r: nat)
    requires k * k <= n
    ensures k <= r
    ensures r * r <= n < (r + 1) * (r + 1)
    decreases n - k * k
  {
    if (k + 1) * (k + 1) <= n then ISqrtFrom(n, k + 1) else k
  }

  function ISqrt(n: nat): (r: nat)
    ensures r * r <= n < (r + 1) * (r + 1)
  {
    ISqrtFrom(n, 0)
  }

  /** `Math.round(Math.cbrt(n))` for a non-negative integer `n`, found by
      counting up from `k`. The nearest integer to the cube root is the `r`
      with `(2r-1)^3 <= 8n < (2r+1)^3`; `8n` is even and the bounds are odd,
      so no tie can occur. */
  function RoundCbrtFrom(n: nat, k: nat): (r: nat)
    requires (2 * k - 1) * (2 * k - 1) * (2 * k - 1) <= 8 * n
    ensures k <= r
    ensures (2 * r - 1) * (2 * r - 1) * (2 * r - 1) <= 8 * n
    ensures 8 * n < (2 * r + 1) * (2 * r + 1) * (2 * r + 1)
    decreases 8 * n + 1 - (2 * k - 1) * (2 * k - 1) * (2 * k - 1)
  {
    if (2 * k + 1) * (2 * k + 1) * (2 * k + 1) <= 8 * n then RoundCbrtFrom(n, k + 1) else k
  }

  function RoundCbrt(n: nat): (r: nat)
    ensures (2 * r - 1) * (2 * r - 1) * (2 * r - 1) <= 8 * n < (2 * r + 1) * (2 * r + 1) * (2 * r + 1)
  {
    RoundCbrtFrom(n, 0)
  }
}
