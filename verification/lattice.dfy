/** The `grid` effect's lattice (src/components/ParticleScene.tsx, `useFrame`):
    the lattice side `gridN`, the base-`gridN` digits of a particle index,
    and the lattice point those digits name. */
module Lattice {
  import opened Base

  /** Number of particle slots. */
  const Capacity: int := 30000
  const MinSide: int := 8
  /** Edge length of the cube the lattice spans. */
  const GridSpan: real := 45.0

  /** `max(8, round(cbrt(min(particleCount, 30000))))`: 8 while the cube
      root of the capped count is below 7.5, and above that the side of the
      cube nearest to holding the capped count. */
  function GridSide(particleCount: int): (n: int)
    ensures MinSide <= n <= 31
    ensures var m := MinInt(particleCount, Capacity);
      8 * m < 15 * 15 * 15 ==> n == MinSide
    ensures var m := MinInt(particleCount, Capacity);
      8 * m >= 15 * 15 * 15 ==> (2 * n - 1) * (2 * n - 1) * (2 * n - 1) <= 8 * m < (2 * n + 1) * (2 * n + 1) * (2 * n + 1)
  {
    var m := MinInt(particleCount, Capacity);
    // The cube root of a non-positive count rounds to at most 0.
    var root := if m > 0 then RoundCbrt(m) else 0;
    assert root <= 31 by {
      if root >= 32 {
        CubeMono(63, 2 * root - 1);
      }
    }
    assert 8 * m < 15 * 15 * 15 ==> root < MinSide by {
      if root >= MinSide {
        CubeMono(15, 2 * root - 1);
      }
    }
    assert 8 * m >= 15 * 15 * 15 ==> root >= MinSide by {
      if m > 0 && root < MinSide {
        CubeMono(2 * root + 1, 15);
      }
    }
    MaxInt(MinSide, root)
  }

  lemma CubeMono(a: nat, b: nat)
    requires a <= b
    ensures a * a * a <= b * b * b
  {
    assert a * a <= b * b by { MulLe(a, b, a); MulLe(a, b, b); }
    MulLe(a * a, b * b, a);
    MulLe(a, b, b * b);
  }

  /** The digits `(gx, gy, gz)` of particle `i`: `i % n`, `floor(i / n) % n`
      and `floor(i / n^2) % n`. They are the last three base-`n` digits of
      `i`, so they encode `i mod n^3`. */
  function LatticeIndex(i: nat, n: int): (g: (int, int, int))
    requires n >= 1
    ensures 0 <= g.0 < n && 0 <= g.1 < n && 0 <= g.2 < n
    ensures g.0 + n * g.1 + n * n * g.2 == i % (n * n * n)
  {
    var gx := i % n;
    var gy := (i / n) % n;
    var gz := (i / (n * n)) % n;
    DigitsFacts(i, n, gx, gy, gz);
    (gx, gy, gz)
  }

  lemma DigitsFacts(i: nat, n: int, gx: int, gy: int, gz: int)
    requires n >= 1
    requires gx == i % n && gy == (i / n) % n && gz == (i / (n * n)) % n
    ensures gx + n * gy + n * n * gz == i % (n * n * n)
  {
    var q1 := i / n;
    var q2 := q1 / n;
    var q3 := q2 / n;
    AppendDigit(i, n, n, q1, gx, q2, gy);
    var low2 := n * gy + gx;
    DivModUnique(i, n * n, q2, low2);
    AppendDigit(i, n * n, n, q2, low2, q3, gz);
    DivModUnique(i, n * n * n, q3, n * n * gz + low2);
  }

  /** One more base-`n` digit: if `i = q*d + r` and `q = q'*n + g`, then
      `d*g + r` is the remainder of `i` by `d*n`. */
  lemma AppendDigit(i: int, d: int, n: int, q: int, r: int, q': int, g: int)
    requires d >= 1 && n >= 1
    requires i == q * d + r && 0 <= r < d
    requires q == q' * n + g && 0 <= g < n
    ensures i == q' * (d * n) + (d * g + r)
    ensures 0 <= d * g + r < d * n
  {
    assert q * d == q' * (d * n) + d * g;
    MulLe(g, n - 1, d);
  }

  /** Three base-`n` digits are determined by the number they encode. */
  lemma DigitsUnique(n: int, a: (int, int, int), b: (int, int, int))
    requires n >= 1
    requires 0 <= a.0 < n && 0 <= a.1 < n && 0 <= a.2 < n
    requires 0 <= b.0 < n && 0 <= b.1 < n && 0 <= b.2 < n
    requires a.0 + n * a.1 + n * n * a.2 == b.0 + n * b.1 + n * n * b.2
    ensures a == b
  {
    var x := a.0 + n * a.1 + n * n * a.2;
    var ha, hb := a.1 + n * a.2, b.1 + n * b.2;
    SplitLowDigit(x, n, a.0, ha, a.2, a.1);
    SplitLowDigit(x, n, b.0, hb, b.2, b.1);
    assert ha == hb;
    DivModUnique(ha, n, a.2, a.1);
    DivModUnique(ha, n, b.2, b.1);
  }

  /** `x = lo + n * (mid + n * top)` has low digit `lo` and quotient `mid + n * top`. */
  lemma SplitLowDigit(x: int, n: int, lo: int, h: int, top: int, mid: int)
    requires n >= 1 && 0 <= lo < n
    requires h == mid + n * top
    requires x == lo + n * mid + n * n * top
    ensures x / n == h && x % n == lo
  {
    assert x == h * n + lo;
    DivModUnique(x, n, h, lo);
  }

  /** Particles `n^3` apart share a lattice point: the lattice repeats over
      the particle index. */
  lemma {:induction false} LatticePeriodic(i: nat, n: int)
    requires n >= 1
    ensures LatticeIndex(i + n * n * n, n) == LatticeIndex(i, n)
  {
    var c := n * n * n;
    var a := LatticeIndex(i + c, n);
    var b := LatticeIndex(i, n);
    DivModUnique(i + c, c, i / c + 1, i % c);
    DigitsUnique(n, a, b);
  }

  /** `(g / (gridN - 1) - 0.5) * 45`. */
  function LatticeCoord(g: int, n: int): (t: real)
    requires n >= 2
    ensures 0 <= g < n ==> -GridSpan / 2.0 <= t <= GridSpan / 2.0
    ensures g == 0 ==> t == -GridSpan / 2.0
    ensures g == n - 1 ==> t == GridSpan / 2.0
  {
    var u := g as real / (n - 1) as real;
    assert 0 <= g < n ==> 0.0 <= u <= 1.0 by {
      if 0 <= g < n {
        RatioInUnit(g as real, (n - 1) as real);
      }
    }
    RatioEnds(g, n);
    (u - 0.5) * GridSpan
  }

  /** The first and the last digit sit at the two ends of the unit ratio. */
  lemma RatioEnds(g: int, n: int)
    requires n >= 2
    ensures g == 0 ==> g as real / (n - 1) as real == 0.0
    ensures g == n - 1 ==> g as real / (n - 1) as real == 1.0
  {
  }

  /** The lattice target of particle `i`: every coordinate in the 45-unit
      cube around the origin, and particles `n^3` apart share it. */
  function LatticePoint(i: nat, n: int): (t: Vec3)
    requires n >= 2
    ensures -22.5 <= t.x <= 22.5 && -22.5 <= t.y <= 22.5 && -22.5 <= t.z <= 22.5
  {
    var g := LatticeIndex(i, n);
    Vec3(LatticeCoord(g.0, n), LatticeCoord(g.1, n), LatticeCoord(g.2, n))
  }

  lemma LatticePointPeriodic(i: nat, n: int)
    requires n >= 2
    ensures LatticePoint(i + n * n * n, n) == LatticePoint(i, n)
  {
    LatticePeriodic(i, n);
  }
}
