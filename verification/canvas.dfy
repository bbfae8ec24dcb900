/** The 512x512 RGBA offscreen canvas both the text and the image samplers
    draw into and read back with `getImageData`, and the strided raster scan
    they walk it with. */
module Canvas {
  import opened Base

  /** Side of the square offscreen canvas. */
  const Size: int := 512

  /** Number of bytes `getImageData` returns for the whole canvas. */
  const ByteCount: int := 4 * Size * Size

  /** One channel of a `Uint8ClampedArray`. */
  newtype byte = b: int | 0 <= b < 256

  datatype Pixel = Pixel(r: byte, g: byte, b: byte, a: byte)

  /** A pixel coordinate on the canvas. */
  datatype Pos = Pos(x: int, y: int)

  predicate OnCanvas(p: Pos) {
    0 <= p.x < Size && 0 <= p.y < Size
  }

  /** The full-canvas RGBA buffer, row-major, four bytes per pixel. */
  predicate IsCanvasData(data: seq<byte>) {
    |data| == ByteCount
  }

  /** Offset `(y * size + x) * 4` of a pixel's red byte; its alpha byte at
      offset + 3 is still inside the buffer. */
  function ByteOffset(p: Pos): (i: nat)
    requires OnCanvas(p)
    ensures i % 4 == 0
    ensures i + 3 < ByteCount
    ensures i / 4 == p.y * Size + p.x
  {
    (p.y * Size + p.x) * 4
  }

  /** The four channels of the pixel at `p`. */
  function PixelAt(data: seq<byte>, p: Pos): Pixel
    requires IsCanvasData(data) && OnCanvas(p)
  {
    var i := ByteOffset(p);
    Pixel(data[i], data[i + 1], data[i + 2], data[i + 3])
  }

  /** The pixel with linear index `k` (the `k`-th group of four bytes). */
  function PixelOf(data: seq<byte>, k: nat): Pixel
    requires 4 * k + 3 < |data|
  {
    Pixel(data[4 * k], data[4 * k + 1], data[4 * k + 2], data[4 * k + 3])
  }

  /** `for (x = from; x < size; x += step)` on row `y`: exactly the columns
      `from + k * step` below the canvas width, in increasing order. */
  function RowScan(y: int, from: nat, step: nat): (r: seq<Pos>)
    requires step >= 1
    ensures forall k :: 0 <= k < |r| ==> r[k] == Pos(from + k * step, y) && r[k].x < Size
    ensures from < Size ==> |r| > 0 && r[0].x == from
    decreases Size - from
  {
    if from >= Size then []
    else
      var rest := RowScan(y, from + step, step);
      RowScanCons(y, from, step, rest);
      [Pos(from, y)] + rest
  }

  /** The step of `RowScan`: visiting `from` before the row from
      `from + step` on keeps its contract. */
  lemma RowScanCons(y: int, from: nat, step: nat, rest: seq<Pos>)
    requires step >= 1 && from < Size
    requires forall k :: 0 <= k < |rest| ==> rest[k] == Pos(from + step + k * step, y) && rest[k].x < Size
    ensures var r := [Pos(from, y)] + rest;
      forall k :: 0 <= k < |r| ==> r[k] == Pos(from + k * step, y) && r[k].x < Size
  {
    var r := [Pos(from, y)] + rest;
    forall k | 1 <= k < |r|
      ensures r[k] == Pos(from + k * step, y)
    {
      assert r[k] == rest[k - 1];
      assert from + step + (k - 1) * step == from + k * step;
    }
  }

  /** `r` holds every column of row `y` from `from` on that is on the stride. */
  ghost predicate CoversRow(r: seq<Pos>, y: int, from: int, step: nat)
    requires step >= 1
  {
    forall x :: from <= x < Size && (x - from) % step == 0 ==> Pos(x, y) in r
  }

  /** The row scan misses no column on the stride. */
  lemma {:induction false} RowScanCovers(y: int, from: nat, step: nat)
    requires step >= 1
    ensures CoversRow(RowScan(y, from, step), y, from, step)
    decreases Size - from
  {
    if from < Size {
      RowScanCovers(y, from + step, step);
      RowConsCovers(y, from, step, RowScan(y, from + step, step));
    }
  }

  lemma RowConsCovers(y: int, from: nat, step: nat, rest: seq<Pos>)
    requires step >= 1 && from < Size
    requires CoversRow(rest, y, from + step, step)
    ensures CoversRow([Pos(from, y)] + rest, y, from, step)
  {
    forall x | from < x < Size && (x - from) % step == 0
      ensures Pos(x, y) in rest
    {
      StrideShift(x - from, step);
      assert x - (from + step) == x - from - step;
    }
  }

  /** `a` comes before `b` in row-major order. */
  predicate Before(a: Pos, b: Pos) {
    a.y < b.y || (a.y == b.y && a.x < b.x)
  }

  /** The nested `for (y ...) for (x ...)` scan with the same stride on both
      axes, from row `fromY` down; it stays on the canvas.  What it visits
      is `RasterScanCovers` and `RasterScanOnGrid`, and in which order
      `RasterScanCovers`. */
  function RasterScan(fromY: nat, step: nat): (r: seq<Pos>)
    requires step >= 1
    ensures forall k :: 0 <= k < |r| ==> OnCanvas(r[k]) && r[k].y >= fromY
    decreases Size - fromY
  {
    if fromY >= Size then []
    else
      RasterConsSound(fromY, step);
      RowScan(fromY, 0, step) + RasterScan(fromY + step, step)
  }

  lemma RasterConsSound(fromY: nat, step: nat)
    requires step >= 1 && fromY < Size
    ensures forall k :: 0 <= k < |RowScan(fromY, 0, step)| ==>
      OnCanvas(RowScan(fromY, 0, step)[k]) && RowScan(fromY, 0, step)[k].y >= fromY
  {
    var row := RowScan(fromY, 0, step);
    forall k | 0 <= k < |row|
      ensures OnCanvas(row[k])
    {
      MultipleOnStride(k, step);
    }
  }

  /** `Pos(x, y)` lies on the stride grid of a scan starting at row `fromY`. */
  predicate OnGrid(fromY: int, step: nat, x: int, y: int)
    requires step >= 1
  {
    fromY <= y < Size && (y - fromY) % step == 0 && 0 <= x < Size && x % step == 0
  }

  /** `r` holds every position of the stride grid from row `fromY`. */
  ghost predicate CoversGrid(r: seq<Pos>, fromY: int, step: nat)
    requires step >= 1
  {
    forall x, y :: OnGrid(fromY, step, x, y) ==> Pos(x, y) in r
  }

  /** `r` lists its positions in strictly increasing row-major order. */
  predicate RowMajor(r: seq<Pos>) {
    forall i, j :: 0 <= i < j < |r| ==> Before(r[i], r[j])
  }

  /** The raster scan visits every position whose column is a multiple of
      the stride and whose row is `fromY` plus a multiple of it, and visits
      them in row-major order. */
  lemma {:induction false} RasterScanCovers(fromY: nat, step: nat)
    requires step >= 1
    ensures CoversGrid(RasterScan(fromY, step), fromY, step)
    ensures RowMajor(RasterScan(fromY, step))
  {
    RasterScanComplete(fromY, step);
    RasterScanOrdered(fromY, step);
  }

  lemma {:induction false} RasterScanComplete(fromY: nat, step: nat)
    requires step >= 1
    ensures CoversGrid(RasterScan(fromY, step), fromY, step)
    decreases Size - fromY
  {
    if fromY < Size {
      RasterScanComplete(fromY + step, step);
      RasterStepComplete(fromY, step);
    }
  }

  /** One row of the raster scan: covering the grid below row `fromY` and
      scanning row `fromY` covers the grid from `fromY`. */
  lemma RasterStepComplete(fromY: nat, step: nat)
    requires step >= 1 && fromY < Size
    requires CoversGrid(RasterScan(fromY + step, step), fromY + step, step)
    ensures CoversGrid(RasterScan(fromY, step), fromY, step)
  {
    assert RasterScan(fromY, step) == RowScan(fromY, 0, step) + RasterScan(fromY + step, step);
    RasterConsComplete(fromY, step, RowScan(fromY, 0, step), RasterScan(fromY + step, step));
  }

  lemma {:induction false} RasterScanOrdered(fromY: nat, step: nat)
    requires step >= 1
    ensures RowMajor(RasterScan(fromY, step))
    decreases Size - fromY
  {
    if fromY < Size {
      RasterScanOrdered(fromY + step, step);
      RasterConsOrdered(fromY, step, RowScan(fromY, 0, step), RasterScan(fromY + step, step));
    }
  }

  /** Every position of `r` lies on the stride grid from row `fromY`. */
  predicate WithinGrid(r: seq<Pos>, fromY: int, step: nat)
    requires step >= 1
  {
    forall k :: 0 <= k < |r| ==> OnGrid(fromY, step, r[k].x, r[k].y)
  }

  /** The raster scan visits nothing off the stride grid; with
      `RasterScanCovers`, a position is visited exactly when it is on it. */
  lemma {:induction false} RasterScanOnGrid(fromY: nat, step: nat)
    requires step >= 1
    ensures WithinGrid(RasterScan(fromY, step), fromY, step)
    decreases Size - fromY
  {
    if fromY < Size {
      RasterScanOnGrid(fromY + step, step);
      RowOnGrid(fromY, step);
      RasterConsOnGrid(fromY, step, RowScan(fromY, 0, step), RasterScan(fromY + step, step));
    }
  }

  lemma RowOnGrid(y: nat, step: nat)
    requires step >= 1 && y < Size
    ensures WithinGrid(RowScan(y, 0, step), y, step)
  {
    var row := RowScan(y, 0, step);
    forall k | 0 <= k < |row|
      ensures OnGrid(y, step, row[k].x, row[k].y)
    {
      MultipleOnStride(k, step);
      assert row[k] == Pos(0 + k * step, y);
    }
  }

  lemma RasterConsOnGrid(fromY: nat, step: nat, row: seq<Pos>, rest: seq<Pos>)
    requires step >= 1 && fromY < Size
    requires WithinGrid(row, fromY, step)
    requires WithinGrid(rest, fromY + step, step)
    ensures WithinGrid(row + rest, fromY, step)
  {
    var r := row + rest;
    forall k | 0 <= k < |r|
      ensures OnGrid(fromY, step, r[k].x, r[k].y)
    {
      if k < |row| {
        assert r[k] == row[k];
      } else {
        var p := rest[k - |row|];
        assert r[k] == p;
        assert OnGrid(fromY + step, step, p.x, p.y);
        var q := (p.y - (fromY + step)) / step;
        assert p.y - (fromY + step) == q * step;
        assert p.y - fromY == (q + 1) * step;
        DivModUnique(p.y - fromY, step, q + 1, 0);
      }
    }
  }

  /** `k * step` is on the stride. */
  lemma MultipleOnStride(k: nat, step: nat)
    requires step >= 1
    ensures k * step >= 0 && (k * step) % step == 0
  {
    MulLe(0, k, step);
    DivModUnique(k * step, step, k, 0);
  }

  lemma RasterConsComplete(fromY: nat, step: nat, row: seq<Pos>, rest: seq<Pos>)
    requires step >= 1 && fromY < Size
    requires row == RowScan(fromY, 0, step)
    requires CoversGrid(rest, fromY + step, step)
    ensures CoversGrid(row + rest, fromY, step)
  {
    forall x, y | OnGrid(fromY, step, x, y)
      ensures Pos(x, y) in row + rest
    {
      if y == fromY {
        RowMember(fromY, step, x);
      } else {
        StrideShift(y - fromY, step);
        assert y - (fromY + step) == y - fromY - step;
        assert OnGrid(fromY + step, step, x, y);
      }
    }
  }

  lemma RowMember(y: int, step: nat, x: int)
    requires step >= 1 && 0 <= x < Size && x % step == 0
    ensures Pos(x, y) in RowScan(y, 0, step)
  {
    RowScanCovers(y, 0, step);
    assert x - 0 == x;
  }

  lemma RasterConsOrdered(fromY: nat, step: nat, row: seq<Pos>, rest: seq<Pos>)
    requires step >= 1 && fromY < Size
    requires row == RowScan(fromY, 0, step)
    requires forall k :: 0 <= k < |rest| ==> rest[k].y >= fromY + step
    requires RowMajor(rest)
    ensures RowMajor(row + rest)
  {
    var r := row + rest;
    forall i, j | 0 <= i < j < |r|
      ensures Before(r[i], r[j])
    {
      if j < |row| {
        assert r[i] == row[i] && r[j] == row[j];
        StrictMul(i, j, step);
      } else if i >= |row| {
        assert r[i] == rest[i - |row|] && r[j] == rest[j - |row|];
      } else {
        assert r[i] == row[i] && r[j] == rest[j - |row|];
      }
    }
  }

  lemma StrictMul(i: nat, j: nat, step: nat)
    requires i < j && step >= 1
    ensures i * step < j * step
  {
    MulLe(i + 1, j, step);
  }
}
