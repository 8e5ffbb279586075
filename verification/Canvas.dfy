/**
 The pixels of hal/drawing.cpp: a luma plane, a chroma plane with one pair for two by two pixels, and
 what setting a pixel, a row or a list of pixels does to them.
 */
module Canvas {
  import opened FlatMatrix

  newtype byte = b: int | 0 <= b < 256

  datatype Color = Color(y: byte, u: byte, v: byte)

  datatype Dims = Dims(stride: nat, width: nat, height: nat)

  datatype Planes = Planes(y: seq<byte>, uv: seq<byte>)

  /** x & ~1 for a column. */
  function Even(x: nat): nat { x - x % 2 }

  /** The luma byte of a pixel, and the first of the two chroma bytes it shares. */
  function YOff(d: Dims, x: nat, y: nat): nat { Idx(d.stride, x, y) }

  function UvOff(d: Dims, x: nat, y: nat): nat { Idx(d.stride, Even(x), y / 2) }

  /** Luma is row by row, chroma a pair for two by two pixels. */
  lemma OffsetsAre(d: Dims, x: nat, y: nat)
    ensures YOff(d, x, y) == y * d.stride + x && UvOff(d, x, y) == (y / 2) * d.stride + x - x % 2
  {
    IdxIsFlat(d.stride, x, y);
    IdxIsFlat(d.stride, Even(x), y / 2);
  }

  predicate OnScreen(d: Dims, x: int, y: int) { 0 <= x < d.width && 0 <= y < d.height }

  /** The planes are large enough: a byte for every pixel, and every chroma pair within the plane. */
  ghost predicate Fits(d: Dims, ySize: nat, uvSize: nat) {
    && 0 < d.width <= d.stride && 0 < d.height
    && Size(d.stride, d.height) <= ySize
    && UvOff(d, d.width - 1, d.height - 1) + 2 <= uvSize
  }

  lemma {:induction false} IdxMonotone(n: nat, r: nat, c: nat, r': nat, c': nat)
    requires r <= r' && c <= c'
    ensures Idx(n, r, c) <= Idx(n, r', c')
    decreases c'
  {
    if c < c' {
      IdxMonotone(n, r, c, r', c' - 1);
    } else {
      IdxShift(n, r, c);
      IdxShift(n, r', c);
    }
  }

  lemma PixelFits(d: Dims, ySize: nat, uvSize: nat, x: int, y: int)
    requires Fits(d, ySize, uvSize) && OnScreen(d, x, y)
    ensures YOff(d, x, y) < ySize && UvOff(d, x, y) + 2 <= uvSize
  {
    IdxBound(d.stride, d.height, x, y);
    IdxMonotone(d.stride, Even(x), y / 2, Even(d.width - 1), (d.height - 1) / 2);
  }

  /** Setting one pixel; off the screen nothing happens. */
  ghost function Plot(d: Dims, p: Planes, x: int, y: int, c: Color): (q: Planes)
    requires Fits(d, |p.y|, |p.uv|)
    ensures |q.y| == |p.y| && |q.uv| == |p.uv|
  {
    if OnScreen(d, x, y) then
      PixelFits(d, |p.y|, |p.uv|, x, y);
      Planes(p.y[YOff(d, x, y) := c.y], p.uv[UvOff(d, x, y) := c.u][UvOff(d, x, y) + 1 := c.v])
    else p
  }

  /** Setting the pixels x1..x2 of row y, from left to right. */
  ghost function PlotRow(d: Dims, p: Planes, x1: int, x2: int, y: int, c: Color): (q: Planes)
    requires Fits(d, |p.y|, |p.uv|)
    ensures |q.y| == |p.y| && |q.uv| == |p.uv|
    decreases x2 - x1
  {
    if x2 < x1 then p else Plot(d, PlotRow(d, p, x1, x2 - 1, y, c), x2, y, c)
  }

  /** Setting a list of pixels in order. */
  ghost function PlotAll(d: Dims, p: Planes, pts: seq<(int, int)>, c: Color): (q: Planes)
    requires Fits(d, |p.y|, |p.uv|)
    ensures |q.y| == |p.y| && |q.uv| == |p.uv|
  {
    if pts == [] then p
    else
      var last := pts[|pts| - 1];
      Plot(d, PlotAll(d, p, pts[..|pts| - 1], c), last.0, last.1, c)
  }

  /** A run of bytes set to one value. */
  ghost function FilledY(ys: seq<byte>, lo: int, hi: int, v: byte): (r: seq<byte>)
    ensures |r| == |ys|
  {
    seq(|ys|, i requires 0 <= i < |ys| => if lo <= i < hi then v else ys[i])
  }

  /** A run of chroma bytes set to alternating u and v, u at even distance from `base`. */
  ghost function FilledUv(uvs: seq<byte>, base: int, lo: int, hi: int, c: Color): (r: seq<byte>)
    ensures |r| == |uvs|
  {
    seq(|uvs|, i requires 0 <= i < |uvs| => if lo <= i < hi then Chroma(i - base, c) else uvs[i])
  }

  function Chroma(distance: int, c: Color): byte { if distance % 2 == 0 then c.u else c.v }

  /** The rows as runs of bytes. */
  lemma {:induction false} RowFilled(d: Dims, p: Planes, x1: int, x2: int, y: int, c: Color)
    requires Fits(d, |p.y|, |p.uv|) && 0 <= y < d.height && 0 <= x1 && x1 <= x2 + 1 && x2 < d.width
    ensures var base, uvBase := YOff(d, 0, y), UvOff(d, 0, y);
            PlotRow(d, p, x1, x2, y, c)
            == if x2 < x1 then p
               else Planes(FilledY(p.y, base + x1, base + x2 + 1, c.y),
                           FilledUv(p.uv, uvBase, uvBase + Even(x1), uvBase + Even(x2) + 2, c))
    decreases x2 - x1
  {
    hide *;
    RowUnfolds(d, p, x1, x2, y, c);
    if x1 <= x2 {
      var q := PlotRow(d, p, x1, x2 - 1, y, c);
      RowUnfolds(d, p, x1, x2 - 1, y, c);
      RowPixel(d, q, x2, y, c);
      RowFilled(d, p, x1, x2 - 1, y, c);
      var base, uvBase := YOff(d, 0, y), UvOff(d, 0, y);
      YStep(p.y, q.y, base, x1, x2, c.y);
      UvStep(p.uv, q.uv, uvBase, x1, x2, c);
    }
  }

  lemma RowUnfolds(d: Dims, p: Planes, x1: int, x2: int, y: int, c: Color)
    requires Fits(d, |p.y|, |p.uv|)
    ensures PlotRow(d, p, x1, x2, y, c) == if x2 < x1 then p else Plot(d, PlotRow(d, p, x1, x2 - 1, y, c), x2, y, c)
  {
    hide Plot, Fits;
  }

  lemma RowPixel(d: Dims, p: Planes, x: nat, y: nat, c: Color)
    requires Fits(d, |p.y|, |p.uv|) && x < d.width && y < d.height
    ensures var base, uvBase := YOff(d, 0, y), UvOff(d, 0, y);
            && base + x < |p.y| && uvBase + Even(x) + 2 <= |p.uv|
            && Plot(d, p, x, y, c) == Planes(p.y[base + x := c.y], p.uv[uvBase + Even(x) := c.u][uvBase + Even(x) + 1 := c.v])
  {
    PixelFits(d, |p.y|, |p.uv|, x, y);
    IdxShift(d.stride, x, y);
    IdxShift(d.stride, Even(x), y / 2);
    assert UvOff(d, 0, y) == Idx(d.stride, 0, y / 2);
    hide Fits, Idx;
  }

  lemma YStep(ys: seq<byte>, before: seq<byte>, base: nat, x1: nat, x2: nat, v: byte)
    requires x1 <= x2 && base + x2 < |ys|
    requires before == if x2 - 1 < x1 then ys else FilledY(ys, base + x1, base + x2, v)
    ensures before[base + x2 := v] == FilledY(ys, base + x1, base + x2 + 1, v)
  {
  }

  lemma UvStep(uv: seq<byte>, before: seq<byte>, base: nat, x1: nat, x2: nat, c: Color)
    requires x1 <= x2 && base + Even(x2) + 2 <= |uv|
    requires before == if x2 - 1 < x1 then uv else FilledUv(uv, base, base + Even(x1), base + Even(x2 - 1) + 2, c)
    ensures before[base + Even(x2) := c.u][base + Even(x2) + 1 := c.v]
         == FilledUv(uv, base, base + Even(x1), base + Even(x2) + 2, c)
  {
    assert Even(x2) % 2 == 0 && (Even(x2) + 1) % 2 == 1;
    assert Chroma(Even(x2), c) == c.u && Chroma(Even(x2) + 1, c) == c.v;
  }

  /** Off-screen parts of a row do not matter. */
  lemma {:induction false} RowClipped(d: Dims, p: Planes, x1: int, x2: int, y: int, c: Color)
    requires Fits(d, |p.y|, |p.uv|) && 0 <= y < d.height
    ensures var lo, hi := if x1 < 0 then 0 else x1, if x2 >= d.width then d.width - 1 else x2;
            PlotRow(d, p, x1, x2, y, c) == if lo <= hi then PlotRow(d, p, lo, hi, y, c) else p
    decreases x2 - x1
  {
    if x1 <= x2 { RowClipped(d, p, x1, x2 - 1, y, c); }
  }

  lemma {:induction false} RowOffScreen(d: Dims, p: Planes, x1: int, x2: int, y: int, c: Color)
    requires Fits(d, |p.y|, |p.uv|) && !(0 <= y < d.height)
    ensures PlotRow(d, p, x1, x2, y, c) == p
    decreases x2 - x1
  {
    if x1 <= x2 { RowOffScreen(d, p, x1, x2 - 1, y, c); }
  }
}
