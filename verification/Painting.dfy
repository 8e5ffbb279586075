/**
 What drawing leaves in a frame, independent of the order it was drawn in: the pixels of a set have
 the colour and no other byte has changed.
 */
module Painting {
  import opened FlatMatrix
  import opened Canvas

  /** A set of pixels. */
  type Shape = (int, int) -> bool

  /** A pixel of the shape that is on the screen. */
  ghost predicate Inside(d: Dims, s: Shape, x: int, y: int) { OnScreen(d, x, y) && s(x, y) }

  ghost predicate LumaTouched(d: Dims, s: Shape, k: nat) {
    exists x: nat, y: nat :: Inside(d, s, x, y) && YOff(d, x, y) == k
  }

  ghost predicate ChromaTouched(d: Dims, s: Shape, k: nat) {
    exists x: nat, y: nat :: Inside(d, s, x, y) && (UvOff(d, x, y) == k || UvOff(d, x, y) + 1 == k)
  }

  /** The luma plane after painting: the shape's bytes have the value, no other byte has changed. */
  ghost predicate LumaPainted(d: Dims, ys: seq<byte>, ys': seq<byte>, s: Shape, v: byte) {
    && |ys'| == |ys|
    && (forall x: nat, y: nat | Inside(d, s, x, y) :: LumaAt(d, ys', x, y, v))
    && (forall k: nat | k < |ys| && ys'[k] != ys[k] :: LumaTouched(d, s, k))
  }

  ghost predicate LumaAt(d: Dims, ys: seq<byte>, x: nat, y: nat, v: byte) {
    YOff(d, x, y) < |ys| && ys[YOff(d, x, y)] == v
  }

  /** With an odd stride the last pair of a row may share a byte with the next row, so chroma needs an even one. */
  ghost predicate ChromaPainted(d: Dims, uv: seq<byte>, uv': seq<byte>, s: Shape, c: Color) {
    && |uv'| == |uv|
    && (d.stride % 2 == 0 ==> forall x: nat, y: nat | Inside(d, s, x, y) :: PairAt(d, uv', x, y, c))
    && (forall k: nat | k < |uv| && uv'[k] != uv[k] :: ChromaTouched(d, s, k))
  }

  ghost predicate PairAt(d: Dims, uv: seq<byte>, x: nat, y: nat, c: Color) {
    var off := UvOff(d, x, y);
    off + 2 <= |uv| && uv[off] == c.u && uv[off + 1] == c.v
  }

  ghost predicate Painted(d: Dims, p: Planes, q: Planes, s: Shape, c: Color) {
    Fits(d, |p.y|, |p.uv|) && LumaPainted(d, p.y, q.y, s, c.y) && ChromaPainted(d, p.uv, q.uv, s, c)
  }

  /** With an even stride the shape and the colour determine every byte. */
  lemma PaintedIsUnique(d: Dims, p: Planes, q: Planes, q': Planes, s: Shape, c: Color)
    requires Painted(d, p, q, s, c) && Painted(d, p, q', s, c) && d.stride % 2 == 0
    ensures q == q'
  {
    hide ChromaTouched, LumaTouched, LumaAt, PairAt, Fits;
    forall k: nat | k < |p.y| ensures q.y[k] == q'.y[k] {
      if LumaTouched(d, s, k) {
        TouchedLuma(d, p.y, q.y, s, c.y, k);
        TouchedLuma(d, p.y, q'.y, s, c.y, k);
      }
    }
    forall k: nat | k < |p.uv| ensures q.uv[k] == q'.uv[k] {
      if ChromaTouched(d, s, k) {
        TouchedChroma(d, p.uv, q.uv, s, c, k);
        TouchedChroma(d, p.uv, q'.uv, s, c, k);
      }
    }
  }

  lemma NothingPainted(d: Dims, p: Planes, s: Shape, c: Color)
    requires Fits(d, |p.y|, |p.uv|) && forall x: nat, y: nat :: !Inside(d, s, x, y)
    ensures Painted(d, p, p, s, c)
  {
  }

  /** Painting one shape after another paints their union; off-screen pixels do not count. */
  lemma PaintedJoin(d: Dims, p: Planes, q: Planes, r: Planes, s: Shape, t: Shape, u: Shape, c: Color)
    requires Painted(d, p, q, s, c) && Painted(d, q, r, t, c)
    requires forall x: nat, y: nat | OnScreen(d, x, y) :: u(x, y) <==> s(x, y) || t(x, y)
    ensures Painted(d, p, r, u, c)
  {
    hide LumaPainted, ChromaPainted, Fits;
    LumaJoin(d, p.y, q.y, r.y, s, t, u, c.y);
    ChromaJoin(d, p.uv, q.uv, r.uv, s, t, u, c);
  }

  lemma LumaJoin(d: Dims, ys: seq<byte>, ys': seq<byte>, ys'': seq<byte>, s: Shape, t: Shape, u: Shape, v: byte)
    requires LumaPainted(d, ys, ys', s, v) && LumaPainted(d, ys', ys'', t, v)
    requires forall x: nat, y: nat | OnScreen(d, x, y) :: u(x, y) <==> s(x, y) || t(x, y)
    ensures LumaPainted(d, ys, ys'', u, v)
  {
    hide YOff;
    forall x: nat, y: nat | Inside(d, u, x, y) ensures LumaAt(d, ys'', x, y, v) {
      if !Inside(d, t, x, y) {
        assert LumaAt(d, ys', x, y, v);
        if LumaTouched(d, t, YOff(d, x, y)) { TouchedLuma(d, ys', ys'', t, v, YOff(d, x, y)); }
      }
    }
    forall k: nat | k < |ys| && ys''[k] != ys[k] ensures LumaTouched(d, u, k) {
      var x: nat, y: nat :| (Inside(d, s, x, y) || Inside(d, t, x, y)) && YOff(d, x, y) == k;
      assert Inside(d, u, x, y);
    }
  }

  lemma ChromaJoin(d: Dims, uv: seq<byte>, uv': seq<byte>, uv'': seq<byte>, s: Shape, t: Shape, u: Shape, c: Color)
    requires ChromaPainted(d, uv, uv', s, c) && ChromaPainted(d, uv', uv'', t, c)
    requires forall x: nat, y: nat | OnScreen(d, x, y) :: u(x, y) <==> s(x, y) || t(x, y)
    ensures ChromaPainted(d, uv, uv'', u, c)
  {
    hide UvOff;
    if d.stride % 2 == 0 {
      forall x: nat, y: nat | Inside(d, u, x, y) ensures PairAt(d, uv'', x, y, c) {
        if !Inside(d, t, x, y) {
          assert PairAt(d, uv', x, y, c);
          PairKept(d, uv', uv'', t, c, x, y);
        }
      }
    }
    forall k: nat | k < |uv| && uv''[k] != uv[k] ensures ChromaTouched(d, u, k) {
      if ChromaTouched(d, s, k) {
        TouchedToo(d, s, u, k);
      } else {
        TouchedToo(d, t, u, k);
      }
    }
  }

  lemma TouchedToo(d: Dims, s: Shape, u: Shape, k: nat)
    requires ChromaTouched(d, s, k) && forall x: nat, y: nat | OnScreen(d, x, y) :: s(x, y) ==> u(x, y)
    ensures ChromaTouched(d, u, k)
  {
    var x: nat, y: nat :| Inside(d, s, x, y) && (UvOff(d, x, y) == k || UvOff(d, x, y) + 1 == k);
    assert Inside(d, u, x, y);
  }

  lemma PaintedSame(d: Dims, p: Planes, q: Planes, s: Shape, t: Shape, c: Color)
    requires Painted(d, p, q, s, c) && forall x: nat, y: nat | OnScreen(d, x, y) :: s(x, y) <==> t(x, y)
    ensures Painted(d, p, q, t, c)
  {
    forall x: nat, y: nat ensures Inside(d, s, x, y) <==> Inside(d, t, x, y) {
    }
  }

  lemma TouchedLuma(d: Dims, ys: seq<byte>, ys': seq<byte>, t: Shape, v: byte, k: nat)
    requires LumaPainted(d, ys, ys', t, v) && k < |ys'| && LumaTouched(d, t, k)
    ensures ys'[k] == v
  {
    var a: nat, b: nat :| Inside(d, t, a, b) && YOff(d, a, b) == k;
    assert LumaAt(d, ys', a, b, v);
  }

  /** With an even stride a touched chroma byte has its colour by parity. */
  lemma TouchedChroma(d: Dims, uv: seq<byte>, uv': seq<byte>, t: Shape, c: Color, k: nat)
    requires ChromaPainted(d, uv, uv', t, c) && d.stride % 2 == 0 && k < |uv'| && ChromaTouched(d, t, k)
    ensures uv'[k] == Chroma(k, c)
  {
    var a: nat, b: nat :| Inside(d, t, a, b) && (UvOff(d, a, b) == k || UvOff(d, a, b) + 1 == k);
    assert PairAt(d, uv', a, b, c);
    hide UvOff, Chroma;
    EvenOffset(d, a, b, c);
  }

  /** Painting on top in the same colour leaves a pair as it is. */
  lemma PairKept(d: Dims, uv: seq<byte>, uv': seq<byte>, t: Shape, c: Color, x: nat, y: nat)
    requires ChromaPainted(d, uv, uv', t, c) && d.stride % 2 == 0 && PairAt(d, uv, x, y, c)
    ensures PairAt(d, uv', x, y, c)
  {
    hide UvOff, ChromaTouched, Chroma;
    var j := UvOff(d, x, y);
    EvenOffset(d, x, y, c);
    if ChromaTouched(d, t, j) { TouchedChroma(d, uv, uv', t, c, j); }
    if ChromaTouched(d, t, j + 1) { TouchedChroma(d, uv, uv', t, c, j + 1); }
  }

  lemma EvenOffset(d: Dims, x: nat, y: nat, c: Color)
    requires d.stride % 2 == 0
    ensures Chroma(UvOff(d, x, y), c) == c.u && Chroma(UvOff(d, x, y) + 1, c) == c.v
  {
    IdxIsFlat(d.stride, Even(x), y / 2);
    var h := d.stride / 2;
    assert d.stride * (y / 2) == 2 * (h * (y / 2));
  }

  lemma PlotPaints(d: Dims, p: Planes, px: int, py: int, c: Color)
    requires Fits(d, |p.y|, |p.uv|)
    ensures Painted(d, p, Plot(d, p, px, py, c), (x, y) => x == px && y == py, c)
  {
    if OnScreen(d, px, py) {
      PixelFits(d, |p.y|, |p.uv|, px, py);
      assert Inside(d, (x, y) => x == px && y == py, px, py);
    }
  }

  /** The pixels x1..x2 of a row. */
  ghost function Span(x1: int, x2: int, row: int): Shape { (x, y) => x1 <= x <= x2 && y == row }

  lemma {:induction false} RowPaints(d: Dims, p: Planes, x1: int, x2: int, py: int, c: Color)
    requires Fits(d, |p.y|, |p.uv|)
    ensures Painted(d, p, PlotRow(d, p, x1, x2, py, c), Span(x1, x2, py), c)
    decreases x2 - x1
  {
    if x2 < x1 {
      NothingPainted(d, p, Span(x1, x2, py), c);
    } else {
      RowPaints(d, p, x1, x2 - 1, py, c);
      var q := PlotRow(d, p, x1, x2 - 1, py, c);
      PlotPaints(d, q, x2, py, c);
      PaintedJoin(d, p, q, Plot(d, q, x2, py, c), Span(x1, x2 - 1, py),
                  (x, y) => x == x2 && y == py, Span(x1, x2, py), c);
    }
  }

  lemma {:induction false} PointsPaint(d: Dims, p: Planes, pts: seq<(int, int)>, c: Color)
    requires Fits(d, |p.y|, |p.uv|)
    ensures Painted(d, p, PlotAll(d, p, pts, c), (x, y) => (x, y) in pts, c)
  {
    if pts == [] {
      NothingPainted(d, p, (x, y) => (x, y) in pts, c);
    } else {
      var init, last := pts[..|pts| - 1], pts[|pts| - 1];
      PointsPaint(d, p, init, c);
      var q := PlotAll(d, p, init, c);
      PlotPaints(d, q, last.0, last.1, c);
      assert pts == init + [last];
      PaintedJoin(d, p, q, Plot(d, q, last.0, last.1, c), (x, y) => (x, y) in init,
                  (x, y) => x == last.0 && y == last.1, (x, y) => (x, y) in pts, c);
    }
  }
}
