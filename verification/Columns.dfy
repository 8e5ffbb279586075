/**
 The vertical line of hal/drawing.cpp. It writes the chroma of odd rows only, so it may skip the last
 chroma row; this module says exactly when that makes it differ from setting its pixels one by one.
 */
module Columns {
  import opened FlatMatrix
  import opened Canvas
  import opened Drawing

  /** Setting the pixels y1..y2 of column x, from top to bottom. */
  ghost function PlotCol(d: Dims, p: Planes, x: int, y1: int, y2: int, c: Color): (q: Planes)
    requires Fits(d, |p.y|, |p.uv|)
    ensures |q.y| == |p.y| && |q.uv| == |p.uv|
    decreases y2 - y1
  {
    if y2 < y1 then p else Plot(d, PlotCol(d, p, x, y1, y2 - 1, c), x, y2, c)
  }

  /** The luma of rows y1..y2 of a column. */
  ghost function ColumnLuma(d: Dims, ys: seq<byte>, x: nat, y1: nat, y2: int, v: byte): (r: seq<byte>)
    requires y2 < y1 || Idx(d.stride, x, y2) < |ys|
    ensures |r| == |ys|
    decreases y2 - y1
  {
    if y2 < y1 then ys
    else
      IdxShift(d.stride, x, y2);
      IdxMonotone(d.stride, x, if y2 == 0 then 0 else y2 - 1, x, y2);
      ColumnLuma(d, ys, x, y1, y2 - 1, v)[Idx(d.stride, x, y2) := v]
  }

  /** The chroma pairs of chroma rows r1..r2 of a column. */
  ghost function ColumnChroma(d: Dims, uv: seq<byte>, x: nat, r1: nat, r2: int, c: Color): (r: seq<byte>)
    requires r2 < r1 || Idx(d.stride, Even(x), r2) + 2 <= |uv|
    ensures |r| == |uv|
    decreases r2 - r1
  {
    if r2 < r1 then uv
    else
      IdxMonotone(d.stride, Even(x), if r2 == 0 then 0 else r2 - 1, Even(x), r2);
      WithPair(ColumnChroma(d, uv, x, r1, r2 - 1, c), Idx(d.stride, Even(x), r2), c)
  }

  ghost function WithPair(uv: seq<byte>, off: nat, c: Color): (r: seq<byte>)
    requires off + 2 <= |uv|
    ensures |r| == |uv| && (r == uv <==> uv[off] == c.u && uv[off + 1] == c.v)
    ensures r[off] == c.u && r[off + 1] == c.v
  {
    var r := uv[off := c.u][off + 1 := c.v];
    assert r[off] == c.u && r[off + 1] == c.v;
    assert uv[off] == c.u && uv[off + 1] == c.v ==> r == uv;
    r
  }

  /** The last chroma row the fast line writes, for rows y1..y2 on the screen. */
  function LastChroma(y1: int, y2: int): int {
    if y1 < y2 && y2 % 2 == 0 then y2 / 2 - 1 else y2 / 2
  }

  /** What the fast line leaves, for rows y1..y2 on the screen. */
  ghost function FastCol(d: Dims, p: Planes, x: nat, y1: nat, y2: nat, c: Color): (q: Planes)
    requires Fits(d, |p.y|, |p.uv|) && x < d.width && y1 <= y2 < d.height
    ensures |q.y| == |p.y| && |q.uv| == |p.uv|
  {
    PixelFits(d, |p.y|, |p.uv|, x, y2);
    IdxMonotone(d.stride, Even(x), if y2 / 2 == 0 then 0 else y2 / 2 - 1, Even(x), y2 / 2);
    Planes(ColumnLuma(d, p.y, x, y1, y2, c.y), ColumnChroma(d, p.uv, x, y1 / 2, LastChroma(y1, y2), c))
  }

  /** Pixel by pixel, the column also writes the chroma row of its last pixel. */
  lemma {:induction false} ColFilled(d: Dims, p: Planes, x: nat, y1: nat, y2: nat, c: Color)
    requires Fits(d, |p.y|, |p.uv|) && x < d.width && y1 <= y2 < d.height
    ensures Idx(d.stride, x, y2) < |p.y| && Idx(d.stride, Even(x), y2 / 2) + 2 <= |p.uv|
    ensures PlotCol(d, p, x, y1, y2, c)
         == Planes(ColumnLuma(d, p.y, x, y1, y2, c.y), ColumnChroma(d, p.uv, x, y1 / 2, y2 / 2, c))
    decreases y2 - y1
  {
    hide *;
    ColOfOneMore(d, p, x, y1, y2, c);
    LumaUnfolds(d, p.y, x, y1, y2, c.y);
    if y1 < y2 {
      ColFilled(d, p, x, y1, y2 - 1, c);
      if y2 % 2 == 1 {
        ChromaTwice(d, p.uv, x, y1 / 2, y2 / 2, c);
        assert (y2 - 1) / 2 == y2 / 2;
      } else {
        ChromaUnfolds(d, p.uv, x, y1 / 2, y2 / 2, c);
        assert (y2 - 1) / 2 == y2 / 2 - 1;
      }
    } else {
      ChromaOne(d, p.uv, x, y2 / 2, c);
    }
  }

  lemma LumaUnfolds(d: Dims, ys: seq<byte>, x: nat, y1: nat, y2: nat, v: byte)
    requires y1 <= y2 && Idx(d.stride, x, y2) < |ys|
    ensures y1 < y2 ==> Idx(d.stride, x, y2 - 1) < |ys|
    ensures ColumnLuma(d, ys, x, y1, y2, v)
         == (if y1 < y2 then ColumnLuma(d, ys, x, y1, y2 - 1, v) else ys)[Idx(d.stride, x, y2) := v]
  {
    if y1 < y2 { IdxMonotone(d.stride, x, y2 - 1, x, y2); }
    hide Idx;
  }

  /** Setting the last pair again changes nothing. */
  lemma ChromaTwice(d: Dims, uv: seq<byte>, x: nat, r1: nat, r2: nat, c: Color)
    requires r1 <= r2 && Idx(d.stride, Even(x), r2) + 2 <= |uv|
    ensures var off, q := Idx(d.stride, Even(x), r2), ColumnChroma(d, uv, x, r1, r2, c);
            WithPair(q, off, c) == q
  {
    hide Idx;
  }

  lemma ChromaOne(d: Dims, uv: seq<byte>, x: nat, r: nat, c: Color)
    requires Idx(d.stride, Even(x), r) + 2 <= |uv|
    ensures ColumnChroma(d, uv, x, r, r, c) == WithPair(uv, Idx(d.stride, Even(x), r), c)
  {
    assert ColumnChroma(d, uv, x, r, r - 1, c) == uv;
    hide Idx, WithPair;
  }

  lemma ColOfOneMore(d: Dims, p: Planes, x: nat, y1: nat, y2: nat, c: Color)
    requires Fits(d, |p.y|, |p.uv|) && x < d.width && y1 <= y2 < d.height
    ensures y1 == y2 ==> PlotCol(d, p, x, y1, y2 - 1, c) == p
    ensures Idx(d.stride, x, y2) < |p.y| && Idx(d.stride, Even(x), y2 / 2) + 2 <= |p.uv|
    ensures var q := PlotCol(d, p, x, y1, y2 - 1, c);
            PlotCol(d, p, x, y1, y2, c)
            == Planes(q.y[Idx(d.stride, x, y2) := c.y], WithPair(q.uv, Idx(d.stride, Even(x), y2 / 2), c))
  {
    PixelFits(d, |p.y|, |p.uv|, x, y2);
    hide Fits, Idx;
  }

  /** Pairs of lower rows are not touched, as a chroma row holds at least one pair. */
  lemma {:induction false} ChromaBelow(d: Dims, uv: seq<byte>, x: nat, r1: nat, r2: int, r: nat, c: Color)
    requires 2 <= d.stride && r2 < r && Idx(d.stride, Even(x), r) + 2 <= |uv|
    requires r2 < r1 || Idx(d.stride, Even(x), r2) + 2 <= |uv|
    ensures var off, q := Idx(d.stride, Even(x), r), ColumnChroma(d, uv, x, r1, r2, c);
            q[off] == uv[off] && q[off + 1] == uv[off + 1]
    decreases r2 - r1
  {
    if r1 <= r2 {
      IdxMonotone(d.stride, Even(x), if r2 == 0 then 0 else r2 - 1, Even(x), r2);
      ChromaBelow(d, uv, x, r1, r2 - 1, r, c);
      IdxShift(d.stride, Even(x), r2);
      IdxMonotone(d.stride, Even(x), r2 + 1, Even(x), r);
    }
  }

  /** The fast line sets exactly its pixels when it is one pixel, ends on an odd row, or ends on a pair of its colour. */
  lemma FastColExact(d: Dims, p: Planes, x: nat, y1: nat, y2: nat, c: Color)
    requires Fits(d, |p.y|, |p.uv|) && 2 <= d.stride && x < d.width && y1 <= y2 < d.height
    ensures UvOff(d, x, y2) + 2 <= |p.uv|
    ensures FastCol(d, p, x, y1, y2, c) == PlotCol(d, p, x, y1, y2, c)
       <==> (y1 == y2 || y2 % 2 == 1
             || (p.uv[UvOff(d, x, y2)] == c.u && p.uv[UvOff(d, x, y2) + 1] == c.v))
    ensures FastCol(d, p, x, y1, y2, c).y == PlotCol(d, p, x, y1, y2, c).y
  {
    hide *;
    ColFilled(d, p, x, y1, y2, c);
    FastColIs(d, p, x, y1, y2, c);
    if y1 < y2 && y2 % 2 == 0 {
      ChromaUnfolds(d, p.uv, x, y1 / 2, y2 / 2, c);
      ChromaBelow(d, p.uv, x, y1 / 2, y2 / 2 - 1, y2 / 2, c);
    }
  }

  lemma FastColIs(d: Dims, p: Planes, x: nat, y1: nat, y2: nat, c: Color)
    requires Fits(d, |p.y|, |p.uv|) && x < d.width && y1 <= y2 < d.height
    ensures Idx(d.stride, x, y2) < |p.y| && UvOff(d, x, y2) == Idx(d.stride, Even(x), y2 / 2) && UvOff(d, x, y2) + 2 <= |p.uv|
    ensures y1 < y2 && y2 % 2 == 0 ==> y1 / 2 <= y2 / 2 - 1 && Idx(d.stride, Even(x), y2 / 2 - 1) + 2 <= |p.uv|
    ensures FastCol(d, p, x, y1, y2, c).y == ColumnLuma(d, p.y, x, y1, y2, c.y)
    ensures FastCol(d, p, x, y1, y2, c).uv
         == if y1 < y2 && y2 % 2 == 0 then ColumnChroma(d, p.uv, x, y1 / 2, y2 / 2 - 1, c)
            else ColumnChroma(d, p.uv, x, y1 / 2, y2 / 2, c)
  {
    PixelFits(d, |p.y|, |p.uv|, x, y2);
    if y2 > 0 { IdxMonotone(d.stride, Even(x), (y2 - 1) / 2, Even(x), y2 / 2); }
    hide Fits, Idx, ColumnLuma, ColumnChroma;
  }

  lemma ChromaUnfolds(d: Dims, uv: seq<byte>, x: nat, r1: nat, r2: nat, c: Color)
    requires r1 < r2 && Idx(d.stride, Even(x), r2) + 2 <= |uv|
    ensures Idx(d.stride, Even(x), r2 - 1) + 2 <= |uv|
    ensures ColumnChroma(d, uv, x, r1, r2, c)
         == WithPair(ColumnChroma(d, uv, x, r1, r2 - 1, c), Idx(d.stride, Even(x), r2), c)
  {
    IdxMonotone(d.stride, Even(x), r2 - 1, Even(x), r2);
    hide Idx, WithPair;
  }

  /** A white line down rows 0..2 leaves the chroma of row 2 as it was. */
  lemma FastColSkips()
    ensures var d, c := Dims(2, 1, 3), Color(255, 128, 128);
            var p := Planes([0, 0, 0, 0, 0, 0], [0, 0, 0, 0]);
            Fits(d, 6, 4) && FastCol(d, p, 0, 0, 2, c) != PlotCol(d, p, 0, 0, 2, c)
  {
    var d, c := Dims(2, 1, 3), Color(255, 128, 128);
    var p := Planes([0, 0, 0, 0, 0, 0], [0, 0, 0, 0]);
    FitsThree();
    FastColExact(d, p, 0, 0, 2, c);
  }

  lemma FitsThree()
    ensures Fits(Dims(2, 1, 3), 6, 4)
  {
    assert Size(2, 3) == 6;
    assert UvOff(Dims(2, 1, 3), 0, 2) == 2;
  }

  /** Off-screen parts of a column do not matter. */
  lemma {:induction false} ColClipped(d: Dims, p: Planes, x: int, y1: int, y2: int, c: Color)
    requires Fits(d, |p.y|, |p.uv|)
    ensures var lo, hi := if y1 < 0 then 0 else y1, if y2 >= d.height then d.height - 1 else y2;
            PlotCol(d, p, x, y1, y2, c) == if 0 <= x < d.width && lo <= hi then PlotCol(d, p, x, lo, hi, c) else p
    decreases y2 - y1
  {
    if y1 <= y2 { ColClipped(d, p, x, y1, y2 - 1, c); }
  }

  /** What the vertical line leaves: nothing off the screen, else the fast column between the clipped ends. */
  ghost function VertEffect(d: Dims, p: Planes, x: int, y1: int, y2: int, c: Color): (q: Planes)
    requires Fits(d, |p.y|, |p.uv|)
    ensures |q.y| == |p.y| && |q.uv| == |p.uv|
  {
    var lo, hi := Max(0, Min(y1, y2)), Min(d.height - 1, Max(y1, y2));
    if 0 <= x < d.width && lo <= hi then FastCol(d, p, x, lo, hi, c) else p
  }

  /** The last row whose chroma the fast line sets. */
  function LastRow(y1: int, y2: int): int { if y1 < y2 && y2 % 2 == 0 then y2 - 1 else y2 }

  /** Plane by plane the fast line is a pixel-by-pixel one; its chroma may end a row earlier. */
  lemma FastColPlanes(d: Dims, p: Planes, x: nat, y1: nat, y2: nat, c: Color)
    requires Fits(d, |p.y|, |p.uv|) && x < d.width && y1 <= y2 < d.height
    ensures FastCol(d, p, x, y1, y2, c).y == PlotCol(d, p, x, y1, y2, c).y
    ensures FastCol(d, p, x, y1, y2, c).uv == PlotCol(d, p, x, y1, LastRow(y1, y2), c).uv
  {
    ColFilled(d, p, x, y1, y2, c);
    ColFilled(d, p, x, y1, LastRow(y1, y2), c);
    assert LastRow(y1, y2) / 2 == LastChroma(y1, y2);
    hide PlotCol, ColumnLuma, ColumnChroma, Fits;
  }

  /** The vertical line sets exactly its pixels, for any ends: off the screen, one pixel, an odd last row, or a last pair of its colour. */
  lemma VertLineExact(d: Dims, p: Planes, x: int, y1: int, y2: int, c: Color)
    requires Fits(d, |p.y|, |p.uv|) && 2 <= d.stride
    ensures var lo, hi := Max(0, Min(y1, y2)), Min(d.height - 1, Max(y1, y2));
            VertEffect(d, p, x, y1, y2, c) == PlotCol(d, p, x, Min(y1, y2), Max(y1, y2), c)
            <==> (!(0 <= x < d.width) || lo >= hi || hi % 2 == 1 || PairIs(d, p.uv, x, hi, c))
    ensures VertEffect(d, p, x, y1, y2, c).y == PlotCol(d, p, x, Min(y1, y2), Max(y1, y2), c).y
  {
    var lo, hi := Max(0, Min(y1, y2)), Min(d.height - 1, Max(y1, y2));
    ColClipped(d, p, x, Min(y1, y2), Max(y1, y2), c);
    hide PlotCol, FastCol, Fits;
    if 0 <= x < d.width && lo <= hi { FastColExact(d, p, x, lo, hi, c); }
  }

  ghost predicate PairIs(d: Dims, uv: seq<byte>, x: nat, y: nat, c: Color) {
    var off := UvOff(d, x, y);
    off + 2 <= |uv| && uv[off] == c.u && uv[off + 1] == c.v
  }

  method DrawVertLine(fb: FrameBuf, x: int, y1in: int, y2in: int, c: Color)
    requires fb.Usable()
    modifies fb.y, fb.uv
    ensures fb.Now() == VertEffect(fb.d, old(fb.Now()), x, y1in, y2in, c)
  {
    if x < 0 || x >= fb.d.width {
      return;
    }
    var y1, y2 := y1in, y2in;
    if y1 > y2 {
      y1, y2 := y2, y1;
    }
    y1 := Max(0, y1);
    y2 := Min(fb.d.height - 1, y2);
    if y1 > y2 {
      return;
    }
    DrawClippedColumn(fb, x, y1, y2, c);
  }

  method DrawClippedColumn(fb: FrameBuf, x: nat, y1: nat, y2: nat, c: Color)
    requires fb.Usable() && x < fb.d.width && y1 <= y2 < fb.d.height
    modifies fb.y, fb.uv
    ensures fb.Now() == FastCol(fb.d, old(fb.Now()), x, y1, y2, c)
  {
    FillLuma(fb, x, y1, y2, c.y);
    FillOddRows(fb, x, y1, y2, c);
  }

  method FillLuma(fb: FrameBuf, x: nat, y1: nat, y2: nat, v: byte)
    requires fb.Usable() && x < fb.d.width && y1 <= y2 < fb.d.height
    modifies fb.y
    ensures Idx(fb.d.stride, x, y2) < fb.y.Length
    ensures fb.y[..] == ColumnLuma(fb.d, old(fb.y[..]), x, y1, y2, v)
  {
    ghost var was := fb.y[..];
    hide Fits, UvOff, Idx;
    var y := y1;
    while y <= y2
      invariant y1 <= y <= y2 + 1
      invariant y - 1 < y1 || Idx(fb.d.stride, x, y - 1) < |was|
      invariant fb.y[..] == ColumnLuma(fb.d, was, x, y1, y - 1, v)
    {
      PixelFits(fb.d, fb.y.Length, fb.uv.Length, x, y);
      fb.y[YOff(fb.d, x, y)] := v;
      y := y + 1;
    }
  }

  /** The chroma rows of rows y, y + 2, ... are consecutive, and end with the last one written. */
  lemma OddRow(y1: nat, y2: nat, y: nat)
    requires y1 <= y2
    ensures (y + 2) / 2 - 1 == y / 2 && (y + 2) % 2 == y % 2
    ensures y2 < y <= y2 + 2 && (if y1 == y2 then y == y1 + 2 else y % 2 == 1) ==> y / 2 - 1 == LastChroma(y1, y2)
    ensures (if y1 % 2 == 0 then y1 + 1 else y1) / 2 == y1 / 2
  {
  }

  method FillOddRows(fb: FrameBuf, x: nat, y1: nat, y2: nat, c: Color)
    requires fb.Usable() && x < fb.d.width && y1 <= y2 < fb.d.height
    modifies fb.uv
    ensures LastChroma(y1, y2) < y1 / 2 || Idx(fb.d.stride, Even(x), LastChroma(y1, y2)) + 2 <= fb.uv.Length
    ensures fb.uv[..] == ColumnChroma(fb.d, old(fb.uv[..]), x, y1 / 2, LastChroma(y1, y2), c)
  {
    ghost var was, d := fb.uv[..], fb.d;
    OddRow(y1, y2, y1);
    // The next odd row, or the row itself when there is none.
    var uvY1 := if y1 % 2 == 0 then y1 + 1 else y1;
    if uvY1 > y2 {
      uvY1 := y1;
    }
    NoChroma(d, was, x, y1 / 2, y1 / 2 - 1, c);
    hide *;
    var y := uvY1;
    while y <= y2
      invariant uvY1 <= y <= y2 + 2 && y % 2 == uvY1 % 2
      invariant y / 2 - 1 < y1 / 2 || Idx(d.stride, Even(x), y / 2 - 1) + 2 <= |was|
      invariant fb.uv[..] == ColumnChroma(d, was, x, y1 / 2, y / 2 - 1, c)
    {
      OddRow(y1, y2, y);
      ChromaNext(d, fb.y.Length, was, x, y1, y, c);
      SetPair(fb, Idx(fb.d.stride, Even(x), y / 2), c);
      y := y + 2;
    }
    OddRow(y1, y2, y);
  }

  lemma NoChroma(d: Dims, uv: seq<byte>, x: nat, r1: nat, r2: int, c: Color)
    requires r2 < r1
    ensures ColumnChroma(d, uv, x, r1, r2, c) == uv
  {
  }

  method SetPair(fb: FrameBuf, off: nat, c: Color)
    requires off + 2 <= fb.uv.Length
    modifies fb.uv
    ensures fb.uv[..] == WithPair(old(fb.uv[..]), off, c)
  {
    fb.uv[off] := c.u;
    fb.uv[off + 1] := c.v;
  }

  lemma ChromaNext(d: Dims, ySize: nat, uv: seq<byte>, x: nat, y1: nat, y: nat, c: Color)
    requires Fits(d, ySize, |uv|) && x < d.width && y1 <= y < d.height
    requires y / 2 - 1 < y1 / 2 || Idx(d.stride, Even(x), y / 2 - 1) + 2 <= |uv|
    ensures Idx(d.stride, Even(x), y / 2) + 2 <= |uv|
    ensures ColumnChroma(d, uv, x, y1 / 2, y / 2, c)
         == WithPair(ColumnChroma(d, uv, x, y1 / 2, y / 2 - 1, c), Idx(d.stride, Even(x), y / 2), c)
  {
    PixelFits(d, ySize, |uv|, x, y);
    hide Fits, Idx, WithPair;
  }
}
