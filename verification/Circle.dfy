/**
 The filled circle of hal/drawing.cpp: the midpoint loop paints exactly a disc given by a formula.
 */
module Circle {
  import opened Canvas
  import opened Drawing
  import opened Lines
  import opened Painting

  function Sq(v: int): int { v * v }

  /** x is the half-width of row y: the largest x with x(x-1) <= r*r - y*y. */
  ghost predicate HalfWidth(r: int, x: int, y: int) {
    Sq(x) - x + Sq(y) <= Sq(r) < Sq(x) + x + Sq(y)
  }

  /** x is nearest to the root of r*r - y*y: (2x-1)^2 <= 4(r*r - y*y) < (2x+1)^2. */
  ghost predicate NearestRoot(r: int, x: int, y: int) {
    Sq(2 * x - 1) <= 4 * (Sq(r) - Sq(y)) < Sq(2 * x + 1)
  }

  /** The offsets from the centre that the circle paints. */
  ghost predicate InDisc(r: int, a: int, b: int) {
    var big, small := Max(Abs(a), Abs(b)), Min(Abs(a), Abs(b));
    Sq(big) - big + Sq(small) <= Sq(r)
  }

  lemma SqMonotone(a: int, b: int)
    requires 0 <= a <= b
    ensures Sq(a) <= Sq(b) && Sq(a) - a <= Sq(b) - b
  {
    assert Sq(b) - Sq(a) == (b - a) * (b + a);
    if a < b {
      assert (b - a) * (b + a) >= 1 * (b + a) by { MulAtLeast(b - a, b + a); }
      MulAtLeast(b + a, b - a);
      assert (b - a) * (b + a) == (b + a) * (b - a);
    }
  }

  lemma MulAtLeast(m: int, k: int)
    requires 1 <= m && 0 <= k
    ensures m * k >= k
  {
  }

  lemma SqNext(v: int)
    ensures Sq(v + 1) == Sq(v) + 2 * v + 1
    ensures Sq(v - 1) == Sq(v) - 2 * v + 1
  {
  }

  /** A half-width is the integer nearest to the root, except when the root lies within 1/4 above x(x-1). */
  lemma NearestExact(r: int, x: int, y: int)
    requires HalfWidth(r, x, y)
    ensures NearestRoot(r, x, y) <==> Sq(x) - x + Sq(y) != Sq(r)
  {
    assert Sq(2 * x - 1) == 4 * Sq(x) - 4 * x + 1;
    assert Sq(2 * x + 1) == 4 * Sq(x) + 4 * x + 1;
  }

  /** No row has x(x-1) = r*r - y*y; only x and y up to r matter. */
  predicate NoTies(r: int) {
    forall x, y | 0 <= y <= x <= r :: 1 <= x ==> Sq(x) - x + Sq(y) != Sq(r)
  }

  /** Every x of a circle is nearest to its root exactly for the radii without ties. */
  lemma NearestForRadius(r: int)
    requires 0 < r
    ensures (forall x, y | 0 <= y <= x && HalfWidth(r, x, y) :: NearestRoot(r, x, y)) <==> NoTies(r)
  {
    hide NearestRoot;
    if NoTies(r) {
      forall x, y | 0 <= y <= x && HalfWidth(r, x, y) ensures NearestRoot(r, x, y) {
        WithinRadius(r, x, y);
        NearestExact(r, x, y);
      }
    } else {
      var x, y :| 0 <= y <= x <= r && 1 <= x && Sq(x) - x + Sq(y) == Sq(r);
      NearestExact(r, x, y);
    }
  }

  lemma WithinRadius(r: int, x: int, y: int)
    requires 0 < r && 0 <= y <= x && HalfWidth(r, x, y)
    ensures 1 <= x <= r
  {
    SqMonotone(0, y);
    if x > r {
      SqMonotone(r + 1, x);
      SqNext(r);
    }
    if x == 0 { SqMonotone(1, r); }
  }

  /** The circle of radius one has a corner pixel at distance above one. */
  lemma NearestFails()
    ensures HalfWidth(1, 1, 1) && !NearestRoot(1, 1, 1) && InDisc(1, 1, 1)
  {
    assert Sq(1) == 1 && Sq(3) == 9;
  }

  /** A row has one half-width, and the disc's row is the columns up to it. */
  lemma HalfWidthCuts(r: int, x: int, y: int, a: int)
    requires 0 <= x && 0 <= a && HalfWidth(r, x, y)
    ensures a <= x <==> Sq(a) - a + Sq(y) <= Sq(r)
  {
    if a <= x {
      SqMonotone(a, x);
    } else {
      SqMonotone(x + 1, a);
      SqNext(x);
    }
  }

  /** Rows below y, each over its half-width. */
  ghost predicate InRows(r: int, y: int, a: nat, b: nat) { b < y && Sq(a) - a + Sq(b) <= Sq(r) }

  /** The mirrored rows: at a half-width of a row below y, down to the last one drawn. */
  ghost predicate InCaps(r: int, y: int, last: int, a: nat, b: nat) {
    a < y && last <= b && Sq(b) - b + Sq(a) <= Sq(r)
  }

  ghost predicate InRound(r: int, y: int, last: int, a: nat, b: nat) { InRows(r, y, a, b) || InCaps(r, y, last, a, b) }

  /** The state of the loop before row y, whose half-width is x if the row is drawn; `last` is that of row y - 1. */
  ghost predicate Tracing(r: int, x: int, y: int, last: int, err: int) {
    && 0 < r && 0 <= y && y - 1 <= last && y - 1 <= x + 1 && 0 <= x <= last <= x + 1
    && err == Sq(x) - x + Sq(y + 1) - Sq(r)
    && Sq(r) < Sq(x) + x + Sq(y)
    && (y <= x ==> Sq(x) - x + Sq(y) <= Sq(r))
    && (if y == 0 then x == r && last == r + 1 else Sq(last) - last + Sq(y - 1) <= Sq(r))
  }

  lemma TracingStarts(r: int)
    requires 0 < r
    ensures Tracing(r, r, 0, r + 1, 1 - r)
  {
    assert Sq(1) == 1 && Sq(0) == 0;
  }

  /** One turn of the loop keeps the error term and the bounds. */
  lemma TracingSteps(r: int, x: int, y: int, last: int, err: int)
    requires Tracing(r, x, y, last, err) && y <= x
    ensures HalfWidth(r, x, y)
    ensures err <= 0 ==> Tracing(r, x, y + 1, x, err + 2 * (y + 1) + 1)
    ensures err > 0 ==> Tracing(r, x - 1, y + 1, x, err + 2 * (y + 1 - (x - 1)) + 1)
  {
    SqNext(y);
    SqNext(y + 1);
    SqNext(x);
  }

  /** What the four rows of one turn add. */
  lemma RoundGrows(r: int, x: int, y: int, last: int, err: int, a: nat, b: nat)
    requires Tracing(r, x, y, last, err) && y <= x
    ensures InRound(r, y + 1, x, a, b) <==> InRound(r, y, last, a, b) || (b == y && a <= x) || (b == x && a <= y)
  {
    TracingSteps(r, x, y, last, err);
    HalfWidthCuts(r, x, y, a);
    HalfWidthCuts(r, x, y, b);
    if b == x && a <= y { SqMonotone(a, y); }
  }

  /** When the loop stops, the rows and caps together are the disc. */
  lemma RoundIsDisc(r: int, x: int, y: int, last: int, err: int, a: nat, b: nat)
    requires Tracing(r, x, y, last, err) && x < y
    ensures InRound(r, y, last, a, b) <==> InDisc(r, a, b)
  {
    var big, small := Max(a, b), Min(a, b);
    if InDisc(r, a, b) && small >= y {
      BeyondDiagonal(r, x, y, a, b);
    }
    if small < y {
      SqMonotone(small, y - 1);
      if big <= last { SqMonotone(big, last); }
      if a <= last { SqMonotone(a, last); }
      if b <= last { SqMonotone(b, last); }
    }
  }

  /** No point of the disc has both coordinates at or beyond the row where the loop stops. */
  lemma BeyondDiagonal(r: int, x: int, y: int, a: nat, b: nat)
    requires 0 <= x < y && Sq(r) < Sq(x) + x + Sq(y) && y <= a && y <= b
    ensures !InDisc(r, a, b)
  {
    SqMonotone(y, Max(a, b));
    SqMonotone(y, Min(a, b));
    SqMonotone(x + 1, y);
    SqNext(x);
  }

  /** A pixel of the round part, seen from the centre. */
  ghost function Round(cx: int, cy: int, r: int, y: int, last: int): Shape {
    (px, py) => InRound(r, y, last, Abs(px - cx), Abs(py - cy))
  }

  ghost function Disc(cx: int, cy: int, r: int): Shape { (px, py) => InDisc(r, px - cx, py - cy) }

  /** The pixels of the four rows of one turn. */
  ghost function FourRows(cx: int, cy: int, x: int, y: int): Shape {
    (px, py) => (Abs(py - cy) == y && Abs(px - cx) <= x) || (Abs(py - cy) == x && Abs(px - cx) <= y)
  }

  /** A filled circle; the four rows of each turn go through the fast horizontal line. */
  method DrawCircle(fb: FrameBuf, cx: int, cy: int, radius: int, c: Color, pattern: UvPattern)
    requires IsFrameValid(fb.d) ==> fb.Usable()
    requires pattern.Valid() && pattern.pat != fb.uv && pattern.pat != fb.y
    modifies fb.y, fb.uv, pattern`cached, pattern.pat
    ensures pattern.Valid()
    ensures if IsFrameValid(fb.d) && OnScreen(fb.d, cx, cy) && 0 < radius
            then Painted(fb.d, old(fb.Now()), fb.Now(), Disc(cx, cy, radius), c)
            else fb.Now() == old(fb.Now())
  {
    if !IsFrameValid(fb.d) || cx < 0 || cx >= fb.d.width || cy < 0 || cy >= fb.d.height || radius <= 0 {
      return;
    }
    ghost var p := fb.Now();
    var x, y, err := radius, 0, 1 - radius;
    ghost var last := radius + 1;
    TracingStarts(radius);
    NothingRound(fb.d, p, cx, cy, radius, last, c);
    hide *;
    while x >= y
      invariant pattern.Valid() && Tracing(radius, x, y, last, err) && -1 <= x && 0 <= y
      invariant Painted(fb.d, p, fb.Now(), Round(cx, cy, radius, y, last), c)
      decreases x - y
    {
      ghost var q := fb.Now();
      DrawFourRows(fb, cx, cy, x, y, c, pattern);
      RoundJoin(fb.d, p, q, fb.Now(), cx, cy, radius, x, y, last, err, c);
      TracingSteps(radius, x, y, last, err);
      last := x;
      y := y + 1;
      if err <= 0 {
        err := err + 2 * y + 1;
      } else {
        x := x - 1;
        err := err + 2 * (y - x) + 1;
      }
    }
    RoundDone(fb.d, p, fb.Now(), cx, cy, radius, x, y, last, err, c);
  }

  method DrawFourRows(fb: FrameBuf, cx: int, cy: int, x: int, y: int, c: Color, pattern: UvPattern)
    requires fb.Usable() && 0 <= y <= x
    requires pattern.Valid() && pattern.pat != fb.uv && pattern.pat != fb.y
    modifies fb.y, fb.uv, pattern`cached, pattern.pat
    ensures pattern.Valid() && Painted(fb.d, old(fb.Now()), fb.Now(), FourRows(cx, cy, x, y), c)
  {
    ghost var p, d := fb.Now(), fb.d;
    hide Fits, PlotRow, Painted, FourRows, UvPattern.Valid;
    DrawHorizLine(fb, cx - x, cx + x, cy - y, c, pattern);
    RowPaints(d, p, cx - x, cx + x, cy - y, c);
    ghost var p1 := fb.Now();
    DrawHorizLine(fb, cx - x, cx + x, cy + y, c, pattern);
    RowPaints(d, p1, cx - x, cx + x, cy + y, c);
    ghost var p2 := fb.Now();
    DrawHorizLine(fb, cx - y, cx + y, cy - x, c, pattern);
    RowPaints(d, p2, cx - y, cx + y, cy - x, c);
    ghost var p3 := fb.Now();
    DrawHorizLine(fb, cx - y, cx + y, cy + x, c, pattern);
    RowPaints(d, p3, cx - y, cx + y, cy + x, c);
    FourJoin(d, p, p1, p2, p3, fb.Now(), cx, cy, x, y, c);
  }

  /** Two rows of half-width w, h above and below the centre. */
  lemma Mirrored(cx: int, cy: int, w: nat, h: nat, px: int, py: int)
    ensures Abs(py - cy) == h && Abs(px - cx) <= w
       <==> Span(cx - w, cx + w, cy - h)(px, py) || Span(cx - w, cx + w, cy + h)(px, py)
  {
    assert Abs(py - cy) == h <==> py == cy - h || py == cy + h;
  }

  lemma FourJoin(d: Dims, p: Planes, p1: Planes, p2: Planes, p3: Planes, p4: Planes,
                 cx: int, cy: int, x: int, y: int, c: Color)
    requires 0 <= y <= x
    requires Painted(d, p, p1, Span(cx - x, cx + x, cy - y), c)
    requires Painted(d, p1, p2, Span(cx - x, cx + x, cy + y), c)
    requires Painted(d, p2, p3, Span(cx - y, cx + y, cy - x), c)
    requires Painted(d, p3, p4, Span(cx - y, cx + y, cy + x), c)
    ensures Painted(d, p, p4, FourRows(cx, cy, x, y), c)
  {
    var up, down := Span(cx - x, cx + x, cy - y), Span(cx - x, cx + x, cy + y);
    var top, bottom := Span(cx - y, cx + y, cy - x), Span(cx - y, cx + y, cy + x);
    var wide: Shape := (px, py) => Abs(py - cy) == y && Abs(px - cx) <= x;
    var tall: Shape := (px, py) => Abs(py - cy) == x && Abs(px - cx) <= y;
    hide Painted, OnScreen;
    forall px: nat, py: nat ensures wide(px, py) <==> up(px, py) || down(px, py) {
      Mirrored(cx, cy, x, y, px, py);
    }
    forall px: nat, py: nat ensures tall(px, py) <==> top(px, py) || bottom(px, py) {
      Mirrored(cx, cy, y, x, px, py);
    }
    PaintedJoin(d, p, p1, p2, up, down, wide, c);
    PaintedJoin(d, p2, p3, p4, top, bottom, tall, c);
    PaintedJoin(d, p, p2, p4, wide, tall, FourRows(cx, cy, x, y), c);
  }

  lemma NothingRound(d: Dims, p: Planes, cx: int, cy: int, r: int, last: int, c: Color)
    requires Fits(d, |p.y|, |p.uv|)
    ensures Painted(d, p, p, Round(cx, cy, r, 0, last), c)
  {
    forall x: nat, y: nat ensures !Inside(d, Round(cx, cy, r, 0, last), x, y) {
      assert !InRound(r, 0, last, Abs(x - cx), Abs(y - cy));
    }
    NothingPainted(d, p, Round(cx, cy, r, 0, last), c);
  }

  lemma RoundJoin(d: Dims, p: Planes, q: Planes, r: Planes,
                  cx: int, cy: int, radius: int, x: int, y: int, last: int, err: int, c: Color)
    requires Tracing(radius, x, y, last, err) && y <= x
    requires Painted(d, p, q, Round(cx, cy, radius, y, last), c) && Painted(d, q, r, FourRows(cx, cy, x, y), c)
    ensures Painted(d, p, r, Round(cx, cy, radius, y + 1, x), c)
  {
    forall px: nat, py: nat
      ensures Round(cx, cy, radius, y + 1, x)(px, py)
         <==> Round(cx, cy, radius, y, last)(px, py) || FourRows(cx, cy, x, y)(px, py)
    {
      RoundGrows(radius, x, y, last, err, Abs(px - cx), Abs(py - cy));
    }
    hide *;
    PaintedJoin(d, p, q, r, Round(cx, cy, radius, y, last), FourRows(cx, cy, x, y), Round(cx, cy, radius, y + 1, x), c);
  }

  lemma RoundDone(d: Dims, p: Planes, q: Planes,
                  cx: int, cy: int, radius: int, x: int, y: int, last: int, err: int, c: Color)
    requires Tracing(radius, x, y, last, err) && x < y
    requires Painted(d, p, q, Round(cx, cy, radius, y, last), c)
    ensures Painted(d, p, q, Disc(cx, cy, radius), c)
  {
    forall px: nat, py: nat
      ensures Disc(cx, cy, radius)(px, py) <==> Round(cx, cy, radius, y, last)(px, py)
    {
      RoundIsDisc(radius, x, y, last, err, Abs(px - cx), Abs(py - cy));
    }
    PaintedSame(d, p, q, Round(cx, cy, radius, y, last), Disc(cx, cy, radius), c);
  }
}
