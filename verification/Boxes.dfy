/** Axis-aligned boxes, their areas and their common part. */
module Boxes {

  datatype Box = Box(x: real, y: real, width: real, height: real) {
    function Area(): real { width * height }

    /** The common part of two boxes; empty boxes come out as all zeros. */
    function Intersect(b: Box): Box {
      var x1 := Max(x, b.x);
      var y1 := Max(y, b.y);
      var w := Min(x + width, b.x + b.width) - x1;
      var h := Min(y + height, b.y + b.height) - y1;
      if w <= 0.0 || h <= 0.0 then Box(0.0, 0.0, 0.0, 0.0) else Box(x1, y1, w, h)
    }
  }

  function Max(a: real, b: real): real { if a >= b then a else b }
  function Min(a: real, b: real): real { if a <= b then a else b }

  lemma AreaMonotone(w: real, h: real, w': real, h': real)
    requires 0.0 <= w <= w' && 0.0 <= h <= h'
    ensures 0.0 <= w * h <= w' * h'
  {
    assert w * h <= w' * h;
    assert w' * h <= w' * h';
  }

  lemma IntersectionWithin(a: Box, b: Box)
    ensures 0.0 <= a.Intersect(b).Area()
    ensures a.Intersect(b).Area() == 0.0 || (a.Intersect(b).Area() <= a.Area() && a.Intersect(b).Area() <= b.Area())
  {
    var i := a.Intersect(b);
    if i.width > 0.0 {
      AreaMonotone(i.width, i.height, a.width, a.height);
      AreaMonotone(i.width, i.height, b.width, b.height);
    }
  }

  lemma QuotientInRange(x: real, y: real)
    requires 0.0 <= x <= y && 0.0 < y
    ensures 0.0 <= x / y <= 1.0
  {
    var q := x / y;
    assert q * y == x;
    if q > 1.0 { AreaMonotone(1.0, y, q, y); }
  }

  lemma QuotientTimes(x: real, y: real)
    requires y != 0.0
    ensures x / y * y == x
  {
  }

  /** The common part does not depend on the order of the boxes. */
  lemma IntersectSymmetric(a: Box, b: Box)
    ensures a.Intersect(b) == b.Intersect(a)
  {
  }

  // ----- the points inside boxes

  predicate Positive(a: Box) { a.width > 0.0 && a.height > 0.0 }

  predicate Inside(b: Box, px: real, py: real) {
    b.x < px < b.x + b.width && b.y < py < b.y + b.height
  }

  ghost predicate Disjoint(a: Box, b: Box) {
    forall px, py :: !(Inside(a, px, py) && Inside(b, px, py))
  }

  /** The points inside c are those inside both a and b. */
  ghost predicate CommonPart(a: Box, b: Box, c: Box) {
    && c.width >= 0.0 && c.height >= 0.0
    && forall px, py :: Inside(c, px, py) <==> Inside(a, px, py) && Inside(b, px, py)
  }

  lemma IntersectPoints(a: Box, b: Box)
    ensures CommonPart(a, b, a.Intersect(b))
  {
  }

  /** A box whose points are all inside another lies between its sides. */
  lemma PointsBetween(c: Box, d: Box)
    requires Positive(c) && forall px, py :: Inside(c, px, py) ==> Inside(d, px, py)
    ensures d.x <= c.x && c.x + c.width <= d.x + d.width
    ensures d.y <= c.y && c.y + c.height <= d.y + d.height
  {
    var mx, my := c.x + c.width / 2.0, c.y + c.height / 2.0;
    assert Inside(c, mx, my);
    if c.x < d.x { assert Inside(c, (c.x + Min(d.x, mx)) / 2.0, my); }
    if c.y < d.y { assert Inside(c, mx, (c.y + Min(d.y, my)) / 2.0); }
    var right, bottom := d.x + d.width, d.y + d.height;
    if c.x + c.width > right { assert Inside(c, (c.x + c.width + Max(right, mx)) / 2.0, my); }
    if c.y + c.height > bottom { assert Inside(c, mx, (c.y + c.height + Max(bottom, my)) / 2.0); }
  }

  lemma AreaIs(c: Box)
    ensures c.Area() == c.width * c.height
  {
  }

  lemma EmptyHasNoArea(c: Box)
    requires c.width >= 0.0 && c.height >= 0.0 && !Positive(c)
    ensures c.Area() == 0.0
  {
  }

  lemma PositiveHasArea(c: Box)
    requires Positive(c)
    ensures c.Area() > 0.0
    ensures Inside(c, c.x + c.width / 2.0, c.y + c.height / 2.0)
  {
  }

  /** So a box that has the points of both is their common part, and has its area. */
  lemma CommonPartIs(a: Box, b: Box, c: Box)
    requires CommonPart(a, b, c)
    ensures c.Area() == a.Intersect(b).Area()
    ensures Positive(c) ==> c == a.Intersect(b)
    ensures Positive(c) <==> !Disjoint(a, b)
  {
    IntersectPoints(a, b);
    var d := a.Intersect(b);
    if Positive(c) {
      PositiveHasArea(c);
      PointsBetween(c, d);
      PositiveHasArea(d);
      PointsBetween(d, c);
    } else {
      EmptyHasNoArea(c);
      if Positive(d) { PositiveHasArea(d); }
      EmptyHasNoArea(d);
    }
  }
}
