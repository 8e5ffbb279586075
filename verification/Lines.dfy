/**
 Lines of hal/drawing.cpp: the sloped line by error accumulation, its exact shape, and the choice
 between the fast forms and the sloped one.
 */
module Lines {
  import opened Canvas
  import opened Columns
  import opened Drawing
  import opened Painting

  function Abs(v: int): nat { if v < 0 then -v else v }

  /** n steps away from `from`, towards `to`. */
  function Towards(from: int, to: int, n: int): int { if from < to then from + n else from - n }

  /** After k major steps of a line that rises `minor` over `major`, n minor steps are within half a pixel, ties rounded up. */
  ghost predicate NearLine(k: nat, n: int, minor: nat, major: nat) {
    0 - major <= 2 * (k * minor - n * major) < major
  }

  function MinorSteps(k: nat, minor: nat, major: nat): (n: int)
    requires 0 < major
    ensures n >= 0
  {
    assert k * minor >= 0;
    (2 * (k * minor) + major) / (2 * major)
  }

  /** Being near the line determines the number of minor steps. */
  lemma NearLineExact(k: nat, n: int, minor: nat, major: nat)
    requires 0 < major
    ensures NearLine(k, n, minor, major) <==> n == MinorSteps(k, minor, major)
  {
    var t, m := 2 * (k * minor) + major, 2 * major;
    assert 2 * (n * major) == m * n;
    if m * n <= t < m * n + m {
      QuotientIs(t, m, n);
    }
    if n == t / m {
      assert t == m * n + t % m;
    }
  }

  lemma QuotientIs(t: int, m: nat, n: int)
    requires 0 < m && m * n <= t < m * n + m
    ensures t / m == n
  {
    var q := t / m;
    assert t == m * q + t % m;
    MulGap(m, q - n);
    MulGap(m, n - q);
    assert m * (q - n) == m * q - m * n && m * (n - q) == m * n - m * q;
  }

  lemma MulGap(m: nat, gap: int)
    ensures gap >= 1 ==> m * gap >= m
  {
  }

  /** A segment and the shift of one of its parallel strokes. */
  datatype Stroke = Stroke(x1: int, y1: int, x2: int, y2: int, off: int) {
    function Dx(): nat { Abs(x2 - x1) }

    function Dy(): nat { Abs(y2 - y1) }

    ghost predicate Sloped() { x1 != x2 && y1 != y2 }

    function Steps(): nat { if Dx() > Dy() then Dx() else Dy() }

    /** Strokes are shifted across the direction of the line. */
    function StartX(): int { if Dx() > Dy() then x1 else x1 + off }

    function StartY(): int { if Dx() > Dy() then y1 + off else y1 }

    function EndX(): int { if Dx() > Dy() then x2 else x2 + off }

    function EndY(): int { if Dx() > Dy() then y2 + off else y2 }

    function Point(k: nat): (int, int)
      requires Dx() > 0 && Dy() > 0
    {
      if Dx() > Dy() then
        (Towards(x1, x2, k), Towards(y1, y2, MinorSteps(k, Dy(), Dx())) + off)
      else
        (Towards(x1, x2, MinorSteps(k, Dx(), Dy())) + off, Towards(y1, y2, k))
    }

    /** One point for every pixel along the longer side, both ends included. */
    function Points(): (pts: seq<(int, int)>)
      requires Dx() > 0 && Dy() > 0
      ensures |pts| == Steps() + 1
    {
      seq(Steps() + 1, k requires 0 <= k <= Steps() => Point(k))
    }
  }

  lemma MinorEnds(minor: nat, major: nat)
    requires 0 < major
    ensures MinorSteps(0, minor, major) == 0 && MinorSteps(major, minor, major) == minor
  {
    NearLineExact(0, 0, minor, major);
    assert major * minor == minor * major;
    NearLineExact(major, minor, minor, major);
  }

  /** One more major step: the minor steps grow by one exactly when the error reaches half. */
  lemma MinorGrows(k: nat, minor: nat, major: nat)
    requires 0 < major && minor <= major
    ensures var n := MinorSteps(k, minor, major);
            var eps := k * minor - n * major;
            MinorSteps(k + 1, minor, major) == if 2 * (eps + minor) >= major then n + 1 else n
  {
    var n := MinorSteps(k, minor, major);
    NearLineExact(k, n, minor, major);
    assert (k + 1) * minor == k * minor + minor && (n + 1) * major == n * major + major;
    NearLineExact(k + 1, n, minor, major);
    NearLineExact(k + 1, n + 1, minor, major);
  }

  /** A stroke has both shifted ends and no gaps: each point is one step of its predecessor on the longer side. */
  lemma StrokeShape(s: Stroke)
    requires s.Sloped()
    ensures var pts := s.Points();
            && pts[0] == (s.StartX(), s.StartY()) && pts[s.Steps()] == (s.EndX(), s.EndY())
            && forall k | 0 <= k < s.Steps() ::
                 var (dx, dy) := (Abs(pts[k + 1].0 - pts[k].0), Abs(pts[k + 1].1 - pts[k].1));
                 if s.Dx() > s.Dy() then dx == 1 && dy <= 1 else dx <= 1 && dy == 1
  {
    var minor, major := if s.Dx() > s.Dy() then s.Dy() else s.Dx(), s.Steps();
    MinorEnds(minor, major);
    forall k | 0 <= k < s.Steps()
      ensures MinorSteps(k, minor, major) <= MinorSteps(k + 1, minor, major) <= MinorSteps(k, minor, major) + 1
    {
      MinorGrows(k, minor, major);
    }
    hide MinorSteps;
  }

  /** The ideal line, doubled and cleared of fractions: every point is within half a pixel of it across the line. */
  lemma StrokeIsNear(s: Stroke, k: nat)
    requires s.Sloped() && k <= s.Steps()
    ensures var (x, y) := s.Points()[k];
            var (u, v) := (Abs(x - s.StartX()), Abs(y - s.StartY()));
            if s.Dx() > s.Dy() then u == k && NearLine(k, v, s.Dy(), s.Dx())
            else v == k && NearLine(k, u, s.Dx(), s.Dy())
  {
    var minor, major := if s.Dx() > s.Dy() then s.Dy() else s.Dx(), s.Steps();
    var n := MinorSteps(k, minor, major);
    NearLineExact(k, n, minor, major);
    hide MinorSteps, NearLine;
    assert s.Points()[k] == s.Point(k);
  }

  /** The accumulated error after k major steps. */
  ghost function ErrorAt(k: nat, minor: nat, major: nat): int
    requires 0 < major
  {
    k * minor - MinorSteps(k, minor, major) * major
  }

  lemma StrokeStarts(s: Stroke)
    requires s.Sloped()
    ensures s.Point(0) == (s.StartX(), s.StartY())
    ensures s.Dx() > s.Dy() ==> ErrorAt(0, s.Dy(), s.Dx()) == 0
    ensures s.Dx() <= s.Dy() ==> ErrorAt(0, s.Dx(), s.Dy()) == 0
  {
    var minor, major := if s.Dx() > s.Dy() then s.Dy() else s.Dx(), s.Steps();
    MinorEnds(minor, major);
    NextError(0, minor, major);
    hide MinorSteps, ErrorAt;
  }

  /** From one point of a stroke to the next, and what becomes of the error. */
  lemma StrokeStep(s: Stroke, k: nat)
    requires s.Sloped()
    ensures var xstep, ystep := if s.StartX() < s.EndX() then 1 else -1, if s.StartY() < s.EndY() then 1 else -1;
            var (x, y) := s.Point(k);
            if s.Dx() > s.Dy() then
              var eps := ErrorAt(k, s.Dy(), s.Dx()) + s.Dy();
              if 2 * eps >= s.Dx() then s.Point(k + 1) == (x + xstep, y + ystep) && ErrorAt(k + 1, s.Dy(), s.Dx()) == eps - s.Dx()
              else s.Point(k + 1) == (x + xstep, y) && ErrorAt(k + 1, s.Dy(), s.Dx()) == eps
            else
              var eps := ErrorAt(k, s.Dx(), s.Dy()) + s.Dx();
              if 2 * eps >= s.Dy() then s.Point(k + 1) == (x + xstep, y + ystep) && ErrorAt(k + 1, s.Dx(), s.Dy()) == eps - s.Dy()
              else s.Point(k + 1) == (x, y + ystep) && ErrorAt(k + 1, s.Dx(), s.Dy()) == eps
  {
    if s.Dx() > s.Dy() {
      NextError(k, s.Dy(), s.Dx());
    } else {
      NextError(k, s.Dx(), s.Dy());
    }
    hide MinorSteps, ErrorAt;
  }

  /** The frame when the first k points of a stroke are set. */
  ghost function Plotted(d: Dims, p: Planes, s: Stroke, k: nat, c: Color): (q: Planes)
    requires Fits(d, |p.y|, |p.uv|) && s.Sloped() && k <= s.Steps() + 1
    ensures |q.y| == |p.y| && |q.uv| == |p.uv|
  {
    PlotAll(d, p, s.Points()[..k], c)
  }

  lemma PlottedEnds(d: Dims, p: Planes, s: Stroke, c: Color)
    requires Fits(d, |p.y|, |p.uv|) && s.Sloped()
    ensures Plotted(d, p, s, 0, c) == p && Plotted(d, p, s, s.Steps() + 1, c) == PlotAll(d, p, s.Points(), c)
  {
    assert s.Points()[..s.Steps() + 1] == s.Points();
    hide Stroke.Points;
  }

  lemma PlottedNext(d: Dims, p: Planes, s: Stroke, k: nat, c: Color)
    requires Fits(d, |p.y|, |p.uv|) && s.Sloped() && k <= s.Steps()
    ensures Plotted(d, p, s, k + 1, c) == Plot(d, Plotted(d, p, s, k, c), s.Point(k).0, s.Point(k).1, c)
  {
    var pts := s.Points();
    assert pts[k] == s.Point(k);
    hide Stroke.Points, Stroke.Point, Plot, Fits;
    assert pts[..k + 1][..k] == pts[..k] && pts[..k + 1][k] == pts[k];
  }

  /** One stroke of a sloped line. */
  method DrawStroke(fb: FrameBuf, s: Stroke, c: Color)
    requires fb.Usable() && s.Sloped()
    modifies fb.y, fb.uv
    ensures fb.Now() == PlotAll(fb.d, old(fb.Now()), s.Points(), c)
  {
    if s.Dx() > s.Dy() {
      DrawFlat(fb, s, c);
    } else {
      DrawSteep(fb, s, c);
    }
  }

  method DrawFlat(fb: FrameBuf, s: Stroke, c: Color)
    requires fb.Usable() && s.Sloped() && s.Dx() > s.Dy()
    modifies fb.y, fb.uv
    ensures fb.Now() == PlotAll(fb.d, old(fb.Now()), s.Points(), c)
  {
    hide Fits, Plot, PlotAll, Plotted, MinorSteps, ErrorAt, Stroke.Point, Stroke.Points, FrameBuf.Now;
    ghost var p := fb.Now();
    var x0, y0, dx, dy := s.StartX(), s.StartY(), s.Dx(), s.Dy();
    var xstep := if x0 < s.EndX() then 1 else -1;
    var ystep := if y0 < s.EndY() then 1 else -1;
    var nstep: nat, eps: int := 0, 0;
    StrokeStarts(s);
    PlottedEnds(fb.d, p, s, c);
    while nstep <= dx
      invariant nstep <= dx + 1
      invariant (x0, y0) == s.Point(nstep) && eps == ErrorAt(nstep, dy, dx)
      invariant fb.Now() == Plotted(fb.d, p, s, nstep, c)
    {
      SetPixel(fb, x0, y0, c);
      PlottedNext(fb.d, p, s, nstep, c);
      StrokeStep(s, nstep);
      eps := eps + dy;
      if 2 * eps >= dx {
        y0 := y0 + ystep;
        eps := eps - dx;
      }
      x0 := x0 + xstep;
      nstep := nstep + 1;
    }
  }

  method DrawSteep(fb: FrameBuf, s: Stroke, c: Color)
    requires fb.Usable() && s.Sloped() && s.Dx() <= s.Dy()
    modifies fb.y, fb.uv
    ensures fb.Now() == PlotAll(fb.d, old(fb.Now()), s.Points(), c)
  {
    hide Fits, Plot, PlotAll, Plotted, MinorSteps, ErrorAt, Stroke.Point, Stroke.Points, FrameBuf.Now;
    ghost var p := fb.Now();
    var x0, y0, dx, dy := s.StartX(), s.StartY(), s.Dx(), s.Dy();
    var xstep := if x0 < s.EndX() then 1 else -1;
    var ystep := if y0 < s.EndY() then 1 else -1;
    var nstep: nat, eps: int := 0, 0;
    StrokeStarts(s);
    PlottedEnds(fb.d, p, s, c);
    while nstep <= dy
      invariant nstep <= dy + 1
      invariant (x0, y0) == s.Point(nstep) && eps == ErrorAt(nstep, dx, dy)
      invariant fb.Now() == Plotted(fb.d, p, s, nstep, c)
    {
      SetPixel(fb, x0, y0, c);
      PlottedNext(fb.d, p, s, nstep, c);
      StrokeStep(s, nstep);
      eps := eps + dx;
      if 2 * eps >= dy {
        x0 := x0 + xstep;
        eps := eps - dy;
      }
      y0 := y0 + ystep;
      nstep := nstep + 1;
    }
  }

  lemma NextError(k: nat, minor: nat, major: nat)
    requires 0 < major && minor <= major
    ensures ErrorAt(0, minor, major) == 0
    ensures var eps := ErrorAt(k, minor, major) + minor;
            var n, n' := MinorSteps(k, minor, major), MinorSteps(k + 1, minor, major);
            if 2 * eps >= major then n' == n + 1 && ErrorAt(k + 1, minor, major) == eps - major
            else n' == n && ErrorAt(k + 1, minor, major) == eps
  {
    MinorGrows(k, minor, major);
    MinorEnds(minor, major);
    var n := MinorSteps(k, minor, major);
    assert (k + 1) * minor == k * minor + minor && (n + 1) * major == n * major + major;
  }

  /** The thickness loop: the strokes with offsets -halfW, -halfW + 1, ... */
  ghost function Thick(d: Dims, p: Planes, s: Stroke, halfW: int, n: nat, c: Color): (q: Planes)
    requires Fits(d, |p.y|, |p.uv|) && s.Sloped()
    ensures |q.y| == |p.y| && |q.uv| == |p.uv|
  {
    if n == 0 then p else PlotAll(d, Thick(d, p, s, halfW, n - 1, c), s.(off := n - 1 - halfW).Points(), c)
  }

  ghost function ThickRow(d: Dims, p: Planes, x1: int, x2: int, y: int, halfW: int, n: nat, c: Color): (q: Planes)
    requires Fits(d, |p.y|, |p.uv|)
    ensures |q.y| == |p.y| && |q.uv| == |p.uv|
  {
    if n == 0 then p else PlotRow(d, ThickRow(d, p, x1, x2, y, halfW, n - 1, c), x1, x2, y + n - 1 - halfW, c)
  }

  ghost function ThickCol(d: Dims, p: Planes, x: int, y1: int, y2: int, halfW: int, n: nat, c: Color): (q: Planes)
    requires Fits(d, |p.y|, |p.uv|)
    ensures |q.y| == |p.y| && |q.uv| == |p.uv|
  {
    if n == 0 then p else VertEffect(d, ThickCol(d, p, x, y1, y2, halfW, n - 1, c), x + n - 1 - halfW, y1, y2, c)
  }

  /** What drawing a line leaves; an axis-aligned line whose centre is off the screen is not drawn at all. */
  ghost function LineEffect(d: Dims, p: Planes, s: Stroke, lineWidth: int, c: Color): (q: Planes)
    requires Fits(d, |p.y|, |p.uv|)
    ensures |q.y| == |p.y| && |q.uv| == |p.uv|
  {
    var n := if lineWidth < 1 then 1 else lineWidth;
    if s.y1 == s.y2 then
      if 0 <= s.y1 < d.height then ThickRow(d, p, Min(s.x1, s.x2), Max(s.x1, s.x2), s.y1, n / 2, n, c) else p
    else if s.x1 == s.x2 then
      if 0 <= s.x1 < d.width then ThickCol(d, p, s.x1, Min(s.y1, s.y2), Max(s.y1, s.y2), n / 2, n, c) else p
    else
      Thick(d, p, s, n / 2, n, c)
  }

  predicate IsFrameValid(d: Dims) { 0 < d.width <= d.stride && 0 < d.height }

  /** Draw a line of a width; -1 for a frame with bad dimensions. */
  method DrawLine(fb: FrameBuf, x1: int, y1: int, x2: int, y2: int, c: Color, lineWidth: int, pattern: UvPattern)
    returns (result: int)
    requires IsFrameValid(fb.d) ==> fb.Usable()
    requires pattern.Valid() && pattern.pat != fb.uv && pattern.pat != fb.y
    modifies fb.y, fb.uv, pattern`cached, pattern.pat
    ensures pattern.Valid() && result == (if IsFrameValid(fb.d) then 0 else -1)
    ensures !IsFrameValid(fb.d) ==> fb.Now() == old(fb.Now())
    ensures IsFrameValid(fb.d) ==>
              fb.Now() == LineEffect(fb.d, old(fb.Now()), Stroke(x1, y1, x2, y2, 0), lineWidth, c)
    ensures IsFrameValid(fb.d) ==> LineDrawn(fb.d, old(fb.Now()), fb.Now(), x1, y1, x2, y2, Max(1, lineWidth), c)
  {
    ghost var p := fb.Now();
    if !IsFrameValid(fb.d) {
      return -1;
    }
    var n := if lineWidth < 1 then 1 else lineWidth;
    if y1 == y2 {
      if 0 <= y1 < fb.d.height {
        DrawThickRow(fb, Min(x1, x2), Max(x1, x2), y1, n, c, pattern);
      }
    } else if x1 == x2 {
      if 0 <= x1 < fb.d.width {
        DrawThickCol(fb, x1, Min(y1, y2), Max(y1, y2), n, c);
      }
    } else {
      DrawThick(fb, Stroke(x1, y1, x2, y2, 0), n, c);
    }
    hide *;
    LineMeans(fb.d, p, x1, y1, x2, y2, lineWidth, c);
    return 0;
  }

  method DrawThickRow(fb: FrameBuf, x1: int, x2: int, y1: int, n: nat, c: Color, pattern: UvPattern)
    requires fb.Usable() && x1 <= x2
    requires pattern.Valid() && pattern.pat != fb.uv && pattern.pat != fb.y
    modifies fb.y, fb.uv, pattern`cached, pattern.pat
    ensures pattern.Valid()
    ensures fb.Now() == ThickRow(fb.d, old(fb.Now()), x1, x2, y1, n / 2, n, c)
  {
    ghost var p := fb.Now();
    hide Fits, Plot, PlotRow, UvPattern.Valid;
    for i := 0 to n
      invariant pattern.Valid() && fb.Now() == ThickRow(fb.d, p, x1, x2, y1, n / 2, i, c)
    {
      ghost var q := fb.Now();
      var yy := y1 + i - n / 2;
      if 0 <= yy < fb.d.height {
        var sx, ex := Max(0, x1), Min(fb.d.width - 1, x2);
        RowClipped(fb.d, q, x1, x2, yy, c);
        if sx <= ex {
          DrawHorizLine(fb, sx, ex, yy, c, pattern);
        }
      } else {
        RowOffScreen(fb.d, q, x1, x2, yy, c);
      }
    }
  }

  method DrawThickCol(fb: FrameBuf, x1: int, y1: int, y2: int, n: nat, c: Color)
    requires fb.Usable() && y1 <= y2
    modifies fb.y, fb.uv
    ensures fb.Now() == ThickCol(fb.d, old(fb.Now()), x1, y1, y2, n / 2, n, c)
  {
    ghost var p := fb.Now();
    hide Fits, FastCol;
    for i := 0 to n
      invariant fb.Now() == ThickCol(fb.d, p, x1, y1, y2, n / 2, i, c)
    {
      var xx := x1 + i - n / 2;
      if 0 <= xx < fb.d.width {
        var sy, ey := Max(0, y1), Min(fb.d.height - 1, y2);
        if sy <= ey {
          DrawVertLine(fb, xx, sy, ey, c);
        }
      }
    }
  }

  method DrawThick(fb: FrameBuf, s: Stroke, n: nat, c: Color)
    requires fb.Usable() && s.Sloped()
    modifies fb.y, fb.uv
    ensures fb.Now() == Thick(fb.d, old(fb.Now()), s, n / 2, n, c)
  {
    ghost var p := fb.Now();
    hide Fits, PlotAll, Stroke.Points;
    for i := 0 to n
      invariant fb.Now() == Thick(fb.d, p, s, n / 2, i, c)
    {
      DrawStroke(fb, s.(off := i - n / 2), c);
    }
  }

  ghost predicate OnStroke(s: Stroke, off: int, x: int, y: int)
    requires s.Sloped()
  {
    (x, y) in s.(off := off).Points()
  }

  lemma OnStrokeIs(s: Stroke, off: int, x: int, y: int)
    requires s.Sloped()
    ensures OnStroke(s, off, x, y) <==> (x, y) in s.(off := off).Points()
  {
  }

  /** A sloped line of a width paints the points of its strokes and nothing else. */
  lemma {:induction false} ThickPaints(d: Dims, p: Planes, s: Stroke, halfW: int, n: nat, c: Color)
    requires Fits(d, |p.y|, |p.uv|) && s.Sloped()
    ensures Painted(d, p, Thick(d, p, s, halfW, n, c),
                    (x, y) => exists off :: -halfW <= off < n - halfW && OnStroke(s, off, x, y), c)
  {
    hide Painted, Fits, PlotAll, Thick, Stroke.Points, Stroke.Point, OnStroke;
    var shape: Shape := (x, y) => exists off :: -halfW <= off < n - halfW && OnStroke(s, off, x, y);
    ThickUnfolds(d, p, s, halfW, n, c);
    if n == 0 {
      NothingPainted(d, p, shape, c);
    } else {
      ThickPaints(d, p, s, halfW, n - 1, c);
      var q, off := Thick(d, p, s, halfW, n - 1, c), n - 1 - halfW;
      var pts := s.(off := off).Points();
      PointsPaint(d, q, pts, c);
      var before: Shape := (x, y) => exists off :: -halfW <= off < n - 1 - halfW && OnStroke(s, off, x, y);
      forall x: nat, y: nat ensures shape(x, y) <==> before(x, y) || (x, y) in pts {
        OnStrokeIs(s, off, x, y);
      }
      PaintedJoin(d, p, q, PlotAll(d, q, pts, c), before, (x, y) => (x, y) in pts, shape, c);
    }
  }

  lemma ThickUnfolds(d: Dims, p: Planes, s: Stroke, halfW: int, n: nat, c: Color)
    requires Fits(d, |p.y|, |p.uv|) && s.Sloped()
    ensures Thick(d, p, s, halfW, 0, c) == p
    ensures n > 0 ==> Thick(d, p, s, halfW, n, c) == PlotAll(d, Thick(d, p, s, halfW, n - 1, c), s.(off := n - 1 - halfW).Points(), c)
  {
    hide PlotAll, Stroke.Points, Fits;
  }

  /** A thick horizontal line paints exactly a rectangle. */
  lemma {:induction false} ThickRowPaints(d: Dims, p: Planes, x1: int, x2: int, y: int, halfW: int, n: nat, c: Color)
    requires Fits(d, |p.y|, |p.uv|)
    ensures Painted(d, p, ThickRow(d, p, x1, x2, y, halfW, n, c),
                    Rect(x1, x2, y - halfW, y - halfW + n - 1), c)
  {
    hide Painted, Fits, PlotRow;
    var shape := Rect(x1, x2, y - halfW, y - halfW + n - 1);
    if n == 0 {
      NothingPainted(d, p, shape, c);
    } else {
      ThickRowPaints(d, p, x1, x2, y, halfW, n - 1, c);
      var q, row := ThickRow(d, p, x1, x2, y, halfW, n - 1, c), y + n - 1 - halfW;
      RowPaints(d, q, x1, x2, row, c);
      PaintedJoin(d, p, q, PlotRow(d, q, x1, x2, row, c),
                  Rect(x1, x2, y - halfW, y - halfW + n - 2),
                  Span(x1, x2, row), shape, c);
    }
  }

  /** A rectangle of pixels, corners included. */
  ghost function Rect(x1: int, x2: int, y1: int, y2: int): Shape { (px, py) => x1 <= px <= x2 && y1 <= py <= y2 }

  lemma {:induction false} ColPaints(d: Dims, p: Planes, x: int, y1: int, y2: int, c: Color)
    requires Fits(d, |p.y|, |p.uv|)
    ensures Painted(d, p, PlotCol(d, p, x, y1, y2, c), Rect(x, x, y1, y2), c)
    decreases y2 - y1
  {
    if y2 < y1 {
      NothingPainted(d, p, Rect(x, x, y1, y2), c);
    } else {
      ColPaints(d, p, x, y1, y2 - 1, c);
      var q := PlotCol(d, p, x, y1, y2 - 1, c);
      PlotPaints(d, q, x, y2, c);
      PaintedJoin(d, p, q, Plot(d, q, x, y2, c), Rect(x, x, y1, y2 - 1),
                  (px, py) => px == x && py == y2, Rect(x, x, y1, y2), c);
    }
  }

  /** The last row, within the screen, whose chroma a vertical line from y1 to y2 sets. */
  function ChromaEnd(d: Dims, y1: int, y2: int): int { LastRow(Max(0, y1), Min(d.height - 1, y2)) }

  /** A vertical line paints the luma of its pixels; its chroma may end a row earlier. */
  lemma VertPaints(d: Dims, p: Planes, x: int, y1: int, y2: int, c: Color)
    requires Fits(d, |p.y|, |p.uv|) && y1 <= y2
    ensures var q := VertEffect(d, p, x, y1, y2, c);
            && LumaPainted(d, p.y, q.y, Rect(x, x, y1, y2), c.y)
            && ChromaPainted(d, p.uv, q.uv, Rect(x, x, y1, ChromaEnd(d, y1, y2)), c)
  {
    var lo, hi, end := Max(0, y1), Min(d.height - 1, y2), ChromaEnd(d, y1, y2);
    if 0 <= x < d.width && lo <= hi {
      FastColPlanes(d, p, x, lo, hi, c);
      ColPaints(d, p, x, lo, hi, c);
      ColPaints(d, p, x, lo, end, c);
      PaintedSame(d, p, PlotCol(d, p, x, lo, hi, c), Rect(x, x, lo, hi), Rect(x, x, y1, y2), c);
      PaintedSame(d, p, PlotCol(d, p, x, lo, end, c), Rect(x, x, lo, end), Rect(x, x, y1, end), c);
      hide FastCol, PlotCol, LumaPainted, ChromaPainted, Fits;
    } else {
      NothingPainted(d, p, Rect(x, x, y1, y2), c);
      NothingPainted(d, p, Rect(x, x, y1, end), c);
    }
  }

  lemma RectGrows(d: Dims, left: int, col: int, y1: int, y2: int)
    requires left <= col
    ensures forall px: nat, py: nat | OnScreen(d, px, py) ::
              Rect(left, col, y1, y2)(px, py) <==> Rect(left, col - 1, y1, y2)(px, py) || Rect(col, col, y1, y2)(px, py)
  {
  }

  /** One more column beside a rectangle. */
  lemma ThickColStep(d: Dims, p: Planes, q: Planes, r: Planes, left: int, col: int, y1: int, y2: int, end: int, c: Color)
    requires left <= col
    requires LumaPainted(d, p.y, q.y, Rect(left, col - 1, y1, y2), c.y) && LumaPainted(d, q.y, r.y, Rect(col, col, y1, y2), c.y)
    requires ChromaPainted(d, p.uv, q.uv, Rect(left, col - 1, y1, end), c)
    requires ChromaPainted(d, q.uv, r.uv, Rect(col, col, y1, end), c)
    ensures LumaPainted(d, p.y, r.y, Rect(left, col, y1, y2), c.y) && ChromaPainted(d, p.uv, r.uv, Rect(left, col, y1, end), c)
  {
    hide *;
    RectGrows(d, left, col, y1, y2);
    RectGrows(d, left, col, y1, end);
    LumaJoin(d, p.y, q.y, r.y, Rect(left, col - 1, y1, y2), Rect(col, col, y1, y2), Rect(left, col, y1, y2), c.y);
    ChromaJoin(d, p.uv, q.uv, r.uv, Rect(left, col - 1, y1, end), Rect(col, col, y1, end), Rect(left, col, y1, end), c);
  }

  lemma EmptyRect(d: Dims, p: Planes, left: int, y1: int, y2: int, c: Color)
    requires Fits(d, |p.y|, |p.uv|)
    ensures LumaPainted(d, p.y, p.y, Rect(left, left - 1, y1, y2), c.y)
    ensures ChromaPainted(d, p.uv, p.uv, Rect(left, left - 1, y1, y2), c)
  {
    NothingPainted(d, p, Rect(left, left - 1, y1, y2), c);
  }

  lemma ThickColStarts(d: Dims, p: Planes, x: int, y1: int, y2: int, halfW: int, n: nat, c: Color)
    requires Fits(d, |p.y|, |p.uv|)
    ensures ThickCol(d, p, x, y1, y2, halfW, 0, c) == p
    ensures n > 0 ==>
              ThickCol(d, p, x, y1, y2, halfW, n, c)
              == VertEffect(d, ThickCol(d, p, x, y1, y2, halfW, n - 1, c), x - halfW + n - 1, y1, y2, c)
  {
    hide VertEffect, Fits;
  }

  /** A thick vertical line paints the luma of exactly a rectangle; its chroma may end a row earlier. */
  lemma {:induction false} ThickColPaints(d: Dims, p: Planes, x: int, y1: int, y2: int, halfW: int, n: nat, c: Color)
    requires Fits(d, |p.y|, |p.uv|) && y1 <= y2
    ensures var q := ThickCol(d, p, x, y1, y2, halfW, n, c);
            && LumaPainted(d, p.y, q.y, Rect(x - halfW, x - halfW + n - 1, y1, y2), c.y)
            && ChromaPainted(d, p.uv, q.uv, Rect(x - halfW, x - halfW + n - 1, y1, ChromaEnd(d, y1, y2)), c)
  {
    hide *;
    var end, left := ChromaEnd(d, y1, y2), x - halfW;
    ThickColStarts(d, p, x, y1, y2, halfW, n, c);
    if n == 0 {
      EmptyRect(d, p, left, y1, y2, c);
      EmptyRect(d, p, left, y1, end, c);
    } else {
      var q, col := ThickCol(d, p, x, y1, y2, halfW, n - 1, c), left + n - 1;
      ThickColPaints(d, p, x, y1, y2, halfW, n - 1, c);
      VertPaints(d, q, col, y1, y2, c);
      ThickColStep(d, p, q, VertEffect(d, q, col, y1, y2, c), left, col, y1, y2, end, c);
    }
  }

  // ----- what a line of a width paints

  /**
   Pixels of the segment, moved by `off` across its direction: k steps along the longer side, and as many
   along the shorter one as are nearest to the line.
   */
  ghost predicate OnShifted(x1: int, y1: int, x2: int, y2: int, off: int, x: int, y: int) {
    var dx, dy := Abs(x2 - x1), Abs(y2 - y1);
    exists k: nat, n: nat ::
      if dx > dy then
        && k <= dx && NearLine(k, n, dy, dx)
        && x == (if x1 < x2 then x1 + k else x1 - k) && y == (if y1 < y2 then y1 + n else y1 - n) + off
      else
        && k <= dy && NearLine(k, n, dx, dy)
        && y == (if y1 < y2 then y1 + k else y1 - k) && x == (if x1 < x2 then x1 + n else x1 - n) + off
  }

  /** A sloped line of width w: the segment moved by each offset from -w/2 on. */
  ghost function Sloping(x1: int, y1: int, x2: int, y2: int, w: nat): Shape {
    (x, y) => exists off :: 0 - w / 2 <= off < w - w / 2 && OnShifted(x1, y1, x2, y2, off, x, y)
  }

  /**
   A line of width w. A horizontal or vertical one is a rectangle about its row or column, or nothing when
   that is off the screen; the chroma of a vertical one may end a row earlier. A sloped one is its strokes.
   */
  ghost predicate LineDrawn(d: Dims, p: Planes, q: Planes, x1: int, y1: int, x2: int, y2: int, w: int, c: Color)
    requires w > 0
  {
    if y1 == y2 then
      if 0 <= y1 < d.height then Painted(d, p, q, Rect(Min(x1, x2), Max(x1, x2), y1 - w / 2, y1 - w / 2 + w - 1), c)
      else q == p
    else if x1 == x2 then
      if 0 <= x1 < d.width then
        && LumaPainted(d, p.y, q.y, Rect(x1 - w / 2, x1 - w / 2 + w - 1, Min(y1, y2), Max(y1, y2)), c.y)
        && ChromaPainted(d, p.uv, q.uv,
                         Rect(x1 - w / 2, x1 - w / 2 + w - 1, Min(y1, y2), ChromaEnd(d, Min(y1, y2), Max(y1, y2))), c)
      else q == p
    else Painted(d, p, q, Sloping(x1, y1, x2, y2, w), c)
  }

  /** The points of a stroke are the pixels of the segment moved across its direction. */
  lemma StrokeIsShifted(s: Stroke, off: int, x: int, y: int)
    requires s.Sloped()
    ensures OnStroke(s, off, x, y) <==> OnShifted(s.x1, s.y1, s.x2, s.y2, off, x, y)
  {
    hide Stroke.Point, Stroke.Points, OnStroke, OnShifted, MinorSteps, NearLine;
    OnStrokeIs(s, off, x, y);
    if OnStroke(s, off, x, y) {
      var k := PointAt(s.(off := off), x, y);
      ShiftedAt(s, off, k);
    }
    if OnShifted(s.x1, s.y1, s.x2, s.y2, off, x, y) {
      var k := ShiftedStep(s, off, x, y);
      AmongPoints(s.(off := off), k);
    }
  }

  lemma PointAt(s: Stroke, x: int, y: int) returns (k: nat)
    requires s.Sloped() && (x, y) in s.Points()
    ensures k <= s.Steps() && s.Point(k) == (x, y)
  {
    k :| k <= s.Steps() && s.Points()[k] == (x, y);
    hide Stroke.Point;
  }

  lemma AmongPoints(s: Stroke, k: nat)
    requires s.Sloped() && k <= s.Steps()
    ensures s.Point(k) in s.Points()
  {
    assert s.Points()[k] == s.Point(k);
    hide Stroke.Point, Stroke.Points;
  }

  /** A pixel of the moved segment is a point of the stroke. */
  lemma ShiftedStep(s: Stroke, off: int, x: int, y: int) returns (k: nat)
    requires s.Sloped() && OnShifted(s.x1, s.y1, s.x2, s.y2, off, x, y)
    ensures k <= s.Steps() && s.(off := off).Point(k) == (x, y)
  {
    hide NearLine, MinorSteps;
    if s.Dx() > s.Dy() {
      var n: nat;
      k, n :| k <= s.Dx() && NearLine(k, n, s.Dy(), s.Dx())
        && x == (if s.x1 < s.x2 then s.x1 + k else s.x1 - k) && y == (if s.y1 < s.y2 then s.y1 + n else s.y1 - n) + off;
      NearLineExact(k, n, s.Dy(), s.Dx());
    } else {
      var n: nat;
      k, n :| k <= s.Dy() && NearLine(k, n, s.Dx(), s.Dy())
        && y == (if s.y1 < s.y2 then s.y1 + k else s.y1 - k) && x == (if s.x1 < s.x2 then s.x1 + n else s.x1 - n) + off;
      NearLineExact(k, n, s.Dx(), s.Dy());
    }
  }

  lemma ShiftedAt(s: Stroke, off: int, k: nat)
    requires s.Sloped() && k <= s.Steps()
    ensures var (x, y) := s.(off := off).Point(k);
            OnShifted(s.x1, s.y1, s.x2, s.y2, off, x, y)
  {
    var minor, major := if s.Dx() > s.Dy() then s.Dy() else s.Dx(), s.Steps();
    var n: nat := MinorSteps(k, minor, major);
    NearLineExact(k, n, minor, major);
    hide MinorSteps, NearLine;
  }

  lemma LineMeans(d: Dims, p: Planes, x1: int, y1: int, x2: int, y2: int, lineWidth: int, c: Color)
    requires Fits(d, |p.y|, |p.uv|)
    ensures LineDrawn(d, p, LineEffect(d, p, Stroke(x1, y1, x2, y2, 0), lineWidth, c), x1, y1, x2, y2, Max(1, lineWidth), c)
  {
    var s, w := Stroke(x1, y1, x2, y2, 0), Max(1, lineWidth);
    hide Fits, Painted, LumaPainted, ChromaPainted, ThickRow, ThickCol, Thick, OnStroke, OnShifted, ChromaEnd;
    if y1 == y2 {
      ThickRowPaints(d, p, Min(x1, x2), Max(x1, x2), y1, w / 2, w, c);
    } else if x1 == x2 {
      ThickColPaints(d, p, x1, Min(y1, y2), Max(y1, y2), w / 2, w, c);
    } else {
      ThickPaints(d, p, s, w / 2, w, c);
      var strokes: Shape := (x, y) => exists off :: 0 - w / 2 <= off < w - w / 2 && OnStroke(s, off, x, y);
      forall off, x, y ensures OnStroke(s, off, x, y) <==> OnShifted(x1, y1, x2, y2, off, x, y) {
        StrokeIsShifted(s, off, x, y);
      }
      SameShape(d, p, Thick(d, p, s, w / 2, w, c), strokes, Sloping(x1, y1, x2, y2, w), c);
    }
  }

  lemma SameShape(d: Dims, p: Planes, q: Planes, s: Shape, t: Shape, c: Color)
    requires Painted(d, p, q, s, c) && forall x, y :: s(x, y) <==> t(x, y)
    ensures Painted(d, p, q, t, c)
  {
    assert forall x, y :: Inside(d, s, x, y) <==> Inside(d, t, x, y);
    hide YOff, UvOff, Fits, LumaAt, PairAt;
  }
}
