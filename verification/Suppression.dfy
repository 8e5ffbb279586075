/**
 Non-maximum suppression: the two greedy algorithms of models/detail/detection.h and models/scrfd.cpp,
 which check against what was kept and mark forward respectively, and the rotated variant.
 */
module Suppression {
  import opened Boxes
  import opened DescendingSort

  /** rel[i][j]: do detections i and j overlap too much? */
  type Relation = seq<seq<bool>>

  ghost predicate Square(rel: Relation) {
    forall i :: 0 <= i < |rel| ==> |rel[i]| == |rel|
  }

  ghost predicate Symmetric(rel: Relation) {
    Square(rel) && forall i, j :: 0 <= i < |rel| && 0 <= j < |rel| ==> rel[i][j] == rel[j][i]
  }

  ghost predicate Indices(order: seq<nat>, n: nat) {
    forall q :: 0 <= q < |order| ==> order[q] < n
  }

  /** Does one of the first `limit` detections in the order, coming before the q-th and kept, overlap the q-th? */
  ghost predicate HitBy(rel: Relation, order: seq<nat>, keep: seq<bool>, limit: nat, q: nat)
    requires Square(rel) && Indices(order, |rel|) && limit <= |keep| <= |order| && q < |order|
  {
    exists p :: 0 <= p < limit && p < q && keep[p] && rel[order[p]][order[q]]
  }

  /** Greedy suppression: the q-th is kept exactly when no kept one before it overlaps it. */
  ghost predicate Keeps(rel: Relation, order: seq<nat>, keep: seq<bool>)
    requires Square(rel) && Indices(order, |rel|)
  {
    |keep| <= |order| && forall q :: 0 <= q < |keep| ==> (keep[q] <==> !HitBy(rel, order, keep, q, q))
  }

  /** The kept detections, in order. */
  ghost function Select(order: seq<nat>, keep: seq<bool>): seq<nat>
    requires |keep| <= |order|
  {
    if keep == [] then []
    else Select(order, keep[..|keep| - 1]) + (if keep[|keep| - 1] then [order[|keep| - 1]] else [])
  }

  /** That is: kept detections do not overlap pairwise, and a dropped one overlaps a kept one before it. */
  lemma KeepsMeans(rel: Relation, order: seq<nat>, keep: seq<bool>)
    requires Square(rel) && Indices(order, |rel|) && |keep| == |order|
    ensures Keeps(rel, order, keep) <==>
              && (forall p, q :: 0 <= p < q < |keep| && keep[p] && keep[q] ==> !rel[order[p]][order[q]])
              && (forall q :: 0 <= q < |keep| && !keep[q] ==>
                    exists p :: 0 <= p < q && keep[p] && rel[order[p]][order[q]])
  {
    if Keeps(rel, order, keep) {
      forall p, q | 0 <= p < q < |keep| && keep[p] && keep[q] ensures !rel[order[p]][order[q]] {
        assert !HitBy(rel, order, keep, q, q);
      }
      forall q | 0 <= q < |keep| && !keep[q] ensures exists p :: 0 <= p < q && keep[p] && rel[order[p]][order[q]] {
        assert HitBy(rel, order, keep, q, q);
      }
    }
  }

  /** The promise leaves no choice: for an order and a relation there is only one way to keep it. */
  lemma {:induction false} KeepsUnique(rel: Relation, order: seq<nat>, a: seq<bool>, b: seq<bool>)
    requires Square(rel) && Indices(order, |rel|) && |a| == |b| == |order|
    requires Keeps(rel, order, a) && Keeps(rel, order, b)
    ensures a == b
  {
    var q := 0;
    while q < |a|
      invariant 0 <= q <= |a|
      invariant forall p :: 0 <= p < q ==> a[p] == b[p]
    {
      assert HitBy(rel, order, a, q, q) <==> HitBy(rel, order, b, q, q) by {
        if HitBy(rel, order, a, q, q) {
          var p :| 0 <= p < q && a[p] && rel[order[p]][order[q]];
          assert b[p];
        }
        if HitBy(rel, order, b, q, q) {
          var p :| 0 <= p < q && b[p] && rel[order[p]][order[q]];
          assert a[p];
        }
      }
      q := q + 1;
    }
  }

  /** The greedy choice among the first n of an order. */
  ghost function GreedyUpTo(rel: Relation, order: seq<nat>, n: nat): (keep: seq<bool>)
    requires Square(rel) && Indices(order, |rel|) && n <= |order|
    ensures |keep| == n && Keeps(rel, order, keep)
  {
    if n == 0 then []
    else
      var before := GreedyUpTo(rel, order, n - 1);
      GreedyStep(rel, order, before);
      before + [!HitBy(rel, order, before, n - 1, n - 1)]
  }

  lemma GreedyStep(rel: Relation, order: seq<nat>, keep: seq<bool>)
    requires Square(rel) && Indices(order, |rel|) && |keep| < |order| && Keeps(rel, order, keep)
    ensures Keeps(rel, order, keep + [!HitBy(rel, order, keep, |keep|, |keep|)])
  {
    var next := keep + [!HitBy(rel, order, keep, |keep|, |keep|)];
    forall q | 0 <= q < |next| ensures next[q] <==> !HitBy(rel, order, next, q, q) {
      assert next[..q] == keep[..q];
      SameHits(rel, order, keep, next, q);
    }
  }

  /** The detections that greedy suppression selects, in order. */
  ghost function Greedy(rel: Relation, order: seq<nat>): seq<nat>
    requires Square(rel) && Indices(order, |rel|)
  {
    Select(order, GreedyUpTo(rel, order, |order|))
  }

  lemma GreedyIs(rel: Relation, order: seq<nat>, keep: seq<bool>)
    requires Square(rel) && Indices(order, |rel|) && |keep| == |order| && Keeps(rel, order, keep)
    ensures Select(order, keep) == Greedy(rel, order)
  {
    KeepsUnique(rel, order, keep, GreedyUpTo(rel, order, |order|));
  }

  /** What is selected never overlaps pairwise, and each detection left out overlaps a selected one before it. */
  lemma GreedyMeans(rel: Relation, order: seq<nat>)
    requires Square(rel) && Indices(order, |rel|) && forall p, q :: 0 <= p < q < |order| ==> order[p] != order[q]
    ensures forall p, q :: 0 <= p < q < |order| && order[p] in Greedy(rel, order) && order[q] in Greedy(rel, order) ==>
              !rel[order[p]][order[q]]
    ensures forall q :: 0 <= q < |order| && order[q] !in Greedy(rel, order) ==>
              exists p :: 0 <= p < q && order[p] in Greedy(rel, order) && rel[order[p]][order[q]]
  {
    var keep := GreedyUpTo(rel, order, |order|);
    KeepsMeans(rel, order, keep);
    SelectMembers(order, keep);
    forall q | 0 <= q < |order| ensures order[q] in Greedy(rel, order) <==> keep[q] {
      if order[q] in Select(order, keep) {
        var p :| 0 <= p < |keep| && keep[p] && order[p] == order[q];
      }
    }
    hide Greedy, GreedyUpTo, Keeps;
  }

  /** The rotated variant drops whatever overlaps anything before it, kept or not. */
  ghost predicate KeepsStrictly(rel: Relation, order: seq<nat>, keep: seq<bool>)
    requires Square(rel) && Indices(order, |rel|)
  {
    |keep| == |order|
    && forall q :: 0 <= q < |keep| ==> (keep[q] ==> forall p :: 0 <= p < q ==> !rel[order[p]][order[q]])
  }

  /** So it keeps no more than the greedy ones. */
  lemma StrictKeepsFewer(rel: Relation, order: seq<nat>, strict: seq<bool>, keep: seq<bool>)
    requires Square(rel) && Indices(order, |rel|) && |keep| == |order|
    requires KeepsStrictly(rel, order, strict) && Keeps(rel, order, keep)
    ensures forall q :: 0 <= q < |keep| && strict[q] ==> keep[q]
  {
    forall q | 0 <= q < |keep| && strict[q] ensures keep[q] {
      assert !HitBy(rel, order, keep, q, q);
    }
  }

  // ----- the overlap relations of the two algorithms

  /** The two areas together. */
  function BothAreas(a: Box, b: Box): real { a.Area() + b.Area() }

  /** The area of the common part. */
  function Common(a: Box, b: Box): real { a.Intersect(b).Area() }

  /** inter / union > threshold, as floating point has it when the union is 0. */
  predicate Exceeds(inter: real, union: real, threshold: real) {
    if union == 0.0 then inter > 0.0 else inter / union > threshold
  }

  predicate OverlapsMore(a: Box, b: Box, threshold: real) {
    Exceeds(Common(a, b), BothAreas(a, b) - Common(a, b), threshold)
  }

  /** Round to the nearest whole number, halves to the even one. */
  function Round(x: real): int {
    var f := x.Floor;
    if x - f as real < 0.5 then f
    else if x - f as real > 0.5 then f + 1
    else if f % 2 == 0 then f else f + 1
  }

  /** inter / union >= threshold for a positive inter. */
  predicate Reaches(inter: real, union: real, threshold: real) {
    if union == 0.0 then true else inter / union >= threshold
  }

  /** IoU >= threshold with the common part rounded to whole numbers, as the face detector computes it. */
  predicate OverlapsAtLeast(a: Box, b: Box, threshold: real) {
    var c := a.Intersect(b);
    var w, h := Round(c.width), Round(c.height);
    if w <= 0 || h <= 0 then 0.0 >= threshold
    else
      var inter := (w * h) as real;
      Reaches(inter, BothAreas(a, b) - inter, threshold)
  }

  ghost function MoreRelation(objs: seq<Object>, threshold: real): (rel: Relation)
    ensures |rel| == |objs| && Square(rel)
  {
    seq(|objs|, i requires 0 <= i < |objs| =>
      seq(|objs|, j requires 0 <= j < |objs| => OverlapsMore(objs[i].rect, objs[j].rect, threshold)))
  }

  ghost function AtLeastRelation(objs: seq<Object>, threshold: real): (rel: Relation)
    ensures |rel| == |objs| && Square(rel)
  {
    seq(|objs|, i requires 0 <= i < |objs| =>
      seq(|objs|, j requires 0 <= j < |objs| => OverlapsAtLeast(objs[i].rect, objs[j].rect, threshold)))
  }

  lemma RelationsSymmetric(objs: seq<Object>, threshold: real)
    ensures Symmetric(MoreRelation(objs, threshold)) && Symmetric(AtLeastRelation(objs, threshold))
  {
    forall i, j | 0 <= i < |objs| && 0 <= j < |objs|
      ensures OverlapsMore(objs[i].rect, objs[j].rect, threshold) == OverlapsMore(objs[j].rect, objs[i].rect, threshold)
      ensures OverlapsAtLeast(objs[i].rect, objs[j].rect, threshold) == OverlapsAtLeast(objs[j].rect, objs[i].rect, threshold)
    {
      IntersectSymmetric(objs[i].rect, objs[j].rect);
    }
  }

  /** inter / union > t without the division. */
  predicate Above(inter: real, union: real, t: real) {
    if union == 0.0 then inter > 0.0 else if union > 0.0 then inter > t * union else inter < t * union
  }

  /** inter / union >= t without the division. */
  predicate AtOrAbove(inter: real, union: real, t: real) {
    union == 0.0 || if union > 0.0 then inter >= t * union else inter <= t * union
  }

  /** More than t of the area of two boxes is common to them. */
  ghost predicate Beyond(a: Box, b: Box, t: real) {
    exists c :: CommonPart(a, b, c) && Above(c.Area(), a.Area() + b.Area() - c.Area(), t)
  }

  /** n is the whole number nearest to x, the even one of two. */
  predicate Nearest(x: real, n: int) {
    && -0.5 <= x - n as real <= 0.5
    && (n % 2 != 0 ==> -0.5 < x - n as real < 0.5)
  }

  function WholeArea(w: int, h: int): real { w as real * h as real }

  /** The same with the sides of what is common rounded to whole numbers, and at least t. */
  ghost predicate BeyondRounded(a: Box, b: Box, t: real) {
    exists c, w, h :: CommonPart(a, b, c) && Nearest(c.width, w) && Nearest(c.height, h) && w > 0 && h > 0
      && AtOrAbove(WholeArea(w, h), a.Area() + b.Area() - WholeArea(w, h), t)
  }

  lemma RoundIsNearest(x: real, n: int)
    ensures Nearest(x, n) <==> n == Round(x)
  {
    var f := x.Floor;
    assert f as real <= x < f as real + 1.0;
    if Nearest(x, n) { assert f <= n <= f + 1; }
  }

  /** Whatever has the points of both boxes decides the first test. */
  lemma MoreMeans(a: Box, b: Box, t: real)
    ensures OverlapsMore(a, b, t) <==> Beyond(a, b, t)
  {
    var d := a.Intersect(b);
    hide CommonPart, Box.Intersect, Box.Area, Above, Exceeds;
    WithoutDivision(d.Area(), a.Area() + b.Area() - d.Area(), t);
    IntersectPoints(a, b);
    forall c | CommonPart(a, b, c) ensures c.Area() == d.Area() { CommonPartIs(a, b, c); }
  }

  /** And the second. */
  lemma AtLeastMeans(a: Box, b: Box, t: real)
    requires t > 0.0
    ensures OverlapsAtLeast(a, b, t) <==> BeyondRounded(a, b, t)
  {
    var d := a.Intersect(b);
    hide CommonPart, Box.Intersect, Box.Area, AtOrAbove, OverlapsAtLeast, WholeArea, Round, Nearest;
    AtLeastByArea(a, b, t);
    IntersectPoints(a, b);
    RoundIsNearest(d.width, Round(d.width));
    RoundIsNearest(d.height, Round(d.height));
    forall c, w, h | CommonPart(a, b, c) && Nearest(c.width, w) && Nearest(c.height, h) && w > 0 && h > 0
      ensures w == Round(d.width) && h == Round(d.height)
    {
      RoundIsNearest(c.width, w);
      RoundIsNearest(c.height, h);
      RoundedSides(a, b, c);
    }
  }

  /** A common part with sides that round to something is the intersection. */
  lemma RoundedSides(a: Box, b: Box, c: Box)
    requires CommonPart(a, b, c) && Round(c.width) > 0 && Round(c.height) > 0
    ensures c == a.Intersect(b)
  {
    CommonPartIs(a, b, c);
    hide Box.Intersect;
  }

  lemma AtLeastByArea(a: Box, b: Box, t: real)
    requires t > 0.0
    ensures var w, h := Round(a.Intersect(b).width), Round(a.Intersect(b).height);
            OverlapsAtLeast(a, b, t) <==> w > 0 && h > 0 && AtOrAbove(WholeArea(w, h), a.Area() + b.Area() - WholeArea(w, h), t)
  {
    var w, h := Round(a.Intersect(b).width), Round(a.Intersect(b).height);
    hide Round, Box.Intersect, Box.Area, Reaches, AtOrAbove;
    if w > 0 && h > 0 {
      ProductOfWholes(w, h);
      assert (w * h) as real == WholeArea(w, h);
      WithoutDivision(WholeArea(w, h), BothAreas(a, b) - WholeArea(w, h), t);
      assert OverlapsAtLeast(a, b, t) == Reaches(WholeArea(w, h), BothAreas(a, b) - WholeArea(w, h), t);
      assert BothAreas(a, b) == a.Area() + b.Area();
    }
  }

  /** Boxes without a common point never overlap too much. */
  lemma DisjointIsClear(a: Box, b: Box, t: real)
    requires Disjoint(a, b) && t > 0.0
    ensures !OverlapsMore(a, b, t) && !OverlapsAtLeast(a, b, t)
  {
    hide *;
    DisjointIntersection(a, b);
    NothingIsClear(a, b, t);
  }

  lemma DisjointIntersection(a: Box, b: Box)
    requires Disjoint(a, b)
    ensures a.Intersect(b) == Box(0.0, 0.0, 0.0, 0.0)
  {
    var d := a.Intersect(b);
    IntersectPoints(a, b);
    hide CommonPart, Disjoint;
    CommonPartIs(a, b, d);
  }

  lemma NothingIsClear(a: Box, b: Box, t: real)
    requires a.Intersect(b) == Box(0.0, 0.0, 0.0, 0.0) && t > 0.0
    ensures !OverlapsMore(a, b, t) && !OverlapsAtLeast(a, b, t)
  {
    AreaIs(a.Intersect(b));
    RoundIsNearest(0.0, 0);
    ExceedsNot(BothAreas(a, b), t);
    hide Round, Exceeds, Box.Intersect, Box.Area, BothAreas;
  }

  lemma ExceedsNot(union: real, t: real)
    requires t > 0.0
    ensures !Exceeds(0.0, union, t)
  {
    if union != 0.0 { QuotientTimes(0.0, union); }
  }

  /** What overlaps nothing before it is always selected. */
  lemma ClearIsSelected(rel: Relation, order: seq<nat>, q: nat)
    requires Square(rel) && Indices(order, |rel|) && forall p, q :: 0 <= p < q < |order| ==> order[p] != order[q]
    requires q < |order| && forall p :: 0 <= p < q ==> !rel[order[p]][order[q]]
    ensures order[q] in Greedy(rel, order)
  {
    GreedyMeans(rel, order);
    hide Greedy;
  }

  ghost function Identity(n: nat): (order: seq<nat>)
    ensures |order| == n && forall i :: 0 <= i < n ==> order[i] == i
  {
    seq(n, i => i)
  }

  /** Whatever has no point in common with any detection before it in the order is selected. */
  ghost predicate ClearSelected(objs: seq<Object>, order: seq<nat>, picked: seq<nat>)
    requires Indices(order, |objs|)
  {
    forall q :: 0 <= q < |order| && (forall p :: 0 <= p < q ==> Disjoint(objs[order[p]].rect, objs[order[q]].rect)) ==>
      order[q] in picked
  }

  /** Of the selected no two have more than t of their area in common, and each other one has so with a selected one before it. */
  ghost predicate SelectedByArea(objs: seq<Object>, t: real, picked: seq<nat>) {
    && (forall i, j :: 0 <= i < j < |objs| && i in picked && j in picked ==> !Beyond(objs[i].rect, objs[j].rect, t))
    && (forall j :: 0 <= j < |objs| && j !in picked ==>
          exists i :: 0 <= i < j && i in picked && Beyond(objs[i].rect, objs[j].rect, t))
  }

  ghost predicate SelectedByRounded(objs: seq<Object>, t: real, order: seq<nat>, picked: seq<nat>)
    requires Indices(order, |objs|)
  {
    && (forall p, q :: 0 <= p < q < |order| && order[p] in picked && order[q] in picked ==>
          !BeyondRounded(objs[order[p]].rect, objs[order[q]].rect, t))
    && (forall q :: 0 <= q < |order| && order[q] !in picked ==>
          exists p :: 0 <= p < q && order[p] in picked && BeyondRounded(objs[order[p]].rect, objs[order[q]].rect, t))
  }

  lemma MoreSelects(objs: seq<Object>, t: real)
    ensures var picked := Greedy(MoreRelation(objs, t), Identity(|objs|));
            && (t > 0.0 ==> ClearSelected(objs, Identity(|objs|), picked))
            && SelectedByArea(objs, t, picked)
  {
    var rel, order := MoreRelation(objs, t), Identity(|objs|);
    forall i, j | 0 <= i < |objs| && 0 <= j < |objs| ensures rel[i][j] <==> Beyond(objs[i].rect, objs[j].rect, t) {
      MoreMeans(objs[i].rect, objs[j].rect, t);
    }
    if t > 0.0 {
      forall i, j | 0 <= i < |objs| && 0 <= j < |objs| && Disjoint(objs[i].rect, objs[j].rect) ensures !rel[i][j] {
        DisjointIsClear(objs[i].rect, objs[j].rect, t);
      }
    }
    hide *;
    SelectsBy(objs, t, rel);
    if t > 0.0 { ClearOnes(objs, rel, order); }
  }

  lemma ClearOnes(objs: seq<Object>, rel: Relation, order: seq<nat>)
    requires Square(rel) && |rel| == |objs| && Indices(order, |rel|)
    requires forall p, q :: 0 <= p < q < |order| ==> order[p] != order[q]
    requires forall i, j :: 0 <= i < |objs| && 0 <= j < |objs| && Disjoint(objs[i].rect, objs[j].rect) ==> !rel[i][j]
    ensures ClearSelected(objs, order, Greedy(rel, order))
  {
    hide Greedy, Disjoint;
    forall q: nat | q < |order| && (forall p :: 0 <= p < q ==> Disjoint(objs[order[p]].rect, objs[order[q]].rect))
      ensures order[q] in Greedy(rel, order)
    {
      ClearIsSelected(rel, order, q);
    }
  }

  lemma SelectsBy(objs: seq<Object>, t: real, rel: Relation)
    requires Square(rel) && |rel| == |objs|
    requires forall i, j :: 0 <= i < |objs| && 0 <= j < |objs| ==> (rel[i][j] <==> Beyond(objs[i].rect, objs[j].rect, t))
    ensures SelectedByArea(objs, t, Greedy(rel, Identity(|objs|)))
  {
    hide Greedy, Beyond;
    var order := Identity(|objs|);
    var picked := Greedy(rel, order);
    GreedyMeans(rel, order);
    forall i, j | 0 <= i < j < |objs| && i in picked && j in picked ensures !Beyond(objs[i].rect, objs[j].rect, t) {
      assert order[i] == i && order[j] == j && !rel[order[i]][order[j]];
    }
    forall j | 0 <= j < |objs| && j !in picked
      ensures exists i :: 0 <= i < j && i in picked && Beyond(objs[i].rect, objs[j].rect, t)
    {
      assert order[j] !in picked;
      var i :| 0 <= i < j && order[i] in picked && rel[order[i]][order[j]];
      assert i in picked;
    }
  }

  lemma AtLeastSelects(objs: seq<Object>, t: real, order: seq<nat>)
    requires ByProbability(objs, order)
    ensures var picked := Greedy(AtLeastRelation(objs, t), order);
            t > 0.0 ==> ClearSelected(objs, order, picked) && SelectedByRounded(objs, t, order, picked)
  {
    var rel := AtLeastRelation(objs, t);
    if t > 0.0 {
      forall i, j | 0 <= i < |objs| && 0 <= j < |objs|
        ensures rel[i][j] <==> BeyondRounded(objs[i].rect, objs[j].rect, t)
        ensures Disjoint(objs[i].rect, objs[j].rect) ==> !rel[i][j]
      {
        AtLeastMeans(objs[i].rect, objs[j].rect, t);
        if Disjoint(objs[i].rect, objs[j].rect) { DisjointIsClear(objs[i].rect, objs[j].rect, t); }
      }
      hide OverlapsAtLeast, Greedy, BeyondRounded, Disjoint;
      GreedyMeans(rel, order);
      ClearOnes(objs, rel, order);
    }
  }

  method Areas(objs: seq<Object>) returns (areas: seq<real>)
    ensures |areas| == |objs| && forall k :: 0 <= k < |objs| ==> areas[k] == objs[k].rect.Area()
  {
    areas := [];
    for i := 0 to |objs|
      invariant |areas| == i && forall k :: 0 <= k < i ==> areas[k] == objs[k].rect.Area()
    {
      areas := areas + [objs[i].rect.Area()];
    }
  }

  /** Check each detection against those kept before it. */
  method NmsSortedBboxes(objs: seq<Object>, threshold: real) returns (picked: seq<nat>)
    ensures picked == Greedy(MoreRelation(objs, threshold), Identity(|objs|))
    ensures threshold > 0.0 ==> ClearSelected(objs, Identity(|objs|), picked)
    ensures SelectedByArea(objs, threshold, picked)
  {
    ghost var rel, order := MoreRelation(objs, threshold), Identity(|objs|);
    RelationsSymmetric(objs, threshold);
    var areas := Areas(objs);
    picked := [];
    ghost var keep: seq<bool> := [];
    assert Keeps(rel, order, keep) && picked == Select(order, keep);
    hide Keeps, Select, Greedy, MoreRelation, OverlapsMore, Box.Area, Symmetric;
    for i := 0 to |objs|
      invariant |keep| == i && Keeps(rel, order, keep) && picked == Select(order, keep) && Indices(picked, |objs|)
    {
      var kept := ComparePicked(objs, areas, picked, i, threshold);
      NextKept(rel, order, keep, picked, i, kept);
      if kept {
        picked := picked + [i];
      }
      keep := keep + [kept];
    }
    GreedyIs(rel, order, keep);
    MoreSelects(objs, threshold);
  }

  /** Does detection i overlap none of the picked ones? */
  method ComparePicked(objs: seq<Object>, areas: seq<real>, picked: seq<nat>, i: nat, threshold: real) returns (kept: bool)
    requires i < |objs| == |areas| && Indices(picked, |objs|)
    requires forall k :: 0 <= k < |areas| ==> areas[k] == objs[k].rect.Area()
    ensures kept <==> forall q :: 0 <= q < |picked| ==> !MoreRelation(objs, threshold)[i][picked[q]]
  {
    kept := true;
    for j := 0 to |picked|
      invariant kept <==> forall q :: 0 <= q < j ==> !MoreRelation(objs, threshold)[i][picked[q]]
    {
      var interArea := objs[i].rect.Intersect(objs[picked[j]].rect).Area();
      var unionArea := areas[i] + areas[picked[j]] - interArea;
      if (if unionArea == 0.0 then interArea > 0.0 else interArea / unionArea > threshold) {
        kept := false;
      }
    }
  }

  /** The selected detections are those kept. */
  lemma {:induction false} SelectMembers(order: seq<nat>, keep: seq<bool>)
    requires |keep| <= |order|
    ensures forall x :: x in Select(order, keep) <==> exists p :: 0 <= p < |keep| && keep[p] && order[p] == x
  {
    if keep != [] {
      var n := |keep| - 1;
      SelectMembers(order, keep[..n]);
      forall x ensures x in Select(order, keep) <==> exists p :: 0 <= p < |keep| && keep[p] && order[p] == x {
        if p :| 0 <= p < |keep| && keep[p] && order[p] == x {
          if p < n { assert keep[..n][p]; }
        }
        if x in Select(order, keep[..n]) {
          var p :| 0 <= p < n && keep[..n][p] && order[p] == x;
          assert keep[p];
        }
      }
    }
  }

  lemma NextKept(rel: Relation, order: seq<nat>, keep: seq<bool>, picked: seq<nat>, i: nat, kept: bool)
    requires Symmetric(rel) && Indices(order, |rel|) && |keep| == i < |order| && Keeps(rel, order, keep)
    requires picked == Select(order, keep) && Indices(picked, |rel|)
    requires kept <==> forall q :: 0 <= q < |picked| ==> !rel[order[i]][picked[q]]
    ensures Keeps(rel, order, keep + [kept])
    ensures Select(order, keep + [kept]) == picked + (if kept then [order[i]] else [])
  {
    var next := keep + [kept];
    SelectMembers(order, keep);
    assert next[..i] == keep;
    forall q | 0 <= q <= i ensures next[q] <==> !HitBy(rel, order, next, q, q) {
      if q < i {
        assert HitBy(rel, order, next, q, q) <==> HitBy(rel, order, keep, q, q) by { SameHits(rel, order, keep, next, q); }
      } else {
        if HitBy(rel, order, next, i, i) {
          var p :| 0 <= p < i && next[p] && rel[order[p]][order[i]];
          assert keep[p] && order[p] in picked;
        }
        if !kept {
          var q' :| 0 <= q' < |picked| && rel[order[i]][picked[q']];
          assert picked[q'] in picked;
          var p :| 0 <= p < |keep| && keep[p] && order[p] == picked[q'];
          assert next[p] && rel[order[p]][order[i]];
        }
      }
    }
  }

  lemma SameHits(rel: Relation, order: seq<nat>, a: seq<bool>, b: seq<bool>, q: nat)
    requires Square(rel) && Indices(order, |rel|) && q <= |a| <= |b| <= |order| && q < |order| && a[..q] == b[..q]
    ensures HitBy(rel, order, a, q, q) <==> HitBy(rel, order, b, q, q)
  {
    assert forall p :: 0 <= p < q ==> a[p] == a[..q][p] && b[p] == b[..q][p];
  }

  /** An order in which std::sort may leave the detections: every one once, probabilities descending. */
  ghost predicate ByProbability(dets: seq<Object>, order: seq<nat>) {
    && |order| == |dets| && Indices(order, |dets|)
    && (forall i, j :: 0 <= i < j < |order| ==> order[i] != order[j])
    && (forall i, j :: 0 <= i < j < |order| ==> dets[order[i]].prob >= dets[order[j]].prob)
  }

  /** What is suppressed once the first `limit` detections of the order have been gone through. */
  ghost predicate Marked(rel: Relation, order: seq<nat>, keep: seq<bool>, limit: nat, suppressed: seq<bool>)
    requires Square(rel) && Indices(order, |rel|) && limit <= |keep| <= |order|
  {
    && |suppressed| == |rel|
    && forall q :: 0 <= q < |order| ==> (suppressed[order[q]] <==> HitBy(rel, order, keep, limit, q))
  }

  /** Go through the detections in the order, each kept one suppressing later ones. */
  method Nms(dets: seq<Object>, thresh: real, order: seq<nat>) returns (kept: seq<nat>)
    requires ByProbability(dets, order)
    ensures kept == Greedy(AtLeastRelation(dets, thresh), order)
    ensures thresh > 0.0 ==> ClearSelected(dets, order, kept) && SelectedByRounded(dets, thresh, order, kept)
  {
    ghost var rel := AtLeastRelation(dets, thresh);
    var suppressed := new bool[|dets|](_ => false);
    kept := [];
    ghost var keep: seq<bool> := [];
    for i := 0 to |order|
      invariant |keep| == i && Keeps(rel, order, keep) && kept == Select(order, keep)
      invariant Marked(rel, order, keep, i, suppressed[..])
    {
      hide AtLeastRelation, OverlapsAtLeast;
      var x := order[i];
      ghost var k := !suppressed[x];
      NextMarked(rel, order, keep, i, suppressed[..]);
      if !suppressed[x] {
        kept := kept + [x];
        MarkForward(dets, thresh, order, i, suppressed, keep);
      }
      keep := keep + [k];
    }
    GreedyIs(rel, order, keep);
    hide *;
    AtLeastSelects(dets, thresh, order);
  }

  /** The next detection is kept exactly when it is not marked. */
  lemma NextMarked(rel: Relation, order: seq<nat>, keep: seq<bool>, i: nat, suppressed: seq<bool>)
    requires Square(rel) && Indices(order, |rel|) && |keep| == i < |order| && Keeps(rel, order, keep)
    requires Marked(rel, order, keep, i, suppressed)
    ensures Keeps(rel, order, keep + [!suppressed[order[i]]])
    ensures Select(order, keep + [!suppressed[order[i]]])
         == Select(order, keep) + (if suppressed[order[i]] then [] else [order[i]])
    ensures suppressed[order[i]] ==> Marked(rel, order, keep + [false], i + 1, suppressed)
  {
    var next := keep + [!suppressed[order[i]]];
    assert next[..i] == keep;
    forall q | 0 <= q <= i ensures next[q] <==> !HitBy(rel, order, next, q, q) {
      SameHits(rel, order, keep, next, q);
    }
    if suppressed[order[i]] {
      forall q | 0 <= q < |order| ensures HitBy(rel, order, next, i + 1, q) <==> HitBy(rel, order, keep, i, q) {
        if p :| 0 <= p < i && p < q && keep[p] && rel[order[p]][order[q]] { assert next[p]; }
        if p :| 0 <= p < i + 1 && p < q && next[p] && rel[order[p]][order[q]] { assert keep[p]; }
      }
    }
  }

  /** A kept detection marks the later ones it overlaps. */
  method MarkForward(dets: seq<Object>, thresh: real, order: seq<nat>, i: nat, suppressed: array<bool>, ghost keep: seq<bool>)
    requires ByProbability(dets, order) && suppressed.Length == |dets| && |keep| == i < |order|
    requires Marked(AtLeastRelation(dets, thresh), order, keep, i, suppressed[..])
    modifies suppressed
    ensures Marked(AtLeastRelation(dets, thresh), order, keep + [true], i + 1, suppressed[..])
  {
    ghost var rel := AtLeastRelation(dets, thresh);
    for j := i + 1 to |order|
      invariant forall q :: 0 <= q < |order| ==>
                  suppressed[order[q]] == (old(suppressed[order[q]]) || (i < q < j && rel[order[i]][order[q]]))
    {
      hide OverlapsAtLeast;
      if !suppressed[order[j]] {
        if OverlapsAtLeast(dets[order[i]].rect, dets[order[j]].rect, thresh) {
          suppressed[order[j]] := true;
        }
      }
    }
    hide *;
    MarkedForward(rel, order, keep, i, old(suppressed[..]), suppressed[..]);
  }

  lemma MarkedForward(rel: Relation, order: seq<nat>, keep: seq<bool>, i: nat, before: seq<bool>, after: seq<bool>)
    requires Square(rel) && Indices(order, |rel|) && |keep| == i < |order| && |after| == |rel|
    requires Marked(rel, order, keep, i, before)
    requires forall q :: 0 <= q < |order| ==>
               after[order[q]] == (before[order[q]] || (i < q && rel[order[i]][order[q]]))
    ensures Marked(rel, order, keep + [true], i + 1, after)
  {
    var next := keep + [true];
    forall q | 0 <= q < |order| ensures after[order[q]] <==> HitBy(rel, order, next, i + 1, q) {
      assert before[order[q]] <==> HitBy(rel, order, keep, i, q);
      if p :| 0 <= p < i && p < q && keep[p] && rel[order[p]][order[q]] { assert next[p]; }
      if i < q && rel[order[i]][order[q]] { assert next[i]; }
      if p :| 0 <= p < i + 1 && p < q && next[p] && rel[order[p]][order[q]] {
        if p < i { assert keep[p]; }
      }
    }
  }

  /** Which detections stay below t against all earlier ones; 0 stands for having none. */
  ghost function BelowAll(iou: seq<seq<real>>, t: real): (keep: seq<bool>)
    requires forall i :: 0 <= i < |iou| ==> |iou[i]| == |iou|
    ensures |keep| == |iou|
    ensures forall i :: 0 <= i < |iou| ==> (keep[i] <==> 0.0 < t && forall j :: 0 <= j < i ==> iou[i][j] < t)
  {
    seq(|iou|, i requires 0 <= i < |iou| => 0.0 < t && forall j :: 0 <= j < i ==> iou[i][j] < t)
  }

  /** The rotated variant: iou[i][j] is what probiou gives for detections i and j. */
  method NmsRotatedSortedBboxes(iou: seq<seq<real>>, nmsThreshold: real) returns (picked: seq<nat>)
    requires forall i :: 0 <= i < |iou| ==> |iou[i]| == |iou|
    ensures picked == Select(Identity(|iou|), BelowAll(iou, (1.0 - nmsThreshold) * (1.0 - nmsThreshold)))
  {
    var t := (1.0 - nmsThreshold) * (1.0 - nmsThreshold);
    ghost var order := Identity(|iou|);
    picked := [];
    for i := 0 to |iou|
      invariant picked == Select(order, BelowAll(iou, t)[..i])
    {
      var maxIou := 0.0;
      for j := 0 to i
        invariant maxIou < t <==> 0.0 < t && forall k :: 0 <= k < j ==> iou[i][k] < t
      {
        if iou[i][j] > maxIou {
          maxIou := iou[i][j];
        }
      }
      assert BelowAll(iou, t)[..i + 1][..i] == BelowAll(iou, t)[..i];
      if maxIou < t {
        picked := picked + [i];
      }
    }
    assert BelowAll(iou, t)[..|iou|] == BelowAll(iou, t);
  }

  /** Detections whose rotated overlap reaches the threshold. */
  ghost function ReachesRelation(iou: seq<seq<real>>, t: real): (rel: Relation)
    requires forall i :: 0 <= i < |iou| ==> |iou[i]| == |iou|
    ensures |rel| == |iou| && Square(rel)
    ensures forall i, j :: 0 <= i < |iou| && 0 <= j < |iou| ==> rel[i][j] == (iou[j][i] >= t)
  {
    seq(|iou|, i requires 0 <= i < |iou| => seq(|iou|, j requires 0 <= j < |iou| => iou[j][i] >= t))
  }

  /** Whatever the rotated variant picks, greedy suppression by the same overlaps picks. */
  lemma RotatedPicksFewer(iou: seq<seq<real>>, t: real)
    requires forall i :: 0 <= i < |iou| ==> |iou[i]| == |iou|
    ensures forall x :: x in Select(Identity(|iou|), BelowAll(iou, t)) ==> x in Greedy(ReachesRelation(iou, t), Identity(|iou|))
  {
    var rel, order := ReachesRelation(iou, t), Identity(|iou|);
    var rotated, keep := BelowAll(iou, t), GreedyUpTo(rel, order, |iou|);
    StrictKeepsFewer(rel, order, rotated, keep);
    SelectMembers(order, rotated);
    SelectMembers(order, keep);
  }

  // ----- when the two greedy algorithms agree

  /** Comparing a quotient without dividing. */
  lemma QuotientCompares(x: real, y: real, t: real)
    requires y != 0.0
    ensures y > 0.0 ==> (x / y > t <==> x > t * y) && (x / y >= t <==> x >= t * y)
    ensures y < 0.0 ==> (x / y > t <==> x < t * y) && (x / y >= t <==> x <= t * y)
  {
    var q := x / y;
    assert q * y == x;
    TimesOrder(q, t, y);
  }

  lemma TimesOrder(q: real, t: real, y: real)
    ensures y > 0.0 ==> (q > t <==> q * y > t * y) && (q >= t <==> q * y >= t * y)
    ensures y < 0.0 ==> (q > t <==> q * y < t * y) && (q >= t <==> q * y <= t * y)
  {
    assert (q - t) * y == q * y - t * y;
    if q > t && y != 0.0 {
      SignOfProduct(q - t, y);
    } else if q < t && y != 0.0 {
      assert (t - q) * y == t * y - q * y;
      SignOfProduct(t - q, y);
    }
  }

  lemma SignOfProduct(x: real, y: real)
    requires x > 0.0
    ensures y > 0.0 ==> x * y > 0.0
    ensures y < 0.0 ==> x * y < 0.0
  {
  }

  /** The area of the common part rounded to whole numbers; 0 when a side rounds to nothing. */
  function RoundedCommon(a: Box, b: Box): (r: real)
    ensures r >= 0.0
  {
    var w, h := Round(a.Intersect(b).width), Round(a.Intersect(b).height);
    if w <= 0 || h <= 0 then 0.0
    else
      ProductOfWholes(w, h);
      (w * h) as real
  }

  lemma ProductOfWholes(w: int, h: int)
    requires w > 0 && h > 0
    ensures (w * h) as real == w as real * h as real > 0.0
  {
  }

  lemma PositiveArea(a: Box)
    requires Positive(a)
    ensures a.Area() > 0.0
  {
    SignOfProduct(a.width, a.height);
  }

  lemma CommonBounds(a: Box, b: Box)
    ensures 0.0 <= Common(a, b)
    ensures Common(a, b) == 0.0 || 0.0 < 2.0 * Common(a, b) <= BothAreas(a, b)
    ensures Positive(a) && Positive(b) ==> 0.0 < BothAreas(a, b) && Common(a, b) < BothAreas(a, b)
  {
    IntersectionWithin(a, b);
    if Positive(a) && Positive(b) {
      PositiveArea(a);
      PositiveArea(b);
    }
    hide Box.Area, Box.Intersect, Positive;
  }

  lemma WithoutDivision(inter: real, union: real, t: real)
    ensures Exceeds(inter, union, t) == Above(inter, union, t)
    ensures Reaches(inter, union, t) == AtOrAbove(inter, union, t)
  {
    if union != 0.0 { QuotientCompares(inter, union, t); }
  }

  /** Both tests in terms of the areas, for all boxes and thresholds. */
  lemma TestsByArea(a: Box, b: Box, t: real)
    ensures var all, inter, round := BothAreas(a, b), Common(a, b), RoundedCommon(a, b);
            && OverlapsMore(a, b, t) == Above(inter, all - inter, t)
            && OverlapsAtLeast(a, b, t) == if round == 0.0 then 0.0 >= t else AtOrAbove(round, all - round, t)
  {
    var w, h := Round(a.Intersect(b).width), Round(a.Intersect(b).height);
    if w > 0 && h > 0 { ProductOfWholes(w, h); }
    hide Exceeds, Reaches, Above, AtOrAbove, BothAreas, Common, Round, Box.Intersect;
    WithoutDivision(Common(a, b), BothAreas(a, b) - Common(a, b), t);
    WithoutDivision(RoundedCommon(a, b), BothAreas(a, b) - RoundedCommon(a, b), t);
  }

  /** The areas on which the tests agree: the exact common part lies beyond the threshold's cut of all area if the rounded one does. */
  predicate CutsAgree(a: Box, b: Box, t: real) {
    var all, inter, round := BothAreas(a, b), Common(a, b), RoundedCommon(a, b);
    && (inter * (1.0 + t) > t * all ==> round <= all && round * (1.0 + t) >= t * all)
    && (inter * (1.0 + t) <= t * all ==> round > all || round * (1.0 + t) < t * all)
  }

  /** For boxes with an extent the tests agree exactly when the rounded common part falls on the side of the cut where the exact one does. */
  lemma TestsAgreeExactly(a: Box, b: Box, t: real)
    requires t > 0.0 && Positive(a) && Positive(b)
    ensures OverlapsMore(a, b, t) == OverlapsAtLeast(a, b, t) <==> CutsAgree(a, b, t)
  {
    CommonBounds(a, b);
    TestsByArea(a, b, t);
    hide OverlapsMore, OverlapsAtLeast, Above, AtOrAbove, BothAreas, Common, RoundedCommon, Positive;
    AboveCut(BothAreas(a, b), Common(a, b), t);
    AtOrAboveCut(BothAreas(a, b), RoundedCommon(a, b), t);
  }

  lemma AboveCut(all: real, inter: real, t: real)
    requires inter < all
    ensures Above(inter, all - inter, t) <==> inter * (1.0 + t) > t * all
  {
    assert t * (all - inter) == t * all - t * inter && inter * (1.0 + t) == inter + t * inter;
  }

  lemma AtOrAboveCut(all: real, round: real, t: real)
    requires 0.0 < all && 0.0 <= round
    ensures t > 0.0 ==>
              ((if round == 0.0 then 0.0 >= t else AtOrAbove(round, all - round, t))
               <==> round <= all && round * (1.0 + t) >= t * all)
    ensures t <= 0.0 ==>
              ((if round == 0.0 then 0.0 >= t else AtOrAbove(round, all - round, t))
               <==> round <= all || round * (1.0 + t) <= t * all)
  {
    assert t * (all - round) == t * all - t * round && round * (1.0 + t) == round + t * round;
    if t > 0.0 {
      SignOfProduct(t, all);
      SignOfProduct(t, all - round);
    } else if t < 0.0 {
      SignOfProduct(-t, all - round);
    }
  }

  /** At a threshold of 0 or less the first test holds for any overlap, below 0 for any pair; the second unless rounding exceeds all area. */
  lemma TestsBelowZero(a: Box, b: Box, t: real)
    requires t <= 0.0 && Positive(a) && Positive(b)
    ensures OverlapsMore(a, b, t) <==> t < 0.0 || Common(a, b) > 0.0
    ensures OverlapsAtLeast(a, b, t) <==>
              var all, round := BothAreas(a, b), RoundedCommon(a, b);
              round <= all || round * (1.0 + t) <= t * all
  {
    CommonBounds(a, b);
    TestsByArea(a, b, t);
    hide OverlapsMore, OverlapsAtLeast, AtOrAbove, BothAreas, Common, RoundedCommon, Positive;
    AtOrAboveCut(BothAreas(a, b), RoundedCommon(a, b), t);
    if t < 0.0 { SignOfProduct(-t, BothAreas(a, b) - Common(a, b)); }
  }

  /** The common part of the boxes has whole extents. */
  predicate WholeOverlap(a: Box, b: Box) {
    Round(a.Intersect(b).width) as real == a.Intersect(b).width && Round(a.Intersect(b).height) as real == a.Intersect(b).height
  }

  /** Is inter / union exactly t? */
  predicate AtThreshold(inter: real, union: real, t: real) { union != 0.0 && inter / union == t }

  /** Where the common part has whole extents the tests agree exactly when the overlap is not the threshold itself. */
  lemma TestsAgree(a: Box, b: Box, t: real)
    requires t > 0.0 && WholeOverlap(a, b)
    ensures OverlapsMore(a, b, t) == OverlapsAtLeast(a, b, t)
       <==> !AtThreshold(Common(a, b), BothAreas(a, b) - Common(a, b), t)
  {
    hide *;
    CommonBounds(a, b);
    TestsByArea(a, b, t);
    WholeIsRounded(a, b);
    NotAtThreshold(BothAreas(a, b), Common(a, b), t);
  }

  lemma NotAtThreshold(all: real, inter: real, t: real)
    requires t > 0.0 && 0.0 <= inter && (inter == 0.0 || 2.0 * inter <= all)
    ensures Above(inter, all - inter, t) == (if inter == 0.0 then 0.0 >= t else AtOrAbove(inter, all - inter, t))
       <==> !AtThreshold(inter, all - inter, t)
  {
    if inter != all {
      QuotientCompares(inter, all - inter, t);
      SignOfProduct(t, all - inter);
    }
  }

  lemma WholeIsRounded(a: Box, b: Box)
    requires WholeOverlap(a, b)
    ensures RoundedCommon(a, b) == Common(a, b)
  {
    var w, h := Round(a.Intersect(b).width), Round(a.Intersect(b).height);
    if w > 0 && h > 0 {
      ProductOfWholes(w, h);
    } else {
      assert a.Intersect(b).width == 0.0 && a.Intersect(b).height == 0.0;
    }
  }

  lemma RoundsToOne()
    ensures Round(0.6) == 1 && Round(1.0) == 1
  {
    assert 0.6.Floor == 0;
    assert 1.0.Floor == 1;
  }

  /** A box common to both has its extents. */
  lemma CommonBox(a: Box, b: Box)
    requires a.x == b.x && a.y == b.y && 0.0 < b.width <= a.width && 0.0 < b.height <= a.height
    ensures a.Intersect(b) == b
  {
    hide Box.Area;
  }

  /** Rounding can hide that two boxes are the same: one test drops the second, the other keeps it. */
  lemma RoundingKeepsDuplicates()
    ensures var b := Box(0.0, 0.0, 0.6, 0.6);
            OverlapsMore(b, b, 0.5) && !OverlapsAtLeast(b, b, 0.5)
  {
    var b := Box(0.0, 0.0, 0.6, 0.6);
    assert b.Area() == 0.36;
    hide *;
    CommonBox(b, b);
    RoundsToOne();
    TestsOf(b, b, 0.72, 0.36);
  }

  /** At the threshold itself the tests differ: half of a box against the box. */
  lemma ThresholdDiffers()
    ensures var a, b := Box(0.0, 0.0, 2.0, 1.0), Box(0.0, 0.0, 1.0, 1.0);
            !OverlapsMore(a, b, 0.5) && OverlapsAtLeast(a, b, 0.5)
  {
    var a, b := Box(0.0, 0.0, 2.0, 1.0), Box(0.0, 0.0, 1.0, 1.0);
    assert a.Area() == 2.0 && b.Area() == 1.0;
    hide *;
    CommonBox(a, b);
    RoundsToOne();
    TestsOf(a, b, 3.0, 1.0);
  }

  /** The tests at one half for boxes whose common part rounds to one pixel. */
  lemma TestsOf(a: Box, b: Box, all: real, inter: real)
    requires a.Area() + b.Area() == all && a.Intersect(b).Area() == inter < all
    requires Round(a.Intersect(b).width) == 1 && Round(a.Intersect(b).height) == 1
    ensures OverlapsMore(a, b, 0.5) <==> 3.0 * inter > all
    ensures all != 1.0 ==> (OverlapsAtLeast(a, b, 0.5) <==> 1.0 < all <= 3.0)
  {
    assert BothAreas(a, b) == all && Common(a, b) == inter && RoundedCommon(a, b) == 1.0;
    TestsByArea(a, b, 0.5);
    hide OverlapsMore, OverlapsAtLeast, BothAreas, Common, RoundedCommon, Round, Box.Area, Box.Intersect;
  }

  /** Strictly descending detections are sorted only one way. */
  lemma StrictlySortedOrder(dets: seq<Object>, order: seq<nat>)
    requires ByProbability(dets, order)
    requires forall i, j :: 0 <= i < j < |dets| ==> dets[i].prob > dets[j].prob
    ensures order == Identity(|dets|)
  {
    forall i, j | 0 <= i < j < |order| ensures order[i] < order[j] {
      assert dets[order[i]].prob >= dets[order[j]].prob && order[i] != order[j];
    }
    AscendingIsIdentity(order);
  }

  lemma AscendingIsIdentity(order: seq<nat>)
    requires Indices(order, |order|) && forall i, j :: 0 <= i < j < |order| ==> order[i] < order[j]
    ensures order == Identity(|order|)
  {
    var i := 0;
    while i < |order|
      invariant 0 <= i <= |order| && forall k :: 0 <= k < i ==> order[k] >= k
    {
      if i > 0 { assert order[i - 1] < order[i]; }
      i := i + 1;
    }
    i := |order|;
    while i > 0
      invariant 0 <= i <= |order| && forall k :: i <= k < |order| ==> order[k] <= k
    {
      if i < |order| { assert order[i - 1] < order[i]; }
      i := i - 1;
    }
  }

  /** Greedy suppression looks at pairs of different detections only, the earlier one first. */
  lemma GreedySame(rel: Relation, other: Relation, order: seq<nat>)
    requires Square(rel) && Square(other) && |rel| == |other| && Indices(order, |rel|)
    requires forall p, q :: 0 <= p < q < |order| ==> rel[order[p]][order[q]] == other[order[p]][order[q]]
    ensures Greedy(rel, order) == Greedy(other, order)
  {
    var keep := GreedyUpTo(rel, order, |order|);
    forall q | 0 <= q < |keep| ensures keep[q] <==> !HitBy(other, order, keep, q, q) {
      assert HitBy(rel, order, keep, q, q) <==> HitBy(other, order, keep, q, q);
    }
    GreedyIs(other, order, keep);
  }

  /** Where every two detections fall on the same side of the cut, the two algorithms return the same detections in the same order. */
  lemma AlgorithmsAgree(dets: seq<Object>, t: real, order: seq<nat>)
    requires t > 0.0 && ByProbability(dets, order)
    requires forall i, j :: 0 <= i < j < |dets| ==> dets[i].prob > dets[j].prob
    requires forall i :: 0 <= i < |dets| ==> Positive(dets[i].rect)
    requires forall i, j :: 0 <= i < j < |dets| ==> CutsAgree(dets[i].rect, dets[j].rect, t)
    ensures Greedy(MoreRelation(dets, t), Identity(|dets|)) == Greedy(AtLeastRelation(dets, t), order)
  {
    StrictlySortedOrder(dets, order);
    hide OverlapsMore, OverlapsAtLeast, Greedy, CutsAgree;
    forall i, j | 0 <= i < j < |dets| ensures MoreRelation(dets, t)[i][j] == AtLeastRelation(dets, t)[i][j] {
      TestsAgreeExactly(dets[i].rect, dets[j].rect, t);
    }
    GreedySame(MoreRelation(dets, t), AtLeastRelation(dets, t), order);
  }

  /** And this is needed of every two: on the two alone the algorithms agree only then. */
  lemma PairAgrees(a: Object, b: Object, t: real)
    requires t > 0.0 && a.prob > b.prob && Positive(a.rect) && Positive(b.rect)
    ensures Greedy(MoreRelation([a, b], t), [0, 1]) == Greedy(AtLeastRelation([a, b], t), [0, 1])
       <==> CutsAgree(a.rect, b.rect, t)
  {
    TestsAgreeExactly(a.rect, b.rect, t);
    var more, least := MoreRelation([a, b], t), AtLeastRelation([a, b], t);
    assert more[0][1] == OverlapsMore(a.rect, b.rect, t) && least[0][1] == OverlapsAtLeast(a.rect, b.rect, t);
    hide OverlapsMore, OverlapsAtLeast, CutsAgree, MoreRelation, AtLeastRelation;
    GreedyOfTwo(more);
    GreedyOfTwo(least);
  }

  lemma GreedyOfTwo(rel: Relation)
    requires |rel| == 2 && Square(rel)
    ensures Greedy(rel, [0, 1]) == if rel[0][1] then [0] else [0, 1]
  {
    var keep := [true, !rel[0][1]];
    assert Keeps(rel, [0, 1], keep) by {
      assert !HitBy(rel, [0, 1], keep, 0, 0);
      assert HitBy(rel, [0, 1], keep, 1, 1) <==> rel[0][1] by {
        if rel[0][1] { assert keep[0] && rel[[0, 1][0]][[0, 1][1]]; }
      }
    }
    GreedyIs(rel, [0, 1], keep);
    assert keep[..1][..0] == [] && Select([0, 1], keep[..0]) == [] && keep[..1] == [true];
    assert Select([0, 1], keep[..1]) == [0];
  }

  /** Sort the proposals, then suppress: what the detectors do with them. */
  method SortAndSuppress(proposals: array<Object>, threshold: real) returns (picked: seq<nat>)
    modifies proposals
    ensures Descending(proposals[..]) && multiset(proposals[..]) == multiset(old(proposals[..]))
    ensures picked == Greedy(MoreRelation(proposals[..], threshold), Identity(proposals.Length))
    ensures threshold > 0.0 ==> ClearSelected(proposals[..], Identity(proposals.Length), picked)
    ensures SelectedByArea(proposals[..], threshold, picked)
  {
    QsortDescent(proposals);
    picked := NmsSortedBboxes(proposals[..], threshold);
  }
}
