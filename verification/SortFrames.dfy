/**
 What a frame of tmp/tracker_sort means for each track and each detection, in terms of points and
 counters: the fate of every track, and that a best assignment leaves no profitable exchange.
 */
module SortFrames {
  import opened Sums
  import opened Assignments
  import opened Boxes
  import opened SortTracks
  import opened SortTracker
  import Hungarian

  // ----- exchanging two pairs of an assignment

  /** What row r pays for column c; nothing for none. */
  ghost function Entry(m: seq<seq<real>>, r: nat, c: int): real
    requires Hungarian.Readable(m) && r < |m| && -1 <= c < |m[0]|
  {
    if c < 0 then 0.0 else m[r][c]
  }

  lemma {:induction false} PairCostUpdate(m: seq<seq<real>>, a: seq<int>, i: nat, x: int, k: nat)
    requires Hungarian.Readable(m) && i < |a| == |m| && k <= |m| && -1 <= x < |m[0]|
    requires forall r :: 0 <= r < |a| ==> -1 <= a[r] < |m[0]|
    ensures Hungarian.PairCost(m, a[i := x], k)
         == Hungarian.PairCost(m, a, k) + if i < k then Entry(m, i, x) - Entry(m, i, a[i]) else 0.0
  {
    if k > 0 { PairCostUpdate(m, a, i, x, k - 1); }
  }

  lemma {:induction false} AssignedUpdate(a: seq<int>, i: nat, x: int)
    requires i < |a|
    ensures Assigned(a[i := x]) == Assigned(a) + (if x >= 0 then 1 else 0) - (if a[i] >= 0 then 1 else 0)
    decreases |a|
  {
    var n := |a| - 1;
    if i == n {
      assert a[i := x][..n] == a[..n];
    } else {
      assert a[i := x][..n] == a[..n][i := x];
      AssignedUpdate(a[..n], i, x);
    }
  }

  /** The row that has column j, or -1. */
  ghost function RowOf(a: seq<int>, j: nat): (i: int)
    ensures if j in a then 0 <= i < |a| && a[i] == j else i == -1
  {
    if j !in a then -1
    else
      var i :| 0 <= i < |a| && a[i] == j;
      i
  }

  /** Row i takes column j; whoever had j gets what row i had. */
  ghost function Exchanged(a: seq<int>, i: nat, j: nat): seq<int>
    requires i < |a|
  {
    var o := RowOf(a, j);
    if o < 0 then a[i := j] else a[o := a[i]][i := j]
  }

  lemma ExchangeAssigns(n: nat, m: nat, a: seq<int>, i: nat, j: nat)
    requires IsAssignment(n, m, a) && i < n && j < m && a[i] != j
    ensures a[i] >= 0 || j in a
    ensures IsAssignment(n, m, Exchanged(a, i, j))
  {
    AssignmentCovers(n, m, a);
    var o := RowOf(a, j);
    if o >= 0 {
      AssignedUpdate(a, o, a[i]);
      AssignedUpdate(a[o := a[i]], i, j);
    } else {
      AssignedUpdate(a, i, j);
    }
  }

  /** A best assignment does not gain more than its tolerance by giving row i column j. */
  lemma NoBetterPair(boxes: seq<Box>, dets: seq<Detection>, a: seq<int>, i: nat, j: nat)
    requires BestAssignment(boxes, dets, a) && i < |boxes| && j < |dets| && a[i] != j
    ensures a[i] >= 0 || j in a
    ensures var m, o := CostMatrix(boxes, dets), RowOf(a, j);
            Entry(m, i, a[i]) + (if o < 0 then 0.0 else m[o][j])
            <= m[i][j] + (if o < 0 then 0.0 else Entry(m, o, a[i])) + Assignments.Min(|boxes|, |dets|) as real * DBL_EPSILON
  {
    var m, o, b := CostMatrix(boxes, dets), RowOf(a, j), Exchanged(a, i, j);
    ExchangeAssigns(|boxes|, |dets|, a, i, j);
    if o < 0 {
      PairCostUpdate(m, a, i, j, |m|);
    } else {
      PairCostUpdate(m, a, o, a[i], |m|);
      PairCostUpdate(m, a[o := a[i]], i, j, |m|);
    }
    assert Hungarian.PairCost(m, a, |m|)
        <= Hungarian.PairCost(m, b, |m|) + Assignments.Min(|boxes|, |dets|) as real * DBL_EPSILON;
    hide *;
  }

  // ----- tracks and where they are in the list after prediction

  predicate Visible(box: Box) { box.x >= 0.0 && box.y >= 0.0 }

  /** A visible track's place among the survivors. */
  lemma {:induction false} SurvivorAt(ts: seq<Track>, boxes: seq<Box>, k: nat) returns (p: nat)
    requires |boxes| == |ts| && k < |ts| && Visible(boxes[k])
    ensures p < |Survivors(ts, boxes)| == |OnScreenBoxes(boxes)|
    ensures Survivors(ts, boxes)[p] == Predicted(ts[k], boxes[k]) && OnScreenBoxes(boxes)[p] == boxes[k]
    decreases |ts|
  {
    var n := |ts| - 1;
    SurvivorsAligned(ts, boxes);
    SurvivorsAligned(ts[..n], boxes[..n]);
    if k == n {
      p := |Survivors(ts[..n], boxes[..n])|;
    } else {
      p := SurvivorAt(ts[..n], boxes[..n], k);
    }
    hide Predicted;
  }

  /** Every survivor is a visible track. */
  lemma {:induction false} SurvivorFrom(ts: seq<Track>, boxes: seq<Box>, p: nat) returns (k: nat)
    requires |boxes| == |ts| && p < |Survivors(ts, boxes)|
    ensures k < |ts| && Visible(boxes[k]) && Survivors(ts, boxes)[p] == Predicted(ts[k], boxes[k])
    ensures |OnScreenBoxes(boxes)| == |Survivors(ts, boxes)| && OnScreenBoxes(boxes)[p] == boxes[k]
    decreases |ts|
  {
    var n := |ts| - 1;
    SurvivorsAligned(ts, boxes);
    SurvivorsAligned(ts[..n], boxes[..n]);
    if p < |Survivors(ts[..n], boxes[..n])| {
      k := SurvivorFrom(ts[..n], boxes[..n], p);
    } else {
      k := n;
    }
    hide Predicted;
  }

  lemma NoSurvivor(ts: seq<Track>, boxes: seq<Box>, id: int, k: nat)
    requires |boxes| == |ts| && Kept(ts, id) && k < |ts| && !Visible(boxes[k])
    ensures !HasId(Survivors(ts, boxes), ts[k].trackId)
  {
    var s := Survivors(ts, boxes);
    forall p | 0 <= p < |s| ensures s[p].trackId != ts[k].trackId {
      var l := SurvivorFrom(ts, boxes, p);
      assert l != k;
    }
  }

  // ----- the fate of tracks and detections

  /** How often in a row a track has been seen, once it has been predicted. */
  function StreakLeft(t: Track): int { if t.timeSinceUpdate > 2 then 0 else t.hitStreak }

  /** A track that sees a detection. */
  function Seeing(t: Track, d: Detection): Track {
    Track(d.box, 0, t.observedNum + 1, StreakLeft(t) + 1, t.age + 1, t.trackId, d.objConf, d.classId, [])
  }

  /** A track that goes on without, at its predicted box. */
  function Coasting(t: Track, box: Box): Track {
    Track(box, t.timeSinceUpdate + 1, t.observedNum, StreakLeft(t), t.age + 1, t.trackId, t.objConf, t.classId, t.history + [box])
  }

  /** Unseen for at most 3 frames, and not just created and then unseen for two. */
  predicate MayStay(t: Track) { t.timeSinceUpdate <= 3 && !(t.age == 3 && t.timeSinceUpdate == 2) }

  /** The detection that track k sees in a frame, or -1. */
  ghost predicate Sees(boxes: seq<Box>, dets: seq<Detection>, k: nat, j: int)
    requires k < |boxes|
  {
    j == -1 || (0 <= j < |dets| && GetIOU(boxes[k], dets[j].box) >= 0.3)
  }

  lemma UpdatedAt(s: seq<Track>, dets: seq<Detection>, pairs: seq<int>, id: int, p: nat)
    requires |pairs| == |s| && (forall i :: 0 <= i < |pairs| ==> -1 <= pairs[i] < |dets|) && p < |s|
    ensures p < |Updated(s, dets, pairs, id)|
    ensures Updated(s, dets, pairs, id)[p] == if pairs[p] >= 0 then Observed(s[p], dets[pairs[p]]) else s[p]
  {
  }

  /** Ids after a frame: those of survivors at their places, new ones after them. */
  lemma OnlyAt(s: seq<Track>, dets: seq<Detection>, pairs: seq<int>, id: int, p: nat)
    requires |pairs| == |s| && (forall i :: 0 <= i < |pairs| ==> -1 <= pairs[i] < |dets|) && p < |s|
    requires forall i :: 0 <= i < |s| ==> s[i].trackId < id
    requires forall i, j :: 0 <= i < j < |s| ==> s[i].trackId != s[j].trackId
    ensures var all := Updated(s, dets, pairs, id);
            HasId(Living(all), s[p].trackId) <==> p < |all| && !Dead(all[p])
  {
    var all := Updated(s, dets, pairs, id);
    LivingIn(all);
    UpdatedAt(s, dets, pairs, id, p);
    assert forall i :: 0 <= i < |all| ==> all[i].trackId == if i < |s| then s[i].trackId else id + i - |s|;
    if HasId(Living(all), s[p].trackId) {
      var l :| 0 <= l < |Living(all)| && Living(all)[l].trackId == s[p].trackId;
      assert Living(all)[l] in Living(all);
    }
    if !Dead(all[p]) {
      assert all[p] in Living(all);
    }
    hide Living, Dead, Updated;
  }

  /** The pairs of a frame, and the facts about them that its tracks' fates follow from. */
  lemma FrameParts(ts: seq<Track>, boxes: seq<Box>, dets: seq<Detection>, id: int, a: seq<int>, ts': seq<Track>, id': int)
    returns (s: seq<Track>, pairs: seq<int>)
    requires Frame(ts, boxes, dets, id, a, ts', id') && Kept(ts, id)
    ensures s == Survivors(ts, boxes) && pairs == Filtered(OnScreenBoxes(boxes), dets, a)
    ensures |boxes| == |ts| && |s| == |OnScreenBoxes(boxes)| == |pairs| == |a|
    ensures PartialInjective(pairs, |dets|) && id' == id + |LeftOver(pairs, |dets|)| && ts' == Living(Updated(s, dets, pairs, id))
    ensures forall p :: 0 <= p < |s| ==> pairs[p] == FilteredAt(OnScreenBoxes(boxes)[p], dets, a[p])
    ensures forall p :: 0 <= p < |s| ==> s[p].trackId < id
    ensures forall p, q :: 0 <= p < q < |s| ==> s[p].trackId != s[q].trackId
  {
    s, pairs := Survivors(ts, boxes), Filtered(OnScreenBoxes(boxes), dets, a);
    FilteredInjective(OnScreenBoxes(boxes), dets, a);
    SurvivorsAligned(ts, boxes);
    SurvivorsKept(ts, boxes, id);
    forall p | 0 <= p < |s| ensures s[p].trackId < id { assert HasId(ts, s[p].trackId); }
  }

  /**
   What a frame does to a track: off the screen it is dropped; if the assignment, at the track's place p
   among the visible ones, gives it a detection that overlaps by 0.3, it has that detection's box and
   starts to count anew; else it goes on at its predicted box, and stays unless unseen for too long.
   */
  lemma TrackFate(ts: seq<Track>, boxes: seq<Box>, dets: seq<Detection>, id: int, a: seq<int>, ts': seq<Track>, id': int,
                  k: nat) returns (p: nat, j: int)
    requires Frame(ts, boxes, dets, id, a, ts', id') && Kept(ts, id) && k < |ts|
    ensures |a| == |OnScreenBoxes(boxes)| && |boxes| == |ts|
    ensures Visible(boxes[k]) ==>
              && p < |a| && OnScreenBoxes(boxes)[p] == boxes[k] && -1 <= a[p] < |dets|
              && j == if a[p] >= 0 && GetIOU(boxes[k], dets[a[p]].box) >= 0.3 then a[p] else -1
    ensures !Visible(boxes[k]) ==> j == -1 && !HasId(ts', ts[k].trackId)
    ensures j >= 0 ==> Seeing(ts[k], dets[j]) in ts'
    ensures Visible(boxes[k]) && j == -1 ==>
              var t := Coasting(ts[k], boxes[k]);
              && (HasId(ts', t.trackId) <==> MayStay(t))
              && (t in ts' <==> MayStay(t))
  {
    hide *;
    var s, pairs := FrameParts(ts, boxes, dets, id, a, ts', id');
    var all := Updated(s, dets, pairs, id);
    if Visible(boxes[k]) {
      p := SurvivorAt(ts, boxes, k);
      j := pairs[p];
      UpdatedAt(s, dets, pairs, id, p);
      OnlyAt(s, dets, pairs, id, p);
      LivingIn(all);
      assert all[p] in all;
      FrameBest(ts, boxes, dets, id, a, ts', id');
      BestBounds(OnScreenBoxes(boxes), dets, a, p);
      PairIs(boxes[k], dets, a[p]);
      CoastingIs(ts[k], boxes[k]);
      if j >= 0 { SeeingIs(ts[k], boxes[k], dets[j]); }
    } else {
      p, j := 0, -1;
      NoSurvivor(ts, boxes, id, k);
      KeptId(ts, id, k);
      GoneStaysGone(s, dets, pairs, id, ts[k].trackId);
    }
  }

  lemma KeptId(ts: seq<Track>, id: int, k: nat)
    requires Kept(ts, id) && k < |ts|
    ensures ts[k].trackId < id
  {
  }

  lemma PairSees(boxes: seq<Box>, dets: seq<Detection>, k: nat, c: int)
    requires k < |boxes|
    ensures Sees(boxes, dets, k, FilteredAt(boxes[k], dets, c))
  {
    hide GetIOU;
  }

  lemma PairIs(box: Box, dets: seq<Detection>, c: int)
    requires -1 <= c < |dets|
    ensures FilteredAt(box, dets, c) == if c >= 0 && GetIOU(box, dets[c].box) >= 0.3 then c else -1
  {
    hide GetIOU;
  }

  lemma BestBounds(boxes: seq<Box>, dets: seq<Detection>, a: seq<int>, p: nat)
    requires BestAssignment(boxes, dets, a) && p < |a|
    ensures -1 <= a[p] < |dets|
  {
  }

  lemma CoastingIs(t: Track, box: Box)
    ensures Predicted(t, box) == Coasting(t, box) && Coasting(t, box).trackId == t.trackId
    ensures Dead(Coasting(t, box)) <==> !MayStay(Coasting(t, box))
  {
  }

  lemma SeeingIs(t: Track, box: Box, d: Detection)
    ensures Observed(Predicted(t, box), d) == Seeing(t, d) && !Dead(Seeing(t, d))
  {
  }

  lemma GoneStaysGone(s: seq<Track>, dets: seq<Detection>, pairs: seq<int>, id: int, gone: int)
    requires |pairs| == |s| && (forall i :: 0 <= i < |pairs| ==> -1 <= pairs[i] < |dets|)
    requires gone < id && !HasId(s, gone)
    ensures !HasId(Living(Updated(s, dets, pairs, id)), gone)
  {
    var all := Updated(s, dets, pairs, id);
    LivingIn(all);
    assert forall i :: 0 <= i < |all| ==> all[i].trackId == if i < |s| then s[i].trackId else id + i - |s|;
    forall l | 0 <= l < |Living(all)| ensures Living(all)[l].trackId != gone {
      assert Living(all)[l] in Living(all);
      var i :| 0 <= i < |all| && all[i] == Living(all)[l];
    }
    hide Living, Updated;
  }

  /** What a frame does with a detection: one track sees it, or it makes a new one that has been seen once. */
  lemma DetectionFate(ts: seq<Track>, boxes: seq<Box>, dets: seq<Detection>, id: int, a: seq<int>, ts': seq<Track>, id': int,
                      j: nat) returns (k: int, newId: int)
    requires Frame(ts, boxes, dets, id, a, ts', id') && Kept(ts, id) && j < |dets|
    ensures k >= 0 ==> k < |ts| && Visible(boxes[k]) && Sees(boxes, dets, k, j) && Seeing(ts[k], dets[j]) in ts'
    ensures k < 0 ==>
              && id <= newId < id'
              && Track(Box(0.0, 0.0, 0.0, 0.0), 0, 1, 0, 1, newId, dets[j].objConf, dets[j].classId, []) in ts'
  {
    hide *;
    var s, pairs := FrameParts(ts, boxes, dets, id, a, ts', id');
    var i := FrameLandsEveryDetection(ts, boxes, dets, id, a, ts', id', j);
    PlaceBound(|s|, dets, pairs, j, i);
    if i < |s| {
      newId := -1;
      k := SurvivorFrom(ts, boxes, i);
      PairSees(boxes, dets, k, a[i]);
      SeeingIs(ts[k], boxes[k], dets[j]);
    } else {
      k, newId := -1, id + i - |s|;
      NewTrackIs(dets[j], newId);
    }
  }

  lemma PlaceBound(n: nat, dets: seq<Detection>, pairs: seq<int>, j: nat, i: nat)
    requires |pairs| == n && GoesTo(n, dets, pairs, j, i)
    ensures if i < n then pairs[i] == j else i < n + |LeftOver(pairs, |dets|)|
  {
  }

  lemma NewTrackIs(d: Detection, id: int)
    ensures NewTrack(d, id) == Track(Box(0.0, 0.0, 0.0, 0.0), 0, 1, 0, 1, id, d.objConf, d.classId, [])
  {
  }

  /**
   A detection at the very box that a track is predicted at, with no point in common with any other
   visible track's box or the track's with any other detection, is seen by that track.
   */
  lemma ClearDetectionUpdates(ts: seq<Track>, boxes: seq<Box>, dets: seq<Detection>, id: int, a: seq<int>,
                              ts': seq<Track>, id': int, k: nat, j: nat)
    requires Frame(ts, boxes, dets, id, a, ts', id') && Kept(ts, id) && k < |ts| && j < |dets| <= 10000
    requires Visible(boxes[k]) && dets[j].box == boxes[k]
    requires boxes[k].width > 0.0 && boxes[k].height > 0.0 && boxes[k].width * boxes[k].height >= DBL_EPSILON
    requires forall l :: 0 <= l < |boxes| && l != k && Visible(boxes[l]) ==> Disjoint(boxes[l], boxes[k])
    requires forall l :: 0 <= l < |dets| && l != j ==> Disjoint(boxes[k], dets[l].box)
    ensures Seeing(ts[k], dets[j]) in ts'
  {
    hide *;
    var s, pairs := FrameParts(ts, boxes, dets, id, a, ts', id');
    var p := SurvivorAt(ts, boxes, k);
    FrameBest(ts, boxes, dets, id, a, ts', id');
    var shown := OnScreenBoxes(boxes);
    SameBoxIou(boxes[k]);
    forall q | 0 <= q < |shown| && q != p ensures GetIOU(shown[q], dets[j].box) == 0.0 {
      var l := SurvivorFrom(ts, boxes, q);
      OtherPlace(ts, boxes, id, p, q, k, l);
      DisjointIou(boxes[l], boxes[k]);
    }
    forall l | 0 <= l < |dets| && l != j ensures GetIOU(shown[p], dets[l].box) == 0.0 {
      DisjointIou(boxes[k], dets[l].box);
    }
    ClearPair(shown, dets, a, p, j);
    PairOf(shown[p], dets, j);
    var all := Updated(s, dets, pairs, id);
    UpdatedAt(s, dets, pairs, id, p);
    LivingIn(all);
    assert all[p] in all;
    SeeingIs(ts[k], boxes[k], dets[j]);
  }

  lemma FrameBest(ts: seq<Track>, boxes: seq<Box>, dets: seq<Detection>, id: int, a: seq<int>, ts': seq<Track>, id': int)
    requires Frame(ts, boxes, dets, id, a, ts', id')
    ensures BestAssignment(OnScreenBoxes(boxes), dets, a)
  {
  }

  /** Different places hold different tracks. */
  lemma OtherPlace(ts: seq<Track>, boxes: seq<Box>, id: int, p: nat, q: nat, k: nat, l: nat)
    requires |boxes| == |ts| && Kept(ts, id) && k < |ts| && l < |ts|
    requires p < |Survivors(ts, boxes)| && q < |Survivors(ts, boxes)| && p != q
    requires Survivors(ts, boxes)[p] == Predicted(ts[k], boxes[k]) && Survivors(ts, boxes)[q] == Predicted(ts[l], boxes[l])
    ensures k != l
  {
    SurvivorsKept(ts, boxes, id);
    assert Survivors(ts, boxes)[p].trackId != Survivors(ts, boxes)[q].trackId;
    hide Survivors, Kept;
  }

  lemma SameBoxIou(b: Box)
    requires b.width > 0.0 && b.height > 0.0 && b.width * b.height >= DBL_EPSILON
    ensures GetIOU(b, b) == 1.0
  {
    assert CommonPart(b, b, b);
    IouExtremes(b, b, b);
  }

  lemma DisjointIou(a: Box, b: Box)
    requires Disjoint(a, b)
    ensures GetIOU(a, b) == 0.0
  {
    var c := a.Intersect(b);
    IntersectPoints(a, b);
    if UnionArea(a, b, c) >= DBL_EPSILON { IouExtremes(a, b, c); } else { IouMeans(a, b, c); }
    hide Box.Intersect, Disjoint;
  }

  lemma PairOf(box: Box, dets: seq<Detection>, j: nat)
    requires j < |dets| && GetIOU(box, dets[j].box) == 1.0
    ensures FilteredAt(box, dets, j) == j
  {
  }

  /** Row p and column j overlap wholly and nothing else overlaps either: a best assignment pairs them. */
  lemma ClearPair(boxes: seq<Box>, dets: seq<Detection>, a: seq<int>, p: nat, j: nat)
    requires BestAssignment(boxes, dets, a) && p < |boxes| == |a| && j < |dets| <= 10000
    requires GetIOU(boxes[p], dets[j].box) == 1.0
    requires forall q :: 0 <= q < |boxes| && q != p ==> GetIOU(boxes[q], dets[j].box) == 0.0
    requires forall l :: 0 <= l < |dets| && l != j ==> GetIOU(boxes[p], dets[l].box) == 0.0
    ensures a[p] == j
  {
    if a[p] != j {
      var m, o := CostMatrix(boxes, dets), RowOf(a, j);
      NoBetterPair(boxes, dets, a, p, j);
      if o >= 0 && a[p] >= 0 { IouInRange(boxes[o], dets[a[p]].box); }
      SmallTolerance(|boxes|, |dets|);
      hide BestAssignment, GetIOU;
      assert false;
    }
  }

  /** A track and a detection that a frame leaves without each other overlap by hardly more than twice the threshold. */
  lemma MissedOverlap(boxes: seq<Box>, dets: seq<Detection>, a: seq<int>, p: nat, j: nat)
    requires BestAssignment(boxes, dets, a) && p < |boxes| == |a| && j < |dets| <= 10000
    requires Filtered(boxes, dets, a)[p] < 0 && j !in Filtered(boxes, dets, a)
    ensures GetIOU(boxes[p], dets[j].box) < 0.6 + 3.0 / 1000000000000.0
  {
    var m, o, c := CostMatrix(boxes, dets), RowOf(a, j), a[p];
    BestBounds(boxes, dets, a, p);
    SmallTolerance(|boxes|, |dets|);
    PairIs(boxes[p], dets, c);
    if o >= 0 {
      PairIs(boxes[o], dets, j);
      assert Filtered(boxes, dets, a)[o] in Filtered(boxes, dets, a);
    }
    if c != j {
      NoBetterPair(boxes, dets, a, p, j);
      if o >= 0 && c >= 0 { IouInRange(boxes[o], dets[c].box); }
    }
    hide *;
  }

  lemma SmallTolerance(n: nat, m: nat)
    requires m <= 10000
    ensures Assignments.Min(n, m) as real * DBL_EPSILON <= 3.0 / 1000000000000.0
  {
  }
}
