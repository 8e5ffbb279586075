/**
 The tracker of tmp/tracker_sort on values: boxes and their overlap, what a track goes through in a
 frame, and what every frame keeps of a list of tracks.
 */
module SortTracks {
  import opened Sums
  import opened Assignments
  import opened Boxes

  /** Intersection over union. */
  function GetIOU(test: Box, gt: Box): real {
    var intersection := test.Intersect(gt).Area();
    var unionArea := test.Area() + gt.Area() - intersection;
    if unionArea < DBL_EPSILON then 0.0 else intersection / unionArea
  }

  /** The overlap of any two boxes, even of negative extent, is a number from 0 to 1. */
  lemma IouInRange(a: Box, b: Box)
    ensures 0.0 <= GetIOU(a, b) <= 1.0
  {
    IntersectionWithin(a, b);
    hide Box.Area, Box.Intersect;
    var i := a.Intersect(b).Area();
    var u := a.Area() + b.Area() - i;
    if u >= DBL_EPSILON && i > 0.0 { QuotientInRange(i, u); }
  }

  /** The area of all points of two boxes of which c has the common ones. */
  function UnionArea(a: Box, b: Box, c: Box): real {
    a.width * a.height + b.width * b.height - c.width * c.height
  }

  /** The overlap is the share of the common points in all of them, for whatever box c has these; 0 when there is next to nothing. */
  lemma IouMeans(a: Box, b: Box, c: Box)
    requires CommonPart(a, b, c)
    ensures UnionArea(a, b, c) >= DBL_EPSILON ==> GetIOU(a, b) * UnionArea(a, b, c) == c.width * c.height
    ensures UnionArea(a, b, c) < DBL_EPSILON ==> GetIOU(a, b) == 0.0
  {
    hide *;
    CommonPartIs(a, b, c);
    AreaIs(c);
    IouByArea(a, b);
    UnionByArea(a, b, c);
    if UnionArea(a, b, c) >= DBL_EPSILON { QuotientTimes(c.Area(), UnionArea(a, b, c)); }
  }

  lemma IouByArea(a: Box, b: Box)
    ensures var inter := a.Intersect(b).Area(); var union := a.Area() + b.Area() - inter;
            GetIOU(a, b) == if union < DBL_EPSILON then 0.0 else inter / union
    ensures DBL_EPSILON > 0.0
  {
    hide Box.Area, Box.Intersect;
  }

  lemma UnionByArea(a: Box, b: Box, c: Box)
    ensures UnionArea(a, b, c) == a.Area() + b.Area() - c.Area()
  {
  }

  /** Boxes overlap not at all exactly when no point is inside both, and wholly exactly when they are the same. */
  lemma IouExtremes(a: Box, b: Box, c: Box)
    requires CommonPart(a, b, c) && UnionArea(a, b, c) >= DBL_EPSILON
    ensures GetIOU(a, b) == 0.0 <==> Disjoint(a, b)
    ensures Positive(a) && Positive(b) ==> (GetIOU(a, b) == 1.0 <==> a == b)
  {
    IouMeans(a, b, c);
    CommonPartIs(a, b, c);
    var u, q, common := UnionArea(a, b, c), GetIOU(a, b), c.Area();
    assert q * u == common;
    if Positive(c) { PositiveHasArea(c); } else { EmptyHasNoArea(c); }
    assert q == 0.0 <==> common == 0.0;
    if Positive(a) && Positive(b) { WholeOverlap(a, b, c, q, u); }
    hide *;
  }

  lemma WholeOverlap(a: Box, b: Box, c: Box, q: real, u: real)
    requires CommonPart(a, b, c) && Positive(a) && Positive(b)
    requires u > 0.0 && u == UnionArea(a, b, c) && q * u == c.width * c.height
    ensures q == 1.0 <==> a == b
  {
    if a == b {
      PositiveHasArea(a);
      assert Positive(c);
      PointsBetween(a, c);
      PointsBetween(c, a);
      assert c.width == a.width && c.height == a.height;
      assert u == c.width * c.height;
      assert (q - 1.0) * u == 0.0;
    }
    if q == 1.0 {
      PositiveHasArea(a);
      PositiveHasArea(b);
      assert a.width * a.height + b.width * b.height == 2.0 * (c.width * c.height);
      assert Positive(c) by { if !Positive(c) { EmptyHasNoArea(c); } }
      PointsBetween(c, a);
      PointsBetween(c, b);
      SameArea(c, a, b);
    }
  }

  /** Two boxes that add up to twice the area of a box within both have its sides. */
  lemma SameArea(c: Box, a: Box, b: Box)
    requires Positive(c) && c.width <= a.width && c.height <= a.height && c.width <= b.width && c.height <= b.height
    requires a.width * a.height + b.width * b.height == 2.0 * (c.width * c.height)
    ensures c.width == a.width == b.width && c.height == a.height == b.height
  {
    LargerArea(c.width, c.height, a.width, a.height);
    LargerArea(c.width, c.height, b.width, b.height);
  }

  lemma LargerArea(w: real, h: real, w': real, h': real)
    requires 0.0 < w <= w' && 0.0 < h <= h'
    ensures w * h <= w' * h'
    ensures w * h == w' * h' ==> w == w' && h == h'
  {
    assert w' * h' - w * h == (w' - w) * h' + w * (h' - h);
  }

  datatype Detection = Detection(box: Box, objConf: real, classId: int)

  const MAX_MISSING_OBSERVED_NUM := 2
  const MAX_LOST_TIME := 3
  const LOWER_MAX_LOST_TIME := 2
  const MIN_HITS := 3
  const IOU_THRESHOLD: real := 0.3

  /** The observable state of one tracker. */
  datatype Track = Track(latestRect: Box, timeSinceUpdate: int, observedNum: int, hitStreak: int, age: int,
                         trackId: int, objConf: real, classId: int, history: seq<Box>)

  function NewTrack(d: Detection, id: int): Track {
    Track(Box(0.0, 0.0, 0.0, 0.0), 0, 1, 0, 1, id, d.objConf, d.classId, [])
  }

  function Predicted(t: Track, box: Box): Track {
    t.(latestRect := box, age := t.age + 1, timeSinceUpdate := t.timeSinceUpdate + 1, history := t.history + [box],
       hitStreak := if t.timeSinceUpdate > MAX_MISSING_OBSERVED_NUM then 0 else t.hitStreak)
  }

  function Observed(t: Track, d: Detection): Track {
    t.(latestRect := d.box, timeSinceUpdate := 0, observedNum := t.observedNum + 1, hitStreak := t.hitStreak + 1,
       objConf := d.objConf, classId := d.classId, history := [])
  }

  predicate OnScreen(b: Box) { b.x >= 0.0 && b.y >= 0.0 }

  /** Lost for too long: more than MAX_LOST_TIME frames, or new and lost for LOWER_MAX_LOST_TIME. */
  predicate Dead(t: Track) {
    t.timeSinceUpdate > MAX_LOST_TIME || (t.age == MAX_LOST_TIME && t.timeSinceUpdate == LOWER_MAX_LOST_TIME)
  }

  /** The track moved to its predicted box, unless that is off screen. */
  ghost function Onward(t: Track, box: Box): seq<Track> { if OnScreen(box) then [Predicted(t, box)] else [] }

  ghost function Shown(box: Box): seq<Box> { if OnScreen(box) then [box] else [] }

  /** The tracks whose predicted boxes are on screen, moved to them, in order. */
  ghost function Survivors(ts: seq<Track>, boxes: seq<Box>): seq<Track>
    requires |boxes| == |ts|
  {
    if |ts| == 0 then []
    else Survivors(ts[..|ts| - 1], boxes[..|ts| - 1]) + Onward(ts[|ts| - 1], boxes[|ts| - 1])
  }

  ghost function OnScreenBoxes(boxes: seq<Box>): seq<Box> {
    if |boxes| == 0 then []
    else OnScreenBoxes(boxes[..|boxes| - 1]) + Shown(boxes[|boxes| - 1])
  }

  /** The list once the track at `it` has been predicted. */
  ghost function AfterOne(now: seq<Track>, it: nat, box: Box): seq<Track>
    requires it < |now|
  {
    now[..it] + Onward(now[it], box) + now[it + 1..]
  }

  /** The list once p tracks have been seen, and how many of these are still in it. */
  ghost function Progress(ts: seq<Track>, boxes: seq<Box>, p: nat): seq<Track>
    requires |boxes| == |ts| && p <= |ts|
  {
    Survivors(ts[..p], boxes[..p]) + ts[p..]
  }

  ghost function StillIn(ts: seq<Track>, boxes: seq<Box>, p: nat): nat
    requires |boxes| == |ts| && p <= |ts|
  {
    |Survivors(ts[..p], boxes[..p])|
  }

  lemma ProgressEnds(ts: seq<Track>, boxes: seq<Box>)
    requires |boxes| == |ts|
    ensures Progress(ts, boxes, 0) == ts && StillIn(ts, boxes, 0) == 0 && OnScreenBoxes(boxes[..0]) == []
    ensures Progress(ts, boxes, |ts|) == Survivors(ts, boxes) && boxes[..|ts|] == boxes
  {
    assert ts[..|ts|] == ts && boxes[..|ts|] == boxes;
  }

  /** Predicting the first track not yet seen turns the list for p tracks into the list for one more. */
  lemma ProgressStep(ts: seq<Track>, boxes: seq<Box>, p: nat)
    requires |boxes| == |ts| && p < |ts|
    ensures StillIn(ts, boxes, p) < |Progress(ts, boxes, p)|
    ensures AfterOne(Progress(ts, boxes, p), StillIn(ts, boxes, p), boxes[p]) == Progress(ts, boxes, p + 1)
    ensures StillIn(ts, boxes, p + 1) == StillIn(ts, boxes, p) + (if OnScreen(boxes[p]) then 1 else 0)
    ensures OnScreenBoxes(boxes[..p + 1]) == OnScreenBoxes(boxes[..p]) + Shown(boxes[p])
  {
    assert ts[..p + 1][..p] == ts[..p] && boxes[..p + 1][..p] == boxes[..p];
  }

  /** Boxes and tracks stay aligned when off-screen ones are dropped from both. */
  lemma {:induction false} SurvivorsAligned(ts: seq<Track>, boxes: seq<Box>)
    requires |boxes| == |ts|
    ensures |Survivors(ts, boxes)| == |OnScreenBoxes(boxes)|
    ensures forall i :: 0 <= i < |Survivors(ts, boxes)| ==> Survivors(ts, boxes)[i].latestRect == OnScreenBoxes(boxes)[i]
  {
    if |ts| > 0 { SurvivorsAligned(ts[..|ts| - 1], boxes[..|ts| - 1]); }
  }

  /** The assigned detection if it overlaps enough, else none. */
  ghost function FilteredAt(box: Box, dets: seq<Detection>, a: int): int {
    if 0 <= a < |dets| && GetIOU(box, dets[a].box) >= IOU_THRESHOLD then a else -1
  }

  ghost function Filtered(boxes: seq<Box>, dets: seq<Detection>, a: seq<int>): (pairs: seq<int>)
    requires |a| == |boxes|
    ensures |pairs| == |a| && forall i :: 0 <= i < |a| ==> -1 <= pairs[i] < |dets|
  {
    seq(|a|, i requires 0 <= i < |a| => FilteredAt(boxes[i], dets, a[i]))
  }

  ghost function PairAt(i: int, j: int): seq<(int, int)> { if j >= 0 then [(i, j)] else [] }

  /** The matched pairs, in the order of the tracks. */
  ghost function PairList(pairs: seq<int>): seq<(int, int)> {
    if |pairs| == 0 then []
    else PairList(pairs[..|pairs| - 1]) + PairAt(|pairs| - 1, pairs[|pairs| - 1])
  }

  /** Tracks after the matched ones have seen their detections. */
  ghost function AfterMatches(ts: seq<Track>, dets: seq<Detection>, pairs: seq<int>): seq<Track>
    requires |pairs| == |ts| && forall i :: 0 <= i < |pairs| ==> -1 <= pairs[i] < |dets|
  {
    seq(|ts|, i requires 0 <= i < |ts| => if pairs[i] >= 0 then Observed(ts[i], dets[pairs[i]]) else ts[i])
  }

  /** The detections below n that `pairs` leaves over, in order. */
  ghost function LeftOver(pairs: seq<int>, n: nat): (left: seq<int>)
    ensures forall k :: 0 <= k < |left| ==> 0 <= left[k] < n && left[k] !in pairs
  {
    if n == 0 then [] else LeftOver(pairs, n - 1) + (if n - 1 in pairs then [] else [n - 1])
  }

  ghost function Seeds(dets: seq<Detection>, news: seq<int>, id: int): seq<Track>
    requires forall k :: 0 <= k < |news| ==> 0 <= news[k] < |dets|
  {
    seq(|news|, k requires 0 <= k < |news| => NewTrack(dets[news[k]], id + k))
  }

  /** The tracks once the left-over detections below n have been seeded. */
  ghost function SeedProgress(ts: seq<Track>, dets: seq<Detection>, pairs: seq<int>, id: int, n: nat): seq<Track>
    requires n <= |dets|
  {
    ts + Seeds(dets, LeftOver(pairs, n), id)
  }

  ghost function LeftCount(pairs: seq<int>, n: nat): nat { |LeftOver(pairs, n)| }

  lemma SeedStep(ts: seq<Track>, dets: seq<Detection>, pairs: seq<int>, id: int, n: nat)
    requires n < |dets|
    ensures n in pairs ==> SeedProgress(ts, dets, pairs, id, n + 1) == SeedProgress(ts, dets, pairs, id, n)
                           && LeftCount(pairs, n + 1) == LeftCount(pairs, n)
    ensures n !in pairs ==>
              SeedProgress(ts, dets, pairs, id, n + 1)
              == SeedProgress(ts, dets, pairs, id, n) + [NewTrack(dets[n], id + LeftCount(pairs, n))]
              && LeftCount(pairs, n + 1) == LeftCount(pairs, n) + 1
  {
  }

  ghost function Living(ts: seq<Track>): seq<Track> {
    if |ts| == 0 then []
    else Living(ts[..|ts| - 1]) + (if Dead(ts[|ts| - 1]) then [] else [ts[|ts| - 1]])
  }

  /** The list once p tracks have been looked at. */
  ghost function LivingProgress(ts: seq<Track>, p: nat): seq<Track>
    requires p <= |ts|
  {
    Living(ts[..p]) + ts[p..]
  }

  lemma LivingEnds(ts: seq<Track>)
    ensures LivingProgress(ts, 0) == ts && LivingCount(ts, 0) == 0
    ensures LivingProgress(ts, |ts|) == Living(ts)
  {
    assert ts[..|ts|] == ts;
  }

  ghost function Without(now: seq<Track>, it: nat): seq<Track>
    requires it < |now|
  {
    now[..it] + now[it + 1..]
  }

  ghost function LivingCount(ts: seq<Track>, p: nat): nat
    requires p <= |ts|
  {
    |Living(ts[..p])|
  }

  lemma LivingStep(ts: seq<Track>, p: nat)
    requires p < |ts|
    ensures LivingCount(ts, p) < |LivingProgress(ts, p)|
    ensures LivingProgress(ts, p)[LivingCount(ts, p)] == ts[p]
    ensures Dead(ts[p]) ==> LivingProgress(ts, p + 1) == Without(LivingProgress(ts, p), LivingCount(ts, p))
                            && LivingCount(ts, p + 1) == LivingCount(ts, p)
    ensures !Dead(ts[p]) ==> LivingProgress(ts, p + 1) == LivingProgress(ts, p)
                             && LivingCount(ts, p + 1) == LivingCount(ts, p) + 1
  {
    assert ts[..p + 1][..p] == ts[..p];
  }

  /** Every detection is matched or left over, never both, and none twice. */
  lemma {:induction false} LeftOverPartition(pairs: seq<int>, n: nat)
    ensures forall j :: j in LeftOver(pairs, n) <==> 0 <= j < n && j !in pairs
    ensures forall k, l :: 0 <= k < l < |LeftOver(pairs, n)| ==> LeftOver(pairs, n)[k] < LeftOver(pairs, n)[l]
  {
    if n > 0 {
      LeftOverPartition(pairs, n - 1);
      var before := LeftOver(pairs, n - 1);
      assert LeftOver(pairs, n) == if n - 1 in pairs then before else before + [n - 1];
    }
  }

  /** The counters of a track between frames. */
  ghost predicate Sane(t: Track) {
    && 1 <= t.observedNum && 0 <= t.timeSinceUpdate <= MAX_LOST_TIME
    && t.observedNum + t.timeSinceUpdate <= t.age
    && 0 <= t.hitStreak < t.observedNum
    && (t.observedNum == 1 <==> t.timeSinceUpdate == t.age - 1)
    && (t.observedNum == 1 ==> t.age <= 2)
  }

  /** What every frame keeps: sane counters and distinct ids already given out. */
  ghost predicate Kept(ts: seq<Track>, nextId: int) {
    && (forall i :: 0 <= i < |ts| ==> Sane(ts[i]) && 0 <= ts[i].trackId < nextId)
    && (forall i, j :: 0 <= i < j < |ts| ==> ts[i].trackId != ts[j].trackId)
  }

  /** A track just predicted from a sane one. */
  ghost predicate SaneAhead(t: Track) {
    exists p: Track, b: Box :: Sane(p) && t == Predicted(p, b)
  }

  ghost predicate HasId(ts: seq<Track>, id: int) {
    exists k :: 0 <= k < |ts| && ts[k].trackId == id
  }

  lemma {:induction false} SurvivorsKept(ts: seq<Track>, boxes: seq<Box>, nextId: int)
    requires |boxes| == |ts| && Kept(ts, nextId)
    ensures forall i :: 0 <= i < |Survivors(ts, boxes)| ==> SaneAhead(Survivors(ts, boxes)[i])
    ensures forall i :: 0 <= i < |Survivors(ts, boxes)| ==> HasId(ts, Survivors(ts, boxes)[i].trackId)
    ensures forall i, j :: 0 <= i < j < |Survivors(ts, boxes)| ==>
              Survivors(ts, boxes)[i].trackId != Survivors(ts, boxes)[j].trackId
  {
    if |ts| > 0 {
      var n := |ts| - 1;
      SurvivorsKept(ts[..n], boxes[..n], nextId);
      var before := Survivors(ts[..n], boxes[..n]);
      forall i | 0 <= i < |before| ensures HasId(ts, before[i].trackId) && before[i].trackId != ts[n].trackId {
        assert HasId(ts[..n], before[i].trackId);
        var k :| 0 <= k < n && ts[..n][k].trackId == before[i].trackId;
        assert ts[k].trackId == before[i].trackId;
      }
      assert SaneAhead(Predicted(ts[n], boxes[n]));
      assert HasId(ts, ts[n].trackId);
    }
  }

  lemma {:induction false} LivingIn(ts: seq<Track>)
    ensures forall t :: t in Living(ts) <==> t in ts && !Dead(t)
  {
    if |ts| > 0 {
      LivingIn(ts[..|ts| - 1]);
      assert ts == ts[..|ts| - 1] + [ts[|ts| - 1]];
    }
  }

  lemma {:induction false} LivingDistinct(ts: seq<Track>)
    requires forall i, j :: 0 <= i < j < |ts| ==> ts[i].trackId != ts[j].trackId
    ensures forall i, j :: 0 <= i < j < |Living(ts)| ==> Living(ts)[i].trackId != Living(ts)[j].trackId
  {
    if |ts| > 0 {
      var n := |ts| - 1;
      LivingDistinct(ts[..n]);
      LivingIn(ts[..n]);
      forall i | 0 <= i < |Living(ts[..n])| ensures Living(ts[..n])[i].trackId != ts[n].trackId {
        assert Living(ts[..n])[i] in ts[..n];
      }
    }
  }

  /** The tracks of a frame before the dead are removed. */
  ghost function Updated(ts: seq<Track>, dets: seq<Detection>, pairs: seq<int>, nextId: int): seq<Track>
    requires |pairs| == |ts| && forall i :: 0 <= i < |pairs| ==> -1 <= pairs[i] < |dets|
  {
    AfterMatches(ts, dets, pairs) + Seeds(dets, LeftOver(pairs, |dets|), nextId)
  }

  /** Matching and seeding keep the counters, up to the tracks about to be removed. */
  lemma UpdatedSane(s: seq<Track>, dets: seq<Detection>, pairs: seq<int>, nextId: int, i: nat)
    requires |pairs| == |s| && (forall i :: 0 <= i < |pairs| ==> -1 <= pairs[i] < |dets|)
    requires forall i :: 0 <= i < |s| ==> SaneAhead(s[i])
    requires i < |Updated(s, dets, pairs, nextId)| && !Dead(Updated(s, dets, pairs, nextId)[i])
    ensures Sane(Updated(s, dets, pairs, nextId)[i])
  {
    if i < |s| {
      var p: Track, b: Box :| Sane(p) && s[i] == Predicted(p, b);
    }
  }

  lemma UpdatedIds(s: seq<Track>, dets: seq<Detection>, pairs: seq<int>, nextId: int)
    requires |pairs| == |s| && (forall i :: 0 <= i < |pairs| ==> -1 <= pairs[i] < |dets|)
    requires nextId >= 0 && forall i :: 0 <= i < |s| ==> 0 <= s[i].trackId < nextId
    requires forall i, j :: 0 <= i < j < |s| ==> s[i].trackId != s[j].trackId
    ensures var all := Updated(s, dets, pairs, nextId);
            && (forall i :: 0 <= i < |all| ==> 0 <= all[i].trackId < nextId + |LeftOver(pairs, |dets|)|)
            && (forall i, j :: 0 <= i < j < |all| ==> all[i].trackId != all[j].trackId)
  {
    var all := Updated(s, dets, pairs, nextId);
    assert forall i :: 0 <= i < |all| ==> all[i].trackId == if i < |s| then s[i].trackId else nextId + i - |s|;
  }

  /** A frame keeps the invariant, whatever boxes are predicted and however detections are matched. */
  lemma FrameKeeps(ts: seq<Track>, boxes: seq<Box>, dets: seq<Detection>, pairs: seq<int>, nextId: int)
    requires Kept(ts, nextId) && |boxes| == |ts| && nextId >= 0
    requires |pairs| == |Survivors(ts, boxes)| && PartialInjective(pairs, |dets|)
    ensures Kept(Living(Updated(Survivors(ts, boxes), dets, pairs, nextId)), nextId + |LeftOver(pairs, |dets|)|)
  {
    var s := Survivors(ts, boxes);
    var all := Updated(s, dets, pairs, nextId);
    SurvivorsKept(ts, boxes, nextId);
    forall i | 0 <= i < |s| ensures 0 <= s[i].trackId < nextId { assert HasId(ts, s[i].trackId); }
    UpdatedIds(s, dets, pairs, nextId);
    LivingIn(all);
    LivingDistinct(all);
    forall k | 0 <= k < |Living(all)|
      ensures Sane(Living(all)[k]) && 0 <= Living(all)[k].trackId < nextId + |LeftOver(pairs, |dets|)|
    {
      assert Living(all)[k] in Living(all);
      var i :| 0 <= i < |all| && all[i] == Living(all)[k];
      UpdatedSane(s, dets, pairs, nextId, i);
    }
  }

  /** Every detection, in order. */
  ghost function Everyone(n: nat): (all: seq<int>)
    ensures |all| == n && forall k :: 0 <= k < n ==> all[k] == k
  {
    seq(n, k => k)
  }

  /** Track t is the one that took in detection d this frame: a track seen again, or a new one. */
  ghost predicate Carries(t: Track, d: Detection) {
    t.timeSinceUpdate == 0 && t.objConf == d.objConf && t.classId == d.classId
  }

  /** Where detection j went: the position of the track that observed it or was seeded by it. */
  ghost predicate GoesTo(n: nat, dets: seq<Detection>, pairs: seq<int>, j: nat, i: nat) {
    || (i < n && i < |pairs| && pairs[i] == j)
    || (n <= i < n + |LeftOver(pairs, |dets|)| && LeftOver(pairs, |dets|)[i - n] == j)
  }

  /** There is exactly one place for every detection. */
  lemma OnePlace(n: nat, dets: seq<Detection>, pairs: seq<int>, j: nat) returns (i: nat)
    requires |pairs| == n && PartialInjective(pairs, |dets|) && j < |dets|
    ensures GoesTo(n, dets, pairs, j, i) && forall i': nat :: GoesTo(n, dets, pairs, j, i') ==> i' == i
    ensures i >= n <==> j !in pairs
  {
    var left := LeftOver(pairs, |dets|);
    LeftOverPartition(pairs, |dets|);
    if j in pairs {
      i :| 0 <= i < n && pairs[i] == j;
    } else {
      var k :| 0 <= k < |left| && left[k] == j;
      i := n + k;
    }
    forall i': nat | GoesTo(n, dets, pairs, j, i') ensures i' == i {
      if i' < n {
        assert pairs[i'] == j;
      } else {
        assert left[i' - n] == j;
      }
    }
  }

  /** What is in that place carries the detection and outlives the frame. */
  lemma PlaceCarries(ts: seq<Track>, dets: seq<Detection>, pairs: seq<int>, nextId: int, j: nat, i: nat)
    requires |pairs| == |ts| && PartialInjective(pairs, |dets|) && j < |dets| && GoesTo(|ts|, dets, pairs, j, i)
    ensures i < |Updated(ts, dets, pairs, nextId)|
    ensures Carries(Updated(ts, dets, pairs, nextId)[i], dets[j])
    ensures Updated(ts, dets, pairs, nextId)[i] in Living(Updated(ts, dets, pairs, nextId))
    ensures i < |ts| ==> Updated(ts, dets, pairs, nextId)[i] == Observed(ts[i], dets[j])
    ensures i >= |ts| ==> Updated(ts, dets, pairs, nextId)[i] == NewTrack(dets[j], nextId + i - |ts|)
  {
    var all := Updated(ts, dets, pairs, nextId);
    LivingIn(all);
    if i >= |ts| { assert all[i] == Seeds(dets, LeftOver(pairs, |dets|), nextId)[i - |ts|]; }
    assert all[i] in all;
  }

  /** Every detection goes to exactly one track, matched or new, and that track outlives the frame. */
  lemma EveryDetectionLands(ts: seq<Track>, dets: seq<Detection>, pairs: seq<int>, nextId: int, j: nat) returns (i: nat)
    requires |pairs| == |ts| && PartialInjective(pairs, |dets|) && j < |dets|
    ensures GoesTo(|ts|, dets, pairs, j, i) && forall i': nat :: GoesTo(|ts|, dets, pairs, j, i') ==> i' == i
    ensures i < |Updated(ts, dets, pairs, nextId)|
    ensures Carries(Updated(ts, dets, pairs, nextId)[i], dets[j])
    ensures Updated(ts, dets, pairs, nextId)[i] in Living(Updated(ts, dets, pairs, nextId))
    ensures Updated(ts, dets, pairs, nextId)[i]
         == if j in pairs then Observed(ts[i], dets[j]) else NewTrack(dets[j], nextId + i - |ts|)
  {
    i := OnePlace(|ts|, dets, pairs, j);
    PlaceCarries(ts, dets, pairs, nextId, j, i);
  }

  /** Conversely a track last seen this frame is where some detection went. */
  lemma SeenTracksHaveDetections(s: seq<Track>, dets: seq<Detection>, pairs: seq<int>, nextId: int, i: nat)
    requires |pairs| == |s| && PartialInjective(pairs, |dets|)
    requires forall i :: 0 <= i < |s| ==> SaneAhead(s[i])
    requires i < |Updated(s, dets, pairs, nextId)|
    requires Updated(s, dets, pairs, nextId)[i].timeSinceUpdate == 0
    ensures exists j: nat :: j < |dets| && GoesTo(|s|, dets, pairs, j, i)
  {
    if i < |s| {
      assert SaneAhead(s[i]);
      assert GoesTo(|s|, dets, pairs, pairs[i], i);
    } else {
      assert GoesTo(|s|, dets, pairs, LeftOver(pairs, |dets|)[i - |s|], i);
    }
  }

  /**
   A largest assignment leaves no detection out when there are no more of them than boxes, so the
   detections outside the assigned ones need only be collected when there are more.
   */
  lemma AssignmentCovers(n: nat, m: nat, a: seq<int>)
    requires IsAssignment(n, m, a)
    ensures m <= n ==> forall j :: 0 <= j < m ==> j in a
    ensures m >= n ==> forall i :: 0 <= i < n ==> a[i] >= 0
  {
    Pigeonhole(a, m);
    AssignedBound(a);
  }

  lemma FilteredInjective(boxes: seq<Box>, dets: seq<Detection>, a: seq<int>)
    requires IsAssignment(|boxes|, |dets|, a)
    ensures PartialInjective(Filtered(boxes, dets, a), |dets|)
  {
  }

  datatype Report = Report(box: Box, trackId: int, frameId: int, objConf: real, classId: int)

  /** The tracks seen often enough, as reported: ids count from 1. */
  ghost function Reports(ts: seq<Track>, frame: int): seq<Report> {
    if |ts| == 0 then []
    else
      var t := ts[|ts| - 1];
      Reports(ts[..|ts| - 1], frame)
      + (if t.observedNum >= MIN_HITS then [Report(t.latestRect, t.trackId + 1, frame, t.objConf, t.classId)] else [])
  }

  /** A track is reported exactly when it was observed at least 3 times, with its latest box, confidence and class. */
  lemma {:induction false} ReportedIff(ts: seq<Track>, frame: int, r: Report)
    ensures r in Reports(ts, frame) <==>
              exists t :: t in ts && t.observedNum >= 3
                && r == Report(t.latestRect, t.trackId + 1, frame, t.objConf, t.classId)
  {
    if |ts| > 0 {
      ReportedIff(ts[..|ts| - 1], frame, r);
      assert ts == ts[..|ts| - 1] + [ts[|ts| - 1]];
    }
  }

  /** Reported ids are positive and distinct. */
  lemma {:induction false} ReportsDistinct(ts: seq<Track>, frame: int, nextId: int)
    requires Kept(ts, nextId)
    ensures forall k :: 0 <= k < |Reports(ts, frame)| ==> 1 <= Reports(ts, frame)[k].trackId <= nextId
    ensures forall k :: 0 <= k < |Reports(ts, frame)| ==> HasId(ts, Reports(ts, frame)[k].trackId - 1)
    ensures forall k, l :: 0 <= k < l < |Reports(ts, frame)| ==>
              Reports(ts, frame)[k].trackId != Reports(ts, frame)[l].trackId
  {
    if |ts| > 0 {
      var n := |ts| - 1;
      ReportsDistinct(ts[..n], frame, nextId);
      var before := Reports(ts[..n], frame);
      forall k | 0 <= k < |before|
        ensures HasId(ts, before[k].trackId - 1) && before[k].trackId - 1 != ts[n].trackId
      {
        assert HasId(ts[..n], before[k].trackId - 1);
        var i :| 0 <= i < n && ts[..n][i].trackId == before[k].trackId - 1;
        assert ts[i].trackId == before[k].trackId - 1;
      }
      assert HasId(ts, ts[n].trackId);
    }
  }
}
