/**
 The tracker objects of tmp/tracker_sort: a Kalman tracker's counters, and the frame update that
 predicts, assigns detections with the Hungarian solver, updates, seeds and removes trackers.
 */
module SortTracker {
  import opened Sums
  import opened Assignments
  import opened Boxes
  import opened SortTracks
  import Hungarian

  class KalmanTracker {
    var latestRect: Box
    var timeSinceUpdate: int
    var observedNum: int
    var hitStreak: int
    var age: int
    var trackId: int
    var objConf: real
    var classId: int
    var history: seq<Box>

    ghost function State(): Track
      reads this
    {
      Track(latestRect, timeSinceUpdate, observedNum, hitStreak, age, trackId, objConf, classId, history)
    }

    /** The report of this tracker. */
    ghost function Reported(frame: int): Report
      reads this
    {
      Report(latestRect, trackId + 1, frame, objConf, classId)
    }

    constructor (init: Detection, id: int)
      ensures State() == NewTrack(init, id)
    {
      latestRect := Box(0.0, 0.0, 0.0, 0.0);
      timeSinceUpdate := 0;
      observedNum := 1;
      hitStreak := 0;
      age := 1;
      trackId := id;
      objConf := init.objConf;
      classId := init.classId;
      history := [];
    }

    /** Count one more frame; predictBox is what the filter predicts. */
    method Predict(predictBox: Box)
      modifies this
      ensures State() == Predicted(old(State()), predictBox)
    {
      age := age + 1;
      if timeSinceUpdate > MAX_MISSING_OBSERVED_NUM {
        hitStreak := 0;
      }
      timeSinceUpdate := timeSinceUpdate + 1;
      latestRect := predictBox;
      history := history + [predictBox];
    }

    method Update(d: Detection)
      modifies this
      ensures State() == Observed(old(State()), d)
    {
      latestRect := d.box;
      timeSinceUpdate := 0;
      history := [];
      observedNum := observedNum + 1;
      hitStreak := hitStreak + 1;
      objConf := d.objConf;
      classId := d.classId;
    }
  }

  ghost predicate Distinct(ks: seq<KalmanTracker>) {
    forall i, j :: 0 <= i < j < |ks| ==> ks[i] != ks[j]
  }

  lemma ReportedHere(ks: seq<KalmanTracker>, frame: int, x: Report)
    ensures (exists t :: t in States(ks) && t.observedNum >= 3
               && x == Report(t.latestRect, t.trackId + 1, frame, t.objConf, t.classId))
       <==> (exists i :: 0 <= i < |ks| && ks[i].observedNum >= 3 && x == ks[i].Reported(frame))
  {
    var ts := States(ks);
    if i :| 0 <= i < |ks| && ks[i].observedNum >= 3 && x == ks[i].Reported(frame) { assert ts[i] in ts; }
    if t :| t in ts && t.observedNum >= 3 && x == Report(t.latestRect, t.trackId + 1, frame, t.objConf, t.classId) {
      var i :| 0 <= i < |ts| && ts[i] == t;
      assert ks[i].State() == t;
    }
    hide States;
  }

  ghost predicate Among(ks: seq<KalmanTracker>, objects: set<KalmanTracker>) {
    forall i :: 0 <= i < |ks| ==> ks[i] in objects
  }

  ghost function States(ks: seq<KalmanTracker>): (ts: seq<Track>)
    reads ks
    ensures |ts| == |ks| && forall i :: 0 <= i < |ks| ==> ts[i] == ks[i].State()
  {
    seq(|ks|, i requires 0 <= i < |ks| reads ks => ks[i].State())
  }

  /** 1 - IoU of every predicted box against every detection. */
  ghost function CostMatrix(boxes: seq<Box>, dets: seq<Detection>): (m: seq<seq<real>>)
    ensures |m| == |boxes| && forall i :: 0 <= i < |m| ==> |m[i]| == |dets|
  {
    seq(|boxes|, i requires 0 <= i < |boxes| =>
      seq(|dets|, j requires 0 <= j < |dets| => 1.0 - GetIOU(boxes[i], dets[j].box)))
  }

  lemma AssignmentBounds(n: nat, m: nat, a: seq<int>)
    requires IsAssignment(n, m, a)
    ensures |a| == n && forall i :: 0 <= i < n ==> -1 <= a[i] < m
  {
  }

  /** A largest assignment whose total of 1 - IoU is least to within the solver's tolerance. */
  ghost predicate BestAssignment(boxes: seq<Box>, dets: seq<Detection>, a: seq<int>) {
    && |boxes| > 0 && IsAssignment(|boxes|, |dets|, a)
    && forall b :: IsAssignment(|boxes|, |dets|, b) ==>
         Hungarian.PairCost(CostMatrix(boxes, dets), a, |boxes|)
         <= Hungarian.PairCost(CostMatrix(boxes, dets), b, |boxes|) + Assignments.Min(|boxes|, |dets|) as real * DBL_EPSILON
  }

  /**
   What one frame does to tracks `ts`: the survivors of prediction see the detections that a best
   assignment gives them with enough overlap, the detections left over seed tracks with fresh ids, and
   the dead are removed.
   */
  ghost predicate Frame(ts: seq<Track>, boxes: seq<Box>, dets: seq<Detection>, id: int, a: seq<int>,
                        ts': seq<Track>, id': int) {
    && |boxes| == |ts|
    && BestAssignment(OnScreenBoxes(boxes), dets, a)
    && var s, pairs := Survivors(ts, boxes), Filtered(OnScreenBoxes(boxes), dets, a);
       && |s| == |pairs|
       && id' == id + |LeftOver(pairs, |dets|)|
       && ts' == Living(Updated(s, dets, pairs, id))
  }

  lemma FrameIntro(ts: seq<Track>, boxes: seq<Box>, dets: seq<Detection>, id: int, a: seq<int>, matched: seq<Track>,
                   ts': seq<Track>, id': int)
    requires |boxes| == |ts| && |Survivors(ts, boxes)| == |OnScreenBoxes(boxes)|
    requires BestAssignment(OnScreenBoxes(boxes), dets, a) && |a| == |OnScreenBoxes(boxes)|
    requires var pairs := Filtered(OnScreenBoxes(boxes), dets, a);
             && matched == AfterMatches(Survivors(ts, boxes), dets, pairs)
             && id' == id + |LeftOver(pairs, |dets|)|
             && ts' == Living(matched + Seeds(dets, LeftOver(pairs, |dets|), id))
    ensures Frame(ts, boxes, dets, id, a, ts', id')
  {
  }

  lemma FrameKeepsValid(ts: seq<Track>, boxes: seq<Box>, dets: seq<Detection>, id: int, a: seq<int>,
                        ts': seq<Track>, id': int)
    requires Kept(ts, id) && id >= 0 && Frame(ts, boxes, dets, id, a, ts', id')
    ensures Kept(ts', id') && id' >= id
  {
    var pairs := Filtered(OnScreenBoxes(boxes), dets, a);
    FilteredInjective(OnScreenBoxes(boxes), dets, a);
    FrameKeeps(ts, boxes, dets, pairs, id);
  }

  /** In a frame every detection ends in exactly one track: one whose predicted box it overlaps, or a new one. */
  lemma FrameLandsEveryDetection(ts: seq<Track>, boxes: seq<Box>, dets: seq<Detection>, id: int, a: seq<int>,
                                 ts': seq<Track>, id': int, j: nat) returns (i: nat)
    requires Frame(ts, boxes, dets, id, a, ts', id') && j < |dets|
    ensures var s, pairs := Survivors(ts, boxes), Filtered(OnScreenBoxes(boxes), dets, a);
            && GoesTo(|s|, dets, pairs, j, i)
            && (forall i': nat :: GoesTo(|s|, dets, pairs, j, i') ==> i' == i)
            && (if i < |s| then Observed(s[i], dets[j]) in ts' && GetIOU(s[i].latestRect, dets[j].box) >= IOU_THRESHOLD
                else NewTrack(dets[j], id + i - |s|) in ts')
  {
    var s, pairs := Survivors(ts, boxes), Filtered(OnScreenBoxes(boxes), dets, a);
    FilteredInjective(OnScreenBoxes(boxes), dets, a);
    SurvivorsAligned(ts, boxes);
    hide Survivors, OnScreenBoxes, GetIOU, Living, BestAssignment, LeftOver, AfterMatches, Seeds;
    i := EveryDetectionLands(s, dets, pairs, id, j);
    LandsInPairs(|s|, dets, pairs, j, i);
  }

  /** A place among the matched tracks is the track paired with the detection. */
  lemma LandsInPairs(n: nat, dets: seq<Detection>, pairs: seq<int>, j: nat, i: nat)
    requires |pairs| == n && GoesTo(n, dets, pairs, j, i)
    ensures if i < n then pairs[i] == j else j !in pairs
  {
  }

  class SortTracker {
    var frameCount: int
    var trackers: seq<KalmanTracker>
    var kkfCount: int  // the next track id, a static of KalmanTracker in the source
    var predictedBoxes: seq<Box>
    var iouMatrix: seq<seq<real>>
    var assignment: seq<int>
    var unmatchedDetections: set<int>
    var unmatchedTrajectories: set<int>
    var matchedPairs: seq<(int, int)>
    var trkNum: nat
    var detNum: nat

    ghost predicate Valid()
      reads this, trackers
    {
      Distinct(trackers) && kkfCount >= 0 && Kept(States(trackers), kkfCount)
    }

    constructor ()
      ensures Valid() && trackers == [] && frameCount == 0 && kkfCount == 0
    {
      frameCount := 0;
      trackers := [];
      kkfCount := 0;
      predictedBoxes, iouMatrix, assignment := [], [], [];
      unmatchedDetections, unmatchedTrajectories, matchedPairs := {}, {}, [];
      trkNum, detNum := 0, 0;
    }

    /** A tracker for the detection, with the next id. */
    method Seed(d: Detection)
      requires Distinct(trackers)
      modifies this`trackers, this`kkfCount
      ensures Distinct(trackers)
      ensures kkfCount == old(kkfCount) + 1
      ensures States(trackers) == old(States(trackers)) + [NewTrack(d, old(kkfCount))]
    {
      var trk := new KalmanTracker(d, kkfCount);
      kkfCount := kkfCount + 1;
      trackers := trackers + [trk];
    }

    /** Predict one tracker and drop it if its box is off screen. */
    method PredictOne(it: nat, pBox: Box, ghost objects: set<KalmanTracker>)
      requires it < |trackers| && Distinct(trackers) && Among(trackers, objects)
      modifies this`trackers, this`predictedBoxes, objects
      ensures Distinct(trackers) && Among(trackers, objects)
      ensures States(trackers) == AfterOne(old(States(trackers)), it, pBox)
      ensures predictedBoxes == old(predictedBoxes) + Shown(pBox)
    {
      trackers[it].Predict(pBox);
      if pBox.x >= 0.0 && pBox.y >= 0.0 {
        predictedBoxes := predictedBoxes + [pBox];
      } else {
        trackers := trackers[..it] + trackers[it + 1..];
      }
    }

    /** Predict every tracker and drop those whose box is off screen; boxes[i] is tracker i's prediction. */
    method PredictAll(boxes: seq<Box>, ghost objects: set<KalmanTracker>)
      requires |boxes| == |trackers| && Distinct(trackers) && Among(trackers, objects)
      modifies this`trackers, this`predictedBoxes, objects
      ensures Distinct(trackers) && Among(trackers, objects)
      ensures States(trackers) == Survivors(old(States(trackers)), boxes)
      ensures predictedBoxes == OnScreenBoxes(boxes)
    {
      hide *;
      ghost var ts := States(trackers);
      ProgressEnds(ts, boxes);
      predictedBoxes := [];
      var it := 0;
      for p := 0 to |boxes|
        invariant Distinct(trackers) && Among(trackers, objects)
        invariant States(trackers) == Progress(ts, boxes, p) && it == StillIn(ts, boxes, p)
        invariant predictedBoxes == OnScreenBoxes(boxes[..p])
      {
        ProgressStep(ts, boxes, p);
        PredictOne(it, boxes[p], objects);
        if OnScreen(boxes[p]) {
          it := it + 1;
        }
      }
    }

    /** Fill the cost matrix and solve it. */
    method Assign(dets: seq<Detection>)
      requires 0 < |predictedBoxes| <= 10000 && |dets| <= 10000
      modifies this`iouMatrix, this`assignment, this`trkNum, this`detNum
      ensures trkNum == |predictedBoxes| && detNum == |dets|
      ensures iouMatrix == CostMatrix(predictedBoxes, dets)
      ensures BestAssignment(predictedBoxes, dets, assignment)
    {
      trkNum, detNum := |predictedBoxes|, |dets|;
      iouMatrix := [];
      for i := 0 to trkNum
        invariant trkNum == |predictedBoxes| && detNum == |dets|
        invariant iouMatrix == CostMatrix(predictedBoxes, dets)[..i]
      {
        var row: seq<real> := [];
        for j := 0 to detNum
          invariant row == CostMatrix(predictedBoxes, dets)[i][..j]
        {
          row := row + [1.0 - GetIOU(predictedBoxes[i], dets[j].box)];
        }
        assert row == CostMatrix(predictedBoxes, dets)[i];
        iouMatrix := iouMatrix + [row];
      }
      CostsAccepted(predictedBoxes, dets);
      var cost;
      cost, assignment := Hungarian.Solve(iouMatrix);
    }

    /** Collect the detections and trackers that the assignment leaves out. */
    method CollectUnassigned()
      requires IsAssignment(trkNum, detNum, assignment)
      modifies this`unmatchedDetections, this`unmatchedTrajectories
      ensures unmatchedDetections == Unassigned(assignment, detNum)
      ensures unmatchedTrajectories == Idle(assignment)
    {
      AssignmentCovers(trkNum, detNum, assignment);
      unmatchedTrajectories := {};
      unmatchedDetections := {};
      if detNum > trkNum {
        var allItems: set<int> := {};
        for n := 0 to detNum
          invariant forall j :: j in allItems <==> 0 <= j < n
        {
          allItems := allItems + {n};
        }
        var matchedItems: set<int> := {};
        for i := 0 to trkNum
          invariant forall j :: j in matchedItems <==> j in assignment[..i]
        {
          matchedItems := matchedItems + {assignment[i]};
        }
        assert assignment[..trkNum] == assignment;
        unmatchedDetections := allItems - matchedItems;
      } else if detNum < trkNum {
        for i := 0 to trkNum
          invariant unmatchedDetections == {}
          invariant forall k :: k in unmatchedTrajectories <==> 0 <= k < i && assignment[k] == -1
        {
          if assignment[i] == -1 {
            unmatchedTrajectories := unmatchedTrajectories + {i};
          }
        }
      }
      assert detNum <= trkNum ==> Unassigned(assignment, detNum) == {};
    }

    /** Keep one pair, or drop it if it overlaps too little. */
    method FilterOne(dets: seq<Detection>, i: nat, ghost pairs: seq<int>)
      requires i < |predictedBoxes| == |assignment| == |pairs| && -1 <= assignment[i] < |dets|
      requires iouMatrix == CostMatrix(predictedBoxes, dets)
      requires pairs[i] == FilteredAt(predictedBoxes[i], dets, assignment[i])
      modifies this`unmatchedDetections, this`unmatchedTrajectories, this`matchedPairs
      ensures matchedPairs == old(matchedPairs) + PairAt(i, pairs[i])
      ensures unmatchedDetections == old(unmatchedDetections) + RejectedAt(assignment[i], pairs[i])
      ensures unmatchedTrajectories == old(unmatchedTrajectories) + DroppedAt(i, assignment[i], pairs[i])
    {
      hide GetIOU;
      if assignment[i] == -1 {
        return;
      }
      if 1.0 - iouMatrix[i][assignment[i]] < IOU_THRESHOLD {
        unmatchedTrajectories := unmatchedTrajectories + {i};
        unmatchedDetections := unmatchedDetections + {assignment[i]};
      } else {
        matchedPairs := matchedPairs + [(i, assignment[i])];
      }
    }

    /** Drop the pairs that overlap too little. */
    method FilterPairs(dets: seq<Detection>)
      requires IsAssignment(|predictedBoxes|, |dets|, assignment) && trkNum == |predictedBoxes|
      requires iouMatrix == CostMatrix(predictedBoxes, dets)
      modifies this`unmatchedDetections, this`unmatchedTrajectories, this`matchedPairs
      ensures matchedPairs == PairList(Filtered(predictedBoxes, dets, assignment))
      ensures unmatchedDetections
           == Rejected(old(unmatchedDetections), assignment, Filtered(predictedBoxes, dets, assignment), |assignment|)
      ensures unmatchedTrajectories
           == Dropped(old(unmatchedTrajectories), assignment, Filtered(predictedBoxes, dets, assignment), |assignment|)
    {
      AssignmentBounds(|predictedBoxes|, |dets|, assignment);
      hide *;
      ghost var pairs := Filtered(predictedBoxes, dets, assignment);
      ghost var left, idle := unmatchedDetections, unmatchedTrajectories;
      matchedPairs := [];
      FilterStarts(left, idle, assignment, pairs);
      for i := 0 to trkNum
        invariant FilteredTo(left, idle, assignment, pairs, i, matchedPairs, unmatchedDetections, unmatchedTrajectories)
      {
        FilterStep(left, idle, predictedBoxes, dets, assignment, i, matchedPairs, unmatchedDetections, unmatchedTrajectories);
        FilterOne(dets, i, pairs);
      }
      FilterEnds(left, idle, assignment, pairs, matchedPairs, unmatchedDetections, unmatchedTrajectories);
    }

    /** Sort the assignment into matched pairs, unmatched trackers and unmatched detections. */
    method FindMatches(dets: seq<Detection>)
      requires BestAssignment(predictedBoxes, dets, assignment)
      requires iouMatrix == CostMatrix(predictedBoxes, dets) && trkNum == |predictedBoxes| && detNum == |dets|
      modifies this`unmatchedDetections, this`unmatchedTrajectories, this`matchedPairs
      ensures matchedPairs == PairList(Filtered(predictedBoxes, dets, assignment))
      ensures unmatchedDetections == Unassigned(Filtered(predictedBoxes, dets, assignment), |dets|)
      ensures unmatchedTrajectories == Idle(Filtered(predictedBoxes, dets, assignment))
    {
      CollectUnassigned();
      FilterPairs(dets);
      LeftAfterFilter(assignment, Filtered(predictedBoxes, dets, assignment), |dets|);
    }

    method UpdateAt(idx: nat, d: Detection, ghost objects: set<KalmanTracker>)
      requires idx < |trackers| && Distinct(trackers) && Among(trackers, objects)
      modifies objects
      ensures States(trackers) == WithObserved(old(States(trackers)), idx, d)
    {
      trackers[idx].Update(d);
    }

    method UpdateMatched(dets: seq<Detection>, ghost pairs: seq<int>, ghost objects: set<KalmanTracker>)
      requires Distinct(trackers) && Among(trackers, objects)
      requires |pairs| == |trackers| && PartialInjective(pairs, |dets|) && matchedPairs == PairList(pairs)
      modifies objects
      ensures States(trackers) == AfterMatches(old(States(trackers)), dets, pairs)
    {
      ghost var ts := States(trackers);
      PairListShape(pairs);
      MatchEnds(ts, dets, pairs);
      hide *;
      for i := 0 to |matchedPairs|
        invariant States(trackers) == MatchProgress(ts, dets, pairs, matchedPairs[..i])
      {
        var trkIdx, detIdx := matchedPairs[i].0, matchedPairs[i].1;
        MatchStep(ts, dets, pairs, i);
        UpdateAt(trkIdx, dets[detIdx], objects);
      }
    }

    method SeedUnmatched(dets: seq<Detection>, ghost pairs: seq<int>)
      requires Distinct(trackers) && unmatchedDetections == Unassigned(pairs, |dets|)
      modifies this`trackers, this`kkfCount
      ensures Distinct(trackers) && kkfCount == old(kkfCount) + |LeftOver(pairs, |dets|)|
      ensures States(trackers) == old(States(trackers)) + Seeds(dets, LeftOver(pairs, |dets|), old(kkfCount))
    {
      ghost var ts, id := States(trackers), kkfCount;
      assert SeedProgress(ts, dets, pairs, id, 0) == ts && LeftCount(pairs, 0) == 0;
      for umd := 0 to |dets|  // an ordered set is walked in ascending order
        invariant Distinct(trackers) && kkfCount == id + LeftCount(pairs, umd)
        invariant States(trackers) == SeedProgress(ts, dets, pairs, id, umd)
      {
        hide Distinct, States, SeedProgress, LeftCount;
        SeedStep(ts, dets, pairs, id, umd);
        if umd in unmatchedDetections {
          Seed(dets[umd]);
        }
      }
    }

    method IsDead(it: nat) returns (dead: bool)
      requires it < |trackers|
      ensures dead == Dead(States(trackers)[it])
    {
      dead := trackers[it].timeSinceUpdate > MAX_LOST_TIME
              || (trackers[it].age == MAX_LOST_TIME && trackers[it].timeSinceUpdate == LOWER_MAX_LOST_TIME);
    }

    method EraseAt(it: nat)
      requires it < |trackers| && Distinct(trackers)
      modifies this`trackers
      ensures Distinct(trackers)
      ensures States(trackers) == Without(old(States(trackers)), it)
    {
      trackers := trackers[..it] + trackers[it + 1..];
    }

    method RemoveDead()
      requires Distinct(trackers)
      modifies this`trackers
      ensures Distinct(trackers)
      ensures States(trackers) == Living(old(States(trackers)))
    {
      ghost var ts := States(trackers);
      LivingEnds(ts);
      hide *;
      var it := 0;
      for p := 0 to |trackers|
        invariant Distinct(trackers)
        invariant States(trackers) == LivingProgress(ts, p) && it == LivingCount(ts, p)
      {
        LivingStep(ts, p);
        var dead := IsDead(it);
        if dead {
          EraseAt(it);
        } else {
          it := it + 1;
        }
      }
    }

    /** The first frame, or one with nothing tracked: every detection seeds a tracker. */
    method SeedAll(dets: seq<Detection>)
      requires Distinct(trackers) && trackers == []
      modifies this`trackers, this`kkfCount
      ensures Distinct(trackers) && kkfCount == old(kkfCount) + |dets|
      ensures States(trackers) == Seeds(dets, Everyone(|dets|), old(kkfCount))
    {
      for i := 0 to |dets|
        invariant Distinct(trackers) && kkfCount == old(kkfCount) + i
        invariant States(trackers) == Seeds(dets, Everyone(i), old(kkfCount))
      {
        Seed(dets[i]);
      }
    }

    /** Assign the detections to the predicted boxes and let the matched trackers see them. */
    method Associate(dets: seq<Detection>, ghost s: seq<Track>, ghost objects: set<KalmanTracker>)
      returns (ghost matched: seq<Track>)
      requires Among(trackers, objects)
      requires Distinct(trackers) && s == States(trackers) && |predictedBoxes| == |trackers|
      requires 0 < |predictedBoxes| <= 10000 && |dets| <= 10000
      modifies this`iouMatrix, this`assignment, this`trkNum, this`detNum
      modifies this`unmatchedDetections, this`unmatchedTrajectories, this`matchedPairs, objects
      ensures |assignment| == |predictedBoxes| && BestAssignment(predictedBoxes, dets, assignment)
      ensures unmatchedDetections == Unassigned(Filtered(predictedBoxes, dets, assignment), |dets|)
      ensures matched == States(trackers) == AfterMatches(s, dets, Filtered(predictedBoxes, dets, assignment))
    {
      hide GetIOU, CostMatrix, AfterMatches, PairList, Unassigned, Idle;
      Assign(dets);
      FindMatches(dets);
      FilteredInjective(predictedBoxes, dets, assignment);
      UpdateMatched(dets, Filtered(predictedBoxes, dets, assignment), objects);
      matched := States(trackers);
    }

    /** Seed trackers for the detections left over and remove the dead ones. */
    method SeedAndRemove(dets: seq<Detection>, ghost pairs: seq<int>, ghost matched: seq<Track>)
      requires Distinct(trackers) && matched == States(trackers) && unmatchedDetections == Unassigned(pairs, |dets|)
      modifies this`trackers, this`kkfCount
      ensures Distinct(trackers) && kkfCount == old(kkfCount) + |LeftOver(pairs, |dets|)|
      ensures States(trackers) == Living(matched + Seeds(dets, LeftOver(pairs, |dets|), old(kkfCount)))
    {
      hide *;
      SeedUnmatched(dets, pairs);
      RemoveDead();
    }

    /** A frame with something tracked. */
    method UpdateTracked(dets: seq<Detection>, boxes: seq<Box>, ghost ts: seq<Track>, ghost objects: set<KalmanTracker>)
      requires Distinct(trackers) && Among(trackers, objects) && ts == States(trackers) && |boxes| == |trackers|
      requires 0 < |OnScreenBoxes(boxes)| <= 10000 && |dets| <= 10000
      modifies this, objects
      ensures Distinct(trackers) && frameCount == old(frameCount)
      ensures Frame(ts, boxes, dets, old(kkfCount), assignment, States(trackers), kkfCount)
    {
      hide *;
      SurvivorsAligned(ts, boxes);
      PredictAll(boxes, objects);
      ghost var s := States(trackers);
      ghost var matched := Associate(dets, s, objects);
      SeedAndRemove(dets, Filtered(predictedBoxes, dets, assignment), matched);
      FrameIntro(ts, boxes, dets, old(kkfCount), assignment, matched, States(trackers), kkfCount);
    }

    /**
     One frame. boxes[i] is what tracker i's filter predicts. The source reads the first row of the
     cost matrix and every assigned index, so some prediction must be on screen and both sides must be
     within the solver's limit.
     */
    method Update(dets: seq<Detection>, boxes: seq<Box>)
      requires Valid()
      requires trackers != [] ==> |boxes| == |trackers| && 0 < |OnScreenBoxes(boxes)| <= 10000 && |dets| <= 10000
      modifies this, trackers
      ensures Valid() && frameCount == old(frameCount) + 1
      ensures old(trackers) == [] ==>
                kkfCount == old(kkfCount) + |dets| && States(trackers) == Seeds(dets, Everyone(|dets|), old(kkfCount))
      ensures old(trackers) != [] ==>
                Frame(old(States(trackers)), boxes, dets, old(kkfCount), assignment, States(trackers), kkfCount)
    {
      hide Frame, OnScreenBoxes, KalmanTracker.State;
      frameCount := frameCount + 1;
      if |trackers| == 0 {
        SeedAll(dets);
      } else {
        ghost var ts, id, objects := States(trackers), kkfCount, set k | k in trackers;
        UpdateTracked(dets, boxes, ts, objects);
        FrameKeepsValid(ts, boxes, dets, id, assignment, States(trackers), kkfCount);
      }
    }

    /** The trackers seen often enough. */
    method GetReport() returns (r: seq<Report>)
      requires Valid()
      ensures r == Reports(States(trackers), frameCount)
      ensures forall x :: x in r <==>
                exists i :: 0 <= i < |trackers| && trackers[i].observedNum >= 3 && x == trackers[i].Reported(frameCount)
      ensures forall k :: 0 <= k < |r| ==> 1 <= r[k].trackId <= kkfCount && r[k].frameId == frameCount
      ensures forall k, l :: 0 <= k < l < |r| ==> r[k].trackId != r[l].trackId
    {
      ghost var ts := States(trackers);
      r := [];
      for i := 0 to |trackers|
        invariant r == Reports(ts[..i], frameCount)
        invariant forall k :: 0 <= k < |r| ==> r[k].frameId == frameCount
      {
        assert ts[..i + 1][..i] == ts[..i];
        var t := trackers[i];
        if t.observedNum >= MIN_HITS {
          r := r + [Report(t.latestRect, t.trackId + 1, frameCount, t.objConf, t.classId)];
        }
      }
      assert ts[..|trackers|] == ts;
      ReportsDistinct(ts, frameCount, kkfCount);
      forall x
        ensures x in r <==>
                  exists i :: 0 <= i < |trackers| && trackers[i].observedNum >= 3 && x == trackers[i].Reported(frameCount)
      {
        ReportedIff(ts, frameCount, x);
        ReportedHere(trackers, frameCount, x);
      }
    }
  }

  /** The detections below m that are in no pair. */
  ghost function Unassigned(a: seq<int>, m: nat): set<int> {
    set j | 0 <= j < m && j !in a
  }

  /** The trackers without a pair. */
  ghost function Idle(a: seq<int>): set<int> {
    set i | 0 <= i < |a| && a[i] < 0
  }

  /** The detections, and the trackers, whose pairs among the first n were dropped, besides those left before. */
  ghost function Rejected(left: set<int>, a: seq<int>, pairs: seq<int>, n: nat): set<int>
    requires n <= |a| == |pairs|
  {
    left + set i | 0 <= i < n && a[i] >= 0 && pairs[i] < 0 :: a[i]
  }

  ghost function Dropped(idle: set<int>, a: seq<int>, pairs: seq<int>, n: nat): set<int>
    requires n <= |a| == |pairs|
  {
    idle + set i | 0 <= i < n && a[i] >= 0 && pairs[i] < 0
  }

  ghost function RejectedAt(a: int, p: int): set<int> { if a >= 0 && p < 0 then {a} else {} }

  ghost function DroppedAt(n: int, a: int, p: int): set<int> { if a >= 0 && p < 0 then {n} else {} }

  /** The first n pairs have been filtered. */
  ghost predicate FilteredTo(left: set<int>, idle: set<int>, a: seq<int>, pairs: seq<int>, n: nat,
                             matched: seq<(int, int)>, dets: set<int>, tracks: set<int>)
    requires n <= |a| == |pairs|
  {
    matched == PairList(pairs[..n]) && dets == Rejected(left, a, pairs, n) && tracks == Dropped(idle, a, pairs, n)
  }

  lemma FilterStarts(left: set<int>, idle: set<int>, a: seq<int>, pairs: seq<int>)
    requires |a| == |pairs|
    ensures FilteredTo(left, idle, a, pairs, 0, [], left, idle)
  {
  }

  lemma FilterEnds(left: set<int>, idle: set<int>, a: seq<int>, pairs: seq<int>,
                   matched: seq<(int, int)>, dets: set<int>, tracks: set<int>)
    requires |a| == |pairs| && FilteredTo(left, idle, a, pairs, |a|, matched, dets, tracks)
    ensures matched == PairList(pairs)
    ensures dets == Rejected(left, a, pairs, |a|) && tracks == Dropped(idle, a, pairs, |a|)
  {
    assert pairs[..|a|] == pairs;
    hide PairList, Rejected, Dropped;
  }

  lemma FilterStep(left: set<int>, idle: set<int>, boxes: seq<Box>, dets: seq<Detection>, a: seq<int>, n: nat,
                   matched: seq<(int, int)>, out: set<int>, tracks: set<int>)
    requires n < |a| == |boxes| && forall i :: 0 <= i < |a| ==> -1 <= a[i] < |dets|
    requires FilteredTo(left, idle, a, Filtered(boxes, dets, a), n, matched, out, tracks)
    ensures var pairs := Filtered(boxes, dets, a);
            && pairs[n] == FilteredAt(boxes[n], dets, a[n])
            && FilteredTo(left, idle, a, pairs, n + 1, matched + PairAt(n, pairs[n]), out + RejectedAt(a[n], pairs[n]),
                          tracks + DroppedAt(n, a[n], pairs[n]))
  {
    hide GetIOU;
    var pairs := Filtered(boxes, dets, a);
    assert pairs[..n + 1][..n] == pairs[..n];
    assert Rejected(left, a, pairs, n + 1) == Rejected(left, a, pairs, n) + RejectedAt(a[n], pairs[n]);
    assert Dropped(idle, a, pairs, n + 1) == Dropped(idle, a, pairs, n) + DroppedAt(n, a[n], pairs[n]);
  }

  /** What the assignment left out and what the filter dropped are together what is in no pair. */
  lemma LeftAfterFilter(a: seq<int>, pairs: seq<int>, m: nat)
    requires |a| == |pairs| && PartialInjective(a, m)
    requires forall i :: 0 <= i < |a| ==> pairs[i] == a[i] || pairs[i] == -1
    ensures Rejected(Unassigned(a, m), a, pairs, |a|) == Unassigned(pairs, m)
    ensures Dropped(Idle(a), a, pairs, |a|) == Idle(pairs)
  {
    forall j | 0 <= j < m ensures j !in pairs <==> j in Rejected(Unassigned(a, m), a, pairs, |a|) {
      if j in pairs {
        var i :| 0 <= i < |pairs| && pairs[i] == j;
        assert a[i] == j;
      } else if j in a {
        var i :| 0 <= i < |a| && a[i] == j;
        assert pairs[i] != j;
      }
    }
  }

  /** Tracker k is in the list. */
  ghost predicate HasFirst(list: seq<(int, int)>, k: int) {
    exists q :: 0 <= q < |list| && list[q].0 == k
  }

  lemma HasFirstStep(list: seq<(int, int)>, i: nat)
    requires i < |list|
    ensures forall k :: HasFirst(list[..i + 1], k) <==> HasFirst(list[..i], k) || k == list[i].0
  {
    forall k ensures HasFirst(list[..i + 1], k) <==> HasFirst(list[..i], k) || k == list[i].0 {
      if HasFirst(list[..i], k) {
        var q :| 0 <= q < i && list[..i][q].0 == k;
        assert list[..i + 1][q].0 == k;
      }
      if k == list[i].0 { assert list[..i + 1][i].0 == k; }
    }
  }

  /** The list holds each matched tracker at most once, with its detection, and nothing else. */
  lemma {:induction false} PairListShape(pairs: seq<int>)
    ensures forall q :: 0 <= q < |PairList(pairs)| ==>
              0 <= PairList(pairs)[q].0 < |pairs| && pairs[PairList(pairs)[q].0] == PairList(pairs)[q].1 >= 0
    ensures forall q, q' :: 0 <= q < q' < |PairList(pairs)| ==> PairList(pairs)[q].0 < PairList(pairs)[q'].0
  {
    if |pairs| > 0 { PairListShape(pairs[..|pairs| - 1]); }
  }

  /** And it holds every matched tracker. */
  lemma {:induction false} PairListComplete(pairs: seq<int>, k: nat)
    requires k < |pairs|
    ensures HasFirst(PairList(pairs), k) <==> pairs[k] >= 0
    decreases |pairs|
  {
    var n := |pairs| - 1;
    var before := PairList(pairs[..n]);
    PairListShape(pairs);
    if k < n && pairs[k] >= 0 {
      PairListComplete(pairs[..n], k);
      var q :| 0 <= q < |before| && before[q].0 == k;
      assert PairList(pairs)[q].0 == k;
    } else if pairs[k] >= 0 {
      assert PairList(pairs)[|before|].0 == k;
    }
  }

  ghost function WithObserved(ts: seq<Track>, idx: nat, d: Detection): seq<Track>
    requires idx < |ts|
  {
    ts[idx := Observed(ts[idx], d)]
  }

  /** The tracks once the listed ones have seen their detections. */
  ghost function MatchProgress(ts: seq<Track>, dets: seq<Detection>, pairs: seq<int>, list: seq<(int, int)>): (r: seq<Track>)
    requires |pairs| == |ts| && forall k :: 0 <= k < |pairs| ==> -1 <= pairs[k] < |dets|
    ensures |r| == |ts|
  {
    seq(|ts|, k requires 0 <= k < |ts| =>
      if HasFirst(list, k) && pairs[k] >= 0 then Observed(ts[k], dets[pairs[k]]) else ts[k])
  }

  lemma MatchEnds(ts: seq<Track>, dets: seq<Detection>, pairs: seq<int>)
    requires |pairs| == |ts| && forall k :: 0 <= k < |pairs| ==> -1 <= pairs[k] < |dets|
    ensures MatchProgress(ts, dets, pairs, PairList(pairs)[..0]) == ts
    ensures MatchProgress(ts, dets, pairs, PairList(pairs)[..|PairList(pairs)|]) == AfterMatches(ts, dets, pairs)
  {
    assert PairList(pairs)[..|PairList(pairs)|] == PairList(pairs);
    forall k: nat | k < |pairs| ensures HasFirst(PairList(pairs), k) <==> pairs[k] >= 0 { PairListComplete(pairs, k); }
  }

  lemma MatchStep(ts: seq<Track>, dets: seq<Detection>, pairs: seq<int>, i: nat)
    requires |pairs| == |ts| && forall k :: 0 <= k < |pairs| ==> -1 <= pairs[k] < |dets|
    requires i < |PairList(pairs)|
    ensures 0 <= PairList(pairs)[i].0 < |ts| && 0 <= PairList(pairs)[i].1 < |dets|
    ensures MatchProgress(ts, dets, pairs, PairList(pairs)[..i + 1])
         == WithObserved(MatchProgress(ts, dets, pairs, PairList(pairs)[..i]), PairList(pairs)[i].0, dets[PairList(pairs)[i].1])
  {
    PairListShape(pairs);
    HasFirstStep(PairList(pairs), i);
    assert !HasFirst(PairList(pairs)[..i], PairList(pairs)[i].0);
  }

  /** Overlaps are from 0 to 1, so the solver accepts the costs. */
  lemma CostsAccepted(boxes: seq<Box>, dets: seq<Detection>)
    requires 0 < |boxes| <= 10000 && |dets| <= 10000
    ensures Hungarian.Readable(CostMatrix(boxes, dets)) && Hungarian.Accepted(CostMatrix(boxes, dets))
  {
    forall i, j | 0 <= i < |boxes| && 0 <= j < |dets| ensures 0.0 <= CostMatrix(boxes, dets)[i][j] <= 1.0 {
      IouInRange(boxes[i], dets[j].box);
    }
  }
}
