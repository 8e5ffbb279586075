/**
 The post-processor of postprocessors/tracker: detections of the tracked labels take over the ids of
 the tracks they overlap best.
 */
module TrackerProcessor {
  import FaceFrames
  import opened Boxes
  import Assignments
  import SortTracks

  const MINIMUM_ASSIGNMENT_IOU: real := 0.1

  datatype Object = Object(labelName: string, rect: Box, trackId: int)

  /** A track returned by the tracker; tlbr holds left, top, right, bottom. */
  datatype STrack = STrack(trackId: int, tlbr: seq<real>)

  function IntersectionOverUnion(detection: Box, tlbr: seq<real>): real {
    if |tlbr| != 4 then 0.0
    else
      var intersection := CommonArea(detection, tlbr);
      var unionArea := detection.Area() + TrackArea(tlbr) - intersection;
      if unionArea > 0.0 then intersection / unionArea else 0.0
  }

  function CommonArea(detection: Box, tlbr: seq<real>): real
    requires |tlbr| == 4
  {
    var left := Max(detection.x, tlbr[0]);
    var top := Max(detection.y, tlbr[1]);
    var right := Min(detection.x + detection.width, tlbr[2]);
    var bottom := Min(detection.y + detection.height, tlbr[3]);
    Max(0.0, right - left) * Max(0.0, bottom - top)
  }

  /** The box that a track's four numbers bound. */
  function TrackBox(tlbr: seq<real>): Box
    requires |tlbr| == 4
  {
    Box(tlbr[0], tlbr[1], tlbr[2] - tlbr[0], tlbr[3] - tlbr[1])
  }

  /** The area of a track's box, 0 when the numbers are the wrong way round. */
  function TrackArea(tlbr: seq<real>): real
    requires |tlbr| == 4
  {
    Max(0.0, tlbr[2] - tlbr[0]) * Max(0.0, tlbr[3] - tlbr[1])
  }

  /** The overlap is the share of the common points, for whatever box c has these. */
  lemma OverlapMeans(detection: Box, tlbr: seq<real>, c: Box)
    requires Positive(detection) && |tlbr| == 4 && CommonPart(detection, TrackBox(tlbr), c)
    ensures var union := detection.width * detection.height + TrackArea(tlbr) - c.width * c.height;
            union > 0.0 && IntersectionOverUnion(detection, tlbr) * union == c.width * c.height
  {
    hide *;
    CommonPartIs(detection, TrackBox(tlbr), c);
    AreaIs(c);
    OverlapBound(detection, tlbr);
    OverlapByArea(detection, tlbr);
  }

  lemma OverlapByArea(detection: Box, tlbr: seq<real>)
    requires Positive(detection) && |tlbr| == 4
    ensures var inter := detection.Intersect(TrackBox(tlbr)).Area();
            var union := detection.width * detection.height + TrackArea(tlbr) - inter;
            IntersectionOverUnion(detection, tlbr) == if union > 0.0 then inter / union else 0.0
  {
    IntersectionArea(detection, tlbr);
    AreaIs(detection);
    hide Box.Intersect, Box.Area, CommonArea, TrackArea;
  }

  /** The product of the clipped extents is the area of the common part. */
  lemma IntersectionArea(detection: Box, tlbr: seq<real>)
    requires Positive(detection) && |tlbr| == 4
    ensures CommonArea(detection, tlbr) == detection.Intersect(TrackBox(tlbr)).Area()
  {
  }

  lemma TrackAreaIs(tlbr: seq<real>)
    requires |tlbr| == 4
    ensures TrackArea(tlbr) == if Positive(TrackBox(tlbr)) then TrackBox(tlbr).Area() else 0.0
  {
  }

  lemma OverlapBound(detection: Box, tlbr: seq<real>)
    requires Positive(detection) && |tlbr| == 4
    ensures detection.Intersect(TrackBox(tlbr)).Area() < detection.width * detection.height + TrackArea(tlbr)
  {
    var b := TrackBox(tlbr);
    IntersectionWithin(detection, b);
    PositiveHasArea(detection);
    AreaIs(detection);
    TrackAreaIs(tlbr);
    if Positive(b) { PositiveHasArea(b); } else { assert detection.Intersect(b).Area() == 0.0; }
    hide Box.Area, TrackArea, Box.Intersect;
  }

  /** For boxes with an extent it is the overlap that the other tracker uses, save that this one's tolerance is 0. */
  lemma SameOverlap(detection: Box, tlbr: seq<real>)
    requires Positive(detection) && |tlbr| == 4 && Positive(TrackBox(tlbr))
    requires SortTracks.UnionArea(detection, TrackBox(tlbr), detection.Intersect(TrackBox(tlbr))) >= Assignments.DBL_EPSILON
    ensures IntersectionOverUnion(detection, tlbr) == SortTracks.GetIOU(detection, TrackBox(tlbr))
  {
    hide CommonArea, TrackArea, IntersectionOverUnion, SortTracks.GetIOU, CommonPart, Box.Intersect, Box.Area;
    var b := TrackBox(tlbr);
    var c := detection.Intersect(b);
    IntersectPoints(detection, b);
    OverlapMeans(detection, tlbr, c);
    SortTracks.IouMeans(detection, b, c);
    TrackAreaIs(tlbr);
    AreaIs(b);
    var u := SortTracks.UnionArea(detection, b, c);
    SameQuotient(IntersectionOverUnion(detection, tlbr), SortTracks.GetIOU(detection, b), u);
    hide *;
  }

  lemma SameQuotient(p: real, q: real, u: real)
    requires u > 0.0 && p * u == q * u
    ensures p == q
  {
    assert (p - q) * u == 0.0;
  }

  ghost function Iou(rects: seq<Box>, tracks: seq<STrack>, d: nat, k: nat): real
    requires d < |rects| && k < |tracks|
  {
    IntersectionOverUnion(rects[d], tracks[k].tlbr)
  }

  /** Track k's choice c among the detections that earlier tracks left: the last of the best, if good enough. */
  ghost predicate BestOf(rects: seq<Box>, tracks: seq<STrack>, k: nat, taken: seq<int>, c: int)
    requires k < |tracks|
  {
    && -1 <= c < |rects| && (c >= 0 ==> c !in taken)
    && (c >= 0 ==> Iou(rects, tracks, c, k) >= MINIMUM_ASSIGNMENT_IOU)
    && forall d: nat :: d < |rects| && d !in taken ==>
         if c < 0 then Iou(rects, tracks, d, k) < MINIMUM_ASSIGNMENT_IOU
         else Iou(rects, tracks, d, k) < Iou(rects, tracks, c, k) || (Iou(rects, tracks, d, k) == Iou(rects, tracks, c, k) && d <= c)
  }

  /** The tracks choose one after the other. */
  ghost predicate GreedyChoice(rects: seq<Box>, tracks: seq<STrack>, chosen: seq<int>) {
    && |chosen| <= |tracks|
    && forall k :: 0 <= k < |chosen| ==> BestOf(rects, tracks, k, chosen[..k], chosen[k])
  }

  /** No detection is chosen twice. */
  lemma GreedyDistinct(rects: seq<Box>, tracks: seq<STrack>, chosen: seq<int>)
    requires GreedyChoice(rects, tracks, chosen)
    ensures forall i, j :: 0 <= i < j < |chosen| && chosen[i] >= 0 ==> chosen[i] != chosen[j]
  {
    forall i, j | 0 <= i < j < |chosen| && chosen[i] >= 0 ensures chosen[i] != chosen[j] {
      assert BestOf(rects, tracks, j, chosen[..j], chosen[j]);
      assert chosen[..j][i] == chosen[i];
    }
  }

  /** The choices are determined. */
  lemma {:induction false} GreedyUnique(rects: seq<Box>, tracks: seq<STrack>, a: seq<int>, b: seq<int>)
    requires GreedyChoice(rects, tracks, a) && GreedyChoice(rects, tracks, b) && |a| == |b|
    ensures a == b
  {
    if |a| > 0 {
      var n := |a| - 1;
      forall k | 0 <= k < n
        ensures BestOf(rects, tracks, k, a[..n][..k], a[..n][k]) && BestOf(rects, tracks, k, b[..n][..k], b[..n][k])
      {
        assert a[..n][..k] == a[..k] && b[..n][..k] == b[..k];
      }
      GreedyUnique(rects, tracks, a[..n], b[..n]);
      assert BestOf(rects, tracks, n, a[..n], a[n]) && BestOf(rects, tracks, n, b[..n], b[n]);
      assert a[n] == b[n];
      assert a == a[..n] + [a[n]] && b == b[..n] + [b[n]];
    }
  }

  /** The last of the best detections that are not assigned, or -1. */
  method BestDetection(rects: seq<Box>, tracks: seq<STrack>, k: nat, given: array<bool>, ghost taken: seq<int>)
    returns (best: int)
    requires k < |tracks| && given.Length == |rects|
    requires forall d: nat :: d < |rects| ==> (given[d] <==> d in taken)
    ensures BestOf(rects, tracks, k, taken, best)
    ensures best >= 0 ==> IntersectionOverUnion(rects[best], tracks[k].tlbr) >= 0.1
    ensures best < 0 ==> forall d: nat :: d < |rects| && d !in taken ==> IntersectionOverUnion(rects[d], tracks[k].tlbr) < 0.1
    ensures best >= 0 ==> forall d: nat :: d < |rects| && d !in taken && d > best ==>
              IntersectionOverUnion(rects[d], tracks[k].tlbr) < IntersectionOverUnion(rects[best], tracks[k].tlbr)
    ensures best >= 0 ==> forall d: nat :: d < |rects| && d !in taken ==>
              IntersectionOverUnion(rects[d], tracks[k].tlbr) <= IntersectionOverUnion(rects[best], tracks[k].tlbr)
  {
    var bestIou := MINIMUM_ASSIGNMENT_IOU;
    best := -1;
    for index := 0 to |rects|
      invariant -1 <= best < index && (best >= 0 ==> best !in taken && bestIou == Iou(rects, tracks, best, k))
      invariant bestIou >= MINIMUM_ASSIGNMENT_IOU && (best < 0 ==> bestIou == MINIMUM_ASSIGNMENT_IOU)
      invariant forall d: nat :: d < index && d !in taken ==>
                  if best < 0 then Iou(rects, tracks, d, k) < bestIou
                  else Iou(rects, tracks, d, k) < bestIou || (Iou(rects, tracks, d, k) == bestIou && d <= best)
    {
      if given[index] {
        continue;
      }
      var iou := IntersectionOverUnion(rects[index], tracks[k].tlbr);
      assert iou == Iou(rects, tracks, index, k);
      if iou >= bestIou {
        bestIou := iou;
        best := index;
      }
    }
  }

  /** The positions of a label among the first n objects. */
  ghost function IndicesOf(objects: seq<Object>, name: string, n: nat): (r: seq<nat>)
    requires n <= |objects|
    ensures forall k :: 0 <= k < |r| ==> r[k] < n && objects[r[k]].labelName == name
    ensures forall i, j :: 0 <= i < j < |r| ==> r[i] < r[j]
  {
    if n == 0 then []
    else IndicesOf(objects, name, n - 1) + (if objects[n - 1].labelName == name then [n - 1] else [])
  }

  ghost function Rects(objects: seq<Object>, indices: seq<nat>): (r: seq<Box>)
    requires forall k :: 0 <= k < |indices| ==> indices[k] < |objects|
    ensures |r| == |indices| && forall k :: 0 <= k < |r| ==> r[k] == objects[indices[k]].rect
  {
    seq(|indices|, k requires 0 <= k < |indices| => objects[indices[k]].rect)
  }


  /** Track k chose the object at position i. */
  ghost predicate ChosenBy(i: int, indices: seq<nat>, chosen: seq<int>, k: int) {
    0 <= k < |chosen| && 0 <= chosen[k] < |indices| && indices[chosen[k]] == i
  }

  /** What one label's tracks do to the objects. */
  ghost predicate LabelDone(was: seq<Object>, now: seq<Object>, indices: seq<nat>, tracks: seq<STrack>, chosen: seq<int>) {
    && |was| == |now| && |chosen| <= |tracks|
    && (forall i, k :: 0 <= i < |now| && ChosenBy(i, indices, chosen, k) ==> now[i] == was[i].(trackId := tracks[k].trackId))
    && (forall i :: 0 <= i < |now| && !(exists k :: ChosenBy(i, indices, chosen, k)) ==> now[i] == was[i])
  }

  /** Hand the ids of one label's tracks to its detections. */
  method AssignLabel(objects: array<Object>, indices: seq<nat>, tracks: seq<STrack>) returns (ghost chosen: seq<int>)
    requires forall k :: 0 <= k < |indices| ==> indices[k] < objects.Length
    requires forall i, j :: 0 <= i < j < |indices| ==> indices[i] < indices[j]
    modifies objects
    ensures |chosen| == |tracks| && GreedyChoice(Rects(old(objects[..]), indices), tracks, chosen)
    ensures LabelDone(old(objects[..]), objects[..], indices, tracks, chosen)
  {
    ghost var was := objects[..];
    var rects := seq(|indices|, k requires 0 <= k < |indices| reads objects => objects[indices[k]].rect);
    assert rects == Rects(was, indices);
    var given := new bool[|indices|](_ => false);
    chosen := [];
    for k := 0 to |tracks|
      invariant |chosen| == k && GreedyChoice(rects, tracks, chosen)
      invariant forall d: nat :: d < |rects| ==> (given[d] <==> d in chosen)
      invariant LabelDone(was, objects[..], indices, tracks, chosen)
    {
      var best := BestDetection(rects, tracks, k, given, chosen);
      GreedyExtends(rects, tracks, chosen, best);
      DoneExtends(was, objects[..], indices, tracks, chosen, best);
      ghost var now := objects[..];
      if best >= 0 {
        var originalIndex := indices[best];
        objects[originalIndex] := objects[originalIndex].(trackId := tracks[k].trackId);
        assert objects[..] == now[originalIndex := now[originalIndex].(trackId := tracks[k].trackId)];
        given[best] := true;
      }
      chosen := chosen + [best];
    }
  }

  lemma GreedyExtends(rects: seq<Box>, tracks: seq<STrack>, chosen: seq<int>, c: int)
    requires GreedyChoice(rects, tracks, chosen) && |chosen| < |tracks| && BestOf(rects, tracks, |chosen|, chosen, c)
    ensures GreedyChoice(rects, tracks, chosen + [c])
  {
    forall k | 0 <= k <= |chosen| ensures BestOf(rects, tracks, k, (chosen + [c])[..k], (chosen + [c])[k]) {
      assert (chosen + [c])[..k] == chosen[..k];
      assert chosen[..|chosen|] == chosen;
    }
  }

  lemma DoneExtends(was: seq<Object>, now: seq<Object>, indices: seq<nat>, tracks: seq<STrack>, chosen: seq<int>, c: int)
    requires LabelDone(was, now, indices, tracks, chosen) && |chosen| < |tracks|
    requires forall k :: 0 <= k < |indices| ==> indices[k] < |was|
    requires forall i, j :: 0 <= i < j < |indices| ==> indices[i] < indices[j]
    requires -1 <= c < |indices| && (c >= 0 ==> c !in chosen)
    ensures LabelDone(was,
                      if c < 0 then now else now[indices[c] := now[indices[c]].(trackId := tracks[|chosen|].trackId)],
                      indices, tracks, chosen + [c])
  {
    var n := |chosen|;
    var now' := if c < 0 then now else now[indices[c] := now[indices[c]].(trackId := tracks[n].trackId)];
    forall i, k ensures ChosenBy(i, indices, chosen + [c], k) <==>
                          ChosenBy(i, indices, chosen, k) || (k == n && c >= 0 && indices[c] == i)
    {
    }
    if c >= 0 {
      assert forall k :: 0 <= k < |chosen| ==> chosen[k] != c;
      assert ChosenBy(indices[c], indices, chosen + [c], n);
    }
    forall i | 0 <= i < |now'| && !(exists k :: ChosenBy(i, indices, chosen + [c], k)) ensures now'[i] == was[i] {
      assert forall k :: ChosenBy(i, indices, chosen, k) ==> ChosenBy(i, indices, chosen + [c], k);
    }
  }

  /** Ids are not negative and no two tracks, of whatever labels, share one. */
  ghost predicate IdsDistinct(tracks: map<string, seq<STrack>>) {
    && (forall a, k :: a in tracks && 0 <= k < |tracks[a]| ==> tracks[a][k].trackId >= 0)
    && (forall a, k, b, l ::
          (a in tracks && 0 <= k < |tracks[a]| && b in tracks && 0 <= l < |tracks[b]|
           && tracks[a][k].trackId == tracks[b][l].trackId) ==> a == b && k == l)
  }

  ghost function Cleared(objects: seq<Object>): (r: seq<Object>)
    ensures |r| == |objects| && forall i :: 0 <= i < |r| ==> r[i] == objects[i].(trackId := -1)
  {
    seq(|objects|, i requires 0 <= i < |objects| => objects[i].(trackId := -1))
  }

  /** One label's detections: its tracks chose greedily, and the ids went where they chose. */
  ghost predicate LabelServed(was: seq<Object>, now: seq<Object>, name: string, tracks: seq<STrack>, chosen: seq<int>)
    requires |was| == |now|
  {
    var indices := IndicesOf(was, name, |was|);
    && |chosen| == |tracks| && GreedyChoice(Rects(was, indices), tracks, chosen)
    && (forall i, k :: 0 <= i < |now| && was[i].labelName == name && ChosenBy(i, indices, chosen, k) ==>
          now[i] == was[i].(trackId := tracks[k].trackId))
    && (forall i :: 0 <= i < |now| && was[i].labelName == name && !(exists k :: ChosenBy(i, indices, chosen, k)) ==>
          now[i] == was[i])
  }

  ghost predicate SameBoxes(a: seq<Object>, b: seq<Object>) {
    |a| == |b| && forall i :: 0 <= i < |a| ==> a[i].labelName == b[i].labelName && a[i].rect == b[i].rect
  }

  lemma {:induction false} SameIndices(a: seq<Object>, b: seq<Object>, name: string, n: nat)
    requires SameBoxes(a, b) && n <= |a|
    ensures IndicesOf(a, name, n) == IndicesOf(b, name, n)
  {
    if n > 0 { SameIndices(a, b, name, n - 1); }
  }

  /** Serving one label leaves the others' objects alone. */
  lemma ServedKeeps(was: seq<Object>, before: seq<Object>, now: seq<Object>, name: string, tracks: seq<STrack>, chosen: seq<int>)
    requires SameBoxes(was, before)
    requires forall i :: 0 <= i < |was| && was[i].labelName == name ==> before[i] == was[i]
    requires var indices := IndicesOf(was, name, |was|);
             |chosen| == |tracks| && GreedyChoice(Rects(was, indices), tracks, chosen)
             && LabelDone(before, now, indices, tracks, chosen)
    ensures SameBoxes(was, now) && LabelServed(was, now, name, tracks, chosen)
    ensures forall i :: 0 <= i < |now| && was[i].labelName != name ==> now[i] == before[i]
  {
    var indices := IndicesOf(was, name, |was|);
    forall i | 0 <= i < |now|
      ensures SameObject(was[i], now[i]) && (was[i].labelName != name ==> now[i] == before[i])
    {
      if k :| ChosenBy(i, indices, chosen, k) {
        assert now[i] == before[i].(trackId := tracks[k].trackId);
        assert was[i].labelName == name;
      }
    }
  }

  ghost predicate SameObject(a: Object, b: Object) { a.labelName == b.labelName && a.rect == b.rect }

  /** Serving another label afterwards does not undo it. */
  lemma ServedStays(was: seq<Object>, before: seq<Object>, now: seq<Object>, name: string, tracks: seq<STrack>, chosen: seq<int>)
    requires |was| == |before| == |now| && LabelServed(was, before, name, tracks, chosen)
    requires forall i :: 0 <= i < |was| && was[i].labelName == name ==> now[i] == before[i]
    ensures LabelServed(was, now, name, tracks, chosen)
  {
  }

  function Lookup(grouped: map<string, seq<nat>>, name: string): seq<nat> {
    if name in grouped then grouped[name] else []
  }

  ghost predicate GroupedUpTo(objects: seq<Object>, trackLabels: seq<string>, grouped: map<string, seq<nat>>, n: nat)
    requires n <= |objects|
  {
    forall name :: name in trackLabels ==> Lookup(grouped, name) == IndicesOf(objects, name, n)
  }

  lemma GroupNone(objects: seq<Object>, trackLabels: seq<string>)
    ensures GroupedUpTo(objects, trackLabels, map[], 0)
  {
  }

  lemma GroupStep(objects: seq<Object>, trackLabels: seq<string>, grouped: map<string, seq<nat>>, n: nat)
    requires n < |objects| && GroupedUpTo(objects, trackLabels, grouped, n)
    ensures var name := objects[n].labelName;
            GroupedUpTo(objects, trackLabels,
                        if name in trackLabels then grouped[name := Lookup(grouped, name) + [n]] else grouped, n + 1)
  {
    var name := objects[n].labelName;
    var next := if name in trackLabels then grouped[name := Lookup(grouped, name) + [n]] else grouped;
    forall other | other in trackLabels ensures Lookup(next, other) == IndicesOf(objects, other, n + 1) {
      IndicesNext(objects, other, n);
      assert Lookup(grouped, other) == IndicesOf(objects, other, n);
      hide IndicesOf;
    }
  }

  lemma IndicesNext(objects: seq<Object>, name: string, n: nat)
    requires n < |objects|
    ensures IndicesOf(objects, name, n + 1)
         == IndicesOf(objects, name, n) + if objects[n].labelName == name then [n] else []
  {
  }

  /** Group the positions of the objects by label, for the tracked labels. */
  method Group(objects: array<Object>, trackLabels: seq<string>) returns (grouped: map<string, seq<nat>>)
    ensures GroupedUpTo(objects[..], trackLabels, grouped, objects.Length)
  {
    hide *;
    grouped := map[];
    GroupNone(objects[..], trackLabels);
    for index := 0 to objects.Length
      invariant GroupedUpTo(objects[..], trackLabels, grouped, index)
    {
      GroupStep(objects[..], trackLabels, grouped, index);
      var name := objects[index].labelName;
      if name in trackLabels {
        grouped := grouped[name := Lookup(grouped, name) + [index]];
      }
    }
  }

  method ClearIds(objects: array<Object>)
    modifies objects
    ensures objects[..] == Cleared(old(objects[..]))
  {
    for i := 0 to objects.Length
      invariant forall k :: 0 <= k < objects.Length ==>
                  objects[k] == if k < i then old(objects[k]).(trackId := -1) else old(objects[k])
    {
      objects[i] := objects[i].(trackId := -1);
    }
  }

  ghost predicate ServedAt(was: seq<Object>, now: seq<Object>, name: string, tracks: map<string, seq<STrack>>,
                           choices: map<string, seq<int>>)
  {
    |was| == |now| && name in tracks && name in choices && LabelServed(was, now, name, tracks[name], choices[name])
  }

  ghost predicate Untouched(was: seq<Object>, now: seq<Object>, served: seq<string>) {
    |was| == |now| && forall i :: 0 <= i < |now| && was[i].labelName !in served ==> now[i] == was[i]
  }

  /** All labels up to q have been served, the objects of the others are as they were cleared. */
  ghost predicate ServedUpTo(was: seq<Object>, now: seq<Object>, trackLabels: seq<string>, q: nat,
                             tracks: map<string, seq<STrack>>, choices: map<string, seq<int>>)
    requires q <= |trackLabels|
  {
    && SameBoxes(was, now)
    && (forall l :: 0 <= l < q ==> ServedAt(was, now, trackLabels[l], tracks, choices))
    && Untouched(was, now, trackLabels[..q])
  }

  lemma ServeNext(was: seq<Object>, before: seq<Object>, now: seq<Object>, trackLabels: seq<string>, q: nat,
                  tracks: map<string, seq<STrack>>, choices: map<string, seq<int>>, chosen: seq<int>)
    requires q < |trackLabels| && forall name :: name in trackLabels ==> name in tracks
    requires forall i, j :: 0 <= i < j < |trackLabels| ==> trackLabels[i] != trackLabels[j]
    requires ServedUpTo(was, before, trackLabels, q, tracks, choices)
    requires var name := trackLabels[q]; var indices := IndicesOf(was, name, |was|);
             |chosen| == |tracks[name]| && GreedyChoice(Rects(was, indices), tracks[name], chosen)
             && LabelDone(before, now, indices, tracks[name], chosen)
    ensures ServedUpTo(was, now, trackLabels, q + 1, tracks, choices[trackLabels[q] := chosen])
  {
    hide LabelServed, LabelDone, GreedyChoice, SameBoxes, IndicesOf;
    var name := trackLabels[q];
    UntouchedFirst(was, before, trackLabels, q);
    SameLength(was, before);
    ServedKeeps(was, before, now, name, tracks[name], chosen);
    SameLength(was, now);
    UntouchedNext(was, before, now, trackLabels, q);
    forall l | 0 <= l < q ensures ServedAt(was, now, trackLabels[l], tracks, choices[name := chosen]) {
      assert ServedAt(was, before, trackLabels[l], tracks, choices);
      ServedStays(was, before, now, trackLabels[l], tracks[trackLabels[l]], choices[trackLabels[l]]);
    }
    assert ServedAt(was, now, name, tracks, choices[name := chosen]);
    hide ServedAt, Untouched;
  }

  lemma SameLength(a: seq<Object>, b: seq<Object>)
    requires SameBoxes(a, b)
    ensures |a| == |b|
  {
  }

  lemma UntouchedFirst(was: seq<Object>, before: seq<Object>, trackLabels: seq<string>, q: nat)
    requires q < |trackLabels| && Untouched(was, before, trackLabels[..q])
    requires forall i, j :: 0 <= i < j < |trackLabels| ==> trackLabels[i] != trackLabels[j]
    ensures forall i :: 0 <= i < |was| && was[i].labelName == trackLabels[q] ==> before[i] == was[i]
  {
    assert trackLabels[q] !in trackLabels[..q];
  }

  lemma UntouchedNext(was: seq<Object>, before: seq<Object>, now: seq<Object>, trackLabels: seq<string>, q: nat)
    requires q < |trackLabels| && Untouched(was, before, trackLabels[..q]) && |now| == |was|
    requires forall i :: 0 <= i < |now| && was[i].labelName != trackLabels[q] ==> now[i] == before[i]
    ensures Untouched(was, now, trackLabels[..q + 1])
  {
    assert trackLabels[..q + 1] == trackLabels[..q] + [trackLabels[q]];
  }

  /** An object with an id was chosen by the track of that id among its own label's tracks. */
  lemma IdComesFrom(was: seq<Object>, now: seq<Object>, trackLabels: seq<string>, tracks: map<string, seq<STrack>>,
                    choices: map<string, seq<int>>, i: nat) returns (k: nat)
    requires forall name :: name in trackLabels ==> name in tracks
    requires (forall i :: 0 <= i < |was| ==> was[i].trackId == -1)
    requires ServedUpTo(was, now, trackLabels, |trackLabels|, tracks, choices)
    requires i < |now| && now[i].trackId != -1
    ensures var name := was[i].labelName;
            name in trackLabels && name in choices && k < |tracks[name]| == |choices[name]|
            && now[i].trackId == tracks[name][k].trackId
            && ChosenBy(i, IndicesOf(was, name, |was|), choices[name], k)
  {
    var name := was[i].labelName;
    assert trackLabels[..|trackLabels|] == trackLabels;
    var l :| 0 <= l < |trackLabels| && trackLabels[l] == name;
    assert ServedAt(was, now, trackLabels[l], tracks, choices);
    k :| ChosenBy(i, IndicesOf(was, name, |was|), choices[name], k);
  }

  /** Distinct objects have distinct ids. */
  lemma IdsGivenOnce(was: seq<Object>, now: seq<Object>, trackLabels: seq<string>, tracks: map<string, seq<STrack>>,
                     choices: map<string, seq<int>>)
    requires forall name :: name in trackLabels ==> name in tracks
    requires forall i :: 0 <= i < |was| ==> was[i].trackId == -1
    requires ServedUpTo(was, now, trackLabels, |trackLabels|, tracks, choices) && IdsDistinct(tracks)
    ensures forall i, j :: 0 <= i < j < |now| && now[i].trackId != -1 ==> now[i].trackId != now[j].trackId
  {
    forall i, j | 0 <= i < j < |now| && now[i].trackId != -1 ensures now[i].trackId != now[j].trackId {
      if now[i].trackId == now[j].trackId {
        var k := IdComesFrom(was, now, trackLabels, tracks, choices, i);
        var l := IdComesFrom(was, now, trackLabels, tracks, choices, j);
      }
    }
  }

  /** An id that an object was given is that of a track of its label which it overlaps by a tenth. */
  lemma IdMeans(was: seq<Object>, now: seq<Object>, trackLabels: seq<string>, tracks: map<string, seq<STrack>>,
                choices: map<string, seq<int>>, i: nat) returns (k: nat)
    requires forall name :: name in trackLabels ==> name in tracks
    requires (forall i :: 0 <= i < |was| ==> was[i].trackId == -1)
    requires ServedUpTo(was, now, trackLabels, |trackLabels|, tracks, choices)
    requires i < |now| && now[i].trackId != -1
    ensures |was| == |now| && was[i].labelName in trackLabels && k < |tracks[was[i].labelName]|
    ensures var t := tracks[was[i].labelName][k];
            now[i].trackId == t.trackId && IntersectionOverUnion(was[i].rect, t.tlbr) >= 0.1
  {
    k := IdComesFrom(was, now, trackLabels, tracks, choices, i);
    var name := was[i].labelName;
    var indices, chosen := IndicesOf(was, name, |was|), choices[name];
    assert trackLabels[..|trackLabels|] == trackLabels;
    var l :| 0 <= l < |trackLabels| && trackLabels[l] == name;
    assert ServedAt(was, now, trackLabels[l], tracks, choices);
    assert BestOf(Rects(was, indices), tracks[name], k, chosen[..k], chosen[k]);
    assert Iou(Rects(was, indices), tracks[name], chosen[k], k) >= 0.1;
    hide IntersectionOverUnion;
  }

  /** No track goes without while an object of its label that it overlaps by a tenth does. */
  lemma NoneMissed(was: seq<Object>, now: seq<Object>, trackLabels: seq<string>, tracks: map<string, seq<STrack>>,
                   choices: map<string, seq<int>>, i: nat, k: nat)
    requires forall name :: name in trackLabels ==> name in tracks
    requires ServedUpTo(was, now, trackLabels, |trackLabels|, tracks, choices) && IdsDistinct(tracks)
    requires (forall i :: 0 <= i < |was| ==> was[i].trackId == -1)
    requires i < |now| && now[i].trackId == -1 && was[i].labelName in trackLabels && k < |tracks[was[i].labelName]|
    requires forall j :: 0 <= j < |now| ==> now[j].trackId != tracks[was[i].labelName][k].trackId
    ensures |was| == |now| && IntersectionOverUnion(was[i].rect, tracks[was[i].labelName][k].tlbr) < 0.1
  {
    var name := was[i].labelName;
    var indices, chosen := IndicesOf(was, name, |was|), choices[name];
    assert trackLabels[..|trackLabels|] == trackLabels;
    var l :| 0 <= l < |trackLabels| && trackLabels[l] == name;
    assert ServedAt(was, now, trackLabels[l], tracks, choices);
    var d := PlaceOf(was, name, |was|, i);
    hide LabelServed, ServedUpTo;
    LeftFree(was, now, name, tracks[name], chosen, i, d, k);
    var rects := Rects(was, indices);
    assert Iou(rects, tracks[name], d, k) < 0.1 by { ChoiceIsBest(was, now, name, tracks[name], chosen, k); }
    hide IntersectionOverUnion;
  }

  lemma ChoiceIsBest(was: seq<Object>, now: seq<Object>, name: string, tracks: seq<STrack>, chosen: seq<int>, k: nat)
    requires |was| == |now| && LabelServed(was, now, name, tracks, chosen) && k < |tracks|
    ensures |chosen| == |tracks| && BestOf(Rects(was, IndicesOf(was, name, |was|)), tracks, k, chosen[..k], chosen[k])
  {
  }

  /** Who is chosen has the track's id. */
  lemma ChosenHasId(was: seq<Object>, now: seq<Object>, name: string, tracks: seq<STrack>, chosen: seq<int>, k: nat)
    requires |was| == |now| && LabelServed(was, now, name, tracks, chosen) && k < |chosen| && chosen[k] >= 0
    ensures var indices := IndicesOf(was, name, |was|);
            k < |tracks| && chosen[k] < |indices| && now[indices[chosen[k]]].trackId == tracks[k].trackId
  {
    var indices := IndicesOf(was, name, |was|);
    assert BestOf(Rects(was, indices), tracks, k, chosen[..k], chosen[k]);
    assert ChosenBy(indices[chosen[k]], indices, chosen, k);
  }

  lemma LeftFree(was: seq<Object>, now: seq<Object>, name: string, tracks: seq<STrack>, chosen: seq<int>, i: nat, d: nat, k: nat)
    requires |was| == |now| && LabelServed(was, now, name, tracks, chosen) && k < |chosen| && i < |now|
    requires d < |IndicesOf(was, name, |was|)| && IndicesOf(was, name, |was|)[d] == i && now[i].trackId == -1
    requires forall m :: 0 <= m < |tracks| ==> tracks[m].trackId >= 0
    requires k < |tracks| && forall j :: 0 <= j < |now| ==> now[j].trackId != tracks[k].trackId
    ensures chosen[k] < 0 && d !in chosen
  {
    hide LabelServed;
    if chosen[k] >= 0 { ChosenHasId(was, now, name, tracks, chosen, k); }
    if d in chosen {
      var m :| 0 <= m < |chosen| && chosen[m] == d;
      ChosenHasId(was, now, name, tracks, chosen, m);
    }
  }

  /** Where an object is among those of its label. */
  lemma {:induction false} PlaceOf(objects: seq<Object>, name: string, n: nat, i: nat) returns (d: nat)
    requires i < n <= |objects| && objects[i].labelName == name
    ensures d < |IndicesOf(objects, name, n)| && IndicesOf(objects, name, n)[d] == i
    decreases n
  {
    if i == n - 1 {
      d := |IndicesOf(objects, name, n - 1)|;
    } else {
      d := PlaceOf(objects, name, n - 1, i);
    }
  }

  /** The ids that the face plugin sees in a frame satisfy its demand on them. */
  lemma IdsSuitFacePlugin(objects: seq<Object>)
    requires forall i, j :: 0 <= i < j < |objects| && objects[i].trackId != -1 ==> objects[i].trackId != objects[j].trackId
    ensures FaceFrames.DistinctTracks(seq(|objects|, i requires 0 <= i < |objects| => objects[i].trackId))
  {
  }

  /**
   Process a frame: `tracks` is what each label's tracker returns for its detections. The labels are
   visited in some order; ids are distinct because the trackers draw them from one counter.
   */
  method Process(objects: array<Object>, trackLabels: seq<string>, tracks: map<string, seq<STrack>>)
    returns (code: int, ghost choices: map<string, seq<int>>)
    requires forall i, j :: 0 <= i < j < |trackLabels| ==> trackLabels[i] != trackLabels[j]
    requires (forall name :: name in trackLabels ==> name in tracks) && IdsDistinct(tracks)
    modifies objects
    ensures code == 0
    ensures ServedUpTo(Cleared(old(objects[..])), objects[..], trackLabels, |trackLabels|, tracks, choices)
    ensures forall i, j :: 0 <= i < j < objects.Length && objects[i].trackId != -1 ==> objects[i].trackId != objects[j].trackId
  {
    ClearIds(objects);
    ghost var was := objects[..];
    choices := map[];
    var grouped := Group(objects, trackLabels);
    assert ServedUpTo(was, objects[..], trackLabels, 0, tracks, choices);
    for q := 0 to |trackLabels|
      invariant ServedUpTo(was, objects[..], trackLabels, q, tracks, choices)
    {
      choices := ServeLabel(objects, trackLabels, q, Lookup(grouped, trackLabels[q]), tracks, was, choices);
    }
    IdsGivenOnce(was, objects[..], trackLabels, tracks, choices);
    return 0, choices;
  }

  /** Serve one label. */
  method ServeLabel(objects: array<Object>, trackLabels: seq<string>, q: nat, indices: seq<nat>,
                    tracks: map<string, seq<STrack>>, ghost was: seq<Object>, ghost choices: map<string, seq<int>>)
    returns (ghost choices': map<string, seq<int>>)
    requires q < |trackLabels| && forall i, j :: 0 <= i < j < |trackLabels| ==> trackLabels[i] != trackLabels[j]
    requires forall name :: name in trackLabels ==> name in tracks
    requires ServedUpTo(was, objects[..], trackLabels, q, tracks, choices)
    requires indices == IndicesOf(was, trackLabels[q], |was|)
    modifies objects
    ensures ServedUpTo(was, objects[..], trackLabels, q + 1, tracks, choices')
  {
    hide LabelServed, LabelDone, GreedyChoice, ServedAt, Untouched;
    var name := trackLabels[q];
    ghost var before := objects[..];
    SameIndices(was, before, name, |was|);
    assert Rects(before, indices) == Rects(was, indices);
    ghost var chosen := AssignLabel(objects, indices, tracks[name]);
    ServeNext(was, before, objects[..], trackLabels, q, tracks, choices, chosen);
    choices' := choices[name := chosen];
  }
}
