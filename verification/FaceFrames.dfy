/**
 A frame of the face plugin (plugins/face_recognition/face_plugin.cpp) on values: what draining, marking,
 submitting and pruning make of the entries, and what that means for each track.
 */
module FaceFrames {
  import opened FaceTracks

  /**
   A frame as the plugin sees it: the track ids of its faces (negative for untracked ones) and what
   the services and the model answer while it is handled.
   */
  datatype Frame = Frame(
    tracks: seq<int>,
    cloned: int -> bool,         // CloneFrame of the last frame of a track
    frontal: int -> bool,        // the frontal score of the track's face reaches the threshold
    featEmpty: seq<bool>,        // the features inferred, in order: is each one empty?
    faceImgs: nat,               // how many face images were inferred
    ready: bool,                 // VectorsReady and NotifyReady
    frameCloned: bool,           // CloneFrame of the frame for the identification job
    submitted: bool,             // SubmitAsync of the identification job
    lost: int -> LostOutcome)    // the answers for each lost track

  ghost predicate DistinctTracks(tracks: seq<int>) {
    forall i, j :: 0 <= i < j < |tracks| && tracks[i] >= 0 ==> tracks[i] != tracks[j]
  }

  /** One result for every item of a batch. */
  ghost function Answers(batch: seq<int>, clientsReady: bool, found: int -> bool): seq<Result> {
    seq(|batch|, i requires 0 <= i < |batch| => Result(batch[i], clientsReady && found(batch[i])))
  }

  /** Behind the results there were stands one for each item, in order, good exactly when the clients were there and found it. */
  ghost predicate AnsweredInOrder(before: seq<Result>, after: seq<Result>, batch: seq<int>, clientsReady: bool, found: int -> bool) {
    && |after| == |before| + |batch| && after[..|before|] == before
    && forall i :: 0 <= i < |batch| ==> after[|before| + i] == Result(batch[i], clientsReady && found(batch[i]))
  }

  lemma AnswersPosted(before: seq<Result>, batch: seq<int>, clientsReady: bool, found: int -> bool)
    ensures AnsweredInOrder(before, before + Answers(batch, clientsReady, found), batch, clientsReady, found)
  {
  }

  /** The items out once the first n of the batch have been answered. */
  ghost function LeftToAnswer(out: multiset<int>, batch: seq<int>, n: nat): multiset<int>
    requires n <= |batch|
  {
    out - multiset(batch[..n])
  }

  lemma AnsweredEnds(out: multiset<int>, batch: seq<int>, clientsReady: bool, found: int -> bool)
    ensures LeftToAnswer(out, batch, 0) == out && Answers(batch[..0], clientsReady, found) == []
    ensures LeftToAnswer(out, batch, |batch|) == out - multiset(batch) && batch[..|batch|] == batch
  {
    assert batch[..|batch|] == batch;
  }

  lemma AnsweredStep(out: multiset<int>, results: seq<Result>, batch: seq<int>, n: nat, clientsReady: bool, found: int -> bool)
    requires n < |batch| && multiset(batch) <= out
    ensures LeftToAnswer(out, batch, n)[batch[n]] > 0
    ensures LeftToAnswer(out, batch, n + 1) == LeftToAnswer(out, batch, n) - multiset{batch[n]}
    ensures results + Answers(batch[..n + 1], clientsReady, found)
         == results + Answers(batch[..n], clientsReady, found) + [Result(batch[n], clientsReady && found(batch[n]))]
  {
    AnsweredOne(out, multiset(batch[..n]), batch[n]) by {
      assert batch[..n + 1] == batch[..n] + [batch[n]];
      assert batch == batch[..n + 1] + batch[n + 1..];
    }
    assert multiset(batch[..n + 1]) == multiset(batch[..n]) + multiset{batch[n]} by {
      assert batch[..n + 1] == batch[..n] + [batch[n]];
    }
    assert Answers(batch[..n + 1], clientsReady, found)
        == Answers(batch[..n], clientsReady, found) + [Result(batch[n], clientsReady && found(batch[n]))];
  }

  lemma AnsweredOne(out: multiset<int>, done: multiset<int>, id: int)
    requires done + multiset{id} <= out
    ensures (out - done)[id] > 0 && out - (done + multiset{id}) == out - done - multiset{id}
  {
    assert (done + multiset{id})[id] == done[id] + 1;
  }

  /** The entries after the faces of a frame were seen. */
  ghost function SeenMap(f: Frame, m: map<int, TrackPending>, now: int): map<int, TrackPending> {
    map id | id in m.Keys + (set k | k in f.tracks && k >= 0) ::
      if id in f.tracks && id >= 0 then Seen(PendingOf(m, id), now, f.cloned(id)) else m[id]
  }

  /** Of the entries `was`, those of the first n tracks of the frame have been seen. */
  ghost predicate SeenTo(f: Frame, was: map<int, TrackPending>, m: map<int, TrackPending>, now: int, n: nat)
    requires n <= |f.tracks|
  {
    && (forall id :: id in m <==> id in was || (id in f.tracks[..n] && id >= 0))
    && (forall id :: id in m ==>
          m[id] == if id in f.tracks[..n] && id >= 0 then Seen(PendingOf(was, id), now, f.cloned(id)) else was[id])
  }

  lemma SeenNone(f: Frame, m: map<int, TrackPending>, now: int)
    ensures SeenTo(f, m, m, now, 0)
  {
  }

  lemma SeenStep(f: Frame, was: map<int, TrackPending>, m: map<int, TrackPending>, now: int, n: nat)
    requires n < |f.tracks| && SeenTo(f, was, m, now, n)
    ensures var id := f.tracks[n];
            SeenTo(f, was, if id >= 0 then m[id := Seen(PendingOf(m, id), now, f.cloned(id))] else m, now, n + 1)
  {
    assert f.tracks[..n + 1] == f.tracks[..n] + [f.tracks[n]];
  }

  lemma SeenAll(f: Frame, was: map<int, TrackPending>, m: map<int, TrackPending>, now: int)
    requires SeenTo(f, was, m, now, |f.tracks|)
    ensures m == SeenMap(f, was, now)
  {
    assert f.tracks[..|f.tracks|] == f.tracks;
    var all := SeenMap(f, was, now);
    assert forall id :: id in was.Keys + (set k | k in f.tracks && k >= 0) <==> id in was || (id in f.tracks && id >= 0);
    assert forall id :: id in all <==> id in m;
  }

  /** The entries with some tracks put in flight. */
  ghost function InFlight(m: map<int, TrackPending>, ids: seq<int>): map<int, TrackPending> {
    map id | id in m :: if id in ids then m[id].(identifyInflight := true) else m[id]
  }

  predicate Wanted(id: int, p: TrackPending, frontal: int -> bool) {
    id >= 0 && !p.featDone && !p.identifyInflight && frontal(id)
  }

  /** The faces to identify, in order: tracked, neither done nor in flight, and frontal enough. */
  ghost function Eligible(tracks: seq<int>, m: map<int, TrackPending>, frontal: int -> bool): seq<int> {
    if tracks == [] then []
    else
      var last := tracks[|tracks| - 1];
      Eligible(tracks[..|tracks| - 1], m, frontal) + if Wanted(last, PendingOf(m, last), frontal) then [last] else []
  }

  lemma {:induction false} EligibleIn(tracks: seq<int>, m: map<int, TrackPending>, frontal: int -> bool)
    ensures forall id :: id in Eligible(tracks, m, frontal) <==> id in tracks && Wanted(id, PendingOf(m, id), frontal)
  {
    if tracks != [] { EligibleIn(tracks[..|tracks| - 1], m, frontal); }
  }

  lemma {:induction false} EligibleDistinct(tracks: seq<int>, m: map<int, TrackPending>, frontal: int -> bool)
    requires DistinctTracks(tracks)
    ensures forall i, j :: 0 <= i < j < |Eligible(tracks, m, frontal)| ==>
              Eligible(tracks, m, frontal)[i] != Eligible(tracks, m, frontal)[j]
  {
    if tracks != [] {
      EligibleDistinct(tracks[..|tracks| - 1], m, frontal);
      EligibleIn(tracks[..|tracks| - 1], m, frontal);
    }
  }

  /** Being seen does not change who is eligible. */
  lemma {:induction false} EligibleSeen(f: Frame, tracks: seq<int>, m: map<int, TrackPending>, now: int)
    requires forall id :: id in tracks ==> id in f.tracks
    ensures Eligible(tracks, SeenMap(f, m, now), f.frontal) == Eligible(tracks, m, f.frontal)
  {
    if tracks != [] { EligibleSeen(f, tracks[..|tracks| - 1], m, now); }
  }

  lemma ToSetAppend(ids: seq<int>, id: int)
    ensures ToSet(ids + [id]) == ToSet(ids) + {id}
  {
  }

  /** Of the faces to identify, those among the first n with a feature and an image. */
  ghost function Collected(f: Frame, toProcess: seq<int>, n: nat): seq<int>
    requires n <= |f.featEmpty|
  {
    if n == 0 then []
    else
      Collected(f, toProcess, n - 1) +
      if f.featEmpty[n - 1] || n > |toProcess| || n > f.faceImgs then [] else [toProcess[n - 1]]
  }

  lemma {:induction false} CollectedFrom(f: Frame, toProcess: seq<int>, n: nat)
    requires n <= |f.featEmpty|
    ensures forall id :: id in Collected(f, toProcess, n) ==> exists i :: 0 <= i < n && i < |toProcess| && toProcess[i] == id
  {
    if n > 0 { CollectedFrom(f, toProcess, n - 1); }
  }

  lemma {:induction false} CollectedDistinct(f: Frame, toProcess: seq<int>, n: nat)
    requires n <= |f.featEmpty| && forall i, j :: 0 <= i < j < |toProcess| ==> toProcess[i] != toProcess[j]
    ensures forall i, j :: 0 <= i < j < |Collected(f, toProcess, n)| ==>
              Collected(f, toProcess, n)[i] != Collected(f, toProcess, n)[j]
  {
    if n > 0 {
      CollectedDistinct(f, toProcess, n - 1);
      CollectedFrom(f, toProcess, n - 1);
      var before, all := Collected(f, toProcess, n - 1), Collected(f, toProcess, n);
      assert all == before || (n <= |toProcess| && all == before + [toProcess[n - 1]]);
      hide Collected;
      forall i, j | 0 <= i < j < |all| ensures all[i] != all[j] {
        if j == |before| {
          assert before[i] in before;
          var k :| 0 <= k < n - 1 && k < |toProcess| && toProcess[k] == before[i];
        }
      }
    }
  }

  /** The batch a frame submits, given the entries after draining: nothing unless every service is ready. */
  ghost function Sent(f: Frame, m: map<int, TrackPending>): seq<int> {
    if f.ready && f.frameCloned && f.submitted
    then Collected(f, Eligible(f.tracks, m, f.frontal), |f.featEmpty|) else []
  }

  lemma SentEligible(f: Frame, m: map<int, TrackPending>)
    ensures forall id :: id in Sent(f, m) ==> id in f.tracks && Wanted(id, PendingOf(m, id), f.frontal)
  {
    EligibleIn(f.tracks, m, f.frontal);
    CollectedFrom(f, Eligible(f.tracks, m, f.frontal), |f.featEmpty|);
  }

  lemma SentIs(f: Frame, m: map<int, TrackPending>, batch: seq<int>)
    requires batch == Collected(f, Eligible(f.tracks, m, f.frontal), |f.featEmpty|)
    ensures Sent(f, m) == if f.ready && f.frameCloned && f.submitted then batch else []
  {
  }

  /** What is needed of the faces to identify, and of the batch, when they are chosen after marking. */
  lemma BatchReady(f: Frame, d: map<int, TrackPending>, now: int)
    requires DistinctTracks(f.tracks)
    ensures var m := SeenMap(f, d, now);
            var toProcess := Eligible(f.tracks, m, f.frontal);
            var batch := Collected(f, toProcess, |f.featEmpty|);
            && (forall id :: id in f.tracks && id >= 0 ==> id in m)
            && toProcess == Eligible(f.tracks, d, f.frontal)
            && (forall id :: id in toProcess ==> id in m && !m[id].featDone && !m[id].identifyInflight)
            && (forall i, j :: 0 <= i < j < |toProcess| ==> toProcess[i] != toProcess[j])
            && (forall id :: id in batch ==> id in m && !m[id].identifyInflight)
            && (forall i, j :: 0 <= i < j < |batch| ==> batch[i] != batch[j])
  {
    var m := SeenMap(f, d, now);
    EligibleSeen(f, f.tracks, d, now);
    EligibleIn(f.tracks, m, f.frontal);
    EligibleDistinct(f.tracks, m, f.frontal);
    CollectedFrom(f, Eligible(f.tracks, m, f.frontal), |f.featEmpty|);
    CollectedDistinct(f, Eligible(f.tracks, m, f.frontal), |f.featEmpty|);
    hide Collected, Eligible, Seen;
  }

  /** Taking a batch out of flight undoes putting it in flight. */
  lemma RolledBack(m: map<int, TrackPending>, now: map<int, TrackPending>, batch: seq<int>)
    requires forall id :: id in batch ==> id in m && !m[id].identifyInflight
    requires now.Keys == m.Keys
    requires forall id :: id in now ==> now[id] == if id in batch then InFlight(m, batch)[id].(identifyInflight := false)
                                                 else InFlight(m, batch)[id]
    ensures now == m == InFlight(m, [])
  {
    forall id | id in m ensures now[id] == m[id] == InFlight(m, [])[id] {
      var p := m[id];
      assert id in batch ==> p == TrackPending(p.hasFrame, p.featDone, false, p.lastSeenFrame);
    }
  }

  /** What pruning does to each track of `was`, those in `keys` still to come. */
  ghost predicate PrunedBut(was: Tracks, s: Tracks, now: int, f: Frame, keys: set<int>) {
    && keys <= s.pending.Keys <= was.pending.Keys
    && (forall id :: id in s.pending ==> s.pending[id] == was.pending[id])
    && (forall id :: id in was.pending && id !in keys ==>
          (id in s.pending <==> Prune(was.pending[id], now, f.lost(id)) == Stay))
    && s.dropped == was.dropped + (was.pending.Keys - s.pending.Keys)
    && (forall id :: s.lost[id] == was.lost[id]
          + if id in was.pending && id !in keys && Prune(was.pending[id], now, f.lost(id)) == EraseAndPush then 1 else 0)
    && s == was.(pending := s.pending, dropped := s.dropped, lost := s.lost)
  }

  lemma PrunedStart(s: Tracks, now: int, f: Frame)
    ensures PrunedBut(s, s, now, f, s.pending.Keys)
  {
  }

  lemma PrunedStep(was: Tracks, s: Tracks, now: int, f: Frame, keys: set<int>, id: int)
    requires PrunedBut(was, s, now, f, keys) && id in keys
    ensures id in s.pending
    ensures PrunedBut(was, Pruned(s, id, Prune(s.pending[id], now, f.lost(id))), now, f, keys - {id})
  {
    hide Prune;
  }

  // ----- what a frame means for a track

  /** The entry stays: seen within 60 frames, or its result awaited within 1500, or its push to be tried again. */
  predicate StaysKnown(e: TrackPending, now: int, o: LostOutcome) {
    var unseen := now - e.lastSeenFrame;
    || unseen <= 60
    || (!e.featDone && e.identifyInflight && unseen <= 1500)
    || (!e.featDone && !e.identifyInflight && e.hasFrame && o.notifyReady && o.cloned && !o.submitted)
  }

  /** The track is pushed as lost: unseen for more than 60 frames, never identified, nothing awaited, its last frame at hand. */
  predicate PushedAsLost(e: TrackPending, now: int, o: LostOutcome) {
    && now - e.lastSeenFrame > 60 && !e.featDone && !e.identifyInflight
    && e.hasFrame && o.notifyReady && o.cloned && o.submitted
  }

  /** When an entry stays and when its track is pushed. */
  lemma PruneMeans(e: TrackPending, now: int, o: LostOutcome)
    ensures Prune(e, now, o) == Stay <==> StaysKnown(e, now, o)
    ensures Prune(e, now, o) == EraseAndPush <==> PushedAsLost(e, now, o)
  {
  }

  /** What pruning leaves of the entries `was`, and which of their tracks it pushes. */
  ghost predicate PrunedInFields(was: map<int, TrackPending>, lostBefore: multiset<int>, s: Tracks, now: int,
                                 lost: int -> LostOutcome) {
    && (forall id :: id in s.pending <==> id in was && StaysKnown(was[id], now, lost(id)))
    && (forall id :: id in s.pending ==> s.pending[id] == was[id])
    && (forall id :: s.lost[id] == lostBefore[id] + if id in was && PushedAsLost(was[id], now, lost(id)) then 1 else 0)
  }

  lemma PrunedMeans(was: Tracks, s: Tracks, now: int, f: Frame)
    requires PrunedBut(was, s, now, f, {})
    ensures PrunedInFields(was.pending, was.lost, s, now, f.lost)
  {
    forall id | id in was.pending
      ensures Prune(was.pending[id], now, f.lost(id)) == Stay <==> StaysKnown(was.pending[id], now, f.lost(id))
      ensures Prune(was.pending[id], now, f.lost(id)) == EraseAndPush <==> PushedAsLost(was.pending[id], now, f.lost(id))
    {
      PruneMeans(was.pending[id], now, f.lost(id));
    }
    hide Prune, StaysKnown, PushedAsLost;
  }

  ghost predicate Known(was: Tracks, f: Frame, id: int) { id in was.pending || (id in f.tracks && id >= 0) }

  /** The entry of a track before pruning, from what it was, the results posted, the frame and what was sent. */
  ghost predicate EntryIs(was: Tracks, f: Frame, now: int, sent: seq<int>, id: int, e: TrackPending) {
    var known, seen := id in was.pending, id in f.tracks && id >= 0;
    var found, answered := Result(id, true) in was.results, Result(id, true) in was.results || Result(id, false) in was.results;
    && (e.featDone <==> known && (was.pending[id].featDone || found))
    && (e.identifyInflight <==> id in sent || (known && was.pending[id].identifyInflight && !answered))
    && (e.hasFrame <==> if seen && !e.featDone then f.cloned(id) else known && was.pending[id].hasFrame && !found)
    && (seen ==> e.lastSeenFrame == now)
    && (!seen && known ==> e.lastSeenFrame == was.pending[id].lastSeenFrame)
  }

  /** The entries before pruning: of the tracks that had one or are seen in the frame. */
  ghost predicate EntriesAre(was: Tracks, f: Frame, now: int, sent: seq<int>, m: map<int, TrackPending>) {
    forall id :: (id in m <==> Known(was, f, id)) && (id in m ==> EntryIs(was, f, now, sent, id, m[id]))
  }

  lemma EntriesBefore(was: Tracks, f: Frame, now: int, sent: seq<int>)
    requires Ok(was, {})
    ensures EntriesAre(was, f, now, sent, InFlight(SeenMap(f, DrainedMap(was.pending, was.results), now), sent))
  {
    var d := DrainedMap(was.pending, was.results);
    var m := InFlight(SeenMap(f, d, now), sent);
    forall id ensures (id in m <==> Known(was, f, id)) && (id in m ==> EntryIs(was, f, now, sent, id, m[id])) {
      EntryMembers(was, f, now, sent, id);
      if id in m { EntryBefore(was, f, now, sent, id); }
    }
    hide InFlight, SeenMap, DrainedMap, EntryIs, Known;
  }

  lemma EntryMembers(was: Tracks, f: Frame, now: int, sent: seq<int>, id: int)
    ensures id in InFlight(SeenMap(f, DrainedMap(was.pending, was.results), now), sent) <==> Known(was, f, id)
  {
    var d := DrainedMap(was.pending, was.results);
    assert id in SeenMap(f, d, now) <==> id in d.Keys + (set k | k in f.tracks && k >= 0);
  }

  lemma EntryBefore(was: Tracks, f: Frame, now: int, sent: seq<int>, id: int)
    requires Ok(was, {}) && id in InFlight(SeenMap(f, DrainedMap(was.pending, was.results), now), sent)
    ensures EntryIs(was, f, now, sent, id, InFlight(SeenMap(f, DrainedMap(was.pending, was.results), now), sent)[id])
  {
    assert OkId(was, {}, id);
    EntryMembers(was, f, now, sent, id);
    if id in was.pending { SettledByItsResult(was.pending[id], id, was.results); }
    hide Ok, OkId, AfterResults;
  }

  // ----- who is sent for identification

  /** Seen in this frame, not identified, with nothing awaited, and frontal enough. */
  ghost predicate Asked(was: Tracks, f: Frame, id: int) {
    && id in f.tracks && id >= 0 && f.frontal(id)
    && Result(id, true) !in was.results
    && (id in was.pending ==>
          !was.pending[id].featDone && (was.pending[id].identifyInflight ==> Result(id, false) in was.results))
  }

  /** How many of the first k tracks of the frame are asked for. */
  ghost function AskedBefore(was: Tracks, f: Frame, k: nat): nat
    requires k <= |f.tracks|
  {
    if k == 0 then 0 else AskedBefore(was, f, k - 1) + if Asked(was, f, f.tracks[k - 1]) then 1 else 0
  }

  /** The n-th track asked for is sent exactly when its feature and image came and every service takes part. */
  ghost predicate SentInFields(was: Tracks, f: Frame, sent: seq<int>) {
    && (forall id :: id in sent ==> Asked(was, f, id))
    && (forall k :: 0 <= k < |f.tracks| && Asked(was, f, f.tracks[k]) ==>
          (f.tracks[k] in sent <==> Taken(f, AskedBefore(was, f, k))))
  }

  /** The n-th feature and image came, and the services and the pool took part. */
  ghost predicate Taken(f: Frame, n: nat) {
    f.ready && f.frameCloned && f.submitted && n < |f.featEmpty| && !f.featEmpty[n] && n < f.faceImgs
  }

  lemma AskedIsWanted(was: Tracks, f: Frame, id: int)
    requires Ok(was, {}) && id in f.tracks && id !in was.dropped
    ensures Asked(was, f, id) <==> Wanted(id, PendingOf(DrainedMap(was.pending, was.results), id), f.frontal)
  {
    assert OkId(was, {}, id);
    if Result(id, true) in was.results { PostedMember(was.results, Result(id, true)); }
    if id in was.pending { SettledByItsResult(was.pending[id], id, was.results); }
    hide Ok, AfterResults;
  }

  /** Where among the eligible a wanted track is. */
  lemma {:induction false} EligiblePlace(was: Tracks, f: Frame, d: map<int, TrackPending>, k: nat, n: nat)
    requires k <= n <= |f.tracks|
    requires forall id :: id in f.tracks ==> (Asked(was, f, id) <==> Wanted(id, PendingOf(d, id), f.frontal))
    ensures |Eligible(f.tracks[..n], d, f.frontal)| == AskedBefore(was, f, n)
    ensures k < n && Asked(was, f, f.tracks[k]) ==>
              && AskedBefore(was, f, k) < |Eligible(f.tracks[..n], d, f.frontal)|
              && Eligible(f.tracks[..n], d, f.frontal)[AskedBefore(was, f, k)] == f.tracks[k]
    decreases n
  {
    hide Asked, Wanted;
    if n > 0 {
      assert f.tracks[..n][..n - 1] == f.tracks[..n - 1];
      EligiblePlace(was, f, d, if k < n then k else n - 1, n - 1);
    }
  }

  /** The i-th of distinct faces is collected exactly when it has a feature and an image. */
  lemma {:induction false} CollectedIff(f: Frame, toProcess: seq<int>, n: nat, i: nat)
    requires n <= |f.featEmpty| && i < |toProcess|
    requires forall i, j :: 0 <= i < j < |toProcess| ==> toProcess[i] != toProcess[j]
    ensures toProcess[i] in Collected(f, toProcess, n) <==> i < n && !f.featEmpty[i] && i < f.faceImgs
  {
    if n > 0 { CollectedIff(f, toProcess, n - 1, i); }
  }

  lemma SentMeans(was: Tracks, f: Frame)
    requires Ok(was, {}) && DistinctTracks(f.tracks) && forall id :: id in f.tracks && id >= 0 ==> id !in was.dropped
    ensures SentInFields(was, f, Sent(f, DrainedMap(was.pending, was.results)))
  {
    var d := DrainedMap(was.pending, was.results);
    hide Ok, DrainedMap, PendingOf, Sent, Wanted, Asked, DistinctTracks;
    forall id | id in f.tracks ensures Asked(was, f, id) <==> Wanted(id, PendingOf(d, id), f.frontal) {
      if id >= 0 { AskedIsWanted(was, f, id); } else { NotTracked(was, f, d, id); }
    }
    SentEligible(f, d);
    forall k: nat | k < |f.tracks| && Asked(was, f, f.tracks[k])
      ensures f.tracks[k] in Sent(f, d) <==> Taken(f, AskedBefore(was, f, k))
    {
      SentPlace(was, f, d, k);
    }
  }

  lemma NotTracked(was: Tracks, f: Frame, d: map<int, TrackPending>, id: int)
    requires id < 0
    ensures !Asked(was, f, id) && !Wanted(id, PendingOf(d, id), f.frontal)
  {
  }

  lemma SentPlace(was: Tracks, f: Frame, d: map<int, TrackPending>, k: nat)
    requires DistinctTracks(f.tracks) && k < |f.tracks| && Asked(was, f, f.tracks[k])
    requires forall id :: id in f.tracks ==> (Asked(was, f, id) <==> Wanted(id, PendingOf(d, id), f.frontal))
    ensures f.tracks[k] in Sent(f, d) <==> Taken(f, AskedBefore(was, f, k))
  {
    var faces := Eligible(f.tracks, d, f.frontal);
    hide Asked, Wanted, Eligible, Collected, PendingOf, DistinctTracks, AskedBefore;
    EligibleDistinct(f.tracks, d, f.frontal);
    assert f.tracks[..|f.tracks|] == f.tracks;
    EligiblePlace(was, f, d, k, |f.tracks|);
    CollectedIff(f, faces, |f.featEmpty|, AskedBefore(was, f, k));
  }
}
