/**
 What the face plugin remembers of its tracks, and per track id: identification work outstanding,
 results not yet drained, successful identifications, lost-track pushes, and whether it was dropped.
 */
module FaceTracks {

  const TRACK_PRUNE_FRAMES := 60
  const TRACK_INFLIGHT_MAX_FRAMES := 1500

  /** hasFrame: a copy of the last frame is kept. */
  datatype TrackPending = TrackPending(hasFrame: bool, featDone: bool, identifyInflight: bool, lastSeenFrame: int)

  const NEW_TRACK_PENDING := TrackPending(false, false, false, 0)

  datatype Result = Result(trackId: int, ok: bool)

  /**
   The plugin's tracks and results together with history: items of submitted jobs without a result yet,
   successful identifications posted, lost-track pushes submitted, and ids whose entry was erased.
   */
  datatype Tracks = Tracks(pending: map<int, TrackPending>, results: seq<Result>, outstanding: multiset<int>,
                           identified: multiset<int>, lost: multiset<int>, dropped: set<int>)

  ghost function Posted(results: seq<Result>, id: int): nat {
    if results == [] then 0 else (if results[0].trackId == id then 1 else 0) + Posted(results[1..], id)
  }

  lemma {:induction false} PostedAppend(results: seq<Result>, r: Result, id: int)
    ensures Posted(results + [r], id) == Posted(results, id) + if r.trackId == id then 1 else 0
  {
    if results == [] {
      assert results + [r] == [r];
    } else {
      assert (results + [r])[1..] == results[1..] + [r];
      PostedAppend(results[1..], r, id);
    }
  }

  lemma {:induction false} PostedMember(results: seq<Result>, r: Result)
    requires r in results
    ensures Posted(results, r.trackId) >= 1
  {
    if results[0] != r { PostedMember(results[1..], r); }
  }

  ghost function ToSet(ids: seq<int>): set<int> { set k | k in ids }

  /** Job items and undrained results of a track, an item about to be submitted included. */
  ghost function Out(s: Tracks, batch: set<int>, id: int): nat {
    s.outstanding[id] + Posted(s.results, id) + (if id in batch then 1 else 0)
  }

  /**
   A live track is in flight exactly when it has one item or result out, is done only when it was
   identified, and was not pushed as lost. A track is identified at most once and pushed at most once,
   never both, and only a dropped one was pushed.
   */
  ghost predicate OkId(s: Tracks, batch: set<int>, id: int) {
    && Out(s, batch, id) <= 1 && s.identified[id] <= 1 && s.lost[id] <= 1
    && (s.outstanding[id] > 0 ==> s.identified[id] == 0)
    && (Result(id, true) in s.results ==> s.identified[id] == 1)
    && if id in s.pending then
         && id !in s.dropped && s.lost[id] == 0
         && (s.pending[id].identifyInflight <==> Out(s, batch, id) == 1)
         && (s.pending[id].featDone ==> Out(s, batch, id) == 0 && s.identified[id] == 1)
         && (s.identified[id] == 1 ==> s.pending[id].featDone || Result(id, true) in s.results)
       else
         && id !in batch
         && (id !in s.dropped ==> Out(s, batch, id) == 0 && s.identified[id] == 0 && s.lost[id] == 0)
         && (s.lost[id] == 1 ==> Out(s, batch, id) == 0 && s.identified[id] == 0)
  }

  ghost predicate Ok(s: Tracks, batch: set<int>) { forall id :: OkId(s, batch, id) }

  /** The promise in one sentence. */
  lemma IdentifiedOrLostOnce(s: Tracks, id: int)
    requires Ok(s, {})
    ensures s.identified[id] + s.lost[id] <= 1
    ensures id in s.pending ==> (s.pending[id].identifyInflight <==> s.outstanding[id] + Posted(s.results, id) == 1)
  {
    assert OkId(s, {}, id);
  }

  /** A track with an item out has not been identified; a track pushed as lost was dropped unidentified. */
  lemma OutstandingUnidentified(s: Tracks, before: multiset<int>, sent: seq<int>)
    requires Ok(s, {}) && s.outstanding == before + multiset(sent)
    ensures forall id :: id in sent ==> s.identified[id] == 0
    ensures forall id :: s.lost[id] > 0 ==> id in s.dropped && id !in s.pending && s.identified[id] == 0
  {
    forall id ensures (id in sent ==> s.identified[id] == 0)
                      && (s.lost[id] > 0 ==> id in s.dropped && id !in s.pending && s.identified[id] == 0)
    {
      assert OkId(s, {}, id);
      if id in sent { assert multiset(sent)[id] > 0; }
    }
  }

  lemma EmptyIfNone(keys: set<int>)
    ensures (forall id: int :: id !in keys) ==> keys == {}
  {
    if forall id: int :: id !in keys { assert keys <= {}; }
  }

  /** A result is posted for an outstanding item. */
  ghost function Post(s: Tracks, r: Result): Tracks {
    s.(results := s.results + [r], outstanding := s.outstanding - multiset{r.trackId},
       identified := if r.ok then s.identified + multiset{r.trackId} else s.identified)
  }

  /** A post keeps the promise at any time, also while a frame has a batch in hand. */
  lemma PostKeeps(s: Tracks, batch: set<int>, r: Result)
    requires Ok(s, batch) && s.outstanding[r.trackId] > 0
    ensures Ok(Post(s, r), batch)
  {
    forall id ensures OkId(Post(s, r), batch, id) {
      assert OkId(s, batch, id);
      PostedAppend(s.results, r, id);
      if Result(id, true) in s.results { PostedMember(s.results, Result(id, true)); }
    }
  }

  /** The first undrained result is taken in. */
  function Drained(p: TrackPending, ok: bool): TrackPending {
    if ok then p.(identifyInflight := false, featDone := true, hasFrame := false)
    else p.(identifyInflight := false)
  }

  /** An entry after results were taken in one by one. */
  ghost function AfterResults(p: TrackPending, id: int, results: seq<Result>): TrackPending {
    if results == [] then p
    else
      var last, q := results[|results| - 1], AfterResults(p, id, results[..|results| - 1]);
      if last.trackId == id then Drained(q, last.ok) else q
  }

  ghost function DrainedMap(m: map<int, TrackPending>, results: seq<Result>): map<int, TrackPending> {
    map id | id in m :: AfterResults(m[id], id, results)
  }

  /** With at most one result out for a track, draining settles its entry by that result. */
  lemma {:induction false} SettledByItsResult(p: TrackPending, id: int, results: seq<Result>)
    requires Posted(results, id) <= 1
    ensures AfterResults(p, id, results)
         == if Result(id, true) in results then Drained(p, true)
            else if Result(id, false) in results then Drained(p, false) else p
  {
    if results != [] {
      var last, init := results[|results| - 1], results[..|results| - 1];
      assert results == init + [last];
      PostedAppend(init, last, id);
      SettledByItsResult(p, id, init);
      if last.trackId == id {
        if Result(id, true) in init { PostedMember(init, Result(id, true)); }
        if Result(id, false) in init { PostedMember(init, Result(id, false)); }
      }
    }
  }

  lemma DrainedStep(m: map<int, TrackPending>, results: seq<Result>, i: nat)
    requires i < |results|
    ensures var r, d := results[i], DrainedMap(m, results[..i]);
            DrainedMap(m, results[..i + 1]) == if r.trackId in d then d[r.trackId := Drained(d[r.trackId], r.ok)] else d
  {
    assert results[..i + 1][..i] == results[..i];
  }

  ghost function DrainOne(s: Tracks): Tracks
    requires s.results != []
  {
    var r := s.results[0];
    s.(results := s.results[1..],
       pending := if r.trackId in s.pending then s.pending[r.trackId := Drained(s.pending[r.trackId], r.ok)] else s.pending)
  }

  lemma DrainKeeps(s: Tracks)
    requires Ok(s, {}) && s.results != []
    ensures Ok(DrainOne(s), {})
  {
    var r, rest := s.results[0], s.results[1..];
    forall id ensures OkId(DrainOne(s), {}, id) {
      assert OkId(s, {}, id);
      assert s.results == [r] + rest;
      if Result(id, true) in rest { PostedMember(rest, Result(id, true)); }
    }
  }

  /** A track is seen in the frame numbered `now`. */
  function Seen(p: TrackPending, now: int, cloned: bool): TrackPending {
    if p.featDone then p.(lastSeenFrame := now) else p.(lastSeenFrame := now, hasFrame := cloned)
  }

  function PendingOf(m: map<int, TrackPending>, id: int): TrackPending { if id in m then m[id] else NEW_TRACK_PENDING }

  lemma SeeKeeps(s: Tracks, id: int, now: int, cloned: bool)
    requires Ok(s, {}) && id !in s.dropped
    ensures Ok(s.(pending := s.pending[id := Seen(PendingOf(s.pending, id), now, cloned)]), {})
  {
    var s' := s.(pending := s.pending[id := Seen(PendingOf(s.pending, id), now, cloned)]);
    forall k ensures OkId(s', {}, k) { assert OkId(s, {}, k); }
  }

  /** A live track that is neither done nor in flight joins the batch. */
  lemma BatchKeeps(s: Tracks, batch: set<int>, id: int)
    requires Ok(s, batch) && id in s.pending && !s.pending[id].featDone && !s.pending[id].identifyInflight
    ensures Ok(s.(pending := s.pending[id := s.pending[id].(identifyInflight := true)]), batch + {id})
  {
    var s' := s.(pending := s.pending[id := s.pending[id].(identifyInflight := true)]);
    forall k ensures OkId(s', batch + {id}, k) {
      assert OkId(s, batch, k);
      if Result(k, true) in s.results { PostedMember(s.results, Result(k, true)); }
    }
  }

  /** The batch is submitted: its items become outstanding. */
  lemma SubmitKeeps(s: Tracks, batch: seq<int>)
    requires Ok(s, set k | k in batch)
    requires forall i, j :: 0 <= i < j < |batch| ==> batch[i] != batch[j]
    ensures Ok(s.(outstanding := s.outstanding + multiset(batch)), {})
  {
    var ids := set k | k in batch;
    var s' := s.(outstanding := s.outstanding + multiset(batch));
    forall k ensures OkId(s', {}, k) {
      assert OkId(s, ids, k);
      DistinctOnce(batch, k);
      if Result(k, true) in s.results { PostedMember(s.results, Result(k, true)); }
    }
  }

  lemma {:induction false} DistinctOnce(ids: seq<int>, k: int)
    requires forall i, j :: 0 <= i < j < |ids| ==> ids[i] != ids[j]
    ensures multiset(ids)[k] == if k in ids then 1 else 0
  {
    if ids != [] {
      assert ids == [ids[0]] + ids[1..];
      DistinctOnce(ids[1..], k);
    }
  }

  /** A track of the batch is rolled back. */
  lemma RollbackKeeps(s: Tracks, batch: set<int>, id: int)
    requires Ok(s, batch) && id in batch
    ensures id in s.pending
    ensures Ok(s.(pending := s.pending[id := s.pending[id].(identifyInflight := false)]), batch - {id})
  {
    assert OkId(s, batch, id);
    var s' := s.(pending := s.pending[id := s.pending[id].(identifyInflight := false)]);
    forall k ensures OkId(s', batch - {id}, k) { assert OkId(s, batch, k); }
  }

  /** What the services answer when a lost track is to be pushed. */
  datatype LostOutcome = LostOutcome(notifyReady: bool, cloned: bool, submitted: bool)

  /** What becomes of an entry when the frame numbered `now` prunes. */
  datatype Fate = Stay | Erase | EraseAndPush

  function Prune(p: TrackPending, now: int, o: LostOutcome): Fate {
    if now - p.lastSeenFrame <= TRACK_PRUNE_FRAMES then Stay
    else if p.featDone then Erase
    else if p.identifyInflight then (if now - p.lastSeenFrame > TRACK_INFLIGHT_MAX_FRAMES then Erase else Stay)
    else if !p.hasFrame || !o.notifyReady then Erase
    else if !o.cloned then Erase
    else if o.submitted then EraseAndPush
    else Stay
  }

  ghost function Pruned(s: Tracks, id: int, fate: Fate): Tracks {
    match fate
    case Stay => s
    case Erase => s.(pending := s.pending - {id}, dropped := s.dropped + {id})
    case EraseAndPush => s.(pending := s.pending - {id}, dropped := s.dropped + {id}, lost := s.lost + multiset{id})
  }

  lemma PruneKeeps(s: Tracks, id: int, now: int, o: LostOutcome)
    requires Ok(s, {}) && id in s.pending
    ensures Ok(Pruned(s, id, Prune(s.pending[id], now, o)), {})
  {
    var s' := Pruned(s, id, Prune(s.pending[id], now, o));
    forall k ensures OkId(s', {}, k) {
      assert OkId(s, {}, k);
      if Result(k, true) in s.results { PostedMember(s.results, Result(k, true)); }
    }
  }
}
