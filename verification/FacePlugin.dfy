/**
 The face plugin of plugins/face_recognition/face_plugin.cpp: frames drain results, mark tracks as
 seen, submit identification work and prune lost tracks; jobs post results in between.
 */
module FacePlugin {
  import opened FaceTracks
  import opened FaceFrames

  class Plugin {
    var hostSet: bool
    var trackPending: map<int, TrackPending>
    var frameSeq: int
    var identifyResults: seq<Result>
    ghost var outstanding: multiset<int>
    ghost var identified: multiset<int>
    ghost var lost: multiset<int>
    ghost var dropped: set<int>

    ghost function State(): Tracks
      reads this`trackPending, this`identifyResults, this`outstanding, this`identified, this`lost, this`dropped
    {
      Tracks(trackPending, identifyResults, outstanding, identified, lost, dropped)
    }

    ghost predicate Valid()
      reads this`trackPending, this`identifyResults, this`outstanding, this`identified, this`lost, this`dropped
    {
      Ok(State(), {})
    }

    constructor ()
      ensures Valid() && trackPending == map[] && frameSeq == 0 && !hostSet
    {
      hostSet, trackPending, frameSeq, identifyResults := false, map[], 0, [];
      outstanding, identified, lost, dropped := multiset{}, multiset{}, multiset{}, {};
    }

    method SetHost()
      requires Valid()
      modifies this`hostSet
      ensures hostSet && Valid()
    {
      hostSet := true;
    }

    /** Forget everything; jobs still out can no longer be answered for. */
    method Shutdown()
      requires Valid()
      modifies this
      ensures Valid() && trackPending == map[] && identifyResults == []
      ensures dropped == old(dropped) + old(trackPending).Keys
      ensures outstanding == old(outstanding) && identified == old(identified) && lost == old(lost)
    {
      ghost var s := State();
      dropped := dropped + trackPending.Keys;
      trackPending := map[];
      identifyResults := [];
      forall id ensures OkId(State(), {}, id) { assert OkId(s, {}, id); }
    }

    /** A job posts the result of one of its items. */
    method PostIdentifyResult(trackId: int, ok: bool)
      requires Valid() && outstanding[trackId] > 0
      modifies this`identifyResults, this`outstanding, this`identified
      ensures Valid() && State() == Post(old(State()), Result(trackId, ok))
      ensures identifyResults == old(identifyResults) + [Result(trackId, ok)]
      ensures outstanding == old(outstanding) - multiset{trackId}
    {
      PostKeeps(State(), {}, Result(trackId, ok));
      identifyResults := identifyResults + [Result(trackId, ok)];
      outstanding := outstanding - multiset{trackId};
      if ok { identified := identified + multiset{trackId}; }
    }

    /** The identification job: exactly one result for every item, whatever the services answer. */
    method RunIdentify(batch: seq<int>, clientsReady: bool, found: int -> bool)
      requires Valid() && multiset(batch) <= outstanding
      modifies this`identifyResults, this`outstanding, this`identified
      ensures Valid() && outstanding == old(outstanding) - multiset(batch)
      ensures identifyResults == old(identifyResults)
                + Answers(batch, clientsReady, found)
      ensures AnsweredInOrder(old(identifyResults), identifyResults, batch, clientsReady, found)
    {
      hide *;
      ghost var out, results := outstanding, identifyResults;
      AnsweredEnds(out, batch, clientsReady, found);
      for i := 0 to |batch|
        invariant Valid() && outstanding == LeftToAnswer(out, batch, i)
        invariant identifyResults == results + Answers(batch[..i], clientsReady, found)
      {
        AnsweredStep(out, results, batch, i, clientsReady, found);
        if !clientsReady {
          PostIdentifyResult(batch[i], false);
        } else {
          PostIdentifyResult(batch[i], found(batch[i]));
        }
      }
      AnswersPosted(results, batch, clientsReady, found);
    }

    /** Take in the results posted since the last frame. */
    method DrainIdentifyResults()
      requires Valid()
      modifies this`trackPending, this`identifyResults
      ensures Valid() && identifyResults == []
      ensures trackPending == DrainedMap(old(trackPending), old(identifyResults))
    {
      var results := identifyResults;
      identifyResults := [];
      ghost var s := old(State());
      assert trackPending == DrainedMap(trackPending, results[..0]);
      hide Ok, DrainedMap;
      for i := 0 to |results|
        invariant identifyResults == [] && trackPending == DrainedMap(old(trackPending), results[..i])
        invariant s == State().(results := results[i..]) && Ok(s, {})
      {
        DrainKeeps(s);
        DrainedStep(old(trackPending), results, i);
        s := DrainOne(s);
        var r := results[i];
        if r.trackId in trackPending {
          trackPending := trackPending[r.trackId := Drained(trackPending[r.trackId], r.ok)];
        }
      }
      assert results[..|results|] == results && results[|results|..] == [];
      assert s == State();
    }

    /** Every tracked face has an entry last seen now. */
    method MarkSeen(f: Frame)
      requires Valid() && forall id :: id in f.tracks && id >= 0 ==> id !in dropped
      modifies this`trackPending
      ensures Valid()
      ensures trackPending == SeenMap(f, old(trackPending), frameSeq)
    {
      ghost var was := trackPending;
      SeenNone(f, was, frameSeq);
      hide *;
      for i := 0 to |f.tracks|
        invariant Valid() && SeenTo(f, was, trackPending, frameSeq, i)
      {
        SeenStep(f, was, trackPending, frameSeq, i);
        var id := f.tracks[i];
        if id >= 0 {
          See(id, frameSeq, f.cloned(id));
        }
      }
      SeenAll(f, was, trackPending, frameSeq);
    }

    method See(id: int, now: int, cloned: bool)
      requires Valid() && id >= 0 && id !in dropped
      modifies this`trackPending
      ensures Valid() && trackPending == old(trackPending)[id := Seen(PendingOf(old(trackPending), id), now, cloned)]
    {
      SeeKeeps(State(), id, now, cloned);
      trackPending := trackPending[id := Seen(PendingOf(trackPending, id), now, cloned)];
    }

    /** The faces to identify: neither done nor in flight, and frontal enough. */
    method SelectFaces(f: Frame) returns (toProcess: seq<int>)
      requires forall id :: id in f.tracks && id >= 0 ==> id in trackPending
      ensures toProcess == Eligible(f.tracks, trackPending, f.frontal)
    {
      toProcess := [];
      for i := 0 to |f.tracks|
        invariant toProcess == Eligible(f.tracks[..i], trackPending, f.frontal)
      {
        assert f.tracks[..i + 1][..i] == f.tracks[..i];
        var id := f.tracks[i];
        if id >= 0 && !trackPending[id].featDone && !trackPending[id].identifyInflight && f.frontal(id) {
          toProcess := toProcess + [id];
        }
      }
      assert f.tracks[..|f.tracks|] == f.tracks;
    }

    /** Put in flight the faces with a feature and an image. */
    method CollectBatch(f: Frame, toProcess: seq<int>) returns (batch: seq<int>)
      requires Valid()
      requires forall i, j :: 0 <= i < j < |toProcess| ==> toProcess[i] != toProcess[j]
      requires forall id :: id in toProcess ==>
                 id in trackPending && !trackPending[id].featDone && !trackPending[id].identifyInflight
      modifies this`trackPending
      ensures Ok(State(), ToSet(batch))
      ensures batch == Collected(f, toProcess, |f.featEmpty|)
      ensures trackPending == InFlight(old(trackPending), batch)
    {
      batch := [];
      assert ToSet(batch) == {} && trackPending == InFlight(trackPending, batch);
      hide Ok, ToSet;
      for i := 0 to |f.featEmpty|
        invariant Ok(State(), ToSet(batch))
        invariant batch == Collected(f, toProcess, i) && trackPending == InFlight(old(trackPending), batch)
      {
        if f.featEmpty[i] || i >= |toProcess| || i >= f.faceImgs {
        } else {
          var tid := toProcess[i];
          CollectedFrom(f, toProcess, i);
          if tid in trackPending {
            BatchKeeps(State(), ToSet(batch), tid);
            ToSetAppend(batch, tid);
            trackPending := trackPending[tid := trackPending[tid].(identifyInflight := true)];
            batch := batch + [tid];
          }
        }
      }
    }

    /** Take the batch out of flight again. */
    method RollbackInflight(trackIds: seq<int>)
      requires Ok(State(), ToSet(trackIds))
      requires forall i, j :: 0 <= i < j < |trackIds| ==> trackIds[i] != trackIds[j]
      modifies this`trackPending
      ensures Valid() && trackPending.Keys == old(trackPending).Keys
      ensures forall id :: id in trackPending ==>
                trackPending[id] == if id in trackIds then old(trackPending)[id].(identifyInflight := false)
                                    else old(trackPending)[id]
    {
      for i := 0 to |trackIds|
        invariant Ok(State(), ToSet(trackIds[i..])) && trackPending.Keys == old(trackPending).Keys
        invariant forall id :: id in trackPending ==>
                    trackPending[id] == if id in trackIds[..i] then old(trackPending)[id].(identifyInflight := false)
                                        else old(trackPending)[id]
      {
        var tid := trackIds[i];
        assert ToSet(trackIds[i..]) - {tid} == ToSet(trackIds[i + 1..]);
        RollbackKeeps(State(), ToSet(trackIds[i..]), tid);
        if tid in trackPending {
          trackPending := trackPending[tid := trackPending[tid].(identifyInflight := false)];
        }
      }
      assert trackIds[..|trackIds|] == trackIds && ToSet(trackIds[|trackIds|..]) == {};
    }

    /** Submit the batch, or roll it back if anything stands in the way. */
    method SubmitBatch(f: Frame, batch: seq<int>, ghost m: map<int, TrackPending>) returns (ghost sent: seq<int>)
      requires Ok(State(), ToSet(batch)) && trackPending == InFlight(m, batch)
      requires forall i, j :: 0 <= i < j < |batch| ==> batch[i] != batch[j]
      requires forall id :: id in batch ==> id in m && !m[id].identifyInflight
      modifies this`trackPending, this`outstanding
      ensures Valid() && sent == if f.ready && f.frameCloned && f.submitted then batch else []
      ensures outstanding == old(outstanding) + multiset(sent)
      ensures trackPending == InFlight(m, sent)
    {
      sent := [];
      if batch == [] {
        assert ToSet(batch) == {};
        return;
      }
      if !f.ready || !f.frameCloned || !f.submitted {
        RollbackInflight(batch);
        RolledBack(m, trackPending, batch);
      } else {
        SubmitKeeps(State(), batch);
        outstanding := outstanding + multiset(batch);
        sent := batch;
      }
    }

    /** Keep or erase one entry, pushing its track if it was never identified. */
    method PruneOne(id: int, o: LostOutcome)
      requires Valid() && id in trackPending
      modifies this`trackPending, this`dropped, this`lost
      ensures Valid() && State() == Pruned(old(State()), id, Prune(old(trackPending)[id], frameSeq, o))
    {
      var p := trackPending[id];
      PruneKeeps(State(), id, frameSeq, o);
      if frameSeq - p.lastSeenFrame <= TRACK_PRUNE_FRAMES {
        return;
      }
      if p.featDone {
        trackPending := trackPending - {id};
        dropped := dropped + {id};
        return;
      }
      if p.identifyInflight {
        if frameSeq - p.lastSeenFrame > TRACK_INFLIGHT_MAX_FRAMES {
          trackPending := trackPending - {id};
          dropped := dropped + {id};
        }
        return;
      }
      if !p.hasFrame || !o.notifyReady || !o.cloned {
        trackPending := trackPending - {id};
        dropped := dropped + {id};
        return;
      }
      if o.submitted {
        trackPending := trackPending - {id};
        dropped := dropped + {id};
        lost := lost + multiset{id};
      }
    }

    /** Erase the entries of lost tracks, pushing those that were never identified. */
    method PruneLost(f: Frame)
      requires Valid()
      modifies this`trackPending, this`dropped, this`lost
      ensures Valid() && PrunedBut(old(State()), State(), frameSeq, f, {})
      ensures PrunedInFields(old(trackPending), old(lost), State(), frameSeq, f.lost)
    {
      var keys := trackPending.Keys;
      PrunedStart(State(), frameSeq, f);
      hide Ok, PrunedBut, Prune, Pruned;
      while keys != {}
        invariant Valid() && PrunedBut(old(State()), State(), frameSeq, f, keys)
        decreases keys
      {
        EmptyIfNone(keys);
        var id :| id in keys;
        PrunedStep(old(State()), State(), frameSeq, f, keys, id);
        keys := keys - {id};
        PruneOne(id, f.lost(id));
      }
      PrunedMeans(old(State()), State(), frameSeq, f);
    }

    /** A frame up to the pruning of lost tracks. */
    method Identify(f: Frame) returns (ghost sent: seq<int>)
      requires Valid() && DistinctTracks(f.tracks)
      requires forall id :: id in f.tracks && id >= 0 ==> id !in dropped
      modifies this`trackPending, this`identifyResults, this`frameSeq, this`outstanding
      ensures Valid() && frameSeq == old(frameSeq) + 1 && identifyResults == []
      ensures var d := DrainedMap(old(trackPending), old(identifyResults));
              sent == Sent(f, d) && trackPending == InFlight(SeenMap(f, d, frameSeq), sent)
      ensures outstanding == old(outstanding) + multiset(sent)
    {
      hide *;
      DrainIdentifyResults();
      ghost var d := trackPending;
      frameSeq := frameSeq + 1;
      MarkSeen(f);
      ghost var m := trackPending;
      BatchReady(f, d, frameSeq);
      var toProcess := SelectFaces(f);
      var batch := CollectBatch(f, toProcess);
      sent := SubmitBatch(f, batch, m);
      SentIs(f, d, batch);
    }

    /**
     One frame. The tracker gives each id to at most one face, and a dropped id does not come back.
     `sent` is the batch that was submitted for identification, `entries` what draining, marking and
     putting in flight leave to pruning.
     */
    method OnFrame(f: Frame) returns (code: int, ghost sent: seq<int>, ghost entries: map<int, TrackPending>)
      requires Valid() && DistinctTracks(f.tracks)
      requires forall id :: id in f.tracks && id >= 0 ==> id !in dropped
      modifies this
      ensures Valid() && hostSet == old(hostSet)
      ensures !hostSet ==> code == -1 && sent == [] && frameSeq == old(frameSeq) && State() == old(State())
      ensures hostSet ==>
                && code == 0 && frameSeq == old(frameSeq) + 1 && identifyResults == [] && identified == old(identified)
                && var d := DrainedMap(old(trackPending), old(identifyResults));
                   && sent == Sent(f, d) && outstanding == old(outstanding) + multiset(sent)
                   && PrunedBut(Tracks(InFlight(SeenMap(f, d, frameSeq), sent), [], outstanding,
                                       identified, old(lost), old(dropped)), State(), frameSeq, f, {})
      ensures hostSet ==> SentInFields(old(State()), f, sent) && EntriesAre(old(State()), f, frameSeq, sent, entries)
      ensures hostSet ==> PrunedInFields(entries, old(lost), State(), frameSeq, f.lost)
      ensures forall id :: id in sent ==> id in f.tracks && f.frontal(id) && identified[id] == 0
      ensures forall id :: lost[id] > 0 ==> id in dropped && id !in trackPending && identified[id] == 0
    {
      sent, entries := [], map[];
      if !hostSet {
        assert outstanding == outstanding + multiset(sent);
        OutstandingUnidentified(State(), outstanding, sent);
        return -1, [], map[];
      }
      SentEligible(f, DrainedMap(trackPending, identifyResults));
      SentMeans(State(), f);
      hide Ok, DrainedMap, SeenMap, InFlight, Sent, SentInFields, EntriesAre, PrunedInFields;
      sent := Identify(f);
      entries := trackPending;
      EntriesBefore(old(State()), f, frameSeq, sent);
      PruneLost(f);
      OutstandingUnidentified(State(), old(outstanding), sent);
      return 0, sent, entries;
    }
  }
}
