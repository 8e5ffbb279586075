/**
 Frames and jobs of plugins/face_recognition/face_plugin.cpp interleaved: a frame is a series of small
 steps, and a job may post a result between any two of them.
 */
module FaceRuns {
  import opened FaceTracks

  /**
   Where the frame thread is. Draining counts the results it has taken over and not looked at yet; they
   are the first ones of the state's results. Collecting and Undoing hold the batch in hand.
   */
  datatype Phase =
    | Between
    | Draining(left: nat)
    | Seeing
    | Collecting(batch: seq<int>)
    | Undoing(batch: seq<int>)
    | Pruning

  datatype State = State(tracks: Tracks, now: int, phase: Phase)

  datatype Action =
    | Post(r: Result)
    | BeginFrame
    | TakeResult
    | EndDraining
    | See(id: int, cloned: bool)
    | EndSeeing
    | Collect(id: int)
    | Submit
    | Refuse
    | Undo
    | PruneTrack(id: int, o: LostOutcome)
    | EndFrame
    | Forget

  ghost predicate Initial(s: State) {
    s == State(Tracks(map[], [], multiset{}, multiset{}, multiset{}, {}), 0, Between)
  }

  /** A job posts the result of one of its items, at any time. */
  ghost predicate JobStep(s: State, a: Action, s': State) {
    a.Post? && s.tracks.outstanding[a.r.trackId] > 0 && s' == s.(tracks := FaceTracks.Post(s.tracks, a.r))
  }

  /** The frame thread up to the choice of the batch. */
  ghost predicate FirstHalf(s: State, a: Action, s': State) {
    match a
    case BeginFrame => s.phase == Between && s' == s.(phase := Draining(|s.tracks.results|))
    case TakeResult =>
      && s.phase.Draining? && 0 < s.phase.left <= |s.tracks.results|
      && s' == s.(tracks := DrainOne(s.tracks), phase := Draining(s.phase.left - 1))
    case EndDraining => s.phase == Draining(0) && s' == s.(now := s.now + 1, phase := Seeing)
    case See(id, cloned) =>
      && s.phase == Seeing && id >= 0 && id !in s.tracks.dropped
      && s' == s.(tracks := s.tracks.(pending := s.tracks.pending[id := Seen(PendingOf(s.tracks.pending, id), s.now, cloned)]))
    case EndSeeing => s.phase == Seeing && s' == s.(phase := Collecting([]))
    case _ => false
  }

  /** The batch, submitted or undone, and the pruning; what is forgotten at shutdown. */
  ghost predicate SecondHalf(s: State, a: Action, s': State) {
    match a
    case Collect(id) =>
      && s.phase.Collecting? && id in s.tracks.pending
      && !s.tracks.pending[id].featDone && !s.tracks.pending[id].identifyInflight
      && s' == s.(tracks := WithFlag(s.tracks, id, true), phase := Collecting(s.phase.batch + [id]))
    case Submit =>
      && s.phase.Collecting?
      && s' == s.(tracks := s.tracks.(outstanding := s.tracks.outstanding + multiset(s.phase.batch)), phase := Pruning)
    case Refuse => s.phase.Collecting? && s' == s.(phase := Undoing(s.phase.batch))
    case Undo =>
      && s.phase.Undoing?
      && s' == if s.phase.batch == [] then s.(phase := Pruning)
               else if s.phase.batch[0] in s.tracks.pending then
                 s.(tracks := WithFlag(s.tracks, s.phase.batch[0], false), phase := Undoing(s.phase.batch[1..]))
               else s.(phase := Undoing(s.phase.batch[1..]))
    case PruneTrack(id, o) =>
      && s.phase == Pruning && id in s.tracks.pending
      && s' == s.(tracks := Pruned(s.tracks, id, Prune(s.tracks.pending[id], s.now, o)))
    case EndFrame => s.phase == Pruning && s' == s.(phase := Between)
    case Forget =>
      && s.phase == Between
      && s' == s.(tracks := s.tracks.(pending := map[], results := [], dropped := s.tracks.dropped + s.tracks.pending.Keys))
    case _ => false
  }

  ghost function WithFlag(t: Tracks, id: int, flag: bool): Tracks
    requires id in t.pending
  {
    t.(pending := t.pending[id := t.pending[id].(identifyInflight := flag)])
  }

  ghost predicate Step(s: State, a: Action, s': State) {
    JobStep(s, a, s') || FirstHalf(s, a, s') || SecondHalf(s, a, s')
  }

  function InHand(phase: Phase): seq<int> {
    if phase.Collecting? || phase.Undoing? then phase.batch else []
  }

  ghost predicate Distinct(ids: seq<int>) { forall i, j :: 0 <= i < j < |ids| ==> ids[i] != ids[j] }

  /** The promise for every track, the batch in hand counted. */
  ghost predicate Inv(s: State) {
    && Ok(s.tracks, ToSet(InHand(s.phase))) && Distinct(InHand(s.phase))
    && (s.phase.Draining? ==> s.phase.left <= |s.tracks.results|)
  }

  lemma JobKeeps(s: State, a: Action, s': State)
    requires Inv(s) && JobStep(s, a, s')
    ensures Inv(s')
  {
    PostKeeps(s.tracks, ToSet(InHand(s.phase)), a.r);
    hide Ok;
  }

  lemma FirstHalfKeeps(s: State, a: Action, s': State)
    requires Inv(s) && FirstHalf(s, a, s')
    ensures Inv(s')
  {
    assert ToSet([]) == {};
    hide Ok;
    match a {
      case TakeResult => DrainKeeps(s.tracks);
      case See(id, cloned) => SeeKeeps(s.tracks, id, s.now, cloned);
      case _ =>
    }
  }

  lemma SecondHalfKeeps(s: State, a: Action, s': State)
    requires Inv(s) && SecondHalf(s, a, s')
    ensures Inv(s')
  {
    assert ToSet([]) == {};
    match a {
      case Collect(id) =>
        assert OkId(s.tracks, ToSet(s.phase.batch), id);
        assert ToSet(s.phase.batch + [id]) == ToSet(s.phase.batch) + {id};
        hide Ok, OkId;
        BatchKeeps(s.tracks, ToSet(s.phase.batch), id);
      case Submit =>
        hide Ok;
        SubmitKeeps(s.tracks, s.phase.batch);
      case Undo =>
        hide Ok;
        if s.phase.batch != [] { UndoKeeps(s, s'); }
      case PruneTrack(id, o) =>
        hide Ok;
        PruneKeeps(s.tracks, id, s.now, o);
      case Forget => ForgetKeeps(s.tracks);
      case _ =>
    }
  }

  lemma UndoKeeps(s: State, s': State)
    requires Inv(s) && SecondHalf(s, Undo, s') && s.phase.batch != []
    ensures Inv(s')
  {
    var first, rest := s.phase.batch[0], s.phase.batch[1..];
    assert ToSet(s.phase.batch) - {first} == ToSet(rest);
    hide Ok;
    RollbackKeeps(s.tracks, ToSet(s.phase.batch), first);
  }

  lemma ForgetKeeps(t: Tracks)
    requires Ok(t, {})
    ensures Ok(t.(pending := map[], results := [], dropped := t.dropped + t.pending.Keys), {})
  {
    forall id ensures OkId(t.(pending := map[], results := [], dropped := t.dropped + t.pending.Keys), {}, id) {
      assert OkId(t, {}, id);
    }
  }

  ghost predicate IsRun(states: seq<State>, actions: seq<Action>) {
    && |states| == |actions| + 1 && Initial(states[0])
    && forall i | 0 <= i < |actions| :: Step(states[i], actions[i], states[i + 1])
  }

  lemma RunStep(states: seq<State>, actions: seq<Action>, i: nat)
    requires IsRun(states, actions) && i < |actions|
    ensures i + 1 < |states| && Step(states[i], actions[i], states[i + 1])
  {
    hide Step, Initial;
  }

  lemma RunBegins(states: seq<State>, actions: seq<Action>)
    requires IsRun(states, actions)
    ensures |states| == |actions| + 1 && Inv(states[0])
  {
    hide Step;
  }

  /** Every interleaving of frames and jobs keeps the promise at every moment. */
  lemma {:induction false} RunKeeps(states: seq<State>, actions: seq<Action>, i: nat)
    requires IsRun(states, actions) && i < |states|
    ensures Inv(states[i])
  {
    hide IsRun, Inv, JobStep, FirstHalf, SecondHalf;
    RunBegins(states, actions);
    if i > 0 {
      RunKeeps(states, actions, i - 1);
      RunStep(states, actions, i - 1);
      var s, a, s' := states[i - 1], actions[i - 1], states[i];
      if JobStep(s, a, s') {
        JobKeeps(s, a, s');
      } else if FirstHalf(s, a, s') {
        FirstHalfKeeps(s, a, s');
      } else {
        SecondHalfKeeps(s, a, s');
      }
    }
  }

  /** At every moment of every interleaving a track was identified or pushed as lost at most once in all, and is in flight exactly when one item or result of it is out. */
  lemma OncePerTrack(states: seq<State>, actions: seq<Action>, i: nat, id: int)
    requires IsRun(states, actions) && i < |states|
    ensures var t := states[i].tracks;
            && t.identified[id] + t.lost[id] <= 1
            && (id in t.pending ==>
                  (t.pending[id].identifyInflight <==>
                   t.outstanding[id] + Posted(t.results, id) + (if id in InHand(states[i].phase) then 1 else 0) == 1))
  {
    RunKeeps(states, actions, i);
    var s := states[i];
    assert OkId(s.tracks, ToSet(InHand(s.phase)), id);
  }

  /** What has happened to a track stays: neither count ever goes down. */
  lemma HappenedStays(s: State, a: Action, s': State, id: int)
    requires Step(s, a, s')
    ensures s.tracks.identified[id] <= s'.tracks.identified[id] && s.tracks.lost[id] <= s'.tracks.lost[id]
  {
  }
}
