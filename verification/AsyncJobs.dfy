/**
 Plugins' background jobs as a transition system: submitting threads, the pool's workers, the
 in-flight gates of HostServices, the thread that stops the pool, and the thread that unloads a
 plugin. One action is one atomic step: a critical section, one atomic counter operation, or one
 notification.
 */
module AsyncJobs {
  import opened ThreadPool

  /** Where a worker thread is. */
  datatype Worker =
    | Ready                     // about to lock the queue, not asleep
    | Asleep                    // blocked on the pool's condition variable
    | Body(job: Job)            // running the job body
    | Finished(job: Job)        // body done, gate not yet decremented
    | Notifying(plugin: string) // brought the gate to 0, has yet to lock it and notify
    | Exited

  /** Where a thread calling SubmitAsync is. */
  datatype Submitter =
    | Idle
    | Entered(plugin: string)   // has the gate, not yet counted
    | Counted(plugin: string)   // counted, not yet offered to the pool
    | Signalling                // accepted, has yet to notify a worker
    | Rejected(plugin: string)  // refused, not yet uncounted
    | Clearing(plugin: string)  // brought the gate to 0, has yet to lock it and notify

  datatype Stopper = NotStopped | StopSet | Joining | Joined

  /** Where the thread unloading a plugin is: waiting for quiescence, then shutdown, destroy, dlclose. */
  datatype Unload =
    | Locked                    // holds the gate, about to load the count
    | Blocking                  // holds the gate, saw a positive count, about to wait
    | Blocked                   // waiting on the gate's condition variable
    | Woken                     // has yet to lock the gate again
    | Quiesced
    | Destroyed
    | LibraryClosed

  datatype State = State(
    queue: seq<Job>, stop: bool, maxQueue: nat,
    workers: seq<Worker>, submitters: seq<Submitter>, stopper: Stopper,
    count: map<string, int>, quiet: set<string>, unloads: map<string, Unload>,
    // history: jobs accepted, taken off the queue, and run to the end of their bodies
    accepted: seq<Job>, taken: seq<Job>, ran: seq<Job>)

  datatype Action =
    | Enter(t: nat, plugin: string) | Increment(t: nat) | Offer(t: nat) | Signal(t: nat, w: nat) | SignalNobody(t: nat)
    | Uncount(t: nat) | ClearNotify(t: nat)
    | Look(w: nat) | EndBody(w: nat) | Release(w: nat) | Notify(w: nat) | WakeSpuriously(w: nat)
    | SetStop | WakeAll | Join
    | Quiet(plugin: string) | BeginWait(plugin: string) | CheckCount(plugin: string) | Block(plugin: string)
    | WakeWaiter(plugin: string) | Relock(plugin: string) | Destroy(plugin: string) | CloseLibrary(plugin: string)

  function Count(s: State, p: string): int { if p in s.count then s.count[p] else 0 }

  /** The gate is locked across steps only by a waiter that is checking or about to block. */
  predicate GateFree(s: State, p: string) {
    p !in s.unloads || (s.unloads[p] != Locked && s.unloads[p] != Blocking)
  }

  /** Waking everybody who waits on the gate of p. */
  function NotifyGate(s: State, p: string): map<string, Unload> {
    if p in s.unloads && s.unloads[p] == Blocked then s.unloads[p := Woken] else s.unloads
  }

  function WakeEverybody(ws: seq<Worker>): (r: seq<Worker>)
    ensures |r| == |ws| && forall i :: 0 <= i < |ws| ==> r[i] == if ws[i] == Asleep then Ready else ws[i]
  {
    seq(|ws|, i requires 0 <= i < |ws| => if ws[i] == Asleep then Ready else ws[i])
  }

  ghost predicate Initial(s: State) {
    && s.queue == [] && !s.stop && s.maxQueue >= 1 && s.stopper == NotStopped
    && |s.workers| >= 1 && (forall w :: 0 <= w < |s.workers| ==> s.workers[w] == Ready)
    && (forall t :: 0 <= t < |s.submitters| ==> s.submitters[t] == Idle)
    && s.count == map[] && s.quiet == {} && s.unloads == map[]
    && s.accepted == s.taken == s.ran == []
  }

  /** Steps of threads in SubmitAsync. A plugin declared quiet has no new submissions. */
  predicate SubmitStep(s: State, a: Action, s': State) {
    match a
    case Enter(t, p) =>
      && t < |s.submitters| && s.submitters[t] == Idle && p !in s.quiet
      && s' == s.(submitters := s.submitters[t := Entered(p)], count := s.count[p := Count(s, p)])
    case Increment(t) =>
      && t < |s.submitters| && s.submitters[t].Entered?
      && var p := s.submitters[t].plugin;
         s' == s.(submitters := s.submitters[t := Counted(p)], count := s.count[p := Count(s, p) + 1])
    case Offer(t) =>
      && t < |s.submitters| && s.submitters[t].Counted?
      && var p := s.submitters[t].plugin;
         var job := Job(p, |s.accepted|);
         s' == if Accepts(s.queue, s.stop, s.maxQueue)
               then s.(submitters := s.submitters[t := Signalling], queue := s.queue + [job], accepted := s.accepted + [job])
               else s.(submitters := s.submitters[t := Rejected(p)])
    case Signal(t, w) =>
      && t < |s.submitters| && s.submitters[t] == Signalling && w < |s.workers| && s.workers[w] == Asleep
      && s' == s.(submitters := s.submitters[t := Idle], workers := s.workers[w := Ready])
    case SignalNobody(t) =>
      && t < |s.submitters| && s.submitters[t] == Signalling
      && (forall w :: 0 <= w < |s.workers| ==> s.workers[w] != Asleep)
      && s' == s.(submitters := s.submitters[t := Idle])
    case Uncount(t) =>
      && t < |s.submitters| && s.submitters[t].Rejected?
      && var p := s.submitters[t].plugin;
         s' == s.(submitters := s.submitters[t := if Count(s, p) == 1 then Clearing(p) else Idle],
                  count := s.count[p := Count(s, p) - 1])
    case ClearNotify(t) =>
      && t < |s.submitters| && s.submitters[t].Clearing? && GateFree(s, s.submitters[t].plugin)
      && s' == s.(submitters := s.submitters[t := Idle], unloads := NotifyGate(s, s.submitters[t].plugin))
    case _ => false
  }

  /** Steps of the pool's workers. */
  predicate WorkerStep(s: State, a: Action, s': State) {
    match a
    case Look(w) =>
      && w < |s.workers| && s.workers[w] == Ready
      && (match Decide(s.queue, s.stop)
          case Sleep => s' == s.(workers := s.workers[w := Asleep])
          case Leave => s' == s.(workers := s.workers[w := Exited])
          case Run(job) => s' == s.(workers := s.workers[w := Body(job)], queue := s.queue[1..], taken := s.taken + [job]))
    case EndBody(w) =>
      && w < |s.workers| && s.workers[w].Body?
      && s' == s.(workers := s.workers[w := Finished(s.workers[w].job)], ran := s.ran + [s.workers[w].job])
    case Release(w) =>
      && w < |s.workers| && s.workers[w].Finished?
      && var p := s.workers[w].job.plugin;
         s' == s.(workers := s.workers[w := if Count(s, p) == 1 then Notifying(p) else Ready],
                  count := s.count[p := Count(s, p) - 1])
    case Notify(w) =>
      && w < |s.workers| && s.workers[w].Notifying? && GateFree(s, s.workers[w].plugin)
      && s' == s.(workers := s.workers[w := Ready], unloads := NotifyGate(s, s.workers[w].plugin))
    case WakeSpuriously(w) =>
      && w < |s.workers| && s.workers[w] == Asleep
      && s' == s.(workers := s.workers[w := Ready])
    case _ => false
  }

  /** Steps of the thread that shuts the pool down. */
  predicate StopStep(s: State, a: Action, s': State) {
    match a
    case SetStop => s.stopper == NotStopped && s' == s.(stop := true, stopper := StopSet)
    case WakeAll => s.stopper == StopSet && s' == s.(workers := WakeEverybody(s.workers), stopper := Joining)
    case Join =>
      && s.stopper == Joining && (forall w :: 0 <= w < |s.workers| ==> s.workers[w] == Exited)
      && s' == s.(stopper := Joined)
    case _ => false
  }

  /**
   Steps of the thread that unloads a plugin. Unloading is begun only for a plugin that is quiet, and
   a plugin becomes quiet when no submission for it is between entry and its count.
   */
  predicate UnloadStep(s: State, a: Action, s': State) {
    match a
    case Quiet(p) =>
      && (forall t :: 0 <= t < |s.submitters| ==> s.submitters[t] != Entered(p))
      && s' == s.(quiet := s.quiet + {p})
    case BeginWait(p) =>
      && p in s.quiet && p !in s.unloads
      && s' == s.(unloads := s.unloads[p := if p in s.count then Locked else Quiesced])
    case CheckCount(p) =>
      && p in s.unloads && s.unloads[p] == Locked
      && s' == s.(unloads := s.unloads[p := if Count(s, p) == 0 then Quiesced else Blocking])
    case Block(p) =>
      && p in s.unloads && s.unloads[p] == Blocking
      && s' == s.(unloads := s.unloads[p := Blocked])
    case WakeWaiter(p) =>
      && p in s.unloads && s.unloads[p] == Blocked
      && s' == s.(unloads := s.unloads[p := Woken])
    case Relock(p) =>
      && p in s.unloads && s.unloads[p] == Woken
      && s' == s.(unloads := s.unloads[p := Locked])
    case Destroy(p) =>
      && p in s.unloads && s.unloads[p] == Quiesced
      && s' == s.(unloads := s.unloads[p := Destroyed])
    case CloseLibrary(p) =>
      && p in s.unloads && s.unloads[p] == Destroyed
      && s' == s.(unloads := s.unloads[p := LibraryClosed])
    case _ => false
  }

  predicate Step(s: State, a: Action, s': State) {
    SubmitStep(s, a, s') || WorkerStep(s, a, s') || StopStep(s, a, s') || UnloadStep(s, a, s')
  }

  // ----- counting

  ghost function Queued(q: seq<Job>, p: string): nat {
    if q == [] then 0 else (if q[0].plugin == p then 1 else 0) + Queued(q[1..], p)
  }

  ghost predicate Holds(w: Worker, p: string) {
    (w.Body? && w.job.plugin == p) || (w.Finished? && w.job.plugin == p)
  }

  ghost function Working(ws: seq<Worker>, p: string): nat {
    if ws == [] then 0 else (if Holds(ws[0], p) then 1 else 0) + Working(ws[1..], p)
  }

  ghost predicate Between(t: Submitter, p: string) { t == Counted(p) || t == Rejected(p) }

  ghost function Submitting(ts: seq<Submitter>, p: string): nat {
    if ts == [] then 0 else (if Between(ts[0], p) then 1 else 0) + Submitting(ts[1..], p)
  }

  /** How many workers are in the body of the job. */
  ghost function Running(ws: seq<Worker>, job: Job): nat {
    if ws == [] then 0 else (if ws[0] == Body(job) then 1 else 0) + Running(ws[1..], job)
  }

  lemma {:induction false} QueuedAppend(q: seq<Job>, job: Job, p: string)
    ensures Queued(q + [job], p) == Queued(q, p) + if job.plugin == p then 1 else 0
  {
    if q == [] {
      assert q + [job] == [job];
    } else {
      assert (q + [job])[1..] == q[1..] + [job];
      QueuedAppend(q[1..], job, p);
    }
  }

  lemma {:induction false} WorkingUpdate(ws: seq<Worker>, i: nat, w: Worker, p: string)
    requires i < |ws|
    ensures Working(ws[i := w], p)
         == Working(ws, p) - (if Holds(ws[i], p) then 1 else 0) + (if Holds(w, p) then 1 else 0)
  {
    if i == 0 {
      assert ws[i := w][1..] == ws[1..];
    } else {
      assert ws[i := w][1..] == ws[1..][i - 1 := w];
      WorkingUpdate(ws[1..], i - 1, w, p);
    }
  }

  lemma {:induction false} SubmittingUpdate(ts: seq<Submitter>, i: nat, t: Submitter, p: string)
    requires i < |ts|
    ensures Submitting(ts[i := t], p)
         == Submitting(ts, p) - (if Between(ts[i], p) then 1 else 0) + (if Between(t, p) then 1 else 0)
  {
    if i == 0 {
      assert ts[i := t][1..] == ts[1..];
    } else {
      assert ts[i := t][1..] == ts[1..][i - 1 := t];
      SubmittingUpdate(ts[1..], i - 1, t, p);
    }
  }

  lemma {:induction false} RunningUpdate(ws: seq<Worker>, i: nat, w: Worker, job: Job)
    requires i < |ws|
    ensures Running(ws[i := w], job)
         == Running(ws, job) - (if ws[i] == Body(job) then 1 else 0) + (if w == Body(job) then 1 else 0)
  {
    if i == 0 {
      assert ws[i := w][1..] == ws[1..];
    } else {
      assert ws[i := w][1..] == ws[1..][i - 1 := w];
      RunningUpdate(ws[1..], i - 1, w, job);
    }
  }

  lemma {:induction false} WakingCounts(ws: seq<Worker>, p: string)
    ensures Working(WakeEverybody(ws), p) == Working(ws, p)
  {
    if ws != [] {
      assert WakeEverybody(ws)[1..] == WakeEverybody(ws[1..]);
      WakingCounts(ws[1..], p);
    }
  }

  lemma {:induction false} WakingRuns(ws: seq<Worker>, job: Job)
    ensures Running(WakeEverybody(ws), job) == Running(ws, job)
  {
    if ws != [] {
      assert WakeEverybody(ws)[1..] == WakeEverybody(ws[1..]);
      WakingRuns(ws[1..], job);
    }
  }

  lemma {:induction false} NothingRunning(ws: seq<Worker>, job: Job)
    requires forall w :: 0 <= w < |ws| ==> !ws[w].Body?
    ensures Running(ws, job) == 0
  {
    if ws != [] { NothingRunning(ws[1..], job); }
  }

  /** A count of zero means there is none. */
  lemma {:induction false} NoneQueued(q: seq<Job>, p: string)
    ensures Queued(q, p) == 0 <==> forall i :: 0 <= i < |q| ==> q[i].plugin != p
  {
    if q != [] { NoneQueued(q[1..], p); }
  }

  lemma {:induction false} NoneWorking(ws: seq<Worker>, p: string)
    ensures Working(ws, p) == 0 <==> forall i :: 0 <= i < |ws| ==> !Holds(ws[i], p)
  {
    if ws != [] { NoneWorking(ws[1..], p); }
  }

  // ----- invariants

  /** The queue is bounded and jobs leave it in the order they were accepted. */
  ghost predicate InOrder(s: State) {
    && |s.queue| <= s.maxQueue
    && s.accepted == s.taken + s.queue
    && (forall i :: 0 <= i < |s.accepted| ==> s.accepted[i].serial == i)
  }

  /** A job taken off the queue is in the body of one worker or has been run. */
  ghost predicate TakenIsRun(s: State, job: Job) {
    multiset(s.taken)[job] == multiset(s.ran)[job] + Running(s.workers, job)
  }

  ghost predicate Conserved(s: State) { forall job :: TakenIsRun(s, job) }

  /** Workers leave only a stopped, empty pool. */
  ghost predicate Stopping(s: State) {
    && |s.workers| >= 1
    && (s.stop <==> s.stopper != NotStopped)
    && (forall w :: 0 <= w < |s.workers| && s.workers[w] == Exited ==> s.stop && s.queue == [])
    && (s.stopper == Joined ==> forall w :: 0 <= w < |s.workers| ==> s.workers[w] == Exited)
  }

  ghost predicate Awake(w: Worker) { w != Asleep && w != Exited }

  ghost predicate SomeAwake(ws: seq<Worker>) { exists w :: 0 <= w < |ws| && Awake(ws[w]) }

  ghost predicate SomeSignal(ts: seq<Submitter>) { exists t :: 0 <= t < |ts| && ts[t] == Signalling }

  ghost predicate NobodyAsleep(ws: seq<Worker>) { forall w :: 0 <= w < |ws| ==> ws[w] != Asleep }

  /** No wakeup of the pool is lost: queued jobs have an awake worker or a notification on its way. */
  ghost predicate PoolWakes(s: State) {
    && (s.queue != [] ==> SomeAwake(s.workers) || SomeSignal(s.submitters) || s.stopper == StopSet)
    && (s.stopper == Joining || s.stopper == Joined ==> NobodyAsleep(s.workers))
  }

  /** A plugin's gate counts its jobs queued or with a worker, and its submissions awaiting their outcome. */
  ghost predicate Counts(s: State, p: string) {
    Count(s, p) == Queued(s.queue, p) + Working(s.workers, p) + Submitting(s.submitters, p)
  }

  ghost predicate GatesCount(s: State) { forall p :: Counts(s, p) }

  ghost predicate SomeNotifier(s: State, p: string) {
    || (exists w :: 0 <= w < |s.workers| && s.workers[w] == Notifying(p))
    || (exists t :: 0 <= t < |s.submitters| && s.submitters[t] == Clearing(p))
  }

  /** No wakeup of a gate is lost: who waits, or is about to, at count 0 has a notifier on its way. */
  ghost predicate GateWakes(s: State, p: string) {
    p in s.unloads && (s.unloads[p] == Blocked || s.unloads[p] == Blocking) && Count(s, p) == 0 ==> SomeNotifier(s, p)
  }

  ghost predicate GatesWake(s: State) { forall p :: GateWakes(s, p) }

  predicate PastWait(u: Unload) { u == Quiesced || u == Destroyed || u == LibraryClosed }

  /** Once quiescence was seen the plugin is quiet for good and its count is 0. */
  ghost predicate QuietStays(s: State) {
    && (forall p, t :: p in s.quiet && 0 <= t < |s.submitters| ==> s.submitters[t] != Entered(p))
    && (forall p :: p in s.unloads ==> p in s.quiet && (PastWait(s.unloads[p]) ==> Count(s, p) == 0))
  }

  ghost predicate Inv(s: State) {
    InOrder(s) && Conserved(s) && Stopping(s) && PoolWakes(s) && GatesCount(s) && GatesWake(s) && QuietStays(s)
  }

  lemma InitialInv(s: State)
    requires Initial(s)
    ensures Inv(s)
  {
    forall job ensures TakenIsRun(s, job) { NothingRunning(s.workers, job); }
    forall p ensures Counts(s, p) {
      NoneWorking(s.workers, p);
      NothingSubmitting(s.submitters, p);
    }
  }

  lemma {:induction false} NothingSubmitting(ts: seq<Submitter>, p: string)
    requires forall t :: 0 <= t < |ts| ==> ts[t] == Idle
    ensures Submitting(ts, p) == 0
  {
    if ts != [] { NothingSubmitting(ts[1..], p); }
  }

  lemma InOrderKept(s: State, a: Action, s': State)
    requires InOrder(s) && Step(s, a, s')
    ensures InOrder(s')
  {
    hide SubmitStep, WorkerStep;
    if SubmitStep(s, a, s') {
      SubmitInOrder(s, a, s');
    } else if WorkerStep(s, a, s') {
      WorkerInOrder(s, a, s');
    }
  }

  lemma SubmitInOrder(s: State, a: Action, s': State)
    requires InOrder(s) && SubmitStep(s, a, s')
    ensures InOrder(s')
  {
    if a.Offer? && s'.queue != s.queue {
      var job := Job(s.submitters[a.t].plugin, |s.accepted|);
      assert s.taken + (s.queue + [job]) == (s.taken + s.queue) + [job];
    }
  }

  lemma WorkerInOrder(s: State, a: Action, s': State)
    requires InOrder(s) && WorkerStep(s, a, s')
    ensures InOrder(s')
  {
    if a.Look? && Decide(s.queue, s.stop).Run? {
      assert s.taken + s.queue == (s.taken + [s.queue[0]]) + s.queue[1..];
    }
  }

  lemma TakenIsRunKept(s: State, a: Action, s': State, job: Job)
    requires TakenIsRun(s, job) && Step(s, a, s')
    ensures TakenIsRun(s', job)
  {
    hide SubmitStep, WorkerStep;
    if SubmitStep(s, a, s') {
      SubmitTakenIsRun(s, a, s', job);
    } else if WorkerStep(s, a, s') {
      WorkerTakenIsRun(s, a, s', job);
    } else if a == WakeAll {
      WakingRuns(s.workers, job);
    }
  }

  lemma SubmitTakenIsRun(s: State, a: Action, s': State, job: Job)
    requires TakenIsRun(s, job) && SubmitStep(s, a, s')
    ensures TakenIsRun(s', job)
  {
    if a.Signal? { RunningUpdate(s.workers, a.w, Ready, job); }
  }

  lemma WorkerTakenIsRun(s: State, a: Action, s': State, job: Job)
    requires TakenIsRun(s, job) && WorkerStep(s, a, s')
    ensures TakenIsRun(s', job)
  {
    RunningUpdate(s.workers, a.w, s'.workers[a.w], job);
    if a.Look? && s'.workers[a.w].Body? {
      assert multiset(s'.taken) == multiset(s.taken) + multiset{s'.workers[a.w].job};
    } else if a.EndBody? {
      assert multiset(s'.ran) == multiset(s.ran) + multiset{s.workers[a.w].job};
    }
  }

  lemma StoppingKept(s: State, a: Action, s': State)
    requires Stopping(s) && Step(s, a, s')
    ensures Stopping(s')
  {
    hide SubmitStep, WorkerStep;
    if SubmitStep(s, a, s') {
      SubmitStopping(s, a, s');
    } else if WorkerStep(s, a, s') {
      WorkerStopping(s, a, s');
    }
  }

  lemma SubmitStopping(s: State, a: Action, s': State)
    requires Stopping(s) && SubmitStep(s, a, s')
    ensures Stopping(s')
  {
  }

  lemma WorkerStopping(s: State, a: Action, s': State)
    requires Stopping(s) && WorkerStep(s, a, s')
    ensures Stopping(s')
  {
  }

  lemma AwakeAt(ws: seq<Worker>, w: nat)
    requires w < |ws| && Awake(ws[w])
    ensures SomeAwake(ws)
  {
  }

  lemma SignalAt(ts: seq<Submitter>, t: nat)
    requires t < |ts| && ts[t] == Signalling
    ensures SomeSignal(ts)
  {
  }

  /** If nobody sleeps and nobody has left, somebody is awake. */
  lemma PoolWakesKept(s: State, a: Action, s': State)
    requires Stopping(s) && PoolWakes(s) && Step(s, a, s')
    ensures PoolWakes(s')
  {
    if SubmitStep(s, a, s') {
      SubmitWakes(s, a, s');
    } else if s'.queue != [] {
      match a
      case Look(w) => AwakeAt(s'.workers, w);
      case EndBody(w) => AwakeAt(s'.workers, w);
      case Release(w) => AwakeAt(s'.workers, w);
      case Notify(w) => AwakeAt(s'.workers, w);
      case WakeSpuriously(w) => AwakeAt(s'.workers, w);
      case WakeAll => AwakeAt(s'.workers, 0);
      case _ =>
    }
  }

  lemma SubmitWakes(s: State, a: Action, s': State)
    requires Stopping(s) && PoolWakes(s) && SubmitStep(s, a, s')
    ensures PoolWakes(s')
  {
    if s'.queue != [] {
      match a
      case Offer(t) => if s'.submitters[t] == Signalling { SignalAt(s'.submitters, t); } else { KeepAwake(s, s'); }
      case Signal(t, w) => AwakeAt(s'.workers, w);
      case SignalNobody(t) => AwakeAt(s'.workers, 0);
      case _ => KeepAwake(s, s');
    }
  }

  lemma KeepAwake(s: State, s': State)
    requires s.queue != [] && PoolWakes(s) && s'.workers == s.workers && s'.stopper == s.stopper
    requires |s'.submitters| == |s.submitters|
    requires forall t :: 0 <= t < |s.submitters| && s.submitters[t] == Signalling ==> s'.submitters[t] == Signalling
    ensures SomeAwake(s'.workers) || SomeSignal(s'.submitters) || s'.stopper == StopSet
  {
    if SomeSignal(s.submitters) {
      var t :| 0 <= t < |s.submitters| && s.submitters[t] == Signalling;
      SignalAt(s'.submitters, t);
    }
  }

  lemma CountsKept(s: State, a: Action, s': State, p: string)
    requires Counts(s, p) && Step(s, a, s')
    ensures Counts(s', p)
  {
    hide SubmitStep, WorkerStep, StopStep, UnloadStep, Counts;
    if SubmitStep(s, a, s') {
      SubmitCounts(s, a, s', p);
    } else if WorkerStep(s, a, s') {
      WorkerCounts(s, a, s', p);
    } else {
      OtherCounts(s, a, s', p);
    }
  }

  lemma OtherCounts(s: State, a: Action, s': State, p: string)
    requires Counts(s, p) && (StopStep(s, a, s') || UnloadStep(s, a, s'))
    ensures Counts(s', p)
  {
    if a == WakeAll { WakingCounts(s.workers, p); }
  }

  lemma SubmitCounts(s: State, a: Action, s': State, p: string)
    requires Counts(s, p) && SubmitStep(s, a, s')
    ensures Counts(s', p)
  {
    hide Accepts, Queued, Working, Submitting, NotifyGate, GateFree;
    match a
    case Enter(t, q) => SubmittingUpdate(s.submitters, t, s'.submitters[t], p);
    case Increment(t) => SubmittingUpdate(s.submitters, t, s'.submitters[t], p);
    case Offer(t) =>
      SubmittingUpdate(s.submitters, t, s'.submitters[t], p);
      QueuedAppend(s.queue, Job(s.submitters[t].plugin, |s.accepted|), p);
    case Signal(t, w) =>
      SubmittingUpdate(s.submitters, t, Idle, p);
      WorkingUpdate(s.workers, w, Ready, p);
    case SignalNobody(t) => SubmittingUpdate(s.submitters, t, Idle, p);
    case Uncount(t) => SubmittingUpdate(s.submitters, t, s'.submitters[t], p);
    case ClearNotify(t) => SubmittingUpdate(s.submitters, t, Idle, p);
  }

  lemma WorkerCounts(s: State, a: Action, s': State, p: string)
    requires Counts(s, p) && WorkerStep(s, a, s')
    ensures Counts(s', p)
  {
    match a
    case Look(w) => WorkingUpdate(s.workers, w, s'.workers[w], p);
    case EndBody(w) => WorkingUpdate(s.workers, w, s'.workers[w], p);
    case Release(w) => WorkingUpdate(s.workers, w, s'.workers[w], p);
    case Notify(w) => WorkingUpdate(s.workers, w, Ready, p);
    case WakeSpuriously(w) => WorkingUpdate(s.workers, w, Ready, p);
  }

  lemma NotifierAt(s: State, p: string, w: nat)
    requires w < |s.workers| && s.workers[w] == Notifying(p)
    ensures SomeNotifier(s, p)
  {
  }

  lemma ClearerAt(s: State, p: string, t: nat)
    requires t < |s.submitters| && s.submitters[t] == Clearing(p)
    ensures SomeNotifier(s, p)
  {
  }

  /** A step that leaves the notifiers of p at it leaves some. */
  lemma NotifiersStay(s: State, s': State, p: string)
    requires SomeNotifier(s, p) && |s'.workers| == |s.workers| && |s'.submitters| == |s.submitters|
    requires forall w :: 0 <= w < |s.workers| && s.workers[w] == Notifying(p) ==> s'.workers[w] == Notifying(p)
    requires forall t :: 0 <= t < |s.submitters| && s.submitters[t] == Clearing(p) ==> s'.submitters[t] == Clearing(p)
    ensures SomeNotifier(s', p)
  {
    if w :| 0 <= w < |s.workers| && s.workers[w] == Notifying(p) {
      NotifierAt(s', p, w);
    } else {
      var t :| 0 <= t < |s.submitters| && s.submitters[t] == Clearing(p);
      ClearerAt(s', p, t);
    }
  }

  lemma GateWakesKept(s: State, a: Action, s': State, p: string)
    requires GateWakes(s, p) && Counts(s, p) && Step(s, a, s')
    ensures GateWakes(s', p)
  {
    hide SubmitStep, WorkerStep;
    if SubmitStep(s, a, s') {
      SubmitGateWakes(s, a, s', p);
    } else if WorkerStep(s, a, s') {
      WorkerGateWakes(s, a, s', p);
    } else if SomeNotifier(s, p) {
      NotifiersStay(s, s', p);
    }
  }

  lemma SubmitGateWakes(s: State, a: Action, s': State, p: string)
    requires GateWakes(s, p) && Counts(s, p) && SubmitStep(s, a, s')
    ensures GateWakes(s', p)
  {
    if a.Uncount? && s'.submitters[a.t] == Clearing(p) {
      ClearerAt(s', p, a.t);
    } else if SomeNotifier(s, p) && !(a.ClearNotify? && s.submitters[a.t] == Clearing(p)) {
      NotifiersStay(s, s', p);
    }
  }

  lemma WorkerGateWakes(s: State, a: Action, s': State, p: string)
    requires GateWakes(s, p) && WorkerStep(s, a, s')
    ensures GateWakes(s', p)
  {
    if a.Release? && s'.workers[a.w] == Notifying(p) {
      NotifierAt(s', p, a.w);
    } else if SomeNotifier(s, p) && !(a.Notify? && s.workers[a.w] == Notifying(p)) {
      NotifiersStay(s, s', p);
    }
  }

  lemma QuietStaysKept(s: State, a: Action, s': State)
    requires QuietStays(s) && GatesCount(s) && Step(s, a, s')
    ensures QuietStays(s')
  {
    hide SubmitStep, WorkerStep;
    if SubmitStep(s, a, s') {
      SubmitQuiet(s, a, s');
    } else if WorkerStep(s, a, s') {
      WorkerQuiet(s, a, s');
    }
  }

  /** A submitter or worker that uncounts p is itself counted, so the count was positive. */
  lemma SubmitQuiet(s: State, a: Action, s': State)
    requires QuietStays(s) && GatesCount(s) && SubmitStep(s, a, s')
    ensures QuietStays(s')
  {
    if a.Uncount? {
      var p := s.submitters[a.t].plugin;
      assert Counts(s, p);
      SubmittingUpdate(s.submitters, a.t, Idle, p);
    }
  }

  lemma WorkerQuiet(s: State, a: Action, s': State)
    requires QuietStays(s) && GatesCount(s) && WorkerStep(s, a, s')
    ensures QuietStays(s')
  {
    if a.Release? {
      var p := s.workers[a.w].job.plugin;
      assert Counts(s, p);
      WorkingUpdate(s.workers, a.w, Ready, p);
    }
  }

  /** Every step keeps the invariant. */
  lemma StepKeeps(s: State, a: Action, s': State)
    requires Inv(s) && Step(s, a, s')
    ensures Inv(s')
  {
    hide Step, Counts, TakenIsRun, GateWakes;
    InOrderKept(s, a, s');
    forall job ensures TakenIsRun(s', job) { TakenIsRunKept(s, a, s', job); }
    StoppingKept(s, a, s');
    PoolWakesKept(s, a, s');
    forall p ensures Counts(s', p) && GateWakes(s', p) {
      CountsKept(s, a, s', p);
      GateWakesKept(s, a, s', p);
    }
    QuietStaysKept(s, a, s');
  }

  // ----- runs

  /** A run: a state sequence with the actions that lead from each state to the next. */
  ghost predicate IsRun(states: seq<State>, actions: seq<Action>) {
    && |states| == |actions| + 1
    && Initial(states[0])
    && forall i :: 0 <= i < |actions| ==> Step(states[i], actions[i], states[i + 1])
  }

  lemma IsRunLength(states: seq<State>, actions: seq<Action>)
    requires IsRun(states, actions)
    ensures |states| == |actions| + 1
  {
  }

  lemma RunStep(states: seq<State>, actions: seq<Action>, i: nat)
    requires IsRun(states, actions) && i < |actions|
    ensures i + 1 < |states| && Step(states[i], actions[i], states[i + 1])
  {
    hide Step, Initial;
  }

  /** Every state of every run satisfies the invariant. */
  lemma {:induction false} RunInv(states: seq<State>, actions: seq<Action>, i: nat)
    requires IsRun(states, actions) && i < |states|
    ensures Inv(states[i])
  {
    if i == 0 {
      InitialInv(states[0]);
    } else {
      RunInv(states, actions, i - 1);
      StepKeeps(states[i - 1], actions[i - 1], states[i]);
    }
  }

  /** In every run a gate counts exactly the plugin's jobs and undecided submissions. */
  lemma GateCountsItsJobs(states: seq<State>, actions: seq<Action>, i: nat, p: string)
    requires IsRun(states, actions) && i < |states|
    ensures var s := states[i];
            Count(s, p) == Queued(s.queue, p) + Working(s.workers, p) + Submitting(s.submitters, p)
  {
    RunInv(states, actions, i);
    assert Counts(states[i], p);
  }

  /** No wakeup is lost: neither a waiter's at count 0 nor a worker's with jobs queued. */
  lemma NoLostWakeup(states: seq<State>, actions: seq<Action>, i: nat, p: string)
    requires IsRun(states, actions) && i < |states|
    ensures var s := states[i];
            p in s.unloads && s.unloads[p] == Blocked && Count(s, p) == 0 ==>
              || (exists w :: 0 <= w < |s.workers| && s.workers[w] == Notifying(p))
              || (exists t :: 0 <= t < |s.submitters| && s.submitters[t] == Clearing(p))
    ensures var s := states[i];
            s.queue != [] && s.stopper != StopSet ==>
              || (exists w :: 0 <= w < |s.workers| && s.workers[w] != Asleep && s.workers[w] != Exited)
              || (exists t :: 0 <= t < |s.submitters| && s.submitters[t] == Signalling)
  {
    RunInv(states, actions, i);
    assert GateWakes(states[i], p);
  }

  /** No job body of p is queued, running, or yet to release its gate. */
  ghost predicate NoJobOf(s: State, p: string) {
    && (forall i :: 0 <= i < |s.queue| ==> s.queue[i].plugin != p)
    && (forall w :: 0 <= w < |s.workers| ==> !Holds(s.workers[w], p))
  }

  lemma QuiescedHasNoJob(s: State, p: string)
    requires Inv(s) && p in s.unloads && PastWait(s.unloads[p])
    ensures NoJobOf(s, p)
  {
    assert Counts(s, p);
    NoneQueued(s.queue, p);
    NoneWorking(s.workers, p);
  }

  /** How many bodies of p have been run. */
  ghost function RanOf(ran: seq<Job>, p: string): nat {
    if ran == [] then 0 else RanOf(ran[..|ran| - 1], p) + (if ran[|ran| - 1].plugin == p then 1 else 0)
  }

  lemma PastWaitStays(s: State, a: Action, s': State, p: string)
    requires Step(s, a, s') && p in s.unloads && PastWait(s.unloads[p])
    ensures p in s'.unloads && PastWait(s'.unloads[p])
  {
    hide SubmitStep, WorkerStep, StopStep, UnloadStep;
    if SubmitStep(s, a, s') {
      SubmitsPastWait(s, a, s', p);
    } else if WorkerStep(s, a, s') {
      WorksPastWait(s, a, s', p);
    } else {
      UnloadsPastWait(s, a, s', p);
    }
  }

  lemma SubmitsPastWait(s: State, a: Action, s': State, p: string)
    requires SubmitStep(s, a, s') && p in s.unloads && PastWait(s.unloads[p])
    ensures p in s'.unloads && PastWait(s'.unloads[p])
  {
    hide Accepts, Decide, GateFree, Count, WakeEverybody;
  }

  lemma WorksPastWait(s: State, a: Action, s': State, p: string)
    requires WorkerStep(s, a, s') && p in s.unloads && PastWait(s.unloads[p])
    ensures p in s'.unloads && PastWait(s'.unloads[p])
  {
    hide Accepts, Decide, GateFree, Count, WakeEverybody;
  }

  lemma UnloadsPastWait(s: State, a: Action, s': State, p: string)
    requires (StopStep(s, a, s') || UnloadStep(s, a, s')) && p in s.unloads && PastWait(s.unloads[p])
    ensures p in s'.unloads && PastWait(s'.unloads[p])
  {
    hide Accepts, Decide, GateFree, Count, WakeEverybody;
  }

  lemma NoJobRunsNoBody(s: State, a: Action, s': State, p: string)
    requires Step(s, a, s') && NoJobOf(s, p)
    ensures RanOf(s'.ran, p) == RanOf(s.ran, p)
  {
    RanStep(s, a, s');
    hide *;
    if a.EndBody? { RanOther(s.ran, s.workers[a.w].job, p); }
  }

  lemma RanStep(s: State, a: Action, s': State)
    requires Step(s, a, s')
    ensures if a.EndBody? then a.w < |s.workers| && s.workers[a.w].Body? && s'.ran == s.ran + [s.workers[a.w].job]
            else s'.ran == s.ran
    ensures a.EndBody? ==> forall p :: NoJobOf(s, p) ==> s.workers[a.w].job.plugin != p
  {
    hide Accepts, Decide, NotifyGate, WakeEverybody, GateFree, Count;
  }

  lemma RanOther(ran: seq<Job>, job: Job, p: string)
    requires job.plugin != p
    ensures RanOf(ran + [job], p) == RanOf(ran, p)
  {
    assert (ran + [job])[..|ran|] == ran;
  }

  /**
   From the moment WaitQuiesce lets an unload through, and so at and after the plugin's destruction and
   the closing of its library, none of its jobs is queued or running, and none of their bodies is run.
   */
  lemma {:induction false} NoJobAfterUnload(states: seq<State>, actions: seq<Action>, i: nat, j: nat, p: string)
    requires IsRun(states, actions) && i <= j < |states|
    requires p in states[i].unloads && PastWait(states[i].unloads[p])
    ensures p in states[j].unloads && PastWait(states[j].unloads[p])
    ensures NoJobOf(states[j], p)
    ensures RanOf(states[j].ran, p) == RanOf(states[i].ran, p)
    decreases j
  {
    hide *;
    IsRunLength(states, actions);
    if i < j {
      RunStep(states, actions, j - 1);
      NoJobAfterUnload(states, actions, i, j - 1, p);
      PastWaitStays(states[j - 1], actions[j - 1], states[j], p);
      NoJobRunsNoBody(states[j - 1], actions[j - 1], states[j], p);
    }
    RunInv(states, actions, j);
    QuiescedHasNoJob(states[j], p);
  }

  /** In every run a job is refused by a stopped pool or one that is full to the last place, and by no other. */
  lemma RefusedOnlyWhenFull(states: seq<State>, actions: seq<Action>, i: nat, t: nat)
    requires IsRun(states, actions) && i < |actions| && actions[i] == Offer(t)
    ensures |states| == |actions| + 1 && t < |states[i].submitters| && t < |states[i + 1].submitters|
    ensures states[i + 1].submitters[t].Rejected? <==> states[i].stop || |states[i].queue| == states[i].maxQueue
    ensures !states[i + 1].submitters[t].Rejected? ==>
              |states[i + 1].queue| == |states[i].queue| + 1 && |states[i + 1].accepted| == |states[i].accepted| + 1
  {
    RunStep(states, actions, i);
    RunInv(states, actions, i);
    IsRunLength(states, actions);
    hide IsRun, Conserved, Stopping, PoolWakes, GatesCount, GatesWake, QuietStays, Decide;
  }

  /** Once the pool was told to stop nothing more is accepted. */
  lemma {:induction false} NothingAcceptedAfterStop(states: seq<State>, actions: seq<Action>, i: nat, j: nat)
    requires IsRun(states, actions) && i <= j < |states| && states[i].stop
    ensures states[j].stop && states[j].accepted == states[i].accepted
    decreases j
  {
    hide *;
    IsRunLength(states, actions);
    if i < j {
      NothingAcceptedAfterStop(states, actions, i, j - 1);
      RunStep(states, actions, j - 1);
      StopStays(states[j - 1], actions[j - 1], states[j]);
    }
  }

  lemma StopStays(s: State, a: Action, s': State)
    requires Step(s, a, s') && s.stop
    ensures s'.stop && s'.accepted == s.accepted
  {
    hide Decide, NotifyGate, GateFree, Count, WakeEverybody;
  }

  /** When all workers have been joined, every accepted job has been run, exactly once. */
  lemma JoinedHasRunEverything(states: seq<State>, actions: seq<Action>, i: nat)
    requires IsRun(states, actions) && i < |states| && states[i].stopper == Joined
    ensures multiset(states[i].ran) == multiset(states[i].accepted)
    ensures forall k: nat :: k < |states[i].accepted| ==> multiset(states[i].ran)[states[i].accepted[k]] == 1
  {
    var s := states[i];
    RunInv(states, actions, i);
    assert s.workers[0] == Exited;
    assert s.taken == s.accepted;
    forall job ensures multiset(s.ran)[job] == multiset(s.accepted)[job] {
      assert TakenIsRun(s, job);
      NothingRunning(s.workers, job);
    }
    forall k: nat | k < |s.accepted| ensures multiset(s.accepted)[s.accepted[k]] == 1 {
      OnceEach(s.accepted, k);
    }
  }

  lemma {:induction false} OnceEach(jobs: seq<Job>, k: nat)
    requires k < |jobs| && forall i :: 0 <= i < |jobs| ==> jobs[i].serial == i
    ensures multiset(jobs)[jobs[k]] == 1
    decreases |jobs|
  {
    var n := |jobs| - 1;
    assert jobs == jobs[..n] + [jobs[n]];
    if k < n {
      OnceEach(jobs[..n], k);
    } else {
      assert jobs[n] !in jobs[..n];
    }
  }

  /** Jobs start in the order they were accepted, and at no time is one run twice. */
  lemma StartedInOrder(states: seq<State>, actions: seq<Action>, i: nat)
    requires IsRun(states, actions) && i < |states|
    ensures states[i].taken <= states[i].accepted
    ensures forall k: nat :: k < |states[i].accepted| ==> multiset(states[i].ran)[states[i].accepted[k]] <= 1
  {
    var s := states[i];
    RunInv(states, actions, i);
    forall k: nat | k < |s.accepted| ensures multiset(s.ran)[s.accepted[k]] <= 1 {
      assert TakenIsRun(s, s.accepted[k]);
      OnceEach(s.accepted, k);
      assert multiset(s.accepted) == multiset(s.taken) + multiset(s.queue);
    }
  }

  /** A stopping pool is never stuck: a worker that has not left can take its next step, or the gate it needs is about to be let go. */
  ghost predicate CanMove(s: State, w: nat)
    requires w < |s.workers|
  {
    match s.workers[w]
    case Ready => exists s' :: WorkerStep(s, Look(w), s')
    case Body(_) => exists s' :: WorkerStep(s, EndBody(w), s')
    case Finished(_) => exists s' :: WorkerStep(s, Release(w), s')
    case Notifying(p) =>
      || (exists s' :: WorkerStep(s, Notify(w), s'))
      || (exists s' :: UnloadStep(s, CheckCount(p), s'))
      || (exists s' :: UnloadStep(s, Block(p), s'))
    case _ => false
  }

  lemma ShutdownNeverStuck(states: seq<State>, actions: seq<Action>, i: nat, w: nat)
    requires IsRun(states, actions) && i < |states| && states[i].stopper == Joining
    requires w < |states[i].workers| && states[i].workers[w] != Exited
    ensures CanMove(states[i], w)
  {
    var s := states[i];
    RunInv(states, actions, i);
    match s.workers[w]
    case Ready =>
      var d := Decide(s.queue, s.stop);
      if d.Run? {
        assert WorkerStep(s, Look(w), s.(workers := s.workers[w := Body(d.job)], queue := s.queue[1..], taken := s.taken + [d.job]));
      } else {
        assert WorkerStep(s, Look(w), s.(workers := s.workers[w := Exited]));
      }
    case Body(job) => assert WorkerStep(s, EndBody(w), s.(workers := s.workers[w := Finished(job)], ran := s.ran + [job]));
    case Finished(job) =>
      var p := job.plugin;
      assert WorkerStep(s, Release(w), s.(workers := s.workers[w := if Count(s, p) == 1 then Notifying(p) else Ready],
                                          count := s.count[p := Count(s, p) - 1]));
    case Notifying(p) =>
      if GateFree(s, p) {
        assert WorkerStep(s, Notify(w), s.(workers := s.workers[w := Ready], unloads := NotifyGate(s, p)));
      } else if s.unloads[p] == Blocking {
        assert UnloadStep(s, Block(p), s.(unloads := s.unloads[p := Blocked]));
      } else {
        var u := if Count(s, p) == 0 then Quiesced else Blocking;
        assert UnloadStep(s, CheckCount(p), s.(unloads := s.unloads[p := u]));
      }
    case Asleep =>
  }

  /** How many steps a worker has before it leaves, the jobs it will take counted with the queue. */
  function StepsLeft(w: Worker): nat {
    match w
    case Exited => 0
    case Ready => 1
    case Asleep => 2
    case Notifying(_) => 2
    case Finished(_) => 3
    case Body(_) => 4
  }

  ghost function AllSteps(ws: seq<Worker>): nat {
    if ws == [] then 0 else StepsLeft(ws[0]) + AllSteps(ws[1..])
  }

  /** How many worker steps are left at most: four for each queued job, and those of the workers. */
  ghost function WorkLeft(s: State): nat { 4 * |s.queue| + AllSteps(s.workers) }

  lemma {:induction false} AllStepsUpdate(ws: seq<Worker>, i: nat, w: Worker)
    requires i < |ws|
    ensures AllSteps(ws[i := w]) == AllSteps(ws) - StepsLeft(ws[i]) + StepsLeft(w)
  {
    if i > 0 {
      assert ws[i := w][1..] == ws[1..][i - 1 := w];
      AllStepsUpdate(ws[1..], i - 1, w);
    } else {
      assert ws[i := w][1..] == ws[1..];
    }
  }

  /** While Shutdown joins, every step of a worker leaves less to do, and no other step leaves more. */
  lemma JoiningProgresses(s: State, a: Action, s': State)
    requires Inv(s) && Step(s, a, s') && s.stopper == Joining
    ensures WorkerStep(s, a, s') ==> WorkLeft(s') < WorkLeft(s)
    ensures WorkLeft(s') <= WorkLeft(s)
    ensures s'.stopper == Joining || s'.stopper == Joined
  {
    if WorkerStep(s, a, s') {
      WorkerProgresses(s, a, s');
    } else {
      QueueIsClosed(s, a, s');
    }
    hide Step, WorkerStep, Inv;
  }

  lemma WorkerProgresses(s: State, a: Action, s': State)
    requires Stopping(s) && PoolWakes(s) && WorkerStep(s, a, s') && s.stopper == Joining
    ensures WorkLeft(s') < WorkLeft(s) && s'.stopper == Joining
  {
    hide AllSteps, Accepts, NotifyGate, GateFree;
    AllStepsUpdate(s.workers, a.w, s'.workers[a.w]);
  }

  lemma QueueIsClosed(s: State, a: Action, s': State)
    requires Stopping(s) && PoolWakes(s) && s.stopper == Joining
    requires SubmitStep(s, a, s') || StopStep(s, a, s') || UnloadStep(s, a, s')
    ensures s'.queue == s.queue && s'.workers == s.workers && (s'.stopper == Joining || s'.stopper == Joined)
  {
    hide Decide, NotifyGate, GateFree, Count;
  }

  /** The steps of workers among the first n of a run from its k-th state. */
  ghost function WorkerSteps(states: seq<State>, actions: seq<Action>, k: nat, n: nat): nat
    requires k <= n <= |actions| && |states| == |actions| + 1
  {
    if n == k then 0
    else WorkerSteps(states, actions, k, n - 1) + if WorkerStep(states[n - 1], actions[n - 1], states[n]) then 1 else 0
  }

  /** So a shutdown ends: once it joins, the workers take no more steps than the work left then. */
  lemma {:induction false} ShutdownEnds(states: seq<State>, actions: seq<Action>, k: nat, n: nat)
    requires IsRun(states, actions) && k <= n <= |actions| && states[k].stopper == Joining
    ensures |states| == |actions| + 1
    ensures WorkerSteps(states, actions, k, n) + WorkLeft(states[n]) <= WorkLeft(states[k])
    ensures states[n].stopper == Joining || states[n].stopper == Joined
    decreases n
  {
    hide *;
    IsRunLength(states, actions);
    WorkerStepsUnfolds(states, actions, k, n);
    if k < n {
      ShutdownEnds(states, actions, k, n - 1);
      RunStep(states, actions, n - 1);
      RunInv(states, actions, n - 1);
      if states[n - 1].stopper == Joining {
        JoiningProgresses(states[n - 1], actions[n - 1], states[n]);
      } else {
        JoinedRests(states[n - 1], actions[n - 1], states[n]);
      }
    }
  }

  lemma WorkerStepsUnfolds(states: seq<State>, actions: seq<Action>, k: nat, n: nat)
    requires k <= n <= |actions| && |states| == |actions| + 1
    ensures k == n ==> WorkerSteps(states, actions, k, n) == 0
    ensures k < n ==>
      WorkerSteps(states, actions, k, n)
      == WorkerSteps(states, actions, k, n - 1)
         + if WorkerStep(states[n - 1], actions[n - 1], states[n]) then 1 else 0
  {
    hide WorkerStep;
  }

  /** After the join no worker moves. */
  lemma JoinedRests(s: State, a: Action, s': State)
    requires Inv(s) && Step(s, a, s') && s.stopper == Joined
    ensures !WorkerStep(s, a, s') && WorkLeft(s') == WorkLeft(s) && s'.stopper == Joined
  {
    hide Decide, NotifyGate, GateFree, Count, WakeEverybody;
  }
}
