/**
 Processes sharing the table of hardware ids (hal/ax/hw_id_allocator.cpp). Every access to a slot is a
 step of its own, processes may crash between any two steps, and pids are not used again.
 */
module HwIdSharing {
  import opened HwIds
  import opened Options

  /** The pids seen so far, and those alive, when the mutex was taken. */
  datatype Snapshot = Snapshot(seen: set<nat>, alive: set<nat>)

  /** Where a thread is in Acquire or Release; from Scanning and Clearing on it has the mutex. */
  datatype Place =
    | Idle
    | WantAcquire(kind: Kind)
    | WantRelease(serial: nat)
    | Scanning(kind: Kind, i: nat, at: Snapshot)
    | Taking(kind: Kind, i: nat, at: Snapshot)
    | Took(kind: Kind, i: nat, at: Snapshot)
    | Exhausted(kind: Kind, i: nat, at: Snapshot)
    | Clearing(serial: nat)
    | Cleared

  datatype Thread = Thread(pid: nat, place: Place)

  /** An id handed to a process and not given back. */
  datatype Claim = Claim(pid: nat, kind: Kind, id: nat)

  datatype State = State(
    seen: set<nat>,
    alive: set<nat>,
    slots: map<Kind, seq<nat>>,
    mutex: Option<nat>,
    threads: seq<Thread>,
    claims: map<nat, Claim>,
    serial: nat)

  datatype Action =
    | Spawn(pid: nat)
    | Crash(pid: nat)
    | CallAcquire(t: nat, kind: Kind)
    | CallRelease(t: nat, serial: nat)
    | Lock(t: nat)
    | FailToLock(t: nat)
    | Probe(t: nat)
    | Take(t: nat)
    | Clear(t: nat)
    | Unlock(t: nat)

  ghost predicate Initial(s: State) {
    && s.seen == s.alive == {} && s.mutex == None && s.claims == map[]
    && (forall kind: Kind :: kind in s.slots && s.slots[kind] == seq(SlotCount(kind), _ => 0))
    && forall t | 0 <= t < |s.threads| :: s.threads[t].place == Idle && s.threads[t].pid != 0
  }

  predicate Live(s: State, t: nat) { t < |s.threads| && s.threads[t].pid in s.alive }

  function At(s: State, t: nat): Place
    requires t < |s.threads|
  {
    s.threads[t].place
  }

  function Moved(s: State, t: nat, place: Place): seq<Thread>
    requires t < |s.threads|
  {
    s.threads[t := s.threads[t].(place := place)]
  }

  predicate Releasing(place: Place, serial: nat) { place == WantRelease(serial) || place == Clearing(serial) }

  /** Processes come and go; a pid is not used twice. */
  predicate ProcessStep(s: State, a: Action, s': State) {
    match a
    case Spawn(pid) => pid != 0 && pid !in s.seen && s' == s.(seen := s.seen + {pid}, alive := s.alive + {pid})
    case Crash(pid) => pid in s.alive && s' == s.(alive := s.alive - {pid})
    case _ => false
  }

  /** Calls, and the mutex: free, or left behind by a dead owner. A claim is released once, by its own process. */
  predicate CallStep(s: State, a: Action, s': State) {
    match a
    case CallAcquire(t, kind) =>
      Live(s, t) && At(s, t) == Idle && s' == s.(threads := Moved(s, t, WantAcquire(kind)))
    case CallRelease(t, serial) =>
      && Live(s, t) && At(s, t) == Idle && serial in s.claims && s.claims[serial].pid == s.threads[t].pid
      && (forall u | 0 <= u < |s.threads| :: !Releasing(At(s, u), serial))
      && s' == s.(threads := Moved(s, t, WantRelease(serial)))
    case Lock(t) =>
      && Live(s, t) && (At(s, t).WantAcquire? || At(s, t).WantRelease?)
      && (s.mutex == None || !Live(s, s.mutex.value))
      && s' == s.(mutex := Some(t),
                  threads := Moved(s, t, if At(s, t).WantRelease? then Clearing(At(s, t).serial)
                                         else Scanning(At(s, t).kind, 0, Snapshot(s.seen, s.alive))))
    case FailToLock(t) =>
      && Live(s, t) && (At(s, t).WantAcquire? || At(s, t).WantRelease?)
      && s' == s.(threads := Moved(s, t, Idle))
    case Unlock(t) =>
      && Live(s, t) && (At(s, t).Took? || At(s, t).Exhausted? || At(s, t) == Cleared)
      && s' == s.(mutex := None, threads := Moved(s, t, Idle))
    case _ => false
  }

  function Owner(s: State, kind: Kind, i: nat): nat {
    if kind in s.slots && i < |s.slots[kind]| then s.slots[kind][i] else 0
  }

  function WithOwner(s: State, kind: Kind, i: nat, pid: nat): map<Kind, seq<nat>> {
    if kind in s.slots && i < |s.slots[kind]| then
      var row: seq<nat> := s.slots[kind][i := pid];
      s.slots[kind := row]
    else s.slots
  }

  /** Under the mutex: look at a slot, take it, clear it. */
  predicate SlotStep(s: State, a: Action, s': State) {
    match a
    case Probe(t) =>
      && Live(s, t) && At(s, t).Scanning?
      && var Scanning(kind, i, at) := At(s, t);
         s' == s.(threads := Moved(s, t,
                    if i == SlotCount(kind) then Exhausted(kind, i, at)
                    else if Owner(s, kind, i) in s.alive then Scanning(kind, i + 1, at)
                    else Taking(kind, i, at)))
    case Take(t) =>
      && Live(s, t) && At(s, t).Taking?
      && var Taking(kind, i, at) := At(s, t);
         var pid := s.threads[t].pid;
         s' == s.(threads := Moved(s, t, Took(kind, i, at)), slots := WithOwner(s, kind, i, pid),
                  claims := s.claims[s.serial := Claim(pid, kind, i)], serial := s.serial + 1)
    case Clear(t) =>
      && Live(s, t) && At(s, t).Clearing? && At(s, t).serial in s.claims
      && var claim := s.claims[At(s, t).serial];
         s' == s.(threads := Moved(s, t, Cleared), claims := s.claims - {At(s, t).serial},
                  slots := if Owner(s, claim.kind, claim.id) == s.threads[t].pid
                           then WithOwner(s, claim.kind, claim.id, 0) else s.slots)
    case _ => false
  }

  predicate Step(s: State, a: Action, s': State) {
    ProcessStep(s, a, s') || CallStep(s, a, s') || SlotStep(s, a, s')
  }

  // ----- the invariant

  predicate Inside(p: Place) { p.Scanning? || p.Taking? || p.Took? || p.Exhausted? || p.Clearing? || p == Cleared }

  ghost predicate Shapes(s: State) {
    && 0 !in s.seen && s.alive <= s.seen
    && (forall kind: Kind :: kind in s.slots && |s.slots[kind]| == SlotCount(kind))
    && (forall t: nat | t < |s.threads| && At(s, t) != Idle :: s.threads[t].pid in s.seen)
    && (forall kind: Kind, i: nat :: Owner(s, kind, i) == 0 || Owner(s, kind, i) in s.seen)
    && (forall k | k in s.claims :: k < s.serial && s.claims[k].pid in s.seen && s.claims[k].id < SlotCount(s.claims[k].kind))
  }

  /** A live thread among the slots has the mutex, and whoever has the mutex is, or died, among them. */
  ghost predicate Excluded(s: State) {
    && (forall t: nat | Live(s, t) && Inside(At(s, t)) :: s.mutex == Some(t))
    && (s.mutex.Some? ==> s.mutex.value < |s.threads| && Inside(At(s, s.mutex.value)))
  }

  /** The slot of a live claim has its owner, and no other live claim is for that slot. */
  ghost predicate Owned(s: State) {
    forall k | k in s.claims && s.claims[k].pid in s.alive :: Owner(s, s.claims[k].kind, s.claims[k].id) == s.claims[k].pid
  }

  ghost predicate Distinct(s: State) {
    forall k, l | k in s.claims && l in s.claims && k != l && s.claims[k].pid in s.alive && s.claims[l].pid in s.alive ::
      s.claims[k].kind != s.claims[l].kind || s.claims[k].id != s.claims[l].id
  }

  ghost predicate ReleaseOnce(s: State) {
    && (forall t: nat, serial | Live(s, t) && Releasing(At(s, t), serial) ::
          serial in s.claims && s.claims[serial].pid == s.threads[t].pid)
    && (forall t: nat, u: nat, serial |
          Live(s, t) && u < |s.threads| && Releasing(At(s, t), serial) && Releasing(At(s, u), serial) :: u == t)
  }

  predicate Scans(p: Place) { p.Scanning? || p.Taking? || p.Took? || p.Exhausted? }

  /** Every slot passed over had an owner who was alive when the mutex was taken. */
  ghost predicate PassedAlive(s: State, p: Place)
    requires Scans(p)
  {
    && p.i <= SlotCount(p.kind) && (p.Exhausted? ==> p.i == SlotCount(p.kind))
    && (p.Taking? || p.Took? ==> p.i < SlotCount(p.kind))
    && (forall j: nat | j < p.i :: Owner(s, p.kind, j) in p.at.alive)
  }

  /** Nothing but this thread has written since, and nobody has come back to life. */
  ghost predicate Undisturbed(s: State, t: nat, p: Place)
    requires Scans(p) && t < |s.threads|
  {
    && s.threads[t].pid in p.at.seen && s.alive * p.at.seen <= p.at.alive && p.at.seen <= s.seen
    && (forall kind: Kind, i: nat :: Owner(s, kind, i) == 0 || Owner(s, kind, i) in p.at.seen)
    && (p.Taking? ==> Owner(s, p.kind, p.i) !in s.alive)
  }

  ghost predicate ScansInOrder(s: State) {
    forall t: nat | Live(s, t) && Scans(At(s, t)) :: PassedAlive(s, At(s, t)) && Undisturbed(s, t, At(s, t))
  }

  ghost predicate Inv(s: State) {
    Shapes(s) && Excluded(s) && Owned(s) && Distinct(s) && ReleaseOnce(s) && ScansInOrder(s)
  }

  lemma InitialInv(s: State)
    requires Initial(s)
    ensures Inv(s)
  {
  }

  /** Who owns which slot after one was written. */
  lemma OwnerAfter(s: State, s': State, kind: Kind, i: nat, pid: nat)
    requires Shapes(s) && i < SlotCount(kind) && s'.slots == WithOwner(s, kind, i, pid)
    ensures forall k: Kind, j: nat :: Owner(s', k, j) == if k == kind && j == i then pid else Owner(s, k, j)
  {
  }

  lemma SameOwners(s: State, s': State)
    requires s'.slots == s.slots
    ensures forall k: Kind, j: nat :: Owner(s', k, j) == Owner(s, k, j)
  {
  }

  /** The slots after any step. */
  lemma Owners(s: State, a: Action, s': State)
    requires Shapes(s) && Step(s, a, s') && (a.Take? ==> At(s, a.t).i < SlotCount(At(s, a.t).kind))
    ensures forall k: Kind, j: nat ::
              Owner(s', k, j) == match a
                                 case Take(t) => if k == At(s, t).kind && j == At(s, t).i then s.threads[t].pid else Owner(s, k, j)
                                 case Clear(t) =>
                                   var claim := s.claims[At(s, t).serial];
                                   if k == claim.kind && j == claim.id && Owner(s, k, j) == s.threads[t].pid then 0
                                   else Owner(s, k, j)
                                 case _ => Owner(s, k, j)
    ensures forall k: Kind :: k in s'.slots && |s'.slots[k]| == SlotCount(k)
  {
    match a {
      case Take(t) => OwnerAfter(s, s', At(s, t).kind, At(s, t).i, s.threads[t].pid);
      case Clear(t) =>
        var claim := s.claims[At(s, t).serial];
        if Owner(s, claim.kind, claim.id) == s.threads[t].pid {
          OwnerAfter(s, s', claim.kind, claim.id, 0);
        } else {
          SameOwners(s, s');
        }
      case _ => SameOwners(s, s');
    }
  }

  lemma ShapesKept(s: State, a: Action, s': State)
    requires Inv(s) && Step(s, a, s')
    ensures Shapes(s')
  {
    if ProcessStep(s, a, s') {
      ProcessShapesKept(s, a, s');
    } else if CallStep(s, a, s') {
      CallShapesKept(s, a, s');
    } else {
      SlotShapesKept(s, a, s');
    }
    hide *;
  }

  lemma ProcessShapesKept(s: State, a: Action, s': State)
    requires Inv(s) && ProcessStep(s, a, s')
    ensures Shapes(s')
  {
    Owners(s, a, s');
    hide Owner, WithOwner, SlotCount;
  }

  lemma CallShapesKept(s: State, a: Action, s': State)
    requires Inv(s) && CallStep(s, a, s')
    ensures Shapes(s')
  {
    Owners(s, a, s');
    hide Owner, WithOwner, SlotCount;
  }

  lemma SlotShapesKept(s: State, a: Action, s': State)
    requires Inv(s) && SlotStep(s, a, s')
    ensures Shapes(s')
  {
    Owners(s, a, s');
    hide Owner, WithOwner, SlotCount;
  }

  lemma ExcludedKept(s: State, a: Action, s': State)
    requires Shapes(s) && Excluded(s) && Step(s, a, s')
    ensures Excluded(s')
  {
    if ProcessStep(s, a, s') {
      ProcessExcludedKept(s, a, s');
    } else if CallStep(s, a, s') {
      CallExcludedKept(s, a, s');
    } else {
      SlotExcludedKept(s, a, s');
    }
    hide *;
  }

  lemma ProcessExcludedKept(s: State, a: Action, s': State)
    requires Shapes(s) && Excluded(s) && ProcessStep(s, a, s')
    ensures Excluded(s')
  {
    hide Owner, WithOwner, SlotCount;
  }

  lemma CallExcludedKept(s: State, a: Action, s': State)
    requires Shapes(s) && Excluded(s) && CallStep(s, a, s')
    ensures Excluded(s')
  {
    hide Owner, WithOwner, SlotCount;
  }

  lemma SlotExcludedKept(s: State, a: Action, s': State)
    requires Shapes(s) && Excluded(s) && SlotStep(s, a, s')
    ensures Excluded(s')
  {
    hide Owner, WithOwner, SlotCount;
  }

  lemma OwnedKept(s: State, a: Action, s': State)
    requires Inv(s) && Step(s, a, s')
    ensures Owned(s')
  {
    Owners(s, a, s');
  }

  lemma DistinctKept(s: State, a: Action, s': State)
    requires Inv(s) && Step(s, a, s')
    ensures Distinct(s')
  {
  }

  lemma ReleaseOnceKept(s: State, a: Action, s': State)
    requires Shapes(s) && ReleaseOnce(s) && Step(s, a, s')
    ensures ReleaseOnce(s')
  {
    hide Owner, WithOwner, SlotCount;
    forall t: nat, serial | Live(s', t) && Releasing(At(s', t), serial)
      ensures serial in s'.claims && s'.claims[serial].pid == s'.threads[t].pid
    {
      ReleasedBefore(s, a, s', t, serial);
      if Releasing(At(s, t), serial) { ClaimStays(s, a, s', t, serial); }
    }
    forall t: nat, u: nat, serial |
        Live(s', t) && u < |s'.threads| && Releasing(At(s', t), serial) && Releasing(At(s', u), serial)
      ensures u == t
    {
      ReleasedBefore(s, a, s', t, serial);
      ReleasedBefore(s, a, s', u, serial);
    }
  }

  lemma ClaimStays(s: State, a: Action, s': State, t: nat, serial: nat)
    requires Shapes(s) && ReleaseOnce(s) && Step(s, a, s')
    requires Live(s, t) && Releasing(At(s, t), serial) && t < |s'.threads| && Releasing(At(s', t), serial)
    ensures serial in s'.claims && s'.claims[serial] == s.claims[serial]
    ensures s'.threads[t].pid == s.threads[t].pid == s.claims[serial].pid
  {
    hide Owner, WithOwner, SlotCount;
    assert a.Clear? ==> At(s', a.t) == Cleared && Releasing(At(s, a.t), At(s, a.t).serial);
  }

  lemma ReleasedBefore(s: State, a: Action, s': State, t: nat, serial: nat)
    requires Shapes(s) && Step(s, a, s') && t < |s'.threads| && Releasing(At(s', t), serial)
    ensures |s.threads| == |s'.threads| && (a == CallRelease(t, serial) || Releasing(At(s, t), serial))
    ensures Live(s', t) ==> Live(s, t)
  {
    hide Owner, WithOwner, SlotCount;
  }

  /** While a live thread scans, no other thread writes a slot. */
  lemma OnlyWriter(s: State, a: Action, s': State, t: nat)
    requires Inv(s) && Step(s, a, s') && Live(s', t) && Scans(At(s', t))
    ensures Live(s, t) && s.threads[t].pid == s'.threads[t].pid && s.seen <= s'.seen && s'.alive * s.seen <= s.alive
    ensures a == Lock(t) || a == Take(t) || Scans(At(s, t))
    ensures a != Take(t) ==> forall k: Kind, j: nat :: Owner(s', k, j) == Owner(s, k, j)
    ensures a == Take(t) ==> At(s, t).Taking? && At(s', t) == Took(At(s, t).kind, At(s, t).i, At(s, t).at)
    ensures a == Take(t) ==> forall k: Kind, j: nat :: Owner(s', k, j) == if k == At(s, t).kind && j == At(s, t).i then s.threads[t].pid else Owner(s, k, j)
  {
    if ProcessStep(s, a, s') {
      ProcessOnlyWriter(s, a, s', t);
    } else if CallStep(s, a, s') {
      CallOnlyWriter(s, a, s', t);
    } else {
      SlotOnlyWriter(s, a, s', t);
    }
    hide *;
  }

  lemma ProcessOnlyWriter(s: State, a: Action, s': State, t: nat)
    requires Inv(s) && ProcessStep(s, a, s') && Live(s', t) && Scans(At(s', t))
    ensures Live(s, t) && s.threads[t].pid == s'.threads[t].pid && s.seen <= s'.seen && s'.alive * s.seen <= s.alive
    ensures a == Lock(t) || a == Take(t) || Scans(At(s, t))
    ensures a != Take(t) && forall k: Kind, j: nat :: Owner(s', k, j) == Owner(s, k, j)
  {
    Owners(s, a, s');
    hide Owner, WithOwner, SlotCount, Owned, Distinct, ReleaseOnce;
  }

  lemma CallOnlyWriter(s: State, a: Action, s': State, t: nat)
    requires Inv(s) && CallStep(s, a, s') && Live(s', t) && Scans(At(s', t))
    ensures Live(s, t) && s.threads[t].pid == s'.threads[t].pid && s.seen <= s'.seen && s'.alive * s.seen <= s.alive
    ensures a == Lock(t) || a == Take(t) || Scans(At(s, t))
    ensures a != Take(t) && forall k: Kind, j: nat :: Owner(s', k, j) == Owner(s, k, j)
  {
    Owners(s, a, s');
    hide Owner, WithOwner, SlotCount, Owned, Distinct, ReleaseOnce;
  }

  lemma SlotOnlyWriter(s: State, a: Action, s': State, t: nat)
    requires Inv(s) && SlotStep(s, a, s') && Live(s', t) && Scans(At(s', t))
    ensures Live(s, t) && s.threads[t].pid == s'.threads[t].pid && s.seen <= s'.seen && s'.alive * s.seen <= s.alive
    ensures a == Lock(t) || a == Take(t) || Scans(At(s, t))
    ensures a != Take(t) ==> forall k: Kind, j: nat :: Owner(s', k, j) == Owner(s, k, j)
    ensures a == Take(t) ==> At(s, t).Taking? && At(s', t) == Took(At(s, t).kind, At(s, t).i, At(s, t).at)
    ensures a == Take(t) ==> forall k: Kind, j: nat :: Owner(s', k, j) == if k == At(s, t).kind && j == At(s, t).i then s.threads[t].pid else Owner(s, k, j)
  {
    Owners(s, a, s');
    hide Owner, WithOwner, SlotCount, Owned, Distinct, ReleaseOnce;
  }

  /** How the place of a scanning thread moves. */
  lemma ScanMoves(s: State, a: Action, s': State, t: nat)
    requires Step(s, a, s') && t < |s'.threads| && Scans(At(s', t)) && (a == Lock(t) || Scans(At(s, t)))
    ensures var p, p' := At(s, t), At(s', t);
            if a == Lock(t) then p'.Scanning? && p'.i == 0 && p'.at == Snapshot(s.seen, s.alive)
            else if a == Probe(t) then
              p.Scanning? && p' == if p.i == SlotCount(p.kind) then Exhausted(p.kind, p.i, p.at)
                                   else if Owner(s, p.kind, p.i) in s.alive then Scanning(p.kind, p.i + 1, p.at)
                                   else Taking(p.kind, p.i, p.at)
            else if a == Take(t) then p.Taking? && p' == Took(p.kind, p.i, p.at)
            else p' == p
  {
    hide Owner, WithOwner, SlotCount;
  }

  lemma PassedAliveKept(s: State, a: Action, s': State, t: nat)
    requires Inv(s) && Step(s, a, s') && Live(s', t) && Scans(At(s', t))
    ensures PassedAlive(s', At(s', t))
  {
    OnlyWriter(s, a, s', t);
    ScanMoves(s, a, s', t);
    assert Scans(At(s, t)) ==> PassedAlive(s, At(s, t)) && Undisturbed(s, t, At(s, t));
    hide Step, Inv, WithOwner, SlotCount, Owner, Shapes;
  }

  lemma UndisturbedKept(s: State, a: Action, s': State, t: nat)
    requires Inv(s) && Step(s, a, s') && Live(s', t) && Scans(At(s', t))
    ensures Undisturbed(s', t, At(s', t))
  {
    OnlyWriter(s, a, s', t);
    ScanMoves(s, a, s', t);
    assert Scans(At(s, t)) ==> Undisturbed(s, t, At(s, t));
    assert forall kind: Kind, i: nat :: Owner(s, kind, i) == 0 || Owner(s, kind, i) in s.seen;
    hide Step, Inv, WithOwner, SlotCount, Owner, Shapes;
  }

  lemma ScansInOrderKept(s: State, a: Action, s': State)
    requires Inv(s) && Step(s, a, s')
    ensures ScansInOrder(s')
  {
    forall t: nat | Live(s', t) && Scans(At(s', t))
      ensures PassedAlive(s', At(s', t)) && Undisturbed(s', t, At(s', t))
    {
      PassedAliveKept(s, a, s', t);
      UndisturbedKept(s, a, s', t);
    }
  }

  lemma StepKeeps(s: State, a: Action, s': State)
    requires Inv(s) && Step(s, a, s')
    ensures Inv(s')
  {
    ShapesKept(s, a, s');
    ExcludedKept(s, a, s');
    OwnedKept(s, a, s');
    DistinctKept(s, a, s');
    ReleaseOnceKept(s, a, s');
    ScansInOrderKept(s, a, s');
  }

  // ----- what holds over every run

  ghost predicate IsRun(states: seq<State>, actions: seq<Action>) {
    && |states| == |actions| + 1 && Initial(states[0])
    && forall i | 0 <= i < |actions| :: Step(states[i], actions[i], states[i + 1])
  }

  lemma {:induction false} RunInv(states: seq<State>, actions: seq<Action>, i: nat)
    requires IsRun(states, actions) && i < |states|
    ensures Inv(states[i])
  {
    if i == 0 {
      InitialInv(states[0]);
    } else {
      RunInv(states, actions, i - 1);
      StepKeeps(states[i - 1], actions[i - 1], states[i]);
    }
  }

  lemma ScanBegins(s: State, a: Action, s': State, t: nat)
    requires Step(s, a, s') && t < |s'.threads| && Scans(At(s', t))
    ensures t < |s.threads|
    ensures if a == Lock(t) then At(s', t).at == Snapshot(s.seen, s.alive)
            else Scans(At(s, t)) && At(s, t).at == At(s', t).at
  {
    hide Owner, WithOwner, SlotCount;
  }

  lemma RunBegins(states: seq<State>, actions: seq<Action>, t: nat)
    requires IsRun(states, actions)
    ensures |states| == |actions| + 1 && (t < |states[0].threads| ==> !Scans(At(states[0], t)))
  {
    hide Step;
  }

  lemma RunStep(states: seq<State>, actions: seq<Action>, i: nat)
    requires IsRun(states, actions) && i < |actions|
    ensures i + 1 < |states| && Step(states[i], actions[i], states[i + 1])
  {
    hide Step, Initial;
  }

  /** The snapshot of a scan is the state in which its thread took the mutex. */
  lemma {:induction false} SinceTheLock(states: seq<State>, actions: seq<Action>, i: nat, t: nat) returns (j: nat)
    requires IsRun(states, actions) && i < |states| && t < |states[i].threads| && Scans(At(states[i], t))
    ensures j < i && actions[j] == Lock(t)
    ensures At(states[i], t).at == Snapshot(states[j].seen, states[j].alive)
    ensures forall m | j < m <= i :: t < |states[m].threads| && Scans(At(states[m], t))
  {
    hide *;
    RunBegins(states, actions, t);
    RunStep(states, actions, i - 1);
    ScanBegins(states[i - 1], actions[i - 1], states[i], t);
    if actions[i - 1] == Lock(t) {
      j := i - 1;
    } else {
      j := SinceTheLock(states, actions, i - 1, t);
    }
  }

  /** No hardware id has two holders alive, whatever crashes. */
  lemma NoTwoLiveHolders(states: seq<State>, actions: seq<Action>, i: nat, k: nat, l: nat)
    requires IsRun(states, actions) && i < |states|
    requires k in states[i].claims && l in states[i].claims
    requires states[i].claims[k].pid in states[i].alive && states[i].claims[l].pid in states[i].alive
    requires states[i].claims[k].kind == states[i].claims[l].kind && states[i].claims[k].id == states[i].claims[l].id
    ensures k == l
  {
    RunInv(states, actions, i);
  }

  /** The slot taken is free or its owner is dead, and every lower slot had an owner alive when the mutex was taken. */
  lemma TakesTheLeast(states: seq<State>, actions: seq<Action>, i: nat)
    requires IsRun(states, actions) && i < |actions| && actions[i].Take?
    ensures var s, s', t := states[i], states[i + 1], actions[i].t;
            var Taking(kind, id, at) := At(s, t);
            && id < SlotCount(kind)
            && Owner(s, kind, id) !in s.alive
            && (forall j: nat | j < id :: Owner(s, kind, j) in at.alive)
            && Owner(s', kind, id) == s.threads[t].pid
            && s'.claims == s.claims[s.serial := Claim(s.threads[t].pid, kind, id)] && s.serial !in s.claims
  {
    RunInv(states, actions, i);
    Owners(states[i], actions[i], states[i + 1]);
  }

  /** Exhaustion is reported only when every slot had an owner alive when the mutex was taken. */
  lemma ExhaustedWhenFull(states: seq<State>, actions: seq<Action>, i: nat, t: nat)
    requires IsRun(states, actions) && i < |states| && Live(states[i], t) && At(states[i], t).Exhausted?
    ensures var Exhausted(kind, _, at) := At(states[i], t);
            forall j: nat | j < SlotCount(kind) :: Owner(states[i], kind, j) in at.alive
  {
    RunInv(states, actions, i);
  }

  /** Giving back a claim always frees its slot: nobody else can have taken it. */
  lemma ClearsItsOwn(states: seq<State>, actions: seq<Action>, i: nat)
    requires IsRun(states, actions) && i < |actions| && actions[i].Clear?
    ensures var s, s', t := states[i], states[i + 1], actions[i].t;
            var claim := s.claims[At(s, t).serial];
            Owner(s, claim.kind, claim.id) == claim.pid == s.threads[t].pid && Owner(s', claim.kind, claim.id) == 0
  {
    RunInv(states, actions, i);
    Owners(states[i], actions[i], states[i + 1]);
  }

  /** The moves of a thread that has the mutex. */
  predicate OwnMove(a: Action, t: nat) { a == Probe(t) || a == Take(t) || a == Clear(t) || a == Unlock(t) }

  /**
   A call never gets stuck, even when the owner of the mutex has crashed: its thread can take the mutex or
   has it and can move, or else the live thread that has the mutex can move.
   */
  lemma NeverStuck(s: State, t: nat) returns (u: nat, a: Action, s': State)
    requires Inv(s) && Live(s, t) && At(s, t) != Idle
    ensures Step(s, a, s') && Live(s, u)
    ensures (u == t && a == Lock(t)) || ((u == t || s.mutex == Some(u)) && OwnMove(a, u))
  {
    u := if Inside(At(s, t)) || s.mutex == None || !Live(s, s.mutex.value) then t else s.mutex.value;
    if !Inside(At(s, u)) {
      a := Lock(u);
      s' := s.(mutex := Some(u),
               threads := Moved(s, u, if At(s, u).WantRelease? then Clearing(At(s, u).serial)
                                      else Scanning(At(s, u).kind, 0, Snapshot(s.seen, s.alive))));
    } else {
      a, s' := InsideMoves(s, u);
    }
  }

  /** At most how many moves are left until the mutex is unlocked. */
  function MovesLeft(p: Place): nat {
    match p
    case Scanning(kind, i, _) => if i <= SlotCount(kind) then SlotCount(kind) - i + 3 else 3
    case Taking(_, _, _) => 2
    case Took(_, _, _) => 1
    case Exhausted(_, _, _) => 1
    case Clearing(_) => 2
    case Cleared => 1
    case _ => 0
  }

  /** Every move of the thread with the mutex brings it nearer to the unlocking, and no step of anybody else sets it back. */
  lemma HolderProgresses(s: State, a: Action, s': State, t: nat)
    requires Inv(s) && Step(s, a, s') && Live(s, t) && Inside(At(s, t))
    ensures t < |s'.threads|
    ensures OwnMove(a, t) ==> MovesLeft(At(s', t)) < MovesLeft(At(s, t))
    ensures OwnMove(a, t) && !Inside(At(s', t)) ==> a == Unlock(t) && s'.mutex == None
    ensures !OwnMove(a, t) ==> At(s', t) == At(s, t)
  {
    if ProcessStep(s, a, s') {
      ProcessHolderProgresses(s, a, s', t);
    } else if CallStep(s, a, s') {
      CallHolderProgresses(s, a, s', t);
    } else {
      SlotHolderProgresses(s, a, s', t);
    }
    hide *;
  }

  lemma ProcessHolderProgresses(s: State, a: Action, s': State, t: nat)
    requires Inv(s) && ProcessStep(s, a, s') && Live(s, t) && Inside(At(s, t))
    ensures t < |s'.threads|
    ensures OwnMove(a, t) ==> MovesLeft(At(s', t)) < MovesLeft(At(s, t))
    ensures OwnMove(a, t) && !Inside(At(s', t)) ==> a == Unlock(t) && s'.mutex == None
    ensures !OwnMove(a, t) ==> At(s', t) == At(s, t)
  {
    assert Scans(At(s, t)) ==> PassedAlive(s, At(s, t));
    hide Owner, WithOwner, Shapes, Owned, Distinct, ReleaseOnce;
  }

  lemma CallHolderProgresses(s: State, a: Action, s': State, t: nat)
    requires Inv(s) && CallStep(s, a, s') && Live(s, t) && Inside(At(s, t))
    ensures t < |s'.threads|
    ensures OwnMove(a, t) ==> MovesLeft(At(s', t)) < MovesLeft(At(s, t))
    ensures OwnMove(a, t) && !Inside(At(s', t)) ==> a == Unlock(t) && s'.mutex == None
    ensures !OwnMove(a, t) ==> At(s', t) == At(s, t)
  {
    assert Scans(At(s, t)) ==> PassedAlive(s, At(s, t));
    hide Owner, WithOwner, Shapes, Owned, Distinct, ReleaseOnce;
  }

  lemma SlotHolderProgresses(s: State, a: Action, s': State, t: nat)
    requires Inv(s) && SlotStep(s, a, s') && Live(s, t) && Inside(At(s, t))
    ensures t < |s'.threads|
    ensures OwnMove(a, t) ==> MovesLeft(At(s', t)) < MovesLeft(At(s, t))
    ensures OwnMove(a, t) && !Inside(At(s', t)) ==> a == Unlock(t) && s'.mutex == None
    ensures !OwnMove(a, t) ==> At(s', t) == At(s, t)
  {
    assert Scans(At(s, t)) ==> PassedAlive(s, At(s, t));
    hide Owner, WithOwner, Shapes, Owned, Distinct, ReleaseOnce;
  }

  /** So the thread with the mutex, moving alone, unlocks it. */
  lemma HolderUnlocks(s: State, t: nat) returns (states: seq<State>, actions: seq<Action>)
    requires Inv(s) && Live(s, t) && Inside(At(s, t))
    ensures |states| == |actions| + 1 && states[0] == s && |actions| <= MovesLeft(At(s, t))
    ensures forall i | 0 <= i < |actions| :: OwnMove(actions[i], t) && Step(states[i], actions[i], states[i + 1])
    ensures states[|actions|].mutex == None && t < |states[|actions|].threads| && At(states[|actions|], t) == Idle
    decreases MovesLeft(At(s, t))
  {
    var a, s' := InsideMoves(s, t);
    HolderProgresses(s, a, s', t);
    StepKeeps(s, a, s');
    MoveStaysLive(s, a, s', t);
    if Inside(At(s', t)) {
      states, actions := HolderUnlocks(s', t);
      states, actions := [s] + states, [a] + actions;
    } else {
      states, actions := [s, s'], [a];
    }
  }

  lemma MoveStaysLive(s: State, a: Action, s': State, t: nat)
    requires Step(s, a, s') && OwnMove(a, t) && Live(s, t)
    ensures Live(s', t) && (a == Unlock(t) ==> At(s', t) == Idle)
  {
  }

  lemma InsideMoves(s: State, t: nat) returns (a: Action, s': State)
    requires Inv(s) && Live(s, t) && Inside(At(s, t))
    ensures Step(s, a, s') && OwnMove(a, t)
  {
    var place, pid := At(s, t), s.threads[t].pid;
    if place.Scanning? {
      a := Probe(t);
      s' := s.(threads := Moved(s, t,
                 if place.i == SlotCount(place.kind) then Exhausted(place.kind, place.i, place.at)
                 else if Owner(s, place.kind, place.i) in s.alive then Scanning(place.kind, place.i + 1, place.at)
                 else Taking(place.kind, place.i, place.at)));
    } else if place.Taking? {
      a := Take(t);
      s' := s.(threads := Moved(s, t, Took(place.kind, place.i, place.at)),
               slots := WithOwner(s, place.kind, place.i, pid),
               claims := s.claims[s.serial := Claim(pid, place.kind, place.i)], serial := s.serial + 1);
    } else if place.Clearing? {
      var claim := s.claims[place.serial];
      a := Clear(t);
      s' := s.(threads := Moved(s, t, Cleared), claims := s.claims - {place.serial},
               slots := if Owner(s, claim.kind, claim.id) == pid then WithOwner(s, claim.kind, claim.id, 0) else s.slots);
    } else {
      a := Unlock(t);
      s' := s.(mutex := None, threads := Moved(s, t, Idle));
    }
  }
}
