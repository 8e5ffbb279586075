/**
 The table of hardware ids shared between processes (hal/ax/hw_id_allocator.cpp): the scan of one call,
 made under the mutex.
 */
module HwIds {

  datatype Kind = Ivps | Vdec | Venc

  function SlotCount(kind: Kind): nat {
    match kind
    case Ivps => 256
    case Vdec => 164
    case Venc => 64
  }

  /** What probing a process with signal 0 answers. */
  datatype Probe = Delivered | NoSuchProcess | OtherError

  /** A pid counts as alive unless the probe says there is no such process. */
  predicate PidAlive(pid: nat, probe: Probe) { pid != 0 && probe != NoSuchProcess }

  const EOWNERDEAD := 130

  class HwIdAllocator {
    const ivps: array<nat>
    const vdec: array<nat>
    const venc: array<nat>

    ghost predicate Valid() {
      && ivps.Length == SlotCount(Ivps) && vdec.Length == SlotCount(Vdec) && venc.Length == SlotCount(Venc)
      && ivps != vdec && vdec != venc && ivps != venc
    }

    constructor ()
      ensures Valid() && fresh(ivps) && fresh(vdec) && fresh(venc)
      ensures forall kind: Kind, i | 0 <= i < SlotCount(kind) :: Slots(kind)[i] == 0
    {
      ivps := new nat[256](_ => 0);
      vdec := new nat[164](_ => 0);
      venc := new nat[64](_ => 0);
    }

    function Slots(kind: Kind): (slots: array<nat>)
      requires Valid()
      ensures slots.Length == SlotCount(kind)
    {
      match kind
      case Ivps => ivps
      case Vdec => vdec
      case Venc => venc
    }

    /** Locking a robust mutex succeeds after its owner died, too. */
    static method LockMu(answer: int) returns (ret: int)
      ensures ret == 0 <==> answer == 0 || answer == EOWNERDEAD
    {
      if answer == EOWNERDEAD {
        return 0;
      }
      return answer;
    }

    /** The least slot that is free or whose owner is gone becomes the caller's; -1 when there is none. */
    method Acquire(kind: Kind, self: nat, shm: bool, lockAnswer: int, probes: seq<Probe>) returns (id: int)
      requires Valid() && self != 0 && |probes| == SlotCount(kind)
      modifies Slots(kind)
      ensures -1 <= id < SlotCount(kind)
      ensures !shm || !(lockAnswer in {0, EOWNERDEAD}) ==> id == -1
      ensures shm && lockAnswer in {0, EOWNERDEAD} ==>
                (id == -1 <==> forall i | 0 <= i < SlotCount(kind) ::
                                 old(Slots(kind)[..])[i] != 0 && probes[i] != NoSuchProcess)
      ensures id >= 0 ==>
                && (old(Slots(kind)[..])[id] == 0 || probes[id] == NoSuchProcess)
                && forall i | 0 <= i < id :: old(Slots(kind)[..])[i] != 0 && probes[i] != NoSuchProcess
      ensures Slots(kind)[..] == if id == -1 then old(Slots(kind)[..]) else old(Slots(kind)[..])[id := self]
    {
      if !shm {
        return -1;
      }
      var lockRet := LockMu(lockAnswer);
      if lockRet != 0 {
        return -1;
      }
      var slots := Slots(kind);
      id := -1;
      for i := 0 to slots.Length
        invariant id == -1 && slots[..] == old(slots[..])
        invariant forall k | 0 <= k < i :: old(slots[..])[k] != 0 && probes[k] != NoSuchProcess
      {
        if slots[i] != 0 && PidAlive(slots[i], probes[i]) {
          continue;
        }
        slots[i] := self;
        id := i;
        break;
      }
    }

    /** A slot is freed by its owner only; any other call changes nothing. */
    method Release(kind: Kind, id: int, self: nat, shm: bool, lockAnswer: int)
      requires Valid() && self != 0
      modifies Slots(kind)
      ensures var was := old(Slots(kind)[..]);
              Slots(kind)[..]
              == if shm && lockAnswer in {0, EOWNERDEAD} && 0 <= id < SlotCount(kind) && was[id] == self
                 then was[id := 0] else was
    {
      if id < 0 || !shm {
        return;
      }
      var slots := Slots(kind);
      if id >= slots.Length {
        return;
      }
      var lockRet := LockMu(lockAnswer);
      if lockRet != 0 {
        return;
      }
      if slots[id] == self {
        slots[id] := 0;
      }
    }
  }
}
