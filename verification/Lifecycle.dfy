/**
 The discipline of loading components from dynamic libraries (plugin/plugin_loader.cpp,
 plugin/postprocessor_chain.cpp, plugin/scene_runtime.cpp): which traces of calls are well nested, and
 what that means for every library and instance.
 */
module Lifecycle {
  import opened Options

  datatype Role = Processor | Business

  /** The calls on a library and its instance; `id` numbers the successful opens. */
  datatype Event =
    | Open(id: nat, role: Role)
    | Create(id: nat)
    | Init(id: nat, ok: bool)
    | Feed(id: nat)
    | Quiesce(id: nat)
    | Shutdown(id: nat)
    | Destroy(id: nat)
    | Close(id: nat)

  datatype Phase = Opened | Created | Failed | Ready | Quiesced | Stopped | Destroyed

  datatype Comp = Comp(id: nat, role: Role, phase: Phase)

  /** How many libraries were opened, and those still open, the latest last. */
  datatype Nest = Broken | Nest(next: nat, stack: seq<Comp>)

  /** The next phase of an open component, if the call is in order. */
  function NextPhase(role: Role, phase: Phase, e: Event): Option<Phase> {
    match e
    case Create(_) => if phase == Opened then Some(Created) else None
    case Init(_, ok) => if phase == Created then Some(if ok then Ready else Failed) else None
    case Quiesce(_) => if role == Business && phase in {Ready, Failed} then Some(Quiesced) else None
    case Shutdown(_) =>
      if phase in (if role == Business then {Quiesced} else {Ready, Failed}) then Some(Stopped) else None
    case Destroy(_) => if phase in {Created, Stopped} then Some(Destroyed) else None
    case _ => None
  }

  function Top(stack: seq<Comp>): Comp
    requires stack != []
  {
    stack[|stack| - 1]
  }

  /** Calls other than feeding concern the latest open component; nothing is opened above the business plugin. */
  function Step(n: Nest, e: Event): Nest {
    if n.Broken? then Broken
    else
      match e
      case Open(id, role) =>
        if id == n.next && (n.stack == [] || Top(n.stack).role == Processor)
        then Nest(n.next + 1, n.stack + [Comp(id, role, Opened)]) else Broken
      case Feed(id) =>
        if exists i :: 0 <= i < |n.stack| && n.stack[i].id == id && n.stack[i].phase == Ready then n else Broken
      case Close(id) =>
        if n.stack != [] && Top(n.stack).id == id && Top(n.stack).phase in {Opened, Destroyed}
        then n.(stack := n.stack[..|n.stack| - 1]) else Broken
      case _ =>
        if n.stack == [] || Top(n.stack).id != e.id then Broken
        else
          match NextPhase(Top(n.stack).role, Top(n.stack).phase, e)
          case None => Broken
          case Some(phase) => n.(stack := n.stack[|n.stack| - 1 := Top(n.stack).(phase := phase)])
  }

  function Nesting(trace: seq<Event>): Nest {
    if trace == [] then Nest(0, []) else Step(Nesting(trace[..|trace| - 1]), trace[|trace| - 1])
  }

  function Run(n: Nest, events: seq<Event>): Nest
    decreases |events|
  {
    if events == [] then n else Run(Step(n, events[0]), events[1..])
  }

  lemma {:induction false} NestingAppend(trace: seq<Event>, events: seq<Event>)
    ensures Nesting(trace + events) == Run(Nesting(trace), events)
    decreases |events|
  {
    if events == [] {
      assert trace + events == trace;
    } else {
      var longer := trace + [events[0]];
      assert longer[..|longer| - 1] == trace;
      assert longer + events[1..] == trace + events;
      NestingAppend(longer, events[1..]);
    }
  }

  // ---- What a well nested trace means ----

  function Count(trace: seq<Event>, p: Event -> bool): nat {
    if trace == [] then 0 else Count(trace[..|trace| - 1], p) + if p(trace[|trace| - 1]) then 1 else 0
  }

  function Opens(trace: seq<Event>, id: nat): nat { Count(trace, (e: Event) => e.Open? && e.id == id) }

  function Closes(trace: seq<Event>, id: nat): nat { Count(trace, (e: Event) => e == Close(id)) }

  function Creates(trace: seq<Event>, id: nat): nat { Count(trace, (e: Event) => e == Create(id)) }

  function Destroys(trace: seq<Event>, id: nat): nat { Count(trace, (e: Event) => e == Destroy(id)) }

  function Inits(trace: seq<Event>, id: nat): nat { Count(trace, (e: Event) => e.Init? && e.id == id) }

  function Shutdowns(trace: seq<Event>, id: nat): nat { Count(trace, (e: Event) => e == Shutdown(id)) }

  datatype Tally = Tally(opens: nat, creates: nat, inits: nat, shutdowns: nat, destroys: nat, closes: nat)

  ghost function TallyOf(trace: seq<Event>, id: nat): Tally {
    Tally(Opens(trace, id), Creates(trace, id), Inits(trace, id), Shutdowns(trace, id), Destroys(trace, id), Closes(trace, id))
  }

  /** An event counted for its own library only. */
  ghost function Counted(t: Tally, e: Event): Tally {
    match e
    case Open(_, _) => t.(opens := t.opens + 1)
    case Create(_) => t.(creates := t.creates + 1)
    case Init(_, _) => t.(inits := t.inits + 1)
    case Shutdown(_) => t.(shutdowns := t.shutdowns + 1)
    case Destroy(_) => t.(destroys := t.destroys + 1)
    case Close(_) => t.(closes := t.closes + 1)
    case _ => t
  }

  lemma TallyStep(trace: seq<Event>, id: nat)
    requires trace != []
    ensures var e, before := trace[|trace| - 1], TallyOf(trace[..|trace| - 1], id);
            TallyOf(trace, id) == if e.id == id then Counted(before, e) else before
  {
  }

  /** The open component of an id. */
  function Find(stack: seq<Comp>, id: nat): Option<Comp> {
    if stack == [] then None
    else if Top(stack).id == id then Some(Top(stack)) else Find(stack[..|stack| - 1], id)
  }

  /** Later libraries have larger numbers, all below the number opened. */
  ghost predicate Ordered(n: Nest) {
    n.Nest? ==> forall i, j | 0 <= i < j < |n.stack| :: n.stack[i].id < n.stack[j].id < n.next
  }

  ghost predicate InRange(n: Nest) {
    n.Nest? ==> forall i | 0 <= i < |n.stack| :: n.stack[i].id < n.next
  }

  /** The calls a component has seen, by its phase. */
  ghost predicate Matches(t: Tally, phase: Phase) {
    && t.opens == 1 && t.closes == 0
    && match phase
       case Opened => t == Tally(1, 0, 0, 0, 0, 0)
       case Created => t == Tally(1, 1, 0, 0, 0, 0)
       case Failed => t == Tally(1, 1, 1, 0, 0, 0)
       case Ready => t == Tally(1, 1, 1, 0, 0, 0)
       case Quiesced => t == Tally(1, 1, 1, 0, 0, 0)
       case Stopped => t == Tally(1, 1, 1, 1, 0, 0)
       case Destroyed => t.creates == t.destroys == 1 && t.inits == t.shutdowns <= 1
  }

  /** A library closed again: its instance, if any, destroyed once, and shut down if Init was called. */
  ghost predicate Finished(t: Tally) {
    t.opens == t.closes == 1 && t.creates == t.destroys <= 1 && t.inits == t.shutdowns <= t.creates
  }

  ghost predicate Accounted(t: Tally, n: Nest, id: nat)
    requires n.Nest?
  {
    if id >= n.next then t == Tally(0, 0, 0, 0, 0, 0)
    else
      match Find(n.stack, id)
      case Some(comp) => Matches(t, comp.phase)
      case None => Finished(t)
  }

  lemma {:induction false} FindBelow(stack: seq<Comp>, id: nat)
    requires forall i | 0 <= i < |stack| :: stack[i].id != id
    ensures Find(stack, id) == None
  {
    if stack != [] { FindBelow(stack[..|stack| - 1], id); }
  }

  lemma {:induction false} FindIn(stack: seq<Comp>, id: nat)
    ensures Find(stack, id) == None <==> forall i | 0 <= i < |stack| :: stack[i].id != id
  {
    if stack != [] { FindIn(stack[..|stack| - 1], id); }
  }

  /** Looking up another component after the top changed. */
  lemma FindUnderTop(stack: seq<Comp>, top: Comp, id: nat)
    requires stack != [] && Top(stack).id != id && top.id != id
    ensures Find(stack[|stack| - 1 := top], id) == Find(stack, id) == Find(stack[..|stack| - 1], id)
  {
    assert stack[|stack| - 1 := top][..|stack| - 1] == stack[..|stack| - 1];
  }

  lemma AccountedStep(n: Nest, e: Event, before: Tally, id: nat)
    requires n.Nest? && Ordered(n) && InRange(n) && Step(n, e).Nest?
    requires Accounted(before, n, id)
    ensures Accounted(if e.id == id then Counted(before, e) else before, Step(n, e), id)
  {
    var n' := Step(n, e);
    match e {
      case Open(k, role) =>
        assert n'.stack[..|n'.stack| - 1] == n.stack;
        if k == id {
          FindBelow(n.stack, id);
        }
      case Feed(k) =>
      case Close(k) =>
        if k == id { FindBelow(n'.stack, id); }
      case _ =>
        if e.id != id { FindUnderTop(n.stack, Top(n'.stack), id); }
    }
  }

  lemma OrderedStep(n: Nest, e: Event)
    requires Ordered(n) && InRange(n)
    ensures Ordered(Step(n, e)) && InRange(Step(n, e))
  {
  }

  /** In a well nested trace every library has exactly the calls of its phase. */
  lemma {:induction false} WellNested(trace: seq<Event>, id: nat)
    requires Nesting(trace).Nest?
    ensures Ordered(Nesting(trace)) && InRange(Nesting(trace))
    ensures Accounted(TallyOf(trace, id), Nesting(trace), id)
  {
    if trace != [] {
      var init := trace[..|trace| - 1];
      WellNested(init, id);
      TallyStep(trace, id);
      AccountedStep(Nesting(init), trace[|trace| - 1], TallyOf(init, id), id);
      OrderedStep(Nesting(init), trace[|trace| - 1]);
    }
  }

  /** Once nothing is left open, every opened library was closed once, and its instance shut down if and only if Init was called. */
  lemma EverythingFinished(trace: seq<Event>, id: nat)
    requires Nesting(trace).Nest? && Nesting(trace).stack == []
    ensures if Opens(trace, id) > 0 then Finished(TallyOf(trace, id)) else TallyOf(trace, id) == Tally(0, 0, 0, 0, 0, 0)
  {
    WellNested(trace, id);
  }

  lemma {:induction false} PrefixNested(trace: seq<Event>, k: nat)
    requires Nesting(trace).Nest? && k <= |trace|
    ensures Nesting(trace[..k]).Nest?
  {
    if k < |trace| {
      PrefixNested(trace[..|trace| - 1], k);
      assert trace[..|trace| - 1][..k] == trace[..k];
    } else {
      assert trace[..k] == trace;
    }
  }

  lemma {:induction false} CountSome(trace: seq<Event>, p: Event -> bool, k: nat)
    requires k < |trace| && p(trace[k])
    ensures Count(trace, p) > 0
  {
    if k < |trace| - 1 { CountSome(trace[..|trace| - 1], p, k); }
  }

  lemma {:induction false} CountWitness(trace: seq<Event>, p: Event -> bool) returns (k: nat)
    requires Count(trace, p) > 0
    ensures k < |trace| && p(trace[k])
  {
    if p(trace[|trace| - 1]) {
      k := |trace| - 1;
    } else {
      k := CountWitness(trace[..|trace| - 1], p);
    }
  }

  /** Teardown is in reverse: when a library is closed, every later one is closed already. */
  lemma LastOpenedFirstClosed(trace: seq<Event>, j: nat, k: nat) returns (i: nat)
    requires Nesting(trace).Nest? && j < k < |trace|
    requires trace[j].Open? && trace[k].Close? && trace[k].id < trace[j].id
    ensures i < k && trace[i] == Close(trace[j].id)
  {
    var before, id := trace[..k], trace[j].id;
    PrefixNested(trace, k + 1);
    assert trace[..k + 1][..k] == before;
    assert Step(Nesting(before), trace[k]).Nest?;
    CountSome(before, (e: Event) => e.Open? && e.id == id, j);
    WellNested(before, id);
    FindIn(Nesting(before).stack, id);
    i := CountWitness(before, (e: Event) => e == Close(id));
  }

  /** An instance is destroyed after a shutdown exactly when its Init was called, and after a failed Init too. */
  lemma ShutdownIffInit(trace: seq<Event>, k: nat)
    requires Nesting(trace).Nest? && k < |trace| && trace[k].Destroy?
    ensures var before, id := trace[..k], trace[k].id;
            && Creates(before, id) == 1 && Destroys(before, id) == 0
            && Shutdowns(before, id) == Inits(before, id) <= 1
  {
    hide *;
    var before, id := trace[..k], trace[k].id;
    PrefixSteps(trace, k);
    WellNested(before, id);
    BeforeDestroy(TallyOf(before, id), Nesting(before), id);
    TallyOfIs(before, id);
  }

  lemma PrefixSteps(trace: seq<Event>, k: nat)
    requires Nesting(trace).Nest? && k < |trace|
    ensures Nesting(trace[..k]).Nest? && Step(Nesting(trace[..k]), trace[k]).Nest?
  {
    PrefixNested(trace, k + 1);
    assert trace[..k + 1][..k] == trace[..k];
  }

  lemma BeforeDestroy(t: Tally, n: Nest, id: nat)
    requires n.Nest? && InRange(n) && Accounted(t, n, id) && Step(n, Destroy(id)).Nest?
    ensures t.creates == 1 && t.destroys == 0 && t.shutdowns == t.inits <= 1
  {
    assert Find(n.stack, id) == Some(Top(n.stack));
  }

  lemma TallyOfIs(trace: seq<Event>, id: nat)
    ensures TallyOf(trace, id)
         == Tally(Opens(trace, id), Creates(trace, id), Inits(trace, id), Shutdowns(trace, id), Destroys(trace, id), Closes(trace, id))
  {
  }

  /** Only a component whose Init succeeded and which was not shut down is given frames. */
  lemma FedWhenReady(trace: seq<Event>, k: nat)
    requires Nesting(trace).Nest? && k < |trace| && trace[k].Feed?
    ensures Inits(trace[..k], trace[k].id) == 1 && Shutdowns(trace[..k], trace[k].id) == 0
  {
    var before, id := trace[..k], trace[k].id;
    PrefixNested(trace, k + 1);
    assert trace[..k + 1][..k] == before;
    var i :| 0 <= i < |Nesting(before).stack| && Nesting(before).stack[i].id == id && Nesting(before).stack[i].phase == Ready;
    WellNested(before, id);
    FindOrdered(Nesting(before), i);
  }

  lemma {:induction false} FindOrdered(n: Nest, i: nat)
    requires n.Nest? && Ordered(n) && InRange(n) && i < |n.stack|
    ensures Find(n.stack, n.stack[i].id) == Some(n.stack[i])
    decreases |n.stack|
  {
    if i < |n.stack| - 1 { FindOrdered(n.(stack := n.stack[..|n.stack| - 1]), i); }
  }

  /** The business plugin is on top of every processor, so it goes first. */
  ghost predicate BusinessOnTop(n: Nest) {
    n.Nest? ==> forall i | 0 <= i < |n.stack| - 1 :: n.stack[i].role == Processor
  }

  lemma {:induction false} BusinessStaysOnTop(trace: seq<Event>)
    ensures BusinessOnTop(Nesting(trace))
  {
    if trace != [] { BusinessStaysOnTop(trace[..|trace| - 1]); }
  }
}
