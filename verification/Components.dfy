/**
 Loading one component: what a load attempt calls and returns for every outcome of the library
 (plugin/plugin_loader.cpp, plugin/postprocessor_chain.cpp).
 */
module Components {
  import opened Lifecycle

  const API_VERSION := 1

  /** A configured component, and how its library and its instance will answer. */
  datatype Component = Component(
    enabled: bool,
    configVersion: nat,
    opens: bool,
    symbols: bool,
    creates: bool,
    nameMatches: bool,
    instanceVersion: nat,
    initResult: int)

  /** The instance passes the checks made before Init; only the business plugin's name is checked. */
  predicate Suitable(role: Role, c: Component) {
    (role == Business ==> c.nameMatches) && c.configVersion == API_VERSION && c.instanceVersion == API_VERSION
  }

  function LoadResult(role: Role, c: Component): int {
    if !c.opens || !c.symbols || !c.creates || !Suitable(role, c) then -1 else c.initResult
  }

  /** The calls that take down an instance whose Init was invoked. */
  function TearDown(role: Role, id: nat): seq<Event> {
    (if role == Business then [Quiesce(id)] else []) + [Shutdown(id), Destroy(id), Close(id)]
  }

  /** The calls on a fresh instance: it is checked, and Init called. */
  function InstanceCalls(role: Role, c: Component, id: nat): seq<Event> {
    if !Suitable(role, c) then [Destroy(id), Close(id)]
    else [Init(id, c.initResult == 0)] + if c.initResult == 0 then [] else TearDown(role, id)
  }

  /** The calls of one load attempt. */
  function LoadCalls(role: Role, c: Component, id: nat): seq<Event> {
    if !c.opens then []
    else
      [Open(id, role)] + if !c.symbols || !c.creates then [Close(id)] else [Create(id)] + InstanceCalls(role, c, id)
  }

  /** The instance is made and passes every check that comes before Init. */
  predicate PassesChecks(role: Role, c: Component) {
    && c.opens && c.symbols && c.creates
    && (role == Business ==> c.nameMatches)
    && c.configVersion == 1 && c.instanceVersion == 1
  }

  predicate Starts(role: Role, c: Component) { PassesChecks(role, c) && c.initResult == 0 }

  /** What a load attempt returns: 0 when it starts, Init's own status when that was reached, -1 otherwise. */
  lemma ResultMeans(role: Role, c: Component)
    ensures LoadResult(role, c) == if PassesChecks(role, c) then c.initResult else -1
    ensures LoadResult(role, c) == 0 <==> Starts(role, c)
  {
  }

  /** Init is called exactly on an instance that passed the checks, and on no other. */
  lemma InitCalledWhen(role: Role, c: Component, id: nat, e: Event)
    requires e.Init?
    ensures e in LoadCalls(role, c, id) <==> PassesChecks(role, c) && e == Init(id, c.initResult == 0)
  {
  }

  lemma TearDownHasNoInit(role: Role, id: nat, e: Event)
    requires e.Init?
    ensures e !in TearDown(role, id)
  {
  }

  lemma {:induction false} RunAppend(n: Nest, xs: seq<Event>, ys: seq<Event>)
    ensures Run(n, xs + ys) == Run(Run(n, xs), ys)
    decreases |xs|
  {
    if xs == [] {
      assert xs + ys == ys;
    } else {
      assert (xs + ys)[0] == xs[0] && (xs + ys)[1..] == xs[1..] + ys;
      RunAppend(Step(n, xs[0]), xs[1..], ys);
    }
  }

  lemma RunOne(n: Nest, e: Event)
    ensures Run(n, [e]) == Step(n, e)
  {
    assert [e][1..] == [];
    assert Run(Step(n, e), []) == Step(n, e);
  }

  /** Taking down the top component removes it. */
  lemma TearDownPops(n: Nest, role: Role, id: nat, phase: Phase)
    requires n.Nest? && n.stack != [] && Top(n.stack) == Comp(id, role, phase) && phase in {Ready, Failed}
    ensures Run(n, TearDown(role, id)) == n.(stack := n.stack[..|n.stack| - 1])
  {
    hide Run;
    var below := n.stack[..|n.stack| - 1];
    assert n.stack == below + [Comp(id, role, phase)];
    var quiet := if role == Business then n.(stack := below + [Comp(id, role, Quiesced)]) else n;
    var first := if role == Business then [Quiesce(id)] else [];
    assert Run(n, first) == quiet by {
      RunNone(n);
      if role == Business {
        RunOne(n, Quiesce(id));
      }
    }
    RunAppend(n, first, [Shutdown(id), Destroy(id), Close(id)]);
    RunThree(quiet, Shutdown(id), Destroy(id), Close(id));
    DownSteps(quiet, below, role, id);
  }

  lemma RunNone(n: Nest)
    ensures Run(n, []) == n
  {
  }

  /** A component at the top is shut down, destroyed, and closed. */
  lemma DownSteps(n: Nest, below: seq<Comp>, role: Role, id: nat)
    requires n.Nest? && n.stack != [] && n.stack[..|n.stack| - 1] == below
    requires Top(n.stack).id == id && Top(n.stack).role == role
    requires Top(n.stack).phase in if role == Business then {Quiesced} else {Ready, Failed}
    ensures Step(Step(Step(n, Shutdown(id)), Destroy(id)), Close(id)) == n.(stack := below)
  {
    assert Step(n, Shutdown(id)) == n.(stack := below + [Comp(id, role, Stopped)]);
    assert Step(n.(stack := below + [Comp(id, role, Stopped)]), Destroy(id)) == n.(stack := below + [Comp(id, role, Destroyed)]);
    assert (below + [Comp(id, role, Destroyed)])[..|below|] == below;
  }

  lemma RunThree(n: Nest, a: Event, b: Event, c: Event)
    ensures Run(n, [a, b, c]) == Step(Step(Step(n, a), b), c)
  {
    assert [a, b, c] == [a] + ([b] + [c]);
    RunAppend(n, [a], [b] + [c]);
    RunOne(n, a);
    RunAppend(Step(n, a), [b], [c]);
    RunOne(Step(n, a), b);
    RunOne(Step(Step(n, a), b), c);
  }

  /** A load attempt is in order: it leaves a ready component on top when it succeeds, and nothing when it fails. */
  lemma LoadKeepsNesting(n: Nest, role: Role, c: Component)
    requires n.Nest? && (n.stack == [] || Top(n.stack).role == Processor)
    ensures var after := Run(n, LoadCalls(role, c, n.next));
            && after.Nest? && after.next == n.next + (if c.opens then 1 else 0)
            && after.stack == if LoadResult(role, c) == 0 then n.stack + [Comp(n.next, role, Ready)] else n.stack
  {
    hide InstanceCalls, Suitable;
    var id := n.next;
    if c.opens {
      var entered := Nest(id + 1, n.stack + [Comp(id, role, Opened)]);
      assert Step(n, Open(id, role)) == entered;
      RunOne(n, Open(id, role));
      if !c.symbols || !c.creates {
        RunAppend(n, [Open(id, role)], [Close(id)]);
        RunOne(entered, Close(id));
        assert (n.stack + [Comp(id, role, Opened)])[..|n.stack|] == n.stack;
      } else {
        var created := Nest(id + 1, n.stack + [Comp(id, role, Created)]);
        assert Step(entered, Create(id)) == created;
        AfterCreate(n.stack, role, c, id);
        var rest := InstanceCalls(role, c, id);
        RunAppend(n, [Open(id, role)], [Create(id)] + rest);
        RunAppend(entered, [Create(id)], rest);
        RunOne(entered, Create(id));
      }
    }
  }

  lemma AfterCreate(below: seq<Comp>, role: Role, c: Component, id: nat)
    ensures var created := Nest(id + 1, below + [Comp(id, role, Created)]);
            Run(created, InstanceCalls(role, c, id))
            == Nest(id + 1, if Suitable(role, c) && c.initResult == 0 then below + [Comp(id, role, Ready)] else below)
  {
    var created := Nest(id + 1, below + [Comp(id, role, Created)]);
    if !Suitable(role, c) {
      var destroyed := Nest(id + 1, below + [Comp(id, role, Destroyed)]);
      assert Step(created, Destroy(id)) == destroyed;
      assert Step(destroyed, Close(id)) == Nest(id + 1, below);
      assert [Destroy(id), Close(id)] == [Destroy(id)] + [Close(id)];
      RunAppend(created, [Destroy(id)], [Close(id)]);
      RunOne(created, Destroy(id));
      RunOne(destroyed, Close(id));
    } else {
      var started := Nest(id + 1, below + [Comp(id, role, if c.initResult == 0 then Ready else Failed)]);
      assert Step(created, Init(id, c.initResult == 0)) == started;
      RunOne(created, Init(id, c.initResult == 0));
      if c.initResult != 0 {
        RunAppend(created, [Init(id, false)], TearDown(role, id));
        TearDownPops(started, role, id, Failed);
      } else {
        assert [Init(id, true)] + [] == [Init(id, true)];
      }
    }
  }
}
