/** The chain of post-processors (plugin/postprocessor_chain.cpp). */
module ProcessorChain {
  import opened Components
  import opened Lifecycle
  import opened PluginLoader

  function Readies(ids: seq<nat>): seq<Comp> {
    seq(|ids|, i requires 0 <= i < |ids| => Comp(ids[i], Processor, Ready))
  }

  /** Taking down in reverse order of loading. */
  function TearDownAll(ids: seq<nat>): seq<Event> {
    if ids == [] then [] else TearDown(Processor, ids[|ids| - 1]) + TearDownAll(ids[..|ids| - 1])
  }

  datatype ChainRun = ChainRun(calls: seq<Event>, loaded: seq<nat>, result: int, next: nat)

  /** What loading a list does after some components are loaded: disabled ones are passed over, the first failure undoes all. */
  function LoadChain(cs: seq<Component>, next: nat, loaded: seq<nat>): ChainRun
    decreases |cs|
  {
    if cs == [] then ChainRun([], loaded, 0, next)
    else if !cs[0].enabled then LoadChain(cs[1..], next, loaded)
    else
      var calls, result := LoadCalls(Processor, cs[0], next), LoadResult(Processor, cs[0]);
      if result != 0 then
        ChainRun(calls + TearDownAll(loaded), [], result, next + if cs[0].opens then 1 else 0)
      else
        var rest := LoadChain(cs[1..], next + 1, loaded + [next]);
        rest.(calls := calls + rest.calls)
  }

  /** A frame for each of some components. */
  function Feeds(ids: seq<nat>): (calls: seq<Event>)
    ensures |calls| == |ids| && forall i | 0 <= i < |ids| :: calls[i] == Feed(ids[i])
  {
    seq(|ids|, i requires 0 <= i < |ids| => Feed(ids[i]))
  }

  /** The track ids of a frame's objects, which the processors may set. */
  class Frame {
    var ids: seq<int>

    constructor (ids: seq<int>)
      ensures this.ids == ids
    {
      this.ids := ids;
    }
  }

  /** A processor's return code, and the track ids as it leaves them. */
  datatype Answer = Answer(code: int, ids: seq<int>)

  /** What one processor makes of a frame with given track ids. */
  type Processing = seq<int> -> Answer

  /** What all of them make of it, and how many were given the frame. */
  datatype Processed = Processed(code: int, ids: seq<int>, fed: nat)

  function Later(done: Processed, k: nat): Processed { done.(fed := done.fed + k) }

  function ProcessAll(answers: seq<Processing>, ids: seq<int>): (done: Processed)
    ensures done.fed <= |answers|
    decreases |answers|
  {
    if answers == [] then Processed(0, ids, 0)
    else
      var answer := answers[0](ids);
      if answer.code != 0 then Processed(answer.code, answer.ids, 1)
      else Later(ProcessAll(answers[1..], answer.ids), 1)
  }

  /**
   Each processor is given the ids as the one before it left them, the first one that fails is the last
   to be given any, and its code is the chain's.
   */
  ghost predicate InOrder(answers: seq<Processing>, states: seq<seq<int>>, code: int) {
    && 0 < |states| <= |answers| + 1
    && (forall k | 0 <= k < |states| - 1 :: answers[k](states[k]).ids == states[k + 1])
    && (forall k | 0 <= k < |states| - 2 :: answers[k](states[k]).code == 0)
    && (if code == 0
        then |states| == |answers| + 1 && (answers != [] ==> answers[|answers| - 1](states[|answers| - 1]).code == 0)
        else 1 < |states| && answers[|states| - 2](states[|states| - 2]).code == code)
  }

  lemma {:induction false} ProcessedInOrder(answers: seq<Processing>, ids: seq<int>) returns (states: seq<seq<int>>)
    ensures var done := ProcessAll(answers, ids);
            && InOrder(answers, states, done.code) && states[0] == ids
            && |states| == done.fed + 1 && states[done.fed] == done.ids
    decreases |answers|
  {
    if answers == [] {
      return [ids];
    }
    var answer := answers[0](ids);
    if answer.code != 0 {
      return [ids, answer.ids];
    }
    var rest := ProcessedInOrder(answers[1..], answer.ids);
    states := [ids] + rest;
    forall k | 0 <= k < |states| - 1 ensures answers[k](states[k]).ids == states[k + 1] {
      if k > 0 { assert answers[k] == answers[1..][k - 1] && states[k] == rest[k - 1]; }
    }
    forall k | 0 <= k < |states| - 2 ensures answers[k](states[k]).code == 0 {
      if k > 0 { assert answers[k] == answers[1..][k - 1] && states[k] == rest[k - 1]; }
    }
  }

  predicate Loads(c: Component) { !c.enabled || LoadResult(Processor, c) == 0 }

  function Enabled(cs: seq<Component>): nat
    decreases |cs|
  {
    if cs == [] then 0 else (if cs[0].enabled then 1 else 0) + Enabled(cs[1..])
  }

  lemma {:induction false} TearDownAllEmpties(n: Nest, ids: seq<nat>)
    requires n.Nest? && n.stack == Readies(ids)
    ensures Run(n, TearDownAll(ids)) == n.(stack := [])
    decreases |ids|
  {
    if ids != [] {
      var last, init := ids[|ids| - 1], ids[..|ids| - 1];
      assert Top(n.stack) == Comp(last, Processor, Ready);
      TearDownPops(n, Processor, last, Ready);
      assert n.stack[..|n.stack| - 1] == Readies(init);
      RunAppend(n, TearDown(Processor, last), TearDownAll(init));
      TearDownAllEmpties(n.(stack := Readies(init)), init);
    }
  }

  /** Loading a list is in order for every outcome, and leaves exactly the loaded components. */
  lemma {:induction false} ChainKeepsNesting(cs: seq<Component>, next: nat, loaded: seq<nat>)
    ensures var r := LoadChain(cs, next, loaded);
            Run(Nest(next, Readies(loaded)), r.calls) == Nest(r.next, Readies(r.loaded))
    decreases |cs|
  {
    hide LoadCalls, TearDownAll, Step;
    if cs != [] {
      if !cs[0].enabled {
        ChainKeepsNesting(cs[1..], next, loaded);
      } else {
        var n := Nest(next, Readies(loaded));
        var calls := LoadCalls(Processor, cs[0], next);
        LoadKeepsNesting(n, Processor, cs[0]);
        if LoadResult(Processor, cs[0]) != 0 {
          RunAppend(n, calls, TearDownAll(loaded));
          TearDownAllEmpties(Run(n, calls), loaded);
        } else {
          assert Readies(loaded + [next]) == Readies(loaded) + [Comp(next, Processor, Ready)];
          RunAppend(n, calls, LoadChain(cs[1..], next + 1, loaded + [next]).calls);
          ChainKeepsNesting(cs[1..], next + 1, loaded + [next]);
        }
      }
    }
  }

  /** The chain loads when every enabled component does; otherwise nothing stays and the first failure is returned. */
  lemma {:induction false} ChainResult(cs: seq<Component>, next: nat, loaded: seq<nat>) returns (bad: nat)
    ensures var r := LoadChain(cs, next, loaded);
            && (r.result == 0 <==> forall i | 0 <= i < |cs| :: Loads(cs[i]))
            && (r.result == 0 <==> AllStart(cs))
            && (r.result == 0 ==> |r.loaded| == |loaded| + Enabled(cs))
            && (r.result != 0 ==> r.loaded == [] && bad < |cs| && cs[bad].enabled
                                  && r.result == LoadResult(Processor, cs[bad])
                                  && forall i | 0 <= i < bad :: Loads(cs[i]))
    decreases |cs|
  {
    bad := 0;
    if cs != [] {
      var step := if cs[0].enabled then 1 else 0;
      ResultMeans(Processor, cs[0]);
      if Loads(cs[0]) {
        var later := ChainResult(cs[1..], next + step, if cs[0].enabled then loaded + [next] else loaded);
        bad := later + 1;
        assert forall i | 0 < i < |cs| :: cs[i] == cs[1..][i - 1];
      }
    }
  }

  predicate AllStart(cs: seq<Component>) {
    forall i | 0 <= i < |cs| :: cs[i].enabled ==> Starts(Processor, cs[i])
  }

  /** The call of Init on the i-th component, when all before it have started and it passes its checks. */
  ghost predicate InitOf(cs: seq<Component>, next: nat, i: nat, e: Event)
    requires i < |cs|
  {
    cs[i].enabled && AllStart(cs[..i]) && PassesChecks(Processor, cs[i])
    && e == Init(next + Enabled(cs[..i]), cs[i].initResult == 0)
  }

  lemma {:induction false} TearDownAllHasNoInit(ids: seq<nat>, e: Event)
    requires e.Init?
    ensures e !in TearDownAll(ids)
  {
    if ids != [] {
      TearDownHasNoInit(Processor, ids[|ids| - 1], e);
      TearDownAllHasNoInit(ids[..|ids| - 1], e);
    }
  }

  /** Loading a list calls Init on exactly the components that pass their checks after all before them started. */
  lemma {:induction false} ChainInits(cs: seq<Component>, next: nat, loaded: seq<nat>, e: Event)
    requires e.Init?
    ensures e in LoadChain(cs, next, loaded).calls <==> exists i: nat :: i < |cs| && InitOf(cs, next, i, e)
    decreases |cs|
  {
    hide LoadCalls, LoadResult, PassesChecks, TearDownAll;
    if cs != [] {
      var step := if cs[0].enabled then 1 else 0;
      ResultMeans(Processor, cs[0]);
      InitCalledWhen(Processor, cs[0], next, e);
      TearDownAllHasNoInit(loaded, e);
      assert AllStart(cs[..0]) && Enabled(cs[..0]) == 0;
      assert InitOf(cs, next, 0, e) <==> cs[0].enabled && e in LoadCalls(Processor, cs[0], next);
      if Loads(cs[0]) {
        ChainInits(cs[1..], next + step, if cs[0].enabled then loaded + [next] else loaded, e);
        var tail, from := cs[1..], next + step;
        forall i: nat | i < |tail| ensures InitOf(tail, from, i, e) <==> InitOf(cs, next, i + 1, e) {
          InitOfTail(cs, next, i, e);
        }
        TailInits(cs, next, tail, from, e);
      } else {
        forall i: nat | 0 < i < |cs| ensures !InitOf(cs, next, i, e) { assert cs[..i][0] == cs[0]; }
      }
    }
  }

  lemma {:induction false} ChainNext(cs: seq<Component>, next: nat, loaded: seq<nat>)
    ensures AllStart(cs) ==> LoadChain(cs, next, loaded).next == next + Enabled(cs)
    decreases |cs|
  {
    if cs != [] && AllStart(cs) {
      ResultMeans(Processor, cs[0]);
      assert forall i | 0 <= i < |cs| - 1 :: cs[1..][i] == cs[i + 1];
      ChainNext(cs[1..], if cs[0].enabled then next + 1 else next, if cs[0].enabled then loaded + [next] else loaded);
    }
    hide LoadCalls, LoadResult, PassesChecks, TearDownAll;
  }

  lemma InitOfTail(cs: seq<Component>, next: nat, i: nat, e: Event)
    requires i + 1 < |cs| && Loads(cs[0])
    ensures InitOf(cs[1..], next + (if cs[0].enabled then 1 else 0), i, e) <==> InitOf(cs, next, i + 1, e)
  {
    ResultMeans(Processor, cs[0]);
    hide LoadResult, PassesChecks, Starts;
    var longer, tail := cs[..i + 1], cs[1..][..i];
    assert longer[1..] == tail && longer[0] == cs[0];
    assert AllStart(longer) <==> AllStart(tail) by {
      assert forall k | 0 < k < |longer| :: longer[k] == tail[k - 1];
      assert forall k | 0 <= k < |tail| :: tail[k] == longer[k + 1];
    }
  }

  lemma TailInits(cs: seq<Component>, next: nat, tail: seq<Component>, from: nat, e: Event)
    requires |cs| == |tail| + 1
    requires forall i: nat | i < |tail| :: InitOf(tail, from, i, e) <==> InitOf(cs, next, i + 1, e)
    ensures (exists i: nat :: i < |cs| && InitOf(cs, next, i, e))
       <==> InitOf(cs, next, 0, e) || exists i: nat :: i < |tail| && InitOf(tail, from, i, e)
  {
    hide InitOf;
    if i: nat :| i < |cs| && InitOf(cs, next, i, e) {
      if i > 0 { assert InitOf(tail, from, i - 1, e); }
    }
  }

  /** A run with calls made before it. */
  function Prefixed(done: seq<Event>, r: ChainRun): ChainRun { r.(calls := done + r.calls) }

  lemma PrefixedIs(done: seq<Event>, r: ChainRun)
    ensures var p := Prefixed(done, r);
            p.calls == done + r.calls && p.loaded == r.loaded && p.result == r.result && p.next == r.next
  {
  }

  lemma ChainEnds(cs: seq<Component>, next: nat, loaded: seq<nat>, done: seq<Event>)
    ensures Prefixed(done, LoadChain(cs[|cs|..], next, loaded)) == ChainRun(done, loaded, 0, next)
  {
  }

  lemma ChainStep(cs: seq<Component>, i: nat, next: nat, loaded: seq<nat>, done: seq<Event>)
    requires i < |cs|
    ensures var calls, result := LoadCalls(Processor, cs[i], next), LoadResult(Processor, cs[i]);
            Prefixed(done, LoadChain(cs[i..], next, loaded))
            == if !cs[i].enabled then Prefixed(done, LoadChain(cs[i + 1..], next, loaded))
               else if result != 0 then
                 ChainRun(done + (calls + TearDownAll(loaded)), [], result, next + if cs[i].opens then 1 else 0)
               else Prefixed(done + calls, LoadChain(cs[i + 1..], next + 1, loaded + [next]))
    ensures LoadResult(Processor, cs[i]) == 0 ==> cs[i].opens
  {
    assert cs[i..][0] == cs[i] && cs[i..][1..] == cs[i + 1..];
    hide LoadCalls, TearDownAll;
  }

  class PostProcessorChain {
    const platform: Platform
    var loaded: seq<nat>
    var lastError: bool

    constructor (platform: Platform)
      ensures this.platform == platform && loaded == []
    {
      this.platform, loaded, lastError := platform, [], false;
    }

    method Unload()
      modifies this`loaded, platform`trace
      ensures loaded == [] && platform.trace == old(platform.trace) + TearDownAll(old(loaded))
    {
      var i := |loaded|;
      ghost var ids, was := loaded, platform.trace;
      assert ids[..i] == ids && TearDownAll(ids[..0]) == [];
      while i > 0
        invariant 0 <= i <= |ids| && loaded == ids
        invariant was + TearDownAll(ids) == platform.trace + TearDownAll(ids[..i])
      {
        i := i - 1;
        ghost var before := platform.trace;
        platform.Call(Shutdown(loaded[i]));
        platform.Call(Destroy(loaded[i]));
        platform.Call(Close(loaded[i]));
        assert ids[..i + 1][..i] == ids[..i];
        assert platform.trace == before + TearDown(Processor, ids[i]);
      }
      loaded := [];
    }

    /** Load one more component, or take everything down. */
    method LoadNext(config: Component) returns (result: int)
      modifies this, platform
      ensures result == LoadResult(Processor, config)
      ensures platform.handles == old(platform.handles) + if config.opens then 1 else 0
      ensures platform.trace
           == old(platform.trace) + if result == 0 then LoadCalls(Processor, config, old(platform.handles))
                                    else LoadCalls(Processor, config, old(platform.handles)) + TearDownAll(old(loaded))
      ensures if result == 0 then loaded == old(loaded + [platform.handles]) && lastError == old(lastError)
              else loaded == [] && lastError
    {
      hide *;
      var handle;
      result, handle := platform.TryLoad(Processor, config);
      if result != 0 {
        lastError := true;
        Unload();
        return;
      }
      loaded := loaded + [handle.value];
    }

    /** Replace the chain. On the first failure everything is taken down again. */
    method Load(configs: seq<Component>) returns (result: int)
      modifies this, platform
      ensures var r := LoadChain(configs, old(platform.handles), []);
              && result == r.result && loaded == r.loaded && platform.handles == r.next
              && platform.trace == old(platform.trace) + TearDownAll(old(loaded)) + r.calls
              && (lastError <==> result != 0)
      ensures result == 0 <==> AllStart(configs)
    {
      ghost var bad := ChainResult(configs, platform.handles, []);
      Unload();
      lastError := false;
      ghost var was, start := platform.trace, platform.handles;
      hide *;
      for i := 0 to |configs|
        invariant !lastError
        invariant Prefixed(platform.trace, LoadChain(configs[i..], platform.handles, loaded))
               == Prefixed(was, LoadChain(configs, start, []))
      {
        ChainStep(configs, i, platform.handles, loaded, platform.trace);
        if configs[i].enabled {
          result := LoadNext(configs[i]);
          if result != 0 {
            PrefixedIs(was, LoadChain(configs, start, []));
            return;
          }
        }
      }
      ChainEnds(configs, platform.handles, loaded, platform.trace);
      PrefixedIs(was, LoadChain(configs, start, []));
      return 0;
    }

    /** A frame for every processor in order of loading, up to the first that fails. */
    method Process(frame: Frame, answers: seq<Processing>) returns (result: int)
      requires |answers| == |loaded|
      modifies this`lastError, platform`trace, frame
      ensures var done := ProcessAll(answers, old(frame.ids));
              && result == done.code && frame.ids == done.ids
              && platform.trace == old(platform.trace) + Feeds(loaded[..done.fed])
      ensures lastError <==> result != 0
    {
      lastError := false;
      ghost var was, ids := platform.trace, frame.ids;
      for k := 0 to |loaded|
        invariant !lastError && loaded == old(loaded)
        invariant platform.trace == was + Feeds(loaded[..k])
        invariant Later(ProcessAll(answers[k..], frame.ids), k) == ProcessAll(answers, ids)
      {
        platform.Call(Feed(loaded[k]));
        assert Feeds(loaded[..k + 1]) == Feeds(loaded[..k]) + [Feed(loaded[k])];
        assert answers[k..][1..] == answers[k + 1..];
        var answer := answers[k](frame.ids);
        frame.ids := answer.ids;
        if answer.code != 0 {
          lastError := true;
          return answer.code;
        }
      }
      return 0;
    }
  }
}
