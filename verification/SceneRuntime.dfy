/**
 The runtime of one scene (plugin/scene_runtime.cpp): a chain of post-processors below a business
 plugin. Whatever the libraries answer, its calls stay well nested.
 */
module SceneRuntime {
  import opened Components
  import opened Lifecycle
  import opened Options
  import opened PluginLoader
  import opened ProcessorChain

  datatype Stage = Ok | PostProcessorStage | BusinessStage

  /** What Init returns: the first failing enabled processor's status, else the business plugin's. */
  ghost predicate InitReturns(result: int, host: bool, processors: seq<Component>, business: Component) {
    if forall i | 0 <= i < |processors| :: Loads(processors[i]) then
      result == if host then LoadResult(Business, business) else -1
    else
      exists bad: nat ::
        && bad < |processors| && !Loads(processors[bad])
        && result == LoadResult(Processor, processors[bad])
        && forall i | 0 <= i < bad :: Loads(processors[i])
  }

  ghost function Mounted(loaded: seq<nat>, plugin: Option<nat>): seq<Comp> {
    Readies(loaded) + if plugin.Some? then [Comp(plugin.value, Business, Ready)] else []
  }

  /** Taking down everything, the business plugin first. */
  function DownCalls(loaded: seq<nat>, plugin: Option<nat>): seq<Event> {
    (if plugin.Some? then TearDown(Business, plugin.value) else []) + TearDownAll(loaded)
  }

  /** The calls of a start: the chain, then the business plugin, and on its failure the chain taken down. */
  function InitCalls(host: bool, processors: seq<Component>, scene: Component, next: nat): seq<Event> {
    var chain := LoadChain(processors, next, []);
    if chain.result != 0 then chain.calls
    else if !host then chain.calls + TearDownAll(chain.loaded)
    else if LoadResult(Business, scene) == 0 then chain.calls + LoadCalls(Business, scene, chain.next)
    else chain.calls + LoadCalls(Business, scene, chain.next) + TearDownAll(chain.loaded)
  }

  /** A scene starts exactly when there is a host and everything enabled starts. */
  lemma InitMeans(result: int, host: bool, processors: seq<Component>, business: Component)
    requires InitReturns(result, host, processors, business)
    ensures result == 0 <==> host && AllStart(processors) && Starts(Business, business)
  {
    forall i | 0 <= i < |processors| ensures Loads(processors[i]) <==> (processors[i].enabled ==> Starts(Processor, processors[i])) {
      ResultMeans(Processor, processors[i]);
    }
    ResultMeans(Business, business);
    hide LoadResult, Starts;
  }

  /**
   Of all the calls of a start Init is made on exactly the instances that pass their checks after every
   processor before them has started, the business plugin's only with a host.
   */
  lemma StartInits(host: bool, processors: seq<Component>, scene: Component, next: nat, e: Event)
    requires e.Init?
    ensures e in InitCalls(host, processors, scene, next) <==>
              || (exists i: nat :: i < |processors| && InitOf(processors, next, i, e))
              || (host && AllStart(processors) && PassesChecks(Business, scene)
                  && e == Init(next + Enabled(processors), scene.initResult == 0))
  {
    var chain := LoadChain(processors, next, []);
    ChainInits(processors, next, [], e);
    var bad := ChainResult(processors, next, []);
    ChainNext(processors, next, []);
    InitCalledWhen(Business, scene, chain.next, e);
    TearDownAllHasNoInit(chain.loaded, e);
    hide LoadChain, LoadCalls, TearDownAll, PassesChecks, Starts, InitOf, LoadResult, Enabled;
  }

  lemma DownEmpties(n: Nest, loaded: seq<nat>, plugin: Option<nat>)
    requires n.Nest? && n.stack == Mounted(loaded, plugin)
    ensures Run(n, DownCalls(loaded, plugin)) == n.(stack := [])
  {
    if plugin.Some? {
      assert n.stack[..|n.stack| - 1] == Readies(loaded);
      TearDownPops(n, Business, plugin.value, Ready);
      RunAppend(n, TearDown(Business, plugin.value), TearDownAll(loaded));
      TearDownAllEmpties(n.(stack := Readies(loaded)), loaded);
    } else {
      assert [] + TearDownAll(loaded) == TearDownAll(loaded);
      TearDownAllEmpties(n, loaded);
    }
  }

  lemma DownChain(loaded: seq<nat>)
    ensures DownCalls(loaded, None) == TearDownAll(loaded) && TearDownAll([]) == []
  {
    assert [] + TearDownAll(loaded) == TearDownAll(loaded);
  }

  /** The calls of a start in the order they are added to the trace. */
  lemma StartCalls(was: seq<Event>, host: bool, processors: seq<Component>, scene: Component, next: nat)
    ensures var chain := LoadChain(processors, next, []);
            var calls := if host then LoadCalls(Business, scene, chain.next) else [];
            var result := if host then LoadResult(Business, scene) else -1;
            was + InitCalls(host, processors, scene, next)
            == if chain.result != 0 then (was + chain.calls) + DownCalls([], None)
               else if result != 0 then ((was + chain.calls) + calls) + DownCalls(chain.loaded, None)
               else (was + chain.calls) + calls
  {
    var chain := LoadChain(processors, next, []);
    DownChain([]);
    DownChain(chain.loaded);
    hide LoadChain, LoadCalls, TearDownAll, LoadResult, TearDown, DownCalls;
  }

  lemma {:induction false} FeedsKeep(n: Nest, ids: seq<nat>)
    requires n.Nest? && forall k | 0 <= k < |ids| :: Comp(ids[k], Processor, Ready) in n.stack
    ensures Run(n, Feeds(ids)) == n
    decreases |ids|
  {
    if ids != [] {
      assert Feeds(ids)[0] == Feed(ids[0]) && Feeds(ids)[1..] == Feeds(ids[1..]);
      assert Comp(ids[0], Processor, Ready) in n.stack;
      FeedsKeep(n, ids[1..]);
    }
  }

  /** The ids of n objects that have none. */
  function Cleared(n: nat): seq<int> { seq(n, _ => -1) }

  /** Who is given a frame: the processors that were, and the business plugin after all of them. */
  function FrameCalls(loaded: seq<nat>, plugin: Option<nat>, done: Processed): seq<Event>
    requires done.fed <= |loaded|
  {
    Feeds(loaded[..done.fed]) + if done.code == 0 && plugin.Some? then [Feed(plugin.value)] else []
  }

  function FrameReturns(done: Processed, businessAnswer: int): (Stage, int) {
    if done.code != 0 then (PostProcessorStage, done.code)
    else if businessAnswer != 0 then (BusinessStage, businessAnswer)
    else (Ok, 0)
  }

  lemma FrameUnfolds(loaded: seq<nat>, plugin: Option<nat>, done: Processed, businessAnswer: int)
    requires done.fed <= |loaded|
    ensures FrameCalls(loaded, plugin, done)
         == Feeds(loaded[..done.fed]) + if done.code == 0 && plugin.Some? then [Feed(plugin.value)] else []
    ensures FrameReturns(done, businessAnswer)
         == if done.code != 0 then (PostProcessorStage, done.code)
            else (if businessAnswer != 0 then BusinessStage else Ok, businessAnswer)
  {
  }

  class Runtime {
    const platform: Platform
    const postprocessors: PostProcessorChain
    const business: PluginManager

    /** The trace is well nested, and what is open is what the runtime holds, ready. */
    ghost predicate Valid()
      reads this, platform, postprocessors, business
    {
      && postprocessors.platform == platform && business.platform == platform && business.Valid()
      && Nesting(platform.trace) == Nest(platform.handles, Mounted(postprocessors.loaded, business.plugin))
    }

    constructor ()
      ensures Valid() && fresh(platform) && fresh(postprocessors) && fresh(business)
      ensures Nesting(platform.trace).stack == []
    {
      var p := new Platform();
      platform := p;
      postprocessors := new PostProcessorChain(p);
      business := new PluginManager(p);
    }

    /** After a shutdown nothing is open. */
    method Shutdown()
      requires Valid()
      modifies platform`trace, postprocessors`loaded, business
      ensures Valid() && Nesting(platform.trace).stack == []
      ensures postprocessors.loaded == [] && business.plugin == None
      ensures platform.trace == old(platform.trace) + DownCalls(old(postprocessors.loaded), old(business.plugin))
    {
      ghost var was, loaded, plugin := platform.trace, postprocessors.loaded, business.plugin;
      business.Unload();
      postprocessors.Unload();
      assert platform.trace == was + DownCalls(loaded, plugin);
      NestingAppend(was, DownCalls(loaded, plugin));
      DownEmpties(Nesting(was), loaded, plugin);
    }

    /** A scene starts with all its enabled components, or with none: a failed Init leaves nothing open. */
    method Init(host: bool, processors: seq<Component>, scene: Component) returns (result: int)
      requires Valid()
      modifies platform, postprocessors, business
      ensures Valid() && InitReturns(result, host, processors, scene)
      ensures result == 0 <==> host && AllStart(processors) && Starts(Business, scene)
      ensures if result == 0 then |postprocessors.loaded| == Enabled(processors) && business.plugin.Some?
              else Nesting(platform.trace).stack == []
      ensures platform.trace
           == old(platform.trace) + DownCalls(old(postprocessors.loaded), old(business.plugin))
              + InitCalls(host, processors, scene, old(platform.handles))
    {
      Shutdown();
      hide *;
      result := Start(host, processors, scene);
      InitMeans(result, host, processors, scene);
    }

    method Start(host: bool, processors: seq<Component>, scene: Component) returns (result: int)
      requires Valid() && postprocessors.loaded == [] && business.plugin == None
      modifies platform, postprocessors, business
      ensures Valid() && InitReturns(result, host, processors, scene)
      ensures if result == 0 then |postprocessors.loaded| == Enabled(processors) && business.plugin.Some?
              else Nesting(platform.trace).stack == []
      ensures platform.trace == old(platform.trace) + InitCalls(host, processors, scene, old(platform.handles))
    {
      ghost var was, chain := platform.trace, LoadChain(processors, platform.handles, []);
      ghost var calls := if host then LoadCalls(Business, scene, chain.next) else [];
      StartCalls(was, host, processors, scene, platform.handles);
      hide LoadCalls, LoadChain, TearDownAll, TearDown, Nesting, Mounted, DownCalls, InitCalls, Enabled, LoadResult, Loads;
      result := LoadProcessors(processors);
      if result != 0 {
        assert platform.trace == was + chain.calls;
        Shutdown();
        return;
      }
      result := LoadBusiness(host, scene);
      if result != 0 {
        assert platform.trace == (was + chain.calls) + calls;
        Shutdown();
        return;
      }
    }

    method LoadProcessors(processors: seq<Component>) returns (result: int)
      requires Valid() && postprocessors.loaded == [] && business.plugin == None
      modifies platform, postprocessors
      ensures Valid() && business.plugin == None
      ensures result == 0 <==> forall i | 0 <= i < |processors| :: Loads(processors[i])
      ensures result != 0 ==> InitReturns(result, false, processors, Component(true, 0, false, false, false, false, 0, 0))
      ensures if result == 0 then |postprocessors.loaded| == Enabled(processors) else postprocessors.loaded == []
      ensures var r := LoadChain(processors, old(platform.handles), []);
              && platform.trace == old(platform.trace) + r.calls && platform.handles == r.next
              && postprocessors.loaded == r.loaded && result == r.result
    {
      ghost var was, next := platform.trace, platform.handles;
      result := postprocessors.Load(processors);
      ghost var r := LoadChain(processors, next, []);
      assert TearDownAll([]) == [] && was + [] + r.calls == was + r.calls;
      NestingAppend(was, r.calls);
      assert Readies([]) == [] && Mounted([], None) == Readies([]);
      ChainKeepsNesting(processors, next, []);
      assert Mounted(r.loaded, None) == Readies(r.loaded);
      var bad := ChainResult(processors, next, []);
    }

    method LoadBusiness(host: bool, scene: Component) returns (result: int)
      requires Valid() && business.plugin == None
      modifies platform, business
      ensures Valid() && result == (if host then LoadResult(Business, scene) else -1)
      ensures business.plugin.Some? <==> result == 0
      ensures postprocessors.loaded == old(postprocessors.loaded)
      ensures platform.trace
           == old(platform.trace) + if host then LoadCalls(Business, scene, old(platform.handles)) else []
    {
      ghost var was, n := platform.trace, Nesting(platform.trace);
      ghost var calls := if host then LoadCalls(Business, scene, platform.handles) else [];
      result := business.Load(host, scene);
      assert platform.trace == was + calls;
      NestingAppend(was, calls);
      LoadKeepsNesting(n, Business, scene);
    }

    /**
     A frame: the track ids are cleared before anything else, the processors run in order up to the first
     that fails, and the business plugin gets the frame only when none did.
     */
    method Process(frame: Frame, answers: seq<Processing>, businessAnswer: int) returns (stage: Stage, code: int)
      requires Valid() && |answers| == |postprocessors.loaded|
      modifies frame, platform`trace, postprocessors`lastError
      ensures Valid() && postprocessors.loaded == old(postprocessors.loaded) && business.plugin == old(business.plugin)
      ensures var done := ProcessAll(answers, Cleared(|old(frame.ids)|));
              && frame.ids == done.ids
              && platform.trace == old(platform.trace) + FrameCalls(postprocessors.loaded, business.plugin, done)
              && (stage, code) == FrameReturns(done, if business.plugin.Some? then businessAnswer else -1)
    {
      ghost var was := platform.trace;
      ClearIds(frame);
      ghost var done := ProcessAll(answers, frame.ids);
      code := FeedProcessors(frame, answers);
      hide *;
      FrameUnfolds(postprocessors.loaded, business.plugin, done, if business.plugin.Some? then businessAnswer else -1);
      if code != 0 {
        return PostProcessorStage, code;
      }
      code := FeedBusiness(businessAnswer);
      return if code != 0 then BusinessStage else Ok, code;
    }

    method ClearIds(frame: Frame)
      modifies frame
      ensures frame.ids == Cleared(|old(frame.ids)|)
    {
      ghost var n := |frame.ids|;
      for i := 0 to |frame.ids|
        invariant |frame.ids| == n && frame.ids[..i] == Cleared(i)
      {
        frame.ids := frame.ids[i := -1];
        assert frame.ids[..i + 1] == frame.ids[..i] + [-1] == Cleared(i + 1);
      }
      assert frame.ids == frame.ids[..n];
    }

    method FeedProcessors(frame: Frame, answers: seq<Processing>) returns (code: int)
      requires Valid() && |answers| == |postprocessors.loaded|
      modifies frame, platform`trace, postprocessors`lastError
      ensures Valid()
      ensures var done := ProcessAll(answers, old(frame.ids));
              && code == done.code && frame.ids == done.ids
              && platform.trace == old(platform.trace) + Feeds(postprocessors.loaded[..done.fed])
    {
      ghost var was, n := platform.trace, Nesting(platform.trace);
      ghost var loaded, fed := postprocessors.loaded, ProcessAll(answers, frame.ids).fed;
      code := postprocessors.Process(frame, answers);
      NestingAppend(was, Feeds(loaded[..fed]));
      forall k | 0 <= k < fed ensures Comp(loaded[..fed][k], Processor, Ready) in n.stack {
        assert n.stack[k] == Comp(loaded[k], Processor, Ready);
      }
      FeedsKeep(n, loaded[..fed]);
    }

    method FeedBusiness(answer: int) returns (code: int)
      requires Valid()
      modifies platform`trace
      ensures Valid() && code == if business.plugin.Some? then answer else -1
      ensures platform.trace == old(platform.trace) + if business.plugin.Some? then [Feed(business.plugin.value)] else []
    {
      ghost var was, n := platform.trace, Nesting(platform.trace);
      code := business.OnFrame(answer);
      if business.plugin.Some? {
        assert n.stack[|postprocessors.loaded|] == Comp(business.plugin.value, Business, Ready);
        NestingAppend(was, [Feed(business.plugin.value)]);
        RunOne(n, Feed(business.plugin.value));
      } else {
        assert platform.trace == was;
      }
    }
  }
}
