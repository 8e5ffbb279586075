/** The business plugin's loader (plugin/plugin_loader.cpp). */
module PluginLoader {
  import opened Components
  import opened Lifecycle
  import opened Options

  /** The dynamic loader and the instances behind it: what is called, in order. */
  class Platform {
    var trace: seq<Event>
    var handles: nat

    constructor ()
      ensures trace == [] && handles == 0
    {
      trace, handles := [], 0;
    }

    method Call(e: Event)
      modifies this`trace
      ensures trace == old(trace) + [e]
    {
      trace := trace + [e];
    }

    /** dlopen: a fresh handle, or none. */
    method DlOpen(role: Role, c: Component) returns (handle: Option<nat>)
      modifies this
      ensures handle == if c.opens then Some(old(handles)) else None
      ensures trace == if c.opens then old(trace) + [Open(old(handles), role)] else old(trace)
      ensures handles == old(handles) + if c.opens then 1 else 0
    {
      handle := None;
      if c.opens {
        handle := Some(handles);
        Call(Open(handles, role));
        handles := handles + 1;
      }
    }

    /** Take down an instance that was never stored: shut it down only if Init was invoked. */
    method DestroyUnloaded(role: Role, id: nat, initInvoked: bool)
      modifies this`trace
      ensures trace == old(trace) + if initInvoked then TearDown(role, id) else [Destroy(id), Close(id)]
    {
      if initInvoked {
        if role == Business {
          Call(Quiesce(id));
        }
        Call(Shutdown(id));
      }
      Call(Destroy(id));
      Call(Close(id));
    }

    /** One load attempt up to the point where the loader would store the instance. */
    method TryLoad(role: Role, c: Component) returns (result: int, handle: Option<nat>)
      modifies this
      ensures result == LoadResult(role, c) && (handle == if result == 0 then Some(old(handles)) else None)
      ensures trace == old(trace) + LoadCalls(role, c, old(handles))
      ensures result == 0 <==> Starts(role, c)
      ensures handles == old(handles) + if c.opens then 1 else 0
    {
      handle := DlOpen(role, c);
      if handle == None {
        return -1, None;
      }
      var id := handle.value;
      if !c.symbols {
        Call(Close(id));
        return -1, None;
      }
      if !c.creates {
        Call(Close(id));
        return -1, None;
      }
      Call(Create(id));
      result := Start(role, c, id);
      handle := if result == 0 then handle else None;
    }

    /** Check a fresh instance and call its Init; whenever that is of no avail take the instance down. */
    method Start(role: Role, c: Component, id: nat) returns (result: int)
      modifies this`trace
      ensures result == if Suitable(role, c) then c.initResult else -1
      ensures trace == old(trace) + InstanceCalls(role, c, id)
    {
      if (role == Business && !c.nameMatches) || c.configVersion != API_VERSION || c.instanceVersion != API_VERSION {
        DestroyUnloaded(role, id, false);
        return -1;
      }
      Call(Init(id, c.initResult == 0));
      if c.initResult != 0 {
        DestroyUnloaded(role, id, true);
      }
      return c.initResult;
    }
  }

  class PluginManager {
    const platform: Platform
    var host: bool
    var plugin: Option<nat>
    var soHandle: Option<nat>

    ghost predicate Valid()
      reads this
    {
      plugin == soHandle && (host <==> plugin.Some?)
    }

    constructor (platform: Platform)
      ensures Valid() && this.platform == platform && plugin == None
    {
      this.platform, host, plugin, soHandle := platform, false, None, None;
    }

    /** Wait for the plugin's jobs, shut it down, destroy it, close its library; nothing when not loaded. */
    method Unload()
      requires Valid()
      modifies this, platform`trace
      ensures Valid() && plugin == None
      ensures platform.trace
           == old(platform.trace) + if old(plugin).Some? then TearDown(Business, old(plugin).value) else []
      ensures old(plugin).Some? ==>
                var id := old(plugin).value;
                platform.trace == old(platform.trace) + [Quiesce(id), Shutdown(id), Destroy(id), Close(id)]
    {
      if plugin.Some? {
        if host {
          platform.Call(Quiesce(plugin.value));
        }
        platform.Call(Shutdown(plugin.value));
        platform.Call(Destroy(plugin.value));
        plugin := None;
      }
      if soHandle.Some? {
        platform.Call(Close(soHandle.value));
        soHandle := None;
      }
      host := false;
    }

    /** Replace the loaded plugin; without a host nothing is opened. */
    method Load(hostGiven: bool, c: Component) returns (result: int)
      requires Valid()
      modifies this, platform
      ensures Valid() && result == (if hostGiven then LoadResult(Business, c) else -1)
      ensures plugin == if result == 0 then Some(old(platform.handles)) else None
      ensures result == 0 <==> hostGiven && Starts(Business, c)
      ensures platform.trace
           == old(platform.trace) + (if old(plugin).Some? then TearDown(Business, old(plugin).value) else [])
              + if hostGiven then LoadCalls(Business, c, old(platform.handles)) else []
      ensures platform.handles == old(platform.handles) + if hostGiven && c.opens then 1 else 0
    {
      Unload();
      if !hostGiven {
        return -1;
      }
      var handle;
      result, handle := platform.TryLoad(Business, c);
      if result == 0 {
        host, plugin, soHandle := true, handle, handle;
      }
    }

    /** A frame for the plugin, which answers with `answer`. */
    method OnFrame(answer: int) returns (result: int)
      modifies platform`trace
      ensures result == if plugin.Some? then answer else -1
      ensures platform.trace == old(platform.trace) + if plugin.Some? then [Feed(plugin.value)] else []
    {
      if plugin == None {
        return -1;
      }
      platform.Call(Feed(plugin.value));
      return answer;
    }
  }
}
