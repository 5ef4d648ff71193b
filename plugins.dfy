/** The plugin hook of server.js: which modules `loadPlugins` keeps, the
    interceptor loop of the chat handler, the admin listing, and the small
    publish/subscribe bus of the plugin API. */
module Plugins {
  import opened Wrappers
  import opened Wire

  /** What `plugin.onChatMessage(messageData, api)` does: return exactly
      `true`, return anything else, or throw. */
  datatype HookResult = ReturnedTrue | ReturnedOther | Threw

  /** `plugin.enabled`: undefined, `true`, `false`, or any other value. */
  datatype EnabledFlag = Unset | SetTrue | SetFalse | SetOther

  /** `plugin.onLoad`: absent, returns, or throws. */
  datatype OnLoad = NoOnLoad | OnLoadReturns | OnLoadThrows

  datatype Plugin = Plugin(
    name: string,
    description: string,
    version: string,
    enabled: EnabledFlag,
    onLoad: OnLoad,
    onChatMessage: Option<ChatRequest -> HookResult>)

  /** A file of the plugin directory; `exported` is None when `require` throws. */
  datatype PluginFile = PluginFile(fileName: string, exported: Option<Plugin>)

  function EndsWith(s: string, suffix: string): bool {
    |suffix| <= |s| && s[|s| - |suffix|..] == suffix
  }

  /** The checks of `loadPlugins` for one file: a `.js` file that loads,
      has a name, is enabled (undefined or exactly `true`) and whose
      `onLoad` does not throw. */
  predicate Admitted(f: PluginFile) {
    && EndsWith(f.fileName, ".js")
    && f.exported.Some?
    && f.exported.value.name != ""
    && (f.exported.value.enabled == Unset || f.exported.value.enabled == SetTrue)
    && f.exported.value.onLoad != OnLoadThrows
  }

  /** The plugins `loadPlugins` keeps, in directory order. */
  function EnabledPlugins(files: seq<PluginFile>): (r: seq<Plugin>)
    ensures |r| <= |files|
    ensures forall i :: 0 <= i < |r| ==>
              r[i].name != "" && r[i].enabled != SetFalse && r[i].enabled != SetOther && r[i].onLoad != OnLoadThrows
  {
    if files == [] then []
    else
      var init := EnabledPlugins(files[..|files| - 1]);
      if Admitted(files[|files| - 1]) then init + [files[|files| - 1].exported.value] else init
  }

  /** A file whose plugin is admitted contributes it, after those of the
      files before it. */
  lemma {:induction false} EnabledPluginsAppend(files: seq<PluginFile>, f: PluginFile)
    ensures EnabledPlugins(files + [f]) == EnabledPlugins(files) + (if Admitted(f) then [f.exported.value] else [])
  {
    assert (files + [f])[..|files|] == files;
  }

  /** `loadPlugins`: the `forEach` over the directory, pushing each kept plugin. */
  method LoadPlugins(files: seq<PluginFile>) returns (loaded: seq<Plugin>)
    ensures loaded == EnabledPlugins(files)
  {
    loaded := [];
    for i := 0 to |files|
      invariant loaded == EnabledPlugins(files[..i])
    {
      EnabledPluginsAppend(files[..i], files[i]);
      assert files[..i + 1] == files[..i] + [files[i]];
      if Admitted(files[i]) {
        loaded := loaded + [files[i].exported.value];
      }
    }
    assert files[..|files|] == files;
  }

  /** A plugin claims a message when its hook returns exactly `true`; one
      without a hook, or whose hook throws, does not. */
  predicate Claims(p: Plugin, req: ChatRequest) {
    p.onChatMessage.Some? && p.onChatMessage.value(req) == ReturnedTrue
  }

  /** Some loaded plugin claims the message. */
  predicate Claimed(plugins: seq<Plugin>, req: ChatRequest) {
    exists i :: 0 <= i < |plugins| && Claims(plugins[i], req)
  }

  /** The interceptor loop of the chat handler: plugins are offered the
      message in order, and the first that claims it stops the loop.
      `consulted` is how many plugins were offered it. */
  method RunInterceptors(plugins: seq<Plugin>, req: ChatRequest) returns (handled: bool, consulted: nat)
    ensures handled <==> Claimed(plugins, req)
    ensures consulted <= |plugins|
    ensures handled ==> 0 < consulted && Claims(plugins[consulted - 1], req)
    ensures forall j :: 0 <= j < consulted - 1 ==> !Claims(plugins[j], req)
    ensures !handled ==> consulted == |plugins|
  {
    handled := false;
    consulted := 0;
    while consulted < |plugins|
      invariant consulted <= |plugins|
      invariant forall j :: 0 <= j < consulted ==> !Claims(plugins[j], req)
    {
      var plugin := plugins[consulted];
      consulted := consulted + 1;
      if plugin.onChatMessage.Some? {
        var result := plugin.onChatMessage.value(req);
        if result == ReturnedTrue {
          handled := true;
          break;
        }
      }
    }
  }

  /** One entry of `GET /admin/plugins`. */
  datatype PluginInfo = PluginInfo(name: string, description: string, version: string, enabled: bool)

  /** `loadedPlugins.map(...)` with `enabled: plugin.enabled !== false`. */
  function ListPlugins(loaded: seq<Plugin>): (r: seq<PluginInfo>)
    ensures |r| == |loaded|
    ensures forall i :: 0 <= i < |r| ==> r[i].name == loaded[i].name && (r[i].enabled <==> loaded[i].enabled != SetFalse)
  {
    seq(|loaded|, i requires 0 <= i < |loaded| =>
      PluginInfo(loaded[i].name, loaded[i].description, loaded[i].version, loaded[i].enabled != SetFalse))
  }

  /** Every plugin that `loadPlugins` keeps is listed as enabled. */
  lemma ListedPluginsEnabled(files: seq<PluginFile>)
    ensures forall i :: 0 <= i < |ListPlugins(EnabledPlugins(files))| ==> ListPlugins(EnabledPlugins(files))[i].enabled
  {
  }

  /** A listener, compared by identity as `l !== listener` does. */
  type Listener = nat

  /** `listeners.filter(l => l !== listener)` */
  function Without(ls: seq<Listener>, l: Listener): (r: seq<Listener>)
    ensures |r| <= |ls|
  {
    if ls == [] then []
    else if ls[|ls| - 1] == l then Without(ls[..|ls| - 1], l)
    else Without(ls[..|ls| - 1], l) + [ls[|ls| - 1]]
  }

  /** `off` removes every registration of the listener and keeps the others. */
  lemma {:induction false} WithoutExact(ls: seq<Listener>, l: Listener, x: Listener)
    ensures x in Without(ls, l) <==> x in ls && x != l
  {
    if ls != [] {
      WithoutExact(ls[..|ls| - 1], l, x);
      assert ls == ls[..|ls| - 1] + [ls[|ls| - 1]];
    }
  }

  /** Removing a listener that is not registered changes nothing. */
  lemma {:induction false} WithoutAbsent(ls: seq<Listener>, l: Listener)
    requires l !in ls
    ensures Without(ls, l) == ls
  {
    if ls != [] {
      WithoutAbsent(ls[..|ls| - 1], l);
      assert ls == ls[..|ls| - 1] + [ls[|ls| - 1]];
    }
  }

  /** `on` then `off` of a fresh listener restores the list. */
  lemma OnThenOff(ls: seq<Listener>, l: Listener)
    requires l !in ls
    ensures Without(ls + [l], l) == ls
  {
    assert (ls + [l])[..|ls|] == ls;
    WithoutAbsent(ls, l);
  }

  /** The names an object literal inherits from `Object.prototype`.  For
      these `_events[name]` is already truthy (a function, or the prototype
      itself for `__proto__`), so `on`, `off` and `emit` reach `.push`,
      `.filter` or `.forEach` on it and throw a TypeError. */
  const InheritedNames: set<string> := {
    "constructor", "toString", "toLocaleString", "valueOf", "hasOwnProperty",
    "isPrototypeOf", "propertyIsEnumerable", "__proto__",
    "__defineGetter__", "__defineSetter__", "__lookupGetter__", "__lookupSetter__"}

  /** `pluginApi._events` with `on`, `off` and `emit`.  Each method reports
      whether it threw; a throw leaves the registrations unchanged. */
  class EventBus {
    var events: map<string, seq<Listener>>

    /** Only `on` creates entries, and never under an inherited name. */
    ghost predicate Valid()
      reads this
    {
      forall name :: name in events ==> name !in InheritedNames
    }

    constructor ()
      ensures Valid() && events == map[]
    {
      events := map[];
    }

    /** The listeners registered for an event, in registration order. */
    function Listeners(eventName: string): seq<Listener>
      reads this
    {
      if eventName in events then events[eventName] else []
    }

    method On(eventName: string, l: Listener) returns (threw: bool)
      requires Valid()
      modifies this
      ensures Valid()
      ensures threw <==> eventName in InheritedNames
      ensures events == if threw then old(events) else old(events)[eventName := old(Listeners(eventName)) + [l]]
    {
      if eventName in InheritedNames {
        return true;
      }
      if eventName !in events {
        events := events[eventName := []];
      }
      events := events[eventName := events[eventName] + [l]];
      threw := false;
    }

    method Off(eventName: string, l: Listener) returns (threw: bool)
      requires Valid()
      modifies this
      ensures Valid()
      ensures threw <==> eventName in InheritedNames
      ensures threw || eventName !in old(events) ==> events == old(events)
      ensures !threw && eventName in old(events) ==> events == old(events)[eventName := Without(old(events)[eventName], l)]
    {
      if eventName in InheritedNames {
        return true;
      }
      threw := false;
      if eventName !in events {
        return;
      }
      events := events[eventName := Without(events[eventName], l)];
    }

    /** `emit`: the listeners called, in the order they are called.  The
        listeners in `throwing` throw when called; the first of them ends the
        `forEach`, and its exception leaves `emit`. */
    method Emit(eventName: string, throwing: set<Listener>) returns (called: seq<Listener>, threw: bool)
      ensures eventName in InheritedNames ==> called == [] && threw
      ensures eventName !in InheritedNames ==>
                var ls := Listeners(eventName);
                && |called| <= |ls| && called == ls[..|called|]
                && (threw <==> exists i :: 0 <= i < |ls| && ls[i] in throwing)
                && (threw ==> 0 < |called| && called[|called| - 1] in throwing)
                && (forall i :: 0 <= i < |called| - 1 ==> called[i] !in throwing)
                && (!threw ==> called == ls)
    {
      called, threw := [], false;
      if eventName in InheritedNames {
        threw := true;
        return;
      }
      if eventName in events {
        var ls := events[eventName];
        var i := 0;
        while i < |ls|
          invariant i <= |ls| && called == ls[..i]
          invariant forall j :: 0 <= j < i ==> ls[j] !in throwing
        {
          called := called + [ls[i]];
          if ls[i] in throwing {
            threw := true;
            return;
          }
          i := i + 1;
        }
        assert ls[..|ls|] == ls;
      }
    }
  }
}
