/** Which hooks initialize and start call, and in which order, told from the registries alone. */
module RuntimeHooks {
  import opened Outcomes
  import opened Runtime
  import opened RuntimeRuns

  // ---- the registries, in their order

  function Modules(w: World): seq<Ext> {
    seq(|w.modules|, i requires 0 <= i < |w.modules| => Module(w.modules[i]))
  }

  function Plugins(w: World): seq<Ext> {
    seq(|w.plugins|, i requires 0 <= i < |w.plugins| => Plugin(w.plugins[i]))
  }

  function Inoplugs(w: World): seq<Ext> {
    seq(|w.inoplugs|, i requires 0 <= i < |w.inoplugs| => Inoplug(w.inoplugs[i]))
  }

  /** What initialize goes through: the watcher's plug-ins come after the watcher, */
  function Initialized(w: World): seq<Ext> {
    Modules(w) + (Plugins(w) + if w.watching then [Watcher] + Inoplugs(w) else [])
  }

  /** and what start goes through: the watcher comes last. */
  function Launched(w: World): seq<Ext> {
    Plugins(w) + if w.watching then Inoplugs(w) + [Watcher] else []
  }

  // ---- what is done for each

  /** The plug-ins among the extensions that are enabled. */
  predicate Enabled(w: World, x: Ext) {
    (x.Plugin? || x.Inoplug?) && w.enabled(x)
  }

  predicate Starts(w: World, x: Ext) {
    x == Watcher || (Enabled(w, x) && w.autostart(x))
  }

  function InitHooks(w: World, x: Ext): seq<Event> {
    [Init(x)] + if Enabled(w, x) then [Registered(x), SafeInit(x)] else []
  }

  /** Extension by extension. */
  function AllInitHooks(w: World, order: seq<Ext>): seq<Event> {
    if order == [] then [] else InitHooks(w, order[0]) + AllInitHooks(w, order[1..])
  }

  function AllStartHooks(w: World, order: seq<Ext>): seq<Event> {
    if order == [] then [] else (if Starts(w, order[0]) then [AtStart(order[0])] else []) + AllStartHooks(w, order[1..])
  }

  lemma {:induction false} InitHooksConcat(w: World, a: seq<Ext>, b: seq<Ext>)
    ensures AllInitHooks(w, a + b) == AllInitHooks(w, a) + AllInitHooks(w, b)
    decreases |a|
  {
    hide InitHooks;
    if a == [] {
      assert a + b == b;
    } else {
      assert (a + b)[1..] == a[1..] + b;
      InitHooksConcat(w, a[1..], b);
    }
  }

  lemma {:induction false} StartHooksConcat(w: World, a: seq<Ext>, b: seq<Ext>)
    ensures AllStartHooks(w, a + b) == AllStartHooks(w, a) + AllStartHooks(w, b)
    decreases |a|
  {
    hide Starts;
    if a == [] {
      assert a + b == b;
    } else {
      assert (a + b)[1..] == a[1..] + b;
      StartHooksConcat(w, a[1..], b);
    }
  }

  lemma EventsConcat(a: seq<Step>, b: seq<Step>)
    ensures Events(a + b) == Events(a) + Events(b)
  {
  }

  // ---- the plans do just that

  function Named(ino: bool, ids: seq<nat>): seq<Ext> {
    seq(|ids|, i requires 0 <= i < |ids| => Name(ino, ids[i]))
  }

  lemma NamedStep(ino: bool, ids: seq<nat>)
    requires ids != []
    ensures Named(ino, ids)[0] == Name(ino, ids[0]) && Named(ino, ids)[1..] == Named(ino, ids[1..])
  {
  }

  lemma {:induction false} PluginsHooks(w: World, ino: bool, ids: seq<nat>)
    ensures Events(PluginsPlan(w, ino, ids)) == AllInitHooks(w, Named(ino, ids))
    decreases |ids|
  {
    if ids != [] {
      var x, more := Name(ino, ids[0]), PluginsPlan(w, ino, ids[1..]);
      var own := [Call(Init(x))] + if w.enabled(x) then [Register(x), Call(SafeInit(x))] else [];
      assert PluginsPlan(w, ino, ids) == own + more;
      PluginsHooks(w, ino, ids[1..]);
      NamedStep(ino, ids);
      EventsConcat(own, more);
      assert Events(own) == InitHooks(w, x);
    }
  }

  lemma {:induction false} StartsHooks(w: World, ino: bool, ids: seq<nat>)
    ensures Events(StartsPlan(w, ino, ids)) == AllStartHooks(w, Named(ino, ids))
    decreases |ids|
  {
    if ids != [] {
      var x, more := Name(ino, ids[0]), StartsPlan(w, ino, ids[1..]);
      var own := if w.enabled(x) && w.autostart(x) then [Call(AtStart(x))] else [];
      assert StartsPlan(w, ino, ids) == own + more;
      StartsHooks(w, ino, ids[1..]);
      NamedStep(ino, ids);
      EventsConcat(own, more);
      assert Events(own) == if Starts(w, x) then [AtStart(x)] else [];
    }
  }

  function NamedModules(ids: seq<nat>): seq<Ext> {
    seq(|ids|, i requires 0 <= i < |ids| => Module(ids[i]))
  }

  lemma {:induction false} ModulesHooks(w: World, ids: seq<nat>)
    ensures Events(ModulesPlan(ids)) == AllInitHooks(w, NamedModules(ids))
    decreases |ids|
  {
    if ids != [] {
      var x, more := Module(ids[0]), ModulesPlan(ids[1..]);
      ModulesHooks(w, ids[1..]);
      assert NamedModules(ids)[1..] == NamedModules(ids[1..]) && NamedModules(ids)[0] == x;
      EventsConcat([Call(Init(x))], more);
      assert Events([Call(Init(x))]) == InitHooks(w, x);
    }
  }

  lemma OneHook(w: World)
    ensures AllInitHooks(w, [Watcher]) == [Init(Watcher)] == Events([Call(Init(Watcher))])
    ensures AllStartHooks(w, [Watcher]) == [AtStart(Watcher)] == Events([Call(AtStart(Watcher))])
    ensures AllInitHooks(w, []) == [] && AllStartHooks(w, []) == [] && Events([]) == []
  {
    assert [Watcher][1..] == [];
  }

  /** What an initialize does that nothing stops, */
  function BootHooks(w: World): seq<Event> {
    (if w.watching then [MakeWatcher, Registered(Watcher), ConfigureWatcher] else []) + AllInitHooks(w, Initialized(w))
  }

  /** and a start. */
  function LaunchHooks(w: World): seq<Event> {
    AllStartHooks(w, Launched(w))
  }

  lemma InitPlanHooks(w: World)
    ensures Events(InitPlan(w)) == BootHooks(w)
  {
    hide PluginsPlan, ModulesPlan, AllInitHooks, Events;
    var modules := ModulesPlan(w.modules);
    var plugins, inoplugs := PluginsPlan(w, false, w.plugins), PluginsPlan(w, true, w.inoplugs);
    ModulesHooks(w, w.modules);
    assert NamedModules(w.modules) == Modules(w);
    PluginsHooks(w, false, w.plugins);
    PluginsHooks(w, true, w.inoplugs);
    assert Named(false, w.plugins) == Plugins(w) && Named(true, w.inoplugs) == Inoplugs(w);
    OneHook(w);
    InitHooksConcat(w, [Watcher], Inoplugs(w));
    EventsConcat([Call(Init(Watcher))], inoplugs);
    var last := if w.watching then [Call(Init(Watcher))] + inoplugs else [];
    var lastXs := if w.watching then [Watcher] + Inoplugs(w) else [];
    InitHooksConcat(w, Plugins(w), lastXs);
    EventsConcat(plugins, last);
    InitHooksConcat(w, Modules(w), Plugins(w) + lastXs);
    EventsConcat(modules, plugins + last);
    WatcherHooks();
    var first := if w.watching then WATCHER_PLAN else [];
    EventsConcat(first, modules + (plugins + last));
    assert InitPlan(w) == first + (modules + (plugins + last));
    assert Events(last) == AllInitHooks(w, lastXs);
    assert Events(plugins + last) == AllInitHooks(w, Plugins(w) + lastXs);
    assert Events(modules + (plugins + last)) == AllInitHooks(w, Initialized(w));
  }

  lemma WatcherHooks()
    ensures Events(WATCHER_PLAN) == [MakeWatcher, Registered(Watcher), ConfigureWatcher]
  {
  }

  lemma StartPlanHooks(w: World)
    ensures Events(StartPlan(w)) == LaunchHooks(w)
  {
    hide StartsPlan, AllStartHooks, Events;
    var plugins, inoplugs := StartsPlan(w, false, w.plugins), StartsPlan(w, true, w.inoplugs);
    StartsHooks(w, false, w.plugins);
    StartsHooks(w, true, w.inoplugs);
    assert Named(false, w.plugins) == Plugins(w) && Named(true, w.inoplugs) == Inoplugs(w);
    OneHook(w);
    StartHooksConcat(w, Inoplugs(w), [Watcher]);
    EventsConcat(inoplugs, [Call(AtStart(Watcher))]);
    StartHooksConcat(w, Plugins(w), if w.watching then Inoplugs(w) + [Watcher] else []);
    EventsConcat(plugins, if w.watching then inoplugs + [Call(AtStart(Watcher))] else []);
  }

  // ---- so, of every run

  /** What the three registries hold, whether the watcher is configured or not. */
  ghost predicate Listed(w: World, x: Ext) {
    match x
    case Module(n) => n in w.modules
    case Plugin(n) => n in w.plugins
    case Inoplug(n) => n in w.inoplugs
    case Watcher => false
  }

  lemma StaleListed(w: World)
    ensures SomeStale(w) <==> exists x :: Listed(w, x) && w.stale(x)
  {
    forall x | Listed(w, x) && w.stale(x) ensures SomeStale(w) {
      match x
      case Module(n) => var i :| 0 <= i < |w.modules| && w.modules[i] == n;
      case Plugin(n) => var i :| 0 <= i < |w.plugins| && w.plugins[i] == n;
      case Inoplug(n) => var i :| 0 <= i < |w.inoplugs| && w.inoplugs[i] == n;
    }
    forall i | 0 <= i < |w.modules| ensures Listed(w, Module(w.modules[i])) {}
    forall i | 0 <= i < |w.plugins| ensures Listed(w, Plugin(w.plugins[i])) {}
    forall i | 0 <= i < |w.inoplugs| ensures Listed(w, Inoplug(w.inoplugs[i])) {}
  }

  /** Of the hooks `all`, the first `n` were called and only the last of them raised; then
      everything registered so far was stopped, whatever the cleanup itself raised. */
  ghost predicate CutAt(w: World, r: Rt, all: seq<Event>, n: nat, r': Rt, error: Error) {
    && 0 < n <= |all|
    && !all[n - 1].Registered? && w.raises(all[n - 1]) && error == Raised(all[n - 1])
    && (forall i :: 0 <= i < n - 1 && !all[i].Registered? ==> !w.raises(all[i]))
    && r' == Rt(Stopped, [], r.trace + all[..n] + Stops(RegisteredIn(r.trace + all[..n])))
  }

  /** An operation that gets to work either calls all its hooks, or is cut short. */
  ghost predicate Works(w: World, r: Rt, all: seq<Event>, next: Phase, r': Rt, error: Option<Error>) {
    || (error == None && r' == Rt(next, RegisteredIn(r.trace + all), r.trace + all))
    || (error.Some? && exists n: nat :: CutAt(w, r, all, n, r', error.value))
  }

  lemma FinishWorks(w: World, r: Rt, plan: seq<Step>, next: Phase)
    requires r.phase != Stopped && next != Stopped && NoStops(plan)
    requires r.callbacks == RegisteredIn(r.trace)
    ensures var (r', error) := Finish(w, r, plan, next);
            Works(w, r, Events(plan), next, r', error)
  {
    var (r', error) := Finish(w, r, plan, next);
    var n := FinishReports(w, r, plan, next);
    RegisteredConcat(r.trace, Exec(w, plan).trace);
    hide RegisteredIn, Stops;
    if error == None {
      ExecStopsAtFirst(w, plan);
    } else {
      assert CutAt(w, r, Events(plan), n, r', error.value);
    }
  }

  lemma NoOtherErrors(w: World, r: Rt, all: seq<Event>, next: Phase, r': Rt, error: Option<Error>)
    requires Works(w, r, all, next, r', error)
    ensures error == None || error.value.Raised?
  {
  }

  /** Initialize, wherever a run has got to. It is refused, and changes nothing, exactly if the
      runtime is not new, there are modules but no registrar, or an extension is not fresh.
      Otherwise it makes and registers the watcher, if it is to watch, and initializes every
      extension in order, each enabled plug-in being registered and then set up. */
  lemma InitializeCalls(w: World, ops: seq<Op>)
    requires DistinctExtensions(w)
    ensures var r := RunOps(w, FRESH, ops);
            var (r', error) := Perform(w, r, InitializeOp);
            var refusal := if r.phase != New then Some(NotNew)
                           else if w.modules != [] && !w.registrar then Some(NoRegistrar)
                           else if exists x :: Listed(w, x) && w.stale(x) then Some(NotFresh) else None;
            if refusal.Some? then r' == r && error == refusal
            else Works(w, r, BootHooks(w), Ready, r', error)
  {
    hide InitPlan, Finish, BootHooks, Works, Paired, Registrations, SomeStale, Listed;
    InvAtFirst(w);
    RunKeeps(w, FRESH, ops);
    StaleListed(w);
    InitPlanHooks(w);
    InitPlanShape(w);
    var r := RunOps(w, FRESH, ops);
    if r.phase == New {
      FinishWorks(w, r, InitPlan(w), Ready);
    }
  }

  /** Start is refused exactly unless the runtime is ready. Otherwise it starts every enabled
      plug-in that starts by itself, in order, and the watcher after its plug-ins. */
  lemma StartCalls(w: World, ops: seq<Op>)
    requires DistinctExtensions(w)
    ensures var r := RunOps(w, FRESH, ops);
            var (r', error) := Perform(w, r, StartOp);
            if r.phase != Ready then r' == r && error == Some(NotReady)
            else Works(w, r, LaunchHooks(w), Running, r', error)
  {
    hide StartPlan, Finish, LaunchHooks, Works, Paired, Registrations;
    InvAtFirst(w);
    RunKeeps(w, FRESH, ops);
    StartPlanHooks(w);
    StartPlanShape(w);
    var r := RunOps(w, FRESH, ops);
    if r.phase == Ready {
      FinishWorks(w, r, StartPlan(w), Running);
    }
  }

  // ---- which hooks those are

  lemma {:induction false} InitHooksMembers(w: World, order: seq<Ext>, x: Ext)
    ensures Init(x) in AllInitHooks(w, order) <==> x in order
    ensures SafeInit(x) in AllInitHooks(w, order) <==> x in order && Enabled(w, x)
    ensures AtStart(x) !in AllInitHooks(w, order) && Stop(x) !in AllInitHooks(w, order)
    decreases |order|
  {
    if order != [] {
      InitHooksMembers(w, order[1..], x);
      assert order == [order[0]] + order[1..];
    }
  }

  lemma {:induction false} StartHooksMembers(w: World, order: seq<Ext>)
    ensures forall e :: e in AllStartHooks(w, order) <==> e.AtStart? && e.x in order && Starts(w, e.x)
    decreases |order|
  {
    if order != [] {
      StartHooksMembers(w, order[1..]);
      assert order == [order[0]] + order[1..];
    }
  }

  lemma RegistryMembers(w: World, x: Ext)
    ensures x in Modules(w) <==> x.Module? && Listed(w, x)
    ensures x in Plugins(w) <==> x.Plugin? && Listed(w, x)
    ensures x in Inoplugs(w) <==> x.Inoplug? && Listed(w, x)
  {
    if x.Module? && Listed(w, x) {
      var i :| 0 <= i < |w.modules| && w.modules[i] == x.n;
      assert Modules(w)[i] == x;
    }
    if x.Plugin? && Listed(w, x) {
      var i :| 0 <= i < |w.plugins| && w.plugins[i] == x.n;
      assert Plugins(w)[i] == x;
    }
    if x.Inoplug? && Listed(w, x) {
      var i :| 0 <= i < |w.inoplugs| && w.inoplugs[i] == x.n;
      assert Inoplugs(w)[i] == x;
    }
  }

  /** An initialize that nothing stops initializes each module and plug-in listed and, if it is
      to watch, the watcher and its plug-ins; and sets up just the enabled plug-ins of those. */
  lemma BootHooksMembers(w: World, x: Ext)
    ensures Init(x) in BootHooks(w) <==>
              ((x.Module? || x.Plugin?) && Listed(w, x))
              || (w.watching && (x == Watcher || (x.Inoplug? && Listed(w, x))))
    ensures SafeInit(x) in BootHooks(w) <==>
              (x.Plugin? || (w.watching && x.Inoplug?)) && Listed(w, x) && w.enabled(x)
    ensures AtStart(x) !in BootHooks(w)
  {
    hide Modules, Plugins, Inoplugs, AllInitHooks, Listed;
    RegistryMembers(w, x);
    InitHooksMembers(w, Initialized(w), x);
  }

  /** It goes through them in order: before what is done for one of them comes all that is done
      for those listed earlier, and nothing else. */
  lemma BootHooksOrder(w: World, i: nat)
    requires i < |Initialized(w)|
    ensures var order := Initialized(w);
            var at := (if w.watching then 3 else 0) + |AllInitHooks(w, order[..i])|;
            && at + |InitHooks(w, order[i])| <= |BootHooks(w)|
            && BootHooks(w)[at..at + |InitHooks(w, order[i])|] == InitHooks(w, order[i])
  {
    hide InitHooks, Initialized;
    var order := Initialized(w);
    assert order == order[..i] + order[i..];
    InitHooksConcat(w, order[..i], order[i..]);
    assert order[i..][0] == order[i];
  }

  lemma {:induction false} StartHooksOrder(w: World, order: seq<Ext>, i: nat, j: nat) returns (a: nat, b: nat)
    requires i < j < |AllStartHooks(w, order)|
    ensures a < b < |order|
    ensures AllStartHooks(w, order)[i] == AtStart(order[a]) && AllStartHooks(w, order)[j] == AtStart(order[b])
    decreases |order|
  {
    var all, rest := AllStartHooks(w, order), AllStartHooks(w, order[1..]);
    if !Starts(w, order[0]) {
      a, b := StartHooksOrder(w, order[1..], i, j);
      a, b := a + 1, b + 1;
    } else if 0 < i {
      a, b := StartHooksOrder(w, order[1..], i - 1, j - 1);
      a, b := a + 1, b + 1;
    } else {
      StartHooksMembers(w, order[1..]);
      assert all[j] == rest[j - 1] && all[j] in rest;
      b :| b < |order[1..]| && order[1..][b] == all[j].x;
      a, b := 0, b + 1;
    }
  }

  /** A start that nothing stops starts just the plug-ins listed, enabled and starting by
      themselves; if it is to watch, the watcher's plug-ins likewise, and the watcher. Each is
      started once, in the order of the registries, the watcher last. */
  lemma LaunchHooksMembers(w: World)
    requires DistinctExtensions(w)
    ensures forall e :: e in LaunchHooks(w) <==>
                          e.AtStart? && var x := e.x;
                          (w.watching && x == Watcher)
                          || ((x.Plugin? || (w.watching && x.Inoplug?))
                              && Listed(w, x) && w.enabled(x) && w.autostart(x))
    ensures NoRepeats(LaunchHooks(w))
    ensures forall i, j :: 0 <= i < j < |LaunchHooks(w)| ==>
                             Earlier(Launched(w), LaunchHooks(w)[i].x, LaunchHooks(w)[j].x)
  {
    hide Plugins, Inoplugs, AllStartHooks, Listed;
    var all, order := LaunchHooks(w), Launched(w);
    StartHooksMembers(w, order);
    forall x ensures x in order <==> (x.Plugin? && Listed(w, x))
                                     || (w.watching && (x == Watcher || (x.Inoplug? && Listed(w, x))))
    {
      RegistryMembers(w, x);
    }
    LaunchedOnce(w);
    forall i, j | 0 <= i < j < |all| ensures all[i] != all[j] && Earlier(order, all[i].x, all[j].x) {
      var a, b := StartHooksOrder(w, order, i, j);
      assert order[a] != order[b];
    }
  }

  lemma LaunchedOnce(w: World)
    requires DistinctExtensions(w)
    ensures NoRepeats(Launched(w))
  {
    DisjointNoRepeats(Inoplugs(w), [Watcher]);
    DisjointNoRepeats(Plugins(w), if w.watching then Inoplugs(w) + [Watcher] else []);
  }

  /** One comes before the other. */
  ghost predicate Earlier(order: seq<Ext>, x: Ext, y: Ext) {
    exists a, b :: 0 <= a < b < |order| && order[a] == x && order[b] == y
  }
}
