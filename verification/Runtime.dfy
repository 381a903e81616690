/** The one-shot runtime: initialize, start and stop, with any hook of any extension free to
    raise. What it does is the trace of hooks it calls. */
module Runtime {
  import opened Outcomes

  /** Extensions are distinct objects, named by kind and number. */
  datatype Ext = Module(n: nat) | Plugin(n: nat) | Inoplug(n: nat) | Watcher

  datatype Event =
    | MakeWatcher               // the watcher factory
    | ConfigureWatcher          // the watcher configuration factory
    | Init(x: Ext)
    | SafeInit(x: Ext)
    | AtStart(x: Ext)
    | Registered(x: Ext)        // x's stop callback joins the list
    | Stop(x: Ext)              // x's stop callback runs

  datatype Error = NotNew | NoRegistrar | NotFresh | NotReady | Raised(at: Event)

  datatype Phase = New | Initializing | Ready | Starting | Running | Stopped

  /** What a runtime is built from, and how its extensions behave: `raises` decides, for every
      hook, whether calling it raises. `enabled` and `autostart` are as they are after init. */
  datatype World = World(modules: seq<nat>, plugins: seq<nat>, inoplugs: seq<nat>, watching: bool, registrar: bool,
                         stale: Ext -> bool, enabled: Ext -> bool, autostart: Ext -> bool, raises: Event -> bool)

  datatype Rt = Rt(phase: Phase, callbacks: seq<Ext>, trace: seq<Event>)

  datatype Step = Call(e: Event) | Register(x: Ext)

  datatype Ran = Ran(trace: seq<Event>, error: Option<Error>)

  // ---- plans

  function ModulesPlan(ids: seq<nat>): seq<Step> {
    if ids == [] then [] else [Call(Init(Module(ids[0])))] + ModulesPlan(ids[1..])
  }

  function Name(ino: bool, id: nat): Ext {
    if ino then Inoplug(id) else Plugin(id)
  }

  /** A plug-in is registered before its own safe_init. */
  function PluginsPlan(w: World, ino: bool, ids: seq<nat>): seq<Step> {
    if ids == [] then []
    else
      var x := Name(ino, ids[0]);
      [Call(Init(x))]
      + ((if w.enabled(x) then [Register(x), Call(SafeInit(x))] else []) + PluginsPlan(w, ino, ids[1..]))
  }

  function InitPlan(w: World): seq<Step> {
    (if w.watching then [Call(MakeWatcher), Register(Watcher), Call(ConfigureWatcher)] else [])
    + (ModulesPlan(w.modules) + (PluginsPlan(w, false, w.plugins)
    + (if w.watching then [Call(Init(Watcher))] + PluginsPlan(w, true, w.inoplugs) else [])))
  }

  function StartsPlan(w: World, ino: bool, ids: seq<nat>): seq<Step> {
    if ids == [] then []
    else
      var x := Name(ino, ids[0]);
      (if w.enabled(x) && w.autostart(x) then [Call(AtStart(x))] else []) + StartsPlan(w, ino, ids[1..])
  }

  function StartPlan(w: World): seq<Step> {
    StartsPlan(w, false, w.plugins)
    + if w.watching then StartsPlan(w, true, w.inoplugs) + [Call(AtStart(Watcher))] else []
  }

  /** A plan runs up to and including the first hook that raises. */
  function Exec(w: World, plan: seq<Step>): Ran {
    if plan == [] then Ran([], None)
    else match plan[0]
      case Register(x) => var r := Exec(w, plan[1..]); Ran([Registered(x)] + r.trace, r.error)
      case Call(e) =>
        if w.raises(e) then Ran([e], Some(Raised(e)))
        else var r := Exec(w, plan[1..]); Ran([e] + r.trace, r.error)
  }

  function RegisteredBy(e: Event): seq<Ext> {
    if e.Registered? then [e.x] else []
  }

  function StoppedBy(e: Event): seq<Ext> {
    if e.Stop? then [e.x] else []
  }

  function RegisteredIn(trace: seq<Event>): seq<Ext> {
    if trace == [] then [] else RegisteredBy(trace[0]) + RegisteredIn(trace[1..])
  }

  function StoppedIn(trace: seq<Event>): seq<Ext> {
    if trace == [] then [] else StoppedBy(trace[0]) + StoppedIn(trace[1..])
  }

  function Stops(xs: seq<Ext>): seq<Event> {
    seq(|xs|, i requires 0 <= i < |xs| => Stop(xs[i]))
  }

  /** The error of the first callback that raises. */
  function FirstError(w: World, xs: seq<Ext>): Option<Error> {
    if xs == [] then None
    else if w.raises(Stop(xs[0])) then Some(Raised(Stop(xs[0])))
    else FirstError(w, xs[1..])
  }

  // ---- the three operations

  function StopOf(w: World, r: Rt): (Rt, Option<Error>) {
    if r.phase == Stopped then (r, None)
    else (Rt(Stopped, [], r.trace + Stops(r.callbacks)), FirstError(w, r.callbacks))
  }

  predicate SomeStale(w: World) {
    || (exists i :: 0 <= i < |w.modules| && w.stale(Module(w.modules[i])))
    || (exists i :: 0 <= i < |w.plugins| && w.stale(Plugin(w.plugins[i])))
    || (exists i :: 0 <= i < |w.inoplugs| && w.stale(Inoplug(w.inoplugs[i])))
  }

  /** After a plan: the next phase, or a cleanup whose own errors are swallowed. */
  function Finish(w: World, r: Rt, plan: seq<Step>, next: Phase): (Rt, Option<Error>) {
    var ran := Exec(w, plan);
    var after := Rt(next, r.callbacks + RegisteredIn(ran.trace), r.trace + ran.trace);
    if ran.error == None then (after, None) else (StopOf(w, after).0, ran.error)
  }

  function InitializeOf(w: World, r: Rt): (Rt, Option<Error>) {
    if r.phase != New then (r, Some(NotNew))
    else if w.modules != [] && !w.registrar then (r, Some(NoRegistrar))
    else if SomeStale(w) then (r, Some(NotFresh))
    else Finish(w, r, InitPlan(w), Ready)
  }

  function StartOf(w: World, r: Rt): (Rt, Option<Error>) {
    if r.phase != Ready then (r, Some(NotReady)) else Finish(w, r, StartPlan(w), Running)
  }

  // ---- the runtime object

  lemma {:induction false} RegisteredConcat(a: seq<Event>, b: seq<Event>)
    ensures RegisteredIn(a + b) == RegisteredIn(a) + RegisteredIn(b)
  {
    hide RegisteredBy;
    if a == [] {
      assert a + b == b;
    } else {
      assert (a + b)[1..] == a[1..] + b;
      RegisteredConcat(a[1..], b);
    }
  }

  /** What is done so far, and what `plan` will still do: trace, callbacks and error. */
  function Whole(w: World, trace: seq<Event>, callbacks: seq<Ext>, plan: seq<Step>)
    : (seq<Event>, seq<Ext>, Option<Error>)
  {
    var ran := Exec(w, plan);
    (trace + ran.trace, callbacks + RegisteredIn(ran.trace), ran.error)
  }

  lemma WholeCall(w: World, trace: seq<Event>, callbacks: seq<Ext>, e: Event, plan: seq<Step>)
    requires !e.Registered?
    ensures Whole(w, trace, callbacks, [Call(e)] + plan)
            == if w.raises(e) then (trace + [e], callbacks, Some(Raised(e))) else Whole(w, trace + [e], callbacks, plan)
  {
    assert ([Call(e)] + plan)[1..] == plan;
    var rest := Exec(w, plan).trace;
    RegisteredConcat([e], rest);
    assert RegisteredIn([e]) == [];
    assert [] + RegisteredIn(rest) == RegisteredIn(rest);
    assert callbacks + [] == callbacks;
    assert trace + ([e] + rest) == trace + [e] + rest;
  }

  lemma WholeRegister(w: World, trace: seq<Event>, callbacks: seq<Ext>, x: Ext, plan: seq<Step>)
    ensures Whole(w, trace, callbacks, [Register(x)] + plan)
            == Whole(w, trace + [Registered(x)], callbacks + [x], plan)
  {
    assert ([Register(x)] + plan)[1..] == plan;
    var rest := Exec(w, plan).trace;
    RegisteredConcat([Registered(x)], rest);
    assert RegisteredIn([Registered(x)]) == [x] + [];
    assert trace + ([Registered(x)] + rest) == trace + [Registered(x)] + rest;
    assert callbacks + ([x] + RegisteredIn(rest)) == callbacks + [x] + RegisteredIn(rest);
  }

  lemma WholeNothing(w: World, trace: seq<Event>, callbacks: seq<Ext>)
    ensures Whole(w, trace, callbacks, []) == (trace, callbacks, None)
  {
    assert trace + [] == trace && callbacks + [] == callbacks;
  }

  class DWhoRuntime {
    const w: World
    var phase: Phase
    var callbacks: seq<Ext>
    var trace: seq<Event>

    function Now(): Rt
      reads this
    {
      Rt(phase, callbacks, trace)
    }

    constructor (w: World)
      ensures this.w == w && Now() == Rt(New, [], [])
    {
      this.w := w;
      phase, callbacks, trace := New, [], [];
    }

    ghost function Foreseen(plan: seq<Step>): (seq<Event>, seq<Ext>, Option<Error>)
      reads this
    {
      Whole(w, trace, callbacks, plan)
    }

    lemma NothingForeseen()
      ensures Foreseen([]) == (trace, callbacks, None)
    {
      WholeNothing(w, trace, callbacks);
    }

    /** A hook of an extension. */
    method Hook(e: Event, ghost plan: seq<Step>) returns (error: Option<Error>)
      requires !e.Registered?
      modifies this`trace
      ensures error == if w.raises(e) then Some(Raised(e)) else None
      ensures trace == old(trace) + [e]
      ensures error == None ==> Foreseen(plan) == old(Foreseen([Call(e)] + plan))
      ensures error != None ==> (trace, callbacks, error) == old(Foreseen([Call(e)] + plan))
    {
      hide Whole;
      WholeCall(w, trace, callbacks, e, plan);
      trace := trace + [e];
      return if w.raises(e) then Some(Raised(e)) else None;
    }

    method Append(x: Ext, ghost plan: seq<Step>)
      modifies this`callbacks, this`trace
      ensures callbacks == old(callbacks) + [x] && trace == old(trace) + [Registered(x)]
      ensures Foreseen(plan) == old(Foreseen([Register(x)] + plan))
    {
      hide Whole;
      WholeRegister(w, trace, callbacks, x, plan);
      callbacks, trace := callbacks + [x], trace + [Registered(x)];
    }

    /** The loop over one family of plug-ins. */
    method InitPlugins(ino: bool, ids: seq<nat>, ghost plan: seq<Step>) returns (error: Option<Error>)
      modifies this`callbacks, this`trace
      ensures error == None ==> Foreseen(plan) == old(Foreseen(PluginsPlan(w, ino, ids) + plan))
      ensures error != None ==> (trace, callbacks, error) == old(Foreseen(PluginsPlan(w, ino, ids) + plan))
    {
      hide Foreseen;
      assert ids[0..] == ids;
      for i := 0 to |ids|
        invariant Foreseen(PluginsPlan(w, ino, ids[i..]) + plan) == old(Foreseen(PluginsPlan(w, ino, ids) + plan))
      {
        var x := Name(ino, ids[i]);
        ghost var rest := PluginsPlan(w, ino, ids[i + 1..]) + plan;
        ghost var own := if w.enabled(x) then [Register(x), Call(SafeInit(x))] else [];
        assert ids[i..][0] == ids[i] && ids[i..][1..] == ids[i + 1..];
        assert PluginsPlan(w, ino, ids[i..]) + plan == [Call(Init(x))] + (own + rest);
        error := Hook(Init(x), own + rest);
        if error != None { return; }
        if w.enabled(x) {
          assert own + rest == [Register(x)] + ([Call(SafeInit(x))] + rest);
          Append(x, [Call(SafeInit(x))] + rest);
          error := Hook(SafeInit(x), rest);
          if error != None { return; }
        } else {
          assert own + rest == rest;
        }
      }
      assert ids[|ids|..] == [];
      assert PluginsPlan(w, ino, []) + plan == plan;
      return None;
    }

    /** The body that initialize guards. */
    method Boot() returns (error: Option<Error>)
      modifies this`callbacks, this`trace
      ensures (trace, callbacks, error) == old(Foreseen(InitPlan(w)))
    {
      hide Foreseen, PluginsPlan;
      ghost var last := if w.watching then [Call(Init(Watcher))] + PluginsPlan(w, true, w.inoplugs) else [];
      ghost var afterModules := PluginsPlan(w, false, w.plugins) + last;
      ghost var afterWatcher := ModulesPlan(w.modules) + afterModules;
      if w.watching {
        assert InitPlan(w) == [Call(MakeWatcher)] + ([Register(Watcher)] + ([Call(ConfigureWatcher)] + afterWatcher));
        error := Hook(MakeWatcher, [Register(Watcher)] + ([Call(ConfigureWatcher)] + afterWatcher));
        if error != None { return; }
        Append(Watcher, [Call(ConfigureWatcher)] + afterWatcher);
        error := Hook(ConfigureWatcher, afterWatcher);
        if error != None { return; }
      } else {
        assert InitPlan(w) == afterWatcher;
      }
      assert w.modules[0..] == w.modules;
      for i := 0 to |w.modules|
        invariant Foreseen(ModulesPlan(w.modules[i..]) + afterModules) == old(Foreseen(InitPlan(w)))
      {
        ghost var rest := ModulesPlan(w.modules[i + 1..]) + afterModules;
        assert w.modules[i..][1..] == w.modules[i + 1..];
        assert ModulesPlan(w.modules[i..]) + afterModules == [Call(Init(Module(w.modules[i])))] + rest;
        error := Hook(Init(Module(w.modules[i])), rest);
        if error != None { return; }
      }
      assert w.modules[|w.modules|..] == [];
      assert ModulesPlan([]) + afterModules == afterModules;
      error := InitPlugins(false, w.plugins, last);
      if error != None { return; }
      if w.watching {
        error := Hook(Init(Watcher), PluginsPlan(w, true, w.inoplugs));
        if error != None { return; }
        assert PluginsPlan(w, true, w.inoplugs) + [] == PluginsPlan(w, true, w.inoplugs);
        error := InitPlugins(true, w.inoplugs, []);
        if error != None { return; }
      }
      NothingForeseen();
      return None;
    }

    method Initialize() returns (error: Option<Error>)
      modifies this
      ensures (Now(), error) == InitializeOf(w, old(Now()))
    {
      if phase != New {
        return Some(NotNew);
      }
      if w.modules != [] && !w.registrar {
        return Some(NoRegistrar);
      }
      if SomeStale(w) {
        return Some(NotFresh);
      }
      hide InitPlan;
      phase := Initializing;
      error := Boot();
      if error == None {
        phase := Ready;
      } else {
        var _ := StopAll();
      }
    }

    method StartPlugins(ino: bool, ids: seq<nat>, ghost plan: seq<Step>) returns (error: Option<Error>)
      modifies this`trace
      ensures error == None ==> Foreseen(plan) == old(Foreseen(StartsPlan(w, ino, ids) + plan))
      ensures error != None ==> (trace, callbacks, error) == old(Foreseen(StartsPlan(w, ino, ids) + plan))
    {
      hide Foreseen;
      assert ids[0..] == ids;
      for i := 0 to |ids|
        invariant Foreseen(StartsPlan(w, ino, ids[i..]) + plan) == old(Foreseen(StartsPlan(w, ino, ids) + plan))
      {
        var x := Name(ino, ids[i]);
        ghost var rest := StartsPlan(w, ino, ids[i + 1..]) + plan;
        assert ids[i..][0] == ids[i] && ids[i..][1..] == ids[i + 1..];
        if w.enabled(x) && w.autostart(x) {
          assert StartsPlan(w, ino, ids[i..]) + plan == [Call(AtStart(x))] + rest;
          error := Hook(AtStart(x), rest);
          if error != None { return; }
        } else {
          assert StartsPlan(w, ino, ids[i..]) + plan == rest;
        }
      }
      assert ids[|ids|..] == [];
      assert StartsPlan(w, ino, []) + plan == plan;
      return None;
    }

    method Start() returns (error: Option<Error>)
      modifies this
      ensures (Now(), error) == StartOf(w, old(Now()))
    {
      if phase != Ready {
        return Some(NotReady);
      }
      phase := Starting;
      error := Launch();
      if error == None {
        phase := Running;
      } else {
        var _ := StopAll();
      }
    }

    /** The body that start guards. */
    method Launch() returns (error: Option<Error>)
      modifies this`trace
      ensures (trace, callbacks, error) == old(Foreseen(StartPlan(w)))
    {
      hide Foreseen, StartsPlan;
      ghost var last := if w.watching then StartsPlan(w, true, w.inoplugs) + [Call(AtStart(Watcher))] else [];
      assert StartPlan(w) == StartsPlan(w, false, w.plugins) + last;
      error := StartPlugins(false, w.plugins, last);
      if error != None { return; }
      if w.watching {
        error := StartPlugins(true, w.inoplugs, [Call(AtStart(Watcher))]);
        if error != None { return; }
        assert [Call(AtStart(Watcher))] + [] == [Call(AtStart(Watcher))];
        error := Hook(AtStart(Watcher), []);
        if error != None { return; }
      }
      NothingForeseen();
      return None;
    }

    /** Every callback runs, whatever the others do; the first error is kept. */
    method StopAll() returns (error: Option<Error>)
      modifies this
      ensures (Now(), error) == StopOf(w, old(Now()))
    {
      if phase == Stopped {
        return None;
      }
      phase := Stopped;
      var pending := callbacks;
      callbacks := [];
      error := None;
      assert pending[0..] == pending;
      for i := 0 to |pending|
        invariant phase == Stopped && callbacks == []
        invariant trace == old(trace) + Stops(pending[..i])
        invariant (if error == None then FirstError(w, pending[i..]) else error) == FirstError(w, pending)
      {
        var e := Stop(pending[i]);
        assert pending[i..][1..] == pending[i + 1..];
        assert Stops(pending[..i + 1]) == Stops(pending[..i]) + [e];
        trace := trace + [e];
        if w.raises(e) {
          if error == None {
            error := Some(Raised(e));
          }
        }
      }
      assert pending[..|pending|] == pending;
    }
  }
}
