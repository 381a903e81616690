/** What holds of every serialized run of a runtime, for every pattern of raising hooks. */
module RuntimeRuns {
  import opened Outcomes
  import opened Runtime

  datatype Op = InitializeOp | StartOp | StopOp

  function Perform(w: World, r: Rt, op: Op): (Rt, Option<Error>) {
    match op
    case InitializeOp => InitializeOf(w, r)
    case StartOp => StartOf(w, r)
    case StopOp => StopOf(w, r)
  }

  function RunOps(w: World, r: Rt, ops: seq<Op>): Rt
    decreases |ops|
  {
    if ops == [] then r else RunOps(w, Perform(w, r, ops[0]).0, ops[1..])
  }

  const FRESH: Rt := Rt(New, [], [])

  ghost predicate NoRepeats<T(!new)>(s: seq<T>) {
    forall i, j :: 0 <= i < j < |s| ==> s[i] != s[j]
  }

  /** Registries are dictionaries of distinct extension objects. */
  ghost predicate DistinctExtensions(w: World) {
    NoRepeats(w.plugins) && NoRepeats(w.inoplugs)
  }

  // ---- executing a plan

  function RegisteredAt(step: Step): seq<Ext> {
    if step.Register? then [step.x] else []
  }

  function Registrations(plan: seq<Step>): seq<Ext> {
    if plan == [] then [] else RegisteredAt(plan[0]) + Registrations(plan[1..])
  }

  function EventOf(step: Step): Event {
    match step case Call(e) => e case Register(x) => Registered(x)
  }

  function Events(plan: seq<Step>): seq<Event> {
    seq(|plan|, i requires 0 <= i < |plan| => EventOf(plan[i]))
  }

  lemma {:induction false} RegistrationsConcat(a: seq<Step>, b: seq<Step>)
    ensures Registrations(a + b) == Registrations(a) + Registrations(b)
  {
    hide RegisteredAt;
    if a == [] {
      assert a + b == b;
    } else {
      assert (a + b)[1..] == a[1..] + b;
      RegistrationsConcat(a[1..], b);
      assert RegisteredAt(a[0]) + (Registrations(a[1..]) + Registrations(b)) == Registrations(a) + Registrations(b);
    }
  }

  /** Hooks are called in plan order up to the first that raises; that one's error is the
      outcome. Without a raise the whole plan is carried out. */
  lemma {:induction false} ExecStopsAtFirst(w: World, plan: seq<Step>)
    ensures var ran := Exec(w, plan);
            && ran.trace <= Events(plan)
            && (ran.error == None ==> ran.trace == Events(plan))
            && (ran.error != None ==>
                  var last := |ran.trace| - 1;
                  0 <= last && plan[last].Call? && ran.error == Some(Raised(plan[last].e)) && w.raises(plan[last].e))
            && (forall i :: 0 <= i < |ran.trace| - (if ran.error == None then 0 else 1) && plan[i].Call? ==>
                              !w.raises(plan[i].e))
    decreases |plan|
  {
    if plan != [] {
      ExecStopsAtFirst(w, plan[1..]);
      assert Events(plan) == [EventOf(plan[0])] + Events(plan[1..]);
      assert forall i :: 0 < i < |plan| ==> plan[i] == plan[1..][i - 1];
    }
  }

  predicate NoStops(plan: seq<Step>) {
    forall i :: 0 <= i < |plan| && plan[i].Call? ==> !plan[i].e.Stop? && !plan[i].e.Registered?
  }

  lemma ExecStep(w: World, plan: seq<Step>)
    requires plan != []
    ensures var raised := plan[0].Call? && w.raises(plan[0].e);
            Exec(w, plan).trace == [EventOf(plan[0])] + if raised then [] else Exec(w, plan[1..]).trace
  {
  }

  lemma TraceStep(e: Event, rest: seq<Event>)
    ensures RegisteredIn([e] + rest) == RegisteredBy(e) + RegisteredIn(rest)
    ensures StoppedIn([e] + rest) == StoppedBy(e) + StoppedIn(rest)
  {
    hide RegisteredBy, StoppedBy;
    assert ([e] + rest)[1..] == rest;
  }

  lemma OrdinaryStep(step: Step)
    requires step.Call? ==> !step.e.Stop? && !step.e.Registered?
    ensures RegisteredBy(EventOf(step)) == RegisteredAt(step) && StoppedBy(EventOf(step)) == []
  {
  }

  lemma PrefixBehind<T>(a: seq<T>, b: seq<T>, c: seq<T>)
    requires b <= c
    ensures a + b <= a + c
  {
  }

  /** What a plan registers is a prefix of what it would, and it stops nothing. */
  lemma {:induction false} ExecRegisters(w: World, plan: seq<Step>)
    requires NoStops(plan)
    ensures RegisteredIn(Exec(w, plan).trace) <= Registrations(plan)
    ensures StoppedIn(Exec(w, plan).trace) == []
    decreases |plan|
  {
    if plan != [] {
      hide Exec, RegisteredBy, StoppedBy, RegisteredAt, EventOf, RegisteredIn, StoppedIn;
      ExecRegisters(w, plan[1..]);
      ExecStep(w, plan);
      OrdinaryStep(plan[0]);
      var e, rest := EventOf(plan[0]), Exec(w, plan[1..]).trace;
      NothingTraced();
      TraceStep(e, rest);
      TraceStep(e, []);
      PrefixBehind(RegisteredAt(plan[0]), RegisteredIn(rest), Registrations(plan[1..]));
      PrefixBehind(RegisteredAt(plan[0]), [], Registrations(plan[1..]));
    }
  }

  lemma NothingTraced()
    ensures RegisteredIn([]) == [] && StoppedIn([]) == []
  {
  }

  /** Every plug-in is registered immediately before its safe_init, and nowhere else; the
      watcher immediately after it is made, and nowhere else. */
  predicate Paired(plan: seq<Step>)
    decreases |plan|
  {
    if plan == [] then true
    else match plan[0]
      case Register(x) => x != Watcher && 1 < |plan| && plan[1] == Call(SafeInit(x)) && Paired(plan[2..])
      case Call(e) =>
        if e == MakeWatcher then 1 < |plan| && plan[1] == Register(Watcher) && Paired(plan[2..])
        else !e.SafeInit? && !e.Registered? && Paired(plan[1..])
  }

  lemma {:induction false} PairedConcat(a: seq<Step>, b: seq<Step>)
    requires Paired(a) && Paired(b)
    ensures Paired(a + b)
    decreases |a|
  {
    if a == [] {
      assert a + b == b;
    } else if a[0].Register? || a[0].e == MakeWatcher {
      assert (a + b)[2..] == a[2..] + b;
      PairedConcat(a[2..], b);
    } else {
      assert (a + b)[1..] == a[1..] + b;
      PairedConcat(a[1..], b);
    }
  }

  lemma {:induction false} RegisteredMember(trace: seq<Event>, x: Ext)
    ensures x in RegisteredIn(trace) <==> Registered(x) in trace
    ensures x in StoppedIn(trace) <==> Stop(x) in trace
  {
    if trace != [] {
      RegisteredMember(trace[1..], x);
      assert trace == [trace[0]] + trace[1..];
    }
  }

  /** The plug-ins registered are exactly those whose safe_init was called, the one that
      raised included; the watcher is registered exactly if making it was tried and worked. */
  ghost predicate Owned(w: World, trace: seq<Event>) {
    && (forall x :: x != Watcher ==> (Registered(x) in trace <==> SafeInit(x) in trace))
    && (Registered(Watcher) in trace <==> MakeWatcher in trace && !w.raises(MakeWatcher))
  }

  lemma OwnedConcat(w: World, a: seq<Event>, b: seq<Event>)
    requires Owned(w, a) && Owned(w, b)
    ensures Owned(w, a + b)
  {
  }

  /** Neither a lone hook, nor a pair cut short by the raise of its hook, nor a pair, spoils it. */
  lemma OwnedPieces(w: World, e: Event, x: Ext)
    ensures Owned(w, [])
    ensures !e.SafeInit? && !e.Registered? && e != MakeWatcher ==> Owned(w, [e])
    ensures x != Watcher ==> Owned(w, [Registered(x), SafeInit(x)])
    ensures w.raises(MakeWatcher) ==> Owned(w, [MakeWatcher])
    ensures !w.raises(MakeWatcher) ==> Owned(w, [MakeWatcher, Registered(Watcher)])
  {
  }

  lemma ExecTwo(w: World, plan: seq<Step>)
    requires 1 < |plan| && (plan[0].Call? ==> !w.raises(plan[0].e))
    ensures var e, f := EventOf(plan[0]), EventOf(plan[1]);
            var raised := plan[1].Call? && w.raises(plan[1].e);
            Exec(w, plan).trace == [e, f] + if raised then [] else Exec(w, plan[2..]).trace
  {
    hide Exec, EventOf;
    ExecStep(w, plan);
    ExecStep(w, plan[1..]);
    assert plan[1..][1..] == plan[2..];
  }

  /** And so it is in any execution. */
  lemma {:induction false} ExecPaired(w: World, plan: seq<Step>)
    requires Paired(plan)
    ensures Owned(w, Exec(w, plan).trace)
    decreases |plan|
  {
    if plan == [] {
      OwnedPieces(w, MakeWatcher, Watcher);
    } else {
      hide Exec, Owned;
      OwnedPieces(w, EventOf(plan[0]), if plan[0].Register? then plan[0].x else Watcher);
      ExecStep(w, plan);
      if plan[0].Register? || (plan[0].e == MakeWatcher && !w.raises(MakeWatcher)) {
        var pair, rest := [EventOf(plan[0]), EventOf(plan[1])], Exec(w, plan[2..]).trace;
        ExecTwo(w, plan);
        ExecPaired(w, plan[2..]);
        OwnedConcat(w, pair, rest);
        assert pair + [] == pair;
      } else if plan[0].e == MakeWatcher {
        assert [MakeWatcher] + [] == [MakeWatcher];
      } else {
        var e, rest := plan[0].e, Exec(w, plan[1..]).trace;
        ExecPaired(w, plan[1..]);
        OwnedConcat(w, [e], rest);
        assert [e] + [] == [e];
      }
    }
  }

  // ---- the two plans

  function EnabledOf(w: World, ino: bool, ids: seq<nat>): seq<Ext> {
    if ids == [] then []
    else (if w.enabled(Name(ino, ids[0])) then [Name(ino, ids[0])] else []) + EnabledOf(w, ino, ids[1..])
  }

  /** A plan that stops nothing, registers each plug-in before its safe_init, and would
      register `xs` in all. */
  predicate Shape(plan: seq<Step>, xs: seq<Ext>) {
    NoStops(plan) && Paired(plan) && Registrations(plan) == xs
  }

  lemma ShapeConcat(a: seq<Step>, xs: seq<Ext>, b: seq<Step>, ys: seq<Ext>)
    requires Shape(a, xs) && Shape(b, ys)
    ensures Shape(a + b, xs + ys)
  {
    hide Paired, Registrations;
    PairedConcat(a, b);
    RegistrationsConcat(a, b);
  }

  lemma EmptyTwice()
    ensures var none: seq<Ext> := []; none + none == none
  {
  }

  lemma ShapeNothing()
    ensures Shape([], [])
  {
  }

  lemma ShapeCall(e: Event)
    requires !e.SafeInit? && !e.Registered? && !e.Stop? && e != MakeWatcher
    ensures Shape([Call(e)], [])
  {
    assert [Call(e)][1..] == [];
  }

  lemma ShapePlugin(x: Ext)
    requires x != Watcher
    ensures Shape([Register(x), Call(SafeInit(x))], [x])
  {
    var plan := [Register(x), Call(SafeInit(x))];
    assert plan[1..] == [Call(SafeInit(x))] && plan[1..][1..] == [] && plan[2..] == [];
    assert Registrations(plan[1..]) == [];
    assert [x] + [] == [x];
  }

  lemma ShapeWatcher()
    ensures Shape([Call(MakeWatcher), Register(Watcher)], [Watcher])
  {
    var plan := [Call(MakeWatcher), Register(Watcher)];
    assert plan[1..] == [Register(Watcher)] && plan[1..][1..] == [] && plan[2..] == [];
    assert Registrations(plan[1..]) == [Watcher];
  }

  lemma {:induction false} PluginsPlanShape(w: World, ino: bool, ids: seq<nat>)
    ensures Shape(PluginsPlan(w, ino, ids), EnabledOf(w, ino, ids))
    decreases |ids|
  {
    hide Shape;
    ShapeNothing();
    if ids != [] {
      var x, more, xs := Name(ino, ids[0]), PluginsPlan(w, ino, ids[1..]), EnabledOf(w, ino, ids[1..]);
      PluginsPlanShape(w, ino, ids[1..]);
      ShapeCall(Init(x));
      if w.enabled(x) {
        ShapePlugin(x);
        ShapeConcat([Register(x), Call(SafeInit(x))], [x], more, xs);
        ShapeConcat([Call(Init(x))], [], [Register(x), Call(SafeInit(x))] + more, [x] + xs);
        assert [] + ([x] + xs) == [x] + xs;
      } else {
        ShapeConcat([Call(Init(x))], [], more, xs);
        assert [] + more == more && [] + xs == xs;
      }
    }
  }

  lemma {:induction false} EnabledMembers(w: World, ino: bool, ids: seq<nat>)
    requires NoRepeats(ids)
    ensures NoRepeats(EnabledOf(w, ino, ids))
    ensures forall x :: x in EnabledOf(w, ino, ids) ==> (x.Inoplug? <==> ino) && (x.Plugin? <==> !ino) && x.n in ids
    decreases |ids|
  {
    if ids != [] {
      EnabledMembers(w, ino, ids[1..]);
      assert forall i :: 0 <= i < |ids[1..]| ==> ids[1..][i] == ids[i + 1];
      assert ids[0] !in ids[1..];
    }
  }

  lemma {:induction false} ModulesPlanShape(ids: seq<nat>)
    ensures Shape(ModulesPlan(ids), [])
    decreases |ids|
  {
    hide Shape;
    ShapeNothing();
    if ids != [] {
      ModulesPlanShape(ids[1..]);
      ShapeCall(Init(Module(ids[0])));
      ShapeConcat([Call(Init(Module(ids[0])))], [], ModulesPlan(ids[1..]), []);
      EmptyTwice();
    }
  }

  function Enrolled(w: World): seq<Ext> {
    (if w.watching then [Watcher] else []) + (EnabledOf(w, false, w.plugins)
    + (if w.watching then EnabledOf(w, true, w.inoplugs) else []))
  }

  lemma InitPlanShape(w: World)
    ensures Shape(InitPlan(w), Enrolled(w))
  {
    hide Shape, PluginsPlan, ModulesPlan, EnabledOf;
    var modules := ModulesPlan(w.modules);
    var plugins, inoplugs := PluginsPlan(w, false, w.plugins), PluginsPlan(w, true, w.inoplugs);
    var xs, ys := EnabledOf(w, false, w.plugins), EnabledOf(w, true, w.inoplugs);
    ModulesPlanShape(w.modules);
    PluginsPlanShape(w, false, w.plugins);
    PluginsPlanShape(w, true, w.inoplugs);
    ShapeNothing();
    ShapeCall(Init(Watcher));
    ShapeConcat([Call(Init(Watcher))], [], inoplugs, ys);
    assert [] + ys == ys;
    var last := if w.watching then [Call(Init(Watcher))] + inoplugs else [];
    var lastXs := if w.watching then ys else [];
    ShapeConcat(plugins, xs, last, lastXs);
    ShapeConcat(modules, [], plugins + last, xs + lastXs);
    assert [] + (xs + lastXs) == xs + lastXs;
    if w.watching {
      WatcherPlanShape();
    }
    ShapeConcat(if w.watching then WATCHER_PLAN else [], if w.watching then [Watcher] else [],
                modules + (plugins + last), xs + lastXs);
  }

  const WATCHER_PLAN: seq<Step> := [Call(MakeWatcher), Register(Watcher), Call(ConfigureWatcher)]

  lemma WatcherPlanShape()
    ensures Shape(WATCHER_PLAN, [Watcher])
  {
    hide Shape;
    ShapeWatcher();
    ShapeCall(ConfigureWatcher);
    ShapeConcat([Call(MakeWatcher), Register(Watcher)], [Watcher], [Call(ConfigureWatcher)], []);
    assert [Call(MakeWatcher), Register(Watcher)] + [Call(ConfigureWatcher)] == WATCHER_PLAN;
    assert [Watcher] + [] == [Watcher];
  }

  lemma InitRegistersOnce(w: World)
    requires DistinctExtensions(w)
    ensures NoRepeats(Registrations(InitPlan(w)))
  {
    InitPlanShape(w);
    EnabledMembers(w, false, w.plugins);
    EnabledMembers(w, true, w.inoplugs);
    var ps, qs := EnabledOf(w, false, w.plugins), EnabledOf(w, true, w.inoplugs);
    DisjointNoRepeats(ps, qs);
    assert ps + [] == ps;
    DisjointNoRepeats([Watcher], ps + qs);
  }

  lemma DisjointNoRepeats<T(!new)>(a: seq<T>, b: seq<T>)
    requires NoRepeats(a) && NoRepeats(b) && forall x :: x in a ==> x !in b
    ensures NoRepeats(a + b)
  {
    forall i, j | 0 <= i < j < |a + b| ensures (a + b)[i] != (a + b)[j] {
      if i < |a| <= j {
        assert (a + b)[i] in a && (a + b)[j] in b;
      }
    }
  }

  lemma {:induction false} StartsPlanShape(w: World, ino: bool, ids: seq<nat>)
    ensures Shape(StartsPlan(w, ino, ids), [])
    decreases |ids|
  {
    hide Shape;
    ShapeNothing();
    if ids != [] {
      var x, more := Name(ino, ids[0]), StartsPlan(w, ino, ids[1..]);
      StartsPlanShape(w, ino, ids[1..]);
      ShapeCall(AtStart(x));
      ShapeConcat([Call(AtStart(x))], [], more, []);
      assert [] + more == more;
      EmptyTwice();
    }
  }

  lemma StartPlanShape(w: World)
    ensures Shape(StartPlan(w), [])
  {
    hide Shape, StartsPlan;
    var a, b := StartsPlan(w, false, w.plugins), StartsPlan(w, true, w.inoplugs);
    StartsPlanShape(w, false, w.plugins);
    StartsPlanShape(w, true, w.inoplugs);
    ShapeNothing();
    ShapeCall(AtStart(Watcher));
    EmptyTwice();
    ShapeConcat(b, [], [Call(AtStart(Watcher))], []);
    ShapeConcat(a, [], if w.watching then b + [Call(AtStart(Watcher))] else [], []);
  }

  // ---- what every state between operations keeps

  ghost predicate Inv(w: World, r: Rt) {
    && !r.phase.Initializing? && !r.phase.Starting?
    && (r.phase == New ==> r == FRESH)
    && r.callbacks == (if r.phase == Stopped then [] else RegisteredIn(r.trace))
    && StoppedIn(r.trace) == (if r.phase == Stopped then RegisteredIn(r.trace) else [])
    && NoRepeats(RegisteredIn(r.trace))
    && Owned(w, r.trace)
  }

  lemma {:induction false} StoppedConcat(a: seq<Event>, b: seq<Event>)
    ensures StoppedIn(a + b) == StoppedIn(a) + StoppedIn(b)
  {
    hide StoppedBy;
    if a == [] {
      assert a + b == b;
    } else {
      assert (a + b)[1..] == a[1..] + b;
      StoppedConcat(a[1..], b);
    }
  }

  lemma {:induction false} StopsShape(xs: seq<Ext>)
    ensures StoppedIn(Stops(xs)) == xs && RegisteredIn(Stops(xs)) == []
    decreases |xs|
  {
    if xs != [] {
      assert Stops(xs)[1..] == Stops(xs[1..]);
      StopsShape(xs[1..]);
      assert xs == [xs[0]] + xs[1..];
    }
  }

  lemma StopsOwned(w: World, xs: seq<Ext>)
    ensures Owned(w, Stops(xs))
  {
  }

  /** Stopping a state whose callbacks are exactly what it registered. */
  lemma StopKeeps(w: World, r: Rt)
    requires r.phase != Stopped && r.callbacks == RegisteredIn(r.trace) && StoppedIn(r.trace) == []
    requires NoRepeats(RegisteredIn(r.trace))
    requires Owned(w, r.trace)
    ensures Inv(w, StopOf(w, r).0)
  {
    hide Owned, Stops, RegisteredIn, StoppedIn;
    StopsShape(r.callbacks);
    StopsOwned(w, r.callbacks);
    OwnedConcat(w, r.trace, Stops(r.callbacks));
    StoppedConcat(r.trace, Stops(r.callbacks));
    RegisteredConcat(r.trace, Stops(r.callbacks));
    assert RegisteredIn(r.trace) + [] == RegisteredIn(r.trace);
    assert [] + r.callbacks == r.callbacks;
  }

  lemma FinishKeeps(w: World, r: Rt, plan: seq<Step>, next: Phase)
    requires Inv(w, r) && r.phase != Stopped && (next == Ready || next == Running)
    requires Shape(plan, Registrations(plan))
    requires NoRepeats(RegisteredIn(r.trace) + Registrations(plan))
    ensures Inv(w, Finish(w, r, plan, next).0)
  {
    hide Exec, Registrations, Paired, NoStops, StopOf, StoppedIn, RegisteredIn;
    var ran := Exec(w, plan);
    var after := Rt(next, r.callbacks + RegisteredIn(ran.trace), r.trace + ran.trace);
    ExecRegisters(w, plan);
    RegisteredConcat(r.trace, ran.trace);
    StoppedConcat(r.trace, ran.trace);
    PrefixNoRepeats(RegisteredIn(r.trace), RegisteredIn(ran.trace), Registrations(plan));
    ExecPaired(w, plan);
    OwnedConcat(w, r.trace, ran.trace);
    if ran.error != None {
      StopKeeps(w, after);
    }
  }

  lemma PrefixNoRepeats<T(!new)>(a: seq<T>, b: seq<T>, c: seq<T>)
    requires b <= c && NoRepeats(a + c)
    ensures NoRepeats(a + b)
  {
    assert a + b <= a + c;
  }

  lemma StepKeeps(w: World, r: Rt, op: Op)
    requires DistinctExtensions(w) && Inv(w, r)
    ensures Inv(w, Perform(w, r, op).0)
  {
    hide Finish, InitPlan, StartPlan, Registrations, Paired, NoStops;
    match op
    case InitializeOp =>
      InitPlanShape(w);
      InitRegistersOnce(w);
      if r.phase == New {
        assert RegisteredIn(r.trace) + Registrations(InitPlan(w)) == Registrations(InitPlan(w));
        FinishKeeps(w, r, InitPlan(w), Ready);
      }
    case StartOp =>
      StartPlanShape(w);
      if r.phase == Ready {
        assert RegisteredIn(r.trace) + Registrations(StartPlan(w)) == RegisteredIn(r.trace);
        FinishKeeps(w, r, StartPlan(w), Running);
      }
    case StopOp =>
      if r.phase != Stopped { StopKeeps(w, r); }
  }

  lemma {:induction false} RunKeeps(w: World, r: Rt, ops: seq<Op>)
    requires DistinctExtensions(w) && Inv(w, r)
    ensures Inv(w, RunOps(w, r, ops))
    decreases |ops|
  {
    if ops != [] {
      StepKeeps(w, r, ops[0]);
      RunKeeps(w, Perform(w, r, ops[0]).0, ops[1..]);
    }
  }

  // ---- the guarantees

  /** In every serialized run, whatever raises: no stop callback runs before the runtime is
      stopped, none runs twice, and once it is stopped they have all run, in registration
      order; a plug-in is stopped exactly when its own safe_init was called, even if that is
      what raised, and the watcher exactly when making it was tried and worked. */
  lemma Lifecycle(w: World, ops: seq<Op>)
    requires DistinctExtensions(w)
    ensures var r := RunOps(w, FRESH, ops);
            && NoRepeats(StoppedIn(r.trace))
            && StoppedIn(r.trace) == (if r.phase == Stopped then RegisteredIn(r.trace) else [])
            && (forall x :: x != Watcher && r.phase == Stopped ==> (Stop(x) in r.trace <==> SafeInit(x) in r.trace))
            && (r.phase == Stopped ==>
                  (Stop(Watcher) in r.trace <==> MakeWatcher in r.trace && !w.raises(MakeWatcher)))
  {
    InvAtFirst(w);
    RunKeeps(w, FRESH, ops);
    var r := RunOps(w, FRESH, ops);
    forall x ensures Stop(x) in r.trace <==> x in StoppedIn(r.trace)
             ensures Registered(x) in r.trace <==> x in RegisteredIn(r.trace)
    {
      RegisteredMember(r.trace, x);
    }
  }

  lemma InvAtFirst(w: World)
    ensures Inv(w, FRESH)
  {
  }

  /** Stopped is for good: nothing changes and no hook is called any more. */
  lemma {:induction false} StoppedForGood(w: World, r: Rt, ops: seq<Op>)
    requires r.phase == Stopped
    ensures RunOps(w, r, ops) == r
    decreases |ops|
  {
    if ops != [] { StoppedForGood(w, r, ops[1..]); }
  }

  /** The first `n` hooks of a plan were called and only the last of them raised; then
      everything registered so far was stopped, whatever the cleanup itself raised. */
  ghost predicate FailedAt(w: World, r: Rt, plan: seq<Step>, n: nat, r': Rt, error: Error)
    requires n <= |plan|
  {
    var ran := Events(plan)[..n];
    && 0 < n && plan[n - 1].Call? && w.raises(ran[n - 1]) && error == Raised(ran[n - 1])
    && (forall i :: 0 <= i < n - 1 && plan[i].Call? ==> !w.raises(ran[i]))
    && r' == Rt(Stopped, [], r.trace + ran + Stops(RegisteredIn(r.trace + ran)))
  }

  lemma FinishReports(w: World, r: Rt, plan: seq<Step>, next: Phase) returns (n: nat)
    requires r.phase != Stopped && next != Stopped
    requires r.callbacks == RegisteredIn(r.trace)
    ensures n <= |plan|
    ensures var (r', error) := Finish(w, r, plan, next);
            && (error == None ==> r'.phase == next && r'.trace == r.trace + Events(plan))
            && (error != None ==> FailedAt(w, r, plan, n, r', error.value))
  {
    hide Exec, RegisteredIn;
    var ran := Exec(w, plan);
    n := |ran.trace|;
    ExecStopsAtFirst(w, plan);
    RegisteredConcat(r.trace, ran.trace);
    assert ran.trace == Events(plan)[..n];
  }

  /** In any run: an initialize or a start that returns has called every hook of its plan, in
      order. One that raises a hook's error raises that of the first hook to raise, which is
      the last it called before cleaning up, and everything ever registered has been stopped
      by then. Any other error is a refusal, and changes nothing. */
  lemma FailureReported(w: World, ops: seq<Op>, op: Op)
    requires DistinctExtensions(w) && op != StopOp
    ensures var r := RunOps(w, FRESH, ops);
            var (r', error) := Perform(w, r, op);
            var plan := if op == InitializeOp then InitPlan(w) else StartPlan(w);
            && (error == None ==>
                  r'.phase == (if op == InitializeOp then Ready else Running) && r'.trace == r.trace + Events(plan))
            && (error.Some? && error.value.Raised? ==>
                  exists n: nat :: n <= |plan| && FailedAt(w, r, plan, n, r', error.value))
            && (error.Some? && !error.value.Raised? ==> r' == r)
  {
    hide InitPlan, StartPlan, Finish;
    InvAtFirst(w);
    RunKeeps(w, FRESH, ops);
    var r := RunOps(w, FRESH, ops);
    if op == InitializeOp && r.phase == New {
      var _ := FinishReports(w, r, InitPlan(w), Ready);
    } else if op == StartOp && r.phase == Ready {
      var _ := FinishReports(w, r, StartPlan(w), Running);
    }
  }

  lemma {:induction false} FirstErrorIsFirst(w: World, xs: seq<Ext>) returns (i: nat)
    ensures FirstError(w, xs) == None <==> forall j :: 0 <= j < |xs| ==> !w.raises(Stop(xs[j]))
    ensures FirstError(w, xs) != None ==> FirstRaise(w, xs, i) && FirstError(w, xs) == Some(Raised(Stop(xs[i])))
    decreases |xs|
  {
    i := 0;
    if xs != [] && !w.raises(Stop(xs[0])) {
      var k := FirstErrorIsFirst(w, xs[1..]);
      assert forall j :: 0 < j < |xs| ==> xs[j] == xs[1..][j - 1];
      i := k + 1;
    }
  }

  predicate FirstRaise(w: World, xs: seq<Ext>, i: nat) {
    && i < |xs| && w.raises(Stop(xs[i]))
    && forall j :: 0 <= j < i ==> !w.raises(Stop(xs[j]))
  }

  /** In any run: stop raises the error of the first callback that raises, and nothing exactly
      if none does. Its callbacks are all that was ever registered, unless it was stopped. */
  lemma StopRaisesFirst(w: World, ops: seq<Op>)
    requires DistinctExtensions(w)
    ensures var r := RunOps(w, FRESH, ops);
            var (r', error) := Perform(w, r, StopOp);
            var xs := if r.phase == Stopped then [] else RegisteredIn(r.trace);
            && r' == Rt(Stopped, [], r.trace + Stops(xs))
            && (error == None <==> forall i :: 0 <= i < |xs| ==> !w.raises(Stop(xs[i])))
            && (error != None ==> exists i: nat :: FirstRaise(w, xs, i) && error == Some(Raised(Stop(xs[i]))))
  {
    hide Exec, Finish, RegisteredIn, StoppedIn, Owned, InitPlan, StartPlan, FirstError;
    InvAtFirst(w);
    RunKeeps(w, FRESH, ops);
    var r := RunOps(w, FRESH, ops);
    var _ := FirstErrorIsFirst(w, r.callbacks);
    assert r.trace + [] == r.trace;
  }
}
