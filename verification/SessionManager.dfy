/** Token and storage-key formats. The digest is any injective function on tokens. */
module SessionKeys {
  import opened Outcomes
  import opened Base64

  predicate NamespacePattern(ns: string) {
    1 <= |ns| <= 64 && forall c :: c in ns ==> TokenChar(c)
  }

  function StorageKey(digest: string -> string, ns: string, token: string): string {
    ns + ":session:" + digest(token)
  }

  /** None for anything that is not a well-formed token. */
  function Key(digest: string -> string, ns: string, token: string): Option<string> {
    if TokenPattern(token) then Some(StorageKey(digest, ns, token)) else None
  }

  ghost predicate Injective(digest: string -> string) {
    forall a, b :: digest(a) == digest(b) ==> a == b
  }

  lemma SeparatorAt(ns: string, x: string)
    ensures (ns + ":session:" + x)[|ns|] == ':'
  {
  }

  lemma NotSeparator(ns: string, x: string, i: nat)
    requires NamespacePattern(ns) && i < |ns|
    ensures (ns + ":session:" + x)[i] != ':'
  {
    assert (ns + ":session:" + x)[i] == ns[i];
    assert TokenChar(ns[i]);
  }

  lemma ShorterNamespace(a: string, x: string, b: string, y: string)
    requires NamespacePattern(b) && a + ":session:" + x == b + ":session:" + y
    ensures |b| <= |a|
  {
    if |a| < |b| {
      SeparatorAt(a, x);
      NotSeparator(b, y, |a|);
    }
  }

  /** A storage key determines its namespace and its token: managers sharing a backend under
      different namespaces never work on each other's keys. */
  lemma KeyInjective(digest: string -> string, a: string, t: string, b: string, u: string)
    requires Injective(digest) && NamespacePattern(a) && NamespacePattern(b)
    requires StorageKey(digest, a, t) == StorageKey(digest, b, u)
    ensures a == b && t == u
  {
    var x, y := digest(t), digest(u);
    ShorterNamespace(a, x, b, y);
    ShorterNamespace(b, y, a, x);
    assert a == (a + ":session:" + x)[..|a|] == (b + ":session:" + y)[..|b|] == b;
    assert x == (a + ":session:" + x)[|a| + 9..] == (b + ":session:" + y)[|b| + 9..] == y;
  }
}

/** The session manager as the calls it makes on one backend. Each method hands back, as a
    ghost result, the piece of a run of SessionProtocol it performs: one call of its own, on
    its own key, from the state it was given. What holds of every interleaved run holds of
    runs that such calls extend. */
module SessionManagers {
  import opened Outcomes
  import opened Base64
  import opened SessionStore
  import opened MemoryBackend
  import opened SessionProtocol
  import opened SessionKeys

  datatype SessionGrant = SessionGrant(token: string, session: Session, expiresAt: real)

  datatype Failure = InvalidArgument | InvalidStoredSession | Unallocated | Exhausted

  datatype Trace = Trace(states: seq<State>, events: seq<Event>)

  /** A caller, how it starts (which fixes the key it works on), and the keys it may draw. */
  datatype Call = Call(p: nat, start: Event, drawable: set<string>)

  predicate IsStart(e: Event) {
    e.StartCreate? || e.StartRead? || e.StartRevoke?
  }

  function Begun(events: seq<Event>): seq<Event> {
    if events == [] then []
    else
      var e := events[|events| - 1];
      Begun(events[..|events| - 1]) + if IsStart(e) then [e] else []
  }

  predicate Permitted(e: Event, call: Call) {
    e.Tick? || (e.p == call.p && (e.TryCreate? ==> e.drawn in call.drawable))
  }

  /** A run from `s` in which nobody but the caller moves, and it makes just this call. */
  ghost predicate IsCall(t: Trace, s: State, call: Call) {
    && Run(t.states, t.events)
    && t.states[0] == s
    && Begun(t.events) == [call.start]
    && forall i :: 0 <= i < |t.events| ==> Permitted(t.events[i], call)
  }

  ghost function Last(t: Trace): State
    requires t.states != []
  {
    t.states[|t.states| - 1]
  }

  /** The trace ends with the caller at `pc`, and with this store and clock. */
  ghost predicate EndsAt(t: Trace, call: Call, pc: Pc, store: Store, now: real) {
    && t.states != []
    && var last := Last(t);
    && call.p in last.procs && last.procs[call.p] == pc
    && last.store == store && last.now == now
  }

  lemma Extend(states: seq<State>, events: seq<Event>, e: Event, s': State)
    requires Run(states, events) && Next(states[|events|], e, s')
    ensures Run(states + [s'], events + [e])
  {
    var ss, es := states + [s'], events + [e];
    forall i {:trigger es[i]} | 0 <= i < |es| ensures Next(ss[i], es[i], ss[i + 1]) {
      if i < |events| { assert Next(states[i], events[i], states[i + 1]); }
    }
  }

  lemma BegunSnoc(events: seq<Event>, e: Event)
    ensures Begun(events + [e]) == Begun(events) + if IsStart(e) then [e] else []
  {
    assert (events + [e])[..|events|] == events;
  }

  /** A clock reading at `now`, then the call's first step. */
  lemma Begin(s: State, now: real, call: Call, s': State) returns (t: Trace)
    requires s.now <= now && IsStart(call.start) && call.start.p == call.p
    requires Next(s.(now := now), call.start, s')
    ensures IsCall(t, s, call) && t.states != [] && Last(t) == s'
  {
    hide Next;
    var tick, ticked := Tick(now - s.now), s.(now := now);
    assert Next(s, tick, ticked) by { Ticks(s, now); }
    assert Run([s], []);
    Extend([s], [], tick, ticked);
    Extend([s] + [ticked], [] + [tick], call.start, s');
    BegunSnoc([], tick);
    BegunSnoc([] + [tick], call.start);
    t := Trace([s] + [ticked] + [s'], [] + [tick] + [call.start]);
  }

  lemma Ticks(s: State, now: real)
    requires s.now <= now
    ensures Next(s, Tick(now - s.now), s.(now := now))
  {
  }

  /** One more step of the call, */
  lemma Continue(t: Trace, s: State, call: Call, e: Event, s': State) returns (t': Trace)
    requires IsCall(t, s, call) && t.states != []
    requires !IsStart(e) && Permitted(e, call) && Next(Last(t), e, s')
    ensures IsCall(t', s, call) && t'.states != [] && Last(t') == s'
  {
    hide Next;
    Extend(t.states, t.events, e, s');
    BegunSnoc(t.events, e);
    t' := Trace(t.states + [s'], t.events + [e]);
  }

  /** and one that reads the clock. */
  lemma ContinueTimed(t: Trace, s: State, call: Call, now: real, e: Event, s': State) returns (t': Trace)
    requires IsCall(t, s, call) && t.states != [] && Last(t).now <= now
    requires !IsStart(e) && Permitted(e, call) && Next(Last(t).(now := now), e, s')
    ensures IsCall(t', s, call) && t'.states != [] && Last(t') == s'
  {
    hide IsCall, Next;
    var last := Last(t);
    Ticks(last, now);
    t' := Continue(t, s, call, Tick(now - last.now), last.(now := now));
    t' := Continue(t', s, call, e, s');
  }

  // ---- the steps of a read and of a renewal

  lemma StartReadStep(s: State, p: nat, m: Manager, key: string, renew: bool)
    requires p in s.procs && s.procs[p].Ready? && ValidManager(m)
    ensures Next(s, StartRead(p, m, key, renew), Goto(s, p, Reading(m, key, renew)))
  {
  }

  function Fetched(m: Manager, key: string, renew: bool, value: Option<Value>): Pc {
    match value
    case None => Absent(renew)
    case Some(v) => if ValidRecord(v) then Checking(m, key, v.session, renew) else Ready(InvalidStored)
  }

  lemma FetchStep(s: State, p: nat, m: Manager, key: string, renew: bool, value: Option<Value>, store: Store, now: real)
    requires p in s.procs && s.procs[p] == Reading(m, key, renew)
    requires ReadStep(s.store, s.now, key, value, store, now)
    ensures Next(s, BackendRead(p, value), Goto(s.(store := store, now := now), p, Fetched(m, key, renew, value)))
  {
  }

  function Checked(m: Manager, key: string, session: Session, renew: bool, now: real): Pc {
    if session.absoluteExpiresAt <= now then Expiring(key, renew)
    else if renew then Timing(m, key, session) else Ready(ReadReply(Some(session)))
  }

  lemma CheckStep(s: State, p: nat, m: Manager, key: string, session: Session, renew: bool)
    requires p in s.procs && s.procs[p] == Checking(m, key, session, renew)
    ensures Next(s, ClockCheck(p), Goto(s, p, Checked(m, key, session, renew, s.now)))
  {
  }

  lemma ExpireStep(s: State, p: nat, key: string, renew: bool, ok: bool, store: Store)
    requires p in s.procs && s.procs[p] == Expiring(key, renew)
    requires DeleteStep(s.store, s.now, key, ok, store, s.now)
    ensures Next(s, ExpireDelete(p, ok), Goto(s.(store := store), p, Absent(renew)))
  {
  }

  lemma StartRevokeStep(s: State, p: nat, key: string)
    requires p in s.procs && s.procs[p].Ready?
    ensures Next(s, StartRevoke(p, key), Goto(s, p, Revoking(key)))
  {
  }

  function Revoked(s: State, p: nat, key: string, ok: bool, store: Store): State {
    Goto(s.(store := store), p, Ready(RevokeReply(ok)))
    .(revoked := if key in s.minted then s.revoked + {key} else s.revoked)
  }

  lemma RevokeStep(s: State, p: nat, key: string, ok: bool, store: Store)
    requires p in s.procs && s.procs[p] == Revoking(key)
    requires DeleteStep(s.store, s.now, key, ok, store, s.now)
    ensures Next(s, RevokeDelete(p, ok), Revoked(s, p, key, ok, store))
  {
  }

  function Timed(m: Manager, key: string, session: Session, now: real): Pc {
    var ttl := RenewTtl(m, session, now);
    if ttl < 1 then Absent(true) else Touching(m, key, session, now, ttl)
  }

  lemma TimeStep(s: State, p: nat, m: Manager, key: string, session: Session)
    requires p in s.procs && s.procs[p] == Timing(m, key, session)
    ensures Next(s, RenewClock(p), Goto(s, p, Timed(m, key, session, s.now)))
  {
  }

  // ---- what a call's answer means for the store

  /** Under `key` there is a record that passes validation. */
  ghost predicate StoredSession(values: Store, key: string, session: Session) {
    && key in values && values[key].value.Record? && values[key].value.session == session
    && 1 <= |session.subject| <= 256 && values[key].value.length <= 4096
  }

  /** A renewal that read its clock at `c` and lasts until `expires`: in whole seconds, as long
      as the idle lifetime and the limit allow. */
  ghost predicate LongestFrom(idle: int, limit: real, c: real, expires: real) {
    var ttl := (expires - c).Floor;
    && 1 <= ttl <= idle && expires == c + ttl as real && expires <= limit
    && (ttl == idle || limit < expires + 1.0)
  }

  /** What is answered was live and valid; what is not was dead or past its limit, and is gone. */
  ghost predicate ReadTells(key: string, r: Result<Option<Session>, Failure>, s: Store, n: real, s': Store, n': real) {
    match r
    case Err(_) => Live(s, key, n) && !exists session :: StoredSession(s, key, session)
    case Ok(None) =>
      && !Live(s', key, n')
      && (!Live(s, key, n')
          || exists session :: StoredSession(s, key, session) && session.absoluteExpiresAt <= n')
    case Ok(Some(session)) => Live(s, key, n) && StoredSession(s, key, session) && n' < session.absoluteExpiresAt
  }

  /** The longest grant there can be, covered by the entry it leaves; or a reason for none. */
  ghost predicate RenewTells(key: string, idle: int, r: Result<Option<SessionGrant>, Failure>,
                             s: Store, n: real, s': Store, n': real)
  {
    match r
    case Err(_) => Live(s, key, n) && !exists session :: StoredSession(s, key, session)
    case Ok(None) =>
      || !Live(s, key, n')
      || exists session :: StoredSession(s, key, session) && session.absoluteExpiresAt < n' + 1.0
    case Ok(Some(g)) =>
      && StoredSession(s, key, g.session) && key in s' && g.expiresAt <= s'[key].expires
      && exists c :: LongestFrom(idle, g.session.absoluteExpiresAt, c, g.expiresAt) && n <= c <= n'
  }

  lemma FetchTells(key: string, value: Option<Value>, s: Store, n: real, s': Store, n': real)
    requires ReadStep(s, n, key, value, s', n')
    ensures n <= n' && Eager(s', n') == Eager(s, n')
    ensures value == None ==> ReadTells(key, Ok(None), s, n, s', n')
    ensures value.Some? && !ValidRecord(value.value) ==> ReadTells(key, Err(InvalidStoredSession), s, n, s', n')
  {
    EagerAt(s, n', key);
    EagerAt(s', n', key);
  }

  lemma CheckTells(key: string, value: Option<Value>, s: Store, n: real, s1: Store, n1: real, now: real)
    requires ReadStep(s, n, key, value, s1, n1) && value.Some? && ValidRecord(value.value) && n1 <= now
    ensures Eager(s1, now) == Eager(s, now)
    ensures var session := value.value.session;
            now < session.absoluteExpiresAt ==> ReadTells(key, Ok(Some(session)), s, n, s1, now)
  {
    EagerForever(s1, s, n1, now);
    EagerAt(s, n1, key);
    assert StoredSession(s, key, value.value.session);
  }

  lemma DeleteTells(key: string, value: Option<Value>, s: Store, n: real, s1: Store, n1: real, now: real,
                    ok: bool, s': Store)
    requires ReadStep(s, n, key, value, s1, n1) && value.Some? && ValidRecord(value.value) && n1 <= now
    requires value.value.session.absoluteExpiresAt <= now && DeleteStep(s1, now, key, ok, s', now)
    ensures ReadTells(key, Ok(None), s, n, s', now)
    ensures Eager(s', now) - {key} == Eager(s, now) - {key}
  {
    EagerForever(s1, s, n1, now);
    EagerAt(s, n1, key);
    EagerAt(s', now, key);
    assert StoredSession(s, key, value.value.session);
  }

  /** A renewal that its check ends tells what a read would. */
  lemma EndedTells(key: string, idle: int, r: Result<Option<Session>, Failure>, s: Store, n: real, s': Store, n': real)
    requires ReadTells(key, r, s, n, s', n') && (r.Err? || r.value == None)
    ensures RenewTells(key, idle, if r.Err? then Err(r.error) else Ok(None), s, n, s', n')
  {
    hide StoredSession;
  }

  /** One whose lifetime would be none, */
  lemma TooLateTells(key: string, idle: int, session: Session, s: Store, n: real, s': Store, now: real)
    requires StoredSession(s, key, session) && session.absoluteExpiresAt < now + 1.0
    ensures RenewTells(key, idle, Ok(None), s, n, s', now)
  {
    hide StoredSession;
  }

  lemma FoundTells(key: string, session: Session, s: Store, n: real, s': Store, n': real)
    requires ReadTells(key, Ok(Some(session)), s, n, s', n')
    ensures StoredSession(s, key, session)
  {
  }

  /** and one that touches. */
  lemma TouchTells(key: string, idle: int, g: SessionGrant, first: Store, n0: real, s: Store, n: real,
                   c: real, ttl: int, ok: bool, s': Store, n': real)
    requires n0 <= n <= c && Eager(s, n) == Eager(first, n) && StoredSession(first, key, g.session)
    requires 1 <= ttl <= idle && g.expiresAt == c + ttl as real <= g.session.absoluteExpiresAt
    requires ttl == idle || g.session.absoluteExpiresAt < c + ttl as real + 1.0
    requires TouchStep(s, c, key, ttl, ok, s', n')
    ensures RenewTells(key, idle, Ok(if ok then Some(g) else None), first, n0, s', n')
  {
    hide StoredSession;
    EagerForever(s, first, n, n');
    EagerAt(s, n', key);
    EagerAt(first, n', key);
    EagerAt(s', n', key);
    assert LongestFrom(idle, g.session.absoluteExpiresAt, c, g.expiresAt);
  }

  lemma DeletedView(s: Store, n: real, key: string, ok: bool, s': Store)
    requires DeleteStep(s, n, key, ok, s', n)
    ensures Eager(s', n) == Eager(s, n) - {key}
  {
  }

  /** What one attempt of a create tells of the store the call began with. */
  lemma CreateTellsOf(first: Store, n0: real, s: Store, n: real, key: string, v: Value, ttl: int,
                      r: CreateOutcome, s': Store, n': real)
    requires n0 <= n && Eager(s, n) == Eager(first, n) && 1 <= ttl
    requires CreateStep(s, n, key, v, ttl, r, s', n')
    ensures n <= n'
    ensures r == Created ==> !Live(first, key, n') && key in s' && s'[key] == Entry(v, n' + ttl as real)
    ensures r == Collision ==> Live(first, key, n0)
    ensures r != Created ==> Eager(s', n') == Eager(first, n')
    ensures |Eager(s, n)| <= |Eager(first, n0)|
  {
    EagerForever(s, first, n, n');
    EagerAt(s, n, key);
    EagerAt(first, n, key);
    EagerAt(s, n', key);
    EagerAt(first, n', key);
    EagerAt(s', n', key);
    EagerShrinks(first, n0, n);
  }

  class SessionManager {
    const backend: MemorySessionBackend
    const ns: string
    const ttls: Manager
    const digest: string -> string

    ghost predicate Valid()
      reads this, backend
    {
      NamespacePattern(ns) && ValidManager(ttls) && backend.Valid()
    }

    constructor (backend: MemorySessionBackend, ns: string, ttls: Manager, digest: string -> string)
      requires NamespacePattern(ns) && ValidManager(ttls) && backend.Valid()
      ensures Valid()
      ensures this.backend == backend && this.ns == ns && this.ttls == ttls && this.digest == digest
    {
      this.backend, this.ns, this.ttls, this.digest := backend, ns, ttls, digest;
    }

    /** The state a caller starts from: nothing pending, and the store and clock as they are. */
    ghost predicate Starts(s: State, p: nat)
      reads this, backend, backend.clock
    {
      && s.store == backend.values && s.now == backend.clock.now
      && p in s.procs && s.procs[p].Ready?
    }

    function ReadCall(p: nat, key: string, renew: bool): Call {
      Call(p, StartRead(p, ttls, key, renew), {})
    }

    /** The backend read and the expiry check that `read` and `renew` begin with. */
    method Check(key: string, renew: bool, ghost s: State, ghost p: nat)
      returns (r: Result<Option<Session>, Failure>, ghost t: Trace)
      requires Valid() && Starts(s, p)
      modifies backend`values, backend.clock
      ensures Valid()
      ensures IsCall(t, s, ReadCall(p, key, renew))
      ensures EndsAt(t, ReadCall(p, key, renew),
                     match r
                     case Err(_) => Ready(InvalidStored)
                     case Ok(None) => Absent(renew)
                     case Ok(Some(session)) =>
                       if renew then Timing(ttls, key, session) else Ready(ReadReply(Some(session))),
                     backend.values, backend.clock.now)
      ensures r.Err? ==> r.error == InvalidStoredSession
      ensures old(backend.clock.now) <= backend.clock.now
      ensures ReadTells(key, r, old(backend.values), old(backend.clock.now), backend.values, backend.clock.now)
      ensures Eager(backend.values, backend.clock.now) - {key}
              == Eager(old(backend.values), backend.clock.now) - {key}
      ensures r.Err? || r.value.Some? ==>
                Eager(backend.values, backend.clock.now) == Eager(old(backend.values), backend.clock.now)
    {
      hide IsCall, Next, ReadStep, DeleteStep, NamespacePattern, Eager, ReadTells;
      ghost var call := ReadCall(p, key, renew);
      StartReadStep(s, p, ttls, key, renew);
      assert s.(now := s.now) == s;
      t := Begin(s, s.now, call, Goto(s, p, Reading(ttls, key, renew)));

      var value := backend.Read(key);
      FetchStep(Last(t), p, ttls, key, renew, value, backend.values, backend.clock.now);
      t := Continue(t, s, call, BackendRead(p, value),
                    Goto(Last(t).(store := backend.values, now := backend.clock.now), p,
                         Fetched(ttls, key, renew, value)));
      ghost var n, kept := backend.clock.now, backend.values;
      FetchTells(key, value, old(backend.values), old(backend.clock.now), kept, n);
      if value.None? {
        return Ok(None), t;
      }
      if !ValidRecord(value.value) {
        return Err(InvalidStoredSession), t;
      }
      var session := value.value.session;

      var now := backend.clock.Read();
      CheckTells(key, value, old(backend.values), old(backend.clock.now), kept, n, now);
      CheckStep(Last(t).(now := now), p, ttls, key, session, renew);
      t := ContinueTimed(t, s, call, now, ClockCheck(p),
                         Goto(Last(t).(now := now), p, Checked(ttls, key, session, renew, now)));
      if session.absoluteExpiresAt <= now {
        var ok := backend.Delete(key);
        DeleteTells(key, value, old(backend.values), old(backend.clock.now), kept, n, now, ok, backend.values);
        ExpireStep(Last(t), p, key, renew, ok, backend.values);
        t := Continue(t, s, call, ExpireDelete(p, ok), Goto(Last(t).(store := backend.values), p, Absent(renew)));
        return Ok(None), t;
      }
      return Ok(Some(session)), t;
    }

    method Read(token: string, ghost s: State, ghost p: nat)
      returns (r: Result<Option<Session>, Failure>, ghost t: Trace)
      requires Valid() && Starts(s, p)
      modifies backend`values, backend.clock
      ensures Valid()
      ensures !TokenPattern(token) ==> r == Ok(None) && backend.values == old(backend.values)
                                       && backend.clock.now == old(backend.clock.now)
      ensures TokenPattern(token) ==>
                var call := ReadCall(p, StorageKey(digest, ns, token), false);
                && IsCall(t, s, call)
                && EndsAt(t, call, Ready(if r.Ok? then ReadReply(r.value) else InvalidStored),
                          backend.values, backend.clock.now)
      ensures TokenPattern(token) ==>
                ReadTells(StorageKey(digest, ns, token), r,
                          old(backend.values), old(backend.clock.now), backend.values, backend.clock.now)
    {
      hide IsCall;
      var key := Key(digest, ns, token);
      if key.None? {
        return Ok(None), Trace([], []);
      }
      r, t := Check(key.value, false, s, p);
    }

    /** The clock reading of a renewal, and the lifetime it asks for. */
    method TimeOnce(key: string, session: Session, ghost s: State, ghost call: Call, ghost t: Trace)
      returns (now: real, ttl: int, ghost t': Trace)
      requires Valid() && IsCall(t, s, call)
      requires EndsAt(t, call, Timing(ttls, key, session), backend.values, backend.clock.now)
      modifies backend.clock
      ensures Valid() && old(backend.clock.now) <= now == backend.clock.now && ttl == RenewTtl(ttls, session, now)
      ensures IsCall(t', s, call) && EndsAt(t', call, Timed(ttls, key, session, now), backend.values, now)
    {
      hide IsCall, Next, RenewTtl, Timed, NamespacePattern;
      now := backend.clock.Read();
      ttl := RenewTtl(ttls, session, now);
      TimeStep(Last(t).(now := now), call.p, ttls, key, session);
      t' := ContinueTimed(t, s, call, now, RenewClock(call.p),
                          Goto(Last(t).(now := now), call.p, Timed(ttls, key, session, now)));
    }

    method Renew(token: string, ghost s: State, ghost p: nat)
      returns (r: Result<Option<SessionGrant>, Failure>, ghost t: Trace)
      requires Valid() && Starts(s, p)
      modifies backend`values, backend.clock
      ensures Valid()
      ensures !TokenPattern(token) ==> r == Ok(None) && backend.values == old(backend.values)
                                       && backend.clock.now == old(backend.clock.now)
      ensures TokenPattern(token) ==>
                var key := StorageKey(digest, ns, token);
                && IsCall(t, s, ReadCall(p, key, true))
                && EndsAt(t, ReadCall(p, key, true),
                          match r
                          case Err(_) => Ready(InvalidStored)
                          case Ok(None) => Ready(RenewReply(None))
                          case Ok(Some(g)) => Ready(RenewReply(Some(Grant(key, g.session, g.expiresAt)))),
                          backend.values, backend.clock.now)
      ensures r.Ok? && r.value.Some? ==> r.value.value.token == token
      ensures TokenPattern(token) ==>
                RenewTells(StorageKey(digest, ns, token), ttls.idle, r,
                           old(backend.values), old(backend.clock.now), backend.values, backend.clock.now)
    {
      hide IsCall, EndsAt, NamespacePattern, TokenPattern, StorageKey, RenewTtl, Eager;
      hide StoredSession, ReadTells, RenewTells, TouchStep;
      var key := Key(digest, ns, token);
      if key.None? {
        return Ok(None), Trace([], []);
      }
      ghost var call := ReadCall(p, key.value, true);
      var found;
      ghost var s0, n0 := backend.values, backend.clock.now;
      found, t := Check(key.value, true, s, p);
      ghost var kept, n := backend.values, backend.clock.now;
      if found.Err? || found.value.None? {
        EndedTells(key.value, ttls.idle, found, s0, n0, kept, n);
        return if found.Err? then Err(found.error) else Ok(None), t;
      }
      var session := found.value.value;
      FoundTells(key.value, session, s0, n0, kept, n);

      var now, ttl;
      now, ttl, t := TimeOnce(key.value, session, s, call, t);
      RenewTtlLongest(ttls, session, now);
      if ttl < 1 {
        TooLateTells(key.value, ttls.idle, session, s0, n0, kept, now);
        return Ok(None), t;
      }
      var g := SessionGrant(token, session, now + ttl as real);
      var touched;
      touched, t := TouchOnce(key.value, session, now, ttl, s, call, t);
      TouchTells(key.value, ttls.idle, g, s0, n0, kept, n, now, ttl, touched, backend.values, backend.clock.now);
      return Ok(if touched then Some(g) else None), t;
    }

    /** The backend step that ends a renewal. */
    method TouchOnce(key: string, session: Session, now: real, ttl: int,
                     ghost s: State, ghost call: Call, ghost t: Trace)
      returns (ok: bool, ghost t': Trace)
      requires Valid() && 1 <= ttl <= ttls.idle
      requires IsCall(t, s, call)
      requires EndsAt(t, call, Touching(ttls, key, session, now, ttl), backend.values, backend.clock.now)
      modifies backend`values, backend.clock
      ensures Valid()
      ensures IsCall(t', s, call)
      ensures EndsAt(t', call, Ready(RenewReply(if ok then Some(Grant(key, session, now + ttl as real)) else None)),
                     backend.values, backend.clock.now)
      ensures TouchStep(old(backend.values), old(backend.clock.now), key, ttl, ok, backend.values, backend.clock.now)
    {
      hide IsCall;
      var touched := backend.Touch(key, ttl);
      ok := touched.ok;
      ghost var moved := Last(t).(store := backend.values, now := backend.clock.now);
      t' := Continue(t, s, call, BackendTouch(call.p, ok),
                     if ok then Issue(moved, call.p, Grant(key, session, now + ttl as real), true, now)
                     else Goto(moved, call.p, Absent(true)));
    }

    method Revoke(token: string, ghost s: State, ghost p: nat) returns (ok: bool, ghost t: Trace)
      requires Valid() && Starts(s, p)
      modifies backend`values
      ensures Valid()
      ensures ok <==> TokenPattern(token) && StorageKey(digest, ns, token) in old(backend.values)
      ensures !TokenPattern(token) ==> backend.values == old(backend.values)
      ensures TokenPattern(token) ==>
                var call := Call(p, StartRevoke(p, StorageKey(digest, ns, token)), {});
                IsCall(t, s, call) && EndsAt(t, call, Ready(RevokeReply(ok)), backend.values, backend.clock.now)
      ensures TokenPattern(token) ==> Eager(backend.values, backend.clock.now)
                                      == Eager(old(backend.values), backend.clock.now) - {StorageKey(digest, ns, token)}
    {
      hide IsCall, Next, DeleteStep, NamespacePattern, TokenPattern, StorageKey, Eager;
      var key := Key(digest, ns, token);
      if key.None? {
        return false, Trace([], []);
      }
      ghost var call := Call(p, StartRevoke(p, key.value), {});
      StartRevokeStep(s, p, key.value);
      assert s.(now := s.now) == s;
      t := Begin(s, s.now, call, Goto(s, p, Revoking(key.value)));
      ghost var before := backend.values;
      ok := backend.Delete(key.value);
      DeletedView(before, backend.clock.now, key.value, ok, backend.values);
      RevokeStep(Last(t), p, key.value, ok, backend.values);
      t := Continue(t, s, call, RevokeDelete(p, ok), Revoked(Last(t), p, key.value, ok, backend.values));
    }

    /** A session that has expired and that no purge has met is still there to be revoked: the
        revocation answers true for it, although no read finds it any more. */
    method RevokeExpired(token: string, ghost s: State, ghost p: nat) returns (ok: bool, ghost t: Trace)
      requires Valid() && Starts(s, p) && TokenPattern(token)
      requires var key := StorageKey(digest, ns, token);
               key in backend.values && Lookup(backend.values, key, backend.clock.now) == None
      modifies backend`values
      ensures ok && Valid()
      ensures var call := Call(p, StartRevoke(p, StorageKey(digest, ns, token)), {});
              IsCall(t, s, call) && EndsAt(t, call, Ready(RevokeReply(true)), backend.values, backend.clock.now)
    {
      hide IsCall;
      ok, t := Revoke(token, s, p);
    }

    /** One attempt of a create: the backend step for one drawn token. */
    method TryOnce(key: string, session: Session, length: nat, tries: nat,
                   ghost s: State, ghost call: Call, ghost t: Trace)
      returns (outcome: CreateOutcome, ghost t': Trace)
      requires Valid() && 0 < tries && key in call.drawable
      requires IsCall(t, s, call)
      requires EndsAt(t, call, Creating(ttls, session, length, tries), backend.values, backend.clock.now)
      modifies backend`values, backend.clock
      ensures Valid()
      ensures IsCall(t', s, call)
      ensures EndsAt(t', call,
                     match outcome
                     case Created =>
                       Ready(CreateReply(Some(Grant(key, session, session.createdAt + ttls.idle as real))))
                     case Collision =>
                       if tries == 1 then Ready(CreateReply(None)) else Creating(ttls, session, length, tries - 1)
                     case Full => Ready(CreateReply(None)),
                     backend.values, backend.clock.now)
      ensures CreateStep(old(backend.values), old(backend.clock.now), key, Record(session, length), ttls.idle,
                         outcome, backend.values, backend.clock.now)
      ensures outcome == Full ==> backend.capacity <= |Eager(old(backend.values), old(backend.clock.now))|
    {
      hide IsCall;
      var created := backend.Create(key, Record(session, length), ttls.idle);
      outcome := created.outcome;
      ghost var last := Last(t);
      ghost var moved := last.(store := backend.values, now := backend.clock.now);
      ghost var g := Grant(key, session, session.createdAt + ttls.idle as real);
      t' := Continue(t, s, call, TryCreate(call.p, key, outcome),
                     match outcome
                     case Created =>
                       Issue(moved, call.p, g, false, session.createdAt).(minted := last.minted[key := session])
                     case Collision =>
                       Goto(moved, call.p,
                            if tries == 1 then Ready(CreateReply(None)) else Creating(ttls, session, length, tries - 1))
                     case Full => Goto(moved, call.p, Ready(CreateReply(None))));
    }

    function DrawnKeys(draws: seq<seq<byte>>): set<string> {
      set i | 0 <= i < |draws| :: StorageKey(digest, ns, Token(draws[i]))
    }

    /** What a create call replies, in the protocol's terms. */
    function CreateReplyOf(r: Result<SessionGrant, Failure>): Pc {
      Ready(CreateReply(match r
                        case Err(_) => None
                        case Ok(g) => Some(Grant(StorageKey(digest, ns, g.token), g.session, g.expiresAt))))
    }

    /** The first `i` of the draws make tokens that are in use. */
    ghost predicate Taken(draws: seq<seq<byte>>, i: nat, s: Store, n: real)
      requires i <= |draws|
    {
      forall j :: 0 <= j < i ==> Live(s, StorageKey(digest, ns, Token(draws[j])), n)
    }

    lemma NoneTaken(draws: seq<seq<byte>>, s: Store, n: real)
      ensures Taken(draws, 0, s, n)
    {
    }

    lemma TakenSoFar(draws: seq<seq<byte>>, i: nat, s: Store, n: real)
      requires i < |draws| && Taken(draws, i, s, n) && Live(s, StorageKey(digest, ns, Token(draws[i])), n)
      ensures Taken(draws, i + 1, s, n)
    {
    }

    /** A grant for the idle lifetime, covered by the new entry; or three tokens already taken,
        or a store full of live entries. */
    ghost predicate CreateTells(r: Result<SessionGrant, Failure>, length: nat, draws: seq<seq<byte>>,
                                s: Store, n: real, s': Store, n': real)
      requires |draws| == 3
    {
      match r
      case Ok(g) =>
        var key := StorageKey(digest, ns, g.token);
        && g.expiresAt == g.session.createdAt + ttls.idle as real
        && !Live(s, key, n') && key in s' && s'[key].value == Record(g.session, length)
        && g.expiresAt <= s'[key].expires
      case Err(Unallocated) => Taken(draws, 3, s, n)
      case Err(Exhausted) => backend.capacity <= |Eager(s, n)|
      case Err(_) => false
    }

    lemma TellsCreated(g: SessionGrant, length: nat, draws: seq<seq<byte>>, s: Store, n: real, s': Store, n': real)
      requires |draws| == 3 && g.expiresAt == g.session.createdAt + ttls.idle as real && g.session.createdAt <= n'
      requires var key := StorageKey(digest, ns, g.token);
               !Live(s, key, n') && key in s' && s'[key] == Entry(Record(g.session, length), n' + ttls.idle as real)
      ensures CreateTells(Ok(g), length, draws, s, n, s', n')
    {
    }

    lemma TellsFull(length: nat, draws: seq<seq<byte>>, s: Store, n: real, s': Store, n': real)
      requires |draws| == 3 && backend.capacity <= |Eager(s, n)|
      ensures CreateTells(Err(Exhausted), length, draws, s, n, s', n')
    {
    }

    lemma TellsTaken(length: nat, draws: seq<seq<byte>>, s: Store, n: real, s': Store, n': real)
      requires |draws| == 3 && Taken(draws, 3, s, n)
      ensures CreateTells(Err(Unallocated), length, draws, s, n, s', n')
    {
    }

    lemma TellsEarlier(r: Result<SessionGrant, Failure>, length: nat, draws: seq<seq<byte>>,
                       s: Store, n: real, later: real, s': Store, n': real)
      requires |draws| == 3 && n <= later && CreateTells(r, length, draws, s, later, s', n')
      ensures CreateTells(r, length, draws, s, n, s', n')
    {
      hide Token, StorageKey, Eager;
      EagerShrinks(s, n, later);
    }

    /** The allocation loop of a create: at most three draws. */
    method Allocate(session: Session, length: nat, draws: seq<seq<byte>>,
                    ghost s: State, ghost call: Call, ghost t: Trace)
      returns (r: Result<SessionGrant, Failure>, ghost t': Trace)
      requires Valid()
      requires |draws| == 3 && forall i :: 0 <= i < 3 ==> |draws[i]| == 32
      requires call.drawable == DrawnKeys(draws) && IsCall(t, s, call) && session.createdAt <= backend.clock.now
      requires EndsAt(t, call, Creating(ttls, session, length, 3), backend.values, backend.clock.now)
      modifies backend`values, backend.clock
      ensures Valid()
      ensures r.Ok? || r.error == Exhausted || r.error == Unallocated
      ensures IsCall(t', s, call) && EndsAt(t', call, CreateReplyOf(r), backend.values, backend.clock.now)
      ensures r.Ok? ==> r.value.session == session
                        && exists i :: 0 <= i < 3 && r.value.token == Token(draws[i]) && TokenPattern(r.value.token)
      ensures CreateTells(r, length, draws, old(backend.values), old(backend.clock.now),
                          backend.values, backend.clock.now)
      ensures old(backend.clock.now) <= backend.clock.now
    {
      hide IsCall, EndsAt, Token, TokenPattern, StorageKey, NamespacePattern;
      hide Eager, Live, CreateStep, CreateTells, Taken;
      ghost var s0, n0 := backend.values, backend.clock.now;
      NoneTaken(draws, s0, n0);
      t' := t;
      for i := 0 to 3
        invariant Valid() && IsCall(t', s, call) && old(backend.clock.now) <= backend.clock.now
        invariant Eager(backend.values, backend.clock.now) == Eager(old(backend.values), backend.clock.now)
        invariant Taken(draws, i, s0, n0)
        invariant EndsAt(t', call, if i < 3 then Creating(ttls, session, length, 3 - i) else Ready(CreateReply(None)),
                         backend.values, backend.clock.now)
      {
        var token := Token(draws[i]);
        GeneratedTokenMatches(draws[i]);
        var outcome;
        ghost var kept, n := backend.values, backend.clock.now;
        outcome, t' := TryOnce(StorageKey(digest, ns, token), session, length, 3 - i, s, call, t');
        CreateTellsOf(old(backend.values), old(backend.clock.now), kept, n, StorageKey(digest, ns, token),
                      Record(session, length), ttls.idle, outcome, backend.values, backend.clock.now);
        match outcome {
          case Created =>
            var g := SessionGrant(token, session, session.createdAt + ttls.idle as real);
            TellsCreated(g, length, draws, s0, n0, backend.values, backend.clock.now);
            return Ok(g), t';
          case Full =>
            TellsFull(length, draws, s0, n0, backend.values, backend.clock.now);
            return Err(Exhausted), t';
          case Collision => TakenSoFar(draws, i, s0, n0);
        }
      }
      TellsTaken(length, draws, s0, n0, backend.values, backend.clock.now);
      return Err(Unallocated), t';
    }

    /** `draws` are the random bytes of the (at most three) attempts; `length` is the size of
        the record's JSON text. */
    method Create(subject: string, data: string, length: nat, draws: seq<seq<byte>>, ghost s: State, ghost p: nat)
      returns (r: Result<SessionGrant, Failure>, ghost t: Trace)
      requires Valid() && Starts(s, p)
      requires |draws| == 3 && forall i :: 0 <= i < 3 ==> |draws[i]| == 32
      modifies backend`values, backend.clock
      ensures Valid()
      ensures r == Err(InvalidArgument) <==> !(1 <= |subject| <= 256 && length <= 4096)
      ensures r == Err(InvalidArgument) ==> backend.values == old(backend.values)
      ensures r != Err(InvalidArgument) ==>
                var call := Call(p, StartCreate(p, ttls, subject, data, length), DrawnKeys(draws));
                IsCall(t, s, call) && EndsAt(t, call, CreateReplyOf(r), backend.values, backend.clock.now)
      ensures r.Ok? ==>
                var session := r.value.session;
                && session.subject == subject && session.data == data
                && old(backend.clock.now) <= session.createdAt <= backend.clock.now
                && session.absoluteExpiresAt == session.createdAt + ttls.absolute as real
      ensures r != Err(InvalidArgument) ==>
                CreateTells(r, length, draws, old(backend.values), old(backend.clock.now),
                            backend.values, backend.clock.now)
      ensures r.Ok? ==> exists i :: 0 <= i < 3 && r.value.token == Token(draws[i]) && TokenPattern(r.value.token)
    {
      hide IsCall, CreateTells, Eager, Token, TokenPattern, StorageKey, NamespacePattern;
      t := Trace([], []);
      if !(1 <= |subject| <= 256) {
        return Err(InvalidArgument), t;
      }
      var now := backend.clock.Read();
      if MAX_DATA_BYTES < length {
        return Err(InvalidArgument), t;
      }
      var session := Session(subject, data, now, now + ttls.absolute as real);
      ghost var call := Call(p, StartCreate(p, ttls, subject, data, length), DrawnKeys(draws));
      t := Begin(s, now, call, Goto(s.(now := now), p, Creating(ttls, session, length, 3)));
      ghost var n := backend.clock.now;
      r, t := Allocate(session, length, draws, s, call, t);
      TellsEarlier(r, length, draws, old(backend.values), old(backend.clock.now), n, backend.values, backend.clock.now);
    }
  }

  /** The Python constructor: a namespace of 1 to 64 URL-safe characters, and an idle lifetime
      of at least a second and at most the absolute one, which is at most 366 days. */
  method NewSessionManager(backend: MemorySessionBackend, ns: string, idle: int, absolute: int,
                           digest: string -> string)
    returns (r: Option<SessionManager>)
    requires backend.Valid()
    ensures r.Some? <==>
              && 1 <= |ns| <= 64
              && (forall i :: 0 <= i < |ns| ==> 'A' <= ns[i] <= 'Z' || 'a' <= ns[i] <= 'z' || '0' <= ns[i] <= '9'
                                                || ns[i] == '_' || ns[i] == '-')
              && 1 <= idle <= absolute <= 31622400
    ensures r.Some? ==> fresh(r.value) && r.value.Valid() && r.value.backend == backend && r.value.ns == ns
                        && r.value.ttls == Manager(idle, absolute) && r.value.digest == digest
  {
    assert forall i :: 0 <= i < |ns| ==> ns[i] in ns;
    if !NamespacePattern(ns) || !ValidManager(Manager(idle, absolute)) {
      return None;
    }
    var manager := new SessionManager(backend, ns, Manager(idle, absolute), digest);
    return Some(manager);
  }

  /** A manager's call, made where a run has got to, carries the run on: so the guarantees of
      every run (grants honoured, the absolute limit, no resurrection) cover its steps. */
  lemma CallExtendsRun(states: seq<State>, events: seq<Event>, t: Trace, call: Call)
    requires FreshRun(states, events) && IsCall(t, states[|events|], call)
    requires forall i {:trigger t.events[i]} :: 0 <= i < |t.events| ==> FreshDraw(t.states[i], t.events[i])
    ensures FreshRun(states + t.states[1..], events + t.events)
    ensures (states + t.states[1..])[|events + t.events|] == Last(t)
  {
    var ss, es := states + t.states[1..], events + t.events;
    forall i {:trigger es[i]} | 0 <= i < |es|
      ensures Next(ss[i], es[i], ss[i + 1]) && FreshDraw(ss[i], es[i])
    {
      if i < |events| {
        assert Next(states[i], events[i], states[i + 1]);
        assert FreshDraw(states[i], events[i]);
      } else {
        var k := i - |events|;
        assert es[i] == t.events[k] && ss[i + 1] == t.states[k + 1];
        assert ss[i] == t.states[k];
        assert Next(t.states[k], t.events[k], t.states[k + 1]);
      }
    }
  }

  /** Any number of managers on one backend: whatever those of other namespaces do, a
      namespace's own sessions cannot tell. */
  lemma NamespacesIsolated(digest: string -> string, b: string, token: string,
                           states: seq<State>, events: seq<Event>, i: nat, j: nat)
    requires Injective(digest) && NamespacePattern(b)
    requires Run(states, events) && i <= j <= |events|
    // every backend step in between is made by a manager of some other namespace
    requires forall m :: i <= m < j && Target(states[m], events[m]).Some? ==>
                           exists a, t :: NamespacePattern(a) && a != b
                                          && Target(states[m], events[m]) == Some(StorageKey(digest, a, t))
    ensures var k := StorageKey(digest, b, token);
            Lookup(states[j].store, k, states[j].now) == Lookup(states[i].store, k, states[j].now)
  {
    var k := StorageKey(digest, b, token);
    forall m | i <= m < j ensures Target(states[m], events[m]) != Some(k) {
      if Target(states[m], events[m]) == Some(k) {
        var a, t :| NamespacePattern(a) && a != b && Target(states[m], events[m]) == Some(StorageKey(digest, a, t));
        KeyInjective(digest, a, t, b, token);
      }
    }
    KeysIndependent(states, events, i, j, k);
  }
}
