/** Any number of callers creating, reading, renewing and revoking sessions over one
    backend and one monotone clock, interleaved at every clock reading and every backend
    operation. The backend is only known by the contract of SessionStore. */
module SessionProtocol {
  import opened Outcomes
  import opened SessionStore

  /** The two lifetimes a manager was configured with, in seconds. */
  datatype Manager = Manager(idle: int, absolute: int)

  predicate ValidManager(m: Manager) {
    ValidTtl(m.idle) && ValidTtl(m.absolute) && m.idle <= m.absolute
  }

  datatype Grant = Grant(key: string, session: Session, expires: real)

  datatype Reply =
    | NoReply
    | CreateReply(granted: Option<Grant>)   // None: allocation failed or storage is full
    | ReadReply(found: Option<Session>)
    | RenewReply(renewed: Option<Grant>)
    | RevokeReply(ok: bool)
    | InvalidStored                          // the stored record failed validation

  /** Where a caller stands between two steps. */
  datatype Pc =
    | Ready(last: Reply)
    | Creating(m: Manager, session: Session, length: nat, tries: nat)
    | Reading(m: Manager, key: string, renew: bool)
    | Checking(m: Manager, key: string, session: Session, renew: bool)
    | Expiring(key: string, renew: bool)
    | Timing(m: Manager, key: string, session: Session)
    | Touching(m: Manager, key: string, session: Session, readAt: real, ttl: int)
    | Revoking(key: string)

  /** The store, the clock and the callers; then what has happened so far: the record first
      stored under each key, every grant handed out, the keys whose revocation took effect,
      and the longest delay between an operation's clock reading and its backend write. */
  datatype State = State(store: Store, now: real, procs: map<nat, Pc>,
                         minted: map<string, Session>, grants: set<Grant>, revoked: set<string>, lag: real)

  datatype Event =
    | Tick(d: real)
    | StartCreate(p: nat, m: Manager, subject: string, data: string, length: nat)
    | TryCreate(p: nat, drawn: string, outcome: CreateOutcome)
    | StartRead(p: nat, m: Manager, key: string, renew: bool)
    | BackendRead(p: nat, found: Option<Value>)
    | ClockCheck(p: nat)
    | ExpireDelete(p: nat, ok: bool)
    | RenewClock(p: nat)
    | BackendTouch(p: nat, ok: bool)
    | StartRevoke(p: nat, key: string)
    | RevokeDelete(p: nat, ok: bool)

  predicate ValidRecord(v: Value) {
    v.Record? && 1 <= |v.session.subject| <= 256 && v.length <= MAX_DATA_BYTES
  }

  /** Python's int(): truncation toward zero. */
  function Truncate(x: real): int {
    if 0.0 <= x then x.Floor else -((-x).Floor)
  }

  function RenewTtl(m: Manager, session: Session, now: real): int {
    var left := Truncate(session.absoluteExpiresAt - now);
    if m.idle < left then m.idle else left
  }

  function Absent(renew: bool): Pc {
    Ready(if renew then RenewReply(None) else ReadReply(None))
  }

  function Goto(s: State, p: nat, pc: Pc): State {
    s.(procs := s.procs[p := pc])
  }

  function Issue(s: State, p: nat, g: Grant, renewed: bool, readAt: real): State {
    Goto(s, p, Ready(if renewed then RenewReply(Some(g)) else CreateReply(Some(g))))
    .(grants := s.grants + {g}, lag := Max(s.lag, s.now - readAt))
  }

  /** A backend step, as far as the caller sees it: `s` moved to the store and clock of `s'`. */
  function Moved(s: State, s': State): State {
    s.(store := s'.store, now := s'.now)
  }

  ghost predicate Next(s: State, e: Event, s': State) {
    match e
    case Tick(d) =>
      0.0 <= d && s' == s.(now := s.now + d)
    case StartCreate(p, m, subject, data, length) =>
      && p in s.procs && s.procs[p].Ready? && ValidManager(m)
      && 1 <= |subject| <= 256 && length <= MAX_DATA_BYTES
      && s' == Goto(s, p, Creating(m, Session(subject, data, s.now, s.now + m.absolute as real), length, 3))
    case TryCreate(p, drawn, outcome) =>
      && p in s.procs && s.procs[p].Creating? && 0 < s.procs[p].tries
      && var pc := s.procs[p];
      && CreateStep(s.store, s.now, drawn, Record(pc.session, pc.length), pc.m.idle, outcome, s'.store, s'.now)
      && (match outcome
          case Created =>
            var g := Grant(drawn, pc.session, pc.session.createdAt + pc.m.idle as real);
            s' == Issue(Moved(s, s'), p, g, false, pc.session.createdAt).(minted := s.minted[drawn := pc.session])
          case Collision =>
            s' == Goto(Moved(s, s'), p, if pc.tries == 1 then Ready(CreateReply(None)) else pc.(tries := pc.tries - 1))
          case Full =>
            s' == Goto(Moved(s, s'), p, Ready(CreateReply(None))))
    case StartRead(p, m, key, renew) =>
      p in s.procs && s.procs[p].Ready? && ValidManager(m) && s' == Goto(s, p, Reading(m, key, renew))
    case BackendRead(p, found) =>
      && p in s.procs && s.procs[p].Reading?
      && var pc := s.procs[p];
      && ReadStep(s.store, s.now, pc.key, found, s'.store, s'.now)
      && s' == Goto(Moved(s, s'), p,
                    match found
                    case None => Absent(pc.renew)
                    case Some(v) =>
                      if ValidRecord(v) then Checking(pc.m, pc.key, v.session, pc.renew) else Ready(InvalidStored))
    case ClockCheck(p) =>
      && p in s.procs && s.procs[p].Checking?
      && var pc := s.procs[p];
      && s' == Goto(s, p,
                    if pc.session.absoluteExpiresAt <= s.now then Expiring(pc.key, pc.renew)
                    else if pc.renew then Timing(pc.m, pc.key, pc.session)
                    else Ready(ReadReply(Some(pc.session))))
    case ExpireDelete(p, ok) =>
      && p in s.procs && s.procs[p].Expiring?
      && DeleteStep(s.store, s.now, s.procs[p].key, ok, s'.store, s'.now)
      && s' == Goto(Moved(s, s'), p, Absent(s.procs[p].renew))
    case RenewClock(p) =>
      && p in s.procs && s.procs[p].Timing?
      && var pc := s.procs[p];
      && var ttl := RenewTtl(pc.m, pc.session, s.now);
      && s' == Goto(s, p, if ttl < 1 then Absent(true) else Touching(pc.m, pc.key, pc.session, s.now, ttl))
    case BackendTouch(p, ok) =>
      && p in s.procs && s.procs[p].Touching?
      && var pc := s.procs[p];
      && TouchStep(s.store, s.now, pc.key, pc.ttl, ok, s'.store, s'.now)
      && s' == (if !ok then Goto(Moved(s, s'), p, Absent(true))
                else
                  var g := Grant(pc.key, pc.session, pc.readAt + pc.ttl as real);
                  Issue(Moved(s, s'), p, g, true, pc.readAt))
    case StartRevoke(p, key) =>
      p in s.procs && s.procs[p].Ready? && s' == Goto(s, p, Revoking(key))
    case RevokeDelete(p, ok) =>
      && p in s.procs && s.procs[p].Revoking?
      && var key := s.procs[p].key;
      && DeleteStep(s.store, s.now, key, ok, s'.store, s'.now)
      && s' == Goto(Moved(s, s'), p, Ready(RevokeReply(ok)))
               .(revoked := if key in s.minted then s.revoked + {key} else s.revoked)
  }

  ghost predicate Init(s: State) {
    && s.store == map[] && s.minted == map[] && s.grants == {} && s.revoked == {} && s.lag == 0.0
    && forall p :: p in s.procs ==> s.procs[p] == Ready(NoReply)
  }

  /** 256-bit tokens: a draw that succeeds was never drawn before. */
  ghost predicate FreshDraw(s: State, e: Event) {
    e.TryCreate? && e.outcome == Created ==> e.drawn !in s.minted
  }

  /** A finite run; nothing is assumed of its first state, nor of the tokens drawn. */
  ghost predicate Run(states: seq<State>, events: seq<Event>) {
    && |states| == |events| + 1
    && forall i {:trigger events[i]} :: 0 <= i < |events| ==> Next(states[i], events[i], states[i + 1])
  }

  ghost predicate FreshRun(states: seq<State>, events: seq<Event>) {
    && Run(states, events)
    && Init(states[0])
    && forall i {:trigger events[i]} :: 0 <= i < |events| ==> FreshDraw(states[i], events[i])
  }

  /** The key a backend step works on. */
  function Target(s: State, e: Event): Option<string> {
    match e
    case TryCreate(_, drawn, _) => Some(drawn)
    case BackendRead(p, _) => if p in s.procs && s.procs[p].Reading? then Some(s.procs[p].key) else None
    case ExpireDelete(p, _) => if p in s.procs && s.procs[p].Expiring? then Some(s.procs[p].key) else None
    case BackendTouch(p, _) => if p in s.procs && s.procs[p].Touching? then Some(s.procs[p].key) else None
    case RevokeDelete(p, _) => if p in s.procs && s.procs[p].Revoking? then Some(s.procs[p].key) else None
    case _ => None
  }

  predicate Creates(e: Event, key: string) {
    e.TryCreate? && e.drawn == key && e.outcome == Created
  }

  // ---- one step

  /** What a step can do to a key: nothing brings it to life but a create that draws it;
      nothing removes it before its expiry but a delete aimed at it; while it lives its
      value stays and its expiry never comes closer. */
  lemma StepOnKey(s: State, e: Event, s': State, k: string)
    requires Next(s, e, s')
    ensures s.now <= s'.now
    ensures Live(s'.store, k, s'.now) && !Live(s.store, k, s.now) ==> Creates(e, k)
    ensures Live(s.store, k, s'.now) && !Live(s'.store, k, s'.now) ==>
              (e.ExpireDelete? || e.RevokeDelete?) && Target(s, e) == Some(k)
    ensures Live(s.store, k, s'.now) && Live(s'.store, k, s'.now) ==>
              && s'.store[k].value == s.store[k].value
              && s.store[k].expires <= s'.store[k].expires
              && (s'.store[k] != s.store[k] ==> e.BackendTouch? && e.ok && Target(s, e) == Some(k))
    ensures e.RevokeDelete? && Target(s, e) == Some(k) ==> !Live(s'.store, k, s'.now)
    ensures Live(s'.store, k, s'.now) && !Live(s.store, k, s'.now) ==>
              Target(s, e) == Some(k) && (Creates(e, k) || (e.BackendTouch? && e.ok))
  {
    EagerAt(s.store, s'.now, k);
    EagerAt(s'.store, s'.now, k);
  }

  // ---- no resurrection

  lemma {:induction false} StaysDead(states: seq<State>, events: seq<Event>, i: nat, j: nat, key: string)
    requires Run(states, events) && i <= j <= |events|
    requires !Live(states[i].store, key, states[i].now)
    requires forall m :: i <= m < j ==> !Creates(events[m], key)
    ensures !Live(states[j].store, key, states[j].now)
  {
    if i < j {
      StaysDead(states, events, i, j - 1, key);
      StepOnKey(states[j - 1], events[j - 1], states[j], key);
    }
  }

  /** Once a revocation's delete has taken effect (event i), no later backend step for that
      key finds it: a read finds nothing, and a renewal's touch fails even if the renewal had
      read the record before the delete. This holds of every run, whatever its first state,
      as long as no later create draws the same token again. */
  lemma NoResurrection(states: seq<State>, events: seq<Event>, i: nat, j: nat, key: string)
    requires Run(states, events) && i < j < |events|
    requires events[i].RevokeDelete? && Target(states[i], events[i]) == Some(key)
    requires forall m :: i < m < j ==> !Creates(events[m], key)
    requires Target(states[j], events[j]) == Some(key)
    ensures events[j].BackendRead? ==>
              && events[j].found == None
              && (states[j + 1].procs[events[j].p] == Ready(ReadReply(None))
                  || states[j + 1].procs[events[j].p] == Ready(RenewReply(None)))
    ensures events[j].BackendTouch? ==>
              !events[j].ok && states[j + 1].procs[events[j].p] == Ready(RenewReply(None))
    ensures !Creates(events[j], key) ==> !Live(states[j + 1].store, key, states[j + 1].now)
  {
    StepOnKey(states[i], events[i], states[i + 1], key);
    StaysDead(states, events, i + 1, j, key);
    var s, e, s' := states[j], events[j], states[j + 1];
    assert Next(s, e, s');
    StepOnKey(s, e, s', key);
  }

  // ---- what every reachable state keeps

  /** A live entry is the record first stored under its key, not revoked, and expires no
      later than its absolute limit plus the delay seen so far. */
  ghost predicate EntryOk(s: State, k: string) {
    Live(s.store, k, s.now) ==>
      && k in s.minted && k !in s.revoked
      && ValidRecord(s.store[k].value) && s.store[k].value.session == s.minted[k]
      && s.store[k].expires <= s.minted[k].absoluteExpiresAt + s.lag
  }

  /** A grant keeps its promise: capped, and until it lapses or is revoked its entry lives. */
  ghost predicate GrantOk(s: State, g: Grant) {
    && g.key in s.minted && g.session == s.minted[g.key]
    && g.expires <= g.session.absoluteExpiresAt
    && (s.now < g.expires && g.key !in s.revoked ==>
          Live(s.store, g.key, s.now) && g.expires <= s.store[g.key].expires)
  }

  ghost predicate ReplyOk(s: State, r: Reply) {
    match r
    case CreateReply(Some(g)) => g in s.grants
    case RenewReply(Some(g)) => g in s.grants
    case ReadReply(Some(session)) => session in s.minted.Values
    case InvalidStored => false
    case _ => true
  }

  ghost predicate MintedAs(s: State, key: string, session: Session) {
    key in s.minted && s.minted[key] == session
  }

  ghost predicate PcOk(s: State, pc: Pc) {
    match pc
    case Ready(last) => ReplyOk(s, last)
    case Creating(m, session, length, _) =>
      && ValidManager(m) && ValidRecord(Record(session, length))
      && session.createdAt <= s.now
      && session.absoluteExpiresAt == session.createdAt + m.absolute as real
    case Reading(m, _, _) => ValidManager(m)
    case Checking(m, key, session, _) => ValidManager(m) && MintedAs(s, key, session)
    case Expiring(key, _) => key in s.minted && s.minted[key].absoluteExpiresAt <= s.now
    case Timing(m, key, session) => ValidManager(m) && MintedAs(s, key, session)
    case Touching(m, key, session, readAt, ttl) =>
      && ValidManager(m) && MintedAs(s, key, session)
      && readAt <= s.now && 1 <= ttl <= m.idle
      && readAt + ttl as real <= session.absoluteExpiresAt
    case Revoking(_) => true
  }

  ghost predicate Inv(s: State) {
    && 0.0 <= s.lag
    && (forall k :: EntryOk(s, k))
    && (forall g :: g in s.grants ==> GrantOk(s, g))
    && (forall p :: p in s.procs ==> PcOk(s, s.procs[p]))
    && s.revoked <= s.minted.Keys
  }

  /** Everything the history only grows in. */
  ghost predicate Grows(s: State, s': State) {
    && s.now <= s'.now && s.lag <= s'.lag
    && s.grants <= s'.grants && s.revoked <= s'.revoked
    && forall k :: k in s.minted ==> MintedAs(s', k, s.minted[k])
  }

  lemma StepGrows(s: State, e: Event, s': State)
    requires Next(s, e, s') && FreshDraw(s, e)
    ensures Grows(s, s')
  {
  }

  lemma TruncateBelow(x: real)
    ensures 1 <= Truncate(x) ==> Truncate(x) as real <= x
    ensures 1.0 <= x ==> 1 <= Truncate(x)
    ensures x < 1.0 ==> Truncate(x) < 1
  {
  }

  /** The lifetime a renewal asks for is the longest in whole seconds that passes neither the
      idle lifetime nor the absolute limit; there is none exactly in the last second. */
  lemma RenewTtlLongest(m: Manager, session: Session, now: real)
    requires 1 <= m.idle
    ensures var ttl := RenewTtl(m, session, now);
            && (ttl < 1 <==> session.absoluteExpiresAt < now + 1.0)
            && (1 <= ttl ==>
                  && ttl <= m.idle && now + ttl as real <= session.absoluteExpiresAt
                  && (ttl == m.idle || session.absoluteExpiresAt < now + ttl as real + 1.0))
  {
  }

  lemma StepKeepsEntries(s: State, e: Event, s': State, k: string)
    requires Inv(s) && Next(s, e, s') && FreshDraw(s, e)
    ensures EntryOk(s', k)
  {
    StepGrows(s, e, s');
    StepOnKey(s, e, s', k);
    EagerAt(s.store, s'.now, k);
    EagerAt(s'.store, s'.now, k);
    assert EntryOk(s, k);
    if Live(s'.store, k, s'.now) {
      if e.RevokeDelete? {
      } else if e.TryCreate? {
        assert PcOk(s, s.procs[e.p]);
      } else if e.BackendTouch? {
        assert PcOk(s, s.procs[e.p]);
      } else {
      }
    }
  }

  lemma StepKeepsGrants(s: State, e: Event, s': State, g: Grant)
    requires Inv(s) && Next(s, e, s') && FreshDraw(s, e) && g in s'.grants
    ensures GrantOk(s', g)
  {
    StepGrows(s, e, s');
    StepOnKey(s, e, s', g.key);
    EagerAt(s.store, s'.now, g.key);
    EagerAt(s'.store, s'.now, g.key);
    if !e.Tick? {
      assert PcOk(s, s.procs[e.p]);
    }
    if g in s.grants {
      assert GrantOk(s, g);
    }
  }

  lemma PcKept(s: State, s': State, pc: Pc)
    requires PcOk(s, pc) && Grows(s, s')
    ensures PcOk(s', pc)
  {
    match pc
    case Ready(ReadReply(Some(session))) =>
      var k :| k in s.minted && s.minted[k] == session;
      assert MintedAs(s', k, session);
    case _ =>
  }

  lemma ReadKeepsCaller(s: State, e: Event, s': State)
    requires Inv(s) && Next(s, e, s') && (e.BackendRead? || e.ClockCheck?)
    ensures PcOk(s', s'.procs[e.p])
  {
    assert PcOk(s, s.procs[e.p]);
    assert EntryOk(s, s.procs[e.p].key);
  }

  lemma RenewKeepsCaller(s: State, e: Event, s': State)
    requires Inv(s) && Next(s, e, s') && (e.RenewClock? || e.BackendTouch?)
    ensures PcOk(s', s'.procs[e.p])
  {
    var pc := s.procs[e.p];
    assert PcOk(s, pc);
    TruncateBelow(pc.session.absoluteExpiresAt - s.now);
  }

  lemma StepKeepsCallers(s: State, e: Event, s': State, p: nat)
    requires Inv(s) && Next(s, e, s') && FreshDraw(s, e) && p in s'.procs
    ensures PcOk(s', s'.procs[p])
  {
    StepGrows(s, e, s');
    assert PcOk(s, s.procs[p]);
    if e.Tick? || e.p != p {
      PcKept(s, s', s.procs[p]);
    } else if e.BackendRead? || e.ClockCheck? {
      ReadKeepsCaller(s, e, s');
    } else if e.RenewClock? || e.BackendTouch? {
      RenewKeepsCaller(s, e, s');
    }
  }

  lemma StepKeepsInv(s: State, e: Event, s': State)
    requires Inv(s) && Next(s, e, s') && FreshDraw(s, e)
    ensures Inv(s') && Grows(s, s')
  {
    StepGrows(s, e, s');
    forall k ensures EntryOk(s', k) { StepKeepsEntries(s, e, s', k); }
    forall g | g in s'.grants ensures GrantOk(s', g) { StepKeepsGrants(s, e, s', g); }
    forall p | p in s'.procs ensures PcOk(s', s'.procs[p]) { StepKeepsCallers(s, e, s', p); }
  }

  lemma {:induction false} Reachable(states: seq<State>, events: seq<Event>, i: nat)
    requires FreshRun(states, events) && i <= |events|
    ensures Inv(states[i])
  {
    if 0 < i {
      Reachable(states, events, i - 1);
      StepKeepsInv(states[i - 1], events[i - 1], states[i]);
    }
  }

  lemma {:induction false} TimePasses(states: seq<State>, events: seq<Event>, i: nat, j: nat)
    requires FreshRun(states, events) && i <= j <= |events|
    ensures Grows(states[i], states[j])
  {
    if i < j {
      TimePasses(states, events, i, j - 1);
      StepGrows(states[j - 1], events[j - 1], states[j]);
    }
  }

  // ---- the grant promise

  predicate Acts(e: Event, p: nat) {
    !e.Tick? && e.p == p
  }

  lemma {:induction false} CallerWaits(states: seq<State>, events: seq<Event>, i: nat, j: nat, p: nat)
    requires Run(states, events) && i <= j <= |events| && p in states[i].procs
    requires forall m :: i <= m < j ==> !Acts(events[m], p)
    ensures p in states[j].procs && states[j].procs[p] == states[i].procs[p]
  {
    if i < j {
      CallerWaits(states, events, i, j - 1, p);
      assert Next(states[j - 1], events[j - 1], states[j]);
      assert !Acts(events[j - 1], p);
    }
  }

  /** Every grant, from create or from renew, is honoured: a read whose backend step (event
      a) follows the grant and whose expiry check (event b) comes before `expires` returns
      the granted session, unless the token was revoked. Other renewals, stale touches,
      purges and expiry deletes may run in between. */
  lemma GrantHonoured(states: seq<State>, events: seq<Event>, a: nat, b: nat, g: Grant)
    requires FreshRun(states, events) && a < b < |events|
    requires g in states[a].grants
    requires events[a].BackendRead? && Target(states[a], events[a]) == Some(g.key)
    requires events[b].ClockCheck? && events[b].p == events[a].p
    requires forall m :: a < m < b ==> !Acts(events[m], events[a].p)
    requires states[b].now < g.expires
    requires g.key !in states[a].revoked
    ensures var renew := states[a].procs[events[a].p].renew;
            var after := states[b + 1].procs[events[b].p];
            && events[a].found.Some? && events[a].found.value.Record? && events[a].found.value.session == g.session
            && (!renew ==> after == Ready(ReadReply(Some(g.session))))
            && (renew ==> after.Timing? && after.key == g.key && after.session == g.session)
  {
    var p := events[a].p;
    Reachable(states, events, a);
    assert GrantOk(states[a], g) && EntryOk(states[a], g.key);
    assert Next(states[a], events[a], states[a + 1]);
    TimePasses(states, events, a + 1, b);
    assert Live(states[a].store, g.key, states[a + 1].now);
    CallerWaits(states, events, a + 1, b, p);
    assert Next(states[b], events[b], states[b + 1]);
  }

  /** And a renewal's touch that completes before the grant lapses cannot fail, again
      unless the token was revoked: it hands out a new grant for the same session. */
  lemma TouchHonoured(states: seq<State>, events: seq<Event>, d: nat, g: Grant)
    requires FreshRun(states, events) && d < |events|
    requires g in states[d].grants
    requires events[d].BackendTouch? && Target(states[d], events[d]) == Some(g.key)
    requires states[d + 1].now < g.expires
    requires g.key !in states[d].revoked
    ensures events[d].ok
    ensures exists h :: h in states[d + 1].grants && h.key == g.key && h.session == g.session
                        && states[d + 1].procs[events[d].p] == Ready(RenewReply(Some(h)))
  {
    Reachable(states, events, d);
    var s, e, s' := states[d], events[d], states[d + 1];
    assert Next(s, e, s');
    assert GrantOk(s, g) && PcOk(s, s.procs[e.p]);
    var pc := s.procs[e.p];
    var h := Grant(pc.key, pc.session, pc.readAt + pc.ttl as real);
    assert h in s'.grants;
  }

  // ---- the absolute limit

  /** A step that writes the entry under `k`. */
  predicate WritesTo(s: State, e: Event, k: string) {
    Creates(e, k) || (e.BackendTouch? && e.ok && Target(s, e) == Some(k))
  }

  /** The clock reading of the operation a create's or a touch's backend step belongs to. */
  function ClockRead(s: State, e: Event): real {
    if e.TryCreate? && e.p in s.procs && s.procs[e.p].Creating? then s.procs[e.p].session.createdAt
    else if e.BackendTouch? && e.p in s.procs && s.procs[e.p].Touching? then s.procs[e.p].readAt
    else s.now
  }

  /** The entry under `k` passes its limit by no more than the delay of event `m`, which wrote it. */
  ghost predicate OwesTo(states: seq<State>, events: seq<Event>, n: nat, k: string, m: nat)
    requires n < |states| && m < |events| && m + 1 < |states|
  {
    && WritesTo(states[m], events[m], k)
    && k in states[n].minted && k in states[n].store
    && states[n].store[k].expires
       <= states[n].minted[k].absoluteExpiresAt + (states[m + 1].now - ClockRead(states[m], events[m]))
  }

  /** A write leaves the expiry it found, or one late by no more than the write itself. */
  lemma WriteDelay(s: State, e: Event, s': State, k: string)
    requires Inv(s) && Next(s, e, s') && FreshDraw(s, e) && WritesTo(s, e, k)
    ensures Live(s'.store, k, s'.now) && k in s'.minted
    ensures (Live(s.store, k, s.now) && k in s.minted && s'.minted[k] == s.minted[k]
             && s'.store[k].expires == s.store[k].expires)
            || s'.store[k].expires <= s'.minted[k].absoluteExpiresAt + (s'.now - ClockRead(s, e))
  {
    var pc := s.procs[e.p];
    assert PcOk(s, pc) && EntryOk(s, k);
    EagerAt(s.store, s'.now, k);
    EagerAt(s'.store, s'.now, k);
  }

  lemma {:induction false} OwnDelay(states: seq<State>, events: seq<Event>, n: nat, k: string) returns (m: nat)
    requires FreshRun(states, events) && n <= |events| && Live(states[n].store, k, states[n].now)
    ensures m < n && OwesTo(states, events, n, k, m)
  {
    hide Next, FreshDraw, Inv;
    assert 0 < n;
    m := n - 1;
    var s, e, s' := states[m], events[m], states[n];
    Reachable(states, events, m);
    StepOnKey(s, e, s', k);
    StepGrows(s, e, s');
    if WritesTo(s, e, k) {
      WriteDelay(s, e, s', k);
    }
    if !OwesTo(states, events, n, k, m) {
      m := OwnDelay(states, events, n - 1, k);
      assert MintedAs(s', k, s.minted[k]);
    }
  }

  /** No renewal schedule passes the absolute limit: every grant lapses by it, no read
      succeeds at or after it, and an entry outlives it by no more than the delay between the
      clock reading and the write of one operation that wrote this very entry; so by no more
      than the longest such delay. Stored records are never invalid. */
  lemma AbsoluteCap(states: seq<State>, events: seq<Event>, i: nat)
    requires FreshRun(states, events) && i <= |events|
    ensures forall g :: g in states[i].grants ==> g.expires <= g.session.absoluteExpiresAt
    ensures forall k :: Live(states[i].store, k, states[i].now) ==>
                          k in states[i].minted
                          && states[i].store[k].expires <= states[i].minted[k].absoluteExpiresAt + states[i].lag
    ensures forall k :: Live(states[i].store, k, states[i].now) ==>
                          exists m: nat :: m < i && OwesTo(states, events, i, k, m)
    ensures forall p :: p in states[i].procs ==> states[i].procs[p] != Ready(InvalidStored)
    ensures i < |events| && events[i].ClockCheck? ==>
              var pc := states[i].procs[events[i].p];
              && pc.Checking? && MintedAs(states[i], pc.key, pc.session)
              && (states[i + 1].procs[events[i].p].Expiring? <==> pc.session.absoluteExpiresAt <= states[i].now)
  {
    Reachable(states, events, i);
    var s := states[i];
    forall g | g in s.grants ensures g.expires <= g.session.absoluteExpiresAt { assert GrantOk(s, g); }
    forall k | Live(s.store, k, s.now)
      ensures k in s.minted && s.store[k].expires <= s.minted[k].absoluteExpiresAt + s.lag
    {
      assert EntryOk(s, k);
    }
    forall k | Live(s.store, k, s.now)
      ensures exists m: nat :: m < i && OwesTo(states, events, i, k, m)
    {
      var _ := OwnDelay(states, events, i, k);
    }
    forall p | p in s.procs ensures s.procs[p] != Ready(InvalidStored) { assert PcOk(s, s.procs[p]); }
    if i < |events| && events[i].ClockCheck? {
      assert Next(s, events[i], states[i + 1]);
      assert PcOk(s, s.procs[events[i].p]);
    }
  }

  /** The record stored by a create lives for the creating manager's absolute lifetime. */
  lemma CreatedLifetime(states: seq<State>, events: seq<Event>, i: nat)
    requires FreshRun(states, events) && i < |events|
    requires events[i].TryCreate? && events[i].outcome == Created
    ensures var pc := states[i].procs[events[i].p];
            && pc.Creating?
            && MintedAs(states[i + 1], events[i].drawn, pc.session)
            && pc.session.absoluteExpiresAt == pc.session.createdAt + pc.m.absolute as real
            && (forall j :: i < j <= |events| ==> MintedAs(states[j], events[i].drawn, pc.session))
  {
    Reachable(states, events, i);
    assert Next(states[i], events[i], states[i + 1]);
    assert PcOk(states[i], states[i].procs[events[i].p]);
    forall j | i < j <= |events| ensures MintedAs(states[j], events[i].drawn, states[i].procs[events[i].p].session) {
      TimePasses(states, events, i + 1, j);
      assert events[i].drawn in states[i + 1].minted;
    }
  }

  /** The stored expiry under `k` respects the record's own absolute limit. */
  ghost predicate CappedAt(s: State, k: string) {
    Live(s.store, k, s.now) ==> k in s.minted && s.store[k].expires <= s.minted[k].absoluteExpiresAt
  }

  ghost predicate Capped(s: State) {
    forall k :: CappedAt(s, k)
  }

  /** A backend write that comes early enough after its clock reading. A create may be late by
      what the idle lifetime leaves of the absolute one; a touch must put its new expiry, counted
      from the instant of the write, at the absolute limit or before. */
  predicate InSlack(s: State, e: Event, s': State) {
    && (e.TryCreate? && e.outcome == Created && e.p in s.procs && s.procs[e.p].Creating? ==>
          var pc := s.procs[e.p];
          s'.now - pc.session.createdAt <= (pc.m.absolute - pc.m.idle) as real)
    && (e.BackendTouch? && e.ok && e.p in s.procs && s.procs[e.p].Touching? ==>
          var pc := s.procs[e.p];
          s'.now + pc.ttl as real <= pc.session.absoluteExpiresAt)
  }

  lemma OtherKeyCapped(s: State, e: Event, s': State, k: string)
    requires Inv(s) && CappedAt(s, k) && Next(s, e, s') && FreshDraw(s, e)
    requires !Creates(e, k) && !(e.BackendTouch? && e.ok && Target(s, e) == Some(k))
    ensures CappedAt(s', k)
  {
    hide Next, FreshDraw;
    StepGrows(s, e, s');
    StepOnKey(s, e, s', k);
    if Live(s'.store, k, s'.now) {
      assert s'.store[k] == s.store[k];
      assert MintedAs(s', k, s.minted[k]);
    }
  }

  lemma CreateCapped(s: State, e: Event, s': State)
    requires Inv(s) && Next(s, e, s') && FreshDraw(s, e) && e.TryCreate? && e.outcome == Created
    ensures CappedAt(s', e.drawn) <==> InSlack(s, e, s')
  {
    assert PcOk(s, s.procs[e.p]);
    EagerAt(s'.store, s'.now, e.drawn);
  }

  lemma TouchCapped(s: State, e: Event, s': State)
    requires Inv(s) && Capped(s) && Next(s, e, s') && e.BackendTouch? && e.ok
    ensures CappedAt(s', s.procs[e.p].key) <==> InSlack(s, e, s')
  {
    var k := s.procs[e.p].key;
    assert PcOk(s, s.procs[e.p]) && CappedAt(s, k);
    EagerAt(s.store, s'.now, k);
    EagerAt(s'.store, s'.now, k);
  }

  /** A step from a capped state leads to a capped state exactly if it is within its slack. */
  lemma StepCapped(s: State, e: Event, s': State)
    requires Inv(s) && Capped(s) && Next(s, e, s') && FreshDraw(s, e)
    ensures Capped(s') <==> InSlack(s, e, s')
  {
    if e.TryCreate? && e.outcome == Created {
      CreateCapped(s, e, s');
    } else if e.BackendTouch? && e.ok {
      TouchCapped(s, e, s');
    }
    forall k | !Creates(e, k) && !(e.BackendTouch? && e.ok && Target(s, e) == Some(k))
      ensures CappedAt(s', k)
    {
      assert CappedAt(s, k);
      OtherKeyCapped(s, e, s', k);
    }
    assert Capped(s') ==> InSlack(s, e, s') by {
      if e.TryCreate? && e.outcome == Created {
        assert Capped(s') ==> CappedAt(s', e.drawn);
      } else if e.BackendTouch? && e.ok {
        assert Capped(s') ==> CappedAt(s', s.procs[e.p].key);
      }
    }
  }

  lemma CappedAtFirst(s: State)
    ensures Init(s) ==> Capped(s)
  {
  }

  /** Stored expiry has respected the absolute limit all along a run exactly if every backend
      write in it came within its slack. */
  lemma {:induction false} CapExact(states: seq<State>, events: seq<Event>, n: nat)
    requires FreshRun(states, events) && n <= |events|
    ensures (forall i :: 0 <= i <= n ==> Capped(states[i]))
            <==> forall m {:trigger events[m]} :: 0 <= m < n ==> InSlack(states[m], events[m], states[m + 1])
  {
    CappedAtFirst(states[0]);
    hide Capped, InSlack;
    if n > 0 {
      CapExact(states, events, n - 1);
      Reachable(states, events, n - 1);
      if Capped(states[n - 1]) {
        StepCapped(states[n - 1], events[n - 1], states[n]);
      }
    }
  }

  /** An operation that sees one instant: its backend write happens when it read the clock. */
  predicate OneInstant(s: State, e: Event, s': State) {
    && (e.TryCreate? && e.p in s.procs && s.procs[e.p].Creating? ==> s'.now == s.procs[e.p].session.createdAt)
    && (e.BackendTouch? && e.p in s.procs && s.procs[e.p].Touching? ==> s'.now == s.procs[e.p].readAt)
  }

  lemma OneInstantInSlack(s: State, e: Event, s': State)
    requires Inv(s) && Next(s, e, s') && OneInstant(s, e, s')
    ensures InSlack(s, e, s')
  {
    if e.TryCreate? || e.BackendTouch? {
      assert PcOk(s, s.procs[e.p]);
    }
  }

  lemma {:induction false} NoLagAtOneInstant(states: seq<State>, events: seq<Event>, n: nat)
    requires FreshRun(states, events) && n <= |events|
    requires forall m {:trigger events[m]} :: 0 <= m < n ==> OneInstant(states[m], events[m], states[m + 1])
    ensures states[n].lag == 0.0
  {
    if 0 < n {
      NoLagAtOneInstant(states, events, n - 1);
      assert Next(states[n - 1], events[n - 1], states[n]);
      assert OneInstant(states[n - 1], events[n - 1], states[n]);
    }
  }

  /** Operations that see one instant are within every slack. */
  lemma CapExactAtOneInstant(states: seq<State>, events: seq<Event>, n: nat)
    requires FreshRun(states, events) && n <= |events|
    requires forall m {:trigger events[m]} :: 0 <= m < n ==> OneInstant(states[m], events[m], states[m + 1])
    ensures states[n].lag == 0.0
    ensures forall i :: 0 <= i <= n ==> Capped(states[i])
  {
    NoLagAtOneInstant(states, events, n);
    forall m {:trigger events[m]} | 0 <= m < n ensures InSlack(states[m], events[m], states[m + 1]) {
      Reachable(states, events, m);
      OneInstantInSlack(states[m], events[m], states[m + 1]);
    }
    CapExact(states, events, n);
  }

  // ---- runs that pass the limit

  /** Caller 0's create under "k" has just reached an empty store. */
  function Stored(s: State, m: Manager, v: Value): State
    requires v.Record?
  {
    var g := Grant("k", v.session, v.session.createdAt + m.idle as real);
    Issue(s.(store := map["k" := Entry(v, s.now + m.idle as real)]), 0, g, false, v.session.createdAt)
    .(minted := s.minted["k" := v.session])
  }

  lemma TickStep(s: State, d: real)
    requires 0.0 <= d
    ensures Next(s, Tick(d), s.(now := s.now + d))
  {
  }

  lemma StartStep(s: State, m: Manager, v: Value)
    requires ValidRecord(v) && ValidManager(m) && 0 in s.procs && s.procs[0].Ready?
    requires v.session.createdAt == s.now && v.session.absoluteExpiresAt == s.now + m.absolute as real
    ensures Next(s, StartCreate(0, m, v.session.subject, v.session.data, v.length),
                 Goto(s, 0, Creating(m, v.session, v.length, 3)))
  {
  }

  lemma StoreStep(s: State, m: Manager, v: Value)
    requires v.Record? && s.store == map[] && ValidTtl(m.idle)
    requires 0 in s.procs && s.procs[0] == Creating(m, v.session, v.length, 3)
    ensures Next(s, TryCreate(0, "k", Created), Stored(s, m, v))
  {
    var s' := Stored(s, m, v);
    assert Eager(s'.store, s.now) == Eager(s.store, s.now)["k" := Entry(v, s.now + m.idle as real)];
  }

  /** The delay term is needed: a second between the clock reading and the write leaves an
      entry that outlives the absolute limit by that second. */
  lemma CapExceededByDelay() returns (states: seq<State>, events: seq<Event>)
    ensures FreshRun(states, events) && |events| == 3
    ensures Live(states[3].store, "k", states[3].now)
    ensures "k" in states[3].minted
    ensures states[3].store["k"].expires == states[3].minted["k"].absoluteExpiresAt + 1.0
    ensures states[3].lag == 1.0
  {
    var m, v := Manager(10, 10), Record(Session("alice", "{}", 0.0, 10.0), 80);
    var s0 := State(map[], 0.0, map[0 := Ready(NoReply)], map[], {}, {}, 0.0);
    var s1 := Goto(s0, 0, Creating(m, v.session, 80, 3));
    var s2 := s1.(now := 1.0);
    var s3 := Stored(s2, m, v);
    states := [s0, s1, s2, s3];
    events := [StartCreate(0, m, "alice", "{}", 80), Tick(1.0), TryCreate(0, "k", Created)];
    hide Next;
    StartStep(s0, m, v);
    TickStep(s1, 1.0);
    StoreStep(s2, m, v);
    assert forall i {:trigger events[i]} :: 0 <= i < |events| ==> Next(states[i], events[i], states[i + 1]);
  }

  /** A renewal by caller 0 of a record it finds, up to the touch. */
  function Renewal(s: State, m: Manager, key: string, session: Session, ttl: int): seq<State> {
    [Goto(s, 0, Reading(m, key, true)), Goto(s, 0, Checking(m, key, session, true)),
     Goto(s, 0, Timing(m, key, session)), Goto(s, 0, Touching(m, key, session, s.now, ttl))]
  }

  function RenewalEvents(m: Manager, key: string, v: Value): seq<Event> {
    [StartRead(0, m, key, true), BackendRead(0, Some(v)), ClockCheck(0), RenewClock(0)]
  }

  lemma GotoTwice(s: State, p: nat, a: Pc, b: Pc)
    ensures Goto(Goto(s, p, a), p, b) == Goto(s, p, b)
  {
    assert s.procs[p := a][p := b] == s.procs[p := b];
  }

  lemma RenewalSteps(s: State, m: Manager, key: string, v: Value, ttl: int)
    requires 0 in s.procs && s.procs[0].Ready? && ValidManager(m)
    requires Lookup(s.store, key, s.now) == Some(v) && ValidRecord(v)
    requires s.now < v.session.absoluteExpiresAt && 1 <= ttl == RenewTtl(m, v.session, s.now)
    ensures var states, events := [s] + Renewal(s, m, key, v.session, ttl), RenewalEvents(m, key, v);
            forall i {:trigger events[i]} :: 0 <= i < 4 ==> Next(states[i], events[i], states[i + 1])
  {
    var session := v.session;
    GotoTwice(s, 0, Reading(m, key, true), Checking(m, key, session, true));
    GotoTwice(s, 0, Checking(m, key, session, true), Timing(m, key, session));
    GotoTwice(s, 0, Timing(m, key, session), Touching(m, key, session, s.now, ttl));
    var states := [s] + Renewal(s, m, key, session, ttl);
    assert Next(s, StartRead(0, m, key, true), states[1]);
    assert Next(states[1], BackendRead(0, Some(v)), states[2]);
    assert Next(states[2], ClockCheck(0), states[3]);
    assert Next(states[3], RenewClock(0), states[4]);
  }

  /** Its touch has just landed. */
  function Touched(s: State, key: string, session: Session, readAt: real, ttl: int): State
    requires key in s.store
  {
    var entry := Entry(s.store[key].value, Max(s.store[key].expires, s.now + ttl as real));
    Issue(s.(store := s.store[key := entry]), 0, Grant(key, session, readAt + ttl as real), true, readAt)
  }

  lemma TouchStepLands(s: State, m: Manager, key: string, session: Session, readAt: real, ttl: int)
    requires 0 in s.procs && s.procs[0] == Touching(m, key, session, readAt, ttl)
    requires Live(s.store, key, s.now) && 1 <= ttl
    ensures Next(s, BackendTouch(0, true), Touched(s, key, session, readAt, ttl))
  {
    var s' := Touched(s, key, session, readAt, ttl);
    assert Eager(s'.store, s.now) == Eager(s.store, s.now)[key := s'.store[key]];
  }

  /** A run whose draws are fresh and whose backend writes are within their slack. */
  ghost predicate OnTime(states: seq<State>, events: seq<Event>) {
    && Run(states, events)
    && forall m {:trigger events[m]} :: 0 <= m < |events| ==>
         FreshDraw(states[m], events[m]) && InSlack(states[m], events[m], states[m + 1])
  }

  lemma OnTimeJoined(a: seq<State>, e: seq<Event>, b: seq<State>, f: seq<Event>)
    returns (states: seq<State>, events: seq<Event>)
    requires OnTime(a, e) && OnTime(b, f) && a[|e|] == b[0]
    ensures OnTime(states, events) && |events| == |e| + |f|
    ensures states[0] == a[0] && states[|events|] == b[|f|]
  {
    hide Next, FreshDraw, InSlack;
    states, events := a[..|e|] + b, e + f;
    forall m {:trigger events[m]} | 0 <= m < |events|
      ensures Next(states[m], events[m], states[m + 1])
      ensures FreshDraw(states[m], events[m]) && InSlack(states[m], events[m], states[m + 1])
    {
      if m < |e| {
        assert events[m] == e[m];
      } else {
        assert events[m] == f[m - |e|];
      }
    }
  }

  lemma RenewalOnTime(s: State, m: Manager, key: string, v: Value, ttl: int) returns (states: seq<State>)
    requires 0 in s.procs && s.procs[0].Ready? && ValidManager(m)
    requires Lookup(s.store, key, s.now) == Some(v) && ValidRecord(v)
    requires s.now < v.session.absoluteExpiresAt && 1 <= ttl == RenewTtl(m, v.session, s.now)
    ensures OnTime(states, RenewalEvents(m, key, v)) && states[0] == s
    ensures states[4] == Goto(s, 0, Touching(m, key, v.session, s.now, ttl))
  {
    hide Next, RenewTtl;
    RenewalSteps(s, m, key, v, ttl);
    states := [s] + Renewal(s, m, key, v.session, ttl);
  }

  /** Created at 0 with 10 seconds idle and 20 absolute, and left alone until 9. */
  lemma CreatedAt0(m: Manager, v: Value) returns (states: seq<State>, events: seq<Event>)
    requires m == Manager(10, 20) && v == Record(Session("alice", "{}", 0.0, 20.0), 80)
    ensures |events| == 3 && OnTime(states, events) && Init(states[0])
    ensures states[3].now == 9.0 && states[3].procs == map[0 := Ready(CreateReply(Some(Grant("k", v.session, 10.0))))]
    ensures states[3].store == map["k" := Entry(v, 10.0)] && states[3].minted == map["k" := v.session]
  {
    var s0 := State(map[], 0.0, map[0 := Ready(NoReply)], map[], {}, {}, 0.0);
    var s1 := Goto(s0, 0, Creating(m, v.session, 80, 3));
    var s2 := Stored(s1, m, v);
    var s3 := s2.(now := 9.0);
    states := [s0, s1, s2, s3];
    events := [StartCreate(0, m, "alice", "{}", 80), TryCreate(0, "k", Created), Tick(9.0)];
    hide Next;
    StartStep(s0, m, v);
    StoreStep(s1, m, v);
    TickStep(s2, 9.0);
  }

  /** Touched at 9, and left alone until 15. */
  lemma TouchedAt9(s: State, m: Manager, v: Value) returns (states: seq<State>, events: seq<Event>)
    requires v.Record? && v.session.absoluteExpiresAt == 20.0
    requires s.procs == map[0 := Touching(m, "k", v.session, 9.0, 10)] && s.now == 9.0
    requires s.store == map["k" := Entry(v, 10.0)] && s.minted == map["k" := v.session]
    ensures |events| == 2 && OnTime(states, events) && states[0] == s
    ensures states[2].now == 15.0 && 0 in states[2].procs && states[2].procs[0].Ready?
    ensures states[2].store == map["k" := Entry(v, 19.0)] && states[2].minted == map["k" := v.session]
  {
    hide Next;
    TouchStepLands(s, m, "k", v.session, 9.0, 10);
    var s' := Touched(s, "k", v.session, 9.0, 10);
    var s'' := s'.(now := 15.0);
    states, events := [s, s', s''], [BackendTouch(0, true), Tick(6.0)];
    TickStep(s', 6.0);
  }

  /** About to touch at 15, and a second late. */
  lemma LateTouch(s: State, m: Manager, v: Value) returns (states: seq<State>)
    requires v.Record? && v.session.absoluteExpiresAt == 20.0
    requires 0 in s.procs && s.procs[0] == Touching(m, "k", v.session, 15.0, 5) && s.now == 15.0
    requires s.store == map["k" := Entry(v, 19.0)] && s.minted == map["k" := v.session]
    ensures |states| == 3 && OnTime(states[..2], [Tick(1.0)]) && states[0] == s && states[1] == s.(now := 16.0)
    ensures Next(states[1], BackendTouch(0, true), states[2])
    ensures states[2].store == map["k" := Entry(v, 21.0)] && states[2].minted == s.minted && states[2].now == 16.0
  {
    hide Next;
    var s' := s.(now := 16.0);
    TickStep(s, 1.0);
    TouchStepLands(s', m, "k", v.session, 15.0, 5);
    states := [s, s', Touched(s', "k", v.session, 15.0, 5)];
  }

  lemma TouchesAreFresh(s: State, ok: bool)
    ensures FreshDraw(s, BackendTouch(0, ok))
  {
  }

  /** Renewing is enough to pass the limit. Idle 10, absolute 20: created at 0, renewed at 9;
      the next renewal reads its clock at 15 and is given 5 seconds, but touches at 16. Every
      write before that last one was within its slack. */
  lemma RenewalPassesLimit() returns (states: seq<State>, events: seq<Event>)
    ensures FreshRun(states, events) && |events| == 15
    ensures forall m {:trigger events[m]} :: 0 <= m < 14 ==> InSlack(states[m], events[m], states[m + 1])
    ensures events[14] == BackendTouch(0, true) && 0 in states[14].procs
    ensures states[14].procs[0].Touching? && states[14].now == states[14].procs[0].readAt + 1.0
    ensures Live(states[15].store, "k", states[15].now) && "k" in states[15].minted
    ensures states[15].store["k"].expires == states[15].minted["k"].absoluteExpiresAt + 1.0
  {
    hide Next, FreshDraw, InSlack;
    var m, v := Manager(10, 20), Record(Session("alice", "{}", 0.0, 20.0), 80);
    var f := RenewalEvents(m, "k", v);
    states, events := CreatedAt0(m, v);
    var steps := RenewalOnTime(states[3], m, "k", v, 10);
    states, events := OnTimeJoined(states, events, steps, f);
    var rest, g := TouchedAt9(steps[4], m, v);
    states, events := OnTimeJoined(states, events, rest, g);
    steps := RenewalOnTime(rest[2], m, "k", v, 5);
    states, events := OnTimeJoined(states, events, steps, f);
    rest := LateTouch(steps[4], m, v);
    states, events := OnTimeJoined(states, events, rest[..2], [Tick(1.0)]);
    states, events := states + [rest[2]], events + [BackendTouch(0, true)];
    forall i {:trigger events[i]} | 0 <= i < 15
      ensures Next(states[i], events[i], states[i + 1]) && FreshDraw(states[i], events[i])
    {
      TouchesAreFresh(states[14], true);
    }
  }

  // ---- one key at a time

  /** Operations on other keys cannot be told apart from no operation at all. */
  lemma {:induction false} KeysIndependent(states: seq<State>, events: seq<Event>, i: nat, j: nat, k: string)
    requires Run(states, events) && i <= j <= |events|
    requires forall m :: i <= m < j ==> Target(states[m], events[m]) != Some(k)
    ensures states[i].now <= states[j].now
    ensures Live(states[j].store, k, states[j].now) <==> Live(states[i].store, k, states[j].now)
    ensures Live(states[j].store, k, states[j].now) ==> states[j].store[k] == states[i].store[k]
  {
    hide Next, Target, Creates;
    if i < j {
      KeysIndependent(states, events, i, j - 1, k);
      assert Target(states[j - 1], events[j - 1]) != Some(k);
      StepOnKey(states[j - 1], events[j - 1], states[j], k);
    }
  }
}
