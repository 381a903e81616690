/** The storage contract behind sessions: a timed map, read through an "eager" view in
    which expired entries are already gone. A backend may keep dead entries around and
    may let its clock advance while an operation holds the lock; the contract speaks
    only of what is live, over the window of time [n, n'] an operation takes. */
module SessionStore {
  import opened Outcomes

  /** A session record; `data` stands for the JSON object the caller attached. */
  datatype Session = Session(subject: string, data: string, createdAt: real, absoluteExpiresAt: real)

  /** A stored string: the JSON text of a record (with its encoded length), or anything else. */
  datatype Value = Record(session: Session, length: nat) | Garbage

  datatype Entry = Entry(value: Value, expires: real)

  type Store = map<string, Entry>

  const MAX_TTL: int := 366 * 24 * 60 * 60
  const MAX_DATA_BYTES: int := 4096

  predicate ValidTtl(ttl: int) {
    1 <= ttl <= MAX_TTL
  }

  function Max(a: real, b: real): real {
    if a < b then b else a
  }

  predicate Live(s: Store, k: string, t: real) {
    k in s && t < s[k].expires
  }

  /** The eager timed map: what a store holds at time `t` once every dead entry is dropped. */
  function Eager(s: Store, t: real): Store {
    map k | k in s && t < s[k].expires :: s[k]
  }

  function Lookup(s: Store, k: string, t: real): Option<Value> {
    if Live(s, k, t) then Some(s[k].value) else None
  }

  /** `read`: answers for the closing instant, and loses nothing that is live. */
  ghost predicate ReadStep(s: Store, n: real, k: string, r: Option<Value>, s': Store, n': real) {
    && n <= n'
    && r == Lookup(s, k, n')
    && Eager(s', n') == Eager(s, n')
  }

  /** `touch`: success needs an entry live at the opening instant, failure one dead by the
      closing instant; an expiry only ever grows, and nothing is inserted. */
  ghost predicate TouchStep(s: Store, n: real, k: string, ttl: int, ok: bool, s': Store, n': real) {
    && n <= n'
    && (ok ==> Live(s, k, n)
               && Eager(s', n') == Eager(s, n')[k := Entry(s[k].value, Max(s[k].expires, n' + ttl as real))])
    && (!ok ==> !Live(s, k, n') && Eager(s', n') == Eager(s, n'))
  }

  datatype CreateOutcome = Created | Collision | Full

  /** `create`: conditional on absence, all or nothing. */
  ghost predicate CreateStep(s: Store, n: real, k: string, v: Value, ttl: int, r: CreateOutcome, s': Store, n': real) {
    && n <= n'
    && match r
       case Created => !Live(s, k, n') && Eager(s', n') == Eager(s, n')[k := Entry(v, n' + ttl as real)]
       case Collision => Live(s, k, n) && Eager(s', n') == Eager(s, n')
       case Full => !Live(s, k, n') && Eager(s', n') == Eager(s, n')
  }

  /** `delete`: the live view loses exactly the key. A dead entry may still answer true. */
  ghost predicate DeleteStep(s: Store, n: real, k: string, ok: bool, s': Store, n': real) {
    && n <= n'
    && (Live(s, k, n') ==> ok)
    && (k !in s ==> !ok)
    && Eager(s', n') == Eager(s, n') - {k}
  }

  /** Stores with one eager view answer alike now and at every later time. */
  lemma EagerForever(s: Store, s': Store, t: real, u: real)
    requires Eager(s, t) == Eager(s', t) && t <= u
    ensures Eager(s, u) == Eager(s', u)
  {
    forall k
      ensures Live(s, k, u) <==> Live(s', k, u)
      ensures Live(s, k, u) ==> s[k] == s'[k]
    {
      assert k in Eager(s, t) <==> k in Eager(s', t);
      assert k in Eager(s, t) ==> Eager(s, t)[k] == Eager(s', t)[k];
    }
  }

  /** Reading the eager view pointwise. */
  lemma EagerAt(s: Store, t: real, k: string)
    ensures k in Eager(s, t) <==> Live(s, k, t)
    ensures Live(s, k, t) ==> Eager(s, t)[k] == s[k]
  {
  }

  // ---- the eager map as a data structure of its own, at one instant

  function EagerRead(m: Store, k: string): Option<Value> {
    if k in m then Some(m[k].value) else None
  }

  function EagerTouch(m: Store, k: string, ttl: int, t: real): (Store, bool) {
    if k in m then (m[k := Entry(m[k].value, Max(m[k].expires, t + ttl as real))], true) else (m, false)
  }

  function EagerCreate(m: Store, k: string, v: Value, ttl: int, room: bool, t: real): (Store, CreateOutcome) {
    if k in m then (m, Collision) else if room then (m[k := Entry(v, t + ttl as real)], Created) else (m, Full)
  }

  /** While the clock stands still the contract allows exactly what the eager map does: a
      lazily purged store answers like one that drops dead entries at once. */
  lemma OneInstantIsEager(s: Store, t: real, k: string, v: Value, ttl: int, s': Store)
    ensures forall r :: ReadStep(s, t, k, r, s', t) <==> r == EagerRead(Eager(s, t), k) && Eager(s', t) == Eager(s, t)
    ensures forall ok :: TouchStep(s, t, k, ttl, ok, s', t) <==>
                           (Eager(s', t), ok) == EagerTouch(Eager(s, t), k, ttl, t)
    ensures forall r :: CreateStep(s, t, k, v, ttl, r, s', t) <==>
                          (Eager(s', t), r) == EagerCreate(Eager(s, t), k, v, ttl, r != Full, t)
    ensures forall ok :: DeleteStep(s, t, k, ok, s', t) ==>
                           Eager(s', t) == Eager(s, t) - {k} && (k in Eager(s, t) ==> ok)
  {
    EagerAt(s, t, k);
  }
}
