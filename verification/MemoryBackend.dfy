/** The process-local backend: a dictionary with lazy expiry, a capacity purge and a
    non-shortening touch, against the contract of SessionStore. */
module MemoryBackend {
  import opened Outcomes
  import opened SessionStore

  /** A monotone clock that may advance by any amount whenever it is read. */
  class Clock {
    var now: real

    constructor (start: real)
      ensures now == start
    {
      now := start;
    }

    method Read() returns (t: real)
      modifies this
      ensures old(now) <= now && t == now
    {
      var delay: real := *;
      if 0.0 < delay {
        now := now + delay;
      }
      t := now;
    }
  }

  datatype CreateResult = Done(outcome: CreateOutcome) | InvalidTtl
  datatype TouchResult = Touched(ok: bool) | InvalidTtl

  class MemorySessionBackend {
    const capacity: nat
    const clock: Clock
    var values: Store

    ghost predicate Valid()
      reads this
    {
      1 <= capacity && |values| <= capacity
    }

    constructor (capacity: nat, clock: Clock)
      requires 1 <= capacity
      ensures Valid() && values == map[] && this.capacity == capacity && this.clock == clock
    {
      this.capacity := capacity;
      this.clock := clock;
      values := map[];
    }

    /** The lazy lookup every operation goes through: an entry found dead is removed. */
    method Expire(key: string) returns (entry: Option<Entry>)
      modifies this`values, clock
      ensures old(clock.now) <= clock.now
      ensures entry == if Live(old(values), key, clock.now) then Some(old(values)[key]) else None
      ensures values == if entry.Some? then old(values) else old(values) - {key}
    {
      if key !in values {
        return None;
      }
      var t := clock.Read();
      if values[key].expires <= t {
        values := values - {key};
        return None;
      }
      return Some(values[key]);
    }

    /** Drops dead entries only; whatever survives was live when the purge began, and
        whatever is still live when it ends has survived. */
    method Purge()
      modifies this`values, clock
      ensures old(clock.now) <= clock.now
      ensures values.Keys <= Eager(old(values), old(clock.now)).Keys
      ensures forall k :: k in values ==> values[k] == old(values)[k]
      ensures Eager(old(values), clock.now).Keys <= values.Keys
    {
      var pending := values.Keys;
      while pending != {}
        invariant old(clock.now) <= clock.now
        invariant pending <= values.Keys <= old(values).Keys
        invariant forall k :: k in values ==> values[k] == old(values)[k]
        invariant forall k :: k in values && k !in pending ==> Live(old(values), k, old(clock.now))
        invariant forall k :: k in old(values) && k !in values ==> !Live(old(values), k, clock.now)
        decreases pending
      {
        var expired :| expired in pending;
        var _ := Expire(expired);
        pending := pending - {expired};
      }
    }

    /** The first half of create: Collision if the key is taken, Full if nothing can be
        purged, Created if there is room for it. The live view is untouched. */
    method Admit(key: string) returns (r: CreateOutcome)
      requires Valid()
      modifies this`values, clock
      ensures Valid() && old(clock.now) <= clock.now
      ensures Eager(values, clock.now) == Eager(old(values), clock.now)
      ensures if r == Collision then Live(old(values), key, clock.now) else key !in values
      ensures r == Full ==> capacity <= |Eager(old(values), old(clock.now))|
      ensures r == Created ==> |values| < capacity
    {
      var found := Expire(key);
      ghost var n1, afterRead := clock.now, values;
      ExpiredAgree(old(values), afterRead, key, n1);
      if found.Some? {
        return Collision;
      }
      if |values| < capacity {
        return Created;
      }
      EagerSmall(afterRead, n1);
      EagerShrinks(old(values), old(clock.now), n1);
      Purge();
      PurgedAgree(afterRead, values, n1, clock.now);
      EagerForever(old(values), afterRead, n1, clock.now);
      return if |values| < capacity then Created else Full;
    }

    method Create(key: string, value: Value, ttl: int) returns (r: CreateResult)
      requires Valid()
      modifies this`values, clock
      ensures Valid()
      ensures r.InvalidTtl? <==> !ValidTtl(ttl)
      ensures r.InvalidTtl? ==> values == old(values) && clock.now == old(clock.now)
      ensures r.Done? ==> CreateStep(old(values), old(clock.now), key, value, ttl, r.outcome, values, clock.now)
      // the capacity is charged for live entries only, whatever the clock does meanwhile
      ensures r == Done(Full) ==> capacity <= |Eager(old(values), old(clock.now))|
      ensures r == Done(Created) ==> |Eager(old(values), clock.now)| < capacity
      // at a fixed instant this is an equivalence
      ensures ValidTtl(ttl) && clock.now == old(clock.now) ==>
                (r == Done(Full) <==> !Live(old(values), key, clock.now)
                                      && capacity <= |Eager(old(values), clock.now)|)
    {
      if !ValidTtl(ttl) {
        return CreateResult.InvalidTtl;
      }
      var admitted := Admit(key);
      ghost var n, before := clock.now, values;
      EagerAt(before, n, key);
      EagerAt(old(values), n, key);
      if admitted != Created {
        return Done(admitted);
      }
      var t := clock.Read();
      values := values[key := Entry(value, t + ttl as real)];
      EagerForever(old(values), before, n, t);
      EagerAt(before, t, key);
      EagerAt(old(values), t, key);
      EagerSmall(before, t);
      InsertedAgree(before, key, values[key], t);
      return Done(Created);
    }

    method Read(key: string) returns (r: Option<Value>)
      requires Valid()
      modifies this`values, clock
      ensures Valid()
      ensures ReadStep(old(values), old(clock.now), key, r, values, clock.now)
    {
      var found := Expire(key);
      ExpiredAgree(old(values), values, key, clock.now);
      return if found.Some? then Some(found.value.value) else None;
    }

    method Touch(key: string, ttl: int) returns (r: TouchResult)
      requires Valid()
      modifies this`values, clock
      ensures Valid()
      ensures r.InvalidTtl? <==> !ValidTtl(ttl)
      ensures r.InvalidTtl? ==> values == old(values) && clock.now == old(clock.now)
      ensures r.Touched? ==> TouchStep(old(values), old(clock.now), key, ttl, r.ok, values, clock.now)
      ensures values.Keys <= old(values).Keys
    {
      if !ValidTtl(ttl) {
        return TouchResult.InvalidTtl;
      }
      var found := Expire(key);
      ExpiredAgree(old(values), values, key, clock.now);
      if found.None? {
        return Touched(false);
      }
      var t := clock.Read();
      values := values[key := Entry(found.value.value, Max(found.value.expires, t + ttl as real))];
      assert values.Keys == old(values).Keys;
      return Touched(true);
    }

    method Delete(key: string) returns (ok: bool)
      requires Valid()
      modifies this`values
      ensures Valid()
      ensures ok <==> key in old(values)
      ensures DeleteStep(old(values), clock.now, key, ok, values, clock.now)
    {
      ok := key in values;
      values := values - {key};
      DeletedAgree(old(values), key, clock.now);
    }
  }

  /** Created, left until it has expired, and deleted with no operation in between: the
      deletion answers true, although no read would have found the entry any more. */
  method DeleteExpired(backend: MemorySessionBackend, key: string, value: Value, ttl: int, wait: real)
    returns (ok: bool)
    requires backend.Valid() && backend.values == map[] && ValidTtl(ttl) && ttl as real <= wait
    modifies backend`values, backend.clock
    ensures ok && old(backend.clock.now) + wait <= backend.clock.now
  {
    var created := backend.Create(key, value, ttl);
    hide CreateStep, DeleteStep, Eager;
    EmptyEager();
    FirstCreated(old(backend.clock.now), key, value, ttl, created.outcome, backend.values, backend.clock.now);
    backend.clock.now := backend.clock.now + wait;
    assert Lookup(backend.values, key, backend.clock.now) == None;
    ok := backend.Delete(key);
  }

  lemma EmptyEager()
    ensures forall u :: Eager(map[], u) == map[]
  {
  }

  lemma FirstCreated(n: real, key: string, value: Value, ttl: int, r: CreateOutcome, s': Store, n': real)
    requires CreateStep(map[], n, key, value, ttl, r, s', n') && r != Full && 1 <= ttl
    ensures key in s' && s'[key].expires == n' + ttl as real
  {
    EagerAt(s', n', key);
  }

  /** The Python constructor refuses a capacity below one. */
  method NewMemoryBackend(capacity: int, clock: Clock) returns (r: Option<MemorySessionBackend>)
    ensures r.Some? <==> 1 <= capacity
    ensures r.Some? ==> fresh(r.value) && r.value.Valid() && r.value.values == map[]
                        && r.value.capacity == capacity && r.value.clock == clock
  {
    if capacity < 1 {
      return None;
    }
    var backend := new MemorySessionBackend(capacity, clock);
    return Some(backend);
  }

  lemma ExpiredAgree(s: Store, s': Store, k: string, t: real)
    requires s' == if Live(s, k, t) then s else s - {k}
    ensures Eager(s', t) == Eager(s, t)
    ensures |s'| <= |s|
  {
    if !Live(s, k, t) {
      assert s'.Keys == s.Keys - {k};
    }
  }

  lemma PurgedAgree(s: Store, s': Store, n: real, t: real)
    requires n <= t
    requires s'.Keys <= Eager(s, n).Keys && Eager(s, t).Keys <= s'.Keys
    requires forall k :: k in s' ==> s'[k] == s[k]
    ensures Eager(s', t) == Eager(s, t)
    ensures |s'| <= |Eager(s, n)|
  {
    Subset(s'.Keys, Eager(s, n).Keys);
  }

  lemma DeletedAgree(s: Store, k: string, t: real)
    ensures Eager(s - {k}, t) == Eager(s, t) - {k}
    ensures |s - {k}| <= |s|
  {
    var s' := s - {k};
    assert s'.Keys == s.Keys - {k};
    Subset(s'.Keys, s.Keys);
    assert Eager(s', t).Keys == Eager(s, t).Keys - {k};
  }

  lemma InsertedAgree(s: Store, k: string, e: Entry, t: real)
    requires k !in s && t < e.expires
    ensures Eager(s[k := e], t) == Eager(s, t)[k := e]
    ensures |s[k := e]| == |s| + 1
  {
    assert s[k := e].Keys == s.Keys + {k};
  }

  lemma Subset(a: set<string>, b: set<string>)
    requires a <= b
    ensures |a| <= |b|
  {
    assert b == a + (b - a);
  }

  lemma EagerSmall(s: Store, t: real)
    ensures |Eager(s, t)| <= |s|
  {
    Subset(Eager(s, t).Keys, s.Keys);
  }

  lemma EagerShrinks(s: Store, t: real, u: real)
    requires t <= u
    ensures |Eager(s, u)| <= |Eager(s, t)|
  {
    Subset(Eager(s, u).Keys, Eager(s, t).Keys);
  }
}
