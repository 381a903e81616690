/** The Redis backend: four atomic server commands and the touch script, against the
    same contract as the memory backend. The server counts in whole milliseconds. */
module RedisBackend {
  import opened Outcomes
  import opened SessionStore

  datatype Item = Item(value: Value, deadline: Option<int>)

  predicate Present(db: map<string, Item>, key: string, now: int) {
    key in db && (db[key].deadline.Some? ==> now < db[key].deadline.value)
  }

  function Seconds(ms: int): real {
    ms as real / 1000.0
  }

  ghost predicate AllExpire(db: map<string, Item>) {
    forall k :: k in db ==> db[k].deadline.Some?
  }

  /** A database whose every key carries an expiry, as a timed map in seconds. */
  ghost function View(db: map<string, Item>): Store
    requires AllExpire(db)
  {
    map k | k in db :: Entry(db[k].value, Seconds(db[k].deadline.value))
  }

  /** Only expired keys may be missing, and nothing else differs. */
  ghost predicate Evicted(db: map<string, Item>, db': map<string, Item>, now: int) {
    && (forall k :: k in db' ==> k in db && db'[k] == db[k])
    && (forall k :: Present(db, k, now) ==> k in db')
  }

  /** What the touch script leaves under a key that is present: the later of the two
      deadlines, or the requested one when the key had none. */
  function Extended(item: Item, requested: int): Item {
    item.(deadline := Some(match item.deadline
                           case None => requested
                           case Some(d) => if d < requested then requested else d))
  }

  class RedisServer {
    var now: int
    var db: map<string, Item>

    constructor ()
      ensures db == map[]
    {
      now := 0;
      db := map[];
    }

    /** Time passes, and the server may evict what has expired. */
    method Wait()
      modifies this
      ensures old(now) <= now
      ensures Evicted(old(db), db, now)
    {
      var delay: int := *;
      if 0 < delay {
        now := now + delay;
      }
      var evict: bool := *;
      if evict {
        db := map k | k in db && Present(db, k, now) :: db[k];
      }
    }

    /** SET key value EX seconds NX */
    method SetNx(key: string, value: Value, seconds: int) returns (ok: bool)
      modifies this`db
      ensures ok <==> !Present(old(db), key, now)
      ensures db == if ok then old(db)[key := Item(value, Some(now + 1000 * seconds))] else old(db)
    {
      ok := !Present(db, key, now);
      if ok {
        db := db[key := Item(value, Some(now + 1000 * seconds))];
      }
    }

    method Get(key: string) returns (r: Option<Value>)
      ensures r == if Present(db, key, now) then Some(db[key].value) else None
    {
      r := if Present(db, key, now) then Some(db[key].value) else None;
    }

    method Pttl(key: string) returns (ms: int)
      ensures ms == -2 <==> !Present(db, key, now)
      ensures Present(db, key, now) ==>
                ms == if db[key].deadline.None? then -1 else db[key].deadline.value - now
    {
      if !Present(db, key, now) {
        return -2;
      }
      match db[key].deadline
      case None => return -1;
      case Some(d) => return d - now;
    }

    method Pexpire(key: string, ms: int)
      requires Present(db, key, now)
      modifies this`db
      ensures db == old(db)[key := old(db)[key].(deadline := Some(now + ms))]
    {
      db := db[key := db[key].(deadline := Some(now + ms))];
    }

    method Del(key: string) returns (ok: bool)
      modifies this`db
      ensures ok <==> Present(old(db), key, now)
      ensures db == old(db) - {key}
    {
      ok := Present(db, key, now);
      db := db - {key};
    }

    /** The script, which the server runs as one step at one instant. */
    method TouchScript(key: string, ttl: int) returns (r: int)
      requires ValidTtl(ttl)
      modifies this`db
      ensures r == 0 || r == 1
      ensures r == 1 <==> Present(old(db), key, now)
      ensures db == if r == 1 then old(db)[key := Extended(old(db)[key], now + 1000 * ttl)] else old(db)
    {
      var current := Pttl(key);
      if current == -2 {
        return 0;
      }
      var requested := ttl * 1000;
      if current < requested {
        Pexpire(key, requested);
      } else {
        assert db[key := Extended(db[key], now + 1000 * ttl)] == db;
      }
      return 1;
    }
  }

  class RedisSessionBackend {
    const client: RedisServer

    constructor (client: RedisServer)
      ensures this.client == client
    {
      this.client := client;
    }

    method Create(key: string, value: Value, ttl: int) returns (r: Option<bool>)
      requires AllExpire(client.db)
      modifies client
      ensures r.None? <==> !ValidTtl(ttl)
      ensures AllExpire(client.db)
      ensures r.Some? ==> CreateStep(View(old(client.db)), Seconds(old(client.now)), key, value, ttl,
                                     if r.value then Created else Collision,
                                     View(client.db), Seconds(client.now))
    {
      if !ValidTtl(ttl) {
        return None;
      }
      hide Eager;
      client.Wait();
      ghost var before := client.db;
      WaitAgrees(old(client.db), before, client.now);
      var ok := client.SetNx(key, value, ttl);
      if ok {
        SetAgrees(before, key, value, client.now + 1000 * ttl, client.now);
      }
      return Some(ok);
    }

    method Read(key: string) returns (r: Option<Value>)
      requires AllExpire(client.db)
      modifies client
      ensures AllExpire(client.db)
      ensures ReadStep(View(old(client.db)), Seconds(old(client.now)), key, r, View(client.db), Seconds(client.now))
    {
      client.Wait();
      WaitAgrees(old(client.db), client.db, client.now);
      EagerAt(View(client.db), Seconds(client.now), key);
      EagerAt(View(old(client.db)), Seconds(client.now), key);
      r := client.Get(key);
    }

    method Touch(key: string, ttl: int) returns (r: Option<bool>)
      requires AllExpire(client.db)
      modifies client
      ensures r.None? <==> !ValidTtl(ttl)
      ensures AllExpire(client.db)
      ensures r.Some? ==> TouchStep(View(old(client.db)), Seconds(old(client.now)), key, ttl, r.value,
                                    View(client.db), Seconds(client.now))
    {
      if !ValidTtl(ttl) {
        return None;
      }
      client.Wait();
      ghost var before := client.db;
      WaitAgrees(old(client.db), before, client.now);
      EagerAt(View(before), Seconds(client.now), key);
      EagerAt(View(old(client.db)), Seconds(client.now), key);
      var reply := client.TouchScript(key, ttl);
      if reply == 1 {
        var item := Extended(before[key], client.now + 1000 * ttl);
        SetAgrees(before, key, item.value, item.deadline.value, client.now);
      }
      return Some(reply != 0);
    }

    method Delete(key: string) returns (ok: bool)
      requires AllExpire(client.db)
      modifies client
      ensures AllExpire(client.db)
      ensures DeleteStep(View(old(client.db)), Seconds(old(client.now)), key, ok, View(client.db), Seconds(client.now))
    {
      client.Wait();
      ghost var before := client.db;
      WaitAgrees(old(client.db), before, client.now);
      EagerAt(View(before), Seconds(client.now), key);
      EagerAt(View(old(client.db)), Seconds(client.now), key);
      ok := client.Del(key);
      DelAgrees(before, key, client.now);
    }
  }

  /** Eviction is invisible. */
  lemma WaitAgrees(db: map<string, Item>, db': map<string, Item>, now: int)
    requires AllExpire(db)
    requires Evicted(db, db', now)
    ensures AllExpire(db')
    ensures Eager(View(db'), Seconds(now)) == Eager(View(db), Seconds(now))
  {
    forall k
      ensures k in Eager(View(db'), Seconds(now)) <==> k in Eager(View(db), Seconds(now))
    {
      if Live(View(db), k, Seconds(now)) {
        assert Present(db, k, now);
      }
    }
  }

  lemma SetAgrees(db: map<string, Item>, key: string, value: Value, deadline: int, now: int)
    requires AllExpire(db) && now < deadline
    ensures var db' := db[key := Item(value, Some(deadline))];
            && AllExpire(db')
            && Eager(View(db'), Seconds(now)) == Eager(View(db), Seconds(now))[key := Entry(value, Seconds(deadline))]
  {
    var db' := db[key := Item(value, Some(deadline))];
    assert View(db') == View(db)[key := Entry(value, Seconds(deadline))];
  }

  lemma DelAgrees(db: map<string, Item>, key: string, now: int)
    requires AllExpire(db)
    ensures AllExpire(db - {key})
    ensures Eager(View(db - {key}), Seconds(now)) == Eager(View(db), Seconds(now)) - {key}
  {
    var db' := db - {key};
    assert Eager(View(db'), Seconds(now)).Keys == Eager(View(db), Seconds(now)).Keys - {key};
  }

  /** A deadline at least as late; no deadline is the latest of all. */
  predicate NotSooner(was: Option<int>, becomes: Option<int>) {
    becomes.None? || (was.Some? && was.value <= becomes.value)
  }

  /** The contract's "never shorten" holds of the script exactly for keys that carry an
      expiry: one stored without (never by this backend) is given the requested deadline. */
  lemma TouchNeverShortensIff(item: Item, requested: int)
    ensures NotSooner(item.deadline, Extended(item, requested).deadline) <==> item.deadline.Some?
  {
  }
}
