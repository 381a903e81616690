/** The subprocess notifier: a bounded polling loop, and a cleanup that always reaps. */
module ProcessWait {
  import opened Outcomes

  const POLL_SECONDS: real := 0.05
  const GRACE_SECONDS: real := 1.0

  /** Running, dead but not collected, or collected by poll or wait. */
  datatype Status = Running | Zombie | Reaped

  datatype Failure = SpawnFailed | ThreadFailed | TimedOut | BadExit(code: int)

  function Ceiling(x: real): int {
    -((-x).Floor)
  }

  /** How many sleeps fit before the deadline. */
  function MaxSleeps(timeout: real): nat {
    if 0.0 < timeout then Ceiling(timeout / POLL_SECONDS) else 0
  }

  lemma SleepFits(k: nat, timeout: real)
    requires k as real * POLL_SECONDS < timeout
    ensures k < MaxSleeps(timeout)
  {
    var q := timeout / POLL_SECONDS;
    assert q * POLL_SECONDS == timeout;
    assert k as real < q;
  }

  /** A child process and the clock it lives under. The child may exit at any time. */
  class Child {
    var now: real
    var status: Status
    var code: int
    var polls: nat            // poll calls so far
    ghost var misses: nat     // and how many of them found it running
    ghost var seenRunning: Option<real>   // when one last did
    ghost var longestSleep: real          // the longest sleep asked for
    var terminated: bool      // whether terminate, and kill, were called, and when
    var killed: bool
    var terminatedAt: real
    var killedAt: real

    constructor ()
      ensures status == Running && polls == 0 && !terminated && !killed && now == 0.0
      ensures misses == 0 && seenRunning == None && longestSleep == 0.0
    {
      misses, seenRunning, longestSleep := 0, None, 0.0;
      status, polls, terminated, killed := Running, 0, false, false;
      now, code, terminatedAt, killedAt := 0.0, 0, 0.0, 0.0;
    }

    method Clock() returns (t: real)
      modifies this`now
      ensures old(now) <= now && t == now
    {
      var delay: real := *;
      if 0.0 < delay { now := now + delay; }
      t := now;
    }

    /** The clock advances at least by the time slept. */
    method Sleep(seconds: real)
      requires 0.0 <= seconds
      modifies this`now, this`longestSleep
      ensures old(now) + seconds <= now
      ensures longestSleep == if old(longestSleep) < seconds then seconds else old(longestSleep)
    {
      if longestSleep < seconds { longestSleep := seconds; }
      var _ := Clock();
      now := now + seconds;
    }

    /** True once the child has exited; collects it. */
    method Poll() returns (exited: bool)
      modifies this`status, this`polls, this`misses, this`seenRunning
      ensures polls == old(polls) + 1
      ensures misses == old(misses) + if exited then 0 else 1
      ensures seenRunning == if exited then old(seenRunning) else Some(now)
      ensures exited <==> status == Reaped
      ensures old(status) != Running ==> exited
      ensures !exited ==> status == Running
    {
      polls := polls + 1;
      var exits: bool := *;
      if status == Running && exits { status := Zombie; }
      if status == Zombie { status := Reaped; }
      exited := status == Reaped;
      if !exited { misses, seenRunning := misses + 1, Some(now); }
    }

    /** Blocks until the child has exited and collects it. */
    method Wait()
      modifies this`status, this`now
      ensures old(now) <= now && status == Reaped
    {
      if status == Running { var _ := Clock(); }
      status := Reaped;
    }

    /** A signal; it may come too late (OSError), and it may be ignored. */
    method Terminate() returns (oserror: bool)
      modifies this`terminated, this`terminatedAt
      ensures terminated && terminatedAt == now
    {
      terminated, terminatedAt := true, now;
      oserror := *;
    }

    method Kill() returns (oserror: bool)
      modifies this`killed, this`killedAt
      ensures killed && killedAt == now
    {
      killed, killedAt := true, now;
      oserror := *;
    }

    /** At most one more poll than there are sleeps before the deadline; False only at or
        after it, with the child still running at the last poll; True only once collected, and
        then every poll but the last was made before the deadline. The last need not be: a sleep
        may overshoot. */
    method WaitProcess(timeout: real) returns (ok: bool, ghost deadline: real)
      modifies this`now, this`status, this`polls, this`misses, this`seenRunning, this`longestSleep
      ensures old(now) <= now && old(now) + timeout <= deadline <= now + timeout
      // every poll but a last, successful one found it running
      ensures old(polls) < polls && polls - old(polls) == misses - old(misses) + if ok then 1 else 0
      ensures longestSleep <= if old(longestSleep) < POLL_SECONDS then POLL_SECONDS else old(longestSleep)
      ensures ok <==> status == Reaped
      ensures !ok ==> status == Running && deadline <= now
      ensures ok && polls != old(polls) + 1 ==> seenRunning.Some? && seenRunning.value < deadline
      ensures ok && polls == old(polls) + 1 ==> seenRunning == old(seenRunning)
      ensures polls <= old(polls) + MaxSleeps(timeout) + 1
    {
      var start := Clock();
      var until := start + timeout;
      deadline := until;
      ghost var sleeps: nat := 0;
      var exited := Poll();
      while !exited
        invariant exited <==> status == Reaped
        invariant !exited ==> status == Running
        invariant old(now) <= start <= now && until == deadline == start + timeout
        invariant !exited ==> seenRunning.Some? && seenRunning.value <= now
        invariant exited && 0 < sleeps ==> seenRunning.Some? && seenRunning.value < deadline
        invariant exited && sleeps == 0 ==> seenRunning == old(seenRunning)
        invariant start + sleeps as real * POLL_SECONDS <= now || deadline <= now
        invariant polls == old(polls) + sleeps + 1
        invariant polls - old(polls) == misses - old(misses) + if exited then 1 else 0
        invariant longestSleep <= if old(longestSleep) < POLL_SECONDS then POLL_SECONDS else old(longestSleep)
        invariant sleeps <= MaxSleeps(timeout)
        decreases MaxSleeps(timeout) - sleeps
      {
        ghost var before := now;
        var t := Clock();
        var remaining := until - t;
        if remaining <= 0.0 {
          return false, deadline;
        }
        SleepFits(sleeps, timeout);
        Sleep(if POLL_SECONDS < remaining then POLL_SECONDS else remaining);
        sleeps := sleeps + 1;
        exited := Poll();
      }
      Wait();
      return true, deadline;
    }

    /** What `finally` does with a child that was spawned: one that its first poll finds running
        is terminated, and killed if no poll of the grace second finds it gone. */
    method Cleanup()
      modifies this
      ensures status == Reaped && old(now) <= now
      ensures terminated <==> old(terminated) || misses != old(misses)
      ensures killed <==> old(killed) || polls - old(polls) == misses - old(misses)
      ensures old(polls) < polls <= old(polls) + MaxSleeps(GRACE_SECONDS) + 2
      ensures old(misses) <= misses && (old(status) != Running ==> misses == old(misses))
      ensures longestSleep <= if old(longestSleep) < POLL_SECONDS then POLL_SECONDS else old(longestSleep)
      ensures old(status) == Reaped ==> seenRunning == old(seenRunning)
      ensures terminated && !old(terminated) ==> old(status) == Running
      ensures killed && !old(killed) ==> terminated && terminatedAt + GRACE_SECONDS <= killedAt
      ensures code == old(code)
    {
      var exited := Poll();
      if !exited {
        var _ := Terminate();
        var gone, _ := WaitProcess(GRACE_SECONDS);
        if !gone {
          var _ := Kill();
        }
      }
      Wait();
    }
  }

  /** One strict delivery: spawning, or starting a reader thread, may fail; every exit after
      a spawn leaves the child collected. If one of the `waited` polls of the wait finds the
      child gone, its exit code decides; if none does, the deadline has passed. Success means it
      exited with code zero, and was not seen running at or after the deadline. A child that the
      cleanup finds running is terminated, and killed if it is never found gone. */
  method Execute(timeout: real, spawns: bool, threadsStart: bool)
    returns (r: Result<bool, Failure>, child: Child?, ghost deadline: real, ghost waited: nat)
    ensures child == null <==> !spawns
    ensures child == null ==> r == Err(SpawnFailed)
    ensures child != null ==>
              && fresh(child) && child.status == Reaped
              && (child.killed ==> child.terminated && child.terminatedAt + 1.0 <= child.killedAt)
              && (r == Ok(true) <==> r.Ok?)
              && (r.Ok? ==> child.code == 0 && threadsStart && !child.terminated)
              && (r.Ok? ==> child.seenRunning.Some? ==> child.seenRunning.value < deadline)
              && timeout <= deadline <= child.now + timeout
              && (r.Err? && r.error.BadExit? ==> r.error.code == child.code != 0 && !child.terminated)
              && (r == Err(TimedOut) ==> deadline <= child.now)
              && (r == Err(ThreadFailed) <==> !threadsStart)
              && (threadsStart <==> 0 < waited)
              && (threadsStart ==> waited <= MaxSleeps(timeout) + 1 && child.longestSleep <= 0.05)
              // the wait found it gone
              && (child.misses < waited ==>
                    r == (if child.code == 0 then Ok(true) else Err(BadExit(child.code)))
                    && !child.terminated && !child.killed)
              // it did not
              && (waited <= child.misses ==>
                    r == Err(if threadsStart then TimedOut else ThreadFailed)
                    && (child.terminated <==> waited < child.misses)
                    && (child.killed <==> child.polls == child.misses))
  {
    if !spawns {
      return Err(SpawnFailed), null, timeout, 0;
    }
    child := new Child();
    child.code := *;
    deadline, waited := timeout, 0;
    if !threadsStart {
      r := Err(ThreadFailed);
    } else {
      var ok;
      ok, deadline := child.WaitProcess(timeout);
      waited := child.polls;
      if !ok {
        r := Err(TimedOut);
      } else if child.code != 0 {
        r := Err(BadExit(child.code));
      } else {
        r := Ok(true);
      }
    }
    child.Cleanup();
  }
}
