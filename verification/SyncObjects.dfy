/**
 The async mutex and the semaphore as objects. A method call here is one uninterrupted execution of the
 source's code; interleaved executions are the subject of `AsyncMutex` and `Semaphore`.
 */
module SyncObjects {
  import opened Common
  import HandOff
  import Semaphore

  /** `AsyncMutexLockFuture` or `SemaphoreAcquireFuture`, with the identity of the task that polls it. */
  class WaitFuture {
    const id: nat
    var registered: bool

    constructor (id: nat)
      ensures this.id == id && !registered
    {
      this.id := id;
      registered := false;
    }
  }

  class AsyncMutexObject {
    var locked: bool
    var waiters: seq<nat>

    ghost predicate Matches(s: HandOff.State)
      reads this
    {
      s.max == 1 && s.permits == (if locked then 0 else 1) && waiters == s.waiters
    }

    constructor ()
      ensures !locked && waiters == []
    {
      locked, waiters := false, [];
    }

    /** `compare_exchange(false, true)`. */
    method CompareExchange() returns (ok: bool)
      modifies this`locked
      ensures ok == !old(locked) && locked
    {
      ok := !locked;
      locked := true;
    }

    method TryLock(ghost s: HandOff.State) returns (guard: bool)
      requires Matches(s)
      modifies this`locked
      ensures guard == !old(locked) && Matches(HandOff.Step(s, HandOff.TryTake))
    {
      guard := CompareExchange();
    }

    method Poll(f: WaitFuture, ghost s: HandOff.State) returns (ready: bool)
      requires Matches(s) && f.id !in s.finished && (f.registered <==> f.id in s.pending)
      modifies this, f`registered
      ensures Matches(HandOff.Step(s, HandOff.Poll(f.id)))
      ensures ready == !old(locked)
      ensures !ready ==> f.registered && f.id in HandOff.Step(s, HandOff.Poll(f.id)).pending
      ensures waiters == if ready || old(f.registered) || |old(waiters)| >= 100 then old(waiters)
                         else old(waiters) + [f.id]
    {
      ready := CompareExchange();
      if ready {
        return;
      }
      if !f.registered {
        if |waiters| < HandOff.MAX_WAITERS {
          waiters := waiters + [f.id];
        }
        f.registered := true;
      }
      ready := CompareExchange();
    }

    /** Drop of the guard: release, then wake the first waiter. */
    method DropGuard(ghost s: HandOff.State) returns (woken: Option<nat>)
      requires locked && Matches(s)
      modifies this
      ensures Matches(HandOff.Step(s, HandOff.Release))
      ensures woken == if s.waiters == [] then None else Some(s.waiters[0])
    {
      locked := false;
      woken := None;
      if waiters != [] {
        woken := Some(waiters[0]);
        waiters := waiters[1..];
      }
    }
  }

  class SemaphoreObject {
    var permits: u64
    const maxPermits: u64
    var waiters: seq<nat>

    ghost predicate Valid()
      reads this
    {
      |waiters| <= HandOff.MAX_WAITERS
    }

    ghost predicate Matches(s: HandOff.State)
      reads this
    {
      permits == s.permits && maxPermits == s.max && waiters == s.waiters
    }

    constructor New(permits: u64)
      ensures Valid() && Matches(HandOff.State(permits, permits, [], [], {}, {}, [], []))
    {
      this.permits, maxPermits, waiters := permits, permits, [];
    }

    /** `with_max`; its debug assertion `initial <= max` is not part of builds without debug assertions. */
    constructor WithMax(initial: u64, max: u64)
      ensures Valid() && Matches(HandOff.State(initial, max, [], [], {}, {}, [], []))
    {
      permits, maxPermits, waiters := initial, max, [];
    }

    /** The weak compare-exchange fails spuriously the first `failures` times. */
    method TryAcquire(failures: nat, ghost s: HandOff.State) returns (ok: bool)
      requires Valid() && Matches(s)
      modifies this`permits
      ensures Valid() && Matches(HandOff.Step(s, HandOff.TryTake))
      ensures (permits, ok) == Semaphore.Atomic(old(permits), maxPermits, Semaphore.TryAcquire)
    {
      var left := failures;
      while true
        invariant permits == old(permits)
        decreases left
      {
        var current := permits;
        if current == 0 {
          return false;
        }
        if left == 0 {
          permits := current - 1;
          return true;
        }
        left := left - 1;
      }
    }

    method Release(failures: nat, ghost s: HandOff.State) returns (woken: Option<nat>)
      requires Valid() && Matches(s)
      modifies this
      ensures Valid() && Matches(HandOff.Step(s, HandOff.Release))
      ensures permits == Semaphore.Atomic(old(permits), maxPermits, Semaphore.Release).0
      ensures woken == if s.waiters == [] then None else Some(s.waiters[0])
    {
      var left := failures;
      while true
        invariant permits == old(permits) && waiters == old(waiters)
        decreases left
      {
        var current := permits;
        var newVal := Min(Next64(current), maxPermits);
        if current == newVal {
          break;
        }
        if left == 0 {
          permits := newVal;
          break;
        }
        left := left - 1;
      }
      woken := None;
      if waiters != [] {
        woken := Some(waiters[0]);
        waiters := waiters[1..];
      }
    }

    method Poll(f: WaitFuture, failures: nat, ghost s: HandOff.State) returns (ready: bool)
      requires Valid() && Matches(s) && f.id !in s.finished && (f.registered <==> f.id in s.pending)
      modifies this, f`registered
      ensures Valid() && Matches(HandOff.Step(s, HandOff.Poll(f.id)))
      ensures (permits, ready) == Semaphore.Atomic(old(permits), maxPermits, Semaphore.TryAcquire)
      ensures !ready ==> f.registered && f.id in HandOff.Step(s, HandOff.Poll(f.id)).pending
      ensures waiters == if ready || old(f.registered) || |old(waiters)| >= 100 then old(waiters)
                         else old(waiters) + [f.id]
    {
      ready := TryAcquire(failures, s);
      if ready {
        return;
      }
      if !f.registered {
        if |waiters| < HandOff.MAX_WAITERS {
          waiters := waiters + [f.id];
        }
        f.registered := true;
      }
      ready := TryAcquire(failures, HandOff.Step(s, HandOff.Poll(f.id)));
    }
  }
}
