/**
 Handing permits from one task to the next: the wait queue that the async mutex and the semaphore
 share. The mutex is the case of one permit, `max == 1`, with the lock held when no permit is left;
 its `try_lock` is `TryTake` and the drop of a guard is `Release`. Here a poll of a future and the other
 operations are one step each, as on a single processor between two suspension points, and a
 compare-exchange fails only when there is no permit.
 */
module HandOff {
  import opened Common
  import Micro = AsyncMutex
  import Semaphore

  const MAX_WAITERS: nat := Micro.MAX_WAITERS

  /** A lock or acquire future. Each is polled until it is ready or dropped; identifiers are not reused. */
  type Fut = nat

  /**
   `pending`: futures that returned `Pending` and are alive; they have set `registered`. `woken`:
   futures whose waker was fired by a release and that have not been polled since, oldest first.
   `registrations` and `acquisitions` record, in order, which futures queued up and which of those got
   a permit; no step reads them.
   */
  datatype State = State(
    permits: nat,
    max: nat,
    waiters: seq<Fut>,
    woken: seq<Fut>,
    pending: set<Fut>,
    finished: set<Fut>,
    registrations: seq<Fut>,
    acquisitions: seq<Fut>)

  datatype Action = Poll(f: Fut) | TryTake | Release | Cancel(f: Fut)

  predicate Enabled(s: State, a: Action) {
    match a
    case Poll(f) => f !in s.finished
    case TryTake => true
    case Release => true
    case Cancel(f) => f in s.pending
  }

  function Without(fs: seq<Fut>, f: Fut): seq<Fut> {
    if fs == [] then [] else if fs[0] == f then Without(fs[1..], f) else [fs[0]] + Without(fs[1..], f)
  }

  /** Neither future type has a `Drop`: the waker of a cancelled future stays in the queue. */
  function Step(s: State, a: Action): State
    requires Enabled(s, a)
  {
    match a
    case Poll(f) =>
      if s.permits > 0 then
        s.(permits := s.permits - 1, woken := Without(s.woken, f), pending := s.pending - {f},
           finished := s.finished + {f},
           acquisitions := if f in s.pending then s.acquisitions + [f] else s.acquisitions)
      else if f in s.pending then
        s.(woken := Without(s.woken, f))
      else if |s.waiters| < MAX_WAITERS then
        s.(pending := s.pending + {f}, waiters := s.waiters + [f], registrations := s.registrations + [f])
      else
        s.(pending := s.pending + {f})
    case TryTake => if s.permits > 0 then s.(permits := s.permits - 1) else s
    case Release =>
      var s1 := s.(permits := Semaphore.Raised(s.permits, s.max));
      if s.waiters == [] then s1
      else
        var f := s.waiters[0];
        s1.(waiters := s.waiters[1..], woken := if f in s.pending then s.woken + [f] else s.woken)
    case Cancel(f) => s.(pending := s.pending - {f}, finished := s.finished + {f}, woken := Without(s.woken, f))
  }

  predicate Init(s: State, initial: nat, max: nat) {
    s == State(initial, max, [], [], {}, {}, [], []) && initial <= Semaphore.USIZE_MAX && max <= Semaphore.USIZE_MAX
  }

  ghost predicate IsRun(ss: seq<State>, actions: seq<Action>) {
    && |ss| == |actions| + 1
    && (forall i | 0 <= i < |actions| :: Enabled(ss[i], actions[i]) && ss[i + 1] == Step(ss[i], actions[i]))
  }

  /** Runs of the mutex: one permit, and only the holder of the lock releases it. */
  ghost predicate IsMutexRun(ss: seq<State>, actions: seq<Action>) {
    && IsRun(ss, actions) && Init(ss[0], 1, 1)
    && (forall i | 0 <= i < |actions| && actions[i].Release? :: ss[i].permits == 0)
  }

  // ---- From single accesses to whole polls ----

  /** The moves of one poll that nothing interrupts, with no spurious failure. */
  function PollMoves(m: Micro.State, t: Fut): seq<Micro.Action>
    requires t < |m.agents|
  {
    var call := if m.agents[t].Waiting? then Micro.PollAgain else Micro.CallLock;
    if !m.locked then [call, Micro.Cas(false)]
    else if m.agents[t].Waiting? then [call, Micro.Cas(false), Micro.Cas(false)]
    else [call, Micro.Cas(false), Micro.Register, Micro.Cas(false)]
  }

  ghost predicate Performs(m: Micro.State, t: Fut, moves: seq<Micro.Action>, m': Micro.State)
    decreases |moves|
  {
    if moves == [] then m' == m
    else Micro.Enabled(m, t, moves[0]) && Performs(Micro.Step(m, t, moves[0]), t, moves[1..], m')
  }

  /** The two models of the mutex agree on the lock, the queue and on whether future `t` is pending. */
  ghost predicate Agrees(m: Micro.State, s: State, t: Fut) {
    && t < |m.agents|
    && s.max == 1 && s.permits == (if m.locked then 0 else 1) && m.waiters == s.waiters
    && (m.agents[t].Waiting? <==> t in s.pending)
  }

  /** One poll step is what the single accesses of an uninterrupted poll add up to. */
  lemma {:induction false} UninterruptedPoll(m: Micro.State, s: State, t: Fut, m': Micro.State)
    requires Agrees(m, s, t) && (m.agents[t].Waiting? || m.agents[t].Idle?) && t !in s.finished
    requires Performs(m, t, PollMoves(m, t), m')
    ensures Agrees(m', Step(s, Poll(t)), t)
    ensures m'.agents[t].Holding? <==> !m.locked
  {
    var moves := PollMoves(m, t);
    var m1 := Micro.Step(m, t, moves[0]);
    var m2 := Micro.Step(m1, t, moves[1..][0]);
    assert Performs(m2, t, moves[1..][1..], m');
    if m.locked {
      var m3 := Micro.Step(m2, t, moves[1..][1..][0]);
      assert Performs(m3, t, moves[1..][1..][1..], m');
      if m.agents[t].Idle? {
        var m4 := Micro.Step(m3, t, moves[1..][1..][1..][0]);
        assert Performs(m4, t, moves[1..][1..][1..][1..], m');
      }
    }
  }

  // ---- Exactly when a wakeup is lost ----

  predicate NoDup(fs: seq<Fut>) {
    forall i, j | 0 <= i < j < |fs| :: fs[i] != fs[j]
  }

  /** A future is queued or woken at most once; woken ones are pending, queued ones pending or finished. */
  ghost predicate Tidy(s: State) {
    && NoDup(s.waiters) && NoDup(s.woken)
    && (forall f | f in s.waiters :: (f in s.pending || f in s.finished) && f !in s.woken)
    && (forall f | f in s.woken :: f in s.pending)
    && s.pending !! s.finished
  }

  /** Nobody is forgotten: every pending future is queued or woken. */
  ghost predicate Placed(s: State) {
    forall f | f in s.pending :: f in s.waiters || f in s.woken
  }

  /**
   No permit lies idle: while a pending future is queued, as many futures are woken as permits are
   available. For the mutex: a free lock with nobody woken has no pending waiter.
   */
  ghost predicate Awake(s: State) {
    forall f | f in s.waiters && f in s.pending :: s.permits <= |s.woken|
  }

  /**
   The steps that forget a future: a woken future is polled when the permit is gone again (its
   `registered` flag keeps it from queueing again), or a new one finds the queue full.
   */
  predicate Strands(s: State, a: Action) {
    && a.Poll?
    && s.permits == 0
    && (a.f in s.woken || (a.f !in s.pending && |s.waiters| >= MAX_WAITERS))
  }

  /**
   The steps that leave a permit idle: a release pops the waker of a future that is gone, or a woken
   future is dropped, while another pending future is queued and nobody else is woken for the permit.
   */
  predicate Stalls(s: State, a: Action) {
    match a
    case Release =>
      && s.waiters != [] && s.waiters[0] !in s.pending
      && Semaphore.Raised(s.permits, s.max) > |s.woken|
      && exists g | g in s.waiters :: g in s.pending
    case Cancel(f) =>
      && s.permits > |Without(s.woken, f)|
      && exists g | g in s.waiters :: g in s.pending && g != f
    case _ => false
  }

  lemma {:induction false} WithoutMembers(fs: seq<Fut>, f: Fut, g: Fut)
    ensures g in Without(fs, f) <==> g in fs && g != f
  {
    if fs != [] {
      WithoutMembers(fs[1..], f, g);
      assert fs == [fs[0]] + fs[1..];
    }
  }

  lemma {:induction false} WithoutNoDup(fs: seq<Fut>, f: Fut)
    requires NoDup(fs)
    ensures NoDup(Without(fs, f))
    ensures |Without(fs, f)| == |fs| - if f in fs then 1 else 0
    ensures fs != [] && f == fs[0] ==> Without(fs, f) == fs[1..]
    ensures f !in fs ==> Without(fs, f) == fs
  {
    if fs != [] {
      WithoutNoDup(fs[1..], f);
      WithoutMembers(fs[1..], f, fs[0]);
      assert fs == [fs[0]] + fs[1..] && fs[0] !in fs[1..];
    }
  }

  /** What `Without` does to the woken list, for all members at once. */
  lemma {:induction false} WokenWithout(s: State, f: Fut)
    requires Tidy(s)
    ensures NoDup(Without(s.woken, f)) && |Without(s.woken, f)| == |s.woken| - if f in s.woken then 1 else 0
    ensures forall g :: g in Without(s.woken, f) <==> g in s.woken && g != f
  {
    WithoutNoDup(s.woken, f);
    forall g
      ensures g in Without(s.woken, f) <==> g in s.woken && g != f
    {
      WithoutMembers(s.woken, f, g);
    }
  }

  lemma {:induction false} StepKeepsTidy(s: State, a: Action)
    requires Tidy(s) && Enabled(s, a)
    ensures Tidy(Step(s, a))
  {
    if a.Poll? || a.Cancel? {
      WokenWithout(s, a.f);
    }
    if a.Release? && s.waiters != [] {
      assert forall g :: g in s.waiters[1..] ==> g in s.waiters && g != s.waiters[0];
    }
  }

  /** A step from a state with nobody forgotten forgets somebody if and only if it is a stranding step. */
  lemma {:induction false} StepStrandsIff(s: State, a: Action)
    requires Tidy(s) && Placed(s) && Enabled(s, a)
    ensures Placed(Step(s, a)) <==> !Strands(s, a)
  {
    var s' := Step(s, a);
    if a.Poll? || a.Cancel? {
      WokenWithout(s, a.f);
    }
    if Strands(s, a) {
      assert a.f in s'.pending && a.f !in s'.woken && a.f !in s'.waiters;
    } else if a.Release? && s.waiters != [] {
      assert s.waiters == [s.waiters[0]] + s.waiters[1..];
    }
  }

  /** A step from a state with no idle permit leaves one idle if and only if it is a stalling step. */
  lemma {:induction false} StepStallsIff(s: State, a: Action)
    requires Tidy(s) && Awake(s) && Enabled(s, a)
    ensures Awake(Step(s, a)) <==> !Stalls(s, a)
  {
    var s' := Step(s, a);
    match a
    case TryTake =>
    case Poll(f) => WokenWithout(s, f);
    case Release =>
      if s.waiters != [] {
        assert s.waiters == [s.waiters[0]] + s.waiters[1..];
      }
    case Cancel(f) => WokenWithout(s, f);
  }

  lemma {:induction false} RunIsTidy(ss: seq<State>, actions: seq<Action>, i: nat)
    requires IsRun(ss, actions) && Tidy(ss[0]) && i < |ss|
    ensures Tidy(ss[i])
    decreases i
  {
    if i > 0 {
      RunIsTidy(ss, actions, i - 1);
      StepKeepsTidy(ss[i - 1], actions[i - 1]);
      assert ss[i - 1 + 1] == Step(ss[i - 1], actions[i - 1]);
    }
  }

  lemma {:induction false} PlacedUnlessStranded(ss: seq<State>, actions: seq<Action>, i: nat)
    requires IsRun(ss, actions) && Tidy(ss[0]) && Placed(ss[0]) && i < |ss|
    requires forall j | 0 <= j < |actions| :: !Strands(ss[j], actions[j])
    ensures Placed(ss[i])
    decreases i
  {
    if i > 0 {
      PlacedUnlessStranded(ss, actions, i - 1);
      RunIsTidy(ss, actions, i - 1);
      StepStrandsIff(ss[i - 1], actions[i - 1]);
      assert ss[i - 1 + 1] == Step(ss[i - 1], actions[i - 1]);
    }
  }

  lemma {:induction false} AwakeUnlessStalled(ss: seq<State>, actions: seq<Action>, i: nat)
    requires IsRun(ss, actions) && Tidy(ss[0]) && Awake(ss[0]) && i < |ss|
    requires forall j | 0 <= j < |actions| :: !Stalls(ss[j], actions[j])
    ensures Awake(ss[i])
    decreases i
  {
    if i > 0 {
      AwakeUnlessStalled(ss, actions, i - 1);
      RunIsTidy(ss, actions, i - 1);
      StepStallsIff(ss[i - 1], actions[i - 1]);
      assert ss[i - 1 + 1] == Step(ss[i - 1], actions[i - 1]);
    }
  }

  /** No future is ever forgotten in a run if and only if the run has no stranding step. */
  lemma {:induction false} RunStrandsIff(ss: seq<State>, actions: seq<Action>, initial: nat, max: nat)
    requires IsRun(ss, actions) && Init(ss[0], initial, max)
    ensures (forall i | 0 <= i < |ss| :: Placed(ss[i])) <==> (forall i | 0 <= i < |actions| :: !Strands(ss[i], actions[i]))
  {
    if forall i | 0 <= i < |actions| :: !Strands(ss[i], actions[i]) {
      forall i | 0 <= i < |ss|
        ensures Placed(ss[i])
      {
        PlacedUnlessStranded(ss, actions, i);
      }
    } else {
      var i :| 0 <= i < |actions| && Strands(ss[i], actions[i]);
      RunIsTidy(ss, actions, i);
      if Placed(ss[i]) {
        StepStrandsIff(ss[i], actions[i]);
        assert !Placed(ss[i + 1]);
      }
    }
  }

  /** No permit ever lies idle in a run if and only if the run has no stalling step. */
  lemma {:induction false} RunStallsIff(ss: seq<State>, actions: seq<Action>, initial: nat, max: nat)
    requires IsRun(ss, actions) && Init(ss[0], initial, max)
    ensures (forall i | 0 <= i < |ss| :: Awake(ss[i])) <==> (forall i | 0 <= i < |actions| :: !Stalls(ss[i], actions[i]))
  {
    if forall i | 0 <= i < |actions| :: !Stalls(ss[i], actions[i]) {
      forall i | 0 <= i < |ss|
        ensures Awake(ss[i])
      {
        AwakeUnlessStalled(ss, actions, i);
      }
    } else {
      var i :| 0 <= i < |actions| && Stalls(ss[i], actions[i]);
      RunIsTidy(ss, actions, i);
      if Awake(ss[i]) {
        StepStallsIff(ss[i], actions[i]);
        assert !Awake(ss[i + 1]);
      }
    }
  }

  /** Exactly the runs without stranding and stalling steps lose no wakeup in any state. */
  lemma {:induction false} RunLosesIff(ss: seq<State>, actions: seq<Action>, initial: nat, max: nat)
    requires IsRun(ss, actions) && Init(ss[0], initial, max)
    ensures (forall i | 0 <= i < |ss| :: Placed(ss[i]) && Awake(ss[i])) <==>
            (forall i | 0 <= i < |actions| :: !Strands(ss[i], actions[i]) && !Stalls(ss[i], actions[i]))
  {
    RunStrandsIff(ss, actions, initial, max);
    RunStallsIff(ss, actions, initial, max);
  }

  // ---- What a lost wakeup leads to ----

  /** A future that nothing will ever wake: pending, and in neither list. */
  predicate Lost(s: State, f: Fut) {
    f in s.pending && f !in s.waiters && f !in s.woken
  }

  /** Lost is for good: no step but a poll or a cancellation of the future itself changes it. */
  lemma {:induction false} LostForever(ss: seq<State>, actions: seq<Action>, f: Fut, i: nat)
    requires IsRun(ss, actions) && Lost(ss[0], f) && i < |ss|
    requires Poll(f) !in actions && Cancel(f) !in actions
    ensures Lost(ss[i], f)
    decreases i
  {
    if i > 0 {
      LostForever(ss, actions, f, i - 1);
      var s, a := ss[i - 1], actions[i - 1];
      assert a in actions && ss[i - 1 + 1] == Step(s, a);
      if a.Poll? || a.Cancel? {
        WithoutMembers(s.woken, a.f, f);
      }
    }
  }

  /** A permit is there, nobody is woken, and this future sleeps in the queue. */
  predicate Stalled(s: State, f: Fut) {
    s.permits > 0 && s.woken == [] && f in s.waiters && f in s.pending
  }

  /** A stall lasts until somebody else takes a permit or releases one: nothing wakes the future by itself. */
  lemma {:induction false} StallLasts(ss: seq<State>, actions: seq<Action>, f: Fut, i: nat)
    requires IsRun(ss, actions) && Stalled(ss[0], f) && i < |ss|
    requires forall a | a in actions :: a.Cancel? && a.f != f
    ensures Stalled(ss[i], f)
    decreases i
  {
    if i > 0 {
      StallLasts(ss, actions, f, i - 1);
      assert actions[i - 1] in actions && ss[i - 1 + 1] == Step(ss[i - 1], actions[i - 1]);
    }
  }

  /** One more step at the end of a run of the mutex. */
  lemma {:induction false} MutexRunOn(ss: seq<State>, actions: seq<Action>, a: Action, s: State)
    requires IsMutexRun(ss, actions) && Enabled(ss[|actions|], a) && s == Step(ss[|actions|], a)
    requires a.Release? ==> ss[|actions|].permits == 0
    ensures IsMutexRun(ss + [s], actions + [a])
  {
  }

  /** 1 takes the lock at once, 2 and then 3 queue up. */
  lemma {:induction false} TwoWaiters() returns (ss: seq<State>)
    ensures IsMutexRun(ss, [Poll(1), Poll(2), Poll(3)])
    ensures ss[3] == State(0, 1, [2, 3], [], {2, 3}, {1}, [2, 3], [])
  {
    ss := [State(1, 1, [], [], {}, {}, [], [])];
    var s1 := State(0, 1, [], [], {}, {1}, [], []);
    var s2 := State(0, 1, [2], [], {2}, {1}, [2], []);
    var s3 := State(0, 1, [2, 3], [], {2, 3}, {1}, [2, 3], []);
    assert Without([], 1) == [];
    MutexRunOn(ss, [], Poll(1), s1);
    MutexRunOn(ss + [s1], [Poll(1)], Poll(2), s2);
    MutexRunOn(ss + [s1] + [s2], [Poll(1)] + [Poll(2)], Poll(3), s3);
    ss := ss + [s1] + [s2] + [s3];
    assert [Poll(1)] + [Poll(2)] + [Poll(3)] == [Poll(1), Poll(2), Poll(3)];
  }

  /** Future 2 is dropped while it is queued: the release pops its waker, and 3 sleeps beside a free lock. */
  lemma {:induction false} DeadWakerStalls() returns (ss: seq<State>)
    ensures IsMutexRun(ss, [Poll(1), Poll(2), Poll(3), Cancel(2), Release])
    ensures Stalled(ss[5], 3)
  {
    ss := TwoWaiters();
    var actions := [Poll(1), Poll(2), Poll(3)];
    var s4 := State(0, 1, [2, 3], [], {3}, {1, 2}, [2, 3], []);
    var s5 := State(1, 1, [3], [], {3}, {1, 2}, [2, 3], []);
    assert Without([], 2) == [] && Step(ss[3], Cancel(2)) == s4;
    MutexRunOn(ss, actions, Cancel(2), s4);
    MutexRunOn(ss + [s4], actions + [Cancel(2)], Release, s5);
    ss := ss + [s4] + [s5];
    assert actions + [Cancel(2)] + [Release] == [Poll(1), Poll(2), Poll(3), Cancel(2), Release];
  }

  /** Future 2 is dropped after it was woken: nobody passes the wakeup on to 3. */
  lemma {:induction false} WokenDropStalls() returns (ss: seq<State>)
    ensures IsMutexRun(ss, [Poll(1), Poll(2), Poll(3), Release, Cancel(2)])
    ensures Stalled(ss[5], 3)
  {
    ss := TwoWaiters();
    var actions := [Poll(1), Poll(2), Poll(3)];
    var s4 := State(1, 1, [3], [2], {2, 3}, {1}, [2, 3], []);
    var s5 := State(1, 1, [3], [], {3}, {1, 2}, [2, 3], []);
    assert Step(ss[3], Release) == s4;
    assert Without([2], 2) == [] && Step(s4, Cancel(2)) == s5;
    MutexRunOn(ss, actions, Release, s4);
    MutexRunOn(ss + [s4], actions + [Release], Cancel(2), s5);
    ss := ss + [s4] + [s5];
    assert actions + [Release] + [Cancel(2)] == [Poll(1), Poll(2), Poll(3), Release, Cancel(2)];
  }

  /**
   A run that forgets a future: 1 gets the lock, 2 queues up, the guard is dropped and 2 is woken, a
   `try_lock` gets in first, 2 is polled in vain, and the lock is released with nobody to wake.
   */
  lemma {:induction false} StrandingRun() returns (ss: seq<State>)
    ensures IsMutexRun(ss, [Poll(1), Poll(2), Release, TryTake, Poll(2), Release])
    ensures ss[6].permits == 1 && ss[6].waiters == [] && ss[6].woken == [] && Lost(ss[6], 2)
  {
    var s0 := State(1, 1, [], [], {}, {}, [], []);
    var s1 := State(0, 1, [], [], {}, {1}, [], []);
    var s2 := State(0, 1, [2], [], {2}, {1}, [2], []);
    var s3 := State(1, 1, [], [2], {2}, {1}, [2], []);
    var s4 := State(0, 1, [], [2], {2}, {1}, [2], []);
    var s5 := State(0, 1, [], [], {2}, {1}, [2], []);
    var s6 := State(1, 1, [], [], {2}, {1}, [2], []);
    assert Without([], 1) == [] && Without([2], 2) == [];
    ss := [s0, s1, s2, s3, s4, s5, s6];
    assert Step(s0, Poll(1)) == s1;
    assert Step(s1, Poll(2)) == s2;
    assert Step(s2, Release) == s3;
    assert Step(s3, TryTake) == s4;
    assert Step(s4, Poll(2)) == s5;
    assert Step(s5, Release) == s6;
  }

  // ---- Hand-off in order ----

  /**
   Nobody takes a permit for which a future is woken, woken futures are polled in order, none is
   cancelled, the queue has room, and only permits that were taken are released.
   */
  predicate Courteous(s: State, a: Action) {
    match a
    case Poll(f) =>
      && (f in s.woken ==> f == s.woken[0])
      && (f !in s.woken && s.permits > 0 ==> s.permits > |s.woken|)
      && (f !in s.pending && s.permits == 0 ==> |s.waiters| < MAX_WAITERS)
    case TryTake => s.permits > 0 ==> s.permits > |s.woken|
    case Release => s.permits < s.max
    case Cancel(_) => false
  }

  /**
   Permits pass along the queue: there is a permit for every woken future; a permit that nobody is
   woken for means an empty queue; woken and queued futures are exactly the pending ones; and those that
   queued up get their permits in the order in which they queued up.
   */
  ghost predicate Orderly(s: State) {
    && s.max <= Semaphore.USIZE_MAX
    && |s.woken| <= s.permits
    && (s.permits > |s.woken| ==> s.waiters == [])
    && (forall f :: f in s.pending <==> f in s.woken + s.waiters)
    && s.registrations == s.acquisitions + s.woken + s.waiters
  }

  lemma {:induction false} StepKeepsOrderly(s: State, a: Action)
    requires Tidy(s) && Orderly(s) && Enabled(s, a) && Courteous(s, a)
    ensures Orderly(Step(s, a))
  {
    var s' := Step(s, a);
    match a
    case TryTake =>
    case Release =>
      if s.waiters != [] {
        assert s.waiters == [s.waiters[0]] + s.waiters[1..];
        assert s.waiters[0] in s.woken + s.waiters;
        assert s'.woken + s'.waiters == s.woken + s.waiters;
      }
    case Poll(f) => PollKeepsOrderly(s, f);
    case Cancel(_) =>
  }

  lemma {:induction false} PollKeepsOrderly(s: State, f: Fut)
    requires Tidy(s) && Orderly(s) && Enabled(s, Poll(f)) && Courteous(s, Poll(f))
    ensures Orderly(Step(s, Poll(f)))
  {
    if f in s.woken {
      WokenPollKeepsOrderly(s, f);
    } else {
      WithoutNoDup(s.woken, f);
      if s.permits > 0 {
        assert f !in s.woken + s.waiters;
      } else if f !in s.pending {
        var s' := Step(s, Poll(f));
        assert s'.woken + s'.waiters == s.woken + s.waiters + [f];
      }
    }
  }

  lemma {:induction false} HeadMovesOver(done: seq<Fut>, f: Fut, woken: seq<Fut>, waiters: seq<Fut>, pending: set<Fut>)
    requires NoDup([f] + woken) && f !in waiters
    requires forall g :: g in pending <==> g in [f] + woken + waiters
    ensures done + ([f] + woken) + waiters == (done + [f]) + woken + waiters
    ensures forall g :: g in pending - {f} <==> g in woken + waiters
  {
    assert done + ([f] + woken) + waiters == (done + [f]) + woken + waiters;
    assert [f] + woken + waiters == [f] + (woken + waiters);
    forall i | 0 <= i < |woken|
      ensures woken[i] != f
    {
      assert ([f] + woken)[0] == f && ([f] + woken)[i + 1] == woken[i];
    }
    assert f !in woken + waiters;
  }

  lemma {:induction false} WokenPollKeepsOrderly(s: State, f: Fut)
    requires Tidy(s) && Orderly(s) && Enabled(s, Poll(f)) && f in s.woken && f == s.woken[0]
    ensures Orderly(Step(s, Poll(f)))
  {
    WithoutNoDup(s.woken, f);
    assert s.woken == [f] + s.woken[1..];
    HeadMovesOver(s.acquisitions, f, s.woken[1..], s.waiters, s.pending);
  }

  /** In a courteous run every state is orderly, so no wakeup is ever lost. */
  lemma {:induction false} CourteousRun(ss: seq<State>, actions: seq<Action>, initial: nat, max: nat, i: nat)
    requires IsRun(ss, actions) && Init(ss[0], initial, max) && i < |ss|
    requires forall j | 0 <= j < |actions| :: Courteous(ss[j], actions[j])
    ensures Tidy(ss[i]) && Orderly(ss[i]) && Placed(ss[i]) && Awake(ss[i])
    decreases i
  {
    if i > 0 {
      CourteousRun(ss, actions, initial, max, i - 1);
      StepKeepsTidy(ss[i - 1], actions[i - 1]);
      StepKeepsOrderly(ss[i - 1], actions[i - 1]);
      assert ss[i - 1 + 1] == Step(ss[i - 1], actions[i - 1]);
    }
    assert forall f | f in ss[i].woken + ss[i].waiters :: f in ss[i].waiters || f in ss[i].woken;
  }
}
