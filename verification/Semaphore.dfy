/**
 The counting semaphore at the granularity of single atomic accesses. Any number of threads run
 `try_acquire`, `release` and the steps of an acquire future, interleaved at every load and every
 compare-exchange; a weak compare-exchange may fail spuriously. `history` records invocations,
 returns and, between them, the step at which an operation takes effect; nothing reads it.
 */
module Semaphore {
  import opened Common

  const USIZE_MAX: nat := 0xFFFF_FFFF_FFFF_FFFF
  const MAX_WAITERS: nat := 100

  type Tid = nat

  datatype Op = TryAcquire | Release

  /** Where a thread is in the code of its operation. */
  datatype Pc =
    | Idle
    | AtLoad(op: Op)
    | AtCas(op: Op, current: nat)
    | AtWake
    | AtReturn(op: Op, result: bool)

  datatype Event =
    | Invoke(tid: Tid, op: Op)
    | TakeEffect(tid: Tid, op: Op, result: bool)
    | Return(tid: Tid, result: bool)

  datatype State = State(permits: nat, max: nat, waiters: seq<Tid>, threads: seq<Pc>, history: seq<Event>)

  /** What a thread does next. `DoRegister` is the waker push of an acquire future. */
  datatype Action = DoInvoke(op: Op) | DoLoad | DoCas(spurious: bool) | DoWake | DoReturn | DoRegister

  predicate Enabled(s: State, t: Tid, a: Action) {
    && t < |s.threads|
    && match a
       case DoInvoke(_) => s.threads[t].Idle?
       case DoRegister => s.threads[t].Idle?
       case DoLoad => s.threads[t].AtLoad?
       case DoCas(_) => s.threads[t].AtCas?
       case DoWake => s.threads[t].AtWake?
       case DoReturn => s.threads[t].AtReturn?
  }

  /** What `release` writes: one more, capped. `current + 1` wraps, as in builds without overflow checks. */
  function Raised(current: nat, max: nat): nat {
    Min(if current == USIZE_MAX then 0 else current + 1, max)
  }

  function Goto(s: State, t: Tid, pc: Pc): State
    requires t < |s.threads|
  {
    s.(threads := s.threads[t := pc])
  }

  function Log(s: State, e: Event): State {
    s.(history := s.history + [e])
  }

  function Step(s: State, t: Tid, a: Action): State
    requires Enabled(s, t, a)
  {
    match a
    case DoInvoke(op) => Log(Goto(s, t, AtLoad(op)), Invoke(t, op))
    case DoRegister => if |s.waiters| < MAX_WAITERS then s.(waiters := s.waiters + [t]) else s
    case DoLoad =>
      var op, current := s.threads[t].op, s.permits;
      if op.TryAcquire? && current == 0 then
        Log(Goto(s, t, AtReturn(TryAcquire, false)), TakeEffect(t, TryAcquire, false))
      else if op.Release? && current == Raised(current, s.max) then
        Log(Goto(s, t, AtWake), TakeEffect(t, Release, true))
      else Goto(s, t, AtCas(op, current))
    case DoCas(spurious) =>
      var AtCas(op, current) := s.threads[t];
      if spurious || s.permits != current then Goto(s, t, AtLoad(op))
      else if op.TryAcquire? && current > 0 then
        Log(Goto(s.(permits := current - 1), t, AtReturn(TryAcquire, true)), TakeEffect(t, TryAcquire, true))
      else
        Log(Goto(s.(permits := Raised(current, s.max)), t, AtWake), TakeEffect(t, Release, true))
    case DoWake => Goto(s.(waiters := if s.waiters == [] then [] else s.waiters[1..]), t, AtReturn(Release, true))
    case DoReturn => Log(Goto(s, t, Idle), Return(t, s.threads[t].result))
  }

  predicate Init(s: State, initial: nat) {
    && s.permits == initial <= USIZE_MAX && s.max <= USIZE_MAX
    && s.waiters == [] && s.history == []
    && forall t | 0 <= t < |s.threads| :: s.threads[t] == Idle
  }

  datatype Move = Move(tid: Tid, action: Action)

  ghost predicate IsRun(ss: seq<State>, moves: seq<Move>) {
    && |ss| == |moves| + 1
    && (forall i | 0 <= i < |moves| ::
          Enabled(ss[i], moves[i].tid, moves[i].action) && ss[i + 1] == Step(ss[i], moves[i].tid, moves[i].action))
  }

  // ---- The atomic counter ----

  /** The specification: one atomic step of a counter that `release` caps at `max`. */
  function Atomic(value: nat, max: nat, op: Op): (nat, bool) {
    match op
    case TryAcquire => if value == 0 then (0, false) else (value - 1, true)
    case Release => (Raised(value, max), true)
  }

  /** The counter after the effects in a history, if each had the result the atomic counter gives. */
  function Replay(initial: nat, max: nat, h: seq<Event>): Option<nat> {
    if h == [] then Some(initial)
    else
      var before, e := Replay(initial, max, h[..|h| - 1]), h[|h| - 1];
      if before.None? || !e.TakeEffect? then before
      else if Atomic(before.value, max, e.op).1 == e.result then Some(Atomic(before.value, max, e.op).0)
      else None
  }

  /** How far an operation of a thread has come; `Bad` is a violation of invoke-effect-return. */
  datatype Phase = Resting | Pending(op: Op) | Effective(op: Op, result: bool) | Bad

  function Advance(p: Phase, e: Event): Phase {
    match e
    case Invoke(_, op) => if p.Resting? then Pending(op) else Bad
    case TakeEffect(_, op, result) => if p == Pending(op) then Effective(op, result) else Bad
    case Return(_, result) => if p.Effective? && p.result == result then Resting else Bad
  }

  function PhaseOf(h: seq<Event>, t: Tid): Phase {
    if h == [] then Resting
    else
      var before, e := PhaseOf(h[..|h| - 1], t), h[|h| - 1];
      if e.tid == t then Advance(before, e) else before
  }

  /**
   A history is linearizable: every operation takes effect exactly once between its invocation and
   its return, with the result it returns, and in the order of these points the results are those
   of the atomic counter.
   */
  ghost predicate Linearizable(initial: nat, max: nat, h: seq<Event>) {
    Replay(initial, max, h).Some? && forall t: Tid :: PhaseOf(h, t) != Bad
  }

  // ---- The invariant ----

  function PhaseAt(pc: Pc): Phase {
    match pc
    case Idle => Resting
    case AtLoad(op) => Pending(op)
    case AtCas(op, _) => Pending(op)
    case AtWake => Effective(Release, true)
    case AtReturn(op, result) => Effective(op, result)
  }

  /** What the load has left for the compare-exchange to do. */
  predicate LoadOk(pc: Pc, max: nat) {
    pc.AtCas? ==> if pc.op.TryAcquire? then pc.current > 0 else pc.current != Raised(pc.current, max)
  }

  ghost predicate ThreadInv(s: State, t: Tid)
    requires t < |s.threads|
  {
    PhaseOf(s.history, t) == PhaseAt(s.threads[t]) && LoadOk(s.threads[t], s.max)
  }

  /** The counter is the replay of the effects so far, and within its bounds. */
  ghost predicate CounterOk(s: State, initial: nat) {
    && s.permits <= USIZE_MAX && s.max <= USIZE_MAX
    && (s.permits <= initial || s.permits <= s.max)
    && (initial <= s.max ==> s.permits <= s.max)
    && Replay(initial, s.max, s.history) == Some(s.permits)
  }

  ghost predicate Inv(s: State, initial: nat) {
    && CounterOk(s, initial)
    && (forall t | 0 <= t < |s.threads| :: ThreadInv(s, t))
    && (forall i | 0 <= i < |s.history| :: s.history[i].tid < |s.threads|)
  }

  lemma {:induction false} LogAppends(h: seq<Event>, e: Event, t: Tid)
    ensures PhaseOf(h + [e], t) == if e.tid == t then Advance(PhaseOf(h, t), e) else PhaseOf(h, t)
  {
    assert (h + [e])[..|h|] == h;
  }

  lemma {:induction false} ReplayAppends(initial: nat, max: nat, h: seq<Event>, e: Event)
    requires Replay(initial, max, h).Some?
    ensures Replay(initial, max, h + [e]) ==
            if !e.TakeEffect? then Replay(initial, max, h)
            else if Atomic(Replay(initial, max, h).value, max, e.op).1 == e.result
            then Some(Atomic(Replay(initial, max, h).value, max, e.op).0) else None
  {
    assert (h + [e])[..|h|] == h;
  }

  /** A step moves one thread and logs at most one event, of that thread. */
  lemma StepShape(s: State, t: Tid, a: Action)
    requires Enabled(s, t, a)
    ensures var s' := Step(s, t, a);
            && |s'.threads| == |s.threads| && s'.max == s.max
            && (forall u | 0 <= u < |s.threads| && u != t :: s'.threads[u] == s.threads[u])
            && (s'.history != s.history ==>
                  |s'.history| == |s.history| + 1
                  && s'.history == s.history + [s'.history[|s.history|]] && s'.history[|s.history|].tid == t)
  {
  }

  /**
   The wait queue: a registration appends a waker if there is room for it among 100, a wake takes off the
   oldest, and no other step touches the queue.
   */
  lemma {:induction false} QueueExact(s: State, t: Tid, a: Action)
    requires Enabled(s, t, a)
    ensures var s' := Step(s, t, a);
            match a
            case DoRegister => s'.waiters == (if |s.waiters| < 100 then s.waiters + [t] else s.waiters)
            case DoWake => s.waiters == (if s.waiters == [] then [] else [s.waiters[0]]) + s'.waiters
            case _ => s'.waiters == s.waiters
  {
  }

  lemma StepKeepsOther(s: State, initial: nat, t: Tid, a: Action, u: Tid)
    requires Inv(s, initial) && Enabled(s, t, a) && u < |s.threads| && u != t
    ensures ThreadInv(Step(s, t, a), u)
  {
    StepShape(s, t, a);
    assert ThreadInv(s, u);
    var s' := Step(s, t, a);
    if s'.history != s.history {
      LogAppends(s.history, s'.history[|s.history|], u);
    }
  }

  lemma StepKeepsLoad(s: State, t: Tid, a: Action)
    requires Enabled(s, t, a) && LoadOk(s.threads[t], s.max)
    ensures LoadOk(Step(s, t, a).threads[t], s.max)
  {
  }

  /** The program counter of the actor moves as the event it logs says. */
  lemma {:induction false} StepAdvances(s: State, t: Tid, a: Action)
    requires Enabled(s, t, a) && LoadOk(s.threads[t], s.max)
    ensures var s' := Step(s, t, a);
            if s'.history == s.history then PhaseAt(s'.threads[t]) == PhaseAt(s.threads[t])
            else
              && |s'.history| > |s.history|
              && PhaseAt(s'.threads[t]) == Advance(PhaseAt(s.threads[t]), s'.history[|s.history|])
  {
  }

  lemma StepKeepsActor(s: State, t: Tid, a: Action)
    requires Enabled(s, t, a) && ThreadInv(s, t)
    ensures ThreadInv(Step(s, t, a), t)
  {
    var s' := Step(s, t, a);
    StepShape(s, t, a);
    StepKeepsLoad(s, t, a);
    StepAdvances(s, t, a);
    if s'.history != s.history {
      LogAppends(s.history, s'.history[|s.history|], t);
    }
  }

  /** The counter changes only in steps that log an effect, and then as the atomic counter does. */
  lemma {:induction false} StepIsAtomic(s: State, t: Tid, a: Action)
    requires Enabled(s, t, a) && LoadOk(s.threads[t], s.max)
    ensures var s' := Step(s, t, a);
            if s'.history == s.history then s'.permits == s.permits
            else
              && |s'.history| > |s.history|
              && var e := s'.history[|s.history|];
              if !e.TakeEffect? then s'.permits == s.permits
              else (s'.permits, e.result) == Atomic(s.permits, s.max, e.op) && (e.op.Release? ==> Releasing(s.threads[t]))
  {
  }

  lemma {:induction false} StepKeepsCounter(s: State, s': State, initial: nat, t: Tid, a: Action)
    requires CounterOk(s, initial) && Enabled(s, t, a) && LoadOk(s.threads[t], s.max) && s' == Step(s, t, a)
    ensures CounterOk(s', initial)
  {
    StepShape(s, t, a);
    StepIsAtomic(s, t, a);
    if s'.history != s.history {
      ReplayAppends(initial, s.max, s.history, s'.history[|s.history|]);
    }
  }

  lemma {:induction false} StepKeepsInv(s: State, initial: nat, t: Tid, a: Action)
    requires Inv(s, initial) && Enabled(s, t, a)
    ensures Inv(Step(s, t, a), initial)
  {
    var s' := Step(s, t, a);
    assert ThreadInv(s, t);
    StepShape(s, t, a);
    StepKeepsCounter(s, s', initial, t, a);
    forall u | 0 <= u < |s'.threads|
      ensures ThreadInv(s', u)
    {
      if u == t {
        StepKeepsActor(s, t, a);
      } else {
        StepKeepsOther(s, initial, t, a, u);
      }
    }
  }

  lemma {:induction false} RunKeepsInv(ss: seq<State>, moves: seq<Move>, initial: nat, i: nat)
    requires IsRun(ss, moves) && Init(ss[0], initial) && i < |ss|
    ensures Inv(ss[i], initial) && ss[i].max == ss[0].max && |ss[i].threads| == |ss[0].threads|
  {
    if i > 0 {
      RunKeepsInv(ss, moves, initial, i - 1);
      StepKeepsInv(ss[i - 1], initial, moves[i - 1].tid, moves[i - 1].action);
      assert ss[i - 1 + 1] == Step(ss[i - 1], moves[i - 1].tid, moves[i - 1].action);
    }
  }

  lemma {:induction false} StrangerRests(h: seq<Event>, t: Tid)
    requires forall i | 0 <= i < |h| :: h[i].tid != t
    ensures PhaseOf(h, t) == Resting
  {
    if h != [] {
      StrangerRests(h[..|h| - 1], t);
    }
  }

  /**
   Every run is linearizable to the atomic counter, whatever the initial count and the maximum; the
   permits stay within the larger of the two, and within the maximum if they start there.
   */
  lemma {:induction false} RunLinearizable(ss: seq<State>, moves: seq<Move>, initial: nat, i: nat)
    requires IsRun(ss, moves) && Init(ss[0], initial) && i < |ss|
    ensures Linearizable(initial, ss[i].max, ss[i].history)
    ensures Replay(initial, ss[i].max, ss[i].history) == Some(ss[i].permits)
    ensures ss[i].permits <= initial || ss[i].permits <= ss[i].max
    ensures initial <= ss[i].max ==> ss[i].permits <= ss[i].max
  {
    var s := ss[i];
    RunKeepsInv(ss, moves, initial, i);
    forall t: Tid
      ensures PhaseOf(s.history, t) != Bad
    {
      if t < |s.threads| {
        assert ThreadInv(s, t);
      } else {
        StrangerRests(s.history, t);
      }
    }
  }

  /** Between an invocation and the matching return of a thread there is exactly one effect. */
  lemma {:induction false} OneEffect(h: seq<Event>, t: Tid, i: nat, j: nat)
    requires i < j < |h| && PhaseOf(h[..j + 1], t) != Bad
    requires h[i].Invoke? && h[i].tid == t && h[j].Return? && h[j].tid == t
    requires forall k | i < k < j && h[k].tid == t :: h[k].TakeEffect?
    ensures exists k :: i < k < j && h[k] == TakeEffect(t, h[i].op, h[j].result)
                        && forall m | i < m < j && m != k :: h[m].tid != t
  {
    assert h[..j + 1][..j] == h[..j];
    var k := EffectUpTo(h, t, i, j);
  }

  /** The position of the effect in `h[i + 1..m]`, or `i` while there is none. */
  lemma {:induction false} EffectUpTo(h: seq<Event>, t: Tid, i: nat, m: nat) returns (k: nat)
    requires i < m <= |h| && PhaseOf(h[..m], t) != Bad
    requires h[i].Invoke? && h[i].tid == t
    requires forall n | i < n < m && h[n].tid == t :: h[n].TakeEffect?
    ensures i <= k < m
    ensures forall n | i < n < m && n != k :: h[n].tid != t
    ensures k == i ==> PhaseOf(h[..m], t) == Pending(h[i].op)
    ensures k > i ==> h[k].TakeEffect? && h[k].tid == t && h[k].op == h[i].op
                      && PhaseOf(h[..m], t) == Effective(h[i].op, h[k].result)
    decreases m
  {
    assert h[..m][..m - 1] == h[..m - 1];
    if m == i + 1 {
      k := i;
    } else {
      k := EffectUpTo(h, t, i, m - 1);
      if h[m - 1].tid == t {
        k := m - 1;
      }
    }
  }

  // ---- Conservation ----

  /** Permits a thread has taken and not given back, by effects. */
  function Owned(h: seq<Event>, t: Tid): int {
    if h == [] then 0
    else
      var e := h[|h| - 1];
      Owned(h[..|h| - 1], t)
      + if e.tid == t && e.TakeEffect? then (if e.op.Release? then -1 else if e.result then 1 else 0) else 0
  }

  function TotalOwned(h: seq<Event>, n: nat): int {
    if n == 0 then 0 else TotalOwned(h, n - 1) + Owned(h, n - 1)
  }

  /** The clients' side of the bargain: a thread starts a release only for a permit it owns. */
  ghost predicate Disciplined(ss: seq<State>, moves: seq<Move>)
    requires IsRun(ss, moves)
  {
    forall i | 0 <= i < |moves| && moves[i].action == DoInvoke(Release) :: Owned(ss[i].history, moves[i].tid) > 0
  }

  predicate Releasing(pc: Pc) {
    pc == AtLoad(Release) || (pc.AtCas? && pc.op.Release?)
  }

  /** A thread owns no negative number of permits, and the one it is about to give back. */
  ghost predicate Covered(s: State, t: Tid)
    requires t < |s.threads|
  {
    Owned(s.history, t) >= if Releasing(s.threads[t]) then 1 else 0
  }

  ghost predicate Conserved(s: State, initial: nat) {
    && s.permits + TotalOwned(s.history, |s.threads|) == initial
    && (forall t | 0 <= t < |s.threads| :: Covered(s, t))
  }

  lemma {:induction false} OwnedAppends(h: seq<Event>, e: Event, t: Tid)
    ensures Owned(h + [e], t) ==
            Owned(h, t)
            + if e.tid == t && e.TakeEffect? then (if e.op.Release? then -1 else if e.result then 1 else 0) else 0
  {
    assert (h + [e])[..|h|] == h;
  }

  lemma {:induction false} TotalAppends(h: seq<Event>, e: Event, n: nat)
    ensures TotalOwned(h + [e], n) ==
            TotalOwned(h, n) + if e.tid < n then Owned(h + [e], e.tid) - Owned(h, e.tid) else 0
  {
    if n > 0 {
      TotalAppends(h, e, n - 1);
      OwnedAppends(h, e, n - 1);
    }
  }

  lemma {:induction false} TotalAtLeast(h: seq<Event>, n: nat, t: Tid)
    requires forall u | 0 <= u < n :: Owned(h, u) >= 0
    ensures TotalOwned(h, n) >= 0
    ensures t < n ==> TotalOwned(h, n) >= Owned(h, t)
  {
    if n > 0 {
      TotalAtLeast(h, n - 1, t);
    }
  }

  /** While a thread is releasing a permit it owns, the counter is below its maximum. */
  lemma BelowMax(s: State, initial: nat, t: Tid)
    requires Conserved(s, initial) && initial <= s.max && t < |s.threads| && Releasing(s.threads[t])
    ensures s.permits < s.max
  {
    assert Covered(s, t);
    forall u | 0 <= u < |s.threads|
      ensures Owned(s.history, u) >= 0
    {
      assert Covered(s, u);
    }
    TotalAtLeast(s.history, |s.threads|, t);
  }

  lemma StepCoversOther(s: State, t: Tid, a: Action, u: Tid)
    requires Enabled(s, t, a) && u < |s.threads| && u != t && Covered(s, u)
    ensures Covered(Step(s, t, a), u)
  {
    StepShape(s, t, a);
    var s' := Step(s, t, a);
    if s'.history != s.history {
      OwnedAppends(s.history, s'.history[|s.history|], u);
    }
  }

  /** A thread that is releasing has just begun, or was before and has not had its effect. */
  lemma {:induction false} ReleasingMoves(s: State, t: Tid, a: Action)
    requires Enabled(s, t, a) && LoadOk(s.threads[t], s.max)
    ensures var s' := Step(s, t, a);
            && (Releasing(s'.threads[t]) ==> a == DoInvoke(Release) || (Releasing(s.threads[t]) && s'.history == s.history))
            && (a == DoInvoke(Release) ==> s'.history == s.history + [Invoke(t, Release)])
  {
  }

  lemma {:induction false} StepCoversActor(s: State, s': State, t: Tid, a: Action)
    requires Enabled(s, t, a) && LoadOk(s.threads[t], s.max) && Covered(s, t) && s' == Step(s, t, a)
    requires a == DoInvoke(Release) ==> Owned(s.history, t) > 0
    ensures t < |s'.threads| && Covered(s', t)
  {
    StepShape(s, t, a);
    StepIsAtomic(s, t, a);
    ReleasingMoves(s, t, a);
    if s'.history != s.history {
      OwnedAppends(s.history, s'.history[|s.history|], t);
    }
  }

  lemma {:induction false} StepBalances(s: State, s': State, t: Tid, a: Action)
    requires Enabled(s, t, a) && LoadOk(s.threads[t], s.max) && s' == Step(s, t, a)
    requires Releasing(s.threads[t]) ==> s.permits < s.max <= USIZE_MAX
    ensures s'.permits + TotalOwned(s'.history, |s'.threads|) == s.permits + TotalOwned(s.history, |s.threads|)
  {
    StepShape(s, t, a);
    StepIsAtomic(s, t, a);
    if s'.history != s.history {
      var e := s'.history[|s.history|];
      TotalAppends(s.history, e, |s.threads|);
      OwnedAppends(s.history, e, t);
    }
  }

  lemma {:induction false} StepConserves(s: State, initial: nat, t: Tid, a: Action)
    requires Inv(s, initial) && Conserved(s, initial) && initial <= s.max && Enabled(s, t, a)
    requires a == DoInvoke(Release) ==> Owned(s.history, t) > 0
    ensures Conserved(Step(s, t, a), initial)
  {
    if Releasing(s.threads[t]) {
      BelowMax(s, initial, t);
    }
    assert ThreadInv(s, t);
    StepBalances(s, Step(s, t, a), t, a);
    forall u | 0 <= u < |s.threads|
      ensures Covered(Step(s, t, a), u)
    {
      assert Covered(s, u);
      if u == t {
        StepCoversActor(s, Step(s, t, a), t, a);
      } else {
        StepCoversOther(s, t, a, u);
      }
    }
  }

  lemma {:induction false} NothingOwned(n: nat)
    ensures TotalOwned([], n) == 0
  {
    if n > 0 {
      NothingOwned(n - 1);
    }
  }

  /** With disciplined clients, permits plus permits owned equal the initial count in every state. */
  lemma {:induction false} RunConserves(ss: seq<State>, moves: seq<Move>, initial: nat, i: nat)
    requires IsRun(ss, moves) && Init(ss[0], initial) && Disciplined(ss, moves) && i < |ss| && initial <= ss[0].max
    ensures Conserved(ss[i], initial) && initial <= ss[i].max
    decreases i
  {
    if i == 0 {
      NothingOwned(|ss[0].threads|);
    } else {
      RunConserves(ss, moves, initial, i - 1);
      RunKeepsInv(ss, moves, initial, i - 1);
      StepConserves(ss[i - 1], initial, moves[i - 1].tid, moves[i - 1].action);
      assert ss[i - 1 + 1] == Step(ss[i - 1], moves[i - 1].tid, moves[i - 1].action);
    }
  }

  /** A disciplined run from the initial state to `last`. */
  ghost predicate Reaches(ss: seq<State>, moves: seq<Move>, initial: nat, last: State) {
    && IsRun(ss, moves) && Init(ss[0], initial) && Disciplined(ss, moves)
    && ss[0].max == last.max && ss[|moves|] == last
  }

  lemma {:induction false} RunGrows(ss: seq<State>, moves: seq<Move>, m: Move, s: State)
    requires IsRun(ss, moves) && Enabled(ss[|moves|], m.tid, m.action) && s == Step(ss[|moves|], m.tid, m.action)
    ensures IsRun(ss + [s], moves + [m])
  {
  }

  lemma {:induction false} DisciplineGrows(ss: seq<State>, moves: seq<Move>, m: Move, s: State)
    requires IsRun(ss, moves) && IsRun(ss + [s], moves + [m]) && Disciplined(ss, moves)
    requires m.action == DoInvoke(Release) ==> Owned(ss[|moves|].history, m.tid) > 0
    ensures Disciplined(ss + [s], moves + [m])
  {
  }

  lemma {:induction false} ReachesOn(ss: seq<State>, moves: seq<Move>, initial: nat, last: State, a: Action)
    returns (ss': seq<State>, moves': seq<Move>)
    requires Reaches(ss, moves, initial, last) && Enabled(last, 0, a)
    requires a == DoInvoke(Release) ==> Owned(last.history, 0) > 0
    ensures Reaches(ss', moves', initial, Step(last, 0, a))
  {
    var s := Step(last, 0, a);
    RunGrows(ss, moves, Move(0, a), s);
    DisciplineGrows(ss, moves, Move(0, a), s);
    ss', moves' := ss + [s], moves + [Move(0, a)];
  }

  /** A thread alone takes a permit. */
  lemma {:induction false} AcquireRun(initial: nat, max: nat)
    returns (ss: seq<State>, moves: seq<Move>, last: State)
    requires 0 < initial <= USIZE_MAX && max <= USIZE_MAX
    ensures Reaches(ss, moves, initial, last)
    ensures last.permits == initial - 1 && last.max == max && last.threads == [Idle] && Owned(last.history, 0) == 1
  {
    var s0 := State(initial, max, [], [Idle], []);
    var s1 := Step(s0, 0, DoInvoke(TryAcquire));
    var s2 := Step(s1, 0, DoLoad);
    var s3 := Step(s2, 0, DoCas(false));
    last := Step(s3, 0, DoReturn);
    ss, moves := [s0], [];
    ss, moves := ReachesOn(ss, moves, initial, s0, DoInvoke(TryAcquire));
    ss, moves := ReachesOn(ss, moves, initial, s1, DoLoad);
    ss, moves := ReachesOn(ss, moves, initial, s2, DoCas(false));
    ss, moves := ReachesOn(ss, moves, initial, s3, DoReturn);
    OwnedAppends([], Invoke(0, TryAcquire), 0);
    OwnedAppends(s1.history, TakeEffect(0, TryAcquire, true), 0);
    OwnedAppends(s3.history, Return(0, true), 0);
  }

  /** `with_max(initial, max)` with `initial > max`: taking a permit and giving it back leaves only `max`. */
  lemma {:induction false} OverfullLoses(initial: nat, max: nat)
    returns (ss: seq<State>, moves: seq<Move>, last: State)
    requires max < initial <= USIZE_MAX
    ensures Reaches(ss, moves, initial, last)
    ensures last.permits == last.max == max && |last.threads| == 1 && Owned(last.history, 0) == 0
  {
    var s4: State;
    ss, moves, s4 := AcquireRun(initial, max);
    var s5 := Step(s4, 0, DoInvoke(Release));
    ss, moves := ReachesOn(ss, moves, initial, s4, DoInvoke(Release));
    OwnedAppends(s4.history, Invoke(0, Release), 0);
    OwnedAppends(s5.history, TakeEffect(0, Release, true), 0);
    last := Step(s5, 0, DoLoad);
    ss, moves := ReachesOn(ss, moves, initial, s5, DoLoad);
    if initial - 1 != max {
      ss, moves := ReachesOn(ss, moves, initial, last, DoCas(false));
      last := Step(last, 0, DoCas(false));
    }
  }

  /** Permits are conserved in all disciplined runs if and only if the initial count is within the maximum. */
  lemma {:induction false} ConservesIff(initial: nat, max: nat)
    requires initial <= USIZE_MAX && max <= USIZE_MAX
    ensures initial <= max <==>
            forall ss: seq<State>, moves: seq<Move>, i: nat
              | IsRun(ss, moves) && Init(ss[0], initial) && ss[0].max == max && Disciplined(ss, moves) && i < |ss|
              :: Conserved(ss[i], initial)
  {
    if initial <= max {
      forall ss: seq<State>, moves: seq<Move>, i: nat
        | IsRun(ss, moves) && Init(ss[0], initial) && ss[0].max == max && Disciplined(ss, moves) && i < |ss|
        ensures Conserved(ss[i], initial)
      {
        RunConserves(ss, moves, initial, i);
      }
    } else {
      var ss, moves, last := OverfullLoses(initial, max);
      assert ss[|moves|] == last;
      assert TotalOwned(last.history, 1) == TotalOwned(last.history, 0) + Owned(last.history, 0);
      assert !Conserved(last, initial);
    }
  }

  /** With disciplined clients, `release` never finds the counter at its maximum. */
  lemma CapNeverTaken(ss: seq<State>, moves: seq<Move>, initial: nat, i: nat)
    requires IsRun(ss, moves) && Init(ss[0], initial) && Disciplined(ss, moves) && i < |moves| && initial <= ss[0].max
    requires moves[i].action.DoLoad? && ss[i].threads[moves[i].tid] == AtLoad(Release)
    ensures ss[i + 1].threads[moves[i].tid] == AtCas(Release, ss[i].permits)
  {
    RunConserves(ss, moves, initial, i);
    BelowMax(ss[i], initial, moves[i].tid);
  }
}
