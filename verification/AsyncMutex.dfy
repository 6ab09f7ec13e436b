/**
 The async mutex at the granularity of single atomic accesses. Any number of agents (calls of
 `try_lock`, lock futures and the guards they return) are interleaved at every compare-exchange,
 store and queue operation; a weak compare-exchange may fail spuriously. A guard holder reads the
 protected data and writes it back in two separate steps.
 */
module AsyncMutex {
  import opened Common

  const MAX_WAITERS: nat := 100

  type Agent = nat

  datatype Pc =
    | Idle
    | AtTryLock
    | AtFirstCas(registered: bool)
    | AtRegister
    | AtSecondCas
    | Waiting
    | Holding(read: Option<int>)
    | AtWake

  datatype State = State(locked: bool, waiters: seq<Agent>, data: int, writes: nat, agents: seq<Pc>)

  datatype Action =
    | CallTryLock
    | CallLock
    | PollAgain
    | DropFuture
    | Cas(spurious: bool)
    | Register
    | ReadData
    | WriteData
    | StoreUnlocked
    | WakeNext

  predicate Enabled(s: State, t: Agent, a: Action) {
    && t < |s.agents|
    && var pc := s.agents[t];
       match a
       case CallTryLock => pc.Idle?
       case CallLock => pc.Idle?
       case PollAgain => pc.Waiting?
       case DropFuture => pc.Waiting?
       case Cas(spurious) => (pc.AtTryLock? && !spurious) || pc.AtFirstCas? || pc.AtSecondCas?
       case Register => pc.AtRegister?
       case ReadData => pc.Holding?
       case WriteData => pc.Holding? && pc.read.Some?
       case StoreUnlocked => pc.Holding?
       case WakeNext => pc.AtWake?
  }

  function Goto(s: State, t: Agent, pc: Pc): State
    requires t < |s.agents|
  {
    s.(agents := s.agents[t := pc])
  }

  /** Where a failed compare-exchange leads. */
  function AfterFailedCas(pc: Pc): Pc {
    match pc
    case AtFirstCas(registered) => if registered then AtSecondCas else AtRegister
    case AtSecondCas => Waiting
    case _ => Idle
  }

  function Step(s: State, t: Agent, a: Action): State
    requires Enabled(s, t, a)
  {
    match a
    case CallTryLock => Goto(s, t, AtTryLock)
    case CallLock => Goto(s, t, AtFirstCas(false))
    case PollAgain => Goto(s, t, AtFirstCas(true))
    case DropFuture => Goto(s, t, Idle)
    case Cas(spurious) =>
      if spurious || s.locked then Goto(s, t, AfterFailedCas(s.agents[t]))
      else Goto(s.(locked := true), t, Holding(None))
    case Register =>
      Goto(if |s.waiters| < MAX_WAITERS then s.(waiters := s.waiters + [t]) else s, t, AtSecondCas)
    case ReadData => Goto(s, t, Holding(Some(s.data)))
    case WriteData =>
      Goto(s.(data := s.agents[t].read.value + 1, writes := s.writes + 1), t, Holding(None))
    case StoreUnlocked => Goto(s.(locked := false), t, AtWake)
    case WakeNext => Goto(s.(waiters := if s.waiters == [] then [] else s.waiters[1..]), t, Idle)
  }

  predicate Init(s: State) {
    && !s.locked && s.waiters == [] && s.data == 0 && s.writes == 0
    && forall t | 0 <= t < |s.agents| :: s.agents[t] == Idle
  }

  datatype Move = Move(agent: Agent, action: Action)

  ghost predicate IsRun(ss: seq<State>, moves: seq<Move>) {
    && |ss| == |moves| + 1
    && (forall i | 0 <= i < |moves| ::
          Enabled(ss[i], moves[i].agent, moves[i].action)
          && ss[i + 1] == Step(ss[i], moves[i].agent, moves[i].action))
  }

  /** An agent has a live guard. */
  predicate Holds(s: State, t: Agent) {
    t < |s.agents| && s.agents[t].Holding?
  }

  /** The lock flag is set exactly while some guard is live, and no two guards are. */
  ghost predicate Exclusive(s: State) {
    && (s.locked <==> exists t: Agent :: Holds(s, t))
    && (forall t: Agent, u: Agent :: Holds(s, t) && Holds(s, u) ==> t == u)
  }

  /** What a holder has read is still the current value, and no increment was lost. */
  ghost predicate NothingLost(s: State) {
    && s.data == s.writes
    && (forall t: Agent :: Holds(s, t) && s.agents[t].read.Some? ==> s.agents[t].read.value == s.data)
  }

  lemma StepKeepsExclusive(s: State, t: Agent, a: Action)
    requires Exclusive(s) && Enabled(s, t, a)
    ensures Exclusive(Step(s, t, a))
  {
    var s' := Step(s, t, a);
    assert forall u: Agent | u != t :: Holds(s', u) == Holds(s, u);
    if Holds(s', t) {
      if Holds(s, t) {
        assert s.locked;
      } else {
        assert a.Cas? && !s.locked;
      }
      assert s'.locked;
    } else if s'.locked {
      var u: Agent :| Holds(s, u);
      assert Holds(s', u);
    } else if s.locked {
      assert a.StoreUnlocked? && Holds(s, t);
    }
  }

  lemma StepLosesNothing(s: State, t: Agent, a: Action)
    requires Exclusive(s) && NothingLost(s) && Enabled(s, t, a)
    ensures NothingLost(Step(s, t, a))
  {
    var s' := Step(s, t, a);
    if a.WriteData? {
      assert Holds(s, t);
    }
    forall u: Agent | Holds(s', u) && s'.agents[u].read.Some?
      ensures s'.agents[u].read.value == s'.data
    {
      if u != t {
        assert Holds(s, u);
      }
    }
  }

  /**
   In every interleaving at most one guard is live, the flag is set exactly while one is, and
   read-modify-write sections under the guard lose no update.
   */
  lemma {:induction false} MutualExclusion(ss: seq<State>, moves: seq<Move>, i: nat)
    requires IsRun(ss, moves) && Init(ss[0]) && i < |ss|
    ensures Exclusive(ss[i]) && NothingLost(ss[i])
    decreases i
  {
    if i > 0 {
      MutualExclusion(ss, moves, i - 1);
      StepKeepsExclusive(ss[i - 1], moves[i - 1].agent, moves[i - 1].action);
      StepLosesNothing(ss[i - 1], moves[i - 1].agent, moves[i - 1].action);
      assert ss[i - 1 + 1] == Step(ss[i - 1], moves[i - 1].agent, moves[i - 1].action);
    }
  }
}
