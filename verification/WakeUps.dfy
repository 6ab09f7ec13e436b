/**
 Lost wakeups of the async mutex under every interleaving of single accesses. `AsyncMutex` says what the
 accesses do; here it is recorded, beside them, whose waker has fired since its last poll began.
 */
module WakeUps {
  import opened Common
  import opened AsyncMutex

  datatype World = World(m: State, woken: set<Agent>)

  /** Firing a waker marks its task, also in the middle of a poll; the start of a poll clears the mark. */
  function Next(w: World, t: Agent, a: Action): World
    requires Enabled(w.m, t, a)
  {
    World(Step(w.m, t, a),
          match a
          case WakeNext => if w.m.waiters == [] then w.woken else w.woken + {w.m.waiters[0]}
          case CallLock => w.woken - {t}
          case PollAgain => w.woken - {t}
          case DropFuture => w.woken - {t}
          case _ => w.woken)
  }

  ghost predicate IsTrace(ws: seq<World>, moves: seq<Move>) {
    && |ws| == |moves| + 1
    && (forall i | 0 <= i < |moves| ::
          Enabled(ws[i].m, moves[i].agent, moves[i].action) && ws[i + 1] == Next(ws[i], moves[i].agent, moves[i].action))
  }

  predicate Starts(w: World) {
    Init(w.m) && w.woken == {}
  }

  // ---- The two promises ----

  /** A pending future whose waker has not fired. */
  predicate Asleep(w: World, t: Agent) {
    t < |w.m.agents| && w.m.agents[t].Waiting? && t !in w.woken
  }

  /** Nobody is forgotten: the waker of every sleeping future is in the queue. */
  ghost predicate Placed(w: World) {
    forall t: Agent | Asleep(w, t) :: t in w.m.waiters
  }

  /** An agent that goes on by itself: in the middle of a call, holding the guard, or woken. */
  predicate Attentive(w: World, t: Agent) {
    t < |w.m.agents| && !w.m.agents[t].Idle? && !Asleep(w, t)
  }

  /** No free lock beside sleepers only: while one future sleeps, the lock is taken or somebody is attentive. */
  ghost predicate Awake(w: World) {
    w.m.locked || (exists u: Agent :: Attentive(w, u)) || (forall t: Agent :: !Asleep(w, t))
  }

  // ---- Exactly when they are broken ----

  /** A poll gives up although its waker is not in the queue any more, or never got in. */
  predicate Strands(w: World, t: Agent, a: Action) {
    && t < |w.m.agents| && a.Cas? && w.m.agents[t].AtSecondCas?
    && (w.m.locked || a.spurious)
    && t !in w.m.waiters && t !in w.woken
  }

  /** The waker that a release is going to pop belongs to a pending future. */
  predicate WakesSomebody(w: World) {
    w.m.waiters != [] && w.m.waiters[0] < |w.m.agents| && w.m.agents[w.m.waiters[0]].Waiting?
  }

  /**
   The last attentive agent beside a free lock stops: a release finds no waker of a pending future, a
   poll gives up after a spurious failure, or a woken future is dropped.
   */
  ghost predicate Stalls(w: World, t: Agent, a: Action) {
    && t < |w.m.agents| && !w.m.locked
    && (forall u: Agent | u != t :: !Attentive(w, u))
    && match a
       case WakeNext => !WakesSomebody(w) && exists v: Agent :: Asleep(w, v)
       case Cas(spurious) => w.m.agents[t].AtSecondCas? && spurious && t !in w.woken
       case DropFuture => exists v: Agent :: v != t && Asleep(w, v)
       case _ => false
  }

  lemma {:induction false} StepStrandsIff(w: World, t: Agent, a: Action)
    requires Placed(w) && Enabled(w.m, t, a)
    ensures Placed(Next(w, t, a)) <==> !Strands(w, t, a)
  {
    var w' := Next(w, t, a);
    if Strands(w, t, a) {
      assert Asleep(w', t);
    } else {
      forall u: Agent | Asleep(w', u)
        ensures u in w'.m.waiters
      {
        if u != t {
          assert Asleep(w, u);
        }
      }
    }
  }

  /** What a step does to the attention of the others: only a waker that fires changes it. */
  lemma {:induction false} OthersKeep(w: World, t: Agent, a: Action, u: Agent)
    requires Enabled(w.m, t, a) && u != t
    ensures Attentive(w, u) ==> Attentive(Next(w, t, a), u)
    ensures Asleep(Next(w, t, a), u) ==> Asleep(w, u)
    ensures !a.WakeNext? ==> (Attentive(Next(w, t, a), u) ==> Attentive(w, u)) && (Asleep(w, u) ==> Asleep(Next(w, t, a), u))
  {
  }

  /** A step that stalls leaves a free lock, a sleeper and nobody attentive. */
  lemma {:induction false} StallingStep(w: World, t: Agent, a: Action)
    requires Enabled(w.m, t, a) && Stalls(w, t, a)
    ensures !Awake(Next(w, t, a))
  {
    var w' := Next(w, t, a);
    assert !w'.m.locked && !Attentive(w', t);
    forall u: Agent
      ensures !Attentive(w', u)
    {
      if u != t {
        OthersKeep(w, t, a, u);
        assert !Attentive(w, u);
      }
    }
    if a.Cas? {
      assert Asleep(w', t);
    } else {
      var v: Agent :| Asleep(w, v) && v != t;
      assert Asleep(w', v);
    }
  }

  lemma {:induction false} QuietStep(w: World, t: Agent, a: Action)
    requires Awake(w) && Enabled(w.m, t, a) && !Stalls(w, t, a)
    ensures Awake(Next(w, t, a))
  {
    var w' := Next(w, t, a);
    if !w'.m.locked && !Attentive(w', t) {
      if u: Agent :| u != t && Attentive(w, u) {
        OthersKeep(w, t, a, u);
        assert Attentive(w', u);
      } else {
        AloneStep(w, t, a);
      }
    }
  }

  /** The same when the agent that moves is the only attentive one and stops being attentive. */
  lemma {:induction false} AloneStep(w: World, t: Agent, a: Action)
    requires Awake(w) && Enabled(w.m, t, a) && !Stalls(w, t, a)
    requires !Next(w, t, a).m.locked && !Attentive(Next(w, t, a), t)
    requires forall u: Agent | u != t :: !Attentive(w, u)
    ensures Awake(Next(w, t, a))
  {
    var w' := Next(w, t, a);
    assert a.WakeNext? || a.Cas? || a.DropFuture?;
    assert !w.m.locked;
    if a.WakeNext? && WakesSomebody(w) {
      assert Attentive(w', w.m.waiters[0]);
    } else {
      forall v: Agent
        ensures !Asleep(w', v)
      {
        if v != t {
          OthersKeep(w, t, a, v);
        }
      }
    }
  }

  /** A step from a state that keeps the second promise breaks it if and only if it is a stalling step. */
  lemma {:induction false} StepStallsIff(w: World, t: Agent, a: Action)
    requires Awake(w) && Enabled(w.m, t, a)
    ensures Awake(Next(w, t, a)) <==> !Stalls(w, t, a)
  {
    if Stalls(w, t, a) {
      StallingStep(w, t, a);
    } else {
      QuietStep(w, t, a);
    }
  }

  ghost predicate NoLoss(w: World, m: Move) {
    !Strands(w, m.agent, m.action) && !Stalls(w, m.agent, m.action)
  }

  lemma {:induction false} KeptUnlessLost(ws: seq<World>, moves: seq<Move>, i: nat)
    requires IsTrace(ws, moves) && Starts(ws[0]) && i < |ws|
    requires forall j | 0 <= j < |moves| :: NoLoss(ws[j], moves[j])
    ensures Placed(ws[i]) && Awake(ws[i])
    decreases i
  {
    if i > 0 {
      KeptUnlessLost(ws, moves, i - 1);
      assert NoLoss(ws[i - 1], moves[i - 1]);
      StepStrandsIff(ws[i - 1], moves[i - 1].agent, moves[i - 1].action);
      StepStallsIff(ws[i - 1], moves[i - 1].agent, moves[i - 1].action);
      assert ws[i - 1 + 1] == Next(ws[i - 1], moves[i - 1].agent, moves[i - 1].action);
    }
  }

  /** In every interleaving: no wakeup is lost in any state if and only if no step strands or stalls. */
  lemma {:induction false} InterleavedLosesIff(ws: seq<World>, moves: seq<Move>)
    requires IsTrace(ws, moves) && Starts(ws[0])
    ensures (forall i | 0 <= i < |ws| :: Placed(ws[i]) && Awake(ws[i])) <==>
            (forall i | 0 <= i < |moves| :: NoLoss(ws[i], moves[i]))
  {
    if forall i | 0 <= i < |moves| :: NoLoss(ws[i], moves[i]) {
      forall i | 0 <= i < |ws|
        ensures Placed(ws[i]) && Awake(ws[i])
      {
        KeptUnlessLost(ws, moves, i);
      }
    } else {
      var i :| 0 <= i < |moves| && !NoLoss(ws[i], moves[i]);
      if Placed(ws[i]) && Awake(ws[i]) {
        StepStrandsIff(ws[i], moves[i].agent, moves[i].action);
        StepStallsIff(ws[i], moves[i].agent, moves[i].action);
        assert ws[i + 1] == Next(ws[i], moves[i].agent, moves[i].action);
        assert !Placed(ws[i + 1]) || !Awake(ws[i + 1]);
      }
    }
  }

  // ---- Interleavings that lose a wakeup ----

  /** A run from the beginning to `last`. */
  ghost predicate Reaches(ws: seq<World>, moves: seq<Move>, last: World) {
    IsTrace(ws, moves) && Starts(ws[0]) && ws[|moves|] == last
  }

  lemma {:induction false} On(ws: seq<World>, moves: seq<Move>, last: World, t: Agent, a: Action, next: World)
    returns (ws': seq<World>)
    requires Reaches(ws, moves, last) && Enabled(last.m, t, a) && next == Next(last, t, a)
    ensures Reaches(ws', moves + [Move(t, a)], next)
  {
    ws' := ws + [next];
  }

  /** Only the agents, the lock and the queue matter here; nobody touches the data. */
  function At(locked: bool, waiters: seq<Agent>, agents: seq<Pc>, woken: set<Agent>): World {
    World(State(locked, waiters, 0, 0, agents), woken)
  }

  /**
   One agent alone: both compare-exchanges of its first poll fail spuriously, and it goes to sleep
   beside a free lock.
   */
  lemma {:induction false} SpuriousStalls() returns (ws: seq<World>)
    ensures Reaches(ws, [Move(0, CallLock), Move(0, Cas(true)), Move(0, Register), Move(0, Cas(true))],
                    At(false, [0], [Waiting], {}))
    ensures !Awake(At(false, [0], [Waiting], {}))
  {
    var w0 := At(false, [], [Idle], {});
    var w1 := At(false, [], [AtFirstCas(false)], {});
    var w2 := At(false, [], [AtRegister], {});
    var w3 := At(false, [0], [AtSecondCas], {});
    var w4 := At(false, [0], [Waiting], {});
    ws := [w0];
    ws := On(ws, [], w0, 0, CallLock, w1);
    ws := On(ws, [Move(0, CallLock)], w1, 0, Cas(true), w2);
    ws := On(ws, [Move(0, CallLock)] + [Move(0, Cas(true))], w2, 0, Register, w3);
    ws := On(ws, [Move(0, CallLock)] + [Move(0, Cas(true))] + [Move(0, Register)], w3, 0, Cas(true), w4);
    assert Asleep(w4, 0);
  }

  /** Agent 0 takes the lock; agent 1 sees it taken, and before it has queued up 0 is done and wakes nobody. */
  function RaceFirst(): seq<Move> {
    [Move(0, CallLock), Move(0, Cas(false)), Move(1, CallLock), Move(1, Cas(false)), Move(0, StoreUnlocked),
     Move(0, WakeNext)]
  }

  /** Agent 1 queues up and its second attempt succeeds, with its waker left in the queue; agent 2 queues up behind. */
  function RaceSecond(): seq<Move> {
    [Move(1, Register), Move(1, Cas(false)), Move(2, CallLock), Move(2, Cas(false)), Move(2, Register), Move(2, Cas(false))]
  }

  lemma {:induction false} RaceBegins() returns (ws: seq<World>)
    ensures Reaches(ws, RaceFirst(), At(false, [], [Idle, AtRegister, Idle], {}))
  {
    var w0 := At(false, [], [Idle, Idle, Idle], {});
    var w1 := At(false, [], [AtFirstCas(false), Idle, Idle], {});
    var w2 := At(true, [], [Holding(None), Idle, Idle], {});
    var w3 := At(true, [], [Holding(None), AtFirstCas(false), Idle], {});
    var w4 := At(true, [], [Holding(None), AtRegister, Idle], {});
    var w5 := At(false, [], [AtWake, AtRegister, Idle], {});
    var w6 := At(false, [], [Idle, AtRegister, Idle], {});
    var ms := RaceFirst();
    ws := [w0];
    ws := On(ws, [], w0, 0, CallLock, w1);
    assert ms[..1] == [] + [Move(0, CallLock)];
    ws := On(ws, ms[..1], w1, 0, Cas(false), w2);
    assert ms[..2] == ms[..1] + [Move(0, Cas(false))];
    ws := On(ws, ms[..2], w2, 1, CallLock, w3);
    assert ms[..3] == ms[..2] + [Move(1, CallLock)];
    ws := On(ws, ms[..3], w3, 1, Cas(false), w4);
    assert ms[..4] == ms[..3] + [Move(1, Cas(false))];
    ws := On(ws, ms[..4], w4, 0, StoreUnlocked, w5);
    assert ms[..5] == ms[..4] + [Move(0, StoreUnlocked)];
    ws := On(ws, ms[..5], w5, 0, WakeNext, w6);
    assert ms == ms[..5] + [Move(0, WakeNext)];
  }

  lemma {:induction false} RaceGoesOn(ws0: seq<World>, before: seq<Move>) returns (ws: seq<World>)
    requires Reaches(ws0, before, At(false, [], [Idle, AtRegister, Idle], {}))
    ensures Reaches(ws, before + RaceSecond(), At(true, [1, 2], [Idle, Holding(None), Waiting], {}))
  {
    var w6 := At(false, [], [Idle, AtRegister, Idle], {});
    var w7 := At(false, [1], [Idle, AtSecondCas, Idle], {});
    var w8 := At(true, [1], [Idle, Holding(None), Idle], {});
    var w9 := At(true, [1], [Idle, Holding(None), AtFirstCas(false)], {});
    var w10 := At(true, [1], [Idle, Holding(None), AtRegister], {});
    var w11 := At(true, [1, 2], [Idle, Holding(None), AtSecondCas], {});
    var w12 := At(true, [1, 2], [Idle, Holding(None), Waiting], {});
    var ms := RaceSecond();
    ws := On(ws0, before, w6, 1, Register, w7);
    assert before + ms[..1] == before + [Move(1, Register)];
    ws := On(ws, before + ms[..1], w7, 1, Cas(false), w8);
    assert before + ms[..2] == before + ms[..1] + [Move(1, Cas(false))];
    ws := On(ws, before + ms[..2], w8, 2, CallLock, w9);
    assert before + ms[..3] == before + ms[..2] + [Move(2, CallLock)];
    ws := On(ws, before + ms[..3], w9, 2, Cas(false), w10);
    assert before + ms[..4] == before + ms[..3] + [Move(2, Cas(false))];
    ws := On(ws, before + ms[..4], w10, 2, Register, w11);
    assert before + ms[..5] == before + ms[..4] + [Move(2, Register)];
    ws := On(ws, before + ms[..5], w11, 2, Cas(false), w12);
    assert before + ms == before + ms[..5] + [Move(2, Cas(false))];
  }

  /**
   Without any spurious failure or dropped future: the second attempt of agent 1 succeeds in a race
   with a release, its waker stays in the queue, and its own release pops that waker instead of agent 2's.
   */
  lemma {:induction false} RaceStalls() returns (ws: seq<World>)
    ensures Reaches(ws, RaceFirst() + RaceSecond() + [Move(1, StoreUnlocked)] + [Move(1, WakeNext)],
                    At(false, [2], [Idle, Idle, Waiting], {1}))
    ensures !Awake(At(false, [2], [Idle, Idle, Waiting], {1}))
  {
    var moves := RaceFirst() + RaceSecond();
    var w12 := At(true, [1, 2], [Idle, Holding(None), Waiting], {});
    var w13 := At(false, [1, 2], [Idle, AtWake, Waiting], {});
    var w14 := At(false, [2], [Idle, Idle, Waiting], {1});
    ws := RaceBegins();
    ws := RaceGoesOn(ws, RaceFirst());
    ws := On(ws, moves, w12, 1, StoreUnlocked, w13);
    ws := On(ws, moves + [Move(1, StoreUnlocked)], w13, 1, WakeNext, w14);
    assert Asleep(w14, 2);
  }
}
