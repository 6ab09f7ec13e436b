/** Fairness of one priority level whose tasks wake only through `yield_now`. */
module RoundRobin {
  import opened Common
  import opened Executor

  /**
   The queue of one level and, for each of its tasks, how many more times it yields before it
   finishes; `None` is a task that yields forever.
   */
  datatype Ring = Ring(queue: seq<TaskId>, left: map<TaskId, Option<nat>>)

  predicate Distinct(ids: seq<TaskId>) {
    forall i, j | 0 <= i < j < |ids| :: ids[i] != ids[j]
  }

  ghost predicate Wf(r: Ring) {
    Distinct(r.queue) && |r.queue| <= QUEUE_CAPACITY && forall id | id in r.queue :: id in r.left
  }

  predicate Finishes(r: Ring, id: TaskId) {
    id in r.left && r.left[id] == Some(0)
  }

  /** `let _ = task_queue.push(id)`: a full queue drops the wake. */
  function Requeue(queue: seq<TaskId>, id: TaskId): seq<TaskId> {
    if |queue| < QUEUE_CAPACITY then queue + [id] else queue
  }

  function OneLess(left: Option<nat>): Option<nat> {
    match left
    case None => None
    case Some(n) => Some(if n == 0 then 0 else n - 1)
  }

  /** One turn: the first task is polled, and either finishes or wakes itself. */
  function Turn(r: Ring): Ring
    requires r.queue != [] && r.queue[0] in r.left
  {
    var id := r.queue[0];
    if Finishes(r, id) then Ring(r.queue[1..], r.left - {id})
    else Ring(Requeue(r.queue[1..], id), r.left[id := OneLess(r.left[id])])
  }

  /** No self-wake is dropped: a task that yields goes to the end of the queue. */
  lemma TurnRotates(r: Ring)
    requires Wf(r) && r.queue != []
    ensures r.queue[0] in r.queue
    ensures Wf(Turn(r)) && Turn(r).queue == r.queue[1..] + if Finishes(r, r.queue[0]) then [] else [r.queue[0]]
    ensures forall id | id in r.queue[1..] :: id in Turn(r).left && Turn(r).left[id] == r.left[id]
  {
    var id, rest := r.queue[0], r.queue[1..];
    assert r.queue == [id] + rest;
    assert id !in rest;
    assert forall other | other in rest :: other in r.queue;
  }

  /** Successive states of the level. */
  ghost predicate Turns(rs: seq<Ring>) {
    && (forall i | 0 <= i < |rs| :: Wf(rs[i]))
    && (forall i | 0 <= i < |rs| - 1 ::
          rs[i].queue != [] && rs[i].queue[0] in rs[i].left && rs[i + 1] == Turn(rs[i]))
  }

  // ---- Fairness ----

  /** After `m` turns the rest of the queue has moved up, and a first task that yielded is behind it. */
  lemma {:induction false} MovesUp(rs: seq<Ring>, i: nat, m: nat)
    requires Turns(rs) && i + m < |rs| && m <= |rs[i].queue|
    ensures rs[i].queue[m..] <= rs[i + m].queue
    ensures m > 0 && !Finishes(rs[i], rs[i].queue[0]) ==>
              rs[i].queue[m..] + [rs[i].queue[0]] <= rs[i + m].queue
    decreases m
  {
    if m > 0 {
      MovesUp(rs, i, m - 1);
      TurnRotates(rs[i + m - 1]);
      assert rs[i + m - 1 + 1] == Turn(rs[i + m - 1]);
    }
  }

  /** A task that is not in the queue does not come back. */
  lemma {:induction false} GoneForGood(rs: seq<Ring>, x: TaskId, i: nat, j: nat)
    requires Turns(rs) && i <= j < |rs| && x !in rs[i].queue
    ensures x !in rs[j].queue
    decreases j
  {
    if i < j {
      GoneForGood(rs, x, i, j - 1);
      TurnRotates(rs[j - 1]);
      assert rs[j - 1 + 1] == Turn(rs[j - 1]);
    }
  }

  lemma FinishedLeaves(rs: seq<Ring>, i: nat, j: nat)
    requires Turns(rs) && i < j < |rs| && Finishes(rs[i], rs[i].queue[0])
    ensures rs[i].queue[0] !in rs[j].queue
  {
    TurnRotates(rs[i]);
    assert rs[i].queue[0] !in rs[i].queue[1..];
    assert rs[i + 1] == Turn(rs[i]);
    GoneForGood(rs, rs[i].queue[0], i + 1, j);
  }

  /**
   Between two consecutive polls of a task, at turns `i` and `j`, every other task that is there at
   turn `i` is polled exactly once, in queue order, and nobody else is polled.
   */
  lemma FairBetweenPolls(rs: seq<Ring>, i: nat, j: nat)
    requires Turns(rs) && i < j < |rs| && rs[j].queue != [] && rs[j].queue[0] == rs[i].queue[0]
    requires forall m | i < m < j :: rs[m].queue[0] != rs[i].queue[0]
    ensures Distinct(rs[i].queue) && j - i == |rs[i].queue|
    ensures forall m | i < m < j :: rs[m].queue[0] == rs[i].queue[m - i]
  {
    var n := |rs[i].queue|;
    assert rs[j].queue[0] in rs[j].queue;
    if Finishes(rs[i], rs[i].queue[0]) {
      FinishedLeaves(rs, i, j);
      assert false;
    }
    forall m | i < m <= j && m - i < n
      ensures rs[m].queue != [] && rs[m].queue[0] == rs[i].queue[m - i] != rs[i].queue[0]
    {
      MovesUp(rs, i, m - i);
      assert rs[i].queue[m - i..][0] == rs[i].queue[m - i];
    }
    if j - i >= n {
      MovesUp(rs, i, n);
      assert rs[i].queue[n..] + [rs[i].queue[0]] == [rs[i].queue[0]];
    }
  }

  // ---- Draining a level ----

  /** Polls still to come: each task is polled once per yield and once to finish. */
  function PollsLeft(left: map<TaskId, Option<nat>>, ids: seq<TaskId>): nat {
    if ids == [] then 0
    else (if ids[0] in left && left[ids[0]].Some? then left[ids[0]].value + 1 else 0) + PollsLeft(left, ids[1..])
  }

  ghost predicate AllFinish(r: Ring) {
    forall id | id in r.queue :: id in r.left && r.left[id].Some?
  }

  lemma {:induction false} PollsLeftSplits(left: map<TaskId, Option<nat>>, left': map<TaskId, Option<nat>>,
                                           ids: seq<TaskId>, last: seq<TaskId>)
    requires forall id | id in ids :: id in left && id in left' && left[id] == left'[id]
    ensures PollsLeft(left', ids + last) == PollsLeft(left, ids) + PollsLeft(left', last)
    decreases |ids|
  {
    if ids == [] {
      assert ids + last == last;
    } else {
      assert ids[0] in ids && (ids + last)[1..] == ids[1..] + last;
      PollsLeftSplits(left, left', ids[1..], last);
    }
  }

  lemma TurnCountsDown(r: Ring)
    requires Wf(r) && AllFinish(r) && r.queue != []
    ensures r.queue[0] in r.left && AllFinish(Turn(r))
    ensures PollsLeft(Turn(r).left, Turn(r).queue) + 1 == PollsLeft(r.left, r.queue)
  {
    TurnRotates(r);
    var r', id, rest := Turn(r), r.queue[0], r.queue[1..];
    var last := if Finishes(r, id) then [] else [id];
    assert forall other | other in rest :: other in r.queue;
    PollsLeftSplits(r.left, r'.left, rest, last);
    if !Finishes(r, id) {
      assert PollsLeft(r'.left, [id]) == r.left[id].value + PollsLeft(r'.left, []);
    }
  }

  /**
   A level whose tasks finish after n_i yields drains in exactly the sum of (n_i + 1) polls: it is
   not empty before, and it is empty then.
   */
  lemma {:induction false} DrainsExactly(rs: seq<Ring>, i: nat)
    requires Turns(rs) && i < |rs| && AllFinish(rs[0])
    ensures AllFinish(rs[i]) && i + PollsLeft(rs[i].left, rs[i].queue) == PollsLeft(rs[0].left, rs[0].queue)
    ensures rs[i].queue == [] <==> i == PollsLeft(rs[0].left, rs[0].queue)
    decreases i
  {
    if i > 0 {
      DrainsExactly(rs, i - 1);
      TurnCountsDown(rs[i - 1]);
      assert rs[i - 1 + 1] == Turn(rs[i - 1]);
    }
    if rs[i].queue != [] {
      assert rs[i].queue[0] in rs[i].queue;
    }
  }

  // ---- The executor takes these turns ----

  /** The poll of the first task of the level: it yields, or it finishes. */
  function TurnAction(s: State, r: Ring): Action
    requires r.queue != []
  {
    if Finishes(r, r.queue[0]) then Iterate([], true) else Iterate([WakerFor(s, r.queue[0])], false)
  }

  ghost predicate Scanned(s: State, r: Ring) {
    && |s.queues| == LEVELS
    && Wf(r) && s.queues[s.scan] == r.queue && forall id | id in r.queue :: id in s.tasks
  }

  /** The level being scanned consists of the tasks of the ring. */
  ghost predicate At(s: State, r: Ring) {
    Inv(s) && Scanned(s, r)
  }

  lemma TurnIsEnabled(s: State, r: Ring)
    requires At(s, r) && r.queue != []
    ensures Enabled(s, TurnAction(s, r)) && Inv(Step(s, TurnAction(s, r)))
    ensures r.queue[0] in s.tasks && WakerFor(s, r.queue[0]) == Waker(r.queue[0], s.scan)
  {
    var id := r.queue[0];
    assert id in r.queue && id in s.queues[s.scan] && s.tasks[id] == s.scan;
    StepKeepsInv(s, TurnAction(s, r));
  }

  lemma {:induction false} FireOne(queues: seq<seq<TaskId>>, w: Waker)
    requires |queues| == LEVELS
    ensures FireAll(queues, []) == queues && FireAll(queues, [w]) == Push(queues, w.queue, w.id)
  {
    assert [w][1..] == [];
  }

  /** A turn of the executor is a turn of the ring: same poll, same queue, other levels untouched. */
  lemma ExecutorTurns(s: State, r: Ring)
    requires At(s, r) && r.queue != []
    ensures var s' := Step(s, TurnAction(s, r));
            && r.queue[0] in r.left
            && At(s', Turn(r))
            && s'.scan == s.scan
            && s'.polls == s.polls + [Poll(r.queue[0], s.scan, Finishes(r, r.queue[0]))]
            && (forall q: Level | q != s.scan :: s'.queues[q] == s.queues[q])
  {
    var s', id := Step(s, TurnAction(s, r)), r.queue[0];
    TurnIsEnabled(s, r);
    TurnRotates(r);
    FireOne(s.queues[s.scan := s.queues[s.scan][1..]], WakerFor(s, id));
    forall other | other in Turn(r).queue
      ensures other in s'.tasks
    {
      assert other in r.queue;
      assert Finishes(r, id) ==> other != id;
    }
  }

  // ---- Runs of the executor ----

  /** The level after `k` turns; an empty level stays as it is. */
  function After(r: Ring, k: nat): Ring {
    if k == 0 then r
    else
      var before := After(r, k - 1);
      if before.queue != [] && before.queue[0] in before.left then Turn(before) else before
  }

  /** How many polls there were between two states of a run. */
  function Polls(first: State, s: State): nat {
    if |first.polls| <= |s.polls| then |s.polls| - |first.polls| else 0
  }

  /** The first task of a level that started as `r` is polled, a waker of another level fires, or the scan goes down. */
  ghost predicate LevelAction(first: State, s: State, r: Ring, a: Action) {
    match a
    case Descend => true
    case Fire(w) => w.queue != s.scan
    case Iterate(_, _) =>
      var now := After(r, Polls(first, s));
      now.queue != [] && a == TurnAction(s, now)
    case Spawn(_) => false
  }

  /** A run of `run_ready_tasks` over a level that starts as `r` and may leave it whenever the scan can. */
  ghost predicate YieldRun(ss: seq<State>, actions: seq<Action>, r: Ring) {
    && IsRun(ss, actions) && At(ss[0], r)
    && (forall i | 0 <= i < |actions| :: LevelAction(ss[0], ss[i], r, actions[i]))
  }

  /** The run has not left the level yet. */
  predicate Stays(actions: seq<Action>, i: nat)
    requires i <= |actions|
  {
    Descend !in actions[..i]
  }

  /** Poll number `m` of the run is of the task that was first after `m` turns. */
  ghost predicate PollsFollow(first: State, s: State, r: Ring) {
    && |first.polls| <= |s.polls|
    && forall m | 0 <= m < Polls(first, s) ::
         var now, p := After(r, m), s.polls[|first.polls| + m];
         now.queue != [] && p == Poll(now.queue[0], first.scan, Finishes(now, now.queue[0]))
  }

  /** At state `s` of a run over a level, the level is where the ring is after as many turns as there were polls. */
  ghost predicate Follows(first: State, s: State, r: Ring) {
    && PollsFollow(first, s, r) && s.scan == first.scan
    && Scanned(s, After(r, Polls(first, s)))
  }

  lemma {:induction false} FireFollows(first: State, s: State, r: Ring, w: Waker)
    requires Follows(first, s, r) && Enabled(s, Fire(w)) && w.queue != s.scan
    ensures Follows(first, Step(s, Fire(w)), r)
  {
  }

  lemma {:induction false} AfterOneMore(r: Ring, k: nat, now: Ring)
    requires now == After(r, k) && now.queue != [] && now.queue[0] in now.left
    ensures After(r, k + 1) == Turn(now)
  {
  }

  lemma {:induction false} PollFollows(first: State, s: State, s': State, r: Ring, now: Ring)
    requires Follows(first, s, r) && now == After(r, Polls(first, s)) && now.queue != [] && now.queue[0] in now.left
    requires Scanned(s', Turn(now)) && s'.scan == s.scan
    requires s'.polls == s.polls + [Poll(now.queue[0], s.scan, Finishes(now, now.queue[0]))]
    ensures Follows(first, s', r)
  {
    AfterOneMore(r, Polls(first, s), now);
    assert Polls(first, s') == Polls(first, s) + 1;
    assert s'.polls[..|s.polls|] == s.polls;
  }

  lemma {:induction false} StepFollows(first: State, s: State, r: Ring, a: Action, s': State)
    requires Inv(s) && Follows(first, s, r) && Enabled(s, a) && LevelAction(first, s, r, a) && !a.Descend?
    requires s' == Step(s, a)
    ensures Follows(first, s', r)
  {
    if a.Fire? {
      FireFollows(first, s, r, a.waker);
    } else {
      ExecutorTurns(s, After(r, Polls(first, s)));
      PollFollows(first, s, s', r, After(r, Polls(first, s)));
    }
  }

  lemma {:induction false} StaysBefore(actions: seq<Action>, i: nat)
    requires 0 < i <= |actions| && Stays(actions, i)
    ensures Stays(actions, i - 1) && !actions[i - 1].Descend?
  {
    assert actions[..i] == actions[..i - 1] + [actions[i - 1]];
  }

  /** Until it leaves the level, a run of the executor takes the turns of the ring, one per poll. */
  lemma {:induction false} RunFollows(ss: seq<State>, actions: seq<Action>, r: Ring, i: nat)
    requires YieldRun(ss, actions, r) && i < |ss| && Stays(actions, i)
    ensures Follows(ss[0], ss[i], r)
    decreases i
  {
    if i > 0 {
      StaysBefore(actions, i);
      RunFollows(ss, actions, r, i - 1);
      RunKeepsInv(ss, actions, i - 1);
      assert ss[i - 1 + 1] == Step(ss[i - 1], actions[i - 1]);
      StepFollows(ss[0], ss[i - 1], r, actions[i - 1], ss[i]);
    }
  }

  /** The levels after 0, 1, ..., k turns. */
  function Rings(r: Ring, k: nat): (rs: seq<Ring>)
    ensures |rs| == k + 1 && forall m | 0 <= m <= k :: rs[m] == After(r, m)
  {
    if k == 0 then [r] else Rings(r, k - 1) + [After(r, k)]
  }

  lemma {:induction false} TurnsGrow(rs: seq<Ring>, last: Ring)
    requires Turns(rs) && rs != [] && last == rs[|rs| - 1] && last.queue != []
    ensures last.queue[0] in last.left && Turns(rs + [Turn(last)])
  {
    assert last.queue[0] in last.queue;
    TurnRotates(last);
  }

  lemma {:induction false} RingsTurn(first: State, s: State, r: Ring, k: nat)
    requires Wf(r) && PollsFollow(first, s, r) && k <= Polls(first, s)
    ensures Turns(Rings(r, k))
    decreases k
  {
    if k > 0 {
      RingsTurn(first, s, r, k - 1);
      var now := After(r, k - 1);
      assert Rings(r, k - 1)[k - 1] == now;
      TurnsGrow(Rings(r, k - 1), now);
      AfterOneMore(r, k - 1, now);
      assert Rings(r, k) == Rings(r, k - 1) + [Turn(now)];
    }
  }

  /** The polls of a run since its first state. */
  function NewPolls(first: State, s: State): (polls: seq<Poll>)
    ensures |polls| == Polls(first, s)
  {
    if |first.polls| <= |s.polls| then s.polls[|first.polls|..] else []
  }

  lemma {:induction false} NewPollsFollow(first: State, s: State, r: Ring, rs: seq<Ring>, m: nat)
    requires PollsFollow(first, s, r) && m < Polls(first, s) && m < |rs| && rs[m] == After(r, m)
    ensures rs[m].queue != []
    ensures NewPolls(first, s)[m] == Poll(rs[m].queue[0], first.scan, Finishes(rs[m], rs[m].queue[0]))
  {
    assert NewPolls(first, s)[m] == s.polls[|first.polls| + m];
  }

  /**
   Fairness of the executor: between two consecutive polls of a task, the a-th and the b-th of the run,
   every other task that is then queued at its level is polled exactly once, in queue order, and nobody
   else is polled, also not of any other level.
   */
  lemma {:induction false} ExecutorFair(ss: seq<State>, actions: seq<Action>, r: Ring, i: nat, polls: seq<Poll>,
                                        a: nat, b: nat)
    requires YieldRun(ss, actions, r) && i < |ss| && Stays(actions, i)
    requires polls == NewPolls(ss[0], ss[i]) && a < b < |polls| && polls[b].id == polls[a].id
    requires forall m | a < m < b :: polls[m].id != polls[a].id
    ensures var queue := After(r, a).queue;
            && Distinct(queue) && b - a == |queue|
            && forall m | a <= m < b :: polls[m].id == queue[m - a] && polls[m].queue == ss[0].scan
  {
    RunFollows(ss, actions, r, i);
    RingsTurn(ss[0], ss[i], r, b);
    FairPolls(ss[0], ss[i], r, Rings(r, b), polls, a, b);
  }

  lemma {:induction false} FairPolls(first: State, s: State, r: Ring, rs: seq<Ring>, polls: seq<Poll>, a: nat, b: nat)
    requires PollsFollow(first, s, r) && Turns(rs) && |rs| == b + 1 && forall m | 0 <= m <= b :: rs[m] == After(r, m)
    requires polls == NewPolls(first, s) && a < b < |polls| && polls[b].id == polls[a].id
    requires forall m | a < m < b :: polls[m].id != polls[a].id
    ensures Distinct(rs[a].queue) && b - a == |rs[a].queue|
    ensures forall m | a <= m < b :: polls[m].id == rs[a].queue[m - a] && polls[m].queue == first.scan
  {
    forall m | a <= m <= b
      ensures rs[m].queue != [] && rs[m].queue[0] == polls[m].id && polls[m].queue == first.scan
    {
      NewPollsFollow(first, s, r, rs, m);
    }
    FairBetweenPolls(rs, a, b);
  }

  /**
   The executor drains a level whose tasks finish after n_i yields in exactly the sum of (n_i + 1)
   polls: until then it cannot go down, and then it can.
   */
  lemma {:induction false} ExecutorDrains(ss: seq<State>, actions: seq<Action>, r: Ring, i: nat)
    requires YieldRun(ss, actions, r) && i < |ss| && Stays(actions, i) && AllFinish(r)
    ensures Polls(ss[0], ss[i]) <= PollsLeft(r.left, r.queue)
    ensures Enabled(ss[i], Descend) <==> Polls(ss[0], ss[i]) == PollsLeft(r.left, r.queue)
  {
    RunFollows(ss, actions, r, i);
    var k := Polls(ss[0], ss[i]);
    RingsTurn(ss[0], ss[i], r, k);
    DrainsExactly(Rings(r, k), k);
  }

  ghost predicate Forever(r: Ring, x: TaskId) {
    x in r.queue && x in r.left && r.left[x] == None
  }

  lemma {:induction false} TurnKeepsForever(r: Ring, x: TaskId)
    requires Wf(r) && Forever(r, x)
    ensures r.queue != [] && r.queue[0] in r.left && Forever(Turn(r), x)
  {
    TurnRotates(r);
    assert r.queue == [r.queue[0]] + r.queue[1..];
  }

  lemma {:induction false} AfterKeepsForever(r: Ring, x: TaskId, k: nat)
    requires Wf(r) && Forever(r, x)
    ensures Wf(After(r, k)) && Forever(After(r, k), x)
    decreases k
  {
    if k > 0 {
      AfterKeepsForever(r, x, k - 1);
      TurnKeepsForever(After(r, k - 1), x);
      TurnRotates(After(r, k - 1));
    }
  }

  /**
   While a task that yields forever is queued, the executor stays at its level, whatever wakers of
   other levels fire: the scan never goes down, and every poll is of that level, in round-robin order.
   */
  lemma {:induction false} NoLowerLevel(ss: seq<State>, actions: seq<Action>, r: Ring, x: TaskId, i: nat)
    requires YieldRun(ss, actions, r) && Forever(r, x) && i < |ss|
    ensures Stays(actions, i) && !Enabled(ss[i], Descend)
    ensures Follows(ss[0], ss[i], r) && Forever(After(r, Polls(ss[0], ss[i])), x)
    decreases i
  {
    if i > 0 {
      NoLowerLevel(ss, actions, r, x, i - 1);
      assert Enabled(ss[i - 1], actions[i - 1]);
      assert actions[..i] == actions[..i - 1] + [actions[i - 1]];
    }
    RunFollows(ss, actions, r, i);
    AfterKeepsForever(r, x, Polls(ss[0], ss[i]));
  }
}
