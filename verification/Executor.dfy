/**
 The cooperative executor as a state machine: spawning, the nested scan of `run_ready_tasks`, and
 wakers that may fire at any time, also long after their task has finished.
 */
module Executor {
  import opened Common

  const QUEUE_CAPACITY: nat := 100
  const LEVELS: nat := 4

  type TaskId = nat
  type Level = l: nat | l < 4

  /** A waker pushes the identifier of its task to the queue it was created with. */
  datatype Waker = Waker(id: TaskId, queue: Level)

  datatype Poll = Poll(id: TaskId, queue: Level, ready: bool)

  /**
   `scan` is the queue the scan is at. The last three fields are history: `issued` holds every waker
   ever created (clones outlive tasks), `created` the priority of every task ever spawned, and `polls`
   every poll of a future with its result.
   */
  datatype State = State(
    tasks: map<TaskId, Level>,
    queues: seq<seq<TaskId>>,
    wakers: map<TaskId, Waker>,
    nextId: nat,
    scan: Level,
    issued: set<Waker>,
    created: map<TaskId, Level>,
    polls: seq<Poll>)

  /**
   `Iterate` is one turn of the inner loop: pop an identifier and, if its task exists, poll it; during
   the poll the wakers in `fired` go off, and the future returns `ready`.
   */
  datatype Action =
    | Spawn(level: Level)
    | Iterate(fired: seq<Waker>, ready: bool)
    | Descend
    | Fire(waker: Waker)

  function Push(queues: seq<seq<TaskId>>, q: Level, id: TaskId): (queues': seq<seq<TaskId>>)
    requires |queues| == LEVELS
    ensures |queues'| == LEVELS
  {
    if |queues[q]| < QUEUE_CAPACITY then queues[q := queues[q] + [id]] else queues
  }

  function FireAll(queues: seq<seq<TaskId>>, fired: seq<Waker>): (queues': seq<seq<TaskId>>)
    requires |queues| == LEVELS
    ensures |queues'| == LEVELS
    decreases |fired|
  {
    if fired == [] then queues else FireAll(Push(queues, fired[0].queue, fired[0].id), fired[1..])
  }

  /** The waker handed to a poll: the cached one, or a new one for the queue being scanned. */
  function WakerFor(s: State, id: TaskId): Waker {
    if id in s.wakers then s.wakers[id] else Waker(id, s.scan)
  }

  ghost predicate Enabled(s: State, a: Action) {
    && |s.queues| == LEVELS
    && match a
       case Spawn(_) => true
       case Iterate(fired, _) =>
         && s.queues[s.scan] != []
         && var id := s.queues[s.scan][0];
            if id in s.tasks then forall w | w in fired :: w in s.issued + {WakerFor(s, id)} else fired == []
       case Descend => s.queues[s.scan] == []
       case Fire(w) => w in s.issued
  }

  function Step(s: State, a: Action): State
    requires |s.queues| == LEVELS
    requires a.Iterate? ==> s.queues[s.scan] != []
  {
    match a
    case Spawn(level) =>
      var id, created := s.nextId, s.created[s.nextId := level];
      if id in s.tasks then s.(nextId := id + 1, created := created)
      else if |s.queues[level]| < QUEUE_CAPACITY then
        s.(tasks := s.tasks[id := level], queues := Push(s.queues, level, id), nextId := id + 1, created := created)
      else
        s.(nextId := id + 1, created := created)
    case Descend => s.(scan := if s.scan == 0 then 3 else s.scan - 1)
    case Fire(w) => s.(queues := Push(s.queues, w.queue, w.id))
    case Iterate(fired, ready) =>
      var id := s.queues[s.scan][0];
      var popped := s.queues[s.scan := s.queues[s.scan][1..]];
      if id !in s.tasks then s.(queues := popped)
      else
        var w := WakerFor(s, id);
        s.(tasks := if ready then s.tasks - {id} else s.tasks,
           queues := FireAll(popped, fired),
           wakers := if ready then s.wakers - {id} else s.wakers[id := w],
           issued := s.issued + {w},
           polls := s.polls + [Poll(id, s.scan, ready)])
  }

  predicate Init(s: State) {
    s == State(map[], [[], [], [], []], map[], 0, 3, {}, map[], [])
  }

  ghost predicate IsRun(ss: seq<State>, actions: seq<Action>) {
    && |ss| == |actions| + 1
    && (forall i | 0 <= i < |actions| :: Enabled(ss[i], actions[i]) && ss[i + 1] == Step(ss[i], actions[i]))
  }

  // ---- The invariant ----

  /** A queue holds only tasks of its own priority, and no more than its capacity. */
  ghost predicate QueuesOk(queues: seq<seq<TaskId>>, created: map<TaskId, Level>) {
    && |queues| == LEVELS
    && forall q: Level :: |queues[q]| <= QUEUE_CAPACITY && forall id | id in queues[q] :: id in created && created[id] == q
  }

  ghost predicate WakersOk(s: State) {
    && (forall w | w in s.issued :: w.id in s.created && s.created[w.id] == w.queue)
    && (forall id | id in s.wakers :: id in s.tasks && s.wakers[id] == Waker(id, s.tasks[id]) && s.wakers[id] in s.issued)
  }

  ghost predicate TasksOk(s: State) {
    && (forall id | id in s.created :: id < s.nextId)
    && (forall id | id in s.tasks :: id in s.created && s.tasks[id] == s.created[id])
  }

  ghost predicate PollsOk(s: State) {
    && (forall i | 0 <= i < |s.polls| ::
          && s.polls[i].id in s.created && s.polls[i].queue == s.created[s.polls[i].id]
          && (s.polls[i].ready ==> s.polls[i].id !in s.tasks))
    && (forall i, j | 0 <= i < j < |s.polls| && s.polls[i].id == s.polls[j].id :: !s.polls[i].ready)
  }

  predicate Polled(s: State, id: TaskId) {
    exists i | 0 <= i < |s.polls| :: s.polls[i].id == id
  }

  /** A live task that was never polled is queued exactly once, and nobody has a waker for it. */
  ghost predicate FreshOk(s: State)
    requires |s.queues| == LEVELS
  {
    forall id | id in s.tasks && !Polled(s, id) ::
      && multiset(s.queues[s.tasks[id]])[id] == 1
      && (forall w | w in s.issued :: w.id != id)
  }

  ghost predicate Inv(s: State) {
    QueuesOk(s.queues, s.created) && WakersOk(s) && TasksOk(s) && PollsOk(s) && FreshOk(s)
  }

  // ---- Steps keep it ----

  lemma PushKeepsQueues(queues: seq<seq<TaskId>>, created: map<TaskId, Level>, q: Level, id: TaskId)
    requires QueuesOk(queues, created) && id in created && created[id] == q
    ensures QueuesOk(Push(queues, q, id), created)
    ensures forall other: TaskId, p: Level | other != id ::
              multiset(Push(queues, q, id)[p])[other] == multiset(queues[p])[other]
  {
  }

  lemma {:induction false} FireAllKeepsQueues(queues: seq<seq<TaskId>>, created: map<TaskId, Level>, fired: seq<Waker>)
    requires QueuesOk(queues, created)
    requires forall w | w in fired :: w.id in created && created[w.id] == w.queue
    ensures QueuesOk(FireAll(queues, fired), created)
    ensures forall other: TaskId, p: Level | (forall w | w in fired :: w.id != other) ::
              multiset(FireAll(queues, fired)[p])[other] == multiset(queues[p])[other]
    decreases |fired|
  {
    if fired != [] {
      assert fired[0] in fired;
      PushKeepsQueues(queues, created, fired[0].queue, fired[0].id);
      FireAllKeepsQueues(Push(queues, fired[0].queue, fired[0].id), created, fired[1..]);
    }
  }

  lemma PopKeepsQueues(queues: seq<seq<TaskId>>, created: map<TaskId, Level>, q: Level)
    requires QueuesOk(queues, created) && queues[q] != []
    ensures var popped := queues[q := queues[q][1..]];
            && QueuesOk(popped, created)
            && forall other: TaskId, p: Level | other != queues[q][0] ::
                 multiset(popped[p])[other] == multiset(queues[p])[other]
  {
    assert queues[q] == [queues[q][0]] + queues[q][1..];
  }

  lemma SpawnKeepsRest(s: State, level: Level)
    requires Inv(s)
    ensures var s' := Step(s, Spawn(level));
            QueuesOk(s'.queues, s'.created) && WakersOk(s') && TasksOk(s') && PollsOk(s')
  {
    var s', id := Step(s, Spawn(level)), s.nextId;
    assert id !in s.created && id !in s.tasks;
    assert QueuesOk(s.queues, s'.created);
    PushKeepsQueues(s.queues, s'.created, level, id);
  }

  lemma SpawnKeepsFresh(s: State, level: Level)
    requires Inv(s)
    ensures FreshOk(Step(s, Spawn(level)))
  {
    var s', id := Step(s, Spawn(level)), s.nextId;
    assert id !in s.created && id !in s.tasks && id !in s.queues[level];
    forall other | other in s'.tasks && !Polled(s', other)
      ensures multiset(s'.queues[s'.tasks[other]])[other] == 1 && forall w | w in s'.issued :: w.id != other
    {
      assert Polled(s', other) == Polled(s, other);
      if other != id {
        assert s'.queues[s.tasks[other]] == s.queues[s.tasks[other]]
            || s'.queues[s.tasks[other]] == s.queues[s.tasks[other]] + [id];
      }
    }
  }

  lemma SpawnKeepsInv(s: State, level: Level)
    requires Inv(s)
    ensures Inv(Step(s, Spawn(level)))
  {
    SpawnKeepsRest(s, level);
    SpawnKeepsFresh(s, level);
  }

  lemma FireKeepsInv(s: State, w: Waker)
    requires Inv(s) && w in s.issued
    ensures Inv(Step(s, Fire(w)))
  {
    var s' := Step(s, Fire(w));
    PushKeepsQueues(s.queues, s.created, w.queue, w.id);
    forall other | other in s'.tasks && !Polled(s', other)
      ensures multiset(s'.queues[s'.tasks[other]])[other] == 1 && forall v | v in s'.issued :: v.id != other
    {
      assert Polled(s', other) == Polled(s, other);
    }
  }

  /** A stale identifier is popped and dropped. */
  lemma StaleKeepsInv(s: State)
    requires Inv(s) && Enabled(s, Iterate([], false)) && s.queues[s.scan][0] !in s.tasks
    ensures Inv(Step(s, Iterate([], false)))
  {
    var s' := Step(s, Iterate([], false));
    PopKeepsQueues(s.queues, s.created, s.scan);
    forall other | other in s'.tasks && !Polled(s', other)
      ensures multiset(s'.queues[s'.tasks[other]])[other] == 1 && forall w | w in s'.issued :: w.id != other
    {
      assert Polled(s', other) == Polled(s, other);
    }
  }

  lemma PollKeepsFresh(s: State, fired: seq<Waker>, ready: bool)
    requires Inv(s) && Enabled(s, Iterate(fired, ready)) && s.queues[s.scan][0] in s.tasks
    ensures var s' := Step(s, Iterate(fired, ready));
            QueuesOk(s'.queues, s'.created) && FreshOk(s')
  {
    var s', id := Step(s, Iterate(fired, ready)), s.queues[s.scan][0];
    var popped := s.queues[s.scan := s.queues[s.scan][1..]];
    PopKeepsQueues(s.queues, s.created, s.scan);
    assert id in s.queues[s.scan];
    FireAllKeepsQueues(popped, s.created, fired);
    assert s'.polls[|s.polls|].id == id;
    forall other | other in s'.tasks && !Polled(s', other)
      ensures multiset(s'.queues[s'.tasks[other]])[other] == 1 && forall w | w in s'.issued :: w.id != other
    {
      assert other != id;
      assert !Polled(s, other) by {
        assert forall i | 0 <= i < |s.polls| :: s'.polls[i] == s.polls[i];
      }
    }
  }

  lemma PollKeepsRest(s: State, fired: seq<Waker>, ready: bool)
    requires Inv(s) && Enabled(s, Iterate(fired, ready)) && s.queues[s.scan][0] in s.tasks
    ensures var s' := Step(s, Iterate(fired, ready));
            WakersOk(s') && TasksOk(s') && PollsOk(s')
  {
    var id := s.queues[s.scan][0];
    assert id in s.queues[s.scan];
    assert s.tasks[id] == s.scan;
  }

  lemma StepKeepsInv(s: State, a: Action)
    requires Inv(s) && Enabled(s, a)
    ensures Inv(Step(s, a))
  {
    match a
    case Spawn(level) => SpawnKeepsInv(s, level);
    case Fire(w) => FireKeepsInv(s, w);
    case Descend =>
      forall other | other in s.tasks
        ensures Polled(Step(s, a), other) == Polled(s, other)
      {
      }
    case Iterate(fired, ready) =>
      if s.queues[s.scan][0] in s.tasks {
        PollKeepsFresh(s, fired, ready);
        PollKeepsRest(s, fired, ready);
      } else {
        StaleKeepsInv(s);
        assert Step(s, a) == Step(s, Iterate([], false));
      }
  }

  lemma {:induction false} RunKeepsInv(ss: seq<State>, actions: seq<Action>, i: nat)
    requires IsRun(ss, actions) && Inv(ss[0]) && i < |ss|
    ensures Inv(ss[i])
    decreases i
  {
    if i > 0 {
      RunKeepsInv(ss, actions, i - 1);
      StepKeepsInv(ss[i - 1], actions[i - 1]);
      assert ss[i - 1 + 1] == Step(ss[i - 1], actions[i - 1]);
    }
  }

  /**
   In every run, with stale wakers firing at any time: no future is polled again after it returned
   ready, every task is polled only from the queue of its own priority, cached wakers exist only for
   live tasks and target that queue, and a spawned task that was not polled yet is queued exactly once.
   */
  lemma RunIsSafe(ss: seq<State>, actions: seq<Action>, i: nat)
    requires IsRun(ss, actions) && Init(ss[0]) && i < |ss|
    ensures var s := ss[i];
            && (forall a, b | 0 <= a < b < |s.polls| && s.polls[a].id == s.polls[b].id :: !s.polls[a].ready)
            && (forall a | 0 <= a < |s.polls| :: s.polls[a].id in s.created && s.polls[a].queue == s.created[s.polls[a].id])
            && (forall id | id in s.wakers :: id in s.tasks && s.wakers[id] == Waker(id, s.tasks[id]))
            && |s.queues| == LEVELS
            && (forall id | id in s.tasks && !Polled(s, id) :: multiset(s.queues[s.tasks[id]])[id] == 1)
  {
    RunKeepsInv(ss, actions, i);
  }

  // ---- What the steps do ----

  /**
   Spawning takes the next identifier. The task is there and last in its queue, unless that queue was full
   (or the identifier taken); then the task is dropped. No other queue and no other task is touched.
   */
  lemma {:induction false} SpawnExact(s: State, level: Level)
    requires |s.queues| == 4
    ensures var s', id := Step(s, Spawn(level)), s.nextId;
            && s'.nextId == id + 1 && s'.created == s.created[id := level]
            && |s'.queues| == 4 && (forall q: Level | q != level :: s'.queues[q] == s.queues[q])
            && s'.wakers == s.wakers && s'.scan == s.scan && s'.issued == s.issued && s'.polls == s.polls
            && (if id !in s.tasks && |s.queues[level]| < 100
                then s'.tasks == s.tasks[id := level] && s'.queues[level] == s.queues[level] + [id]
                else s'.tasks == s.tasks && s'.queues[level] == s.queues[level])
  {
  }

  /** A waker that fires puts its task at the end of its queue if there is room, and does nothing else. */
  lemma {:induction false} FireExact(s: State, w: Waker)
    requires |s.queues| == 4
    ensures var s' := Step(s, Fire(w));
            && s' == s.(queues := s'.queues)
            && |s'.queues| == 4 && (forall q: Level | q != w.queue :: s'.queues[q] == s.queues[q])
            && s'.queues[w.queue] == s.queues[w.queue] + if |s.queues[w.queue]| < 100 then [w.id] else []
  {
  }

  /** The scan leaves a level only when it is empty, for the next lower one or from the lowest to the highest. */
  lemma {:induction false} DescendExact(s: State)
    requires |s.queues| == 4
    ensures Enabled(s, Descend) <==> s.queues[s.scan] == []
    ensures var s' := Step(s, Descend);
            s' == s.(scan := s'.scan) && (if s.scan == 0 then s'.scan == 3 else s'.scan == s.scan - 1)
  {
  }

  /** The tasks whose wakers for queue `q` fire, in order. */
  function IdsFor(fired: seq<Waker>, q: Level): seq<TaskId> {
    if fired == [] then [] else (if fired[0].queue == q then [fired[0].id] else []) + IdsFor(fired[1..], q)
  }

  function FirstOf(ids: seq<TaskId>, n: nat): seq<TaskId> {
    ids[..Min(n, |ids|)]
  }

  /** Wakers that fire one after the other append their tasks, and what does not fit is dropped. */
  lemma {:induction false} FireAllExact(queues: seq<seq<TaskId>>, fired: seq<Waker>, q: Level)
    requires |queues| == 4 && |queues[q]| <= 100
    ensures FireAll(queues, fired)[q] == FirstOf(queues[q] + IdsFor(fired, q), 100)
    decreases |fired|
  {
    if fired == [] {
      assert queues[q] + [] == queues[q];
    } else {
      var queues1 := Push(queues, fired[0].queue, fired[0].id);
      FireAllExact(queues1, fired[1..], q);
      if fired[0].queue == q {
        assert queues[q] + IdsFor(fired, q) == queues[q] + [fired[0].id] + IdsFor(fired[1..], q);
        assert |queues[q]| == 100 ==> FirstOf(queues[q] + IdsFor(fired, q), 100) == queues[q];
        assert |queues[q]| == 100 ==> FirstOf(queues[q] + IdsFor(fired[1..], q), 100) == queues[q];
      } else {
        assert [] + IdsFor(fired[1..], q) == IdsFor(fired[1..], q);
      }
    }
  }

  /**
   One turn of the loop takes the first identifier off the queue. A task that does not exist any more is
   skipped. One that does is polled; if it is ready it is gone, with its waker, and otherwise it stays
   and its waker is kept; the wakers that fire during the poll append their tasks.
   */
  lemma {:induction false} IterateExact(s: State, fired: seq<Waker>, ready: bool, q: Level)
    requires Inv(s) && Enabled(s, Iterate(fired, ready))
    ensures var s', id := Step(s, Iterate(fired, ready)), s.queues[s.scan][0];
            var rest := if q == s.scan then s.queues[q][1..] else s.queues[q];
            && s'.scan == s.scan && s'.nextId == s.nextId && s'.created == s.created && |s'.queues| == 4
            && (if id !in s.tasks then
                  && s'.tasks == s.tasks && s'.wakers == s.wakers && s'.polls == s.polls && s'.queues[q] == rest
                else
                  && s'.polls == s.polls + [Poll(id, s.scan, ready)]
                  && s'.tasks == (if ready then s.tasks - {id} else s.tasks)
                  && s'.wakers == (if ready then s.wakers - {id} else s.wakers[id := Waker(id, s.scan)])
                  && s'.queues[q] == FirstOf(rest + IdsFor(fired, q), 100))
  {
    var id := s.queues[s.scan][0];
    assert id in s.queues[s.scan];
    var popped := s.queues[s.scan := s.queues[s.scan][1..]];
    if id in s.tasks {
      FireAllExact(popped, fired, q);
    }
  }

  // ---- What holds over runs ----

  /** A spawn that found its queue full. */
  ghost predicate Rejected(s: State, a: Action, id: TaskId) {
    a.Spawn? && |s.queues| == 4 && s.nextId == id && |s.queues[a.level]| >= 100
  }

  lemma {:induction false} AliveOrRejected(ss: seq<State>, actions: seq<Action>, i: nat, id: TaskId)
    requires IsRun(ss, actions) && Init(ss[0]) && i < |ss|
    requires id in ss[i].created && !Polled(ss[i], id)
    ensures id in ss[i].tasks || exists j | 0 <= j < i :: Rejected(ss[j], actions[j], id)
    decreases i
  {
    if i > 0 {
      var s, a := ss[i - 1], actions[i - 1];
      assert Enabled(s, a) && ss[i - 1 + 1] == Step(s, a);
      RunKeepsInv(ss, actions, i - 1);
      if id !in s.created {
        NewlyCreated(s, a, id);
      } else if id in s.tasks {
        StaysAlive(s, a, id);
      } else {
        if Polled(s, id) {
          PolledStays(s, a, id);
          assert false;
        }
        AliveOrRejected(ss, actions, i - 1, id);
      }
    }
  }

  /**
   No spawned task gets lost: a task that was spawned and never polled is alive and queued exactly once,
   unless its queue was full when it was spawned.
   */
  lemma {:induction false} SpawnedIsThere(ss: seq<State>, actions: seq<Action>, i: nat, id: TaskId)
    requires IsRun(ss, actions) && Init(ss[0]) && i < |ss|
    requires id in ss[i].created && !Polled(ss[i], id)
    ensures |ss[i].queues| == 4
    ensures (id in ss[i].tasks && multiset(ss[i].queues[ss[i].created[id]])[id] == 1)
            || exists j | 0 <= j < i :: Rejected(ss[j], actions[j], id)
  {
    RunKeepsInv(ss, actions, i);
    AliveOrRejected(ss, actions, i, id);
  }

  lemma {:induction false} PolledStays(s: State, a: Action, id: TaskId)
    requires Enabled(s, a) && Polled(s, id)
    ensures Polled(Step(s, a), id)
  {
    var i :| 0 <= i < |s.polls| && s.polls[i].id == id;
    assert Step(s, a).polls[i] == s.polls[i];
  }

  /** A task disappears only in a poll of its own. */
  lemma {:induction false} StaysAlive(s: State, a: Action, id: TaskId)
    requires Inv(s) && Enabled(s, a) && !Polled(Step(s, a), id) && id in s.tasks
    ensures id in Step(s, a).tasks
  {
    if a.Iterate? {
      IterateExact(s, a.fired, a.ready, 0);
      var s' := Step(s, a);
      if s.queues[s.scan][0] == id {
        assert s'.polls[|s.polls|].id == id;
      }
    } else if a.Spawn? {
      SpawnExact(s, a.level);
    }
  }

  lemma {:induction false} NewlyCreated(s: State, a: Action, id: TaskId)
    requires Inv(s) && Enabled(s, a) && id !in s.created && id in Step(s, a).created
    ensures id in Step(s, a).tasks || Rejected(s, a, id)
  {
    assert a.Spawn?;
    SpawnExact(s, a.level);
  }

  /** The scan found level `l` empty at this step. */
  ghost predicate FoundEmpty(s: State, a: Action, l: Level) {
    a.Descend? && s.scan == l && |s.queues| == 4 && s.queues[l] == []
  }

  /**
   A level is scanned only after all higher ones: between a moment at which the scan is at the highest level and
   a later one at which it is at a lower level, it has found every level above that one empty.
   */
  lemma {:induction false} HigherFirst(ss: seq<State>, actions: seq<Action>, start: nat, i: nat, l: Level)
    requires IsRun(ss, actions) && Inv(ss[0]) && start <= i < |ss|
    requires ss[start].scan == 3 && ss[i].scan < l
    ensures exists j | start <= j < i :: FoundEmpty(ss[j], actions[j], l)
    decreases i
  {
    var s, a := ss[i - 1], actions[i - 1];
    assert Enabled(s, a) && ss[i - 1 + 1] == Step(s, a);
    RunKeepsInv(ss, actions, i - 1);
    ScanMoves(s, a);
    if s.scan < l {
      HigherFirst(ss, actions, start, i - 1, l);
    } else {
      assert FoundEmpty(s, a, l);
    }
  }

  lemma {:induction false} ScanMoves(s: State, a: Action)
    requires Inv(s) && Enabled(s, a)
    ensures var scan := Step(s, a).scan;
            scan == s.scan || (a.Descend? && s.queues[s.scan] == [] && (scan == 3 || scan == s.scan - 1))
  {
  }
}
