/**
 The executor as the object the kernel runs: its maps and queues are fields, and `run_ready_tasks` is
 the nested loop of the source. Every method is proved to take steps of the state machine in `Executor`.
 */
module ExecutorObject {
  import opened Common
  import opened Executor

  /** What a poll of a future does: which wakers it fires, and whether the future is ready. */
  datatype Answer = Answer(fires: seq<Waker>, ready: bool)

  /** `YieldNow`: pending once, after waking itself; then ready. */
  class YieldNow {
    var yielded: bool

    constructor ()
      ensures !yielded
    {
      yielded := false;
    }

    method Poll(waker: Waker) returns (answer: Answer)
      modifies this
      ensures yielded
      ensures answer == if old(yielded) then Answer([], true) else Answer([waker], false)
    {
      if yielded {
        return Answer([], true);
      }
      yielded := true;
      return Answer([waker], false);
    }
  }

  /** The polls after `before` got the answers of the script, in its order. */
  predicate Answered(before: seq<Poll>, script: seq<Answer>, after: seq<Poll>) {
    && before <= after && |after| <= |before| + |script|
    && forall k | 0 <= k < |after| - |before| :: after[|before| + k].ready == script[k].ready
  }

  /** The wakers of a list that exist. */
  function Existing(ws: seq<Waker>, known: set<Waker>): (r: seq<Waker>)
    ensures forall w | w in r :: w in known
  {
    if ws == [] then [] else (if ws[0] in known then [ws[0]] else []) + Existing(ws[1..], known)
  }

  /** A run of one scan from `first` to `last`: loop iterations and moves to the next level only. */
  ghost predicate Trace(ss: seq<State>, actions: seq<Action>, first: State, last: State) {
    && IsRun(ss, actions) && ss[0] == first && ss[|actions|] == last
    && forall a | a in actions :: a.Iterate? || a.Descend?
  }

  lemma TraceGrows(ss: seq<State>, actions: seq<Action>, first: State, last: State, a: Action)
    requires Trace(ss, actions, first, last) && Enabled(last, a) && (a.Iterate? || a.Descend?)
    ensures Trace(ss + [Step(last, a)], actions + [a], first, Step(last, a))
    ensures multiset(actions + [a])[Descend] == multiset(actions)[Descend] + if a.Descend? then 1 else 0
  {
  }

  class TaskExecutor {
    var tasks: map<TaskId, Level>
    var taskQueues: seq<seq<TaskId>>
    var wakerCache: map<TaskId, Waker>
    // The static counter of `TaskId::new`, and the wakers that exist outside the executor.
    var nextId: nat
    var handedOut: set<Waker>
    ghost var scan: Level
    ghost var created: map<TaskId, Level>
    ghost var polls: seq<Poll>

    ghost function Value(): State
      reads this
    {
      State(tasks, taskQueues, wakerCache, nextId, scan, handedOut, created, polls)
    }

    constructor ()
      ensures Init(Value())
    {
      tasks, taskQueues, wakerCache := map[], [[], [], [], []], map[];
      nextId, handedOut := 0, {};
      scan, created, polls := 3, map[], [];
    }

    method Spawn(level: Level)
      requires |taskQueues| == LEVELS
      modifies this
      ensures Value() == Step(old(Value()), Action.Spawn(level))
      ensures nextId == old(nextId) + 1 && |taskQueues| == LEVELS
      ensures if old(nextId) !in old(tasks) && |old(taskQueues)[level]| < 100
              then tasks == old(tasks)[old(nextId) := level]
                   && taskQueues == old(taskQueues)[level := old(taskQueues)[level] + [old(nextId)]]
              else tasks == old(tasks) && taskQueues == old(taskQueues)
    {
      var id := nextId;
      nextId := nextId + 1;
      created := created[id := level];
      if id in tasks {
        return;
      }
      tasks := tasks[id := level];
      if |taskQueues[level]| < QUEUE_CAPACITY {
        taskQueues := Push(taskQueues, level, id);
      } else {
        tasks := tasks - {id};
        assert tasks == old(tasks);
      }
    }

    /** `wake_by_ref` of a waker that exists; a full queue drops the wake. */
    method Wake(waker: Waker)
      requires |taskQueues| == LEVELS
      modifies this`taskQueues
      ensures Value() == Step(old(Value()), Fire(waker)) && |taskQueues| == LEVELS
      ensures |old(taskQueues)[waker.queue]| < 100 ==>
                taskQueues == old(taskQueues)[waker.queue := old(taskQueues)[waker.queue] + [waker.id]]
      ensures |old(taskQueues)[waker.queue]| >= 100 ==> taskQueues == old(taskQueues)
    {
      taskQueues := Push(taskQueues, waker.queue, waker.id);
    }

    method FireWakers(ws: seq<Waker>)
      requires |taskQueues| == LEVELS
      modifies this`taskQueues
      ensures taskQueues == FireAll(old(taskQueues), ws)
    {
      var i := 0;
      while i < |ws|
        invariant 0 <= i <= |ws| && |taskQueues| == LEVELS
        invariant FireAll(taskQueues, ws[i..]) == FireAll(old(taskQueues), ws)
      {
        assert ws[i..][1..] == ws[i + 1..];
        taskQueues := Push(taskQueues, ws[i].queue, ws[i].id);
        i := i + 1;
      }
    }

    /** The body of the inner loop. */
    method PollNext(priority: Level, answer: Answer) returns (ghost action: Action)
      requires |taskQueues| == LEVELS && scan == priority && taskQueues[priority] != []
      modifies this
      ensures action.Iterate? && Enabled(old(Value()), action)
      ensures Value() == Step(old(Value()), action)
      ensures old(taskQueues[priority][0]) in old(tasks) ==>
                && action == Iterate(Existing(answer.fires, handedOut), answer.ready)
                && polls == old(polls) + [Poll.Poll(old(taskQueues[priority][0]), priority, answer.ready)]
      ensures old(taskQueues[priority][0]) !in old(tasks) ==>
                polls == old(polls) && taskQueues == old(taskQueues)[priority := old(taskQueues[priority][1..])]
      ensures |taskQueues| == LEVELS && scan == priority
    {
      var id := taskQueues[priority][0];
      taskQueues := taskQueues[priority := taskQueues[priority][1..]];
      if id !in tasks {
        action := Iterate([], false);
        return;
      }
      var waker := if id in wakerCache then wakerCache[id] else Waker(id, priority);
      handedOut := handedOut + {waker};
      var fires := Existing(answer.fires, handedOut);
      action := Iterate(fires, answer.ready);
      FireWakers(fires);
      polls := polls + [Poll.Poll(id, priority, answer.ready)];
      if answer.ready {
        tasks := tasks - {id};
        wakerCache := wakerCache - {id};
      } else {
        wakerCache := wakerCache[id := waker];
      }
    }

    /** A scan that began in `first` has got here by `actions`, with the first `used` answers of the script. */
    ghost predicate Scanning(ss: seq<State>, actions: seq<Action>, first: State, script: seq<Answer>, used: nat)
      reads this
    {
      && |taskQueues| == LEVELS && Trace(ss, actions, first, Value())
      && |polls| == |first.polls| + used && Answered(first.polls, script, polls)
    }

    /**
     The inner loop of `run_ready_tasks`. The futures are given by `script`: the answer of the n-th
     poll is its n-th entry. The loop stops when it needs an answer and the script is used up.
     */
    method DrainLevel(priority: Level, script: seq<Answer>, used: nat, ghost ss: seq<State>, ghost actions: seq<Action>,
                      ghost first: State)
      returns (drained: bool, used': nat, ghost ss': seq<State>, ghost actions': seq<Action>)
      requires scan == priority && Scanning(ss, actions, first, script, used)
      modifies this
      ensures scan == priority && Scanning(ss', actions', first, script, used')
      ensures multiset(actions')[Descend] == multiset(actions)[Descend]
      ensures drained ==> taskQueues[priority] == []
      ensures !drained ==> taskQueues[priority] != [] && taskQueues[priority][0] in tasks && used' == |script|
    {
      used', ss', actions' := used, ss, actions;
      while taskQueues[priority] != []
        invariant scan == priority && Scanning(ss', actions', first, script, used')
        invariant multiset(actions')[Descend] == multiset(actions)[Descend]
        decreases |script| - used', |taskQueues[priority]|
      {
        var live := taskQueues[priority][0] in tasks;
        if live && used' == |script| {
          return false, used', ss', actions';
        }
        ghost var last := Value();
        ghost var action := PollNext(priority, if live then script[used'] else Answer([], false));
        TraceGrows(ss', actions', first, last, action);
        ss', actions' := ss' + [Value()], actions' + [action];
        used' := if live then used' + 1 else used';
      }
      drained := true;
    }

    /**
     `run_ready_tasks`; `finished` is false when the script is used up before the scan ends. `ss` and
     `actions` are the run of the state machine that was taken.
     */
    method RunReadyTasks(script: seq<Answer>)
      returns (finished: bool, used: nat, ghost ss: seq<State>, ghost actions: seq<Action>)
      requires |taskQueues| == LEVELS && scan == 3
      modifies this
      ensures Scanning(ss, actions, old(Value()), script, used)
      ensures finished ==> scan == 3 && multiset(actions)[Descend] == LEVELS
      ensures !finished ==> taskQueues[scan] != [] && taskQueues[scan][0] in tasks && used == |script|
    {
      used, ss, actions := 0, [Value()], [];
      var priority := 3;
      while priority >= 0
        invariant -1 <= priority <= 3 && scan == if priority == -1 then 3 else priority
        invariant Scanning(ss, actions, old(Value()), script, used) && multiset(actions)[Descend] == 3 - priority
        decreases priority
      {
        var drained;
        drained, used, ss, actions := DrainLevel(priority, script, used, ss, actions, old(Value()));
        if !drained {
          return false, used, ss, actions;
        }
        TraceGrows(ss, actions, old(Value()), Value(), Descend);
        scan := if scan == 0 then 3 else scan - 1;
        ss, actions := ss + [Value()], actions + [Descend];
        priority := priority - 1;
      }
      finished := true;
    }
  }
}
