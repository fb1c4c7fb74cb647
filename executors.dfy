/**
 * The executor: jobs handed to a thread pool, with counts of the jobs
 * still running and of those among them that block the interface, and a
 * signal when a job starts or ends.
 */
module Executors {
  import opened Values

  /** The executor's signals: a start with its message, an end with its task, each with both counts. */
  datatype ExecutorEvent =
    | TaskStarted(msg: Option<string>, running: int, blocking: int)
    | TaskEnded(task: nat, running: int, blocking: int)

  /** The pending jobs that were submitted as blocking. */
  function BlockingTasks(tasks: map<nat, bool>): set<nat> {
    set t | t in tasks && tasks[t]
  }

  lemma {:induction false} SubsetSize(a: set<nat>, b: set<nat>)
    requires a <= b
    ensures |a| <= |b|
    decreases |b|
  {
    if b != {} {
      var x :| x in b;
      SubsetSize(a - {x}, b - {x});
    }
  }

  /** There are never more blocking tasks than pending ones. */
  lemma BlockingAtMostRunning(tasks: map<nat, bool>)
    ensures |BlockingTasks(tasks)| <= |tasks|
  {
    SubsetSize(BlockingTasks(tasks), tasks.Keys);
  }

  /** A new task adds itself to the blocking ones exactly when it blocks. */
  lemma BlockingAfterSubmit(tasks: map<nat, bool>, id: nat, isBlocking: bool)
    requires id !in tasks
    ensures |BlockingTasks(tasks[id := isBlocking])| == |BlockingTasks(tasks)| + if isBlocking then 1 else 0
  {
    if isBlocking {
      assert BlockingTasks(tasks[id := isBlocking]) == BlockingTasks(tasks) + {id};
    } else {
      assert BlockingTasks(tasks[id := isBlocking]) == BlockingTasks(tasks);
    }
  }

  /** A finished task leaves the blocking ones exactly when it blocked. */
  lemma BlockingAfterDone(tasks: map<nat, bool>, id: nat)
    requires id in tasks
    ensures |BlockingTasks(tasks - {id})| == |BlockingTasks(tasks)| - if tasks[id] then 1 else 0
  {
    if tasks[id] {
      assert BlockingTasks(tasks - {id}) == BlockingTasks(tasks) - {id};
    } else {
      assert BlockingTasks(tasks - {id}) == BlockingTasks(tasks);
    }
  }

  class Executor {
    /** The pending tasks, each with whether it blocks. */
    var tasks: map<nat, bool>
    /** The identity the next submitted task gets. */
    var nextId: nat
    var running: int
    var blocking: int
    var events: seq<ExecutorEvent>

    /** The counts agree with the pending tasks. */
    ghost predicate Valid()
      reads this
    {
      running == |tasks| && blocking == |BlockingTasks(tasks)| &&
      (forall t :: t in tasks ==> t < nextId)
    }

    /** A new executor has no task. */
    constructor()
      ensures Valid() && tasks == map[] && running == 0 && blocking == 0 && events == []
    {
      tasks := map[];
      nextId := 0;
      running := 0;
      blocking := 0;
      events := [];
      new;
      assert BlockingTasks(tasks) == {};
    }

    /**
     * `execute(func, msg, blocking)`: the new job is pending, one more job
     * runs (and blocks, if asked), and `task_started` carries the new counts.
     */
    method Execute(msg: Option<string>, isBlocking: bool) returns (id: nat)
      requires Valid()
      modifies this
      ensures Valid()
      ensures id !in old(tasks) && tasks == old(tasks)[id := isBlocking]
      ensures running == old(running) + 1
      ensures blocking == old(blocking) + if isBlocking then 1 else 0
      ensures events == old(events) + [TaskStarted(msg, running, blocking)]
      ensures 0 <= blocking <= running
    {
      id := nextId;
      nextId := nextId + 1;
      BlockingAfterSubmit(tasks, id, isBlocking);
      tasks := tasks[id := isBlocking];
      running := running + 1;
      if isBlocking {
        blocking := blocking + 1;
      }
      BlockingAtMostRunning(tasks);
      events := events + [TaskStarted(msg, running, blocking)];
    }

    /**
     * `_task_done(future)`: one task fewer runs, one fewer blocks if it
     * blocked, and `task_ended` carries the new counts. The two assertions
     * of the original hold for every pending task.
     */
    method TaskDone(id: nat)
      requires Valid() && id in tasks
      modifies this
      ensures Valid()
      ensures tasks == old(tasks) - {id}
      ensures running == old(running) - 1
      ensures blocking == old(blocking) - if old(tasks)[id] then 1 else 0
      ensures events == old(events) + [TaskEnded(id, running, blocking)]
      ensures 0 <= blocking <= running
    {
      assert running >= 1;
      running := running - 1;
      var wasBlocking := tasks[id];
      BlockingAfterDone(tasks, id);
      tasks := tasks - {id};
      if wasBlocking {
        assert blocking >= 1;
        blocking := blocking - 1;
      }
      BlockingAtMostRunning(tasks);
      events := events + [TaskEnded(id, running, blocking)];
    }
  }
}
