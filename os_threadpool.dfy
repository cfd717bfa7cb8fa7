/**
 * The task queue and pool lifecycle of src/os_threadpool.c, as a sequential
 * state machine: a FIFO list of tasks, a stop flag that is only ever raised,
 * and a log of the calls the pool makes on behalf of its tasks (running an
 * action, calling an argument destructor, releasing a task).
 *
 * Threads, mutexes and condition variables are left out: the blocking wait in
 * dequeue becomes a precondition, and joining a worker runs that worker's loop.
 */
module OsThreadpool {

  datatype Option<T> = None | Some(value: T)

  /** An opaque address: a function pointer or an argument pointer. */
  type Address = nat

  /** os_task_t: the action, its argument and the optional (NULL-able) argument destructor. */
  datatype Task = Task(action: Address, argument: Address, destroyArg: Option<Address>)

  /** What the pool does with a task: call its action on its argument, call its destructor on its
      argument, or release the task's storage. */
  datatype Kind = ActionCalled | ArgumentDestroyed | TaskFreed

  datatype Effect = Effect(kind: Kind, task: Task)

  /** The tasks the effects of kind k were about, in order. */
  function TasksOf(effects: seq<Effect>, k: Kind): seq<Task>
  {
    if effects == [] then []
    else (if effects[0].kind == k then [effects[0].task] else []) + TasksOf(effects[1..], k)
  }

  lemma TasksOfSingle(e: Effect, k: Kind)
    ensures TasksOf([e], k) == if e.kind == k then [e.task] else []
  {
    assert [e][1..] == [];
  }

  lemma {:induction false} TasksOfConcat(a: seq<Effect>, b: seq<Effect>, k: Kind)
    ensures TasksOf(a + b, k) == TasksOf(a, k) + TasksOf(b, k)
  {
    if a == [] {
      assert a + b == b;
    } else {
      assert (a + b)[0] == a[0];
      assert (a + b)[1..] == a[1..] + b;
      TasksOfConcat(a[1..], b, k);
    }
  }

  /** The tasks that carry an argument destructor, in order. */
  function WithDestructor(ts: seq<Task>): seq<Task>
  {
    if ts == [] then []
    else (if ts[0].destroyArg.Some? then [ts[0]] else []) + WithDestructor(ts[1..])
  }

  // ---------------------------------------------------------------------------
  // Task

  /** create_task: a task holding its three inputs verbatim. */
  function CreateTask(action: Address, arg: Address, destroyArg: Option<Address>): (t: Task)
    ensures t.action == action && t.argument == arg && t.destroyArg == destroyArg
  {
    Task(action, arg, destroyArg)
  }

  /** destroy_task: call the argument destructor on the argument when one is set, then release the task. */
  function DestroyTask(t: Task): seq<Effect>
  {
    (if t.destroyArg.Some? then [Effect(ArgumentDestroyed, t)] else []) + [Effect(TaskFreed, t)]
  }

  /** Destroying a task calls its destructor exactly once when it is set and never when it is NULL,
      never calls its action, and releases it exactly once, as the last thing it does. */
  lemma DestroyTaskEffects(t: Task)
    ensures TasksOf(DestroyTask(t), ArgumentDestroyed) == (if t.destroyArg.Some? then [t] else [])
    ensures TasksOf(DestroyTask(t), ActionCalled) == []
    ensures TasksOf(DestroyTask(t), TaskFreed) == [t]
    ensures DestroyTask(t)[|DestroyTask(t)| - 1] == Effect(TaskFreed, t)
  {
    var call: seq<Effect> := if t.destroyArg.Some? then [Effect(ArgumentDestroyed, t)] else [];
    var free := [Effect(TaskFreed, t)];
    assert DestroyTask(t) == call + free;
    forall k: Kind
      ensures TasksOf(call + free, k) == TasksOf(call, k) + TasksOf(free, k)
      ensures TasksOf(call, k) == if t.destroyArg.Some? && k == ArgumentDestroyed then [t] else []
      ensures TasksOf(free, k) == if k == TaskFreed then [t] else []
    {
      TasksOfSingle(Effect(ArgumentDestroyed, t), k);
      TasksOfSingle(Effect(TaskFreed, t), k);
      TasksOfConcat(call, free, k);
    }
  }

  /** One turn of the worker loop on a dequeued task: run its action, then destroy it. */
  function RunTask(t: Task): seq<Effect>
  {
    [Effect(ActionCalled, t)] + DestroyTask(t)
  }

  /** A worker turn calls the task's action exactly once, before anything else, and then destroys the
      task exactly as destroy_task does. */
  lemma RunTaskEffects(t: Task)
    ensures RunTask(t)[0] == Effect(ActionCalled, t)
    ensures TasksOf(RunTask(t), ActionCalled) == [t]
    ensures TasksOf(RunTask(t), ArgumentDestroyed) == (if t.destroyArg.Some? then [t] else [])
    ensures TasksOf(RunTask(t), TaskFreed) == [t]
  {
    DestroyTaskEffects(t);
    forall k: Kind
      ensures TasksOf(RunTask(t), k) == TasksOf([Effect(ActionCalled, t)], k) + TasksOf(DestroyTask(t), k)
    {
      TasksOfSingle(Effect(ActionCalled, t), k);
      TasksOfConcat([Effect(ActionCalled, t)], DestroyTask(t), k);
    }
  }

  /** What working through ts in order, one task after the other, does. */
  function ForEachTask(ts: seq<Task>, step: Task -> seq<Effect>): seq<Effect>
  {
    if ts == [] then [] else step(ts[0]) + ForEachTask(ts[1..], step)
  }

  lemma {:induction false} ForEachTaskAppend(ts: seq<Task>, t: Task, step: Task -> seq<Effect>)
    ensures ForEachTask(ts + [t], step) == ForEachTask(ts, step) + step(t)
  {
    if ts == [] {
      assert [t][1..] == [];
    } else {
      assert (ts + [t])[1..] == ts[1..] + [t];
      ForEachTaskAppend(ts[1..], t, step);
    }
  }

  /** The worker loop draining ts: every task run, then destroyed. */
  function DrainEffects(ts: seq<Task>): seq<Effect>
  {
    ForEachTask(ts, RunTask)
  }

  /** The teardown loop discarding ts: every task destroyed, none run. */
  function DiscardEffects(ts: seq<Task>): seq<Effect>
  {
    ForEachTask(ts, DestroyTask)
  }

  /** Moving the head of the remaining queue to the processed part of a discard. */
  lemma DiscardStep(done: seq<Task>, rest: seq<Task>)
    requires rest != []
    ensures done + rest == (done + [rest[0]]) + rest[1..]
    ensures DiscardEffects(done + [rest[0]]) == DiscardEffects(done) + DestroyTask(rest[0])
  {
    assert rest == [rest[0]] + rest[1..];
    ForEachTaskAppend(done, rest[0], DestroyTask);
  }

  /** Draining runs every queued task's action exactly once, in queue order, calls each set destructor
      once and releases every task once. */
  lemma {:induction false} DrainRunsEachTaskOnce(ts: seq<Task>)
    ensures TasksOf(DrainEffects(ts), ActionCalled) == ts
    ensures TasksOf(DrainEffects(ts), ArgumentDestroyed) == WithDestructor(ts)
    ensures TasksOf(DrainEffects(ts), TaskFreed) == ts
  {
    if ts != [] {
      DrainRunsEachTaskOnce(ts[1..]);
      RunTaskEffects(ts[0]);
      var head, rest := RunTask(ts[0]), DrainEffects(ts[1..]);
      TasksOfConcat(head, rest, ActionCalled);
      TasksOfConcat(head, rest, ArgumentDestroyed);
      TasksOfConcat(head, rest, TaskFreed);
    }
  }

  /** Discarding runs no action, calls each set destructor once and releases every task once. */
  lemma {:induction false} DiscardRunsNoTask(ts: seq<Task>)
    ensures TasksOf(DiscardEffects(ts), ActionCalled) == []
    ensures TasksOf(DiscardEffects(ts), ArgumentDestroyed) == WithDestructor(ts)
    ensures TasksOf(DiscardEffects(ts), TaskFreed) == ts
  {
    if ts != [] {
      DiscardRunsNoTask(ts[1..]);
      DestroyTaskEffects(ts[0]);
      var head, rest := DestroyTask(ts[0]), DiscardEffects(ts[1..]);
      TasksOfConcat(head, rest, ActionCalled);
      TasksOfConcat(head, rest, ArgumentDestroyed);
      TasksOfConcat(head, rest, TaskFreed);
    }
  }

  // ---------------------------------------------------------------------------
  // The pool

  /** os_threadpool_t: the task list, the stop flag, the number of workers, and the effects so far. */
  class ThreadPool {
    var tasks: seq<Task>
    var stopFlag: bool
    const numThreads: nat
    ghost var log: seq<Effect>

    /** create_threadpool: an empty queue, stop flag cleared, the worker count recorded. */
    constructor (numThreads: nat)
      ensures tasks == [] && !stopFlag && this.numThreads == numThreads && log == []
    {
      tasks := [];
      stopFlag := false;
      this.numThreads := numThreads;
      log := [];
    }

    /** enqueue_task: append at the tail. */
    method Enqueue(t: Task)
      modifies this
      ensures tasks == old(tasks) + [t]
      ensures stopFlag == old(stopFlag) && log == old(log)
    {
      tasks := tasks + [t];
    }

    /** dequeue_task: the head when there is one, none once the queue is empty and stopping.
        The wait while the queue is empty and not stopping is the precondition. */
    method Dequeue() returns (r: Option<Task>)
      requires tasks != [] || stopFlag
      modifies this
      ensures old(tasks) != [] ==> r == Some(old(tasks)[0]) && tasks == old(tasks)[1..]
      ensures old(tasks) == [] ==> r == None && tasks == old(tasks)
      ensures stopFlag == old(stopFlag) && log == old(log)
    {
      if tasks != [] {
        r := Some(tasks[0]);
        tasks := tasks[1..];
      } else {
        r := None;
      }
    }

    /** thread_loop_function once stopping: dequeue, run and destroy until dequeue gives none. */
    method ThreadLoop()
      requires stopFlag
      modifies this
      ensures stopFlag && tasks == []
      ensures log == old(log) + DrainEffects(old(tasks))
    {
      ghost var done: seq<Task> := [];
      while true
        invariant stopFlag
        invariant old(tasks) == done + tasks
        invariant log == old(log) + DrainEffects(done)
        decreases |tasks|
      {
        var t := Dequeue();
        if t.None? {
          break;
        }
        log := log + [Effect(ActionCalled, t.value)];
        log := log + DestroyTask(t.value);
        ForEachTaskAppend(done, t.value, RunTask);
        done := done + [t.value];
      }
      assert done == old(tasks);
    }

    /** wait_for_completion: raise the stop flag and join every worker; the first worker to run its
        loop drains the queue. With no workers nothing is drained. */
    method WaitForCompletion()
      modifies this
      ensures stopFlag
      ensures numThreads > 0 ==> tasks == [] && log == old(log) + DrainEffects(old(tasks))
      ensures numThreads == 0 ==> tasks == old(tasks) && log == old(log)
    {
      stopFlag := true;
      for i := 0 to numThreads
        invariant stopFlag
        invariant i > 0 ==> tasks == [] && log == old(log) + DrainEffects(old(tasks))
        invariant i == 0 ==> tasks == old(tasks) && log == old(log)
      {
        ThreadLoop();
      }
    }

    /** destroy_threadpool: raise the stop flag, then unlink and destroy every remaining task without
        running it. */
    method DestroyThreadpool()
      modifies this
      ensures stopFlag && tasks == []
      ensures log == old(log) + DiscardEffects(old(tasks))
    {
      stopFlag := true;
      ghost var done: seq<Task> := [];
      while tasks != []
        invariant stopFlag
        invariant old(tasks) == done + tasks
        invariant log == old(log) + DiscardEffects(done)
        decreases |tasks|
      {
        var t := tasks[0];
        DiscardStep(done, tasks);
        tasks := tasks[1..];
        log := log + DestroyTask(t);
        done := done + [t];
      }
      assert done == old(tasks);
    }
  }

  // ---------------------------------------------------------------------------
  // Clients

  /** FIFO law: enqueueing ts on a fresh pool and dequeueing |ts| times gives ts back in order. */
  method EnqueueThenDequeue(ts: seq<Task>) returns (out: seq<Task>)
    ensures out == ts
  {
    var tp := new ThreadPool(1);
    for i := 0 to |ts|
      invariant tp.tasks == ts[..i]
    {
      tp.Enqueue(ts[i]);
      assert ts[..i + 1] == ts[..i] + [ts[i]];
    }
    out := [];
    for i := 0 to |ts|
      invariant tp.tasks == ts[i..]
      invariant out == ts[..i]
    {
      var t := tp.Dequeue();
      out := out + [t.value];
    }
  }

  /** The pool's whole life as the program drives it: create, submit ts, wait for completion, tear
      down. With at least one worker every task runs exactly once, in submission order; with none,
      every task is discarded unrun. Either way each task is released exactly once and each set
      destructor called exactly once. */
  method PoolLifecycle(numThreads: nat, ts: seq<Task>) returns (ghost effects: seq<Effect>)
    ensures TasksOf(effects, ActionCalled) == (if numThreads > 0 then ts else [])
    ensures TasksOf(effects, ArgumentDestroyed) == WithDestructor(ts)
    ensures TasksOf(effects, TaskFreed) == ts
  {
    var tp := new ThreadPool(numThreads);
    for i := 0 to |ts|
      invariant tp.tasks == ts[..i] && tp.log == [] && tp.numThreads == numThreads
    {
      tp.Enqueue(ts[i]);
      assert ts[..i + 1] == ts[..i] + [ts[i]];
    }
    assert ts[..|ts|] == ts;
    tp.WaitForCompletion();
    ghost var drained := tp.log;
    ghost var left := tp.tasks;
    tp.DestroyThreadpool();
    effects := tp.log;
    if numThreads > 0 {
      assert left == [] && effects == DrainEffects(ts) + [];
      assert effects == DrainEffects(ts);
      DrainRunsEachTaskOnce(ts);
      assert TasksOf(effects, ActionCalled) == ts;
    } else {
      assert drained == [] && effects == DiscardEffects(ts);
      DiscardRunsNoTask(ts);
    }
  }
}
