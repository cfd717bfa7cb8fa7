# Parallel graph sum: thread pool and traversal, sequential model

This project models the two sequential cores of a small C thread-pool program, with the threading taken out.

- `parallel.dfy`, module `Parallel`, models `src/parallel.c`. This is the depth-first traversal `process_node` and its task wrapper `graph_task`. The class `GraphTraversal` holds the graph's nodes, the visitation array (`array<State>` with `NotVisited`, `Processing` and `Done`) and the global accumulator `sum`. `ProcessNode` claims a `NotVisited` node by setting it to `Processing`. It then recurses into each neighbour in order, and finally marks the node `Done` and adds its `info` to `sum`. Its termination measure is the set of `NotVisited` entries. This set strictly shrinks before every recursive call, so the walk ends on cyclic graphs.
- `os_threadpool.dfy`, module `OsThreadpool`, models `src/os_threadpool.c`. A task is a value: action, argument and an optional argument destructor. The class `ThreadPool` has three fields from `os_threadpool_t`: the FIFO task list as a `seq<Task>`, the stop flag and the worker count. A fourth, ghost field is a log that the C program does not store. It records every call the pool makes for a task: running its action, calling its destructor, releasing it. The C functions become these members: `enqueue_task` is `Enqueue`, `dequeue_task` is `Dequeue`, the worker loop is `ThreadLoop`, `wait_for_completion` is `WaitForCompletion`, `create_threadpool` is the constructor and `destroy_threadpool` is `DestroyThreadpool`. All of them are in-place updates of the class's fields.

The main results are these:

- From an all-`NotVisited` array, `GraphTask(root)` adds to `sum` the payload of exactly the nodes reachable from `root`. Each such node is counted once. Those nodes end `Done`, every other node stays `NotVisited`, and no node is left `Processing`.
- Every call moves each entry of the array from `NotVisited` to `Done` or leaves it alone; no entry ever moves backwards.
- Once the pool is stopping, the worker loop runs every queued task exactly once, in FIFO order, and destroys each one. The teardown loop destroys every remaining task without running it.

The pool's sequential model has two parts. The blocking wait in `dequeue_task` (wait while the queue is empty and the pool is not stopping) becomes the precondition `tasks != [] || stopFlag`. The join of `wait_for_completion` runs each worker's loop to completion, one worker at a time. With that schedule the first worker drains the queue and the others find it empty at once. With zero workers nothing is drained, exactly as the C loop over `num_threads` does nothing.

## Model

| member | source | states |
|---|---|---|
| `Parallel.GraphTraversal.ProcessNode` | src/parallel.c:25-45 | A node that is not `NOT_VISITED` leaves `visited` and `sum` unchanged. Otherwise the node ends `DONE`. Every entry either keeps its state or goes from `NOT_VISITED` to `DONE`, so nothing regresses and the set of `PROCESSING` nodes is preserved. `sum` grows by the payload of exactly the nodes that went `NOT_VISITED` to `DONE`, each counted once. Every such node is reachable from the argument along a path of nodes that were all `NOT_VISITED` on entry. None of them is left with a `NOT_VISITED` neighbour. The walk terminates on cyclic graphs. |
| `Parallel.GraphTraversal.GraphTask` | src/parallel.c:47-53 | Runs the traversal from the given node. From an all-`NOT_VISITED` array, `sum` grows by the payloads of exactly the nodes reachable from that node. A node is `DONE` afterwards iff it is reachable, and no node is left `PROCESSING`. |
| `Parallel.GraphTraversal.constructor` | src/parallel.c:16-17 | The starting state: the given graph, every node `NOT_VISITED`, and `sum` at zero. |
| `Parallel.SettledIsReachable` | src/parallel.c:29-40 | Take a run that started all `NOT_VISITED`. Suppose it completed the root, reached only nodes reachable from it, and left no completed node with an unvisited neighbour. Then the completed nodes are exactly the nodes reachable from the root. |
| `Parallel.ReachableWithinClosed` | src/parallel.c:35-36 | A set that contains the root and every neighbour of its members contains every node reachable from the root. This shows which nodes the walk cannot reach. |
| `Parallel.ReachableThroughNeighbour` | src/parallel.c:35-36 | A node in a set reaches, inside that set, whatever any one of its neighbours reaches inside it. |
| `Parallel.ReachableSelf` | src/parallel.c:29-30 | A node is reachable from itself through any set that contains it, so the claimed node is among the reachable ones. |
| `Parallel.ReachableViaWiden` | src/parallel.c:29-36 | A path that stays inside a set of nodes stays inside every larger set, and it is a path of the graph. A neighbour's call runs on a state with fewer `NOT_VISITED` nodes, so its paths also lie inside the caller's entry set. |
| `Parallel.SumInfoInsert` | src/parallel.c:40 | Adding a node to the counted set adds its `info` once if it was not already counted, and nothing if it was. |
| `Parallel.SumInfoUnion` | src/parallel.c:35-40 | The payload sum over two disjoint sets of nodes is the sum of the two payload sums. This is how the contributions of the neighbour calls combine. |
| `Parallel.SumInfoEmpty` | src/parallel.c:42-44 | An empty set of completed nodes contributes nothing to `sum`. |
| `Parallel.SettledCompose` | src/parallel.c:35-39 | Consecutive forward-only state changes compose into one. The nodes completed overall are the disjoint union of the nodes completed in each step. |
| `Parallel.DiamondReachable` | src/parallel.c:35-36 | In the diamond 0→{1,2}, 1→{3}, 2→{3}, every node is reachable from 0. |
| `Parallel.DiamondSum` | src/parallel.c:25-45 | On the diamond 0→{1,2}, 1→{3}, 2→{3} with payloads 1, 2, 3 and 4, the traversal from node 0's id gives 10. The root is taken from `nodes[0].id`, as `main` does. So node 3 is counted once despite its two incoming paths. |
| `Parallel.CycleReachable` | src/parallel.c:35-36 | In the graph 0→1→2→0 plus a node 3→0, the nodes reachable from 0 are exactly 0, 1 and 2. |
| `Parallel.CycleSum` | src/parallel.c:29-36 | On the cycle 0→1→2→0 with payloads 1, 2 and 3, plus a node 3→0 with payload 100, the walk from 0 terminates with sum 6. Node 3 stays `NOT_VISITED`. |
| `OsThreadpool.CreateTask` | src/os_threadpool.c:12-21 | The task holds the action, the argument and the destructor exactly as given. |
| `OsThreadpool.DestroyTaskEffects` | src/os_threadpool.c:23-28 | This lemma is about the function `DestroyTask`, which models `destroy_task`. Destroying a task calls its destructor on its argument exactly once when the destructor is non-NULL, and never when it is NULL. It never runs the action. It releases the task exactly once, as its last step. |
| `OsThreadpool.RunTaskEffects` | src/os_threadpool.c:73-74 | This lemma is about the function `RunTask`, which models the two lines. One worker turn calls the task's action exactly once, before anything else. It then destroys the task exactly as `destroy_task` does. |
| `OsThreadpool.DrainRunsEachTaskOnce` | src/os_threadpool.c:66-75 | Draining a queue runs each queued task's action exactly once, in queue order. It calls each non-NULL destructor exactly once and releases every task exactly once. |
| `OsThreadpool.DiscardRunsNoTask` | src/os_threadpool.c:119-122 | The teardown loop runs no action. It calls each non-NULL destructor exactly once and releases every remaining task exactly once. |
| `OsThreadpool.ThreadPool.constructor` | src/os_threadpool.c:91-108 | The new pool has an empty queue, a cleared stop flag, the given worker count and an empty log. |
| `OsThreadpool.ThreadPool.Enqueue` | src/os_threadpool.c:30-39 | The queue becomes the old queue with the task appended at the tail. The stop flag and the log are unchanged. |
| `OsThreadpool.ThreadPool.Dequeue` | src/os_threadpool.c:41-60 | On a non-empty queue it returns the head and leaves the rest of the queue. On an empty, stopping queue it returns none and changes nothing. The stop flag is never touched. |
| `OsThreadpool.ThreadPool.ThreadLoop` | src/os_threadpool.c:62-78 | Once stopping, the loop runs and destroys every queued task in FIFO order, then exits with the queue empty. It adds exactly the drain's effects to the log. |
| `OsThreadpool.ThreadPool.WaitForCompletion` | src/os_threadpool.c:80-89 | Sets the stop flag. With at least one worker, the queue ends empty and every task it held was run and destroyed in order. With no worker, the queue and the log are untouched. |
| `OsThreadpool.ThreadPool.DestroyThreadpool` | src/os_threadpool.c:110-126 | Sets the stop flag and empties the queue. Every remaining task is destroyed in order and none is run. |
| `OsThreadpool.EnqueueThenDequeue` | src/os_threadpool.c:30-60 | FIFO law: enqueueing t1..tn on a fresh pool and then dequeueing n times yields t1..tn in order. |
| `OsThreadpool.PoolLifecycle` | src/parallel.c:69-76 | The program's pool lifecycle is: create the pool, submit the tasks, wait for completion, tear down. With at least one worker, every task runs exactly once, in submission order. With none, no task runs. Either way, every task is released exactly once and every non-NULL destructor is called exactly once. |

The stop flag is monotone because of the contracts above. `create_threadpool` clears it. `Enqueue` and `Dequeue` leave it as it was. `WaitForCompletion` and `DestroyThreadpool` only ever set it.

## Left out

- Threads, mutexes and condition variables are out: `pthread_create`, `pthread_join`, lock and unlock, and `signal` versus `broadcast`. This covers `graph_mutex` in the traversal and the pool's mutex and condition. The model is one sequential schedule, and concurrent interleavings are not covered.
- `OsThreadpool.ThreadPool.Dequeue`: the blocking wait is replaced by the precondition that the queue is non-empty or the pool is stopping. The model does not capture waiting or being woken.
- `OsThreadpool.ThreadPool.ThreadLoop`: only a worker running after the stop flag is set is modelled. A worker that consumes tasks before the stop flag is set would block once the queue empties, and a sequential model cannot express that.
- `OsThreadpool.ThreadPool.WaitForCompletion`: joining a worker is modelled as running that worker's loop to completion. This stands for the schedule in which the workers run only after submission ends.
- `OsThreadpool.PoolLifecycle`: the effects it returns are the ghost log, so the result is proof bookkeeping rather than program output.
- Running a task's action is recorded in the log as an opaque call. The action's own effects are not modelled. `graph_task`'s effect is modelled separately, by `Parallel.GraphTraversal.GraphTask`.
- `malloc` and `free` are out: allocation failure, pointer lifetimes and releasing the pool's storage. Releasing a task is recorded as an effect in the log.
- The intrusive list macros are not part of this model. They come from `utils.h` and `list.h`: `list_add_tail`, `list_del`, `list_for_each_safe`. The list is a `seq<Task>`.
- `main` is I/O and is left out: the argument check, `fopen`, `create_graph_from_file`, `printf` and the exit codes. The graph loader is not part of this model. The traversal's constructor states what the model assumes `create_graph_from_file` leaves: every node `NOT_VISITED`, with neighbour indices in range.
- `free(arg)` in `graph_task` is not modelled. `main` creates the task with a NULL destructor and a pointer into node 0 (`&graph->nodes[0]->id`), so `graph_task` frees an argument it does not own. Whether that address begins an allocation depends on the node layout and the loader, which are not part of this model.
- `graph_task` also reads the node id through a cast to `graph_task_arg_t`. `GraphTask` takes the node index directly.
- The C `int` overflow of `sum` is out: `sum` and payloads are mathematical integers.
- `os_graph.h` is not part of this model. It defines the node layout and the `NOT_VISITED`, `PROCESSING` and `DONE` states, which are modelled from their use in `src/parallel.c`.
