/**
 * The in-process task registry shared by the handlers: for each telegram id
 * the list of loop tasks started for it, and for a tracker id the task
 * running that tracker's loop. A task is an opaque id. Starting a task
 * records the loop arguments it runs with; cancelling it adds it to the set
 * of cancelled tasks, and a task is done exactly when it has been cancelled
 * (the loop itself never ends).
 */
module Registry {
  import opened TrackFlightLoop

  type TaskId = nat

  /** `user_tasks.get(telegramId)`, with a missing entry read as no tasks. */
  function TasksOf(userTasks: map<int, seq<TaskId>>, telegramId: int): seq<TaskId> {
    if telegramId in userTasks then userTasks[telegramId] else []
  }

  /** `user_tasks.setdefault(telegramId, []).append(t)`. */
  function AddTask(userTasks: map<int, seq<TaskId>>, telegramId: int, t: TaskId): map<int, seq<TaskId>> {
    userTasks[telegramId := TasksOf(userTasks, telegramId) + [t]]
  }

  class TaskRegistry {
    var userTasks: map<int, seq<TaskId>>
    var trackerTasks: map<int, TaskId>
    var cancelled: set<TaskId>
    var loops: map<TaskId, LoopArgs>
    var nextTask: TaskId

    /** Every registered or cancelled task is one that was started. */
    ghost predicate Valid()
      reads this
    {
      && (forall t | t in loops :: t < nextTask)
      && (forall tg, i | tg in userTasks && 0 <= i < |userTasks[tg]| :: userTasks[tg][i] in loops)
      && (forall id | id in trackerTasks :: trackerTasks[id] in loops)
      && (forall t | t in cancelled :: t in loops)
    }

    constructor ()
      ensures Valid()
      ensures userTasks == map[] && trackerTasks == map[] && cancelled == {} && loops == map[]
    {
      userTasks := map[];
      trackerTasks := map[];
      cancelled := {};
      loops := map[];
      nextTask := 0;
    }

    predicate Done(t: TaskId)
      reads this
    {
      t in cancelled
    }

    /** `asyncio.create_task(track_flight(...))`: a new task running a loop with these arguments. */
    method Spawn(args: LoopArgs) returns (t: TaskId)
      requires Valid()
      modifies this
      ensures Valid()
      ensures t == old(nextTask) && t !in old(loops)
      ensures loops == old(loops)[t := args] && nextTask == old(nextTask) + 1
      ensures userTasks == old(userTasks) && trackerTasks == old(trackerTasks) && cancelled == old(cancelled)
    {
      t := nextTask;
      loops := loops[t := args];
      nextTask := nextTask + 1;
    }

    /** `task.cancel()` followed by waiting for it to finish. */
    method Cancel(t: TaskId)
      requires Valid() && t in loops
      modifies this
      ensures Valid()
      ensures cancelled == old(cancelled) + {t}
      ensures userTasks == old(userTasks) && trackerTasks == old(trackerTasks)
      ensures loops == old(loops) && nextTask == old(nextTask)
    {
      cancelled := cancelled + {t};
    }
  }
}
