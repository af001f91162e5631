/**
 * `/stop`: deactivate every tracker of the user in the store, cancel every
 * loop task registered for them, and forget those tasks in both registry
 * maps. The handler reads the registry under the chat id and the store under
 * the sender's id; in a private chat the two are the same number, and this
 * model uses one telegram id for both.
 */
module Stop {
  import opened Wrappers
  import opened Store
  import opened Registry

  datatype StopReply = NothingToStop | AllStopped

  /** The tracker-task entries that survive: those whose task is not among `tasks`. */
  function WithoutTasks(trackerTasks: map<int, TaskId>, tasks: seq<TaskId>): map<int, TaskId> {
    map id | id in trackerTasks && trackerTasks[id] !in tasks :: trackerTasks[id]
  }

  /** None of the dropped tasks stays registered for a tracker, and every other entry is kept. */
  lemma WithoutTasksMeaning(trackerTasks: map<int, TaskId>, tasks: seq<TaskId>, id: int)
    ensures id in WithoutTasks(trackerTasks, tasks) ==> WithoutTasks(trackerTasks, tasks)[id] !in tasks
    ensures id in trackerTasks && trackerTasks[id] !in tasks ==>
      id in WithoutTasks(trackerTasks, tasks) && WithoutTasks(trackerTasks, tasks)[id] == trackerTasks[id]
    ensures id in trackerTasks && trackerTasks[id] in tasks ==> id !in WithoutTasks(trackerTasks, tasks)
  {
  }

  /** `stop_command` for the user with this telegram id. */
  method StopCommand(db: Database, reg: TaskRegistry, telegramId: int) returns (reply: StopReply, ghost userId: int)
    requires db.Valid() && reg.Valid()
    modifies db, reg
    ensures db.Valid() && reg.Valid()
    // the store: the user exists afterwards, and all of their trackers are inactive
    ensures Registered(old(db.users), old(db.nextUserId), db.users, db.nextUserId, userId, telegramId, None)
    ensures db.trackers == AllDeactivated(old(db.trackers), userId)
    ensures db.nextTrackerId == old(db.nextTrackerId)
    // the registry
    ensures var tasks := TasksOf(old(reg.userTasks), telegramId);
      if tasks == [] then
        reply == NothingToStop
        && reg.userTasks == old(reg.userTasks) && reg.trackerTasks == old(reg.trackerTasks)
        && reg.cancelled == old(reg.cancelled)
      else
        reply == AllStopped
        && reg.cancelled == old(reg.cancelled) + set t | t in tasks
        && reg.userTasks == old(reg.userTasks) - {telegramId}
        && reg.trackerTasks == WithoutTasks(old(reg.trackerTasks), tasks)
    ensures reg.loops == old(reg.loops) && reg.nextTask == old(reg.nextTask)
  {
    var uid := db.AddUser(telegramId, None);
    userId := uid;
    db.DeactivateAllUserTrackers(uid);

    var tasks := TasksOf(reg.userTasks, telegramId);
    if tasks == [] {
      return NothingToStop, userId;
    }
    assert forall i | 0 <= i < |tasks| :: tasks[i] in reg.loops;

    for i := 0 to |tasks|
      modifies reg
      invariant reg.Valid()
      invariant reg.cancelled == old(reg.cancelled) + set t | t in tasks[..i]
      invariant reg.userTasks == old(reg.userTasks) && reg.trackerTasks == old(reg.trackerTasks)
      invariant reg.loops == old(reg.loops) && reg.nextTask == old(reg.nextTask)
    {
      assert tasks[..i + 1] == tasks[..i] + [tasks[i]];
      if !reg.Done(tasks[i]) {
        reg.Cancel(tasks[i]);
      }
    }
    assert tasks[..|tasks|] == tasks;

    reg.userTasks := reg.userTasks - {telegramId};

    var toDelete := set id | id in reg.trackerTasks && reg.trackerTasks[id] in tasks;
    ghost var before := reg.trackerTasks;
    ForgetTrackers(reg, toDelete);
    assert reg.trackerTasks.Keys == WithoutTasks(before, tasks).Keys;
    assert reg.trackerTasks == WithoutTasks(before, tasks);
    return AllStopped, userId;
  }

  /** `tracker_tasks.pop(tid, None)` for every id of `toDelete`. */
  method ForgetTrackers(reg: TaskRegistry, toDelete: set<int>)
    requires reg.Valid()
    modifies reg
    ensures reg.Valid()
    ensures reg.trackerTasks == map id | id in old(reg.trackerTasks) && id !in toDelete :: old(reg.trackerTasks)[id]
    ensures reg.userTasks == old(reg.userTasks) && reg.cancelled == old(reg.cancelled)
    ensures reg.loops == old(reg.loops) && reg.nextTask == old(reg.nextTask)
  {
    var remaining := toDelete;
    while remaining != {}
      invariant remaining <= toDelete
      invariant reg.trackerTasks.Keys == old(reg.trackerTasks).Keys - (toDelete - remaining)
      invariant forall id | id in reg.trackerTasks :: reg.trackerTasks[id] == old(reg.trackerTasks)[id]
      invariant reg.Valid()
      invariant reg.userTasks == old(reg.userTasks) && reg.cancelled == old(reg.cancelled)
      invariant reg.loops == old(reg.loops) && reg.nextTask == old(reg.nextTask)
      decreases remaining
    {
      HasElement(remaining);
      var tid :| tid in remaining;
      reg.trackerTasks := reg.trackerTasks - {tid};
      remaining := remaining - {tid};
    }
    ghost var kept := map id | id in old(reg.trackerTasks) && id !in toDelete :: old(reg.trackerTasks)[id];
    assert reg.trackerTasks.Keys == kept.Keys;
    assert forall id | id in kept :: reg.trackerTasks[id] == kept[id];
    assert reg.trackerTasks == kept;
  }

  /** A non-empty set has a member, so `:|` can pick one. */
  lemma HasElement(s: set<int>)
    requires s != {}
    ensures exists x :: x in s
  {
    if forall x :: x !in s {
      assert false;
    }
  }
}
