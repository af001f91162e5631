/**
 * `restore_all_trackers`: at start-up, one loop task per active tracker in
 * the store, registered under its owner's telegram id and under its tracker
 * id. Restored loops start with no initial offer, so their first cycle
 * fetches, and they find their last-sent price in the store.
 */
module Restore {
  import opened Wrappers
  import opened Offers
  import opened Store
  import opened TrackFlightLoop
  import opened Registry

  /** The arguments the loop for a stored tracker is started with. */
  function LoopFor(row: ActiveTracker): LoopArgs {
    LoopArgs(row.telegramId, row.origin, row.destination, row.date, row.priceLimit, Some(row.trackerId), NoOffer)
  }

  /** `user_tasks` after restoring `rows`, the i-th row getting task `base + i`. */
  function RestoredUserTasks(userTasks: map<int, seq<TaskId>>, rows: seq<ActiveTracker>, base: nat): map<int, seq<TaskId>> {
    if rows == [] then userTasks
    else
      var n := |rows| - 1;
      var before := RestoredUserTasks(userTasks, rows[..n], base);
      AddTask(before, rows[n].telegramId, base + n)
  }

  /** `tracker_tasks` after restoring `rows`. */
  function RestoredTrackerTasks(trackerTasks: map<int, TaskId>, rows: seq<ActiveTracker>, base: nat): map<int, TaskId> {
    if rows == [] then trackerTasks
    else
      var n := |rows| - 1;
      RestoredTrackerTasks(trackerTasks, rows[..n], base)[rows[n].trackerId := base + n]
  }

  /** The loops started for `rows`. */
  function RestoredLoops(loops: map<TaskId, LoopArgs>, rows: seq<ActiveTracker>, base: nat): map<TaskId, LoopArgs> {
    if rows == [] then loops
    else
      var n := |rows| - 1;
      RestoredLoops(loops, rows[..n], base)[base + n := LoopFor(rows[n])]
  }

  /** The tasks of the rows owned by `tg`, in row order. */
  function TasksFor(rows: seq<ActiveTracker>, tg: int, base: nat): seq<TaskId> {
    if rows == [] then []
    else
      var n := |rows| - 1;
      TasksFor(rows[..n], tg, base) + (if rows[n].telegramId == tg then [base + n] else [])
  }

  predicate Owns(rows: seq<ActiveTracker>, tg: int) {
    exists i | 0 <= i < |rows| :: rows[i].telegramId == tg
  }

  /**
   * Each owner's list is their old list (or a new empty one) extended by the
   * tasks of their rows, in row order; nobody else's list changes.
   */
  lemma {:induction false} RestoredUserTasksAre(userTasks: map<int, seq<TaskId>>, rows: seq<ActiveTracker>, base: nat, tg: int)
    ensures tg in RestoredUserTasks(userTasks, rows, base) <==> tg in userTasks || Owns(rows, tg)
    ensures TasksOf(RestoredUserTasks(userTasks, rows, base), tg) == TasksOf(userTasks, tg) + TasksFor(rows, tg, base)
  {
    if rows != [] {
      var n := |rows| - 1;
      var prev := RestoredUserTasks(userTasks, rows[..n], base);
      var now := RestoredUserTasks(userTasks, rows, base);
      RestoredUserTasksAre(userTasks, rows[..n], base, tg);
      assert now == AddTask(prev, rows[n].telegramId, base + n);
      assert tg in now <==> tg in userTasks || Owns(rows, tg) by {
        OwnsSnoc(rows, tg);
      }
      assert TasksOf(now, tg) == TasksOf(userTasks, tg) + TasksFor(rows, tg, base) by {
        assert TasksFor(rows, tg, base) == TasksFor(rows[..n], tg, base) + (if rows[n].telegramId == tg then [base + n] else []);
      }
    }
  }

  lemma OwnsSnoc(rows: seq<ActiveTracker>, tg: int)
    requires rows != []
    ensures Owns(rows, tg) <==> Owns(rows[..|rows| - 1], tg) || rows[|rows| - 1].telegramId == tg
  {
    var n := |rows| - 1;
    if Owns(rows, tg) {
      var i :| 0 <= i < |rows| && rows[i].telegramId == tg;
      if i < n { assert rows[..n][i] == rows[i]; }
    }
    if Owns(rows[..n], tg) {
      var i :| 0 <= i < n && rows[..n][i].telegramId == tg;
      assert rows[i] == rows[..n][i];
    }
  }

  /** The tasks of one owner are exactly those of their rows, one per row, in row order. */
  lemma {:induction false} TasksForAre(rows: seq<ActiveTracker>, tg: int, base: nat)
    ensures forall k | 0 <= k < |TasksFor(rows, tg, base)| ::
      var t := TasksFor(rows, tg, base)[k];
      base <= t < base + |rows| && rows[t - base].telegramId == tg
    ensures forall k, l | 0 <= k < l < |TasksFor(rows, tg, base)| ::
      TasksFor(rows, tg, base)[k] < TasksFor(rows, tg, base)[l]
    ensures forall i | 0 <= i < |rows| && rows[i].telegramId == tg :: base + i in TasksFor(rows, tg, base)
  {
    if rows != [] {
      var n := |rows| - 1;
      TasksForAre(rows[..n], tg, base);
      var prev := TasksFor(rows[..n], tg, base);
      forall k | 0 <= k < |prev| ensures rows[prev[k] - base] == rows[..n][prev[k] - base] { }
    }
  }

  predicate DistinctTrackerIds(rows: seq<ActiveTracker>) {
    forall i, j | 0 <= i < j < |rows| :: rows[i].trackerId != rows[j].trackerId
  }

  lemma DistinctPrefix(rows: seq<ActiveTracker>, n: nat)
    requires DistinctTrackerIds(rows) && n <= |rows|
    ensures DistinctTrackerIds(rows[..n])
  {
    forall i, j | 0 <= i < j < n ensures rows[..n][i].trackerId != rows[..n][j].trackerId {
      assert rows[..n][i] == rows[i] && rows[..n][j] == rows[j];
    }
  }

  /** Every restored tracker id maps to the task started for its row. */
  lemma {:induction false} RestoredTrackerTasksAre(trackerTasks: map<int, TaskId>, rows: seq<ActiveTracker>, base: nat)
    requires DistinctTrackerIds(rows)
    ensures forall i | 0 <= i < |rows| ::
      rows[i].trackerId in RestoredTrackerTasks(trackerTasks, rows, base)
      && RestoredTrackerTasks(trackerTasks, rows, base)[rows[i].trackerId] == base + i
  {
    if rows != [] {
      var n := |rows| - 1;
      DistinctPrefix(rows, n);
      RestoredTrackerTasksAre(trackerTasks, rows[..n], base);
      var prev := RestoredTrackerTasks(trackerTasks, rows[..n], base);
      forall i | 0 <= i < n
        ensures rows[i].trackerId in prev && prev[rows[i].trackerId] == base + i
      {
        assert rows[..n][i] == rows[i];
      }
    }
  }

  /** The entries of trackers that were not restored are kept. */
  lemma {:induction false} RestoredTrackerTasksKeep(trackerTasks: map<int, TaskId>, rows: seq<ActiveTracker>, base: nat, id: int)
    requires id in trackerTasks && forall i | 0 <= i < |rows| :: rows[i].trackerId != id
    ensures id in RestoredTrackerTasks(trackerTasks, rows, base)
    ensures RestoredTrackerTasks(trackerTasks, rows, base)[id] == trackerTasks[id]
  {
    if rows != [] {
      var n := |rows| - 1;
      forall i | 0 <= i < n ensures rows[..n][i].trackerId != id {
        assert rows[..n][i] == rows[i];
      }
      RestoredTrackerTasksKeep(trackerTasks, rows[..n], base, id);
    }
  }

  /** Nothing but the restored trackers gains an entry. */
  lemma {:induction false} RestoredTrackerTasksOnly(trackerTasks: map<int, TaskId>, rows: seq<ActiveTracker>, base: nat, id: int)
    requires id in RestoredTrackerTasks(trackerTasks, rows, base)
    ensures id in trackerTasks || exists i | 0 <= i < |rows| :: rows[i].trackerId == id
  {
    if rows != [] {
      var n := |rows| - 1;
      if id != rows[n].trackerId {
        RestoredTrackerTasksOnly(trackerTasks, rows[..n], base, id);
        if id !in trackerTasks {
          var i :| 0 <= i < n && rows[..n][i].trackerId == id;
          assert rows[i] == rows[..n][i];
        }
      }
    }
  }

  /** Task `base + i` runs the loop of row `i`. */
  predicate RunsRows(ls: map<TaskId, LoopArgs>, rows: seq<ActiveTracker>, base: nat) {
    forall t | base <= t < base + |rows| :: t in ls && ls[t] == LoopFor(rows[t - base])
  }

  /** Every restored loop runs its row's tracker with no initial offer. */
  lemma {:induction false} RestoredLoopsAre(loops: map<TaskId, LoopArgs>, rows: seq<ActiveTracker>, base: nat)
    ensures RunsRows(RestoredLoops(loops, rows, base), rows, base)
    ensures forall t | t in loops && t < base :: t in RestoredLoops(loops, rows, base) && RestoredLoops(loops, rows, base)[t] == loops[t]
  {
    if rows != [] {
      var n := |rows| - 1;
      RestoredLoopsAre(loops, rows[..n], base);
      var prev := RestoredLoops(loops, rows[..n], base);
      var now := RestoredLoops(loops, rows, base);
      assert now == prev[base + n := LoopFor(rows[n])];
      forall t | base <= t < base + |rows| ensures t in now && now[t] == LoopFor(rows[t - base]) {
        if t < base + n {
          assert rows[..n][t - base] == rows[t - base];
        }
      }
      assert RunsRows(now, rows, base);
      forall t | t in loops && t < base
        ensures t in prev && prev[t] == loops[t] && t != base + n
      {
      }
    }
  }

  /** A restored loop's first cycle works on a fresh fetch. */
  lemma RestoredLoopFetchesFirst(row: ActiveTracker, c: Cycle)
    ensures OfferAt(LoopFor(row).initial, c, 0) == c.fetched
  {
  }

  /** One iteration: start the row's loop and register it under its owner and its tracker id. */
  method RestoreOne(reg: TaskRegistry, tracker: ActiveTracker)
    requires reg.Valid()
    modifies reg
    ensures reg.Valid()
    ensures reg.nextTask == old(reg.nextTask) + 1
    ensures reg.userTasks == AddTask(old(reg.userTasks), tracker.telegramId, old(reg.nextTask))
    ensures reg.trackerTasks == old(reg.trackerTasks)[tracker.trackerId := old(reg.nextTask)]
    ensures reg.loops == old(reg.loops)[old(reg.nextTask) := LoopFor(tracker)]
    ensures reg.cancelled == old(reg.cancelled)
  {
    var telegramId := tracker.telegramId;
    if telegramId !in reg.userTasks {
      reg.userTasks := reg.userTasks[telegramId := []];
    }
    var task := reg.Spawn(LoopArgs(telegramId, tracker.origin, tracker.destination, tracker.date,
                                   tracker.priceLimit, Some(tracker.trackerId), NoOffer));
    reg.userTasks := reg.userTasks[telegramId := reg.userTasks[telegramId] + [task]];
    reg.trackerTasks := reg.trackerTasks[tracker.trackerId := task];
  }

  /** `restore_all_trackers`: read the active trackers from the store and restore each. */
  method RestoreAllTrackers(db: Database, reg: TaskRegistry) returns (ghost rows: seq<ActiveTracker>)
    requires db.Valid() && reg.Valid()
    modifies reg
    ensures reg.Valid()
    ensures rows == ActiveRows(db.users, db.trackers, db.nextTrackerId)
    ensures reg.userTasks == RestoredUserTasks(old(reg.userTasks), rows, old(reg.nextTask))
    ensures reg.trackerTasks == RestoredTrackerTasks(old(reg.trackerTasks), rows, old(reg.nextTask))
    ensures reg.loops == RestoredLoops(old(reg.loops), rows, old(reg.nextTask))
    ensures reg.nextTask == old(reg.nextTask) + |rows|
    ensures reg.cancelled == old(reg.cancelled)
  {
    var activeTrackers := db.GetActiveTrackers();
    rows := activeTrackers;
    RestoreRows(reg, activeTrackers);
  }

  /** The loop of `restore_all_trackers` over the rows it read. */
  method RestoreRows(reg: TaskRegistry, activeTrackers: seq<ActiveTracker>)
    requires reg.Valid()
    modifies reg
    ensures reg.Valid()
    ensures reg.userTasks == RestoredUserTasks(old(reg.userTasks), activeTrackers, old(reg.nextTask))
    ensures reg.trackerTasks == RestoredTrackerTasks(old(reg.trackerTasks), activeTrackers, old(reg.nextTask))
    ensures reg.loops == RestoredLoops(old(reg.loops), activeTrackers, old(reg.nextTask))
    ensures reg.nextTask == old(reg.nextTask) + |activeTrackers|
    ensures reg.cancelled == old(reg.cancelled)
  {
    ghost var base, u0, t0, l0 := reg.nextTask, reg.userTasks, reg.trackerTasks, reg.loops;
    for i := 0 to |activeTrackers|
      invariant reg.Valid()
      invariant reg.nextTask == base + i
      invariant reg.userTasks == RestoredUserTasks(u0, activeTrackers[..i], base)
      invariant reg.trackerTasks == RestoredTrackerTasks(t0, activeTrackers[..i], base)
      invariant reg.loops == RestoredLoops(l0, activeTrackers[..i], base)
      invariant reg.cancelled == old(reg.cancelled)
    {
      RestoredStep(u0, t0, l0, activeTrackers, i, base);
      RestoreOne(reg, activeTrackers[i]);
    }
    assert activeTrackers[..|activeTrackers|] == activeTrackers;
  }

  /** The specification functions on one more row. */
  lemma RestoredStep(u0: map<int, seq<TaskId>>, t0: map<int, TaskId>, l0: map<TaskId, LoopArgs>,
                     rows: seq<ActiveTracker>, i: nat, base: nat)
    requires i < |rows|
    ensures RestoredUserTasks(u0, rows[..i + 1], base)
         == AddTask(RestoredUserTasks(u0, rows[..i], base), rows[i].telegramId, base + i)
    ensures RestoredTrackerTasks(t0, rows[..i + 1], base)
         == RestoredTrackerTasks(t0, rows[..i], base)[rows[i].trackerId := base + i]
    ensures RestoredLoops(l0, rows[..i + 1], base)
         == RestoredLoops(l0, rows[..i], base)[base + i := LoopFor(rows[i])]
  {
    assert rows[..i + 1][..i] == rows[..i];
  }

  /** What a restore leaves in the registry, read off the specification functions. */
  lemma RestoreMeaning(userTasks: map<int, seq<TaskId>>, trackerTasks: map<int, TaskId>,
                       loops: map<TaskId, LoopArgs>, rows: seq<ActiveTracker>, base: nat, tg: int)
    requires DistinctTrackerIds(rows)
    ensures TasksOf(RestoredUserTasks(userTasks, rows, base), tg) == TasksOf(userTasks, tg) + TasksFor(rows, tg, base)
    ensures forall i | 0 <= i < |rows| ::
      var tt := RestoredTrackerTasks(trackerTasks, rows, base);
      rows[i].trackerId in tt && tt[rows[i].trackerId] == base + i
    ensures RunsRows(RestoredLoops(loops, rows, base), rows, base)
  {
    RestoredUserTasksAre(userTasks, rows, base, tg);
    RestoredTrackerTasksAre(trackerTasks, rows, base);
    RestoredLoopsAre(loops, rows, base);
  }

  /** The rows come from the store in ascending tracker id, so their ids are distinct. */
  lemma StoreRowsDistinct(db: Database)
    ensures DistinctTrackerIds(ActiveRows(db.users, db.trackers, db.nextTrackerId))
  {
    ActiveRowsMeaning(db.users, db.trackers, db.nextTrackerId);
  }
}
