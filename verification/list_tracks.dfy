/**
 * "My trackers": one stop button per active tracker of the user, and the
 * callback that stops the single tracker a button names. The button title's
 * date and price come from formatting helpers that are not part of this
 * model; they are passed in as functions.
 */
module ListTracks {
  import opened Wrappers
  import opened PyStr
  import opened AirportCodes
  import opened Store
  import opened Registry

  const CallbackPrefix: string := "stop_tr_"
  const Currency: string := "RUB"

  /** `f"stop_tr_{tracker_id}"`. */
  function CallbackData(trackerId: int): string {
    CallbackPrefix + IntToString(trackerId)
  }

  /** `int(data.replace("stop_tr_", "", 1))`, or none where `int` raises. */
  function ParseCallback(data: string): Option<int> {
    ParseInt(ReplaceFirst(data, CallbackPrefix, ""))
  }

  /** The data of the button for tracker `id` reads back as `id`. */
  lemma CallbackRoundTrip(trackerId: int)
    ensures ParseCallback(CallbackData(trackerId)) == Some(trackerId)
  {
    var data := CallbackData(trackerId);
    assert data[..|CallbackPrefix|] == CallbackPrefix;
    ReplaceFirstPrefix(data, CallbackPrefix);
    assert data[|CallbackPrefix|..] == IntToString(trackerId);
    ParseIntOfIntToString(trackerId);
  }

  /**
   * Data the handler is routed reads as whatever follows the prefix: it is
   * refused exactly where `int` refuses that rest.
   */
  lemma PrefixedCallback(rest: string)
    ensures ParseCallback(CallbackPrefix + rest) == ParseInt(rest)
  {
    var data := CallbackPrefix + rest;
    assert data[..|CallbackPrefix|] == CallbackPrefix;
    ReplaceFirstPrefix(data, CallbackPrefix);
    assert data[|CallbackPrefix|..] == rest;
  }

  datatype Button = Button(title: string, callbackData: string)

  datatype ListReply = NotRegistered | NoActiveTrackers | Keyboard(buttons: seq<Button>)

  /** The button title: route by airport names, the formatted date, the formatted ceiling and the currency. */
  function Title(table: seq<Entry>, row: UserTracker, formatDate: string -> string, formatPrice: int -> string): string
    requires |row.dates| == 1
  {
    GetAirportName(table, row.origin) + " → " + GetAirportName(table, row.destination) + " | "
    + formatDate(row.dates[0]) + " | ≤ " + formatPrice(row.priceLimit) + " " + Currency
  }

  predicate OneDateEach(rows: seq<UserTracker>) {
    forall i | 0 <= i < |rows| :: |rows[i].dates| == 1
  }

  /** One button per row, in row order. */
  function Buttons(table: seq<Entry>, rows: seq<UserTracker>, formatDate: string -> string, formatPrice: int -> string): (bs: seq<Button>)
    requires OneDateEach(rows)
    ensures |bs| == |rows|
  {
    seq(|rows|, i requires 0 <= i < |rows| =>
      Button(Title(table, rows[i], formatDate, formatPrice), CallbackData(rows[i].trackerId)))
  }

  lemma ButtonsAppend(table: seq<Entry>, rows: seq<UserTracker>, i: int, formatDate: string -> string, formatPrice: int -> string)
    requires OneDateEach(rows) && 0 <= i < |rows|
    ensures OneDateEach(rows[..i]) && OneDateEach(rows[..i + 1])
    ensures Buttons(table, rows[..i + 1], formatDate, formatPrice)
         == Buttons(table, rows[..i], formatDate, formatPrice)
            + [Button(Title(table, rows[i], formatDate, formatPrice), CallbackData(rows[i].trackerId))]
  {
    var before, after := rows[..i], rows[..i + 1];
    assert OneDateEach(before) by {
      forall j | 0 <= j < |before| ensures |before[j].dates| == 1 { assert before[j] == rows[j]; }
    }
    assert OneDateEach(after) by {
      forall j | 0 <= j < |after| ensures |after[j].dates| == 1 { assert after[j] == rows[j]; }
    }
    var extended := Buttons(table, after, formatDate, formatPrice);
    var appended := Buttons(table, before, formatDate, formatPrice)
      + [Button(Title(table, rows[i], formatDate, formatPrice), CallbackData(rows[i].trackerId))];
    forall j | 0 <= j < |extended| ensures extended[j] == appended[j] {
      assert after[j] == rows[j];
      if j < i { assert before[j] == rows[j]; }
    }
  }

  /** Every button stops the tracker of its row, and no two buttons stop the same tracker. */
  lemma ButtonsNameTheirTrackers(table: seq<Entry>, rows: seq<UserTracker>, formatDate: string -> string, formatPrice: int -> string)
    requires OneDateEach(rows)
    requires forall i, j | 0 <= i < j < |rows| :: rows[i].trackerId < rows[j].trackerId
    ensures var bs := Buttons(table, rows, formatDate, formatPrice);
      (forall i | 0 <= i < |bs| :: ParseCallback(bs[i].callbackData) == Some(rows[i].trackerId))
      && (forall i, j | 0 <= i < j < |bs| :: bs[i].callbackData != bs[j].callbackData)
  {
    var bs := Buttons(table, rows, formatDate, formatPrice);
    forall i | 0 <= i < |bs| ensures ParseCallback(bs[i].callbackData) == Some(rows[i].trackerId) {
      CallbackRoundTrip(rows[i].trackerId);
    }
    forall i, j | 0 <= i < j < |bs| ensures bs[i].callbackData != bs[j].callbackData {
      CallbackRoundTrip(rows[i].trackerId);
      CallbackRoundTrip(rows[j].trackerId);
    }
  }

  /** `list_user_trackers` for the user with this telegram id. */
  method ListUserTrackers(db: Database, telegramId: int, formatDate: string -> string, formatPrice: int -> string)
    returns (reply: ListReply)
    requires db.Valid()
    ensures reply == NotRegistered <==> forall id | id in db.users :: db.users[id].telegramId != telegramId
    ensures reply != NotRegistered ==>
      exists id | id in db.users && db.users[id].telegramId == telegramId ::
        var rows := UserRows(db.trackers, id, db.nextTrackerId);
        OneDateEach(rows)
        && (reply == NoActiveTrackers <==> rows == [])
        && (reply.Keyboard? ==> reply.buttons == Buttons(AirportNames, rows, formatDate, formatPrice))
  {
    var user := db.FindUser(telegramId);
    if user.None? {
      return NotRegistered;
    }
    var userId := user.value;
    var trackers := db.GetUserTrackers(userId);
    UserRowsMeaning(db.trackers, userId, db.nextTrackerId);
    if trackers == [] {
      return NoActiveTrackers;
    }
    var kbRows := KeyboardRows(AirportNames, trackers, formatDate, formatPrice);
    return Keyboard(kbRows);
  }

  /** The loop of `list_user_trackers` that builds one button per tracker. */
  method KeyboardRows(table: seq<Entry>, trackers: seq<UserTracker>, formatDate: string -> string, formatPrice: int -> string)
    returns (kbRows: seq<Button>)
    requires OneDateEach(trackers)
    ensures kbRows == Buttons(table, trackers, formatDate, formatPrice)
  {
    kbRows := [];
    for i := 0 to |trackers|
      invariant kbRows == Buttons(table, trackers[..i], formatDate, formatPrice)
    {
      var t := trackers[i];
      var title := Title(table, t, formatDate, formatPrice);
      ButtonsAppend(table, trackers, i, formatDate, formatPrice);
      kbRows := kbRows + [Button(title, CallbackData(t.trackerId))];
    }
    assert trackers[..|trackers|] == trackers;
  }

  /**
   * The handler's outcome: the id was refused, the stop was confirmed, or the
   * handler ended without an answer. The last happens when it cancels a running
   * task: awaiting that task raises the cancellation, which `except Exception`
   * does not catch, so the confirmation and the messages after it are never sent.
   */
  datatype CallbackReply = InvalidId | TrackerStopped | Unanswered

  /** The registry holds a task for this tracker that is still running. */
  predicate RunsTask(trackerTasks: map<int, TaskId>, cancelled: set<TaskId>, trackerId: int) {
    trackerId in trackerTasks && trackerTasks[trackerId] !in cancelled
  }

  /**
   * `stop_selected_tracker` for callback data starting with the prefix (the
   * handler is only routed such data). `storeFails` says the store raised
   * while deactivating; that is swallowed and the task is still stopped.
   */
  method StopSelectedTracker(db: Database, reg: TaskRegistry, data: string, storeFails: bool)
    returns (reply: CallbackReply)
    requires StartsWith(data, CallbackPrefix)
    requires db.Valid() && reg.Valid()
    modifies db, reg
    ensures db.Valid() && reg.Valid()
    ensures db.users == old(db.users) && db.nextUserId == old(db.nextUserId) && db.nextTrackerId == old(db.nextTrackerId)
    ensures reg.userTasks == old(reg.userTasks) && reg.loops == old(reg.loops) && reg.nextTask == old(reg.nextTask)
    ensures ParseCallback(data).None? ==>
      reply == InvalidId && db.trackers == old(db.trackers)
      && reg.trackerTasks == old(reg.trackerTasks) && reg.cancelled == old(reg.cancelled)
    ensures ParseCallback(data).Some? ==>
      var id := ParseCallback(data).value;
      reply == (if RunsTask(old(reg.trackerTasks), old(reg.cancelled), id) then Unanswered else TrackerStopped)
      && db.trackers == (if storeFails then old(db.trackers) else Deactivated(old(db.trackers), id))
      && reg.trackerTasks == old(reg.trackerTasks) - {id}
      && reg.cancelled == old(reg.cancelled) + (if id in old(reg.trackerTasks) then {old(reg.trackerTasks)[id]} else {})
  {
    var parsed := ParseCallback(data);
    if parsed.None? {
      return InvalidId;
    }
    var answered := StopTracker(db, reg, parsed.value, storeFails);
    reply := if answered then TrackerStopped else Unanswered;
  }

  /**
   * The body of `stop_selected_tracker` once the tracker id is read; `answered`
   * says the handler goes on to confirm the stop.
   */
  method StopTracker(db: Database, reg: TaskRegistry, trackerId: int, storeFails: bool) returns (answered: bool)
    requires db.Valid() && reg.Valid()
    modifies db, reg
    ensures db.Valid() && reg.Valid()
    ensures db.users == old(db.users) && db.nextUserId == old(db.nextUserId) && db.nextTrackerId == old(db.nextTrackerId)
    ensures reg.userTasks == old(reg.userTasks) && reg.loops == old(reg.loops) && reg.nextTask == old(reg.nextTask)
    ensures db.trackers == (if storeFails then old(db.trackers) else Deactivated(old(db.trackers), trackerId))
    ensures reg.trackerTasks == old(reg.trackerTasks) - {trackerId}
    ensures reg.cancelled == old(reg.cancelled) + (if trackerId in old(reg.trackerTasks) then {old(reg.trackerTasks)[trackerId]} else {})
    ensures answered <==> !RunsTask(old(reg.trackerTasks), old(reg.cancelled), trackerId)
  {
    if !storeFails {
      db.DeactivateTracker(trackerId);
    }
    var task: Option<TaskId> := None;
    if trackerId in reg.trackerTasks {
      task := Some(reg.trackerTasks[trackerId]);
    }
    reg.trackerTasks := reg.trackerTasks - {trackerId};
    answered := true;
    if task.Some? && !reg.Done(task.value) {
      reg.Cancel(task.value);
      // awaiting the cancelled task raises the cancellation out of the handler
      answered := false;
    }
  }
}
