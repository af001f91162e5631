/**
 * The tracker store: a users table and a flight-trackers table, kept in
 * memory. Row ids are handed out as `AUTOINCREMENT` does, starting at 1 and
 * never reused, and a scan visits rows in ascending id order.
 */
module Store {
  import opened Wrappers

  datatype User = User(telegramId: int, username: Option<string>)

  datatype Tracker = Tracker(
    userId: int,
    origin: string,
    destination: string,
    date: string,
    priceLimit: int,
    active: bool,
    lastSent: Option<int>)

  /** A row of `get_active_trackers`: the tracker joined with its owner's telegram id. */
  datatype ActiveTracker = ActiveTracker(
    trackerId: int,
    telegramId: int,
    origin: string,
    destination: string,
    date: string,
    priceLimit: int)

  /** A row of `get_user_trackers`, whose date comes wrapped in a one-element list. */
  datatype UserTracker = UserTracker(
    trackerId: int,
    origin: string,
    destination: string,
    dates: seq<string>,
    priceLimit: int)

  type Trackers = map<int, Tracker>

  // ---------------------------------------------------------------------
  // The tables as values

  predicate ActiveOf(trackers: Trackers, userId: int, id: int) {
    id in trackers && trackers[id].userId == userId && trackers[id].active
  }

  function ActiveIds(trackers: Trackers, userId: int): set<int> {
    set id | id in trackers.Keys && ActiveOf(trackers, userId, id)
  }

  /** `SELECT COUNT(*) ... WHERE user_id = ? AND active = 1`. */
  function CountActive(trackers: Trackers, userId: int): nat {
    |ActiveIds(trackers, userId)|
  }

  predicate Matches(t: Tracker, userId: int, origin: string, destination: string, date: string) {
    t.userId == userId && t.origin == origin && t.destination == destination && t.date == date && t.active
  }

  /** Some active row has exactly this user, route and date. */
  predicate Exists(trackers: Trackers, userId: int, origin: string, destination: string, date: string) {
    exists id | id in trackers :: Matches(trackers[id], userId, origin, destination, date)
  }

  /** `UPDATE ... SET active = 0 WHERE id = ?`. */
  function Deactivated(trackers: Trackers, id: int): Trackers {
    if id in trackers then trackers[id := trackers[id].(active := false)] else trackers
  }

  /** `UPDATE ... SET active = 0 WHERE user_id = ?`. */
  function AllDeactivated(trackers: Trackers, userId: int): Trackers {
    map id | id in trackers :: if trackers[id].userId == userId then trackers[id].(active := false) else trackers[id]
  }

  /** `UPDATE ... SET last_sent_price = ? WHERE id = ?`. */
  function WithLastSent(trackers: Trackers, id: int, price: int): Trackers {
    if id in trackers then trackers[id := trackers[id].(lastSent := Some(price))] else trackers
  }

  /** `SELECT last_sent_price ... WHERE id = ?`: none for an unknown id. */
  function LastSent(trackers: Trackers, id: int): Option<int> {
    if id in trackers then trackers[id].lastSent else None
  }

  /** A tracker `get_active_trackers` lists: active, and joined with an existing user. */
  predicate Listed(users: map<int, User>, trackers: Trackers, id: int) {
    id in trackers && trackers[id].active && trackers[id].userId in users
  }

  function ActiveRow(users: map<int, User>, trackers: Trackers, id: int): ActiveTracker
    requires id in trackers && trackers[id].userId in users
  {
    var t := trackers[id];
    ActiveTracker(id, users[t.userId].telegramId, t.origin, t.destination, t.date, t.priceLimit)
  }

  /** The result of `get_active_trackers` over the ids below `k`. */
  function ActiveRows(users: map<int, User>, trackers: Trackers, k: int): seq<ActiveTracker>
    decreases k
  {
    if k <= 1 then []
    else
      var id := k - 1;
      ActiveRows(users, trackers, id)
        + if Listed(users, trackers, id) then [ActiveRow(users, trackers, id)] else []
  }

  /**
   * The rows below `k` are exactly the active trackers whose owner exists,
   * one row each, in ascending id order.
   */
  lemma {:induction false} ActiveRowsMeaning(users: map<int, User>, trackers: Trackers, k: int)
    ensures forall i | 0 <= i < |ActiveRows(users, trackers, k)| ::
      var row := ActiveRows(users, trackers, k)[i];
      1 <= row.trackerId < k && Listed(users, trackers, row.trackerId) && row == ActiveRow(users, trackers, row.trackerId)
    ensures forall id | 1 <= id < k && Listed(users, trackers, id) ::
      exists i | 0 <= i < |ActiveRows(users, trackers, k)| :: ActiveRows(users, trackers, k)[i].trackerId == id
    ensures forall i, j | 0 <= i < j < |ActiveRows(users, trackers, k)| ::
      ActiveRows(users, trackers, k)[i].trackerId < ActiveRows(users, trackers, k)[j].trackerId
    decreases k
  {
    if k > 1 {
      var last := k - 1;
      var prefix := ActiveRows(users, trackers, last);
      ActiveRowsMeaning(users, trackers, last);
      if Listed(users, trackers, last) {
        var rows := prefix + [ActiveRow(users, trackers, last)];
        assert ActiveRows(users, trackers, k) == rows;
        assert rows[|prefix|].trackerId == last;
        assert forall i | 0 <= i < |prefix| :: rows[i] == prefix[i];
      } else {
        assert ActiveRows(users, trackers, k) == prefix;
      }
    }
  }

  function UserRow(trackers: Trackers, id: int): UserTracker
    requires id in trackers
  {
    var t := trackers[id];
    UserTracker(id, t.origin, t.destination, [t.date], t.priceLimit)
  }

  /** The result of `get_user_trackers(userId)` over the ids below `k`. */
  function UserRows(trackers: Trackers, userId: int, k: int): seq<UserTracker>
    decreases k
  {
    if k <= 1 then []
    else
      var id := k - 1;
      UserRows(trackers, userId, id) + if ActiveOf(trackers, userId, id) then [UserRow(trackers, id)] else []
  }

  /**
   * The rows below `k` are exactly the user's active trackers, one row each,
   * in ascending id order, each with its date wrapped in a one-element list.
   */
  lemma {:induction false} UserRowsMeaning(trackers: Trackers, userId: int, k: int)
    ensures forall i | 0 <= i < |UserRows(trackers, userId, k)| ::
      var row := UserRows(trackers, userId, k)[i];
      1 <= row.trackerId < k && ActiveOf(trackers, userId, row.trackerId)
      && row == UserRow(trackers, row.trackerId) && |row.dates| == 1
    ensures forall id | 1 <= id < k && ActiveOf(trackers, userId, id) ::
      exists i | 0 <= i < |UserRows(trackers, userId, k)| :: UserRows(trackers, userId, k)[i].trackerId == id
    ensures forall i, j | 0 <= i < j < |UserRows(trackers, userId, k)| ::
      UserRows(trackers, userId, k)[i].trackerId < UserRows(trackers, userId, k)[j].trackerId
    decreases k
  {
    if k > 1 {
      var last := k - 1;
      var prefix := UserRows(trackers, userId, last);
      UserRowsMeaning(trackers, userId, last);
      if ActiveOf(trackers, userId, last) {
        var rows := prefix + [UserRow(trackers, last)];
        assert UserRows(trackers, userId, k) == rows;
        assert rows[|prefix|].trackerId == last;
        assert forall i | 0 <= i < |prefix| :: rows[i] == prefix[i];
      } else {
        assert UserRows(trackers, userId, k) == prefix;
      }
    }
  }

  // ---------------------------------------------------------------------
  // How the operations relate

  /** A new active row adds one to its owner's count and leaves every other count alone. */
  lemma CountAfterInsert(trackers: Trackers, id: int, t: Tracker, userId: int)
    requires id !in trackers && t.active
    ensures CountActive(trackers[id := t], userId)
         == CountActive(trackers, userId) + (if t.userId == userId then 1 else 0)
  {
    var after := trackers[id := t];
    var extra: set<int> := if t.userId == userId then {id} else {};
    forall j ensures j in ActiveIds(after, userId) <==> j in ActiveIds(trackers, userId) + extra {
      assert ActiveOf(after, userId, j) <==> ActiveOf(trackers, userId, j) || (j == id && t.userId == userId);
    }
    assert ActiveIds(after, userId) == ActiveIds(trackers, userId) + extra;
    assert id !in ActiveIds(trackers, userId);
  }

  /** After a new row, a row with its user, route and date exists, and nothing else changes. */
  lemma ExistsAfterInsert(trackers: Trackers, id: int, t: Tracker,
                          userId: int, origin: string, destination: string, date: string)
    requires id !in trackers
    ensures Exists(trackers[id := t], userId, origin, destination, date)
        <==> Exists(trackers, userId, origin, destination, date) || Matches(t, userId, origin, destination, date)
  {
    var after := trackers[id := t];
    if Exists(trackers, userId, origin, destination, date) {
      var j :| j in trackers && Matches(trackers[j], userId, origin, destination, date);
      assert j in after && after[j] == trackers[j];
    }
    if Matches(t, userId, origin, destination, date) {
      assert id in after && after[id] == t;
    }
  }

  /** Deactivating one id takes at most that row out of its owner's count. */
  lemma CountAfterDeactivate(trackers: Trackers, id: int, userId: int)
    ensures CountActive(Deactivated(trackers, id), userId)
         == CountActive(trackers, userId) - (if ActiveOf(trackers, userId, id) then 1 else 0)
  {
    var after := Deactivated(trackers, id);
    if ActiveOf(trackers, userId, id) {
      assert ActiveIds(trackers, userId) == ActiveIds(after, userId) + {id};
    } else {
      assert ActiveIds(after, userId) == ActiveIds(trackers, userId);
    }
  }

  /** Deactivating twice is deactivating once, and an unknown id changes nothing. */
  lemma DeactivatedIdempotent(trackers: Trackers, id: int)
    ensures Deactivated(Deactivated(trackers, id), id) == Deactivated(trackers, id)
    ensures id !in trackers ==> Deactivated(trackers, id) == trackers
    ensures forall j | j != id && j in trackers :: Deactivated(trackers, id)[j] == trackers[j]
  {
  }

  /** After deactivating a user's rows, that user has no active rows and other users keep theirs. */
  lemma CountAfterDeactivateAll(trackers: Trackers, userId: int, other: int)
    ensures CountActive(AllDeactivated(trackers, userId), userId) == 0
    ensures other != userId ==>
      CountActive(AllDeactivated(trackers, userId), other) == CountActive(trackers, other)
  {
    var after := AllDeactivated(trackers, userId);
    assert ActiveIds(after, userId) == {};
    if other != userId {
      assert ActiveIds(after, other) == ActiveIds(trackers, other);
    }
  }

  /** The write overwrites whatever was stored, higher or lower, and touches no other row. */
  lemma LastSentAfterWrite(trackers: Trackers, id: int, price: int, j: int)
    ensures LastSent(WithLastSent(trackers, id, price), j)
         == if j == id && id in trackers then Some(price) else LastSent(trackers, j)
    ensures WithLastSent(trackers, id, price).Keys == trackers.Keys
  {
  }

  // ---------------------------------------------------------------------
  // The store

  /**
   * `add_user`'s effect on the users table: `id` is the row of this telegram
   * id afterwards; a known sender leaves the table and the id counter as they
   * were, and an unknown one gets the next id and a row with their username.
   */
  ghost predicate Registered(before: map<int, User>, nextBefore: int, after: map<int, User>, nextAfter: int,
                             id: int, telegramId: int, username: Option<string>) {
    && id in after && after[id].telegramId == telegramId
    && (id in before ==> after == before && nextAfter == nextBefore)
    && (id !in before ==>
          id == nextBefore && after == before[id := User(telegramId, username)] && nextAfter == nextBefore + 1
          && forall j | j in before :: before[j].telegramId != telegramId)
  }

  class Database {
    var users: map<int, User>
    var trackers: Trackers
    var nextUserId: int
    var nextTrackerId: int

    /** Ids below the counters, and one user per telegram id (`telegram_id` is UNIQUE). */
    ghost predicate Valid()
      reads this
    {
      && 1 <= nextUserId && 1 <= nextTrackerId
      && (forall id | id in users :: 1 <= id < nextUserId)
      && (forall id | id in trackers :: 1 <= id < nextTrackerId)
      && (forall a, b | a in users && b in users && users[a].telegramId == users[b].telegramId :: a == b)
    }

    constructor ()
      ensures Valid()
      ensures users == map[] && trackers == map[]
    {
      users := map[];
      trackers := map[];
      nextUserId := 1;
      nextTrackerId := 1;
    }

    /** `SELECT id FROM users WHERE telegram_id = ?`. */
    method FindUser(telegramId: int) returns (r: Option<int>)
      requires Valid()
      ensures r.Some? ==> r.value in users && users[r.value].telegramId == telegramId
      ensures r.None? ==> forall id | id in users :: users[id].telegramId != telegramId
    {
      for id := 1 to nextUserId
        invariant forall j | 1 <= j < id && j in users :: users[j].telegramId != telegramId
      {
        if id in users && users[id].telegramId == telegramId {
          return Some(id);
        }
      }
      return None;
    }

    /** `add_user`: the existing user's id, or the id of a newly inserted user. */
    method AddUser(telegramId: int, username: Option<string>) returns (id: int)
      requires Valid()
      modifies this
      ensures Valid()
      ensures id in users && users[id].telegramId == telegramId
      ensures trackers == old(trackers) && nextTrackerId == old(nextTrackerId)
      ensures old(id in users) ==> users == old(users) && nextUserId == old(nextUserId)
      ensures !old(id in users) ==>
        id == old(nextUserId) && users == old(users)[id := User(telegramId, username)]
        && nextUserId == old(nextUserId) + 1
        && forall j | j in old(users) :: old(users)[j].telegramId != telegramId
    {
      var found := FindUser(telegramId);
      if found.Some? {
        return found.value;
      }
      id := nextUserId;
      users := users[id := User(telegramId, username)];
      nextUserId := nextUserId + 1;
    }

    /** `add_flight_tracker`: one new active row with no last-sent price, under a fresh id. */
    method AddFlightTracker(userId: int, origin: string, destination: string, date: string, priceLimit: int)
      returns (id: int)
      requires Valid()
      modifies this
      ensures Valid()
      ensures id == old(nextTrackerId) && id !in old(trackers)
      ensures trackers == old(trackers)[id := Tracker(userId, origin, destination, date, priceLimit, true, None)]
      ensures nextTrackerId == old(nextTrackerId) + 1
      ensures users == old(users) && nextUserId == old(nextUserId)
    {
      id := nextTrackerId;
      trackers := trackers[id := Tracker(userId, origin, destination, date, priceLimit, true, None)];
      nextTrackerId := nextTrackerId + 1;
    }

    /** `get_active_trackers`: every active row whose owner exists, in id order. */
    method GetActiveTrackers() returns (rows: seq<ActiveTracker>)
      requires Valid()
      ensures rows == ActiveRows(users, trackers, nextTrackerId)
    {
      rows := [];
      for id := 1 to nextTrackerId
        invariant rows == ActiveRows(users, trackers, id)
      {
        if id in trackers && trackers[id].active && trackers[id].userId in users {
          var t := trackers[id];
          rows := rows + [ActiveTracker(id, users[t.userId].telegramId, t.origin, t.destination, t.date, t.priceLimit)];
        }
      }
    }

    /** `get_user_trackers`: the user's active rows, in id order. */
    method GetUserTrackers(userId: int) returns (rows: seq<UserTracker>)
      requires Valid()
      ensures rows == UserRows(trackers, userId, nextTrackerId)
    {
      rows := [];
      for id := 1 to nextTrackerId
        invariant rows == UserRows(trackers, userId, id)
      {
        if id in trackers && trackers[id].userId == userId && trackers[id].active {
          var t := trackers[id];
          rows := rows + [UserTracker(id, t.origin, t.destination, [t.date], t.priceLimit)];
        }
      }
    }

    /** `count_active_trackers`. */
    method CountActiveTrackers(userId: int) returns (n: nat)
      requires Valid()
      ensures n == CountActive(trackers, userId)
    {
      n := 0;
      ghost var seen: set<int> := {};
      for id := 1 to nextTrackerId
        invariant seen == set j | j in trackers.Keys && j < id && ActiveOf(trackers, userId, j)
        invariant n == |seen|
      {
        if id in trackers && trackers[id].userId == userId && trackers[id].active {
          assert id !in seen;
          seen := seen + {id};
          n := n + 1;
        }
      }
      assert seen == ActiveIds(trackers, userId);
    }

    /** `tracker_exists`. */
    method TrackerExists(userId: int, origin: string, destination: string, date: string) returns (b: bool)
      requires Valid()
      ensures b == Exists(trackers, userId, origin, destination, date)
    {
      for id := 1 to nextTrackerId
        invariant forall j | 1 <= j < id && j in trackers :: !Matches(trackers[j], userId, origin, destination, date)
      {
        if id in trackers && Matches(trackers[id], userId, origin, destination, date) {
          return true;
        }
      }
      return false;
    }

    /** `deactivate_tracker`. */
    method DeactivateTracker(id: int)
      requires Valid()
      modifies this
      ensures Valid()
      ensures trackers == Deactivated(old(trackers), id)
      ensures users == old(users) && nextUserId == old(nextUserId) && nextTrackerId == old(nextTrackerId)
    {
      if id in trackers {
        trackers := trackers[id := trackers[id].(active := false)];
      }
    }

    /** `deactivate_all_user_trackers`. */
    method DeactivateAllUserTrackers(userId: int)
      requires Valid()
      modifies this
      ensures Valid()
      ensures trackers == AllDeactivated(old(trackers), userId)
      ensures users == old(users) && nextUserId == old(nextUserId) && nextTrackerId == old(nextTrackerId)
    {
      trackers := map id | id in trackers ::
        if trackers[id].userId == userId then trackers[id].(active := false) else trackers[id];
    }

    /** `get_last_sent_price`. */
    method GetLastSentPrice(id: int) returns (r: Option<int>)
      ensures r == LastSent(trackers, id)
    {
      if id in trackers {
        return trackers[id].lastSent;
      }
      return None;
    }

    /** `update_last_sent_price`: an unconditional overwrite. */
    method UpdateLastSentPrice(id: int, price: int)
      requires Valid()
      modifies this
      ensures Valid()
      ensures trackers == WithLastSent(old(trackers), id, price)
      ensures users == old(users) && nextUserId == old(nextUserId) && nextTrackerId == old(nextTrackerId)
    {
      if id in trackers {
        trackers := trackers[id := trackers[id].(lastSent := Some(price))];
      }
    }
  }
}
