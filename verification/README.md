# flightwatch: the tracker lifecycle in Dafny

flightwatch is a Telegram bot that watches air-ticket prices. A user asks it
to track a route on one or more dates with a price ceiling. For every
accepted date the bot stores a tracker row and starts a loop. The loop
polls the price source and sends a message when the price falls below the
ceiling and below the last price it reported. The user can list their
trackers and stop one of them, or stop all of them. At start-up the bot
restarts a loop for every active tracker. A few small helpers come with it:
date validation, the airport table and city search, the airport-list
message, and the status classification of the flight-status lookup.

This project models that core and proves what it promises:

- **Price loop** (`TrackFlightLoop`). The endless loop runs over a finite
  sequence of cycles. Each cycle carries the price source's answer and says
  whether the store read, the send and the store write succeed. The method
  `TrackFlight` loops as the source does. It is proved equal to the
  function `Run`, and the lemmas about `Run` state the notification rule.
  When every read succeeds, the prices it writes strictly decrease and stay
  below the ceiling. A failed read can let a higher price be written:
  `FailedReadCanRaiseStoredPrice` shows a concrete case.
- **`/track`** (`Track`). The command line is parsed as `str.split()` and
  `int()` parse it. Every date is then classified in the source's order:
  validity, free slot, price lookup, duplicate. The specification function
  `Admit` gives all the decisions. The imperative loop `AdmitLoop` keeps the
  invariant `Account`, which ties its lists, the store and the task
  registry to `Admit`. The lemmas about `Admit` state the partition into
  added and skipped dates and the quota bound of 5. They also show that a
  date repeated in one request is added at most once, given one price
  answer per date. The quirks of the
  source are kept as written:
  - the loop is started inside the date loop;
  - the new task is registered in `user_tasks` only, never in
    `tracker_tasks`;
  - validity is still checked on every date once the quota is used up.
- **Store** (`Store.Database`). The two SQLite tables become two maps keyed
  by row id, with AUTOINCREMENT counters. Rows come back in ascending id
  order.
- **Task registry** (`Registry.TaskRegistry`). A task handle is an opaque
  number. Cancelling a task adds it to a `cancelled` set, and every task
  started is remembered with its loop arguments.
- **`/stop`** (`Stop`), **"my trackers" and the stop button**
  (`ListTracks`), and **restore at start-up** (`Restore`). Each is a method
  over the store and the registry, proved against functions of the old
  state.
- **Pure helpers**:
  - `Validators`: the `%Y-%m-%d` layout that `strptime` accepts, for ASCII
    digits, with the calendar check and `>= today`;
  - `AirportCodes`: lookup, normalisation, city search and the sort;
  - `AirportList`: the header, the lines and the truncation to 4000
    characters;
  - `FlightStatus`: the status chain and the field fallbacks.
  - `PyStr` holds the Python string semantics all of these use: the
    whitespace of `strip`/`split`, `split(',')`, `replace`, `int()`,
    decimal rendering, `join` and string comparison.

In a private chat, the chat id that `/stop` reads the registry with equals
the sender id that `/track` registers tasks under. The model uses one
telegram id for both.

## Model

| member | source | states |
|---|---|---|
| TrackFlightLoop.TrackFlight | utils/track_flight.py:9-60 | the loop's events and the final trackers table are those of `Run` over the cycles; users and id counters are unchanged |
| TrackFlightLoop.NotifyWhenReadSucceeds | utils/track_flight.py:18-38 | with a tracker id and a successful read, a send is attempted iff the offer is truthy and its price is below the ceiling and below the stored last-sent price (or none is stored) |
| TrackFlightLoop.NotifyWhenNothingRead | utils/track_flight.py:26-36 | without a tracker id or after a failed read, a send is attempted iff the offer is truthy and its price is below the ceiling |
| TrackFlightLoop.EqualPriceIsQuiet | utils/track_flight.py:33-36 | a price equal to the ceiling, or equal to the last-sent price read, never sends and changes nothing |
| TrackFlightLoop.ErrorAnswerIsPriceZero | utils/track_flight.py:18-23 | an error answer is truthy and is read as price 0, so it is never ignored and sends whenever 0 is below the ceiling |
| TrackFlightLoop.FalsyAnswerDoesNothing | utils/track_flight.py:18 | a falsy answer causes no send and no store change |
| TrackFlightLoop.StoreChangesOnlyAfterSend | utils/track_flight.py:50-58 | the table changes only by writing that cycle's price for the loop's tracker, after a successful send and write; a failed send changes nothing |
| TrackFlightLoop.WrittenAppend | utils/track_flight.py:50-56 | one more cycle adds its price to the written prices exactly when it sent and wrote |
| TrackFlightLoop.RunTouchesOnlyItsPrice | utils/track_flight.py:50-56 | a run keeps the table's ids, changes no row but its own tracker's, and changes only that row's last-sent price |
| TrackFlightLoop.StepWrite | utils/track_flight.py:33-56 | after a successful read, a written price is below the ceiling and below the previous stored price, and becomes the stored price; otherwise the stored price stays |
| TrackFlightLoop.DecreasingAppend | utils/track_flight.py:33-56 | a price below the last one extends a strictly decreasing sequence |
| TrackFlightLoop.WrittenPricesDescend | utils/track_flight.py:33-56 | when every read succeeds, the written prices strictly decrease, start below the stored price, stay below the ceiling, and the last one is what the store holds afterwards |
| TrackFlightLoop.FailedReadCanRaiseStoredPrice | utils/track_flight.py:28-31 | a failed read makes the last-sent price absent, so a price above the stored one (500 over 100) is sent and written |
| TrackFlightLoop.InitialOfferOnlyFirst | utils/track_flight.py:11-17 | the initial offer only replaces the first cycle's fetch, and only when truthy |
| TrackFlightLoop.OfferAt | utils/track_flight.py:13-17 | the answer a cycle works on: the initial offer in the first cycle when truthy, a fresh fetch otherwise (stated by `InitialOfferOnlyFirst`) |
| TrackFlightLoop.ShouldNotify | utils/track_flight.py:33-36 | the notification test: below the ceiling and below the last-sent price when one is known, both strictly |
| TrackFlightLoop.Step | utils/track_flight.py:17-58 | one pass of the loop body as a change of the trackers table; its rule is stated by the `Notify…` lemmas, `StepWrite` and `StoreChangesOnlyAfterSend` |
| TrackFlightLoop.Run | utils/track_flight.py:12-60 | the passes over the given cycles in order; `TrackFlight` is proved to produce it |
| TrackFlightLoop.Written | utils/track_flight.py:50-56 | the prices written to the store, in order (stated by `WrittenAppend` and `WrittenPricesDescend`) |
| Offers.Truthy | utils/track_flight.py:18 | `if flight:` — no answer is falsy, an error answer and an offer are truthy |
| Offers.HasFlights | handlers/track.py:167 | an answer that is truthy and carries no error |
| Offers.PriceOf | utils/track_flight.py:19-23 | `int(flight.get("price", 0))` with a failed conversion read as 0 (used by `ErrorAnswerIsPriceZero`) |
| Restore.RestoredLoopFetchesFirst | utils/restore_all_trackers.py:15-24 | a restored loop, started with no initial offer, works on a fresh fetch in its first cycle |
| Track.CleanDatesClean | handlers/track.py:132 | the dates kept are non-empty, stripped, no more than the pieces, and each is a stripped piece |
| Track.CleanDates | handlers/track.py:132 | the stripped non-empty pieces in order (stated by `CleanDatesClean` and `CleanDatesOfClean`) |
| Track.DateList | handlers/track.py:132 | the comma pieces of the dates argument, cleaned (round trip in `DateListOfJoin`) |
| Track.CleanDatesOfClean | handlers/track.py:132 | a list of non-empty stripped dates is kept as it is |
| Track.DateListOfJoin | handlers/track.py:132 | joining clean dates with commas and splitting them again gives the dates back |
| Track.ParseCommandShape | handlers/track.py:126-138 | a usage error iff the text has not exactly five words; a price error iff the fifth word is not an `int()`; otherwise origin and destination are the upper-cased words, the dates the clean comma pieces, the ceiling the parsed price |
| Track.ParseCommand | handlers/track.py:126-138 | the checks and conversions of the command line, in the handler's order (stated by `ParseCommandShape`) |
| Track.CommandLine | handlers/track.py:339 | the command line the dialogue builds (parsed back by `ParseCommandLine`) |
| Track.WordLengthOfWord | handlers/track.py:126 | a word followed by whitespace or the end is read whole |
| Track.WordsOfJoin | handlers/track.py:126 | `split()` of space-joined words gives the words back |
| Track.JoinNoSpace | handlers/track.py:339 | joining space-free pieces with a space-free separator gives a space-free text |
| Track.PriceIsWord | handlers/track.py:339 | the rendered ceiling is one non-empty word |
| Track.DatesAreWord | handlers/track.py:339 | the comma-joined dates are one non-empty word |
| Track.ParseCommandLine | handlers/track.py:324-342 | the `/track` line built by the price step of the dialogue parses back to its origin, destination, dates and ceiling |
| Track.Without | handlers/track.py:53 | removing a character leaves a text without it and no longer |
| Track.ReplaceDeletes | handlers/track.py:53 | `replace(c, "")` is the removal of `c` |
| Track.WithoutAppend | handlers/track.py:53 | removal distributes over concatenation |
| Track.WithoutAbsent | handlers/track.py:53 | removing an absent character changes nothing |
| Track.UpperWithout | handlers/track.py:53 | upper-casing and removing spaces commute |
| Track.TrimmedWithout | handlers/track.py:53 | removing spaces from a stripped text leaves it stripped |
| Track.TrimmedUpper | handlers/track.py:53 | upper-casing a stripped text leaves it stripped |
| Track.FlightNumberClean | handlers/track.py:53-56 | an accepted flight number has at least 3 characters, no space, is stripped and upper-case, and is accepted again unchanged |
| Track.FlightNumber | handlers/track.py:53-56 | the cleaned flight number, refused when shorter than three characters (stated by `FlightNumberClean` and `FlightNumberIgnoresSpaces`) |
| Track.FlightNumberIgnoresSpaces | handlers/track.py:53 | a space between two parts of a number does not change the number accepted |
| Track.SpaceVanishes | handlers/track.py:53 | an inner space disappears from the upper-cased number |
| Track.ClassifyMeaning | handlers/track.py:154-194 | each date gets exactly one decision: invalid, no free slot, no flights, already tracked or added, each iff the earlier checks pass and its own fails |
| Track.Classify | handlers/track.py:154-194 | the decision on one date, checks in the handler's order (stated by `ClassifyMeaning`) |
| Track.Admit | handlers/track.py:151-194 | one decision per date; an added date uses a slot and becomes tracked for the dates after it |
| Track.ValidOn | utils/validators.py:3-8 | `is_valid_date` against a fixed today |
| Track.TrackedDates | handlers/track.py:172 | the dates this user actively tracks on this route (stated by `TrackedDatesMeaning`) |
| Track.AdmitCons | handlers/track.py:151-194 | the decisions on a date list are the first date's decision followed by the decisions on the rest, with the slots and tracked dates it left |
| Track.DatesOf | handlers/track.py:154 | the dates of the decisions, position by position |
| Track.Partition | handlers/track.py:151-194 | every decision lands in exactly one of the added and the skipped lists, and together they hold the input dates with their multiplicities |
| Track.SkippedPairs | handlers/track.py:157-173 | each skipped pair holds the skipped date, in order |
| Track.DatesOfAdmit | handlers/track.py:154 | there is one decision per input date, in input order |
| Track.AdmitWithinQuota | handlers/track.py:140-194 | no more dates are added than there were free slots |
| Track.AdmittedDates | handlers/track.py:156-174 | every added date is valid, has flights and was not tracked, and is an input date |
| Track.TrackedNotAdmitted | handlers/track.py:161-174 | a valid date with flights that is already tracked is skipped for no free slot or as already tracked |
| Track.RepeatedDateAdmittedOnce | handlers/track.py:172-194 | with every copy of a date getting the same price answer, a date repeated in one request is added at most once, and a later copy is skipped for no free slot or as already tracked |
| Track.TrackedDatesMeaning | handlers/track.py:172 | a date is among the tracked dates iff `tracker_exists` holds for it |
| Track.TrackedDatesInsert | handlers/track.py:177 | inserting an active row for a date adds just that date to the tracked dates |
| Track.NewTasks | handlers/track.py:180-191 | the task ids issued, in order |
| Track.AppendedMeaning | handlers/track.py:179-191 | the new tasks go to the end of the sender's list; no other list changes; no list is created when nothing is added |
| Track.AddOne | handlers/track.py:177-194 | the row goes to the next tracker id, the loop starts with the found offer and its tracker id, and its task joins the sender's list; `tracker_tasks` is untouched |
| Track.AdmitStep | handlers/track.py:154-194 | the decisions on the dates from `i` on are the decision on date `i` followed by the rest |
| Track.DecidedStep | handlers/track.py:154-194 | the decisions taken so far plus the rest still give the decisions on all dates, one date later |
| Track.AddedOfAppend | handlers/track.py:157-193 | one more decision adds its date to the added or the skipped list |
| Track.ProgressStep | handlers/track.py:177-194 | admitting one more date keeps rows, active count, loops and tasks in step with the added dates |
| Track.InsertedSnoc | handlers/track.py:177 | the rows for one more date are the earlier rows plus that date's row |
| Track.StartedSnoc | handlers/track.py:180-190 | the loops for one more date are the earlier loops plus that date's loop |
| Track.AdmitOne | handlers/track.py:154-194 | one pass of the date loop takes the decision `Classify` gives; only an added date changes the store and the registry |
| Track.AccountStep | handlers/track.py:154-194 | one pass keeps the loop's account: decisions, lists, slots, tracked dates and fields |
| Track.AdmitNext | handlers/track.py:154-194 | one pass of the loop body keeps the account |
| Track.AdmitDates | handlers/track.py:151-194 | the replies list the added and skipped dates of `Admit`; every added date has its row, its loop and its task, in order |
| Track.AdmitLoop | handlers/track.py:151-194 | the loop's decisions are `Admit` on the input dates, the lists are its added and skipped parts, and the fields are in step |
| Track.TrackCommand | handlers/track.py:122-215 | a malformed command or price changes nothing, not even the users table or its id counter; otherwise the sender is registered as `add_user` does (a known sender keeps table and counter, a new one is inserted under the next id with their username) and the request is served; `tracker_tasks` and the cancelled set are never touched |
| Track.TrackRequest | handlers/track.py:140-209 | the sender is registered: a known sender leaves the users table and the id counter as they were, a new one gets the next id and a row with their telegram id and username, and no other user had that telegram id; then the request is served |
| Track.ServeRequest | handlers/track.py:141-209 | with the quota full nothing changes; otherwise the date loop runs with the free slots and the active count stays at most 5 |
| Store.ActiveRowsMeaning | db_handlers/db_class.py:69-86 | the rows are exactly the active trackers whose owner exists, in ascending id order, each with the owner's telegram id |
| Store.UserRowsMeaning | db_handlers/db_class.py:88-103 | the rows are exactly the user's active trackers, in ascending id order, each with a one-element date list |
| Store.ActiveRows | db_handlers/db_class.py:69-86 | the joined active rows in id order (stated by `ActiveRowsMeaning`) |
| Store.UserRows | db_handlers/db_class.py:88-103 | the user's active rows in id order (stated by `UserRowsMeaning`) |
| Store.CountActive | db_handlers/db_class.py:105-111 | the number of the user's active rows |
| Store.Exists | db_handlers/db_class.py:113-118 | some active row has exactly this user, route and date |
| Store.Deactivated | db_handlers/db_class.py:120-122 | the table with that row's `active` cleared (stated by `DeactivatedIdempotent`) |
| Store.AllDeactivated | db_handlers/db_class.py:124-126 | the table with `active` cleared on every row of the user (stated by `CountAfterDeactivateAll`) |
| Store.WithLastSent | db_handlers/db_class.py:138-143 | the table with that row's last-sent price overwritten (stated by `LastSentAfterWrite`) |
| Store.LastSent | db_handlers/db_class.py:128-136 | the stored last-sent price, none for an unknown id |
| Store.CountAfterInsert | db_handlers/db_class.py:61-111 | an active row adds one to its owner's count and to no one else's |
| Store.ExistsAfterInsert | db_handlers/db_class.py:61-118 | after an insert a match exists iff one existed or the new row matches |
| Store.CountAfterDeactivate | db_handlers/db_class.py:105-122 | deactivating a row takes one off its owner's count if it was active |
| Store.DeactivatedIdempotent | db_handlers/db_class.py:120-122 | deactivating twice is deactivating once, an unknown id changes nothing, and other rows are untouched |
| Store.CountAfterDeactivateAll | db_handlers/db_class.py:124-126 | after deactivating all of a user's rows their count is 0 and every other user's count is the same |
| Store.LastSentAfterWrite | db_handlers/db_class.py:128-143 | after a write the row holds the new price, whatever it held before; other rows and unknown ids read as before |
| Store.Database.constructor | db_handlers/db_class.py:19-38 | both tables start empty |
| Store.Database.FindUser | handlers/list_tracks.py:22-23 | finds the user with that telegram id, or reports that none exists |
| Store.Database.AddUser | db_handlers/db_class.py:48-59 | an existing telegram id returns its user and changes nothing; otherwise one user is inserted under the next id |
| Store.Database.AddFlightTracker | db_handlers/db_class.py:61-67 | one active row with no last-sent price is inserted under a fresh id; other rows are unchanged |
| Store.Database.GetActiveTrackers | db_handlers/db_class.py:69-86 | the rows are `ActiveRows` of the tables |
| Store.Database.GetUserTrackers | db_handlers/db_class.py:88-103 | the rows are `UserRows` of the user |
| Store.Database.CountActiveTrackers | db_handlers/db_class.py:105-111 | the number of the user's active rows |
| Store.Database.TrackerExists | db_handlers/db_class.py:113-118 | true iff an active row of the user matches origin, destination and date exactly |
| Store.Database.DeactivateTracker | db_handlers/db_class.py:120-122 | clears `active` on that id only |
| Store.Database.DeactivateAllUserTrackers | db_handlers/db_class.py:124-126 | clears `active` on every row of the user and on no other row |
| Store.Database.GetLastSentPrice | db_handlers/db_class.py:128-136 | the stored last-sent price, none for an unknown id |
| Store.Database.UpdateLastSentPrice | db_handlers/db_class.py:138-143 | overwrites that row's last-sent price unconditionally |
| Registry.TaskRegistry.constructor | handlers/stop.py:5 | both maps start empty, nothing is cancelled and nothing runs |
| Registry.TaskRegistry.Spawn | handlers/track.py:180-190 | a fresh task runs the given loop; the maps and the cancelled set are unchanged |
| Registry.TaskRegistry.Cancel | handlers/stop.py:24-29 | the task is marked cancelled, and nothing else changes |
| Registry.TasksOf | handlers/stop.py:17 | `user_tasks.get(id)`, a missing entry read as no tasks |
| Registry.AddTask | handlers/track.py:179-191 | `setdefault(id, []).append(task)`: the task goes to the end of that list only |
| Stop.WithoutTasksMeaning | handlers/stop.py:33-35 | no surviving entry points at a dropped task; every other entry is kept as it was |
| Stop.WithoutTasks | handlers/stop.py:33-35 | the tracker entries whose task is not among the user's tasks (stated by `WithoutTasksMeaning`) |
| Stop.StopCommand | handlers/stop.py:10-39 | the sender is registered with no username (a known sender keeps the users table and id counter, a new one is inserted under the next id) and all their trackers are inactive, with the tracker id counter unchanged; with no tasks the registry is unchanged and the reply is "nothing to stop"; otherwise every task is cancelled, the user's list is gone and no tracker entry keeps one of their tasks |
| Stop.ForgetTrackers | handlers/stop.py:33-35 | exactly the given tracker ids lose their entries; every other entry stays |
| ListTracks.CallbackRoundTrip | handlers/list_tracks.py:43-58 | the data of the button for tracker `n` reads back as `n` |
| ListTracks.CallbackData | handlers/list_tracks.py:43 | the prefix followed by the decimal tracker id (read back by `CallbackRoundTrip`) |
| ListTracks.ParseCallback | handlers/list_tracks.py:57-58 | `int()` of the data with the first prefix removed, none where it raises (stated by `PrefixedCallback`) |
| ListTracks.PrefixedCallback | handlers/list_tracks.py:54-61 | data routed to the handler reads as `int()` of what follows the prefix, so it is refused exactly where `int()` refuses that rest |
| ListTracks.Buttons | handlers/list_tracks.py:36-44 | one button per row |
| ListTracks.ButtonsAppend | handlers/list_tracks.py:37-44 | one more row adds its button at the end |
| ListTracks.ButtonsNameTheirTrackers | handlers/list_tracks.py:43-58 | every button's data reads back as its row's tracker id, and no two buttons carry the same data |
| ListTracks.ListUserTrackers | handlers/list_tracks.py:12-47 | "not registered" iff no user has the telegram id; otherwise "no trackers" iff the user has no active row, else one button per active row in store order |
| ListTracks.KeyboardRows | handlers/list_tracks.py:36-44 | the buttons built are `Buttons` of the rows |
| ListTracks.StopSelectedTracker | handlers/list_tracks.py:54-81 | unreadable data is refused and changes nothing; otherwise the tracker is deactivated unless the store fails, its entry is popped, and its task, if registered, is cancelled; the stop is confirmed unless that task was still running, in which case awaiting it raises the cancellation past `except Exception` and no answer is sent; users and both id counters are unchanged |
| ListTracks.StopTracker | handlers/list_tracks.py:63-79 | the store failure is swallowed; only that key leaves `tracker_tasks`; `user_tasks`, users and both id counters are unchanged; the handler goes on to answer iff no running task was cancelled |
| ListTracks.RunsTask | handlers/list_tracks.py:71-72 | the tracker has a registered task that is not done |
| Restore.RestoredUserTasksAre | utils/restore_all_trackers.py:11-25 | an owner's list gains exactly the tasks of their rows, appended in store order; a list is created only for an owner of some row |
| Restore.OwnsSnoc | utils/restore_all_trackers.py:13 | a telegram id owns a row of the list iff it owns one before the last row or the last row |
| Restore.TasksForAre | utils/restore_all_trackers.py:15-25 | the tasks added for an owner are ascending and are exactly those of the owner's rows |
| Restore.DistinctPrefix | utils/restore_all_trackers.py:27 | distinct tracker ids stay distinct on a prefix |
| Restore.RestoredTrackerTasksAre | utils/restore_all_trackers.py:27 | every restored tracker id maps to its new task, overwriting any earlier entry |
| Restore.RestoredTrackerTasksKeep | utils/restore_all_trackers.py:27 | the entry of a tracker not restored is kept |
| Restore.RestoredTrackerTasksOnly | utils/restore_all_trackers.py:27 | no entry appears but the old ones and the restored trackers |
| Restore.RestoredLoopsAre | utils/restore_all_trackers.py:15-24 | exactly one loop is started per row, with the row's arguments and no initial offer; older loops are kept |
| Restore.RestoreOne | utils/restore_all_trackers.py:12-27 | one row's task is appended to its owner's list, registered for its tracker id, and runs its loop |
| Restore.RestoreAllTrackers | utils/restore_all_trackers.py:8-27 | the registry is rebuilt from `ActiveRows` of the store: lists, tracker entries and loops |
| Restore.RestoreRows | utils/restore_all_trackers.py:11-27 | the loop over the rows gives the `Restored…` functions of the old registry |
| Restore.RestoredStep | utils/restore_all_trackers.py:11-27 | one more row adds one task to each of the three maps |
| Restore.RestoreMeaning | utils/restore_all_trackers.py:11-27 | the owner lists grow by the rows' tasks in order, every row's tracker maps to its task, and every row runs its loop |
| Restore.LoopFor | utils/restore_all_trackers.py:15-24 | a row's loop arguments: its tracker id and no initial offer |
| Restore.RestoredUserTasks | utils/restore_all_trackers.py:11-25 | `user_tasks` after the rows, the i-th row getting the i-th new task (stated by `RestoredUserTasksAre`) |
| Restore.RestoredTrackerTasks | utils/restore_all_trackers.py:27 | `tracker_tasks` after the rows (stated by the `RestoredTrackerTasks…` lemmas) |
| Restore.RestoredLoops | utils/restore_all_trackers.py:15-24 | the loops started for the rows (stated by `RestoredLoopsAre`) |
| Restore.TasksFor | utils/restore_all_trackers.py:15-25 | the tasks of one owner's rows, in row order |
| Restore.StoreRowsDistinct | db_handlers/db_class.py:69-86 | the active rows of the store have distinct tracker ids |
| Validators.MonthField | utils/validators.py:5 | an accepted month field is 1 to 12 |
| Validators.DayField | utils/validators.py:5 | an accepted day field is 1 to 31 |
| Validators.YearValue | utils/validators.py:5 | a four-digit year is at most 9999 |
| Validators.ParseYmd | utils/validators.py:5 | a parsed date has its fields in range |
| Validators.Iso | utils/validators.py:5 | the ISO spelling has 10 characters |
| Validators.MonthFieldOfTwoDigits | utils/validators.py:5 | a two-digit month reads back |
| Validators.DayFieldOfTwoDigits | utils/validators.py:5 | a two-digit day reads back |
| Validators.YearValueOfIso | utils/validators.py:5 | the year of the ISO spelling reads back |
| Validators.IsoFields | utils/validators.py:5 | the ISO spelling of a date parses back to that date |
| Validators.IsValidDateOfIso | utils/validators.py:3-8 | a spelled date is valid iff it is a calendar date not before today |
| Validators.TodayIsValid | utils/validators.py:6 | today is valid |
| Validators.PastIsInvalid | utils/validators.py:6 | a calendar date before today is invalid |
| Validators.FutureIsValid | utils/validators.py:6 | a calendar date after today is valid |
| Validators.NoFebruary29InCommonYears | utils/validators.py:5-8 | February 29 of a common year is invalid |
| Validators.AcceptedShape | utils/validators.py:5 | an accepted text has 8 to 10 characters, all digits, dashes or spaces |
| Validators.MonthThirteenIsInvalid | utils/validators.py:5-8 | month 13 is refused rather than raising |
| Validators.OtherLayoutIsInvalid | utils/validators.py:5-8 | another layout or an empty text is refused |
| Validators.IsValidDate | utils/validators.py:3-8 | a date that `%Y-%m-%d` reads, that exists in the calendar and is not before today (stated by `IsValidDateOfIso` and the lemmas after it) |
| Validators.IsCalendarDate | utils/validators.py:5 | the month has that day, February 29 only in leap years |
| AirportCodes.LookupIn | utils/airport_codes.py:110 | the name found is stored under that key; none iff no entry has the key |
| AirportCodes.LookupInDistinct | utils/airport_codes.py:110 | with distinct keys, each entry is found under its own code |
| AirportCodes.GetAirportName | utils/airport_codes.py:109-110 | the name stored under the upper-cased code, or the upper-cased code when the table has none |
| AirportCodes.NormalizeText | utils/airport_codes.py:113-121 | the step-by-step replacements and the collapse loop give `Normalize` |
| AirportCodes.CollapseKeepsFirst | utils/airport_codes.py:119-120 | collapsing shortens the text at most and keeps its first character |
| AirportCodes.ReplaceDoubleSpaceKeepsFirst | utils/airport_codes.py:120 | one replace pass shortens the text at most and keeps its first character |
| AirportCodes.ReplaceDoubleSpaceShrinks | utils/airport_codes.py:119-120 | a pass over a text with a double space makes it shorter, so the loop ends |
| AirportCodes.CollapseCons | utils/airport_codes.py:119-120 | the collapse of a text, one character at a time |
| AirportCodes.CollapseOfReplaceDoubleSpace | utils/airport_codes.py:119-120 | a replace pass does not change the collapse |
| AirportCodes.CollapseWithoutDoubleSpace | utils/airport_codes.py:119 | a text without a double space is its own collapse |
| AirportCodes.CollapseHasNoDoubleSpace | utils/airport_codes.py:119-120 | a collapsed text has no two consecutive spaces |
| AirportCodes.CollapseDeletesOnly | utils/airport_codes.py:119-120 | collapsing brings in no new character |
| AirportCodes.SpaceOutRemoves | utils/airport_codes.py:116-117 | none of the dash characters is left, and every other non-space character is kept |
| AirportCodes.NormalizeNoDoubleSpace | utils/airport_codes.py:119-120 | normalised text never holds two consecutive spaces |
| AirportCodes.NormalizeNoDashes | utils/airport_codes.py:114-118 | normalised text holds none of the dashes, no NBSP and no "ё" |
| AirportCodes.Normalize | utils/airport_codes.py:113-121 | strip, lower-case, dashes and NBSP to spaces, "ё" to "е", runs of spaces collapsed (computed step by step by `NormalizeText`) |
| AirportCodes.CityPart | utils/airport_codes.py:138 | the name before the first " (", or all of it |
| AirportCodes.CityMatches | utils/airport_codes.py:139-140 | the normalised city part starts with the query or is a prefix of it |
| AirportCodes.Matching | utils/airport_codes.py:135-141 | the entries that pass, in table order (stated by `MatchingMembers`) |
| AirportCodes.InsertPermutes | utils/airport_codes.py:144 | insertion adds the element and keeps the rest |
| AirportCodes.SortedTail | utils/airport_codes.py:144 | a sorted sequence's tail is sorted, and its first key is the least |
| AirportCodes.SortedCons | utils/airport_codes.py:144 | an element whose key is least extends a sorted sequence at the front |
| AirportCodes.InsertSorted | utils/airport_codes.py:144 | insertion keeps a sequence sorted |
| AirportCodes.SortBySorted | utils/airport_codes.py:144 | the sort orders by key and is a permutation |
| AirportCodes.SortBy | utils/airport_codes.py:144 | the list sorted by key as insertion sort sorts it (stated by `SortBySorted` and `SortByStable`) |
| AirportCodes.WithKey | utils/airport_codes.py:144 | the elements with one key, in order |
| AirportCodes.WithKeyAppend | utils/airport_codes.py:144 | picking one key distributes over concatenation |
| AirportCodes.WithKeyInsert | utils/airport_codes.py:144 | inserting into a sorted list puts an element after those with its own key |
| AirportCodes.SortByStable | utils/airport_codes.py:144 | the sort is stable: the elements with any one key keep their order |
| AirportCodes.MatchingMembers | utils/airport_codes.py:136-141 | the entries kept are exactly the table entries that pass the city test |
| AirportCodes.FindAirportsByCity | utils/airport_codes.py:124-145 | a blank query gives nothing; otherwise exactly the entries whose normalised city part starts with the query or is a prefix of it, as a permutation of the matches, sorted by normalised name, and entries with equal normalised names keep their table order |
| AirportCodes.LastAtOrBefore | utils/airport_codes.py:150 | the last occurrence of the pattern up to a position, or none |
| AirportCodes.SplitFormatAirportOption | utils/airport_codes.py:148-150 | `label + " — " + iata` splits back into label and code when the code has no em dash |
| AirportCodes.FormatAirportOption | utils/airport_codes.py:148-150 | the label, an em dash between spaces, the code (split back by `SplitFormatAirportOption`) |
| AirportList.Truncate | handlers/airport_list.py:11-12 | a text of at most 4000 characters is unchanged; a longer one keeps its first 4000 and gets the 4-character ellipsis, 4004 in all |
| AirportList.SplitEntryLine | handlers/airport_list.py:9 | the line `code — name` splits back into the entry |
| AirportList.BodyLines | handlers/airport_list.py:9-10 | the body has one line per entry, in table order, and each line reads back as its entry |
| AirportList.EntryLine | handlers/airport_list.py:9 | `code — name` for one entry |
| AirportList.Body | handlers/airport_list.py:9-10 | the entry lines joined with newlines, in table order (stated by `BodyLines`) |
| AirportList.AirportListText | handlers/airport_list.py:9-12 | the header and body, cut by `Truncate` |
| FlightStatus.StatusResult | utils/flightradar_client.py:91-166 | no result iff there is neither a summary record nor a live callsign |
| FlightStatus.ClassifyMeaning | utils/flightradar_client.py:104-118 | active iff a live callsign; otherwise landed iff ended or arrived by now; otherwise departed iff left by now; otherwise scheduled |
| FlightStatus.ClassifyMonotoneInTime | utils/flightradar_client.py:104-118 | with the same record, a later clock never moves the status back from landed to departed to scheduled |
| FlightStatus.Classify | utils/flightradar_client.py:104-118 | the status chain in the source's order (stated by `ClassifyMeaning`) |
| FlightStatus.NumberFinal | utils/flightradar_client.py:121-122 | flight, then callsign, then the live callsign, then the number asked for |
| FlightStatus.FallbackOrder | utils/flightradar_client.py:91-122 | the last record decides; arrival falls back from actual to planned destination; the number falls back through flight, callsign, live callsign and the number asked for; the airline from operator to livery |
| FlightStatus.LastRecordDecides | utils/flightradar_client.py:91-92 | only the last record of the summary matters |
| FlightStatus.LiveWithoutSummary | utils/flightradar_client.py:152-164 | with no summary but a live callsign, the result is active with empty endpoints and airline |
| FlightStatus.LiveIsActive | utils/flightradar_client.py:105-164 | a live callsign always gives an active status |
| PyStr.TrimLeft | handlers/track.py:130 | `lstrip()`: a suffix that starts with a non-space, and only spaces are dropped |
| PyStr.TrimRight | handlers/track.py:130 | `rstrip()`: a prefix that ends with a non-space, and only spaces are dropped |
| PyStr.StripTrimmed | handlers/track.py:130-132 | a stripped text has no surrounding whitespace |
| PyStr.StripOfTrimmed | handlers/track.py:130-132 | stripping a stripped text changes nothing |
| PyStr.WordLength | handlers/track.py:126 | the length of the leading word: non-space up to a space or the end |
| PyStr.Words | handlers/track.py:126 | `split()` gives non-empty words without whitespace |
| PyStr.IndexOf | handlers/track.py:132 | the first position of the character, or the length |
| PyStr.SplitOn | handlers/track.py:132 | `split(',')` gives at least one piece, none holding the separator |
| PyStr.SplitOnJoin | handlers/track.py:132 | joining the pieces of a split gives the text back |
| PyStr.IndexOfAbsent | handlers/track.py:132 | an absent character is found at the end |
| PyStr.IndexOfAfter | handlers/track.py:132 | the character is found right after a prefix without it |
| PyStr.JoinWithSplitOn | handlers/track.py:132 | splitting a join of separator-free pieces gives the pieces back |
| PyStr.MapChar | utils/airport_codes.py:116-118 | every occurrence of one character is replaced and nothing else changes |
| PyStr.ReplaceOneChar | utils/airport_codes.py:116-118 | `replace` of one character by another is that map |
| PyStr.FindFrom | handlers/list_tracks.py:57 | the first occurrence of the pattern from a position, or none |
| PyStr.ReplaceFirstPrefix | handlers/list_tracks.py:57 | removing the first occurrence of a prefix leaves the rest |
| PyStr.UpperCharFacts | handlers/track.py:130 | upper-casing a character is idempotent and keeps whitespace |
| PyStr.UpperAppend | handlers/track.py:130 | upper-casing distributes over concatenation |
| PyStr.UpperTail | handlers/track.py:130 | upper-casing, one character at a time |
| PyStr.UpperIdempotent | handlers/track.py:130 | upper-casing twice is upper-casing once |
| PyStr.DigitChar | handlers/list_tracks.py:43 | the digit character of a value reads back as that value |
| PyStr.NatToString | handlers/list_tracks.py:43 | decimal rendering is a non-empty digit string |
| PyStr.NatToStringValue | handlers/list_tracks.py:43-58 | the rendered digits read back as the number |
| PyStr.ParseIntOfIntToString | handlers/list_tracks.py:43-58 | `int(str(i)) == i` for every integer |
| PyStr.ParseIntOfNegative | handlers/track.py:135 | a minus sign and digits read as the negative number |
| PyStr.ParseIntOfNatural | handlers/track.py:135 | digits read as their number |
| PyStr.LexLeTotal | utils/flightradar_client.py:108-117 | string comparison is total |
| PyStr.LexLeAntisymmetric | utils/flightradar_client.py:108-117 | two strings each at most the other are equal |
| PyStr.LexLeTransitive | utils/flightradar_client.py:108-117 | string comparison is transitive |
| PyStr.LexLeReflexive | utils/airport_codes.py:144 | every string is at most itself |

## Left out

- Telegram I/O: the messages and keyboards are sent through the bot
  library. They are modelled only as reply values (`TrackReply`,
  `StopReply`, `ListReply`, `CallbackReply`, the button titles). Their exact
  Russian wording is not modelled.
- The city-picking dialogue of `/track` (handlers/track.py:218-322) runs on
  the bot library's state store. Only two parts are modelled: the date
  list that `handle_dates` keeps, through `DateListOfJoin`, and the command
  line that `handle_price` builds and hands to `track_command`, through
  `ParseCommandLine`.
- Concurrency: `asyncio.create_task`, `task.cancel()`, awaiting the
  cancelled task and the 100-second sleep. A task is a number; cancelling
  it adds it to a set; a task counts as done exactly when it has been
  cancelled, since `track_flight` never returns on its own. Awaiting a
  cancelled task is modelled only by its outcome: `/stop` catches the
  cancellation and goes on, while the stop button's handler lets it
  escape and ends without answering (`CallbackReply.Unanswered`).
  A loop can also end by raising: building the message calls
  `flight.get("airline", "").upper()` (utils/track_flight.py:39) outside
  any `try`, so an offer whose airline is null or not a string ends the
  task. Offers are modelled by their price only, so this end is not
  modelled. Such a task is done without being cancelled, and the stop
  button then skips the cancel and confirms the stop
  (handlers/list_tracks.py:72-81), where the model answers `Unanswered`.
- The price source (utils/aviasales_api.py) is the parameter
  `quote: string -> Offer`. It answers each date with no offer, an error
  answer, or an offer whose price may or may not convert to an integer.
  Each cycle of a loop carries its own answer.
- Track.Admit gives every copy of a date in one `/track` request the same
  answer `quote(date)`. The handler calls the price source once per copy
  (handlers/track.py:166), and a later call can return `None` or the error
  answer (utils/aviasales_api.py:27-34) where an earlier one found flights.
  `Classify`, `AdmitOne`, `AdmitLoop`, `AdmitDates` and `TrackCommand`
  share this assumption.
- Track.RepeatedDateAdmittedOnce names the reason a later copy is skipped
  (no free slot, or already tracked) under that assumption. With a second
  lookup that fails, the source skips the copy for "no flights found"
  instead; that the copy is not added holds either way, but it is not
  proved for lookups that disagree.
- The clock: `datetime.now()` is the parameter `today`, and `now.isoformat()`
  is the parameter `now`.
- The exceptions `track_command` catches beyond a wrong argument count
  (handlers/track.py:211-215). A missing message text and a store that
  raises are not modelled.
- The store failure that `stop_selected_tracker` swallows is the parameter
  `storeFails`. No other store call fails in this model, and the catch-all
  of `list_user_trackers` (handlers/list_tracks.py:49-51) is not modelled.
- `init_db`, the connection and the column migration. The `created_at`
  timestamp of a new user is not stored.
- Store order: SQLite returns rows without ORDER BY. The model fixes it as
  ascending row id, which is what a table with AUTOINCREMENT ids and no
  deletes gives in practice.
- PyStr.UpperChar and PyStr.LowerChar map only the ASCII letters and the
  Cyrillic block U+0400 to U+045F. Python's full Unicode case mapping is
  not modelled.
- Validators.ParseYmd reads ASCII digits only. The `\d` of `strptime`'s
  `%Y` and of the `[12]\d` branch of `%d` also matches the other Unicode
  decimal digits, so a date such as "２０３０-01-01" (full-width year) is
  valid in the source and refused here; `IsValidDate` inherits this.
- PyStr.ParseInt accepts ASCII digits only, with surrounding whitespace, an
  optional sign and single underscores between digits. The other Unicode
  digits that Python's `int()` accepts are not modelled.
- The date formatter and the price formatter of the button title are
  parameters. Their modules are not part of this model.
- The flight-status lookup's calls to the flight-data service, the ICAO
  lookups of airport and airline names, the coordinates (`to_float`), the
  map position and `format_dt` are not modelled. An endpoint carries its
  ICAO code in place of the city and name pairs looked up from it.
- Redis and the ICAO seed data are not part of this model.
- The source's airport literal repeats two keys with equal labels. The
  table here holds each key once, in first-insertion order, as the dict
  does.
