/**
 * `track_flight`: the per-tracker loop that fetches the cheapest offer,
 * decides whether to notify, and remembers the last price it sent. The
 * endless loop is run over a finite sequence of cycles; each cycle says
 * what the price source answered and whether the store read, the message
 * send and the store write succeeded. The pause between cycles and the
 * message text are not modelled.
 */
module TrackFlightLoop {
  import opened Wrappers
  import opened Offers
  import opened Store

  /** The arguments a loop is started with. */
  datatype LoopArgs = LoopArgs(
    telegramId: int,
    origin: string,
    destination: string,
    date: string,
    priceLimit: int,
    trackerId: Option<int>,
    initial: Offer)

  /** What one cycle meets: the fetched answer and which side effects succeed. */
  datatype Cycle = Cycle(fetched: Offer, readOk: bool, sendOk: bool, writeOk: bool)

  /** What one cycle did. `written` says the last-sent update was issued. */
  datatype Event = Idle | Quiet(price: int) | SendFailed(price: int) | Sent(to: int, price: int, written: bool)

  /** The answer cycle `i` works on: the initial offer in cycle 0 when it is truthy, else a fresh fetch. */
  function OfferAt(initial: Offer, c: Cycle, i: nat): Offer {
    if i == 0 && Truthy(initial) then initial else c.fetched
  }

  /** Both comparisons are strict. */
  predicate ShouldNotify(price: int, limit: int, lastSent: Option<int>) {
    price < limit && (lastSent.None? || price < lastSent.value)
  }

  /** One cycle, as a change of the trackers table. */
  function Step(args: LoopArgs, offer: Offer, c: Cycle, trackers: Trackers): (Event, Trackers) {
    if !Truthy(offer) then (Idle, trackers)
    else
      var p := PriceOf(offer);
      var last := if args.trackerId.Some? && c.readOk then LastSent(trackers, args.trackerId.value) else None;
      if !ShouldNotify(p, args.priceLimit, last) then (Quiet(p), trackers)
      else if !c.sendOk then (SendFailed(p), trackers)
      else if args.trackerId.Some? && c.writeOk then
        (Sent(args.telegramId, p, true), WithLastSent(trackers, args.trackerId.value, p))
      else (Sent(args.telegramId, p, false), trackers)
  }

  /** The events of the given cycles, in order, and the trackers table they leave behind. */
  function Run(args: LoopArgs, cycles: seq<Cycle>, trackers: Trackers): (seq<Event>, Trackers)
    decreases |cycles|
  {
    if cycles == [] then ([], trackers)
    else
      var n := |cycles| - 1;
      var (events, t) := Run(args, cycles[..n], trackers);
      var (e, t') := Step(args, OfferAt(args.initial, cycles[n], n), cycles[n], t);
      (events + [e], t')
  }

  /** The prices written to the store, in order. */
  function Written(events: seq<Event>): seq<int> {
    if events == [] then []
    else
      var e := events[|events| - 1];
      Written(events[..|events| - 1]) + (if e.Sent? && e.written then [e.price] else [])
  }

  /** `track_flight`, cycle by cycle as the source runs it, against the store. */
  method TrackFlight(db: Database, args: LoopArgs, cycles: seq<Cycle>) returns (events: seq<Event>)
    requires db.Valid()
    modifies db
    ensures db.Valid()
    ensures (events, db.trackers) == Run(args, cycles, old(db.trackers))
    ensures db.users == old(db.users) && db.nextUserId == old(db.nextUserId)
    ensures db.nextTrackerId == old(db.nextTrackerId)
  {
    var first := true;
    events := [];
    var i := 0;
    while i < |cycles|
      invariant 0 <= i <= |cycles|
      invariant db.Valid()
      invariant first <==> i == 0 || !Truthy(args.initial)
      invariant (events, db.trackers) == Run(args, cycles[..i], old(db.trackers))
      invariant db.users == old(db.users) && db.nextUserId == old(db.nextUserId)
      invariant db.nextTrackerId == old(db.nextTrackerId)
    {
      var c := cycles[i];
      assert cycles[..i + 1][..i] == cycles[..i];
      var flight: Offer;
      if first && Truthy(args.initial) {
        flight := args.initial;
        first := false;
      } else {
        flight := c.fetched;
      }
      if Truthy(flight) {
        var price := PriceOf(flight);
        var lastSent: Option<int> := None;
        if args.trackerId.Some? && c.readOk {
          lastSent := db.GetLastSentPrice(args.trackerId.value);
        }
        var shouldNotify := false;
        if price < args.priceLimit {
          if lastSent.None? || price < lastSent.value {
            shouldNotify := true;
          }
        }
        if shouldNotify {
          if c.sendOk {
            var written := false;
            if args.trackerId.Some? && c.writeOk {
              db.UpdateLastSentPrice(args.trackerId.value, price);
              written := true;
            }
            events := events + [Sent(args.telegramId, price, written)];
          } else {
            events := events + [SendFailed(price)];
          }
        } else {
          events := events + [Quiet(price)];
        }
      } else {
        events := events + [Idle];
      }
      i := i + 1;
    }
    assert cycles[..|cycles|] == cycles;
  }

  // ---------------------------------------------------------------------
  // One cycle

  /** With a successful read, a cycle notifies exactly when the price is under the limit and under the stored price. */
  lemma NotifyWhenReadSucceeds(args: LoopArgs, offer: Offer, c: Cycle, trackers: Trackers)
    requires args.trackerId.Some? && c.readOk
    ensures var e := Step(args, offer, c, trackers).0;
      var last := LastSent(trackers, args.trackerId.value);
      (e.Sent? || e.SendFailed?) <==>
        Truthy(offer) && PriceOf(offer) < args.priceLimit && (last.None? || PriceOf(offer) < last.value)
  {
  }

  /** With no tracker id or a failed read, the stored price is ignored: only the limit decides. */
  lemma NotifyWhenNothingRead(args: LoopArgs, offer: Offer, c: Cycle, trackers: Trackers)
    requires args.trackerId.None? || !c.readOk
    ensures var e := Step(args, offer, c, trackers).0;
      (e.Sent? || e.SendFailed?) <==> Truthy(offer) && PriceOf(offer) < args.priceLimit
  {
  }

  /** A price equal to the limit, or equal to the stored price, never notifies. */
  lemma EqualPriceIsQuiet(args: LoopArgs, offer: Offer, c: Cycle, trackers: Trackers)
    requires Truthy(offer)
    requires PriceOf(offer) == args.priceLimit
          || (args.trackerId.Some? && c.readOk && LastSent(trackers, args.trackerId.value) == Some(PriceOf(offer)))
    ensures Step(args, offer, c, trackers) == (Quiet(PriceOf(offer)), trackers)
  {
  }

  /** An error answer is truthy and reads as price 0, so it notifies whenever 0 would. */
  lemma ErrorAnswerIsPriceZero(args: LoopArgs, c: Cycle, trackers: Trackers)
    requires args.trackerId.None? || !c.readOk
    ensures var e := Step(args, ApiError, c, trackers).0;
      (e.Sent? || e.SendFailed?) <==> 0 < args.priceLimit
    ensures Step(args, ApiError, c, trackers).0 != Idle
  {
  }

  /** No answer: no read, no send, no write. */
  lemma FalsyAnswerDoesNothing(args: LoopArgs, c: Cycle, trackers: Trackers)
    ensures Step(args, NoOffer, c, trackers) == (Idle, trackers)
  {
  }

  /** The table changes only through a write of this cycle's price after a successful send. */
  lemma StoreChangesOnlyAfterSend(args: LoopArgs, offer: Offer, c: Cycle, trackers: Trackers)
    ensures var (e, t) := Step(args, offer, c, trackers);
      t == trackers
      || (c.sendOk && c.writeOk && args.trackerId.Some?
          && e == Sent(args.telegramId, PriceOf(offer), true)
          && t == WithLastSent(trackers, args.trackerId.value, PriceOf(offer)))
    ensures !c.sendOk ==> Step(args, offer, c, trackers).1 == trackers
  {
  }

  // ---------------------------------------------------------------------
  // Whole runs

  lemma WrittenAppend(events: seq<Event>, e: Event)
    ensures Written(events + [e]) == Written(events) + (if e.Sent? && e.written then [e.price] else [])
  {
    assert (events + [e])[..|events|] == events;
  }

  /** A run touches only the last-sent price of its own tracker, and adds or removes no row. */
  lemma {:induction false} RunTouchesOnlyItsPrice(args: LoopArgs, cycles: seq<Cycle>, trackers: Trackers)
    ensures Run(args, cycles, trackers).1.Keys == trackers.Keys
    ensures forall j | j in trackers ::
      var t := Run(args, cycles, trackers).1;
      t[j] == trackers[j].(lastSent := t[j].lastSent) && (args.trackerId != Some(j) ==> t[j] == trackers[j])
    decreases |cycles|
  {
    if cycles != [] {
      var n := |cycles| - 1;
      RunTouchesOnlyItsPrice(args, cycles[..n], trackers);
    }
  }

  predicate AllReadsSucceed(cycles: seq<Cycle>) {
    forall i | 0 <= i < |cycles| :: cycles[i].readOk
  }

  /** Descending: each element strictly below the one before it. */
  predicate StrictlyDecreasing(w: seq<int>) {
    forall i, j | 0 <= i < j < |w| :: w[j] < w[i]
  }

  /** With a successful read, a written price is under the limit and under the stored one, and becomes the stored one. */
  lemma StepWrite(args: LoopArgs, offer: Offer, c: Cycle, t: Trackers)
    requires args.trackerId.Some? && args.trackerId.value in t && c.readOk
    ensures var (e, t') := Step(args, offer, c, t);
      var id := args.trackerId.value;
      if e.Sent? && e.written then
        e.price < args.priceLimit && (LastSent(t, id).None? || e.price < LastSent(t, id).value)
        && LastSent(t', id) == Some(e.price)
      else LastSent(t', id) == LastSent(t, id)
  {
  }

  lemma DecreasingAppend(w: seq<int>, p: int)
    requires StrictlyDecreasing(w)
    requires w != [] ==> p < w[|w| - 1]
    ensures StrictlyDecreasing(w + [p])
  {
    var w' := w + [p];
    forall i, j | 0 <= i < j < |w'| ensures w'[j] < w'[i] {
      if j == |w| && i < |w| - 1 {
        assert w[|w| - 1] < w[i];
      }
    }
  }

  /**
   * With every read succeeding, each price written is below the limit and
   * strictly below the one written before it (and below the price stored at
   * the start), and the stored price is always the last one written.
   */
  lemma {:induction false} WrittenPricesDescend(args: LoopArgs, cycles: seq<Cycle>, trackers: Trackers)
    requires args.trackerId.Some? && args.trackerId.value in trackers
    requires AllReadsSucceed(cycles)
    ensures StrictlyDecreasing(Written(Run(args, cycles, trackers).0))
    ensures forall p | p in Written(Run(args, cycles, trackers).0) :: p < args.priceLimit
    ensures var w := Written(Run(args, cycles, trackers).0);
      var start := LastSent(trackers, args.trackerId.value);
      w != [] && start.Some? ==> w[0] < start.value
    ensures var w := Written(Run(args, cycles, trackers).0);
      LastSent(Run(args, cycles, trackers).1, args.trackerId.value)
        == (if w == [] then LastSent(trackers, args.trackerId.value) else Some(w[|w| - 1]))
    decreases |cycles|
  {
    if cycles != [] {
      var n := |cycles| - 1;
      assert AllReadsSucceed(cycles[..n]) by {
        forall i | 0 <= i < n ensures cycles[..n][i].readOk { assert cycles[..n][i] == cycles[i]; }
      }
      WrittenPricesDescend(args, cycles[..n], trackers);
      RunTouchesOnlyItsPrice(args, cycles[..n], trackers);
      var r := Run(args, cycles[..n], trackers);
      var step := Step(args, OfferAt(args.initial, cycles[n], n), cycles[n], r.1);
      assert Run(args, cycles, trackers) == (r.0 + [step.0], step.1);
      StepWrite(args, OfferAt(args.initial, cycles[n], n), cycles[n], r.1);
      WrittenAppend(r.0, step.0);
      var w := Written(r.0);
      if step.0.Sent? && step.0.written {
        DecreasingAppend(w, step.0.price);
        assert (w + [step.0.price])[0] == if w == [] then step.0.price else w[0];
      }
    }
  }

  /** With a read that fails, a higher price than the stored one is sent and written. */
  lemma FailedReadCanRaiseStoredPrice()
    ensures var args := LoopArgs(7, "LED", "KGD", "2025-08-04", 1000, Some(1), NoOffer);
      var trackers := map[1 := Tracker(1, "LED", "KGD", "2025-08-04", 1000, true, Some(100))];
      var cycles := [Cycle(Found(Convertible(500)), false, true, true)];
      LastSent(Run(args, cycles, trackers).1, 1) == Some(500)
  {
    var args := LoopArgs(7, "LED", "KGD", "2025-08-04", 1000, Some(1), NoOffer);
    var cycles := [Cycle(Found(Convertible(500)), false, true, true)];
    assert cycles[..0] == [];
  }

  /** The initial offer stands in for the first fetch when it is truthy, and is never used again. */
  function WithInitialFetched(initial: Offer, cycles: seq<Cycle>): seq<Cycle> {
    if cycles != [] && Truthy(initial) then cycles[0 := cycles[0].(fetched := initial)] else cycles
  }

  lemma {:induction false} InitialOfferOnlyFirst(args: LoopArgs, cycles: seq<Cycle>, trackers: Trackers)
    ensures Run(args, cycles, trackers)
         == Run(args.(initial := NoOffer), WithInitialFetched(args.initial, cycles), trackers)
    decreases |cycles|
  {
    var args' := args.(initial := NoOffer);
    var s := WithInitialFetched(args.initial, cycles);
    if cycles != [] {
      var n := |cycles| - 1;
      if n > 0 {
        InitialOfferOnlyFirst(args, cycles[..n], trackers);
        assert s[..n] == WithInitialFetched(args.initial, cycles[..n]);
      } else {
        assert s[..n] == [] && cycles[..n] == [];
      }
      assert s[n].fetched == OfferAt(args.initial, cycles[n], n);
    }
  }
}
