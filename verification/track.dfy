/**
 * `/track ORIGIN DEST DATE[,DATE...] PRICE`: parse the command line, check
 * the user's quota of active trackers, then classify each date in turn
 * (valid, free slot, flights found, not yet tracked); each admitted date
 * gets a tracker row and a price-watching loop registered under the
 * sender's telegram id. Also the flight-number clean-up of the status
 * dialogue.
 */
module Track {
  import opened Wrappers
  import opened PyStr
  import opened Validators
  import opened Offers
  import opened Store
  import opened TrackFlightLoop
  import opened Registry

  /** `MAX_ACTIVE_TRACKERS`. */
  const MaxActiveTrackers := 5

  // ---------------------------------------------------------------------
  // The command line

  datatype Command =
    | UsageError
    | BadPrice
    | Request(origin: string, destination: string, dates: seq<string>, priceLimit: int)

  /** `[d.strip() for d in pieces if d.strip()]`. */
  function CleanDates(pieces: seq<string>): seq<string> {
    if pieces == [] then []
    else
      var d := Strip(pieces[0]);
      (if d != [] then [d] else []) + CleanDates(pieces[1..])
  }

  /** Every date kept is non-empty and has no surrounding whitespace, and none is made up. */
  lemma {:induction false} CleanDatesClean(pieces: seq<string>)
    ensures |CleanDates(pieces)| <= |pieces|
    ensures forall k | 0 <= k < |CleanDates(pieces)| :: CleanDates(pieces)[k] != [] && Trimmed(CleanDates(pieces)[k])
    ensures forall d | d in CleanDates(pieces) :: exists k | 0 <= k < |pieces| :: d == Strip(pieces[k])
  {
    if pieces != [] {
      var d := Strip(pieces[0]);
      var head := if d != [] then [d] else [];
      var rest := CleanDates(pieces[1..]);
      StripTrimmed(pieces[0]);
      CleanDatesClean(pieces[1..]);
      assert CleanDates(pieces) == head + rest;
      forall k | 0 <= k < |head + rest| ensures (head + rest)[k] != [] && Trimmed((head + rest)[k]) {
        if k >= |head| { assert (head + rest)[k] == rest[k - |head|]; }
      }
      forall x | x in head + rest ensures exists k | 0 <= k < |pieces| :: x == Strip(pieces[k]) {
        if x in rest {
          var k :| 0 <= k < |pieces[1..]| && x == Strip(pieces[1..][k]);
          assert pieces[1..][k] == pieces[k + 1];
        } else {
          assert x == Strip(pieces[0]);
        }
      }
    }
  }

  /** The date list of the third argument: its comma-separated pieces, stripped, empty ones dropped. */
  function DateList(arg: string): seq<string> {
    CleanDates(SplitOn(arg, ','))
  }

  /** `message.text.split()[1:]`, then the checks and conversions of the handler. */
  function ParseCommand(text: string): Command {
    var words := Words(text);
    var args := if |words| == 0 then [] else words[1..];
    if |args| != 4 then UsageError
    else match ParseInt(args[3])
      case None => BadPrice
      case Some(p) => Request(Upper(Strip(args[0])), Upper(Strip(args[1])), DateList(args[2]), p)
  }

  /** Anything but a command word and exactly four arguments is a usage error; a bad price is reported only then. */
  lemma ParseCommandShape(text: string)
    ensures ParseCommand(text).UsageError? <==> |Words(text)| != 5
    ensures ParseCommand(text).BadPrice? <==> |Words(text)| == 5 && ParseInt(Words(text)[4]).None?
    ensures ParseCommand(text).Request? ==>
      var r := ParseCommand(text);
      var ws := Words(text);
      r.origin == Upper(ws[1]) && r.destination == Upper(ws[2]) && r.dates == DateList(ws[3])
      && Some(r.priceLimit) == ParseInt(ws[4])
  {
    var ws := Words(text);
    if |ws| == 5 {
      assert ws[1..][0] == ws[1] && ws[1..][1] == ws[2];
      StripOfTrimmed(ws[1]);
      StripOfTrimmed(ws[2]);
    }
  }

  /** A comma-free piece of text that needs no stripping comes back unchanged. */
  lemma {:induction false} CleanDatesOfClean(ds: seq<string>)
    requires forall k | 0 <= k < |ds| :: ds[k] != [] && Trimmed(ds[k])
    ensures CleanDates(ds) == ds
  {
    if ds != [] {
      StripOfTrimmed(ds[0]);
      CleanDatesOfClean(ds[1..]);
    }
  }

  /** `','.join(dates)` parses back to `dates`, as the date dialogue relies on. */
  lemma DateListOfJoin(ds: seq<string>)
    requires forall k | 0 <= k < |ds| :: ds[k] != [] && Trimmed(ds[k]) && ',' !in ds[k]
    ensures DateList(JoinWith(ds, ",")) == ds
  {
    if ds == [] {
      assert SplitOn("", ',') == [""];
    } else {
      JoinWithSplitOn(ds, ',');
      CleanDatesOfClean(ds);
    }
  }

  lemma {:induction false} WordLengthOfWord(w: string, rest: string)
    requires NoSpace(w)
    requires rest == [] || IsSpace(rest[0])
    ensures WordLength(w + rest) == |w|
  {
    if w != [] {
      assert (w + rest)[0] == w[0];
      assert (w + rest)[1..] == w[1..] + rest;
      WordLengthOfWord(w[1..], rest);
    }
  }

  /** `' '.join(ws).split() == ws` for non-empty words without whitespace. */
  lemma {:induction false} WordsOfJoin(ws: seq<string>)
    requires forall k | 0 <= k < |ws| :: |ws[k]| > 0 && NoSpace(ws[k])
    ensures Words(JoinWith(ws, " ")) == ws
  {
    if |ws| == 1 {
      WordLengthOfWord(ws[0], "");
      assert ws[0] + "" == ws[0];
      assert ws[0][|ws[0]|..] == [];
    } else if |ws| > 1 {
      var w := ws[0];
      var tail := JoinWith(ws[1..], " ");
      var s := JoinWith(ws, " ");
      assert s == w + (" " + tail);
      WordLengthOfWord(w, " " + tail);
      assert s[..|w|] == w && s[|w|..] == " " + tail;
      assert (" " + tail)[1..] == tail;
      WordsOfJoin(ws[1..]);
    }
  }

  lemma {:induction false} JoinNoSpace(ds: seq<string>, sep: string)
    requires NoSpace(sep)
    requires forall k | 0 <= k < |ds| :: NoSpace(ds[k])
    ensures NoSpace(JoinWith(ds, sep))
  {
    if |ds| > 1 {
      JoinNoSpace(ds[1..], sep);
      var t := JoinWith(ds[1..], sep);
      var s := ds[0] + sep + t;
      forall j | 0 <= j < |s| ensures !IsSpace(s[j]) {
        if j < |ds[0]| { assert s[j] == ds[0][j]; }
        else if j < |ds[0]| + |sep| { assert s[j] == sep[j - |ds[0]|]; }
        else { assert s[j] == t[j - |ds[0]| - |sep|]; }
      }
    }
  }

  /** The command the dialogue builds: `f"/track {origin} {destination} {','.join(dates)} {price_limit}"`. */
  function CommandLine(origin: string, destination: string, dates: seq<string>, priceLimit: int): string {
    JoinWith(["/track", origin, destination, JoinWith(dates, ","), IntToString(priceLimit)], " ")
  }

  /** The decimal text of an integer is a non-empty word. */
  lemma PriceIsWord(priceLimit: int)
    ensures |IntToString(priceLimit)| > 0 && NoSpace(IntToString(priceLimit))
  {
    var price := IntToString(priceLimit);
    forall j | 0 <= j < |price| ensures !IsSpace(price[j]) {
      if priceLimit < 0 && j > 0 { assert price[j] == NatToString(-priceLimit)[j - 1]; }
      else if priceLimit >= 0 { assert price[j] == NatToString(priceLimit)[j]; }
    }
  }

  /** A non-empty list of dates without whitespace joins into a non-empty word. */
  lemma DatesAreWord(dates: seq<string>)
    requires |dates| > 0 && forall k | 0 <= k < |dates| :: |dates[k]| > 0 && NoSpace(dates[k])
    ensures |JoinWith(dates, ",")| > 0 && NoSpace(JoinWith(dates, ","))
  {
    JoinNoSpace(dates, ",");
    if |dates| > 1 {
      assert JoinWith(dates, ",") == dates[0] + "," + JoinWith(dates[1..], ",");
    }
  }

  /**
   * A command line made of upper-case codes, a non-empty list of
   * whitespace- and comma-free dates and an integer parses back to exactly
   * those parts.
   */
  lemma ParseCommandLine(origin: string, destination: string, dates: seq<string>, priceLimit: int)
    requires |origin| > 0 && NoSpace(origin) && Upper(origin) == origin
    requires |destination| > 0 && NoSpace(destination) && Upper(destination) == destination
    requires |dates| > 0 && forall k | 0 <= k < |dates| :: |dates[k]| > 0 && NoSpace(dates[k]) && ',' !in dates[k]
    ensures ParseCommand(CommandLine(origin, destination, dates, priceLimit)) == Request(origin, destination, dates, priceLimit)
  {
    var joined := JoinWith(dates, ",");
    var price := IntToString(priceLimit);
    DatesAreWord(dates);
    PriceIsWord(priceLimit);
    var ws := ["/track", origin, destination, joined, price];
    assert NoSpace("/track");
    WordsOfJoin(ws);
    assert Words(CommandLine(origin, destination, dates, priceLimit)) == ws;
    assert ws[1..] == [origin, destination, joined, price];
    StripOfTrimmed(origin);
    StripOfTrimmed(destination);
    ParseIntOfIntToString(priceLimit);
    forall k | 0 <= k < |dates| ensures Trimmed(dates[k]) { }
    DateListOfJoin(dates);
  }

  // ---------------------------------------------------------------------
  // The flight number of the status dialogue

  /** `s` with every `c` deleted. */
  function Without(s: string, c: char): (r: string)
    ensures c !in r && |r| <= |s|
  {
    if s == [] then [] else (if s[0] == c then [] else [s[0]]) + Without(s[1..], c)
  }

  lemma {:induction false} ReplaceDeletes(s: string, c: char)
    ensures ReplaceAll(s, [c], []) == Without(s, c)
  {
    if s != [] {
      ReplaceDeletes(s[1..], c);
      if s[..1] == [c] {
        assert s[0] == c;
      } else {
        assert s[0] != c;
      }
    }
  }

  lemma {:induction false} WithoutAppend(a: string, b: string, c: char)
    ensures Without(a + b, c) == Without(a, c) + Without(b, c)
  {
    if a != [] {
      assert (a + b)[0] == a[0] && (a + b)[1..] == a[1..] + b;
      WithoutAppend(a[1..], b, c);
    } else {
      assert a + b == b;
    }
  }

  lemma {:induction false} WithoutAbsent(s: string, c: char)
    requires c !in s
    ensures Without(s, c) == s
  {
    if s != [] {
      WithoutAbsent(s[1..], c);
    }
  }

  /** Deleting spaces and upper-casing commute, since no character upper-cases to a space. */
  lemma {:induction false} UpperWithout(s: string)
    ensures Upper(Without(s, ' ')) == Without(Upper(s), ' ')
  {
    if s != [] {
      UpperWithout(s[1..]);
      var h := if s[0] == ' ' then [] else [s[0]];
      var u := UpperChar(s[0]);
      assert Without(s, ' ') == h + Without(s[1..], ' ');
      UpperAppend(h, Without(s[1..], ' '));
      assert Upper(h) == if u == ' ' then [] else [u];
      UpperTail(s);
      assert Without(Upper(s), ' ') == (if u == ' ' then [] else [u]) + Without(Upper(s[1..]), ' ');
    }
  }

  lemma TrimmedWithout(s: string)
    requires Trimmed(s)
    ensures Trimmed(Without(s, ' '))
  {
    if s != [] {
      var n := |s| - 1;
      assert s == s[..n] + [s[n]];
      WithoutAppend(s[..n], [s[n]], ' ');
      assert Without([s[n]], ' ') == [s[n]];
    }
  }

  lemma TrimmedUpper(s: string)
    requires Trimmed(s)
    ensures Trimmed(Upper(s))
  {
    if s != [] {
      UpperCharFacts(s[0]);
      UpperCharFacts(s[|s| - 1]);
    }
  }

  /** `(message.text or "").strip().upper().replace(" ", "")`, refused when shorter than three characters. */
  function FlightNumber(text: string): Option<string> {
    var n := ReplaceAll(Upper(Strip(text)), " ", "");
    if |n| < 3 then None else Some(n)
  }

  /**
   * An accepted flight number has at least three characters, no space, no
   * surrounding whitespace and no lower-case letter, and cleaning it again
   * gives it back.
   */
  lemma FlightNumberClean(text: string)
    requires FlightNumber(text).Some?
    ensures var n := FlightNumber(text).value;
      |n| >= 3 && ' ' !in n && Trimmed(n) && Upper(n) == n && FlightNumber(n) == Some(n)
  {
    var u := Upper(Strip(text));
    ReplaceDeletes(u, ' ');
    var n := Without(u, ' ');
    StripTrimmed(text);
    TrimmedUpper(Strip(text));
    TrimmedWithout(u);
    UpperWithout(u);
    UpperIdempotent(Strip(text));
    StripOfTrimmed(n);
    ReplaceDeletes(n, ' ');
    WithoutAbsent(n, ' ');
  }

  /** Spaces anywhere in the text do not matter. */
  lemma FlightNumberIgnoresSpaces(a: string, b: string)
    requires Trimmed(a) && Trimmed(b) && a != [] && b != []
    ensures FlightNumber(a + " " + b) == FlightNumber(a + b)
  {
    var s1, s2 := a + " " + b, a + b;
    assert s1[0] == a[0] && s1[|s1| - 1] == b[|b| - 1];
    assert s2[0] == a[0] && s2[|s2| - 1] == b[|b| - 1];
    StripOfTrimmed(s1);
    StripOfTrimmed(s2);
    ReplaceDeletes(Upper(s1), ' ');
    ReplaceDeletes(Upper(s2), ' ');
    SpaceVanishes(a, b);
  }

  lemma SpaceVanishes(a: string, b: string)
    ensures Without(Upper(a + " " + b), ' ') == Without(Upper(a + b), ' ')
  {
    var ua, ub := Upper(a), Upper(b);
    UpperAppend(a + " ", b);
    UpperAppend(a, " ");
    UpperAppend(a, b);
    assert Upper(" ") == " ";
    assert Upper(a + " " + b) == (ua + " ") + ub;
    WithoutAppend(ua + " ", ub, ' ');
    WithoutAppend(ua, " ", ' ');
    assert Without(" ", ' ') == [];
    assert Without(ua + " ", ' ') == Without(ua, ' ');
    WithoutAppend(ua, ub, ' ');
  }

  // ---------------------------------------------------------------------
  // Admission of the dates, as a specification

  datatype Reason = InvalidDate | NoFreeSlot | NoFlightsFound | AlreadyTracked

  datatype Decision = Added(date: string) | Skipped(date: string, reason: Reason)

  /**
   * The checks for one date, in the handler's order; `valid` is the date
   * test (`is_valid_date` against today), `slots` what is left of the
   * quota, `quote` the price source for this route, and `tracked` the
   * dates the user already tracks on this route.
   */
  function Classify(date: string, slots: int, valid: string -> bool, quote: string -> Offer, tracked: set<string>): Decision {
    if !valid(date) then Skipped(date, InvalidDate)
    else if slots <= 0 then Skipped(date, NoFreeSlot)
    else if !HasFlights(quote(date)) then Skipped(date, NoFlightsFound)
    else if date in tracked then Skipped(date, AlreadyTracked)
    else Added(date)
  }

  /** Each outcome of one date holds exactly when the checks before it passed and its own failed. */
  lemma ClassifyMeaning(date: string, slots: int, valid: string -> bool, quote: string -> Offer, tracked: set<string>)
    ensures Classify(date, slots, valid, quote, tracked).date == date
    ensures Classify(date, slots, valid, quote, tracked) == Skipped(date, InvalidDate)
        <==> !valid(date)
    ensures Classify(date, slots, valid, quote, tracked) == Skipped(date, NoFreeSlot)
        <==> valid(date) && slots <= 0
    ensures Classify(date, slots, valid, quote, tracked) == Skipped(date, NoFlightsFound)
        <==> valid(date) && slots > 0 && !HasFlights(quote(date))
    ensures Classify(date, slots, valid, quote, tracked) == Skipped(date, AlreadyTracked)
        <==> valid(date) && slots > 0 && HasFlights(quote(date)) && date in tracked
    ensures Classify(date, slots, valid, quote, tracked) == Added(date)
        <==> valid(date) && slots > 0 && HasFlights(quote(date)) && date !in tracked
  {
  }

  /**
   * The decisions for the dates in order; an admitted date uses a slot and
   * becomes tracked. Every lookup of one date gets the one answer
   * `quote(date)`, whereas the handler asks the price source again for each
   * copy of a date in the request.
   */
  function Admit(dates: seq<string>, slots: int, valid: string -> bool, quote: string -> Offer, tracked: set<string>): (r: seq<Decision>)
    ensures |r| == |dates|
    decreases |dates|
  {
    if dates == [] then []
    else
      var c := Classify(dates[0], slots, valid, quote, tracked);
      var rest := if c.Added? then Admit(dates[1..], slots - 1, valid, quote, tracked + {dates[0]})
                  else Admit(dates[1..], slots, valid, quote, tracked);
      [c] + rest
  }

  /** The slots left after a decision. */
  function SlotsAfter(c: Decision, slots: int): int {
    if c.Added? then slots - 1 else slots
  }

  /** The tracked dates after a decision on `date`. */
  function TrackedAfter(c: Decision, date: string, tracked: set<string>): set<string> {
    if c.Added? then tracked + {date} else tracked
  }

  /** The first decision, then the rest decided with what it left. */
  lemma AdmitCons(dates: seq<string>, slots: int, valid: string -> bool, quote: string -> Offer, tracked: set<string>)
    requires dates != []
    ensures var c := Classify(dates[0], slots, valid, quote, tracked);
      Admit(dates, slots, valid, quote, tracked)[0] == c
      && Admit(dates, slots, valid, quote, tracked)[1..]
         == Admit(dates[1..], SlotsAfter(c, slots), valid, quote, TrackedAfter(c, dates[0], tracked))
  {
  }

  /** `added_dates`. */
  function AddedOf(ds: seq<Decision>): seq<string> {
    if ds == [] then [] else (if ds[0].Added? then [ds[0].date] else []) + AddedOf(ds[1..])
  }

  /** `skipped`, as (date, reason) pairs. */
  function SkippedOf(ds: seq<Decision>): seq<(string, Reason)> {
    if ds == [] then [] else (if ds[0].Skipped? then [(ds[0].date, ds[0].reason)] else []) + SkippedOf(ds[1..])
  }

  /** The dates of the decisions, in order. */
  function DatesOf(ds: seq<Decision>): (r: seq<string>)
    ensures |r| == |ds| && forall k | 0 <= k < |ds| :: r[k] == ds[k].date
  {
    if ds == [] then [] else [ds[0].date] + DatesOf(ds[1..])
  }

  /** The dates of `skipped`. */
  function SkippedDates(ds: seq<Decision>): seq<string> {
    if ds == [] then [] else (if ds[0].Skipped? then [ds[0].date] else []) + SkippedDates(ds[1..])
  }

  /** Every decision goes to exactly one of the two lists. */
  lemma {:induction false} Partition(ds: seq<Decision>)
    ensures |AddedOf(ds)| + |SkippedOf(ds)| == |ds|
    ensures multiset(AddedOf(ds)) + multiset(SkippedDates(ds)) == multiset(DatesOf(ds))
  {
    if ds != [] {
      Partition(ds[1..]);
      assert DatesOf(ds) == [ds[0].date] + DatesOf(ds[1..]);
      assert AddedOf(ds) == (if ds[0].Added? then [ds[0].date] else []) + AddedOf(ds[1..]);
      assert SkippedDates(ds) == (if ds[0].Skipped? then [ds[0].date] else []) + SkippedDates(ds[1..]);
    }
  }

  /** The skipped list carries the dates of the skipped decisions with their reasons. */
  lemma {:induction false} SkippedPairs(ds: seq<Decision>)
    ensures |SkippedOf(ds)| == |SkippedDates(ds)|
    ensures forall k | 0 <= k < |SkippedOf(ds)| :: SkippedOf(ds)[k].0 == SkippedDates(ds)[k]
  {
    if ds != [] {
      SkippedPairs(ds[1..]);
      var hs := if ds[0].Skipped? then [(ds[0].date, ds[0].reason)] else [];
      var hd := if ds[0].Skipped? then [ds[0].date] else [];
      assert SkippedOf(ds) == hs + SkippedOf(ds[1..]);
      assert SkippedDates(ds) == hd + SkippedDates(ds[1..]);
      forall k | 0 <= k < |SkippedOf(ds)| ensures SkippedOf(ds)[k].0 == SkippedDates(ds)[k] {
        if k >= |hs| {
          assert SkippedOf(ds)[k] == SkippedOf(ds[1..])[k - |hs|];
          assert SkippedDates(ds)[k] == SkippedDates(ds[1..])[k - |hd|];
        }
      }
    }
  }

  /** The dates are decided in input order, each exactly once. */
  lemma {:induction false} DatesOfAdmit(dates: seq<string>, slots: int, valid: string -> bool, quote: string -> Offer, tracked: set<string>)
    ensures DatesOf(Admit(dates, slots, valid, quote, tracked)) == dates
  {
    if dates != [] {
      var r := Admit(dates, slots, valid, quote, tracked);
      var c := Classify(dates[0], slots, valid, quote, tracked);
      AdmitCons(dates, slots, valid, quote, tracked);
      DatesOfAdmit(dates[1..], SlotsAfter(c, slots), valid, quote, TrackedAfter(c, dates[0], tracked));
      assert DatesOf(r) == [r[0].date] + DatesOf(r[1..]);
      assert dates == [dates[0]] + dates[1..];
    }
  }

  /** At most the free slots are used: none when the quota is already full. */
  lemma {:induction false} AdmitWithinQuota(dates: seq<string>, slots: int, valid: string -> bool, quote: string -> Offer, tracked: set<string>)
    ensures |AddedOf(Admit(dates, slots, valid, quote, tracked))| <= if slots <= 0 then 0 else slots
  {
    if dates != [] {
      var r := Admit(dates, slots, valid, quote, tracked);
      var c := Classify(dates[0], slots, valid, quote, tracked);
      AdmitCons(dates, slots, valid, quote, tracked);
      AdmitWithinQuota(dates[1..], SlotsAfter(c, slots), valid, quote, TrackedAfter(c, dates[0], tracked));
      assert AddedOf(r) == (if c.Added? then [dates[0]] else []) + AddedOf(r[1..]);
    }
  }

  /** Every date of `added` passed every check and was not tracked, and none appears twice. */
  predicate Admissible(added: seq<string>, valid: string -> bool, quote: string -> Offer, tracked: set<string>) {
    && (forall k | 0 <= k < |added| :: valid(added[k]) && HasFlights(quote(added[k])) && added[k] !in tracked)
    && (forall k, l | 0 <= k < l < |added| :: added[k] != added[l])
  }

  lemma {:induction false} AdmittedDates(dates: seq<string>, slots: int, valid: string -> bool, quote: string -> Offer, tracked: set<string>)
    ensures Admissible(AddedOf(Admit(dates, slots, valid, quote, tracked)), valid, quote, tracked)
    ensures forall x | x in AddedOf(Admit(dates, slots, valid, quote, tracked)) :: x in dates
  {
    if dates != [] {
      var r := Admit(dates, slots, valid, quote, tracked);
      var c := Classify(dates[0], slots, valid, quote, tracked);
      var tl := if c.Added? then tracked + {dates[0]} else tracked;
      var sl := if c.Added? then slots - 1 else slots;
      assert r[1..] == Admit(dates[1..], sl, valid, quote, tl);
      AdmittedDates(dates[1..], sl, valid, quote, tl);
      var rest := AddedOf(r[1..]);
      assert Admissible(rest, valid, quote, tl);
      assert AddedOf(r) == (if c.Added? then [dates[0]] else []) + rest;
      if c.Added? {
        ClassifyMeaning(dates[0], slots, valid, quote, tracked);
        var added := [dates[0]] + rest;
        forall k, l | 0 <= k < l < |added| ensures added[k] != added[l] {
          assert added[l] == rest[l - 1];
          if k > 0 { assert added[k] == rest[k - 1]; }
        }
        forall k | 0 <= k < |added| ensures valid(added[k]) && HasFlights(quote(added[k])) && added[k] !in tracked {
          if k > 0 { assert added[k] == rest[k - 1]; }
        }
      }
      forall x | x in AddedOf(r) ensures x in dates {
        if x != dates[0] { assert x in rest; }
      }
    }
  }

  /** A date already tracked is never admitted: it fails an earlier check, or is out of slots, or is a duplicate. */
  lemma {:induction false} TrackedNotAdmitted(dates: seq<string>, slots: int, valid: string -> bool, quote: string -> Offer, tracked: set<string>)
    ensures forall k | 0 <= k < |dates| && dates[k] in tracked && valid(dates[k]) && HasFlights(quote(dates[k])) ::
      Admit(dates, slots, valid, quote, tracked)[k] in {Skipped(dates[k], NoFreeSlot), Skipped(dates[k], AlreadyTracked)}
  {
    if dates != [] {
      var r := Admit(dates, slots, valid, quote, tracked);
      var c := Classify(dates[0], slots, valid, quote, tracked);
      var sl, tl := SlotsAfter(c, slots), TrackedAfter(c, dates[0], tracked);
      AdmitCons(dates, slots, valid, quote, tracked);
      TrackedNotAdmitted(dates[1..], sl, valid, quote, tl);
      forall k | 0 <= k < |dates| && dates[k] in tracked && valid(dates[k]) && HasFlights(quote(dates[k]))
        ensures r[k] in {Skipped(dates[k], NoFreeSlot), Skipped(dates[k], AlreadyTracked)}
      {
        if k > 0 {
          assert r[k] == r[1..][k - 1] && dates[k] == dates[1..][k - 1];
          assert dates[k] in tl;
        }
      }
    }
  }

  /**
   * A date given twice is admitted at most once: the later copy finds no
   * slot or finds it tracked. The reason relies on both copies getting the
   * same answer from `quote`; a second lookup that failed would skip the
   * copy for no flights instead, and the copy would still not be added.
   */
  lemma {:induction false} RepeatedDateAdmittedOnce(dates: seq<string>, slots: int, valid: string -> bool, quote: string -> Offer,
                                                    tracked: set<string>, i: nat, j: nat)
    requires i < j < |dates| && dates[i] == dates[j]
    requires Admit(dates, slots, valid, quote, tracked)[i].Added?
    ensures Admit(dates, slots, valid, quote, tracked)[j] in {Skipped(dates[j], NoFreeSlot), Skipped(dates[j], AlreadyTracked)}
  {
    var r := Admit(dates, slots, valid, quote, tracked);
    var c := Classify(dates[0], slots, valid, quote, tracked);
    var sl, tl := SlotsAfter(c, slots), TrackedAfter(c, dates[0], tracked);
    AdmitCons(dates, slots, valid, quote, tracked);
    assert r[j] == r[1..][j - 1] && dates[j] == dates[1..][j - 1];
    if i == 0 {
      ClassifyMeaning(dates[0], slots, valid, quote, tracked);
      assert dates[j] in tl;
      TrackedNotAdmitted(dates[1..], sl, valid, quote, tl);
    } else {
      assert r[i] == r[1..][i - 1] && dates[i] == dates[1..][i - 1];
      RepeatedDateAdmittedOnce(dates[1..], sl, valid, quote, tl, i - 1, j - 1);
    }
  }

  // ---------------------------------------------------------------------
  // The handler

  /** `is_valid_date` against a fixed today. */
  function ValidOn(today: Date): string -> bool {
    d => IsValidDate(d, today)
  }

  /** The dates this user already tracks, actively, on this route. */
  function TrackedDates(trackers: Trackers, userId: int, origin: string, destination: string): set<string> {
    set id | id in trackers && Matches(trackers[id], userId, origin, destination, trackers[id].date) :: trackers[id].date
  }

  lemma TrackedDatesMeaning(trackers: Trackers, userId: int, origin: string, destination: string, date: string)
    ensures date in TrackedDates(trackers, userId, origin, destination) <==> Exists(trackers, userId, origin, destination, date)
  {
    if Exists(trackers, userId, origin, destination, date) {
      var id :| id in trackers && Matches(trackers[id], userId, origin, destination, date);
      assert trackers[id].date == date;
    }
  }

  /** The rows inserted for the admitted dates: `firstId + i` for the i-th. */
  function Inserted(trackers: Trackers, userId: int, origin: string, destination: string,
                    added: seq<string>, priceLimit: int, firstId: int): Trackers
  {
    if added == [] then trackers
    else
      var n := |added| - 1;
      Inserted(trackers, userId, origin, destination, added[..n], priceLimit, firstId)
        [firstId + n := Tracker(userId, origin, destination, added[n], priceLimit, true, None)]
  }

  /** The loops started for the admitted dates: task `base + i` watches the i-th, starting from the offer its lookup found. */
  function Started(loops: map<TaskId, LoopArgs>, base: nat, telegramId: int, origin: string, destination: string,
                   added: seq<string>, priceLimit: int, firstId: int, quote: string -> Offer): map<TaskId, LoopArgs>
  {
    if added == [] then loops
    else
      var n := |added| - 1;
      Started(loops, base, telegramId, origin, destination, added[..n], priceLimit, firstId, quote)
        [base + n := LoopArgs(telegramId, origin, destination, added[n], priceLimit, Some(firstId + n), quote(added[n]))]
  }

  /** `user_tasks` after `n` tasks from `base` on were appended for this telegram id. */
  function Appended(userTasks: map<int, seq<TaskId>>, telegramId: int, base: nat, n: nat): map<int, seq<TaskId>> {
    if n == 0 then userTasks else AddTask(Appended(userTasks, telegramId, base, n - 1), telegramId, base + n - 1)
  }

  /** The task ids `base, base + 1, ..., base + n - 1`. */
  function NewTasks(base: nat, n: nat): (r: seq<TaskId>)
    ensures |r| == n && forall i | 0 <= i < n :: r[i] == base + i
  {
    if n == 0 then [] else NewTasks(base, n - 1) + [base + n - 1]
  }

  /** The new tasks go to the end of this user's list, in order; no other list changes, and none is created for nothing. */
  lemma {:induction false} AppendedMeaning(userTasks: map<int, seq<TaskId>>, telegramId: int, base: nat, n: nat, other: int)
    ensures TasksOf(Appended(userTasks, telegramId, base, n), telegramId) == TasksOf(userTasks, telegramId) + NewTasks(base, n)
    ensures other != telegramId ==>
      (other in Appended(userTasks, telegramId, base, n) <==> other in userTasks)
      && TasksOf(Appended(userTasks, telegramId, base, n), other) == TasksOf(userTasks, other)
    ensures n == 0 ==> Appended(userTasks, telegramId, base, n) == userTasks
    ensures n > 0 ==> telegramId in Appended(userTasks, telegramId, base, n)
  {
    if n > 0 {
      var prev := Appended(userTasks, telegramId, base, n - 1);
      AppendedMeaning(userTasks, telegramId, base, n - 1, other);
      assert Appended(userTasks, telegramId, base, n) == prev[telegramId := TasksOf(prev, telegramId) + [base + n - 1]];
      assert NewTasks(base, n) == NewTasks(base, n - 1) + [base + n - 1];
    }
  }

  datatype TrackReply =
    | Usage
    | WrongPrice
    | QuotaFull(activeCount: nat)
    | Report(added: seq<string>, skipped: seq<(string, Reason)>)

  /** The fields of the store and of the registry that the date loop changes. */
  datatype Fields = Fields(trackers: Trackers, nextTrackerId: int, userTasks: map<int, seq<TaskId>>,
                           loops: map<TaskId, LoopArgs>, nextTask: TaskId)

  function FieldsOf(db: Database, reg: TaskRegistry): Fields
    reads db, reg
  {
    Fields(db.trackers, db.nextTrackerId, reg.userTasks, reg.loops, reg.nextTask)
  }

  /** The admission of one date on these fields: the next tracker id gets the row, the next task runs its loop and joins the sender's list. */
  function AddedFields(f: Fields, telegramId: int, userId: int, origin: string, destination: string,
                       date: string, priceLimit: int, flight: Offer): Fields
  {
    Fields(f.trackers[f.nextTrackerId := Tracker(userId, origin, destination, date, priceLimit, true, None)],
           f.nextTrackerId + 1,
           AddTask(f.userTasks, telegramId, f.nextTask),
           f.loops[f.nextTask := LoopArgs(telegramId, origin, destination, date, priceLimit, Some(f.nextTrackerId), flight)],
           f.nextTask + 1)
  }

  /** The admission of one date: insert the row, start its loop and append the task to the sender's list. */
  method AddOne(db: Database, reg: TaskRegistry, telegramId: int, userId: int, origin: string, destination: string,
                date: string, priceLimit: int, flight: Offer)
    requires db.Valid() && reg.Valid()
    modifies db, reg
    ensures db.Valid() && reg.Valid()
    ensures old(db.nextTrackerId) !in old(db.trackers)
    ensures FieldsOf(db, reg) == AddedFields(old(FieldsOf(db, reg)), telegramId, userId, origin, destination, date, priceLimit, flight)
    ensures db.users == old(db.users) && db.nextUserId == old(db.nextUserId)
    ensures reg.trackerTasks == old(reg.trackerTasks) && reg.cancelled == old(reg.cancelled)
  {
    var trackerId := db.AddFlightTracker(userId, origin, destination, date, priceLimit);
    if telegramId !in reg.userTasks {
      reg.userTasks := reg.userTasks[telegramId := []];
    }
    var task := reg.Spawn(LoopArgs(telegramId, origin, destination, date, priceLimit, Some(trackerId), flight));
    reg.userTasks := reg.userTasks[telegramId := reg.userTasks[telegramId] + [task]];
  }

  /** The specification of the date loop, one date further on. */
  lemma AdmitStep(dates: seq<string>, i: nat, slots: int, valid: string -> bool, quote: string -> Offer, tracked: set<string>, c: Decision)
    requires i < |dates|
    requires c == Classify(dates[i], slots, valid, quote, tracked)
    ensures Admit(dates[i..], slots, valid, quote, tracked)
         == [c] + Admit(dates[i + 1..], SlotsAfter(c, slots), valid, quote, TrackedAfter(c, dates[i], tracked))
  {
    assert dates[i..][0] == dates[i];
    assert dates[i..][1..] == dates[i + 1..];
  }

  /** The loop's account of the decisions, one date further on. */
  lemma DecidedStep(full: seq<Decision>, decided: seq<Decision>, dates: seq<string>, i: nat, slots: int,
                    valid: string -> bool, quote: string -> Offer, tracked: set<string>, c: Decision)
    requires i < |dates|
    requires c == Classify(dates[i], slots, valid, quote, tracked)
    requires full == decided + Admit(dates[i..], slots, valid, quote, tracked)
    ensures full == (decided + [c]) + Admit(dates[i + 1..], SlotsAfter(c, slots), valid, quote, TrackedAfter(c, dates[i], tracked))
  {
    var rest := Admit(dates[i + 1..], SlotsAfter(c, slots), valid, quote, TrackedAfter(c, dates[i], tracked));
    AdmitStep(dates, i, slots, valid, quote, tracked, c);
    assert decided + ([c] + rest) == (decided + [c]) + rest;
  }

  lemma {:induction false} AddedOfAppend(ds: seq<Decision>, c: Decision)
    ensures AddedOf(ds + [c]) == AddedOf(ds) + (if c.Added? then [c.date] else [])
    ensures SkippedOf(ds + [c]) == SkippedOf(ds) + (if c.Skipped? then [(c.date, c.reason)] else [])
  {
    if ds == [] {
      assert [] + [c] == [c];
    } else {
      assert (ds + [c])[0] == ds[0];
      assert (ds + [c])[1..] == ds[1..] + [c];
      AddedOfAppend(ds[1..], c);
    }
  }

  /** Where the date loop stands: the dates admitted so far, from `start` on, have their rows, loops and tasks, in order. */
  ghost predicate Progress(now: Fields, start: Fields, telegramId: int, userId: int, origin: string, destination: string,
                           priceLimit: int, quote: string -> Offer, added: seq<string>)
  {
    && now.trackers == Inserted(start.trackers, userId, origin, destination, added, priceLimit, start.nextTrackerId)
    && now.nextTrackerId == start.nextTrackerId + |added|
    && CountActive(now.trackers, userId) == CountActive(start.trackers, userId) + |added|
    && now.userTasks == Appended(start.userTasks, telegramId, start.nextTask, |added|)
    && now.loops == Started(start.loops, start.nextTask, telegramId, origin, destination, added, priceLimit,
                            start.nextTrackerId, quote)
    && now.nextTask == start.nextTask + |added|
  }

  /** Admitting one more date, with the offer its lookup found, keeps the account of the date loop. */
  lemma ProgressStep(now: Fields, start: Fields, telegramId: int, userId: int, origin: string, destination: string,
                     priceLimit: int, quote: string -> Offer, added: seq<string>, date: string)
    requires Progress(now, start, telegramId, userId, origin, destination, priceLimit, quote, added)
    requires now.nextTrackerId !in now.trackers
    ensures Progress(AddedFields(now, telegramId, userId, origin, destination, date, priceLimit, quote(date)),
                     start, telegramId, userId, origin, destination, priceLimit, quote, added + [date])
  {
    var row := Tracker(userId, origin, destination, date, priceLimit, true, None);
    var after := AddedFields(now, telegramId, userId, origin, destination, date, priceLimit, quote(date));
    var added' := added + [date];
    assert after.trackers == Inserted(start.trackers, userId, origin, destination, added', priceLimit, start.nextTrackerId) by {
      InsertedSnoc(start.trackers, userId, origin, destination, added, date, priceLimit, start.nextTrackerId);
    }
    assert CountActive(after.trackers, userId) == CountActive(start.trackers, userId) + |added'| by {
      CountAfterInsert(now.trackers, now.nextTrackerId, row, userId);
    }
    assert after.userTasks == Appended(start.userTasks, telegramId, start.nextTask, |added'|);
    assert after.loops == Started(start.loops, start.nextTask, telegramId, origin, destination, added', priceLimit,
                                  start.nextTrackerId, quote) by {
      StartedSnoc(start.loops, start.nextTask, telegramId, origin, destination, added, date, priceLimit, start.nextTrackerId, quote);
    }
  }

  lemma InsertedSnoc(trackers: Trackers, userId: int, origin: string, destination: string,
                     added: seq<string>, date: string, priceLimit: int, firstId: int)
    ensures Inserted(trackers, userId, origin, destination, added + [date], priceLimit, firstId)
         == Inserted(trackers, userId, origin, destination, added, priceLimit, firstId)
              [firstId + |added| := Tracker(userId, origin, destination, date, priceLimit, true, None)]
  {
    assert (added + [date])[..|added|] == added;
  }

  lemma StartedSnoc(loops: map<TaskId, LoopArgs>, base: nat, telegramId: int, origin: string, destination: string,
                    added: seq<string>, date: string, priceLimit: int, firstId: int, quote: string -> Offer)
    ensures Started(loops, base, telegramId, origin, destination, added + [date], priceLimit, firstId, quote)
         == Started(loops, base, telegramId, origin, destination, added, priceLimit, firstId, quote)
              [base + |added| := LoopArgs(telegramId, origin, destination, date, priceLimit, Some(firstId + |added|), quote(date))]
  {
    assert (added + [date])[..|added|] == added;
  }

  /** A new active row for this user and route adds its date to the tracked dates, and nothing else. */
  lemma TrackedDatesInsert(trackers: Trackers, id: int, userId: int, origin: string, destination: string, date: string,
                           priceLimit: int)
    requires id !in trackers
    ensures TrackedDates(trackers[id := Tracker(userId, origin, destination, date, priceLimit, true, None)], userId, origin, destination)
         == TrackedDates(trackers, userId, origin, destination) + {date}
  {
    var row := Tracker(userId, origin, destination, date, priceLimit, true, None);
    forall x ensures x in TrackedDates(trackers[id := row], userId, origin, destination)
                 <==> x in TrackedDates(trackers, userId, origin, destination) + {date}
    {
      TrackedDatesMeaning(trackers[id := row], userId, origin, destination, x);
      TrackedDatesMeaning(trackers, userId, origin, destination, x);
      ExistsAfterInsert(trackers, id, row, userId, origin, destination, x);
    }
  }

  /** The checks of the date loop for one date, and the admission when they all pass. */
  method AdmitOne(db: Database, reg: TaskRegistry, telegramId: int, userId: int, origin: string, destination: string,
                  date: string, priceLimit: int, allowedSlots: int, today: Date, quote: string -> Offer, ghost tracked: set<string>)
    returns (c: Decision)
    requires db.Valid() && reg.Valid()
    requires Exists(db.trackers, userId, origin, destination, date) <==> date in tracked
    modifies db, reg
    ensures c == Classify(date, allowedSlots, ValidOn(today), quote, tracked)
    ensures db.Valid() && reg.Valid()
    ensures db.users == old(db.users) && db.nextUserId == old(db.nextUserId)
    ensures reg.trackerTasks == old(reg.trackerTasks) && reg.cancelled == old(reg.cancelled)
    ensures c.Added? ==> old(db.nextTrackerId) !in old(db.trackers)
    ensures FieldsOf(db, reg) ==
      if c.Added? then AddedFields(old(FieldsOf(db, reg)), telegramId, userId, origin, destination, date, priceLimit, quote(date))
      else old(FieldsOf(db, reg))
  {
    // 1) format, or a day in the past
    if !IsValidDate(date, today) {
      return Skipped(date, InvalidDate);
    }
    // 2) a free slot
    if allowedSlots <= 0 {
      return Skipped(date, NoFreeSlot);
    }
    // 3) the price source knows flights for this route and date
    var flight := quote(date);
    if !HasFlights(flight) {
      return Skipped(date, NoFlightsFound);
    }
    // 4) not tracked already
    var alreadyTracked := db.TrackerExists(userId, origin, destination, date);
    if alreadyTracked {
      return Skipped(date, AlreadyTracked);
    }
    // all checks passed: admit the date
    AddOne(db, reg, telegramId, userId, origin, destination, date, priceLimit, flight);
    return Added(date);
  }

  /**
   * Where the date loop stands after `i` dates: the decisions so far followed by the specification on the rest
   * give the specification on all dates; the replies list the decisions; the tracked dates and the fields match.
   */
  ghost predicate Account(now: Fields, start: Fields, telegramId: int, userId: int, origin: string, destination: string,
                          priceLimit: int, today: Date, quote: string -> Offer, dates: seq<string>, slots: int, i: int,
                          added: seq<string>, skipped: seq<(string, Reason)>, allowedSlots: int,
                          tracked: set<string>, decided: seq<Decision>)
  {
    && 0 <= i <= |dates|
    && allowedSlots == slots - |added|
    && Admit(dates, slots, ValidOn(today), quote, TrackedDates(start.trackers, userId, origin, destination))
       == decided + Admit(dates[i..], allowedSlots, ValidOn(today), quote, tracked)
    && added == AddedOf(decided) && skipped == SkippedOf(decided)
    && tracked == TrackedDates(now.trackers, userId, origin, destination)
    && Progress(now, start, telegramId, userId, origin, destination, priceLimit, quote, added)
  }

  /** The account of the date loop, one date further on, given the decision on that date and the fields it left. */
  lemma AccountStep(now: Fields, after: Fields, start: Fields, telegramId: int, userId: int, origin: string, destination: string,
                    priceLimit: int, today: Date, quote: string -> Offer, dates: seq<string>, slots: int, i: int,
                    added: seq<string>, skipped: seq<(string, Reason)>, allowedSlots: int,
                    tracked: set<string>, decided: seq<Decision>, c: Decision)
    requires i < |dates|
    requires Account(now, start, telegramId, userId, origin, destination, priceLimit, today, quote,
                     dates, slots, i, added, skipped, allowedSlots, tracked, decided)
    requires c == Classify(dates[i], allowedSlots, ValidOn(today), quote, tracked)
    requires c.Added? ==> now.nextTrackerId !in now.trackers
    requires after == if c.Added? then AddedFields(now, telegramId, userId, origin, destination, dates[i], priceLimit, quote(dates[i]))
                      else now
    ensures Account(after, start, telegramId, userId, origin, destination, priceLimit, today, quote, dates, slots, i + 1,
                    if c.Added? then added + [dates[i]] else added,
                    if c.Added? then skipped else skipped + [(dates[i], c.reason)],
                    if c.Added? then allowedSlots - 1 else allowedSlots,
                    if c.Added? then tracked + {dates[i]} else tracked,
                    decided + [c])
  {
    var full := Admit(dates, slots, ValidOn(today), quote, TrackedDates(start.trackers, userId, origin, destination));
    DecidedStep(full, decided, dates, i, allowedSlots, ValidOn(today), quote, tracked, c);
    AddedOfAppend(decided, c);
    if c.Added? {
      TrackedDatesInsert(now.trackers, now.nextTrackerId, userId, origin, destination, dates[i], priceLimit);
      ProgressStep(now, start, telegramId, userId, origin, destination, priceLimit, quote, added, dates[i]);
    }
  }

  /** One turn of the date loop: `AdmitOne` on the i-th date, with the loop's account carried one date further. */
  method AdmitNext(db: Database, reg: TaskRegistry, telegramId: int, userId: int, origin: string, destination: string,
                   priceLimit: int, today: Date, quote: string -> Offer, dates: seq<string>, slots: int, i: int,
                   added: seq<string>, skipped: seq<(string, Reason)>, allowedSlots: int,
                   ghost start: Fields, ghost tracked: set<string>, ghost decided: seq<Decision>)
    returns (added': seq<string>, skipped': seq<(string, Reason)>, allowedSlots': int,
             ghost tracked': set<string>, ghost decided': seq<Decision>)
    requires i < |dates|
    requires db.Valid() && reg.Valid()
    requires Account(FieldsOf(db, reg), start, telegramId, userId, origin, destination, priceLimit, today, quote,
                     dates, slots, i, added, skipped, allowedSlots, tracked, decided)
    modifies db, reg
    ensures db.Valid() && reg.Valid()
    ensures Account(FieldsOf(db, reg), start, telegramId, userId, origin, destination, priceLimit, today, quote,
                    dates, slots, i + 1, added', skipped', allowedSlots', tracked', decided')
    ensures db.users == old(db.users) && db.nextUserId == old(db.nextUserId)
    ensures reg.trackerTasks == old(reg.trackerTasks) && reg.cancelled == old(reg.cancelled)
  {
    var date := dates[i];
    ghost var now := FieldsOf(db, reg);
    TrackedDatesMeaning(db.trackers, userId, origin, destination, date);
    var c := AdmitOne(db, reg, telegramId, userId, origin, destination, date, priceLimit, allowedSlots, today, quote, tracked);
    AccountStep(now, FieldsOf(db, reg), start, telegramId, userId, origin, destination, priceLimit, today, quote,
                dates, slots, i, added, skipped, allowedSlots, tracked, decided, c);
    decided' := decided + [c];
    if c.Added? {
      added', skipped', allowedSlots', tracked' := added + [date], skipped, allowedSlots - 1, tracked + {date};
    } else {
      added', skipped', allowedSlots', tracked' := added, skipped + [(date, c.reason)], allowedSlots, tracked;
    }
  }

  /**
   * What the date loop does to the fields of the store and the registry, given `slots` free places: the replies
   * list the admitted and the skipped dates of the specification, and every admitted date has its row, its loop
   * and its task, in order.
   */
  ghost predicate DatesAdmitted(before: Fields, after: Fields, telegramId: int, userId: int, origin: string,
                                destination: string, dates: seq<string>, priceLimit: int, slots: int, today: Date,
                                quote: string -> Offer, added: seq<string>, skipped: seq<(string, Reason)>)
  {
    var ds := Admit(dates, slots, ValidOn(today), quote, TrackedDates(before.trackers, userId, origin, destination));
    && added == AddedOf(ds) && skipped == SkippedOf(ds)
    && after.trackers == Inserted(before.trackers, userId, origin, destination, added, priceLimit, before.nextTrackerId)
    && after.nextTrackerId == before.nextTrackerId + |added|
    && CountActive(after.trackers, userId) == CountActive(before.trackers, userId) + |added|
    && after.userTasks == Appended(before.userTasks, telegramId, before.nextTask, |added|)
    && after.loops == Started(before.loops, before.nextTask, telegramId, origin, destination, added, priceLimit,
                              before.nextTrackerId, quote)
    && after.nextTask == before.nextTask + |added|
  }

  /** The date loop of `track_command`. */
  method AdmitDates(db: Database, reg: TaskRegistry, telegramId: int, userId: int, origin: string, destination: string,
                    dates: seq<string>, priceLimit: int, slots: int, today: Date, quote: string -> Offer)
    returns (added: seq<string>, skipped: seq<(string, Reason)>)
    requires db.Valid() && reg.Valid()
    modifies db, reg
    ensures db.Valid() && reg.Valid()
    ensures DatesAdmitted(old(FieldsOf(db, reg)), FieldsOf(db, reg), telegramId, userId, origin, destination, dates,
                          priceLimit, slots, today, quote, added, skipped)
    ensures db.users == old(db.users) && db.nextUserId == old(db.nextUserId)
    ensures reg.trackerTasks == old(reg.trackerTasks) && reg.cancelled == old(reg.cancelled)
  {
    ghost var decided;
    added, skipped, decided := AdmitLoop(db, reg, telegramId, userId, origin, destination, dates, priceLimit, slots, today, quote);
  }

  /** The loop itself, with the decisions it took. */
  method AdmitLoop(db: Database, reg: TaskRegistry, telegramId: int, userId: int, origin: string, destination: string,
                   dates: seq<string>, priceLimit: int, slots: int, today: Date, quote: string -> Offer)
    returns (added: seq<string>, skipped: seq<(string, Reason)>, ghost decided: seq<Decision>)
    requires db.Valid() && reg.Valid()
    modifies db, reg
    ensures db.Valid() && reg.Valid()
    ensures decided == Admit(dates, slots, ValidOn(today), quote, TrackedDates(old(db.trackers), userId, origin, destination))
    ensures added == AddedOf(decided) && skipped == SkippedOf(decided)
    ensures Progress(FieldsOf(db, reg), old(FieldsOf(db, reg)), telegramId, userId, origin, destination, priceLimit, quote, added)
    ensures db.users == old(db.users) && db.nextUserId == old(db.nextUserId)
    ensures reg.trackerTasks == old(reg.trackerTasks) && reg.cancelled == old(reg.cancelled)
  {
    ghost var start := FieldsOf(db, reg);
    ghost var tracked := TrackedDates(db.trackers, userId, origin, destination);
    added, skipped := [], [];
    var allowedSlots := slots;
    decided := [];
    assert dates[0..] == dates;
    for i := 0 to |dates|
      invariant db.Valid() && reg.Valid()
      invariant Account(FieldsOf(db, reg), start, telegramId, userId, origin, destination, priceLimit, today, quote,
                        dates, slots, i, added, skipped, allowedSlots, tracked, decided)
      invariant db.users == old(db.users) && db.nextUserId == old(db.nextUserId)
      invariant reg.trackerTasks == old(reg.trackerTasks) && reg.cancelled == old(reg.cancelled)
    {
      added, skipped, allowedSlots, tracked, decided := AdmitNext(db, reg, telegramId, userId, origin, destination,
        priceLimit, today, quote, dates, slots, i, added, skipped, allowedSlots, start, tracked, decided);
    }
    assert dates[|dates|..] == [];
  }

  /**
   * What serving a well-formed `/track` request does to the fields of the store and the registry: with the quota
   * full nothing changes; otherwise the date loop runs with the free places, and the quota still holds after it.
   */
  ghost predicate Served(before: Fields, after: Fields, telegramId: int, userId: int, origin: string, destination: string,
                         dates: seq<string>, priceLimit: int, today: Date, quote: string -> Offer, reply: TrackReply)
  {
    var count := CountActive(before.trackers, userId);
    var slots := MaxActiveTrackers - count;
    if slots <= 0 then
      reply == QuotaFull(count) && after == before
    else
      && reply.Report?
      && DatesAdmitted(before, after, telegramId, userId, origin, destination, dates, priceLimit, slots, today, quote,
                       reply.added, reply.skipped)
      && CountActive(after.trackers, userId) <= MaxActiveTrackers
  }

  /** `track_command` for a message from this telegram id and username, with today's date and the price source given. */
  method TrackCommand(db: Database, reg: TaskRegistry, telegramId: int, username: Option<string>, text: string,
                      today: Date, quote: string -> Offer)
    returns (reply: TrackReply, ghost userId: int)
    requires db.Valid() && reg.Valid()
    modifies db, reg
    ensures db.Valid() && reg.Valid()
    ensures match ParseCommand(text)
      // a malformed command or price is answered, and nothing changes
      case UsageError =>
        reply == Usage && FieldsOf(db, reg) == old(FieldsOf(db, reg))
        && db.users == old(db.users) && db.nextUserId == old(db.nextUserId)
      case BadPrice =>
        reply == WrongPrice && FieldsOf(db, reg) == old(FieldsOf(db, reg))
        && db.users == old(db.users) && db.nextUserId == old(db.nextUserId)
      // otherwise the sender is a user, and the request is served
      case Request(origin, destination, dates, priceLimit) =>
        && Registered(old(db.users), old(db.nextUserId), db.users, db.nextUserId, userId, telegramId, username)
        && Served(old(FieldsOf(db, reg)), FieldsOf(db, reg), telegramId, userId, origin, destination, dates, priceLimit,
                  today, quote, reply)
    // the tracker-task map is never touched, and nothing is cancelled
    ensures reg.trackerTasks == old(reg.trackerTasks) && reg.cancelled == old(reg.cancelled)
  {
    userId := 0;
    var cmd := ParseCommand(text);
    if cmd.UsageError? {
      return Usage, userId;
    }
    if cmd.BadPrice? {
      return WrongPrice, userId;
    }
    reply, userId := TrackRequest(db, reg, telegramId, username, cmd.origin, cmd.destination, cmd.dates, cmd.priceLimit,
                                  today, quote);
  }

  /** `track_command` once the four arguments are read: register the sender, check the quota, then the date loop. */
  method TrackRequest(db: Database, reg: TaskRegistry, telegramId: int, username: Option<string>,
                      origin: string, destination: string, dates: seq<string>, priceLimit: int,
                      today: Date, quote: string -> Offer)
    returns (reply: TrackReply, ghost userId: int)
    requires db.Valid() && reg.Valid()
    modifies db, reg
    ensures db.Valid() && reg.Valid()
    ensures Registered(old(db.users), old(db.nextUserId), db.users, db.nextUserId, userId, telegramId, username)
    ensures Served(old(FieldsOf(db, reg)), FieldsOf(db, reg), telegramId, userId, origin, destination, dates, priceLimit,
                   today, quote, reply)
    ensures reg.trackerTasks == old(reg.trackerTasks) && reg.cancelled == old(reg.cancelled)
  {
    var uid := db.AddUser(telegramId, username);
    userId := uid;
    reply := ServeRequest(db, reg, telegramId, uid, origin, destination, dates, priceLimit, today, quote);
  }

  /** The quota check and the date loop of `track_command`, for the user the sender was registered as. */
  method ServeRequest(db: Database, reg: TaskRegistry, telegramId: int, userId: int,
                      origin: string, destination: string, dates: seq<string>, priceLimit: int,
                      today: Date, quote: string -> Offer)
    returns (reply: TrackReply)
    requires db.Valid() && reg.Valid()
    modifies db, reg
    ensures db.Valid() && reg.Valid()
    ensures Served(old(FieldsOf(db, reg)), FieldsOf(db, reg), telegramId, userId, origin, destination, dates, priceLimit,
                   today, quote, reply)
    ensures db.users == old(db.users) && db.nextUserId == old(db.nextUserId)
    ensures reg.trackerTasks == old(reg.trackerTasks) && reg.cancelled == old(reg.cancelled)
  {
    var activeCount := db.CountActiveTrackers(userId);
    var allowedSlots := MaxActiveTrackers - activeCount;
    if allowedSlots <= 0 {
      return QuotaFull(activeCount);
    }
    var added, skipped := AdmitDates(db, reg, telegramId, userId, origin, destination, dates,
                                     priceLimit, allowedSlots, today, quote);
    AdmitWithinQuota(dates, allowedSlots, ValidOn(today), quote, TrackedDates(old(db.trackers), userId, origin, destination));
    reply := Report(added, skipped);
  }
}
