/**
 * The part of the flight-status lookup that decides the answer from what
 * the flight-data service returned: the status classification and the field
 * fallbacks. Every field the service may leave out is a string, empty when
 * absent (the lookups default to "" and a missing timestamp renders as "").
 * Timestamps are ISO strings and are compared as strings, as the source does.
 */
module FlightStatus {
  import opened Wrappers
  import opened PyStr

  /** One summary record (the fields read from the last item of the summary list). */
  datatype Summary = Summary(
    origIcao: string,
    destIcaoActual: string,
    destIcao: string,
    firstSeen: string,       // scheduled departure
    datetimeTakeoff: string, // estimated departure
    lastSeen: string,        // scheduled arrival
    datetimeLanded: string,  // estimated arrival
    flightEnded: bool,
    operatingAs: string,
    paintedAs: string,
    flight: string,
    callsign: string)

  datatype Status = Scheduled | Active | Landed | Departed

  datatype Endpoint = Endpoint(code: string, scheduled: string, estimated: string)

  datatype FlightInfo = FlightInfo(
    status: Status,
    flightNumber: string,
    departure: Endpoint,
    arrival: Endpoint,
    airline: string)

  /** Python's `a or b` on strings. */
  function Or(a: string, b: string): string {
    if a != "" then a else b
  }

  /** The status chosen for a record, given the live callsign ("" when none) and now's ISO text. */
  function Classify(activeCallsign: string, item: Summary, now: string): Status {
    var scheduledDep := item.firstSeen;
    var estimatedDep := item.datetimeTakeoff;
    var estimatedArr := item.datetimeLanded;
    if activeCallsign != "" then Active
    else if item.flightEnded || (estimatedArr != "" && LexLe(estimatedArr, now)) then Landed
    else if estimatedDep != "" || scheduledDep != "" then
      if estimatedDep != "" && estimatedArr == "" then Departed
      else
        var latestDep := Or(estimatedDep, scheduledDep);
        if latestDep != "" && LexLe(latestDep, now) then Departed else Scheduled
    else Scheduled
  }

  /** The flight number reported: flight, then callsign, then the live callsign, then the one asked for. */
  function NumberFinal(item: Summary, activeCallsign: string, requested: string): string {
    Or(Or(Or(item.flight, item.callsign), activeCallsign), requested)
  }

  /**
   * The lookup's answer: from the last summary record when there is one,
   * otherwise a bare "active" answer when the flight is live, otherwise none.
   * Airport cities and names come from a module that is not part of this
   * model, so the endpoints carry the ICAO codes they would be looked up by.
   */
  function StatusResult(items: seq<Summary>, activeCallsign: string, requested: string, now: string)
    : (r: Option<FlightInfo>)
    ensures r.None? <==> items == [] && activeCallsign == ""
  {
    if items != [] then
      var item := items[|items| - 1];
      Some(FlightInfo(
        Classify(activeCallsign, item, now),
        NumberFinal(item, activeCallsign, requested),
        Endpoint(item.origIcao, item.firstSeen, item.datetimeTakeoff),
        Endpoint(Or(item.destIcaoActual, item.destIcao), item.lastSeen, item.datetimeLanded),
        Or(item.operatingAs, item.paintedAs)))
    else if activeCallsign != "" then
      Some(FlightInfo(Active, Or(activeCallsign, requested), Endpoint("", "", ""), Endpoint("", "", ""), ""))
    else None
  }

  // ---------------------------------------------------------------------
  // What the classification means

  /** The record says the flight has come down by `now`. */
  predicate HasLanded(item: Summary, now: string) {
    item.flightEnded || (item.datetimeLanded != "" && LexLe(item.datetimeLanded, now))
  }

  /** The record says the flight has left by `now`: a takeoff with no landing yet, or a departure time not after `now`. */
  predicate HasLeft(item: Summary, now: string) {
    (item.datetimeTakeoff != "" && (item.datetimeLanded == "" || LexLe(item.datetimeTakeoff, now)))
    || (item.datetimeTakeoff == "" && item.firstSeen != "" && LexLe(item.firstSeen, now))
  }

  /** Each status, stated as the condition under which it is chosen. */
  lemma ClassifyMeaning(activeCallsign: string, item: Summary, now: string)
    ensures Classify(activeCallsign, item, now) == Active <==> activeCallsign != ""
    ensures Classify(activeCallsign, item, now) == Landed <==>
      activeCallsign == "" && HasLanded(item, now)
    ensures Classify(activeCallsign, item, now) == Departed <==>
      activeCallsign == "" && !HasLanded(item, now) && HasLeft(item, now)
    ensures Classify(activeCallsign, item, now) == Scheduled <==>
      activeCallsign == "" && !HasLanded(item, now) && !HasLeft(item, now)
  {
  }

  /** How far along a status is. */
  function Progress(s: Status): nat {
    match s
    case Scheduled => 0
    case Departed => 1
    case Landed => 2
    case Active => 3
  }

  /** Asked again later about the same record, the status never moves back. */
  lemma ClassifyMonotoneInTime(activeCallsign: string, item: Summary, now: string, later: string)
    requires LexLe(now, later)
    ensures Progress(Classify(activeCallsign, item, now)) <= Progress(Classify(activeCallsign, item, later))
  {
    ClassifyMeaning(activeCallsign, item, now);
    ClassifyMeaning(activeCallsign, item, later);
    if HasLanded(item, now) && item.datetimeLanded != "" && !item.flightEnded {
      LexLeTransitive(item.datetimeLanded, now, later);
    }
    if item.datetimeTakeoff != "" && LexLe(item.datetimeTakeoff, now) {
      LexLeTransitive(item.datetimeTakeoff, now, later);
    }
    if item.firstSeen != "" && LexLe(item.firstSeen, now) {
      LexLeTransitive(item.firstSeen, now, later);
    }
  }

  /** The fallbacks: the first non-empty candidate, in the source's order. */
  lemma FallbackOrder(items: seq<Summary>, activeCallsign: string, requested: string, now: string)
    requires items != []
    ensures var item := items[|items| - 1];
      var info := StatusResult(items, activeCallsign, requested, now).value;
      && (item.destIcaoActual != "" ==> info.arrival.code == item.destIcaoActual)
      && (item.destIcaoActual == "" ==> info.arrival.code == item.destIcao)
      && (item.flight != "" ==> info.flightNumber == item.flight)
      && (item.flight == "" && item.callsign != "" ==> info.flightNumber == item.callsign)
      && (item.flight == "" && item.callsign == "" && activeCallsign != "" ==> info.flightNumber == activeCallsign)
      && (item.flight == "" && item.callsign == "" && activeCallsign == "" ==> info.flightNumber == requested)
      && (item.operatingAs != "" ==> info.airline == item.operatingAs)
      && (item.operatingAs == "" ==> info.airline == item.paintedAs)
  {
  }

  /** Only the last summary record matters. */
  lemma LastRecordDecides(items: seq<Summary>, extra: Summary, activeCallsign: string, requested: string, now: string)
    ensures StatusResult(items + [extra], activeCallsign, requested, now)
         == StatusResult([extra], activeCallsign, requested, now)
  {
  }

  /** No summary but a live flight: "active", the live callsign, and blank endpoints and airline. */
  lemma LiveWithoutSummary(activeCallsign: string, requested: string, now: string)
    requires activeCallsign != ""
    ensures StatusResult([], activeCallsign, requested, now)
         == Some(FlightInfo(Active, activeCallsign, Endpoint("", "", ""), Endpoint("", "", ""), ""))
  {
  }

  /** A live callsign always gives "active", whatever the records say. */
  lemma LiveIsActive(items: seq<Summary>, activeCallsign: string, requested: string, now: string)
    requires activeCallsign != ""
    ensures StatusResult(items, activeCallsign, requested, now).value.status == Active
  {
  }
}
