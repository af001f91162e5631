/**
 * What the price source answers for one route and date: nothing (no flight,
 * or a request that failed), an error marker (the service said it did not
 * succeed), or the cheapest offer. Only the offer's price matters here.
 */
module Offers {
  /** The offer's `"price"` as `int(...)` sees it. */
  datatype PriceField = NoPrice | Convertible(value: int) | NotConvertible

  datatype Offer = NoOffer | ApiError | Found(price: PriceField)

  /** Python truthiness of the answer: `None` is false, either dict is true. */
  predicate Truthy(o: Offer) {
    !o.NoOffer?
  }

  /** The test used when a tracker is created: an answer that is truthy and carries no error. */
  predicate HasFlights(o: Offer) {
    o.Found?
  }

  /** `int(flight.get("price", 0))`, with any conversion failure read as 0. */
  function PriceOf(o: Offer): int {
    match o
    case Found(Convertible(n)) => n
    case _ => 0
  }
}
