/** One run of `main` after the user input is read: classify the address,
    fetch the quote, decide the alert. */
module Tracker {
  import opened Wrappers
  import opened Addresses
  import opened Quotes
  import opened Alerts

  /** How a run ends: the invalid-address error, the fetch-failure error, or
      a tracked quote with the alert decided for it. */
  datatype Run = InvalidAddress | FetchFailed | Tracking(quote: Quote, alert: Alert)

  /** `main` from the classification of the address to the alert decision. */
  function MainRun(
    address: string,
    upper: real,
    lower: real,
    fetch: string -> Option<Response>,
    parse: string -> Option<real>): (r: Run)
    ensures r.InvalidAddress? <==> Classify(address).None?
    ensures r.FetchFailed? <==> Classify(address).Some? && GetMemeCoinData(address, fetch, parse).None?
  {
    if Classify(address).None? then InvalidAddress
    else
      match GetMemeCoinData(address, fetch, parse)
      case None => FetchFailed
      case Some(quote) => Tracking(quote, Decide(upper, lower, quote.price))
  }

  /** An alert is only ever decided on a fetched quote: its price is the
      quote's, and the quote is for the chain the address was classified as,
      taken from the canonical pair of the response. */
  lemma AlertOnlyOnFetchedQuote(
    address: string,
    upper: real,
    lower: real,
    fetch: string -> Option<Response>,
    parse: string -> Option<real>)
    ensures var r := MainRun(address, upper, lower, fetch, parse);
      r.Tracking? ==>
      && GetMemeCoinData(address, fetch, parse) == Some(r.quote)
      && r.alert == Decide(upper, lower, r.quote.price)
      && Classify(address) == Some(r.quote.chain)
  {
    QuoteIsCanonical(address, fetch, parse);
  }
}
