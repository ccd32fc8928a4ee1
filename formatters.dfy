/**
 * The two record formatters `formatKline` and `formatAggTrade`
 * (binanceUsClient.js:121-153). `new Date(ms).toISOString()` is the parameter `iso`.
 */
module Formatters {

  /** One element of a raw kline array: a number or a string. */
  datatype Cell = Number(n: int) | Text(s: string)

  /**
   * The shape of `KlineRaw`: 12 elements, numbers at 0 (open time), 6 (close time)
   * and 8 (number of trades), strings everywhere else.
   */
  predicate IsKlineRaw(k: seq<Cell>) {
    && |k| == 12
    && k[0].Number? && k[6].Number? && k[8].Number?
    && k[1].Text? && k[2].Text? && k[3].Text? && k[4].Text? && k[5].Text?
    && k[7].Text? && k[9].Text? && k[10].Text? && k[11].Text?
  }

  datatype FormattedKline = FormattedKline(
    openTime: int, openTimeISO: string,
    open: string, high: string, low: string, close: string, volume: string,
    closeTime: int, closeTimeISO: string,
    quoteAssetVolume: string, numberOfTrades: int,
    takerBuyBaseVolume: string, takerBuyQuoteVolume: string)

  /** `formatKline(kline)`: elements 0-10 become named fields, element 11 is dropped. */
  function FormatKline(k: seq<Cell>, iso: int -> string): (f: FormattedKline)
    requires IsKlineRaw(k)
    ensures f.openTimeISO == iso(f.openTime) && f.closeTimeISO == iso(f.closeTime)
  {
    FormattedKline(
      k[0].n, iso(k[0].n),
      k[1].s, k[2].s, k[3].s, k[4].s, k[5].s,
      k[6].n, iso(k[6].n),
      k[7].s, k[8].n,
      k[9].s, k[10].s)
  }

  /** The raw array a formatted kline came from, given the dropped element 11. */
  function UnformatKline(f: FormattedKline, ignore: string): (k: seq<Cell>)
    ensures IsKlineRaw(k)
  {
    [Number(f.openTime), Text(f.open), Text(f.high), Text(f.low), Text(f.close), Text(f.volume),
     Number(f.closeTime), Text(f.quoteAssetVolume), Number(f.numberOfTrades),
     Text(f.takerBuyBaseVolume), Text(f.takerBuyQuoteVolume), Text(ignore)]
  }

  /** Formatting loses nothing but element 11: putting it back rebuilds the raw array. */
  lemma FormatKlineRoundTrip(k: seq<Cell>, iso: int -> string)
    requires IsKlineRaw(k)
    ensures UnformatKline(FormatKline(k, iso), k[11].s) == k
  {
  }

  /** Element 11 has no influence on the formatted record. */
  lemma FormatKlineIgnoresLast(k: seq<Cell>, x: string, iso: int -> string)
    requires IsKlineRaw(k)
    ensures IsKlineRaw(k[11 := Text(x)])
    ensures FormatKline(k[11 := Text(x)], iso) == FormatKline(k, iso)
  {
  }

  /** `AggTradeResponse`, with the exchange's one-letter field names. */
  datatype AggTrade = AggTrade(a: int, p: string, q: string, f: int, l: int, T: int, m: bool, M: bool)

  datatype FormattedAggTrade = FormattedAggTrade(
    aggregateTradeId: int, price: string, quantity: string,
    firstTradeId: int, lastTradeId: int,
    timestamp: int, timestampISO: string,
    isBuyerMaker: bool, isBestMatch: bool)

  /** `formatAggTrade(trade)`: relabels every field and adds the ISO form of the trade time. */
  function FormatAggTrade(t: AggTrade, iso: int -> string): (r: FormattedAggTrade)
    ensures r.timestampISO == iso(r.timestamp)
  {
    FormattedAggTrade(t.a, t.p, t.q, t.f, t.l, t.T, iso(t.T), t.m, t.M)
  }

  function UnformatAggTrade(r: FormattedAggTrade): AggTrade {
    AggTrade(r.aggregateTradeId, r.price, r.quantity, r.firstTradeId, r.lastTradeId,
             r.timestamp, r.isBuyerMaker, r.isBestMatch)
  }

  /** Relabelling loses nothing: every field of the trade can be read back. */
  lemma FormatAggTradeRoundTrip(t: AggTrade, iso: int -> string)
    ensures UnformatAggTrade(FormatAggTrade(t, iso)) == t
  {
  }
}
