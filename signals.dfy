/** The two recommendation rules: the four-way rule of the next-day page,
    which weighs the forecast's confidence, and the three-way rule of the
    multi-day page, which does not. */
module Signals {

  datatype Recommendation = Buy | Sell | Hold | Wait

  function Abs(x: real): real {
    if x < 0.0 then -x else x
  }

  /** The next-day rule, tried in order: BUY on a rise above 1.5% with
      confidence above 70, SELL on a fall below -1.5% with confidence above
      70, HOLD when the move is under 1% either way, WAIT otherwise. Read
      rule by rule without the order, each outcome has its own exact
      condition. */
  function Classify(change: real, confidence: real): (r: Recommendation)
    ensures r == Buy <==> change > 1.5 && confidence > 70.0
    ensures r == Sell <==> change < -1.5 && confidence > 70.0
    ensures r == Hold <==> -1.0 < change < 1.0
    ensures r == Wait <==> (change <= -1.0 || change >= 1.0) && (Abs(change) <= 1.5 || confidence <= 70.0)
  {
    if change > 1.5 && confidence > 70.0 then Buy
    else if change < -1.5 && confidence > 70.0 then Sell
    else if Abs(change) < 1.0 then Hold
    else Wait
  }

  /** The multi-day rule: WAIT below -3%, BUY above 3%, HOLD otherwise; it
      never answers SELL. */
  function ClassifyHorizon(change: real): (r: Recommendation)
    ensures r == Wait <==> change < -3.0
    ensures r == Buy <==> change > 3.0
    ensures r == Hold <==> -3.0 <= change <= 3.0
    ensures r != Sell
  {
    if change < -3.0 then Wait
    else if change > 3.0 then Buy
    else Hold
  }
}
