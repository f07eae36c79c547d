/** The two `calculateAnalysis` functions: summary figures of the loaded
    closes next to the forecast, and a recommendation. The next-day page
    applies the four-way rule to the one-day forecast; the platform page
    applies the three-way rule to the last day of its multi-day forecast.
    `Math.sqrt` is the caller's `sqrt`, as in the forecast. */
module Analysis {
  import opened Ingest
  import opened Signals
  import opened Forecast
  import Paths

  /** `data.map(d => d.close)`. */
  function Closes(data: seq<PricePoint>): (c: seq<real>)
    ensures |c| == |data|
    ensures forall i :: 0 <= i < |data| ==> c[i] == data[i].close
    ensures (forall i :: 0 <= i < |data| ==> Stored(data[i])) ==> Positive(c)
  {
    seq(|data|, i requires 0 <= i < |data| => data[i].close)
  }

  /** The mean of positive closes is positive. */
  lemma MeanPositive(closes: seq<real>)
    requires |closes| >= 1 && Positive(closes)
    ensures Mean(closes) > 0.0
  {
    MeanBounds(closes);
  }

  /** `Math.sqrt(variance) / mean * 100`: the standard deviation of the
      closes as a percentage of their mean (shown rounded to two places). */
  function PriceVolatility(closes: seq<real>, sqrt: real -> real): (v: real)
    requires |closes| >= 1 && Positive(closes) && IsSqrt(sqrt)
    ensures v >= 0.0
    ensures (v * Mean(closes)) * (v * Mean(closes)) == 10000.0 * Variance(closes)
  {
    MeanPositive(closes);
    var sd := sqrt(Variance(closes));
    QuotientSign(sd, Mean(closes));
    PercentOfMean(sd, Mean(closes), Variance(closes));
    sd / Mean(closes) * 100.0
  }

  /** A root expressed as a percentage of m: times m it is 100 roots, so its
      square is 10000 times the radicand. */
  lemma PercentOfMean(sd: real, m: real, variance: real)
    requires m > 0.0 && sd * sd == variance
    ensures (sd / m * 100.0 * m) * (sd / m * 100.0 * m) == 10000.0 * variance
  {
    assert sd / m * m == sd;
    assert sd / m * 100.0 * m == 100.0 * sd;
  }

  /** A flat series of closes has no volatility. */
  lemma FlatPriceVolatility(closes: seq<real>, v: real, sqrt: real -> real)
    requires |closes| >= 1 && IsSqrt(sqrt)
    requires v > 0.0 && forall i :: 0 <= i < |closes| ==> closes[i] == v
    ensures PriceVolatility(closes, sqrt) == 0.0
  {
    VarianceConstant(closes, v);
    MeanPositive(closes);
    QuotientSign(0.0, Mean(closes));
  }

  // ----- the next-day page -----

  /** The analysis shown next to the one-day forecast (the fixed horizon
      label "1 Day" and the reason sentence are left out). */
  datatype DayAnalysis = DayAnalysis(currentPrice: real, predictedPrice: real, priceChange: real,
                                     recommendation: Recommendation, volatility: real, mean: real,
                                     dataPoints: nat, confidence: real)

  /** `calculateAnalysis` of the next-day page: the change and confidence
      come from the forecast; the recommendation is the four-way rule. */
  function AnalyzeDay(data: seq<PricePoint>, prediction: NextDay, sqrt: real -> real): (a: DayAnalysis)
    requires |data| >= 1 && (forall i :: 0 <= i < |data| ==> Stored(data[i])) && IsSqrt(sqrt)
    ensures a.currentPrice == data[|data| - 1].close
    ensures a.predictedPrice == prediction.predictedPrice && a.priceChange == prediction.change
    ensures a.recommendation == Classify(prediction.change, prediction.confidence)
    ensures a.mean == Mean(Closes(data)) && SeqMin(Closes(data)) <= a.mean <= SeqMax(Closes(data))
    ensures a.volatility == PriceVolatility(Closes(data), sqrt) && a.volatility >= 0.0
    ensures a.dataPoints == |data| && a.confidence == prediction.confidence
  {
    var closes := Closes(data);
    assert Positive(closes);
    assert closes[|closes| - 1] == data[|data| - 1].close;
    MeanBounds(closes);
    var volatility := PriceVolatility(closes, sqrt);
    var mean := Mean(closes);
    DayAnalysis(closes[|closes| - 1], prediction.predictedPrice, prediction.change,
                Classify(prediction.change, prediction.confidence),
                volatility, mean, |data|, prediction.confidence)
  }

  /** After uploading at least ten rows all closing at the same price, the
      next-day page forecasts that price, shows no volatility and advises to
      hold. */
  lemma FlatDataAnalysis(data: seq<PricePoint>, v: real, sqrt: real -> real)
    requires |data| >= 10 && (forall i :: 0 <= i < |data| ==> Stored(data[i])) && IsSqrt(sqrt)
    requires forall i :: 0 <= i < |data| ==> data[i].close == v
    ensures NextDayPrediction(Closes(data), sqrt).Some?
    ensures var a := AnalyzeDay(data, NextDayPrediction(Closes(data), sqrt).value, sqrt);
            a.recommendation == Hold && a.predictedPrice == a.currentPrice == a.mean == v && a.volatility == 0.0
  {
    var closes := Closes(data);
    assert Stored(data[0]);
    FlatSeriesForecast(closes, v, sqrt);
    FlatPriceVolatility(closes, v, sqrt);
    MeanConstant(closes, v);
  }

  /** The next-day change against the four-way rule's thresholds, for a
      positive current price: above 1.5% and below -1.5% exactly when the
      forecast passes 101.5% and 98.5% of the price, and within ±1% exactly
      when it stays strictly between 99% and 101% of it. */
  lemma DayThresholds(predicted: real, current: real)
    requires current > 0.0
    ensures PercentChange(predicted, current) > 1.5 <==> predicted > 1.015 * current
    ensures PercentChange(predicted, current) < -1.5 <==> predicted < 0.985 * current
    ensures -1.0 < PercentChange(predicted, current) < 1.0 <==> 0.99 * current < predicted < 1.01 * current
  {
    QuotientAgainst(predicted - current, current, 0.015);
    QuotientAgainst(predicted - current, current, -0.015);
    QuotientAgainst(predicted - current, current, 0.01);
    QuotientAgainst(predicted - current, current, -0.01);
  }

  /** After an upload of two or more rows, the next-day page advises BUY
      exactly when the forecast exceeds the last close by more than 1.5%
      with confidence above 70, SELL exactly when it falls more than 1.5%
      below it with that confidence, and HOLD exactly when it stays within
      1% of it. */
  lemma DayAdvice(data: seq<PricePoint>, sqrt: real -> real)
    requires |data| >= 2 && (forall i :: 0 <= i < |data| ==> Stored(data[i])) && IsSqrt(sqrt)
    ensures NextDayPrediction(Closes(data), sqrt).Some?
    ensures var a := AnalyzeDay(data, NextDayPrediction(Closes(data), sqrt).value, sqrt);
            && (a.recommendation == Buy <==> a.predictedPrice > 1.015 * a.currentPrice && a.confidence > 70.0)
            && (a.recommendation == Sell <==> a.predictedPrice < 0.985 * a.currentPrice && a.confidence > 70.0)
            && (a.recommendation == Hold <==> 0.99 * a.currentPrice < a.predictedPrice < 1.01 * a.currentPrice)
  {
    var closes := Closes(data);
    var p := NextDayPrediction(closes, sqrt).value;
    var a := AnalyzeDay(data, p, sqrt);
    assert Stored(data[|data| - 1]);
    assert a.currentPrice == p.currentPrice > 0.0;
    DayThresholds(a.predictedPrice, a.currentPrice);
  }

  // ----- the platform page -----

  /** The analysis shown next to the multi-day forecast. */
  datatype HorizonAnalysis = HorizonAnalysis(currentPrice: real, predictedPrice: real, priceChange: real,
                                             recommendation: Recommendation, volatility: real, mean: real,
                                             dataPoints: nat, predictionDays: nat)

  /** x / y against a threshold t, for positive y. */
  lemma QuotientAgainst(x: real, y: real, t: real)
    requires y > 0.0
    ensures x / y > t <==> x > t * y
    ensures x / y < t <==> x < t * y
  {
    assert x / y * y == x;
  }

  /** The platform's change is above +3% exactly when the forecast exceeds
      103% of the current price, and below -3% exactly when it falls under
      97% of it. */
  lemma ChangeThresholds(predicted: real, current: real)
    requires current > 0.0
    ensures PercentChange(predicted, current) > 3.0 <==> predicted > 1.03 * current
    ensures PercentChange(predicted, current) < -3.0 <==> predicted < 0.97 * current
  {
    QuotientAgainst(predicted - current, current, 0.03);
    QuotientAgainst(predicted - current, current, -0.03);
  }

  /** `calculateAnalysis` of the platform page: the change from the last
      close to the last forecast day, and the three-way rule on it. */
  function AnalyzeHorizon(data: seq<PricePoint>, predictions: seq<Paths.DayForecast>, sqrt: real -> real)
    : (a: HorizonAnalysis)
    requires |data| >= 1 && (forall i :: 0 <= i < |data| ==> Stored(data[i])) && IsSqrt(sqrt)
    requires |predictions| >= 1
    ensures a.currentPrice == data[|data| - 1].close > 0.0
    ensures a.predictedPrice == predictions[|predictions| - 1].predictedPrice
    ensures a.priceChange > 0.0 <==> a.predictedPrice > a.currentPrice
    ensures a.priceChange == PercentChange(a.predictedPrice, a.currentPrice)
    ensures a.recommendation == ClassifyHorizon(a.priceChange)
    ensures a.mean == Mean(Closes(data)) && SeqMin(Closes(data)) <= a.mean <= SeqMax(Closes(data))
    ensures a.volatility == PriceVolatility(Closes(data), sqrt) && a.volatility >= 0.0
    ensures a.dataPoints == |data| && a.predictionDays == |predictions|
  {
    var closes := Closes(data);
    var currentPrice := closes[|closes| - 1];
    var predictedPrice := predictions[|predictions| - 1].predictedPrice;
    var priceChange := PercentChange(predictedPrice, currentPrice);
    MeanBounds(closes);
    HorizonAnalysis(currentPrice, predictedPrice, priceChange, ClassifyHorizon(priceChange),
                    PriceVolatility(closes, sqrt), Mean(closes), |data|, |predictions|)
  }

  /** The platform advises to buy exactly when the last forecast day is
      above 103% of the last close, to wait exactly when it is below 97%, and
      to hold otherwise. */
  lemma HorizonAdvice(data: seq<PricePoint>, predictions: seq<Paths.DayForecast>, sqrt: real -> real)
    requires |data| >= 1 && (forall i :: 0 <= i < |data| ==> Stored(data[i])) && IsSqrt(sqrt)
    requires |predictions| >= 1
    ensures var a := AnalyzeHorizon(data, predictions, sqrt);
            && (a.recommendation == Buy <==> a.predictedPrice > 1.03 * a.currentPrice)
            && (a.recommendation == Wait <==> a.predictedPrice < 0.97 * a.currentPrice)
            && (a.recommendation == Hold <==> 0.97 * a.currentPrice <= a.predictedPrice <= 1.03 * a.currentPrice)
  {
    var a := AnalyzeHorizon(data, predictions, sqrt);
    assert Stored(data[|data| - 1]);
    ChangeThresholds(a.predictedPrice, a.currentPrice);
  }
}
