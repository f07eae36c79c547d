/** The platform page's two price-path generators: a drifting multiplicative
    walk presented as an LSTM forecast, and a batch of independent walks
    presented as a Monte Carlo simulation. Every call to `Math.random()` is
    replaced by the next value of an explicit `draws` sequence, so each
    generator is a deterministic function of its draws. */
module Paths {
  import opened Ingest
  import Forecast

  /** A value `Math.random()` can return. */
  predicate IsDraw(r: real) {
    0.0 <= r < 1.0
  }

  predicate AllDraws(rs: seq<real>) {
    forall i :: 0 <= i < |rs| ==> IsDraw(rs[i])
  }

  predicate AllPositive(fs: seq<real>) {
    forall i :: 0 <= i < |fs| ==> fs[i] > 0.0
  }

  // ----- walks -----

  /** The price after applying the step factors in order to `start`. */
  function PriceAfter(start: real, factors: seq<real>): real {
    if factors == [] then start
    else PriceAfter(start, factors[..|factors| - 1]) * factors[|factors| - 1]
  }

  /** Positive factors keep a positive price positive. */
  lemma {:induction false} PriceAfterPositive(start: real, factors: seq<real>)
    requires start > 0.0 && AllPositive(factors)
    ensures PriceAfter(start, factors) > 0.0
  {
    if factors != [] {
      var init := factors[..|factors| - 1];
      PriceAfterPositive(start, init);
      Forecast.MulPositive(PriceAfter(start, init), factors[|factors| - 1]);
    }
  }

  /** The prices after each prefix of the factors: the i-th is the price
      after i + 1 steps. */
  function Walk(start: real, factors: seq<real>): (prices: seq<real>)
    ensures |prices| == |factors|
  {
    seq(|factors|, i requires 0 <= i < |factors| => PriceAfter(start, factors[..i + 1]))
  }

  /** Each price of a walk is the previous one (the start for the first)
      times that step's factor. */
  lemma WalkStep(start: real, factors: seq<real>, i: nat)
    requires i < |factors|
    ensures Walk(start, factors)[i] == (if i == 0 then start else Walk(start, factors)[i - 1]) * factors[i]
  {
    if i == 0 {
      assert factors[..1][..0] == [];
      assert PriceAfter(start, factors[..1]) == PriceAfter(start, []) * factors[0];
    } else {
      assert factors[..i + 1][..i] == factors[..i];
    }
  }

  /** A step by a factor in [lo, hi) moves a positive price into
      [lo * price, hi * price). */
  lemma StepWithin(price: real, f: real, lo: real, hi: real)
    requires price > 0.0 && lo <= f < hi
    ensures lo * price <= price * f < hi * price
  {
    Forecast.MulMonotone(lo, f, price);
    Forecast.MulStrict(f, hi, price);
  }

  /** Every price of a walk with positive factors from a positive start is
      positive. */
  lemma WalkPositive(start: real, factors: seq<real>)
    requires start > 0.0 && AllPositive(factors)
    ensures forall i :: 0 <= i < |factors| ==> Walk(start, factors)[i] > 0.0
  {
    forall i | 0 <= i < |factors|
      ensures Walk(start, factors)[i] > 0.0
    {
      PriceAfterPositive(start, factors[..i + 1]);
    }
  }

  /** One step of a walk whose i-th factor lies in [lo, hi). */
  lemma WalkStepWithin(start: real, factors: seq<real>, lo: real, hi: real, i: nat)
    requires start > 0.0 && AllPositive(factors)
    requires 1 <= i < |factors| && lo <= factors[i] < hi
    ensures lo * Walk(start, factors)[i - 1] <= Walk(start, factors)[i] < hi * Walk(start, factors)[i - 1]
  {
    var prices := Walk(start, factors);
    PriceAfterPositive(start, factors[..i]);
    assert prices[i - 1] > 0.0;
    WalkStep(start, factors, i);
    StepWithin(prices[i - 1], factors[i], lo, hi);
  }

  /** Consecutive prices of a walk whose factors lie in [lo, hi), and the
      first price and the start, differ by a factor in [lo, hi). */
  lemma WalkSteps(start: real, factors: seq<real>, lo: real, hi: real)
    requires start > 0.0 && AllPositive(factors)
    requires forall i :: 0 <= i < |factors| ==> lo <= factors[i] < hi
    ensures forall i :: 1 <= i < |factors| ==>
              lo * Walk(start, factors)[i - 1] <= Walk(start, factors)[i] < hi * Walk(start, factors)[i - 1]
    ensures |factors| >= 1 ==> lo * start <= Walk(start, factors)[0] < hi * start
  {
    if |factors| >= 1 {
      WalkStep(start, factors, 0);
      StepWithin(start, factors[0], lo, hi);
    }
    forall i | 1 <= i < |factors|
      ensures lo * Walk(start, factors)[i - 1] <= Walk(start, factors)[i] < hi * Walk(start, factors)[i - 1]
    {
      WalkStepWithin(start, factors, lo, hi, i);
    }
  }

  // ----- the LSTM forecast -----

  const LstmVolatility: real := 0.02
  const LstmTrend: real := -0.003

  /** One step of the forecast walk, `1 + trend + (random - 0.5) *
      volatility`: a downward drift of 0.3% with up to 1% either way. */
  function LstmFactor(r: real): (f: real)
    ensures IsDraw(r) ==> 0.987 <= f < 1.007
  {
    1.0 + LstmTrend + (r - 0.5) * LstmVolatility
  }

  function LstmFactors(draws: seq<real>): (fs: seq<real>)
    ensures |fs| == |draws|
    ensures AllDraws(draws) ==> AllPositive(fs)
    ensures AllDraws(draws) ==> forall i :: 0 <= i < |fs| ==> 0.987 <= fs[i] < 1.007
  {
    seq(|draws|, i requires 0 <= i < |draws| => LstmFactor(draws[i]))
  }

  /** One forecast day. The calendar date of the original is left out. */
  datatype DayForecast = DayForecast(day: nat, predictedPrice: real, confidence: real,
                                     upperBound: real, lowerBound: real)

  /** `Math.max(60, 95 - day * 1.5)`: 93.5 on day 1, falling by 1.5 a day
      to the floor of 60, which it reaches on day 24. */
  function DayConfidence(day: nat): (c: real)
    ensures 60.0 <= c <= 95.0
    ensures day >= 1 ==> c <= 93.5
    ensures c == 60.0 <==> day >= 24
  {
    Forecast.Max(60.0, 95.0 - day as real * 1.5)
  }

  /** Confidence never rises from one day to a later one. */
  lemma ConfidenceNonIncreasing(d1: nat, d2: nat)
    requires d1 <= d2
    ensures DayConfidence(d2) <= DayConfidence(d1)
  {
    Forecast.MulMonotone(d1 as real, d2 as real, 1.5);
  }

  /** The entry for one day: a band of 3% either side of the price. */
  function DayEntry(day: nat, price: real): (d: DayForecast)
    ensures d.day == day && d.predictedPrice == price && d.confidence == DayConfidence(day)
    ensures price > 0.0 ==> d.lowerBound < d.predictedPrice < d.upperBound
    ensures price > 0.0 ==> d.lowerBound > 0.0
    ensures d.upperBound - d.predictedPrice == d.predictedPrice - d.lowerBound == price * 0.03
  {
    DayForecast(day, price, DayConfidence(day), price * 1.03, price * 0.97)
  }

  /** The forecast for the given draws: day i + 1 carries the price after
      i + 1 steps of the walk from the last close. */
  function LstmForecasts(lastPrice: real, draws: seq<real>): (r: seq<DayForecast>)
    ensures |r| == |draws|
    ensures forall i :: 0 <= i < |r| ==> r[i].day == i + 1
  {
    var prices := Walk(lastPrice, LstmFactors(draws));
    seq(|draws|, i requires 0 <= i < |draws| => DayEntry(i + 1, prices[i]))
  }

  /** `generateLSTMPredictions`: one entry per day 1 .. days, starting from
      the last close of the data. */
  method GenerateLstmPredictions(historicalData: seq<PricePoint>, days: nat, draws: seq<real>)
    returns (predictions: seq<DayForecast>)
    requires |historicalData| >= 1 && |draws| == days
    ensures predictions == LstmForecasts(historicalData[|historicalData| - 1].close, draws)
    ensures |predictions| == days
    ensures forall i :: 0 <= i < days ==> predictions[i].day == i + 1
  {
    var lastPrice := historicalData[|historicalData| - 1].close;
    predictions := [];
    var price := lastPrice;
    ghost var factors := LstmFactors(draws);
    ghost var spec := LstmForecasts(lastPrice, draws);
    for i := 1 to days + 1
      invariant |predictions| == i - 1
      invariant price == PriceAfter(lastPrice, factors[..i - 1])
      invariant forall j :: 0 <= j < i - 1 ==> predictions[j] == spec[j]
    {
      var randomChange := (draws[i - 1] - 0.5) * LstmVolatility;
      price := price * (1.0 + LstmTrend + randomChange);
      assert factors[..i][..i - 1] == factors[..i - 1];
      assert price == PriceAfter(lastPrice, factors[..i]);
      predictions := predictions + [DayForecast(i, price, Forecast.Max(60.0, 95.0 - i as real * 1.5),
                                                price * 1.03, price * 0.97)];
    }
  }

  /** The forecast prices are the walk's prices. */
  lemma LstmPrices(lastPrice: real, draws: seq<real>)
    ensures forall i :: 0 <= i < |draws| ==>
              LstmForecasts(lastPrice, draws)[i] == DayEntry(i + 1, Walk(lastPrice, LstmFactors(draws))[i])
  {
  }

  /** From a positive last close, every forecast price is positive and lies
      strictly inside its band. */
  lemma LstmForecastsPositive(lastPrice: real, draws: seq<real>)
    requires lastPrice > 0.0 && AllDraws(draws)
    ensures forall i :: 0 <= i < |draws| ==>
              0.0 < LstmForecasts(lastPrice, draws)[i].lowerBound
                  < LstmForecasts(lastPrice, draws)[i].predictedPrice
                  < LstmForecasts(lastPrice, draws)[i].upperBound
  {
    WalkPositive(lastPrice, LstmFactors(draws));
    LstmPrices(lastPrice, draws);
  }

  /** Each forecast day's price is 0.987 to 1.007 times the previous day's. */
  lemma LstmForecastSteps(lastPrice: real, draws: seq<real>)
    requires lastPrice > 0.0 && AllDraws(draws)
    ensures forall i :: 1 <= i < |draws| ==>
              0.987 * LstmForecasts(lastPrice, draws)[i - 1].predictedPrice
                <= LstmForecasts(lastPrice, draws)[i].predictedPrice
                < 1.007 * LstmForecasts(lastPrice, draws)[i - 1].predictedPrice
  {
    var prices := Walk(lastPrice, LstmFactors(draws));
    var r := LstmForecasts(lastPrice, draws);
    WalkSteps(lastPrice, LstmFactors(draws), 0.987, 1.007);
    forall i | 1 <= i < |draws|
      ensures 0.987 * r[i - 1].predictedPrice <= r[i].predictedPrice < 1.007 * r[i - 1].predictedPrice
    {
      assert r[i - 1].predictedPrice == prices[i - 1] && r[i].predictedPrice == prices[i];
    }
  }

  /** The first forecast day moves from the last close by a factor in
      [0.987, 1.007). */
  lemma LstmFirstStep(lastPrice: real, draws: seq<real>)
    requires lastPrice > 0.0 && AllDraws(draws)
    ensures |draws| >= 1 ==>
              0.987 * lastPrice <= LstmForecasts(lastPrice, draws)[0].predictedPrice < 1.007 * lastPrice
  {
    if |draws| >= 1 {
      WalkSteps(lastPrice, LstmFactors(draws), 0.987, 1.007);
      assert LstmForecasts(lastPrice, draws)[0].predictedPrice == Walk(lastPrice, LstmFactors(draws))[0];
    }
  }

  /** The confidence of the forecast falls day by day to its floor. */
  lemma LstmConfidenceDecays(lastPrice: real, draws: seq<real>)
    ensures forall i, j :: 0 <= i <= j < |draws| ==>
              LstmForecasts(lastPrice, draws)[j].confidence <= LstmForecasts(lastPrice, draws)[i].confidence
    ensures forall i :: 0 <= i < |draws| ==>
              60.0 <= LstmForecasts(lastPrice, draws)[i].confidence <= 93.5
  {
    var r := LstmForecasts(lastPrice, draws);
    forall i, j | 0 <= i <= j < |draws|
      ensures r[j].confidence <= r[i].confidence
    {
      ConfidenceNonIncreasing(i + 1, j + 1);
    }
  }

  // ----- the Monte Carlo paths -----

  /** One step of a simulated path, `1 + (random - 0.48) * 0.025`: a slight
      upward bias with up to about 1.3% either way. */
  function MonteCarloFactor(r: real): (f: real)
    ensures IsDraw(r) ==> 0.988 <= f < 1.013
  {
    1.0 + (r - 0.48) * 0.025
  }

  function MonteCarloFactors(draws: seq<real>): (fs: seq<real>)
    ensures |fs| == |draws|
    ensures AllDraws(draws) ==> AllPositive(fs)
    ensures AllDraws(draws) ==> forall i :: 0 <= i < |fs| ==> 0.988 <= fs[i] < 1.013
  {
    seq(|draws|, i requires 0 <= i < |draws| => MonteCarloFactor(draws[i]))
  }

  datatype SimulationPoint = SimulationPoint(day: nat, simulation: nat, price: real)

  /** Path number `sim`, driven by its own draws. */
  function SimulatedPath(lastPrice: real, sim: nat, draws: seq<real>): (path: seq<SimulationPoint>)
    ensures |path| == |draws|
    ensures forall d :: 0 <= d < |path| ==> path[d].day == d + 1 && path[d].simulation == sim
  {
    var prices := Walk(lastPrice, MonteCarloFactors(draws));
    seq(|draws|, d requires 0 <= d < |draws| => SimulationPoint(d + 1, sim, prices[d]))
  }

  /** Every path, each from the same last price with its own draws. */
  function Simulations(lastPrice: real, draws: seq<seq<real>>): (paths: seq<seq<SimulationPoint>>)
    ensures |paths| == |draws|
    ensures forall s :: 0 <= s < |paths| ==> paths[s] == SimulatedPath(lastPrice, s, draws[s])
  {
    seq(|draws|, s requires 0 <= s < |draws| => SimulatedPath(lastPrice, s, draws[s]))
  }

  /** `generateMonteCarloSimulations`: `numSimulations` paths of `days`
      points each (the original defaults to 100 paths; the chart asks for
      50). Row s of `draws` drives path s. */
  method GenerateMonteCarloSimulations(lastPrice: real, days: nat, numSimulations: nat, draws: seq<seq<real>>)
    returns (simulations: seq<seq<SimulationPoint>>)
    requires |draws| == numSimulations
    requires forall s :: 0 <= s < numSimulations ==> |draws[s]| == days
    ensures simulations == Simulations(lastPrice, draws)
    ensures |simulations| == numSimulations
    ensures forall s :: 0 <= s < numSimulations ==>
              |simulations[s]| == days &&
              forall d :: 0 <= d < days ==> simulations[s][d].day == d + 1 && simulations[s][d].simulation == s
  {
    simulations := [];
    for sim := 0 to numSimulations
      invariant |simulations| == sim
      invariant forall s :: 0 <= s < sim ==> simulations[s] == SimulatedPath(lastPrice, s, draws[s])
    {
      var simulation := [];
      var price := lastPrice;
      ghost var factors := MonteCarloFactors(draws[sim]);
      ghost var path := SimulatedPath(lastPrice, sim, draws[sim]);
      for day := 1 to days + 1
        invariant |simulation| == day - 1
        invariant price == PriceAfter(lastPrice, factors[..day - 1])
        invariant forall d :: 0 <= d < day - 1 ==> simulation[d] == path[d]
      {
        var dailyReturn := (draws[sim][day - 1] - 0.48) * 0.025;
        price := price * (1.0 + dailyReturn);
        assert factors[..day][..day - 1] == factors[..day - 1];
        assert price == PriceAfter(lastPrice, factors[..day]);
        simulation := simulation + [SimulationPoint(day, sim, price)];
      }
      simulations := simulations + [simulation];
    }
  }

  /** A simulated path's prices are the walk's prices. */
  lemma PathPrices(lastPrice: real, sim: nat, draws: seq<real>)
    ensures forall d :: 0 <= d < |draws| ==>
              SimulatedPath(lastPrice, sim, draws)[d].price == Walk(lastPrice, MonteCarloFactors(draws))[d]
  {
  }

  /** From a positive last price every price of a path is positive. */
  lemma PathPositive(lastPrice: real, sim: nat, draws: seq<real>)
    requires lastPrice > 0.0 && AllDraws(draws)
    ensures forall d :: 0 <= d < |draws| ==> SimulatedPath(lastPrice, sim, draws)[d].price > 0.0
  {
    WalkPositive(lastPrice, MonteCarloFactors(draws));
    PathPrices(lastPrice, sim, draws);
  }

  /** Each step of a path moves its price by a factor in [0.988, 1.013). */
  lemma PathSteps(lastPrice: real, sim: nat, draws: seq<real>)
    requires lastPrice > 0.0 && AllDraws(draws)
    ensures forall d :: 1 <= d < |draws| ==>
              0.988 * SimulatedPath(lastPrice, sim, draws)[d - 1].price
                <= SimulatedPath(lastPrice, sim, draws)[d].price
                < 1.013 * SimulatedPath(lastPrice, sim, draws)[d - 1].price
  {
    var prices := Walk(lastPrice, MonteCarloFactors(draws));
    var path := SimulatedPath(lastPrice, sim, draws);
    WalkSteps(lastPrice, MonteCarloFactors(draws), 0.988, 1.013);
    forall d | 1 <= d < |draws|
      ensures 0.988 * path[d - 1].price <= path[d].price < 1.013 * path[d - 1].price
    {
      assert path[d - 1].price == prices[d - 1] && path[d].price == prices[d];
    }
  }

  /** The first simulated day moves from the last price by a factor in
      [0.988, 1.013). */
  lemma PathFirstStep(lastPrice: real, sim: nat, draws: seq<real>)
    requires lastPrice > 0.0 && AllDraws(draws)
    ensures |draws| >= 1 ==>
              0.988 * lastPrice <= SimulatedPath(lastPrice, sim, draws)[0].price < 1.013 * lastPrice
  {
    if |draws| >= 1 {
      WalkSteps(lastPrice, MonteCarloFactors(draws), 0.988, 1.013);
      assert SimulatedPath(lastPrice, sim, draws)[0].price == Walk(lastPrice, MonteCarloFactors(draws))[0];
    }
  }

  /** Every simulated price is positive when the last price is. */
  lemma SimulationsPositive(lastPrice: real, draws: seq<seq<real>>)
    requires lastPrice > 0.0
    requires forall s :: 0 <= s < |draws| ==> AllDraws(draws[s])
    ensures forall s, d :: 0 <= s < |draws| && 0 <= d < |draws[s]| ==>
              Simulations(lastPrice, draws)[s][d].price > 0.0
  {
    forall s | 0 <= s < |draws|
      ensures forall d :: 0 <= d < |draws[s]| ==> Simulations(lastPrice, draws)[s][d].price > 0.0
    {
      PathPositive(lastPrice, s, draws[s]);
    }
  }
}
