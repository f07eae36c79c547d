/** The state the two page components keep between events, and the event
    handlers that change it: a finished file read, which ingests, sorts and
    forecasts, and (on the platform page) a move of the horizon slider.
    Date parsing is the caller's `dateKey`, `Math.sqrt` its `sqrt`, and the
    values `Math.random()` would return its `draws`. */
module Pages {
  import opened Wrappers
  import opened Ingest
  import opened Forecast
  import opened Paths
  import opened Analysis

  // ----- sorting by date -----

  /** Ascending by the date key. */
  predicate SortedBy(s: seq<PricePoint>, dateKey: string -> int) {
    forall i, j :: 0 <= i < j < |s| ==> dateKey(s[i].date) <= dateKey(s[j].date)
  }

  /** Places `p` after every point whose key is not above its own. */
  function Insert(p: PricePoint, s: seq<PricePoint>, dateKey: string -> int): (r: seq<PricePoint>)
    ensures |r| == |s| + 1
  {
    if s == [] then [p]
    else if dateKey(p.date) < dateKey(s[0].date) then [p] + s
    else [s[0]] + Insert(p, s[1..], dateKey)
  }

  lemma {:induction false} InsertMembers(p: PricePoint, s: seq<PricePoint>, dateKey: string -> int)
    ensures forall q :: q in Insert(p, s, dateKey) <==> q == p || q in s
  {
    if s != [] && dateKey(p.date) >= dateKey(s[0].date) {
      InsertMembers(p, s[1..], dateKey);
      assert s == [s[0]] + s[1..];
    }
  }

  lemma {:induction false} InsertPermutes(p: PricePoint, s: seq<PricePoint>, dateKey: string -> int)
    ensures multiset(Insert(p, s, dateKey)) == multiset(s) + multiset{p}
  {
    if s != [] && dateKey(p.date) >= dateKey(s[0].date) {
      InsertPermutes(p, s[1..], dateKey);
      assert s == [s[0]] + s[1..];
    }
  }

  lemma {:induction false} InsertSorted(p: PricePoint, s: seq<PricePoint>, dateKey: string -> int)
    requires SortedBy(s, dateKey)
    ensures SortedBy(Insert(p, s, dateKey), dateKey)
  {
    if s != [] && dateKey(p.date) >= dateKey(s[0].date) {
      var rest := Insert(p, s[1..], dateKey);
      InsertSorted(p, s[1..], dateKey);
      InsertMembers(p, s[1..], dateKey);
      forall j | 0 <= j < |rest|
        ensures dateKey(s[0].date) <= dateKey(rest[j].date)
      {
        assert rest[j] in rest;
      }
    }
  }

  /** `data.sort((a, b) => new Date(a.date) - new Date(b.date))`: an
      insertion sort by the date key. */
  function SortByDate(data: seq<PricePoint>, dateKey: string -> int): (r: seq<PricePoint>)
    ensures |r| == |data|
  {
    if data == [] then []
    else Insert(data[|data| - 1], SortByDate(data[..|data| - 1], dateKey), dateKey)
  }

  /** The sort orders the points by date key. */
  lemma {:induction false} SortByDateSorted(data: seq<PricePoint>, dateKey: string -> int)
    ensures SortedBy(SortByDate(data, dateKey), dateKey)
  {
    if data != [] {
      var init := data[..|data| - 1];
      SortByDateSorted(init, dateKey);
      InsertSorted(data[|data| - 1], SortByDate(init, dateKey), dateKey);
    }
  }

  /** The sort keeps every point exactly as often as it was given. */
  lemma {:induction false} SortByDatePermutes(data: seq<PricePoint>, dateKey: string -> int)
    ensures multiset(SortByDate(data, dateKey)) == multiset(data)
  {
    if data != [] {
      var init := data[..|data| - 1];
      SortByDatePermutes(init, dateKey);
      InsertPermutes(data[|data| - 1], SortByDate(init, dateKey), dateKey);
      assert data == init + [data[|data| - 1]];
    }
  }

  /** Sorting keeps every point stored as it was. */
  lemma SortKeepsStored(data: seq<PricePoint>, dateKey: string -> int)
    requires forall i :: 0 <= i < |data| ==> Stored(data[i])
    ensures forall i :: 0 <= i < |data| ==> Stored(SortByDate(data, dateKey)[i])
  {
    var r := SortByDate(data, dateKey);
    SortByDatePermutes(data, dateKey);
    forall i | 0 <= i < |r|
      ensures Stored(r[i])
    {
      assert r[i] in multiset(r);
    }
  }

  /** The part of `reader.onload` both pages share: ingest the text and,
      when that yields points, sort them by date. */
  method LoadSorted(text: string, dateKey: string -> int) returns (r: Result<seq<PricePoint>, IngestError>)
    ensures r.Err? <==> Ingested(text).Err?
    ensures r.Err? ==> r.error == Ingested(text).error
    ensures r.Ok? ==> r.value == SortByDate(Ingested(text).value, dateKey)
    ensures r.Ok? ==> |r.value| >= 1 && forall i :: 0 <= i < |r.value| ==> Stored(r.value[i])
  {
    var ingested := Ingest.Ingest(text);
    if ingested.Err? {
      return Err(ingested.error);
    }
    var data := SortByDate(ingested.value, dateKey);
    SortKeepsStored(ingested.value, dateKey);
    return Ok(data);
  }

  // ----- the platform page -----

  /** The platform page's state: the loaded data, the slider's horizon, and
      the forecast and analysis last computed from them. */
  class PlatformPage {
    var csvData: Option<seq<PricePoint>>
    var predictionDays: nat
    var predictions: Option<seq<DayForecast>>
    var analysis: Option<HorizonAnalysis>

    /** Data, once loaded, is non-empty and stored; a forecast and an
        analysis exist exactly when data does, and the forecast covers the
        current horizon. */
    ghost predicate Valid()
      reads this
    {
      && 1 <= predictionDays <= 30
      && (csvData.Some? ==> |csvData.value| >= 1 && forall i :: 0 <= i < |csvData.value| ==> Stored(csvData.value[i]))
      && (csvData.Some? <==> predictions.Some?)
      && (csvData.Some? <==> analysis.Some?)
      && (predictions.Some? ==> |predictions.value| == predictionDays)
      && (analysis.Some? ==> analysis.value.predictionDays == predictionDays)
    }

    /** Nothing loaded yet, and a ten-day horizon. */
    constructor()
      ensures Valid()
      ensures csvData.None? && predictions.None? && analysis.None? && predictionDays == 10
    {
      csvData := None;
      predictionDays := 10;
      predictions := None;
      analysis := None;
    }

    /** Forecast and analysis for the loaded data over the current horizon. */
    method Recompute(sqrt: real -> real, draws: seq<real>)
      requires csvData.Some? && |csvData.value| >= 1 && IsSqrt(sqrt)
      requires forall i :: 0 <= i < |csvData.value| ==> Stored(csvData.value[i])
      requires 1 <= predictionDays <= 30 && |draws| == predictionDays
      modifies this
      ensures Valid()
      ensures csvData == old(csvData) && predictionDays == old(predictionDays)
      ensures predictions == Some(LstmForecasts(csvData.value[|csvData.value| - 1].close, draws))
      ensures analysis == Some(AnalyzeHorizon(csvData.value, predictions.value, sqrt))
    {
      var data := csvData.value;
      var lstmPredictions := GenerateLstmPredictions(data, predictionDays, draws);
      predictions := Some(lstmPredictions);
      analysis := Some(AnalyzeHorizon(data, lstmPredictions, sqrt));
    }

    /** `reader.onload`: an upload that ingests to at least one point
        replaces the data with the sorted points and recomputes forecast and
        analysis; any other upload raises its alert and changes nothing. */
    method OnFileLoaded(text: string, dateKey: string -> int, sqrt: real -> real, draws: seq<real>)
      returns (alert: Option<IngestError>)
      requires Valid() && IsSqrt(sqrt) && |draws| == predictionDays
      modifies this
      ensures Valid()
      ensures alert.Some? <==> Ingested(text).Err?
      ensures alert.Some? ==> alert.value == Ingested(text).error
      ensures alert.Some? ==> csvData == old(csvData) && predictions == old(predictions) && analysis == old(analysis)
      ensures alert.None? ==> csvData == Some(SortByDate(Ingested(text).value, dateKey))
      ensures alert.None? ==> predictions == Some(LstmForecasts(csvData.value[|csvData.value| - 1].close, draws))
      ensures alert.None? ==> analysis == Some(AnalyzeHorizon(csvData.value, predictions.value, sqrt))
      ensures predictionDays == old(predictionDays)
    {
      var r := LoadSorted(text, dateKey);
      if r.Err? {
        return Some(r.error);
      }
      var data := r.value;
      csvData := Some(data);
      Recompute(sqrt, draws);
      alert := None;
    }

    /** `handlePredictionDaysChange`: the slider sets the horizon; with data
        loaded the forecast and analysis are recomputed for it, otherwise
        they stay absent. */
    method HandlePredictionDaysChange(days: nat, sqrt: real -> real, draws: seq<real>)
      requires Valid() && IsSqrt(sqrt)
      requires 1 <= days <= 30 && |draws| == days
      modifies this
      ensures Valid()
      ensures predictionDays == days && csvData == old(csvData)
      ensures csvData.None? ==> predictions.None? && analysis.None?
      ensures csvData.Some? ==> predictions == Some(LstmForecasts(csvData.value[|csvData.value| - 1].close, draws))
      ensures csvData.Some? ==> |predictions.value| == days
      ensures csvData.Some? ==> analysis == Some(AnalyzeHorizon(csvData.value, predictions.value, sqrt))
    {
      predictionDays := days;
      if csvData.Some? {
        Recompute(sqrt, draws);
      }
    }
  }

  // ----- the next-day page -----

  /** The next-day page's state: the loaded data, its one-day forecast and
      the analysis of that forecast. */
  class NextDayPage {
    var csvData: Option<seq<PricePoint>>
    var prediction: Option<NextDay>
    var analysis: Option<DayAnalysis>

    /** Data, once loaded, is non-empty and stored; the forecast and its
        analysis exist exactly when at least two points are loaded. */
    ghost predicate Valid()
      reads this
    {
      && (csvData.Some? ==> |csvData.value| >= 1 && forall i :: 0 <= i < |csvData.value| ==> Stored(csvData.value[i]))
      && (prediction.Some? <==> csvData.Some? && |csvData.value| >= 2)
      && (analysis.Some? <==> prediction.Some?)
    }

    constructor()
      ensures Valid()
      ensures csvData.None? && prediction.None? && analysis.None?
    {
      csvData := None;
      prediction := None;
      analysis := None;
    }

    /** `reader.onload` of the next-day page. A single loaded point gives no
        forecast here (the original shows NaN figures). */
    method OnFileLoaded(text: string, dateKey: string -> int, sqrt: real -> real)
      returns (alert: Option<IngestError>)
      requires Valid() && IsSqrt(sqrt)
      modifies this
      ensures Valid()
      ensures alert.Some? <==> Ingested(text).Err?
      ensures alert.Some? ==> alert.value == Ingested(text).error
      ensures alert.Some? ==> csvData == old(csvData) && prediction == old(prediction) && analysis == old(analysis)
      ensures alert.None? ==> csvData == Some(SortByDate(Ingested(text).value, dateKey))
      ensures alert.None? ==> prediction == NextDayPrediction(Closes(csvData.value), sqrt)
      ensures alert.None? && prediction.Some? ==>
                analysis == Some(AnalyzeDay(csvData.value, prediction.value, sqrt))
    {
      var r := LoadSorted(text, dateKey);
      if r.Err? {
        return Some(r.error);
      }
      var data := r.value;
      csvData := Some(data);
      var nextDayPrediction := GenerateNextDayPrediction(Closes(data), sqrt);
      prediction := nextDayPrediction;
      if nextDayPrediction.Some? {
        analysis := Some(AnalyzeDay(data, nextDayPrediction.value, sqrt));
      } else {
        analysis := None;
      }
      alert := None;
    }
  }
}
