/** The body of `handleFileUpload` up to the date sort, identical in both page
    components: split the text into non-blank lines, resolve the columns from
    the header line, then build one price point per acceptable data line. */
module Ingest {
  import opened Wrappers
  import opened Text
  import opened Csv

  /** One stored row. */
  datatype PricePoint = PricePoint(date: string, close: real, high: real, low: real, open: real, volume: real)

  /** What every stored point satisfies: a positive close and a non-empty
      date with no space in it. */
  predicate Stored(p: PricePoint) {
    p.close > 0.0 && p.date != [] && ' ' !in p.date
  }

  /** Column positions found in the header; the optional ones are `-1` in the
      source when absent. */
  datatype Columns = Columns(date: nat, close: nat, open: Option<nat>, high: Option<nat>,
                             low: Option<nat>, volume: Option<nat>)

  /** The three alerts that end an upload without data. */
  datatype IngestError =
    | TooFewLines        // fewer than a header and one data line
    | MissingDateOrClose // no column normalizes to date or to close
    | NoValidRows        // every data line was rejected

  /** `.filter(line => line.trim())`: the lines that are not blank, in order. */
  function NonBlank(lines: seq<string>): (r: seq<string>)
    ensures |r| <= |lines|
    ensures forall i :: 0 <= i < |r| ==> Trim(r[i]) != ""
    ensures forall l :: l in r <==> l in lines && Trim(l) != ""
  {
    if lines == [] then []
    else if Trim(lines[0]) != "" then [lines[0]] + NonBlank(lines[1..])
    else NonBlank(lines[1..])
  }

  /** A single line is kept exactly when it is not blank. */
  lemma NonBlankOne(line: string)
    ensures NonBlank([line]) == if Trim(line) != "" then [line] else []
  {
    assert [line][1..] == [];
  }

  /** The filter keeps order: the lines kept from a + b are those kept from
      a followed by those kept from b. */
  lemma {:induction false} NonBlankAppend(a: seq<string>, b: seq<string>)
    ensures NonBlank(a + b) == NonBlank(a) + NonBlank(b)
  {
    if a != [] {
      var ab := a + b;
      assert ab[0] == a[0];
      assert ab[1..] == a[1..] + b;
      NonBlankAppend(a[1..], b);
      if Trim(a[0]) != "" {
        calc {
          NonBlank(ab);
          [a[0]] + NonBlank(a[1..] + b);
          [a[0]] + (NonBlank(a[1..]) + NonBlank(b));
          ([a[0]] + NonBlank(a[1..])) + NonBlank(b);
        }
      } else {
        assert NonBlank(ab) == NonBlank(a[1..] + b);
      }
    } else {
      assert a + b == b;
    }
  }

  /** `text.split('\n').filter(line => line.trim())`. */
  function InputLines(text: string): seq<string> {
    NonBlank(Split(text, '\n'))
  }

  /** `values[idx]`: `undefined` (here `None`) past the end of the row. */
  function Cell(values: seq<string>, idx: nat): Option<string> {
    if idx < |values| then Some(values[idx]) else None
  }

  /** `idx !== -1 ? cleanNumber(values[idx]) : null`. */
  function OptionalNumber(values: seq<string>, idx: Option<nat>): Option<real> {
    if idx.None? then None else CleanNumber(Cell(values, idx.value))
  }

  /** `value || fallback` on a number that may be `null`: `null` and 0 are
      both falsy. */
  function OrElse(value: Option<real>, fallback: real): real {
    if value.Some? && value.value != 0.0 then value.value else fallback
  }

  /** The column positions: the first header equal to each canonical name;
      none when date or close is missing. */
  function ColumnsOf(names: seq<string>): (r: Option<Columns>)
    ensures r.Some? <==> "date" in names && "close" in names
    ensures r.Some? ==> r.value.date < |names| && names[r.value.date] == "date" &&
                        r.value.close < |names| && names[r.value.close] == "close"
    ensures r.Some? ==> (forall j :: 0 <= j < r.value.date ==> names[j] != "date") &&
                        (forall j :: 0 <= j < r.value.close ==> names[j] != "close")
    ensures r.Some? ==> r.value.open == FindIndex(names, "open") && r.value.high == FindIndex(names, "high") &&
                        r.value.low == FindIndex(names, "low") && r.value.volume == FindIndex(names, "volume")
  {
    var date := FindIndex(names, "date");
    var close := FindIndex(names, "close");
    if date.None? || close.None? then None
    else Some(Columns(date.value, close.value, FindIndex(names, "open"), FindIndex(names, "high"),
                      FindIndex(names, "low"), FindIndex(names, "volume")))
  }

  /** What one data line contributes: nothing when the trimmed date cell is
      missing or empty or the close does not read as a positive number;
      otherwise a point dated with the text before the first space, the
      optional prices falling back to close and the volume to 0. */
  function RowPoint(line: string, cols: Columns): (r: Option<PricePoint>)
    ensures r.Some? ==> r.value.close > 0.0 && r.value.date != [] && ' ' !in r.value.date
    ensures r.Some? ==> cols.date < |SplitCsvLine(line)| &&
                        StartsWith(Trim(SplitCsvLine(line)[cols.date]), r.value.date)
    ensures r.Some? ==> var cell := Trim(SplitCsvLine(line)[cols.date]);
                        cell == r.value.date || cell[|r.value.date|] == ' '
  {
    var values := SplitCsvLine(line);
    var dateValue := if cols.date < |values| then Some(Trim(values[cols.date])) else None;
    var closeValue := CleanNumber(Cell(values, cols.close));
    if dateValue.Some? && dateValue.value != "" && closeValue.Some? && closeValue.value > 0.0 then
      var close := closeValue.value;
      assert !IsWhitespace(dateValue.value[0]);
      SplitHead(dateValue.value, ' ');
      Some(PricePoint(Split(dateValue.value, ' ')[0], close,
                      OrElse(OptionalNumber(values, cols.high), close),
                      OrElse(OptionalNumber(values, cols.low), close),
                      OrElse(OptionalNumber(values, cols.open), close),
                      OrElse(OptionalNumber(values, cols.volume), 0.0)))
    else None
  }

  /** The keep rule: a line yields a point exactly when its date cell exists
      and is non-empty once trimmed and its close cell reads as a number
      above 0. */
  lemma RowKeptExactly(line: string, cols: Columns)
    ensures RowPoint(line, cols).Some? <==>
              var values := SplitCsvLine(line);
              var close := CleanNumber(Cell(values, cols.close));
              cols.date < |values| && Trim(values[cols.date]) != "" && close.Some? && close.value > 0.0
  {
  }

  /** The loop skips blank lines before parsing them. */
  function LinePoint(line: string, cols: Columns): (r: Option<PricePoint>)
    ensures r.Some? ==> Stored(r.value)
    ensures Trim(line) == "" ==> r.None?
    ensures Trim(line) != "" ==> r == RowPoint(line, cols)
  {
    if Trim(line) == "" then None else RowPoint(line, cols)
  }

  /** The values inside the `Some`s of `outcomes`, in order. */
  function Somes(outcomes: seq<Option<PricePoint>>): (r: seq<PricePoint>)
    ensures |r| <= |outcomes|
    ensures (forall j :: 0 <= j < |outcomes| && outcomes[j].Some? ==> Stored(outcomes[j].value)) ==>
              forall i :: 0 <= i < |r| ==> Stored(r[i])
    decreases |outcomes|
  {
    if outcomes == [] then []
    else
      var init := Somes(outcomes[..|outcomes| - 1]);
      var last := outcomes[|outcomes| - 1];
      if last.Some? then init + [last.value] else init
  }

  lemma {:induction false} SomesAppend(a: seq<Option<PricePoint>>, b: seq<Option<PricePoint>>)
    ensures Somes(a + b) == Somes(a) + Somes(b)
    decreases |b|
  {
    if b == [] {
      assert a + b == a;
    } else {
      var b' := b[..|b| - 1];
      assert (a + b)[..|a + b| - 1] == a + b';
      SomesAppend(a, b');
    }
  }

  /** What each line yields. */
  function Outcomes(lines: seq<string>, cols: Columns): (r: seq<Option<PricePoint>>)
    ensures |r| == |lines|
    ensures forall j :: 0 <= j < |lines| ==> r[j] == LinePoint(lines[j], cols)
  {
    seq(|lines|, j requires 0 <= j < |lines| => LinePoint(lines[j], cols))
  }

  /** The points the data lines produce, in line order: at most one per line,
      each with a positive close and a non-empty date without spaces. */
  function KeptRows(lines: seq<string>, cols: Columns): (r: seq<PricePoint>)
    ensures |r| <= |lines|
    ensures forall i :: 0 <= i < |r| ==> Stored(r[i])
  {
    Somes(Outcomes(lines, cols))
  }

  /** Rejecting rows never reorders the rest: the rows kept from two runs of
      lines are those of the first run followed by those of the second. */
  lemma KeptRowsAppend(a: seq<string>, b: seq<string>, cols: Columns)
    ensures KeptRows(a + b, cols) == KeptRows(a, cols) + KeptRows(b, cols)
  {
    assert Outcomes(a + b, cols) == Outcomes(a, cols) + Outcomes(b, cols);
    SomesAppend(Outcomes(a, cols), Outcomes(b, cols));
  }

  /** One more line adds its point, if it yields one, at the end. */
  lemma KeptRowsSnoc(lines: seq<string>, line: string, cols: Columns)
    ensures KeptRows(lines + [line], cols) ==
              KeptRows(lines, cols) + (if LinePoint(line, cols).Some? then [LinePoint(line, cols).value] else [])
  {
    KeptRowsAppend(lines, [line], cols);
    assert Outcomes([line], cols) == [LinePoint(line, cols)];
    assert Somes([LinePoint(line, cols)]) == Somes([]) + (if LinePoint(line, cols).Some? then [LinePoint(line, cols).value] else []);
  }

  /** What a kept point holds: the close read from the close cell; each
      optional price read from its cell when that reads as a non-zero
      number, and the close otherwise (`null` and 0 are both falsy); the
      volume likewise, with 0 as the fallback. */
  lemma RowPointFields(line: string, cols: Columns)
    requires RowPoint(line, cols).Some?
    ensures var p := RowPoint(line, cols).value;
            Some(p.close) == CleanNumber(Cell(SplitCsvLine(line), cols.close))
    ensures var p := RowPoint(line, cols).value;
            var o := OptionalNumber(SplitCsvLine(line), cols.open);
            (o.Some? && o.value != 0.0 ==> p.open == o.value) && (o.None? || o == Some(0.0) ==> p.open == p.close)
    ensures var p := RowPoint(line, cols).value;
            var h := OptionalNumber(SplitCsvLine(line), cols.high);
            (h.Some? && h.value != 0.0 ==> p.high == h.value) && (h.None? || h == Some(0.0) ==> p.high == p.close)
    ensures var p := RowPoint(line, cols).value;
            var l := OptionalNumber(SplitCsvLine(line), cols.low);
            (l.Some? && l.value != 0.0 ==> p.low == l.value) && (l.None? || l == Some(0.0) ==> p.low == p.close)
    ensures var p := RowPoint(line, cols).value;
            var v := OptionalNumber(SplitCsvLine(line), cols.volume);
            (v.Some? && v.value != 0.0 ==> p.volume == v.value) && (v.None? || v == Some(0.0) ==> p.volume == 0.0)
    ensures var p := RowPoint(line, cols).value;
            p.open != 0.0 && p.high != 0.0 && p.low != 0.0
  {
  }

  /** One iteration of the row loop of `handleFileUpload`: a blank line is
      skipped, any other is parsed and either rejected or made a point. */
  method ParseRow(line: string, cols: Columns) returns (row: Option<PricePoint>)
    ensures row == LinePoint(line, cols)
    ensures row.Some? ==> Stored(row.value)
  {
    if Trim(line) == "" {
      return None;
    }
    assert LinePoint(line, cols) == RowPoint(line, cols);
    var values := ParseCsvLine(line);
    var dateValue := if cols.date < |values| then Some(Trim(values[cols.date])) else None;
    var closeValue := CleanNumber(Cell(values, cols.close));
    if dateValue.Some? && dateValue.value != "" && closeValue.Some? && closeValue.value > 0.0 {
      var openValue := OptionalNumber(values, cols.open);
      var highValue := OptionalNumber(values, cols.high);
      var lowValue := OptionalNumber(values, cols.low);
      var volumeValue := OptionalNumber(values, cols.volume);
      row := Some(PricePoint(Split(dateValue.value, ' ')[0], closeValue.value,
                             OrElse(highValue, closeValue.value), OrElse(lowValue, closeValue.value),
                             OrElse(openValue, closeValue.value), OrElse(volumeValue, 0.0)));
    } else {
      row := None;
    }
  }

  /** The row loop of `handleFileUpload`: every line after the header is
      parsed and either rejected or appended as a point. */
  method BuildRows(lines: seq<string>, cols: Columns) returns (data: seq<PricePoint>)
    requires |lines| >= 1
    ensures data == KeptRows(lines[1..], cols)
    ensures |data| <= |lines| - 1
    ensures forall i :: 0 <= i < |data| ==> data[i].close > 0.0 && data[i].date != [] && ' ' !in data[i].date
  {
    data := [];
    ghost var rows := lines[1..];
    for i := 1 to |lines|
      invariant data == KeptRows(rows[..i - 1], cols)
    {
      var row := ParseRow(lines[i], cols);
      assert rows[..i] == rows[..i - 1] + [lines[i]];
      KeptRowsSnoc(rows[..i - 1], lines[i], cols);
      if row.Some? {
        data := data + [row.value];
      }
    }
    assert rows[..|lines| - 1] == rows;
  }

  /** The whole ingestion as a value: the outcome `handleFileUpload` reaches
      before sorting. */
  function Ingested(text: string): Result<seq<PricePoint>, IngestError> {
    var lines := InputLines(text);
    if |lines| < 2 then Err(TooFewLines)
    else
      match ColumnsOf(NormalizeHeaders(SplitCsvLine(lines[0])))
      case None => Err(MissingDateOrClose)
      case Some(cols) =>
        var data := KeptRows(lines[1..], cols);
        if |data| == 0 then Err(NoValidRows) else Ok(data)
  }

  /** The header names of an upload, normalized. */
  function HeaderNames(text: string): seq<string>
    requires |InputLines(text)| >= 1
  {
    NormalizeHeaders(SplitCsvLine(InputLines(text)[0]))
  }

  /** `handleFileUpload` up to the sort. It aborts before any row is read when
      there are fewer than two non-blank lines or the header has no date or no
      close column; otherwise it keeps at most one point per data line, every
      point with a positive close and a non-empty date without spaces, and
      fails only when no point is kept. */
  method Ingest(text: string) returns (r: Result<seq<PricePoint>, IngestError>)
    ensures r == Ingested(text)
    ensures r == Err(TooFewLines) <==> |InputLines(text)| < 2
    ensures r == Err(MissingDateOrClose) <==>
              |InputLines(text)| >= 2 && ("date" !in HeaderNames(text) || "close" !in HeaderNames(text))
    ensures r.Ok? ==> 1 <= |r.value| <= |InputLines(text)| - 1
    ensures r.Ok? ==> forall i :: 0 <= i < |r.value| ==> r.value[i].close > 0.0 && r.value[i].date != []
  {
    var lines := NonBlank(Split(text, '\n'));
    if |lines| < 2 {
      return Err(TooFewLines);
    }
    var headerValues := ParseCsvLine(lines[0]);
    var normalizedHeaders := NormalizeHeaders(headerValues);
    var dateIdx := FindIndex(normalizedHeaders, "date");
    var closeIdx := FindIndex(normalizedHeaders, "close");
    var openIdx := FindIndex(normalizedHeaders, "open");
    var highIdx := FindIndex(normalizedHeaders, "high");
    var lowIdx := FindIndex(normalizedHeaders, "low");
    var volumeIdx := FindIndex(normalizedHeaders, "volume");
    if dateIdx.None? || closeIdx.None? {
      return Err(MissingDateOrClose);
    }
    var cols := Columns(dateIdx.value, closeIdx.value, openIdx, highIdx, lowIdx, volumeIdx);
    var data := BuildRows(lines, cols);
    if |data| > 0 {
      r := Ok(data);
    } else {
      r := Err(NoValidRows);
    }
  }

  /** A header line none of whose cells mentions "date" (in any case, around
      any whitespace) ends the upload with the missing-column alert. */
  lemma NoDateHeaderRejected(text: string)
    requires |InputLines(text)| >= 2
    requires forall h :: h in SplitCsvLine(InputLines(text)[0]) ==> !Contains(Lower(Trim(h)), "date")
    ensures Ingested(text) == Err(MissingDateOrClose)
  {
    var headers := SplitCsvLine(InputLines(text)[0]);
    var names := NormalizeHeaders(headers);
    forall i | 0 <= i < |names|
      ensures names[i] != "date"
    {
      NormalizedDate(headers[i]);
    }
  }
}
