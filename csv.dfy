/** The CSV helpers both page components define identically: `parseCSVLine`,
    `cleanNumber` and `normalizeHeaders`, with the `findIndex` lookups that
    turn normalized headers into column positions. */
module Csv {
  import opened Wrappers
  import opened Text

  // ---------------------------------------------------------------------
  // parseCSVLine
  // ---------------------------------------------------------------------

  /** The three variables the splitting loop updates. */
  datatype LineScan = LineScan(values: seq<string>, current: string, inQuotes: bool)

  /** One iteration of the loop: a quote toggles quote mode, a comma outside
      quotes closes the current field, anything else is appended. */
  function ScanStep(st: LineScan, c: char): LineScan {
    if c == '"' then st.(inQuotes := !st.inQuotes)
    else if c == ',' && !st.inQuotes then LineScan(st.values + [Trim(st.current)], "", st.inQuotes)
    else st.(current := st.current + [c])
  }

  /** The loop state after reading all of `s`. */
  function Scan(s: string): LineScan
    decreases |s|
  {
    if s == [] then LineScan([], "", false) else ScanStep(Scan(s[..|s| - 1]), s[|s| - 1])
  }

  /** The fields `parseCSVLine` returns: the closed fields and the last one. */
  function SplitCsvLine(line: string): seq<string> {
    var st := Scan(line);
    st.values + [Trim(st.current)]
  }

  /** Number of double quotes in `s`. */
  function QuoteCount(s: string): nat
    decreases |s|
  {
    if s == [] then 0 else QuoteCount(s[..|s| - 1]) + (if s[|s| - 1] == '"' then 1 else 0)
  }

  /** Number of commas of `s` preceded by an even number of quotes, that is,
      commas that do not sit inside a quoted stretch. */
  function UnquotedCommas(s: string): nat
    decreases |s|
  {
    if s == [] then 0
    else
      var init := s[..|s| - 1];
      UnquotedCommas(init) + (if s[|s| - 1] == ',' && QuoteCount(init) % 2 == 0 then 1 else 0)
  }

  lemma TrimKeepsQuoteFree(s: string)
    requires '"' !in s
    ensures '"' !in Trim(s)
  {
    TrimSubmultiset(s);
    assert multiset(s)['"'] == 0;
    assert multiset(Trim(s))['"'] == 0;
  }

  /** Quote mode is the parity of the quotes read so far, and each comma
      read outside quotes has closed one field. */
  lemma {:induction false} ScanCounts(s: string)
    ensures Scan(s).inQuotes <==> QuoteCount(s) % 2 == 1
    ensures |Scan(s).values| == UnquotedCommas(s)
    decreases |s|
  {
    if s != [] {
      ScanCounts(s[..|s| - 1]);
    }
  }

  /** No closed or open field holds a quote, and closed fields are trimmed. */
  lemma {:induction false} ScanFieldsClean(s: string)
    ensures '"' !in Scan(s).current
    ensures forall i :: 0 <= i < |Scan(s).values| ==> '"' !in Scan(s).values[i] && IsTrimmed(Scan(s).values[i])
    decreases |s|
  {
    if s != [] {
      var init, c := s[..|s| - 1], s[|s| - 1];
      ScanFieldsClean(init);
      var st := Scan(init);
      assert Scan(s) == ScanStep(st, c);
      if c == '"' {
      } else if c == ',' && !st.inQuotes {
        TrimKeepsQuoteFree(st.current);
        var v := Trim(st.current);
        assert Scan(s).values == st.values + [v];
      } else {
        assert Scan(s).current == st.current + [c];
      }
    }
  }

  /** `parseCSVLine`: the loop over the characters of `line`. One field more
      than there are commas outside quotes; no field holds a quote and every
      field is trimmed. */
  method ParseCsvLine(line: string) returns (values: seq<string>)
    ensures values == SplitCsvLine(line)
    ensures values == TrimAll(RawFields(line))
    ensures |values| == 1 + UnquotedCommas(line)
    ensures forall i :: 0 <= i < |values| ==> '"' !in values[i] && IsTrimmed(values[i])
  {
    values := [];
    var current := "";
    var inQuotes := false;
    for i := 0 to |line|
      invariant Scan(line[..i]) == LineScan(values, current, inQuotes)
    {
      var c := line[i];
      assert line[..i + 1][..i] == line[..i];
      if c == '"' {
        inQuotes := !inQuotes;
      } else if c == ',' && !inQuotes {
        values := values + [Trim(current)];
        current := "";
      } else {
        current := current + [c];
      }
    }
    assert line[..|line|] == line;
    values := values + [Trim(current)];
    ScanCounts(line);
    ScanFieldsClean(line);
    TrimKeepsQuoteFree(Scan(line).current);
    SplitCsvLineRaw(line);
  }

  lemma ScanSnoc(s: string, c: char)
    ensures Scan(s + [c]) == ScanStep(Scan(s), c)
  {
    assert (s + [c])[..|s|] == s;
  }

  /** After an opening quote, quote-free text is gathered into the open
      field, commas included. */
  lemma {:induction false} ScanInsideQuotes(p: string)
    requires '"' !in p
    ensures Scan(['"'] + p) == LineScan([], p, true)
    decreases |p|
  {
    if p == [] {
      ScanSnoc([], '"');
    } else {
      var q, c := p[..|p| - 1], p[|p| - 1];
      assert p == q + [c];
      ScanInsideQuotes(q);
      assert ['"'] + p == (['"'] + q) + [c];
      ScanSnoc(['"'] + q, c);
    }
  }

  /** A line that is one quoted stretch is one field: the delimiter inside
      the quotes is literal text. */
  lemma QuotedFieldStaysWhole(f: string)
    requires '"' !in f
    ensures SplitCsvLine(['"'] + f + ['"']) == [Trim(f)]
  {
    ScanInsideQuotes(f);
    ScanSnoc(['"'] + f, '"');
  }

  /** `"1,200"` is the single field `1,200`, not two. */
  lemma QuotedCommaStaysOneField(line: string, field: string)
    requires line == "\"1,200\"" && field == "1,200"
    ensures SplitCsvLine(line) == [field]
  {
    assert line == ['"'] + field + ['"'] && '"' !in field && IsTrimmed(field);
    QuotedFieldStaysWhole(field);
    TrimOfTrimmed(field);
  }

  /** The pieces of a line between the commas that sit outside quotes, with
      the quotes themselves dropped and nothing trimmed. This is defined by
      the quote count alone, independently of the splitting loop. */
  function RawFields(s: string): (r: seq<string>)
    ensures |r| == 1 + UnquotedCommas(s)
    decreases |s|
  {
    if s == [] then [""]
    else
      var init, c := s[..|s| - 1], s[|s| - 1];
      var r := RawFields(init);
      if c == '"' then r
      else if c == ',' && QuoteCount(init) % 2 == 0 then r + [""]
      else r[..|r| - 1] + [r[|r| - 1] + [c]]
  }

  /** The line with its quotes removed. */
  function DropQuotes(s: string): (r: string)
    ensures '"' !in r
    decreases |s|
  {
    if s == [] then [] else DropQuotes(s[..|s| - 1]) + (if s[|s| - 1] == '"' then [] else [s[|s| - 1]])
  }

  /** Each piece trimmed. */
  function TrimAll(pieces: seq<string>): seq<string> {
    seq(|pieces|, i requires 0 <= i < |pieces| => Trim(pieces[i]))
  }

  /** Trimming every piece is trimming all but the last, then the last. */
  lemma TrimAllLast(pieces: seq<string>)
    requires |pieces| >= 1
    ensures TrimAll(pieces) == TrimAll(pieces[..|pieces| - 1]) + [Trim(pieces[|pieces| - 1])]
  {
  }

  /** The loop state is the raw fields read so far: the closed ones trimmed,
      the open one as read. */
  lemma {:induction false} ScanRaw(s: string)
    ensures var r := RawFields(s);
            Scan(s).values == TrimAll(r[..|r| - 1]) && Scan(s).current == r[|r| - 1]
    decreases |s|
  {
    if s != [] {
      var init, c := s[..|s| - 1], s[|s| - 1];
      ScanRaw(init);
      ScanCounts(init);
      var st, r := Scan(init), RawFields(init);
      var n := |r|;
      assert st.values == TrimAll(r[..n - 1]) && st.current == r[n - 1];
      if c == '"' {
        assert Scan(s) == st.(inQuotes := !st.inQuotes) && RawFields(s) == r;
      } else if c == ',' && !st.inQuotes {
        var r' := r + [""];
        assert RawFields(s) == r';
        assert Scan(s).values == st.values + [Trim(st.current)] && Scan(s).current == "";
        assert r'[..n] == r;
        TrimAllLast(r);
      } else {
        var r' := r[..n - 1] + [r[n - 1] + [c]];
        assert RawFields(s) == r';
        assert Scan(s).values == st.values && Scan(s).current == st.current + [c];
        assert r'[..n - 1] == r[..n - 1];
      }
    }
  }

  /** `parseCSVLine` returns the raw fields, each trimmed. */
  lemma SplitCsvLineRaw(line: string)
    ensures SplitCsvLine(line) == TrimAll(RawFields(line))
  {
    ScanRaw(line);
    TrimAllLast(RawFields(line));
  }

  /** The raw fields lose only the quotes: joined back with commas they give
      the line without its quotes. */
  lemma {:induction false} JoinRawFields(s: string)
    ensures Join(RawFields(s), ',') == DropQuotes(s)
    decreases |s|
  {
    if s != [] {
      var init, c := s[..|s| - 1], s[|s| - 1];
      JoinRawFields(init);
      var r := RawFields(init);
      if c == '"' {
      } else if c == ',' && QuoteCount(init) % 2 == 0 {
        JoinSnoc(r, "", ',');
        assert Join(r, ',') + [','] + "" == DropQuotes(init) + [c];
      } else {
        JoinExtendLast(r, c, ',');
      }
    }
  }

  /** Every raw field is free of quotes. */
  lemma {:induction false} RawFieldsQuoteFree(s: string)
    ensures forall i :: 0 <= i < |RawFields(s)| ==> '"' !in RawFields(s)[i]
    decreases |s|
  {
    if s != [] {
      RawFieldsQuoteFree(s[..|s| - 1]);
    }
  }

  lemma {:induction false} QuoteFreeCount(s: string)
    requires '"' !in s
    ensures QuoteCount(s) == 0
    decreases |s|
  {
    if s != [] {
      assert s[..|s| - 1] <= s;
      QuoteFreeCount(s[..|s| - 1]);
    }
  }

  /** On a line without quotes, the raw fields are exactly the pieces of a
      split at every comma. */
  lemma {:induction false} RawFieldsOfQuoteFree(s: string)
    requires '"' !in s
    ensures RawFields(s) == Split(s, ',')
    decreases |s|
  {
    if s != [] {
      var init, c := s[..|s| - 1], s[|s| - 1];
      assert s == init + [c];
      RawFieldsOfQuoteFree(init);
      if c == ',' {
        QuoteFreeCount(init);
        SplitSnocSep(init, ',');
      } else {
        SplitSnocOther(init, c, ',');
      }
    }
  }

  /** Without quotes, `parseCSVLine` is `line.split(',')` with every piece
      trimmed. */
  lemma SplitCsvLineQuoteFree(line: string)
    requires '"' !in line
    ensures SplitCsvLine(line) ==
            seq(|Split(line, ',')|, i requires 0 <= i < |Split(line, ',')| => Trim(Split(line, ',')[i]))
  {
    SplitCsvLineRaw(line);
    RawFieldsOfQuoteFree(line);
  }

  // ---------------------------------------------------------------------
  // parseFloat, restricted to plain decimals
  // ---------------------------------------------------------------------

  predicate IsDigit(c: char) {
    '0' <= c <= '9'
  }

  predicate AllDigits(s: string) {
    forall i :: 0 <= i < |s| ==> IsDigit(s[i])
  }

  /** The longest run of digits at the start of `s`. */
  function DigitRun(s: string): (r: string)
    ensures StartsWith(s, r) && AllDigits(r)
    ensures |r| == |s| || !IsDigit(s[|r|])
  {
    if s != [] && IsDigit(s[0]) then [s[0]] + DigitRun(s[1..]) else ""
  }

  /** The value of a string of decimal digits, most significant first. */
  function DigitsValue(d: string): nat
    requires AllDigits(d)
    decreases |d|
  {
    if d == [] then 0 else DigitsValue(d[..|d| - 1]) * 10 + (d[|d| - 1] as int - '0' as int)
  }

  function Pow10(n: nat): (r: nat)
    ensures r >= 1
  {
    if n == 0 then 1 else 10 * Pow10(n - 1)
  }

  /** The numeral at the start of `body`: digits, optionally followed by a
      point and more digits; `None` when there is no digit on either side
      of the point. */
  function LeadingDecimal(body: string): (r: Option<real>)
    ensures r.Some? ==> exists i :: 0 <= i < |body| && IsDigit(body[i])
  {
    var whole := DigitRun(body);
    var after := body[|whole|..];
    var frac := if after != [] && after[0] == '.' then DigitRun(after[1..]) else "";
    if whole == [] && frac == [] then None
    else
      assert whole != [] ==> whole[0] == body[0];
      assert frac != [] ==> frac[0] == body[|whole| + 1];
      Some(DecimalValue(whole, frac))
  }

  lemma DigitInSuffix(s: string, body: string)
    requires |body| <= |s| && body == s[|s| - |body|..]
    requires exists i :: 0 <= i < |body| && IsDigit(body[i])
    ensures exists i :: 0 <= i < |s| && IsDigit(s[i])
  {
    var i :| 0 <= i < |body| && IsDigit(body[i]);
    assert s[|s| - |body| + i] == body[i];
  }

  /** `parseFloat` on the longest prefix of the form [sign] digits [. digits]
      after leading whitespace; `None` stands for `NaN` (no digit at all). */
  function ParseFloat(s: string): (r: Option<real>)
    ensures r.Some? ==> exists i :: 0 <= i < |s| && IsDigit(s[i])
  {
    var t := TrimStart(s);
    var negative := t != [] && t[0] == '-';
    var body := if t != [] && (t[0] == '-' || t[0] == '+') then t[1..] else t;
    match LeadingDecimal(body)
    case None => None
    case Some(magnitude) =>
      TrimStartIsSuffix(s);
      assert body == s[|s| - |body|..];
      DigitInSuffix(s, body);
      Some(if negative then -magnitude else magnitude)
  }

  /** The value of the numeral `whole.frac`. */
  function DecimalValue(whole: string, frac: string): real
    requires AllDigits(whole) && AllDigits(frac)
  {
    DigitsValue(whole) as real + DigitsValue(frac) as real / Pow10(|frac|) as real
  }

  /** With no fraction digits the value is that of the whole digits. */
  lemma DecimalValueWhole(whole: string)
    requires AllDigits(whole)
    ensures DecimalValue(whole, "") == DigitsValue(whole) as real
  {
    assert Pow10(0) == 1;
  }

  /** Decimal numeral of a natural number, without leading zeros. */
  function Numeral(n: nat): (r: string)
    ensures r != [] && AllDigits(r)
  {
    if n < 10 then [('0' as int + n) as char] else Numeral(n / 10) + [('0' as int + n % 10) as char]
  }

  lemma {:induction false} NumeralValue(n: nat)
    ensures DigitsValue(Numeral(n)) == n
  {
    if n >= 10 {
      NumeralValue(n / 10);
      assert Numeral(n)[..|Numeral(n)| - 1] == Numeral(n / 10);
    }
  }

  lemma {:induction false} DigitRunOfDigits(s: string)
    requires AllDigits(s)
    ensures DigitRun(s) == s
  {
    if s != [] {
      DigitRunOfDigits(s[1..]);
    }
  }

  /** A plain run of digits reads as the number it denotes. */
  lemma ParseFloatDigits(s: string)
    requires s != [] && AllDigits(s)
    ensures ParseFloat(s) == Some(DigitsValue(s) as real)
  {
    assert s == "" + "" + s + "";
    ParseFloatInteger("", "", s, "");
  }

  /** Reading back the numeral of a natural number gives that number. */
  lemma ParseFloatNumeral(n: nat)
    ensures ParseFloat(Numeral(n)) == Some(n as real)
  {
    ParseFloatDigits(Numeral(n));
    NumeralValue(n);
  }

  /** Digits followed by anything but a digit: the run stops after them. */
  lemma {:induction false} DigitRunStops(d: string, rest: string)
    requires AllDigits(d)
    requires rest == [] || !IsDigit(rest[0])
    ensures DigitRun(d + rest) == d
  {
    if d == [] {
      assert d + rest == rest;
    } else {
      assert (d + rest)[0] == d[0];
      assert (d + rest)[1..] == d[1..] + rest;
      DigitRunStops(d[1..], rest);
    }
  }

  lemma DigitIsNotSpaceOrSign(c: char)
    requires IsDigit(c)
    ensures !IsWhitespace(c) && c != '-' && c != '+' && c != '.'
  {
  }

  /** Leading whitespace and an optional sign are read off before the
      numeral; a minus sign negates it. */
  lemma ParseFloatSigned(lead: string, sign: string, body: string)
    requires AllWhitespace(lead) && (sign == "" || sign == "-" || sign == "+")
    requires sign != "" || body == [] || (!IsWhitespace(body[0]) && body[0] != '-' && body[0] != '+')
    ensures LeadingDecimal(body).None? ==> ParseFloat(lead + sign + body).None?
    ensures LeadingDecimal(body).Some? ==> ParseFloat(lead + sign + body).Some?
    ensures LeadingDecimal(body).Some? ==>
              ParseFloat(lead + sign + body).value ==
              if sign == "-" then -LeadingDecimal(body).value else LeadingDecimal(body).value
  {
    var x := sign + body;
    assert lead + sign + body == lead + x;
    if sign == "" {
      assert x == body;
      TrimStartLead(lead, body);
      ParseFloatOfTrimmed(lead + x, body, false);
    } else {
      assert x[0] == sign[0] && x[1..] == body;
      TrimStartLead(lead, x);
      ParseFloatOfTrimmed(lead + x, body, sign == "-");
    }
  }

  /** `ParseFloat` once the leading whitespace is gone: the optional sign,
      then the numeral. */
  lemma ParseFloatOfTrimmed(s: string, body: string, negative: bool)
    requires var t := TrimStart(s);
             (t == body && (t == [] || (t[0] != '-' && t[0] != '+')) && !negative) ||
             (t != [] && t[1..] == body && ((t[0] == '-' && negative) || (t[0] == '+' && !negative)))
    ensures LeadingDecimal(body).None? ==> ParseFloat(s).None?
    ensures LeadingDecimal(body).Some? ==> ParseFloat(s).Some?
    ensures LeadingDecimal(body).Some? ==>
              ParseFloat(s).value == if negative then -LeadingDecimal(body).value else LeadingDecimal(body).value
  {
  }

  /** `whole . frac rest`, with `rest` not continuing the digits, is the
      numeral `whole.frac`. */
  lemma LeadingDecimalPoint(whole: string, frac: string, rest: string)
    requires AllDigits(whole) && AllDigits(frac) && (whole != [] || frac != [])
    requires rest == [] || !IsDigit(rest[0])
    ensures LeadingDecimal(whole + "." + frac + rest).Some?
    ensures LeadingDecimal(whole + "." + frac + rest).value == DecimalValue(whole, frac)
  {
    var tail := "." + frac + rest;
    var body := whole + "." + frac + rest;
    assert body == whole + tail;
    DigitRunStops(whole, tail);
    var after := body[|whole|..];
    assert after == tail;
    assert after[0] == '.' && after[1..] == frac + rest;
    DigitRunStops(frac, rest);
    assert DigitRun(after[1..]) == frac;
  }

  /** `whole rest`, with `rest` starting with neither a digit nor a point,
      is the numeral `whole`. */
  lemma LeadingDecimalInteger(whole: string, rest: string)
    requires AllDigits(whole) && whole != []
    requires rest == [] || (!IsDigit(rest[0]) && rest[0] != '.')
    ensures LeadingDecimal(whole + rest).Some?
    ensures LeadingDecimal(whole + rest).value == DigitsValue(whole) as real
  {
    DigitRunStops(whole, rest);
    assert (whole + rest)[|whole|..] == rest;
    DecimalValueWhole(whole);
  }

  /** `lead sign whole . frac rest`, with `rest` not continuing the digits,
      reads as the signed value of `whole.frac`: leading whitespace is
      skipped and whatever follows the numeral is ignored. */
  lemma ParseFloatPoint(lead: string, sign: string, whole: string, frac: string, rest: string)
    requires AllWhitespace(lead) && (sign == "" || sign == "-" || sign == "+")
    requires AllDigits(whole) && AllDigits(frac) && (whole != [] || frac != [])
    requires rest == [] || !IsDigit(rest[0])
    ensures ParseFloat(lead + sign + whole + "." + frac + rest).Some?
    ensures ParseFloat(lead + sign + whole + "." + frac + rest).value ==
            if sign == "-" then -DecimalValue(whole, frac) else DecimalValue(whole, frac)
  {
    var body := whole + "." + frac + rest;
    assert lead + sign + whole + "." + frac + rest == lead + sign + body;
    LeadingDecimalPoint(whole, frac, rest);
    if whole != [] {
      assert body[0] == whole[0];
      DigitIsNotSpaceOrSign(body[0]);
    } else {
      assert body[0] == '.';
    }
    ParseFloatSigned(lead, sign, body);
  }

  /** `lead sign whole rest`, with `rest` starting with neither a digit nor
      a point, reads as the signed value of the whole digits. */
  lemma ParseFloatInteger(lead: string, sign: string, whole: string, rest: string)
    requires AllWhitespace(lead) && (sign == "" || sign == "-" || sign == "+")
    requires AllDigits(whole) && whole != []
    requires rest == [] || (!IsDigit(rest[0]) && rest[0] != '.')
    ensures ParseFloat(lead + sign + whole + rest).Some?
    ensures ParseFloat(lead + sign + whole + rest).value ==
            if sign == "-" then -(DigitsValue(whole) as real) else DigitsValue(whole) as real
  {
    var body := whole + rest;
    assert lead + sign + whole + rest == lead + sign + body;
    LeadingDecimalInteger(whole, rest);
    assert body[0] == whole[0];
    DigitIsNotSpaceOrSign(body[0]);
    ParseFloatSigned(lead, sign, body);
  }

  /** With no digit on either side of the point, the result is `NaN`. */
  lemma ParseFloatNoDigits(lead: string, sign: string, rest: string)
    requires AllWhitespace(lead) && (sign == "" || sign == "-" || sign == "+")
    requires rest == [] || (!IsWhitespace(rest[0]) && rest[0] != '-' && rest[0] != '+')
    requires rest == [] || (!IsDigit(rest[0]) && (rest[0] != '.' || |rest| == 1 || !IsDigit(rest[1])))
    ensures ParseFloat(lead + sign + rest) == None
  {
    DigitRunStops("", rest);
    assert "" + rest == rest;
    if rest != [] && rest[0] == '.' && |rest| > 1 {
      DigitRunStops("", rest[1..]);
      assert "" + rest[1..] == rest[1..];
    }
    assert LeadingDecimal(rest).None?;
    ParseFloatSigned(lead, sign, rest);
  }

  lemma ValueOf12(whole: string, frac: string)
    requires whole == "12" && frac == "5"
    ensures AllDigits(whole) && AllDigits(frac)
    ensures DigitsValue(whole) == 12 && DecimalValue(whole, frac) == 12.5
  {
    assert whole[..1] == "1" && "1"[..0] == "";
    assert frac[..0] == "";
    assert Pow10(1) == 10;
  }

  /** A negative decimal reads as its value. */
  lemma ParseFloatNegativeDecimal(s: string)
    requires s == "-12.5"
    ensures ParseFloat(s) == Some(-12.5)
  {
    assert "" + "-" + "12" + "." + "5" + "" == s;
    ValueOf12("12", "5");
    ParseFloatPoint("", "-", "12", "5", "");
  }

  /** Only the numeral counts: text after whole digits that does not go on
      with a digit or a point is ignored. */
  lemma ParseFloatIgnoresRest(whole: string, rest: string)
    requires AllDigits(whole) && whole != []
    requires rest == [] || (!IsDigit(rest[0]) && rest[0] != '.')
    ensures ParseFloat(whole + rest) == ParseFloat(whole)
  {
    var s := whole + rest;
    assert "" + "" + whole + rest == s;
    ParseFloatInteger("", "", whole, rest);
    SomeOfParts(ParseFloat(s), DigitsValue(whole) as real);
    ParseFloatDigits(whole);
  }

  lemma SomeOfParts(o: Option<real>, v: real)
    requires o.Some? && o.value == v
    ensures o == Some(v)
  {
  }

  /** Text after the numeral is ignored: "12abc" reads as 12. */
  lemma ParseFloatTrailingText(s: string)
    requires s == "12abc"
    ensures ParseFloat(s) == Some(12.0)
  {
    var whole, rest := "12", "abc";
    assert whole + rest == s;
    assert AllDigits(whole) && !IsDigit(rest[0]) && rest[0] != '.';
    ParseFloatIgnoresRest(whole, rest);
    ValueOf12(whole, "5");
    ParseFloatDigits(whole);
  }

  // ---------------------------------------------------------------------
  // cleanNumber
  // ---------------------------------------------------------------------

  /** `value.replace(/[",]/g, '')`: every double quote and comma removed, all
      other characters kept. */
  function StripQuotesAndCommas(s: string): (r: string)
    ensures forall c :: c in r <==> c in s && c != '"' && c != ','
  {
    if s == [] then ""
    else
      var rest := StripQuotesAndCommas(s[1..]);
      assert forall c :: c in s <==> c == s[0] || c in s[1..];
      if s[0] == '"' || s[0] == ',' then rest else [s[0]] + rest
  }

  /** `cleanNumber`: a missing cell (`undefined`) or the empty string gives
      `null`; otherwise the number read from the cell with quotes and commas
      removed and whitespace trimmed, or `null` where `parseFloat` gives `NaN`. */
  function CleanNumber(value: Option<string>): (r: Option<real>)
    ensures value.None? || value == Some("") ==> r.None?
    ensures r.Some? ==> exists i :: 0 <= i < |value.value| && IsDigit(value.value[i])
  {
    if value.None? || value.value == "" then None
    else
      var cleaned := Trim(StripQuotesAndCommas(value.value));
      var r := ParseFloat(cleaned);
      assert r.Some? ==> exists i :: 0 <= i < |value.value| && IsDigit(value.value[i]) by {
        if r.Some? {
          var i :| 0 <= i < |cleaned| && IsDigit(cleaned[i]);
          DigitSurvivesCleaning(value.value, cleaned[i]);
        }
      }
      r
  }

  lemma DigitSurvivesCleaning(s: string, c: char)
    requires c in Trim(StripQuotesAndCommas(s))
    ensures c in s
  {
    var t := StripQuotesAndCommas(s);
    TrimSubmultiset(t);
    assert c in multiset(Trim(t));
    assert c in multiset(t);
  }

  lemma {:induction false} StripIdempotent(s: string)
    ensures StripQuotesAndCommas(StripQuotesAndCommas(s)) == StripQuotesAndCommas(s)
  {
    if s != [] {
      StripIdempotent(s[1..]);
    }
  }

  /** Quotes and thousands separators never matter to `cleanNumber`: a cell
      reads the same as the cell with them removed (a cell made only of them
      reads as `null` either way). */
  lemma CleanNumberIgnoresSeparators(s: string)
    ensures CleanNumber(Some(s)) == CleanNumber(Some(StripQuotesAndCommas(s)))
  {
    var t := StripQuotesAndCommas(s);
    if s != "" && t == "" {
      assert TrimStart("") == "";
    } else if s != "" {
      StripIdempotent(s);
    }
  }

  /** The removal works character by character. */
  lemma {:induction false} StripAppend(a: string, b: string)
    ensures StripQuotesAndCommas(a + b) == StripQuotesAndCommas(a) + StripQuotesAndCommas(b)
  {
    if a == [] {
      assert a + b == b;
    } else {
      assert (a + b)[0] == a[0];
      assert (a + b)[1..] == a[1..] + b;
      StripAppend(a[1..], b);
    }
  }

  /** Text without quotes or commas is left as it is. */
  lemma {:induction false} StripClean(s: string)
    requires '"' !in s && ',' !in s
    ensures StripQuotesAndCommas(s) == s
  {
    if s != [] {
      assert s[0] in s;
      assert forall c :: c in s[1..] ==> c in s;
      StripClean(s[1..]);
    }
  }

  lemma WhitespaceHasNoSeparators(w: string)
    requires AllWhitespace(w)
    ensures '"' !in w && ',' !in w
  {
    forall k | 0 <= k < |w|
      ensures w[k] != '"' && w[k] != ','
    {
      assert IsWhitespace(w[k]);
    }
  }

  /** A cell holding a numeral between whitespace reads as the numeral with
      its quotes and commas removed, whatever the padding. */
  lemma CleanNumberPadded(w1: string, core: string, w2: string)
    requires AllWhitespace(w1) && AllWhitespace(w2)
    requires StripQuotesAndCommas(core) != [] && IsTrimmed(StripQuotesAndCommas(core))
    ensures CleanNumber(Some(w1 + core + w2)) == ParseFloat(StripQuotesAndCommas(core))
  {
    var x := StripQuotesAndCommas(core);
    StripAppend(w1 + core, w2);
    StripAppend(w1, core);
    WhitespaceHasNoSeparators(w1);
    WhitespaceHasNoSeparators(w2);
    StripClean(w1);
    StripClean(w2);
    assert StripQuotesAndCommas(w1 + core + w2) == w1 + x + w2;
    TrimPadded(w1, x, w2);
    assert core != [];
    assert |w1 + core + w2| > 0;
  }

  /** Any cell whose characters are digits, grouping commas and quotes,
      possibly padded with whitespace, reads as the number its digits spell. */
  lemma CleanGroupedDigits(w1: string, core: string, w2: string)
    requires AllWhitespace(w1) && AllWhitespace(w2)
    requires forall k :: 0 <= k < |core| ==> IsDigit(core[k]) || core[k] == ',' || core[k] == '"'
    requires exists k :: 0 <= k < |core| && IsDigit(core[k])
    ensures AllDigits(StripQuotesAndCommas(core))
    ensures CleanNumber(Some(w1 + core + w2)) == Some(DigitsValue(StripQuotesAndCommas(core)) as real)
  {
    var x := StripQuotesAndCommas(core);
    forall i | 0 <= i < |x| ensures IsDigit(x[i]) {
      assert x[i] in x;
      var k :| 0 <= k < |core| && core[k] == x[i];
    }
    var k :| 0 <= k < |core| && IsDigit(core[k]);
    assert core[k] in core;
    assert core[k] in x;
    assert !IsWhitespace(x[0]) && !IsWhitespace(x[|x| - 1]);
    CleanNumberPadded(w1, core, w2);
    ParseFloatDigits(x);
  }

  lemma StripGroupedNumber(cell: string)
    requires cell == "\"1,200\""
    ensures StripQuotesAndCommas(cell) == "1200"
  {
    assert StripQuotesAndCommas("\"") == "";
    assert StripQuotesAndCommas("0\"") == "0";
    assert StripQuotesAndCommas("00\"") == "00";
    assert StripQuotesAndCommas("200\"") == "200";
    assert StripQuotesAndCommas(",200\"") == "200";
    assert StripQuotesAndCommas("1,200\"") == "1200";
  }

  lemma ValueOf1200(digits: string)
    requires digits == "1200"
    ensures IsTrimmed(digits) && digits != [] && AllDigits(digits)
    ensures DigitsValue(digits) == 1200
  {
    assert digits[..3] == "120" && "120"[..2] == "12" && "12"[..1] == "1" && "1"[..0] == "";
  }

  /** The quoted, comma-grouped cell `"1,200"` reads as 1200. */
  lemma CleanGroupedNumber(cell: string)
    requires cell == "\"1,200\""
    ensures CleanNumber(Some(cell)) == Some(1200.0)
  {
    StripGroupedNumber(cell);
    var digits := StripQuotesAndCommas(cell);
    ValueOf1200(digits);
    TrimOfTrimmed(digits);
    ParseFloatDigits(digits);
  }

  // ---------------------------------------------------------------------
  // normalizeHeaders and findIndex
  // ---------------------------------------------------------------------

  /** The canonical column names in the order the rules try them. */
  const CanonicalNames: seq<string> := ["date", "close", "open", "high", "low", "volume"]

  /** Position of the first name in `names` that `lower` contains. */
  function FirstMatch(lower: string, names: seq<string>): (r: Option<nat>)
    ensures r.Some? ==> r.value < |names| && Contains(lower, names[r.value])
    ensures r.Some? ==> forall j :: 0 <= j < r.value ==> !Contains(lower, names[j])
    ensures r.None? ==> forall j :: 0 <= j < |names| ==> !Contains(lower, names[j])
  {
    if names == [] then None
    else if Contains(lower, names[0]) then Some(0)
    else
      match FirstMatch(lower, names[1..])
      case None => None
      case Some(k) => Some(k + 1)
  }

  /** One header: lower-cased and trimmed, it becomes the first canonical
      name it contains (`lower === name` is implied, as a string contains
      itself); a header that contains none is kept as it was written. */
  function NormalizeHeader(h: string): (r: string)
    ensures forall k :: 0 <= k < |CanonicalNames| && Contains(Lower(Trim(h)), CanonicalNames[k]) &&
                        (forall j :: 0 <= j < k ==> !Contains(Lower(Trim(h)), CanonicalNames[j]))
                        ==> r == CanonicalNames[k]
    ensures (forall k :: 0 <= k < |CanonicalNames| ==> !Contains(Lower(Trim(h)), CanonicalNames[k])) ==> r == h
  {
    match FirstMatch(Lower(Trim(h)), CanonicalNames)
    case Some(k) => CanonicalNames[k]
    case None => h
  }

  /** `normalizeHeaders`: the header rule applied to every column. */
  function NormalizeHeaders(headers: seq<string>): (r: seq<string>)
    ensures |r| == |headers|
    ensures forall i :: 0 <= i < |headers| ==> r[i] == NormalizeHeader(headers[i])
  {
    seq(|headers|, i requires 0 <= i < |headers| => NormalizeHeader(headers[i]))
  }

  predicate IsLowerWord(s: string) {
    forall i :: 0 <= i < |s| ==> 'a' <= s[i] <= 'z'
  }

  /** A lower-case word is its own lower-cased, trimmed form. */
  lemma LowerTrimOfWord(s: string)
    requires IsLowerWord(s)
    ensures Lower(Trim(s)) == s
  {
    if s != [] {
      assert !IsWhitespace(s[0]) && !IsWhitespace(s[|s| - 1]);
    }
    TrimOfTrimmed(s);
  }

  lemma CanonicalNamesFacts()
    ensures forall k :: 0 <= k < |CanonicalNames| ==> IsLowerWord(CanonicalNames[k])
    ensures forall i, j :: 0 <= i < j < |CanonicalNames| ==> CanonicalNames[i] != CanonicalNames[j]
  {
  }

  /** Position `k` of the rule table is the name a header receives exactly
      when, lower-cased and trimmed, it contains that name and none before. */
  lemma {:induction false} NormalizedTo(h: string, k: nat)
    requires k < |CanonicalNames|
    ensures NormalizeHeader(h) == CanonicalNames[k] <==>
              Contains(Lower(Trim(h)), CanonicalNames[k]) &&
              forall j :: 0 <= j < k ==> !Contains(Lower(Trim(h)), CanonicalNames[j])
  {
    var lower := Lower(Trim(h));
    CanonicalNamesFacts();
    if FirstMatch(lower, CanonicalNames).None? && h == CanonicalNames[k] {
      LowerTrimOfWord(h);
      assert false;
    }
  }

  /** A header normalizes to `date` exactly when, lower-cased and trimmed,
      it contains "date". */
  lemma NormalizedDate(h: string)
    ensures NormalizeHeader(h) == "date" <==> Contains(Lower(Trim(h)), "date")
  {
    NormalizedTo(h, 0);
  }

  /** A header normalizes to `close` exactly when, lower-cased and trimmed,
      it contains "close" and not "date". */
  lemma NormalizedClose(h: string)
    ensures NormalizeHeader(h) == "close" <==>
              Contains(Lower(Trim(h)), "close") && !Contains(Lower(Trim(h)), "date")
  {
    NormalizedTo(h, 1);
  }

  lemma TrimHeaderSamples(h: string)
    requires h == "Adj Close" || h == "Close Date" || h == " Ticker"
    ensures Trim(h) == (if h == " Ticker" then h[1..] else h)
  {
    if h == " Ticker" {
      assert TrimStart(h) == h[1..];
      assert IsTrimmed(h[1..]);
      TrimOfTrimmed(h[1..]);
    } else {
      assert IsTrimmed(h);
      TrimOfTrimmed(h);
    }
  }

  lemma LowerHeaderSamples(h: string, lower: string)
    requires (h == "Adj Close" && lower == "adj close") || (h == "Close Date" && lower == "close date") ||
             (h == "Ticker" && lower == "ticker")
    ensures Lower(h) == lower
  {
  }

  lemma ContainsHeaderSamples(lower: string)
    requires lower == "adj close" || lower == "close date" || lower == "ticker"
    ensures lower == "adj close" ==> Contains(lower, "close") && !Contains(lower, "date")
    ensures lower == "close date" ==> Contains(lower, "date")
    ensures lower == "ticker" ==> forall k :: 0 <= k < |CanonicalNames| ==> !Contains(lower, CanonicalNames[k])
  {
    if lower == "adj close" {
      ContainsAt(lower, "close", 4);
      assert 't' !in lower;
      if Contains(lower, "date") {
        ContainsHasChars(lower, "date", 2);
      }
    } else if lower == "close date" {
      ContainsAt(lower, "date", 6);
    } else {
      assert 'd' !in lower && 'l' !in lower && 'p' !in lower && 'g' !in lower && 'v' !in lower;
      forall k | 0 <= k < |CanonicalNames|
        ensures !Contains(lower, CanonicalNames[k])
      {
        if Contains(lower, CanonicalNames[k]) {
          var j := if k == 2 then 1 else if k == 3 then 2 else if k == 1 then 1 else 0;
          ContainsHasChars(lower, CanonicalNames[k], j);
        }
      }
    }
  }

  /** "Adj Close" is the close column: "close" sits at position 4 and there
      is no "date" in it. */
  lemma AdjCloseIsClose(h: string, lower: string)
    requires h == "Adj Close" && lower == "adj close"
    ensures NormalizeHeader(h) == "close"
  {
    TrimHeaderSamples(h);
    LowerHeaderSamples(h, lower);
    ContainsHeaderSamples(lower);
    NormalizedClose(h);
  }

  /** "Close Date" is a date column: the date rule is tried before close. */
  lemma CloseDateIsDate(h: string, lower: string)
    requires h == "Close Date" && lower == "close date"
    ensures NormalizeHeader(h) == "date"
  {
    TrimHeaderSamples(h);
    LowerHeaderSamples(h, lower);
    ContainsHeaderSamples(lower);
    NormalizedDate(h);
  }

  /** A header that mentions no canonical name keeps its original spelling,
      leading space and capital included. */
  lemma TickerKept(h: string, lower: string)
    requires h == " Ticker" && lower == "ticker"
    ensures NormalizeHeader(h) == h
  {
    TrimHeaderSamples(h);
    LowerHeaderSamples(h[1..], lower);
    ContainsHeaderSamples(lower);
  }

  /** `Array.prototype.findIndex` with `===`: the first position holding `x`,
      or `None` (the source's -1) when there is none. */
  function FindIndex(s: seq<string>, x: string): (r: Option<nat>)
    ensures r.Some? ==> r.value < |s| && s[r.value] == x && forall j :: 0 <= j < r.value ==> s[j] != x
    ensures r.None? <==> x !in s
  {
    if s == [] then None
    else if s[0] == x then Some(0)
    else
      match FindIndex(s[1..], x)
      case None => None
      case Some(k) => Some(k + 1)
  }
}
