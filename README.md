# StockSight core in Dafny

StockSight is a React web application. The user uploads a CSV file of daily stock prices and gets a forecast with a buy/sell recommendation. All of its logic sits in two page components:

- **`StockPrediction_tenday.jsx` (the next-day page).** It forecasts one day ahead with a weighted ensemble of five estimates: a 5-close average, a 10-close average, a 12-period exponential average, a linear-regression extrapolation and a momentum estimate. It computes a confidence figure and a ±1.96σ band, and turns the forecast into one of four recommendations (BUY, SELL, HOLD, WAIT).
- **`StockPredictionPlatform.jsx` (the platform page).** It forecasts 1 to 30 days ahead (10 at first) with a drifting random walk it labels "LSTM". It can draw a batch of random walks as a "Monte Carlo" simulation. It turns the last forecast day into one of three recommendations (BUY, HOLD, WAIT). Whenever the horizon slider moves, it recomputes.

Both pages share the same ingestion code:

1. Split the text into its non-blank lines.
2. Split each line on commas that are outside double quotes.
3. Map each header to a canonical column name (date, close, open, high, low, volume).
4. Keep a data row only when its date cell is non-empty and its close cell reads as a positive number.
5. Sort the kept rows by date.

This project models that core:

| module | file | what it models |
|---|---|---|
| `Signals` | `signals.dfy` | The two recommendation rules. |
| `Text` | `text.dfy` | The string primitives the code relies on: `trim`, `toLowerCase`, `includes` and `split`. |
| `Csv` | `csv.dfy` | `parseCSVLine`, `cleanNumber`, `normalizeHeaders` and `findIndex`. |
| `Ingest` | `ingest.dfy` | `handleFileUpload` up to the sort. |
| `Forecast` | `forecast.dfy` | `generateNextDayPrediction` with its indicators. |
| `Paths` | `paths.dfy` | `generateLSTMPredictions` and `generateMonteCarloSimulations`. |
| `Analysis` | `analysis.dfy` | The two `calculateAnalysis` functions. |
| `Pages` | `pages.dfy` | The date sort, and the state of the two pages with the event handlers that change it. |

**Where the code is a loop, the model is a `method` with a loop.** This covers:

- the character loop of `parseCSVLine`;
- the row loop;
- the EMA loop;
- the returns loop;
- the two walk generators.

Each such method is proved equal to a specification function, and the properties are proved about that function.

**The React state of each page is a class.** The `useState` hooks become its fields. Its methods are the event handlers, with a `Valid()` invariant that every handler keeps.

**Assumptions and conventions:**

- Numbers are mathematical reals; nothing is rounded.
- Each call to `Math.random()` becomes the next value of an explicit `draws` sequence of values in [0, 1).
- `Math.sqrt` becomes a function parameter that is assumed to return the non-negative square root (`IsSqrt`).
- Parsing a date for the sort becomes a parameter `dateKey`.
- Each `alert` becomes an `IngestError` value: too few lines, no date or close column, or no valid row.

**Two places where the model departs from the code:**

- **A single loaded row on the next-day page.** With one close, the code divides zero by zero when it averages the returns, so the page shows NaN figures. The model returns no forecast instead (`None`).
- **`parseFloat`.** The model reads only an optional sign, digits, and an optional `.` followed by digits. For cells of that form it gives the same value as the code.

## Model

Source paths in the table are relative to the repository root. Both components define the CSV helpers and the upload handler. The helpers, and the handler up to and including the date sort, are the same in both apart from layout. The table cites the next-day copy, `StockPrediction_tenday.jsx`, for that shared code. The rest differs between the two components and is cited from each file separately:

- `calculateAnalysis`: the next-day page applies the four-way rule to the next-day forecast (`StockPrediction_tenday.jsx`:109-149). The platform applies the three-way rule to the last forecast day (`StockPredictionPlatform.jsx`:62-86).
- The forecast the handler computes: `generateNextDayPrediction` on the next-day page (`StockPrediction_tenday.jsx`:259). `generateLSTMPredictions` on the platform page (`StockPredictionPlatform.jsx`:192).
- The "no valid data" alert: the two pages word it differently (`StockPrediction_tenday.jsx`:267, `StockPredictionPlatform.jsx`:200). The model does not keep alert texts, so both become `NoValidRows`.

The platform copies of the shared code are:

- `parseCSVLine`: lines 88-106;
- `cleanNumber`: lines 108-113;
- `normalizeHeaders`: lines 115-126;
- the row loop: lines 163-186;
- the date sort: line 189.

| member | source | states |
|---|---|---|
| Signals.Classify | src/components/StockPrediction_tenday.jsx:123-135 | The four-way rule, one iff per outcome: BUY iff change > 1.5 and confidence > 70. SELL iff change < -1.5 and confidence > 70. HOLD iff -1 < change < 1. WAIT iff \|change\| ≥ 1 and (\|change\| ≤ 1.5 or confidence ≤ 70). Together these make the four outcomes exhaustive and mutually exclusive. |
| Signals.ClassifyHorizon | src/components/StockPredictionPlatform.jsx:72-74 | WAIT iff change < -3, BUY iff change > 3, HOLD iff -3 ≤ change ≤ 3; never SELL. |
| Text.Trim | src/components/StockPrediction_tenday.jsx:162 | The result starts and ends with a non-whitespace character, or is empty. Whitespace is every code point `String.prototype.trim` removes: the ECMAScript WhiteSpace (space separators included) and LineTerminator code points. |
| Text.TrimIsSlice | src/components/StockPrediction_tenday.jsx:162 | What trim keeps is a slice s[i..j] of the input; every character before i and from j on is whitespace. |
| Text.TrimStartIsSuffix | src/components/StockPrediction_tenday.jsx:162 | Dropping leading whitespace keeps a suffix, and every dropped character is whitespace. |
| Text.TrimEndIsPrefix | src/components/StockPrediction_tenday.jsx:162 | Dropping trailing whitespace keeps a prefix, and every dropped character is whitespace. |
| Text.TrimPadded | src/components/StockPrediction_tenday.jsx:175 | Text that neither starts nor ends with whitespace, padded with whitespace on both sides, trims back to itself. |
| Text.TrimSubmultiset | src/components/StockPrediction_tenday.jsx:162 | Trimming only removes characters (a submultiset of the input). |
| Text.TrimOfTrimmed | src/components/StockPrediction_tenday.jsx:175 | Trimming an already trimmed string changes nothing. |
| Text.Lower | src/components/StockPrediction_tenday.jsx:182 | Same length; every character lower-cased in place. |
| Text.Split | src/components/StockPrediction_tenday.jsx:204 | At least one piece, and no piece contains the separator. |
| Text.SplitSnocSep | src/components/StockPrediction_tenday.jsx:204 | Appending a separator to the text appends an empty piece to its split. |
| Text.SplitSnocOther | src/components/StockPrediction_tenday.jsx:204 | Appending any other character to the text extends the last piece of its split by that character. |
| Text.JoinSnoc | src/components/StockPrediction_tenday.jsx:204 | Joining one more piece appends the separator and that piece. |
| Text.JoinExtendLast | src/components/StockPrediction_tenday.jsx:204 | Extending the last piece by a character extends the join by it. |
| Text.JoinSplit | src/components/StockPrediction_tenday.jsx:204 | Joining the pieces with the separator gives back the original text. |
| Text.SplitHead | src/components/StockPrediction_tenday.jsx:244 | The first piece is a prefix of the text, ending at the first separator or at the end of the text. |
| Csv.ParseCsvLine | src/components/StockPrediction_tenday.jsx:151-171 | The loop returns the specified fields, which are the raw fields of the line (`RawFields`), each trimmed. There is one field more than there are commas with an even number of quotes before them. No field holds a `"`, and every field is trimmed. |
| Csv.ScanCounts | src/components/StockPrediction_tenday.jsx:156-167 | Quote mode is on iff an odd number of quotes has been read. Each comma read outside quotes closes exactly one field. |
| Csv.ScanFieldsClean | src/components/StockPrediction_tenday.jsx:159-168 | No field, closed or in progress, holds a quote, and closed fields are trimmed. |
| Csv.ScanRaw | src/components/StockPrediction_tenday.jsx:156-167 | After any prefix of the line, the closed fields are the raw fields read so far, trimmed, and the open field is the last raw field as read. |
| Csv.SplitCsvLineRaw | src/components/StockPrediction_tenday.jsx:151-171 | The fields are the raw fields of the line (the text between commas that sit outside quotes, quotes dropped), each trimmed. |
| Csv.RawFields | src/components/StockPrediction_tenday.jsx:151-171 | There is one raw field more than there are commas outside quotes. |
| Csv.JoinRawFields | src/components/StockPrediction_tenday.jsx:159-168 | The raw fields joined with commas give back the line with only its quotes removed. |
| Csv.RawFieldsQuoteFree | src/components/StockPrediction_tenday.jsx:159-160 | No raw field holds a quote. |
| Csv.RawFieldsOfQuoteFree | src/components/StockPrediction_tenday.jsx:161-162 | On a line without quotes, the raw fields are exactly the pieces of a split at every comma. |
| Csv.SplitCsvLineQuoteFree | src/components/StockPrediction_tenday.jsx:151-171 | On a line without quotes, the fields are `line.split(',')` with every piece trimmed. |
| Csv.QuotedFieldStaysWhole | src/components/StockPrediction_tenday.jsx:159-168 | A line that is one quoted stretch without inner quotes is a single field, whatever commas it holds. |
| Csv.QuotedCommaStaysOneField | src/components/StockPrediction_tenday.jsx:151-171 | `"1,200"` splits into the single field `1,200`. |
| Csv.ParseFloat | src/components/StockPrediction_tenday.jsx:176 | A number is read only when the text has a digit. |
| Csv.LeadingDecimal | src/components/StockPrediction_tenday.jsx:176 | The numeral at the start of the text is read only when the text has a digit. |
| Csv.LeadingDecimalPoint | src/components/StockPrediction_tenday.jsx:176 | Digits, a point, digits and then a non-digit read as the value whole.frac. |
| Csv.LeadingDecimalInteger | src/components/StockPrediction_tenday.jsx:176 | Digits followed by neither a digit nor a point read as their value. |
| Csv.ParseFloatSigned | src/components/StockPrediction_tenday.jsx:176 | Leading whitespace and one sign are skipped. A minus negates the numeral that follows. No numeral gives NaN. |
| Csv.ParseFloatPoint | src/components/StockPrediction_tenday.jsx:176 | Whitespace, an optional sign, whole.frac and any text not starting with a digit read as the signed value of whole.frac. |
| Csv.ParseFloatInteger | src/components/StockPrediction_tenday.jsx:176 | Whitespace, an optional sign, digits and any text starting with neither a digit nor a point read as the signed value of the digits. |
| Csv.ParseFloatNoDigits | src/components/StockPrediction_tenday.jsx:176 | With no digit right after the sign, on either side of the point, the result is NaN. |
| Csv.ParseFloatIgnoresRest | src/components/StockPrediction_tenday.jsx:176 | Text after the digits that does not go on with a digit or a point does not change the value read. |
| Csv.ParseFloatNegativeDecimal | src/components/StockPrediction_tenday.jsx:176 | "-12.5" reads as -12.5. |
| Csv.ParseFloatTrailingText | src/components/StockPrediction_tenday.jsx:176 | "12abc" reads as 12. |
| Csv.ParseFloatDigits | src/components/StockPrediction_tenday.jsx:176 | A run of digits reads as the natural number it denotes. |
| Csv.ParseFloatNumeral | src/components/StockPrediction_tenday.jsx:176 | Reading back the decimal numeral of n gives n (a round trip). |
| Csv.StripQuotesAndCommas | src/components/StockPrediction_tenday.jsx:175 | A character is kept iff it occurs in the input and is neither `"` nor `,`. |
| Csv.StripAppend | src/components/StockPrediction_tenday.jsx:175 | The removal works character by character: stripping a + b gives strip(a) + strip(b), so order is kept. |
| Csv.StripClean | src/components/StockPrediction_tenday.jsx:175 | Text without quotes or commas is left unchanged. |
| Csv.StripIdempotent | src/components/StockPrediction_tenday.jsx:175 | Stripping twice is the same as stripping once. |
| Csv.CleanNumber | src/components/StockPrediction_tenday.jsx:173-178 | A missing or empty cell gives null. A number is returned only when the cell holds a digit. |
| Csv.DigitSurvivesCleaning | src/components/StockPrediction_tenday.jsx:175-176 | Every character the parser sees after cleaning was in the raw cell. |
| Csv.CleanNumberIgnoresSeparators | src/components/StockPrediction_tenday.jsx:173-178 | A cell and the same cell without quotes and commas read alike. |
| Csv.CleanGroupedNumber | src/components/StockPrediction_tenday.jsx:173-178 | The cell `"1,200"` reads as 1200. |
| Csv.CleanNumberPadded | src/components/StockPrediction_tenday.jsx:173-178 | A cell holding a numeral between runs of whitespace reads as the numeral with its quotes and commas removed. |
| Csv.CleanGroupedDigits | src/components/StockPrediction_tenday.jsx:173-178 | A cell made of digits, grouping commas and quotes, padded or not, reads as the number its digits spell. |
| Csv.FirstMatch | src/components/StockPrediction_tenday.jsx:183-188 | Finds the first canonical name the header contains, and finds none when the header contains none of them. |
| Csv.NormalizeHeader | src/components/StockPrediction_tenday.jsx:181-190 | The lower-cased, trimmed header becomes the first canonical name it contains, in the order date, close, open, high, low, volume. A header that contains none is returned unchanged. |
| Csv.NormalizeHeaders | src/components/StockPrediction_tenday.jsx:180-191 | Same length as the input; each header normalized on its own. |
| Csv.NormalizedTo | src/components/StockPrediction_tenday.jsx:182-189 | A header becomes the k-th canonical name iff it contains that name and none of the names tried before it. |
| Csv.NormalizedDate | src/components/StockPrediction_tenday.jsx:183 | A header becomes `date` iff its lower-cased, trimmed form contains "date". |
| Csv.NormalizedClose | src/components/StockPrediction_tenday.jsx:183-184 | A header becomes `close` iff it contains "close" and not "date". |
| Csv.AdjCloseIsClose | src/components/StockPrediction_tenday.jsx:182-184 | "Adj Close" becomes `close`. |
| Csv.CloseDateIsDate | src/components/StockPrediction_tenday.jsx:182-184 | "Close Date" becomes `date`, because the date rule is tried first. |
| Csv.TickerKept | src/components/StockPrediction_tenday.jsx:182-189 | " Ticker" matches no rule and keeps its original spelling, untrimmed. |
| Csv.FindIndex | src/components/StockPrediction_tenday.jsx:215-220 | Returns the first position holding the name, or none exactly when the name is absent. |
| Ingest.NonBlank | src/components/StockPrediction_tenday.jsx:204 | Keeps no more lines than it is given. A line is kept iff it is one of the input lines and is not blank. |
| Ingest.NonBlankOne | src/components/StockPrediction_tenday.jsx:204 | A single line is kept iff it is not blank. |
| Ingest.NonBlankAppend | src/components/StockPrediction_tenday.jsx:204 | The filter keeps order: filtering a + b gives the lines kept from a, then those kept from b. |
| Ingest.ColumnsOf | src/components/StockPrediction_tenday.jsx:215-226 | Columns exist iff both `date` and `close` are among the names. Their positions are the first ones holding those names. Open, high, low and volume are the findIndex results for their names. |
| Ingest.RowPoint | src/components/StockPrediction_tenday.jsx:234-250 | A kept row has a positive close. Its date is non-empty and holds no space. The date is the trimmed date cell up to its first space, or the whole cell when there is none. |
| Ingest.RowKeptExactly | src/components/StockPrediction_tenday.jsx:237 | A row is kept iff the date cell exists and is non-empty once trimmed and the close cell reads as a number greater than 0. |
| Ingest.RowPointFields | src/components/StockPrediction_tenday.jsx:238-250 | The close comes from the close cell. Open, high and low equal their cell value when it is a non-zero number, and the close otherwise (null or 0). The volume equals its cell value when non-zero, and 0 otherwise. |
| Ingest.LinePoint | src/components/StockPrediction_tenday.jsx:230-250 | A blank line yields nothing. Any other line yields exactly what the row rule gives, and every point yielded is a stored point. |
| Ingest.KeptRows | src/components/StockPrediction_tenday.jsx:229-252 | At most one point per data line, and every point is stored: positive close, non-empty date without spaces. |
| Ingest.KeptRowsAppend | src/components/StockPrediction_tenday.jsx:229-252 | Rejecting rows never reorders the others: the rows kept from a + b are those kept from a followed by those kept from b. |
| Ingest.KeptRowsSnoc | src/components/StockPrediction_tenday.jsx:229-252 | One more line appends its point, if any, at the end. |
| Ingest.ParseRow | src/components/StockPrediction_tenday.jsx:230-251 | One iteration of the row loop yields exactly the point the row rule specifies, and that point is stored. |
| Ingest.BuildRows | src/components/StockPrediction_tenday.jsx:228-252 | The loop returns the kept rows of the data lines in line order, no more of them than there are data lines, and all of them stored. |
| Ingest.Ingest | src/components/StockPrediction_tenday.jsx:203-254 | Fails with too-few-lines iff there are under two non-blank lines. Fails with the missing-column error iff the header lacks `date` or `close`. Either way it stops before any row is read. On success there are between 1 and (lines − 1) points, each with a positive close and a non-empty date. |
| Ingest.NoDateHeaderRejected | src/components/StockPrediction_tenday.jsx:222-226 | A header in which no cell mentions "date" in any case ends the upload with the missing-column error. |
| Forecast.MeanBounds | src/components/StockPrediction_tenday.jsx:111 | The mean lies between the smallest and the largest value. |
| Forecast.MeanConstant | src/components/StockPrediction_tenday.jsx:111 | The mean of a constant series is that constant. |
| Forecast.TakeLast | src/components/StockPrediction_tenday.jsx:16 | `slice(-k)`: the last min(k, length) values. |
| Forecast.Sma5 | src/components/StockPrediction_tenday.jsx:19 | With at least five closes, the mean of the last five. |
| Forecast.Sma10 | src/components/StockPrediction_tenday.jsx:20 | With at least ten closes, the mean of the last ten. |
| Forecast.Sma20 | src/components/StockPrediction_tenday.jsx:21 | The mean of the last min(20, length) closes, so it lies between their minimum and maximum. |
| Forecast.ShortAverages | src/components/StockPrediction_tenday.jsx:19-20 | With fewer than 5 (or 10) closes flat at v, the sum is still divided by 5 (or 10), so the average is length·v/5 (or length·v/10). |
| Forecast.EmaBounds | src/components/StockPrediction_tenday.jsx:24-31 | For a smoothing factor in [0, 1], the EMA lies between the window's minimum and maximum. |
| Forecast.EmaConstant | src/components/StockPrediction_tenday.jsx:24-31 | The EMA of a constant series is that constant. |
| Forecast.CalculateEma | src/components/StockPrediction_tenday.jsx:24-31 | The loop computes the specified EMA with k = 2/(period+1), and the result lies between the minimum and maximum close. |
| Forecast.SumXClosedForm | src/components/StockPrediction_tenday.jsx:42 | The closed form n(n−1)/2 equals the sum of the indices 0..n−1. |
| Forecast.SumX2ClosedForm | src/components/StockPrediction_tenday.jsx:45 | The closed form n(n−1)(2n−1)/6 equals the sum of the squared indices. |
| Forecast.Denominator | src/components/StockPrediction_tenday.jsx:47 | The regression denominator n·sumX2 − sumX² is nonzero iff n ≥ 2. |
| Forecast.DenominatorClosedForm | src/components/StockPrediction_tenday.jsx:47 | The denominator equals n²(n²−1)/12. |
| Forecast.QuarticSign | src/components/StockPrediction_tenday.jsx:47 | n²(n²−1) is positive iff n ≥ 2, and zero iff n < 2. |
| Forecast.Fit | src/components/StockPrediction_tenday.jsx:41-50 | Yields an estimate iff n ≥ 2. |
| Forecast.Regression | src/components/StockPrediction_tenday.jsx:40-51 | Yields an estimate iff there are at least two prices. |
| Forecast.SumOnLine | src/components/StockPrediction_tenday.jsx:43 | For prices a + b·i, sumY = n·a + b·Σi. |
| Forecast.SumXYOnLine | src/components/StockPrediction_tenday.jsx:44 | For prices a + b·i, sumXY = a·Σi + b·Σi². |
| Forecast.LineForecastOfLine | src/components/StockPrediction_tenday.jsx:47-50 | For sums that come from the line a + b·i, `slope*n + intercept` equals a + b·n. |
| Forecast.RegressionOnLine | src/components/StockPrediction_tenday.jsx:40-51 | Prices lying exactly on a + b·i (at least two of them) are extrapolated to a + b·n. |
| Forecast.FlatRegression | src/components/StockPrediction_tenday.jsx:40-51 | A flat series is extrapolated to its own level. |
| Forecast.Returns | src/components/StockPrediction_tenday.jsx:55-58 | One return per consecutive pair of prices; each is above −1 for positive prices. |
| Forecast.ComputeReturns | src/components/StockPrediction_tenday.jsx:55-58 | The loop pushes exactly the specified returns. |
| Forecast.Variance | src/components/StockPrediction_tenday.jsx:59-60 | The mean squared deviation from the mean is non-negative. |
| Forecast.VarianceConstant | src/components/StockPrediction_tenday.jsx:59-60 | A constant series has zero variance. |
| Forecast.Volatility | src/components/StockPrediction_tenday.jsx:59-61 | A non-negative number whose square is the variance of the returns. |
| Forecast.FlatVolatility | src/components/StockPrediction_tenday.jsx:55-61 | A flat window has zero volatility. |
| Forecast.Ensemble | src/components/StockPrediction_tenday.jsx:65-73 | The weights 0.15, 0.15, 0.25, 0.25 and 0.20 sum to 1, so the ensemble lies between the lowest and highest of the five estimates. |
| Forecast.Confidence | src/components/StockPrediction_tenday.jsx:76-78 | Confidence lies in (30, 100]. It is exactly 100 iff the volatility is 0 and there are at least 100 closes. |
| Forecast.PercentChange | src/components/StockPrediction_tenday.jsx:90 | Its sign is the direction of the move: positive, zero or negative exactly as the price is above, equal to or below the reference. |
| Forecast.HalfBand | src/components/StockPrediction_tenday.jsx:81 | 1.96·volatility·lastPrice is non-negative, and zero iff the volatility is zero. |
| Forecast.Assemble | src/components/StockPrediction_tenday.jsx:19-105 | The forecast record: current price is the last close. The components are the five estimates of the window and the prediction is their weighted ensemble. Confidence is the volatility-based figure. The change is the percentage move from the last close to the prediction (line 90), and the volatility is the figure times 100 (line 91). The indicators are the window's SMA5, SMA10 and SMA20, the EMA12, the momentum (last minus first close of the window) and the trend strength, which is the momentum as a percentage of the window's first close (lines 97-104). The prediction lies between the lowest and highest estimate. The band is symmetric around the prediction with half-width HalfBand. Confidence lies in (30, 100]. The sign of the change follows the direction of the move. |
| Forecast.MomentumExample | src/components/StockPrediction_tenday.jsx:35-36 | For closes 100, 102, 99 the momentum is -1. |
| Forecast.MomentumOfLongSeries | src/components/StockPrediction_tenday.jsx:16-36 | With more than 30 closes, momentum is the last close minus the close 30 places from the end. |
| Forecast.NextDayPrediction | src/components/StockPrediction_tenday.jsx:14-106 | A forecast exists iff there are at least two closes. Its current price is then the last close, its change is the percentage move from it to the prediction, and its momentum is the last minus the first close of the last-30 window. |
| Forecast.GenerateNextDayPrediction | src/components/StockPrediction_tenday.jsx:14-106 | Equals the specified forecast. A forecast exists iff there are at least two closes, and then lowerBound ≤ predictedPrice ≤ upperBound, confidence lies in (30, 100], and the prediction lies within the range of the estimates. |
| Forecast.FlatMomentum | src/components/StockPrediction_tenday.jsx:36-37 | A flat window has a momentum estimate equal to its level. |
| Forecast.FlatComponents | src/components/StockPrediction_tenday.jsx:19-70 | With at least ten closes flat at v, all five estimates equal v. |
| Forecast.FlatSeriesForecast | src/components/StockPrediction_tenday.jsx:14-106 | With at least ten closes flat at v, the forecast is v. The change is 0, the band collapses to v, and the recommendation is HOLD. |
| Forecast.ShortAveragesBelow | src/components/StockPrediction_tenday.jsx:19-20 | With 2 to 9 flat closes, SMA5 ≤ v and SMA10 < v. |
| Forecast.ShortSma5AtMost | src/components/StockPrediction_tenday.jsx:19 | With fewer than 10 closes flat at v > 0, SMA5 ≤ v. |
| Forecast.ShortSma10Below | src/components/StockPrediction_tenday.jsx:20 | With fewer than 10 closes flat at v > 0, SMA10 < v. |
| Forecast.EnsembleBelow | src/components/StockPrediction_tenday.jsx:65-73 | An ensemble whose SMA10 is below v and whose other estimates are at most v lies below v. |
| Forecast.ShortFlatSeriesForecastsDrop | src/components/StockPrediction_tenday.jsx:19-90 | With 2 to 9 closes flat at v, the fixed divisors pull the forecast below v, and the change is negative. |
| Paths.PriceAfterPositive | src/components/StockPredictionPlatform.jsx:25 | Positive factors keep a positive price positive. |
| Paths.Walk | src/components/StockPredictionPlatform.jsx:23-25 | One price per factor. |
| Paths.WalkStep | src/components/StockPredictionPlatform.jsx:25 | Each price is the previous one (the start, for the first) times that step's factor. |
| Paths.WalkPositive | src/components/StockPredictionPlatform.jsx:23-25 | Every price of a walk with positive factors from a positive start is positive. |
| Paths.WalkStepWithin | src/components/StockPredictionPlatform.jsx:25 | A step by a factor in [lo, hi) moves the price into [lo·previous, hi·previous). |
| Paths.WalkSteps | src/components/StockPredictionPlatform.jsx:23-25 | Consecutive prices differ by a factor in [lo, hi) when every factor lies there. |
| Paths.LstmFactor | src/components/StockPredictionPlatform.jsx:20-25 | For a draw in [0, 1), 1 − 0.003 + (r − 0.5)·0.02 lies in [0.987, 1.007). |
| Paths.LstmFactors | src/components/StockPredictionPlatform.jsx:23-25 | One factor per draw; all of them lie in [0.987, 1.007) and are positive. |
| Paths.DayConfidence | src/components/StockPredictionPlatform.jsx:31 | max(60, 95 − 1.5·day) lies in [60, 95] and is at most 93.5 from day 1. It is 60 iff day ≥ 24. |
| Paths.ConfidenceNonIncreasing | src/components/StockPredictionPlatform.jsx:31 | A later day never has a higher confidence. |
| Paths.DayEntry | src/components/StockPredictionPlatform.jsx:27-34 | The entry for a day keeps the day, the price and the day's confidence. The bounds lie 3% of the price above and below it, so the band is symmetric. For a positive price, 0 < lowerBound < price < upperBound. |
| Paths.LstmForecasts | src/components/StockPredictionPlatform.jsx:15-38 | One entry per draw, with days numbered 1, 2, … in order. |
| Paths.GenerateLstmPredictions | src/components/StockPredictionPlatform.jsx:15-38 | The loop returns the specified forecast from the last close: exactly `days` entries, entry i for day i + 1. |
| Paths.LstmPrices | src/components/StockPredictionPlatform.jsx:23-34 | The forecast prices are the walk's prices. |
| Paths.LstmForecastsPositive | src/components/StockPredictionPlatform.jsx:24-33 | From a positive last close, 0 < lowerBound < predictedPrice < upperBound on every day. |
| Paths.LstmForecastSteps | src/components/StockPredictionPlatform.jsx:24-25 | Each day's price is 0.987 to 1.007 times the previous day's. |
| Paths.LstmFirstStep | src/components/StockPredictionPlatform.jsx:18-25 | The first day's price is 0.987 to 1.007 times the last close, from which the walk starts. |
| Paths.LstmConfidenceDecays | src/components/StockPredictionPlatform.jsx:31 | The confidence never rises from one day to a later one and stays within [60, 93.5]. |
| Paths.MonteCarloFactor | src/components/StockPredictionPlatform.jsx:48-49 | For a draw in [0, 1), 1 + (r − 0.48)·0.025 lies in [0.988, 1.013). |
| Paths.MonteCarloFactors | src/components/StockPredictionPlatform.jsx:47-49 | One factor per draw; each is positive and lies in [0.988, 1.013). |
| Paths.SimulatedPath | src/components/StockPredictionPlatform.jsx:44-56 | One point per draw; point d has day d + 1 and carries the path's index. |
| Paths.Simulations | src/components/StockPredictionPlatform.jsx:40-60 | One path per row of draws; path s is the simulated path number s. |
| Paths.GenerateMonteCarloSimulations | src/components/StockPredictionPlatform.jsx:40-60 | The nested loops return the specified simulations: `numSimulations` paths of `days` points each, with day d + 1 and simulation index s. |
| Paths.PathPrices | src/components/StockPredictionPlatform.jsx:45-54 | A path's prices are the walk's prices. |
| Paths.PathPositive | src/components/StockPredictionPlatform.jsx:47-54 | From a positive last price, every price of a path is positive. |
| Paths.PathSteps | src/components/StockPredictionPlatform.jsx:48-49 | Each step of a path moves the price by a factor in [0.988, 1.013). |
| Paths.PathFirstStep | src/components/StockPredictionPlatform.jsx:45-49 | The first price of a path is 0.988 to 1.013 times the last price, from which the path starts. |
| Paths.SimulationsPositive | src/components/StockPredictionPlatform.jsx:40-60 | From a positive last price, every simulated price is positive. |
| Analysis.Closes | src/components/StockPrediction_tenday.jsx:110 | The closes in order; positive for stored points. |
| Analysis.MeanPositive | src/components/StockPrediction_tenday.jsx:111 | Positive closes have a positive mean. |
| Analysis.PriceVolatility | src/components/StockPrediction_tenday.jsx:111-113 | The volatility is the standard deviation as a percentage of the mean: its product with the mean, squared, is 10000 times the variance. It is non-negative. |
| Analysis.FlatPriceVolatility | src/components/StockPrediction_tenday.jsx:112-113 | Flat closes have zero volatility. |
| Analysis.AnalyzeDay | src/components/StockPrediction_tenday.jsx:109-149 | Current price is the last close. Predicted price and change come from the forecast, and the recommendation is the four-way rule on them. The mean is the mean of the closes and lies between the minimum and maximum close. The volatility is `PriceVolatility` of the closes and is non-negative. |
| Analysis.FlatDataAnalysis | src/components/StockPrediction_tenday.jsx:109-149 | Ten or more rows closing at the same price give HOLD. The predicted price, the current price and the mean are all that price, and the volatility is 0. |
| Analysis.DayThresholds | src/components/StockPrediction_tenday.jsx:123-132 | With a positive close, the change exceeds 1.5% iff the prediction exceeds 1.015 times the close. It falls below −1.5% iff the prediction is under 0.985 times the close. Its magnitude is under 1% iff the prediction lies strictly between 0.99 and 1.01 times the close. |
| Analysis.DayAdvice | src/components/StockPrediction_tenday.jsx:123-135 | With two or more stored rows there is a forecast. The day's advice is BUY iff the prediction exceeds 1.015·close with confidence over 70. It is SELL iff the prediction is under 0.985·close with confidence over 70. It is HOLD iff the prediction lies strictly between 0.99·close and 1.01·close. |
| Analysis.ChangeThresholds | src/components/StockPredictionPlatform.jsx:70-74 | The change exceeds +3% iff the forecast exceeds 1.03 times the close. It falls below −3% iff the forecast is under 0.97 times the close. |
| Analysis.AnalyzeHorizon | src/components/StockPredictionPlatform.jsx:62-86 | The change runs from the (positive) last close to the last forecast day. It is positive iff the forecast is higher. The recommendation is the three-way rule on it. The mean is the mean of the closes and lies between the minimum and maximum close. The volatility is `PriceVolatility` of the closes and is non-negative. `predictionDays` is the number of predictions. |
| Analysis.HorizonAdvice | src/components/StockPredictionPlatform.jsx:68-74 | BUY iff the last forecast is above 1.03·close. WAIT iff it is below 0.97·close. HOLD iff it lies between the two. |
| Pages.InsertMembers | src/components/StockPrediction_tenday.jsx:255 | Inserting adds exactly the new point. |
| Pages.InsertPermutes | src/components/StockPrediction_tenday.jsx:255 | Inserting adds the point to the multiset of points. |
| Pages.InsertSorted | src/components/StockPrediction_tenday.jsx:255 | Inserting into a date-ordered sequence keeps it date-ordered. |
| Pages.SortByDate | src/components/StockPrediction_tenday.jsx:255 | The sort keeps the length. |
| Pages.SortByDateSorted | src/components/StockPrediction_tenday.jsx:255 | The result is ascending by date key. |
| Pages.SortByDatePermutes | src/components/StockPrediction_tenday.jsx:255 | The result is a permutation of the input. |
| Pages.SortKeepsStored | src/components/StockPrediction_tenday.jsx:255 | Every sorted point is a stored point. |
| Pages.LoadSorted | src/components/StockPrediction_tenday.jsx:203-257 | Ingests the text and fails with the same alert when ingestion fails. Otherwise returns the date-sorted points: at least one, all stored. |
| Pages.PlatformPage.constructor | src/components/StockPredictionPlatform.jsx:6-12 | No data, no forecast, no analysis, and a 10-day horizon. |
| Pages.PlatformPage.Recompute | src/components/StockPredictionPlatform.jsx:192-196 | Forecast and analysis are recomputed for the loaded data and current horizon; the invariant holds. |
| Pages.PlatformPage.OnFileLoaded | src/components/StockPredictionPlatform.jsx:136-208 | A failed upload raises its alert and changes nothing. Otherwise the data becomes the sorted points, and the forecast and analysis are recomputed for the current horizon. |
| Pages.PlatformPage.HandlePredictionDaysChange | src/components/StockPredictionPlatform.jsx:213-221 | Sets the horizon (1 to 30, the slider's range at lines 260-265). It recomputes only when data is loaded, and then the forecast has exactly `days` entries. |
| Pages.NextDayPage.constructor | src/components/StockPrediction_tenday.jsx:6-8 | No data, forecast or analysis. |
| Pages.NextDayPage.OnFileLoaded | src/components/StockPrediction_tenday.jsx:201-268 | A failed upload raises its alert and changes nothing. Otherwise the data becomes the sorted points, and the next-day forecast and its analysis are computed from them. |

## Left out

- `FileReader`, `alert`, `console.error` and the catch-all "Error parsing CSV" alert: the model has no exceptions, and each alert is returned as an `IngestError` value.
- The `loading`, `selectedTab` and `fileName` state, all JSX rendering, and the Monte Carlo chart's pivot of paths into per-day rows. These are presentation.
- `Date.now()` and `toLocaleDateString()`: the forecast records carry no calendar date.
- `toFixed` rounding of every displayed figure, including the platform's rounded `predictedPrice`, which is what its `calculateAnalysis` reads. Numbers are exact reals here.
- The recommendation reason sentences and the fixed "1 Day" horizon label.
- Csv.ParseFloat: does not model exponents (`1e3`), `Infinity`, or a negative zero distinct from zero.
- Text.Lower: does not model case mapping outside ASCII.
- Forecast.Volatility: `Math.sqrt` and `Math.pow` are not computed. The square root is a parameter assumed to return the non-negative root.
- Forecast.NextDayPrediction: with fewer than two closes the code produces NaN figures. The model yields no forecast, so a single loaded row gives no next-day forecast or analysis.
- Pages.SortByDate: `new Date(...)` parsing is a parameter `dateKey`. Stability is not proved, and NaN comparisons from invalid dates are not modelled.
- Paths.GenerateMonteCarloSimulations: `Math.random()` is a given table of draws. Its default of 100 paths is not modelled, because the count is a required parameter (the chart passes 50). No statistical property is claimed.
- Paths.GenerateLstmPredictions: `Math.random()` is a given sequence of draws, and no statistical property is claimed.
- `AboutUs.jsx`, `Footer.jsx`, `Navbar.jsx` and `App.jsx`: static content and routing.
- The histogram bars of the next-day page, which use `Math.exp`: they are presentation.
