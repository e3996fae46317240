# TRM Colombia — a Dafny model of the rate dashboard's core

TRM Colombia is a single-page web app that shows the *Tasa Representativa
del Mercado* (TRM): the official peso-per-dollar exchange rate published
each business day. The page has the following parts:

- a hero card with today's rate and its change from the day before;
- a converter and a spelled-out amount in Spanish words;
- a line chart of the recent series, with a period selector;
- a table of the last fourteen days with trend arrows, and two fixed
  conversion tables;
- a calendar lookup of the rate on any past day.

This project models the logic behind those parts and proves what each
part promises:

| module | file | models |
|---|---|---|
| `Rates` | `rates.dfy` | a published rate record (`TRMData`), the up/down/neutral trend, and JavaScript division with its infinities and NaN |
| `Metrics` | `metrics.dfy` | `calculateChange`, `convertUSDtoCOP` and `convertCOPtoUSD` |
| `SpanishWords` | `words.dfy` | `numberToWords` and `convertHundreds` as imperative methods, each proved equal to a word grammar defined case by case over groups of digits; the grammar's shape and its currency suffix are proved as lemmas |
| `Gateway` | `gateway.dfy` | the four dataset queries of `useTRM`: a reply becomes a resolved value or a thrown error with the query's message. Also how `Promise.all` joins the two queries of a refresh |
| `RateStore` | `store.dfy` | the `TRMState` of the hook as a class, and the two `setState` steps of `refresh` |
| `HistoricalTable` | `historical_table.dfy` | the fourteen trend rows and the dollar-to-peso and peso-to-dollar tables |
| `RateChart` | `chart.dfy` | the period buttons, the chronological chart window, and the padded value axis |
| `DateSelector` | `date_selector.dfy` | the calendar's enabled days, the lookup state as a class with its transitions, and the comparison of the day's rate with today's |

Numbers are exact reals. JavaScript's `Math.floor`, `Math.round`,
`Math.ceil` and `%` are written out. So are division by zero and the
`|| 30` fallback. The network reply of each query is a parameter of the
operation that uses it. The order in which two concurrent queries settle
is also a parameter.

## Model

| member | source | states |
|---|---|---|
| Rates.JsDivide | client/src/hooks/useTRM.ts:136 | JavaScript `/`: a non-zero divisor gives the finite quotient, which times the divisor gives back the dividend; a zero divisor gives +Infinity, -Infinity or NaN exactly by the sign of the dividend |
| Rates.DirectionOf | client/src/hooks/useTRM.ts:146 | the trend is up exactly when the difference is positive, down exactly when it is negative, neutral exactly when it is zero |
| Metrics.CalculateChange | client/src/hooks/useTRM.ts:139-148 | previous + value is current; for a non-zero previous rate, the percentage applied to previous gives back current; for a zero previous rate the percentage is 0; the direction follows the sign of the difference |
| Metrics.ConvertUSDtoCOP | client/src/hooks/useTRM.ts:131-133 | for a non-zero rate, dividing the pesos by the rate gives back the dollars; for a positive rate the pesos are positive exactly when the dollars are; a zero rate gives 0 pesos |
| Metrics.ConvertCOPtoUSD | client/src/hooks/useTRM.ts:135-137 | for a non-zero rate the result is finite and times the rate gives back the pesos; for a zero rate it is not a finite number (an infinity or NaN) |
| Metrics.UsdRoundTrip | client/src/hooks/useTRM.ts:131-137 | converting dollars to pesos and back gives the same dollars exactly when the rate is non-zero; with a zero rate it gives NaN |
| Metrics.CopRoundTrip | client/src/hooks/useTRM.ts:131-137 | converting pesos to dollars and back gives the same pesos for every non-zero rate |
| Metrics.ChangeAntisymmetric | client/src/hooks/useTRM.ts:139-148 | swapping the two rates negates the difference and turns up into down and down into up |
| Metrics.PercentageFollowsDirection | client/src/hooks/useTRM.ts:144-146 | for a positive previous rate, the percentage has the sign of the direction |
| SpanishWords.ToLower | client/src/hooks/useTRM.ts:204 | lower-casing keeps the length, maps each upper-case ASCII letter to its lower-case letter and leaves every other character alone |
| SpanishWords.TruncRem | client/src/hooks/useTRM.ts:166 | JavaScript's `%`: the dividend is the divisor times the quotient truncated toward zero, plus the result; the result has the sign of the dividend and is smaller than the divisor in magnitude |
| SpanishWords.TrimSegment | client/src/hooks/useTRM.ts:214 | `trim` returns the part of the text between its leading and its trailing whitespace; everything dropped is whitespace, and the result neither starts nor ends with whitespace |
| SpanishWords.IntPart | client/src/hooks/useTRM.ts:159 | `Math.floor`: the integer part is the greatest integer not above the amount |
| SpanishWords.Cents | client/src/hooks/useTRM.ts:160 | `Math.round` of the scaled fraction: the cents lie within half a unit of a hundred times the fraction, halves rounding up |
| SpanishWords.ConvertHundreds | client/src/hooks/useTRM.ts:189-215 | the imperative builder of a number below 1000 (hundreds word, then tens and units, then trim) yields exactly the grammar's words for that number |
| SpanishWords.NumberToWords | client/src/hooks/useTRM.ts:150-160 | the amount is spelled as the grammar says: "Cero" for 0, "Cien" for 100, otherwise the integer part, " Pesos", and the rounded cents |
| SpanishWords.SpellPesos | client/src/hooks/useTRM.ts:162-186 | the thousands block, the remainder, the trim, " Pesos" and the cents clause build exactly the grammar's words for that integer part and cents |
| SpanishWords.TrimClean | client/src/hooks/useTRM.ts:214 | trimming a phrase with no whitespace at either end leaves it unchanged |
| SpanishWords.TablesAreWords | client/src/hooks/useTRM.ts:151-154 | the four word tables have ten entries each; every entry except the empty placeholders for 0 (and 1 among the tens) is one space-free word |
| SpanishWords.TwoDigitShape | client/src/hooks/useTRM.ts:198-212 | the words for a number below 100 are empty exactly for 0, and never start or end with a space |
| SpanishWords.HundredsShape | client/src/hooks/useTRM.ts:189-214 | the words for a number below 1000 are empty exactly for 0, and never start or end with a space |
| SpanishWords.TwoDigitGrammar | client/src/hooks/useTRM.ts:198-211 | units and teens come from their tables; round tens are bare; 21 to 29 are one word "Veinti" plus the lower-cased unit (so 21 is "Veintiun"); other tens take the form "tens y unit" |
| SpanishWords.HundredsLeadingWord | client/src/hooks/useTRM.ts:192-196 | 100 alone is "Cien"; above 100 the words start with the hundreds word, which is "Ciento" from 101 to 199 |
| SpanishWords.ThousandsShape | client/src/hooks/useTRM.ts:164-174 | the thousands block is empty exactly when there are no thousands, and never starts or ends with a space |
| SpanishWords.IntegerWordsShape | client/src/hooks/useTRM.ts:164-180 | the integer part's words are empty exactly when the integer part is not positive, and never start or end with a space |
| SpanishWords.ThousandsGrammar | client/src/hooks/useTRM.ts:164-178 | from 1000 to 1999 the words start with "Mil"; from 2000 up they are the words of the thousands, then " Mil", then the remainder if it is non-zero |
| SpanishWords.CentsRange | client/src/hooks/useTRM.ts:159-160 | the rounded cents lie between 0 and 100 inclusive |
| SpanishWords.HundredCents | client/src/hooks/useTRM.ts:160 | a fraction rounding up to 100 cents is kept as 100 cents, so 0.999 is spelled with "Con Cien Centavos" |
| SpanishWords.TwoDecimalAmount | client/src/hooks/useTRM.ts:159-160 | for an amount k + c/100 with 0 <= c < 100, the integer part is k and the cents are c |
| SpanishWords.SpecialAmounts | client/src/hooks/useTRM.ts:156-157 | 0 is "Cero" and 100 is "Cien" with no currency word |
| SpanishWords.CurrencySuffix | client/src/hooks/useTRM.ts:180-184 | the words start with the integer part's words; they end in " Pesos" exactly when there are no cents and in " Centavos" exactly when there are |
| SpanishWords.TwoDecimalSpelled | client/src/hooks/useTRM.ts:156-184 | any amount k + c/100 other than 0 and 100 is spelled from k and c alone |
| SpanishWords.NoIntegerPart | client/src/hooks/useTRM.ts:176-184 | an amount below 1 other than 0 is spelled starting " Pesos": nothing precedes the currency word |
| SpanishWords.ExampleRate | client/src/hooks/useTRM.ts:150-187 | 4100 is spelled "Cuatro Mil Cien Pesos" |
| SpanishWords.ExampleFraction | client/src/hooks/useTRM.ts:150-187 | 0.5 is spelled " Pesos Con Cincuenta Centavos" |
| Gateway.FirstOrNull | client/src/hooks/useTRM.ts:34 | the first row of a reply, or null exactly when the reply is empty |
| Gateway.ListQuery | client/src/hooks/useTRM.ts:40-51 | a list query resolves with the rows of an ok reply; it throws an error with the query's own message for a non-ok reply, and passes on a network failure |
| Gateway.FirstQuery | client/src/hooks/useTRM.ts:27-38 | a single-record query resolves with the first row or null for an ok reply, and otherwise fails as a list query does |
| Gateway.FetchCurrent | client/src/hooks/useTRM.ts:27-38 | the latest-record query: first row or null, or "Error al obtener la TRM actual" |
| Gateway.FetchHistorical | client/src/hooks/useTRM.ts:40-51 | the history query: the rows, or "Error al obtener el histórico" |
| Gateway.FetchByDate | client/src/hooks/useTRM.ts:53-64 | the by-date query: first row, null for a day with no rows, or "Error al obtener la TRM para la fecha" |
| Gateway.FetchRange | client/src/hooks/useTRM.ts:66-77 | the range query: the rows, or "Error al obtener el rango de TRM" |
| Gateway.JoinAll | client/src/hooks/useTRM.ts:82-85 | the joined query resolves exactly when both resolve, with both values; otherwise it rejects with the reason of a query that rejected, the first to settle when both do |
| Gateway.RefreshFailureMessages | client/src/hooks/useTRM.ts:27-51 | a refresh whose two replies are both non-ok rejects with the message of whichever query settles first |
| RateStore.ErrorMessage | client/src/hooks/useTRM.ts:96 | an `Error` contributes its own message; anything else thrown becomes "Error desconocido" |
| RateStore.TrmState.constructor | client/src/hooks/useTRM.ts:20-25 | the hook starts with no record, an empty history, loading and no error |
| RateStore.TrmState.BeginRefresh | client/src/hooks/useTRM.ts:80 | a refresh starts loading and clears the error; the data on display is kept |
| RateStore.TrmState.SettleRefresh | client/src/hooks/useTRM.ts:86-97 | loading stops; a resolution replaces record, history and error; a rejection keeps record and history and stores the message |
| RateStore.TrmState.Refresh | client/src/hooks/useTRM.ts:79-99 | after a refresh the state is the outcome of joining the two queries, and an error is never shown while loading |
| RateStore.RefreshStoresReplies | client/src/hooks/useTRM.ts:79-91 | two ok replies leave the first latest row (or null) and the history rows in the state, with no error |
| RateStore.StaleDataKept | client/src/hooks/useTRM.ts:92-97 | a failed refresh after a successful one keeps the earlier data on display beside the error |
| RateStore.OverlappingRefreshes | client/src/hooks/useTRM.ts:79-99 | two refreshes that overlap are not ordered: when the older settles last its data is what stays |
| HistoricalTable.RowAt | client/src/components/HistoricalTable.tsx:40-53 | the row carries its record; with a successor, the successor's rate plus the change is the record's rate, and the percentage applied to a non-zero successor rate gives it back too; the series' last record gets zero change, zero percent and neutral; the direction follows the sign of the change |
| HistoricalTable.TrendRows | client/src/components/HistoricalTable.tsx:39-55 | at most fourteen rows, one per leading record. Each row's change is measured against the next record of the full series, so the fourteenth row has a predecessor when the series is longer. The very last record is neutral with zero change. Each direction follows the sign of its change |
| HistoricalTable.RowsAgreeWithCalculateChange | client/src/components/HistoricalTable.tsx:41-52 | every trend row except the series' last equals `calculateChange` of the record and its successor |
| HistoricalTable.LastShownRow | client/src/components/HistoricalTable.tsx:40-44 | with fourteen or fewer records the last row shown is neutral; with more, it compares the fourteenth record with the fifteenth |
| HistoricalTable.AmountTables | client/src/components/HistoricalTable.tsx:28-32 | both fixed amount lists have eleven positive entries in strictly increasing order |
| HistoricalTable.UsdToCopTable | client/src/components/HistoricalTable.tsx:183-192 | one row per fixed dollar amount, each converted at the current rate |
| HistoricalTable.CopToUsdTable | client/src/components/HistoricalTable.tsx:216-226 | one row per fixed peso amount, each converted at the current rate; before a rate is loaded (rate 0) every row is +Infinity |
| HistoricalTable.TablesIncrease | client/src/components/HistoricalTable.tsx:183-226 | for a positive rate both tables' converted columns strictly increase down the table |
| RateChart.Find | client/src/components/TRMChart.tsx:45 | the result is the first period whose value matches, and there is none exactly when no value matches |
| RateChart.PeriodDays | client/src/components/TRMChart.tsx:45-46 | the window always has a positive number of days |
| RateChart.PeriodTable | client/src/components/TRMChart.tsx:33-46 | the five buttons give 15, 30, 90, 180 and 365 days, and the initial "1m" gives 30 |
| RateChart.UnknownPeriod | client/src/components/TRMChart.tsx:45-46 | a value that is not among the buttons falls back to 30 days |
| RateChart.PeriodEntry | client/src/components/TRMChart.tsx:33-39 | each button's value finds that button's own entry |
| RateChart.Points | client/src/components/TRMChart.tsx:52-57 | one chart point per record, carrying its date and rate, in order |
| RateChart.Reverse | client/src/components/TRMChart.tsx:58 | reversing keeps the length |
| RateChart.ReverseAt | client/src/components/TRMChart.tsx:58 | the i-th element of the reversal is the i-th element from the end |
| RateChart.ChartData | client/src/components/TRMChart.tsx:44-59 | the chart holds as many points as the smaller of the period's days and the series length |
| RateChart.ChartWindow | client/src/components/TRMChart.tsx:44-59 | the chart shows the newest records of the period, oldest first: point i is record k-1-i of the newest-first series |
| RateChart.SeqMin | client/src/components/TRMChart.tsx:64 | the minimum is one of the values and no value is below it |
| RateChart.SeqMax | client/src/components/TRMChart.tsx:65 | the maximum is one of the values and no value is above it |
| RateChart.Ceil | client/src/components/TRMChart.tsx:69 | the ceiling is the least integer not below its argument |
| RateChart.Domain | client/src/components/TRMChart.tsx:61-71 | an empty chart gets the axis 0 to 0; otherwise the bounds are the minimum and maximum widened by a tenth of their spread, rounded down and up to integers; every plotted value lies within them, and the lower bound is not above the upper |
| RateChart.PeriodSelection.constructor | client/src/components/TRMChart.tsx:42 | the chart starts on the "1m" period |
| RateChart.PeriodSelection.Select | client/src/components/TRMChart.tsx:114 | pressing a button selects exactly that button's period |
| RateChart.PeriodSelection.Days | client/src/components/TRMChart.tsx:42-46 | a period chosen by the buttons gives the days of its own table entry, so the `|| 30` fallback is never taken; the days are one of the five window lengths |
| DateSelector.Disabled | client/src/components/DateSelector.tsx:127-129 | a day can be picked exactly when it lies from 1991-01-01 to today, both included |
| DateSelector.DateLookup.constructor | client/src/components/DateSelector.tsx:33-37 | no date, closed picker, not loading, no result, no error |
| DateSelector.DateLookup.BeginSelect | client/src/components/DateSelector.tsx:39-50 | the date is recorded and the picker closed; clearing the date clears the result and starts nothing; a date starts loading and clears the error |
| DateSelector.DateLookup.SettleSelect | client/src/components/DateSelector.tsx:51-66 | a found record becomes the result; a day without a rate shows the no-data message; a failure shows the retry message; loading stops in every case |
| DateSelector.DateLookup.SelectDate | client/src/components/DateSelector.tsx:39-67 | a completed lookup sets the fields from the by-date query: a found record becomes the result with no error; null leaves no result and the no-data message; a failure leaves no result and the retry message. So it shows exactly what the query settles to |
| DateSelector.DateLookup.HandleClear | client/src/components/DateSelector.tsx:69-73 | clearing forgets the date, the result and the error, and leaves loading alone |
| DateSelector.Lookup | client/src/components/DateSelector.tsx:55-63 | a found record is shown alone; a day without a rate shows the no-data message and a failed query the retry message; it is never blank and never a record beside a message |
| DateSelector.Comparison | client/src/components/DateSelector.tsx:75-78 | the comparison is `calculateChange` of the day's rate against today's, with 0 standing for a missing result and a zero percentage before today's rate is known |
| DateSelector.OverlappingLookups | client/src/components/DateSelector.tsx:39-67 | when an earlier lookup settles after a later one has started, and before it settles, a found record of the later day can end up shown beside the no-data message of the earlier one |

## Left out

- Network access and query-string building. Each query's reply (ok flag and rows, or a network failure) is an input.
- The `limit` argument of the history query. The rows returned are an input, so 30 or 60 rows are not distinguished.
- `parseFloat` of the dataset's `valor` strings. A record carries its rate as an already parsed number.
- IEEE-754 rounding, signed zero and NaN arithmetic. Numbers are exact reals; only division by zero is modelled with JavaScript's infinities and NaN.
- The display formatting helpers. This covers `formatTRM`, `formatCurrency`, `formatDate`, `formatShortDate`, `toLocaleString` and date-fns `format`. It also covers the chart point's `date` label, which is built with one of them. All are locale-dependent text rendering.
- SpanishWords.NumberToWords: requires an amount below 1,000,000. The code has no millions group. From 1,000,000 on, `convertHundreds` gets a thousands count of 1000 or more and reads past the end of its hundreds table, so the text contains "undefined" (1,000,000 gives "undefined Mil Pesos"). Text of that kind is not modelled.
- SpanishWords.Trim and SpanishWords.ToLower: only ASCII whitespace (space, tab, line feed, carriage return) and ASCII letters are handled. JavaScript's `trim` and `toLowerCase` cover all of Unicode, but the words they see here are ASCII apart from "é".
- DateSelector.Disabled: days are compared as calendar dates. The calendar compares local-midnight instants with `new Date('1991-01-01')`, which is UTC midnight. East of UTC, local midnight of 1991-01-01 falls before that instant, so that day is disabled as well. That shift is not modelled. West of UTC, as in Colombia (UTC-5), the calendar-day comparison is exact.
- React scheduling. This covers `useEffect`, `useMemo`, re-rendering and the moment `refresh` first runs. Concurrent refreshes and lookups are modelled only as explicit interleavings of the two steps of each operation (`OverlappingRefreshes`, `OverlappingLookups`).
- The components with no logic beyond layout: TRMDisplay's animation, the Calculator's input handling, Header, Footer and the Home page wiring. From Home only one fact is used: the current rate it passes to the history table is 0 before the first load, which `CopToUsdTable` covers. No page renders the date lookup, so no caller supplies the current rate that `Comparison` takes; it is modelled for every rate, 0 included.
- Records are not validated in the code: a non-positive or missing rate is not rejected or filtered. The model follows the code and adds no such guard. Negative amounts given to `numberToWords` are likewise spelled by the same steps the code takes rather than rejected.
- `numberToWords(100)` returns "Cien" with no currency word, as the code does. Every whole amount other than 0 ("Cero") and 100 ends in " Pesos".

