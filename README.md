# Earnings backtest engine, modelled in Dafny

This project models the engine behind an earnings-reaction backtester. The
engine takes earnings announcements from a financial data provider (FMP) and
turns each one into a price-reaction record. A record holds two daily closes
around the announcement and the percentage change between them. How the two
bars are chosen depends on whether the company reported before the market
opened (BMO) or after it closed (AMC).

The model has these parts:

- `Window`: the window resolver (`_determine_prices` and
  `_determine_prices_fallback`). It takes a sparse bar series and a timing
  verdict and picks the before and after bars, searching up to 5 days either
  side.
- `Backtest`: the reaction pipeline.
  - `RunBacktest` follows `run_backtest`: the large-cap filter (skipped when
    the large-cap set is empty), deduplication by (symbol, date) where the
    first occurrence wins, a batch profile lookup, then per event the
    market-cap check, the window, the significance threshold, and finally a
    stable sort by |change|.
  - `SearchStockEarnings` follows `search_stock_earnings`.
  - Also here: the single-stock backtest, the 30-day clamp of the Finnhub
    query range, and the timing waterfall (bulk dictionary, then a single
    Finnhub lookup, then the transcript).
- `Finnhub`: the `FinnhubService` class.
  - Its per-instance timing cache is a `map` field, written by
    `GetEarningsTime` and `BatchGetEarningsTime`.
  - `MapHourToTime` maps the calendar's hour column to BMO/AMC.
- `Fmp`: the pure logic of the FMP provider.
  - The foreign-ticker predicate and the calendar row filter.
  - The memoised large-cap set (a class with a cache map) and the batch
    profile lookup.
  - The nearest-bar selectors and the earnings-history filter, label and
    sort.
- `Transcript`: the transcript heuristic.
  - Candidate fiscal quarters are chosen by month, with the table the code
    uses. A corrected table for March is kept beside it (see Findings).
  - A greeting in the opening 2000 lowercased characters takes precedence.
  - Otherwise the clock-time hour rules apply. The two regular expressions
    are written as an explicit leftmost scanner.
- Supporting modules:
  - `Sorting`: Python's stable `sort`/`sorted`, written as an insertion sort
    with permutation, order and stability lemmas.
  - `Text`: ASCII lower-casing, substring search and decimal rendering.
  - `Dates`: day numbers to civil dates.
  - `Schemas`: the record types.
  - `Wrappers`: `Option`.

Data representation:

- Dates are integer day numbers since 1970-01-01.
- Closes, market caps and the threshold are reals.
- Keys of the form `"SYMBOL_YYYY-MM-DD"` are pairs `(symbol, day)`.
- Providers are inputs: the event list, the large-cap set, a profile
  function, per-event bar lists, a timing oracle, and `today`.
- An uncaught `ZeroDivisionError` in the change computation (a close of 0)
  is the outcome `DivisionByZero`, which aborts the whole run as the
  exception does.

Where the docstring and the code disagree, the model follows the code. The
docstring of `_determine_prices` describes AMC as "close on the day against
the next close". The code (backend/app/services/backtest_service.py:179-181)
also demands a bar in the 5 days before the event, for AMC as well as for
BMO. `Window.NoPriorBarNoWindow` states this, and `Window.AmcWindow` takes
that requirement from the code.

## Model

| member | source | states |
|---|---|---|
| Window.PriceMap | backend/app/services/backtest_service.py:143-146 | the dictionary holds every bar's date, each entry under its own date and a member of the input |
| Window.IndexBars | backend/app/services/backtest_service.py:140-146 | the date-sorted bars, indexed by date: every bar's date is present and every entry is an input bar |
| Window.ScanBefore | backend/app/services/backtest_service.py:158-162 | the bar at the smallest offset among d−i..d−5, with no bar at nearer offsets; None exactly when none of those days has a bar |
| Window.ScanAfter | backend/app/services/backtest_service.py:165-169 | the bar at the smallest offset among d+i..d+5, with no bar at nearer offsets; None exactly when none of those days has a bar |
| Window.Resolve | backend/app/services/backtest_service.py:172-196 | a complete window has before strictly earlier than after; both lie in [d−5, d+5]; no timing gives no window; a window carries the incoming timing |
| Window.DeterminePrices | backend/app/services/backtest_service.py:128-196 | the same guarantees over the raw bar list: before < after, both bars in [d−5, d+5] and taken from the input, no timing means (None, None, None) |
| Window.DeterminePricesFallback | backend/app/services/backtest_service.py:309-352 | timing is always None; before and after are present together; before in [d−5, d], after in (d, d+5], both from the input |
| Window.ResolveFallback | backend/app/services/backtest_service.py:328-352 | the same over the indexed bars |
| Window.IndexBarsIndexes | backend/app/services/backtest_service.py:140-146 | the date index of a bar list indexes exactly that list |
| Window.NearestBars | backend/app/services/backtest_service.py:153-169 | the prior bar exists iff some bar lies in [d−5, d) and is then the latest such; the next bar exists iff some bar lies in (d, d+5] and is then the earliest; the day-of bar exists iff a bar is dated d |
| Window.ResolveAmc | backend/app/services/backtest_service.py:192-194 | AMC with day-of, prior and next bars gives (AMC, bar d, next bar) |
| Window.BmoWindow | backend/app/services/backtest_service.py:188-190 | BMO with a bar on d and one in the 5 days before gives (BMO, the nearest prior bar, bar d) |
| Window.AmcWindow | backend/app/services/backtest_service.py:179-194 | AMC with bars on d, before and after gives (AMC, bar d, the nearest later bar) |
| Window.AmcWithoutNextBar | backend/app/services/backtest_service.py:191-196 | AMC with no later bar within 5 days gives nothing |
| Window.NoPriorBarNoWindow | backend/app/services/backtest_service.py:179-181 | a trading event day with no bar in the 5 days before gives nothing, whatever the timing |
| Window.NonTradingDayWindow | backend/app/services/backtest_service.py:172-176 | no bar on d but a later one: the incoming label verbatim, with the nearest prior bar (absent iff there is none) and the nearest later bar |
| Window.FallbackChoice | backend/app/services/backtest_service.py:328-352 | the fallback pair exists iff some bar lies in [d−5, d] and some in (d, d+5]; before is the latest of the former, after the earliest of the latter |
| Backtest.LargeCapFilter | backend/app/services/backtest_service.py:41-45 | keeps exactly the events whose symbol is in the large-cap set, in their order, each as often as in the input |
| Backtest.PreFilter | backend/app/services/backtest_service.py:41-45 | an empty set keeps every event; otherwise exactly the large-cap events, in order and with their multiplicity |
| Backtest.KeySet | backend/app/services/backtest_service.py:48-55 | definition: the set of (symbol, date) keys of the events; `Dedup`'s contract is stated with it |
| Backtest.Dedup | backend/app/services/backtest_service.py:48-55 | no two kept events share a key, the same keys are covered, and order is preserved |
| Backtest.DedupKeepsFirst | backend/app/services/backtest_service.py:48-55 | the first event with a key is kept |
| Backtest.DedupOnlyFirst | backend/app/services/backtest_service.py:48-55 | every kept event is the first occurrence of its key |
| Backtest.DedupEvents | backend/app/services/backtest_service.py:48-55 | the seen-set loop computes `Dedup` |
| Backtest.Steps | backend/app/services/backtest_service.py:70-121 | definition: the per-event step list; `Gather`'s lemmas and the pipeline specification are stated over it |
| Backtest.EventStep | backend/app/services/backtest_service.py:70-121 | definition: one iteration of the per-event loop (skip, abort on a zero close, or a record); `EmitFacts`, `EmitKey` and `SearchFallsBack` state what it does |
| Backtest.WindowForFacts | backend/app/services/backtest_service.py:94-99 | the window used for an event is ordered, within ±5 days, from that event's bars, and carries the oracle's timing; screening windows always have a timing |
| Backtest.RecordReaction | backend/app/services/backtest_service.py:101-121 | a record built from such a window is a faithful price reaction of its event |
| Backtest.RecordSignificant | backend/app/services/backtest_service.py:74-106 | a record from a large-enough company whose change passes the threshold is significant |
| Backtest.EmitFacts | backend/app/services/backtest_service.py:70-121 | every record an event emits is a reaction of that event and, when screening, significant |
| Backtest.EmitKey | backend/app/services/backtest_service.py:108-121 | an emitted record carries its event's (symbol, date) key |
| Backtest.GatherSound | backend/app/services/backtest_service.py:70-121 | every gathered record was emitted by some step |
| Backtest.GatherComplete | backend/app/services/backtest_service.py:70-121 | every emitted record is gathered when the run completes |
| Backtest.GatherCrash | backend/app/services/backtest_service.py:102 | the run aborts iff some step divides by a zero close |
| Backtest.GatherDistinct | backend/app/services/backtest_service.py:70-121 | distinct step keys give distinct record keys |
| Backtest.SetToSeq | backend/app/services/backtest_service.py:57 | the list of symbols holds exactly the set's members |
| Backtest.ScreenEvent | backend/app/services/backtest_service.py:70-121 | one loop iteration of `run_backtest`: the cap check, bars < 2, the window, the change and the threshold |
| Backtest.BacktestSpec | backend/app/services/backtest_service.py:15-126 | definition: the whole `run_backtest` pipeline on values; `RunBacktest`, `BacktestRecords`, `BacktestOrder`, `BacktestAborts` and `BacktestComplete` state its properties |
| Backtest.RunBacktest | backend/app/services/backtest_service.py:15-126 | the method computes the pipeline specification: filter, dedup, screen, stable sort |
| Backtest.BacktestRecords | backend/app/services/backtest_service.py:41-45 | every result is a significant reaction of some input event, and is large-cap when the set is non-empty |
| Backtest.CollectDistinct | backend/app/services/backtest_service.py:48-55 | distinct input keys give records with distinct keys |
| Backtest.BacktestOrder | backend/app/services/backtest_service.py:124 | results are sorted by absolute change, largest first, stably, without repeated keys, and are a permutation of the collected records |
| Backtest.BacktestAborts | backend/app/services/backtest_service.py:102 | the run raises iff a deduplicated event with a usable window has a zero before-close |
| Backtest.BacktestComplete | backend/app/services/backtest_service.py:70-121 | every record that a deduplicated event emits appears in the result |
| Backtest.HistoryEvent | backend/app/services/backtest_service.py:256-303 | one loop iteration of `search_stock_earnings` |
| Backtest.SearchSpec | backend/app/services/backtest_service.py:228-307 | definition: `search_stock_earnings` on values; `SearchStockEarnings`, `SearchRecords` and `SearchComplete` state its properties |
| Backtest.SearchStockEarnings | backend/app/services/backtest_service.py:228-307 | the method computes the search specification: no profile gives no records |
| Backtest.SearchRecords | backend/app/services/backtest_service.py:256-305 | results are newest first; each is a reaction of an input event with the company's name and cap, and its timing, when present, is the oracle's |
| Backtest.SearchComplete | backend/app/services/backtest_service.py:256-305 | every history event that emits a record appears in a completed search; the output is a permutation of the gathered records; records with the same date keep the order of the history |
| Backtest.SearchFallsBack | backend/app/services/backtest_service.py:278-283 | with no timing the fallback window is used |
| Backtest.FinnhubQueryRange | backend/app/services/backtest_service.py:362-371 | a returned range is non-empty |
| Backtest.FinnhubQueryRangeExact | backend/app/services/backtest_service.py:362-371 | a day is in the range iff it is in [start, end] and in [today−30, today] |
| Backtest.GetFinnhubEarningsTimes | backend/app/services/backtest_service.py:354-373 | an empty range returns {} without a query; otherwise the batch call over the clamped range |
| Backtest.EarningsTimeSpec | backend/app/services/backtest_service.py:375-408 | definition: the timing waterfall on values; `EarningsTimeUndecided`, `EarningsTimeOldEvents` and `GetEarningsTime` state its properties |
| Backtest.EarningsTimeUndecided | backend/app/services/backtest_service.py:375-408 | the waterfall yields None iff there is no bulk hit, no single-lookup verdict and no transcript verdict |
| Backtest.EarningsTimeOldEvents | backend/app/services/backtest_service.py:399-408 | events more than 30 days old go straight to the transcript |
| Backtest.GetEarningsTime | backend/app/services/backtest_service.py:375-408 | the waterfall: a bulk hit directly, the single lookup only when today − d ≤ 30, then the transcript; Finnhub's cache is left alone unless it is consulted |
| Backtest.SingleStockRecord | backend/app/services/backtest_service.py:198-226 | a record exists iff a profile and both bars exist; a zero before-close raises; the record carries the given symbol and date, the profile's name and cap, both bars' closes and dates, no timing, and the rounded change between the bars |
| Backtest.SingleStockBacktest | backend/app/services/backtest_service.py:198-226 | definition: `get_single_stock_backtest` as `SingleStockRecord` over the two FMP selectors; the findings lemmas below are stated over it |
| Backtest.SingleStockAfterNotLater | backend/app/services/backtest_service.py:198-226 | as written, when no bar follows d the "after" bar is not later than d |
| Backtest.SingleStockSameDayCounterexample | backend/app/services/backtest_service.py:198-226 | a one-bar series gives a record whose before and after dates coincide |
| Backtest.SingleStockStrictOrdered | backend/app/services/backtest_service.py:198-226 | with the strict next-day selector every record has before ≤ d < after |
| Finnhub.MapHourToTime | backend/app/services/finnhub_service.py:162-180 | only a three-letter code maps to a timing |
| Finnhub.MapHourIgnoresCase | backend/app/services/finnhub_service.py:173 | strings equal up to case map alike |
| Finnhub.MapHourRoundTrip | backend/app/services/finnhub_service.py:162-180 | the code of a timing maps back to it; a string maps to a timing iff it is its code in some case |
| Finnhub.MapHourExamples | backend/app/services/finnhub_service.py:162-180 | "bmo" → BMO, "Amc" → AMC, "dmh" and "" → None |
| Finnhub.LookupCalendar | backend/app/services/finnhub_service.py:100-117 | definition: the first row with the symbol and the exact date decides; `LookupCalendarFirstMatch` and `LookupCalendarNoMatch` state it |
| Finnhub.LookupCalendarFirstMatch | backend/app/services/finnhub_service.py:100-113 | a verdict comes from the first row with the symbol and the exact date, and no earlier row matches |
| Finnhub.LookupCalendarNoMatch | backend/app/services/finnhub_service.py:114-117 | no matching row gives None |
| Finnhub.BatchEntries | backend/app/services/finnhub_service.py:144-155 | definition: the batch loop's dictionary writes; `BatchEntriesLastWins`, `BatchEntriesSound`, `BatchEntriesComplete` and `BatchEntriesKeepsKeys` state it |
| Finnhub.BatchEntriesLastWins | backend/app/services/finnhub_service.py:144-155 | a later row overwrites an earlier one with the same key |
| Finnhub.BatchEntriesSound | backend/app/services/finnhub_service.py:144-155 | every entry is BMO/AMC from a row with non-empty symbol, date and hour, or was already present |
| Finnhub.BatchEntriesComplete | backend/app/services/finnhub_service.py:144-155 | every usable row's key is in the result |
| Finnhub.BatchEntriesKeepsKeys | backend/app/services/finnhub_service.py:144-155 | entries are never removed |
| Finnhub.Known | backend/app/services/finnhub_service.py:155 | definition: batch verdicts as cache values; `BatchGetEarningsTime`'s contract uses it to state the new cache |
| Finnhub.FinnhubService.constructor | backend/app/services/finnhub_service.py:16-21 | the cache starts empty |
| Finnhub.FinnhubService.GetEarningsTime | backend/app/services/finnhub_service.py:70-121 | a hit returns the cached value with no query; an event older than 30 days caches None with no query; otherwise it queries [d−1, d+1] and caches the first-match verdict; in every case the key is then cached |
| Finnhub.FinnhubService.BatchGetEarningsTime | backend/app/services/finnhub_service.py:123-160 | today − from > 30 returns {} with no query; otherwise the batch entries of the calendar, all also written into the cache |
| Fmp.IsForeignTicker | backend/app/services/fmp_service.py:82-91 | definition: a dot, an ADR-style suffix, or a final Y/F after an all-letter stem longer than three; the two examples lemmas pin it down |
| Fmp.ForeignTickerExamples | backend/app/services/fmp_service.py:74-96 | "BRK.B", "TCEHY", "BABAF" and "SONY" are dropped |
| Fmp.PrimaryTickerExamples | backend/app/services/fmp_service.py:74-96 | "AAPL" and "KEYS" are kept |
| Fmp.GetEarningsCalendar | backend/app/services/fmp_service.py:55-114 | a failed or non-list response gives []; otherwise the loop computes the calendar filter |
| Fmp.CalendarEvents | backend/app/services/fmp_service.py:73-111 | definition: the calendar row filter; `CalendarEventsSound`, `CalendarEventsAppend` and `CalendarEventsComplete` state it |
| Fmp.CalendarEventsStep | backend/app/services/fmp_service.py:73-111 | one row's contribution to the filtered calendar |
| Fmp.CalendarEventsSound | backend/app/services/fmp_service.py:73-111 | every event comes from an admitted row: symbol and date present, date parses, ticker not foreign |
| Fmp.CalendarEventsAppend | backend/app/services/fmp_service.py:73-111 | the filter distributes over concatenation, so kept rows keep their order |
| Fmp.CalendarEventsComplete | backend/app/services/fmp_service.py:73-111 | every admitted row yields its event |
| Fmp.ScreenedSymbols | backend/app/services/fmp_service.py:36 | definition: the non-empty symbols of the screener rows; `GetLargeCapSymbolsSet`'s contract uses it for a successful query |
| Fmp.Truncate | backend/app/services/fmp_service.py:30 | `int()` truncates toward zero |
| Fmp.LargeCapCache.constructor | backend/app/services/fmp_service.py:11 | the shared cache starts empty |
| Fmp.LargeCapCache.GetLargeCapSymbolsSet | backend/app/services/fmp_service.py:19-42 | a hit returns the cached set with no query; a miss queries once; failure returns {} and caches nothing; success caches and returns the screened set |
| Fmp.BatchGetProfiles | backend/app/services/fmp_service.py:291-317 | result keys are input symbols; a symbol is present iff its lookup succeeded, with that profile |
| Fmp.FirstOnOrBefore | backend/app/services/fmp_service.py:273-289 | a bar of the series dated ≤ d; None iff every bar is later |
| Fmp.FirstOnOrAfter | backend/app/services/fmp_service.py:220-226 | a bar of the series dated ≥ t; None iff every bar is earlier |
| Fmp.PriceBeforeEarnings | backend/app/services/fmp_service.py:248-289 | definition: the first bar dated on or before d of the newest-first series; `PriceBeforeEarningsLatest` states it |
| Fmp.HistoricalPrice | backend/app/services/fmp_service.py:191-238 | definition: the first bar dated on or after the target of the oldest-first series, else the last bar; `HistoricalPriceNearest` states it |
| Fmp.NextTradingDayPrice | backend/app/services/fmp_service.py:240-246 | definition: `HistoricalPrice` at d+1; `SingleStockAfterNotLater` shows its fallback |
| Fmp.PriceBeforeEarningsLatest | backend/app/services/fmp_service.py:248-289 | the latest bar dated ≤ d, None iff there is none |
| Fmp.FirstOnOrBeforeLatest | backend/app/services/fmp_service.py:273-289 | on a newest-first series the first bar dated ≤ d is the latest such |
| Fmp.FirstOnOrAfterEarliest | backend/app/services/fmp_service.py:216-226 | on an oldest-first series the first bar dated ≥ t is the earliest such |
| Fmp.HistoricalPriceNearest | backend/app/services/fmp_service.py:191-238 | the earliest bar dated ≥ target, otherwise the latest bar, None for an empty series |
| Fmp.OldestFirstLast | backend/app/services/fmp_service.py:216-228 | the last bar of an oldest-first series is the latest |
| Fmp.NextTradingDayPriceStrictEarliest | backend/app/services/fmp_service.py:240-246 | the corrected selector gives the earliest bar after d, None iff there is none |
| Fmp.GetPriceBeforeEarnings | backend/app/services/fmp_service.py:248-289 | the loop computes `PriceBeforeEarnings` |
| Fmp.GetHistoricalPrice | backend/app/services/fmp_service.py:191-238 | the loop computes `HistoricalPrice` |
| Fmp.GetNextTradingDayPrice | backend/app/services/fmp_service.py:240-246 | `get_historical_price` with target d+1 |
| Fmp.QuarterLabel | backend/app/services/fmp_service.py:408 | no label iff the quarter is absent or 0; otherwise "Q" and digits |
| Fmp.QuarterLabelRoundTrip | backend/app/services/fmp_service.py:408 | the label of a positive quarter q is "Q" followed by the decimal digits of q |
| Fmp.HistoryEventsStep | backend/app/services/fmp_service.py:385-419 | one row's contribution to the history |
| Fmp.HistoryEvents | backend/app/services/fmp_service.py:385-419 | definition: the history row filter; `CollectHistory` and `HistoryEventsInRange` state it |
| Fmp.CollectHistory | backend/app/services/fmp_service.py:385-419 | the loop computes the history filter |
| Fmp.GetStockEarningsHistory | backend/app/services/fmp_service.py:361-422 | a failed response gives []; otherwise the filtered rows sorted newest first |
| Fmp.HistoryEventsInRange | backend/app/services/fmp_service.py:396-398 | every event's date parses and lies in [from, to] |
| Fmp.HistorySortedNewestFirst | backend/app/services/fmp_service.py:421 | the history is newest first and a permutation of the filtered rows |
| Transcript.CandidateQuarters | backend/app/services/fmp_service.py:446-458 | as written: exactly two candidates, each quarter in 1..4 |
| Transcript.CandidateQuartersMarchLooksAhead | backend/app/services/fmp_service.py:455-458 | March 2024 proposes (2024, 4), which for a company whose fiscal quarters follow the calendar year is three quarters ahead of the announcement's own quarter |
| Transcript.CandidateQuartersCorrected | backend/app/services/fmp_service.py:446-458 | two candidates with quarters in 1..4 |
| Transcript.CandidateQuartersCorrectedAdjacent | backend/app/services/fmp_service.py:446-458 | the two candidates differ, and each is the announcement's own quarter or the one before it |
| Transcript.CandidateQuartersAgree | backend/app/services/fmp_service.py:446-458 | the corrected table equals the written one for every month but March |
| Transcript.SkipSpaces | backend/app/services/fmp_service.py:484-486 | `\s*`: the longest run of spaces |
| Transcript.ClockAt | backend/app/services/fmp_service.py:484 | a matched hour has one or two digits |
| Transcript.FirstMatchLeftmost | backend/app/services/fmp_service.py:489-490 | `re.search`: a match at the leftmost position where the pattern matches, none iff no position matches |
| Transcript.ClockVerdict | backend/app/services/fmp_service.py:494-505 | BMO iff AM with hour in 6..9; AMC iff PM with hour ≥ 12 or in 1..8 |
| Transcript.SearchedText | backend/app/services/fmp_service.py:470-471 | the opening 2000 characters, or all of them when shorter |
| Transcript.GreetingPrecedence | backend/app/services/fmp_service.py:474-477 | "good morning" gives BMO; otherwise "good afternoon" or "good evening" gives AMC |
| Transcript.ClassifySound | backend/app/services/fmp_service.py:474-505 | a verdict comes from a greeting or from a clock time of one of the two patterns |
| Transcript.ClassifyTranscript | backend/app/services/fmp_service.py:470-505 | definition: the window classifier on the searched text; `ClassifySound` and `ClassifyReadsOpening` state it |
| Transcript.ClassifyWindow | backend/app/services/fmp_service.py:474-505 | definition: greetings first, then the two clock patterns; `GreetingPrecedence` and `ClassifySound` state it |
| Transcript.ClassifyReadsOpening | backend/app/services/fmp_service.py:470-471 | only the opening 2000 characters matter, and case does not |
| Transcript.SearchedTextOpening | backend/app/services/fmp_service.py:470-471 | the searched text depends only on the opening 2000 characters and not on case |
| Transcript.SearchedTextPrefix | backend/app/services/fmp_service.py:471 | cutting the content at 2000 leaves the searched text unchanged |
| Transcript.SearchedTextLowered | backend/app/services/fmp_service.py:470 | lower-casing first leaves the searched text unchanged |
| Transcript.ClockVerdictGaps | backend/app/services/fmp_service.py:494-505 | 10 am and 9 pm decide nothing; 4 pm and 12 pm give AMC |
| Transcript.ClockAtExamples | backend/app/services/fmp_service.py:484-486 | "10:30 am" and "at  4.30p.m." match; "8:00 pt" does not |
| Transcript.FirstVerdictChoice | backend/app/services/fmp_service.py:460-510 | a verdict comes from the first candidate with a transcript that classifies; every earlier candidate had none |
| Transcript.FirstVerdict | backend/app/services/fmp_service.py:460-510 | definition: the first candidate whose transcript classifies; `FirstVerdictChoice` states it |
| Transcript.TranscriptTime | backend/app/services/fmp_service.py:424-510 | definition: the first verdict over the month's candidates from the code's table; `GetEarningsTimeFromTranscript` computes it |
| Transcript.TranscriptTimeCorrected | backend/app/services/fmp_service.py:424-510 | definition: the same over the corrected table |
| Transcript.TranscriptTimeAgree | backend/app/services/fmp_service.py:446-458 | outside March the written and corrected lookups agree; in March the corrected candidates never include (year, 4) |
| Transcript.TranscriptTimeMarchCounterexample | backend/app/services/fmp_service.py:455-458 | for 15 March 2024, a Q4 2024 transcript that classifies decides the written lookup, while the corrected lookup finds nothing |
| Transcript.ClassifyClocks | backend/app/services/fmp_service.py:482-505 | the pattern loop: the first pattern's verdict, else the second's |
| Transcript.GetEarningsTimeFromTranscript | backend/app/services/fmp_service.py:424-510 | the candidate loop computes the first verdict over the month's candidates |
| Sorting.InsertPermutes | backend/app/services/backtest_service.py:124 | insertion keeps the multiset |
| Sorting.InsertSorted | backend/app/services/backtest_service.py:124 | insertion keeps the order |
| Sorting.SortDesc | backend/app/services/backtest_service.py:124 | a permutation of the input, sorted by non-increasing key |
| Sorting.SortDescMembers | backend/app/services/backtest_service.py:124 | the same members as the input |
| Sorting.SortDescDistinct | backend/app/services/backtest_service.py:124 | sorting keeps keys distinct |
| Sorting.SortDescStable | backend/app/services/backtest_service.py:124 | stability: elements with equal keys keep their relative order |
| Sorting.SubsequenceMembers | backend/app/services/backtest_service.py:41-55 | a subsequence holds only members of the sequence |
| Text.Lower | backend/app/services/fmp_service.py:470 | `str.lower` on ASCII: same length, each letter lowered |
| Text.LowerPrefix | backend/app/services/fmp_service.py:470-471 | lower-casing commutes with taking a prefix |
| Text.LowerIdempotent | backend/app/services/fmp_service.py:470 | lowering twice is lowering once |
| Text.ContainsIff | backend/app/services/fmp_service.py:474-477 | the substring test holds iff the word occurs at some position |
| Text.NatToDecimal | backend/app/services/fmp_service.py:408 | a non-empty string of digits with no leading zero; 0 renders as a single zero digit |
| Text.NatToDecimalRoundTrip | backend/app/services/fmp_service.py:408 | the decimal rendering reads back as the number |
| Dates.CivilFromDays | backend/app/services/fmp_service.py:438-439 | the month is in 1..12 and the day in 1..31 |
| Dates.DaysFromCivil | backend/app/services/fmp_service.py:438-439 | definition: the inverse of `CivilFromDays`, counting days since 1970-01-01 |
| Dates.CivilRoundTrip | backend/app/services/fmp_service.py:438-439 | every day number maps to a civil date that maps back to it, so no two days share a date |
| Dates.YearOfEraBounds | backend/app/services/fmp_service.py:438-439 | the year of a 400-year era lies in 0..399 |
| Dates.DayOfYearBounds | backend/app/services/fmp_service.py:438-439 | the day of the March-based year lies in 0..365 |
| Dates.MonthRoundTrip | backend/app/services/fmp_service.py:438-439 | the month and day read from a day of the year give that day back |
| Dates.CivilFromDaysEpoch | backend/app/services/fmp_service.py:438-439 | day 0 is 1 January 1970 |
| Dates.CivilFromDaysBeforeEpoch | backend/app/services/fmp_service.py:438-439 | day −1 is 31 December 1969 |
| Dates.CivilFromDaysLeapCentury | backend/app/services/fmp_service.py:438-439 | day 11016 is 29 February 2000 |
| Dates.CivilFromDaysYearEnd | backend/app/services/fmp_service.py:438-439 | day 19722 is 31 December 2023 |
| Dates.CivilFromDaysNewYear | backend/app/services/fmp_service.py:438-439 | day 19723 is 1 January 2024 |
| Dates.CivilFromDaysLeapDay | backend/app/services/fmp_service.py:438-439 | day 19782 is 29 February 2024 |
| Dates.CivilFromDaysMarchFirst | backend/app/services/fmp_service.py:438-439 | day 19783 is 1 March 2024 |
| Dates.CivilFromDaysMarch | backend/app/services/fmp_service.py:438-439 | day 19797 is 15 March 2024 |
| Dates.CivilFromDaysExample | backend/app/services/fmp_service.py:438-439 | day 19845 is 2 May 2024 |

## Left out

- HTTP transport and JSON decoding: the `_get` helpers and raw provider queries. A response is an input of the model: an `Option` where the code tests for a missing or failed answer, a plain sequence of bars where it only reads them, or a function of the query's parameters.
- `date.today()` is the parameter `today`. ISO date parsing is the parameter `parseDate`, returning `Option<int>`. Finnhub's date column is an `Option<int>` day.
- Rounding: `round(x, 4)` is the parameter `round4`. Closes and ratios are exact reals.
- Concurrency in `batch_get_profiles` (the semaphore and gather) is modelled as a sequential loop. A profile request that raises is a lookup returning `None`.
- Backtest.RunBacktest: takes the large-cap set and the calendar events as inputs. `Fmp.LargeCapCache.GetLargeCapSymbolsSet` and `Fmp.GetEarningsCalendar` model how those are obtained.
- Backtest.RunBacktest: the timing verdict comes from the oracle `timingOf`. The waterfall that produces it is modelled on its own by `Backtest.GetEarningsTime`, not threaded through the loop. The same holds for `Backtest.SearchStockEarnings`.
- `get_prices_around_earnings` (backend/app/services/fmp_service.py:319-359) is the input `barsFor`.
- `get_company_profile` is the input `profileOf`.
- Backtest.SingleStockBacktest: a request that raises (`get_company_profile` at backend/app/services/backtest_service.py:202, or the bar requests of backend/app/services/fmp_service.py:191-289) is modelled as an absent profile or an empty bar list, so the model returns no record where the code lets the exception propagate.
- Backtest.SearchStockEarnings: a `get_company_profile` request that raises (backend/app/services/backtest_service.py:241) is modelled as an absent profile, so the model returns no records where the code lets the exception propagate.
- Text: lower-casing, `isalpha`, `\d` and `\s` cover ASCII only.
- String keys `f"{symbol}_{date}"` are pairs, so two different pairs that render to the same string are not modelled.
- Bars with equal dates: ties are resolved by the modelled stable sort and dictionary overwrite; no further claim is made about them.
- Pydantic validation of the record types.
- Other modules: the FastAPI routers, the MinIO and OpenAI services, config loading and app wiring. The only thing taken from configuration is its defaults: threshold 0.10 and a minimum cap of 1e9 (backend/app/config.py:25-26). The unused helpers at backend/app/services/fmp_service.py:116-173 are not modelled either.
- Fmp.LargeCapCache.GetLargeCapSymbolsSet: one object stands for the class-level dictionary that all FMPService instances share.

## Findings

| source | as written | input that shows it | evidently intended | confidence | as-written member | corrected member |
|---|---|---|---|---|---|---|
| backend/app/services/backtest_service.py:198-226 with backend/app/services/fmp_service.py:226-228, 240-246 | `get_next_trading_day_price` falls back to the series' last bar, so with no bar after d the "after" price is dated on or before d | a single bar dated 2024-05-02 (day 19845), event on that day: before and after are the same bar | no record when no bar follows the event day | not executed | Backtest.SingleStockAfterNotLater, Backtest.SingleStockSameDayCounterexample | Backtest.SingleStockStrictOrdered |
| backend/app/services/fmp_service.py:455-458 | for March, quarter = 1, so the candidates are (year, 1) and (year, 4); for a company whose fiscal quarters follow the calendar year, the latter is a quarter that has not happened yet | 15 March 2024 (day 19797) proposes (2024, 4), and a Q4 2024 transcript would decide the timing | (year − 1, 4), the quarter before Q1 | not executed | Transcript.CandidateQuartersMarchLooksAhead, Transcript.TranscriptTimeMarchCounterexample | Transcript.TranscriptTimeCorrected, Transcript.CandidateQuartersCorrectedAdjacent |
