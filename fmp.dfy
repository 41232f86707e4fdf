/**
 * The data-shaping logic of FMPService (backend/app/services/fmp_service.py):
 * the primary-listing ticker filter and calendar row filtering, the memoised
 * large-cap symbol set, batch profile lookup, the nearest-bar selectors and
 * the per-symbol earnings history. HTTP responses are inputs: a decoded JSON
 * list is a `seq`, and a failed request (or a body that is not a list) is
 * `None`.
 */
module Fmp {
  import opened Wrappers
  import opened Schemas
  import opened Text
  import Sorting

  // ---------------------------------------------------------------------
  // Ticker filter and the earnings calendar (get_earnings_calendar)

  /** The depositary-receipt suffixes the calendar filter recognises. */
  const AdrSuffixes: seq<string> := ["ADR", "ADS", "CY", "GF", "HY", "TY", "PY", "LY", "EY", "AY", "UY"]

  predicate HasAdrSuffix(symbol: string)
  {
    exists k :: 0 <= k < |AdrSuffixes| && EndsWith(symbol, AdrSuffixes[k])
  }

  /** A ticker that is not a primary US listing: it contains ".", ends in a
      depositary-receipt suffix, or is longer than 3 characters, ends in Y or F
      and is alphabetic before that last character. */
  predicate IsForeignTicker(symbol: string)
  {
    || '.' in symbol
    || HasAdrSuffix(symbol)
    || (|symbol| > 3 && symbol[|symbol| - 1] in {'Y', 'F'} && IsAlpha(symbol[..|symbol| - 1]))
  }

  /** Tickers the calendar drops: a class share, a depositary receipt, and
      two foreign ordinaries. */
  lemma ForeignTickerExamples()
    ensures IsForeignTicker("BRK.B")
    ensures IsForeignTicker("TCEHY")
    ensures IsForeignTicker("BABAF")
    ensures IsForeignTicker("SONY")
  {
    assert "BRK.B"[3] == '.';
    assert EndsWith("TCEHY", AdrSuffixes[4]);
    assert IsAlpha("BABA");
    assert IsAlpha("SON");
  }

  /** Tickers the calendar keeps. */
  lemma PrimaryTickerExamples()
    ensures !IsForeignTicker("AAPL")
    ensures !IsForeignTicker("KEYS")
  {
    assert forall k :: 0 <= k < |AdrSuffixes| ==> !EndsWith("AAPL", AdrSuffixes[k]);
    assert forall k :: 0 <= k < |AdrSuffixes| ==> !EndsWith("KEYS", AdrSuffixes[k]);
  }

  /** One item of the calendar response. `symbol` and `date` are "" when the
      field is missing or null; `Unreadable` is an item the loop cannot
      inspect (not an object, or a symbol or date that is not a string). */
  datatype CalendarItem =
    | CalendarRow(symbol: string, date: string,
                  epsActual: Option<real>, epsEstimated: Option<real>,
                  revenueActual: Option<real>, revenueEstimated: Option<real>)
    | Unreadable

  /** Whether a row survives the filters, given the day its date parses to. */
  predicate Admitted(row: CalendarItem, parseDate: string -> Option<int>)
  {
    && row.CalendarRow?
    && row.symbol != "" && row.date != ""
    && !IsForeignTicker(row.symbol)
    && parseDate(row.date).Some?
  }

  function CalendarEvent(row: CalendarItem, day: int): EarningsEvent
    requires row.CalendarRow?
  {
    EarningsEvent(row.symbol, row.symbol, day, None, None,
                  row.epsEstimated, row.epsActual, row.revenueEstimated, row.revenueActual)
  }

  /** The events built from `items`, in order; an unreadable item raises
      inside the loop, and the exception handler returns the events built so far. */
  function CalendarEvents(items: seq<CalendarItem>, parseDate: string -> Option<int>): seq<EarningsEvent>
  {
    if items == [] then []
    else if items[0].Unreadable? then []
    else
      (if Admitted(items[0], parseDate) then [CalendarEvent(items[0], parseDate(items[0].date).value)] else [])
      + CalendarEvents(items[1..], parseDate)
  }

  /** `get_earnings_calendar` over the response `data`. */
  method GetEarningsCalendar(data: Option<seq<CalendarItem>>, parseDate: string -> Option<int>)
    returns (events: seq<EarningsEvent>)
    ensures data.None? ==> events == []
    ensures data.Some? ==> events == CalendarEvents(data.value, parseDate)
  {
    events := [];
    if data.None? {
      return;
    }
    var items := data.value;
    var i := 0;
    while i < |items|
      invariant 0 <= i <= |items|
      invariant events + CalendarEvents(items[i..], parseDate) == CalendarEvents(items, parseDate)
    {
      var item := items[i];
      if item.Unreadable? {
        break;
      }
      CalendarEventsStep(items, parseDate, i);
      if item.symbol != "" && item.date != "" && !IsForeignTicker(item.symbol) {
        var day := parseDate(item.date);
        if day.Some? {
          events := events + [CalendarEvent(item, day.value)];
        }
      }
      i := i + 1;
    }
  }

  lemma CalendarEventsStep(items: seq<CalendarItem>, parseDate: string -> Option<int>, i: int)
    requires 0 <= i < |items| && items[i].CalendarRow?
    ensures CalendarEvents(items[i..], parseDate)
         == (if Admitted(items[i], parseDate) then [CalendarEvent(items[i], parseDate(items[i].date).value)] else [])
            + CalendarEvents(items[i + 1..], parseDate)
  {
    assert items[i..][1..] == items[i + 1..];
  }

  /** Every event has a symbol that is not a foreign listing and a parsed date,
      and comes from an admitted row. */
  lemma {:induction false} CalendarEventsSound(items: seq<CalendarItem>, parseDate: string -> Option<int>)
    ensures forall e :: e in CalendarEvents(items, parseDate) ==>
      e.symbol != "" && !IsForeignTicker(e.symbol) && e.companyName == e.symbol
      && exists i :: 0 <= i < |items| && Admitted(items[i], parseDate)
                  && e == CalendarEvent(items[i], parseDate(items[i].date).value)
  {
    if items != [] && items[0].CalendarRow? {
      CalendarEventsSound(items[1..], parseDate);
      forall e | e in CalendarEvents(items[1..], parseDate)
        ensures exists i :: 0 <= i < |items| && Admitted(items[i], parseDate)
                  && e == CalendarEvent(items[i], parseDate(items[i].date).value)
      {
        var i :| 0 <= i < |items[1..]| && Admitted(items[1..][i], parseDate)
                  && e == CalendarEvent(items[1..][i], parseDate(items[1..][i].date).value);
        assert items[1..][i] == items[i + 1];
      }
    }
  }

  /** Order is kept: the events of a concatenation of readable items are the
      events of each part, one after the other. */
  lemma {:induction false} CalendarEventsAppend(a: seq<CalendarItem>, b: seq<CalendarItem>, parseDate: string -> Option<int>)
    requires forall i :: 0 <= i < |a| ==> a[i].CalendarRow?
    ensures CalendarEvents(a + b, parseDate) == CalendarEvents(a, parseDate) + CalendarEvents(b, parseDate)
  {
    if a == [] {
      assert a + b == b;
    } else {
      assert (a + b)[1..] == a[1..] + b;
      CalendarEventsAppend(a[1..], b, parseDate);
    }
  }

  /** Every admitted row before the first unreadable item yields its event. */
  lemma {:induction false} CalendarEventsComplete(items: seq<CalendarItem>, parseDate: string -> Option<int>, i: int)
    requires 0 <= i < |items|
    requires forall j :: 0 <= j <= i ==> items[j].CalendarRow?
    requires Admitted(items[i], parseDate)
    ensures CalendarEvent(items[i], parseDate(items[i].date).value) in CalendarEvents(items, parseDate)
  {
    if i > 0 {
      CalendarEventsComplete(items[1..], parseDate, i - 1);
    }
  }

  // ---------------------------------------------------------------------
  // The memoised large-cap symbol set (get_large_cap_symbols_set)

  /** One item of the screener response; `None` when "symbol" is missing or null. */
  datatype ScreenerItem = ScreenerItem(symbol: Option<string>)

  /** `{item["symbol"] for item in data if item.get("symbol")}`. */
  function ScreenedSymbols(data: seq<ScreenerItem>): set<string>
  {
    set i | 0 <= i < |data| && data[i].symbol.Some? && data[i].symbol.value != "" :: data[i].symbol.value
  }

  /** Python's `int(x)`: truncation toward zero. */
  function Truncate(x: real): (n: int)
    ensures x >= 0.0 ==> n as real <= x < n as real + 1.0
    ensures x < 0.0 ==> n as real - 1.0 < x <= n as real
  {
    if x >= 0.0 then x.Floor else -((-x).Floor)
  }

  /** The class-level `_large_cap_cache` of FMPService: one object stands for
      the dictionary that all instances share. */
  class LargeCapCache {
    var cache: map<real, set<string>>
    /** The market-cap floors sent to the screener, in order. */
    ghost var Queries: seq<int>

    constructor ()
      ensures cache == map[] && Queries == []
    {
      cache := map[];
      Queries := [];
    }

    /** `get_large_cap_symbols_set(min_market_cap)`; `screener(n)` is the
        decoded screener response for "marketCapMoreThan" = n, `None` when the
        request fails. */
    method GetLargeCapSymbolsSet(minCap: real, screener: int -> Option<seq<ScreenerItem>>)
      returns (symbols: set<string>)
      modifies this
      ensures minCap in old(cache) ==>
        symbols == old(cache)[minCap] && cache == old(cache) && Queries == old(Queries)
      ensures minCap !in old(cache) ==> Queries == old(Queries) + [Truncate(minCap)]
      ensures minCap !in old(cache) && screener(Truncate(minCap)).None? ==>
        symbols == {} && cache == old(cache)
      ensures minCap !in old(cache) && screener(Truncate(minCap)).Some? ==>
        symbols == ScreenedSymbols(screener(Truncate(minCap)).value)
        && cache == old(cache)[minCap := symbols]
    {
      if minCap in cache {
        return cache[minCap];
      }
      symbols := {};
      var data := screener(Truncate(minCap));
      Queries := Queries + [Truncate(minCap)];
      if data.Some? {
        symbols := ScreenedSymbols(data.value);
        cache := cache[minCap := symbols];
      }
    }
  }

  // ---------------------------------------------------------------------
  // Batch profile lookup (batch_get_profiles)

  /** `batch_get_profiles(symbols)`, with the bounded-concurrency fan-out
      run one symbol at a time. `lookup(s)` is the profile of `s`, `None` when
      the lookup failed or found nothing. */
  method BatchGetProfiles(symbols: seq<string>, lookup: string -> Option<CompanyProfile>)
    returns (profiles: map<string, CompanyProfile>)
    ensures forall s :: s in profiles ==> s in symbols
    ensures forall s :: s in symbols ==> (s in profiles <==> lookup(s).Some?)
    ensures forall s :: s in profiles ==> profiles[s] == lookup(s).value
  {
    profiles := map[];
    for i := 0 to |symbols|
      invariant forall s :: s in profiles ==> s in symbols[..i]
      invariant forall s :: s in symbols[..i] ==> (s in profiles <==> lookup(s).Some?)
      invariant forall s :: s in profiles ==> profiles[s] == lookup(s).value
    {
      var profile := lookup(symbols[i]);
      if profile.Some? {
        profiles := profiles[symbols[i] := profile.value];
      }
      assert symbols[..i + 1] == symbols[..i] + [symbols[i]];
    }
    assert symbols[..|symbols|] == symbols;
  }

  // ---------------------------------------------------------------------
  // Nearest-bar selectors

  /** The first bar of `s` dated on or before `d`. */
  function FirstOnOrBefore(s: seq<PriceBar>, d: int): (r: Option<PriceBar>)
    ensures r.Some? ==> r.value in s && r.value.date <= d
    ensures r.None? <==> forall k :: 0 <= k < |s| ==> s[k].date > d
  {
    if s == [] then None
    else if s[0].date <= d then Some(s[0])
    else FirstOnOrBefore(s[1..], d)
  }

  /** The first bar of `s` dated on or after `t`. */
  function FirstOnOrAfter(s: seq<PriceBar>, t: int): (r: Option<PriceBar>)
    ensures r.Some? ==> r.value in s && r.value.date >= t
    ensures r.None? <==> forall k :: 0 <= k < |s| ==> s[k].date < t
  {
    if s == [] then None
    else if s[0].date >= t then Some(s[0])
    else FirstOnOrAfter(s[1..], t)
  }

  /** The bar `get_price_before_earnings` picks from the response `bars` for
      [d-5, d]: the first on or before `d` once sorted newest first. */
  function PriceBeforeEarnings(bars: seq<PriceBar>, d: int): Option<PriceBar>
  {
    FirstOnOrBefore(Sorting.SortDesc(bars, NewestFirst), d)
  }

  /** The bar `get_historical_price` picks from the response `bars` for
      [target-5, target+5]: the first on or after `target` once sorted oldest
      first, else the last of them. */
  function HistoricalPrice(bars: seq<PriceBar>, target: int): Option<PriceBar>
  {
    var sorted := Sorting.SortDesc(bars, OldestFirst);
    if sorted == [] then None
    else if FirstOnOrAfter(sorted, target).Some? then FirstOnOrAfter(sorted, target)
    else Some(sorted[|sorted| - 1])
  }

  /** The bar `get_next_trading_day_price` picks for a report on `d`. */
  function NextTradingDayPrice(bars: seq<PriceBar>, d: int): Option<PriceBar>
  {
    HistoricalPrice(bars, d + 1)
  }

  /** The next trading day's bar without the fall-back to the last bar:
      `None` when the response holds nothing after `d`. */
  function NextTradingDayPriceStrict(bars: seq<PriceBar>, d: int): Option<PriceBar>
  {
    FirstOnOrAfter(Sorting.SortDesc(bars, OldestFirst), d + 1)
  }

  /** The bar before is the latest on or before `d`, and there is none only
      when every bar is later. */
  lemma PriceBeforeEarningsLatest(bars: seq<PriceBar>, d: int)
    ensures var r := PriceBeforeEarnings(bars, d);
      && (r.Some? ==> r.value in bars && r.value.date <= d
                      && forall b :: b in bars && b.date <= d ==> b.date <= r.value.date)
      && (r.None? <==> forall b :: b in bars ==> b.date > d)
  {
    var sorted := Sorting.SortDesc(bars, NewestFirst);
    Sorting.SortDescMembers(bars, NewestFirst);
    FirstOnOrBeforeLatest(sorted, d);
  }

  lemma {:induction false} FirstOnOrBeforeLatest(s: seq<PriceBar>, d: int)
    requires Sorting.SortedDesc(s, NewestFirst)
    ensures FirstOnOrBefore(s, d).Some? ==>
      forall k :: 0 <= k < |s| && s[k].date <= d ==> s[k].date <= FirstOnOrBefore(s, d).value.date
  {
    if s != [] && s[0].date > d {
      assert Sorting.SortedDesc(s[1..], NewestFirst);
      FirstOnOrBeforeLatest(s[1..], d);
      assert forall k :: 1 <= k < |s| ==> s[k] == s[1..][k - 1];
    }
  }

  lemma {:induction false} FirstOnOrAfterEarliest(s: seq<PriceBar>, t: int)
    requires Sorting.SortedDesc(s, OldestFirst)
    ensures FirstOnOrAfter(s, t).Some? ==>
      forall k :: 0 <= k < |s| && s[k].date >= t ==> FirstOnOrAfter(s, t).value.date <= s[k].date
  {
    if s != [] && s[0].date < t {
      assert Sorting.SortedDesc(s[1..], OldestFirst);
      FirstOnOrAfterEarliest(s[1..], t);
      assert forall k :: 1 <= k < |s| ==> s[k] == s[1..][k - 1];
    }
  }

  /** The historical price is the earliest bar on or after `target`; when
      every bar is earlier it is the latest bar; `None` only for an empty
      response. */
  lemma HistoricalPriceNearest(bars: seq<PriceBar>, target: int)
    ensures var r := HistoricalPrice(bars, target);
      && (r.None? <==> bars == [])
      && (r.Some? ==> r.value in bars)
      && ((exists b :: b in bars && b.date >= target) ==>
            r.Some? && r.value.date >= target
            && forall b :: b in bars && b.date >= target ==> r.value.date <= b.date)
      && ((forall b :: b in bars ==> b.date < target) && r.Some? ==>
            forall b :: b in bars ==> b.date <= r.value.date)
  {
    var sorted := Sorting.SortDesc(bars, OldestFirst);
    var r := HistoricalPrice(bars, target);
    Sorting.SortDescMembers(bars, OldestFirst);
    assert |sorted| == |bars|;
    FirstOnOrAfterEarliest(sorted, target);
    if exists b :: b in bars && b.date >= target {
      var b :| b in bars && b.date >= target;
      var k :| 0 <= k < |sorted| && sorted[k] == b;
      assert r == FirstOnOrAfter(sorted, target);
      forall c | c in bars && c.date >= target ensures r.value.date <= c.date {
        var j :| 0 <= j < |sorted| && sorted[j] == c;
      }
    }
    if sorted != [] {
      OldestFirstLast(sorted);
      forall c | c in bars ensures c.date <= sorted[|sorted| - 1].date {
        var j :| 0 <= j < |sorted| && sorted[j] == c;
      }
    }
  }

  /** The last bar in oldest-first order is the latest. */
  lemma OldestFirstLast(s: seq<PriceBar>)
    requires s != [] && Sorting.SortedDesc(s, OldestFirst)
    ensures forall k :: 0 <= k < |s| ==> s[k].date <= s[|s| - 1].date
  {
    forall k | 0 <= k < |s| ensures s[k].date <= s[|s| - 1].date {
      if k < |s| - 1 {
        assert OldestFirst(s[k]) >= OldestFirst(s[|s| - 1]);
      }
    }
  }

  /** The strict choice is the earliest bar after `d`, and exists exactly
      when some bar is after `d`. */
  lemma NextTradingDayPriceStrictEarliest(bars: seq<PriceBar>, d: int)
    ensures var r := NextTradingDayPriceStrict(bars, d);
      && (r.Some? <==> exists b :: b in bars && b.date > d)
      && (r.Some? ==> r.value in bars && r.value.date > d
                      && forall b :: b in bars && b.date > d ==> r.value.date <= b.date)
  {
    var sorted := Sorting.SortDesc(bars, OldestFirst);
    Sorting.SortDescMembers(bars, OldestFirst);
    FirstOnOrAfterEarliest(sorted, d + 1);
  }

  /** `get_price_before_earnings` over the response `bars`. */
  method GetPriceBeforeEarnings(bars: seq<PriceBar>, d: int) returns (r: Option<PriceBar>)
    ensures r == PriceBeforeEarnings(bars, d)
  {
    if |bars| == 0 {
      return None;
    }
    var sorted := Sorting.SortDesc(bars, NewestFirst);
    var i := 0;
    while i < |sorted|
      invariant 0 <= i <= |sorted|
      invariant FirstOnOrBefore(sorted[i..], d) == FirstOnOrBefore(sorted, d)
    {
      assert sorted[i..][0] == sorted[i] && sorted[i..][1..] == sorted[i + 1..];
      if sorted[i].date <= d {
        return Some(sorted[i]);
      }
      i := i + 1;
    }
    return None;
  }

  /** `get_historical_price` over the response `bars`. */
  method GetHistoricalPrice(bars: seq<PriceBar>, target: int) returns (r: Option<PriceBar>)
    ensures r == HistoricalPrice(bars, target)
  {
    if |bars| == 0 {
      return None;
    }
    var sorted := Sorting.SortDesc(bars, OldestFirst);
    var closest: Option<PriceBar> := None;
    var i := 0;
    while i < |sorted|
      invariant 0 <= i <= |sorted|
      invariant FirstOnOrAfter(sorted[i..], target) == FirstOnOrAfter(sorted, target)
    {
      assert sorted[i..][0] == sorted[i] && sorted[i..][1..] == sorted[i + 1..];
      if sorted[i].date >= target {
        closest := Some(sorted[i]);
        break;
      }
      i := i + 1;
    }
    if closest.None? {
      closest := Some(sorted[|sorted| - 1]);
    }
    return closest;
  }

  /** `get_next_trading_day_price` over the response `bars`. */
  method GetNextTradingDayPrice(bars: seq<PriceBar>, d: int) returns (r: Option<PriceBar>)
    ensures r == NextTradingDayPrice(bars, d)
  {
    r := GetHistoricalPrice(bars, d + 1);
  }

  // ---------------------------------------------------------------------
  // The per-symbol earnings history (get_stock_earnings_history)

  /** One item of the transcript-dates response; "" for a missing or null date. */
  datatype HistoryItem =
    | HistoryRow(date: string, quarter: Option<int>, fiscalYear: Option<int>)
    | Unreadable

  /** `f"Q{quarter}" if quarter else None`. */
  function QuarterLabel(quarter: Option<int>): (tag: Option<string>)
    ensures tag.None? <==> quarter.None? || quarter.value == 0
    ensures tag.Some? ==> |tag.value| >= 2 && tag.value[0] == 'Q'
  {
    if quarter.Some? && quarter.value != 0 then Some("Q" + IntToDecimal(quarter.value)) else None
  }

  /** A positive quarter can be read back from its label. */
  lemma QuarterLabelRoundTrip(q: int)
    requires q > 0
    ensures var tag := QuarterLabel(Some(q)).value;
      (forall i :: 1 <= i < |tag| ==> IsDigit(tag[i])) && DecimalValue(tag[1..]) == q
  {
    var tag := QuarterLabel(Some(q)).value;
    assert tag[1..] == NatToDecimal(q);
    NatToDecimalRoundTrip(q);
  }

  function HistoryEvent(symbol: string, row: HistoryItem, day: int): EarningsEvent
    requires row.HistoryRow?
  {
    EarningsEvent(symbol, symbol, day, QuarterLabel(row.quarter), row.fiscalYear, None, None, None, None)
  }

  /** Whether a history row is kept, given the window [from, to]. */
  predicate InWindow(row: HistoryItem, from: int, to: int, parseDate: string -> Option<int>)
    requires row.HistoryRow?
  {
    row.date != "" && parseDate(row.date).Some? && from <= parseDate(row.date).value <= to
  }

  /** The event of one history row, if the row is kept. */
  function HistoryRowEvents(symbol: string, row: HistoryItem, from: int, to: int,
                            parseDate: string -> Option<int>): seq<EarningsEvent>
    requires row.HistoryRow?
  {
    if InWindow(row, from, to, parseDate) then [HistoryEvent(symbol, row, parseDate(row.date).value)] else []
  }

  lemma AppendStep<T>(earlier: seq<T>, head: seq<T>, rest: seq<T>)
    ensures earlier + head + rest == earlier + (head + rest)
  {
  }

  lemma HistoryEventsStep(symbol: string, items: seq<HistoryItem>, from: int, to: int,
                          parseDate: string -> Option<int>, i: int)
    requires 0 <= i < |items| && items[i].HistoryRow?
    ensures HistoryEvents(symbol, items[i..], from, to, parseDate)
         == HistoryRowEvents(symbol, items[i], from, to, parseDate)
            + HistoryEvents(symbol, items[i + 1..], from, to, parseDate)
  {
    assert items[i..][1..] == items[i + 1..];
  }

  /** The history events of `items` within [from, to], in response order. */
  function HistoryEvents(symbol: string, items: seq<HistoryItem>, from: int, to: int,
                         parseDate: string -> Option<int>): seq<EarningsEvent>
  {
    if items == [] then []
    else if items[0].Unreadable? then []
    else
      HistoryRowEvents(symbol, items[0], from, to, parseDate)
      + HistoryEvents(symbol, items[1..], from, to, parseDate)
  }

  function EventDate(e: EarningsEvent): real
  {
    e.date as real
  }

  /** The loop of get_stock_earnings_history: the rows within [from, to] in
      response order, up to the first row it cannot inspect. */
  method CollectHistory(symbol: string, items: seq<HistoryItem>, from: int, to: int,
                        parseDate: string -> Option<int>)
    returns (collected: seq<EarningsEvent>)
    ensures collected == HistoryEvents(symbol, items, from, to, parseDate)
  {
    collected := [];
    var i := 0;
    while i < |items|
      invariant 0 <= i <= |items|
      invariant collected + HistoryEvents(symbol, items[i..], from, to, parseDate)
             == HistoryEvents(symbol, items, from, to, parseDate)
    {
      var item := items[i];
      if item.Unreadable? {
        assert HistoryEvents(symbol, items[i..], from, to, parseDate) == [];
        break;
      }
      HistoryEventsStep(symbol, items, from, to, parseDate, i);
      ghost var earlier := collected;
      ghost var row := HistoryRowEvents(symbol, item, from, to, parseDate);
      if item.date != "" {
        var day := parseDate(item.date);
        if day.Some? && from <= day.value <= to {
          collected := collected + [HistoryEvent(symbol, item, day.value)];
        }
      }
      assert collected == earlier + row;
      AppendStep(earlier, row, HistoryEvents(symbol, items[i + 1..], from, to, parseDate));
      i := i + 1;
    }
    assert HistoryEvents(symbol, items[i..], from, to, parseDate) == [];
  }

  /** `get_stock_earnings_history(symbol, from, to)` over the response `data`. */
  method GetStockEarningsHistory(symbol: string, data: Option<seq<HistoryItem>>, from: int, to: int,
                                 parseDate: string -> Option<int>)
    returns (events: seq<EarningsEvent>)
    ensures data.None? ==> events == []
    ensures data.Some? ==>
      events == Sorting.SortDesc(HistoryEvents(symbol, data.value, from, to, parseDate), EventDate)
  {
    if data.None? {
      return [];
    }
    var collected := CollectHistory(symbol, data.value, from, to, parseDate);
    events := Sorting.SortDesc(collected, EventDate);
  }

  /** Every history event lies in [from, to] and belongs to `symbol`. */
  lemma {:induction false} HistoryEventsInRange(symbol: string, items: seq<HistoryItem>, from: int, to: int,
                                                parseDate: string -> Option<int>)
    ensures forall e :: e in HistoryEvents(symbol, items, from, to, parseDate) ==>
      from <= e.date <= to && e.symbol == symbol && e.companyName == symbol
  {
    if items != [] && items[0].HistoryRow? {
      HistoryEventsInRange(symbol, items[1..], from, to, parseDate);
    }
  }

  /** The returned history: the events in range, newest first, equal dates in
      response order. */
  lemma HistorySortedNewestFirst(symbol: string, items: seq<HistoryItem>, from: int, to: int,
                                 parseDate: string -> Option<int>)
    ensures var events := Sorting.SortDesc(HistoryEvents(symbol, items, from, to, parseDate), EventDate);
      && (forall i, j :: 0 <= i < j < |events| ==> events[i].date >= events[j].date)
      && (forall e :: e in events ==> from <= e.date <= to && e.symbol == symbol)
      && multiset(events) == multiset(HistoryEvents(symbol, items, from, to, parseDate))
  {
    var unsorted := HistoryEvents(symbol, items, from, to, parseDate);
    var events := Sorting.SortDesc(unsorted, EventDate);
    HistoryEventsInRange(symbol, items, from, to, parseDate);
    Sorting.SortDescMembers(unsorted, EventDate);
    assert forall i, j :: 0 <= i < j < |events| ==> EventDate(events[i]) >= EventDate(events[j]);
  }
}
