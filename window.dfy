/**
 * The window resolver of BacktestService (`_determine_prices` and
 * `_determine_prices_fallback`): from a sparse bar series and a timing verdict
 * it picks the pair of bars whose closes are compared.
 */
module Window {
  import opened Wrappers
  import opened Schemas
  import Sorting

  /** The bars are indexed by date: every entry sits under its own date. */
  ghost predicate DatesIndexed(m: map<int, PriceBar>)
  {
    forall k :: k in m ==> m[k].date == k
  }

  /** The date -> bar dictionary filled from `bars` in order: a later bar with
      the same date replaces an earlier one. */
  function PriceMap(bars: seq<PriceBar>): (m: map<int, PriceBar>)
    ensures DatesIndexed(m)
    ensures forall k :: k in m ==> m[k] in bars
    ensures forall i :: 0 <= i < |bars| ==> bars[i].date in m
    decreases |bars|
  {
    if bars == [] then map[]
    else
      var last := bars[|bars| - 1];
      var m' := PriceMap(bars[..|bars| - 1]);
      assert forall i :: 0 <= i < |bars| - 1 ==> bars[..|bars| - 1][i] == bars[i];
      m'[last.date := last]
  }

  /** `price_map`: the bars sorted by date, then put into a dictionary. */
  function IndexBars(bars: seq<PriceBar>): (m: map<int, PriceBar>)
    ensures DatesIndexed(m)
    ensures forall k :: k in m ==> m[k] in bars
    ensures forall b :: b in bars ==> b.date in m
  {
    var sorted := Sorting.SortDesc(bars, OldestFirst);
    Sorting.SortDescMembers(bars, OldestFirst);
    assert forall b :: b in bars ==> exists i :: 0 <= i < |sorted| && sorted[i] == b;
    PriceMap(sorted)
  }

  /** The bar at the smallest offset `i`, `i + 1`, ..., 5 before `d`. */
  function ScanBefore(m: map<int, PriceBar>, d: int, i: int): (r: Option<PriceBar>)
    requires DatesIndexed(m)
    requires 1 <= i <= 6
    ensures r.Some? ==> d - 5 <= r.value.date <= d - i && r.value.date in m && m[r.value.date] == r.value
    ensures r.Some? ==> forall day :: r.value.date < day <= d - i ==> day !in m
    ensures r.None? ==> forall day :: d - 5 <= day <= d - i ==> day !in m
    decreases 6 - i
  {
    if i > 5 then None
    else if d - i in m then Some(m[d - i])
    else ScanBefore(m, d, i + 1)
  }

  /** The bar at the smallest offset `i`, `i + 1`, ..., 5 after `d`. */
  function ScanAfter(m: map<int, PriceBar>, d: int, i: int): (r: Option<PriceBar>)
    requires DatesIndexed(m)
    requires 1 <= i <= 6
    ensures r.Some? ==> d + i <= r.value.date <= d + 5 && r.value.date in m && m[r.value.date] == r.value
    ensures r.Some? ==> forall day :: d + i <= day < r.value.date ==> day !in m
    ensures r.None? ==> forall day :: d + i <= day <= d + 5 ==> day !in m
    decreases 6 - i
  {
    if i > 5 then None
    else if d + i in m then Some(m[d + i])
    else ScanAfter(m, d, i + 1)
  }

  function DayOf(m: map<int, PriceBar>, d: int): Option<PriceBar>
  {
    if d in m then Some(m[d]) else None
  }

  /** `day_before_price`: the nearest bar among d-1 .. d-5. */
  function DayBefore(m: map<int, PriceBar>, d: int): Option<PriceBar>
    requires DatesIndexed(m)
  {
    ScanBefore(m, d, 1)
  }

  /** `day_after_price`: the nearest bar among d+1 .. d+5. */
  function DayAfter(m: map<int, PriceBar>, d: int): Option<PriceBar>
    requires DatesIndexed(m)
  {
    ScanAfter(m, d, 1)
  }

  /** The triple (earnings_time, price_before, price_after). */
  datatype PriceWindow = PriceWindow(timing: Option<Timing>, before: Option<PriceBar>, after: Option<PriceBar>)

  const NoWindow := PriceWindow(None, None, None)

  predicate Complete(w: PriceWindow)
  {
    w.before.Some? && w.after.Some?
  }

  /** The decision of `_determine_prices` over the indexed bars. */
  function Resolve(m: map<int, PriceBar>, d: int, timing: Option<Timing>): (w: PriceWindow)
    requires DatesIndexed(m)
    ensures Complete(w) ==> w.before.value.date < w.after.value.date
    ensures w.before.Some? ==> d - 5 <= w.before.value.date <= d && w.before.value in m.Values
    ensures w.after.Some? ==> d <= w.after.value.date <= d + 5 && w.after.value in m.Values
    ensures timing.None? ==> w == NoWindow
    ensures w != NoWindow ==> w.timing == timing && w.after.Some?
  {
    var dayOf := DayOf(m, d);
    var before := DayBefore(m, d);
    var after := DayAfter(m, d);
    if dayOf.None? && after.Some? then
      // the announcement fell on a non-trading day
      if timing.Some? then PriceWindow(timing, before, after) else NoWindow
    else if dayOf.None? || before.None? then NoWindow
    else if timing.None? then NoWindow
    else if timing.value == BMO then PriceWindow(Some(BMO), before, dayOf)
    else if after.Some? then assert timing.value == AMC; PriceWindow(Some(AMC), dayOf, after)
    else NoWindow
  }

  /** `_determine_prices`. */
  function DeterminePrices(d: int, prices: seq<PriceBar>, timing: Option<Timing>): (w: PriceWindow)
    ensures Complete(w) ==> w.before.value.date < w.after.value.date
    ensures w.before.Some? ==> d - 5 <= w.before.value.date <= d && w.before.value in prices
    ensures w.after.Some? ==> d <= w.after.value.date <= d + 5 && w.after.value in prices
    ensures timing.None? ==> w == NoWindow
    ensures w != NoWindow ==> w.timing == timing && w.after.Some?
  {
    Resolve(IndexBars(prices), d, timing)
  }

  /** `_determine_prices_fallback`: same-day (or nearest earlier) close against
      the next trading day's close, without a timing verdict. */
  function DeterminePricesFallback(d: int, prices: seq<PriceBar>): (w: PriceWindow)
    ensures w.timing.None?
    ensures w.before.Some? <==> w.after.Some?
    ensures Complete(w) ==> d - 5 <= w.before.value.date <= d < w.after.value.date <= d + 5
    ensures Complete(w) ==> w.before.value in prices && w.after.value in prices
  {
    ResolveFallback(IndexBars(prices), d)
  }

  function ResolveFallback(m: map<int, PriceBar>, d: int): (w: PriceWindow)
    requires DatesIndexed(m)
    ensures w.timing.None?
    ensures w.before.Some? <==> w.after.Some?
    ensures Complete(w) ==> d - 5 <= w.before.value.date <= d < w.after.value.date <= d + 5
    ensures Complete(w) ==> w.before.value in m.Values && w.after.value in m.Values
  {
    var after := DayAfter(m, d);
    var dayOf := if d in m then Some(m[d]) else DayBefore(m, d);
    if dayOf.Some? && after.Some? then PriceWindow(None, dayOf, after) else NoWindow
  }

  /** `m` indexes exactly the bars of `prices` by date. */
  ghost predicate Indexes(m: map<int, PriceBar>, prices: seq<PriceBar>)
  {
    && DatesIndexed(m)
    && (forall k :: k in m ==> m[k] in prices)
    && (forall b :: b in prices ==> b.date in m)
  }

  lemma IndexBarsIndexes(prices: seq<PriceBar>)
    ensures Indexes(IndexBars(prices), prices)
  {
  }

  /** The nearest-bar facts about an index of `prices`. */
  lemma NearestBars(m: map<int, PriceBar>, prices: seq<PriceBar>, d: int)
    requires Indexes(m, prices)
    ensures DayBefore(m, d).Some? <==> exists b :: b in prices && d - 5 <= b.date < d
    ensures DayBefore(m, d).Some? ==> d - 5 <= DayBefore(m, d).value.date < d
    ensures DayBefore(m, d).Some? ==>
      forall b :: b in prices && d - 5 <= b.date < d ==> b.date <= DayBefore(m, d).value.date
    ensures DayAfter(m, d).Some? <==> exists b :: b in prices && d < b.date <= d + 5
    ensures DayAfter(m, d).Some? ==> d < DayAfter(m, d).value.date <= d + 5
    ensures DayAfter(m, d).Some? ==>
      forall b :: b in prices && d < b.date <= d + 5 ==> DayAfter(m, d).value.date <= b.date
    ensures d in m <==> exists b :: b in prices && b.date == d
  {
    if DayBefore(m, d).Some? {
      assert m[DayBefore(m, d).value.date] in prices;
    }
    if DayAfter(m, d).Some? {
      assert m[DayAfter(m, d).value.date] in prices;
    }
    if d in m {
      assert m[d] in prices;
    }
  }

  lemma ResolveAmc(m: map<int, PriceBar>, d: int)
    requires DatesIndexed(m)
    requires d in m && DayBefore(m, d).Some? && DayAfter(m, d).Some?
    ensures Resolve(m, d, Some(AMC)) == PriceWindow(Some(AMC), Some(m[d]), DayAfter(m, d))
  {
  }

  /** BMO with a bar on the event day and one within the 5 days before it:
      the nearest earlier bar against the event day's bar. */
  lemma BmoWindow(d: int, prices: seq<PriceBar>)
    requires exists b :: b in prices && b.date == d
    requires exists b :: b in prices && d - 5 <= b.date < d
    ensures var w := DeterminePrices(d, prices, Some(BMO));
      && w.timing == Some(BMO) && Complete(w)
      && w.after.value.date == d && d - 5 <= w.before.value.date < d
      && forall b :: b in prices && d - 5 <= b.date < d ==> b.date <= w.before.value.date
  {
    var m := IndexBars(prices);
    IndexBarsIndexes(prices);
    NearestBars(m, prices, d);
    assert DeterminePrices(d, prices, Some(BMO)) == Resolve(m, d, Some(BMO));
  }

  /** AMC with bars on the event day, within the 5 days before and within the
      5 days after it: the event day's bar against the nearest later bar. */
  lemma AmcWindow(d: int, prices: seq<PriceBar>)
    requires exists b :: b in prices && b.date == d
    requires exists b :: b in prices && d - 5 <= b.date < d
    requires exists b :: b in prices && d < b.date <= d + 5
    ensures var w := DeterminePrices(d, prices, Some(AMC));
      && w.timing == Some(AMC) && Complete(w)
      && w.before.value.date == d && d < w.after.value.date <= d + 5
      && forall b :: b in prices && d < b.date <= d + 5 ==> w.after.value.date <= b.date
  {
    var m := IndexBars(prices);
    IndexBarsIndexes(prices);
    NearestBars(m, prices, d);
    ResolveAmc(m, d);
    assert DeterminePrices(d, prices, Some(AMC)) == Resolve(m, d, Some(AMC));
  }

  /** AMC on a trading day with no bar in the 5 days after it: no window. */
  lemma AmcWithoutNextBar(d: int, prices: seq<PriceBar>)
    requires exists b :: b in prices && b.date == d
    requires forall b :: b in prices ==> !(d < b.date <= d + 5)
    ensures DeterminePrices(d, prices, Some(AMC)) == NoWindow
  {
    var m := IndexBars(prices);
    IndexBarsIndexes(prices);
    assert d in m;
    assert DayAfter(m, d).None?;
    assert DeterminePrices(d, prices, Some(AMC)) == Resolve(m, d, Some(AMC));
  }

  /** A trading event day with no bar in the 5 days before it: no window,
      whatever the timing (the prior bar is required for AMC too). */
  lemma NoPriorBarNoWindow(d: int, prices: seq<PriceBar>, timing: Option<Timing>)
    requires exists b :: b in prices && b.date == d
    requires forall b :: b in prices ==> !(d - 5 <= b.date < d)
    ensures DeterminePrices(d, prices, timing) == NoWindow
  {
    var m := IndexBars(prices);
    IndexBarsIndexes(prices);
    assert d in m;
    assert DayBefore(m, d).None?;
    assert DeterminePrices(d, prices, timing) == Resolve(m, d, timing);
  }

  /** An event on a non-trading day with a bar in the 5 days after it: the
      incoming timing label is passed through with the nearest earlier bar
      (which may be absent) and the nearest later bar. */
  lemma NonTradingDayWindow(d: int, prices: seq<PriceBar>, t: Timing)
    requires forall b :: b in prices ==> b.date != d
    requires exists b :: b in prices && d < b.date <= d + 5
    ensures var w := DeterminePrices(d, prices, Some(t));
      && w.timing == Some(t) && w.after.Some? && d < w.after.value.date <= d + 5
      && (forall b :: b in prices && d < b.date <= d + 5 ==> w.after.value.date <= b.date)
      && (w.before.None? <==> forall b :: b in prices ==> !(d - 5 <= b.date < d))
      && (w.before.Some? ==> forall b :: b in prices && d - 5 <= b.date < d ==> b.date <= w.before.value.date)
  {
    var m := IndexBars(prices);
    IndexBarsIndexes(prices);
    var b1 :| b1 in prices && d < b1.date <= d + 5;
    assert b1.date in m;
    assert d !in m;
    assert DeterminePrices(d, prices, Some(t)) == Resolve(m, d, Some(t));
  }

  /** The fallback's choice: the event day's bar, else the nearest bar in the
      5 days before; against the nearest bar in the 5 days after. */
  lemma FallbackChoice(d: int, prices: seq<PriceBar>)
    ensures var w := DeterminePricesFallback(d, prices);
      && (Complete(w) <==>
            (exists b :: b in prices && d - 5 <= b.date <= d)
            && (exists b :: b in prices && d < b.date <= d + 5))
      && (Complete(w) ==>
            && (forall b :: b in prices && d - 5 <= b.date <= d ==> b.date <= w.before.value.date)
            && (forall b :: b in prices && d < b.date <= d + 5 ==> w.after.value.date <= b.date))
  {
    var m := IndexBars(prices);
    IndexBarsIndexes(prices);
    NearestBars(m, prices, d);
    assert DeterminePricesFallback(d, prices) == ResolveFallback(m, d);
    if exists b :: b in prices && d - 5 <= b.date <= d {
      var b :| b in prices && d - 5 <= b.date <= d;
      assert b.date == d || (d - 5 <= b.date < d);
    }
  }
}
