/**
 * BacktestService (backend/app/services/backtest_service.py): the pipelines
 * that turn earnings events into price-reaction records, the Finnhub range
 * clamp and the earnings-time waterfall, and the single-stock backtest.
 *
 * Provider answers are inputs. `Providers.profileOf(s)` is the company
 * profile of `s` (`None` when the lookup fails or finds nothing);
 * `barsFor(k)` is the bar list get_prices_around_earnings returns for the
 * event `k` (empty when it fails); `timingOf(k)` is the earnings-time
 * waterfall's answer for `k`; `round4` is `round(x, 4)`.
 */
module Backtest {
  import opened Wrappers
  import opened Schemas
  import Sorting
  import Window
  import Fmp
  import Finnhub
  import Transcript

  datatype Providers = Providers(
    profileOf: string -> Option<CompanyProfile>,
    barsFor: EventKey -> seq<PriceBar>,
    timingOf: EventKey -> Option<Timing>,
    round4: real -> real)

  // ---------------------------------------------------------------------
  // The large-cap pre-filter and de-duplication

  /** `[e for e in events if e.symbol in caps]`. */
  function LargeCapFilter(events: seq<EarningsEvent>, caps: set<string>): (kept: seq<EarningsEvent>)
    ensures forall e :: e in kept <==> e in events && e.symbol in caps
    ensures forall e :: multiset(kept)[e] == if e.symbol in caps then multiset(events)[e] else 0
    ensures Sorting.Subsequence(kept, events)
  {
    if events == [] then []
    else
      var init := events[..|events| - 1];
      var e := events[|events| - 1];
      var kept := LargeCapFilter(init, caps);
      assert events == init + [e];
      assert multiset(events) == multiset(init) + multiset{e};
      if e.symbol in caps then
        assert (kept + [e])[..|kept|] == kept;
        kept + [e]
      else kept
  }

  /** The pre-filter bypasses itself when the screener returned nothing. */
  function PreFilter(events: seq<EarningsEvent>, caps: set<string>): (kept: seq<EarningsEvent>)
    ensures caps == {} ==> kept == events
    ensures caps != {} ==> forall e :: e in kept <==> e in events && e.symbol in caps
    ensures caps != {} ==> forall e :: multiset(kept)[e] == if e.symbol in caps then multiset(events)[e] else 0
    ensures Sorting.Subsequence(kept, events)
  {
    if caps != {} then LargeCapFilter(events, caps)
    else Sorting.SubsequenceRefl(events); events
  }

  /** The (symbol, date) keys of the events. */
  function KeySet(events: seq<EarningsEvent>): set<EventKey>
  {
    set i | 0 <= i < |events| :: Key(events[i])
  }

  lemma KeySetSnoc(events: seq<EarningsEvent>, i: int)
    requires 0 <= i < |events|
    ensures KeySet(events[..i + 1]) == KeySet(events[..i]) + {Key(events[i])}
    ensures Dedup(events[..i + 1]) ==
      if Key(events[i]) in KeySet(events[..i]) then Dedup(events[..i]) else Dedup(events[..i]) + [events[i]]
  {
    assert events[..i + 1][..i] == events[..i];
    assert events[..i + 1][i] == events[i];
  }

  /** The events with the first occurrence of each (symbol, date) kept, in
      order. */
  function Dedup(events: seq<EarningsEvent>): (unique: seq<EarningsEvent>)
    ensures Sorting.DistinctBy(unique, Key)
    ensures KeySet(unique) == KeySet(events)
    ensures Sorting.Subsequence(unique, events)
  {
    if events == [] then []
    else
      var init := events[..|events| - 1];
      var e := events[|events| - 1];
      var unique := Dedup(init);
      assert events == init + [e];
      assert KeySet(events) == KeySet(init) + {Key(e)};
      if Key(e) in KeySet(init) then unique
      else
        DedupAppend(unique, e);
        unique + [e]
  }

  /** Appending an event with a new key keeps the keys distinct. */
  lemma DedupAppend(unique: seq<EarningsEvent>, e: EarningsEvent)
    requires Sorting.DistinctBy(unique, Key) && Key(e) !in KeySet(unique)
    ensures Sorting.DistinctBy(unique + [e], Key)
    ensures KeySet(unique + [e]) == KeySet(unique) + {Key(e)}
    ensures (unique + [e])[..|unique|] == unique
  {
    var t := unique + [e];
    assert forall i :: 0 <= i < |unique| ==> t[i] == unique[i];
    assert forall i :: 0 <= i < |unique| ==> Key(t[i]) in KeySet(unique);
    assert Key(t[|unique|]) == Key(e);
  }

  /** The first event with a given key survives de-duplication. */
  lemma {:induction false} DedupKeepsFirst(events: seq<EarningsEvent>, i: int)
    requires 0 <= i < |events|
    requires forall j :: 0 <= j < i ==> Key(events[j]) != Key(events[i])
    ensures events[i] in Dedup(events)
  {
    var n := |events| - 1;
    var init := events[..n];
    assert events == init + [events[n]];
    if i < n {
      assert init[i] == events[i];
      DedupKeepsFirst(init, i);
    } else {
      assert Key(events[i]) !in KeySet(init);
    }
  }

  /** Only first occurrences survive: every kept event is the first with its
      key. */
  lemma {:induction false} DedupOnlyFirst(events: seq<EarningsEvent>, x: EarningsEvent)
    requires x in Dedup(events)
    ensures exists i :: 0 <= i < |events| && events[i] == x
                     && forall j :: 0 <= j < i ==> Key(events[j]) != Key(x)
  {
    var n := |events| - 1;
    var init := events[..n];
    assert events == init + [events[n]];
    if x in Dedup(init) {
      DedupOnlyFirst(init, x);
      var i :| 0 <= i < |init| && init[i] == x && forall j :: 0 <= j < i ==> Key(init[j]) != Key(x);
      assert events[i] == x && forall j :: 0 <= j < i ==> events[j] == init[j];
    } else {
      assert x == events[n];
      assert Key(x) !in KeySet(init);
    }
  }

  // ---------------------------------------------------------------------
  // One event's reaction

  datatype Step = Skip | Emit(record: BacktestResult) | Crash

  /** What a pipeline does after the window: the screen keeps known timings,
      the profile's market cap and the threshold; the history search uses
      the fallback window and keeps every change. */
  datatype Mode =
    | Screen(minCap: real, threshold: real)
    | History(profile: CompanyProfile)

  function Abs(x: real): real
  {
    if x < 0.0 then -x else x
  }

  /** The relative change from the close before to the close after. */
  function Change(before: PriceBar, after: PriceBar): real
    requires before.close != 0.0
  {
    (after.close - before.close) / before.close
  }

  function Record(e: EarningsEvent, profile: CompanyProfile, w: Window.PriceWindow, round4: real -> real): BacktestResult
    requires Window.Complete(w) && w.before.value.close != 0.0
  {
    BacktestResult(e.symbol, profile.companyName, profile.marketCap, e.date, w.timing,
                   w.before.value.close, w.after.value.close,
                   round4(Change(w.before.value, w.after.value)),
                   w.before.value.date, w.after.value.date)
  }

  /** The window a pipeline uses for event `e`. */
  function WindowFor(mode: Mode, e: EarningsEvent, prices: seq<PriceBar>, p: Providers): Window.PriceWindow
  {
    var w := Window.DeterminePrices(e.date, prices, p.timingOf(Key(e)));
    if mode.History? && !Window.Complete(w) then Window.DeterminePricesFallback(e.date, prices) else w
  }

  /** The body of the per-event loop of run_backtest (Screen) or
      search_stock_earnings (History). */
  function EventStep(mode: Mode, e: EarningsEvent, p: Providers): Step
  {
    var profile := if mode.Screen? then p.profileOf(e.symbol) else Some(mode.profile);
    if profile.None? || (mode.Screen? && profile.value.marketCap < mode.minCap) then Skip
    else
      var prices := p.barsFor(Key(e));
      if |prices| < 2 then Skip
      else
        var w := WindowFor(mode, e, prices, p);
        if !Window.Complete(w) then Skip
        else if w.before.value.close == 0.0 then Crash
        else if mode.Screen? && Abs(Change(w.before.value, w.after.value)) < mode.threshold then Skip
        else Emit(Record(e, profile.value, w, p.round4))
  }

  /** What every emitted record satisfies, whatever the pipeline. */
  ghost predicate Reaction(x: BacktestResult, p: Providers)
  {
    && x.dateBefore < x.dateAfter
    && x.earningsDate - 5 <= x.dateBefore <= x.earningsDate <= x.dateAfter <= x.earningsDate + 5
    && x.priceBefore != 0.0
    && x.priceChangePct == p.round4((x.priceAfter - x.priceBefore) / x.priceBefore)
    && (exists b :: b in p.barsFor(ResultKey(x)) && b.date == x.dateBefore && b.close == x.priceBefore)
    && (exists b :: b in p.barsFor(ResultKey(x)) && b.date == x.dateAfter && b.close == x.priceAfter)
  }

  /** What a record of the screen satisfies beyond `Reaction`. */
  ghost predicate Significant(x: BacktestResult, p: Providers, minCap: real, threshold: real)
  {
    && p.profileOf(x.symbol).Some?
    && x.companyName == p.profileOf(x.symbol).value.companyName
    && x.marketCap == p.profileOf(x.symbol).value.marketCap
    && x.marketCap >= minCap
    && x.priceBefore != 0.0 && Abs((x.priceAfter - x.priceBefore) / x.priceBefore) >= threshold
    && x.earningsTime.Some? && x.earningsTime == p.timingOf(ResultKey(x))
  }

  /** What the chosen window guarantees. */
  lemma WindowForFacts(mode: Mode, e: EarningsEvent, prices: seq<PriceBar>, p: Providers)
    ensures var w := WindowFor(mode, e, prices, p);
      Window.Complete(w) ==>
        && w.before.value.date < w.after.value.date
        && e.date - 5 <= w.before.value.date <= e.date <= w.after.value.date <= e.date + 5
        && w.before.value in prices && w.after.value in prices
        && (w.timing.Some? ==> w.timing == p.timingOf(Key(e)))
        && (mode.Screen? ==> w.timing.Some?)
  {
    var w := Window.DeterminePrices(e.date, prices, p.timingOf(Key(e)));
    if Window.Complete(w) {
      assert w != Window.NoWindow;
    }
  }

  /** A record built from a sound window satisfies `Reaction`. */
  lemma RecordReaction(e: EarningsEvent, profile: CompanyProfile, w: Window.PriceWindow, p: Providers)
    requires Window.Complete(w) && w.before.value.close != 0.0
    requires w.before.value.date < w.after.value.date
    requires e.date - 5 <= w.before.value.date <= e.date <= w.after.value.date <= e.date + 5
    requires w.before.value in p.barsFor(Key(e)) && w.after.value in p.barsFor(Key(e))
    ensures Reaction(Record(e, profile, w, p.round4), p)
  {
    var x := Record(e, profile, w, p.round4);
    assert ResultKey(x) == Key(e);
    assert x.priceChangePct == p.round4((x.priceAfter - x.priceBefore) / x.priceBefore);
    assert w.before.value in p.barsFor(ResultKey(x)) && w.before.value.date == x.dateBefore;
    assert w.after.value in p.barsFor(ResultKey(x)) && w.after.value.date == x.dateAfter;
  }

  /** A record of the screen that passed its tests satisfies `Significant`. */
  lemma RecordSignificant(e: EarningsEvent, w: Window.PriceWindow, p: Providers, minCap: real, threshold: real)
    requires p.profileOf(e.symbol).Some?
    requires Window.Complete(w) && w.before.value.close != 0.0
    requires p.profileOf(e.symbol).value.marketCap >= minCap
    requires Abs(Change(w.before.value, w.after.value)) >= threshold
    requires w.timing.Some? && w.timing == p.timingOf(Key(e))
    ensures Significant(Record(e, p.profileOf(e.symbol).value, w, p.round4), p, minCap, threshold)
  {
    var x := Record(e, p.profileOf(e.symbol).value, w, p.round4);
    assert ResultKey(x) == Key(e) && x.symbol == e.symbol;
    assert (x.priceAfter - x.priceBefore) / x.priceBefore == Change(w.before.value, w.after.value);
  }

  /** The facts about one emitted record. */
  lemma EmitFacts(mode: Mode, e: EarningsEvent, p: Providers)
    requires EventStep(mode, e, p).Emit?
    ensures var x := EventStep(mode, e, p).record;
      && ResultKey(x) == Key(e) && x.symbol == e.symbol
      && Reaction(x, p)
      && (mode.Screen? ==> Significant(x, p, mode.minCap, mode.threshold))
      && (mode.History? ==> x.companyName == mode.profile.companyName && x.marketCap == mode.profile.marketCap)
      && (x.earningsTime.Some? ==> x.earningsTime == p.timingOf(ResultKey(x)))
  {
    var prices := p.barsFor(Key(e));
    var w := WindowFor(mode, e, prices, p);
    WindowForFacts(mode, e, prices, p);
    var profile := if mode.Screen? then p.profileOf(e.symbol) else Some(mode.profile);
    var x := Record(e, profile.value, w, p.round4);
    assert EventStep(mode, e, p) == Emit(x);
    RecordReaction(e, profile.value, w, p);
    if mode.Screen? {
      RecordSignificant(e, w, p, mode.minCap, mode.threshold);
    }
  }

  /** An emitted record carries its event's key. */
  lemma EmitKey(mode: Mode, e: EarningsEvent, p: Providers)
    ensures EventStep(mode, e, p).Emit? ==> ResultKey(EventStep(mode, e, p).record) == Key(e)
  {
  }

  /** `[f(x) for x in s]`. */
  function Map<A, B>(s: seq<A>, f: A -> B): (r: seq<B>)
    ensures |r| == |s|
    ensures forall i :: 0 <= i < |s| ==> r[i] == f(s[i])
  {
    seq(|s|, i requires 0 <= i < |s| => f(s[i]))
  }

  lemma MapSnoc<A, B>(s: seq<A>, f: A -> B, i: int)
    requires 0 <= i < |s|
    ensures Map(s[..i + 1], f) == Map(s[..i], f) + [f(s[i])]
  {
    assert s[..i + 1][i] == s[i];
  }

  /** The step of each event, in order. */
  function Steps(mode: Mode, events: seq<EarningsEvent>, p: Providers): seq<Step>
  {
    Map(events, e => EventStep(mode, e, p))
  }

  lemma StepsSnoc(mode: Mode, events: seq<EarningsEvent>, p: Providers, i: int)
    requires 0 <= i < |events|
    ensures Steps(mode, events[..i + 1], p) == Steps(mode, events[..i], p) + [EventStep(mode, events[i], p)]
  {
    MapSnoc(events, e => EventStep(mode, e, p), i);
  }

  /** The records of the steps in order; a crash aborts the whole run. */
  function Gather(steps: seq<Step>): Outcome<seq<BacktestResult>>
  {
    if steps == [] then Done([])
    else
      var before := Gather(steps[..|steps| - 1]);
      if before.DivisionByZero? then DivisionByZero
      else
        match steps[|steps| - 1]
        case Skip => before
        case Emit(x) => Done(before.value + [x])
        case Crash => DivisionByZero
  }

  /** Gathering one more step. */
  lemma GatherSnoc(steps: seq<Step>, step: Step)
    ensures Gather(steps + [step]) ==
      if Gather(steps).DivisionByZero? || step.Crash? then DivisionByZero
      else if step.Emit? then Done(Gather(steps).value + [step.record])
      else Gather(steps)
  {
    assert (steps + [step])[..|steps|] == steps;
  }

  /** The records of the per-event loop of a pipeline over `events`. */
  function Collect(mode: Mode, events: seq<EarningsEvent>, p: Providers): Outcome<seq<BacktestResult>>
  {
    Gather(Steps(mode, events, p))
  }

  /** Every gathered record was emitted by some step. */
  lemma {:induction false} GatherSound(steps: seq<Step>)
    ensures Gather(steps).Done? ==>
      forall x :: x in Gather(steps).value ==> exists i :: 0 <= i < |steps| && steps[i] == Emit(x)
  {
    if steps != [] {
      var init := steps[..|steps| - 1];
      GatherSound(init);
      assert forall i :: 0 <= i < |init| ==> init[i] == steps[i];
    }
  }

  /** Every emitted record is gathered, unless the run aborts. */
  lemma {:induction false} GatherComplete(steps: seq<Step>, i: int)
    requires 0 <= i < |steps| && steps[i].Emit?
    requires Gather(steps).Done?
    ensures steps[i].record in Gather(steps).value
  {
    var init := steps[..|steps| - 1];
    if i < |steps| - 1 {
      assert init[i] == steps[i];
      GatherComplete(init, i);
    }
  }

  /** The run aborts exactly when some step crashes. */
  lemma {:induction false} GatherCrash(steps: seq<Step>)
    ensures Gather(steps).DivisionByZero? <==> exists i :: 0 <= i < |steps| && steps[i].Crash?
  {
    if steps != [] {
      var init := steps[..|steps| - 1];
      GatherCrash(init);
      assert forall i :: 0 <= i < |init| ==> init[i] == steps[i];
    }
  }

  /** The gathered records in step order: record `k` comes from an earlier
      step than record `k + 1`. Used for distinct keys. */
  lemma {:induction false} GatherDistinct(steps: seq<Step>, keys: seq<EventKey>)
    requires |keys| == |steps|
    requires forall i, j :: 0 <= i < j < |keys| ==> keys[i] != keys[j]
    requires forall i :: 0 <= i < |steps| && steps[i].Emit? ==> ResultKey(steps[i].record) == keys[i]
    ensures Gather(steps).Done? ==>
      && Sorting.DistinctBy(Gather(steps).value, ResultKey)
      && forall x :: x in Gather(steps).value ==> ResultKey(x) in keys
  {
    if steps != [] {
      var n := |steps| - 1;
      GatherDistinct(steps[..n], keys[..n]);
      assert forall x :: x in keys[..n] ==> x != keys[n];
    }
  }

  function AbsChange(r: BacktestResult): real
  {
    Abs(r.priceChangePct)
  }

  // ---------------------------------------------------------------------
  // run_backtest

  /** The outcome of `run_backtest` on the calendar `events` and the screener
      set `caps`. */
  function BacktestSpec(events: seq<EarningsEvent>, caps: set<string>, p: Providers,
                        minCap: real, threshold: real): Outcome<seq<BacktestResult>>
  {
    if events == [] then Done([])
    else
      match Collect(Screen(minCap, threshold), Dedup(PreFilter(events, caps)), p)
      case DivisionByZero => DivisionByZero
      case Done(records) => Done(Sorting.SortDesc(records, AbsChange))
  }

  /** `list(set(symbols))`, in some order. */
  method SetToSeq(symbols: set<string>) returns (s: seq<string>)
    ensures forall x :: x in s <==> x in symbols
  {
    s := [];
    var rest := symbols;
    while rest != {}
      invariant forall x :: x in symbols <==> x in s || x in rest
      invariant forall x :: x in s ==> x in symbols
      decreases |rest|
    {
      var x :| x in rest;
      s := s + [x];
      rest := rest - {x};
    }
  }

  /** The de-duplication loop of run_backtest, with its set of seen keys. */
  method DedupEvents(filtered: seq<EarningsEvent>) returns (unique: seq<EarningsEvent>)
    ensures unique == Dedup(filtered)
  {
    var seen: set<EventKey> := {};
    unique := [];
    for i := 0 to |filtered|
      invariant seen == KeySet(filtered[..i])
      invariant unique == Dedup(filtered[..i])
    {
      var e := filtered[i];
      KeySetSnoc(filtered, i);
      if Key(e) !in seen {
        seen := seen + {Key(e)};
        unique := unique + [e];
      }
    }
    assert filtered[..|filtered|] == filtered;
  }

  /** One pass of run_backtest's per-event loop: `Skip` for `continue`,
      `Emit` for an appended record, `Crash` for the ZeroDivisionError. */
  method ScreenEvent(event: EarningsEvent, profile: Option<CompanyProfile>, p: Providers,
                     minCap: real, threshold: real)
    returns (step: Step)
    requires profile == p.profileOf(event.symbol)
    ensures step == EventStep(Screen(minCap, threshold), event, p)
  {
    if profile.None? || profile.value.marketCap < minCap {
      return Skip;
    }
    var prices := p.barsFor(Key(event));
    if |prices| < 2 {
      return Skip;
    }
    var w := Window.DeterminePrices(event.date, prices, p.timingOf(Key(event)));
    assert w == WindowFor(Screen(minCap, threshold), event, prices, p);
    if w.before.None? || w.after.None? {
      return Skip;
    }
    if w.before.value.close == 0.0 {
      return Crash;
    }
    var change := Change(w.before.value, w.after.value);
    if Abs(change) < threshold {
      return Skip;
    }
    step := Emit(Record(event, profile.value, w, p.round4));
  }

  method RunBacktest(events: seq<EarningsEvent>, caps: set<string>, p: Providers,
                     minCap: real, threshold: real)
    returns (r: Outcome<seq<BacktestResult>>)
    ensures r == BacktestSpec(events, caps, p, minCap, threshold)
  {
    if |events| == 0 {
      return Done([]);
    }
    var filtered := PreFilter(events, caps);
    var unique := DedupEvents(filtered);
    var symbols := SetToSeq(set e | e in unique :: e.symbol);
    var profiles := Fmp.BatchGetProfiles(symbols, p.profileOf);
    var mode := Screen(minCap, threshold);
    var records: seq<BacktestResult> := [];
    for i := 0 to |unique|
      invariant Gather(Steps(mode, unique[..i], p)) == Done(records)
    {
      var event := unique[i];
      var profile := if event.symbol in profiles then Some(profiles[event.symbol]) else None;
      assert event.symbol in symbols;
      var step := ScreenEvent(event, profile, p, minCap, threshold);
      StepsSnoc(mode, unique, p, i);
      GatherSnoc(Steps(mode, unique[..i], p), step);
      match step
      case Skip =>
      case Crash =>
        GatherCrash(Steps(mode, unique, p));
        return DivisionByZero;
      case Emit(x) =>
        records := records + [x];
    }
    assert unique[..|unique|] == unique;
    r := Done(Sorting.SortDesc(records, AbsChange));
  }

  /** Every record of a completed run: its event was on the calendar (and
      on the screener when that answered), its company is large enough, its
      change is significant, its timing is known, and its window is sound. */
  lemma BacktestRecords(events: seq<EarningsEvent>, caps: set<string>, p: Providers,
                        minCap: real, threshold: real)
    requires BacktestSpec(events, caps, p, minCap, threshold).Done?
    ensures forall x :: x in BacktestSpec(events, caps, p, minCap, threshold).value ==>
      && Reaction(x, p) && Significant(x, p, minCap, threshold)
      && (exists e :: e in events && Key(e) == ResultKey(x))
      && (caps != {} ==> x.symbol in caps)
  {
    if events != [] {
      var mode := Screen(minCap, threshold);
      var filtered := PreFilter(events, caps);
      var unique := Dedup(filtered);
      var steps := Steps(mode, unique, p);
      var records := Gather(steps).value;
      GatherSound(steps);
      Sorting.SortDescMembers(records, AbsChange);
      Sorting.SubsequenceMembers(unique, filtered);
      Sorting.SubsequenceMembers(filtered, events);
      forall x | x in Sorting.SortDesc(records, AbsChange)
        ensures Reaction(x, p) && Significant(x, p, minCap, threshold)
        ensures (exists e :: e in events && Key(e) == ResultKey(x)) && (caps != {} ==> x.symbol in caps)
      {
        var i :| 0 <= i < |steps| && steps[i] == Emit(x);
        EmitFacts(mode, unique[i], p);
        assert unique[i] in filtered && unique[i] in events && Key(unique[i]) == ResultKey(x);
      }
    }
  }

  /** The records of a completed per-event loop carry distinct keys. */
  lemma CollectDistinct(mode: Mode, events: seq<EarningsEvent>, p: Providers)
    requires Sorting.DistinctBy(events, Key)
    ensures Collect(mode, events, p).Done? ==> Sorting.DistinctBy(Collect(mode, events, p).value, ResultKey)
  {
    var steps := Steps(mode, events, p);
    var keys := seq(|events|, i requires 0 <= i < |events| => Key(events[i]));
    forall i | 0 <= i < |steps| && steps[i].Emit?
      ensures ResultKey(steps[i].record) == keys[i]
    {
      EmitKey(mode, events[i], p);
    }
    GatherDistinct(steps, keys);
  }

  /** A completed run lists each (symbol, date) at most once, largest
      |change| first, and records with equal |change| in the order their
      events were processed. */
  lemma BacktestOrder(events: seq<EarningsEvent>, caps: set<string>, p: Providers,
                      minCap: real, threshold: real, k: real)
    requires BacktestSpec(events, caps, p, minCap, threshold).Done?
    ensures var out := BacktestSpec(events, caps, p, minCap, threshold).value;
      && Sorting.DistinctBy(out, ResultKey)
      && (forall i, j :: 0 <= i < j < |out| ==> AbsChange(out[i]) >= AbsChange(out[j]))
      && (events != [] ==>
            Sorting.KeyFilter(out, AbsChange, k)
            == Sorting.KeyFilter(Collect(Screen(minCap, threshold), Dedup(PreFilter(events, caps)), p).value, AbsChange, k))
  {
    if events != [] {
      var mode := Screen(minCap, threshold);
      var unique := Dedup(PreFilter(events, caps));
      var records := Collect(mode, unique, p).value;
      CollectDistinct(mode, unique, p);
      Sorting.SortDescDistinct(records, AbsChange, ResultKey);
      Sorting.SortDescStable(records, AbsChange, k);
    }
  }

  /** A run aborts exactly when an event that passes the filters meets a zero
      close before its change can be computed. */
  lemma BacktestAborts(events: seq<EarningsEvent>, caps: set<string>, p: Providers,
                       minCap: real, threshold: real)
    ensures BacktestSpec(events, caps, p, minCap, threshold).DivisionByZero? <==>
      var unique := Dedup(PreFilter(events, caps));
      events != [] && exists i :: 0 <= i < |unique| && EventStep(Screen(minCap, threshold), unique[i], p).Crash?
  {
    var unique := Dedup(PreFilter(events, caps));
    var steps := Steps(Screen(minCap, threshold), unique, p);
    GatherCrash(steps);
    if events != [] {
      assert BacktestSpec(events, caps, p, minCap, threshold).DivisionByZero? <==> Gather(steps).DivisionByZero?;
    }
  }

  /** No significant reaction is lost: an event that survives the filters and
      emits a record is in the output of a completed run. */
  lemma BacktestComplete(events: seq<EarningsEvent>, caps: set<string>, p: Providers,
                         minCap: real, threshold: real, i: int)
    requires var unique := Dedup(PreFilter(events, caps));
      0 <= i < |unique| && EventStep(Screen(minCap, threshold), unique[i], p).Emit?
    requires BacktestSpec(events, caps, p, minCap, threshold).Done?
    ensures EventStep(Screen(minCap, threshold), Dedup(PreFilter(events, caps))[i], p).record
            in BacktestSpec(events, caps, p, minCap, threshold).value
  {
    var mode := Screen(minCap, threshold);
    var unique := Dedup(PreFilter(events, caps));
    assert events != [];
    GatherComplete(Steps(mode, unique, p), i);
    Sorting.SortDescMembers(Collect(mode, unique, p).value, AbsChange);
  }

  // ---------------------------------------------------------------------
  // search_stock_earnings

  function NewestEarningsFirst(r: BacktestResult): real
  {
    r.earningsDate as real
  }

  /** The outcome of `search_stock_earnings` for a symbol with `profile` and
      the history `events` of get_stock_earnings_history. */
  function SearchSpec(profile: Option<CompanyProfile>, events: seq<EarningsEvent>, p: Providers): Outcome<seq<BacktestResult>>
  {
    if profile.None? || events == [] then Done([])
    else
      match Collect(History(profile.value), events, p)
      case DivisionByZero => DivisionByZero
      case Done(records) => Done(Sorting.SortDesc(records, NewestEarningsFirst))
  }

  /** One pass of search_stock_earnings' per-event loop. */
  method HistoryEvent(event: EarningsEvent, profile: CompanyProfile, p: Providers)
    returns (step: Step)
    ensures step == EventStep(History(profile), event, p)
  {
    var prices := p.barsFor(Key(event));
    if |prices| < 2 {
      return Skip;
    }
    ghost var mode := History(profile);
    var w := Window.DeterminePrices(event.date, prices, p.timingOf(Key(event)));
    if w.before.None? || w.after.None? {
      w := Window.DeterminePricesFallback(event.date, prices);
    }
    assert w == WindowFor(mode, event, prices, p);
    ghost var profileOf := if mode.Screen? then p.profileOf(event.symbol) else Some(mode.profile);
    assert profileOf == Some(profile);
    if w.before.None? || w.after.None? {
      return Skip;
    }
    if w.before.value.close == 0.0 {
      return Crash;
    }
    step := Emit(Record(event, profile, w, p.round4));
  }

  method SearchStockEarnings(profile: Option<CompanyProfile>, events: seq<EarningsEvent>, p: Providers)
    returns (r: Outcome<seq<BacktestResult>>)
    ensures r == SearchSpec(profile, events, p)
  {
    if profile.None? || |events| == 0 {
      return Done([]);
    }
    var mode := History(profile.value);
    var records: seq<BacktestResult> := [];
    for i := 0 to |events|
      invariant Gather(Steps(mode, events[..i], p)) == Done(records)
    {
      var step := HistoryEvent(events[i], profile.value, p);
      StepsSnoc(mode, events, p, i);
      GatherSnoc(Steps(mode, events[..i], p), step);
      match step
      case Skip =>
      case Crash =>
        GatherCrash(Steps(mode, events, p));
        return DivisionByZero;
      case Emit(x) =>
        records := records + [x];
    }
    assert events[..|events|] == events;
    r := Done(Sorting.SortDesc(records, NewestEarningsFirst));
  }

  /** Every record of a completed search carries the searched company, a
      sound window, and a timing only when the waterfall gave one; the list
      is newest first. */
  lemma SearchRecords(profile: Option<CompanyProfile>, events: seq<EarningsEvent>, p: Providers)
    requires SearchSpec(profile, events, p).Done?
    ensures var out := SearchSpec(profile, events, p).value;
      && (forall x :: x in out ==>
            && Reaction(x, p)
            && x.companyName == profile.value.companyName && x.marketCap == profile.value.marketCap
            && (exists e :: e in events && Key(e) == ResultKey(x))
            && (x.earningsTime.Some? ==> x.earningsTime == p.timingOf(ResultKey(x))))
      && (forall i, j :: 0 <= i < j < |out| ==> out[i].earningsDate >= out[j].earningsDate)
  {
    if profile.Some? && events != [] {
      var mode := History(profile.value);
      var steps := Steps(mode, events, p);
      var records := Gather(steps).value;
      GatherSound(steps);
      Sorting.SortDescMembers(records, NewestEarningsFirst);
      var out := Sorting.SortDesc(records, NewestEarningsFirst);
      forall x | x in out
        ensures Reaction(x, p)
        ensures x.companyName == profile.value.companyName && x.marketCap == profile.value.marketCap
        ensures exists e :: e in events && Key(e) == ResultKey(x)
        ensures x.earningsTime.Some? ==> x.earningsTime == p.timingOf(ResultKey(x))
      {
        var i :| 0 <= i < |steps| && steps[i] == Emit(x);
        EmitFacts(mode, events[i], p);
        assert events[i] in events && Key(events[i]) == ResultKey(x);
      }
      assert Sorting.SortedDesc(out, NewestEarningsFirst);
      forall i, j | 0 <= i < j < |out| ensures out[i].earningsDate >= out[j].earningsDate {
        assert NewestEarningsFirst(out[i]) >= NewestEarningsFirst(out[j]);
      }
    }
  }

  /** No past quarter with a usable window is lost: an event of the history
      that emits a record is in the output of a completed search, the output
      is a reordering of the gathered records, and records of the same date
      keep the order of the history. */
  lemma SearchComplete(profile: Option<CompanyProfile>, events: seq<EarningsEvent>, p: Providers,
                       i: int, k: real)
    requires profile.Some? && 0 <= i < |events| && EventStep(History(profile.value), events[i], p).Emit?
    requires SearchSpec(profile, events, p).Done?
    ensures var out := SearchSpec(profile, events, p).value;
      var records := Collect(History(profile.value), events, p).value;
      && EventStep(History(profile.value), events[i], p).record in out
      && multiset(out) == multiset(records)
      && Sorting.KeyFilter(out, NewestEarningsFirst, k) == Sorting.KeyFilter(records, NewestEarningsFirst, k)
  {
    var mode := History(profile.value);
    var records := Collect(mode, events, p).value;
    assert Steps(mode, events, p)[i] == EventStep(mode, events[i], p);
    GatherComplete(Steps(mode, events, p), i);
    Sorting.SortDescMembers(records, NewestEarningsFirst);
    Sorting.SortDescStable(records, NewestEarningsFirst, k);
  }

  /** An undecided timing is replaced by the fallback window, so the search
      keeps an event whenever the bars around it allow any pair. */
  lemma SearchFallsBack(profile: CompanyProfile, e: EarningsEvent, p: Providers)
    requires |p.barsFor(Key(e))| >= 2
    requires p.timingOf(Key(e)).None?
    ensures EventStep(History(profile), e, p) ==
      var w := Window.DeterminePricesFallback(e.date, p.barsFor(Key(e)));
      if !Window.Complete(w) then Skip
      else if w.before.value.close == 0.0 then Crash
      else Emit(Record(e, profile, w, p.round4))
  {
  }

  // ---------------------------------------------------------------------
  // The Finnhub range and the earnings-time waterfall

  /** How far back the Finnhub calendar is worth asking. */
  const FinnhubLookbackDays: int := 30

  /** `_get_finnhub_earnings_times`' range: [start, end] clamped to
      [today-30, today], `None` when nothing is left. */
  function FinnhubQueryRange(start: int, end: int, today: int): (range: Option<(int, int)>)
    ensures range.Some? ==> range.value.0 <= range.value.1
  {
    var queryStart := if start > today - FinnhubLookbackDays then start else today - FinnhubLookbackDays;
    var queryEnd := if end < today then end else today;
    if queryStart > queryEnd then None else Some((queryStart, queryEnd))
  }

  /** The clamped range holds exactly the days of [start, end] that are at
      most 30 days before today and not after it. */
  lemma FinnhubQueryRangeExact(start: int, end: int, today: int, d: int)
    ensures var range := FinnhubQueryRange(start, end, today);
      (range.Some? && range.value.0 <= d <= range.value.1)
      <==> (start <= d <= end && today - FinnhubLookbackDays <= d <= today)
  {
  }

  method GetFinnhubEarningsTimes(fh: Finnhub.FinnhubService, start: int, end: int, today: int,
                                 calendar: (int, int) -> seq<Finnhub.HourRow>)
    returns (times: map<EventKey, Timing>)
    modifies fh
    ensures FinnhubQueryRange(start, end, today).None? ==>
      times == map[] && fh.cache == old(fh.cache) && fh.Queries == old(fh.Queries)
    ensures FinnhubQueryRange(start, end, today).Some? ==>
      var range := FinnhubQueryRange(start, end, today).value;
      && times == Finnhub.BatchEntries(calendar(range.0, range.1), map[])
      && fh.cache == old(fh.cache) + Finnhub.Known(times)
      && fh.Queries == old(fh.Queries) + [range]
  {
    var range := FinnhubQueryRange(start, end, today);
    if range.None? {
      return map[];
    }
    times := fh.BatchGetEarningsTime(range.value.0, range.value.1, today, calendar);
  }

  /** The answer of `_get_earnings_time` for (symbol, d): the bulk map, then
      one Finnhub lookup for events at most 30 days old (answered from the
      service's memo `memo` when it holds the key), then the transcripts. */
  function EarningsTimeSpec(symbol: string, d: int, bulk: map<EventKey, Timing>,
                            memo: map<EventKey, Option<Timing>>, today: int,
                            calendar: (int, int) -> seq<Finnhub.HourRow>,
                            transcript: (int, int) -> Option<string>): Option<Timing>
  {
    if (symbol, d) in bulk then Some(bulk[(symbol, d)])
    else
      var single :=
        if today - d > FinnhubLookbackDays then None
        else if (symbol, d) in memo then memo[(symbol, d)]
        else Finnhub.LookupCalendar(calendar(d - 1, d + 1), symbol, d);
      if single.Some? then single else Transcript.TranscriptTime(d, transcript)
  }

  /** The waterfall is undecided only when every source is: no bulk entry,
      no single answer, and no transcript that decides. */
  lemma EarningsTimeUndecided(symbol: string, d: int, bulk: map<EventKey, Timing>,
                              memo: map<EventKey, Option<Timing>>, today: int,
                              calendar: (int, int) -> seq<Finnhub.HourRow>,
                              transcript: (int, int) -> Option<string>)
    ensures EarningsTimeSpec(symbol, d, bulk, memo, today, calendar, transcript).None? <==>
      && (symbol, d) !in bulk
      && (today - d <= FinnhubLookbackDays && (symbol, d) in memo ==> memo[(symbol, d)].None?)
      && (today - d <= FinnhubLookbackDays && (symbol, d) !in memo ==>
            Finnhub.LookupCalendar(calendar(d - 1, d + 1), symbol, d).None?)
      && Transcript.TranscriptTime(d, transcript).None?
  {
  }

  /** Events older than 30 days that the bulk map lacks are decided by the
      transcripts alone. */
  lemma EarningsTimeOldEvents(symbol: string, d: int, bulk: map<EventKey, Timing>,
                              memo: map<EventKey, Option<Timing>>, today: int,
                              calendar: (int, int) -> seq<Finnhub.HourRow>,
                              transcript: (int, int) -> Option<string>)
    requires (symbol, d) !in bulk && today - d > FinnhubLookbackDays
    ensures EarningsTimeSpec(symbol, d, bulk, memo, today, calendar, transcript)
         == Transcript.TranscriptTime(d, transcript)
  {
  }

  /** `_get_earnings_time`. `transcript(year, quarter)` is the transcript
      content for `symbol`. */
  method GetEarningsTime(fh: Finnhub.FinnhubService, symbol: string, d: int, bulk: map<EventKey, Timing>,
                         today: int, calendar: (int, int) -> seq<Finnhub.HourRow>,
                         transcript: (int, int) -> Option<string>)
    returns (t: Option<Timing>)
    modifies fh
    ensures t == EarningsTimeSpec(symbol, d, bulk, old(fh.cache), today, calendar, transcript)
    ensures ((symbol, d) in bulk || today - d > FinnhubLookbackDays) ==>
      fh.cache == old(fh.cache) && fh.Queries == old(fh.Queries)
    ensures (symbol, d) !in bulk && today - d <= FinnhubLookbackDays ==> (symbol, d) in fh.cache
  {
    if (symbol, d) in bulk {
      return Some(bulk[(symbol, d)]);
    }
    if today - d <= FinnhubLookbackDays {
      var single := fh.GetEarningsTime(symbol, d, today, calendar);
      if single.Some? {
        return single;
      }
    }
    t := Transcript.GetEarningsTimeFromTranscript(d, transcript);
  }

  // ---------------------------------------------------------------------
  // get_single_stock_backtest

  /** `get_single_stock_backtest` as written: the bar before from the
      response `barsBefore` for [d-5, d], the bar after from the response
      `barsAfter` for [d-4, d+6]. */
  function SingleStockBacktest(symbol: string, d: int, profile: Option<CompanyProfile>,
                               barsBefore: seq<PriceBar>, barsAfter: seq<PriceBar>,
                               round4: real -> real): Outcome<Option<BacktestResult>>
  {
    SingleStockRecord(symbol, d, profile, Fmp.PriceBeforeEarnings(barsBefore, d),
                      Fmp.NextTradingDayPrice(barsAfter, d), round4)
  }

  /** The single-stock record for a chosen pair of bars. */
  function SingleStockRecord(symbol: string, d: int, profile: Option<CompanyProfile>,
                             before: Option<PriceBar>, after: Option<PriceBar>,
                             round4: real -> real): (r: Outcome<Option<BacktestResult>>)
    ensures r.Done? && r.value.Some? ==>
      && profile.Some? && before.Some? && after.Some? && before.value.close != 0.0
      && r.value.value.symbol == symbol && r.value.value.earningsDate == d
      && r.value.value.dateBefore == before.value.date && r.value.value.dateAfter == after.value.date
      && r.value.value.priceBefore == before.value.close && r.value.value.priceAfter == after.value.close
      && r.value.value.companyName == profile.value.companyName
      && r.value.value.marketCap == profile.value.marketCap
      && r.value.value.earningsTime.None?
      && r.value.value.priceChangePct == round4(Change(before.value, after.value))
    ensures r.DivisionByZero? <==> profile.Some? && before.Some? && after.Some? && before.value.close == 0.0
    ensures r == Done(None) <==> profile.None? || before.None? || after.None?
  {
    if profile.None? || before.None? || after.None? then Done(None)
    else if before.value.close == 0.0 then DivisionByZero
    else
      Done(Some(BacktestResult(symbol, profile.value.companyName, profile.value.marketCap, d, None,
                               before.value.close, after.value.close,
                               round4(Change(before.value, after.value)),
                               before.value.date, after.value.date)))
  }

  /** When the response for the days after `d` holds nothing later than `d`,
      the "after" bar is the latest bar up to `d`: a record is still made,
      its after date is not after the report, and with the same bar on both
      sides it shows a change computed over zero days. */
  lemma SingleStockAfterNotLater(symbol: string, d: int, profile: CompanyProfile,
                                 barsBefore: seq<PriceBar>, barsAfter: seq<PriceBar>, round4: real -> real)
    requires barsAfter != [] && forall b :: b in barsAfter ==> b.date <= d
    requires exists b :: b in barsBefore && b.date <= d
    requires forall b :: b in barsBefore ==> b.close != 0.0
    ensures var r := SingleStockBacktest(symbol, d, Some(profile), barsBefore, barsAfter, round4);
      r.Done? && r.value.Some? && r.value.value.dateAfter <= d
  {
    Fmp.PriceBeforeEarningsLatest(barsBefore, d);
    Fmp.HistoricalPriceNearest(barsAfter, d + 1);
  }

  /** A report dated on the last day with a bar: both bars are that day's. */
  lemma SingleStockSameDayCounterexample(round4: real -> real)
    ensures var bar := PriceBar("AAPL", 19845, 10.0, 10.0, 10.0, 10.0, 100);
      var profile := CompanyProfile("AAPL", "Apple", 3000000000000.0, None, None);
      var r := SingleStockBacktest("AAPL", 19845, Some(profile), [bar], [bar], round4);
      r.Done? && r.value.Some? && r.value.value.dateBefore == r.value.value.dateAfter == 19845
  {
    var bar := PriceBar("AAPL", 19845, 10.0, 10.0, 10.0, 10.0, 100);
    assert Sorting.SortDesc([bar], NewestFirst) == [bar];
    assert Sorting.SortDesc([bar], OldestFirst) == [bar];
  }

  /** The single-stock backtest with no record when no bar follows the
      report. */
  function SingleStockBacktestStrict(symbol: string, d: int, profile: Option<CompanyProfile>,
                                     barsBefore: seq<PriceBar>, barsAfter: seq<PriceBar>,
                                     round4: real -> real): Outcome<Option<BacktestResult>>
  {
    SingleStockRecord(symbol, d, profile, Fmp.PriceBeforeEarnings(barsBefore, d),
                      Fmp.NextTradingDayPriceStrict(barsAfter, d), round4)
  }

  /** The strict record compares the latest close up to the report with the
      first close after it, and exists whenever the profile and both sides
      exist. */
  lemma SingleStockStrictOrdered(symbol: string, d: int, profile: Option<CompanyProfile>,
                                 barsBefore: seq<PriceBar>, barsAfter: seq<PriceBar>, round4: real -> real)
    ensures var r := SingleStockBacktestStrict(symbol, d, profile, barsBefore, barsAfter, round4);
      && (r.Done? && r.value.Some? ==>
            && r.value.value.dateBefore <= d < r.value.value.dateAfter
            && (forall b :: b in barsBefore && b.date <= d ==> b.date <= r.value.value.dateBefore)
            && (forall b :: b in barsAfter && b.date > d ==> r.value.value.dateAfter <= b.date))
      && (r == Done(None) <==>
            profile.None? || (forall b :: b in barsBefore ==> b.date > d)
            || (forall b :: b in barsAfter ==> b.date <= d))
  {
    Fmp.PriceBeforeEarningsLatest(barsBefore, d);
    Fmp.NextTradingDayPriceStrictEarliest(barsAfter, d);
  }
}
