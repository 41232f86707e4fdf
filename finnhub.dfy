/**
 * FinnhubService (backend/app/services/finnhub_service.py): the BMO/AMC
 * hour field of the Finnhub earnings calendar, looked up one event at a time
 * or in bulk, with the service's memo of answers.
 *
 * `calendar(from, to)` is the decoded "earningsCalendar" list for the range;
 * a failed request or a body without the list is the empty list, exactly as
 * get_earnings_calendar hands it on. `today` is the caller's date.today().
 */
module Finnhub {
  import opened Wrappers
  import opened Schemas
  import opened Text

  /** One item of the calendar list. `symbol` is `None` when missing or null;
      `date` is the day of the "date" field, `None` when it is missing, empty
      or not a canonical ISO date; `hour` is "" when missing or null.
      `Unreadable` is an item on which `.get` raises (not an object). */
  datatype HourRow =
    | HourRow(symbol: Option<string>, date: Option<int>, hour: string)
    | Unreadable

  /** The spelling the service uses for a timing. */
  function TimingCode(t: Timing): string
  {
    match t
    case BMO => "BMO"
    case AMC => "AMC"
  }

  /** `_map_hour_to_time`: "bmo" and "amc" in any letter case; anything else
      ("dmh", "") is unknown. */
  function MapHourToTime(hour: string): (t: Option<Timing>)
    ensures t.Some? ==> |hour| == 3
  {
    var lowered := Lower(hour);
    if lowered == "bmo" then Some(BMO)
    else if lowered == "amc" then Some(AMC)
    else None
  }

  /** The mapping ignores letter case. */
  lemma MapHourIgnoresCase(a: string, b: string)
    requires Lower(a) == Lower(b)
    ensures MapHourToTime(a) == MapHourToTime(b)
  {
  }

  /** The service's own spelling of a timing maps back to that timing, and a
      recognised hour is that spelling up to letter case. */
  lemma MapHourRoundTrip(hour: string, t: Timing)
    ensures MapHourToTime(TimingCode(t)) == Some(t)
    ensures MapHourToTime(hour) == Some(t) <==> Lower(hour) == Lower(TimingCode(t))
  {
    var code := TimingCode(t);
    assert Lower(code) == [LowerChar(code[0]), LowerChar(code[1]), LowerChar(code[2])];
  }

  lemma MapHourExamples()
    ensures MapHourToTime("bmo") == Some(BMO)
    ensures MapHourToTime("Amc") == Some(AMC)
    ensures MapHourToTime("dmh") == None
    ensures MapHourToTime("") == None
  {
    assert Lower("bmo") == "bmo";
    assert Lower("Amc") == ['a', 'm', 'c'];
    assert Lower("dmh") == "dmh";
  }

  predicate Matches(row: HourRow, symbol: string, d: int)
    requires row.HourRow?
  {
    row.symbol == Some(symbol) && row.date == Some(d)
  }

  /** The answer the single-event search finds in `rows`: the hour of the
      first row for `symbol` dated `d`; `None` when there is none, or when an
      unreadable item comes first (the exception handler's answer). */
  function LookupCalendar(rows: seq<HourRow>, symbol: string, d: int): Option<Timing>
  {
    if rows == [] || rows[0].Unreadable? then None
    else if Matches(rows[0], symbol, d) then MapHourToTime(rows[0].hour)
    else LookupCalendar(rows[1..], symbol, d)
  }

  /** A known answer comes from the first matching row, and no readable row
      before it matches. */
  lemma {:induction false} LookupCalendarFirstMatch(rows: seq<HourRow>, symbol: string, d: int)
    requires LookupCalendar(rows, symbol, d).Some?
    ensures exists i :: (0 <= i < |rows| && rows[i].HourRow? && Matches(rows[i], symbol, d)
      && MapHourToTime(rows[i].hour) == LookupCalendar(rows, symbol, d)
      && forall j :: 0 <= j < i ==> rows[j].HourRow? && !Matches(rows[j], symbol, d))
  {
    if !Matches(rows[0], symbol, d) {
      LookupCalendarFirstMatch(rows[1..], symbol, d);
      var i :| 0 <= i < |rows[1..]| && rows[1..][i].HourRow? && Matches(rows[1..][i], symbol, d)
        && MapHourToTime(rows[1..][i].hour) == LookupCalendar(rows[1..], symbol, d)
        && forall j :: 0 <= j < i ==> rows[1..][j].HourRow? && !Matches(rows[1..][j], symbol, d);
      assert forall j :: 1 <= j < i + 1 ==> rows[j] == rows[1..][j - 1];
    }
  }

  /** When readable rows hold no matching row, the answer is unknown. */
  lemma {:induction false} LookupCalendarNoMatch(rows: seq<HourRow>, symbol: string, d: int)
    requires forall j :: 0 <= j < |rows| && rows[j].HourRow? ==> !Matches(rows[j], symbol, d)
    ensures LookupCalendar(rows, symbol, d) == None
  {
    if rows != [] && rows[0].HourRow? {
      LookupCalendarNoMatch(rows[1..], symbol, d);
    }
  }

  /** The entry a row contributes to the bulk map: it needs a non-empty
      symbol, a date and an hour that maps to a timing. */
  function RowEntry(row: HourRow): Option<(EventKey, Timing)>
    requires row.HourRow?
  {
    if row.symbol.Some? && row.symbol.value != "" && row.date.Some? && row.hour != ""
       && MapHourToTime(row.hour).Some?
    then Some(((row.symbol.value, row.date.value), MapHourToTime(row.hour).value))
    else None
  }

  /** The bulk map built from `rows` on top of `acc`: each entry overwrites
      the one before it with the same key; an unreadable item ends the scan. */
  function BatchEntries(rows: seq<HourRow>, acc: map<EventKey, Timing>): map<EventKey, Timing>
  {
    if rows == [] || rows[0].Unreadable? then acc
    else
      var entry := RowEntry(rows[0]);
      BatchEntries(rows[1..], if entry.Some? then acc[entry.value.0 := entry.value.1] else acc)
  }

  /** The last row wins: appending a row to readable rows sets its entry. */
  lemma {:induction false} BatchEntriesLastWins(rows: seq<HourRow>, row: HourRow, acc: map<EventKey, Timing>)
    requires forall j :: 0 <= j < |rows| ==> rows[j].HourRow?
    requires row.HourRow? && RowEntry(row).Some?
    ensures var e := RowEntry(row).value;
      BatchEntries(rows + [row], acc) == BatchEntries(rows, acc)[e.0 := e.1]
  {
    if rows == [] {
      assert (rows + [row])[1..] == [];
    } else {
      var entry := RowEntry(rows[0]);
      assert (rows + [row])[1..] == rows[1..] + [row];
      BatchEntriesLastWins(rows[1..], row, if entry.Some? then acc[entry.value.0 := entry.value.1] else acc);
    }
  }

  /** Every key of the bulk map comes from `acc` or from a row whose entry it is. */
  lemma {:induction false} BatchEntriesSound(rows: seq<HourRow>, acc: map<EventKey, Timing>)
    ensures forall k :: k in BatchEntries(rows, acc) ==>
      (k in acc && BatchEntries(rows, acc)[k] == acc[k])
      || exists i :: 0 <= i < |rows| && rows[i].HourRow? && RowEntry(rows[i]) == Some((k, BatchEntries(rows, acc)[k]))
  {
    if rows != [] && rows[0].HourRow? {
      var entry := RowEntry(rows[0]);
      var acc' := if entry.Some? then acc[entry.value.0 := entry.value.1] else acc;
      BatchEntriesSound(rows[1..], acc');
      forall k | k in BatchEntries(rows, acc)
        ensures (k in acc && BatchEntries(rows, acc)[k] == acc[k])
          || exists i :: 0 <= i < |rows| && rows[i].HourRow? && RowEntry(rows[i]) == Some((k, BatchEntries(rows, acc)[k]))
      {
        var v := BatchEntries(rows, acc)[k];
        if !(k in acc' && v == acc'[k]) {
          var i :| 0 <= i < |rows[1..]| && rows[1..][i].HourRow? && RowEntry(rows[1..][i]) == Some((k, v));
          assert rows[i + 1] == rows[1..][i];
        } else if entry.Some? && k == entry.value.0 {
          assert RowEntry(rows[0]) == Some((k, v));
        }
      }
    }
  }

  /** Every row before the first unreadable item that carries an entry puts
      its key in the bulk map. */
  lemma {:induction false} BatchEntriesComplete(rows: seq<HourRow>, acc: map<EventKey, Timing>, i: int)
    requires 0 <= i < |rows|
    requires forall j :: 0 <= j <= i ==> rows[j].HourRow?
    requires RowEntry(rows[i]).Some?
    ensures RowEntry(rows[i]).value.0 in BatchEntries(rows, acc)
  {
    var entry := RowEntry(rows[0]);
    var acc' := if entry.Some? then acc[entry.value.0 := entry.value.1] else acc;
    if i == 0 {
      BatchEntriesKeepsKeys(rows[1..], acc');
    } else {
      BatchEntriesComplete(rows[1..], acc', i - 1);
    }
  }

  lemma {:induction false} BatchEntriesKeepsKeys(rows: seq<HourRow>, acc: map<EventKey, Timing>)
    ensures acc.Keys <= BatchEntries(rows, acc).Keys
  {
    if rows != [] && rows[0].HourRow? {
      var entry := RowEntry(rows[0]);
      BatchEntriesKeepsKeys(rows[1..], if entry.Some? then acc[entry.value.0 := entry.value.1] else acc);
    }
  }

  /** Known answers lifted into the memo's value type. */
  function Known(m: map<EventKey, Timing>): map<EventKey, Option<Timing>>
  {
    map k | k in m :: Some(m[k])
  }

  /** How far back, in days, the calendar is worth asking. */
  const LookbackDays: int := 30

  class FinnhubService {
    /** `_earnings_time_cache`: answers already found, unknown ones included. */
    var cache: map<EventKey, Option<Timing>>
    /** The (from, to) ranges sent to the calendar endpoint, in order. */
    ghost var Queries: seq<(int, int)>

    constructor ()
      ensures cache == map[] && Queries == []
    {
      cache := map[];
      Queries := [];
    }

    /** `get_earnings_time(symbol, d)`: the memo first; events more than 30
        days old are unknown without asking; otherwise the calendar for
        [d-1, d+1] decides, and the answer is memoised. */
    method GetEarningsTime(symbol: string, d: int, today: int, calendar: (int, int) -> seq<HourRow>)
      returns (t: Option<Timing>)
      modifies this
      ensures (symbol, d) in old(cache) ==>
        t == old(cache)[(symbol, d)] && cache == old(cache) && Queries == old(Queries)
      ensures (symbol, d) !in old(cache) && today - d > LookbackDays ==>
        t == None && cache == old(cache)[(symbol, d) := None] && Queries == old(Queries)
      ensures (symbol, d) !in old(cache) && today - d <= LookbackDays ==>
        t == LookupCalendar(calendar(d - 1, d + 1), symbol, d)
        && cache == old(cache)[(symbol, d) := t]
        && Queries == old(Queries) + [(d - 1, d + 1)]
    {
      var key := (symbol, d);
      if key in cache {
        return cache[key];
      }
      if today - d > LookbackDays {
        cache := cache[key := None];
        return None;
      }
      var rows := calendar(d - 1, d + 1);
      Queries := Queries + [(d - 1, d + 1)];
      t := None;
      var i := 0;
      while i < |rows|
        invariant 0 <= i <= |rows|
        invariant LookupCalendar(rows[i..], symbol, d) == LookupCalendar(rows, symbol, d)
      {
        assert rows[i..][0] == rows[i] && rows[i..][1..] == rows[i + 1..];
        if rows[i].Unreadable? {
          break;
        }
        if rows[i].symbol == Some(symbol) && rows[i].date == Some(d) {
          t := MapHourToTime(rows[i].hour);
          break;
        }
        i := i + 1;
      }
      cache := cache[key := t];
    }

    /** `batch_get_earnings_time(from, to)`: nothing when `from` is more than
        30 days old; otherwise the known timings of the calendar for the
        range, which are also memoised. */
    method BatchGetEarningsTime(from: int, to: int, today: int, calendar: (int, int) -> seq<HourRow>)
      returns (result: map<EventKey, Timing>)
      modifies this
      ensures today - from > LookbackDays ==>
        result == map[] && cache == old(cache) && Queries == old(Queries)
      ensures today - from <= LookbackDays ==>
        result == BatchEntries(calendar(from, to), map[])
        && cache == old(cache) + Known(result)
        && Queries == old(Queries) + [(from, to)]
    {
      result := map[];
      if today - from > LookbackDays {
        return;
      }
      var rows := calendar(from, to);
      Queries := Queries + [(from, to)];
      var i := 0;
      while i < |rows|
        invariant 0 <= i <= |rows|
        invariant BatchEntries(rows[i..], result) == BatchEntries(rows, map[])
        invariant cache == old(cache) + Known(result)
        invariant Queries == old(Queries) + [(from, to)]
      {
        assert rows[i..][0] == rows[i] && rows[i..][1..] == rows[i + 1..];
        var row := rows[i];
        if row.Unreadable? {
          break;
        }
        if row.symbol.Some? && row.symbol.value != "" && row.date.Some? && row.hour != "" {
          var time := MapHourToTime(row.hour);
          if time.Some? {
            var key := (row.symbol.value, row.date.value);
            result := result[key := time.value];
            cache := cache[key := time];
          }
        }
        i := i + 1;
      }
    }
  }
}
