/**
 * The transcript fallback of FMPService.get_earnings_time_from_transcript
 * (backend/app/services/fmp_service.py): which fiscal quarters to ask for,
 * and how the opening of a call transcript decides BMO or AMC, first by the
 * greeting and then by the first clock time mentioned.
 *
 * The regular-expression searches are written out as leftmost scans over the
 * lower-cased text.
 */
module Transcript {
  import opened Wrappers
  import opened Schemas
  import opened Text
  import Dates

  // ---------------------------------------------------------------------
  // Candidate fiscal quarters

  /** Quarters are numbered across years: (year, quarter) is quarter
      `4 * year + quarter - 1`. */
  function QuarterIndex(yq: (int, int)): int
  {
    4 * yq.0 + yq.1 - 1
  }

  /** The calendar quarter that contains `month` of `year`. */
  function QuarterOfMonth(year: int, month: int): int
    requires 1 <= month <= 12
  {
    4 * year + (month - 1) / 3
  }

  /** The (year, quarter) candidates as the source lists them, for a report
      dated in `month` of `year`. */
  function CandidateQuarters(year: int, month: int): (cands: seq<(int, int)>)
    requires 1 <= month <= 12
    ensures |cands| == 2
    ensures forall k :: 0 <= k < 2 ==> 1 <= cands[k].1 <= 4
  {
    if month in {1, 2} then [(year - 1, 4), (year, 1)]
    else if month in {4, 5} then [(year, 1), (year, 2)]
    else if month in {7, 8} then [(year, 2), (year, 3)]
    else if month in {10, 11} then [(year, 3), (year, 4)]
    else
      var quarter := (month - 1) / 3 + 1;
      [(year, quarter), (year, if quarter > 1 then quarter - 1 else 4)]
  }

  /** A report in March 2024 is sent looking for the fourth quarter of 2024:
      for a company whose fiscal quarters follow the calendar year, three
      quarters after the one it falls in. */
  lemma CandidateQuartersMarchLooksAhead()
    ensures (2024, 4) in CandidateQuarters(2024, 3)
    ensures QuarterIndex((2024, 4)) == QuarterOfMonth(2024, 3) + 3
  {
    assert CandidateQuarters(2024, 3)[1] == (2024, 4);
  }

  /** The candidates with the wrap-around to the fourth quarter of the
      previous year, as in January and February. */
  function CandidateQuartersCorrected(year: int, month: int): (cands: seq<(int, int)>)
    requires 1 <= month <= 12
    ensures |cands| == 2
    ensures forall k :: 0 <= k < 2 ==> 1 <= cands[k].1 <= 4
  {
    if month in {1, 2} then [(year - 1, 4), (year, 1)]
    else if month in {4, 5} then [(year, 1), (year, 2)]
    else if month in {7, 8} then [(year, 2), (year, 3)]
    else if month in {10, 11} then [(year, 3), (year, 4)]
    else
      var quarter := (month - 1) / 3 + 1;
      [(year, quarter), if quarter > 1 then (year, quarter - 1) else (year - 1, 4)]
  }

  /** Every candidate is the quarter the report falls in or the one before
      it, and the two candidates differ. */
  lemma CandidateQuartersCorrectedAdjacent(year: int, month: int)
    requires 1 <= month <= 12
    ensures var cands := CandidateQuartersCorrected(year, month);
      && cands[0] != cands[1]
      && forall k :: 0 <= k < 2 ==>
           QuarterOfMonth(year, month) - 1 <= QuarterIndex(cands[k]) <= QuarterOfMonth(year, month)
  {
  }

  /** The two tables agree except in the month that opens a year's first
      quarter. */
  lemma CandidateQuartersAgree(year: int, month: int)
    requires 1 <= month <= 12 && month != 3
    ensures CandidateQuarters(year, month) == CandidateQuartersCorrected(year, month)
  {
  }

  // ---------------------------------------------------------------------
  // Clock times: (\d{1,2})[:.](\d{2})\s*(a\.?m\.?|p\.?m\.?)

  datatype Meridiem = Am | Pm

  datatype ClockTime = ClockTime(hour: int, meridiem: Meridiem)

  /** The first position at or after `i` that is not a space. */
  function SkipSpaces(s: string, i: nat): (j: nat)
    requires i <= |s|
    ensures i <= j <= |s|
    ensures forall k :: i <= k < j ==> IsSpace(s[k])
    ensures j == |s| || !IsSpace(s[j])
    decreases |s| - i
  {
    if i < |s| && IsSpace(s[i]) then SkipSpaces(s, i + 1) else i
  }

  /** `a\.?m` or `p\.?m` at `i`; the trailing optional dot does not change
      whether or what it matches. */
  function MeridiemAt(s: string, i: nat): Option<Meridiem>
  {
    if i + 1 < |s| && s[i] in {'a', 'p'}
       && (s[i + 1] == 'm' || (i + 2 < |s| && s[i + 1] == '.' && s[i + 2] == 'm'))
    then Some(if s[i] == 'a' then Am else Pm)
    else None
  }

  /** The 12-hour clock pattern anchored at `i`. The hour takes two digits
      when two are there: giving one back leaves a digit where the separator
      must be, so the match is unique. */
  function ClockAt(s: string, i: nat): (c: Option<ClockTime>)
    ensures c.Some? ==> 0 <= c.value.hour <= 99
  {
    if i < |s| && IsDigit(s[i]) then
      var two := i + 1 < |s| && IsDigit(s[i + 1]);
      var hour := if two then 10 * DigitValue(s[i]) + DigitValue(s[i + 1]) else DigitValue(s[i]);
      var sep := if two then i + 2 else i + 1;
      if sep + 2 < |s| && s[sep] in {':', '.'} && IsDigit(s[sep + 1]) && IsDigit(s[sep + 2]) then
        var m := MeridiemAt(s, SkipSpaces(s, sep + 3));
        if m.Some? then Some(ClockTime(hour, m.value)) else None
      else None
    else None
  }

  /** The second pattern, `at\s+` followed by the clock pattern, anchored at `i`. */
  function AtClockAt(s: string, i: nat): Option<ClockTime>
  {
    if i + 2 < |s| && s[i] == 'a' && s[i + 1] == 't' && IsSpace(s[i + 2])
    then ClockAt(s, SkipSpaces(s, i + 2))
    else None
  }

  function MatchAt(s: string, i: nat, withAt: bool): Option<ClockTime>
  {
    if withAt then AtClockAt(s, i) else ClockAt(s, i)
  }

  /** `re.search`: the match at the leftmost position from `i` on. */
  function FirstMatch(s: string, i: nat, withAt: bool): Option<ClockTime>
    decreases |s| - i
  {
    if i >= |s| then None
    else if MatchAt(s, i, withAt).Some? then MatchAt(s, i, withAt)
    else FirstMatch(s, i + 1, withAt)
  }

  /** The search finds the leftmost match, and finds nothing only when no
      position matches. */
  lemma {:induction false} FirstMatchLeftmost(s: string, i: nat, withAt: bool)
    ensures FirstMatch(s, i, withAt).Some? ==>
      exists p: nat :: i <= p < |s| && MatchAt(s, p, withAt) == FirstMatch(s, i, withAt)
        && forall q: nat :: i <= q < p ==> MatchAt(s, q, withAt).None?
    ensures FirstMatch(s, i, withAt).None? ==>
      forall p: nat :: i <= p < |s| ==> MatchAt(s, p, withAt).None?
    decreases |s| - i
  {
    if i < |s| && MatchAt(s, i, withAt).None? {
      FirstMatchLeftmost(s, i + 1, withAt);
      if FirstMatch(s, i, withAt).Some? {
        var p: nat :| i + 1 <= p < |s| && MatchAt(s, p, withAt) == FirstMatch(s, i + 1, withAt)
          && forall q: nat :: i + 1 <= q < p ==> MatchAt(s, q, withAt).None?;
        assert forall q: nat :: i <= q < p ==> MatchAt(s, q, withAt).None?;
      }
    }
  }

  /** How one clock time decides: 6 to 9 a.m. is before the open; noon and
      later, or 1 to 8 p.m., is after the close; other times decide nothing. */
  function ClockVerdict(c: ClockTime): (t: Option<Timing>)
    ensures t == Some(BMO) <==> c.meridiem == Am && 6 <= c.hour <= 9
    ensures t == Some(AMC) <==> c.meridiem == Pm && (c.hour >= 12 || 1 <= c.hour <= 8)
  {
    match c.meridiem
    case Am => if 6 <= c.hour <= 9 then Some(BMO) else None
    case Pm => if c.hour >= 12 || 1 <= c.hour <= 8 then Some(AMC) else None
  }

  /** The verdict of one pattern: that of its leftmost match. */
  function PatternVerdict(s: string, withAt: bool): Option<Timing>
  {
    var c := FirstMatch(s, 0, withAt);
    if c.Some? then ClockVerdict(c.value) else None
  }

  // ---------------------------------------------------------------------
  // Classifying a transcript

  /** How much of a transcript is searched. */
  const SearchWindow: nat := 2000

  function SearchedText(content: string): (window: string)
    ensures |window| == if |content| < SearchWindow then |content| else SearchWindow
  {
    var lowered := Lower(content);
    if |lowered| < SearchWindow then lowered else lowered[..SearchWindow]
  }

  /** The verdict on one transcript: the morning greeting, then the afternoon
      or evening greeting, then the plain clock pattern, then the clock pattern
      after "at". */
  function ClassifyTranscript(content: string): Option<Timing>
  {
    ClassifyWindow(SearchedText(content))
  }

  /** The verdict on the searched, lower-cased opening of a transcript. */
  function ClassifyWindow(window: string): Option<Timing>
  {
    if Contains(window, "good morning") then Some(BMO)
    else if Contains(window, "good afternoon") || Contains(window, "good evening") then Some(AMC)
    else if PatternVerdict(window, false).Some? then PatternVerdict(window, false)
    else PatternVerdict(window, true)
  }

  /** A greeting decides before any clock time, the morning one first. */
  lemma GreetingPrecedence(content: string)
    ensures Contains(SearchedText(content), "good morning") ==> ClassifyTranscript(content) == Some(BMO)
    ensures !Contains(SearchedText(content), "good morning")
         && (Contains(SearchedText(content), "good afternoon") || Contains(SearchedText(content), "good evening"))
         ==> ClassifyTranscript(content) == Some(AMC)
  {
  }

  /** A verdict has a reason in the searched text: a greeting, or a
      qualifying clock time that one of the patterns matches there. */
  lemma {:induction false} ClassifySound(content: string)
    ensures var window := SearchedText(content);
      ClassifyTranscript(content) == Some(BMO) ==>
        || (exists p: nat :: OccursAt(window, "good morning", p))
        || exists p: nat, withAt: bool :: p < |window| && MatchAt(window, p, withAt).Some?
             && MatchAt(window, p, withAt).value.meridiem == Am && 6 <= MatchAt(window, p, withAt).value.hour <= 9
    ensures var window := SearchedText(content);
      ClassifyTranscript(content) == Some(AMC) ==>
        || (exists p: nat :: OccursAt(window, "good afternoon", p) || OccursAt(window, "good evening", p))
        || exists p: nat, withAt: bool :: p < |window| && MatchAt(window, p, withAt).Some?
             && MatchAt(window, p, withAt).value.meridiem == Pm
             && (MatchAt(window, p, withAt).value.hour >= 12 || 1 <= MatchAt(window, p, withAt).value.hour <= 8)
  {
    var window := SearchedText(content);
    ContainsIff(window, "good morning");
    ContainsIff(window, "good afternoon");
    ContainsIff(window, "good evening");
    FirstMatchLeftmost(window, 0, false);
    FirstMatchLeftmost(window, 0, true);
  }

  /** Only the first 2000 characters matter, in any letter case. */
  lemma ClassifyReadsOpening(content: string)
    ensures |content| > SearchWindow ==> ClassifyTranscript(content) == ClassifyTranscript(content[..SearchWindow])
    ensures ClassifyTranscript(Lower(content)) == ClassifyTranscript(content)
  {
    SearchedTextOpening(content);
    if |content| > SearchWindow {
      assert ClassifyWindow(SearchedText(content)) == ClassifyWindow(SearchedText(content[..SearchWindow]));
    }
    assert ClassifyWindow(SearchedText(Lower(content))) == ClassifyWindow(SearchedText(content));
  }

  lemma SearchedTextOpening(content: string)
    ensures |content| > SearchWindow ==> SearchedText(content) == SearchedText(content[..SearchWindow])
    ensures SearchedText(Lower(content)) == SearchedText(content)
  {
    if |content| > SearchWindow {
      SearchedTextPrefix(content);
    }
    SearchedTextLowered(content);
  }

  lemma SearchedTextPrefix(content: string)
    requires |content| > SearchWindow
    ensures SearchedText(content) == SearchedText(content[..SearchWindow])
  {
    var prefix := content[..SearchWindow];
    LowerPrefix(content, SearchWindow);
    assert SearchedText(content) == Lower(content)[..SearchWindow] == Lower(prefix);
    assert |Lower(prefix)| == SearchWindow;
    assert Lower(prefix)[..SearchWindow] == Lower(prefix);
  }

  lemma SearchedTextLowered(content: string)
    ensures SearchedText(Lower(content)) == SearchedText(content)
  {
    LowerIdempotent(content);
    assert Lower(Lower(content)) == Lower(content);
  }

  /** A time that neither pattern classifies leaves the call undecided: 10
      in the morning and 9 in the evening decide nothing. */
  lemma ClockVerdictGaps()
    ensures ClockVerdict(ClockTime(10, Am)) == None
    ensures ClockVerdict(ClockTime(9, Pm)) == None
    ensures ClockVerdict(ClockTime(4, Pm)) == Some(AMC)
    ensures ClockVerdict(ClockTime(12, Pm)) == Some(AMC)
  {
  }

  /** Two-digit hours are read whole, and "p.m." is a meridiem. */
  lemma ClockAtExamples()
    ensures ClockAt("10:30 am", 0) == Some(ClockTime(10, Am))
    ensures AtClockAt("at  4.30p.m.", 0) == Some(ClockTime(4, Pm))
    ensures ClockAt("8:00 pt", 0) == None
  {
    assert SkipSpaces("10:30 am", 5) == 6 by {
      assert SkipSpaces("10:30 am", 6) == 6;
    }
    assert SkipSpaces("at  4.30p.m.", 2) == 4 by {
      assert SkipSpaces("at  4.30p.m.", 4) == 4;
      assert SkipSpaces("at  4.30p.m.", 3) == 4;
    }
    assert SkipSpaces("at  4.30p.m.", 8) == 8;
    assert SkipSpaces("8:00 pt", 4) == 5 by {
      assert SkipSpaces("8:00 pt", 5) == 5;
    }
  }

  // ---------------------------------------------------------------------
  // Asking for transcripts quarter by quarter

  /** The verdict of the first candidate whose transcript decides; `None`
      when none does. `transcript(year, quarter)` is the content of the first
      transcript the service returns, `None` when the request fails or
      returns nothing. */
  function FirstVerdict(cands: seq<(int, int)>, transcript: (int, int) -> Option<string>): Option<Timing>
  {
    if cands == [] then None
    else
      var content := transcript(cands[0].0, cands[0].1);
      if content.Some? && ClassifyTranscript(content.value).Some? then ClassifyTranscript(content.value)
      else FirstVerdict(cands[1..], transcript)
  }

  /** A verdict is that of some candidate's transcript, and every earlier
      candidate's transcript was missing or undecided. */
  lemma {:induction false} FirstVerdictChoice(cands: seq<(int, int)>, transcript: (int, int) -> Option<string>)
    requires FirstVerdict(cands, transcript).Some?
    ensures exists k :: (0 <= k < |cands| && transcript(cands[k].0, cands[k].1).Some?
      && ClassifyTranscript(transcript(cands[k].0, cands[k].1).value) == FirstVerdict(cands, transcript)
      && forall j :: 0 <= j < k ==> (transcript(cands[j].0, cands[j].1).None?
                                    || ClassifyTranscript(transcript(cands[j].0, cands[j].1).value).None?))
  {
    var content := transcript(cands[0].0, cands[0].1);
    if !(content.Some? && ClassifyTranscript(content.value).Some?) {
      var rest := cands[1..];
      assert FirstVerdict(cands, transcript) == FirstVerdict(rest, transcript);
      FirstVerdictChoice(rest, transcript);
      var k :| 0 <= k < |rest| && transcript(rest[k].0, rest[k].1).Some?
        && ClassifyTranscript(transcript(rest[k].0, rest[k].1).value) == FirstVerdict(rest, transcript)
        && forall j :: 0 <= j < k ==> (transcript(rest[j].0, rest[j].1).None?
                                      || ClassifyTranscript(transcript(rest[j].0, rest[j].1).value).None?);
      assert cands[k + 1] == rest[k];
      forall j | 0 <= j < k + 1
        ensures transcript(cands[j].0, cands[j].1).None? || ClassifyTranscript(transcript(cands[j].0, cands[j].1).value).None?
      {
        if j > 0 {
          assert cands[j] == rest[j - 1];
        }
      }
    }
  }


  /** The transcript verdict for a report on day `d`, over the candidates
      the source asks for. */
  function TranscriptTime(d: int, transcript: (int, int) -> Option<string>): Option<Timing>
  {
    var civil := Dates.CivilFromDays(d);
    FirstVerdict(CandidateQuarters(civil.year, civil.month), transcript)
  }

  /** The transcript verdict over the corrected candidates. */
  function TranscriptTimeCorrected(d: int, transcript: (int, int) -> Option<string>): Option<Timing>
  {
    var civil := Dates.CivilFromDays(d);
    FirstVerdict(CandidateQuartersCorrected(civil.year, civil.month), transcript)
  }

  /** Outside March the two verdicts coincide; in March the corrected one
      never asks for the fourth quarter of the report's own year. */
  lemma TranscriptTimeAgree(d: int, transcript: (int, int) -> Option<string>)
    ensures Dates.CivilFromDays(d).month != 3 ==> TranscriptTime(d, transcript) == TranscriptTimeCorrected(d, transcript)
    ensures var civil := Dates.CivilFromDays(d);
      civil.month == 3 ==> (civil.year, 4) !in CandidateQuartersCorrected(civil.year, civil.month)
  {
    var civil := Dates.CivilFromDays(d);
    if civil.month != 3 {
      CandidateQuartersAgree(civil.year, civil.month);
    }
  }

  /** A report on 2024-03-15 whose only transcript is filed as the fourth
      quarter of 2024: the source takes that transcript's verdict, the
      corrected table never asks for it. */
  lemma TranscriptTimeMarchCounterexample(content: string)
    requires ClassifyTranscript(content).Some?
    ensures var transcript := (y: int, q: int) => if (y, q) == (2024, 4) then Some(content) else None;
      && TranscriptTime(19797, transcript) == ClassifyTranscript(content)
      && TranscriptTimeCorrected(19797, transcript) == None
  {
    var transcript := (y: int, q: int) => if (y, q) == (2024, 4) then Some(content) else None;
    Dates.CivilFromDaysMarch();
    var written := CandidateQuarters(2024, 3);
    var corrected := CandidateQuartersCorrected(2024, 3);
    assert written == [(2024, 1), (2024, 4)];
    assert corrected == [(2024, 1), (2023, 4)];
    assert written[1..] == [(2024, 4)] && corrected[1..] == [(2023, 4)];
    assert FirstVerdict([(2024, 4)], transcript) == ClassifyTranscript(content);
    assert [(2023, 4)][1..] == [];
    assert FirstVerdict([(2023, 4)], transcript) == None;
  }

  /** The clock-pattern stage of one transcript: each pattern in turn, the
      first verdict wins. */
  method ClassifyClocks(window: string) returns (t: Option<Timing>)
    ensures t == (if PatternVerdict(window, false).Some? then PatternVerdict(window, false)
                  else PatternVerdict(window, true))
  {
    var patterns := [false, true];
    assert patterns[0] == false && patterns[1] == true;
    for k := 0 to |patterns|
      invariant forall j :: 0 <= j < k ==> PatternVerdict(window, patterns[j]).None?
    {
      var c := FirstMatch(window, 0, patterns[k]);
      if c.Some? {
        var v := ClockVerdict(c.value);
        if v.Some? {
          assert v == PatternVerdict(window, patterns[k]);
          return v;
        }
      }
    }
    return None;
  }

  /** `get_earnings_time_from_transcript`: the candidates in order, the
      first transcript that decides wins. */
  method GetEarningsTimeFromTranscript(d: int, transcript: (int, int) -> Option<string>)
    returns (t: Option<Timing>)
    ensures t == TranscriptTime(d, transcript)
  {
    var civil := Dates.CivilFromDays(d);
    var cands := CandidateQuarters(civil.year, civil.month);
    for k := 0 to |cands|
      invariant FirstVerdict(cands[k..], transcript) == FirstVerdict(cands, transcript)
    {
      assert cands[k..][0] == cands[k] && cands[k..][1..] == cands[k + 1..];
      var content := transcript(cands[k].0, cands[k].1);
      if content.Some? {
        var window := SearchedText(content.value);
        var verdict: Option<Timing>;
        if Contains(window, "good morning") {
          verdict := Some(BMO);
        } else if Contains(window, "good afternoon") || Contains(window, "good evening") {
          verdict := Some(AMC);
        } else {
          verdict := ClassifyClocks(window);
        }
        if verdict.Some? {
          return verdict;
        }
      }
    }
    return None;
  }
}
