/** services/stats.py: the string form of the logical day, and the total
    and "deep work" minutes of a list of logs. The service reports both
    totals in hours rounded to one decimal; the model keeps the minutes. */
module Stats {
  import opened Wrappers
  import opened Text
  import opened Calendar
  import opened Records
  import opened Clock

  /** `get_logical_date(dt)` of this service: the same rule as app.py's,
      written with `strftime('%Y-%m-%d')`. */
  function StatsLogicalDate(t: DateTime): (s: string)
    requires HasLogicalDate(t)
    ensures |s| == 10 && s[4] == '-' && s[7] == '-'
  {
    if t.hour < 6 then IsoFormat(PreviousDay(t.date)) else IsoFormat(t.date)
  }

  /** The two `get_logical_date`s agree: this one is the text of app.py's,
      and reading the text back gives app.py's date. */
  lemma StatsLogicalDateAgrees(t: DateTime)
    requires HasLogicalDate(t)
    ensures StatsLogicalDate(t) == IsoFormat(LogicalDate(t))
    ensures ParseIsoDate(StatsLogicalDate(t)) == Some(LogicalDate(t))
  {
    IsoRoundTrip(LogicalDate(t));
  }

  /** A log as `calculate_stats_from_logs` reads it; any of its columns may
      be NULL. */
  datatype Log = Log(desc: Option<string>, startTime: Option<string>, endTime: Option<string>)

  /** The keyword list, as written (with 'study' twice). */
  const DeepKeywords: seq<string> :=
    ["code", "coding", "study", "math", "cs", "exam", "quiz", "write", "algo", "data",
     "train", "ai", "implement", "logic", "work", "study"]

  /** `strptime(x, "%H:%M")`; a NULL (None) raises TypeError. */
  function ParseHourMinute(x: Option<string>): (r: Option<ClockTime>)
    ensures r.Some? ==> ValidClock(r.value) && r.value.second == 0
  {
    if x.None? then None else ParseClock(HourMinute, x.value)
  }

  function MinuteOfDay(c: ClockTime): (n: int)
    requires ValidClock(c)
    ensures 0 <= n < 1440
  {
    c.hour * 60 + c.minute
  }

  /** The minutes `calculate_stats_from_logs` adds for one log, or `None`
      when parsing raises before anything is added. */
  function LogMinutes(log: Log): (r: Option<int>)
    ensures r.Some? ==> 0 <= r.value < 1440
  {
    var s := ParseHourMinute(log.startTime);
    var e := ParseHourMinute(log.endTime);
    if s.None? || e.None? then None
    else
      var diff := MinuteOfDay(e.value) - MinuteOfDay(s.value);
      Some(if diff < 0 then diff + 1440 else diff)
  }

  /** `any(k in text for k in keywords)`. */
  function AnyKeyword(text: string, keywords: seq<string>): bool {
    if keywords == [] then false
    else Contains(text, keywords[0]) || AnyKeyword(text, keywords[1..])
  }

  /** `any` holds exactly when some keyword is contained in the text. */
  lemma {:induction false} AnyKeywordIff(text: string, keywords: seq<string>)
    ensures AnyKeyword(text, keywords) <==> exists i :: 0 <= i < |keywords| && Contains(text, keywords[i])
  {
    if keywords != [] {
      AnyKeywordIff(text, keywords[1..]);
      if exists i :: 0 <= i < |keywords| && Contains(text, keywords[i]) {
        var i :| 0 <= i < |keywords| && Contains(text, keywords[i]);
        if i > 0 {
          assert keywords[1..][i - 1] == keywords[i];
        }
      }
      if AnyKeyword(text, keywords[1..]) {
        var i :| 0 <= i < |keywords[1..]| && Contains(text, keywords[1..][i]);
        assert Contains(text, keywords[i + 1]);
      }
    }
  }

  /** The log counts as deep work. A NULL `desc` raises AttributeError after
      its minutes went into the total, so such a log is in the total only. */
  predicate IsDeep(log: Log) {
    log.desc.Some? && AnyKeyword(Lower(log.desc.value), DeepKeywords)
  }

  /** `total_minutes` after the loop over `logs`. */
  function TotalMinutes(logs: seq<Log>): int {
    if logs == [] then 0
    else
      var m := LogMinutes(logs[|logs| - 1]);
      TotalMinutes(logs[..|logs| - 1]) + (if m.Some? then m.value else 0)
  }

  /** `deep_minutes` after the loop over `logs`. */
  function DeepMinutes(logs: seq<Log>): int {
    if logs == [] then 0
    else
      var last := logs[|logs| - 1];
      var m := LogMinutes(last);
      DeepMinutes(logs[..|logs| - 1]) + (if m.Some? && IsDeep(last) then m.value else 0)
  }

  /** `calculate_stats_from_logs(logs)`, before the conversion to hours. */
  method CalculateStatsFromLogs(logs: seq<Log>) returns (totalMinutes: int, deepMinutes: int)
    ensures totalMinutes == TotalMinutes(logs)
    ensures deepMinutes == DeepMinutes(logs)
  {
    totalMinutes := 0;
    deepMinutes := 0;
    for i := 0 to |logs|
      invariant totalMinutes == TotalMinutes(logs[..i])
      invariant deepMinutes == DeepMinutes(logs[..i])
    {
      assert logs[..i + 1][..i] == logs[..i];
      var log := logs[i];
      var tStart := ParseHourMinute(log.startTime);
      var tEnd := ParseHourMinute(log.endTime);
      if tStart.None? || tEnd.None? {
        continue;
      }
      var duration := MinuteOfDay(tEnd.value) - MinuteOfDay(tStart.value);
      if duration < 0 {
        duration := duration + 24 * 60;
      }
      totalMinutes := totalMinutes + duration;
      if log.desc.None? {
        continue;
      }
      if AnyKeyword(Lower(log.desc.value), DeepKeywords) {
        deepMinutes := deepMinutes + duration;
      }
    }
    assert logs[..|logs|] == logs;
  }

  // ---------------------------------------------------------------------
  // Properties
  // ---------------------------------------------------------------------

  /** Deep minutes are part of the total, and neither is negative. */
  lemma {:induction false} DeepWithinTotal(logs: seq<Log>)
    ensures 0 <= DeepMinutes(logs) <= TotalMinutes(logs)
  {
    if logs != [] {
      DeepWithinTotal(logs[..|logs| - 1]);
    }
  }

  /** No logs, no minutes. */
  lemma EmptyLogs()
    ensures TotalMinutes([]) == 0 && DeepMinutes([]) == 0
  {
  }

  /** A log that does not parse as `%H:%M` on both sides adds nothing. */
  lemma SkippedLogAddsNothing(logs: seq<Log>, log: Log)
    requires LogMinutes(log).None?
    ensures TotalMinutes(logs + [log]) == TotalMinutes(logs)
    ensures DeepMinutes(logs + [log]) == DeepMinutes(logs)
  {
    assert (logs + [log])[..|logs|] == logs;
  }

  /** A time with seconds is not `%H:%M`: such a log is skipped here, while
      services/history_helper.py's second format would read it. */
  lemma SecondsAreSkipped(h: int, m: int, sec: int, end: Option<string>, desc: Option<string>)
    requires 0 <= h < 24 && 0 <= m < 60 && 0 <= sec < 60
    ensures LogMinutes(Log(desc, Some(FormatHourMinute(h, m) + ":" + Pad2(sec)), end)).None?
  {
    SecondsDefeatHourMinute(h, m, sec);
  }

  /** Two recorded times `HH:MM` add the minutes from start to end, past
      midnight when the end is earlier. */
  lemma RecordedLogMinutes(h1: int, m1: int, h2: int, m2: int, desc: Option<string>)
    requires 0 <= h1 < 24 && 0 <= m1 < 60 && 0 <= h2 < 24 && 0 <= m2 < 60
    ensures LogMinutes(Log(desc, Some(FormatHourMinute(h1, m1)), Some(FormatHourMinute(h2, m2)))) ==
            Some(((h2 * 60 + m2) - (h1 * 60 + m1)) % 1440)
  {
    HourMinuteRoundTrip(h1, m1);
    HourMinuteRoundTrip(h2, m2);
    ReadLogMinutes(Log(desc, Some(FormatHourMinute(h1, m1)), Some(FormatHourMinute(h2, m2))),
                   ClockTime(h1, m1, 0), ClockTime(h2, m2, 0));
  }

  /** A log whose two times read adds the minutes from start to end,
      modulo a day. */
  lemma ReadLogMinutes(log: Log, s: ClockTime, e: ClockTime)
    requires ValidClock(s) && ValidClock(e)
    requires ParseHourMinute(log.startTime) == Some(s) && ParseHourMinute(log.endTime) == Some(e)
    ensures LogMinutes(log) == Some((MinuteOfDay(e) - MinuteOfDay(s)) % 1440)
  {
    var d := MinuteOfDay(e) - MinuteOfDay(s);
    assert LogMinutes(log) == Some(if d < 0 then d + 1440 else d);
    WrapOnce(d, 1440);
  }

  /** A log without a description counts in the total but not as deep. */
  lemma MissingDescOnlyInTotal(logs: seq<Log>, log: Log)
    requires log.desc.None? && LogMinutes(log).Some?
    ensures TotalMinutes(logs + [log]) == TotalMinutes(logs) + LogMinutes(log).value
    ensures DeepMinutes(logs + [log]) == DeepMinutes(logs)
  {
    assert (logs + [log])[..|logs|] == logs;
  }

  /** A description counts as deep exactly when, lower-cased, it contains
      one of the keywords somewhere. */
  lemma DeepIffKeywordOccurs(desc: string)
    ensures AnyKeyword(Lower(desc), DeepKeywords) <==>
            exists j, i :: 0 <= j < |DeepKeywords| && OccursAt(DeepKeywords[j], Lower(desc), i)
  {
    AnyKeywordIff(Lower(desc), DeepKeywords);
    forall j | 0 <= j < |DeepKeywords|
      ensures Contains(Lower(desc), DeepKeywords[j]) <==> exists i :: OccursAt(DeepKeywords[j], Lower(desc), i)
    {
      ContainsIffOccurs(Lower(desc), DeepKeywords[j]);
    }
  }
}
