/** services/history_helper.py: the length of one logged interval, read
    from two clock strings, and the statistics of one day of entries.
    Durations are whole seconds here; the service reports them as minutes,
    `seconds / 60`. */
module HistoryHelper {
  import opened Wrappers
  import opened Text
  import opened Clock

  const SecondsPerDay: int := 86400

  /** The formats tried, in order. */
  const Formats: seq<Format> := [HourMinute, HourMinuteSecond]

  /** The first format in `Formats` that reads `s`, if any. */
  function FirstParse(s: string): (r: Option<ClockTime>)
    ensures r.Some? ==> ValidClock(r.value)
    ensures r.Some? <==> ParseClock(HourMinute, s).Some? || ParseClock(HourMinuteSecond, s).Some?
  {
    if ParseClock(HourMinute, s).Some? then ParseClock(HourMinute, s) else ParseClock(HourMinuteSecond, s)
  }

  /** The `for fmt in formats: try … break except ValueError: continue` loop. */
  method ParseWithFormats(s: string) returns (r: Option<ClockTime>)
    ensures r == FirstParse(s)
  {
    var formats := Formats;
    assert formats[0] == HourMinute && formats[1] == HourMinuteSecond;
    r := None;
    var k := 0;
    while k < |formats|
      invariant 0 <= k <= |formats|
      invariant r.None?
      invariant forall j :: 0 <= j < k ==> ParseClock(formats[j], s).None?
    {
      var attempt := ParseClock(formats[k], s);
      if attempt.Some? {
        r := attempt;
        assert k == 0 ==> r == FirstParse(s);
        break;
      }
      k := k + 1;
    }
  }

  /** `not x` for a value that is a string or None. */
  predicate Falsy(v: Option<string>) {
    v.None? || v.value == ""
  }

  /** The duration `calculate_duration_minutes` reports, in seconds: zero
      for a missing side or a side no format reads, otherwise end minus
      start, plus a day when that is negative. */
  function DurationSeconds(start: Option<string>, end: Option<string>): (n: int)
    ensures 0 <= n < SecondsPerDay
  {
    if Falsy(start) || Falsy(end) then 0
    else
      var s := FirstParse(Strip(start.value));
      var e := FirstParse(Strip(end.value));
      if s.None? || e.None? then 0
      else
        var diff := SecondsOfDay(e.value) - SecondsOfDay(s.value);
        if diff < 0 then diff + SecondsPerDay else diff
  }

  /** The service prints its parse-failure warning. */
  predicate Warns(start: Option<string>, end: Option<string>) {
    !Falsy(start) && !Falsy(end) &&
    (FirstParse(Strip(start.value)).None? || FirstParse(Strip(end.value)).None?)
  }

  /** `calculate_duration_minutes(start_str, end_str)`; `warned` stands for
      the printed warning. */
  method CalculateDuration(start: Option<string>, end: Option<string>) returns (seconds: int, warned: bool)
    ensures seconds == DurationSeconds(start, end)
    ensures warned == Warns(start, end)
  {
    if Falsy(start) || Falsy(end) {
      return 0, false;
    }
    var startText := Strip(start.value);
    var endText := Strip(end.value);
    var s := ParseWithFormats(startText);
    var e := ParseWithFormats(endText);
    if s.None? || e.None? {
      return 0, true;
    }
    var diff := SecondsOfDay(e.value) - SecondsOfDay(s.value);
    if diff < 0 {
      diff := diff + 24 * 60 * 60;
    }
    return diff, false;
  }

  // ---------------------------------------------------------------------
  // Durations of recorded times
  // ---------------------------------------------------------------------

  /** Two times the recorder wrote as `HH:MM` are apart by the minutes from
      start to end, going past midnight when the end is earlier. */
  lemma RecordedDuration(h1: int, m1: int, h2: int, m2: int)
    requires 0 <= h1 < 24 && 0 <= m1 < 60 && 0 <= h2 < 24 && 0 <= m2 < 60
    ensures DurationSeconds(Some(FormatHourMinute(h1, m1)), Some(FormatHourMinute(h2, m2))) ==
            ((h2 * 60 + m2) - (h1 * 60 + m1)) % 1440 * 60
    ensures !Warns(Some(FormatHourMinute(h1, m1)), Some(FormatHourMinute(h2, m2)))
  {
    RecordedTimeReads(h1, m1);
    RecordedTimeReads(h2, m2);
    ReadTimesDuration(FormatHourMinute(h1, m1), FormatHourMinute(h2, m2), ClockTime(h1, m1, 0), ClockTime(h2, m2, 0));
    var d := (h2 * 60 + m2) - (h1 * 60 + m1);
    assert SecondsOfDay(ClockTime(h2, m2, 0)) - SecondsOfDay(ClockTime(h1, m1, 0)) == d * 60;
    MinutesWrapAtMidnight(d);
  }

  /** Two sides that both read give end minus start, modulo a day. */
  lemma ReadTimesDuration(a: string, b: string, ca: ClockTime, cb: ClockTime)
    requires !Falsy(Some(a)) && !Falsy(Some(b)) && ValidClock(ca) && ValidClock(cb)
    requires FirstParse(Strip(a)) == Some(ca) && FirstParse(Strip(b)) == Some(cb)
    ensures DurationSeconds(Some(a), Some(b)) == (SecondsOfDay(cb) - SecondsOfDay(ca)) % SecondsPerDay
    ensures !Warns(Some(a), Some(b))
  {
    var diff := SecondsOfDay(cb) - SecondsOfDay(ca);
    assert DurationSeconds(Some(a), Some(b)) == if diff < 0 then diff + SecondsPerDay else diff;
    WrapOnce(diff, SecondsPerDay);
  }

  /** A difference of minutes within a day, in seconds modulo a day. */
  lemma MinutesWrapAtMidnight(d: int)
    requires -1440 < d < 1440
    ensures (d * 60) % SecondsPerDay == d % 1440 * 60
  {
    if d >= 0 {
      assert d % 1440 == d;
      assert (d * 60) % SecondsPerDay == d * 60;
    } else {
      assert d % 1440 == d + 1440;
      assert (d * 60) % SecondsPerDay == d * 60 + SecondsPerDay;
    }
  }

  /** A time the recorder wrote reads back under the first format. */
  lemma RecordedTimeReads(h: int, m: int)
    requires 0 <= h < 24 && 0 <= m < 60
    ensures !Falsy(Some(FormatHourMinute(h, m)))
    ensures FirstParse(Strip(FormatHourMinute(h, m))) == Some(ClockTime(h, m, 0))
  {
    StripUnpadded(FormatHourMinute(h, m));
    HourMinuteRoundTrip(h, m);
  }

  /** A missing or empty side gives zero, without a warning. */
  lemma MissingSideIsZero(start: Option<string>, end: Option<string>)
    requires Falsy(start) || Falsy(end)
    ensures DurationSeconds(start, end) == 0 && !Warns(start, end)
  {
  }

  /** A side that no format reads gives zero, with a warning. */
  lemma UnreadableSideIsZero(start: string, end: string)
    requires start != "" && end != ""
    requires FirstParse(Strip(start)).None? || FirstParse(Strip(end)).None?
    ensures DurationSeconds(Some(start), Some(end)) == 0 && Warns(Some(start), Some(end))
  {
  }

  // ---------------------------------------------------------------------
  // One day's statistics
  // ---------------------------------------------------------------------

  /** One entry as `build_day_stats` reads it. */
  datatype Item = Item(startTime: Option<string>, endTime: Option<string>, category: Option<string>)

  /** `item.category or "Uncategorized"`. */
  function CategoryOf(it: Item): (c: string)
    ensures it.category.Some? && it.category.value != "" ==> c == it.category.value
    ensures Falsy(it.category) ==> c == "Uncategorized"
  {
    if Falsy(it.category) then "Uncategorized" else it.category.value
  }

  /** What one item adds to the day: its category and its seconds. */
  datatype Share = Share(category: string, seconds: int)

  /** The share of one item: its category and its duration. */
  function ShareOf(it: Item): Share {
    Share(CategoryOf(it), DurationSeconds(it.startTime, it.endTime))
  }

  /** The items as the loop sees them, one share each. */
  function Shares(items: seq<Item>): (ps: seq<Share>)
    ensures |ps| == |items|
  {
    if items == [] then [] else Shares(items[..|items| - 1]) + [ShareOf(items[|items| - 1])]
  }

  predicate NonNegative(ps: seq<Share>) {
    forall i :: 0 <= i < |ps| ==> ps[i].seconds >= 0
  }

  /** No duration is negative. */
  lemma {:induction false} SharesNonNegative(items: seq<Item>)
    ensures NonNegative(Shares(items))
  {
    if items != [] {
      SharesNonNegative(items[..|items| - 1]);
    }
  }

  /** A Python dict from category to seconds: its keys in insertion order
      and their values. */
  datatype Tally = Tally(keys: seq<string>, amount: map<string, int>)

  predicate Distinct(keys: seq<string>) {
    forall i, j :: 0 <= i < j < |keys| ==> keys[i] != keys[j]
  }

  predicate TallyValid(t: Tally) {
    Distinct(t.keys) && (forall k :: k in t.amount ==> k in t.keys) && (forall k :: k in t.keys ==> k in t.amount)
  }

  /** `d[k] = d.get(k, 0) + v`: a new key goes to the end. */
  function Add(t: Tally, k: string, v: int): Tally {
    if k in t.amount then Tally(t.keys, t.amount[k := t.amount[k] + v])
    else Tally(t.keys + [k], t.amount[k := v])
  }

  /** `category_min` after the loop over the shares. */
  function TallyOf(ps: seq<Share>): Tally {
    if ps == [] then Tally([], map[])
    else
      var last := ps[|ps| - 1];
      Add(TallyOf(ps[..|ps| - 1]), last.category, last.seconds)
  }

  /** `total_min` after the loop over the shares. */
  function TotalOf(ps: seq<Share>): int {
    if ps == [] then 0 else TotalOf(ps[..|ps| - 1]) + ps[|ps| - 1].seconds
  }

  /** The seconds of the shares in category `c`. */
  function CategoryTotal(ps: seq<Share>, c: string): int {
    if ps == [] then 0
    else
      var last := ps[|ps| - 1];
      CategoryTotal(ps[..|ps| - 1], c) + (if last.category == c then last.seconds else 0)
  }

  /** The sum of the dict's values. */
  function SumOver(keys: seq<string>, amount: map<string, int>): int
    requires forall k :: k in keys ==> k in amount
  {
    if keys == [] then 0
    else SumOver(keys[..|keys| - 1], amount) + amount[keys[|keys| - 1]]
  }

  const DeepWork: string := "Deep Work"
  const NoCategory: string := "—"

  /** `category_min.get("Deep Work", 0)`. */
  function DeepWorkOf(t: Tally): int {
    if DeepWork in t.amount then t.amount[DeepWork] else 0
  }

  /** `int(deep / total * 100) if total > 0 else 0`, in exact arithmetic. */
  function FocusPct(deep: int, total: int): int {
    if total > 0 then (deep * 100) / total else 0
  }

  /** Where `max(keys, key=amount.get)` lands: a key of largest value, and
      the first such key, since `max` only replaces its pick on a strictly
      larger value. */
  function FirstMaxIndex(keys: seq<string>, amount: map<string, int>): (i: nat)
    requires keys != [] && forall k :: k in keys ==> k in amount
    ensures i < |keys|
    ensures forall j :: 0 <= j < |keys| ==> amount[keys[j]] <= amount[keys[i]]
    ensures forall j :: 0 <= j < i ==> amount[keys[j]] < amount[keys[i]]
  {
    if |keys| == 1 then 0
    else
      var init := keys[..|keys| - 1];
      var best := FirstMaxIndex(init, amount);
      assert init[best] == keys[best];
      if amount[keys[|keys| - 1]] > amount[keys[best]] then |keys| - 1 else best
  }

  /** `max(category_min, key=category_min.get) if category_min else "—"`. */
  function TopCategory(t: Tally): string
    requires TallyValid(t)
  {
    if t.keys == [] then NoCategory else t.keys[FirstMaxIndex(t.keys, t.amount)]
  }

  /** The dictionary `build_day_stats` returns (without `total_hours`). */
  datatype DayStats = DayStats(
    totalSeconds: int,
    categorySeconds: Tally,
    focusPct: int,
    topCategory: string,
    entryCount: int)

  /** One more item adds its share at the end. */
  lemma SharesStep(items: seq<Item>, i: int)
    requires 0 <= i < |items|
    ensures Shares(items[..i + 1]) == Shares(items[..i]) + [ShareOf(items[i])]
  {
    assert items[..i + 1][..i] == items[..i];
  }

  /** `category_min.get(cat, 0) + dur` for a category already present. */
  lemma AddKnown(keys: seq<string>, amount: map<string, int>, cat: string, dur: int)
    requires cat in amount
    ensures Add(Tally(keys, amount), cat, dur) == Tally(keys, amount[cat := amount[cat] + dur])
  {
  }

  /** The same for a new category, which joins the end of the key order. */
  lemma AddFresh(keys: seq<string>, amount: map<string, int>, cat: string, dur: int)
    requires cat !in amount
    ensures Add(Tally(keys, amount), cat, dur) == Tally(keys + [cat], amount[cat := 0 + dur])
  {
  }

  /** One more share: the loop's step on both accumulators. */
  lemma TallyStep(ps: seq<Share>, x: Share)
    ensures TallyOf(ps + [x]) == Add(TallyOf(ps), x.category, x.seconds)
    ensures TotalOf(ps + [x]) == TotalOf(ps) + x.seconds
  {
    assert (ps + [x])[..|ps|] == ps;
  }

  /** The dictionary `build_day_stats(items)` returns, from the items'
      shares: their total, their per-category dict, the Deep Work share of
      the total, the top category and the number of items. */
  function DayStatsOf(items: seq<Item>): DayStats {
    var ps := Shares(items);
    TallyOfValid(ps);
    DayStats(TotalOf(ps), TallyOf(ps), FocusPct(DeepWorkOf(TallyOf(ps)), TotalOf(ps)), TopCategory(TallyOf(ps)), |items|)
  }

  /** `build_day_stats(items)`. */
  method BuildDayStats(items: seq<Item>) returns (r: DayStats)
    ensures r == DayStatsOf(items)
  {
    var totalMin, order, categoryMin := TallyItems(items);
    var deepWorkMin := if DeepWork in categoryMin then categoryMin[DeepWork] else 0;
    var focusPct := if totalMin > 0 then (deepWorkMin * 100) / totalMin else 0;
    var topCat := if order != [] then order[FirstMaxIndex(order, categoryMin)] else NoCategory;
    r := DayStats(totalMin, Tally(order, categoryMin), focusPct, topCat, |items|);
  }

  /** The loop of `build_day_stats`: `total_min` and `category_min`, whose
      keys `order` lists in insertion order. */
  method TallyItems(items: seq<Item>) returns (totalMin: int, order: seq<string>, categoryMin: map<string, int>)
    ensures totalMin == TotalOf(Shares(items))
    ensures Tally(order, categoryMin) == TallyOf(Shares(items))
    ensures TallyValid(Tally(order, categoryMin))
  {
    totalMin := 0;
    categoryMin := map[];
    order := [];
    for i := 0 to |items|
      invariant totalMin == TotalOf(Shares(items[..i]))
      invariant Tally(order, categoryMin) == TallyOf(Shares(items[..i]))
    {
      SharesStep(items, i);
      TallyStep(Shares(items[..i]), ShareOf(items[i]));
      totalMin, order, categoryMin := TallyItem(items[i], totalMin, order, categoryMin);
    }
    assert items[..|items|] == items;
    TallyOfValid(Shares(items));
  }

  /** One pass of the loop: the item's duration is added to `total_min`
      and, by `category_min[cat] = category_min.get(cat, 0) + dur`, to its
      category, which joins the key order when it is new. */
  method TallyItem(item: Item, totalIn: int, orderIn: seq<string>, amountIn: map<string, int>)
    returns (totalOut: int, orderOut: seq<string>, amountOut: map<string, int>)
    ensures totalOut == totalIn + ShareOf(item).seconds
    ensures Tally(orderOut, amountOut) == Add(Tally(orderIn, amountIn), ShareOf(item).category, ShareOf(item).seconds)
  {
    var dur, _ := CalculateDuration(item.startTime, item.endTime);
    var cat := if Falsy(item.category) then "Uncategorized" else item.category.value;
    assert ShareOf(item) == Share(cat, dur);
    totalOut := totalIn + dur;
    if cat in amountIn {
      AddKnown(orderIn, amountIn, cat, dur);
      orderOut, amountOut := orderIn, amountIn[cat := amountIn[cat] + dur];
    } else {
      AddFresh(orderIn, amountIn, cat, dur);
      orderOut, amountOut := orderIn + [cat], amountIn[cat := 0 + dur];
    }
  }

  // ---------------------------------------------------------------------
  // Properties of the day statistics
  // ---------------------------------------------------------------------

  /** The dict has each category once, with its keys in the key list. */
  lemma {:induction false} TallyOfValid(ps: seq<Share>)
    ensures TallyValid(TallyOf(ps))
  {
    if ps != [] {
      TallyOfValid(ps[..|ps| - 1]);
    }
  }

  /** The dict's keys are exactly the shares' categories (after the
      "Uncategorized" default), zero-second ones included. */
  lemma {:induction false} TallyKeysAreCategories(ps: seq<Share>)
    ensures forall c :: c in TallyOf(ps).amount <==> exists i :: 0 <= i < |ps| && ps[i].category == c
  {
    if ps != [] {
      var init := ps[..|ps| - 1];
      TallyKeysAreCategories(init);
      forall c ensures c in TallyOf(ps).amount <==> exists i :: 0 <= i < |ps| && ps[i].category == c {
        if exists i :: 0 <= i < |init| && init[i].category == c {
          var i :| 0 <= i < |init| && init[i].category == c;
          assert ps[i] == init[i];
        }
        if exists i :: 0 <= i < |ps| && ps[i].category == c {
          var i :| 0 <= i < |ps| && ps[i].category == c;
          if i < |init| {
            assert init[i] == ps[i];
          }
        }
      }
    }
  }

  /** Each category's value is the sum of the seconds of its items. */
  lemma {:induction false} TallyIsPerCategory(ps: seq<Share>)
    ensures forall c :: c in TallyOf(ps).amount ==> TallyOf(ps).amount[c] == CategoryTotal(ps, c)
  {
    if ps != [] {
      var init := ps[..|ps| - 1];
      TallyIsPerCategory(init);
      forall c | c in TallyOf(ps).amount
        ensures TallyOf(ps).amount[c] == CategoryTotal(ps, c)
      {
        if c !in TallyOf(init).amount {
          CategoryTotalAbsent(init, c);
        }
      }
    }
  }

  /** A category that no share has sums to zero. */
  lemma {:induction false} CategoryTotalAbsent(ps: seq<Share>, c: string)
    requires c !in TallyOf(ps).amount
    ensures CategoryTotal(ps, c) == 0
  {
    if ps != [] {
      CategoryTotalAbsent(ps[..|ps| - 1], c);
    }
  }

  lemma {:induction false} SumOverFresh(keys: seq<string>, amount: map<string, int>, k: string, v: int)
    requires forall x :: x in keys ==> x in amount
    requires k !in keys
    ensures SumOver(keys, amount[k := v]) == SumOver(keys, amount)
  {
    if keys != [] {
      SumOverFresh(keys[..|keys| - 1], amount, k, v);
    }
  }

  lemma {:induction false} SumOverBump(keys: seq<string>, amount: map<string, int>, k: string, v: int)
    requires forall x :: x in keys ==> x in amount
    requires Distinct(keys) && k in keys
    ensures SumOver(keys, amount[k := amount[k] + v]) == SumOver(keys, amount) + v
  {
    var init := keys[..|keys| - 1];
    if keys[|keys| - 1] == k {
      assert k !in init;
      SumOverFresh(init, amount, k, amount[k] + v);
    } else {
      assert k in init;
      SumOverBump(init, amount, k, v);
    }
  }

  /** Adding under a key keeps the keys distinct and in step with the map. */
  lemma AddValid(t: Tally, k: string, v: int)
    requires TallyValid(t)
    ensures TallyValid(Add(t, k, v))
  {
    if k !in t.amount {
      var keys := t.keys + [k];
      forall i, j | 0 <= i < j < |keys| ensures keys[i] != keys[j] {
        if j == |t.keys| {
          assert keys[i] in t.keys;
        }
      }
    }
  }

  /** Adding `v` under `k` adds `v` to the sum of the values. */
  lemma SumAfterAdd(t: Tally, k: string, v: int)
    requires TallyValid(t)
    ensures TallyValid(Add(t, k, v))
    ensures SumOver(Add(t, k, v).keys, Add(t, k, v).amount) == SumOver(t.keys, t.amount) + v
  {
    AddValid(t, k, v);
    if k in t.amount {
      KnownSum(t, k, v);
    } else {
      FreshSum(t, k, v);
    }
  }

  /** A known key adds the value to its own entry. */
  lemma KnownSum(t: Tally, k: string, v: int)
    requires TallyValid(t) && k in t.amount
    ensures var t' := Add(t, k, v);
      (forall x :: x in t'.keys ==> x in t'.amount) &&
      SumOver(t'.keys, t'.amount) == SumOver(t.keys, t.amount) + v
  {
    SumOverBump(t.keys, t.amount, k, v);
  }

  /** A new key adds its own value to the sum. */
  lemma FreshSum(t: Tally, k: string, v: int)
    requires TallyValid(t) && k !in t.amount
    ensures var t' := Add(t, k, v);
      (forall x :: x in t'.keys ==> x in t'.amount) &&
      SumOver(t'.keys, t'.amount) == SumOver(t.keys, t.amount) + v
  {
    var grown := t.keys + [k];
    assert grown[..|grown| - 1] == t.keys;
    SumOverFresh(t.keys, t.amount, k, v);
  }

  /** `total_minutes` is the sum of the `category_minutes` values. */
  lemma {:induction false} TotalIsSumOfCategories(ps: seq<Share>)
    ensures TallyValid(TallyOf(ps))
    ensures SumOver(TallyOf(ps).keys, TallyOf(ps).amount) == TotalOf(ps)
  {
    if ps != [] {
      var init := ps[..|ps| - 1];
      var last := ps[|ps| - 1];
      TotalIsSumOfCategories(init);
      SumAfterAdd(TallyOf(init), last.category, last.seconds);
    }
  }

  /** No value exceeds the sum, since no duration is negative. */
  lemma {:induction false} ValueAtMostSum(keys: seq<string>, amount: map<string, int>, k: string)
    requires forall x :: x in keys ==> x in amount && amount[x] >= 0
    requires k in keys
    ensures 0 <= amount[k] <= SumOver(keys, amount)
  {
    var init := keys[..|keys| - 1];
    if keys[|keys| - 1] != k {
      assert k in init;
      ValueAtMostSum(init, amount, k);
    }
    SumOverNonNegative(init, amount);
  }

  lemma {:induction false} SumOverNonNegative(keys: seq<string>, amount: map<string, int>)
    requires forall x :: x in keys ==> x in amount && amount[x] >= 0
    ensures SumOver(keys, amount) >= 0
  {
    if keys != [] {
      SumOverNonNegative(keys[..|keys| - 1], amount);
    }
  }

  lemma {:induction false} TallyNonNegative(ps: seq<Share>)
    requires NonNegative(ps)
    ensures forall k :: k in TallyOf(ps).amount ==> TallyOf(ps).amount[k] >= 0
  {
    if ps != [] {
      TallyNonNegative(ps[..|ps| - 1]);
    }
  }

  /** A part of a positive whole is 0 to 100 percent of it. */
  lemma PercentOfPart(deep: int, total: int)
    requires 0 <= deep <= total
    ensures 0 <= FocusPct(deep, total) <= 100
  {
    if total > 0 {
      var q := (deep * 100) / total;
      assert deep * 100 == q * total + (deep * 100) % total;
    }
  }

  /** The focus percentage lies in 0..100: the Deep Work seconds are part
      of the total. */
  lemma FocusInRange(ps: seq<Share>)
    requires NonNegative(ps)
    ensures 0 <= DeepWorkOf(TallyOf(ps)) <= TotalOf(ps)
    ensures 0 <= FocusPct(DeepWorkOf(TallyOf(ps)), TotalOf(ps)) <= 100
  {
    var t := TallyOf(ps);
    TotalIsSumOfCategories(ps);
    TallyNonNegative(ps);
    if DeepWork in t.amount {
      ValueAtMostSum(t.keys, t.amount, DeepWork);
    }
    PercentOfPart(DeepWorkOf(t), TotalOf(ps));
  }

  /** For a day's items, the focus percentage is within 0..100. */
  lemma DayFocusInRange(items: seq<Item>)
    ensures 0 <= FocusPct(DeepWorkOf(TallyOf(Shares(items))), TotalOf(Shares(items))) <= 100
  {
    SharesNonNegative(items);
    FocusInRange(Shares(items));
  }

  /** 120 Deep Work minutes out of 135 is 88 percent. */
  lemma FocusExample()
    ensures FocusPct(120 * 60, 135 * 60) == 88
  {
  }

  /** The top category is the first-inserted one among those with the
      most seconds; with no items it is "—". */
  lemma TopCategoryIsFirstMax(t: Tally)
    requires TallyValid(t)
    ensures t.keys == [] ==> TopCategory(t) == NoCategory
    ensures t.keys != [] ==>
      exists i :: 0 <= i < |t.keys| && TopCategory(t) == t.keys[i] &&
        (forall j :: 0 <= j < |t.keys| ==> t.amount[t.keys[j]] <= t.amount[t.keys[i]]) &&
        (forall j :: 0 <= j < i ==> t.amount[t.keys[j]] < t.amount[t.keys[i]])
  {
    if t.keys != [] {
      var i := FirstMaxIndex(t.keys, t.amount);
      assert TopCategory(t) == t.keys[i];
    }
  }

  /** The `i`-th share is that of the `i`-th item. */
  lemma {:induction false} SharesAt(items: seq<Item>, i: int)
    requires 0 <= i < |items|
    ensures Shares(items)[i] == ShareOf(items[i])
  {
    if i < |items| - 1 {
      SharesAt(items[..|items| - 1], i);
      assert items[..|items| - 1][i] == items[i];
    }
  }

  /** The returned dictionary's parts, from the items' shares. */
  lemma DayStatsParts(items: seq<Item>)
    ensures DayStatsOf(items).totalSeconds == TotalOf(Shares(items))
    ensures DayStatsOf(items).categorySeconds == TallyOf(Shares(items))
    ensures TallyValid(TallyOf(Shares(items)))
    ensures DayStatsOf(items).topCategory == TopCategory(TallyOf(Shares(items)))
    ensures DayStatsOf(items).focusPct == FocusPct(DeepWorkOf(TallyOf(Shares(items))), TotalOf(Shares(items)))
    ensures DayStatsOf(items).entryCount == |items|
  {
    TallyOfValid(Shares(items));
  }

  /** The returned dictionary counts one entry per item, keeps each
      category once, its values add up to the total, and the focus
      percentage lies in 0..100. */
  lemma DayStatsTotals(items: seq<Item>)
    ensures DayStatsOf(items).entryCount == |items|
    ensures TallyValid(DayStatsOf(items).categorySeconds)
    ensures SumOver(DayStatsOf(items).categorySeconds.keys, DayStatsOf(items).categorySeconds.amount) ==
            DayStatsOf(items).totalSeconds
    ensures 0 <= DayStatsOf(items).focusPct <= 100
  {
    DayStatsParts(items);
    TotalIsSumOfCategories(Shares(items));
    DayFocusInRange(items);
  }

  /** The keys of the returned category dict are exactly the items'
      categories. */
  lemma DayStatsCategories(items: seq<Item>)
    ensures forall c :: c in DayStatsOf(items).categorySeconds.amount <==>
            exists i :: 0 <= i < |items| && CategoryOf(items[i]) == c
  {
    var ps := Shares(items);
    DayStatsParts(items);
    TallyKeysAreCategories(ps);
    forall i | 0 <= i < |items|
      ensures ps[i].category == CategoryOf(items[i])
    {
      SharesAt(items, i);
    }
  }

  /** The returned top category is "—" when there are no items and
      otherwise one of the dict's keys. */
  lemma DayStatsTop(items: seq<Item>)
    ensures items == [] ==> DayStatsOf(items).topCategory == NoCategory
    ensures items != [] ==> DayStatsOf(items).topCategory in DayStatsOf(items).categorySeconds.amount
  {
    var t := TallyOf(Shares(items));
    DayStatsParts(items);
    if items != [] {
      DayStatsCategories(items);
      assert CategoryOf(items[0]) in t.amount;
      assert t.keys != [];
      TopCategoryIsFirstMax(t);
    }
  }
}
