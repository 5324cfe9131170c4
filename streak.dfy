/** The daily check-in streak of services/streak.py: a counter and the day
    of the last check-in, moved by the number of days between the last
    check-in and today. The stored day is written as `YYYY-MM-DD`. */
module Streak {
  import opened Wrappers
  import opened Calendar

  /** The Python values the service is handed or finds in the user's
      `last_check_in`: nothing, a string, a `date`, a `datetime`, or a value
      of some other type (which may be falsy, like `0`). */
  datatype Value =
    | NoneValue
    | Str(s: string)
    | DateVal(d: Date)
    | DateTimeVal(t: DateTime)
    | Other(falsy: bool)

  /** A `date` or `datetime` object always holds a real day. */
  predicate ValidValue(v: Value) {
    match v
    case DateVal(d) => ValidDate(d)
    case DateTimeVal(t) => ValidDateTime(t)
    case _ => true
  }

  /** Python truthiness, as `if not last_val` tests it. */
  predicate Truthy(v: Value) {
    match v
    case NoneValue => false
    case Str(s) => s != ""
    case Other(falsy) => !falsy
    case _ => true
  }

  /** What the service returns: a changed flag, or the ValueError that
      `strptime` raises on an unreadable `current_date_val`, which the
      service does not catch. */
  datatype Outcome = Returned(changed: bool) | ValueError

  /** How `current_date_val` reads as a day. */
  datatype Reading = Day(d: Date) | Unreadable | UnknownType

  /** Step 1 of the service: a string is parsed as `%Y-%m-%d`, a date is
      taken as it is and a datetime cut down to its date. */
  function ReadToday(v: Value): (r: Reading)
    requires ValidValue(v)
    ensures r.Day? ==> ValidDate(r.d)
  {
    match v
    case Str(s) => (match ParseIsoDate(s) case Some(d) => Day(d) case None => Unreadable)
    case DateVal(d) => Day(d)
    case DateTimeVal(t) => Day(t.date)
    case _ => UnknownType
  }

  /** The streak before and after a call: the counter and the stored value. */
  datatype State = State(streak: int, lastCheckIn: Value)

  /** The streak restarts at one, with today stored. */
  function Restart(today: Date): State
    requires ValidDate(today)
  {
    State(1, Str(IsoFormat(today)))
  }

  /** The day a truthy stored value names, if it can be read as one. */
  function StoredDay(last: Value): (r: Option<Date>)
    requires ValidValue(last)
    ensures r.Some? ==> ValidDate(r.value)
  {
    match last
    case Str(s) => ParseIsoDate(s)
    case DateVal(d) => Some(d)
    case DateTimeVal(t) => Some(t.date)
    case _ => None
  }

  /** Steps 2 and 3 of the service, once today is known. */
  function CheckIn(st: State, today: Date): (r: (Outcome, State))
    requires ValidDate(today) && ValidValue(st.lastCheckIn)
  {
    var last := st.lastCheckIn;
    if !Truthy(last) || StoredDay(last).None? then (Returned(true), Restart(today))
    else
      var delta := Ordinal(today) - Ordinal(StoredDay(last).value);
      if delta == 0 then (Returned(false), st)
      else if delta == 1 then (Returned(true), State(st.streak + 1, Str(IsoFormat(today))))
      else (Returned(true), Restart(today))
  }

  /** `update_user_streak` as a function of the old state and the input:
      its outcome and the new state. */
  function Step(st: State, current: Value): (r: (Outcome, State))
    requires ValidValue(current) && ValidValue(st.lastCheckIn)
    ensures r.0 != Returned(true) ==> r.1 == st
    ensures r.0 == Returned(true) ==> r.1.lastCheckIn.Str? && (r.1.streak == 1 || r.1.streak == st.streak + 1)
  {
    match ReadToday(current)
    case UnknownType => (Returned(false), st)
    case Unreadable => (ValueError, st)
    case Day(today) => CheckIn(st, today)
  }

  /** A check-in on the stored day itself changes nothing. */
  lemma CheckInSameDay(st: State, current: Value, today: Date, lastDate: Date)
    requires ValidValue(current) && ValidValue(st.lastCheckIn)
    requires ReadToday(current) == Day(today) && Truthy(st.lastCheckIn)
    requires StoredDay(st.lastCheckIn) == Some(lastDate)
    requires Ordinal(today) - Ordinal(lastDate) == 0
    ensures Step(st, current) == (Returned(false), st)
  {
  }

  /** A check-in on the day after the stored one extends the streak. */
  lemma CheckInNextDay(st: State, current: Value, today: Date, lastDate: Date)
    requires ValidValue(current) && ValidValue(st.lastCheckIn)
    requires ReadToday(current) == Day(today) && Truthy(st.lastCheckIn)
    requires StoredDay(st.lastCheckIn) == Some(lastDate)
    requires Ordinal(today) - Ordinal(lastDate) == 1
    ensures Step(st, current) == (Returned(true), State(st.streak + 1, Str(IsoFormat(today))))
  {
  }

  /** A check-in any other number of days away restarts the streak. */
  lemma CheckInAfterGap(st: State, current: Value, today: Date, lastDate: Date)
    requires ValidValue(current) && ValidValue(st.lastCheckIn)
    requires ReadToday(current) == Day(today) && Truthy(st.lastCheckIn)
    requires StoredDay(st.lastCheckIn) == Some(lastDate)
    requires Ordinal(today) - Ordinal(lastDate) != 0 && Ordinal(today) - Ordinal(lastDate) != 1
    ensures Step(st, current) == (Returned(true), Restart(today))
  {
  }

  /** The user record the service updates in place. */
  class User {
    var streak: int
    var lastCheckIn: Value

    constructor (streak: int, lastCheckIn: Value)
      ensures this.streak == streak && this.lastCheckIn == lastCheckIn
    {
      this.streak := streak;
      this.lastCheckIn := lastCheckIn;
    }

    function Current(): State
      reads this
    {
      State(streak, lastCheckIn)
    }
  }

  /** `update_user_streak(user, current_date_val)`, updating the user in place. */
  method UpdateUserStreak(user: User, current: Value) returns (r: Outcome)
    requires ValidValue(current) && ValidValue(user.lastCheckIn)
    modifies user
    ensures (r, user.Current()) == Step(old(user.Current()), current)
  {
    ghost var st := user.Current();
    // 1. today's date from a string, a date or a datetime
    var reading := ReadToday(current);
    if reading.UnknownType? {
      return Returned(false);
    } else if reading.Unreadable? {
      return ValueError;
    }
    var today := reading.d;

    // 2. no previous check-in
    var lastVal := user.lastCheckIn;
    if !Truthy(lastVal) {
      user.streak := 1;
      user.lastCheckIn := Str(IsoFormat(today));
      return Returned(true);
    }

    // 3. the stored day, as a string, a date or a datetime; anything
    //    else restarts the streak
    var stored := StoredDay(lastVal);
    if stored.None? {
      user.streak := 1;
      user.lastCheckIn := Str(IsoFormat(today));
      return Returned(true);
    }
    var lastDate := stored.value;

    // 4. the delta rule
    var deltaDays := Ordinal(today) - Ordinal(lastDate);
    if deltaDays == 0 {
      CheckInSameDay(st, current, today, lastDate);
      return Returned(false);
    }
    ghost var next := Step(st, current).1;
    if deltaDays == 1 {
      CheckInNextDay(st, current, today, lastDate);
      user.streak := user.streak + 1;
    } else {
      CheckInAfterGap(st, current, today, lastDate);
      user.streak := 1;
    }
    assert user.streak == next.streak;
    user.lastCheckIn := Str(IsoFormat(today));
    return Returned(true);
  }

  // ---------------------------------------------------------------------
  // Properties
  // ---------------------------------------------------------------------

  /** An input of another type is answered with False and changes nothing. */
  lemma UnknownInputIgnored(st: State, current: Value)
    requires ValidValue(st.lastCheckIn)
    requires current.NoneValue? || current.Other?
    ensures Step(st, current) == (Returned(false), st)
  {
  }

  /** A datetime counts as the day it falls on. */
  lemma DateTimeTruncated(st: State, t: DateTime)
    requires ValidValue(st.lastCheckIn) && ValidDateTime(t)
    ensures Step(st, DateTimeVal(t)) == Step(st, DateVal(t.date))
  {
  }

  /** A date string and the date it names are the same input. */
  lemma IsoInputIsDate(st: State, today: Date)
    requires ValidValue(st.lastCheckIn) && ValidDate(today)
    ensures Step(st, Str(IsoFormat(today))) == Step(st, DateVal(today))
  {
    IsoRoundTrip(today);
  }

  /** An unreadable date string raises and changes nothing. */
  lemma UnreadableInputRaises(st: State, s: string)
    requires ValidValue(st.lastCheckIn) && ParseIsoDate(s).None?
    ensures Step(st, Str(s)) == (ValueError, st)
  {
  }

  /** The first check-in (no stored value, or an empty one) starts a
      streak of one. */
  lemma FirstCheckIn(streak: int, last: Value, today: Date)
    requires ValidValue(last) && !Truthy(last) && ValidDate(today)
    ensures Step(State(streak, last), DateVal(today)) == (Returned(true), Restart(today))
  {
  }

  /** A stored value that cannot be read as a day restarts the streak. */
  lemma CorruptStoredValueRestarts(streak: int, last: Value, today: Date)
    requires ValidValue(last) && ValidDate(today)
    requires last.Other? || (last.Str? && ParseIsoDate(last.s).None?)
    ensures Step(State(streak, last), DateVal(today)) == (Returned(true), Restart(today))
  {
  }

  /** The delta rule, once the last check-in is a day the service wrote
      (`YYYY-MM-DD`): same day changes nothing, the next day adds one, any
      other distance (later or earlier) restarts at one. */
  lemma DeltaRule(streak: int, last: Date, today: Date)
    requires ValidDate(last) && ValidDate(today)
    ensures var st := State(streak, Str(IsoFormat(last)));
      var delta := Ordinal(today) - Ordinal(last);
      (delta == 0 ==> Step(st, DateVal(today)) == (Returned(false), st)) &&
      (delta == 1 ==> Step(st, DateVal(today)) == (Returned(true), State(streak + 1, Str(IsoFormat(today))))) &&
      (delta != 0 && delta != 1 ==> Step(st, DateVal(today)) == (Returned(true), Restart(today)))
  {
    var st := State(streak, Str(IsoFormat(last)));
    IsoRoundTrip(last);
    assert ReadToday(DateVal(today)) == Day(today);
    assert StoredDay(st.lastCheckIn) == Some(last);
    assert Step(st, DateVal(today)) == CheckIn(st, today);
  }

  /** Same day again: nothing happens, whatever the stored form of the day. */
  lemma SameDayIsNoChange(st: State, today: Date)
    requires ValidDate(today) && ValidValue(st.lastCheckIn)
    requires st.lastCheckIn == Str(IsoFormat(today)) || st.lastCheckIn == DateVal(today)
    ensures Step(st, DateVal(today)) == (Returned(false), st)
  {
    IsoRoundTrip(today);
  }

  /** Whenever the service writes, it writes today as `YYYY-MM-DD`, and
      that text reads back as today. */
  lemma StoredAsIsoText(st: State, current: Value)
    requires ValidValue(current) && ValidValue(st.lastCheckIn)
    requires Step(st, current).0 == Returned(true)
    ensures ReadToday(current).Day?
    ensures Step(st, current).1.lastCheckIn == Str(IsoFormat(ReadToday(current).d))
    ensures ParseIsoDate(Step(st, current).1.lastCheckIn.s) == Some(ReadToday(current).d)
    ensures Step(st, current).1.streak == 1 || Step(st, current).1.streak == st.streak + 1
  {
    IsoRoundTrip(ReadToday(current).d);
  }

  /** Three check-ins on consecutive days, starting from none, give a
      streak of three; a fourth on the same day keeps it. */
  lemma ThreeDaysInARow(d1: Date, d2: Date, d3: Date)
    requires ValidDate(d1) && ValidDate(d2) && ValidDate(d3)
    requires Ordinal(d2) == Ordinal(d1) + 1 && Ordinal(d3) == Ordinal(d2) + 1
    ensures var s1 := Step(State(0, NoneValue), DateVal(d1)).1;
      var s2 := Step(s1, DateVal(d2)).1;
      var s3 := Step(s2, DateVal(d3)).1;
      s3 == State(3, Str(IsoFormat(d3))) && Step(s3, DateVal(d3)) == (Returned(false), s3)
  {
    DeltaRule(1, d1, d2);
    DeltaRule(2, d2, d3);
    DeltaRule(3, d3, d3);
  }

  /** Missing a day breaks the streak. */
  lemma GapRestarts(streak: int, last: Date, today: Date)
    requires ValidDate(last) && ValidDate(today) && Ordinal(today) > Ordinal(last) + 1
    ensures Step(State(streak, Str(IsoFormat(last))), DateVal(today)).1.streak == 1
  {
    DeltaRule(streak, last, today);
  }
}
