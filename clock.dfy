/** Times of day as `datetime.strptime` reads them with the formats
    `%H:%M` and `%H:%M:%S`, and as the browser scripts write them. */
module Clock {
  import opened Text
  import opened Wrappers

  datatype ClockTime = ClockTime(hour: int, minute: int, second: int)

  predicate ValidClock(c: ClockTime) {
    0 <= c.hour < 24 && 0 <= c.minute < 60 && 0 <= c.second < 60
  }

  /** Seconds since midnight. */
  function SecondsOfDay(c: ClockTime): (n: int)
    requires ValidClock(c)
    ensures 0 <= n < 86400
  {
    c.hour * 3600 + c.minute * 60 + c.second
  }

  /** The formats `calculate_duration_minutes` tries, in order. */
  datatype Format = HourMinute | HourMinuteSecond

  /** The `%H` field: `2[0-3]|[0-1]\d|\d`. */
  function HourField(f: string): (r: Option<int>)
    ensures r.Some? ==> 0 <= r.value < 24
  {
    if |f| == 1 && IsDigit(f[0]) then Some(DigitValue(f[0]))
    else if |f| == 2 && AllDigits(f) && DecimalValue(f) < 24 then Some(DecimalValue(f))
    else None
  }

  /** The `%M` field, `[0-5]\d|\d`; `%S` reads the same way once the
      leap-second values 60 and 61, which `datetime` rejects, are left out. */
  function SexagesimalField(f: string): (r: Option<int>)
    ensures r.Some? ==> 0 <= r.value < 60
  {
    if |f| == 1 && IsDigit(f[0]) then Some(DigitValue(f[0]))
    else if |f| == 2 && AllDigits(f) && DecimalValue(f) < 60 then Some(DecimalValue(f))
    else None
  }

  /** Splits `s` at a ':' that ends a one- or two-character leading field. */
  function SplitField(s: string): (r: Option<(string, string)>)
    ensures r.Some? ==> 1 <= |r.value.0| <= 2 && s == r.value.0 + ":" + r.value.1
  {
    if |s| >= 2 && s[1] == ':' then
      assert s == s[..1] + ":" + s[2..];
      Some((s[..1], s[2..]))
    else if |s| >= 3 && s[2] == ':' && s[1] != ':' then
      assert s == s[..2] + ":" + s[3..];
      Some((s[..2], s[3..]))
    else None
  }

  /** `datetime.strptime(s, fmt)` as a time of day, `None` for the
      ValueError it raises: each field as its directive allows, the colons
      between them, and no text left over. */
  function ParseClock(fmt: Format, s: string): (r: Option<ClockTime>)
    ensures r.Some? ==> ValidClock(r.value)
    ensures fmt == HourMinute && r.Some? ==> r.value.second == 0
  {
    match SplitField(s)
    case None => None
    case Some((hf, rest)) =>
      var h := HourField(hf);
      if h.None? then None
      else match fmt
        case HourMinute =>
          var m := SexagesimalField(rest);
          if m.None? then None else Some(ClockTime(h.value, m.value, 0))
        case HourMinuteSecond =>
          match SplitField(rest)
          case None => None
          case Some((mf, sf)) =>
            var m := SexagesimalField(mf);
            var sec := SexagesimalField(sf);
            if m.None? || sec.None? then None else Some(ClockTime(h.value, m.value, sec.value))
  }

  /** `HH:MM`, two zero-padded fields. */
  function FormatHourMinute(h: int, m: int): (s: string)
    requires 0 <= h < 24 && 0 <= m < 60
    ensures |s| == 5 && s[2] == ':'
  {
    Pad2(h) + ":" + Pad2(m)
  }

  /** What the recorder writes, `strptime(…, "%H:%M")` reads back as the
      same time of day. */
  lemma HourMinuteRoundTrip(h: int, m: int)
    requires 0 <= h < 24 && 0 <= m < 60
    ensures ParseClock(HourMinute, FormatHourMinute(h, m)) == Some(ClockTime(h, m, 0))
  {
    var s := FormatHourMinute(h, m);
    assert s[..2] == Pad2(h) && s[3..] == Pad2(m);
    assert SplitField(s) == Some((Pad2(h), Pad2(m)));
  }

  /** A text with seconds never reads as `%H:%M`: the first format only
      accepts two fields. */
  lemma SecondsDefeatHourMinute(h: int, m: int, sec: int)
    requires 0 <= h < 24 && 0 <= m < 60 && 0 <= sec < 60
    ensures ParseClock(HourMinute, FormatHourMinute(h, m) + ":" + Pad2(sec)) == None
    ensures ParseClock(HourMinuteSecond, FormatHourMinute(h, m) + ":" + Pad2(sec)) ==
            Some(ClockTime(h, m, sec))
  {
    var s := FormatHourMinute(h, m) + ":" + Pad2(sec);
    assert s[..2] == Pad2(h) && s[3..] == Pad2(m) + ":" + Pad2(sec);
    var rest := s[3..];
    assert rest[..2] == Pad2(m) && rest[3..] == Pad2(sec);
    assert SplitField(s) == Some((Pad2(h), rest));
    assert SplitField(rest) == Some((Pad2(m), Pad2(sec)));
  }
}
