/** The text helpers of static/scripts/dashboard.js: the `HH:MM` clock
    text, the `Xh YYm` duration text, and the classifier that gives each
    chart label a palette key. */
module Dashboard {
  import opened Wrappers
  import opened Text
  import opened Clock

  /** `formatTime(date)`, for the hour and minute the date reports. */
  function FormatTime(hour: int, minute: int): (s: string)
    requires 0 <= hour < 24 && 0 <= minute < 60
    ensures s == FormatHourMinute(hour, minute)
  {
    Pad2IsPadStart(hour);
    Pad2IsPadStart(minute);
    PadStart2(NatToDecimal(hour)) + ":" + PadStart2(NatToDecimal(minute))
  }

  /** `formatTime` is five characters, `HH:MM`, and reads back as the time
      it shows. */
  lemma FormatTimeIsHourMinute(hour: int, minute: int)
    requires 0 <= hour < 24 && 0 <= minute < 60
    ensures FormatTime(hour, minute) == FormatHourMinute(hour, minute)
    ensures |FormatTime(hour, minute)| == 5 && FormatTime(hour, minute)[2] == ':'
    ensures ParseClock(HourMinute, FormatTime(hour, minute)) == Some(ClockTime(hour, minute, 0))
  {
    Pad2IsPadStart(hour);
    Pad2IsPadStart(minute);
    HourMinuteRoundTrip(hour, minute);
  }

  /** JavaScript's `%`, whose remainder takes the sign of the dividend. */
  function JsRem(a: int, b: int): (r: int)
    requires b > 0
    ensures a >= 0 ==> 0 <= r < b
    ensures a < 0 ==> -b < r <= 0
    ensures a == (if a >= 0 then a / b else -((-a) / b)) * b + r
  {
    if a >= 0 then a % b else -((-a) % b)
  }

  /** `formatDuration(totalMinutes)` for a whole number of minutes:
      `Math.floor(n / 60)`, then `n % 60` padded to two characters. */
  function FormatDuration(n: int): (s: string)
    ensures n >= 0 ==> s == NatToDecimal(n / 60) + "h " + Pad2(n % 60) + "m"
    ensures n < 0 ==> |s| > 0 && s[0] == '-'
  {
    var s := IntToDecimal(n / 60) + "h " + PadStart2(IntToDecimal(JsRem(n, 60))) + "m";
    if n >= 0 then Pad2IsPadStart(n % 60); s else s
  }

  /** For a non-negative count the text is the hours, then the minutes
      as two digits below 60, and the two give back the count. */
  lemma FormatDurationParts(n: int)
    requires n >= 0
    ensures FormatDuration(n) == NatToDecimal(n / 60) + "h " + Pad2(n % 60) + "m"
    ensures DecimalValue(NatToDecimal(n / 60)) * 60 + DecimalValue(Pad2(n % 60)) == n
  {
    Pad2IsPadStart(n % 60);
  }

  /** 135 minutes are shown as `2h 15m`. */
  lemma FormatDurationExample()
    ensures FormatDuration(135) == "2h 15m"
  {
    assert 135 / 60 == 2 && JsRem(135, 60) == 15;
    assert DigitChar(1) == '1' && DigitChar(2) == '2' && DigitChar(5) == '5';
    assert NatToDecimal(2) == "2";
    assert NatToDecimal(15) == NatToDecimal(1) + [DigitChar(5)] == "15";
    assert PadStart2("15") == "15";
  }

  /** A negative count rounds the hours down but keeps the sign on the
      minutes: -61 is shown as `-2h -1m`. */
  lemma FormatDurationNegative()
    ensures FormatDuration(-61) == "-2h -1m"
  {
    assert -61 / 60 == -2;
    assert JsRem(-61, 60) == -1;
    assert IntToDecimal(-2) == "-" + NatToDecimal(2) == "-2";
    assert IntToDecimal(-1) == "-1";
  }

  // ---------------------------------------------------------------------
  // Chart labels
  // ---------------------------------------------------------------------

  /** The keys of `PALETTE`. */
  const PaletteKeys: set<string> := {"coding", "math", "break", "deepwork", "other"}

  /** The solid colour `PALETTE[key].solid` of each key. */
  const PaletteSolid: map<string, string> :=
    map["coding" := "#a78bda", "math" := "#d4727a", "break" := "#c9a94e",
        "deepwork" := "#56b6a2", "other" := "#6fa8dc"]

  /** The key `fetchChartData` gives a label: the label lower-cased, then
      the first of four groups of words it contains, else 'other'. */
  function ClassifyLabel(labelText: string): (key: string)
    ensures key in PaletteKeys
  {
    var l := Lower(labelText);
    if Contains(l, "code") || Contains(l, "py") || Contains(l, "program") then "coding"
    else if Contains(l, "math") || Contains(l, "alg") then "math"
    else if Contains(l, "break") || Contains(l, "rest") || Contains(l, "sleep") then "break"
    else if Contains(l, "deep") || Contains(l, "focus") then "deepwork"
    else "other"
  }

  /** `VizChart._getKey`: a key the palette has, else 'other'. */
  function GetKey(key: string): (k: string)
    ensures k in PaletteKeys
    ensures k in PaletteSolid
  {
    if key in PaletteKeys then key else "other"
  }

  /** Every key the classifier gives is one the palette has, so the chart
      colours a label by its class; any other key falls back to 'other'. */
  lemma ClassifiedKeysHaveColours(labelText: string, key: string)
    ensures GetKey(ClassifyLabel(labelText)) == ClassifyLabel(labelText)
    ensures key !in PaletteKeys ==> GetKey(key) == "other" && PaletteSolid[GetKey(key)] == "#6fa8dc"
  {
  }

  /** Lower-casing is idempotent on a character. */
  lemma LowerCharIdempotent(c: char)
    ensures LowerChar(LowerChar(c)) == LowerChar(c)
  {
  }

  /** Letter case in a label does not change its class. */
  lemma ClassifyIgnoresCase(labelText: string)
    ensures ClassifyLabel(Lower(labelText)) == ClassifyLabel(labelText)
  {
    forall i | 0 <= i < |labelText| ensures Lower(Lower(labelText))[i] == Lower(labelText)[i] {
      LowerCharIdempotent(labelText[i]);
    }
    assert Lower(Lower(labelText)) == Lower(labelText);
  }

  /** A group of words the classifier tries, and the key it gives. */
  datatype LabelGroup = LabelGroup(key: string, words: seq<string>)

  /** The four groups, in the order the `if … else if` chain tries them. */
  const LabelGroups: seq<LabelGroup> := [
    LabelGroup("coding", ["code", "py", "program"]),
    LabelGroup("math", ["math", "alg"]),
    LabelGroup("break", ["break", "rest", "sleep"]),
    LabelGroup("deepwork", ["deep", "focus"])
  ]

  /** The lower-cased label contains some word of group `g`. */
  predicate HasGroupWord(l: string, g: int)
    requires 0 <= g < |LabelGroups|
  {
    exists w :: 0 <= w < |LabelGroups[g].words| && Contains(l, LabelGroups[g].words[w])
  }

  /** Some word of a two-word group occurs exactly when one of the two does. */
  lemma AnyOfTwo(l: string, ws: seq<string>, a: string, b: string)
    requires ws == [a, b]
    ensures (exists w :: 0 <= w < |ws| && Contains(l, ws[w])) <==> Contains(l, a) || Contains(l, b)
  {
    if exists w :: 0 <= w < |ws| && Contains(l, ws[w]) {
      var w :| 0 <= w < |ws| && Contains(l, ws[w]);
      assert ws[w] == a || ws[w] == b;
    }
    if Contains(l, a) { assert Contains(l, ws[0]); }
    if Contains(l, b) { assert Contains(l, ws[1]); }
  }

  /** The same for a three-word group. */
  lemma AnyOfThree(l: string, ws: seq<string>, a: string, b: string, c: string)
    requires ws == [a, b, c]
    ensures (exists w :: 0 <= w < |ws| && Contains(l, ws[w])) <==> Contains(l, a) || Contains(l, b) || Contains(l, c)
  {
    if exists w :: 0 <= w < |ws| && Contains(l, ws[w]) {
      var w :| 0 <= w < |ws| && Contains(l, ws[w]);
      assert ws[w] == a || ws[w] == b || ws[w] == c;
    }
    if Contains(l, a) { assert Contains(l, ws[0]); }
    if Contains(l, b) { assert Contains(l, ws[1]); }
    if Contains(l, c) { assert Contains(l, ws[2]); }
  }

  /** Each group's test is the disjunction the chain writes out. */
  lemma GroupTests(l: string)
    ensures HasGroupWord(l, 0) <==> Contains(l, "code") || Contains(l, "py") || Contains(l, "program")
    ensures HasGroupWord(l, 1) <==> Contains(l, "math") || Contains(l, "alg")
    ensures HasGroupWord(l, 2) <==> Contains(l, "break") || Contains(l, "rest") || Contains(l, "sleep")
    ensures HasGroupWord(l, 3) <==> Contains(l, "deep") || Contains(l, "focus")
  {
    AnyOfThree(l, LabelGroups[0].words, "code", "py", "program");
    AnyOfTwo(l, LabelGroups[1].words, "math", "alg");
    AnyOfThree(l, LabelGroups[2].words, "break", "rest", "sleep");
    AnyOfTwo(l, LabelGroups[3].words, "deep", "focus");
  }

  /** The first group that matches wins: a label gets group `g`'s key
      exactly when its lower-cased text contains a word of `g` and no word
      of an earlier group, and 'other' exactly when no group matches. */
  lemma ClassifyFirstMatchingGroup(labelText: string)
    ensures forall g :: 0 <= g < |LabelGroups| ==>
      (ClassifyLabel(labelText) == LabelGroups[g].key <==>
         HasGroupWord(Lower(labelText), g) &&
         forall h :: 0 <= h < g ==> !HasGroupWord(Lower(labelText), h))
    ensures ClassifyLabel(labelText) == "other" <==>
      forall g :: 0 <= g < |LabelGroups| ==> !HasGroupWord(Lower(labelText), g)
  {
    GroupTests(Lower(labelText));
    assert LabelGroups[0].key == "coding" && LabelGroups[1].key == "math";
    assert LabelGroups[2].key == "break" && LabelGroups[3].key == "deepwork";
  }

  /** The coding words win over all others, and a label is 'other'
      exactly when it contains no word of any group. */
  lemma ClassifyOrder(labelText: string)
    ensures Contains(Lower(labelText), "code") ==> ClassifyLabel(labelText) == "coding"
    ensures ClassifyLabel(labelText) == "other" <==>
      forall g, w :: 0 <= g < |LabelGroups| && 0 <= w < |LabelGroups[g].words| ==>
        !Contains(Lower(labelText), LabelGroups[g].words[w])
  {
    ClassifyFirstMatchingGroup(labelText);
    assert LabelGroups[0].words[0] == "code";
  }
}
