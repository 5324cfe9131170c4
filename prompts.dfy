/** `get_audit_prompt` of services/prompts.py: the prompt sent to the
    language model, built from the two notes, the day's logs, a tone and
    the current time. A blank note is replaced by a default text, the tone
    picks one of three personas, and everything is placed into one fixed
    template. The clock is a parameter, and `logs_data` is taken as the text
    that `str()` makes of it. */
module Prompts {
  import opened Wrappers
  import opened Text
  import opened Calendar
  import opened Clock

  const DefaultTone: string := "strict"

  const RoastPersona: string :=
    "You are a sarcastic, roasting AI. Mock the user for bad habits funny but painfully true."
  const GentlePersona: string :=
    "You are a supportive life coach. Be encouraging and focus on mental health."
  const StrictPersona: string :=
    "You are a ruthless Productivity Auditor. Logic only. No excuses. High standards."

  const NoGoals: string := "No long-term goals set."
  const NoTasks: string := "No specific daily tasks."

  /** The persona of a tone: "roast" and "gentle" have their own, every
      other tone gets the strict auditor. */
  function Persona(tone: string): (p: string)
    ensures p == RoastPersona || p == GentlePersona || p == StrictPersona
  {
    if tone == "roast" then RoastPersona
    else if tone == "gentle" then GentlePersona
    else StrictPersona
  }

  /** Each of the three personas belongs to exactly the tones above. */
  lemma PersonaByTone(tone: string)
    ensures Persona(tone) == RoastPersona <==> tone == "roast"
    ensures Persona(tone) == GentlePersona <==> tone == "gentle"
    ensures Persona(tone) == StrictPersona <==> tone != "roast" && tone != "gentle"
  {
  }

  /** `note if note and note.strip() else default`. */
  function OrDefault(note: Option<string>, default: string): (r: string)
    ensures r == default || (note.Some? && r == note.value && Strip(r) != "")
  {
    if note.Some? && note.value != "" && Strip(note.value) != "" then note.value else default
  }

  /** `now.strftime("%Y-%m-%d %H:%M")`. */
  function TimeText(now: DateTime): (s: string)
    requires ValidDateTime(now)
    ensures |s| == 16
  {
    IsoFormat(now.date) + " " + FormatHourMinute(now.hour, now.minute)
  }

  // The fixed text of the template, around its five fields.
  const Intro: string := "\n    [ROLE DEFINITION]\n    "
  const TimeLabel: string := "\n    Current Time: "
  const GoalsLabel: string := "\n\n    [DATA STREAM - USER CONTEXT]\n    Long-term Goals (Notebook): "
  const TasksLabel: string := "\n    Today's Tasks (Quick Note): "
  const LogsLabel: string := "\n\n    [DATA STREAM - ACTIVITY LOGS]\n    "
  const Protocol: string :=
    "\n" +
    "\n    [EVALUATION PROTOCOL]" +
    "\n    Analyze the user's day based on 3 dimensions:" +
    "\n    1. **Alignment:** Did they do what they planned in Notebook/Quick Note?" +
    "\n       - *FALLBACK RULE:* If User Context is empty or nonsense, judge based on \"General High-Performance Standards\" (Deep work vs. Cheap dopamine)." +
    "\n    2. **Efficiency:** Look for fragmentation, multitasking, or long idle gaps." +
    "\n    3. **Health & Biology:** - Check for late-night grinding (sleep deprivation)." +
    "\n       - Check for skipped meals (long gaps without 'Lunch'/'Dinner')." +
    "\n       - Check for sedentary behavior (4+ hours without break)." +
    "\n" +
    "\n    [DECISION LOGIC FOR 'STATUS']" +
    "\n    - GREEN: High alignment, healthy routine, strong focus." +
    "\n    - YELLOW: Moderate alignment OR minor health issues (e.g., skipped lunch)." +
    "\n    - RED: Zero alignment, severe procrastination, OR severe health risk (e.g., staying up past 2 AM, 12h gaming)." +
    "\n" +
    "\n    [OUTPUT FORMAT]" +
    "\n    Return ONLY a raw JSON object (no markdown, no ```json tags)." +
    "\n    Keys required:" +
    "\n    - \"score\": (0-100 integer. Deduct points heavily for health violations)." +
    "\n    - \"status\": (\"green\", \"yellow\", or \"red\")." +
    "\n    - \"insight\": (Max 15 words. Sharp, specific comment on their biggest win or fail)." +
    "\n    - \"warning\": (String. Specific health/habit warning like \"Go to sleep\", \"Eat dinner\", or \"None\")." +
    "\n    "

  /** The template's text before each field, in order, and its closing text. */
  datatype Template = Template(labels: seq<string>, closing: string)

  /** The template of the audit prompt. */
  const AuditTemplate: Template := Template([Intro, TimeLabel, GoalsLabel, TasksLabel, LogsLabel], Protocol)

  /** The first `n` labels, each followed by its field. */
  function Assemble(labels: seq<string>, fields: seq<string>, n: nat): string
    requires n <= |labels| && n <= |fields|
  {
    if n == 0 then "" else Assemble(labels, fields, n - 1) + labels[n - 1] + fields[n - 1]
  }

  /** The template filled in: every label followed by its field, then the
      closing text. */
  function Render(t: Template, fields: seq<string>): string
    requires |t.labels| <= |fields|
  {
    Assemble(t.labels, fields, |t.labels|) + t.closing
  }

  /** The five values the f-string places into the template. */
  function Fields(notebook: Option<string>, quickNote: Option<string>, logsData: string,
                  tone: string, now: DateTime): (f: seq<string>)
    requires ValidDateTime(now)
    ensures |f| == |AuditTemplate.labels|
  {
    [Persona(tone), TimeText(now), OrDefault(notebook, NoGoals), OrDefault(quickNote, NoTasks), logsData]
  }

  /** `get_audit_prompt(notebook, quick_note, logs_data, tone)` at time `now`:
      every label followed by its field, then the fixed closing text. */
  function GetAuditPrompt(notebook: Option<string>, quickNote: Option<string>, logsData: string,
                          tone: string, now: DateTime): (r: string)
    requires ValidDateTime(now)
    ensures Contains(r, Persona(tone))
  {
    var f := Fields(notebook, quickNote, logsData, tone, now);
    RenderHolds(AuditTemplate, f, 0);
    Render(AuditTemplate, f)
  }

  // ---------------------------------------------------------------------
  // Properties
  // ---------------------------------------------------------------------

  /** With no tone given, or any tone other than "roast" and "gentle", the
      prompt is the strict auditor's. */
  lemma DefaultToneIsStrict(notebook: Option<string>, quickNote: Option<string>, logsData: string,
                            tone: string, now: DateTime)
    requires ValidDateTime(now) && tone != "roast" && tone != "gentle"
    ensures Persona(DefaultTone) == StrictPersona
    ensures GetAuditPrompt(notebook, quickNote, logsData, tone, now) ==
            GetAuditPrompt(notebook, quickNote, logsData, DefaultTone, now)
  {
  }

  /** A missing, empty or whitespace-only note is replaced by the default
      text; any other note is kept as it is. */
  lemma BlankNoteUsesDefault(note: Option<string>, default: string)
    ensures note.None? || (forall i :: 0 <= i < |note.value| ==> IsSpace(note.value[i])) ==>
      OrDefault(note, default) == default
    ensures note.Some? && (exists i :: 0 <= i < |note.value| && !IsSpace(note.value[i])) ==>
      OrDefault(note, default) == note.value
  {
    if note.Some? {
      StripEmptyIffBlank(note.value);
    }
  }

  /** A text contains itself, and whatever it contains stays contained
      when more text is added before or after it. */
  lemma ContainsGrows(a: string, m: string, b: string, x: string)
    ensures Contains(x, x)
    ensures Contains(m, x) ==> Contains(a + m, x) && Contains(m + b, x)
  {
    assert OccursAt(x, x, 0);
    ContainsIffOccurs(x, x);
    if Contains(m, x) {
      ContainsIffOccurs(m, x);
      var i :| OccursAt(x, m, i);
      assert (a + m)[|a| + i..|a| + i + |x|] == m[i..i + |x|];
      assert OccursAt(x, a + m, |a| + i);
      ContainsIffOccurs(a + m, x);
      assert (m + b)[i..i + |x|] == m[i..i + |x|];
      assert OccursAt(x, m + b, i);
      ContainsIffOccurs(m + b, x);
    }
  }

  /** The five fields are the persona, the time, both notes (or their
      defaults) and the logs, and each appears in the prompt as it is. */
  lemma PromptHoldsFields(notebook: Option<string>, quickNote: Option<string>, logsData: string,
                          tone: string, now: DateTime)
    requires ValidDateTime(now)
    ensures var f := Fields(notebook, quickNote, logsData, tone, now);
      f == [Persona(tone), TimeText(now), OrDefault(notebook, NoGoals), OrDefault(quickNote, NoTasks), logsData] &&
      forall k :: 0 <= k < |f| ==> Contains(GetAuditPrompt(notebook, quickNote, logsData, tone, now), f[k])
  {
    var fields := Fields(notebook, quickNote, logsData, tone, now);
    forall k | 0 <= k < |fields| ensures Contains(Render(AuditTemplate, fields), fields[k]) {
      RenderHolds(AuditTemplate, fields, k);
    }
  }

  /** Every field appears in the filled-in template. */
  lemma RenderHolds(t: Template, fields: seq<string>, k: nat)
    requires |t.labels| <= |fields| && k < |t.labels|
    ensures Contains(Render(t, fields), fields[k])
  {
    AssembleHolds(t.labels, fields, |t.labels|, k);
    ContainsGrows("", Assemble(t.labels, fields, |t.labels|), t.closing, fields[k]);
  }

  lemma {:induction false} AssembleHolds(labels: seq<string>, fields: seq<string>, n: nat, k: nat)
    requires n <= |labels| && n <= |fields| && k < n
    ensures Contains(Assemble(labels, fields, n), fields[k])
  {
    var prev := Assemble(labels, fields, n - 1);
    if k == n - 1 {
      ContainsGrows(prev + labels[n - 1], fields[k], "", fields[k]);
    } else {
      AssembleHolds(labels, fields, n - 1, k);
      ContainsGrows(prev, labels[n - 1], "", fields[k]);
      ContainsGrows("", prev, labels[n - 1], fields[k]);
      ContainsGrows("", prev + labels[n - 1], fields[n - 1], fields[k]);
    }
  }

  /** The time text is the date as `YYYY-MM-DD`, a space, and `HH:MM`, and
      both halves read back as the moment they were written from. */
  lemma TimeTextRoundTrip(now: DateTime)
    requires ValidDateTime(now)
    ensures TimeText(now)[10] == ' '
    ensures ParseIsoDate(TimeText(now)[..10]) == Some(now.date)
    ensures ParseClock(HourMinute, TimeText(now)[11..]) == Some(ClockTime(now.hour, now.minute, 0))
  {
    var s := TimeText(now);
    assert s[..10] == IsoFormat(now.date);
    assert s[11..] == FormatHourMinute(now.hour, now.minute);
    IsoRoundTrip(now.date);
    HourMinuteRoundTrip(now.hour, now.minute);
  }
}
