/** The Pomodoro timer of static/scripts/dashboard.js and
    static/scripts/pomodoro.js. Both scripts hold the same module-level state
    (the phase, the seconds left, whether the timer runs, and the completed
    work phases) and change it the same way: a button toggles the timer, a
    one-second interval counts down while it runs, and an expired phase
    moves to the next one, with a long break after every fourth work phase.
    The scripts differ only in what they draw. */
module Pomodoro {
  import opened Text

  datatype Phase = Work | Short | Long

  const WorkTime: int := 25 * 60
  const ShortBreak: int := 3 * 60
  const LongBreak: int := 15 * 60
  const CyclesBeforeLong: int := 4

  /** The length of a phase in seconds. */
  function Total(p: Phase): int {
    match p
    case Work => WorkTime
    case Short => ShortBreak
    case Long => LongBreak
  }

  /** `(currentPhase, pomoLeft, isPomoRunning, cycleCount)`. */
  datatype State = State(phase: Phase, left: int, running: bool, cycles: int)

  /** The state on page load. */
  const Initial: State := State(Work, WorkTime, false, 0)

  /** What holds between events: fewer than four completed work phases
      are pending, the seconds left lie within the phase, a long break
      comes with the count reset, and a short break follows at least one
      work phase. */
  predicate Valid(st: State) {
    0 <= st.cycles < CyclesBeforeLong &&
    0 <= st.left <= Total(st.phase) &&
    (st.phase == Long ==> st.cycles == 0) &&
    (st.phase == Short ==> st.cycles >= 1)
  }

  /** `togglePomodoro`: start (the interval is set) or pause (it is cleared). */
  function Toggled(st: State): (r: State)
    ensures r.running != st.running && r.(running := st.running) == st
  {
    st.(running := !st.running)
  }

  /** `handlePhaseComplete`. */
  function Completed(st: State): (r: State)
    ensures !r.running && r.left == Total(r.phase)
    ensures r.phase == Work <==> st.phase != Work
  {
    if st.phase == Work then
      var n := st.cycles + 1;
      if n >= CyclesBeforeLong then State(Long, LongBreak, false, 0)
      else State(Short, ShortBreak, false, n)
    else State(Work, WorkTime, false, st.cycles)
  }

  /** One call of the interval callback, which exists only while running. */
  function Ticked(st: State): (r: State)
    requires st.running
    ensures r.running ==> r == st.(left := st.left - 1) && st.left > 0
    ensures !r.running ==> r == Completed(st)
  {
    if st.left > 0 then st.(left := st.left - 1) else Completed(st)
  }

  /** The module-level variables of either script. */
  class Timer {
    var phase: Phase
    var left: int
    var running: bool
    var cycles: int

    function Current(): State
      reads this
    {
      State(phase, left, running, cycles)
    }

    constructor ()
      ensures Current() == Initial
    {
      phase := Work;
      left := WorkTime;
      running := false;
      cycles := 0;
    }

    method Toggle()
      modifies this
      ensures Current() == Toggled(old(Current()))
    {
      if !running {
        running := true;
      } else {
        running := false;
      }
    }

    method HandlePhaseComplete()
      modifies this
      ensures Current() == Completed(old(Current()))
    {
      running := false;
      if phase == Work {
        cycles := cycles + 1;
        if cycles >= CyclesBeforeLong {
          phase := Long;
          left := LongBreak;
          cycles := 0;
        } else {
          phase := Short;
          left := ShortBreak;
        }
      } else {
        phase := Work;
        left := WorkTime;
      }
    }

    method Tick()
      requires running
      modifies this
      ensures Current() == Ticked(old(Current()))
    {
      if left > 0 {
        left := left - 1;
      } else {
        HandlePhaseComplete();
      }
    }

    /** `updateDots`: four dots, the first `cycleCount` of them done. */
    method UpdateDots() returns (dots: seq<bool>)
      ensures |dots| == CyclesBeforeLong
      ensures forall i :: 0 <= i < |dots| ==> (dots[i] <==> i < cycles)
    {
      dots := [];
      for i := 0 to CyclesBeforeLong
        invariant |dots| == i
        invariant forall k :: 0 <= k < i ==> (dots[k] <==> k < cycles)
      {
        dots := dots + [i < cycles];
      }
    }
  }

  /** The timer text `MM:SS`: `Math.floor(pomoLeft / 60)` and
      `pomoLeft % 60`, each padded to two characters. */
  function DisplayText(left: nat): (s: string)
    ensures |s| >= 5 && s[|s| - 3] == ':'
    ensures AllDigits(s[|s| - 2..]) && DecimalValue(s[|s| - 2..]) == left % 60
  {
    Pad2IsPadStart(left % 60);
    PadStart2(NatToDecimal(left / 60)) + ":" + PadStart2(NatToDecimal(left % 60))
  }

  // ---------------------------------------------------------------------
  // Events
  // ---------------------------------------------------------------------

  /** A press of the button, or one second of wall-clock time. */
  datatype Event = Press | Second

  /** A second calls the interval only while one is set. */
  function Apply(st: State, e: Event): State {
    match e
    case Press => Toggled(st)
    case Second => if st.running then Ticked(st) else st
  }

  function Run(st: State, es: seq<Event>): State
    decreases |es|
  {
    if es == [] then st else Run(Apply(st, es[0]), es[1..])
  }

  /** `k` seconds of running time. */
  function Seconds(st: State, k: nat): State {
    if k == 0 then st else Apply(Seconds(st, k - 1), Second)
  }

  /** `k` phase completions in a row. */
  function Completions(st: State, k: nat): State {
    if k == 0 then st else Completed(Completions(st, k - 1))
  }

  // ---------------------------------------------------------------------
  // Properties
  // ---------------------------------------------------------------------

  lemma InitialValid()
    ensures Valid(Initial)
  {
  }

  /** Every completion stops the timer and starts the next phase full;
      the count of pending work phases stays below four. */
  lemma CompletedValid(st: State)
    requires Valid(st)
    ensures Valid(Completed(st))
    ensures !Completed(st).running && Completed(st).left == Total(Completed(st).phase)
  {
  }

  /** Each event keeps the state valid. */
  lemma ApplyValid(st: State, e: Event)
    requires Valid(st)
    ensures Valid(Apply(st, e))
  {
  }

  /** So does any sequence of events. */
  lemma {:induction false} RunValid(st: State, es: seq<Event>)
    requires Valid(st)
    ensures Valid(Run(st, es))
    decreases |es|
  {
    if es != [] {
      ApplyValid(st, es[0]);
      RunValid(Apply(st, es[0]), es[1..]);
    }
  }

  /** Pausing keeps the phase, the seconds left and the count, and a second
      press resumes exactly where the timer stood. */
  lemma PauseKeepsProgress(st: State)
    requires st.running
    ensures Toggled(st) == State(st.phase, st.left, false, st.cycles)
    ensures Toggled(Toggled(st)) == st
  {
  }

  /** While paused, time passing changes nothing. */
  lemma {:induction false} PausedTimeIsIgnored(st: State, k: nat)
    requires !st.running
    ensures Seconds(st, k) == st
  {
    if k > 0 {
      PausedTimeIsIgnored(st, k - 1);
    }
  }

  /** A running timer counts down one per second until it reaches zero. */
  lemma {:induction false} CountDown(st: State, k: nat)
    requires st.running && k <= st.left
    ensures Seconds(st, k) == st.(left := st.left - k)
  {
    if k > 0 {
      CountDown(st, k - 1);
    }
  }

  /** A running phase ends on the second after it reaches zero: then the
      timer stands stopped at the start of the next phase. */
  lemma PhaseEnds(st: State)
    requires st.running && st.left >= 0
    ensures Seconds(st, st.left + 1) == Completed(st)
  {
    CountDown(st, st.left);
    assert Seconds(st, st.left) == st.(left := 0);
  }

  /** Work phases alternate with breaks; the first three breaks after a
      reset are short and the fourth is long, after which the cycle starts
      over. */
  lemma LongBreakEveryFourth(left: int, running: bool)
    ensures Completions(State(Work, left, running, 0), 1) == State(Short, ShortBreak, false, 1)
    ensures Completions(State(Work, left, running, 0), 2) == State(Work, WorkTime, false, 1)
    ensures Completions(State(Work, left, running, 0), 3) == State(Short, ShortBreak, false, 2)
    ensures Completions(State(Work, left, running, 0), 5) == State(Short, ShortBreak, false, 3)
    ensures Completions(State(Work, left, running, 0), 7) == State(Long, LongBreak, false, 0)
    ensures Completions(State(Work, left, running, 0), 8) == State(Work, WorkTime, false, 0)
  {
    var st := State(Work, left, running, 0);
    assert Completions(st, 1) == State(Short, ShortBreak, false, 1);
    assert Completions(st, 2) == State(Work, WorkTime, false, 1);
    assert Completions(st, 3) == State(Short, ShortBreak, false, 2);
    assert Completions(st, 4) == State(Work, WorkTime, false, 2);
    assert Completions(st, 5) == State(Short, ShortBreak, false, 3);
    assert Completions(st, 6) == State(Work, WorkTime, false, 3);
    assert Completions(st, 7) == State(Long, LongBreak, false, 0);
  }

  /** A break hands back to work without touching the count. */
  lemma BreakKeepsCount(st: State)
    requires st.phase != Work
    ensures Completed(st) == State(Work, WorkTime, false, st.cycles)
  {
  }

  /** The timer text has two digits of minutes and two of seconds, and
      reads back as the seconds left, for every count a phase can hold. */
  lemma DisplayRoundTrip(left: nat)
    requires left <= WorkTime
    ensures DisplayText(left) == Pad2(left / 60) + ":" + Pad2(left % 60)
    ensures |DisplayText(left)| == 5 && DisplayText(left)[2] == ':'
    ensures DecimalValue(DisplayText(left)[..2]) * 60 + DecimalValue(DisplayText(left)[3..]) == left
  {
    Pad2IsPadStart(left / 60);
    Pad2IsPadStart(left % 60);
    var t := DisplayText(left);
    assert t[..2] == Pad2(left / 60);
    assert t[3..] == Pad2(left % 60);
  }
}
