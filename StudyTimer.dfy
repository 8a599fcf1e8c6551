/**
 * The Pomodoro study timer: a countdown of `timeLeft` seconds that alternates
 * between a 25-minute focus interval and a 5-minute break.
 *
 * Real time is not modelled. The one-second interval callback and the effect
 * that re-runs after every change of `isRunning` or `timeLeft` are discrete
 * events; the pure functions below give each event's effect on a `TimerState`
 * value, and the class `Timer` updates its three fields the way the component's
 * handlers do, proved against those functions.
 */
module StudyTimer {
  import opened Wrappers
  import opened JsText

  /** Length of a focus interval, in seconds. */
  const FocusSeconds: int := 25 * 60
  /** Length of a break, in seconds. */
  const BreakSeconds: int := 5 * 60

  /** The title and message of the alert shown when an interval ends. */
  datatype Alert = Alert(title: string, message: string)

  const StudySessionComplete: Alert := Alert("Study Session Complete!", "Take a 5-minute break!")
  const BreakComplete: Alert := Alert("Break Complete!", "Time to get back to studying!")

  datatype TimerState = TimerState(timeLeft: int, isRunning: bool, isBreak: bool)

  /** What the user and the host can do to the timer. */
  datatype Event =
    | StartPressed
    | PausePressed
    | ResetPressed
    | IntervalFired  // the one-second interval callback
    | EffectRan      // the effect re-running after a change of isRunning or timeLeft

  /** The states the timer can be in: the count stays within the current interval's length. */
  predicate Inv(s: TimerState) {
    0 <= s.timeLeft <= FocusSeconds && (s.isBreak ==> s.timeLeft <= BreakSeconds)
  }

  function Initial(): TimerState {
    TimerState(FocusSeconds, false, false)
  }

  /** The effect arms the interval only while running with time left. */
  predicate IntervalArmed(s: TimerState) {
    s.isRunning && s.timeLeft > 0
  }

  /**
   * One firing of the interval: the count goes down by one second. The firing is
   * assumed to happen only while the interval is armed, since the effect clears it
   * on every change; a firing outside that is taken as a no-op.
   */
  function Ticked(s: TimerState): (r: TimerState)
    ensures r.isRunning == s.isRunning && r.isBreak == s.isBreak
    ensures IntervalArmed(s) ==> r.timeLeft + 1 == s.timeLeft
    ensures !IntervalArmed(s) ==> r == s
    ensures s.timeLeft >= 0 ==> r.timeLeft >= 0
  {
    if IntervalArmed(s) then s.(timeLeft := s.timeLeft - 1) else s
  }

  /** `handleTimerComplete`: stop, switch mode and load the new mode's full interval. */
  function Completed(s: TimerState): (r: TimerState)
    ensures !r.isRunning && r.isBreak == !s.isBreak
    ensures r.timeLeft == if r.isBreak then BreakSeconds else FocusSeconds
    ensures Inv(r)
  {
    if s.isBreak then TimerState(FocusSeconds, false, false)
    else TimerState(BreakSeconds, false, true)
  }

  /** The alert `handleTimerComplete` shows names the interval that has just ended. */
  function CompletionAlert(s: TimerState): (a: Alert)
    ensures a.title == "Break Complete!" <==> s.isBreak
    ensures a.title == "Study Session Complete!" <==> !s.isBreak
  {
    if s.isBreak then BreakComplete else StudySessionComplete
  }

  function Started(s: TimerState): (r: TimerState)
    ensures r.isRunning && r.timeLeft == s.timeLeft && r.isBreak == s.isBreak
  {
    s.(isRunning := true)
  }

  function Paused(s: TimerState): (r: TimerState)
    ensures !r.isRunning && r.timeLeft == s.timeLeft && r.isBreak == s.isBreak
  {
    s.(isRunning := false)
  }

  /** The effect's second branch: when the count is zero, the interval completes. */
  function AfterEffect(s: TimerState): (r: TimerState)
    ensures s.timeLeft == 0 ==> r == Completed(s)
    ensures s.timeLeft != 0 ==> r == s
  {
    if !IntervalArmed(s) && s.timeLeft == 0 then Completed(s) else s
  }

  /** The state after one event. */
  function Step(s: TimerState, e: Event): (r: TimerState)
    ensures Inv(s) ==> Inv(r)
  {
    match e
    case StartPressed => Started(s)
    case PausePressed => Paused(s)
    case ResetPressed => Initial()
    case IntervalFired => Ticked(s)
    case EffectRan => AfterEffect(s)
  }

  /** The alerts one event shows: only a completing effect shows one. */
  function Emitted(s: TimerState, e: Event): (alerts: seq<Alert>)
    ensures |alerts| <= 1
    ensures alerts != [] <==> e == EffectRan && s.timeLeft == 0
    ensures alerts != [] ==> alerts == [CompletionAlert(s)]
  {
    if e == EffectRan && s.timeLeft == 0 then [CompletionAlert(s)] else []
  }

  /** The final state and the alerts shown, in order, over a sequence of events. */
  datatype Outcome = Outcome(state: TimerState, alerts: seq<Alert>)

  function Run(s: TimerState, events: seq<Event>): Outcome
    decreases |events|
  {
    if events == [] then Outcome(s, [])
    else
      var rest := Run(Step(s, events[0]), events[1..]);
      Outcome(rest.state, Emitted(s, events[0]) + rest.alerts)
  }

  /** `n` seconds of a running timer: each firing of the interval is followed by the effect. */
  function Seconds(n: nat): seq<Event> {
    if n == 0 then [] else [IntervalFired, EffectRan] + Seconds(n - 1)
  }

  /** Every sequence of events keeps the timer within bounds. */
  lemma {:induction false} RunPreservesInv(s: TimerState, events: seq<Event>)
    requires Inv(s)
    ensures Inv(Run(s, events).state)
    decreases |events|
  {
    if events != [] {
      RunPreservesInv(Step(s, events[0]), events[1..]);
    }
  }

  /** Every state reachable from the initial one is within bounds; in particular the count is never negative. */
  lemma ReachableStatesAreValid(events: seq<Event>)
    ensures Inv(Run(Initial(), events).state)
    ensures Run(Initial(), events).state.timeLeft >= 0
  {
    RunPreservesInv(Initial(), events);
  }

  /** Running events one after the other is running their concatenation. */
  lemma {:induction false} RunAppend(s: TimerState, a: seq<Event>, b: seq<Event>)
    ensures Run(s, a + b).state == Run(Run(s, a).state, b).state
    ensures Run(s, a + b).alerts == Run(s, a).alerts + Run(Run(s, a).state, b).alerts
    decreases |a|
  {
    if a == [] {
      assert a + b == b;
    } else {
      assert (a + b)[1..] == a[1..] + b;
      RunAppend(Step(s, a[0]), a[1..], b);
    }
  }

  /** Fewer seconds than are left only count down, silently, and keep the timer running. */
  lemma {:induction false} CountDown(s: TimerState, n: nat)
    requires s.isRunning && n < s.timeLeft
    ensures Run(s, Seconds(n)) == Outcome(s.(timeLeft := s.timeLeft - n), [])
    decreases n
  {
    if n > 0 {
      var t := s.(timeLeft := s.timeLeft - 1);
      assert Run(s, Seconds(n)) == Run(t, [EffectRan] + Seconds(n - 1));
      assert Run(t, [EffectRan] + Seconds(n - 1)) == Run(t, Seconds(n - 1));
      CountDown(t, n - 1);
    }
  }

  /**
   * Letting a running interval run out completes it exactly once: the timer stops
   * in the other mode with that mode's full interval, and shows one alert.
   */
  lemma {:induction false} RunOut(s: TimerState)
    requires s.isRunning && s.timeLeft > 0
    ensures Run(s, Seconds(s.timeLeft)) == Outcome(Completed(s), [CompletionAlert(s)])
    decreases s.timeLeft
  {
    var t := s.(timeLeft := s.timeLeft - 1);
    if s.timeLeft == 1 {
      assert Seconds(1) == [IntervalFired, EffectRan];
      assert Run(t, [EffectRan]) == Outcome(Completed(t), [CompletionAlert(t)] + Run(Completed(t), []).alerts);
    } else {
      assert Run(s, Seconds(s.timeLeft)) == Run(t, [EffectRan] + Seconds(s.timeLeft - 1));
      assert Run(t, [EffectRan] + Seconds(s.timeLeft - 1)) == Run(t, Seconds(t.timeLeft));
      RunOut(t);
    }
  }

  /**
   * Starting from the initial state, 1500 seconds end the focus interval: the timer
   * is stopped in break mode with 300 seconds, after the "Study Session Complete!" alert.
   */
  lemma FullFocusSession()
    ensures Run(Initial(), [StartPressed, EffectRan] + Seconds(FocusSeconds))
         == Outcome(TimerState(BreakSeconds, false, true), [StudySessionComplete])
  {
    var s := Started(Initial());
    RunAppend(Initial(), [StartPressed, EffectRan], Seconds(FocusSeconds));
    assert Run(Initial(), [StartPressed, EffectRan]) == Outcome(s, []);
    RunOut(s);
  }

  /**
   * Repeated firings of the interval never take the count below zero. This rests on
   * `Ticked`'s guard: a firing while the interval is not armed is a no-op by assumption.
   */
  lemma {:induction false} TicksStopAtZero(s: TimerState, n: nat)
    requires s.timeLeft >= 0
    ensures Run(s, seq(n, _ => IntervalFired)).alerts == []
    ensures Run(s, seq(n, _ => IntervalFired)).state.timeLeft
         == if !s.isRunning then s.timeLeft else if n <= s.timeLeft then s.timeLeft - n else 0
    decreases n
  {
    if n > 0 {
      assert seq(n, _ => IntervalFired)[1..] == seq(n - 1, _ => IntervalFired);
      TicksStopAtZero(Ticked(s), n - 1);
    }
  }

  /** Completion depends on the count alone, not on whether the timer was running. */
  lemma CompletionIgnoresRunning(s: TimerState)
    requires s.timeLeft == 0
    ensures Step(s, EffectRan) == Step(s.(isRunning := !s.isRunning), EffectRan)
    ensures Emitted(s, EffectRan) == Emitted(s.(isRunning := !s.isRunning), EffectRan)
  {
  }

  /** Start while running and pause while stopped change nothing; both are idempotent. */
  lemma StartPauseIdempotent(s: TimerState)
    ensures s.isRunning ==> Started(s) == s
    ensures !s.isRunning ==> Paused(s) == s
    ensures Started(Started(s)) == Started(s) && Paused(Paused(s)) == Paused(s)
  {
  }

  /** Reset forgets everything about the state it is applied to. */
  lemma ResetFromAnyState(s: TimerState, t: TimerState)
    ensures Step(s, ResetPressed) == Step(t, ResetPressed) == TimerState(FocusSeconds, false, false)
  {
  }

  /**
   * `n.toString().padStart(2, '0')`: a non-negative number as at least two digits
   * denoting it; a negative one keeps its sign, since its text is already two long.
   */
  function TwoDigits(n: int): (r: string)
    ensures |r| >= 2 && (0 <= n < 100 ==> |r| == 2)
    ensures n >= 0 ==> AllDigits(r) && Value(r) == n
    ensures n < 0 ==> r[0] == '-' && AllDigits(r[1..]) && Value(r[1..]) == -n
  {
    if n >= 0 then
      ZeroPaddedValue(NatToString(n), 2);
      PadStart(IntToString(n), 2, '0')
    else
      PadStart(IntToString(n), 2, '0')
  }

  /** `formatTime`: minutes and seconds, each left-padded with '0' to two characters, joined by ':'. */
  function FormatTime(seconds: int): (r: string)
    ensures |r| >= 5
    ensures r[0] == '-' <==> seconds < 0
  {
    TwoDigits(FloorDiv(seconds, 60)) + ":" + TwoDigits(Remainder(seconds, 60))
  }

  /** Reads `M...M:SS` text back into seconds. */
  function ParseTime(text: string): Option<int> {
    if |text| >= 4 && text[|text| - 3] == ':'
       && AllDigits(text[..|text| - 3]) && AllDigits(text[|text| - 2..])
    then Some(Value(text[..|text| - 3]) * 60 + Value(text[|text| - 2..]))
    else None
  }

  /** Text of at least two digits, a colon and two more digits parses as minutes and seconds. */
  lemma ParseJoined(m: string, s: string, mins: int, secs: int)
    requires |m| >= 2 && |s| == 2 && AllDigits(m) && AllDigits(s)
    requires Value(m) == mins && Value(s) == secs
    ensures ParseTime(m + ":" + s) == Some(mins * 60 + secs)
  {
    var r := m + ":" + s;
    assert r[..|r| - 3] == m;
    assert r[|r| - 2..] == s;
  }

  /** For a non-negative count, the display is whole minutes and the remaining seconds. */
  lemma FormatTimeSplits(seconds: int)
    requires seconds >= 0
    ensures FormatTime(seconds) == TwoDigits(seconds / 60) + ":" + TwoDigits(seconds % 60)
  {
  }

  /** Parsing the display of any non-negative count gives the count back. */
  lemma FormatTimeRoundTrip(seconds: int)
    requires seconds >= 0
    ensures ParseTime(FormatTime(seconds)) == Some(seconds)
  {
    FormatTimeSplits(seconds);
    MinutesSecondsRoundTrip(seconds, seconds / 60, seconds % 60);
  }

  lemma MinutesSecondsRoundTrip(seconds: int, mins: int, secs: int)
    requires mins >= 0 && 0 <= secs < 60 && seconds == mins * 60 + secs
    ensures ParseTime(TwoDigits(mins) + ":" + TwoDigits(secs)) == Some(seconds)
  {
    ParseJoined(TwoDigits(mins), TwoDigits(secs), mins, secs);
  }

  /** Below 100 minutes the display is exactly `MM:SS`, with a seconds field below 60. */
  lemma FormatTimeShape(seconds: int)
    requires 0 <= seconds < 6000
    ensures var r := FormatTime(seconds);
      |r| == 5 && r[2] == ':'
      && IsDigit(r[0]) && IsDigit(r[1]) && IsDigit(r[3]) && IsDigit(r[4])
      && '0' <= r[3] <= '5'
  {
    FormatTimeSplits(seconds);
    MinutesSecondsShape(seconds / 60, seconds % 60);
  }

  lemma MinutesSecondsShape(mins: int, secs: int)
    requires 0 <= mins < 100 && 0 <= secs < 60
    ensures var r := TwoDigits(mins) + ":" + TwoDigits(secs);
      |r| == 5 && r[2] == ':'
      && IsDigit(r[0]) && IsDigit(r[1]) && IsDigit(r[3]) && IsDigit(r[4])
      && '0' <= r[3] <= '5'
  {
    var s := TwoDigits(secs);
    assert Value(s) == PrefixValue(s, 1) * 10 + (s[1] as int - '0' as int);
    assert PrefixValue(s, 1) == s[0] as int - '0' as int;
  }

  /** A negative count, which the timer never reaches, would show JavaScript's signed remainder. */
  lemma FormatTimeNegative()
    ensures FormatTime(-1) == "-1:-1"
  {
  }

  /** The timer component's state, updated field by field by its handlers. */
  class Timer {
    var timeLeft: int
    var isRunning: bool
    var isBreak: bool

    function State(): TimerState
      reads this
    {
      TimerState(timeLeft, isRunning, isBreak)
    }

    ghost predicate Valid()
      reads this
    {
      Inv(State())
    }

    /** The component mounts stopped, in focus mode, with 25 minutes left. */
    constructor ()
      ensures State() == Initial()
      ensures timeLeft == 1500 && !isRunning && !isBreak
      ensures Valid()
    {
      timeLeft := 25 * 60;
      isRunning := false;
      isBreak := false;
    }

    method Start()
      requires Valid()
      modifies this
      ensures State() == Started(old(State())) == Step(old(State()), StartPressed)
      ensures Valid()
    {
      isRunning := true;
    }

    method Pause()
      requires Valid()
      modifies this
      ensures State() == Paused(old(State())) == Step(old(State()), PausePressed)
      ensures Valid()
    {
      isRunning := false;
    }

    method Reset()
      modifies this
      ensures State() == Initial() == Step(old(State()), ResetPressed)
      ensures Valid()
    {
      isRunning := false;
      isBreak := false;
      timeLeft := 25 * 60;
    }

    /** The interval callback `setTimeLeft(prev => prev - 1)`; the interval exists only while armed. */
    method Tick()
      requires Valid()
      modifies this
      ensures State() == Ticked(old(State())) == Step(old(State()), IntervalFired)
      ensures Valid()
    {
      if isRunning && timeLeft > 0 {
        timeLeft := timeLeft - 1;
      }
    }

    method HandleTimerComplete() returns (alert: Alert)
      modifies this
      ensures State() == Completed(old(State()))
      ensures alert == CompletionAlert(old(State()))
      ensures Valid()
    {
      isRunning := false;
      if isBreak {
        timeLeft := 25 * 60;
        isBreak := false;
        alert := BreakComplete;
      } else {
        timeLeft := 5 * 60;
        isBreak := true;
        alert := StudySessionComplete;
      }
    }

    /**
     * The effect body: arm the interval while running with time left, otherwise
     * complete the interval once the count is zero.
     */
    method RunEffect() returns (armed: bool, alerts: seq<Alert>)
      requires Valid()
      modifies this
      ensures armed == IntervalArmed(old(State()))
      ensures State() == Step(old(State()), EffectRan)
      ensures alerts == Emitted(old(State()), EffectRan)
      ensures Valid()
    {
      armed := isRunning && timeLeft > 0;
      alerts := [];
      if armed {
      } else if timeLeft == 0 {
        var alert := HandleTimerComplete();
        alerts := [alert];
      }
    }
  }
}
