/** The Pomodoro timer of the navigation pane, as a value: its phase, the
    time left, the completed work sessions and the texts it shows. */
module PomodoroModel {

  import opened Text

  datatype Phase = Idle | Working | ShortBreak | LongBreak

  /** 25, 5 and 15 minutes, in seconds. */
  const WorkSeconds: nat := 25 * 60
  const ShortBreakSeconds: nat := 5 * 60
  const LongBreakSeconds: nat := 15 * 60

  /** The texts the view shows. */
  const TitleStatus: string := "Pomodoro Tekniği"
  const StartLabel: string := "Başlat"
  const PauseLabel: string := "Duraklat"
  const ResumeLabel: string := "Devam Et"
  const WorkTitle: string := "Çalışma"
  const ShortBreakTitle: string := "Kısa Mola"
  const LongBreakTitle: string := "Uzun Mola"
  const WorkStatus: string := "Çalışma zamanı! Odaklanın."
  const ShortBreakStatus: string := "Kısa mola zamanı. Rahatlayın!"
  const LongBreakStatus: string := "Uzun mola zamanı. İyi dinlenin!"
  const PausedStatus: string := "Duraklatıldı"
  const BreakStatus: string := "Mola zamanı. Rahatlayın!"

  /** The view model's fields; `running` is both the live timer and
      `IsRunning`, which every operation sets together. */
  datatype Timer = Timer(
    phase: Phase,
    remaining: nat,
    completed: int,
    running: bool,
    timeDisplay: string,
    statusText: string,
    buttonText: string,
    currentPhase: string,
    completedCount: int)

  function Duration(p: Phase): nat {
    match p
    case Idle => WorkSeconds
    case Working => WorkSeconds
    case ShortBreak => ShortBreakSeconds
    case LongBreak => LongBreakSeconds
  }

  /** `TimeSpan.Minutes` and `TimeSpan.Seconds`: the components below an
      hour and below a minute. */
  function Minutes(s: nat): nat { (s / 60) % 60 }
  function Seconds(s: nat): nat { s % 60 }

  /** `$"{Minutes:D2}:{Seconds:D2}"`. */
  function FormatTime(s: nat): string {
    TwoDigits(Minutes(s)) + ":" + TwoDigits(Seconds(s))
  }

  function Initial(): Timer {
    Timer(Idle, WorkSeconds, 0, false, FormatTime(WorkSeconds), TitleStatus, StartLabel, WorkTitle, 0)
  }

  function UpdateTimeDisplay(t: Timer): Timer {
    t.(timeDisplay := FormatTime(t.remaining))
  }

  function StartTimer(t: Timer): Timer {
    t.(running := true, buttonText := PauseLabel)
  }

  function StopTimer(t: Timer): Timer {
    t.(running := false)
  }

  /** A full work session, running; the display is left as it was. */
  function StartWork(t: Timer): Timer {
    StartTimer(t.(phase := Working, remaining := WorkSeconds, currentPhase := WorkTitle))
      .(statusText := WorkStatus)
  }

  function StartShortBreak(t: Timer): Timer {
    UpdateTimeDisplay(t.(phase := ShortBreak, remaining := ShortBreakSeconds, currentPhase := ShortBreakTitle,
                         statusText := ShortBreakStatus))
  }

  function StartLongBreak(t: Timer): Timer {
    UpdateTimeDisplay(t.(phase := LongBreak, remaining := LongBreakSeconds, currentPhase := LongBreakTitle,
                         statusText := LongBreakStatus))
  }

  /** One more session done; every fourth is followed by the long break. */
  function CompleteWork(t: Timer): Timer {
    var c := t.completed + 1;
    var stopped := StopTimer(t.(completed := c, completedCount := c)).(running := false, buttonText := StartLabel);
    if c % 4 == 0 then StartLongBreak(stopped) else StartShortBreak(stopped)
  }

  function Pause(t: Timer): Timer {
    StopTimer(t).(running := false, buttonText := ResumeLabel, statusText := PausedStatus)
  }

  function Resume(t: Timer): Timer {
    StartTimer(t).(running := true, buttonText := PauseLabel,
                   statusText := if t.phase == Working then WorkStatus else BreakStatus)
  }

  function StartPause(t: Timer): Timer {
    if t.phase == Idle then StartWork(t)
    else if t.running then Pause(t)
    else Resume(t)
  }

  function Reset(t: Timer): Timer {
    UpdateTimeDisplay(StopTimer(t).(phase := Idle, remaining := WorkSeconds, running := false,
                                    buttonText := StartLabel, currentPhase := WorkTitle))
      .(statusText := TitleStatus)
  }

  function Skip(t: Timer): Timer {
    match t.phase
    case Working => CompleteWork(t)
    case ShortBreak => StartWork(t)
    case LongBreak => StartWork(t)
    case Idle => t
  }

  function OnTimerComplete(t: Timer): Timer {
    var stopped := StopTimer(t).(running := false, buttonText := StartLabel);
    match t.phase
    case Working => CompleteWork(stopped)
    case ShortBreak => StartWork(stopped)
    case LongBreak => StartWork(stopped)
    case Idle => stopped
  }

  /** One second of the running timer; without a running timer no tick is
      delivered and nothing changes. */
  function Tick(t: Timer): Timer {
    if !t.running then t
    else if t.remaining > 0 then UpdateTimeDisplay(t.(remaining := t.remaining - 1))
    else OnTimerComplete(t)
  }

  /** `n` seconds of the timer. */
  function Ticks(t: Timer, n: nat): Timer
    decreases n
  {
    if n == 0 then t else Ticks(Tick(t), n - 1)
  }

  /** What every reachable state keeps: the shown count is the count, the
      time left is at most the phase's length, and the idle timer is
      stopped at a full session. */
  predicate Good(t: Timer) {
    && t.completed >= 0
    && t.completedCount == t.completed
    && t.remaining <= Duration(t.phase)
    && (t.phase == Idle ==> !t.running && t.remaining == WorkSeconds)
  }

  // ----- The display ------------------------------------------------------

  lemma TwoDigitsValue(n: nat)
    requires n < 100
    ensures DigitsValue(TwoDigits(n)) == n
  {
    NatToStringRoundTrip(n);
    if n < 10 {
      var s := TwoDigits(n);
      assert s[..1] == "0" && s[1] == NatToString(n)[0];
      assert DigitsValue(s[..1]) == 0 by {
        assert s[..1][..0] == [];
      }
      assert NatToString(n)[..0] == [];
    }
  }

  /** The display is two digits, a colon and two digits. */
  lemma FormatTimeShape(s: nat)
    ensures var r := FormatTime(s);
      |r| == 5 && r[2] == ':' && AllDigits(r[..2]) && AllDigits(r[3..])
  {
    var m := TwoDigits(Minutes(s));
    var c := TwoDigits(Seconds(s));
    assert FormatTime(s)[..2] == m && FormatTime(s)[3..] == c;
  }

  /** The display shows the minutes and seconds components, so it reads
      back as the time left when that is under an hour. */
  lemma FormatTimeReadsBack(s: nat)
    ensures DigitsValue(FormatTime(s)[..2]) == Minutes(s)
    ensures DigitsValue(FormatTime(s)[3..]) == Seconds(s)
    ensures s < 3600 ==> 60 * DigitsValue(FormatTime(s)[..2]) + DigitsValue(FormatTime(s)[3..]) == s
  {
    TwoDigitsValue(Minutes(s));
    TwoDigitsValue(Seconds(s));
    var r := FormatTime(s);
    assert r[..2] == TwoDigits(Minutes(s)) && r[3..] == TwoDigits(Seconds(s));
  }

  /** The timer starts idle at a full session, showing "25:00". */
  lemma InitialState()
    ensures var t := Initial();
      t.phase == Idle && t.remaining == WorkSeconds && !t.running && t.completed == 0 && Good(t)
    ensures Initial().timeDisplay == "25:00"
  {
    var m := TwoDigits(25);
    assert NatToString(25) == NatToString(2) + [DigitChar(5)];
    assert m == "25";
    assert TwoDigits(0) == "0" + NatToString(0);
    assert TwoDigits(0) == "00";
  }

  // ----- The operations ---------------------------------------------------

  /** Start on an idle timer starts a running work session; otherwise it
      pauses a running timer or resumes a paused one, keeping the phase and
      the time left. */
  lemma StartPauseCases(t: Timer)
    ensures var u := StartPause(t);
      && (t.phase == Idle ==> u.phase == Working && u.running && u.remaining == WorkSeconds)
      && (t.phase != Idle ==> u.phase == t.phase && u.remaining == t.remaining && u.running == !t.running)
      && u.completed == t.completed && u.timeDisplay == t.timeDisplay
  {
  }

  /** Completing a session counts it and stops the timer at the start of a
      break that is long exactly on every fourth session. */
  lemma CompleteWorkBreak(t: Timer)
    ensures var u := CompleteWork(t);
      && u.completed == t.completed + 1 && u.completedCount == u.completed
      && !u.running
      && (u.phase == LongBreak <==> (t.completed + 1) % 4 == 0)
      && (u.phase == ShortBreak <==> (t.completed + 1) % 4 != 0)
      && u.remaining == Duration(u.phase)
      && u.timeDisplay == FormatTime(u.remaining)
  {
  }

  /** A tick of a running timer with time left takes one second off and
      shows it; at zero it ends the phase: a session goes to its break, a
      break to a new running session. */
  lemma TickCases(t: Timer)
    requires t.running
    ensures var u := Tick(t);
      && (t.remaining > 0 ==> u.phase == t.phase && u.running && u.remaining == t.remaining - 1
                                && u.timeDisplay == FormatTime(u.remaining) && u.completed == t.completed)
      && (t.remaining == 0 && t.phase == Working ==>
            u.phase in {ShortBreak, LongBreak} && !u.running && u.completed == t.completed + 1)
      && (t.remaining == 0 && t.phase in {ShortBreak, LongBreak} ==>
            u.phase == Working && u.running && u.remaining == WorkSeconds && u.completed == t.completed)
  {
  }

  /** Reset stops at an idle full session but keeps the count. */
  lemma ResetKeepsCount(t: Timer)
    ensures var u := Reset(t);
      && u.phase == Idle && u.remaining == WorkSeconds && !u.running
      && u.completed == t.completed && u.completedCount == t.completedCount
      && u.timeDisplay == FormatTime(WorkSeconds)
  {
  }

  /** Skip completes a session, starts a session after a break, and does
      nothing on an idle timer. */
  lemma SkipCases(t: Timer)
    ensures t.phase == Working ==> Skip(t) == CompleteWork(t)
    ensures t.phase in {ShortBreak, LongBreak} ==>
      Skip(t).phase == Working && Skip(t).running && Skip(t).remaining == WorkSeconds
    ensures t.phase == Idle ==> Skip(t) == t
  {
  }

  /** Starting a session does not refresh the display. */
  lemma StartWorkKeepsDisplay(t: Timer)
    ensures StartWork(t).timeDisplay == t.timeDisplay
    ensures StartWork(t).remaining == WorkSeconds
  {
  }

  // ----- What every operation keeps --------------------------------------

  lemma CompleteWorkGood(t: Timer)
    requires Good(t)
    ensures Good(CompleteWork(t))
  {
  }

  lemma StartWorkGood(t: Timer)
    requires Good(t)
    ensures Good(StartWork(t))
  {
  }

  lemma StartPauseGood(t: Timer)
    requires Good(t)
    ensures Good(StartPause(t))
  {
    if t.phase == Idle { StartWorkGood(t); }
  }

  lemma ResetGood(t: Timer)
    requires Good(t)
    ensures Good(Reset(t))
  {
  }

  lemma SkipGood(t: Timer)
    requires Good(t)
    ensures Good(Skip(t))
  {
    if t.phase == Working { CompleteWorkGood(t); } else if t.phase != Idle { StartWorkGood(t); }
  }

  lemma TickGood(t: Timer)
    requires Good(t)
    ensures Good(Tick(t))
  {
    if t.running && t.remaining == 0 {
      var stopped := StopTimer(t).(running := false, buttonText := StartLabel);
      if t.phase == Working { CompleteWorkGood(stopped); } else if t.phase != Idle { StartWorkGood(stopped); }
    }
  }

  /** The display of every reachable state with a fresh display reads back
      as its time left. */
  lemma GoodDisplayExact(t: Timer)
    requires Good(t)
    ensures 60 * DigitsValue(FormatTime(t.remaining)[..2]) + DigitsValue(FormatTime(t.remaining)[3..]) == t.remaining
  {
    FormatTimeReadsBack(t.remaining);
  }

  // ----- A whole phase ----------------------------------------------------

  /** A running timer counts down one second per tick. */
  lemma {:induction false} CountDown(t: Timer, n: nat)
    requires t.running && 0 < n <= t.remaining
    ensures Ticks(t, n) == t.(remaining := t.remaining - n, timeDisplay := FormatTime(t.remaining - n))
    decreases n
  {
    var u := t.(remaining := t.remaining - 1, timeDisplay := FormatTime(t.remaining - 1));
    TickDown(t);
    TicksOnce(t, n);
    if n > 1 {
      CountDown(u, n - 1);
      assert u.remaining - (n - 1) == t.remaining - n;
    }
  }

  lemma TickDown(t: Timer)
    requires t.running && t.remaining > 0
    ensures Tick(t) == t.(remaining := t.remaining - 1, timeDisplay := FormatTime(t.remaining - 1))
  {
  }

  lemma TicksOnce(t: Timer, n: nat)
    requires n > 0
    ensures Ticks(t, n) == Ticks(Tick(t), n - 1)
  {
  }

  /** A running session with `r` seconds left ends in its break after
      `r + 1` ticks, with one more session counted. */
  lemma {:induction false} SessionEndsInBreak(t: Timer)
    requires t.running && t.phase == Working
    ensures var u := Ticks(t, t.remaining + 1);
      u.phase in {ShortBreak, LongBreak} && !u.running && u.completed == t.completed + 1
  {
    var r := t.remaining;
    var last := if r == 0 then t else t.(remaining := 0, timeDisplay := FormatTime(0));
    if r > 0 {
      CountDown(t, r);
      TicksSplit(t, r, 1);
    }
    assert Ticks(t, r + 1) == Tick(last) by {
      if r == 0 {
        assert Ticks(t, 1) == Ticks(Tick(t), 0);
      } else {
        assert Ticks(last, 1) == Ticks(Tick(last), 0);
      }
    }
    TickCases(last);
  }

  lemma {:induction false} TicksSplit(t: Timer, a: nat, b: nat)
    ensures Ticks(t, a + b) == Ticks(Ticks(t, a), b)
    decreases a
  {
    if a > 0 {
      TicksSplit(Tick(t), a - 1, b);
      assert a + b - 1 == (a - 1) + b;
    }
  }
}

/** The view model itself: the fields its commands and the timer's tick
    update in place. */
module Pomodoro {

  import opened PomodoroModel

  class PomodoroViewModel {
    var phase: Phase
    var remaining: nat
    var completed: int
    var isRunning: bool
    var timeDisplay: string
    var statusText: string
    var buttonText: string
    var currentPhase: string
    var completedCount: int

    /** The fields as a value of the model. */
    function Snapshot(): Timer
      reads this
    {
      Timer(phase, remaining, completed, isRunning, timeDisplay, statusText, buttonText, currentPhase, completedCount)
    }

    constructor()
      ensures Snapshot() == Initial()
    {
      phase := Idle;
      remaining := WorkSeconds;
      completed := 0;
      isRunning := false;
      statusText := TitleStatus;
      buttonText := StartLabel;
      currentPhase := WorkTitle;
      completedCount := 0;
      timeDisplay := FormatTime(WorkSeconds);
    }

    method UpdateDisplay()
      modifies this
      ensures Snapshot() == UpdateTimeDisplay(old(Snapshot()))
    {
      timeDisplay := FormatTime(remaining);
    }

    method RunTimer()
      modifies this
      ensures Snapshot() == StartTimer(old(Snapshot()))
    {
      isRunning := true;
      buttonText := PauseLabel;
    }

    method HaltTimer()
      modifies this
      ensures Snapshot() == StopTimer(old(Snapshot()))
    {
      isRunning := false;
    }

    method BeginWork()
      modifies this
      ensures Snapshot() == StartWork(old(Snapshot()))
    {
      phase := Working;
      remaining := WorkSeconds;
      currentPhase := WorkTitle;
      RunTimer();
      statusText := WorkStatus;
    }

    method BeginShortBreak()
      modifies this
      ensures Snapshot() == StartShortBreak(old(Snapshot()))
    {
      phase := ShortBreak;
      remaining := ShortBreakSeconds;
      currentPhase := ShortBreakTitle;
      statusText := ShortBreakStatus;
      UpdateDisplay();
    }

    method BeginLongBreak()
      modifies this
      ensures Snapshot() == StartLongBreak(old(Snapshot()))
    {
      phase := LongBreak;
      remaining := LongBreakSeconds;
      currentPhase := LongBreakTitle;
      statusText := LongBreakStatus;
      UpdateDisplay();
    }

    method FinishWork()
      modifies this
      ensures Snapshot() == CompleteWork(old(Snapshot()))
    {
      completed := completed + 1;
      completedCount := completed;
      HaltTimer();
      isRunning := false;
      buttonText := StartLabel;
      if completed % 4 == 0 {
        BeginLongBreak();
      } else {
        BeginShortBreak();
      }
    }

    method PauseTimer()
      modifies this
      ensures Snapshot() == Pause(old(Snapshot()))
    {
      HaltTimer();
      isRunning := false;
      buttonText := ResumeLabel;
      statusText := PausedStatus;
    }

    method ResumeTimer()
      modifies this
      ensures Snapshot() == Resume(old(Snapshot()))
    {
      RunTimer();
      isRunning := true;
      buttonText := PauseLabel;
      if phase == Working {
        statusText := WorkStatus;
      } else {
        statusText := BreakStatus;
      }
    }

    /** The start/pause button. */
    method StartOrPause()
      modifies this
      ensures Snapshot() == StartPause(old(Snapshot()))
    {
      if phase == Idle {
        BeginWork();
      } else if isRunning {
        PauseTimer();
      } else {
        ResumeTimer();
      }
    }

    /** The reset button. */
    method ResetTimer()
      modifies this
      ensures Snapshot() == Reset(old(Snapshot()))
    {
      HaltTimer();
      phase := Idle;
      remaining := WorkSeconds;
      isRunning := false;
      buttonText := StartLabel;
      currentPhase := WorkTitle;
      UpdateDisplay();
      statusText := TitleStatus;
    }

    /** The skip button. */
    method SkipPhase()
      modifies this
      ensures Snapshot() == Skip(old(Snapshot()))
    {
      if phase == Working {
        FinishWork();
      } else if phase == ShortBreak || phase == LongBreak {
        BeginWork();
      }
    }

    method TimerComplete()
      modifies this
      ensures Snapshot() == OnTimerComplete(old(Snapshot()))
    {
      var p := phase;
      HaltTimer();
      isRunning := false;
      buttonText := StartLabel;
      if p == Working {
        FinishWork();
      } else if p == ShortBreak || p == LongBreak {
        BeginWork();
      }
    }

    /** The timer's one-second tick, delivered only while it runs. */
    method TimerTick()
      requires isRunning
      modifies this
      ensures Snapshot() == Tick(old(Snapshot()))
    {
      if remaining > 0 {
        remaining := remaining - 1;
        UpdateDisplay();
      } else {
        TimerComplete();
      }
    }
  }
}
