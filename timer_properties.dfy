/** What the per-session transitions of the timer engine guarantee: the session
    invariant is kept by every command and every scheduled callback, the work
    phase and the long break count down one second per tick, short breaks start
    exactly when a checkpoint is due, and pause, start and reset restore what
    they promise. */
module TimerProperties {
  import opened JavaLang
  import opened PomodoroModel
  import opened RandomShortBreakListGenerator
  import opened TimerSpec

  /** createTimer leaves a session that satisfies the invariant, rests PAUSED
      with the whole work time of its mode and has no task scheduled. */
  lemma CreatedSession(c: Config, random: RandomSource, u: Uuid, mode: TimerMode)
    requires ValidConfig(c) && ValidSource(random)
    ensures var v := InitializeSession(FreshSession(u), mode, c, random);
      SessionInvariant(c, random, v) &&
      v.sessionUUId == u && v.timerMode == mode &&
      v.curTimerState == Some(Paused) && !v.isRunning &&
      v.remainingTime == WorkTimeFor(c, mode) && v.nextShortBreakIndex == 0 &&
      v.currentTask == None && v.stateBeforePause == None && v.totalBreakTimeUsed == None &&
      v.breakRemainingTime == None && v.breakStartTime == None
  {
  }

  // ---------------------------------------------------------------------
  // The invariant is kept by every command and callback

  /** startTimer keeps the invariant and always leaves the session running. */
  lemma StartTimerPreserves(c: Config, random: RandomSource, v: SessionView)
    requires ValidConfig(c) && ValidSource(random) && SessionInvariant(c, random, v)
    ensures SessionInvariant(c, random, StartTimer(v, c))
    ensures StartTimer(v, c).isRunning && StartTimer(v, c).curTimerState != Some(Paused)
  {
    var w := StartTimer(v, c);
    if v.curTimerState == Some(Paused) && v.remainingTime > 0 {
      assert !v.isRunning;
      var before := v.stateBeforePause.GetOr(Working);
      if before == ShortBreak {
        assert w.curTimerState == Some(ShortBreak) && Live(w.currentTask);
      } else if before == LongBreak {
        assert w.remainingTime == v.breakRemainingTime.GetOr(v.longBreakDuration);
      } else {
        assert w == StartCountdown(v.(isRunning := true, curTimerState := Some(Working)));
      }
    } else if v.curTimerState == Some(Paused) || v.curTimerState == Some(Completed) {
      assert w.curTimerState == Some(Working);
    } else {
      assert w == StartCountdown(v.(isRunning := true));
    }
  }

  /** tick keeps the invariant. */
  lemma TickPreserves(c: Config, random: RandomSource, v: SessionView, now: int)
    requires ValidConfig(c) && ValidSource(random) && SessionInvariant(c, random, v)
    ensures SessionInvariant(c, random, Tick(v, now))
  {
    if v.isRunning {
      if v.remainingTime <= 0 {
        var stopped := v.(isRunning := false, currentTask := Cancel(v.currentTask));
        assert SessionInvariant(c, random, stopped);
      } else if v.curTimerState == Some(Working) && v.timerMode == Continuous && BreakDue(v, v.remainingTime) {
        var w := StartShortBreak(v, now);
        assert SessionInvariant(c, random, w.(nextShortBreakIndex := v.nextShortBreakIndex + 1));
      }
    }
  }

  /** endShortBreak keeps the invariant. */
  lemma EndShortBreakPreserves(c: Config, random: RandomSource, v: SessionView)
    requires ValidConfig(c) && ValidSource(random) && SessionInvariant(c, random, v)
    ensures SessionInvariant(c, random, EndShortBreak(v))
  {
  }

  /** pauseTimer keeps the invariant and always leaves the session stopped
      with no task that can still fire. */
  lemma PauseTimerPreserves(c: Config, random: RandomSource, v: SessionView, now: int, taskDelay: int)
    requires ValidConfig(c) && ValidSource(random) && SessionInvariant(c, random, v)
    ensures SessionInvariant(c, random, PauseTimer(v, now, taskDelay))
    ensures !PauseTimer(v, now, taskDelay).isRunning
    ensures v.isRunning ==> !Live(PauseTimer(v, now, taskDelay).currentTask)
  {
  }

  /** resetTimer keeps the invariant. */
  lemma ResetTimerPreserves(c: Config, random: RandomSource, v: SessionView)
    requires ValidConfig(c) && ValidSource(random) && SessionInvariant(c, random, v)
    ensures SessionInvariant(c, random, ResetTimer(v, c, random))
  {
    ResetMatchesCreation(c, random, v);
    CreatedSession(c, random, v.sessionUUId, v.timerMode);
  }

  /** What can happen to a registered session: one of the four commands of the
      service that change it, or one of the two callbacks its scheduler runs.
      `now` is System.currentTimeMillis() and `taskDelay` what getDelay of the
      current task returns at that moment. */
  datatype Event =
    | StartCommand
    | PauseCommand(now: int, taskDelay: int)
    | ResetCommand
    | TickFired(now: int)
    | BreakEndFired

  function Step(c: Config, random: RandomSource, v: SessionView, e: Event): SessionView
    requires ValidConfig(c) && ValidSource(random)
  {
    match e
    case StartCommand => StartTimer(v, c)
    case PauseCommand(now, taskDelay) => PauseTimer(v, now, taskDelay)
    case ResetCommand => ResetTimer(v, c, random)
    case TickFired(now) => Tick(v, now)
    case BreakEndFired => EndShortBreak(v)
  }

  /** The session after the events, first to last. */
  function Run(c: Config, random: RandomSource, v: SessionView, events: seq<Event>): SessionView
    requires ValidConfig(c) && ValidSource(random)
    decreases |events|
  {
    if events == [] then v else Run(c, random, Step(c, random, v, events[0]), events[1..])
  }

  lemma StepPreserves(c: Config, random: RandomSource, v: SessionView, e: Event)
    requires ValidConfig(c) && ValidSource(random) && SessionInvariant(c, random, v)
    ensures SessionInvariant(c, random, Step(c, random, v, e))
  {
    match e
    case StartCommand => StartTimerPreserves(c, random, v);
    case PauseCommand(now, taskDelay) => PauseTimerPreserves(c, random, v, now, taskDelay);
    case ResetCommand => ResetTimerPreserves(c, random, v);
    case TickFired(now) => TickPreserves(c, random, v, now);
    case BreakEndFired => EndShortBreakPreserves(c, random, v);
  }

  /** Any sequence of commands and callbacks keeps the invariant. */
  lemma {:induction false} RunPreserves(c: Config, random: RandomSource, v: SessionView, events: seq<Event>)
    requires ValidConfig(c) && ValidSource(random) && SessionInvariant(c, random, v)
    ensures SessionInvariant(c, random, Run(c, random, v, events))
    decreases |events|
  {
    if events != [] {
      StepPreserves(c, random, v, events[0]);
      RunPreserves(c, random, Step(c, random, v, events[0]), events[1..]);
    }
  }

  /** Every session the service can reach from createTimer satisfies the
      invariant: in particular its break index never runs past its
      checkpoints, its remaining time is never negative, and a running session
      always has a task that will fire. */
  lemma ReachableSessionValid(c: Config, random: RandomSource, u: Uuid, mode: TimerMode, events: seq<Event>)
    requires ValidConfig(c) && ValidSource(random)
    ensures var v := Run(c, random, InitializeSession(FreshSession(u), mode, c, random), events);
      SessionInvariant(c, random, v) &&
      v.nextShortBreakIndex <= |v.shortBreakTimes| && v.remainingTime >= 0 &&
      (v.isRunning ==> Live(v.currentTask))
  {
    CreatedSession(c, random, u, mode);
    RunPreserves(c, random, InitializeSession(FreshSession(u), mode, c, random), events);
  }

  // ---------------------------------------------------------------------
  // Counting down

  /** A stopped session ignores ticks. */
  lemma TickWhenStopped(v: SessionView, now: int)
    requires !v.isRunning
    ensures Tick(v, now) == v
  {
  }

  /** A tick with time left takes exactly one second off and leaves the session
      running, whether or not it starts a short break. */
  lemma TickCountsDown(v: SessionView, now: int)
    requires v.isRunning && v.remainingTime > 0
    ensures Tick(v, now).remainingTime == v.remainingTime - 1
    ensures Tick(v, now).isRunning
    ensures Tick(v, now).timerMode == v.timerMode && Tick(v, now).workTime == v.workTime
  {
  }

  /** A tick that finds no time left stops the session and ends its phase: a
      classic work phase goes on to the long break, a continuous one and a long
      break complete, any other state is only stopped. */
  lemma TimeUpOutcome(v: SessionView, now: int)
    requires v.isRunning && v.remainingTime <= 0
    ensures var w := Tick(v, now);
      (v.curTimerState == Some(Working) && v.timerMode == Classic ==>
         w.curTimerState == Some(LongBreak) && w.isRunning &&
         w.remainingTime == v.longBreakDuration && w.breakStartTime == Some(now) &&
         w.currentTask == Some(ScheduledTask(RepeatingTick, false))) &&
      (v.curTimerState == Some(Working) && v.timerMode == Continuous ==>
         w.curTimerState == Some(Completed) && !w.isRunning && !Live(w.currentTask) &&
         w.remainingTime == v.remainingTime) &&
      (v.curTimerState == Some(LongBreak) ==>
         w.curTimerState == Some(Completed) && !w.isRunning && !Live(w.currentTask) &&
         w.remainingTime == v.remainingTime) &&
      (v.curTimerState != Some(Working) && v.curTimerState != Some(LongBreak) ==>
         w == v.(isRunning := false, currentTask := Cancel(v.currentTask)))
  {
  }

  /** `n` ticks in a row at the same moment. */
  function Ticks(v: SessionView, now: int, n: nat): SessionView
    decreases n
  {
    if n == 0 then v else Ticks(Tick(v, now), now, n - 1)
  }

  lemma {:induction false} TicksSplit(v: SessionView, now: int, a: nat, b: nat)
    ensures Ticks(v, now, a + b) == Ticks(Ticks(v, now, a), now, b)
    decreases a
  {
    if a > 0 {
      TicksSplit(Tick(v, now), now, a - 1, b);
    }
  }

  /** Where no checkpoint is consulted (a classic session, or any state but
      continuous work), k ticks with at least k seconds left take exactly k
      seconds off and change nothing else. */
  lemma {:induction false} CountsDownWithoutCheckpoints(v: SessionView, now: int, k: nat)
    requires v.isRunning && !(v.curTimerState == Some(Working) && v.timerMode == Continuous)
    requires k <= v.remainingTime
    ensures Ticks(v, now, k) == v.(remainingTime := v.remainingTime - k)
    decreases k
  {
    if k > 0 {
      var next := v.(remainingTime := v.remainingTime - 1);
      assert Tick(v, now) == next;
      CountsDownWithoutCheckpoints(next, now, k - 1);
    }
  }

  /** A running classic work phase with r seconds left turns into the long
      break on tick r + 1, and the long break completes L + 1 ticks later: each
      phase needs one tick more than its length, because time-up is only noticed
      on the tick after the counter reaches zero. */
  lemma ClassicCycle(c: Config, random: RandomSource, v: SessionView, now: int)
    requires ValidConfig(c) && ValidSource(random) && SessionInvariant(c, random, v)
    requires v.isRunning && v.timerMode == Classic && v.curTimerState == Some(Working)
    ensures var atBreak := Ticks(v, now, v.remainingTime + 1);
      atBreak.curTimerState == Some(LongBreak) && atBreak.isRunning &&
      atBreak.remainingTime == c.classicLongBreakDuration && atBreak.breakStartTime == Some(now) &&
      Live(atBreak.currentTask)
    ensures var done := Ticks(v, now, v.remainingTime + c.classicLongBreakDuration + 2);
      done.curTimerState == Some(Completed) && !done.isRunning && !Live(done.currentTask) &&
      done.remainingTime == 0
  {
    var r, l := v.remainingTime, c.classicLongBreakDuration;
    CountsDownWithoutCheckpoints(v, now, r);
    var atZero := v.(remainingTime := 0);
    TicksSplit(v, now, r, 1);
    var atBreak := Tick(atZero, now);
    assert Ticks(atZero, now, 1) == atBreak;
    CountsDownWithoutCheckpoints(atBreak, now, l);
    var breakOver := atBreak.(remainingTime := 0);
    TicksSplit(v, now, r + 1, l);
    TicksSplit(v, now, r + 1 + l, 1);
    assert Ticks(breakOver, now, 1) == Tick(breakOver, now);
  }

  // ---------------------------------------------------------------------
  // Short breaks

  /** In continuous work, a tick starts a short break exactly when the next
      checkpoint is due; the break consumes that checkpoint, records its start
      and replaces the tick by a one-shot end after the short-break duration.
      Otherwise the tick only counts down. */
  lemma ShortBreakTrigger(v: SessionView, now: int)
    requires v.isRunning && v.remainingTime > 0
    requires v.curTimerState == Some(Working) && v.timerMode == Continuous
    ensures var w := Tick(v, now);
      (w.curTimerState == Some(ShortBreak) <==> BreakDue(v, v.remainingTime)) &&
      (BreakDue(v, v.remainingTime) ==>
         w.nextShortBreakIndex == v.nextShortBreakIndex + 1 &&
         w.breakStartTime == Some(now) &&
         w.currentTask == Some(ScheduledTask(BreakEnd(v.shortBreakDuration), false)) &&
         w.remainingTime == v.remainingTime - 1) &&
      (!BreakDue(v, v.remainingTime) ==> w == v.(remainingTime := v.remainingTime - 1))
  {
  }

  /** A classic session never takes a short break and never consumes a checkpoint. */
  lemma ClassicNeverShortBreaks(v: SessionView, now: int)
    requires v.timerMode == Classic && v.curTimerState != Some(ShortBreak)
    ensures Tick(v, now).curTimerState != Some(ShortBreak)
    ensures Tick(v, now).nextShortBreakIndex == v.nextShortBreakIndex
  {
  }

  /** endShortBreak books the whole short-break duration as break time used,
      returns to work with a fresh tick and leaves the remaining time alone. */
  lemma EndShortBreakAccounting(v: SessionView)
    ensures var w := EndShortBreak(v);
      w.totalBreakTimeUsed == Some(v.totalBreakTimeUsed.GetOr(0) + v.shortBreakDuration) &&
      w.curTimerState == Some(Working) &&
      w.currentTask == Some(ScheduledTask(RepeatingTick, false)) &&
      w.remainingTime == v.remainingTime && w.isRunning == v.isRunning &&
      w.nextShortBreakIndex == v.nextShortBreakIndex
  {
  }

  /** The remaining time does not run during a short break, yet its duration is
      booked as break time used: ending a break lowers the work time that
      checkShortBreak computes by the break's length, so each later checkpoint
      is reached that many work seconds later. */
  lemma EndShortBreakSetsBackWorkTime(v: SessionView)
    ensures ActualWorkTime(EndShortBreak(v), EndShortBreak(v).remainingTime)
            == ActualWorkTime(v, v.remainingTime) - v.shortBreakDuration
  {
  }

  /** How many short breaks ended during the events. */
  function BreakEnds(events: seq<Event>): nat
  {
    if events == [] then 0
    else (if events[0].BreakEndFired? then 1 else 0) + BreakEnds(events[1..])
  }

  lemma MulDistributes(d: int, k: int)
    ensures d * (1 + k) == d + d * k
  {
  }

  /** One event other than a reset books the short-break duration as used
      exactly when it ends a short break. */
  lemma StepBooksBreakTime(c: Config, random: RandomSource, v: SessionView, e: Event)
    requires ValidConfig(c) && ValidSource(random) && !e.ResetCommand?
    ensures Step(c, random, v, e).shortBreakDuration == v.shortBreakDuration
    ensures Step(c, random, v, e).totalBreakTimeUsed.GetOr(0) ==
      v.totalBreakTimeUsed.GetOr(0) + (if e.BreakEndFired? then v.shortBreakDuration else 0)
  {
    match e
    case StartCommand =>
    case PauseCommand(now, taskDelay) =>
    case TickFired(now) =>
    case BreakEndFired =>
  }

  /** Until the next reset, the break time used grows by exactly the
      short-break duration per ended break (a restart after completion keeps
      it), and the duration itself never changes. */
  lemma {:induction false} BreakTimeAccounting(c: Config, random: RandomSource, v: SessionView,
                                               events: seq<Event>)
    requires ValidConfig(c) && ValidSource(random)
    requires forall i :: 0 <= i < |events| ==> !events[i].ResetCommand?
    ensures var w := Run(c, random, v, events);
      w.shortBreakDuration == v.shortBreakDuration &&
      w.totalBreakTimeUsed.GetOr(0) ==
        v.totalBreakTimeUsed.GetOr(0) + v.shortBreakDuration * BreakEnds(events)
    decreases |events|
  {
    if events != [] {
      var next := Step(c, random, v, events[0]);
      var rest := events[1..];
      assert Run(c, random, v, events) == Run(c, random, next, rest);
      assert forall i :: 0 <= i < |rest| ==> rest[i] == events[i + 1];
      BreakTimeAccounting(c, random, next, rest);
      StepBooksBreakTime(c, random, v, events[0]);
      var d, k := v.shortBreakDuration, BreakEnds(rest);
      if events[0].BreakEndFired? {
        assert BreakEnds(events) == 1 + k;
        MulDistributes(d, k);
      } else {
        assert BreakEnds(events) == k;
      }
    }
  }

  /** Between a start and the next start or reset, checkpoints are only ever
      consumed, never revisited. */
  lemma {:induction false} CheckpointsConsumedInOrder(c: Config, random: RandomSource, v: SessionView,
                                                      events: seq<Event>)
    requires ValidConfig(c) && ValidSource(random)
    requires forall i :: 0 <= i < |events| ==> !events[i].ResetCommand? && !events[i].StartCommand?
    ensures Run(c, random, v, events).nextShortBreakIndex >= v.nextShortBreakIndex
    ensures Run(c, random, v, events).shortBreakTimes == v.shortBreakTimes
    decreases |events|
  {
    if events != [] {
      CheckpointsConsumedInOrder(c, random, Step(c, random, v, events[0]), events[1..]);
    }
  }

  // ---------------------------------------------------------------------
  // Pause and resume

  /** pauseTimer on a running session records the state it was in, stops it,
      cancels its task and marks it PAUSED; in a break it also records what is
      left of the break, which is never negative. The remaining time and the
      checkpoints are untouched. */
  lemma PauseRecordsContext(c: Config, random: RandomSource, v: SessionView, now: int, taskDelay: int)
    requires ValidConfig(c) && ValidSource(random) && SessionInvariant(c, random, v)
    requires v.isRunning
    ensures var w := PauseTimer(v, now, taskDelay);
      w.stateBeforePause == v.curTimerState && w.curTimerState == Some(Paused) &&
      !w.isRunning && !Live(w.currentTask) &&
      w.remainingTime == v.remainingTime && w.nextShortBreakIndex == v.nextShortBreakIndex &&
      (v.curTimerState == Some(ShortBreak) || v.curTimerState == Some(LongBreak) ==>
         w.breakRemainingTime == Some(BreakRemainingTime(v, now, taskDelay)) &&
         w.breakRemainingTime.value >= 0) &&
      (v.curTimerState == Some(Working) ==> w.breakRemainingTime == v.breakRemainingTime)
  {
  }

  /** A pausing session always has a live task, so its break remainder always
      comes from the task's delay, floored at zero. */
  lemma PauseUsesTaskDelay(c: Config, random: RandomSource, v: SessionView, now: int, taskDelay: int)
    requires ValidConfig(c) && ValidSource(random) && SessionInvariant(c, random, v)
    requires v.isRunning
    ensures BreakRemainingTime(v, now, taskDelay) == Max(0, taskDelay)
  {
  }

  /** Without a live task the remainder is worked out from the recorded start:
      never negative and never more than the break's duration when the clock
      has not gone back; with no recorded start it is the whole duration. */
  lemma BreakRemainingFallback(v: SessionView, now: int, taskDelay: int)
    requires !Live(v.currentTask) && BreakDuration(v) >= 0
    ensures v.breakStartTime.Some? && v.breakStartTime.value > 0 && now >= v.breakStartTime.value ==>
      0 <= BreakRemainingTime(v, now, taskDelay) <= BreakDuration(v)
    ensures (v.breakStartTime.None? || v.breakStartTime.value <= 0) ==>
      BreakRemainingTime(v, now, taskDelay) == BreakDuration(v)
  {
    if v.breakStartTime.Some? && v.breakStartTime.value > 0 && now >= v.breakStartTime.value {
      JavaDivRem(now - v.breakStartTime.value, 1000);
    }
  }

  /** Pausing work with time left and starting again resumes work where it
      stopped, with a new tick. */
  lemma PauseThenStartResumesWork(c: Config, random: RandomSource, v: SessionView, now: int, taskDelay: int)
    requires ValidConfig(c) && ValidSource(random) && SessionInvariant(c, random, v)
    requires v.isRunning && v.curTimerState == Some(Working) && v.remainingTime > 0
    ensures var w := StartTimer(PauseTimer(v, now, taskDelay), c);
      w.curTimerState == Some(Working) && w.isRunning &&
      w.remainingTime == v.remainingTime && w.nextShortBreakIndex == v.nextShortBreakIndex &&
      w.currentTask == Some(ScheduledTask(RepeatingTick, false))
  {
  }

  /** Pausing a short break and starting again schedules the end of the break
      after what the paused task still had to wait. */
  lemma PauseThenStartResumesShortBreak(c: Config, random: RandomSource, v: SessionView, now: int,
                                        taskDelay: int)
    requires ValidConfig(c) && ValidSource(random) && SessionInvariant(c, random, v)
    requires v.isRunning && v.curTimerState == Some(ShortBreak) && v.remainingTime > 0
    ensures var w := StartTimer(PauseTimer(v, now, taskDelay), c);
      w.curTimerState == Some(ShortBreak) && w.isRunning &&
      w.remainingTime == v.remainingTime &&
      w.currentTask == Some(ScheduledTask(BreakEnd(Max(0, taskDelay)), false))
  {
    PauseUsesTaskDelay(c, random, v, now, taskDelay);
  }

  /** Pausing a long break and starting again counts the long break down from
      the delay of the paused task, which is the one-second tick's next run and
      not the long break's own remaining time. */
  lemma PauseThenStartResumesLongBreak(c: Config, random: RandomSource, v: SessionView, now: int,
                                       taskDelay: int)
    requires ValidConfig(c) && ValidSource(random) && SessionInvariant(c, random, v)
    requires v.isRunning && v.curTimerState == Some(LongBreak) && v.remainingTime > 0
    ensures var w := StartTimer(PauseTimer(v, now, taskDelay), c);
      w.curTimerState == Some(LongBreak) && w.isRunning &&
      w.remainingTime == Max(0, taskDelay) &&
      w.currentTask == Some(ScheduledTask(RepeatingTick, false))
  {
    PauseUsesTaskDelay(c, random, v, now, taskDelay);
  }

  /** Starting a session that is paused or complete with no time left begins
      a new work phase: the full work time of its mode and the first
      checkpoint again. */
  lemma StartRearmsWhenNoTimeLeft(c: Config, v: SessionView)
    requires v.curTimerState == Some(Paused) || v.curTimerState == Some(Completed)
    requires v.remainingTime <= 0
    ensures StartTimer(v, c) ==
      v.(curTimerState := Some(Working), remainingTime := WorkTimeFor(c, v.timerMode),
         nextShortBreakIndex := 0, isRunning := true,
         currentTask := Some(ScheduledTask(RepeatingTick, false)))
  {
  }

  /** Starting a session that is in a phase (running, or stopped there by a
      time-up) keeps its phase and time, sets it running and replaces its task
      with the repeating tick, so a pending end of a short break is dropped. */
  lemma StartInPhaseRestartsTick(c: Config, v: SessionView)
    requires v.curTimerState != Some(Paused) && v.curTimerState != Some(Completed)
    ensures StartTimer(v, c) == v.(isRunning := true, currentTask := Some(ScheduledTask(RepeatingTick, false)))
  {
  }

  /** The first start after createTimer goes through resume's fallback (no
      recorded state, so WORKING) or, with a zero work time, through the
      re-arm: either way the session works through the whole work time of its
      mode from the first checkpoint, with a live repeating tick. */
  lemma FirstStartAfterCreate(c: Config, random: RandomSource, u: Uuid, mode: TimerMode)
    requires ValidConfig(c) && ValidSource(random)
    ensures var w := StartTimer(InitializeSession(FreshSession(u), mode, c, random), c);
      w.curTimerState == Some(Working) && w.isRunning &&
      w.remainingTime == WorkTimeFor(c, mode) && w.nextShortBreakIndex == 0 &&
      w.currentTask == Some(ScheduledTask(RepeatingTick, false)) &&
      w.totalBreakTimeUsed == None && w.stateBeforePause == None
  {
  }

  /** Starting a stopped PAUSED session with time left resumes it (startTimer
      hands it to resumeTimer) into the recorded state, with the defaults for
      what was never recorded: no state means WORKING, no remainder means the
      whole short or long break. */
  lemma StartResumesPaused(c: Config, v: SessionView)
    requires v.curTimerState == Some(Paused) && !v.isRunning && v.remainingTime > 0
    ensures StartTimer(v, c) == ResumeTimer(v)
    ensures v.stateBeforePause == Some(ShortBreak) ==>
      ResumeTimer(v) == v.(isRunning := true, curTimerState := Some(ShortBreak),
        currentTask := Some(ScheduledTask(BreakEnd(v.breakRemainingTime.GetOr(v.shortBreakDuration)), false)))
    ensures v.stateBeforePause == Some(LongBreak) ==>
      ResumeTimer(v) == v.(isRunning := true, curTimerState := Some(LongBreak),
        remainingTime := v.breakRemainingTime.GetOr(v.longBreakDuration),
        currentTask := Some(ScheduledTask(RepeatingTick, false)))
    ensures v.stateBeforePause != Some(ShortBreak) && v.stateBeforePause != Some(LongBreak) ==>
      ResumeTimer(v) == v.(isRunning := true, curTimerState := Some(Working),
        currentTask := Some(ScheduledTask(RepeatingTick, false)))
    ensures v.breakRemainingTime == None && v.stateBeforePause == Some(ShortBreak) ==>
      ResumeTimer(v).currentTask == Some(ScheduledTask(BreakEnd(v.shortBreakDuration), false))
    ensures v.breakRemainingTime == None && v.stateBeforePause == Some(LongBreak) ==>
      ResumeTimer(v).remainingTime == v.longBreakDuration
  {
  }

  /** resumeTimer on a running session changes nothing. */
  lemma ResumeWhileRunning(v: SessionView)
    requires v.isRunning
    ensures ResumeTimer(v) == v
  {
  }

  /** pauseTimer on a stopped session changes nothing. */
  lemma PauseWhenStopped(v: SessionView, now: int, taskDelay: int)
    requires !v.isRunning
    ensures PauseTimer(v, now, taskDelay) == v
  {
  }

  // ---------------------------------------------------------------------
  // Reset

  /** resetTimer returns a session to exactly the state createTimer gave it,
      except that its cancelled task stays behind in the task map. */
  lemma ResetMatchesCreation(c: Config, random: RandomSource, v: SessionView)
    requires ValidConfig(c) && ValidSource(random) && SessionInvariant(c, random, v)
    ensures ResetTimer(v, c, random) ==
      InitializeSession(FreshSession(v.sessionUUId), v.timerMode, c, random).(currentTask := Cancel(v.currentTask))
  {
  }

  /** Resetting twice is resetting once. */
  lemma ResetIdempotent(c: Config, random: RandomSource, v: SessionView)
    requires ValidConfig(c) && ValidSource(random)
    ensures ResetTimer(ResetTimer(v, c, random), c, random) == ResetTimer(v, c, random)
  {
  }
}
