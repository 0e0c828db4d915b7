/** The per-session transitions of com.service.TimerServiceImpl, as functions on
    one session's state. A `SessionView` gathers what the service keeps about one
    session id: the PomodoroSession's fields and that id's entries in the
    currentTasks, statesBeforePause, breakStartTimes, breakRemainingTimes and
    totalBreakTimeUsed maps. There is one function per method of the service;
    the methods of the service class are proved to change the registry exactly
    as these functions say. */
module TimerSpec {
  import opened JavaLang
  import opened PomodoroModel
  import opened RandomShortBreakListGenerator

  /** com.config.TimerConfig: the durations (in seconds) both modes are created with. */
  datatype Config = Config(
    classicWorkTime: int,
    classicShortBreakDuration: int,
    classicLongBreakDuration: int,
    continuousWorkTime: int,
    continuousShortBreakDuration: int,
    continuousLongBreakDuration: int,
    continuousShortBreakMinInterval: int,
    continuousShortBreakMaxInterval: int)

  /** The defaults of TimerConfig. */
  const DefaultConfig := Config(25 * 60, 5 * 60, 15 * 60, 90 * 60, 10, 20 * 60, 3 * 60, 5 * 60)

  /** A configuration the engine can run with: no negative duration, and a
      non-empty range of checkpoint intervals of at least one second. */
  predicate ValidConfig(c: Config) {
    c.classicWorkTime >= 0 && c.classicShortBreakDuration >= 0 && c.classicLongBreakDuration >= 0 &&
    c.continuousWorkTime >= 0 && c.continuousShortBreakDuration >= 0 &&
    c.continuousLongBreakDuration >= 0 &&
    1 <= c.continuousShortBreakMinInterval <= c.continuousShortBreakMaxInterval
  }

  function WorkTimeFor(c: Config, mode: TimerMode): int {
    if mode == Continuous then c.continuousWorkTime else c.classicWorkTime
  }

  function ShortBreakFor(c: Config, mode: TimerMode): int {
    if mode == Continuous then c.continuousShortBreakDuration else c.classicShortBreakDuration
  }

  function LongBreakFor(c: Config, mode: TimerMode): int {
    if mode == Continuous then c.continuousLongBreakDuration else c.classicLongBreakDuration
  }

  /** The seed of a session's checkpoints: the UUID's two halves XORed. */
  function Seed(u: Uuid): bv64 {
    u.mostSigBits ^ u.leastSigBits
  }

  /** The checkpoints generated for a continuous session with this UUID. */
  function Checkpoints(c: Config, random: RandomSource, u: Uuid): seq<int>
    requires ValidConfig(c) && ValidSource(random)
  {
    ShortBreakTimes(c.continuousWorkTime, c.continuousShortBreakMinInterval,
                    c.continuousShortBreakMaxInterval, random(Seed(u))).value
  }

  /** What a scheduled task does when it fires: the repeating one-second tick
      (scheduleAtFixedRate of tick) or the one-shot end of a short break
      (schedule of endShortBreak after `delaySeconds`). */
  datatype TaskKind = RepeatingTick | BreakEnd(delaySeconds: int)

  /** A ScheduledFuture in the currentTasks map. Cancelling one leaves it in the
      map, marked cancelled. */
  datatype ScheduledTask = ScheduledTask(kind: TaskKind, cancelled: bool)

  /** A task that will still fire: present and not cancelled. */
  predicate Live(task: Option<ScheduledTask>) {
    task.Some? && !task.value.cancelled
  }

  /** `if (currentTask != null && !currentTask.isCancelled()) currentTask.cancel(false)`. */
  function Cancel(task: Option<ScheduledTask>): (r: Option<ScheduledTask>)
    ensures !Live(r)
  {
    if Live(task) then Some(task.value.(cancelled := true)) else task
  }

  /** Everything the service holds about one session id. The first twelve
      fields are the PomodoroSession's; the last five are the id's entries in
      the service's side maps (None when the map has no entry). */
  datatype SessionView = SessionView(
    sessionUUId: Uuid,
    timerMode: TimerMode,
    curTimerState: Option<TimerState>,
    isRunning: bool,
    shortBreakTimes: seq<int>,
    nextShortBreakIndex: nat,
    remainingTime: int,
    longBreakDuration: int,
    shortBreakDuration: int,
    shortBreakMinInterval: int,
    shortBreakMaxInterval: int,
    workTime: int,
    currentTask: Option<ScheduledTask>,
    stateBeforePause: Option<TimerState>,
    breakStartTime: Option<int>,
    breakRemainingTime: Option<int>,
    totalBreakTimeUsed: Option<int>)

  /** A PomodoroSession just constructed, with no entry in any side map. */
  function FreshSession(u: Uuid): SessionView {
    SessionView(u, Continuous, None, false, [], 0, 0, 0, 0, 0, 0, 0, None, None, None, None, None)
  }

  /** initializeSession: the mode, PAUSED, stopped, and the configured durations;
      a continuous session also gets its seeded checkpoints. */
  function InitializeSession(v: SessionView, mode: TimerMode, c: Config, random: RandomSource): SessionView
    requires ValidConfig(c) && ValidSource(random)
  {
    var w := v.(timerMode := mode, curTimerState := Some(Paused), isRunning := false);
    if mode == Continuous then
      w.(remainingTime := c.continuousWorkTime, workTime := c.continuousWorkTime,
         shortBreakTimes := Checkpoints(c, random, v.sessionUUId),
         shortBreakDuration := c.continuousShortBreakDuration,
         longBreakDuration := c.continuousLongBreakDuration)
    else
      w.(remainingTime := c.classicWorkTime, workTime := c.classicWorkTime,
         longBreakDuration := c.classicLongBreakDuration,
         shortBreakDuration := c.classicShortBreakDuration)
  }

  /** startCountdown: the previous task is cancelled and a live repeating tick
      takes its place. */
  function StartCountdown(v: SessionView): SessionView {
    v.(currentTask := Some(ScheduledTask(RepeatingTick, false)))
  }

  /** startTimer on an existing session. */
  function StartTimer(v: SessionView, c: Config): SessionView {
    if v.curTimerState == Some(Paused) && v.remainingTime > 0 then
      ResumeTimer(v)
    else
      var armed :=
        if v.curTimerState == Some(Paused) || v.curTimerState == Some(Completed) then
          var w := v.(curTimerState := Some(Working));
          if w.remainingTime <= 0 then
            w.(remainingTime := WorkTimeFor(c, v.timerMode), nextShortBreakIndex := 0)
          else w
        else v;
      StartCountdown(armed.(isRunning := true))
  }

  /** resumeTimer: back into the state recorded at pause, WORKING when none was
      recorded; a short break gets a one-shot for its remainder, a long break
      counts down its remainder. */
  function ResumeTimer(v: SessionView): SessionView {
    if v.isRunning then v
    else
      var before := v.stateBeforePause.GetOr(Working);
      var w := v.(isRunning := true);
      if before == ShortBreak then
        var breakRemaining := v.breakRemainingTime.GetOr(v.shortBreakDuration);
        w.(curTimerState := Some(ShortBreak),
           currentTask := Some(ScheduledTask(BreakEnd(breakRemaining), false)))
      else if before == LongBreak then
        StartCountdown(w.(curTimerState := Some(LongBreak),
                          remainingTime := v.breakRemainingTime.GetOr(v.longBreakDuration)))
      else
        StartCountdown(w.(curTimerState := Some(Working)))
  }

  /** tick on an existing session. */
  function Tick(v: SessionView, now: int): SessionView {
    if !v.isRunning then v
    else if v.remainingTime <= 0 then HandleTimeUp(v, now)
    else
      var checked :=
        if v.curTimerState == Some(Working) && v.timerMode == Continuous
        then CheckShortBreak(v, v.remainingTime, now) else v;
      checked.(remainingTime := v.remainingTime - 1)
  }

  /** Work seconds actually done: work time minus what is left minus the
      seconds already spent in short breaks (a missing entry counts as 0). */
  function ActualWorkTime(v: SessionView, remainingTime: int): int {
    v.workTime - remainingTime - v.totalBreakTimeUsed.GetOr(0)
  }

  /** The next unconsumed checkpoint exists and the work done has reached it. */
  predicate BreakDue(v: SessionView, remainingTime: int) {
    v.nextShortBreakIndex < |v.shortBreakTimes| &&
    ActualWorkTime(v, remainingTime) >= v.shortBreakTimes[v.nextShortBreakIndex]
  }

  /** checkShortBreak: start a short break and consume the checkpoint when it is due. */
  function CheckShortBreak(v: SessionView, remainingTime: int, now: int): SessionView {
    if BreakDue(v, remainingTime) then
      StartShortBreak(v, now).(nextShortBreakIndex := v.nextShortBreakIndex + 1)
    else v
  }

  /** startShortBreak: the tick task is replaced by a one-shot end of break
      after the short-break duration; the start time is recorded. */
  function StartShortBreak(v: SessionView, now: int): SessionView {
    v.(breakStartTime := Some(now), curTimerState := Some(ShortBreak),
       currentTask := Some(ScheduledTask(BreakEnd(v.shortBreakDuration), false)))
  }

  /** endShortBreak: the break's duration is added to the break seconds used,
      and work resumes with a new repeating tick. */
  function EndShortBreak(v: SessionView): SessionView {
    StartCountdown(v.(totalBreakTimeUsed := Some(v.totalBreakTimeUsed.GetOr(0) + v.shortBreakDuration),
                      curTimerState := Some(Working)))
  }

  /** handleTimeUp: stop and cancel, then end the work phase or the long break. */
  function HandleTimeUp(v: SessionView, now: int): SessionView {
    var stopped := v.(isRunning := false, currentTask := Cancel(v.currentTask));
    if v.curTimerState == Some(Working) then HandleWorkTimeUp(stopped, now)
    else if v.curTimerState == Some(LongBreak) then HandleLongBreakTimeUp(stopped)
    else stopped
  }

  /** handleWorkTimeUp: a classic session goes on to its long break, a
      continuous one is complete. */
  function HandleWorkTimeUp(v: SessionView, now: int): SessionView {
    if v.timerMode == Classic then StartLongBreak(v, now)
    else v.(curTimerState := Some(Completed))
  }

  /** startLongBreak: count down the long-break duration with a new tick. */
  function StartLongBreak(v: SessionView, now: int): SessionView {
    StartCountdown(v.(curTimerState := Some(LongBreak), remainingTime := v.longBreakDuration,
                      isRunning := true, breakStartTime := Some(now)))
  }

  /** handleLongBreakTimeUp. */
  function HandleLongBreakTimeUp(v: SessionView): SessionView {
    v.(curTimerState := Some(Completed))
  }

  /** The configured length of the break the session is in. */
  function BreakDuration(v: SessionView): int {
    if v.curTimerState == Some(ShortBreak) then v.shortBreakDuration else v.longBreakDuration
  }

  /** calculateBreakRemainingTime: the live task's delay (`taskDelay`, what
      getDelay returns), else the duration minus the seconds since the recorded
      start (`now` in milliseconds), else the whole duration. */
  function BreakRemainingTime(v: SessionView, now: int, taskDelay: int): int {
    if Live(v.currentTask) then Max(0, taskDelay)
    else if v.breakStartTime.Some? && v.breakStartTime.value > 0 then
      var elapsedSeconds := JavaDiv(now - v.breakStartTime.value, 1000);
      Max(0, BreakDuration(v) - elapsedSeconds)
    else BreakDuration(v)
  }

  /** pauseTimer on an existing session. Nothing happens unless it is running;
      an unset state would make statesBeforePause.put throw before anything
      changes. */
  function PauseTimer(v: SessionView, now: int, taskDelay: int): SessionView {
    if !v.isRunning || v.curTimerState.None? then v
    else
      var state := v.curTimerState.value;
      var breakRemaining :=
        if state == ShortBreak || state == LongBreak then Some(BreakRemainingTime(v, now, taskDelay))
        else v.breakRemainingTime;
      v.(stateBeforePause := Some(state), breakRemainingTime := breakRemaining,
         isRunning := false, curTimerState := Some(Paused), currentTask := Cancel(v.currentTask))
  }

  /** resetTimer on an existing session. */
  function ResetTimer(v: SessionView, c: Config, random: RandomSource): SessionView
    requires ValidConfig(c) && ValidSource(random)
  {
    var cleared := v.(totalBreakTimeUsed := None, isRunning := false,
                      currentTask := Cancel(v.currentTask), stateBeforePause := None,
                      breakRemainingTime := None, breakStartTime := None);
    var rearmed :=
      if v.timerMode == Continuous then
        cleared.(remainingTime := c.continuousWorkTime, workTime := c.continuousWorkTime,
                 shortBreakTimes := Checkpoints(c, random, v.sessionUUId))
      else
        cleared.(remainingTime := c.classicWorkTime, workTime := c.classicWorkTime);
    rearmed.(curTimerState := Some(Paused), nextShortBreakIndex := 0)
  }

  /** What holds of every registered session between operations. */
  ghost predicate SessionInvariant(c: Config, random: RandomSource, v: SessionView)
    requires ValidConfig(c) && ValidSource(random)
  {
    v.curTimerState.Some? &&
    v.nextShortBreakIndex <= |v.shortBreakTimes| &&
    v.remainingTime >= 0 &&
    (v.isRunning ==> Live(v.currentTask)) &&
    (v.curTimerState == Some(Paused) || v.curTimerState == Some(Completed) ==> !v.isRunning) &&
    v.workTime == WorkTimeFor(c, v.timerMode) &&
    v.shortBreakDuration == ShortBreakFor(c, v.timerMode) &&
    v.longBreakDuration == LongBreakFor(c, v.timerMode) &&
    v.shortBreakTimes == (if v.timerMode == Continuous then Checkpoints(c, random, v.sessionUUId) else []) &&
    v.shortBreakMinInterval == 0 && v.shortBreakMaxInterval == 0 &&
    (v.breakRemainingTime.Some? ==> v.breakRemainingTime.value >= 0) &&
    (v.totalBreakTimeUsed.Some? ==> v.totalBreakTimeUsed.value >= 0)
  }

  /** Every session of a registry satisfies the invariant. */
  ghost predicate AllSessionsValid(c: Config, random: RandomSource, registry: map<string, SessionView>)
    requires ValidConfig(c) && ValidSource(random)
  {
    forall id :: id in registry ==> SessionInvariant(c, random, registry[id])
  }
}
