# Pomodoro timer engine in Dafny

This project models the backend core of a Pomodoro timer service. It has three parts.

**The per-session timer engine (`com.service.TimerServiceImpl`).** Clients create a timer under an id of their own choosing. The service keeps seven maps keyed by that id:
- the `PomodoroSession`;
- its scheduler;
- the one pending scheduled task;
- the state before pause;
- the break start time;
- the break time left;
- the short-break seconds used.

There are two groups of operations:
- Commands (create, start, pause, reset, delete, cleanup) change those maps and the session's fields.
- Scheduled callbacks (the one-second `tick` and the one-shot end of a short break) move a session through the states PAUSED, WORKING, SHORT_BREAK, LONG_BREAK and COMPLETED.
- A CLASSIC session works, then takes one long break.
- A CONTINUOUS session works through one long phase. Short breaks interrupt it at seeded checkpoints.

**The checkpoint generator (`com.util.RandomShortBreakListGenerator`).** A fresh `java.util.Random(seed)` draws gaps in `[min, max]` and accumulates them while they stay below the work time. `formatTime` splits seconds into minutes and seconds.

**The session record (`com.model.PomodoroSession`).** It is a mutable record with Lombok setters. Its UUID and string id are fixed at construction.

How the model is laid out:

| File | Module | Contents |
|---|---|---|
| `java_lang.dfy` | `JavaLang` | The Java semantics the code relies on: null as `Option`, `Math.max`, and Java's truncating `/` and `%`. |
| `pomodoro_session.dfy` | `PomodoroModel` | The session record as a class with one setter per field, and `UUID.toString`. |
| `short_break_generator.dfy` | `RandomShortBreakListGenerator` | The generator loop as a method, proved equal to a recursive specification `ShortBreakTimes`, and the shape of what that specification produces. `FormatTime` is also here. |
| `timer_spec.dfy` | `TimerSpec` | One function per service method, working on a `SessionView`. A `SessionView` holds one session's fields plus that id's entries in the five side maps. Also the session invariant. |
| `timer_properties.dfy` | `TimerProperties` | Lemmas about those functions. |
| `timer_service.dfy` | `TimerService` | The service as a class with the seven maps as fields. Every command and callback is a method proved to change the abstract `Registry()` (id ↦ `SessionView`) exactly as the `TimerSpec` function says, and to keep `Valid()`. |

The sources of nondeterminism are parameters:
- `random: RandomSource` maps a seed to the stream of `nextInt(bound)` draws. The stream depends on the seed alone.
- `uuid` is what `UUID.randomUUID()` returned.
- `now` is `System.currentTimeMillis()`.
- `taskDelay` is `getDelay(SECONDS)` of the current task.

The passage of time is modelled as explicit calls of `Tick` and `EndShortBreak`. The scheduler is modelled as the id's slot in `currentTasks`.

The code is followed as written, including its quirks:
- The tick that starts a short break still takes a second off the remaining time.
- Time-up is noticed only on the tick after the counter reaches 0, so each phase takes one tick more than its length.
- The first start after create or reset goes through resume's "no recorded state, so WORKING" fallback.
- Pausing a long break records the delay of the repeating tick as the break's remainder, and resuming counts down from that value.

So a phase of n seconds ends on tick n+1, and the tick that starts a short break also costs a work second; the model keeps both.

## Model

| member | source | states |
|---|---|---|
| JavaLang.Max | backend/src/main/java/com/service/TimerServiceImpl.java:425 | `Math.max` is at least both arguments and equals one of them. |
| JavaLang.JavaDivRem | backend/src/main/java/com/service/TimerServiceImpl.java:438 | Java's truncating `/` and `%`: `q*b + r == a`, `abs(r) < b`, the remainder has the sign of the dividend, and for `a >= 0` they agree with Euclidean division. |
| PomodoroModel.HexDigit | backend/src/main/java/com/model/PomodoroSession.java:16 | Each digit of the UUID string is a lower-case hexadecimal digit. |
| PomodoroModel.HexDigits | backend/src/main/java/com/model/PomodoroSession.java:16 | A UUID group has exactly the requested number of digits, all hexadecimal. |
| PomodoroModel.HexDigitsRoundTrip | backend/src/main/java/com/model/PomodoroSession.java:16 | Reading a written group back gives the value modulo 16^n, so the string determines the bits it shows. |
| PomodoroModel.DashedGroups | backend/src/main/java/com/model/PomodoroSession.java:16 | `UUID.toString` is 36 characters with dashes at positions 8, 13, 18 and 23. |
| PomodoroModel.PomodoroSession.constructor | backend/src/main/java/com/model/PomodoroSession.java:15-30 | A new session has the given UUID and its string as id, mode CONTINUOUS, not running, no checkpoints, index 0, no state, and every int field 0. |
| PomodoroModel.PomodoroSession.SetTimerMode | backend/src/main/java/com/model/PomodoroSession.java:18 | Sets the mode. Its frame (`this`timerMode`) says nothing else changes. |
| PomodoroModel.PomodoroSession.SetRunning | backend/src/main/java/com/model/PomodoroSession.java:19 | Sets the running flag, and only it. |
| PomodoroModel.PomodoroSession.SetShortBreakTimes | backend/src/main/java/com/model/PomodoroSession.java:21 | Sets the checkpoints, and only them. |
| PomodoroModel.PomodoroSession.SetNextShortBreakIndex | backend/src/main/java/com/model/PomodoroSession.java:22 | Sets the checkpoint index, and only it. |
| PomodoroModel.PomodoroSession.SetCurTimerState | backend/src/main/java/com/model/PomodoroSession.java:23 | Sets the state, and only it. |
| PomodoroModel.PomodoroSession.SetRemainingTime | backend/src/main/java/com/model/PomodoroSession.java:24 | Sets the remaining time, and only it. |
| PomodoroModel.PomodoroSession.SetLongBreakDuration | backend/src/main/java/com/model/PomodoroSession.java:26 | Sets the long-break duration, and only it. |
| PomodoroModel.PomodoroSession.SetShortBreakDuration | backend/src/main/java/com/model/PomodoroSession.java:27 | Sets the short-break duration, and only it. |
| PomodoroModel.PomodoroSession.SetWorkTime | backend/src/main/java/com/model/PomodoroSession.java:30 | Sets the work time, and only it. |
| RandomShortBreakListGenerator.Interval | backend/src/main/java/com/util/RandomShortBreakListGenerator.java:18-20 | Every drawn gap lies in `[minInterval, maxInterval]`. |
| RandomShortBreakListGenerator.GenerateShortBreakTimes | backend/src/main/java/com/util/RandomShortBreakListGenerator.java:12-30 | The loop returns exactly `ShortBreakTimes` of the draws of `random(seed)`, so the result depends only on the three ints and the seed. With a positive work time and `max < min` it throws (the `nextInt` bound is not positive). |
| RandomShortBreakListGenerator.TimesFromIncreasing | backend/src/main/java/com/util/RandomShortBreakListGenerator.java:17-27 | The checkpoints strictly increase, and each lies strictly between the starting point and the work time. |
| RandomShortBreakListGenerator.TimesFromGaps | backend/src/main/java/com/util/RandomShortBreakListGenerator.java:18-25 | The first checkpoint is within `[min, max]` of the start, and each later one is within `[min, max]` of its predecessor. |
| RandomShortBreakListGenerator.TimesFromMaximal | backend/src/main/java/com/util/RandomShortBreakListGenerator.java:17-27 | The loop stops only when the last checkpoint (or the start) plus `max` reaches the work time. |
| RandomShortBreakListGenerator.ShortBreakTimesShape | backend/src/main/java/com/util/RandomShortBreakListGenerator.java:12-30 | A successful list is strictly increasing, within `[1, workTime)`, has its first value and every gap in `[min, max]`, and has no room for one more checkpoint. |
| RandomShortBreakListGenerator.ShortBreakTimesOutcome | backend/src/main/java/com/util/RandomShortBreakListGenerator.java:17-20 | Generation throws if and only if the work time is positive and `max < min`. With `min <= max` and a work time of at most `min`, the list is empty. |
| RandomShortBreakListGenerator.FormatTime | backend/src/main/java/com/util/RandomShortBreakListGenerator.java:37-41 | `minutes*60 + seconds` is the input. For a non-negative input, `0 <= seconds < 60` and minutes are non-negative. For a negative input, both are non-positive (Java truncation). |
| TimerSpec.Cancel | backend/src/main/java/com/service/TimerServiceImpl.java:404-407 | After cancelling, the task can no longer fire. |
| PomodoroModel.UuidToString | backend/src/main/java/com/model/PomodoroSession.java:16 | `UUID.toString` of the session's UUID; no contract of its own: `DashedGroups` and `HexDigitsRoundTrip` state its format. |
| RandomShortBreakListGenerator.TimesFrom | backend/src/main/java/com/util/RandomShortBreakListGenerator.java:17-27 | The loop's checkpoints from a given point on, as a recursive function; no contract of its own: see `TimesFromIncreasing`, `TimesFromGaps`, `TimesFromMaximal`. |
| RandomShortBreakListGenerator.ShortBreakTimes | backend/src/main/java/com/util/RandomShortBreakListGenerator.java:12-30 | What generation returns or throws; no contract of its own: see `GenerateShortBreakTimes`, `ShortBreakTimesShape`, `ShortBreakTimesOutcome`. |
| TimerSpec.Seed | backend/src/main/java/com/service/TimerServiceImpl.java:81-82 | The seed `msb ^ lsb` of the session UUID; no contract of its own. |
| TimerSpec.Checkpoints | backend/src/main/java/com/service/TimerServiceImpl.java:84-89 | The checkpoints of a continuous session; no contract of its own: see `ShortBreakTimesShape` and `ResetMatchesCreation`. |
| TimerSpec.InitializeSession | backend/src/main/java/com/service/TimerServiceImpl.java:69-104 | No contract of its own: see `CreatedSession`, `FirstStartAfterCreate`. |
| TimerSpec.StartCountdown | backend/src/main/java/com/service/TimerServiceImpl.java:202-213 | No contract of its own: the task becomes a live repeating tick (see `StartInPhaseRestartsTick`). |
| TimerSpec.StartTimer | backend/src/main/java/com/service/TimerServiceImpl.java:107-141 | No contract of its own: see `StartTimerPreserves`, `StartResumesPaused`, `StartRearmsWhenNoTimeLeft`, `StartInPhaseRestartsTick`, `FirstStartAfterCreate`. |
| TimerSpec.ResumeTimer | backend/src/main/java/com/service/TimerServiceImpl.java:143-199 | No contract of its own: see `StartResumesPaused`, `ResumeWhileRunning`, the `PauseThenStart*` lemmas. |
| TimerSpec.Tick | backend/src/main/java/com/service/TimerServiceImpl.java:215-244 | No contract of its own: see `TickWhenStopped`, `TickCountsDown`, `TimeUpOutcome`, `ShortBreakTrigger`, `TickPreserves`. |
| TimerSpec.ActualWorkTime | backend/src/main/java/com/service/TimerServiceImpl.java:256-257 | No contract of its own: see `EndShortBreakSetsBackWorkTime`. |
| TimerSpec.BreakDue | backend/src/main/java/com/service/TimerServiceImpl.java:259-266 | No contract of its own: see `ShortBreakTrigger`. |
| TimerSpec.CheckShortBreak | backend/src/main/java/com/service/TimerServiceImpl.java:249-271 | No contract of its own: see `ShortBreakTrigger`, `CheckpointsConsumedInOrder`. |
| TimerSpec.StartShortBreak | backend/src/main/java/com/service/TimerServiceImpl.java:276-298 | No contract of its own: see `ShortBreakTrigger`. |
| TimerSpec.EndShortBreak | backend/src/main/java/com/service/TimerServiceImpl.java:303-314 | No contract of its own: see `EndShortBreakAccounting`, `BreakTimeAccounting`, `EndShortBreakPreserves`. |
| TimerSpec.HandleTimeUp | backend/src/main/java/com/service/TimerServiceImpl.java:319-337 | No contract of its own: see `TimeUpOutcome`. |
| TimerSpec.HandleWorkTimeUp | backend/src/main/java/com/service/TimerServiceImpl.java:342-354 | No contract of its own: see `TimeUpOutcome`, `ClassicCycle`. |
| TimerSpec.StartLongBreak | backend/src/main/java/com/service/TimerServiceImpl.java:359-372 | No contract of its own: see `TimeUpOutcome`, `ClassicCycle`. |
| TimerSpec.HandleLongBreakTimeUp | backend/src/main/java/com/service/TimerServiceImpl.java:377-381 | No contract of its own: see `TimeUpOutcome`. |
| TimerSpec.BreakDuration | backend/src/main/java/com/service/TimerServiceImpl.java:440-441 | No contract of its own: see `BreakRemainingFallback`. |
| TimerSpec.BreakRemainingTime | backend/src/main/java/com/service/TimerServiceImpl.java:420-449 | No contract of its own: see `PauseUsesTaskDelay`, `BreakRemainingFallback`, `CalculateBreakRemainingTime`. |
| TimerSpec.PauseTimer | backend/src/main/java/com/service/TimerServiceImpl.java:384-415 | No contract of its own: see `PauseRecordsContext`, `PauseWhenStopped`, `PauseTimerPreserves`. |
| TimerSpec.ResetTimer | backend/src/main/java/com/service/TimerServiceImpl.java:452-497 | No contract of its own: see `ResetMatchesCreation`, `ResetIdempotent`, `ResetTimerPreserves`. |
| TimerProperties.CreatedSession | backend/src/main/java/com/service/TimerServiceImpl.java:69-104 | A created session satisfies the invariant and is PAUSED, not running, index 0, with remaining time equal to the configured work time of its mode, and no task, no state before pause, no break remainder, no break start and no break time used. |
| TimerProperties.StartTimerPreserves | backend/src/main/java/com/service/TimerServiceImpl.java:107-141 | startTimer keeps the invariant and always leaves the session running and not PAUSED. |
| TimerProperties.TickPreserves | backend/src/main/java/com/service/TimerServiceImpl.java:215-244 | tick keeps the invariant. |
| TimerProperties.EndShortBreakPreserves | backend/src/main/java/com/service/TimerServiceImpl.java:303-314 | endShortBreak keeps the invariant. |
| TimerProperties.PauseTimerPreserves | backend/src/main/java/com/service/TimerServiceImpl.java:384-415 | pauseTimer keeps the invariant and leaves the session stopped. A running session is left without a live task. |
| TimerProperties.ResetTimerPreserves | backend/src/main/java/com/service/TimerServiceImpl.java:452-497 | resetTimer keeps the invariant. |
| TimerProperties.StepPreserves | backend/src/main/java/com/service/TimerServiceImpl.java:107-497 | Each command or callback keeps the invariant. |
| TimerProperties.RunPreserves | backend/src/main/java/com/service/TimerServiceImpl.java:107-497 | Any sequence of commands and callbacks keeps the invariant. |
| TimerProperties.ReachableSessionValid | backend/src/main/java/com/service/TimerServiceImpl.java:44-497 | In every session reachable from createTimer: the index never passes the checkpoint count, the remaining time is never negative, and a running session has a live task. |
| TimerProperties.TickWhenStopped | backend/src/main/java/com/service/TimerServiceImpl.java:215-222 | A tick on a stopped session changes nothing. |
| TimerProperties.TickCountsDown | backend/src/main/java/com/service/TimerServiceImpl.java:224-235 | With time left, a tick takes exactly one second off (also on the tick that starts a short break) and keeps the session running. |
| TimerProperties.TimeUpOutcome | backend/src/main/java/com/service/TimerServiceImpl.java:319-381 | With no time left, a tick stops and cancels. Then: classic work becomes a running LONG_BREAK of the long-break duration with a new tick and a recorded start; continuous work and a long break become COMPLETED; any other state only stops. |
| TimerProperties.TicksSplit | backend/src/main/java/com/service/TimerServiceImpl.java:215-244 | `a + b` ticks are `a` ticks followed by `b` ticks. |
| TimerProperties.CountsDownWithoutCheckpoints | backend/src/main/java/com/service/TimerServiceImpl.java:224-235 | Outside continuous work, k ticks with at least k seconds left take off exactly k seconds and change nothing else. |
| TimerProperties.ClassicCycle | backend/src/main/java/com/service/TimerServiceImpl.java:215-381 | A classic work phase with r seconds left is a LONG_BREAK after r+1 ticks. It is COMPLETED, stopped and without a live task after r+L+2 ticks. |
| TimerProperties.ShortBreakTrigger | backend/src/main/java/com/service/TimerServiceImpl.java:229-298 | In continuous work a tick starts a short break if and only if the next checkpoint is due. The break consumes exactly one checkpoint, records its start, schedules a one-shot of the short-break duration and still decrements. Otherwise the tick only decrements. |
| TimerProperties.ClassicNeverShortBreaks | backend/src/main/java/com/service/TimerServiceImpl.java:229-233 | A classic session never enters a short break on a tick and never consumes a checkpoint. |
| TimerProperties.EndShortBreakAccounting | backend/src/main/java/com/service/TimerServiceImpl.java:303-314 | Ending a break: break time used grows by exactly the short-break duration (missing counts as 0), the state is WORKING, a repeating tick is scheduled, and the remaining time and index are unchanged. |
| TimerProperties.EndShortBreakSetsBackWorkTime | backend/src/main/java/com/service/TimerServiceImpl.java:256-257 | After a break ends, the work time used for checkpoints is lower by the break's duration. |
| TimerProperties.StepBooksBreakTime | backend/src/main/java/com/service/TimerServiceImpl.java:303-314 | An event other than reset books the short-break duration exactly when it ends a break, and never changes that duration. |
| TimerProperties.BreakTimeAccounting | backend/src/main/java/com/service/TimerServiceImpl.java:303-314 | Over any events without a reset, break time used grows by exactly duration × number of ended breaks. |
| TimerProperties.CheckpointsConsumedInOrder | backend/src/main/java/com/service/TimerServiceImpl.java:249-271 | Without start or reset the checkpoint list is fixed and the index never decreases. |
| TimerProperties.PauseRecordsContext | backend/src/main/java/com/service/TimerServiceImpl.java:384-415 | Pausing a running session: records its state, ends PAUSED and stopped without a live task, and keeps remaining time and index. In a break it records a non-negative remainder; in work it leaves the stored remainder alone. |
| TimerProperties.PauseUsesTaskDelay | backend/src/main/java/com/service/TimerServiceImpl.java:420-426 | A running session always has a live task, so its break remainder is `max(0, taskDelay)`. |
| TimerProperties.BreakRemainingFallback | backend/src/main/java/com/service/TimerServiceImpl.java:428-449 | Without a live task: with a recorded positive start and a clock not earlier than it, the remainder lies in `[0, duration]`; with no recorded start (or a non-positive one), it is the whole duration. |
| TimerProperties.PauseThenStartResumesWork | backend/src/main/java/com/service/TimerServiceImpl.java:143-199 | Pause then start in work resumes WORKING with the same remaining time and index, and a new tick. |
| TimerProperties.PauseThenStartResumesShortBreak | backend/src/main/java/com/service/TimerServiceImpl.java:156-174 | Pause then start in a short break resumes it with a one-shot after `max(0, taskDelay)`. |
| TimerProperties.PauseThenStartResumesLongBreak | backend/src/main/java/com/service/TimerServiceImpl.java:175-190 | Pause then start in a long break counts down from `max(0, taskDelay)`, the tick's delay, not the break's own remaining time. |
| TimerProperties.StartRearmsWhenNoTimeLeft | backend/src/main/java/com/service/TimerServiceImpl.java:119-135 | Starting a PAUSED or COMPLETED session with no time left is exactly: WORKING, running, the full work time of its mode as remaining time, index 0 and a new repeating tick; everything else (work time, checkpoints, break time used, pause context, durations) stays as it was. |
| TimerProperties.StartInPhaseRestartsTick | backend/src/main/java/com/service/TimerServiceImpl.java:119-135 | Starting a session in WORKING, SHORT_BREAK or LONG_BREAK (running, or stopped there by a time-up) only sets it running and replaces its task with a repeating tick; a pending end of a short break is dropped. |
| TimerProperties.FirstStartAfterCreate | backend/src/main/java/com/service/TimerServiceImpl.java:107-199 | The first start after creation runs WORKING with the whole work time of the mode, index 0, a live repeating tick and no break time used: the "no recorded state, so WORKING" fallback (or the re-arm when the work time is 0). |
| TimerProperties.StartResumesPaused | backend/src/main/java/com/service/TimerServiceImpl.java:113-117 | Starting a stopped PAUSED session with time left is resumeTimer, and for each recorded state the whole new session is given: a short break becomes a one-shot after the recorded remainder (else the whole short-break duration); a long break counts down from the recorded remainder (else the whole long-break duration); any other or no recorded state resumes WORKING at the same remaining time; only the running flag, the state, the task and (for a long break) the remaining time change. |
| TimerProperties.ResumeWhileRunning | backend/src/main/java/com/service/TimerServiceImpl.java:145 | resumeTimer on a running session changes nothing. |
| TimerProperties.PauseWhenStopped | backend/src/main/java/com/service/TimerServiceImpl.java:390 | pauseTimer on a stopped session changes nothing. |
| TimerProperties.ResetMatchesCreation | backend/src/main/java/com/service/TimerServiceImpl.java:452-497 | Reset gives exactly the session createTimer gave, including the same seeded checkpoints, except that the cancelled task stays in the map. |
| TimerProperties.ResetIdempotent | backend/src/main/java/com/service/TimerServiceImpl.java:452-497 | Resetting twice equals resetting once. |
| TimerService.TimerServiceImpl.constructor | backend/src/main/java/com/service/TimerServiceImpl.java:31-41 | A new service has empty maps and is valid. |
| TimerService.TimerServiceImpl.CreateTimer | backend/src/main/java/com/service/TimerServiceImpl.java:44-67 | An id in use fails with SessionExists and changes nothing. Otherwise it adds exactly that id, with a fresh object and the initialized session, and keeps every other id. |
| TimerService.TimerServiceImpl.Register | backend/src/main/java/com/service/TimerServiceImpl.java:50-59 | Adds a fresh session object and a scheduler under the new id, and nothing else. |
| TimerService.TimerServiceImpl.InitializeSession | backend/src/main/java/com/service/TimerServiceImpl.java:69-104 | The session becomes `TimerSpec.InitializeSession` of what it was. |
| TimerService.TimerServiceImpl.StartTimer | backend/src/main/java/com/service/TimerServiceImpl.java:107-141 | An unknown id fails with SessionNotFound and changes nothing. Otherwise only that id's view becomes `TimerSpec.StartTimer` of it, and the service stays valid. |
| TimerService.TimerServiceImpl.StartAt | backend/src/main/java/com/service/TimerServiceImpl.java:113-140 | The body of startTimer changes only this id's entries, as `TimerSpec.StartTimer`. |
| TimerService.TimerServiceImpl.ResumeTimer | backend/src/main/java/com/service/TimerServiceImpl.java:143-199 | Changes only this id, as `TimerSpec.ResumeTimer`, whose defaults (WORKING, the whole short or long break) `StartResumesPaused` states. |
| TimerService.TimerServiceImpl.CancelTask | backend/src/main/java/com/service/TimerServiceImpl.java:404-407 | Cancels the id's task, which stays in the map, and changes nothing else. |
| TimerService.TimerServiceImpl.StartCountdown | backend/src/main/java/com/service/TimerServiceImpl.java:202-213 | Only the id's task changes, to a live repeating tick. |
| TimerService.TimerServiceImpl.Tick | backend/src/main/java/com/service/TimerServiceImpl.java:215-244 | An unknown id changes nothing. Otherwise only that id changes, as `TimerSpec.Tick`, and the service stays valid. |
| TimerService.TimerServiceImpl.TickAt | backend/src/main/java/com/service/TimerServiceImpl.java:216-243 | Changes only this id, as `TimerSpec.Tick`. |
| TimerService.TimerServiceImpl.CheckShortBreak | backend/src/main/java/com/service/TimerServiceImpl.java:249-271 | Changes only this id, as `TimerSpec.CheckShortBreak`. |
| TimerService.TimerServiceImpl.StartShortBreak | backend/src/main/java/com/service/TimerServiceImpl.java:276-298 | Changes only this id, as `TimerSpec.StartShortBreak`. |
| TimerService.TimerServiceImpl.EndShortBreak | backend/src/main/java/com/service/TimerServiceImpl.java:303-314 | An unknown id changes nothing. Otherwise only that id changes, as `TimerSpec.EndShortBreak`, and the service stays valid. |
| TimerService.TimerServiceImpl.EndShortBreakAt | backend/src/main/java/com/service/TimerServiceImpl.java:304-313 | Changes only this id, as `TimerSpec.EndShortBreak`. |
| TimerService.TimerServiceImpl.HandleTimeUp | backend/src/main/java/com/service/TimerServiceImpl.java:319-337 | Changes only this id, as `TimerSpec.HandleTimeUp`. |
| TimerService.TimerServiceImpl.HandleWorkTimeUp | backend/src/main/java/com/service/TimerServiceImpl.java:342-354 | Changes only this id, as `TimerSpec.HandleWorkTimeUp`. |
| TimerService.TimerServiceImpl.StartLongBreak | backend/src/main/java/com/service/TimerServiceImpl.java:359-372 | Changes only this id, as `TimerSpec.StartLongBreak`. |
| TimerService.TimerServiceImpl.HandleLongBreakTimeUp | backend/src/main/java/com/service/TimerServiceImpl.java:377-381 | The session becomes COMPLETED. |
| TimerService.TimerServiceImpl.PauseTimer | backend/src/main/java/com/service/TimerServiceImpl.java:384-415 | An unknown id fails with SessionNotFound and changes nothing. Otherwise only that id changes, as `TimerSpec.PauseTimer`, and the service stays valid. |
| TimerService.TimerServiceImpl.PauseAt | backend/src/main/java/com/service/TimerServiceImpl.java:390-414 | Changes only this id, as `TimerSpec.PauseTimer`. |
| TimerService.TimerServiceImpl.RecordPauseContext | backend/src/main/java/com/service/TimerServiceImpl.java:392-399 | Records the current state and, in a break, the break remainder, and nothing else. |
| TimerService.TimerServiceImpl.CalculateBreakRemainingTime | backend/src/main/java/com/service/TimerServiceImpl.java:420-449 | For a registered id, the result is `BreakRemainingTime` (live task delay floored at 0, else duration minus elapsed seconds floored at 0, else the full duration). For an unknown id: the delay of a live task, else 0. |
| TimerService.TimerServiceImpl.ResetTimer | backend/src/main/java/com/service/TimerServiceImpl.java:452-497 | An unknown id fails with SessionNotFound and changes nothing. Otherwise only that id changes, as `TimerSpec.ResetTimer`, and the service stays valid. |
| TimerService.TimerServiceImpl.ResetAt | backend/src/main/java/com/service/TimerServiceImpl.java:457-494 | Changes only this id, as `TimerSpec.ResetTimer`. |
| TimerService.TimerServiceImpl.ClearBreakState | backend/src/main/java/com/service/TimerServiceImpl.java:457-470 | Clears break time used, pause context and break start, stops the session and cancels the task. |
| TimerService.TimerServiceImpl.RestoreWorkTime | backend/src/main/java/com/service/TimerServiceImpl.java:473-491 | Remaining time and work time become the work time of the mode. A continuous session gets the checkpoints seeded by `msb ^ lsb` of its UUID. |
| TimerService.TimerServiceImpl.DeleteTimer | backend/src/main/java/com/service/TimerServiceImpl.java:500-547 | Removes the id from all seven maps and leaves every other id untouched. An absent id changes nothing. A deleted session object is left stopped. The service stays valid. |
| TimerService.TimerServiceImpl.StopForDeletion | backend/src/main/java/com/service/TimerServiceImpl.java:503-512 | The session (if any) stops and its task can no longer fire. No other id's task changes. |
| TimerService.TimerServiceImpl.GetCurrentSession | backend/src/main/java/com/service/TimerServiceImpl.java:554-556 | Returns the registered session object, or null if and only if the id is unknown. |
| TimerService.TimerServiceImpl.Cleanup | backend/src/main/java/com/service/TimerServiceImpl.java:559-574 | Leaves every map empty and every formerly registered session stopped. |
| TimerService.TimerServiceImpl.DeleteRemaining | backend/src/main/java/com/service/TimerServiceImpl.java:563-569 | One iteration of cleanup: deletes one still-registered id, keeps the rest of the original registry, and every original session that is gone stays stopped. |

## Left out

- Threads and executors are not modelled:
  - the per-session daemon thread factory;
  - `shutdown`, `awaitTermination` and `shutdownNow` in deleteTimer;
  - interrupt semantics.

  The scheduler is an id in `schedulers`, and a firing is a call of `Tick` or `EndShortBreak`.
- Concurrency is not modelled: ConcurrentHashMap thread safety, the non-atomic check-then-put in createTimer, and ticks racing with a cancel. The model is sequential.
- TimerService.TimerServiceImpl.StopForDeletion: does not distinguish `cancel(true)` from `cancel(false)`, because interrupting a running task is thread behaviour.
- Exceptions caught inside deleteTimer and cleanup are not modelled. The model's operations cannot fail there, so the `catch` blocks are unreachable.
- `java.util.Random` and `UUID.randomUUID` are not implemented:
  - a seed's draws are the parameter `random` (only their range is assumed);
  - a new session's UUID is the parameter `uuid`.
- `System.currentTimeMillis()` is the parameter `now`, and `ScheduledFuture.getDelay` is the parameter `taskDelay`.
- Not modelled: logging, `formatSessionId`, `printBreakSchedule` and the console `main` of the generator.
- The REST controller, the exception handler, the application class and the front end are not modelled.
- RandomShortBreakListGenerator.FormatTime: returns the two numbers and not the `"%d分%d秒"` string.
- Java's 32-bit `int` wrap-around and the `(int)` casts of `long` values are not modelled: integers are unbounded. With the configured durations no value comes near the limits.
- The service requires a valid configuration: durations non-negative and `1 <= minInterval <= maxInterval`. The defaults of `TimerConfig` satisfy it. With `minInterval < 1` the generator loop need not terminate; with `max < min` creating a continuous session throws from the generator. The generator itself models that throw (`ShortBreakTimesOutcome`).
- TimerProperties.BreakTimeAccounting: counts break-end events, not breaks actually taken. The events of `Run` are not limited to the task pending in the session: a `BreakEndFired` on a running WORKING session with a repeating tick books the short-break duration too. So every property of `Run` holds for more event sequences than the scheduler can produce.
- TimerService.TimerServiceImpl.EndShortBreak: on an unknown id it does nothing, where the Java method would throw a NullPointerException inside the scheduler thread. The callback is only scheduled for a registered id, and deleteTimer cancels it before removing the id. `tick` returns early for an unknown id, as Tick does.
- TimerService.TimerServiceImpl.PauseTimer: a running session with no state would make `statesBeforePause.put` throw a NullPointerException. The model leaves such a session unchanged instead. The case is unreachable, because `Valid()` gives every registered session a state.
- PomodoroModel.UuidToString: carries no contract of its own. `DashedGroups` and `HexDigitsRoundTrip` state the format.
- `TimerService.java` (an interface) and `TimerConfig.java` (configuration binding, passed in as `Config` with its defaults as `DefaultConfig`) are not part of this model.
