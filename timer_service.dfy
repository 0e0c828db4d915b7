/** com.service.TimerServiceImpl: the registry of timer sessions and the seven
    maps it keeps per session id, with every command and every scheduled
    callback as a method. Each method is proved to change the registry exactly
    as the function of the same name in TimerSpec says, and to keep Valid(). */
module TimerService {
  import opened JavaLang
  import opened PomodoroModel
  import opened RandomShortBreakListGenerator
  import opened TimerSpec
  import opened TimerProperties

  /** The IllegalArgumentExceptions the commands throw. */
  datatype ServiceError = SessionExists(sessionId: string) | SessionNotFound(sessionId: string)

  /** A command that returned normally, or the exception it threw. */
  datatype Outcome = Done | Failed(error: ServiceError)

  /** A second update of a map at a key replaces the first. */
  lemma UpdateTwice<K, V>(m: map<K, V>, k: K, a: V, b: V)
    ensures m[k := a][k := b] == m[k := b]
  {
  }

  class TimerServiceImpl {
    const timerConfig: Config
    /** How a seed becomes a stream of draws: java.util.Random. */
    const random: RandomSource

    var sessions: map<string, PomodoroSession>
    /** The ids that have a scheduler of their own. */
    var schedulers: set<string>
    var currentTasks: map<string, ScheduledTask>
    var statesBeforePause: map<string, TimerState>
    /** System.currentTimeMillis() when the current break began. */
    var breakStartTimes: map<string, int>
    var breakRemainingTimes: map<string, int>
    var totalBreakTimeUsed: map<string, int>

    ghost function Objects(): set<PomodoroSession>
      reads this
    {
      set id | id in sessions :: sessions[id]
    }

    /** The session object registered under `sessionId`, if any. */
    ghost function Footprint(sessionId: string): set<PomodoroSession>
      reads this
    {
      if sessionId in sessions then {sessions[sessionId]} else {}
    }

    /** Every id has a scheduler, no side map holds an id without a session,
        and no session object is registered twice. */
    ghost predicate Structure()
      reads this
    {
      schedulers == sessions.Keys &&
      currentTasks.Keys <= sessions.Keys && statesBeforePause.Keys <= sessions.Keys &&
      breakStartTimes.Keys <= sessions.Keys && breakRemainingTimes.Keys <= sessions.Keys &&
      totalBreakTimeUsed.Keys <= sessions.Keys &&
      forall i, j :: i in sessions && j in sessions && i != j ==> sessions[i] != sessions[j]
    }

    /** What the service holds about one registered id. */
    ghost function ViewOf(sessionId: string): SessionView
      requires sessionId in sessions
      reads this, sessions[sessionId]
    {
      var s := sessions[sessionId];
      SessionView(s.sessionUUId, s.timerMode, s.curTimerState, s.isRunning, s.shortBreakTimes,
                  s.nextShortBreakIndex, s.remainingTime, s.longBreakDuration, s.shortBreakDuration,
                  s.shortBreakMinInterval, s.shortBreakMaxInterval, s.workTime,
                  Get(currentTasks, sessionId), Get(statesBeforePause, sessionId),
                  Get(breakStartTimes, sessionId), Get(breakRemainingTimes, sessionId),
                  Get(totalBreakTimeUsed, sessionId))
    }

    /** The abstract state: every registered id with its view. */
    ghost function Registry(): map<string, SessionView>
      reads this, Objects()
    {
      map id | id in sessions :: ViewOf(id)
    }

    ghost predicate Valid()
      reads this, Objects()
    {
      Structure() && ValidConfig(timerConfig) && ValidSource(random) &&
      AllSessionsValid(timerConfig, random, Registry())
    }

    /** Between two states: the same sessions are registered and every side
        map is unchanged except perhaps at `sessionId`. */
    twostate predicate OnlyAt(sessionId: string)
      reads this
    {
      sessions == old(sessions) && schedulers == old(schedulers) &&
      currentTasks - {sessionId} == old(currentTasks) - {sessionId} &&
      statesBeforePause - {sessionId} == old(statesBeforePause) - {sessionId} &&
      breakStartTimes - {sessionId} == old(breakStartTimes) - {sessionId} &&
      breakRemainingTimes - {sessionId} == old(breakRemainingTimes) - {sessionId} &&
      totalBreakTimeUsed - {sessionId} == old(totalBreakTimeUsed) - {sessionId}
    }

    /** When only `sessionId`'s entries and session object changed, only its
        view in the registry changed. */
    twostate lemma RegistryAt(sessionId: string)
      requires old(Structure()) && sessionId in old(sessions) && OnlyAt(sessionId)
      requires forall k :: k in old(sessions) && k != sessionId ==> unchanged(old(sessions)[k])
      ensures Structure()
      ensures Registry() == old(Registry())[sessionId := ViewOf(sessionId)]
    {
      forall k | k in sessions && k != sessionId
        ensures ViewOf(k) == old(ViewOf(k))
      {
        assert Get(currentTasks, k) == Get(old(currentTasks), k) by {
          assert k in currentTasks <==> k in currentTasks - {sessionId};
          assert k in old(currentTasks) <==> k in old(currentTasks) - {sessionId};
        }
        assert Get(statesBeforePause, k) == Get(old(statesBeforePause), k) by {
          assert k in statesBeforePause <==> k in statesBeforePause - {sessionId};
          assert k in old(statesBeforePause) <==> k in old(statesBeforePause) - {sessionId};
        }
        assert Get(breakStartTimes, k) == Get(old(breakStartTimes), k) by {
          assert k in breakStartTimes <==> k in breakStartTimes - {sessionId};
          assert k in old(breakStartTimes) <==> k in old(breakStartTimes) - {sessionId};
        }
        assert Get(breakRemainingTimes, k) == Get(old(breakRemainingTimes), k) by {
          assert k in breakRemainingTimes <==> k in breakRemainingTimes - {sessionId};
          assert k in old(breakRemainingTimes) <==> k in old(breakRemainingTimes) - {sessionId};
        }
        assert Get(totalBreakTimeUsed, k) == Get(old(totalBreakTimeUsed), k) by {
          assert k in totalBreakTimeUsed <==> k in totalBreakTimeUsed - {sessionId};
          assert k in old(totalBreakTimeUsed) <==> k in old(totalBreakTimeUsed) - {sessionId};
        }
      }
      StructureAt(sessionId);
    }

    /** Side entries added at a registered id keep Structure(). */
    twostate lemma StructureAt(sessionId: string)
      requires old(Structure()) && sessionId in old(sessions) && OnlyAt(sessionId)
      ensures Structure()
    {
      forall k | k in currentTasks ensures k in sessions {
        if k != sessionId {
          assert k in currentTasks - {sessionId};
          assert k in old(currentTasks);
        }
      }
      forall k | k in statesBeforePause ensures k in sessions {
        if k != sessionId {
          assert k in statesBeforePause - {sessionId};
          assert k in old(statesBeforePause);
        }
      }
      forall k | k in breakStartTimes ensures k in sessions {
        if k != sessionId {
          assert k in breakStartTimes - {sessionId};
          assert k in old(breakStartTimes);
        }
      }
      forall k | k in breakRemainingTimes ensures k in sessions {
        if k != sessionId {
          assert k in breakRemainingTimes - {sessionId};
          assert k in old(breakRemainingTimes);
        }
      }
      forall k | k in totalBreakTimeUsed ensures k in sessions {
        if k != sessionId {
          assert k in totalBreakTimeUsed - {sessionId};
          assert k in old(totalBreakTimeUsed);
        }
      }
    }

    /** The service as Spring creates it, with its configuration injected. */
    constructor (config: Config, random: RandomSource)
      requires ValidConfig(config) && ValidSource(random)
      ensures Valid() && timerConfig == config && this.random == random
      ensures sessions == map[] && Registry() == map[]
    {
      timerConfig := config;
      this.random := random;
      sessions := map[];
      schedulers := {};
      currentTasks := map[];
      statesBeforePause := map[];
      breakStartTimes := map[];
      breakRemainingTimes := map[];
      totalBreakTimeUsed := map[];
    }

    /** Registering a fresh session object under a new id adds exactly that
        id's view to the registry. */
    twostate lemma RegistryAdd(sessionId: string)
      requires old(Structure()) && sessionId !in old(sessions)
      requires sessions.Keys == old(sessions).Keys + {sessionId} && schedulers == old(schedulers) + {sessionId}
      requires forall k :: k in old(sessions) ==> sessions[k] == old(sessions)[k] && unchanged(old(sessions)[k])
      requires forall k :: k in old(sessions) ==> old(sessions)[k] != sessions[sessionId]
      requires currentTasks == old(currentTasks) && statesBeforePause == old(statesBeforePause)
      requires breakStartTimes == old(breakStartTimes) && breakRemainingTimes == old(breakRemainingTimes)
      requires totalBreakTimeUsed == old(totalBreakTimeUsed)
      ensures Structure()
      ensures Registry() == old(Registry())[sessionId := ViewOf(sessionId)]
    {
      forall k | k in old(sessions)
        ensures ViewOf(k) == old(ViewOf(k))
      {
      }
    }

    /** Removing an id, its session object and its side entries removes
        exactly that id's view from the registry. */
    twostate lemma RegistryRemove(sessionId: string)
      requires old(Structure())
      requires sessions == old(sessions) - {sessionId} && schedulers == old(schedulers) - {sessionId}
      requires forall k :: k in sessions ==> unchanged(sessions[k])
      requires currentTasks == old(currentTasks) - {sessionId}
      requires statesBeforePause == old(statesBeforePause) - {sessionId}
      requires breakStartTimes == old(breakStartTimes) - {sessionId}
      requires breakRemainingTimes == old(breakRemainingTimes) - {sessionId}
      requires totalBreakTimeUsed == old(totalBreakTimeUsed) - {sessionId}
      ensures Structure()
      ensures Registry() == old(Registry()) - {sessionId}
    {
      forall k | k in sessions
        ensures ViewOf(k) == old(ViewOf(k))
      {
      }
      assert Structure() by {
        assert currentTasks.Keys <= sessions.Keys;
        assert statesBeforePause.Keys <= sessions.Keys;
        assert breakStartTimes.Keys <= sessions.Keys;
        assert breakRemainingTimes.Keys <= sessions.Keys;
        assert totalBreakTimeUsed.Keys <= sessions.Keys;
      }
    }

    /** A registry changed at one id keeps Valid() when that id's new view
        satisfies the invariant. */
    twostate lemma ValidAt(sessionId: string)
      requires old(Valid()) && Structure() && sessionId in sessions
      requires Registry() == old(Registry())[sessionId := ViewOf(sessionId)]
      requires SessionInvariant(timerConfig, random, ViewOf(sessionId))
      ensures Valid()
    {
    }

    /** A registry that lost one id keeps Valid(). */
    twostate lemma ValidRemove(sessionId: string)
      requires old(Valid()) && Structure() && Registry() == old(Registry()) - {sessionId}
      ensures Valid()
    {
      forall k | k in Registry()
        ensures SessionInvariant(timerConfig, random, Registry()[k])
      {
        assert Registry()[k] == old(Registry())[k];
      }
    }

    /** createTimer: refuses an id in use; otherwise registers a new session
        (whose UUID is `uuid`), gives it a scheduler and initializes it. */
    method CreateTimer(sessionId: string, timerMode: TimerMode, uuid: Uuid) returns (outcome: Outcome)
      requires Valid()
      modifies this`sessions, this`schedulers
      ensures Valid()
      ensures old(sessionId in sessions) ==>
        outcome == Failed(SessionExists(sessionId)) && sessions == old(sessions) &&
        Registry() == old(Registry())
      ensures old(sessionId !in sessions) ==>
        outcome == Done && sessions.Keys == old(sessions.Keys) + {sessionId} &&
        fresh(sessions[sessionId]) &&
        Registry() == old(Registry())[sessionId :=
          TimerSpec.InitializeSession(FreshSession(uuid), timerMode, timerConfig, random)]
    {
      if sessionId in sessions {
        return Failed(SessionExists(sessionId));
      }
      Register(sessionId, uuid);
      label registered:
      InitializeSession(sessionId, timerMode);
      RegistryAt@registered(sessionId);
      UpdateTwice(old(Registry()), sessionId, FreshSession(uuid), ViewOf(sessionId));
      CreatedSession(timerConfig, random, uuid, timerMode);
      ValidAt(sessionId);
      outcome := Done;
    }

    /** The first half of createTimer: a new session object under a new id,
        with a scheduler of its own. */
    method Register(sessionId: string, uuid: Uuid)
      requires Structure() && sessionId !in sessions
      modifies this`sessions, this`schedulers
      ensures Structure() && sessions.Keys == old(sessions.Keys) + {sessionId}
      ensures fresh(sessions[sessionId]) && ViewOf(sessionId) == FreshSession(uuid)
      ensures forall k :: k in old(sessions) ==> sessions[k] == old(sessions)[k]
      ensures Registry() == old(Registry())[sessionId := FreshSession(uuid)]
    {
      var session := new PomodoroSession(uuid);
      sessions := sessions[sessionId := session];
      schedulers := schedulers + {sessionId};
      assert ViewOf(sessionId) == FreshSession(uuid);
      RegistryAdd(sessionId);
    }

    /** initializeSession: the mode and the configured times of that mode; a
        continuous session gets the checkpoints seeded by its UUID. */
    method InitializeSession(sessionId: string, timerMode: TimerMode)
      requires ValidConfig(timerConfig) && ValidSource(random) && sessionId in sessions
      modifies sessions[sessionId]
      ensures ViewOf(sessionId) ==
        TimerSpec.InitializeSession(old(ViewOf(sessionId)), timerMode, timerConfig, random)
    {
      var session := sessions[sessionId];
      ghost var v := ViewOf(sessionId);
      session.SetTimerMode(timerMode);
      session.SetCurTimerState(Paused);
      session.SetRunning(false);
      assert ViewOf(sessionId) == v.(timerMode := timerMode, curTimerState := Some(Paused), isRunning := false);
      // the work time and, in continuous mode, the checkpoints
      RestoreWorkTime(sessionId);
      ghost var w := ViewOf(sessionId);
      if timerMode == Continuous {
        session.SetShortBreakDuration(timerConfig.continuousShortBreakDuration);
        session.SetLongBreakDuration(timerConfig.continuousLongBreakDuration);
      } else {
        session.SetLongBreakDuration(timerConfig.classicLongBreakDuration);
        session.SetShortBreakDuration(timerConfig.classicShortBreakDuration);
      }
      assert ViewOf(sessionId) == w.(shortBreakDuration := ShortBreakFor(timerConfig, timerMode),
                                     longBreakDuration := LongBreakFor(timerConfig, timerMode));
    }

    /** startTimer: a paused session with time left resumes; a paused or
        completed one starts a work phase, re-armed when no time is left; then
        it runs with a new tick. */
    method StartTimer(sessionId: string) returns (outcome: Outcome)
      requires Valid()
      modifies this`currentTasks, Footprint(sessionId)
      ensures Valid() && sessions == old(sessions)
      ensures sessionId !in sessions ==>
        outcome == Failed(SessionNotFound(sessionId)) && Registry() == old(Registry())
      ensures sessionId in sessions ==>
        outcome == Done &&
        Registry() == old(Registry())[sessionId := TimerSpec.StartTimer(old(Registry())[sessionId], timerConfig)]
    {
      if sessionId !in sessions {
        return Failed(SessionNotFound(sessionId));
      }
      ghost var v := ViewOf(sessionId);
      assert Registry()[sessionId] == v;
      StartTimerPreserves(timerConfig, random, v);
      StartAt(sessionId);
      RegistryAt(sessionId);
      ValidAt(sessionId);
      outcome := Done;
    }

    /** The body of startTimer for a registered id. */
    method StartAt(sessionId: string)
      requires sessionId in sessions
      modifies this`currentTasks, sessions[sessionId]
      ensures OnlyAt(sessionId)
      ensures ViewOf(sessionId) == TimerSpec.StartTimer(old(ViewOf(sessionId)), timerConfig)
    {
      var session := sessions[sessionId];
      ghost var v := ViewOf(sessionId);
      if session.curTimerState == Some(Paused) && session.remainingTime > 0 {
        ResumeTimer(sessionId);
      } else {
        ghost var armed := v;
        if session.curTimerState == Some(Paused) || session.curTimerState == Some(Completed) {
          session.SetCurTimerState(Working);
          armed := v.(curTimerState := Some(Working));
          assert ViewOf(sessionId) == armed;
          if session.remainingTime <= 0 {
            if session.timerMode == Continuous {
              session.SetRemainingTime(timerConfig.continuousWorkTime);
            } else {
              session.SetRemainingTime(timerConfig.classicWorkTime);
            }
            armed := armed.(remainingTime := WorkTimeFor(timerConfig, v.timerMode));
            assert ViewOf(sessionId) == armed;
            session.SetNextShortBreakIndex(0);
            armed := armed.(nextShortBreakIndex := 0);
            assert ViewOf(sessionId) == armed;
          }
        }
        session.SetRunning(true);
        assert ViewOf(sessionId) == armed.(isRunning := true);
        StartCountdown(sessionId);
      }
    }

    /** resumeTimer: back into the state recorded at pause (WORKING when none
        was recorded); a short break is ended after its recorded remainder, a
        long break counts its remainder down. */
    method ResumeTimer(sessionId: string)
      requires sessionId in sessions
      modifies this`currentTasks, sessions[sessionId]
      ensures OnlyAt(sessionId)
      ensures ViewOf(sessionId) == TimerSpec.ResumeTimer(old(ViewOf(sessionId)))
    {
      var session := sessions[sessionId];
      ghost var v := ViewOf(sessionId);
      if !session.isRunning {
        session.SetRunning(true);
        assert ViewOf(sessionId) == v.(isRunning := true);
        var stateBeforePause := Get(statesBeforePause, sessionId).GetOr(Working);
        if stateBeforePause == ShortBreak {
          session.SetCurTimerState(ShortBreak);
          assert ViewOf(sessionId) == v.(isRunning := true, curTimerState := Some(ShortBreak));
          var breakRemaining := Get(breakRemainingTimes, sessionId).GetOr(session.shortBreakDuration);
          currentTasks := currentTasks[sessionId := ScheduledTask(BreakEnd(breakRemaining), false)];
        } else if stateBeforePause == LongBreak {
          session.SetCurTimerState(LongBreak);
          var breakRemaining := Get(breakRemainingTimes, sessionId).GetOr(session.longBreakDuration);
          session.SetRemainingTime(breakRemaining);
          assert ViewOf(sessionId) ==
            v.(isRunning := true, curTimerState := Some(LongBreak), remainingTime := breakRemaining);
          StartCountdown(sessionId);
        } else {
          session.SetCurTimerState(Working);
          assert ViewOf(sessionId) == v.(isRunning := true, curTimerState := Some(Working));
          StartCountdown(sessionId);
        }
      }
    }

    /** Cancels the id's task if it can still fire; the task stays in the map. */
    method CancelTask(sessionId: string)
      requires sessionId in sessions
      modifies this`currentTasks
      ensures OnlyAt(sessionId)
      ensures ViewOf(sessionId) == old(ViewOf(sessionId)).(currentTask := Cancel(old(ViewOf(sessionId)).currentTask))
    {
      if sessionId in currentTasks && !currentTasks[sessionId].cancelled {
        currentTasks := currentTasks[sessionId := currentTasks[sessionId].(cancelled := true)];
      }
    }

    /** startCountdown: the current task is cancelled and a tick every second
        replaces it. */
    method StartCountdown(sessionId: string)
      requires sessionId in sessions
      modifies this`currentTasks
      ensures OnlyAt(sessionId)
      ensures ViewOf(sessionId) == TimerSpec.StartCountdown(old(ViewOf(sessionId)))
    {
      CancelTask(sessionId);
      currentTasks := currentTasks[sessionId := ScheduledTask(RepeatingTick, false)];
    }

    /** tick, run by the scheduler: nothing for an unknown or stopped session;
        time-up when no time is left; otherwise the checkpoint check in
        continuous work and one second off. `now` is the clock at this tick. */
    method Tick(sessionId: string, now: int)
      requires Valid()
      modifies this`currentTasks, this`breakStartTimes, Footprint(sessionId)
      ensures Valid() && sessions == old(sessions)
      ensures Registry() == if sessionId in old(sessions)
        then old(Registry())[sessionId := TimerSpec.Tick(old(Registry())[sessionId], now)]
        else old(Registry())
    {
      if sessionId !in sessions {
        return;
      }
      ghost var v := ViewOf(sessionId);
      assert Registry()[sessionId] == v;
      TickPreserves(timerConfig, random, v, now);
      TickAt(sessionId, now);
      RegistryAt(sessionId);
      ValidAt(sessionId);
    }

    /** The body of tick for a registered id. */
    method TickAt(sessionId: string, now: int)
      requires sessionId in sessions
      modifies this`currentTasks, this`breakStartTimes, sessions[sessionId]
      ensures OnlyAt(sessionId)
      ensures ViewOf(sessionId) == TimerSpec.Tick(old(ViewOf(sessionId)), now)
    {
      var session := sessions[sessionId];
      if session.isRunning {
        var remainingTime := session.remainingTime;
        if remainingTime <= 0 {
          HandleTimeUp(sessionId, now);
        } else {
          if session.curTimerState == Some(Working) && session.timerMode == Continuous {
            CheckShortBreak(sessionId, remainingTime, now);
          }
          session.SetRemainingTime(remainingTime - 1);
        }
      }
    }

    /** checkShortBreak: starts a short break and consumes the checkpoint once
        the work done reaches it. */
    method CheckShortBreak(sessionId: string, remainingTime: int, now: int)
      requires sessionId in sessions
      modifies this`currentTasks, this`breakStartTimes, sessions[sessionId]
      ensures OnlyAt(sessionId)
      ensures ViewOf(sessionId) == TimerSpec.CheckShortBreak(old(ViewOf(sessionId)), remainingTime, now)
    {
      var session := sessions[sessionId];
      var totalBreakUsed := Get(totalBreakTimeUsed, sessionId).GetOr(0);
      var actualWorkTime := session.workTime - remainingTime - totalBreakUsed;
      var shortBreakTimes := session.shortBreakTimes;
      var nextIndex := session.nextShortBreakIndex;
      if nextIndex < |shortBreakTimes| {
        var nextBreakTime := shortBreakTimes[nextIndex];
        if actualWorkTime >= nextBreakTime {
          StartShortBreak(sessionId, now);
          session.SetNextShortBreakIndex(nextIndex + 1);
        }
      }
    }

    /** startShortBreak: the tick is cancelled, the start time recorded, and
        the end of the break scheduled after the short-break duration. */
    method StartShortBreak(sessionId: string, now: int)
      requires sessionId in sessions
      modifies this`currentTasks, this`breakStartTimes, sessions[sessionId]
      ensures OnlyAt(sessionId)
      ensures ViewOf(sessionId) == TimerSpec.StartShortBreak(old(ViewOf(sessionId)), now)
    {
      var session := sessions[sessionId];
      ghost var v := ViewOf(sessionId);
      CancelTask(sessionId);
      var breakDuration := session.shortBreakDuration;
      breakStartTimes := breakStartTimes[sessionId := now];
      assert ViewOf(sessionId) == v.(currentTask := Cancel(v.currentTask), breakStartTime := Some(now));
      session.SetCurTimerState(ShortBreak);
      assert ViewOf(sessionId) == v.(currentTask := Cancel(v.currentTask), breakStartTime := Some(now),
                                     curTimerState := Some(ShortBreak));
      currentTasks := currentTasks[sessionId := ScheduledTask(BreakEnd(breakDuration), false)];
    }

    /** endShortBreak, run by the scheduler when a short break is over: the
        break is booked as used and work resumes with a new tick. */
    method EndShortBreak(sessionId: string)
      requires Valid()
      modifies this`totalBreakTimeUsed, this`currentTasks, Footprint(sessionId)
      ensures Valid() && sessions == old(sessions)
      ensures Registry() == if sessionId in old(sessions)
        then old(Registry())[sessionId := TimerSpec.EndShortBreak(old(Registry())[sessionId])]
        else old(Registry())
    {
      if sessionId !in sessions {
        return;
      }
      ghost var v := ViewOf(sessionId);
      assert Registry()[sessionId] == v;
      EndShortBreakPreserves(timerConfig, random, v);
      EndShortBreakAt(sessionId);
      RegistryAt(sessionId);
      ValidAt(sessionId);
    }

    /** The body of endShortBreak for a registered id. */
    method EndShortBreakAt(sessionId: string)
      requires sessionId in sessions
      modifies this`totalBreakTimeUsed, this`currentTasks, sessions[sessionId]
      ensures OnlyAt(sessionId)
      ensures ViewOf(sessionId) == TimerSpec.EndShortBreak(old(ViewOf(sessionId)))
    {
      var session := sessions[sessionId];
      ghost var v := ViewOf(sessionId);
      var currentBreakUsed := Get(totalBreakTimeUsed, sessionId).GetOr(0);
      totalBreakTimeUsed := totalBreakTimeUsed[sessionId := currentBreakUsed + session.shortBreakDuration];
      ghost var used := Some(currentBreakUsed + session.shortBreakDuration);
      assert ViewOf(sessionId) == v.(totalBreakTimeUsed := used);
      session.SetCurTimerState(Working);
      assert ViewOf(sessionId) == v.(totalBreakTimeUsed := used, curTimerState := Some(Working));
      StartCountdown(sessionId);
    }

    /** handleTimeUp: the session stops, its task is cancelled, and the work
        phase or the long break ends. */
    method HandleTimeUp(sessionId: string, now: int)
      requires sessionId in sessions
      modifies this`currentTasks, this`breakStartTimes, sessions[sessionId]
      ensures OnlyAt(sessionId)
      ensures ViewOf(sessionId) == TimerSpec.HandleTimeUp(old(ViewOf(sessionId)), now)
    {
      var session := sessions[sessionId];
      session.SetRunning(false);
      CancelTask(sessionId);
      var currentState := session.curTimerState;
      if currentState == Some(Working) {
        HandleWorkTimeUp(sessionId, now);
      } else if currentState == Some(LongBreak) {
        HandleLongBreakTimeUp(sessionId);
      }
    }

    /** handleWorkTimeUp: a classic session starts its long break, a
        continuous one is complete. */
    method HandleWorkTimeUp(sessionId: string, now: int)
      requires sessionId in sessions
      modifies this`currentTasks, this`breakStartTimes, sessions[sessionId]
      ensures OnlyAt(sessionId)
      ensures ViewOf(sessionId) == TimerSpec.HandleWorkTimeUp(old(ViewOf(sessionId)), now)
    {
      var session := sessions[sessionId];
      if session.timerMode == Classic {
        StartLongBreak(sessionId, now);
      } else {
        session.SetCurTimerState(Completed);
      }
    }

    /** startLongBreak: the long break counts down from its duration. */
    method StartLongBreak(sessionId: string, now: int)
      requires sessionId in sessions
      modifies this`currentTasks, this`breakStartTimes, sessions[sessionId]
      ensures OnlyAt(sessionId)
      ensures ViewOf(sessionId) == TimerSpec.StartLongBreak(old(ViewOf(sessionId)), now)
    {
      var session := sessions[sessionId];
      session.SetCurTimerState(LongBreak);
      session.SetRemainingTime(session.longBreakDuration);
      session.SetRunning(true);
      breakStartTimes := breakStartTimes[sessionId := now];
      StartCountdown(sessionId);
    }

    /** handleLongBreakTimeUp: the cycle is complete. */
    method HandleLongBreakTimeUp(sessionId: string)
      requires sessionId in sessions
      modifies sessions[sessionId]
      ensures ViewOf(sessionId) == TimerSpec.HandleLongBreakTimeUp(old(ViewOf(sessionId)))
    {
      sessions[sessionId].SetCurTimerState(Completed);
    }

    /** pauseTimer: a running session records its state (and in a break what
        is left of it), stops, is marked PAUSED and loses its task. `now` is the
        clock and `taskDelay` what getDelay of the current task returns. */
    method PauseTimer(sessionId: string, now: int, taskDelay: int) returns (outcome: Outcome)
      requires Valid()
      modifies this`currentTasks, this`statesBeforePause, this`breakRemainingTimes, Footprint(sessionId)
      ensures Valid() && sessions == old(sessions)
      ensures sessionId !in sessions ==>
        outcome == Failed(SessionNotFound(sessionId)) && Registry() == old(Registry())
      ensures sessionId in sessions ==>
        outcome == Done &&
        Registry() == old(Registry())[sessionId := TimerSpec.PauseTimer(old(Registry())[sessionId], now, taskDelay)]
    {
      if sessionId !in sessions {
        return Failed(SessionNotFound(sessionId));
      }
      ghost var v := ViewOf(sessionId);
      assert Registry()[sessionId] == v;
      PauseTimerPreserves(timerConfig, random, v, now, taskDelay);
      PauseAt(sessionId, now, taskDelay);
      RegistryAt(sessionId);
      ValidAt(sessionId);
      outcome := Done;
    }

    /** The body of pauseTimer for a registered id. */
    method PauseAt(sessionId: string, now: int, taskDelay: int)
      requires sessionId in sessions
      modifies this`currentTasks, this`statesBeforePause, this`breakRemainingTimes, sessions[sessionId]
      ensures OnlyAt(sessionId)
      ensures ViewOf(sessionId) == TimerSpec.PauseTimer(old(ViewOf(sessionId)), now, taskDelay)
    {
      var session := sessions[sessionId];
      ghost var v := ViewOf(sessionId);
      if session.isRunning && session.curTimerState.Some? {
        RecordPauseContext(sessionId, now, taskDelay);
        ghost var w := ViewOf(sessionId);
        session.SetRunning(false);
        assert ViewOf(sessionId) == w.(isRunning := false);
        session.SetCurTimerState(Paused);
        assert ViewOf(sessionId) == w.(isRunning := false, curTimerState := Some(Paused));
        CancelTask(sessionId);
      }
    }

    /** The first half of pauseTimer: the state the session is in is recorded,
        and in a break so is what is left of it. */
    method RecordPauseContext(sessionId: string, now: int, taskDelay: int)
      requires sessionId in sessions && sessions[sessionId].curTimerState.Some?
      modifies this`statesBeforePause, this`breakRemainingTimes
      ensures OnlyAt(sessionId)
      ensures var v := old(ViewOf(sessionId)); var state := v.curTimerState.value;
        ViewOf(sessionId) == v.(stateBeforePause := Some(state),
          breakRemainingTime := if state == ShortBreak || state == LongBreak
            then Some(BreakRemainingTime(v, now, taskDelay)) else v.breakRemainingTime)
    {
      var session := sessions[sessionId];
      ghost var v := ViewOf(sessionId);
      var currentState := session.curTimerState.value;
      statesBeforePause := statesBeforePause[sessionId := currentState];
      assert ViewOf(sessionId) == v.(stateBeforePause := Some(currentState));
      if currentState == ShortBreak || currentState == LongBreak {
        var remainingTime := CalculateBreakRemainingTime(sessionId, now, taskDelay);
        assert remainingTime == BreakRemainingTime(v, now, taskDelay);
        breakRemainingTimes := breakRemainingTimes[sessionId := remainingTime];
      }
    }

    /** calculateBreakRemainingTime: the live task's delay, else the duration
        less the whole seconds since the recorded start, else the whole
        duration; 0 for an unknown id without a live task. */
    method CalculateBreakRemainingTime(sessionId: string, now: int, taskDelay: int) returns (r: int)
      ensures sessionId in sessions ==> r == BreakRemainingTime(ViewOf(sessionId), now, taskDelay)
      ensures sessionId !in sessions ==> r == if Live(Get(currentTasks, sessionId)) then Max(0, taskDelay) else 0
    {
      var currentTask := Get(currentTasks, sessionId);
      if currentTask.Some? && !currentTask.value.cancelled {
        return Max(0, taskDelay);
      }
      if sessionId !in sessions {
        return 0;
      }
      var session := sessions[sessionId];
      var breakStartTime := Get(breakStartTimes, sessionId);
      if breakStartTime.Some? && breakStartTime.value > 0 {
        var elapsedSeconds := JavaDiv(now - breakStartTime.value, 1000);
        var totalDuration :=
          if session.curTimerState == Some(ShortBreak) then session.shortBreakDuration
          else session.longBreakDuration;
        return Max(0, totalDuration - elapsedSeconds);
      }
      return if session.curTimerState == Some(ShortBreak) then session.shortBreakDuration
             else session.longBreakDuration;
    }

    /** resetTimer: the break bookkeeping and the pause context are cleared,
        the session stops, its task is cancelled, the work time of its mode is
        restored (with the checkpoints generated again in continuous mode), and
        it rests PAUSED at the first checkpoint. */
    method ResetTimer(sessionId: string) returns (outcome: Outcome)
      requires Valid()
      modifies this`totalBreakTimeUsed, this`currentTasks, this`statesBeforePause,
               this`breakRemainingTimes, this`breakStartTimes, Footprint(sessionId)
      ensures Valid() && sessions == old(sessions)
      ensures sessionId !in sessions ==>
        outcome == Failed(SessionNotFound(sessionId)) && Registry() == old(Registry())
      ensures sessionId in sessions ==>
        outcome == Done &&
        Registry() == old(Registry())[sessionId := TimerSpec.ResetTimer(old(Registry())[sessionId], timerConfig, random)]
    {
      if sessionId !in sessions {
        return Failed(SessionNotFound(sessionId));
      }
      ghost var v := ViewOf(sessionId);
      assert Registry()[sessionId] == v;
      ResetTimerPreserves(timerConfig, random, v);
      ResetAt(sessionId);
      RegistryAt(sessionId);
      ValidAt(sessionId);
      outcome := Done;
    }

    /** The body of resetTimer for a registered id. */
    method ResetAt(sessionId: string)
      requires ValidConfig(timerConfig) && ValidSource(random) && sessionId in sessions
      modifies this`totalBreakTimeUsed, this`currentTasks, this`statesBeforePause,
               this`breakRemainingTimes, this`breakStartTimes, sessions[sessionId]
      ensures OnlyAt(sessionId)
      ensures ViewOf(sessionId) == TimerSpec.ResetTimer(old(ViewOf(sessionId)), timerConfig, random)
    {
      var session := sessions[sessionId];
      ClearBreakState(sessionId);
      RestoreWorkTime(sessionId);
      session.SetCurTimerState(Paused);
      session.SetNextShortBreakIndex(0);
    }

    /** The first half of resetTimer: the break bookkeeping and the pause
        context go, the session stops and its task is cancelled. */
    method ClearBreakState(sessionId: string)
      requires sessionId in sessions
      modifies this`totalBreakTimeUsed, this`currentTasks, this`statesBeforePause,
               this`breakRemainingTimes, this`breakStartTimes, sessions[sessionId]
      ensures OnlyAt(sessionId)
      ensures ViewOf(sessionId) == old(ViewOf(sessionId)).(totalBreakTimeUsed := None, isRunning := false,
        currentTask := Cancel(old(ViewOf(sessionId)).currentTask), stateBeforePause := None,
        breakRemainingTime := None, breakStartTime := None)
    {
      var session := sessions[sessionId];
      ghost var v := ViewOf(sessionId);
      totalBreakTimeUsed := totalBreakTimeUsed - {sessionId};
      assert ViewOf(sessionId) == v.(totalBreakTimeUsed := None);
      session.SetRunning(false);
      assert ViewOf(sessionId) == v.(totalBreakTimeUsed := None, isRunning := false);
      CancelTask(sessionId);
      ghost var w := v.(totalBreakTimeUsed := None, isRunning := false, currentTask := Cancel(v.currentTask));
      assert ViewOf(sessionId) == w;
      statesBeforePause := statesBeforePause - {sessionId};
      assert ViewOf(sessionId) == w.(stateBeforePause := None);
      breakRemainingTimes := breakRemainingTimes - {sessionId};
      assert ViewOf(sessionId) == w.(stateBeforePause := None, breakRemainingTime := None);
      breakStartTimes := breakStartTimes - {sessionId};
    }

    /** What initializeSession and resetTimer both do: the session's remaining
        and total work time become the work time of its mode, and a continuous
        session gets its checkpoints generated from its UUID. */
    method RestoreWorkTime(sessionId: string)
      requires ValidConfig(timerConfig) && ValidSource(random) && sessionId in sessions
      modifies sessions[sessionId]
      ensures ViewOf(sessionId) == old(ViewOf(sessionId)).(
        remainingTime := WorkTimeFor(timerConfig, old(ViewOf(sessionId)).timerMode),
        workTime := WorkTimeFor(timerConfig, old(ViewOf(sessionId)).timerMode),
        shortBreakTimes := if old(ViewOf(sessionId)).timerMode == Continuous
          then Checkpoints(timerConfig, random, old(ViewOf(sessionId)).sessionUUId)
          else old(ViewOf(sessionId)).shortBreakTimes)
    {
      var session := sessions[sessionId];
      ghost var v := ViewOf(sessionId);
      if session.timerMode == Continuous {
        session.SetRemainingTime(timerConfig.continuousWorkTime);
        session.SetWorkTime(timerConfig.continuousWorkTime);
        assert ViewOf(sessionId) == v.(remainingTime := timerConfig.continuousWorkTime,
                                       workTime := timerConfig.continuousWorkTime);
        var seed := Seed(session.sessionUUId);
        var generated := GenerateShortBreakTimes(timerConfig.continuousWorkTime,
          timerConfig.continuousShortBreakMinInterval, timerConfig.continuousShortBreakMaxInterval,
          seed, random);
        // min <= max in a valid configuration, so the generator does not throw
        assert generated.Success? && generated.value == Checkpoints(timerConfig, random, v.sessionUUId);
        session.SetShortBreakTimes(generated.value);
      } else {
        session.SetRemainingTime(timerConfig.classicWorkTime);
        session.SetWorkTime(timerConfig.classicWorkTime);
      }
    }

    /** deleteTimer: the session (if any) stops, and the id leaves every map;
        an unknown id changes nothing. */
    method DeleteTimer(sessionId: string)
      requires Valid()
      modifies this, Footprint(sessionId)`isRunning
      ensures Valid()
      ensures sessions == old(sessions) - {sessionId} && schedulers == old(schedulers) - {sessionId}
      ensures currentTasks == old(currentTasks) - {sessionId}
      ensures statesBeforePause == old(statesBeforePause) - {sessionId}
      ensures breakStartTimes == old(breakStartTimes) - {sessionId}
      ensures breakRemainingTimes == old(breakRemainingTimes) - {sessionId}
      ensures totalBreakTimeUsed == old(totalBreakTimeUsed) - {sessionId}
      ensures Registry() == old(Registry()) - {sessionId}
      ensures sessionId in old(sessions) ==> !old(sessions)[sessionId].isRunning
    {
      assert forall k :: k in sessions && k != sessionId ==> sessions[k] !in Footprint(sessionId);
      StopForDeletion(sessionId);
      sessions := sessions - {sessionId};
      schedulers := schedulers - {sessionId};
      currentTasks := currentTasks - {sessionId};
      statesBeforePause := statesBeforePause - {sessionId};
      breakStartTimes := breakStartTimes - {sessionId};
      breakRemainingTimes := breakRemainingTimes - {sessionId};
      totalBreakTimeUsed := totalBreakTimeUsed - {sessionId};
      RegistryRemove(sessionId);
      ValidRemove(sessionId);
    }

    /** The first half of deleteTimer: the session (if any) stops and its
        task (if live) is cancelled. */
    method StopForDeletion(sessionId: string)
      modifies this`currentTasks, Footprint(sessionId)`isRunning
      ensures currentTasks - {sessionId} == old(currentTasks) - {sessionId}
      ensures sessionId in sessions ==> !sessions[sessionId].isRunning
      ensures !Live(Get(currentTasks, sessionId))
    {
      if sessionId in sessions {
        sessions[sessionId].SetRunning(false);
      }
      if sessionId in currentTasks && !currentTasks[sessionId].cancelled {
        currentTasks := currentTasks[sessionId := currentTasks[sessionId].(cancelled := true)];
      }
    }

    /** getCurrentSession: the registered session object, or null. */
    method GetCurrentSession(sessionId: string) returns (session: PomodoroSession?)
      ensures session != null <==> sessionId in sessions
      ensures session != null ==> session == sessions[sessionId]
    {
      session := if sessionId in sessions then sessions[sessionId] else null;
    }

    /** cleanup (at shutdown): deletes every session, in no particular order;
        every session that was registered ends stopped. */
    method Cleanup()
      requires Valid()
      modifies this, Objects()`isRunning
      ensures Valid()
      ensures sessions == map[] && schedulers == {} && currentTasks == map[] &&
              statesBeforePause == map[] && breakStartTimes == map[] &&
              breakRemainingTimes == map[] && totalBreakTimeUsed == map[]
      ensures forall id :: id in old(sessions) ==> !old(sessions)[id].isRunning
    {
      var sessionIds := sessions.Keys;
      while sessionIds != {}
        invariant Valid()
        invariant sessionIds == sessions.Keys
        invariant forall id :: id in sessions ==> id in old(sessions) && sessions[id] == old(sessions)[id]
        invariant forall id :: id in old(sessions) && id !in sessions ==> !old(sessions)[id].isRunning
        decreases |sessionIds|
      {
        var sessionId :| sessionId in sessionIds;
        DeleteRemaining(sessionId, old(sessions));
        sessionIds := sessionIds - {sessionId};
      }
      assert sessions.Keys == {} && currentTasks.Keys == {} && statesBeforePause.Keys == {};
      assert breakStartTimes.Keys == {} && breakRemainingTimes.Keys == {} && totalBreakTimeUsed.Keys == {};
    }

    /** One step of cleanup: deletes one of the sessions still registered out
        of `original`; every session of `original` that is gone stays stopped. */
    method DeleteRemaining(sessionId: string, ghost original: map<string, PomodoroSession>)
      requires Valid() && sessionId in sessions
      requires forall id :: id in sessions ==> id in original && sessions[id] == original[id]
      requires forall id :: id in original && id !in sessions ==> !original[id].isRunning
      modifies this, Footprint(sessionId)`isRunning
      ensures Valid() && sessions == old(sessions) - {sessionId}
      ensures currentTasks == old(currentTasks) - {sessionId}
      ensures forall id :: id in sessions ==> id in original && sessions[id] == original[id]
      ensures forall id :: id in original && id !in sessions ==> !original[id].isRunning
    {
      ghost var target := sessions[sessionId];
      ghost var before := sessions;
      DeleteTimer(sessionId);
      forall k | k in original && k !in sessions
        ensures !original[k].isRunning
      {
        // deleted earlier, or the object just stopped: only its isRunning could change
        if original[k] != target {
          assert k !in before;
        }
      }
    }
  }
}
