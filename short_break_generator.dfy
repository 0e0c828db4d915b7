/** com.util.RandomShortBreakListGenerator: the seeded list of short-break
    checkpoints of a continuous session, and the minutes/seconds split used to
    display a number of seconds. */
module RandomShortBreakListGenerator {
  import opened JavaLang

  /** The draws of one fresh java.util.Random: `draws(bound, k)` is what the
      k-th call `nextInt(bound)` returns when every call passes the same bound. */
  type Draws = (int, nat) -> int

  /** A seeded generator: `random(seed)` is the draw stream of `new Random(seed)`.
      The stream depends on the seed alone. */
  type RandomSource = bv64 -> Draws

  /** Random.nextInt(bound) returns a value in [0, bound) for a positive bound. */
  ghost predicate ValidDraws(draws: Draws) {
    forall bound: int, k: nat :: 0 < bound ==> 0 <= draws(bound, k) < bound
  }

  ghost predicate ValidSource(random: RandomSource) {
    forall seed: bv64 :: ValidDraws(random(seed))
  }

  /** Random.nextInt(bound) throws IllegalArgumentException when bound <= 0. */
  datatype GeneratorError = IllegalBound(bound: int)

  /** The gap drawn for the k-th checkpoint: `random.nextInt(max - min + 1) + min`. */
  function Interval(minInterval: int, maxInterval: int, draws: Draws, k: nat): (gap: int)
    requires 1 <= minInterval <= maxInterval && ValidDraws(draws)
    ensures minInterval <= gap <= maxInterval
  {
    draws(maxInterval - minInterval + 1, k) + minInterval
  }

  /** The checkpoints the loop appends once it has reached `current` after k
      draws: each further draw moves `current` on, and the value is kept while
      it stays below the work time. */
  function TimesFrom(workTime: int, minInterval: int, maxInterval: int, draws: Draws,
                     current: int, k: nat): seq<int>
    requires 1 <= minInterval <= maxInterval && ValidDraws(draws)
    decreases workTime - current
  {
    if current < workTime then
      var next := current + Interval(minInterval, maxInterval, draws, k);
      if next < workTime then [next] + TimesFrom(workTime, minInterval, maxInterval, draws, next, k + 1)
      else []
    else []
  }

  /** What generateShortBreakTimes returns or throws. The loop draws only while
      the current time is below the work time, so a bad bound throws only when
      the work time is positive. */
  function ShortBreakTimes(continuousWorkTime: int, minInterval: int, maxInterval: int,
                           draws: Draws): Result<seq<int>, GeneratorError>
    requires minInterval >= 1 && ValidDraws(draws)
  {
    if continuousWorkTime <= 0 then Success([])
    else if maxInterval < minInterval then Failure(IllegalBound(maxInterval - minInterval + 1))
    else Success(TimesFrom(continuousWorkTime, minInterval, maxInterval, draws, 0, 0))
  }

  /** generateShortBreakTimes: a fresh Random(seed), then the accumulating loop. */
  method GenerateShortBreakTimes(continuousWorkTime: int, minInterval: int, maxInterval: int,
                                 seed: bv64, random: RandomSource)
    returns (r: Result<seq<int>, GeneratorError>)
    requires minInterval >= 1 && ValidSource(random)
    ensures r == ShortBreakTimes(continuousWorkTime, minInterval, maxInterval, random(seed))
  {
    var shortBreakTimes: seq<int> := [];
    var draws := random(seed);
    var calls: nat := 0;
    var currentTime := 0;
    while currentTime < continuousWorkTime
      invariant maxInterval < minInterval ==> currentTime == 0 && calls == 0
      invariant calls == 0 ==> shortBreakTimes == []
      invariant minInterval <= maxInterval ==>
        shortBreakTimes + TimesFrom(continuousWorkTime, minInterval, maxInterval, draws, currentTime, calls)
        == TimesFrom(continuousWorkTime, minInterval, maxInterval, draws, 0, 0)
      decreases continuousWorkTime - currentTime
    {
      var bound := maxInterval - minInterval + 1;
      if bound <= 0 {
        return Failure(IllegalBound(bound));
      }
      var interval := draws(bound, calls) + minInterval;
      calls := calls + 1;
      currentTime := currentTime + interval;
      if currentTime < continuousWorkTime {
        shortBreakTimes := shortBreakTimes + [currentTime];
      }
    }
    if minInterval <= maxInterval {
      assert TimesFrom(continuousWorkTime, minInterval, maxInterval, draws, currentTime, calls) == [];
      assert shortBreakTimes + [] == shortBreakTimes;
    }
    return Success(shortBreakTimes);
  }

  predicate StrictlyIncreasing(s: seq<int>) {
    forall i, j :: 0 <= i < j < |s| ==> s[i] < s[j]
  }

  /** The first checkpoint lies within [min, max] of `start`, and so does every
      checkpoint of the one before it. */
  predicate GapsWithin(s: seq<int>, start: int, minInterval: int, maxInterval: int) {
    (|s| > 0 ==> minInterval <= s[0] - start <= maxInterval) &&
    forall i :: 0 < i < |s| ==> minInterval <= s[i] - s[i - 1] <= maxInterval
  }

  /** No further checkpoint fits: one more gap of at most `max` from the last
      checkpoint (or from `start`) can reach the work time. */
  predicate Maximal(s: seq<int>, start: int, maxInterval: int, workTime: int) {
    (if s == [] then start else s[|s| - 1]) + maxInterval >= workTime
  }

  /** Every checkpoint lies strictly between the starting point and the work
      time, and the checkpoints strictly increase. */
  lemma {:induction false} TimesFromIncreasing(workTime: int, minInterval: int, maxInterval: int,
                                               draws: Draws, current: int, k: nat)
    requires 1 <= minInterval <= maxInterval && ValidDraws(draws)
    ensures var s := TimesFrom(workTime, minInterval, maxInterval, draws, current, k);
      StrictlyIncreasing(s) && forall i :: 0 <= i < |s| ==> current < s[i] < workTime
    decreases workTime - current
  {
    if current < workTime {
      var next := current + Interval(minInterval, maxInterval, draws, k);
      if next < workTime {
        TimesFromIncreasing(workTime, minInterval, maxInterval, draws, next, k + 1);
      }
    }
  }

  /** The first checkpoint is one drawn gap after the start, each later one a
      drawn gap after its predecessor. */
  lemma {:induction false} TimesFromGaps(workTime: int, minInterval: int, maxInterval: int,
                                         draws: Draws, current: int, k: nat)
    requires 1 <= minInterval <= maxInterval && ValidDraws(draws)
    ensures GapsWithin(TimesFrom(workTime, minInterval, maxInterval, draws, current, k),
                       current, minInterval, maxInterval)
    decreases workTime - current
  {
    if current < workTime {
      var next := current + Interval(minInterval, maxInterval, draws, k);
      if next < workTime {
        var rest := TimesFrom(workTime, minInterval, maxInterval, draws, next, k + 1);
        TimesFromGaps(workTime, minInterval, maxInterval, draws, next, k + 1);
        var s := [next] + rest;
        forall i | 0 < i < |s|
          ensures minInterval <= s[i] - s[i - 1] <= maxInterval
        {
          if i > 1 {
            assert s[i] == rest[i - 1] && s[i - 1] == rest[i - 2];
          }
        }
      }
    }
  }

  /** The loop stops only once one more gap would reach the work time. */
  lemma {:induction false} TimesFromMaximal(workTime: int, minInterval: int, maxInterval: int,
                                            draws: Draws, current: int, k: nat)
    requires 1 <= minInterval <= maxInterval && ValidDraws(draws)
    ensures Maximal(TimesFrom(workTime, minInterval, maxInterval, draws, current, k),
                    current, maxInterval, workTime)
    decreases workTime - current
  {
    if current < workTime {
      var next := current + Interval(minInterval, maxInterval, draws, k);
      if next < workTime {
        var rest := TimesFrom(workTime, minInterval, maxInterval, draws, next, k + 1);
        TimesFromMaximal(workTime, minInterval, maxInterval, draws, next, k + 1);
        assert rest != [] ==> ([next] + rest)[|rest|] == rest[|rest| - 1];
      }
    }
  }

  /** The checkpoints of a successful generation: strictly increasing, each in
      [1, workTime), the first and every later gap within [min, max], and no room
      for another one. */
  lemma ShortBreakTimesShape(continuousWorkTime: int, minInterval: int, maxInterval: int,
                             draws: Draws)
    requires 1 <= minInterval <= maxInterval && ValidDraws(draws)
    ensures var s := ShortBreakTimes(continuousWorkTime, minInterval, maxInterval, draws).value;
      StrictlyIncreasing(s) &&
      (forall i :: 0 <= i < |s| ==> 1 <= s[i] < continuousWorkTime) &&
      GapsWithin(s, 0, minInterval, maxInterval) &&
      Maximal(s, 0, maxInterval, continuousWorkTime)
  {
    if continuousWorkTime > 0 {
      TimesFromIncreasing(continuousWorkTime, minInterval, maxInterval, draws, 0, 0);
      TimesFromGaps(continuousWorkTime, minInterval, maxInterval, draws, 0, 0);
      TimesFromMaximal(continuousWorkTime, minInterval, maxInterval, draws, 0, 0);
    }
  }

  /** Generation throws exactly when the loop is entered with an empty range of
      intervals, and yields no checkpoint when the work time does not exceed the
      shortest interval. */
  lemma ShortBreakTimesOutcome(continuousWorkTime: int, minInterval: int, maxInterval: int,
                               draws: Draws)
    requires minInterval >= 1 && ValidDraws(draws)
    ensures ShortBreakTimes(continuousWorkTime, minInterval, maxInterval, draws).Failure?
            <==> continuousWorkTime > 0 && maxInterval < minInterval
    ensures minInterval <= maxInterval && continuousWorkTime <= minInterval ==>
            ShortBreakTimes(continuousWorkTime, minInterval, maxInterval, draws) == Success([])
  {
    if minInterval <= maxInterval && 0 < continuousWorkTime <= minInterval {
      var gap := Interval(minInterval, maxInterval, draws, 0);
      assert gap >= continuousWorkTime;
    }
  }

  /** formatTime's two numbers: `seconds / 60` and `seconds % 60` in Java. */
  datatype MinutesSeconds = MinutesSeconds(minutes: int, seconds: int)

  /** formatTime: minutes and leftover seconds with Java's truncating division
      (the "%d分%d秒" rendering is not modelled). */
  function FormatTime(seconds: int): (r: MinutesSeconds)
    ensures r.minutes * 60 + r.seconds == seconds
    ensures seconds >= 0 ==> 0 <= r.seconds < 60 && r.minutes >= 0
    ensures seconds < 0 ==> -60 < r.seconds <= 0 && r.minutes <= 0
  {
    JavaDivRem(seconds, 60);
    MinutesSeconds(JavaDiv(seconds, 60), JavaRem(seconds, 60))
  }
}
