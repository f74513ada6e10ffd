/** Waiting for raw work under a monotonic budget; elapsed times are nanoseconds. */
module Deadline {
  const MILLISECOND := 1_000_000

  /** What woke the waiter, and the clock reading it then took. */
  datatype Wake = Wake(done: bool, elapsed: int)

  /** The clock reading taken when arming the timer, then the wakeup that followed. */
  datatype Round = Round(armed: int, wake: Wake)

  datatype Outcome = Accepted | TimedOut | Waiting

  predicate InTime(started: int, budget: int, elapsed: int) {
    budget < 0 || elapsed - started < budget * MILLISECOND
  }

  /** Whole milliseconds asked of the timer: a fractional remainder is never shortened. */
  function TimerDelay(remaining: int): (ms: nat)
    ensures ms * 1_000_000 >= remaining
    ensures ms > 0 ==> (ms - 1) * 1_000_000 < remaining
  {
    var delay := if remaining < 0 then 0 else remaining;
    delay / MILLISECOND + if delay % MILLISECOND != 0 then 1 else 0
  }

  /** The round that decides: the first that is not a timer firing before the deadline. */
  ghost predicate Decides(rounds: seq<Round>, started: int, budget: int, i: nat) {
    && i < |rounds|
    && (rounds[i].wake.done || !InTime(started, budget, rounds[i].wake.elapsed))
    && forall j :: 0 <= j < i ==> !rounds[j].wake.done && InTime(started, budget, rounds[j].wake.elapsed)
  }

  lemma DecidesOnce(rounds: seq<Round>, started: int, budget: int, i: nat)
    requires Decides(rounds, started, budget, i)
    ensures forall j: nat :: Decides(rounds, started, budget, j) ==> j == i
  {
  }

  /**
   * The waiting loop over any sequence of wakeups. It accepts exactly when the work's completion
   * is the deciding wakeup and is observed strictly before the deadline.
   */
  method AwaitDeadline(rounds: seq<Round>, started: int, budget: int) returns (r: Outcome)
    requires budget < 0 ==> forall i :: 0 <= i < |rounds| ==> rounds[i].wake.done
    ensures r == Accepted <==>
              exists i: nat :: Decides(rounds, started, budget, i) && InTime(started, budget, rounds[i].wake.elapsed)
    ensures r == TimedOut <==>
              exists i: nat :: Decides(rounds, started, budget, i) && !InTime(started, budget, rounds[i].wake.elapsed)
    ensures r == Waiting <==> forall i: nat :: !Decides(rounds, started, budget, i)
  {
    if budget < 0 {
      if rounds == [] {
        return Waiting;
      }
      DecidesOnce(rounds, started, budget, 0);
      return Accepted;
    }
    var i := 0;
    while i < |rounds|
      invariant 0 <= i <= |rounds|
      invariant forall j :: 0 <= j < i ==> !rounds[j].wake.done && InTime(started, budget, rounds[j].wake.elapsed)
    {
      var inTime := rounds[i].wake.elapsed - started < budget * MILLISECOND;
      if rounds[i].wake.done {
        DecidesOnce(rounds, started, budget, i);
        return if inTime then Accepted else TimedOut;
      }
      if !inTime {
        DecidesOnce(rounds, started, budget, i);
        return TimedOut;
      }
      i := i + 1;
    }
    return Waiting;
  }

  /** A timer that fires no earlier than asked, on a clock that does not run backwards. */
  predicate Honest(round: Round, started: int, budget: int) {
    round.wake.done ||
    round.wake.elapsed >= round.armed + TimerDelay(budget * MILLISECOND - (round.armed - started)) * MILLISECOND
  }

  /** With such timers the first wakeup decides: the loop never goes round again. */
  lemma HonestTimersWaitOnce(rounds: seq<Round>, started: int, budget: nat)
    requires rounds != [] && Honest(rounds[0], started, budget)
    ensures Decides(rounds, started, budget, 0)
  {
    var remaining := budget * MILLISECOND - (rounds[0].armed - started);
    assert TimerDelay(remaining) * MILLISECOND >= remaining;
  }
}
