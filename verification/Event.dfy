/** The counting event of cppredis/vos_event.cpp (POSIX branches), where a waiter sleeps at most once
    and does not look at the count again before it returns. */
module Event {
  import opened Wrappers

  const EVENT_TIMEOUT := -0x20000 - 2
  const EVENT_HAVE_EVENT := -0x20000 - 3
  const EVENT_ERROR := -0x20000 - 4
  const ETIMEDOUT := 110

  /** What a returning waiter does to the count: it takes one set if there is one. */
  function Take(count: nat): nat { if count > 0 then count - 1 else count }

  class CountingEvent {
    var setEventCount: nat

    constructor ()
      ensures setEventCount == 0
    {
      setEventCount := 0;
    }

    /** set_event and pulse_event; the signal itself is a step of the system below. */
    method SetEvent()
      modifies this
      ensures setEventCount == old(setEventCount) + 1
    {
      setEventCount := setEventCount + 1;
    }

    /** wait_event: `rc` is what pthread_cond_timedwait returns if the call sleeps, and `onWake` the count
        that the other threads have left by then. */
    method WaitEvent(rc: int, onWake: nat) returns (res: int)
      modifies this
      ensures (setEventCount, res == EVENT_HAVE_EVENT) == WaitOutcome(old(setEventCount), rc, onWake)
      ensures res != EVENT_HAVE_EVENT ==> res == if rc == ETIMEDOUT then EVENT_TIMEOUT else EVENT_ERROR
      ensures res != EVENT_HAVE_EVENT ==> old(setEventCount) == 0 && setEventCount == onWake
    {
      if setEventCount == 0 {
        setEventCount := onWake;
        res := rc;
        if res == 0 {
          res := EVENT_HAVE_EVENT;
          if setEventCount > 0 {
            setEventCount := setEventCount - 1;
          }
        } else {
          res := if res == ETIMEDOUT then EVENT_TIMEOUT else EVENT_ERROR;
        }
      } else {
        if setEventCount > 0 {
          setEventCount := setEventCount - 1;
        }
        res := EVENT_HAVE_EVENT;
      }
    }

    /** wait_event_always: an event that is already set is reported as 0, one waited for as 1. */
    method WaitEventAlways(rc: int, onWake: nat) returns (res: int)
      modifies this
      ensures (setEventCount, res >= 0) == WaitOutcome(old(setEventCount), rc, onWake)
      ensures res == if old(setEventCount) != 0 then 0 else if rc == 0 then 1 else -1
      ensures res < 0 ==> setEventCount == onWake
    {
      res := 0;
      if setEventCount == 0 {
        setEventCount := onWake;
        res := rc;
        if res == 0 {
          if setEventCount > 0 {
            setEventCount := setEventCount - 1;
          }
          res := 1;
        } else {
          res := -1;
        }
      } else if setEventCount > 0 {
        setEventCount := setEventCount - 1;
      }
    }
  }

  /** The count that a call leaves and whether it reports the event: `count` on entry, then, if it sleeps,
      the result of the wait and the count on wake-up. */
  function WaitOutcome(count: nat, rc: int, onWake: nat): (nat, bool) {
    if count != 0 then (Take(count), true)
    else if rc == 0 then (Take(onWake), true)
    else (onWake, false)
  }

  // ---- any number of threads

  /** Asleep on the condition variable; chosen by a signal, or roused without one, but not returned yet;
      past its timeout but not returned yet. */
  datatype Phase = Outside | Asleep(timed: bool) | Signalled | Roused | Expired

  /** The count, the threads, and the history: sets made, signals that woke somebody, spurious wake-ups,
      calls that found the event set, sets taken, and calls that reported the event. */
  datatype State = State(count: nat, phase: seq<Phase>,
                         sets: nat, signals: nat, spurious: nat, fast: nat, taken: nat, successes: nat)

  datatype Step =
    | Set(woken: Option<nat>)
    | Wait(t: nat, timed: bool)
    | Rouse(t: nat)
    | Expire(t: nat)
    | Return(t: nat)

  ghost predicate SomeAsleep(s: State) {
    exists t :: 0 <= t < |s.phase| && s.phase[t].Asleep?
  }

  /** A signal wakes a sleeper whenever there is one. */
  ghost predicate Enabled(s: State, step: Step) {
    match step
    case Set(None) => !SomeAsleep(s)
    case Set(Some(t)) => t < |s.phase| && s.phase[t].Asleep?
    case Wait(t, _) => t < |s.phase| && s.phase[t] == Outside
    case Rouse(t) => t < |s.phase| && s.phase[t].Asleep?
    case Expire(t) => t < |s.phase| && s.phase[t] == Asleep(true)
    case Return(t) => t < |s.phase| && s.phase[t] in {Signalled, Roused, Expired}
  }

  ghost function Next(s: State, step: Step): State
    requires Enabled(s, step)
  {
    match step
    case Set(None) => s.(count := s.count + 1, sets := s.sets + 1)
    case Set(Some(t)) =>
      s.(count := s.count + 1, sets := s.sets + 1, signals := s.signals + 1, phase := s.phase[t := Signalled])
    case Wait(t, timed) =>
      if s.count == 0 then s.(phase := s.phase[t := Asleep(timed)])
      else s.(count := Take(s.count), taken := s.taken + 1, fast := s.fast + 1, successes := s.successes + 1)
    case Rouse(t) => s.(phase := s.phase[t := Roused], spurious := s.spurious + 1)
    case Expire(t) => s.(phase := s.phase[t := Expired])
    case Return(t) =>
      var out := s.(phase := s.phase[t := Outside]);
      if s.phase[t] == Expired then out
      else out.(count := Take(s.count), taken := s.taken + (s.count - Take(s.count)), successes := s.successes + 1)
  }

  ghost predicate Allowed(s: State, run: seq<Step>)
    decreases |run|
  {
    run == [] || (Enabled(s, run[0]) && Allowed(Next(s, run[0]), run[1..]))
  }

  ghost function Exec(s: State, run: seq<Step>): State
    requires Allowed(s, run)
    decreases |run|
  {
    if run == [] then s else Exec(Next(s, run[0]), run[1..])
  }

  /** A whole call, with anything in between that leaves the caller where it sleeps or was woken, is the
      steps Wait and Return: the same count and the same report as the methods above. */
  lemma CallIsItsSteps(s: State, t: nat, timed: bool, mid: State, rc: int)
    requires Enabled(s, Wait(t, timed))
    requires s.count == 0 ==> t < |mid.phase| && mid.phase[t] in (if rc == 0 then {Signalled, Roused} else {Expired})
    ensures var (count, reported) := WaitOutcome(s.count, rc, mid.count);
            var entered := Next(s, Wait(t, timed));
            if s.count != 0 then
              entered.count == count && entered.phase[t] == Outside && reported && entered.successes == s.successes + 1
            else
              && entered.phase[t] == Asleep(timed)
              && Enabled(mid, Return(t))
              && Next(mid, Return(t)).count == count
              && Next(mid, Return(t)).successes == mid.successes + (if reported then 1 else 0)
  {
  }

  /** The step is the moment at which a call reports the event. */
  ghost predicate Reports(s: State, step: Step)
    requires Enabled(s, step)
  {
    match step
    case Wait(t, _) => s.count > 0
    case Return(t) => s.phase[t] != Expired
    case _ => false
  }

  /** Step by step: a set adds one to the count, a report takes one if there is one, and nothing else touches
      it; in particular a call that times out leaves it alone. */
  lemma CountChanges(s: State, step: Step)
    requires Enabled(s, step)
    ensures var s' := Next(s, step);
            && s'.count == s.count + (if step.Set? then 1 else 0) - (if Reports(s, step) && s.count > 0 then 1 else 0)
            && s'.sets == s.sets + (if step.Set? then 1 else 0)
            && s'.successes == s.successes + (if Reports(s, step) then 1 else 0)
            && s'.spurious == s.spurious + (if step.Rouse? then 1 else 0)
  {
  }

  function Initial(n: nat): State {
    State(0, seq(n, _ => Outside), 0, 0, 0, 0, 0, 0)
  }

  function Count(phase: seq<Phase>, p: Phase): nat {
    if phase == [] then 0 else (if phase[0] == p then 1 else 0) + Count(phase[1..], p)
  }

  lemma {:induction false} CountUpdate(phase: seq<Phase>, t: nat, q: Phase, p: Phase)
    requires t < |phase|
    ensures Count(phase[t := q], p)
            == Count(phase, p) - (if phase[t] == p then 1 else 0) + (if q == p then 1 else 0)
  {
    if t > 0 {
      CountUpdate(phase[1..], t - 1, q, p);
      assert phase[t := q][1..] == phase[1..][t - 1 := q];
    } else {
      assert phase[t := q][1..] == phase[1..];
    }
  }

  lemma {:induction false} CountInitial(n: nat, p: Phase)
    requires p != Outside
    ensures Count(seq(n, _ => Outside), p) == 0
  {
    if n > 0 {
      CountInitial(n - 1, p);
      assert seq(n, _ => Outside)[1..] == seq(n - 1, _ => Outside);
    }
  }

  /** Somebody sleeps only while every stored set has a signalled waiter on its way to it. */
  ghost predicate NotStranded(s: State) {
    SomeAsleep(s) ==> s.count <= Count(s.phase, Signalled)
  }

  ghost predicate Ledger(s: State) {
    && s.count + s.taken == s.sets
    && s.fast <= s.taken <= s.successes
    && s.signals <= s.sets
    && s.successes + Count(s.phase, Signalled) + Count(s.phase, Roused) == s.fast + s.signals + s.spurious
  }

  lemma StepKeeps(s: State, step: Step)
    requires NotStranded(s) && Ledger(s) && Enabled(s, step)
    ensures NotStranded(Next(s, step)) && Ledger(Next(s, step))
  {
    var s' := Next(s, step);
    match step
    case Set(None) =>
    case Set(Some(t)) =>
      CountUpdate(s.phase, t, Signalled, Signalled);
      CountUpdate(s.phase, t, Signalled, Roused);
    case Wait(t, timed) =>
      CountUpdate(s.phase, t, Asleep(timed), Signalled);
      CountUpdate(s.phase, t, Asleep(timed), Roused);
    case Rouse(t) =>
      StillAsleep(s, s', t, Roused);
      CountUpdate(s.phase, t, Roused, Signalled);
      CountUpdate(s.phase, t, Roused, Roused);
    case Expire(t) =>
      StillAsleep(s, s', t, Expired);
      CountUpdate(s.phase, t, Expired, Signalled);
      CountUpdate(s.phase, t, Expired, Roused);
    case Return(t) =>
      StillAsleep(s, s', t, Outside);
      CountUpdate(s.phase, t, Outside, Signalled);
      CountUpdate(s.phase, t, Outside, Roused);
  }

  lemma StillAsleep(s: State, s': State, t: nat, q: Phase)
    requires t < |s.phase| && !q.Asleep? && s'.phase == s.phase[t := q]
    ensures SomeAsleep(s') ==> SomeAsleep(s)
  {
    if SomeAsleep(s') {
      var u :| 0 <= u < |s'.phase| && s'.phase[u].Asleep?;
      assert s.phase[u].Asleep?;
    }
  }

  lemma {:induction false} RunKeeps(s: State, run: seq<Step>)
    requires NotStranded(s) && Ledger(s) && Allowed(s, run)
    ensures NotStranded(Exec(s, run)) && Ledger(Exec(s, run))
    decreases |run|
  {
    if run != [] {
      StepKeeps(s, run[0]);
      RunKeeps(Next(s, run[0]), run[1..]);
    }
  }

  /** In every run, with stolen and spurious wake-ups and timeouts: no sleeper is left beside a set that
      nobody is coming for, every set is either still stored or was reported by a call of its own, and reports
      are bounded. */
  lemma EventTheorem(n: nat, run: seq<Step>)
    requires Allowed(Initial(n), run)
    ensures var s := Exec(Initial(n), run);
            && (SomeAsleep(s) ==> s.count <= Count(s.phase, Signalled))
            && (SomeAsleep(s) && Count(s.phase, Signalled) == 0 ==> s.count == 0 && s.taken == s.sets)
            && s.count + s.taken == s.sets
            && s.taken <= s.successes && s.sets <= s.count + s.successes
            && s.successes <= 2 * s.sets + s.spurious
  {
    CountInitial(n, Signalled);
    CountInitial(n, Roused);
    assert NotStranded(Initial(n));
    RunKeeps(Initial(n), run);
  }

  // ---- reports and sets

  /** No call reports an event beyond the sets and the spurious wake-ups. */
  ghost predicate ReportsCovered(s: State) { s.successes <= s.sets + s.spurious }

  /** With one thread nobody can take a set away from the waiter that was signalled for it. */
  ghost predicate OneThread(s: State) {
    && |s.phase| <= 1
    && (|s.phase| == 1 && s.phase[0] == Signalled ==> s.count > 0)
    && s.count + s.taken == s.sets
    && s.successes + (if |s.phase| == 1 && s.phase[0] == Roused then 1 else 0) <= s.taken + s.spurious
  }

  lemma {:induction false} OneThreadRun(s: State, run: seq<Step>)
    requires OneThread(s) && Allowed(s, run)
    ensures OneThread(Exec(s, run))
    decreases |run|
  {
    if run != [] {
      OneThreadRun(Next(s, run[0]), run[1..]);
    }
  }

  /** One set, no spurious wake-up, and two calls that report it: a newcomer takes the set between the signal
      and the return of the waiter it was meant for. Further threads may be there. */
  lemma StolenWakeUp(n: nat) returns (run: seq<Step>)
    requires n >= 2
    ensures Allowed(Initial(n), run)
    ensures var s := Exec(Initial(n), run); s.sets == 1 && s.spurious == 0 && s.successes == 2 && s.count == 0
  {
    run := [Wait(0, true), Set(Some(0)), Wait(1, true), Return(0)];
    var s0 := Initial(n);
    var s1 := Next(s0, run[0]);
    var s2 := Next(s1, run[1]);
    var s3 := Next(s2, run[2]);
    var s4 := Next(s3, run[3]);
    assert run[1..][1..][1..][1..] == [];
    assert Exec(s3, run[3..]) == s4 && Exec(s2, run[2..]) == s4 && Exec(s1, run[1..]) == s4;
  }

  /** Reports are covered by sets and spurious wake-ups in every run exactly if there is at most one thread. */
  lemma ReportsCoveredIff(n: nat)
    ensures (forall run :: Allowed(Initial(n), run) ==> ReportsCovered(Exec(Initial(n), run))) <==> n <= 1
  {
    if n <= 1 {
      forall run | Allowed(Initial(n), run) ensures ReportsCovered(Exec(Initial(n), run)) {
        OneThreadRun(Initial(n), run);
      }
    } else {
      var run := StolenWakeUp(n);
      assert !ReportsCovered(Exec(Initial(n), run));
    }
  }
}
