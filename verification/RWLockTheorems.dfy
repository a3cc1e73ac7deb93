/** What every run of the reader/writer lock guarantees, for any number of threads, any interleaving,
    any timeouts and any barging by newcomers. */
module RWLockTheorems {
  import opened RWLockSteps

  /** The counters are exact, there is at most one writer, and never a writer together with a reader. */
  lemma MutualExclusion(n: nat, run: seq<Step>)
    requires n < DWORD_LIMIT && Allowed(Initial(n), run)
    ensures var s := Exec(Initial(n), run);
            && ExactCounters(s)
            && forall t, u :: 0 <= t < |s.phase| && 0 <= u < |s.phase| && t != u && s.phase[t] == Writing ==>
                 s.phase[u] != Writing && s.phase[u] != Reading
  {
    InitialInv(n);
    RunKeepsInv(Initial(n), run);
    var s := Exec(Initial(n), run);
    forall t, u | 0 <= t < |s.phase| && 0 <= u < |s.phase| && t != u && s.phase[t] == Writing
      ensures s.phase[u] != Writing && s.phase[u] != Reading
    {
      ExclusionAt(s, t, u);
    }
  }

  lemma ExclusionAt(s: State, t: nat, u: nat)
    requires Inv(s) && t < |s.phase| && u < |s.phase| && t != u && s.phase[t] == Writing
    ensures s.phase[u] != Writing && s.phase[u] != Reading
  {
    CountsMember(s.phase, t, ActiveWriter);
    if s.phase[u] == Writing {
      CountsTwo(s.phase, if t < u then t else u, if t < u then u else t, ActiveWriter);
    } else if s.phase[u] == Reading {
      CountsMember(s.phase, u, ActiveReader);
    }
  }

  // ---- wake-ups

  ghost predicate Anyone(s: State, r: Role) {
    exists t :: 0 <= t < |s.phase| && RoleOf(s.phase[t]) == r
  }

  lemma SomeIsCounted(s: State, r: Role)
    ensures Anyone(s, r) <==> Count(s.phase, r) > 0
  {
    if Count(s.phase, r) > 0 {
      var t := MemberOf(s.phase, r);
    } else if Anyone(s, r) {
      var t :| 0 <= t < |s.phase| && RoleOf(s.phase[t]) == r;
      CountsMember(s.phase, t, r);
    }
  }

  /** When nobody holds the lock, a waiting writer has its event signalled or some writer is already on
      its way; if only readers wait, the same holds for readers. */
  lemma NoLostWakeUps(n: nat, run: seq<Step>)
    requires n < DWORD_LIMIT && Allowed(Initial(n), run)
    ensures var s := Exec(Initial(n), run);
            !Anyone(s, ActiveReader) && !Anyone(s, ActiveWriter) ==>
              && (Anyone(s, WaitingWriter) ==> s.lock.wrEv || WriterInTransit(s.phase))
              && (!Anyone(s, WaitingWriter) && Anyone(s, WaitingReader) ==> s.lock.rdEv || ReaderInTransit(s.phase))
  {
    InitialInv(n);
    RunKeepsInv(Initial(n), run);
    var s := Exec(Initial(n), run);
    SomeIsCounted(s, ActiveReader);
    SomeIsCounted(s, ActiveWriter);
    SomeIsCounted(s, WaitingReader);
    SomeIsCounted(s, WaitingWriter);
  }

  // ---- waking readers

  /** Without an active or waiting writer, no reader sleeps unless its event is set or a reader is in transit. */
  ghost predicate ReadersAdmitted(s: State) {
    s.lock.wrcnt == 0 && s.lock.wrwaitcnt == 0 && (exists t :: 0 <= t < |s.phase| && s.phase[t] == RdWait) ==>
      s.lock.rdEv || ReaderInTransit(s.phase)
  }

  /** No two threads wait to read. */
  ghost predicate OneWaitsToRead(s: State) {
    forall t, u :: 0 <= t < u < |s.phase| ==> RoleOf(s.phase[t]) != WaitingReader || RoleOf(s.phase[u]) != WaitingReader
  }

  lemma StepKeepsAdmitted(s: State, step: Step)
    requires |s.phase| <= 2 && Inv(s) && OneWaitsToRead(s) && ReadersAdmitted(s) && Enabled(s, step)
    ensures OneWaitsToRead(Next(s, step)) && ReadersAdmitted(Next(s, step))
  {
    hide Count, Exclusive, NoLostWakeUp;
    var s' := Next(s, step);
    StepKeepsCounters(s, step);
    WriterCounted(s, step.t);
    WriterCounted(s', step.t);
    if |s.phase| == 2 {
      var u := 1 - step.t;
      assert s'.phase[u] == s.phase[u];
      WriterCounted(s, u);
      WriterCounted(s', u);
      WriterOf(s, step.t, u);
    } else {
      WriterOf(s, step.t, step.t);
    }
  }

  lemma WriterCounted(s: State, t: nat)
    requires ExactCounters(s) && t < |s.phase|
    ensures RoleOf(s.phase[t]) == ActiveWriter ==> s.lock.wrcnt > 0
    ensures RoleOf(s.phase[t]) == WaitingWriter ==> s.lock.wrwaitcnt > 0
    ensures RoleOf(s.phase[t]) == WaitingReader ==> s.lock.rdwaitcnt > 0
  {
    CountsMember(s.phase, t, RoleOf(s.phase[t]));
  }

  lemma WriterOf(s: State, t: nat, u: nat)
    requires ExactCounters(s) && t < |s.phase| && u < |s.phase| && t + u + 1 == |s.phase| <= 2
    ensures s.lock.wrcnt > 0 ==> s.phase[t] == Writing || s.phase[u] == Writing
    ensures s.lock.wrwaitcnt > 0 ==> RoleOf(s.phase[t]) == WaitingWriter || RoleOf(s.phase[u]) == WaitingWriter
  {
    if s.lock.wrcnt > 0 {
      var v := MemberOf(s.phase, ActiveWriter);
    }
    if s.lock.wrwaitcnt > 0 {
      var v := MemberOf(s.phase, WaitingWriter);
    }
  }

  lemma {:induction false} RunKeepsAdmitted(s: State, run: seq<Step>)
    requires |s.phase| <= 2 && Inv(s) && OneWaitsToRead(s) && ReadersAdmitted(s) && Allowed(s, run)
    ensures ReadersAdmitted(Exec(s, run))
    decreases |run|
  {
    if run != [] {
      StepKeepsCounters(s, run[0]);
      StepKeepsWakeUps(s, run[0]);
      StepKeepsAdmitted(s, run[0]);
      RunKeepsAdmitted(Next(s, run[0]), run[1..]);
    }
  }

  lemma FreshThree()
    ensures Initial(3) == State(Lock(0, 0, 0, 0, true, true), [Idle, Idle, Idle])
  {
  }

  /** Three threads, no timeout: the second reader stays asleep, because the release of a writer signals one
      reader and a reader that is admitted does not pass the signal on. */
  lemma OneReaderLeftBehind() returns (run: seq<Step>)
    ensures Allowed(Initial(3), run) && NoTimeouts(run)
    ensures Exec(Initial(3), run) == State(Lock(1, 1, 0, 0, false, true), [Idle, Reading, RdWait])
  {
    hide Allowed, Exec, Initial;
    run := [Step(WriteTry, 0), Step(ReadTry, 1), Step(ReadTry, 2), Step(WriteUnlock, 0), Step(ReadWake, 1),
            Step(ReadTry, 1)];
    var states := [
      State(Lock(0, 0, 0, 0, true, true), [Idle, Idle, Idle]),
      State(Lock(0, 0, 1, 0, true, true), [Writing, Idle, Idle]),
      State(Lock(0, 1, 1, 0, false, true), [Writing, RdWait, Idle]),
      State(Lock(0, 2, 1, 0, false, true), [Writing, RdWait, RdWait]),
      State(Lock(0, 2, 0, 0, true, true), [Idle, RdWait, RdWait]),
      State(Lock(0, 2, 0, 0, false, true), [Idle, RdWoken, RdWait]),
      State(Lock(1, 1, 0, 0, false, true), [Idle, Reading, RdWait])];
    FreshThree();
    forall i | 0 <= i < |run|
      ensures Enabled(states[i], run[i]) && Next(states[i], run[i]) == states[i + 1]
    {
      assert states[i].phase[run[i].t := states[i + 1].phase[run[i].t]] == states[i + 1].phase;
    }
    RunThrough(states, run);
  }

  /** Reading a run off the list of the states it visits. */
  lemma {:induction false} RunThrough(states: seq<State>, run: seq<Step>)
    requires |states| == |run| + 1
    requires forall i :: 0 <= i < |run| ==> Enabled(states[i], run[i]) && Next(states[i], run[i]) == states[i + 1]
    ensures Allowed(states[0], run) && Exec(states[0], run) == states[|run|]
    decreases |run|
  {
    if run != [] {
      RunThrough(states[1..], run[1..]);
    }
  }

  function WithMore(s: State, more: seq<Phase>): State { State(s.lock, s.phase + more) }

  /** Threads that take no step make no difference. */
  lemma {:induction false} MoreThreads(s: State, run: seq<Step>, more: seq<Phase>)
    requires Allowed(s, run)
    ensures Allowed(WithMore(s, more), run) && Exec(WithMore(s, more), run) == WithMore(Exec(s, run), more)
    decreases |run|
  {
    if run != [] {
      var s' := Next(s, run[0]);
      assert (s.phase + more)[run[0].t := s'.phase[run[0].t]] == s'.phase + more;
      assert Next(WithMore(s, more), run[0]) == WithMore(s', more);
      MoreThreads(s', run[1..], more);
    }
  }

  /** Readers are woken one at a time. A lock with no active or waiting writer never leaves a reader asleep,
      unsignalled and with no reader on its way, exactly if it has at most two threads. */
  lemma SleepingReadersIff(n: nat)
    ensures (forall run :: Allowed(Initial(n), run) ==> ReadersAdmitted(Exec(Initial(n), run))) <==> n <= 2
  {
    hide ReadersAdmitted;
    if n <= 2 {
      StartAdmitted(n);
      InitialInv(n);
      forall run | Allowed(Initial(n), run) ensures ReadersAdmitted(Exec(Initial(n), run)) {
        RunKeepsAdmitted(Initial(n), run);
      }
    } else {
      var run := OneReaderLeftBehind();
      var more := seq(n - 3, _ => Idle);
      MoreThreads(Initial(3), run, more);
      assert WithMore(Initial(3), more) == Initial(n);
      LeftBehind(more);
    }
  }

  lemma StartAdmitted(n: nat)
    ensures OneWaitsToRead(Initial(n)) && ReadersAdmitted(Initial(n))
  {
  }

  lemma LeftBehind(more: seq<Phase>)
    requires forall t :: 0 <= t < |more| ==> more[t] == Idle
    ensures !ReadersAdmitted(WithMore(State(Lock(1, 1, 0, 0, false, true), [Idle, Reading, RdWait]), more))
  {
    var s := WithMore(State(Lock(1, 1, 0, 0, false, true), [Idle, Reading, RdWait]), more);
    assert s.phase[2] == RdWait;
  }

  // ---- what a critical section does for the others

  /** A release signals a waiting writer, and only if there is none a waiting reader, also while other readers
      still hold the lock; so no reader is left asleep beside a lock that would admit it. */
  lemma ReleaseSignals(s: State, step: Step)
    requires Inv(s) && Enabled(s, step) && (step.kind == ReadUnlock || step.kind == WriteUnlock)
    ensures var s' := Next(s, step);
            && ReadersAdmitted(s')
            && (if Anyone(s', WaitingWriter) then s'.lock.wrEv && s'.lock.rdEv == s.lock.rdEv
                else if Anyone(s', WaitingReader) then s'.lock.rdEv && s'.lock.wrEv == s.lock.wrEv
                else s'.lock.rdEv == s.lock.rdEv && s'.lock.wrEv == s.lock.wrEv)
  {
    hide Count;
    var s' := Next(s, step);
    StepKeepsCounters(s, step);
    SomeIsCounted(s', WaitingWriter);
    SomeIsCounted(s', WaitingReader);
    if t :| 0 <= t < |s'.phase| && s'.phase[t] == RdWait {
      assert RoleOf(s'.phase[t]) == WaitingReader;
    }
  }

  /** A thread that gives up signals all who sleep, readers and writers. */
  lemma GivingUpSignals(s: State, step: Step)
    requires Enabled(s, step) && (step.kind == ReadGiveUp || step.kind == WriteGiveUp)
    ensures Next(s, step).lock.rdEv && Next(s, step).lock.wrEv
  {
  }

  /** A reader is admitted exactly if nobody writes or waits to write, a writer exactly if nobody holds the
      lock. Who is not admitted sleeps beside a cleared event, and who is admitted touches no event. */
  lemma AdmittedIff(s: State, step: Step)
    requires Inv(s) && Enabled(s, step) && (step.kind == ReadTry || step.kind == WriteTry)
    ensures var s' := Next(s, step);
            if step.kind == ReadTry then
              if Anyone(s, ActiveWriter) || Anyone(s, WaitingWriter) then
                s'.phase[step.t] == RdWait && !s'.lock.rdEv && s'.lock.wrEv == s.lock.wrEv
              else s'.phase[step.t] == Reading && s'.lock.rdEv == s.lock.rdEv && s'.lock.wrEv == s.lock.wrEv
            else
              if Anyone(s, ActiveReader) || Anyone(s, ActiveWriter) then
                s'.phase[step.t] == WrWait && !s'.lock.wrEv && s'.lock.rdEv == s.lock.rdEv
              else s'.phase[step.t] == Writing && s'.lock.rdEv == s.lock.rdEv && s'.lock.wrEv == s.lock.wrEv
  {
    hide Count;
    SomeIsCounted(s, ActiveReader);
    SomeIsCounted(s, ActiveWriter);
    SomeIsCounted(s, WaitingWriter);
  }

  predicate Signals(kind: Kind) { kind in {ReadUnlock, WriteUnlock, ReadGiveUp, WriteGiveUp} }

  /** No busy waiting: who sleeps beside a cleared event is woken only after somebody has released the lock or
      given up. */
  lemma {:induction false} NoWakeWithoutSignal(s: State, run: seq<Step>)
    requires Allowed(s, run) && forall i :: 0 <= i < |run| ==> !Signals(run[i].kind)
    ensures !s.lock.rdEv ==> !Exec(s, run).lock.rdEv && forall i :: 0 <= i < |run| ==> run[i].kind != ReadWake
    ensures !s.lock.wrEv ==> !Exec(s, run).lock.wrEv && forall i :: 0 <= i < |run| ==> run[i].kind != WriteWake
    decreases |run|
  {
    if run != [] {
      assert !Signals(run[0].kind);
      assert forall i :: 0 <= i < |run[1..]| ==> run[1..][i] == run[i + 1];
      NoWakeWithoutSignal(Next(s, run[0]), run[1..]);
      assert forall i :: 0 < i < |run| ==> run[i] == run[1..][i - 1];
    }
  }

  // ---- progress

  /** A thread that enters lock_read or lock_write. */
  predicate Arrival(s: State, step: Step) {
    step.t < |s.phase| && s.phase[step.t] == Idle
  }

  predicate Timeout(step: Step) {
    step.kind == ReadTimeout || step.kind == WriteTimeout
  }

  ghost predicate NoArrivals(s: State, run: seq<Step>)
    requires Allowed(s, run)
    decreases |run|
  {
    run == [] || (!Arrival(s, run[0]) && NoArrivals(Next(s, run[0]), run[1..]))
  }

  function Weight(p: Phase): nat {
    match p
    case Idle => 0
    case Reading | Writing => 3
    case RdTimedOut | WrTimedOut => 5
    case RdWait | WrWait => 6
    case RdWoken | WrWoken => 7
  }

  function TotalWeight(phase: seq<Phase>): nat {
    if phase == [] then 0 else Weight(phase[0]) + TotalWeight(phase[1..])
  }

  function Fuel(s: State): nat {
    TotalWeight(s.phase) + (if s.lock.rdEv then 2 else 0) + (if s.lock.wrEv then 2 else 0)
  }

  lemma {:induction false} WeightUpdate(phase: seq<Phase>, t: nat, p: Phase)
    requires t < |phase|
    ensures TotalWeight(phase[t := p]) == TotalWeight(phase) - Weight(phase[t]) + Weight(p)
  {
    if t > 0 {
      WeightUpdate(phase[1..], t - 1, p);
      assert phase[t := p][1..] == phase[1..][t - 1 := p];
    } else {
      assert phase[t := p][1..] == phase[1..];
    }
  }

  lemma {:induction false} WeightBound(phase: seq<Phase>)
    ensures TotalWeight(phase) <= 7 * |phase|
  {
    if phase != [] {
      WeightBound(phase[1..]);
    }
  }

  lemma StepUsesFuel(s: State, step: Step)
    requires Enabled(s, step) && !Arrival(s, step)
    ensures Fuel(Next(s, step)) < Fuel(s)
  {
    var (l, p) := Effect(s.lock, s.phase[step.t], step.kind);
    WeightUpdate(s.phase, step.t, p);
  }

  /** No livelock: without newcomers the threads inside the lock can make at most 7n+4 steps,
      whatever the scheduler does and whoever times out. */
  lemma {:induction false} RunsWithoutArrivalsEnd(s: State, run: seq<Step>)
    requires Allowed(s, run) && NoArrivals(s, run)
    ensures |run| + Fuel(Exec(s, run)) <= Fuel(s) <= 7 * |s.phase| + 4
    decreases |run|
  {
    WeightBound(s.phase);
    if run != [] {
      StepUsesFuel(s, run[0]);
      RunsWithoutArrivalsEnd(Next(s, run[0]), run[1..]);
    }
  }

  ghost predicate AllIdle(s: State) {
    forall t :: 0 <= t < |s.phase| ==> s.phase[t] == Idle
  }

  /** No deadlock: if some thread is inside, a thread inside can move without a timeout. */
  lemma SomeoneCanMove(s: State) returns (step: Step)
    requires Inv(s) && !AllIdle(s)
    ensures Enabled(s, step) && !Arrival(s, step) && !Timeout(step)
  {
    var t: nat :| t < |s.phase| && s.phase[t] != Idle;
    CountsMember(s.phase, t, RoleOf(s.phase[t]));
    if s.lock.rdcnt > 0 {
      var u := MemberOf(s.phase, ActiveReader);
      step := Step(ReadUnlock, u);
    } else if s.lock.wrcnt > 0 {
      var u := MemberOf(s.phase, ActiveWriter);
      step := Step(WriteUnlock, u);
    } else if s.lock.wrwaitcnt > 0 {
      if WriterInTransit(s.phase) {
        var u :| 0 <= u < |s.phase| && (s.phase[u] == WrWoken || s.phase[u] == WrTimedOut);
        step := Step(if s.phase[u] == WrWoken then WriteTry else WriteGiveUp, u);
      } else {
        var u := MemberOf(s.phase, WaitingWriter);
        step := Step(WriteWake, u);
      }
    } else {
      if ReaderInTransit(s.phase) {
        var u :| 0 <= u < |s.phase| && (s.phase[u] == RdWoken || s.phase[u] == RdTimedOut);
        step := Step(if s.phase[u] == RdWoken then ReadTry else ReadGiveUp, u);
      } else {
        var u := MemberOf(s.phase, WaitingReader);
        step := Step(ReadWake, u);
      }
    }
  }

  ghost predicate NoTimeouts(run: seq<Step>) {
    forall i :: 0 <= i < |run| ==> !Timeout(run[i])
  }

  /** So every reachable state drains: the threads inside can all leave without one more timeout. */
  lemma {:induction false} Drains(s: State) returns (run: seq<Step>)
    requires Inv(s)
    ensures Allowed(s, run) && NoArrivals(s, run) && NoTimeouts(run)
    ensures AllIdle(Exec(s, run)) && |run| <= Fuel(s)
    decreases Fuel(s)
  {
    if AllIdle(s) {
      run := [];
    } else {
      var step := SomeoneCanMove(s);
      StepUsesFuel(s, step);
      StepKeepsCounters(s, step);
      StepKeepsWakeUps(s, step);
      var rest := Drains(Next(s, step));
      run := [step] + rest;
      assert run[1..] == rest;
    }
  }

  /** A run that nobody can extend without a newcomer or a timeout has let everybody through. */
  lemma StuckMeansEmpty(n: nat, run: seq<Step>)
    requires n < DWORD_LIMIT && Allowed(Initial(n), run)
    ensures AllIdle(Exec(Initial(n), run)) <==>
            forall step :: Enabled(Exec(Initial(n), run), step) ==>
              Arrival(Exec(Initial(n), run), step) || Timeout(step)
  {
    InitialInv(n);
    RunKeepsInv(Initial(n), run);
    var s := Exec(Initial(n), run);
    if !AllIdle(s) {
      var step := SomeoneCanMove(s);
    }
  }

  /** The phase a waiting thread is waiting for. */
  function Goal(p: Phase): Phase {
    match RoleOf(p)
    case WaitingReader => Reading
    case WaitingWriter => Writing
    case Outside | ActiveReader | ActiveWriter => p
  }

  predicate TimesOut(run: seq<Step>, t: nat) {
    exists i :: 0 <= i < |run| && run[i].t == t && Timeout(run[i])
  }

  /** A waiter that leaves and was never timed out held the lock on its way. */
  lemma {:induction false} WaiterIsServed(s: State, run: seq<Step>, t: nat) returns (k: nat)
    requires Allowed(s, run) && t < |s.phase|
    requires s.phase[t] in {RdWait, RdWoken, WrWait, WrWoken}
    requires !TimesOut(run, t)
    requires Exec(s, run).phase[t] == Idle
    ensures k <= |run| && Allowed(s, run[..k]) && Exec(s, run[..k]).phase[t] == Goal(s.phase[t])
    decreases |run|
  {
    if run == [] {
      assert false;
    } else {
      var s' := Next(s, run[0]);
      var rest := run[1..];
      assert Allowed(s', rest);
      if s'.phase[t] == Goal(s.phase[t]) {
        k := 1;
        assert run[..1] == [run[0]];
        assert Allowed(s', []);
      } else {
        assert !(run[0].t == t && Timeout(run[0]));
        var j := WaiterIsServed(s', rest, t);
        k := j + 1;
        assert run[..k][1..] == rest[..j];
      }
    }
  }

  /** With an infinite timeout, which is what the guards use, no call ever gives up: every acquisition
      that returns has succeeded. */
  lemma {:induction false} InfiniteTimeoutNeverFails(s: State, run: seq<Step>)
    requires Allowed(s, run) && NoTimeouts(run)
    requires forall t :: 0 <= t < |s.phase| ==> s.phase[t] != RdTimedOut && s.phase[t] != WrTimedOut
    ensures forall i :: 0 <= i < |run| ==> run[i].kind != ReadGiveUp && run[i].kind != WriteGiveUp
    decreases |run|
  {
    if run != [] {
      assert !Timeout(run[0]);
      assert forall i :: 0 <= i < |run[1..]| ==> run[1..][i] == run[i + 1];
      InfiniteTimeoutNeverFails(Next(s, run[0]), run[1..]);
    }
  }

  // ---- writer preference

  ghost predicate WriterAlwaysWaits(s: State, run: seq<Step>)
    requires Allowed(s, run)
    decreases |run|
  {
    s.lock.wrwaitcnt > 0 && (run == [] || WriterAlwaysWaits(Next(s, run[0]), run[1..]))
  }

  /** While some writer waits, nobody starts reading: a thread that reads at the end was reading all along. */
  lemma {:induction false} WritersArePreferred(s: State, run: seq<Step>, t: nat)
    requires Allowed(s, run) && WriterAlwaysWaits(s, run)
    requires t < |Exec(s, run).phase| && Exec(s, run).phase[t] == Reading
    ensures t < |s.phase| && s.phase[t] == Reading
    decreases |run|
  {
    if run != [] {
      WritersArePreferred(Next(s, run[0]), run[1..], t);
    }
  }
}
