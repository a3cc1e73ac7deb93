/** The hand-written reader/writer lock of cppredis/vos_lock.h (the `__WINDOWS` branch), as a step
    system. A thread is an index into `phase`. Every critical section of the source is one atomic
    step, and so is every return from `WaitForSingleObject`: it consumes the auto-reset event, or it
    times out. */
module RWLockSteps {

  const DWORD_LIMIT: int := 0x1_0000_0000

  /** An unsigned 32-bit counter; it wraps at both ends. */
  type DWord = x: int | 0 <= x < DWORD_LIMIT

  function Inc(x: DWord): DWord { if x == DWORD_LIMIT - 1 then 0 else x + 1 }

  function Dec(x: DWord): DWord { if x == 0 then DWORD_LIMIT - 1 else x - 1 }

  /** The fields of CRWLock. */
  datatype Lock = Lock(rdcnt: DWord, rdwaitcnt: DWord, wrcnt: DWord, wrwaitcnt: DWord, rdEv: bool, wrEv: bool)

  const FRESH_LOCK := Lock(0, 0, 0, 0, true, true)

  /** Where a thread stands in its call; it is in the waiting phases exactly when its local `wait` flag is set. */
  datatype Phase =
    | Idle
    | RdWait | RdWoken | RdTimedOut | Reading
    | WrWait | WrWoken | WrTimedOut | Writing

  // ---- the critical sections; `wait` is the caller's local flag, returned updated

  function TryRead(l: Lock, wait: bool): (Lock, bool) {
    if l.wrcnt == 0 && l.wrwaitcnt == 0 then
      (l.(rdwaitcnt := if wait then Dec(l.rdwaitcnt) else l.rdwaitcnt, rdcnt := Inc(l.rdcnt)), false)
    else
      (l.(rdwaitcnt := if wait then l.rdwaitcnt else Inc(l.rdwaitcnt), rdEv := false), true)
  }

  function GiveUpRead(l: Lock): Lock {
    l.(rdwaitcnt := Dec(l.rdwaitcnt), rdEv := true, wrEv := true)
  }

  function UnlockRead(l: Lock): Lock {
    Release(l.(rdcnt := Dec(l.rdcnt)))
  }

  function TryWrite(l: Lock, wait: bool): (Lock, bool) {
    if l.rdcnt == 0 && l.wrcnt == 0 then
      (l.(wrwaitcnt := if wait then Dec(l.wrwaitcnt) else l.wrwaitcnt, wrcnt := Inc(l.wrcnt)), false)
    else
      (l.(wrwaitcnt := if wait then l.wrwaitcnt else Inc(l.wrwaitcnt), wrEv := false), true)
  }

  function GiveUpWrite(l: Lock): Lock {
    l.(wrwaitcnt := Dec(l.wrwaitcnt), rdEv := true, wrEv := true)
  }

  function UnlockWrite(l: Lock): Lock {
    Release(l.(wrcnt := Dec(l.wrcnt)))
  }

  /** The tail shared by both unlocks: a waiting writer is preferred over waiting readers. */
  function Release(l: Lock): Lock {
    if l.wrwaitcnt != 0 then l.(wrEv := true)
    else if l.rdwaitcnt != 0 then l.(rdEv := true)
    else l
  }

  // ---- the step system

  datatype State = State(lock: Lock, phase: seq<Phase>)

  datatype Kind =
    | ReadTry | ReadWake | ReadTimeout | ReadGiveUp | ReadUnlock
    | WriteTry | WriteWake | WriteTimeout | WriteGiveUp | WriteUnlock

  datatype Step = Step(kind: Kind, t: nat)

  predicate Enabled(s: State, step: Step) {
    step.t < |s.phase| &&
    var p := s.phase[step.t];
    match step.kind
    case ReadTry => p == Idle || p == RdWoken
    case ReadWake => p == RdWait && s.lock.rdEv
    case ReadTimeout => p == RdWait
    case ReadGiveUp => p == RdTimedOut
    case ReadUnlock => p == Reading
    case WriteTry => p == Idle || p == WrWoken
    case WriteWake => p == WrWait && s.lock.wrEv
    case WriteTimeout => p == WrWait
    case WriteGiveUp => p == WrTimedOut
    case WriteUnlock => p == Writing
  }

  /** What a step does to the lock, and the phase its thread moves to. */
  function Effect(l: Lock, p: Phase, kind: Kind): (Lock, Phase) {
    match kind
    case ReadTry => var (l', wait) := TryRead(l, p != Idle); (l', if wait then RdWait else Reading)
    case ReadWake => (l.(rdEv := false), RdWoken)
    case ReadTimeout => (l, RdTimedOut)
    case ReadGiveUp => (GiveUpRead(l), Idle)
    case ReadUnlock => (UnlockRead(l), Idle)
    case WriteTry => var (l', wait) := TryWrite(l, p != Idle); (l', if wait then WrWait else Writing)
    case WriteWake => (l.(wrEv := false), WrWoken)
    case WriteTimeout => (l, WrTimedOut)
    case WriteGiveUp => (GiveUpWrite(l), Idle)
    case WriteUnlock => (UnlockWrite(l), Idle)
  }

  function Next(s: State, step: Step): State
    requires Enabled(s, step)
  {
    var (l, p) := Effect(s.lock, s.phase[step.t], step.kind);
    State(l, s.phase[step.t := p])
  }

  predicate Allowed(s: State, run: seq<Step>)
    decreases |run|
  {
    run == [] || (Enabled(s, run[0]) && Allowed(Next(s, run[0]), run[1..]))
  }

  function Exec(s: State, run: seq<Step>): (s': State)
    requires Allowed(s, run)
    ensures |s'.phase| == |s.phase|
    decreases |run|
  {
    if run == [] then s else Exec(Next(s, run[0]), run[1..])
  }

  /** A fresh lock and `n` threads that have not called it yet. */
  function Initial(n: nat): State {
    State(FRESH_LOCK, seq(n, _ => Idle))
  }

  lemma {:induction false} RunConcat(s: State, a: seq<Step>, b: seq<Step>)
    requires Allowed(s, a) && Allowed(Exec(s, a), b)
    ensures Allowed(s, a + b) && Exec(s, a + b) == Exec(Exec(s, a), b)
    decreases |a|
  {
    if a == [] {
      assert a + b == b;
    } else {
      RunConcat(Next(s, a[0]), a[1..], b);
      assert (a + b)[1..] == a[1..] + b;
    }
  }

  // ---- counting threads by role

  datatype Role = Outside | ActiveReader | WaitingReader | ActiveWriter | WaitingWriter

  function RoleOf(p: Phase): Role {
    match p
    case Idle => Outside
    case Reading => ActiveReader
    case Writing => ActiveWriter
    case RdWait | RdWoken | RdTimedOut => WaitingReader
    case WrWait | WrWoken | WrTimedOut => WaitingWriter
  }

  function Is(p: Phase, r: Role): nat { if RoleOf(p) == r then 1 else 0 }

  function Count(phase: seq<Phase>, r: Role): nat {
    if phase == [] then 0 else Is(phase[0], r) + Count(phase[1..], r)
  }

  lemma {:induction false} CountUpdate(phase: seq<Phase>, t: nat, p: Phase, r: Role)
    requires t < |phase|
    ensures Count(phase[t := p], r) == Count(phase, r) - Is(phase[t], r) + Is(p, r)
  {
    if t > 0 {
      CountUpdate(phase[1..], t - 1, p, r);
      assert phase[t := p][1..] == phase[1..][t - 1 := p];
    } else {
      assert phase[t := p][1..] == phase[1..];
    }
  }

  /** Every thread has one role, so the five counts add up to the number of threads. */
  lemma {:induction false} CountsPartition(phase: seq<Phase>)
    ensures Count(phase, Outside) + Count(phase, ActiveReader) + Count(phase, WaitingReader)
            + Count(phase, ActiveWriter) + Count(phase, WaitingWriter) == |phase|
  {
    if phase != [] {
      CountsPartition(phase[1..]);
    }
  }

  /** A thread with role `r` is counted. */
  lemma {:induction false} CountsMember(phase: seq<Phase>, t: nat, r: Role)
    requires t < |phase| && RoleOf(phase[t]) == r
    ensures Count(phase, r) > 0
  {
    if t > 0 {
      CountsMember(phase[1..], t - 1, r);
    }
  }

  lemma {:induction false} MemberOf(phase: seq<Phase>, r: Role) returns (t: nat)
    requires Count(phase, r) > 0
    ensures t < |phase| && RoleOf(phase[t]) == r
  {
    if RoleOf(phase[0]) == r {
      t := 0;
    } else {
      var u := MemberOf(phase[1..], r);
      t := u + 1;
    }
  }

  /** Two different threads with the same role are counted twice. */
  lemma {:induction false} CountsTwo(phase: seq<Phase>, t: nat, u: nat, r: Role)
    requires t < u < |phase| && RoleOf(phase[t]) == r && RoleOf(phase[u]) == r
    ensures Count(phase, r) >= 2
  {
    if t == 0 {
      CountsMember(phase[1..], u - 1, r);
    } else {
      CountsTwo(phase[1..], t - 1, u - 1, r);
    }
  }

  lemma {:induction false} CountZero(n: nat, r: Role)
    requires r != Outside
    ensures Count(seq(n, _ => Idle), r) == 0
  {
    if n > 0 {
      CountZero(n - 1, r);
      assert seq(n, _ => Idle)[1..] == seq(n - 1, _ => Idle);
    }
  }

  // ---- the invariant

  /** The counters are exactly the numbers of threads in the roles they are named after. */
  ghost predicate ExactCounters(s: State) {
    && |s.phase| < DWORD_LIMIT
    && s.lock.rdcnt == Count(s.phase, ActiveReader)
    && s.lock.rdwaitcnt == Count(s.phase, WaitingReader)
    && s.lock.wrcnt == Count(s.phase, ActiveWriter)
    && s.lock.wrwaitcnt == Count(s.phase, WaitingWriter)
  }

  ghost predicate Exclusive(s: State) {
    s.lock.wrcnt == 0 || (s.lock.wrcnt == 1 && s.lock.rdcnt == 0)
  }

  /** A waiter that has left `WaitForSingleObject` and is on its way to its next critical section. */
  ghost predicate ReaderInTransit(phase: seq<Phase>) {
    exists t :: 0 <= t < |phase| && (phase[t] == RdWoken || phase[t] == RdTimedOut)
  }

  ghost predicate WriterInTransit(phase: seq<Phase>) {
    exists t :: 0 <= t < |phase| && (phase[t] == WrWoken || phase[t] == WrTimedOut)
  }

  ghost predicate NoLostWakeUp(s: State) {
    s.lock.rdcnt == 0 && s.lock.wrcnt == 0 ==>
      && (s.lock.wrwaitcnt > 0 ==> s.lock.wrEv || WriterInTransit(s.phase))
      && (s.lock.wrwaitcnt == 0 && s.lock.rdwaitcnt > 0 ==> s.lock.rdEv || ReaderInTransit(s.phase))
  }

  ghost predicate Inv(s: State) {
    ExactCounters(s) && Exclusive(s) && NoLostWakeUp(s)
  }

  lemma InitialInv(n: nat)
    requires n < DWORD_LIMIT
    ensures Inv(Initial(n))
  {
    CountZero(n, ActiveReader);
    CountZero(n, WaitingReader);
    CountZero(n, ActiveWriter);
    CountZero(n, WaitingWriter);
  }

  /** The effect of one step on the four counters, given that none of them wraps. */
  lemma EffectCounters(l: Lock, p: Phase, kind: Kind)
    requires Enabled(State(l, [p]), Step(kind, 0))
    requires l.rdcnt + l.rdwaitcnt + l.wrcnt + l.wrwaitcnt + Is(p, Outside) < DWORD_LIMIT
    requires l.rdcnt >= Is(p, ActiveReader) && l.rdwaitcnt >= Is(p, WaitingReader)
    requires l.wrcnt >= Is(p, ActiveWriter) && l.wrwaitcnt >= Is(p, WaitingWriter)
    ensures var (l', p') := Effect(l, p, kind);
            && l'.rdcnt == l.rdcnt - Is(p, ActiveReader) + Is(p', ActiveReader)
            && l'.rdwaitcnt == l.rdwaitcnt - Is(p, WaitingReader) + Is(p', WaitingReader)
            && l'.wrcnt == l.wrcnt - Is(p, ActiveWriter) + Is(p', ActiveWriter)
            && l'.wrwaitcnt == l.wrwaitcnt - Is(p, WaitingWriter) + Is(p', WaitingWriter)
  {
    match kind
    case ReadTry =>
    case ReadWake =>
    case ReadTimeout =>
    case ReadGiveUp =>
    case ReadUnlock =>
    case WriteTry =>
    case WriteWake =>
    case WriteTimeout =>
    case WriteGiveUp =>
    case WriteUnlock =>
  }

  lemma StepKeepsCounters(s: State, step: Step)
    requires ExactCounters(s) && Exclusive(s) && Enabled(s, step)
    ensures ExactCounters(Next(s, step)) && Exclusive(Next(s, step))
  {
    var p := s.phase[step.t];
    var (l', p') := Effect(s.lock, p, step.kind);
    CountsPartition(s.phase);
    CountsMember(s.phase, step.t, RoleOf(p));
    EffectCounters(s.lock, p, step.kind);
    CountUpdate(s.phase, step.t, p', ActiveReader);
    CountUpdate(s.phase, step.t, p', WaitingReader);
    CountUpdate(s.phase, step.t, p', ActiveWriter);
    CountUpdate(s.phase, step.t, p', WaitingWriter);
  }

  lemma StepKeepsWakeUps(s: State, step: Step)
    requires Inv(s) && Enabled(s, step)
    ensures NoLostWakeUp(Next(s, step))
  {
    hide Count;
    var s' := Next(s, step);
    StepKeepsCounters(s, step);
    var p, p' := s.phase[step.t], s'.phase[step.t];
    CountsMember(s.phase, step.t, RoleOf(p));
    CountsMember(s'.phase, step.t, RoleOf(p'));
    if WriterInTransit(s.phase) && !(p == WrWoken || p == WrTimedOut) {
      var t :| 0 <= t < |s.phase| && (s.phase[t] == WrWoken || s.phase[t] == WrTimedOut);
      assert s'.phase[t] == s.phase[t];
    }
    if ReaderInTransit(s.phase) && !(p == RdWoken || p == RdTimedOut) {
      var t :| 0 <= t < |s.phase| && (s.phase[t] == RdWoken || s.phase[t] == RdTimedOut);
      assert s'.phase[t] == s.phase[t];
    }
  }

  lemma {:induction false} RunKeepsInv(s: State, run: seq<Step>)
    requires Inv(s) && Allowed(s, run)
    ensures Inv(Exec(s, run))
    decreases |run|
  {
    if run != [] {
      StepKeepsCounters(s, run[0]);
      StepKeepsWakeUps(s, run[0]);
      RunKeepsInv(Next(s, run[0]), run[1..]);
    }
  }
}
