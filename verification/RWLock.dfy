/** CRWLock itself: the fields, the critical sections and the do/while retry loops of
    cppredis/vos_lock.h. Each call is proved to be a run of the step system. */
module RWLock {
  import opened Wrappers
  import opened RWLockSteps

  /** How a call to lock_read or lock_write stands when its schedule is used up. */
  datatype Outcome = Acquired | GaveUp | StillInside

  /** What happens next while a call is under way: another thread takes a step, or the thread itself consumes
      its event, is timed out, or, having left WaitForSingleObject, enters its next critical section. */
  datatype Turn = Other(step: Step) | Signal | Expire | Proceed

  predicate Inside(p: Phase) { RoleOf(p) == WaitingReader || RoleOf(p) == WaitingWriter }

  /** The step that a turn makes of it, if it is possible, while thread `me` is inside its call. */
  function TurnStep(s: State, me: nat, turn: Turn): (step: Option<Step>)
    requires me < |s.phase| && Inside(s.phase[me])
    ensures step.Some? ==> Enabled(s, step.value)
  {
    match turn
    case Other(step) => if step.t != me && Enabled(s, step) then Some(step) else None
    case Signal =>
      if s.phase[me] == RdWait && s.lock.rdEv then Some(Step(ReadWake, me))
      else if s.phase[me] == WrWait && s.lock.wrEv then Some(Step(WriteWake, me))
      else None
    case Expire =>
      if s.phase[me] == RdWait then Some(Step(ReadTimeout, me))
      else if s.phase[me] == WrWait then Some(Step(WriteTimeout, me))
      else None
    case Proceed =>
      match s.phase[me]
      case RdWoken => Some(Step(ReadTry, me))
      case RdTimedOut => Some(Step(ReadGiveUp, me))
      case WrWoken => Some(Step(WriteTry, me))
      case WrTimedOut => Some(Step(WriteGiveUp, me))
      case _ => None
  }

  /** The steps of a schedule, up to the return of the call of thread `me`. */
  function Play(s: State, me: nat, turns: seq<Turn>): (run: seq<Step>)
    requires me < |s.phase|
    ensures Allowed(s, run)
    decreases |turns|
  {
    if turns == [] || !Inside(s.phase[me]) then []
    else
      match TurnStep(s, me, turns[0])
      case None => Play(s, me, turns[1..])
      case Some(step) => [step] + Play(Next(s, step), me, turns[1..])
  }

  /** A whole call that begins with a critical section of the given kind. */
  function Call(s: State, me: nat, kind: Kind, turns: seq<Turn>): seq<Step>
    requires Enabled(s, Step(kind, me))
  {
    [Step(kind, me)] + Play(Next(s, Step(kind, me)), me, turns)
  }

  ghost predicate InsideAlong(s: State, run: seq<Step>, me: nat)
    requires Allowed(s, run)
    decreases |run|
  {
    run == [] || (me < |s.phase| && Inside(s.phase[me]) && InsideAlong(Next(s, run[0]), run[1..], me))
  }

  /** Schedules leave nothing out: every run of the step system in which a thread, once inside, makes no step
      after its return is what its call does under some schedule. */
  lemma {:induction false} EveryRunIsScheduled(s: State, run: seq<Step>, me: nat) returns (turns: seq<Turn>)
    requires me < |s.phase| && Allowed(s, run) && InsideAlong(s, run, me)
    ensures Play(s, me, turns) == run
    decreases |run|
  {
    turns := [];
    if run != [] {
      var step := run[0];
      var rest := EveryRunIsScheduled(Next(s, step), run[1..], me);
      var turn :=
        if step.t != me then Other(step)
        else if step.kind == ReadWake || step.kind == WriteWake then Signal
        else if step.kind == ReadTimeout || step.kind == WriteTimeout then Expire
        else Proceed;
      turns := [turn] + rest;
      assert turns[1..] == rest;
      assert TurnStep(s, me, turn) == Some(step);
    }
  }

  // ---- playing a schedule, turn by turn

  lemma PlayTurn(s: State, me: nat, turns: seq<Turn>, k: nat, run: seq<Step>)
    requires me < |s.phase| && Inside(s.phase[me]) && k < |turns|
    ensures run + Play(s, me, turns[k..])
            == match TurnStep(s, me, turns[k])
               case None => run + Play(s, me, turns[k + 1..])
               case Some(step) => run + [step] + Play(Next(s, step), me, turns[k + 1..])
  {
    hide TurnStep, Next, Allowed;
    assert turns[k..][1..] == turns[k + 1..];
  }

  lemma PlayEnds(s: State, me: nat, turns: seq<Turn>, k: nat, run: seq<Step>)
    requires me < |s.phase| && k <= |turns|
    ensures k == |turns| || !Inside(s.phase[me]) ==> run + Play(s, me, turns[k..]) == run
  {
  }

  lemma CallStarts(s: State, me: nat, kind: Kind, turns: seq<Turn>, run: seq<Step>)
    requires Enabled(s, Step(kind, me))
    ensures run + Call(s, me, kind, turns) == run + [Step(kind, me)] + Play(Next(s, Step(kind, me)), me, turns)
  {
  }

  /** A thread that was woken calls for its critical section again; one that was timed out gives up. */
  lemma PlayProceeds(s: State, me: nat, turns: seq<Turn>, k: nat, run: seq<Step>)
    requires me < |s.phase| && Inside(s.phase[me]) && k < |turns| && turns[k] == Proceed
    ensures match s.phase[me]
            case RdWoken => run + Play(s, me, turns[k..]) == run + Call(s, me, ReadTry, turns[k + 1..])
            case WrWoken => run + Play(s, me, turns[k..]) == run + Call(s, me, WriteTry, turns[k + 1..])
            case RdTimedOut =>
              run + Play(s, me, turns[k..]) == run + [Step(ReadGiveUp, me)]
                + Play(Next(s, Step(ReadGiveUp, me)), me, turns[k + 1..])
            case WrTimedOut =>
              run + Play(s, me, turns[k..]) == run + [Step(WriteGiveUp, me)]
                + Play(Next(s, Step(WriteGiveUp, me)), me, turns[k + 1..])
            case _ => true
  {
    hide Play, Next;
    PlayTurn(s, me, turns, k, run);
    if s.phase[me] == RdWoken {
      CallStarts(s, me, ReadTry, turns[k + 1..], run);
    } else if s.phase[me] == WrWoken {
      CallStarts(s, me, WriteTry, turns[k + 1..], run);
    }
  }

  /** Until it proceeds, a thread inside keeps its role, and only its timeout makes it time out. */
  lemma TurnPhase(s: State, me: nat, turn: Turn)
    requires me < |s.phase| && Inside(s.phase[me]) && (turn == Proceed ==> s.phase[me] in {RdWait, WrWait})
    ensures match TurnStep(s, me, turn)
            case None => true
            case Some(step) =>
              && RoleOf(Next(s, step).phase[me]) == RoleOf(s.phase[me])
              && (Next(s, step).phase[me] in {RdTimedOut, WrTimedOut} ==>
                    turn == Expire || Next(s, step).phase[me] == s.phase[me])
  {
  }

  /** The thread's own steps in a run. */
  ghost predicate OwnKinds(run: seq<Step>, me: nat, kinds: set<Kind>) {
    forall i :: 0 <= i < |run| && run[i].t == me ==> run[i].kind in kinds
  }

  lemma {:induction false} PlayKinds(s: State, me: nat, turns: seq<Turn>)
    requires me < |s.phase|
    ensures RoleOf(s.phase[me]) == WaitingReader ==>
              OwnKinds(Play(s, me, turns), me, {ReadTry, ReadWake, ReadTimeout, ReadGiveUp})
    ensures RoleOf(s.phase[me]) == WaitingWriter ==>
              OwnKinds(Play(s, me, turns), me, {WriteTry, WriteWake, WriteTimeout, WriteGiveUp})
    decreases |turns|
  {
    if turns != [] && Inside(s.phase[me]) {
      match TurnStep(s, me, turns[0])
      case None => PlayKinds(s, me, turns[1..]);
      case Some(step) =>
        var s' := Next(s, step);
        PlayKinds(s', me, turns[1..]);
        if !Inside(s'.phase[me]) {
          assert Play(s', me, turns[1..]) == [];
        }
    }
  }

  lemma CallKinds(s: State, me: nat, turns: seq<Turn>)
    requires me < |s.phase| && s.phase[me] == Idle
    ensures OwnKinds(Call(s, me, ReadTry, turns), me, {ReadTry, ReadWake, ReadTimeout, ReadGiveUp})
    ensures OwnKinds(Call(s, me, WriteTry, turns), me, {WriteTry, WriteWake, WriteTimeout, WriteGiveUp})
  {
    PlayKinds(Next(s, Step(ReadTry, me)), me, turns);
    PlayKinds(Next(s, Step(WriteTry, me)), me, turns);
    if Next(s, Step(ReadTry, me)).phase[me] == Reading {
      assert Play(Next(s, Step(ReadTry, me)), me, turns) == [];
    }
    if Next(s, Step(WriteTry, me)).phase[me] == Writing {
      assert Play(Next(s, Step(WriteTry, me)), me, turns) == [];
    }
  }

  class CRWLock {
    var rdcnt: DWord      // active readers
    var rdwaitcnt: DWord  // waiting readers
    var wrcnt: DWord      // active writers
    var wrwaitcnt: DWord  // waiting writers
    var rdEv: bool        // auto-reset events
    var wrEv: bool
    var phase: seq<Phase> // where each thread stands in its own call

    function Fields(): Lock
      reads this
    {
      Lock(rdcnt, rdwaitcnt, wrcnt, wrwaitcnt, rdEv, wrEv)
    }

    function View(): State
      reads this
    {
      State(Fields(), phase)
    }

    constructor (n: nat)
      ensures View() == Initial(n)
    {
      rdcnt, rdwaitcnt, wrcnt, wrwaitcnt := 0, 0, 0, 0;
      rdEv, wrEv := true, true;
      phase := seq(n, _ => Idle);
    }

    // ---- the critical sections

    method EnterRead(wait: bool) returns (still: bool)
      modifies this
      ensures (Fields(), still) == TryRead(old(Fields()), wait) && phase == old(phase)
    {
      still := wait;
      if wrcnt == 0 && wrwaitcnt == 0 {
        if still {
          rdwaitcnt := Dec(rdwaitcnt);
          still := false;
        }
        rdcnt := Inc(rdcnt);
      } else {
        if !still {
          rdwaitcnt := Inc(rdwaitcnt);
          still := true;
        }
        rdEv := false;
      }
    }

    method AbandonRead()
      modifies this
      ensures Fields() == GiveUpRead(old(Fields())) && phase == old(phase)
    {
      rdwaitcnt := Dec(rdwaitcnt);
      rdEv := true;
      wrEv := true;
    }

    method LeaveRead()
      modifies this
      ensures Fields() == UnlockRead(old(Fields())) && phase == old(phase)
    {
      rdcnt := Dec(rdcnt);
      if wrwaitcnt != 0 {
        wrEv := true;
      } else if rdwaitcnt != 0 {
        rdEv := true;
      }
    }

    method EnterWrite(wait: bool) returns (still: bool)
      modifies this
      ensures (Fields(), still) == TryWrite(old(Fields()), wait) && phase == old(phase)
    {
      still := wait;
      if rdcnt == 0 && wrcnt == 0 {
        if still {
          wrwaitcnt := Dec(wrwaitcnt);
          still := false;
        }
        wrcnt := Inc(wrcnt);
      } else {
        if !still {
          wrwaitcnt := Inc(wrwaitcnt);
          still := true;
        }
        wrEv := false;
      }
    }

    method AbandonWrite()
      modifies this
      ensures Fields() == GiveUpWrite(old(Fields())) && phase == old(phase)
    {
      wrwaitcnt := Dec(wrwaitcnt);
      rdEv := true;
      wrEv := true;
    }

    method LeaveWrite()
      modifies this
      ensures Fields() == UnlockWrite(old(Fields())) && phase == old(phase)
    {
      wrcnt := Dec(wrcnt);
      if wrwaitcnt != 0 {
        wrEv := true;
      } else if rdwaitcnt != 0 {
        rdEv := true;
      }
    }

    // ---- the calls

    /** One step of some thread. */
    method Perform(step: Step)
      requires Enabled(View(), step)
      modifies this
      ensures View() == Next(old(View()), step)
    {
      var p := phase[step.t];
      match step.kind
      case ReadTry =>
        var wait := EnterRead(p != Idle);
        phase := phase[step.t := if wait then RdWait else Reading];
      case ReadWake =>
        rdEv := false;
        phase := phase[step.t := RdWoken];
      case ReadTimeout =>
        phase := phase[step.t := RdTimedOut];
      case ReadGiveUp =>
        AbandonRead();
        phase := phase[step.t := Idle];
      case ReadUnlock =>
        LeaveRead();
        phase := phase[step.t := Idle];
      case WriteTry =>
        var wait := EnterWrite(p != Idle);
        phase := phase[step.t := if wait then WrWait else Writing];
      case WriteWake =>
        wrEv := false;
        phase := phase[step.t := WrWoken];
      case WriteTimeout =>
        phase := phase[step.t := WrTimedOut];
      case WriteGiveUp =>
        AbandonWrite();
        phase := phase[step.t := Idle];
      case WriteUnlock =>
        LeaveWrite();
        phase := phase[step.t := Idle];
    }

    /** The state is the one that `run` leads to from `start`. */
    ghost predicate After(start: State, run: seq<Step>)
      reads this
    {
      Allowed(start, run) && View() == Exec(start, run)
    }

    method PerformAfter(step: Step, ghost start: State, ghost run: seq<Step>) returns (ghost run': seq<Step>)
      requires Enabled(View(), step) && After(start, run)
      modifies this
      ensures run' == run + [step] && After(start, run') && View() == Next(old(View()), step)
    {
      ghost var before := View();
      Perform(step);
      run' := run + [step];
      assert Allowed(before, [step]) by {
        assert Allowed(Next(before, step), []);
      }
      RunConcat(start, run, [step]);
    }

    ghost method NoStepYet(start: State) returns (run: seq<Step>)
      requires View() == start
      ensures run == [] && After(start, run)
    {
      run := [];
    }

    /** What one turn makes of the lock while thread `me` is inside its call. */
    method TakeTurn(me: nat, turn: Turn, ghost start: State, ghost run: seq<Step>) returns (ghost run': seq<Step>)
      requires me < |phase| && Inside(phase[me]) && After(start, run)
      modifies this
      ensures After(start, run')
      ensures match TurnStep(old(View()), me, turn)
              case None => View() == old(View()) && run' == run
              case Some(step) => View() == Next(old(View()), step) && run' == run + [step]
    {
      hide After, Effect, Allowed, Exec;
      run' := run;
      match TurnStep(View(), me, turn)
      case None =>
      case Some(step) => run' := PerformAfter(step, start, run);
    }

    /** From falling asleep to the next critical section: the event is consumed or the timeout expires, and
        other threads may move before and after that. Without a further turn the thread is still on its way. */
    method WaitForSingleObject(me: nat, turns: seq<Turn>, from: nat, ghost start: State, ghost run: seq<Step>)
      returns (k: nat, ghost run': seq<Step>)
      requires from <= |turns| && me < |phase| && After(start, run) && phase[me] in {RdWait, WrWait}
      modifies this
      ensures from <= k <= |turns| && me < |phase| && After(start, run') && RoleOf(phase[me]) == RoleOf(old(phase[me]))
      ensures run' + Play(View(), me, turns[k..]) == run + Play(old(View()), me, turns[from..])
      ensures k < |turns| ==> turns[k] == Proceed && phase[me] !in {RdWait, WrWait}
      ensures phase[me] in {RdTimedOut, WrTimedOut} ==> Expire in turns
    {
      hide Play, TurnStep, After, Effect, Allowed, Exec;
      k, run' := from, run;
      while k < |turns| && !(turns[k] == Proceed && phase[me] !in {RdWait, WrWait})
        invariant from <= k <= |turns| && me < |phase| && After(start, run')
        invariant RoleOf(phase[me]) == RoleOf(old(phase[me]))
        invariant run' + Play(View(), me, turns[k..]) == run + Play(old(View()), me, turns[from..])
        invariant phase[me] in {RdTimedOut, WrTimedOut} ==> Expire in turns
      {
        PlayTurn(View(), me, turns, k, run');
        TurnPhase(View(), me, turns[k]);
        run' := TakeTurn(me, turns[k], start, run');
        k := k + 1;
      }
    }

    /** lock_read, called by thread `me`, against any schedule of what all threads do during the call. */
    method LockRead(me: nat, turns: seq<Turn>) returns (r: Outcome, ghost run: seq<Step>)
      requires me < |phase| && phase[me] == Idle
      modifies this
      ensures After(old(View()), run) && run == Call(old(View()), me, ReadTry, turns)
      ensures match r
              case Acquired => phase[me] == Reading
              case GaveUp => phase[me] == Idle
              case StillInside => phase[me] in {RdWait, RdWoken, RdTimedOut}
      ensures r == GaveUp ==> Expire in turns
      ensures OwnKinds(run, me, {ReadTry, ReadWake, ReadTimeout, ReadGiveUp})
    {
      hide Play, Call, TurnStep, After, TryRead, TryWrite, GiveUpRead, GiveUpWrite, UnlockRead, UnlockWrite, Allowed,
           Exec;
      ghost var start := View();
      run := NoStepYet(start);
      var k := 0;
      assert turns[0..] == turns && [] + Call(start, me, ReadTry, turns) == Call(start, me, ReadTry, turns);
      CallKinds(start, me, turns);
      while true
        invariant k <= |turns| && me < |phase| && After(start, run)
        invariant phase[me] == Idle || phase[me] == RdWoken
        invariant run + Call(View(), me, ReadTry, turns[k..]) == Call(start, me, ReadTry, turns)
        decreases |turns| - k, if phase[me] == Idle then 1 else 0
      {
        CallStarts(View(), me, ReadTry, turns[k..], run);
        run := PerformAfter(Step(ReadTry, me), start, run);
        PlayEnds(View(), me, turns, k, run);
        if phase[me] == Reading {
          return Acquired, run;
        }
        k, run := WaitForSingleObject(me, turns, k, start, run);
        if k == |turns| {
          PlayEnds(View(), me, turns, k, run);
          return StillInside, run;
        }
        PlayProceeds(View(), me, turns, k, run);
        k := k + 1;
        if phase[me] == RdTimedOut {
          run := PerformAfter(Step(ReadGiveUp, me), start, run);
          PlayEnds(View(), me, turns, k, run);
          return GaveUp, run;
        }
      }
    }

    /** lock_write, called by thread `me`, against any schedule of what all threads do during the call. */
    method LockWrite(me: nat, turns: seq<Turn>) returns (r: Outcome, ghost run: seq<Step>)
      requires me < |phase| && phase[me] == Idle
      modifies this
      ensures After(old(View()), run) && run == Call(old(View()), me, WriteTry, turns)
      ensures match r
              case Acquired => phase[me] == Writing
              case GaveUp => phase[me] == Idle
              case StillInside => phase[me] in {WrWait, WrWoken, WrTimedOut}
      ensures r == GaveUp ==> Expire in turns
      ensures OwnKinds(run, me, {WriteTry, WriteWake, WriteTimeout, WriteGiveUp})
    {
      hide Play, Call, TurnStep, After, TryRead, TryWrite, GiveUpRead, GiveUpWrite, UnlockRead, UnlockWrite, Allowed,
           Exec;
      ghost var start := View();
      run := NoStepYet(start);
      var k := 0;
      assert turns[0..] == turns && [] + Call(start, me, WriteTry, turns) == Call(start, me, WriteTry, turns);
      CallKinds(start, me, turns);
      while true
        invariant k <= |turns| && me < |phase| && After(start, run)
        invariant phase[me] == Idle || phase[me] == WrWoken
        invariant run + Call(View(), me, WriteTry, turns[k..]) == Call(start, me, WriteTry, turns)
        decreases |turns| - k, if phase[me] == Idle then 1 else 0
      {
        CallStarts(View(), me, WriteTry, turns[k..], run);
        run := PerformAfter(Step(WriteTry, me), start, run);
        PlayEnds(View(), me, turns, k, run);
        if phase[me] == Writing {
          return Acquired, run;
        }
        k, run := WaitForSingleObject(me, turns, k, start, run);
        if k == |turns| {
          PlayEnds(View(), me, turns, k, run);
          return StillInside, run;
        }
        PlayProceeds(View(), me, turns, k, run);
        k := k + 1;
        if phase[me] == WrTimedOut {
          run := PerformAfter(Step(WriteGiveUp, me), start, run);
          PlayEnds(View(), me, turns, k, run);
          return GaveUp, run;
        }
      }
    }
  }
}
