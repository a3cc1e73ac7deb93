/** Clients and the subscriber together: requests under the read guard, updates of the rings under the
    write guard (CAutoGuardRD and CAutoGuardWR around `RedisTable` and `handle_subs`), on top of the
    reader/writer lock. An update is a sequence of small steps; clients may run between any two steps of
    anybody. */
module Guarded {
  import opened Wrappers
  import opened Hashing
  import opened Ring
  import opened Shards
  import opened Center
  import opened Cutover
  import RW = RWLockSteps
  import RWT = RWLockTheorems

  // ---- an update, step by step

  datatype Op = DestroyCur | DestroyNxt | InstallCur(ring: map<int, Conn>) | InstallNxt(ring: map<int, Conn>)
              | Swap | SetState(state: int)

  function Apply(c: Center, op: Op): Center {
    match op
    case DestroyCur => c.(cur := map[])
    case DestroyNxt => c.(nxt := map[])
    case InstallCur(ring) => c.(cur := ring)
    case InstallNxt(ring) => c.(nxt := ring)
    case Swap => c.(cur := c.nxt, nxt := c.cur)
    case SetState(n) => c.(state := n)
  }

  function ApplyAll(c: Center, ops: seq<Op>): Center
    decreases |ops|
  {
    if ops == [] then c else ApplyAll(Apply(c, ops[0]), ops[1..])
  }

  /** The steps of handle_subs. */
  function Program(m: Msg, md5: Md5): seq<Op>
    requires WellFormed(m.world.reply)
  {
    var shards := Parse(m.world.reply, 0);
    var ring := ConnsOf(RingOf(md5, shards, m.world.up));
    if m.channel != CONFIG_SHARDCHANNEL_KEY then []
    else if m.value == SHARD_START_STATUS then
      (if shards == [] then [] else [DestroyNxt, InstallNxt(ring)])
      + (if RebuildOk(m.world) then [SetState(SYNING)] else [])
    else if m.value == SHARD_NORMAL_STATUS then [DestroyCur, Swap, SetState(NORMAL)]
    else if m.value == SHARD_CHANGE_STATUS then (if shards == [] then [] else [DestroyCur, InstallCur(ring)])
    else []
  }

  function HandleMsg(c: Center, m: Msg, md5: Md5): Center
    requires WellFormed(m.world.reply)
  {
    Handle(c, m.channel, m.value, m.world, md5)
  }

  lemma ProgramIsHandle(c: Center, m: Msg, md5: Md5)
    requires WellFormed(m.world.reply)
    ensures ApplyAll(c, Program(m, md5)) == HandleMsg(c, m, md5)
  {
    hide Parse, RingOf, ConnsOf, RebuildOk;
    var shards := Parse(m.world.reply, 0);
    var ring := ConnsOf(RingOf(md5, shards, m.world.up));
    ApplyTwo(c, DestroyCur, InstallCur(ring), []);
    ApplyTwo(c, DestroyNxt, InstallNxt(ring), []);
    ApplyTwo(c, DestroyNxt, InstallNxt(ring), [SetState(SYNING)]);
    ApplyTwo(c, DestroyCur, Swap, [SetState(NORMAL)]);
    assert [DestroyNxt, InstallNxt(ring)] + [SetState(SYNING)] == [DestroyNxt, InstallNxt(ring), SetState(SYNING)];
    assert [DestroyNxt, InstallNxt(ring)] + [] == [DestroyNxt, InstallNxt(ring)];
    assert [] + [SetState(SYNING)] == [SetState(SYNING)];
  }

  lemma ApplyTwo(c: Center, a: Op, b: Op, rest: seq<Op>)
    ensures ApplyAll(c, [a, b] + rest) == ApplyAll(Apply(Apply(c, a), b), rest)
    ensures |rest| == 1 ==>
              && [a, b] + rest == [a, b, rest[0]]
              && ApplyAll(c, [a, b, rest[0]]) == Apply(Apply(Apply(c, a), b), rest[0])
    ensures rest == [] ==> [a, b] + rest == [a, b]
  {
    assert ([a, b] + rest)[1..] == [b] + rest;
    assert ([b] + rest)[1..] == rest;
    if |rest| == 1 {
      assert rest[1..] == [];
    }
  }

  // ---- the system

  /** What a thread has done so far inside its guard. */
  datatype Local =
    | Quiet
    | Picked(r: Req, jedis: Option<Conn>)           // has its connection on the current ring
    | Sent(r: Req, jedis: Option<Conn>)             // has sent the first command
    | Due(r: Req, jedis: Option<Conn>, j: Conn)     // has found the second command due
    | Finished
    | Updating(ops: seq<Op>)                        // has these steps of an update before it

  /** `msgs` records the messages accepted, `begun` the requests in the order of their first commands, `firsts`
      and `seconds` all commands sent on connections of the current and of the second ring, each in order. */
  datatype Sys = Sys(lock: RW.State, local: seq<Local>, center: Center, stores: Stores,
                     msgs: seq<Msg>, begun: seq<Req>, firsts: seq<Req>, seconds: seq<Req>, destroyed: nat)

  datatype Move =
    | LockMove(step: RW.Step)
    | Pick(t: nat, r: Req)
    | SendFirst(t: nat)
    | Look(t: nat)
    | SendSecond(t: nat)   // do_jedis_new_execute: on the second ring's connection
    | SendAgain(t: nat)    // the overloads: on the current ring's connection once more
    | Accept(t: nat, m: Msg)
    | Perform(t: nat)

  predicate Holds(s: Sys, t: nat, p: RW.Phase) {
    t < |s.lock.phase| && t < |s.local| && s.lock.phase[t] == p
  }

  predicate Enabled(s: Sys, mv: Move, md5: Md5) {
    match mv
    case LockMove(step) =>
      && RW.Enabled(s.lock, step) && step.t < |s.local|
      && (step.kind == RW.ReadUnlock ==> s.local[step.t] in {Quiet, Finished})
      && (step.kind == RW.WriteUnlock ==> s.local[step.t] in {Quiet, Updating([])})
    case Pick(t, r) => Holds(s, t, RW.Reading) && s.local[t] == Quiet
    case SendFirst(t) => Holds(s, t, RW.Reading) && s.local[t].Picked?
    case Look(t) =>
      Holds(s, t, RW.Reading) && s.local[t].Sent? && SecondDue(s.center, s.local[t].jedis, s.local[t].r, md5).Some?
    case SendSecond(t) => Holds(s, t, RW.Reading) && s.local[t].Due?
    case SendAgain(t) => Holds(s, t, RW.Reading) && s.local[t].Due?
    case Accept(t, m) => Holds(s, t, RW.Writing) && s.local[t] == Quiet && WellFormed(m.world.reply)
    case Perform(t) => Holds(s, t, RW.Writing) && s.local[t].Updating? && s.local[t].ops != []
  }

  function Next(s: Sys, mv: Move, md5: Md5): Sys
    requires Enabled(s, mv, md5)
  {
    match mv
    case LockMove(step) =>
      var unlocks := step.kind == RW.ReadUnlock || step.kind == RW.WriteUnlock;
      s.(lock := RW.Next(s.lock, step), local := if unlocks then s.local[step.t := Quiet] else s.local)
    case Pick(t, r) => s.(local := s.local[t := Picked(r, RouteKey(md5, s.center.cur, r.key))])
    case SendFirst(t) =>
      var l := s.local[t];
      s.(stores := SendOn(s.stores, l.jedis, l.r), begun := s.begun + [l.r], firsts := s.firsts + [l.r],
         local := s.local[t := Sent(l.r, l.jedis)])
    case Look(t) =>
      var l := s.local[t];
      s.(local := s.local[t := if SecondDue(s.center, l.jedis, l.r, md5) == Some(true)
                               then Due(l.r, l.jedis, RouteKey(md5, s.center.nxt, l.r.key).value) else Finished])
    case SendSecond(t) =>
      var l := s.local[t];
      s.(stores := Send(s.stores, l.j, l.r.key, l.r.cmd), seconds := s.seconds + [l.r], local := s.local[t := Finished])
    case SendAgain(t) =>
      var l := s.local[t];
      s.(stores := SendOn(s.stores, l.jedis, l.r), firsts := s.firsts + [l.r], local := s.local[t := Finished])
    case Accept(t, m) => s.(local := s.local[t := Updating(Program(m, md5))], msgs := s.msgs + [m])
    case Perform(t) =>
      var op := s.local[t].ops[0];
      s.(center := Apply(s.center, op), local := s.local[t := Updating(s.local[t].ops[1..])],
         destroyed := s.destroyed + if op == DestroyCur || op == DestroyNxt then 1 else 0)
  }

  predicate Allowed(s: Sys, run: seq<Move>, md5: Md5)
    decreases |run|
  {
    run == [] || (Enabled(s, run[0], md5) && Allowed(Next(s, run[0], md5), run[1..], md5))
  }

  function Exec(s: Sys, run: seq<Move>, md5: Md5): (s': Sys)
    requires Allowed(s, run, md5)
    ensures |s'.local| == |s.local|
    decreases |run|
  {
    if run == [] then s else Exec(Next(s, run[0], md5), run[1..], md5)
  }

  function Initial(n: nat, c: Center, stores: Stores): Sys {
    Sys(RW.Initial(n), seq(n, _ => Quiet), c, stores, [], [], [], [], 0)
  }

  // ---- invariants

  /** Inside a request only as a reader, inside an update only as a writer, and with the connections that
      the rings in place hold. */
  ghost predicate LocalOk(s: Sys, t: nat, md5: Md5)
    requires t < |s.local| && t < |s.lock.phase|
  {
    match s.local[t]
    case Quiet => true
    case Picked(r, jedis) => s.lock.phase[t] == RW.Reading && jedis == RouteKey(md5, s.center.cur, r.key)
    case Sent(r, jedis) => s.lock.phase[t] == RW.Reading && jedis == RouteKey(md5, s.center.cur, r.key)
    case Due(r, jedis, j) =>
      && s.lock.phase[t] == RW.Reading && jedis == RouteKey(md5, s.center.cur, r.key)
      && Some(j) == RouteKey(md5, s.center.nxt, r.key) && SecondDue(s.center, jedis, r, md5) == Some(true)
    case Finished => s.lock.phase[t] == RW.Reading
    case Updating(_) => s.lock.phase[t] == RW.Writing
  }

  ghost predicate LocalsOk(s: Sys, md5: Md5) {
    |s.local| == |s.lock.phase| && forall t :: 0 <= t < |s.local| ==> LocalOk(s, t, md5)
  }

  /** The center is `c` once the steps of an update that are still to come are done. */
  ghost predicate Toward(s: Sys, c: Center) {
    && ((forall t :: 0 <= t < |s.local| ==> !s.local[t].Updating?) ==> s.center == c)
    && (forall t :: 0 <= t < |s.local| && s.local[t].Updating? ==> ApplyAll(s.center, s.local[t].ops) == c)
  }

  /** The center is on its way to what the accepted messages make of `c0`. */
  ghost predicate History(s: Sys, c0: Center, md5: Md5) {
    RunOk(s.msgs) && Toward(s, HandleAll(c0, s.msgs, md5))
  }

  ghost predicate SysInv(s: Sys, c0: Center, md5: Md5) {
    RW.Inv(s.lock) && LocalsOk(s, md5) && History(s, c0, md5)
  }

  lemma InitialInv(n: nat, c0: Center, stores: Stores, md5: Md5)
    requires n < RW.DWORD_LIMIT
    ensures SysInv(Initial(n, c0, stores), c0, md5)
  {
    RW.InitialInv(n);
  }

  lemma {:induction false} HandleSnoc(c: Center, msgs: seq<Msg>, m: Msg, md5: Md5)
    requires RunOk(msgs) && WellFormed(m.world.reply)
    ensures RunOk(msgs + [m]) && HandleAll(c, msgs + [m], md5) == HandleMsg(HandleAll(c, msgs, md5), m, md5)
    decreases |msgs|
  {
    hide Handle;
    if msgs == [] {
      assert ([] + [m])[1..] == [];
    } else {
      assert forall i :: 0 <= i < |msgs[1..]| ==> msgs[1..][i] == msgs[i + 1];
      assert (msgs + [m])[1..] == msgs[1..] + [m];
      HandleSnoc(HandleMsg(c, msgs[0], md5), msgs[1..], m, md5);
    }
  }

  /** While a thread writes, no other thread is inside a request or an update. */
  lemma OnlyTheWriter(s: Sys, t: nat, u: nat, md5: Md5)
    requires RW.Inv(s.lock) && LocalsOk(s, md5) && Holds(s, t, RW.Writing) && u < |s.local| && u != t
    ensures s.local[u] == Quiet
  {
    hide RW.Inv, RouteKey, SecondDue;
    RWT.ExclusionAt(s.lock, t, u);
    assert LocalOk(s, u, md5);
  }

  lemma StepKeepsLock(s: Sys, mv: Move, md5: Md5)
    requires RW.Inv(s.lock) && Enabled(s, mv, md5)
    ensures RW.Inv(Next(s, mv, md5).lock)
  {
    hide RW.Inv, RouteKey, SecondDue, RW.Effect;
    if mv.LockMove? {
      KeepInv(s.lock, mv.step);
    }
  }

  lemma KeepInv(s: RW.State, step: RW.Step)
    requires RW.Inv(s) && RW.Enabled(s, step)
    ensures RW.Inv(RW.Next(s, step))
  {
    RW.StepKeepsCounters(s, step);
    RW.StepKeepsWakeUps(s, step);
  }

  lemma StepKeepsLocals(s: Sys, mv: Move, md5: Md5)
    requires RW.Inv(s.lock) && LocalsOk(s, md5) && Enabled(s, mv, md5)
    ensures LocalsOk(Next(s, mv, md5), md5)
  {
    hide RW.Inv, RouteKey, RW.TryRead, RW.TryWrite, RW.GiveUpRead, RW.GiveUpWrite, RW.UnlockRead, RW.UnlockWrite,
         Send, SendOn, Program;
    var s' := Next(s, mv, md5);
    forall u | 0 <= u < |s'.local| ensures LocalOk(s', u, md5) {
      assert LocalOk(s, u, md5);
      if mv.Perform? && u != mv.t {
        OnlyTheWriter(s, mv.t, u, md5);
      }
    }
  }

  lemma StepKeepsToward(s: Sys, mv: Move, c: Center, md5: Md5)
    requires RW.Inv(s.lock) && LocalsOk(s, md5) && Toward(s, c) && Enabled(s, mv, md5) && !mv.Accept?
    ensures Toward(Next(s, mv, md5), c)
  {
    hide RW.Inv, RouteKey, RW.Effect, SecondDue, Program, WellFormed;
    var s' := Next(s, mv, md5);
    match mv
    case Perform(t) =>
      forall u | 0 <= u < |s.local| && u != t ensures s.local[u] == Quiet {
        OnlyTheWriter(s, t, u, md5);
      }
      assert s'.local[t].Updating?;
    case LockMove(step) =>
      if step.kind == RW.WriteUnlock {
        forall u | 0 <= u < |s.local| && u != step.t ensures s.local[u] == Quiet {
          OnlyTheWriter(s, step.t, u, md5);
        }
      } else {
        assert forall u :: 0 <= u < |s.local| ==> s.local[u].Updating? ==> s'.local[u] == s.local[u];
        assert forall u :: 0 <= u < |s.local| ==> s'.local[u].Updating? ==> s'.local[u] == s.local[u];
      }
    case Pick(t, r) => OnlyReaders(s, s', t);
    case SendFirst(t) => OnlyReaders(s, s', t);
    case Look(t) => OnlyReaders(s, s', t);
    case SendSecond(t) => OnlyReaders(s, s', t);
    case SendAgain(t) => OnlyReaders(s, s', t);
  }

  /** A message is accepted when nobody else is inside, and then heads for its whole effect. */
  lemma AcceptHeadsFor(s: Sys, t: nat, m: Msg, c: Center, md5: Md5)
    requires RW.Inv(s.lock) && LocalsOk(s, md5) && Toward(s, c) && Enabled(s, Accept(t, m), md5)
    ensures s.center == c && (forall u :: 0 <= u < |s.local| ==> s.local[u] == Quiet)
    ensures Toward(Next(s, Accept(t, m), md5), HandleMsg(c, m, md5))
  {
    hide RW.Inv, RouteKey, Handle, Program, WellFormed, LocalsOk;
    forall u | 0 <= u < |s.local| ensures s.local[u] == Quiet {
      if u != t {
        OnlyTheWriter(s, t, u, md5);
      }
    }
    ProgramIsHandle(s.center, m, md5);
    assert Next(s, Accept(t, m), md5).local[t].Updating?;
  }

  lemma StepKeepsHistory(s: Sys, mv: Move, c0: Center, md5: Md5)
    requires SysInv(s, c0, md5) && Enabled(s, mv, md5)
    ensures History(Next(s, mv, md5), c0, md5)
  {
    hide RW.Inv, LocalsOk, RouteKey, RW.Effect, SecondDue, Handle, HandleAll, Program, WellFormed, Toward, RunOk;
    match mv
    case Accept(t, m) =>
      AcceptHeadsFor(s, t, m, HandleAll(c0, s.msgs, md5), md5);
      HandleSnoc(c0, s.msgs, m, md5);
    case _ => StepKeepsToward(s, mv, HandleAll(c0, s.msgs, md5), md5);
  }

  lemma OnlyReaders(s: Sys, s': Sys, t: nat)
    requires t < |s.local| == |s'.local| && !s.local[t].Updating? && !s'.local[t].Updating?
    requires forall u :: 0 <= u < |s.local| && u != t ==> s'.local[u] == s.local[u]
    ensures forall u :: 0 <= u < |s.local| && (s.local[u].Updating? || s'.local[u].Updating?) ==>
              s'.local[u] == s.local[u]
  {
  }

  lemma {:induction false} RunKeepsInv(s: Sys, run: seq<Move>, c0: Center, md5: Md5)
    requires SysInv(s, c0, md5) && Allowed(s, run, md5)
    ensures SysInv(Exec(s, run, md5), c0, md5)
    decreases |run|
  {
    hide SysInv, Enabled, Next;
    if run != [] {
      KeepsInv(s, run[0], c0, md5);
      RunKeepsInv(Next(s, run[0], md5), run[1..], c0, md5);
    }
  }

  lemma KeepsInv(s: Sys, mv: Move, c0: Center, md5: Md5)
    requires SysInv(s, c0, md5) && Enabled(s, mv, md5)
    ensures SysInv(Next(s, mv, md5), c0, md5)
  {
    hide RW.Inv, LocalsOk, History, Enabled, Next;
    StepKeepsLock(s, mv, md5);
    StepKeepsLocals(s, mv, md5);
    StepKeepsHistory(s, mv, c0, md5);
  }

  // ---- theorems

  /** While somebody reads, nobody is in the middle of an update. */
  lemma NoneUpdating(s: Sys, t: nat, md5: Md5)
    requires RW.Inv(s.lock) && LocalsOk(s, md5) && Holds(s, t, RW.Reading)
    ensures forall u :: 0 <= u < |s.local| ==> !s.local[u].Updating?
  {
    hide RW.Inv, RouteKey, SecondDue;
    forall u | 0 <= u < |s.local| ensures !s.local[u].Updating? {
      assert LocalOk(s, u, md5);
      if s.local[u].Updating? {
        RWT.ExclusionAt(s.lock, u, t);
      }
    }
  }

  /** No client ever sees a half-done update: whenever somebody holds the read guard, the rings and the state
      are those that the accepted messages make, each of them as a whole. */
  lemma ReadersSeeCompleteUpdates(n: nat, c0: Center, stores: Stores, run: seq<Move>, md5: Md5, t: nat)
    requires n < RW.DWORD_LIMIT && Allowed(Initial(n, c0, stores), run, md5)
    requires Holds(Exec(Initial(n, c0, stores), run, md5), t, RW.Reading)
    ensures var s := Exec(Initial(n, c0, stores), run, md5);
            RunOk(s.msgs) && s.center == HandleAll(c0, s.msgs, md5)
  {
    InitialInv(n, c0, stores, md5);
    RunKeepsInv(Initial(n, c0, stores), run, c0, md5);
    NoneUpdating(Exec(Initial(n, c0, stores), run, md5), t, md5);
  }

  // ---- how many rings are destroyed

  /** Each end message destroys a ring, and so does each start or change with a table that parses. */
  function Destroys(m: Msg): nat
    requires WellFormed(m.world.reply)
  {
    if m.channel == "shardchannel"
       && (m.value == "0" || (m.value in {"1", "3"} && Parse(m.world.reply, 0) != [])) then 1 else 0
  }

  function TotalDestroys(msgs: seq<Msg>): nat
    requires RunOk(msgs)
  {
    if msgs == [] then 0 else TotalDestroys(msgs[..|msgs| - 1]) + Destroys(msgs[|msgs| - 1])
  }

  function DestroysIn(ops: seq<Op>): nat
    decreases |ops|
  {
    if ops == [] then 0 else (if ops[0] == DestroyCur || ops[0] == DestroyNxt then 1 else 0) + DestroysIn(ops[1..])
  }

  lemma ProgramDestroys(m: Msg, md5: Md5)
    requires WellFormed(m.world.reply)
    ensures DestroysIn(Program(m, md5)) == Destroys(m)
  {
    hide Parse, RingOf, ConnsOf, RebuildOk;
    var ring := ConnsOf(RingOf(md5, Parse(m.world.reply, 0), m.world.up));
    DestroysOf(DestroyNxt, InstallNxt(ring), []);
    DestroysOf(DestroyNxt, InstallNxt(ring), [SetState(SYNING)]);
    DestroysOf(DestroyCur, InstallCur(ring), []);
    DestroysOf(DestroyCur, Swap, [SetState(NORMAL)]);
    assert DestroysIn([SetState(SYNING)]) == DestroysIn([SetState(NORMAL)]) == 0;
    assert [] + [SetState(SYNING)] == [SetState(SYNING)];
    assert [DestroyNxt, InstallNxt(ring)] + [SetState(SYNING)] == [DestroyNxt, InstallNxt(ring), SetState(SYNING)];
  }

  lemma DestroysOf(a: Op, b: Op, rest: seq<Op>)
    requires !b.DestroyCur? && !b.DestroyNxt?
    ensures DestroysIn([a, b] + rest) == (if a == DestroyCur || a == DestroyNxt then 1 else 0) + DestroysIn(rest)
    ensures |rest| == 1 ==> [a, b] + rest == [a, b, rest[0]]
    ensures rest == [] ==> [a, b] + rest == [a, b]
  {
    assert ([a, b] + rest)[1..] == [b] + rest;
    assert ([b] + rest)[1..] == rest;
  }

  /** The rings destroyed so far and those that the update under way still destroys are the messages' doing. */
  ghost predicate DestroyedCounts(s: Sys) {
    && RunOk(s.msgs)
    && ((forall t :: 0 <= t < |s.local| ==> !s.local[t].Updating?) ==> s.destroyed == TotalDestroys(s.msgs))
    && (forall t :: 0 <= t < |s.local| && s.local[t].Updating? ==>
          s.destroyed + DestroysIn(s.local[t].ops) == TotalDestroys(s.msgs))
  }

  lemma StepKeepsDestroyed(s: Sys, mv: Move, md5: Md5)
    requires RW.Inv(s.lock) && LocalsOk(s, md5) && DestroyedCounts(s) && Enabled(s, mv, md5)
    ensures DestroyedCounts(Next(s, mv, md5))
  {
    hide RW.Inv, RouteKey, RW.Effect, SecondDue, Program, WellFormed, Destroys;
    var s' := Next(s, mv, md5);
    match mv
    case Accept(t, m) =>
      forall u | 0 <= u < |s.local| && u != t ensures s.local[u] == Quiet {
        OnlyTheWriter(s, t, u, md5);
      }
      ProgramDestroys(m, md5);
      assert s'.msgs[..|s'.msgs| - 1] == s.msgs;
      assert s'.local[t].Updating?;
    case Perform(t) =>
      forall u | 0 <= u < |s.local| && u != t ensures s.local[u] == Quiet {
        OnlyTheWriter(s, t, u, md5);
      }
      assert s'.local[t].Updating?;
    case LockMove(step) =>
      if step.kind == RW.WriteUnlock {
        forall u | 0 <= u < |s.local| && u != step.t ensures s.local[u] == Quiet {
          OnlyTheWriter(s, step.t, u, md5);
        }
      } else {
        assert forall u :: 0 <= u < |s.local| ==> s.local[u].Updating? ==> s'.local[u] == s.local[u];
        assert forall u :: 0 <= u < |s.local| ==> s'.local[u].Updating? ==> s'.local[u] == s.local[u];
      }
    case Pick(t, r) => OnlyReaders(s, s', t);
    case SendFirst(t) => OnlyReaders(s, s', t);
    case Look(t) => OnlyReaders(s, s', t);
    case SendSecond(t) => OnlyReaders(s, s', t);
    case SendAgain(t) => OnlyReaders(s, s', t);
  }

  lemma {:induction false} RunKeepsDestroyed(s: Sys, run: seq<Move>, c0: Center, md5: Md5)
    requires SysInv(s, c0, md5) && DestroyedCounts(s) && Allowed(s, run, md5)
    ensures DestroyedCounts(Exec(s, run, md5))
    decreases |run|
  {
    hide DestroyedCounts, Enabled, Next, RW.Inv, LocalsOk, History;
    if run != [] {
      KeepsInv(s, run[0], c0, md5);
      StepKeepsDestroyed(s, run[0], md5);
      RunKeepsDestroyed(Next(s, run[0], md5), run[1..], c0, md5);
    }
  }

  /** Whenever somebody reads, the number of rings destroyed is what the accepted messages make it. */
  lemma ReadersSeeAllDestroyed(n: nat, c0: Center, stores: Stores, run: seq<Move>, md5: Md5, t: nat)
    requires n < RW.DWORD_LIMIT && Allowed(Initial(n, c0, stores), run, md5)
    requires Holds(Exec(Initial(n, c0, stores), run, md5), t, RW.Reading)
    ensures var s := Exec(Initial(n, c0, stores), run, md5);
            RunOk(s.msgs) && s.destroyed == TotalDestroys(s.msgs)
  {
    InitialInv(n, c0, stores, md5);
    RunKeepsInv(Initial(n, c0, stores), run, c0, md5);
    RunKeepsDestroyed(Initial(n, c0, stores), run, c0, md5);
    NoneUpdating(Exec(Initial(n, c0, stores), run, md5), t, md5);
  }

  // ---- one request

  /** The thread does not give its read guard back in this run. */
  ghost predicate Keeps(run: seq<Move>, t: nat) {
    forall i :: 0 <= i < |run| ==> run[i] != LockMove(RW.Step(RW.ReadUnlock, t))
  }

  /** From the moment a client holds the read guard until it releases it, whatever anybody else does, neither
      ring nor the state changes and no ring is destroyed: the request runs under one snapshot. */
  lemma {:induction false} GuardedSnapshot(s: Sys, run: seq<Move>, c0: Center, md5: Md5, t: nat)
    requires SysInv(s, c0, md5) && Allowed(s, run, md5) && Holds(s, t, RW.Reading) && Keeps(run, t)
    ensures var s' := Exec(s, run, md5);
            Holds(s', t, RW.Reading) && s'.center == s.center && s'.destroyed == s.destroyed && s'.msgs == s.msgs
    decreases |run|
  {
    hide SysInv, Enabled, Next;
    if run != [] {
      SnapshotStep(s, run[0], c0, md5, t);
      KeepsInv(s, run[0], c0, md5);
      assert forall i :: 0 <= i < |run[1..]| ==> run[1..][i] == run[i + 1];
      GuardedSnapshot(Next(s, run[0], md5), run[1..], c0, md5, t);
    }
  }

  lemma SnapshotStep(s: Sys, mv: Move, c0: Center, md5: Md5, t: nat)
    requires SysInv(s, c0, md5) && Enabled(s, mv, md5) && Holds(s, t, RW.Reading)
    requires mv != LockMove(RW.Step(RW.ReadUnlock, t))
    ensures var s' := Next(s, mv, md5);
            Holds(s', t, RW.Reading) && s'.center == s.center && s'.destroyed == s.destroyed && s'.msgs == s.msgs
  {
    hide RW.Inv, RouteKey, SecondDue, Program, RW.TryRead, RW.TryWrite, History, LocalsOk;
    if mv.Accept? || mv.Perform? {
      RWT.ExclusionAt(s.lock, mv.t, t);
    }
  }

  /** In every reachable state a client inside a request holds the connections of the rings in place, so none
      of them has been destroyed. */
  lemma ChosenConnectionsAreInPlace(n: nat, c0: Center, stores: Stores, run: seq<Move>, md5: Md5, t: nat)
    requires n < RW.DWORD_LIMIT && Allowed(Initial(n, c0, stores), run, md5)
    requires t < |Exec(Initial(n, c0, stores), run, md5).local|
    ensures var s := Exec(Initial(n, c0, stores), run, md5);
            match s.local[t]
            case Picked(r, jedis) => jedis == RouteKey(md5, s.center.cur, r.key)
            case Sent(r, jedis) => jedis == RouteKey(md5, s.center.cur, r.key)
            case Due(r, jedis, j) =>
              jedis == RouteKey(md5, s.center.cur, r.key) && Some(j) == RouteKey(md5, s.center.nxt, r.key)
            case _ => true
  {
    InitialInv(n, c0, stores, md5);
    RunKeepsInv(Initial(n, c0, stores), run, c0, md5);
    assert LocalOk(Exec(Initial(n, c0, stores), run, md5), t, md5);
  }

  /** If the messages accepted so far conform, no client can be about to read the name of a NULL connection. */
  lemma ConformingClientsNeverStick(n: nat, c0: Center, stores: Stores, run: seq<Move>, md5: Md5, t: nat)
    requires n < RW.DWORD_LIMIT && Allowed(Initial(n, c0, stores), run, md5) && Settled(c0)
    requires ConformingRun(c0, Exec(Initial(n, c0, stores), run, md5).msgs, md5)
    requires var s := Exec(Initial(n, c0, stores), run, md5); t < |s.local| && s.local[t].Sent?
    ensures Enabled(Exec(Initial(n, c0, stores), run, md5), Look(t), md5)
  {
    hide RouteKey, HandleAll, ConformingRun;
    InitialInv(n, c0, stores, md5);
    RunKeepsInv(Initial(n, c0, stores), run, c0, md5);
    var s := Exec(Initial(n, c0, stores), run, md5);
    assert LocalOk(s, t, md5);
    ReadersSeeCompleteUpdates(n, c0, stores, run, md5, t);
    ConformingRunsKeepSettled(c0, s.msgs, md5);
    NonEmptyRoutes(s.center.cur, s.local[t].r.key, md5);
  }
}
