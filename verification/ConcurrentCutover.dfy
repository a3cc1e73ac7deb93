/** The cutover with many clients at once. The read guard is shared, so two requests for one key may be under
    way together; what the two rings' servers then hold, and when they agree. */
module ConcurrentCutover {
  import opened Wrappers
  import opened Hashing
  import opened Ring
  import opened Shards
  import opened Center
  import opened Cutover
  import opened Guarded
  import RW = RWLockSteps

  /** A stretch of a run in which no message is accepted; an update that is under way may go on. */
  ghost predicate NoAccepts(run: seq<Move>) {
    forall i :: 0 <= i < |run| ==> !run[i].Accept?
  }

  /** All second commands go to the second ring: no client uses the overloads. */
  ghost predicate PairOnly(run: seq<Move>) {
    forall i :: 0 <= i < |run| ==> !run[i].SendAgain?
  }

  /** A resharding in progress, both rings serving, with connections named after their addresses. */
  ghost predicate Resharding(c: Center) {
    Settled(c) && c.state == SYNING && WellNamed(c.cur) && WellNamed(c.nxt)
  }

  /** The current ring serves, and a resharding has its second ring. */
  ghost predicate Serving(c: Center) {
    c.cur != map[] && (c.state == SYNING ==> Resharding(c))
  }

  /** The center is `c`, or an update is about to make it so. */
  ghost predicate Base(s: Sys, c: Center, md5: Md5) {
    RW.Inv(s.lock) && LocalsOk(s, md5) && Toward(s, c)
  }

  lemma StepKeepsBase(s: Sys, mv: Move, c: Center, md5: Md5)
    requires Base(s, c, md5) && Enabled(s, mv, md5) && !mv.Accept?
    ensures Base(Next(s, mv, md5), c, md5)
  {
    hide RW.Inv, LocalsOk, Toward, RouteKey, SecondDue, RW.Effect;
    StepKeepsLock(s, mv, md5);
    StepKeepsLocals(s, mv, md5);
    StepKeepsToward(s, mv, c, md5);
  }

  /** A reader finds the center in place. */
  lemma ReaderSees(s: Sys, t: nat, c: Center, md5: Md5)
    requires Base(s, c, md5) && Holds(s, t, RW.Reading)
    ensures s.center == c && LocalOk(s, t, md5)
  {
    hide RW.Inv, RouteKey, SecondDue;
    NoneUpdating(s, t, md5);
  }

  // ---- what the servers hold

  /** The records only grow. */
  ghost predicate Grown(from: Sys, s: Sys) {
    from.firsts <= s.firsts && from.seconds <= s.seconds
  }

  /** The commands sent since `from` on connections of the current ring. */
  ghost function Sent(from: Sys, s: Sys): seq<Req>
    requires Grown(from, s)
  {
    s.firsts[|from.firsts|..]
  }

  /** The commands sent since `from` on connections of the second ring. */
  ghost function Mirrored(from: Sys, s: Sys): seq<Req>
    requires Grown(from, s)
  {
    s.seconds[|from.seconds|..]
  }

  lemma StepGrows(from: Sys, s: Sys, mv: Move, md5: Md5)
    requires Grown(from, s) && Enabled(s, mv, md5)
    ensures var s' := Next(s, mv, md5);
            && Grown(from, s')
            && Sent(from, s') == (if mv.SendFirst? || mv.SendAgain? then Sent(from, s) + [s.local[mv.t].r]
                                  else Sent(from, s))
            && Mirrored(from, s') == if mv.SendSecond? then Mirrored(from, s) + [s.local[mv.t].r] else Mirrored(from, s)
  {
    hide RouteKey, SecondDue, RW.Effect, Send, SendOn, Apply, Program;
  }

  /** Each server holds what its own sequence of commands makes of the value it had at `from`. */
  ghost predicate Replays(from: Sys, s: Sys, c: Center, key: string, md5: Md5)
    requires Serving(c) && Grown(from, s)
  {
    var a := On(c.cur, key, md5);
    && Read(s.stores, a, key) == Replay(Read(from.stores, a, key), Sent(from, s), key, true, false)
    && (c.state == SYNING ==>
          var b := On(c.nxt, key, md5);
          AddrOf(a) != AddrOf(b) ==>
            Read(s.stores, b, key) == Replay(Read(from.stores, b, key), Mirrored(from, s), key, true, false))
  }

  lemma {:induction false} ReplaySnoc(v: Option<Value>, rs: seq<Req>, r: Req, key: string)
    ensures Replay(v, rs + [r], key, true, false) == ReplayOne(Replay(v, rs, key, true, false), r, key, true, false)
    decreases |rs|
  {
    hide ReplayOne;
    if rs == [] {
      assert ([] + [r])[1..] == [];
    } else {
      assert (rs + [r])[1..] == rs[1..] + [r];
      ReplaySnoc(ReplayOne(v, rs[0], key, true, false), rs[1..], r, key);
    }
  }

  lemma StepKeepsReplays(from: Sys, s: Sys, mv: Move, c: Center, key: string, md5: Md5)
    requires Base(s, c, md5) && Serving(c) && Grown(from, s) && Replays(from, s, c, key, md5)
    requires Enabled(s, mv, md5) && !mv.Accept?
    ensures Grown(from, Next(s, mv, md5)) && Replays(from, Next(s, mv, md5), c, key, md5)
  {
    hide RW.Inv, LocalsOk, Toward, WellNamed, RouteKey, RW.Effect, Replay, Send, Read, AddrOf, Eval, Sent, Mirrored,
         Grown;
    StepGrows(from, s, mv, md5);
    match mv
    case SendFirst(t) => FirstSent(from, s, t, c, key, md5);
    case SendAgain(t) => FirstSent(from, s, t, c, key, md5);
    case SendSecond(t) => SecondSent(from, s, t, c, key, md5);
    case _ =>
  }

  /** A command on the current ring's connection, be it the first one or its repetition. */
  lemma FirstSent(from: Sys, s: Sys, t: nat, c: Center, key: string, md5: Md5)
    requires Base(s, c, md5) && Serving(c) && Grown(from, s) && Replays(from, s, c, key, md5)
    requires Holds(s, t, RW.Reading) && (s.local[t].Picked? || s.local[t].Due?)
    ensures var r, a := s.local[t].r, On(c.cur, key, md5);
            var stores := SendOn(s.stores, s.local[t].jedis, r);
            && Read(stores, a, key) == Replay(Read(from.stores, a, key), Sent(from, s) + [r], key, true, false)
            && (c.state == SYNING && AddrOf(a) != AddrOf(On(c.nxt, key, md5)) ==>
                  Read(stores, On(c.nxt, key, md5), key) == Read(s.stores, On(c.nxt, key, md5), key))
  {
    hide RW.Inv, LocalsOk, Toward, WellNamed, RouteKey, Replay, Send, Read, AddrOf, Eval, Sent, Mirrored, Grown;
    ReaderSees(s, t, c, md5);
    var r, a := s.local[t].r, On(c.cur, key, md5);
    NonEmptyRoutes(c.cur, r.key, md5);
    var j := On(c.cur, r.key, md5);
    SendEffect(s.stores, j, r.key, r.cmd, a, key);
    if c.state == SYNING {
      SendEffect(s.stores, j, r.key, r.cmd, On(c.nxt, key, md5), key);
    }
    ReplaySnoc(Read(from.stores, a, key), Sent(from, s), r, key);
  }

  lemma SecondSent(from: Sys, s: Sys, t: nat, c: Center, key: string, md5: Md5)
    requires Base(s, c, md5) && Serving(c) && Grown(from, s) && Replays(from, s, c, key, md5)
    requires Holds(s, t, RW.Reading) && s.local[t].Due?
    ensures c.state == SYNING
    ensures var r, a, b := s.local[t].r, On(c.cur, key, md5), On(c.nxt, key, md5);
            var stores := Send(s.stores, s.local[t].j, r.key, r.cmd);
            && Read(stores, a, key) == Read(s.stores, a, key)
            && (AddrOf(a) != AddrOf(b) ==>
                  Read(stores, b, key) == Replay(Read(from.stores, b, key), Mirrored(from, s) + [r], key, true, false))
  {
    hide RW.Inv, LocalsOk, Toward, WellNamed, RouteKey, Replay, Send, Read, AddrOf, Eval, Sent, Mirrored, Grown;
    ReaderSees(s, t, c, md5);
    var r, j := s.local[t].r, s.local[t].j;
    SecondIsElsewhere(c, s.local[t].jedis, r, j, md5);
    var a, b := On(c.cur, key, md5), On(c.nxt, key, md5);
    SendEffect(s.stores, j, r.key, r.cmd, a, key);
    SendEffect(s.stores, j, r.key, r.cmd, b, key);
    ReplaySnoc(Read(from.stores, b, key), Mirrored(from, s), r, key);
  }

  /** A second command that is due goes to another server than the first. */
  lemma SecondIsElsewhere(c: Center, jedis: Option<Conn>, r: Req, j: Conn, md5: Md5)
    requires Resharding(c) && jedis == RouteKey(md5, c.cur, r.key) && Some(j) == RouteKey(md5, c.nxt, r.key)
    requires SecondDue(c, jedis, r, md5) == Some(true)
    ensures j == On(c.nxt, r.key, md5) && AddrOf(j) != AddrOf(On(c.cur, r.key, md5)) && IsWrite(r.cmd)
  {
    hide RouteKey, AddressText;
    OnRing(c.cur, r.key, md5);
    OnRing(c.nxt, r.key, md5);
  }

  /** However the requests of pairs and overloads interleave: the current ring's server has run all commands
      in the order in which they were sent to it, and during a resharding a different second server the
      announced writes in the order in which they were sent there. */
  lemma {:induction false} ConcurrentRun(from: Sys, s: Sys, run: seq<Move>, c: Center, key: string, md5: Md5)
    requires Base(s, c, md5) && Serving(c) && Grown(from, s) && Replays(from, s, c, key, md5)
    requires Allowed(s, run, md5) && NoAccepts(run)
    ensures var s' := Exec(s, run, md5);
            Base(s', c, md5) && Grown(from, s') && Replays(from, s', c, key, md5)
    decreases |run|
  {
    hide Base, Serving, Replays, Grown, Enabled, Next;
    if run != [] {
      assert !run[0].Accept?;
      StepKeepsBase(s, run[0], c, md5);
      StepKeepsReplays(from, s, run[0], c, key, md5);
      assert forall i :: 0 <= i < |run[1..]| ==> run[1..][i] == run[i + 1];
      ConcurrentRun(from, Next(s, run[0], md5), run[1..], c, key, md5);
    }
  }

  lemma StartReplays(s: Sys, c: Center, key: string, md5: Md5)
    requires Serving(c)
    ensures Grown(s, s) && Replays(s, s, c, key, md5)
  {
  }

  // ---- two writers of one key

  lemma {:induction false} Along(states: seq<Sys>, run: seq<Move>, md5: Md5)
    requires |states| == |run| + 1
    requires forall i :: 0 <= i < |run| ==>
               Enabled(states[i], run[i], md5) && Next(states[i], run[i], md5) == states[i + 1]
    ensures Allowed(states[0], run, md5) && Exec(states[0], run, md5) == states[|run|]
    decreases |run|
  {
    hide Enabled, Next;
    if run != [] {
      Along(states[1..], run[1..], md5);
    }
  }

  lemma {:induction false} RunConcat(s: Sys, a: seq<Move>, b: seq<Move>, md5: Md5)
    requires Allowed(s, a, md5) && Allowed(Exec(s, a, md5), b, md5)
    ensures Allowed(s, a + b, md5) && Exec(s, a + b, md5) == Exec(Exec(s, a, md5), b, md5)
    decreases |a|
  {
    hide Enabled, Next;
    if a == [] {
      assert a + b == b;
    } else {
      RunConcat(Next(s, a[0], md5), a[1..], b, md5);
      assert (a + b)[1..] == a[1..] + b;
    }
  }

  /** Two clients that have both sent the first command of a write to one key, `t` before `u`. */
  lemma BothDue(s: Sys, t: nat, u: nat, p: Req, q: Req, md5: Md5) returns (run: seq<Move>, s': Sys)
    requires Base(s, s.center, md5) && Resharding(s.center)
    requires t != u && Holds(s, t, RW.Reading) && Holds(s, u, RW.Reading) && s.local[t] == Quiet && s.local[u] == Quiet
    requires p.key == q.key && IsWrite(p.cmd) && IsWrite(q.cmd)
    requires On(s.center.cur, p.key, md5).name != On(s.center.nxt, p.key, md5).name
    ensures Allowed(s, run, md5) && NoAccepts(run) && PairOnly(run) && s' == Exec(s, run, md5)
    ensures s'.center == s.center && s'.lock == s.lock && |s'.local| == |s.local|
    ensures s'.local[t].Due? && s'.local[t].r == p && s'.local[u].Due? && s'.local[u].r == q
    ensures forall v :: 0 <= v < |s.local| && v != t && v != u ==> s'.local[v] == s.local[v]
    ensures s'.begun == s.begun + [p, q] && s'.firsts == s.firsts + [p, q] && s'.seconds == s.seconds
  {
    hide RW.Inv, LocalsOk, Toward, RouteKey, WellNamed, Send, SendOn, RW.Enabled, RW.Next, Exec, Allowed;
    run := [Pick(t, p), Pick(u, q), SendFirst(t), SendFirst(u), Look(t), Look(u)];
    KeyRoutes(s.center, p.key, md5);
    var s1 := Next(s, run[0], md5);
    var s2 := Next(s1, run[1], md5);
    var s3 := Next(s2, run[2], md5);
    var s4 := Next(s3, run[3], md5);
    var s5 := Next(s4, run[4], md5);
    s' := Next(s5, run[5], md5);
    Along([s, s1, s2, s3, s4, s5, s'], run, md5);
    assert s'.begun == s.begun + [p] + [q] && s'.firsts == s.firsts + [p] + [q];
  }

  /** Client `u` overtakes client `t` between its two sends. Both send their second command by the pair, or
      both by the overloads. */
  lemma OvertakingRun(s: Sys, t: nat, u: nat, p: Req, q: Req, again: bool, md5: Md5) returns (run: seq<Move>, s': Sys)
    requires Base(s, s.center, md5) && Resharding(s.center)
    requires t != u && Holds(s, t, RW.Reading) && Holds(s, u, RW.Reading) && s.local[t] == Quiet && s.local[u] == Quiet
    requires p.key == q.key && IsWrite(p.cmd) && IsWrite(q.cmd)
    requires On(s.center.cur, p.key, md5).name != On(s.center.nxt, p.key, md5).name
    ensures Allowed(s, run, md5) && NoAccepts(run) && (!again ==> PairOnly(run)) && s' == Exec(s, run, md5)
    ensures s'.center == s.center && |s'.local| == |s.local| && s'.local[t] == Finished && s'.local[u] == Finished
    ensures forall v :: 0 <= v < |s.local| && v != t && v != u ==> s'.local[v] == s.local[v]
    ensures s'.begun == s.begun + [p, q]
    ensures s'.firsts == s.firsts + (if again then [p, q, q, p] else [p, q])
    ensures s'.seconds == if again then s.seconds else s.seconds + [q, p]
  {
    hide RW.Inv, LocalsOk, Toward, RouteKey, WellNamed, Send, SendOn, RW.Enabled, RW.Next, Exec, Allowed, Base,
         Resharding;
    var first, s1 := BothDue(s, t, u, p, q, md5);
    var last := if again then [SendAgain(u), SendAgain(t)] else [SendSecond(u), SendSecond(t)];
    var s2 := Next(s1, last[0], md5);
    s' := Next(s2, last[1], md5);
    Along([s1, s2, s'], last, md5);
    RunConcat(s, first, last, md5);
    run := first + last;
    assert s'.firsts == if again then s.firsts + [p, q] + [q] + [p] else s.firsts + [p, q];
    assert s'.seconds == if again then s.seconds else s.seconds + [q] + [p];
  }

  /** Whenever two clients hold the read guard during a resharding and write different values to a key whose
      servers have different names, the old ring's server can end up with the one value and the new ring's
      server with the other, with both requests done. */
  lemma OverlappingWritesCanDiverge(s: Sys, t: nat, u: nat, key: string, x: string, y: string, md5: Md5)
    returns (run: seq<Move>, s': Sys)
    requires Base(s, s.center, md5) && Resharding(s.center) && x != y
    requires t != u && Holds(s, t, RW.Reading) && Holds(s, u, RW.Reading) && s.local[t] == Quiet && s.local[u] == Quiet
    requires On(s.center.cur, key, md5).name != On(s.center.nxt, key, md5).name
    ensures Allowed(s, run, md5) && NoAccepts(run) && PairOnly(run) && s' == Exec(s, run, md5)
    ensures s'.center == s.center && |s'.local| == |s.local| && s'.local[t] == Finished && s'.local[u] == Finished
    ensures forall v :: 0 <= v < |s.local| && v != t && v != u ==> s'.local[v] == s.local[v]
    ensures s'.firsts == s.firsts + [Req(key, Set(x)), Req(key, Set(y))]
    ensures Read(s'.stores, On(s.center.cur, key, md5), key) == Some(Text(y))
    ensures Read(s'.stores, On(s.center.nxt, key, md5), key) == Some(Text(x))
  {
    hide RW.Inv, LocalsOk, Toward, RouteKey, WellNamed, Replay, Read, Exec, Allowed, AddrOf;
    var p, q := Req(key, Set(x)), Req(key, Set(y));
    run, s' := OvertakingRun(s, t, u, p, q, false, md5);
    StartReplays(s, s.center, key, md5);
    ConcurrentRun(s, s, run, s.center, key, md5);
    assert Sent(s, s') == [p, q] && Mirrored(s, s') == [q, p];
    BothOrders(Read(s.stores, On(s.center.cur, key, md5), key), p, q, key);
    BothOrders(Read(s.stores, On(s.center.nxt, key, md5), key), q, p, key);
    DifferentNames(s.center, key, md5);
  }

  lemma KeyRoutes(c: Center, key: string, md5: Md5)
    requires Resharding(c)
    ensures RouteKey(md5, c.cur, key) == Some(On(c.cur, key, md5))
            && RouteKey(md5, c.nxt, key) == Some(On(c.nxt, key, md5))
  {
  }

  lemma DifferentNames(c: Center, key: string, md5: Md5)
    requires Resharding(c)
    ensures On(c.cur, key, md5).name != On(c.nxt, key, md5).name ==>
              AddrOf(On(c.cur, key, md5)) != AddrOf(On(c.nxt, key, md5))
  {
    SameServerSameName(c, key, md5);
  }

  lemma BothOrders(v: Option<Value>, p: Req, q: Req, key: string)
    requires p.key == q.key == key && p.cmd.Set? && q.cmd.Set?
    ensures Replay(v, [p, q], key, true, false) == Some(Text(q.cmd.text))
  {
    assert [p, q][1..] == [q] && [q][1..] == [];
    assert LastUpdate([q], key) == Some(q.cmd);
    LastSetWins(v, [p, q], key, true, false);
  }

  // ---- writers that do not overlap

  /** The thread is between choosing its connection and its last send of a write to the key. */
  ghost predicate Busy(s: Sys, t: nat, key: string)
    requires t < |s.local|
  {
    match s.local[t]
    case Picked(r, _) => r.key == key && IsWrite(r.cmd)
    case Sent(r, _) => r.key == key && IsWrite(r.cmd)
    case Due(r, _, _) => r.key == key && IsWrite(r.cmd)
    case _ => false
  }

  /** The thread has sent the first command of a write to the key, but not the second. */
  ghost predicate HalfDone(s: Sys, t: nat, key: string)
    requires t < |s.local|
  {
    Busy(s, t, key) && !s.local[t].Picked?
  }

  ghost predicate Alone(s: Sys, key: string) {
    forall t, u :: 0 <= t < |s.local| && 0 <= u < |s.local| && Busy(s, t, key) && Busy(s, u, key) ==> t == u
  }

  ghost predicate AloneAlong(s: Sys, run: seq<Move>, key: string, md5: Md5)
    requires Allowed(s, run, md5)
    decreases |run|
  {
    Alone(s, key) && (run == [] || AloneAlong(Next(s, run[0], md5), run[1..], key, md5))
  }

  /** The writes to one key among the commands. */
  function Writes(rs: seq<Req>, key: string): seq<Req>
    decreases |rs|
  {
    if rs == [] then [] else (if rs[0].key == key && IsWrite(rs[0].cmd) then [rs[0]] else []) + Writes(rs[1..], key)
  }

  lemma {:induction false} WritesSnoc(rs: seq<Req>, r: Req, key: string)
    ensures Writes(rs + [r], key) == Writes(rs, key) + if r.key == key && IsWrite(r.cmd) then [r] else []
    decreases |rs|
  {
    if rs == [] {
      assert ([] + [r])[1..] == [];
    } else {
      assert (rs + [r])[1..] == rs[1..] + [r];
      WritesSnoc(rs[1..], r, key);
    }
  }

  /** The second sends follow the first sends: they are the same writes, but for one under way. */
  ghost predicate InStep(from: Sys, s: Sys, key: string)
    requires Grown(from, s)
  {
    var fs, ss := Writes(Sent(from, s), key), Writes(Mirrored(from, s), key);
    && (forall t :: 0 <= t < |s.local| && HalfDone(s, t, key) ==> fs == ss + [s.local[t].r])
    && ((forall t :: 0 <= t < |s.local| ==> !HalfDone(s, t, key)) ==> fs == ss)
  }

  lemma StepKeepsInStep(from: Sys, s: Sys, mv: Move, c: Center, key: string, md5: Md5)
    requires Base(s, c, md5) && Resharding(c) && Grown(from, s) && InStep(from, s, key)
    requires Enabled(s, mv, md5) && !mv.Accept? && !mv.SendAgain?
    requires Alone(s, key) && On(c.cur, key, md5).name != On(c.nxt, key, md5).name
    ensures Grown(from, Next(s, mv, md5)) && InStep(from, Next(s, mv, md5), key)
  {
    hide RW.Inv, LocalsOk, Toward, WellNamed, RouteKey, RW.Effect, Send, Settled, Sent, Mirrored, Grown, Writes;
    var s' := Next(s, mv, md5);
    StepGrows(from, s, mv, md5);
    match mv
    case LockMove(step) =>
      LocalsAreOk(s, md5);
      Unchanged(from, s, s', key);
    case Pick(t, r) => Unchanged(from, s, s', key);
    case Perform(t) => Unchanged(from, s, s', key);
    case SendFirst(t) =>
      WritesSnoc(Sent(from, s), s.local[t].r, key);
      OthersIdle(s, t, key);
      Changed(from, s, s', t, key);
    case Look(t) =>
      ReaderSees(s, t, c, md5);
      if HalfDone(s, t, key) {
        KeyRoutes(c, key, md5);
        assert s'.local[t].Due?;
      }
      Unchanged(from, s, s', key);
    case SendSecond(t) =>
      ReaderSees(s, t, c, md5);
      WritesSnoc(Mirrored(from, s), s.local[t].r, key);
      OthersIdle(s, t, key);
      Changed(from, s, s', t, key);
  }

  lemma LocalsAreOk(s: Sys, md5: Md5)
    requires LocalsOk(s, md5)
    ensures |s.local| == |s.lock.phase| && forall t :: 0 <= t < |s.local| ==> LocalOk(s, t, md5)
  {
  }

  lemma OthersIdle(s: Sys, t: nat, key: string)
    requires Alone(s, key) && t < |s.local|
    ensures Busy(s, t, key) ==> forall u :: 0 <= u < |s.local| && u != t ==> !HalfDone(s, u, key)
  {
  }

  lemma Unchanged(from: Sys, s: Sys, s': Sys, key: string)
    requires Grown(from, s) && Grown(from, s') && InStep(from, s, key) && |s'.local| == |s.local|
    requires Sent(from, s') == Sent(from, s) && Mirrored(from, s') == Mirrored(from, s)
    requires forall t :: 0 <= t < |s.local| ==> HalfDone(s', t, key) == HalfDone(s, t, key)
    requires forall t :: 0 <= t < |s.local| && HalfDone(s, t, key) && HalfDone(s', t, key) ==>
               s'.local[t].r == s.local[t].r
    ensures InStep(from, s', key)
  {
  }

  /** One thread sends; if it writes to the key, no other thread is under way with it. */
  lemma Changed(from: Sys, s: Sys, s': Sys, t: nat, key: string)
    requires Grown(from, s) && Grown(from, s') && InStep(from, s, key) && |s'.local| == |s.local| && t < |s.local|
    requires forall u :: 0 <= u < |s.local| && u != t ==> s'.local[u] == s.local[u]
    requires Busy(s, t, key) ==> forall u :: 0 <= u < |s.local| && u != t ==> !HalfDone(s, u, key)
    requires var fs, ss := Writes(Sent(from, s), key), Writes(Mirrored(from, s), key);
             var fs', ss' := Writes(Sent(from, s'), key), Writes(Mirrored(from, s'), key);
             if !Busy(s, t, key) then !HalfDone(s', t, key) && fs' == fs && ss' == ss
             else if s.local[t].Picked? then
               HalfDone(s', t, key) && s'.local[t].r == s.local[t].r && fs' == fs + [s.local[t].r] && ss' == ss
             else !HalfDone(s', t, key) && fs' == fs && ss' == ss + [s.local[t].r]
    ensures InStep(from, s', key)
  {
    hide Sent, Mirrored, Grown, Writes;
    forall u | 0 <= u < |s.local| && u != t ensures HalfDone(s', u, key) == HalfDone(s, u, key) {
    }
    if Busy(s, t, key) && s.local[t].Picked? {
      assert forall u :: 0 <= u < |s.local| ==> !HalfDone(s, u, key);
    } else if Busy(s, t, key) {
      assert HalfDone(s, t, key);
      assert forall u :: 0 <= u < |s.local| ==> !HalfDone(s', u, key);
    } else {
      assert !HalfDone(s, t, key);
    }
  }

  lemma {:induction false} RunKeepsInStep(from: Sys, s: Sys, run: seq<Move>, c: Center, key: string, md5: Md5)
    requires Base(s, c, md5) && Resharding(c) && Grown(from, s) && InStep(from, s, key)
    requires Allowed(s, run, md5) && NoAccepts(run) && PairOnly(run) && AloneAlong(s, run, key, md5)
    requires On(c.cur, key, md5).name != On(c.nxt, key, md5).name
    ensures Grown(from, Exec(s, run, md5)) && InStep(from, Exec(s, run, md5), key)
    decreases |run|
  {
    hide Base, InStep, Grown, Enabled, Next, Alone;
    if run != [] {
      assert !run[0].Accept? && !run[0].SendAgain?;
      StepKeepsBase(s, run[0], c, md5);
      StepKeepsInStep(from, s, run[0], c, key, md5);
      assert forall i :: 0 <= i < |run[1..]| ==> run[1..][i] == run[i + 1];
      RunKeepsInStep(from, Next(s, run[0], md5), run[1..], c, key, md5);
    }
  }

  /** If the last update is a write, it is the last of the writes. */
  lemma {:induction false} LastUpdateIsLastWrite(rs: seq<Req>, key: string)
    ensures match LastUpdate(rs, key)
            case None => Writes(rs, key) == []
            case Some(cmd) =>
              IsWrite(cmd) ==> Writes(rs, key) != [] && Writes(rs, key)[|Writes(rs, key)| - 1] == Req(key, cmd)
    decreases |rs|
  {
    if rs != [] {
      LastUpdateIsLastWrite(rs[1..], key);
      if LastUpdate(rs[1..], key) == None {
        assert rs[0].key == key ==> rs[0] == Req(key, rs[0].cmd);
      }
    }
  }

  ghost predicate WritesOnly(rs: seq<Req>) { forall i :: 0 <= i < |rs| ==> IsWrite(rs[i].cmd) }

  lemma {:induction false} WritesOnlyUpdate(rs: seq<Req>, key: string)
    requires WritesOnly(rs)
    ensures LastUpdate(rs, key)
            == if Writes(rs, key) == [] then None else Some(Writes(rs, key)[|Writes(rs, key)| - 1].cmd)
    decreases |rs|
  {
    if rs != [] {
      assert forall i :: 0 <= i < |rs[1..]| ==> rs[1..][i] == rs[i + 1];
      WritesOnlyUpdate(rs[1..], key);
    }
  }

  lemma {:induction false} MirroredAreWrites(from: Sys, s: Sys, run: seq<Move>, c: Center, md5: Md5)
    requires Base(s, c, md5) && Grown(from, s) && WritesOnly(Mirrored(from, s)) && Allowed(s, run, md5)
             && NoAccepts(run)
    ensures Grown(from, Exec(s, run, md5)) && WritesOnly(Mirrored(from, Exec(s, run, md5)))
    decreases |run|
  {
    hide Base, Grown, Mirrored, WritesOnly, Enabled, Next;
    if run != [] {
      assert !run[0].Accept?;
      StepKeepsBase(s, run[0], c, md5);
      MirroredIsWrite(from, s, run[0], c, md5);
      assert forall i :: 0 <= i < |run[1..]| ==> run[1..][i] == run[i + 1];
      MirroredAreWrites(from, Next(s, run[0], md5), run[1..], c, md5);
    }
  }

  lemma MirroredIsWrite(from: Sys, s: Sys, mv: Move, c: Center, md5: Md5)
    requires Base(s, c, md5) && Grown(from, s) && WritesOnly(Mirrored(from, s)) && Enabled(s, mv, md5)
    ensures Grown(from, Next(s, mv, md5)) && WritesOnly(Mirrored(from, Next(s, mv, md5)))
  {
    hide RW.Inv, LocalsOk, Toward, RouteKey, RW.Effect, Send, Mirrored, Sent, Grown;
    StepGrows(from, s, mv, md5);
    if mv.SendSecond? {
      ReaderSees(s, mv.t, c, md5);
    }
  }

  /** The second command of a write to the key is skipped only if both rings use one server for it. */
  ghost predicate ToldApart(c: Center, key: string, md5: Md5)
    requires c.cur != map[] && c.nxt != map[]
  {
    On(c.cur, key, md5).name == On(c.nxt, key, md5).name ==> AddrOf(On(c.cur, key, md5)) == AddrOf(On(c.nxt, key, md5))
  }

  lemma FittingNamesTellApart(c: Center, key: string, md5: Md5)
    requires Resharding(c) && NamesFit(c.cur) && NamesFit(c.nxt)
    ensures ToldApart(c, key, md5)
  {
    OnFits(c.cur, key, md5);
    OnFits(c.nxt, key, md5);
    FullNamesTellServersApart(On(c.cur, key, md5), On(c.nxt, key, md5));
  }

  /** A stretch of a resharding with any number of clients: if the key's servers are told apart, writes to the
      key never overlap (which only matters if it has two servers), and none is half done at the beginning or at
      the end, then a last update that is a SET reads back from the servers of both rings. */
  lemma BothServersKeepWrite(s: Sys, run: seq<Move>, c: Center, key: string, text: string, md5: Md5)
    requires Base(s, c, md5) && Resharding(c) && ToldApart(c, key, md5)
    requires forall t :: 0 <= t < |s.local| ==> !HalfDone(s, t, key)
    requires Allowed(s, run, md5) && NoAccepts(run) && PairOnly(run)
    requires On(c.cur, key, md5).name != On(c.nxt, key, md5).name ==> AloneAlong(s, run, key, md5)
    requires var s' := Exec(s, run, md5);
             && (forall t :: 0 <= t < |s'.local| ==> !HalfDone(s', t, key))
             && Grown(s, s') && LastUpdate(Sent(s, s'), key) == Some(Set(text))
    ensures var s' := Exec(s, run, md5);
            && Read(s'.stores, On(c.cur, key, md5), key) == Some(Text(text))
            && Read(s'.stores, On(c.nxt, key, md5), key) == Some(Text(text))
  {
    hide Base, NoAccepts, PairOnly, RouteKey, WellNamed, Replay, Read, Exec, Allowed, AloneAlong, Writes, LastUpdate,
         AddrOf, HalfDone, Grown, Sent, Mirrored;
    var s' := Exec(s, run, md5);
    var a, b := On(c.cur, key, md5), On(c.nxt, key, md5);
    StartReplays(s, c, key, md5);
    ConcurrentRun(s, s, run, c, key, md5);
    LastSetWins(Read(s.stores, a, key), Sent(s, s'), key, true, false);
    if a.name != b.name {
      StartInStep(s, key);
      RunKeepsInStep(s, s, run, c, key, md5);
      MirroredAreWrites(s, s, run, c, md5);
      LastUpdateIsLastWrite(Sent(s, s'), key);
      WritesOnlyUpdate(Mirrored(s, s'), key);
      LastSetWins(Read(s.stores, b, key), Mirrored(s, s'), key, true, false);
      DifferentNames(c, key, md5);
    } else {
      SameServer(s'.stores, a, b, key);
    }
  }

  lemma StartInStep(s: Sys, key: string)
    requires forall t :: 0 <= t < |s.local| ==> !HalfDone(s, t, key)
    ensures Grown(s, s) && InStep(s, s, key) && WritesOnly(Mirrored(s, s))
  {
  }

  lemma SameServer(stores: Stores, a: Conn, b: Conn, key: string)
    requires AddrOf(a) == AddrOf(b)
    ensures Read(stores, a, key) == Read(stores, b, key)
  {
  }

  // ---- a whole resharding in one run

  /** The start of a resharding, from wherever the service stands. */
  lemma StartAccepted(s: Sys, t: nat, start: Msg, c0: Center, md5: Md5)
    requires SysInv(s, c0, md5) && Enabled(s, Accept(t, start), md5)
    requires Settled(s.center) && s.center.state == NORMAL && WellNamed(s.center.cur) && Healthy(start.world)
    requires start.channel == CONFIG_SHARDCHANNEL_KEY && start.value == SHARD_START_STATUS
    ensures var s' := Next(s, Accept(t, start), md5);
            var c := HandleMsg(s.center, start, md5);
            && Base(s', c, md5) && Resharding(c) && s'.stores == s.stores && Grown(s, s') && Grown(s', s)
            && (forall u, key :: 0 <= u < |s'.local| ==> !HalfDone(s', u, key))
            && c.cur == s.center.cur && c.nxt == ConnsOf(RingOf(md5, Parse(start.world.reply, 0), start.world.up))
  {
    hide RW.Inv, LocalsOk, Toward, Parse, RingOf, ConnsOf, Connected, RebuildOk, RouteKey, Program;
    AcceptHeadsFor(s, t, start, HandleAll(c0, s.msgs, md5), md5);
    StepKeepsLock(s, Accept(t, start), md5);
    StepKeepsLocals(s, Accept(t, start), md5);
    HealthyRebuildOk(start.world);
    RebuiltEmptyIff(s.center.nxt, start.world, md5);
    RebuiltWellNamed(s.center.nxt, start.world, md5);
  }

  /** Its end: at that moment no request is half done. */
  lemma EndAccepted(s: Sys, u: nat, end: Msg, c: Center, md5: Md5)
    requires Base(s, c, md5) && Resharding(c) && Enabled(s, Accept(u, end), md5)
    requires end.channel == CONFIG_SHARDCHANNEL_KEY && end.value == SHARD_NORMAL_STATUS
    ensures forall t, key :: 0 <= t < |s.local| ==> !HalfDone(s, t, key)
    ensures var s' := Next(s, Accept(u, end), md5);
            && Base(s', Center(c.nxt, map[], NORMAL), md5) && Serving(Center(c.nxt, map[], NORMAL))
            && s'.stores == s.stores && Grown(s, s') && Grown(s', s)
  {
    hide RW.Inv, LocalsOk, Toward, RouteKey, Program, Rebuilt, RebuildOk;
    AcceptHeadsFor(s, u, end, c, md5);
    StepKeepsLock(s, Accept(u, end), md5);
    StepKeepsLocals(s, Accept(u, end), md5);
  }

  lemma {:induction false} StretchKeeps(s: Sys, run: seq<Move>, c: Center, md5: Md5)
    requires Base(s, c, md5) && Allowed(s, run, md5) && NoAccepts(run)
    ensures Base(Exec(s, run, md5), c, md5) && Grown(s, Exec(s, run, md5))
    decreases |run|
  {
    hide Base, Enabled, Next;
    if run != [] {
      assert !run[0].Accept?;
      StepKeepsBase(s, run[0], c, md5);
      StepGrows(s, s, run[0], md5);
      assert forall i :: 0 <= i < |run[1..]| ==> run[1..][i] == run[i + 1];
      StretchKeeps(Next(s, run[0], md5), run[1..], c, md5);
    }
  }

  /** What was sent between the two messages and what was sent after them. */
  lemma SentInTwo(s1: Sys, s2: Sys, s3: Sys, s4: Sys)
    requires Grown(s1, s2) && Grown(s2, s3) && Grown(s3, s2) && Grown(s3, s4)
    ensures Grown(s1, s4) && Sent(s1, s4) == Sent(s1, s2) + Sent(s3, s4)
  {
  }

  /** The last SET since the start survives the exchange and what follows it. */
  lemma WriteSurvives(s1: Sys, mid: seq<Move>, u: nat, end: Msg, after: seq<Move>, c: Center, key: string,
                      text: string, md5: Md5)
    requires Base(s1, c, md5) && Resharding(c) && ToldApart(c, key, md5)
    requires forall v :: 0 <= v < |s1.local| ==> !HalfDone(s1, v, key)
    requires Allowed(s1, mid, md5) && NoAccepts(mid) && PairOnly(mid) && AloneAlong(s1, mid, key, md5)
             && NoAccepts(after)
    requires end.channel == CONFIG_SHARDCHANNEL_KEY && end.value == SHARD_NORMAL_STATUS
    requires var s2 := Exec(s1, mid, md5);
             && Enabled(s2, Accept(u, end), md5)
             && var s3 := Next(s2, Accept(u, end), md5);
             && Allowed(s3, after, md5)
             && Grown(s1, Exec(s3, after, md5)) && LastUpdate(Sent(s1, Exec(s3, after, md5)), key) == Some(Set(text))
    ensures var s4 := Exec(Next(Exec(s1, mid, md5), Accept(u, end), md5), after, md5);
            && Base(s4, Center(c.nxt, map[], NORMAL), md5)
            && Read(s4.stores, On(c.nxt, key, md5), key) == Some(Text(text))
  {
    hide Base, NoAccepts, PairOnly, RouteKey, WellNamed, ToldApart, Allowed, AloneAlong, LastUpdate, HalfDone, Grown,
         Sent, Enabled, Next, Serving, Read, Replay, Exec;
    var s2 := Exec(s1, mid, md5);
    var s3 := Next(s2, Accept(u, end), md5);
    var s4 := Exec(s3, after, md5);
    var c2, b := Center(c.nxt, map[], NORMAL), On(c.nxt, key, md5);
    StretchKeeps(s1, mid, c, md5);
    EndAccepted(s2, u, end, c, md5);
    StartReplays(s3, c2, key, md5);
    ConcurrentRun(s3, s3, after, c2, key, md5);
    SentInTwo(s1, s2, s3, s4);
    LastUpdateConcat(Sent(s1, s2), Sent(s3, s4), key);
    LastSetWins(Read(s3.stores, b, key), Sent(s3, s4), key, true, false);
    if LastUpdate(Sent(s3, s4), key) == None {
      BothServersKeepWrite(s1, mid, c, key, text, md5);
    }
  }

  lemma OneRun(s: Sys, before: seq<Move>, x: Move, mid: seq<Move>, y: Move, after: seq<Move>, md5: Md5)
    requires Allowed(s, before, md5) && Enabled(Exec(s, before, md5), x, md5)
    requires Allowed(Next(Exec(s, before, md5), x, md5), mid, md5)
    requires Enabled(Exec(Next(Exec(s, before, md5), x, md5), mid, md5), y, md5)
    requires Allowed(Next(Exec(Next(Exec(s, before, md5), x, md5), mid, md5), y, md5), after, md5)
    ensures Allowed(s, before + [x] + mid + [y] + after, md5)
    ensures Exec(s, before + [x] + mid + [y] + after, md5)
            == Exec(Next(Exec(Next(Exec(s, before, md5), x, md5), mid, md5), y, md5), after, md5)
  {
    hide Enabled, Next;
    var s0 := Exec(s, before, md5);
    var s1 := Next(s0, x, md5);
    var s2 := Exec(s1, mid, md5);
    var s3 := Next(s2, y, md5);
    Single(s0, x, md5);
    RunConcat(s, before, [x], md5);
    RunConcat(s, before + [x], mid, md5);
    Single(s2, y, md5);
    RunConcat(s, before + [x] + mid, [y], md5);
    RunConcat(s, before + [x] + mid + [y], after, md5);
  }

  lemma Single(s: Sys, mv: Move, md5: Md5)
    requires Enabled(s, mv, md5)
    ensures Allowed(s, [mv], md5) && Exec(s, [mv], md5) == Next(s, mv, md5)
  {
    hide Enabled, Next;
    assert Allowed(Next(s, mv, md5), [], md5);
  }

  /** One run: whatever happened before, a start message with a healthy table, any requests by the pair among
      any number of clients, the end message, and any further requests up to any moment without an update
      under way. If writes to the key do not overlap between the two messages and the names fit, the key reads
      back the last value that was set since the start, from the server that the new ring has for it. */
  lemma CutoverInOneRun(n: nat, c0: Center, stores: Stores, before: seq<Move>, t: nat, start: Msg, mid: seq<Move>,
                        u: nat, end: Msg, after: seq<Move>, key: string, text: string, md5: Md5)
    requires n < RW.DWORD_LIMIT && Allowed(Initial(n, c0, stores), before, md5)
    requires start.channel == end.channel == CONFIG_SHARDCHANNEL_KEY
    requires start.value == SHARD_START_STATUS && end.value == SHARD_NORMAL_STATUS && Healthy(start.world)
    requires NoAccepts(mid) && NoAccepts(after) && PairOnly(mid)
    requires var ring := ConnsOf(RingOf(md5, Parse(start.world.reply, 0), start.world.up));
             var s := Exec(Initial(n, c0, stores), before, md5);
             && Settled(s.center) && s.center.state == NORMAL && WellNamed(s.center.cur)
             && NamesFit(s.center.cur) && NamesFit(ring)
             && Enabled(s, Accept(t, start), md5)
             && var s1 := Next(s, Accept(t, start), md5);
             && Allowed(s1, mid, md5) && AloneAlong(s1, mid, key, md5)
             && var s2 := Exec(s1, mid, md5);
             && Enabled(s2, Accept(u, end), md5)
             && var s3 := Next(s2, Accept(u, end), md5);
             && Allowed(s3, after, md5)
             && var s4 := Exec(s3, after, md5);
             && (forall v :: 0 <= v < |s4.local| ==> !s4.local[v].Updating?)
             && Grown(s, s4) && LastUpdate(Sent(s, s4), key) == Some(Set(text))
    ensures var ring := ConnsOf(RingOf(md5, Parse(start.world.reply, 0), start.world.up));
            var run := before + [Accept(t, start)] + mid + [Accept(u, end)] + after;
            && Allowed(Initial(n, c0, stores), run, md5)
            && var s' := Exec(Initial(n, c0, stores), run, md5);
            && s'.center == Center(ring, map[], NORMAL) && ring != map[]
            && Read(s'.stores, On(s'.center.cur, key, md5), key) == Some(Text(text))
  {
    hide Base, SysInv, Settled, NoAccepts, PairOnly, RouteKey, WellNamed, NamesFit, ToldApart, Allowed, AloneAlong,
         LastUpdate, HalfDone, Grown, Sent, Parse, RingOf, ConnsOf, Connected, Enabled, Next, Resharding, Serving,
         HandleMsg, Read, Toward;
    var s := Exec(Initial(n, c0, stores), before, md5);
    Guarded.InitialInv(n, c0, stores, md5);
    Guarded.RunKeepsInv(Initial(n, c0, stores), before, c0, md5);
    StartAccepted(s, t, start, c0, md5);
    var c := HandleMsg(s.center, start, md5);
    var s1 := Next(s, Accept(t, start), md5);
    var s2 := Exec(s1, mid, md5);
    var s3 := Next(s2, Accept(u, end), md5);
    var s4 := Exec(s3, after, md5);
    SameRecords(s, s1, s4);
    FittingNamesTellApart(c, key, md5);
    WriteSurvives(s1, mid, u, end, after, c, key, text, md5);
    OneRun(Initial(n, c0, stores), before, Accept(t, start), mid, Accept(u, end), after, md5);
    Arrived(s4, Center(c.nxt, map[], NORMAL), md5);
    assert c.nxt != map[] by {
      SecondRingServes(c);
    }
  }

  lemma SecondRingServes(c: Center)
    requires Resharding(c)
    ensures c.nxt != map[]
  {
  }

  lemma Arrived(s: Sys, c: Center, md5: Md5)
    requires Base(s, c, md5) && forall v :: 0 <= v < |s.local| ==> !s.local[v].Updating?
    ensures s.center == c
  {
  }

  lemma SameRecords(s: Sys, s1: Sys, s4: Sys)
    requires Grown(s, s1) && Grown(s1, s) && Grown(s, s4)
    ensures Grown(s1, s4) && Sent(s1, s4) == Sent(s, s4)
  {
  }

  // ---- in which services every run keeps the last SET

  /** Once no write to the key is half done, the second ring's server reads back the last SET. */
  ghost predicate LastSetMirrored(s: Sys, c: Center, key: string, md5: Md5)
    requires c.nxt != map[]
  {
    (forall t :: 0 <= t < |s.local| ==> !HalfDone(s, t, key)) ==>
      match LastUpdate(s.firsts, key)
      case Some(Set(text)) => Read(s.stores, On(c.nxt, key, md5), key) == Some(Text(text))
      case _ => true
  }

  lemma FreshSystem(n: nat, c: Center, stores: Stores, key: string, md5: Md5)
    requires n < RW.DWORD_LIMIT
    ensures var s := Initial(n, c, stores);
            && Base(s, c, md5) && |s.local| == n && s.firsts == [] && s.begun == [] && s.seconds == []
            && (forall t :: 0 <= t < n ==> s.local[t] == Quiet && !HalfDone(s, t, key))
  {
    hide RW.Inv;
    RW.InitialInv(n);
  }

  lemma {:induction false} AtMostOneIsAlone(s: Sys, run: seq<Move>, key: string, md5: Md5)
    requires |s.local| <= 1 && Allowed(s, run, md5)
    ensures AloneAlong(s, run, key, md5)
    decreases |run|
  {
    hide Busy, RouteKey, RW.Next, SecondDue;
    if run != [] {
      AtMostOneIsAlone(Next(s, run[0], md5), run[1..], key, md5);
    }
  }

  lemma NobodyMoves(s: Sys, run: seq<Move>, md5: Md5)
    requires s.local == [] && Allowed(s, run, md5)
    ensures run == []
  {
  }

  /** The first thread takes the read guard. */
  lemma OneReader(n: nat, c: Center, stores: Stores, md5: Md5) returns (run: seq<Move>, s: Sys)
    requires 1 <= n < RW.DWORD_LIMIT
    ensures Allowed(Initial(n, c, stores), run, md5) && NoAccepts(run) && PairOnly(run)
    ensures s == Exec(Initial(n, c, stores), run, md5) && Base(s, c, md5) && Holds(s, 0, RW.Reading)
    ensures s == Initial(n, c, stores).(lock := s.lock)
    ensures s.lock.lock.wrcnt == 0 && s.lock.lock.wrwaitcnt == 0 && |s.lock.phase| == n
    ensures forall t :: 1 <= t < n ==> s.lock.phase[t] == RW.Idle
  {
    hide Base, RW.Inv;
    var s0 := Initial(n, c, stores);
    FreshSystem(n, c, stores, "", md5);
    run := [LockMove(RW.Step(RW.ReadTry, 0))];
    Single(s0, run[0], md5);
    StepKeepsBase(s0, run[0], c, md5);
    s := Next(s0, run[0], md5);
  }

  /** The first two threads take it. */
  lemma TwoReaders(n: nat, c: Center, stores: Stores, md5: Md5) returns (run: seq<Move>, s: Sys)
    requires 2 <= n < RW.DWORD_LIMIT
    ensures Allowed(Initial(n, c, stores), run, md5) && NoAccepts(run) && PairOnly(run)
    ensures s == Exec(Initial(n, c, stores), run, md5) && Base(s, c, md5)
    ensures Holds(s, 0, RW.Reading) && Holds(s, 1, RW.Reading)
    ensures s == Initial(n, c, stores).(lock := s.lock)
  {
    hide Base, RW.Inv, Exec, Allowed;
    var first, s1 := OneReader(n, c, stores, md5);
    var mv := LockMove(RW.Step(RW.ReadTry, 1));
    Single(s1, mv, md5);
    StepKeepsBase(s1, mv, c, md5);
    RunConcat(Initial(n, c, stores), first, [mv], md5);
    run := first + [mv];
    s := Next(s1, mv, md5);
  }

  /** One client sets a key whose two servers go by one name: the second command is not sent. */
  lemma SkippedRun(s: Sys, r: Req, md5: Md5) returns (run: seq<Move>, s': Sys)
    requires Base(s, s.center, md5) && Resharding(s.center) && Holds(s, 0, RW.Reading) && s.local[0] == Quiet
    requires On(s.center.cur, r.key, md5).name == On(s.center.nxt, r.key, md5).name
    ensures Allowed(s, run, md5) && NoAccepts(run) && PairOnly(run) && s' == Exec(s, run, md5)
    ensures s'.local == s.local[0 := Finished] && s'.firsts == s.firsts + [r] && s'.seconds == s.seconds
  {
    hide RW.Inv, LocalsOk, Toward, RouteKey, WellNamed, Send, SendOn, RW.Enabled, RW.Next, Exec, Allowed;
    run := [Pick(0, r), SendFirst(0), Look(0)];
    KeyRoutes(s.center, r.key, md5);
    var s1 := Next(s, run[0], md5);
    var s2 := Next(s1, run[1], md5);
    s' := Next(s2, run[2], md5);
    Along([s, s1, s2, s'], run, md5);
  }

  /** A write that is not mirrored, in a service with a client whose key has two servers of one name. */
  lemma SkippedWrite(n: nat, c: Center, stores: Stores, key: string, md5: Md5) returns (run: seq<Move>)
    requires 1 <= n < RW.DWORD_LIMIT && Resharding(c) && !ToldApart(c, key, md5)
    ensures Allowed(Initial(n, c, stores), run, md5) && NoAccepts(run) && PairOnly(run)
    ensures !LastSetMirrored(Exec(Initial(n, c, stores), run, md5), c, key, md5)
  {
    hide Base, RouteKey, WellNamed, Replay, Read, Exec, Allowed, AddrOf, NoAccepts, PairOnly;
    var b := On(c.nxt, key, md5);
    var text := if Read(stores, b, key) == Some(Text("x")) then "y" else "x";
    var first, s := OneReader(n, c, stores, md5);
    var last, s' := SkippedRun(s, Req(key, Set(text)), md5);
    JoinRuns(Initial(n, c, stores), first, last, md5);
    run := first + last;
    StartReplays(s, c, key, md5);
    ConcurrentRun(s, s, last, c, key, md5);
    assert Mirrored(s, s') == [];
    assert s'.firsts == [Req(key, Set(text))] && LastUpdate(s'.firsts[1..], key) == None;
    assert LastUpdate(s'.firsts, key) == Some(Set(text));
  }

  /** Two overlapping writes that are mirrored in the other order. */
  lemma OvertakenWrite(n: nat, c: Center, stores: Stores, key: string, md5: Md5) returns (run: seq<Move>)
    requires 2 <= n < RW.DWORD_LIMIT && Resharding(c) && On(c.cur, key, md5).name != On(c.nxt, key, md5).name
    ensures Allowed(Initial(n, c, stores), run, md5) && NoAccepts(run) && PairOnly(run)
    ensures !LastSetMirrored(Exec(Initial(n, c, stores), run, md5), c, key, md5)
  {
    hide Base, RouteKey, WellNamed, Replay, Read, Exec, Allowed, AddrOf, NoAccepts, PairOnly, LastUpdate, Holds;
    var first, s := TwoReaders(n, c, stores, md5);
    var last, s' := OverlappingWritesCanDiverge(s, 0, 1, key, "x", "y", md5);
    JoinRuns(Initial(n, c, stores), first, last, md5);
    run := first + last;
    LastOfTwo(Req(key, Set("x")), Req(key, Set("y")), key);
    assert s'.firsts == [Req(key, Set("x")), Req(key, Set("y"))];
  }

  lemma LastOfTwo(p: Req, q: Req, key: string)
    requires p.key == q.key == key && q.cmd != Get
    ensures LastUpdate([p, q], key) == Some(q.cmd)
  {
    assert [p, q][1..] == [q] && [q][1..] == [];
    assert LastUpdate([q], key) == Some(q.cmd);
  }

  lemma JoinRuns(s: Sys, a: seq<Move>, b: seq<Move>, md5: Md5)
    requires Allowed(s, a, md5) && Allowed(Exec(s, a, md5), b, md5) && NoAccepts(a) && NoAccepts(b)
    ensures Allowed(s, a + b, md5) && Exec(s, a + b, md5) == Exec(Exec(s, a, md5), b, md5) && NoAccepts(a + b)
    ensures PairOnly(a) && PairOnly(b) ==> PairOnly(a + b)
  {
    hide Enabled, Next;
    RunConcat(s, a, b, md5);
  }

  /** In which services every run of pair clients mirrors the last SET of a key during a resharding: exactly in
      those that have one server for it on both rings, or no client, or one client and servers with different
      names. */
  lemma LastSetMirroredIff(n: nat, c: Center, stores: Stores, key: string, md5: Md5)
    requires n < RW.DWORD_LIMIT && Resharding(c)
    ensures (forall run :: Allowed(Initial(n, c, stores), run, md5) && NoAccepts(run) && PairOnly(run) ==>
               LastSetMirrored(Exec(Initial(n, c, stores), run, md5), c, key, md5)) <==>
            || AddrOf(On(c.cur, key, md5)) == AddrOf(On(c.nxt, key, md5))
            || n == 0
            || (n == 1 && On(c.cur, key, md5).name != On(c.nxt, key, md5).name)
  {
    hide Base, RouteKey, WellNamed, Read, Exec, Allowed, AddrOf, NoAccepts, PairOnly, LastUpdate, HalfDone, Initial;
    var s0, a, b := Initial(n, c, stores), On(c.cur, key, md5), On(c.nxt, key, md5);
    FreshSystem(n, c, stores, key, md5);
    DifferentNames(c, key, md5);
    if AddrOf(a) == AddrOf(b) || n == 0 || (n == 1 && a.name != b.name) {
      forall run | Allowed(s0, run, md5) && NoAccepts(run) && PairOnly(run)
        ensures LastSetMirrored(Exec(s0, run, md5), c, key, md5)
      {
        MirroredHere(s0, run, c, key, md5);
      }
    } else if a.name == b.name {
      var run := SkippedWrite(n, c, stores, key, md5);
    } else {
      var run := OvertakenWrite(n, c, stores, key, md5);
    }
  }

  lemma MirroredHere(s: Sys, run: seq<Move>, c: Center, key: string, md5: Md5)
    requires Base(s, c, md5) && Resharding(c) && s.firsts == []
    requires forall t :: 0 <= t < |s.local| ==> !HalfDone(s, t, key)
    requires Allowed(s, run, md5) && NoAccepts(run) && PairOnly(run)
    requires var a, b := On(c.cur, key, md5), On(c.nxt, key, md5);
             AddrOf(a) == AddrOf(b) || |s.local| == 0 || (|s.local| == 1 && a.name != b.name)
    ensures LastSetMirrored(Exec(s, run, md5), c, key, md5)
  {
    hide Base, RouteKey, WellNamed, Read, Exec, Allowed, AddrOf, NoAccepts, PairOnly, HalfDone, Grown, Sent;
    var s' := Exec(s, run, md5);
    DifferentNames(c, key, md5);
    if s.local == [] {
      NobodyMoves(s, run, md5);
      EmptyRun(s, md5);
    } else {
      if |s.local| == 1 {
        AtMostOneIsAlone(s, run, key, md5);
      }
      StretchKeeps(s, run, c, md5);
      AllSent(s, s');
      match LastUpdate(s'.firsts, key)
      case Some(Set(text)) =>
        if forall t :: 0 <= t < |s'.local| ==> !HalfDone(s', t, key) {
          BothServersKeepWrite(s, run, c, key, text, md5);
        }
      case _ =>
    }
  }

  lemma EmptyRun(s: Sys, md5: Md5)
    ensures Exec(s, [], md5) == s
  {
  }

  lemma AllSent(s: Sys, s': Sys)
    requires Grown(s, s') && s.firsts == []
    ensures Sent(s, s') == s'.firsts
  {
  }

  // ---- the current ring under the overloads

  /** The current ring's server holds the value of the last SET, by the order of the first commands. */
  ghost predicate LastSetHeld(s: Sys, c: Center, key: string, md5: Md5)
    requires c.cur != map[]
  {
    match LastUpdate(s.begun, key)
    case Some(Set(text)) => Read(s.stores, On(c.cur, key, md5), key) == Some(Text(text))
    case _ => true
  }

  /** No client but one can come between the two commands of a request for the key, or there is only one. */
  ghost predicate Undisturbed(s: Sys, c: Center, key: string, md5: Md5)
    requires Serving(c)
  {
    c.state != SYNING || |s.local| <= 1 || On(c.cur, key, md5).name == On(c.nxt, key, md5).name
  }

  /** Repetitions change nothing about the last update, and a lone client's own command is the last one sent. */
  ghost predicate RepeatsAreHarmless(s: Sys, key: string) {
    && LastUpdate(s.firsts, key) == LastUpdate(s.begun, key)
    && (|s.local| == 1 && (s.local[0].Sent? || s.local[0].Due?) ==>
          s.firsts != [] && s.firsts[|s.firsts| - 1] == s.local[0].r)
  }

  lemma StepKeepsHarmless(s: Sys, mv: Move, c: Center, key: string, md5: Md5)
    requires Base(s, c, md5) && Serving(c) && Undisturbed(s, c, key, md5) && RepeatsAreHarmless(s, key)
    requires Enabled(s, mv, md5) && !mv.Accept?
    ensures Undisturbed(Next(s, mv, md5), c, key, md5) && RepeatsAreHarmless(Next(s, mv, md5), key)
  {
    hide RW.Inv, LocalsOk, Toward, RouteKey, WellNamed, RW.Effect, Send, SendOn, LastUpdate;
    match mv
    case SendFirst(t) =>
      LastUpdateConcat(s.firsts, [s.local[t].r], key);
      LastUpdateConcat(s.begun, [s.local[t].r], key);
    case SendAgain(t) =>
      var r := s.local[t].r;
      ReaderSees(s, t, c, md5);
      DueDiffers(c, r, md5);
      LastUpdateConcat(s.firsts, [r], key);
      LastUpdateOfOne(r, key);
      if r.key == key {
        var before := s.firsts[..|s.firsts| - 1];
        assert s.firsts == before + [r];
        LastUpdateConcat(before, [r], key);
      }
    case _ =>
  }

  lemma LastUpdateOfOne(r: Req, key: string)
    ensures LastUpdate([r], key) == if r.key == key && r.cmd != Get then Some(r.cmd) else None
  {
    assert [r][1..] == [];
  }

  lemma DueDiffers(c: Center, r: Req, md5: Md5)
    requires Serving(c) && SecondDue(c, RouteKey(md5, c.cur, r.key), r, md5) == Some(true)
    ensures c.state == SYNING && IsWrite(r.cmd) && On(c.cur, r.key, md5).name != On(c.nxt, r.key, md5).name
  {
  }

  lemma {:induction false} RunKeepsHarmless(s: Sys, run: seq<Move>, c: Center, key: string, md5: Md5)
    requires Base(s, c, md5) && Serving(c) && Undisturbed(s, c, key, md5) && RepeatsAreHarmless(s, key)
    requires Allowed(s, run, md5) && NoAccepts(run)
    ensures RepeatsAreHarmless(Exec(s, run, md5), key)
    decreases |run|
  {
    hide Base, Serving, Undisturbed, RepeatsAreHarmless, Enabled, Next;
    if run != [] {
      assert !run[0].Accept?;
      StepKeepsBase(s, run[0], c, md5);
      StepKeepsHarmless(s, run[0], c, key, md5);
      assert forall i :: 0 <= i < |run[1..]| ==> run[1..][i] == run[i + 1];
      RunKeepsHarmless(Next(s, run[0], md5), run[1..], c, key, md5);
    }
  }

  lemma HeldHere(s: Sys, run: seq<Move>, c: Center, key: string, md5: Md5)
    requires Base(s, c, md5) && Serving(c) && s.firsts == [] && s.begun == [] && Undisturbed(s, c, key, md5)
    requires forall t :: 0 <= t < |s.local| ==> s.local[t] == Quiet
    requires Allowed(s, run, md5) && NoAccepts(run)
    ensures LastSetHeld(Exec(s, run, md5), c, key, md5)
  {
    hide Base, Resharding, Undisturbed, RouteKey, Replay, Read, Exec, Allowed, NoAccepts, LastUpdate, Grown, Sent;
    var s' := Exec(s, run, md5);
    StartReplays(s, c, key, md5);
    ConcurrentRun(s, s, run, c, key, md5);
    RunKeepsHarmless(s, run, c, key, md5);
    AllSent(s, s');
    LastSetWins(Read(s.stores, On(c.cur, key, md5), key), s'.firsts, key, true, false);
  }

  /** Two clients of the overloads: the second one's value is stored, stored again, and then overwritten by the
      repeated command of the first one. */
  lemma ValueComesBack(n: nat, c: Center, stores: Stores, key: string, md5: Md5) returns (run: seq<Move>)
    requires 2 <= n < RW.DWORD_LIMIT && Resharding(c) && On(c.cur, key, md5).name != On(c.nxt, key, md5).name
    ensures Allowed(Initial(n, c, stores), run, md5) && NoAccepts(run)
    ensures !LastSetHeld(Exec(Initial(n, c, stores), run, md5), c, key, md5)
  {
    hide Base, RouteKey, WellNamed, Replay, Read, Exec, Allowed, AddrOf, NoAccepts, PairOnly, LastUpdate;
    var p, q := Req(key, Set("x")), Req(key, Set("y"));
    var first, s := TwoReaders(n, c, stores, md5);
    var last, s' := OvertakingRun(s, 0, 1, p, q, true, md5);
    JoinRuns(Initial(n, c, stores), first, last, md5);
    run := first + last;
    StartReplays(s, c, key, md5);
    ConcurrentRun(s, s, last, c, key, md5);
    assert s'.begun == [p, q] && Sent(s, s') == [p, q, q, p];
    LastOfTwo(p, q, key);
    LastOfTwo(q, p, key);
    LastUpdateConcat([p, q], [q, p], key);
    assert [p, q, q, p] == [p, q] + [q, p];
    LastSetWins(Read(s.stores, On(c.cur, key, md5), key), [p, q, q, p], key, true, false);
  }

  /** In which services the current ring's server of a key always holds the last SET by the order of the first
      commands, for any mixture of pair and overload clients: exactly outside a resharding, or with at most one
      client, or for keys whose two connections have one name. Elsewhere a repeated command can bring back a
      value that another client has overwritten. */
  lemma LastSetHeldIff(n: nat, c: Center, stores: Stores, key: string, md5: Md5)
    requires n < RW.DWORD_LIMIT && Serving(c)
    ensures (forall run :: Allowed(Initial(n, c, stores), run, md5) && NoAccepts(run) ==>
               LastSetHeld(Exec(Initial(n, c, stores), run, md5), c, key, md5)) <==>
            c.state != SYNING || n <= 1 || On(c.cur, key, md5).name == On(c.nxt, key, md5).name
  {
    hide Base, RouteKey, Exec, Allowed, NoAccepts, LastSetHeld, Initial;
    var s0 := Initial(n, c, stores);
    FreshSystem(n, c, stores, key, md5);
    if c.state != SYNING || n <= 1 || On(c.cur, key, md5).name == On(c.nxt, key, md5).name {
      forall run | Allowed(s0, run, md5) && NoAccepts(run) ensures LastSetHeld(Exec(s0, run, md5), c, key, md5) {
        HeldHere(s0, run, c, key, md5);
      }
    } else {
      var run := ValueComesBack(n, c, stores, key, md5);
    }
  }
}
