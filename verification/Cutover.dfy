/** Requests on the two rings (`RedisTable` in cppredis/DataCenter.cpp) and what they leave on the servers.
    Every command succeeds and nothing expires. */
module Cutover {
  import opened Wrappers
  import opened Strings
  import opened Hashing
  import opened Ring
  import opened Shards
  import opened Center

  datatype Addr = Addr(host: string, port: int)

  datatype Value = Text(text: string) | List(items: seq<string>)

  /** What all servers hold, by server and key. */
  type Stores = map<(Addr, string), Value>

  /** Some commands; `setvalue` and `rpush` announce a write, `del` does not. */
  datatype Command = Get | Set(text: string) | Rpush(items: seq<string>) | Del

  predicate IsWrite(cmd: Command) { cmd.Set? || cmd.Rpush? }

  /** The effect of a command on one key; a push to a text is an error and changes nothing. */
  function Eval(v: Option<Value>, cmd: Command): Option<Value> {
    match cmd
    case Get => v
    case Set(t) => Some(Text(t))
    case Del => None
    case Rpush(items) =>
      if items == [] then v
      else
        match v
        case None => Some(List(items))
        case Some(List(xs)) => Some(List(xs + items))
        case Some(Text(_)) => v
  }

  function AddrOf(j: Conn): Addr { Addr(j.host, j.port) }

  function Read(stores: Stores, j: Conn, key: string): Option<Value> {
    if (AddrOf(j), key) in stores then Some(stores[(AddrOf(j), key)]) else None
  }

  /** Jedis::execute. */
  function Send(stores: Stores, j: Conn, key: string, cmd: Command): Stores {
    match Eval(Read(stores, j, key), cmd)
    case None => stores - {(AddrOf(j), key)}
    case Some(v) => stores[(AddrOf(j), key) := v]
  }

  datatype Req = Req(key: string, cmd: Command)

  /** do_jedis_execute on the connection found on the current ring. */
  function SendOn(stores: Stores, jedis: Option<Conn>, r: Req): Stores {
    match jedis case None => stores case Some(j) => Send(stores, j, r.key, r.cmd)
  }

  /** Whether the second command is due; None stands for reading the name of a NULL connection. */
  function SecondDue(c: Center, jedis: Option<Conn>, r: Req, md5: Md5): Option<bool> {
    if c.state == SYNING && IsWrite(r.cmd) && RouteKey(md5, c.nxt, r.key).Some? then
      match jedis
      case None => None
      case Some(old') => Some(RouteKey(md5, c.nxt, r.key).value.name != old'.name)
    else Some(false)
  }

  /** do_jedis_execute and then do_jedis_new_execute: the second command goes to the second ring. */
  function Pair(c: Center, stores: Stores, r: Req, md5: Md5): Option<Stores> {
    var jedis := RouteKey(md5, c.cur, r.key);
    var s := SendOn(stores, jedis, r);
    match SecondDue(c, jedis, r, md5)
    case None => None
    case Some(due) => Some(if due then Send(s, RouteKey(md5, c.nxt, r.key).value, r.key, r.cmd) else s)
  }

  /** The execute overloads: the second command goes to the connection of the first one. */
  function Overload(c: Center, stores: Stores, r: Req, md5: Md5): Option<Stores> {
    var jedis := RouteKey(md5, c.cur, r.key);
    var s := SendOn(stores, jedis, r);
    match SecondDue(c, jedis, r, md5)
    case None => None
    case Some(due) => Some(if due then SendOn(s, jedis, r) else s)
  }

  /** Both forms read the name of a NULL connection exactly for a write during a resharding with an empty
      current ring and a second ring that serves. */
  lemma NullConnectionIff(c: Center, stores: Stores, r: Req, md5: Md5)
    ensures Pair(c, stores, r, md5).None? <==> c.state == SYNING && IsWrite(r.cmd) && c.cur == map[] && c.nxt != map[]
    ensures Overload(c, stores, r, md5).None? <==> Pair(c, stores, r, md5).None?
  {
  }

  /** From a settled state and over conforming messages no write reads such a name. The next message brings it
      about exactly if it is a change, during a resharding, to a table that parses and whose servers all fail
      to answer. */
  lemma NullConnectionAfterIff(c: Center, msgs: seq<Msg>, m: Msg, stores: Stores, r: Req, md5: Md5)
    requires Settled(c) && ConformingRun(c, msgs, md5) && WellFormed(m.world.reply)
    ensures RunOk(msgs) && Pair(HandleAll(c, msgs, md5), stores, r, md5).Some?
    ensures var c1 := HandleAll(c, msgs, md5);
            Pair(Handle(c1, m.channel, m.value, m.world, md5), stores, r, md5).None? <==>
            && IsWrite(r.cmd) && c1.state == SYNING
            && m.channel == CONFIG_SHARDCHANNEL_KEY && m.value == SHARD_CHANGE_STATUS
            && Parse(m.world.reply, 0) != [] && Connected(Parse(m.world.reply, 0), m.world.up, 0) == []
  {
    hide Pair, Overload, Parse, Connected, Rebuilt, RebuildOk, HandleAll, ConformingRun;
    ConformingRunsKeepSettled(c, msgs, md5);
    var c1 := HandleAll(c, msgs, md5);
    NullConnectionIff(c1, stores, r, md5);
    NullConnectionIff(Handle(c1, m.channel, m.value, m.world, md5), stores, r, md5);
    RebuiltEmptyIff(c1.cur, m.world, md5);
  }

  // ---- runs of requests in one state

  function PairAll(c: Center, stores: Stores, rs: seq<Req>, md5: Md5): Stores
    requires c.cur != map[]
    decreases |rs|
  {
    if rs == [] then stores else PairAll(c, Pair(c, stores, rs[0], md5).value, rs[1..], md5)
  }

  function OverloadAll(c: Center, stores: Stores, rs: seq<Req>, md5: Md5): Stores
    requires c.cur != map[]
    decreases |rs|
  {
    if rs == [] then stores else OverloadAll(c, Overload(c, stores, rs[0], md5).value, rs[1..], md5)
  }

  /** The reference: one key of one server on which the commands run one after the other; `all` says
      whether every command arrives or only those that announce a write, `times` how often a write does. */
  function Replay(v: Option<Value>, rs: seq<Req>, key: string, all: bool, twice: bool): Option<Value>
    decreases |rs|
  {
    if rs == [] then v else Replay(ReplayOne(v, rs[0], key, all, twice), rs[1..], key, all, twice)
  }

  function ReplayOne(v: Option<Value>, r: Req, key: string, all: bool, twice: bool): Option<Value> {
    if r.key != key || !(all || IsWrite(r.cmd)) then v
    else if twice && IsWrite(r.cmd) then Eval(Eval(v, r.cmd), r.cmd)
    else Eval(v, r.cmd)
  }

  lemma SendEffect(stores: Stores, j: Conn, key: string, cmd: Command, k: Conn, key': string)
    ensures Read(Send(stores, j, key, cmd), k, key')
            == if AddrOf(j) == AddrOf(k) && key == key' then Eval(Read(stores, j, key), cmd) else Read(stores, k, key')
  {
  }

  /** The connection a key uses on a ring. */
  function On(ring: map<int, Conn>, key: string, md5: Md5): Conn
    requires ring != map[]
  {
    RouteKey(md5, ring, key).value
  }

  /** Names are printed addresses. */
  ghost predicate WellNamed(ring: map<int, Conn>) {
    forall p :: p in ring ==> ring[p].name == AddressText(ring[p].host, ring[p].port)
  }

  /** What the do_jedis pair leaves behind for a key, exactly. The current ring's server has seen every
      command; the second ring's server is the same one, or has seen every announced write, or, if two
      different servers go by the same name, nothing. */
  lemma {:induction false} PairRun(c: Center, stores: Stores, rs: seq<Req>, md5: Md5, key: string)
    requires c.cur != map[] && c.nxt != map[] && c.state == SYNING && WellNamed(c.cur) && WellNamed(c.nxt)
    ensures var s := PairAll(c, stores, rs, md5);
            var a, b := On(c.cur, key, md5), On(c.nxt, key, md5);
            && Read(s, a, key) == Replay(Read(stores, a, key), rs, key, true, false)
            && (AddrOf(a) == AddrOf(b) ==> a.name == b.name && Read(s, b, key) == Read(s, a, key))
            && (AddrOf(a) != AddrOf(b) ==>
                  Read(s, b, key) == if a.name != b.name then Replay(Read(stores, b, key), rs, key, false, false)
                                     else Read(stores, b, key))
    decreases |rs|
  {
    hide Eval, RouteKey, AddressText;
    var a, b := On(c.cur, key, md5), On(c.nxt, key, md5);
    OnRing(c.cur, key, md5);
    OnRing(c.nxt, key, md5);
    if rs != [] {
      PairStep(c, stores, rs[0], md5, key);
      PairRun(c, Pair(c, stores, rs[0], md5).value, rs[1..], md5, key);
    }
  }

  lemma OnRing(ring: map<int, Conn>, key: string, md5: Md5)
    requires ring != map[] && WellNamed(ring)
    ensures RouteKey(md5, ring, key).Some?
    ensures On(ring, key, md5).name == AddressText(On(ring, key, md5).host, On(ring, key, md5).port)
  {
  }

  lemma PairStep(c: Center, stores: Stores, r: Req, md5: Md5, key: string)
    requires c.cur != map[] && c.nxt != map[] && c.state == SYNING && WellNamed(c.cur) && WellNamed(c.nxt)
    ensures Pair(c, stores, r, md5).Some?
    ensures var s := Pair(c, stores, r, md5).value;
            var a, b := On(c.cur, key, md5), On(c.nxt, key, md5);
            && Read(s, a, key) == (if r.key == key then Eval(Read(stores, a, key), r.cmd) else Read(stores, a, key))
            && (AddrOf(a) != AddrOf(b) ==>
                  Read(s, b, key) == if r.key == key && IsWrite(r.cmd) && a.name != b.name
                                     then Eval(Read(stores, b, key), r.cmd) else Read(stores, b, key))
  {
    hide Eval, RouteKey, AddressText, Read, Send, AddrOf;
    OnRing(c.cur, r.key, md5);
    OnRing(c.nxt, r.key, md5);
    var a, b := On(c.cur, key, md5), On(c.nxt, key, md5);
    var j, k := On(c.cur, r.key, md5), On(c.nxt, r.key, md5);
    var s := Send(stores, j, r.key, r.cmd);
    SendEffect(stores, j, r.key, r.cmd, a, key);
    SendEffect(stores, j, r.key, r.cmd, b, key);
    SendEffect(stores, j, r.key, r.cmd, k, r.key);
    SendEffect(s, k, r.key, r.cmd, a, key);
    SendEffect(s, k, r.key, r.cmd, b, key);
    SameServerSameName(c, r.key, md5);
  }

  lemma SameServerSameName(c: Center, key: string, md5: Md5)
    requires c.cur != map[] && c.nxt != map[] && WellNamed(c.cur) && WellNamed(c.nxt)
    ensures AddrOf(On(c.cur, key, md5)) == AddrOf(On(c.nxt, key, md5)) ==>
              On(c.cur, key, md5).name == On(c.nxt, key, md5).name
  {
    OnRing(c.cur, key, md5);
    OnRing(c.nxt, key, md5);
  }

  /** What the execute overloads leave behind, exactly: on the current ring's server every announced write
      has run twice if the two connections have different names; a different second server has seen nothing. */
  lemma {:induction false} OverloadRun(c: Center, stores: Stores, rs: seq<Req>, md5: Md5, key: string)
    requires c.cur != map[] && c.nxt != map[] && c.state == SYNING && WellNamed(c.cur) && WellNamed(c.nxt)
    ensures var s := OverloadAll(c, stores, rs, md5);
            var a, b := On(c.cur, key, md5), On(c.nxt, key, md5);
            && Read(s, a, key) == Replay(Read(stores, a, key), rs, key, true, a.name != b.name)
            && (AddrOf(a) == AddrOf(b) ==> Read(s, b, key) == Read(s, a, key))
            && (AddrOf(a) != AddrOf(b) ==> Read(s, b, key) == Read(stores, b, key))
    decreases |rs|
  {
    hide Eval, RouteKey, AddressText;
    OnRing(c.cur, key, md5);
    OnRing(c.nxt, key, md5);
    if rs != [] {
      OverloadStep(c, stores, rs[0], md5, key);
      OverloadRun(c, Overload(c, stores, rs[0], md5).value, rs[1..], md5, key);
    }
  }

  lemma OverloadStep(c: Center, stores: Stores, r: Req, md5: Md5, key: string)
    requires c.cur != map[] && c.nxt != map[] && c.state == SYNING && WellNamed(c.cur) && WellNamed(c.nxt)
    ensures Overload(c, stores, r, md5).Some?
    ensures var s := Overload(c, stores, r, md5).value;
            var a, b := On(c.cur, key, md5), On(c.nxt, key, md5);
            var v := Read(stores, a, key);
            && Read(s, a, key) == (if r.key != key then v
                                   else if a.name != b.name && IsWrite(r.cmd) then Eval(Eval(v, r.cmd), r.cmd)
                                   else Eval(v, r.cmd))
            && (AddrOf(a) != AddrOf(b) ==> Read(s, b, key) == Read(stores, b, key))
  {
    hide Eval, RouteKey, AddressText, Read, Send, AddrOf;
    OnRing(c.cur, r.key, md5);
    OnRing(c.nxt, r.key, md5);
    var a, b, j := On(c.cur, key, md5), On(c.nxt, key, md5), On(c.cur, r.key, md5);
    var s := Send(stores, j, r.key, r.cmd);
    SendEffect(stores, j, r.key, r.cmd, a, key);
    SendEffect(stores, j, r.key, r.cmd, b, key);
    SendEffect(s, j, r.key, r.cmd, a, key);
    SendEffect(s, j, r.key, r.cmd, b, key);
    SameServerSameName(c, r.key, md5);
  }

  // ---- the cutover

  /** The last command on the key that is not a read. */
  function LastUpdate(rs: seq<Req>, key: string): Option<Command>
    decreases |rs|
  {
    if rs == [] then None
    else
      match LastUpdate(rs[1..], key)
      case Some(cmd) => Some(cmd)
      case None => if rs[0].key == key && rs[0].cmd != Get then Some(rs[0].cmd) else None
  }

  lemma {:induction false} LastSetWins(v: Option<Value>, rs: seq<Req>, key: string, all: bool, twice: bool)
    ensures match LastUpdate(rs, key)
            case None => Replay(v, rs, key, all, twice) == v
            case Some(Set(text)) => Replay(v, rs, key, all, twice) == Some(Text(text))
            case Some(Del) => all ==> Replay(v, rs, key, all, twice) == None
            case Some(_) => true
    decreases |rs|
  {
    if rs != [] {
      LastSetWins(ReplayOne(v, rs[0], key, all, twice), rs[1..], key, all, twice);
    }
  }

  /** The address is printed in full. */
  ghost predicate NamesFit(ring: map<int, Conn>) {
    forall p :: p in ring ==> |ring[p].host| + 1 + |IntText(ring[p].port)| <= 30
  }

  lemma FullNamesTellServersApart(a: Conn, b: Conn)
    requires a.name == AddressText(a.host, a.port) && b.name == AddressText(b.host, b.port)
    requires |a.host| + 1 + |IntText(a.port)| <= 30 && |b.host| + 1 + |IntText(b.port)| <= 30
    ensures a.name == b.name ==> AddrOf(a) == AddrOf(b)
  {
    if a.name == b.name {
      assert ":" == [':'];
      LastSeparator(a.host, IntText(a.port), b.host, IntText(b.port), ':');
      AtoiReadsBack(a.port);
      AtoiReadsBack(b.port);
    }
  }

  /** Exactly the names of at most 29 characters belong to one address only: a name of 30 may be cut off. */
  lemma NameIsUniqueIff(a: Conn)
    requires a.name == AddressText(a.host, a.port)
    ensures (forall b: Conn :: b.name == AddressText(b.host, b.port) && b.name == a.name ==>
              AddrOf(b) == AddrOf(a)) <==>
            |a.host| + 1 + |IntText(a.port)| <= 29
  {
    hide IntText;
    if |a.host| + 1 + |IntText(a.port)| <= 29 {
      forall b: Conn | b.name == AddressText(b.host, b.port) && b.name == a.name ensures AddrOf(b) == AddrOf(a) {
        FullNamesTellServersApart(a, b);
      }
    } else {
      var host := a.name + a.host + "x";
      var b := Conn(a.name, host, 0);
      assert (host + ":" + IntText(0))[..30] == a.name;
      assert AddrOf(b) != AddrOf(a);
    }
  }

  lemma RebuiltWellNamed(old': map<int, Conn>, w: World, md5: Md5)
    requires WellFormed(w.reply) && WellNamed(old')
    ensures WellNamed(Rebuilt(old', w, md5))
  {
  }

  /** A key whose last update during the resharding was a SET, sent by the do_jedis pair: before the
      exchange it reads back that value; after it, it does so exactly if the second ring's server is the same
      one, or goes by another name, or happened to hold the value already. */
  lemma CutoverKeepsWriteIff(c: Center, stores: Stores, rs: seq<Req>, w: World, md5: Md5, key: string, text: string)
    requires Settled(c) && c.state == SYNING && WellNamed(c.cur) && WellNamed(c.nxt)
    requires WellFormed(w.reply) && LastUpdate(rs, key) == Some(Set(text))
    ensures var s := PairAll(c, stores, rs, md5);
            var c' := Handle(c, CONFIG_SHARDCHANNEL_KEY, SHARD_NORMAL_STATUS, w, md5);
            var a, b := On(c.cur, key, md5), On(c.nxt, key, md5);
            && Read(s, a, key) == Some(Text(text))
            && c'.cur == c.nxt
            && (Read(s, On(c'.cur, key, md5), key) == Some(Text(text)) <==>
                  a.name != b.name || AddrOf(a) == AddrOf(b) || Read(stores, b, key) == Some(Text(text)))
  {
    hide RouteKey, Rebuilt, RebuildOk, AddressText;
    var a, b := On(c.cur, key, md5), On(c.nxt, key, md5);
    PairRun(c, stores, rs, md5, key);
    LastSetWins(Read(stores, a, key), rs, key, true, false);
    LastSetWins(Read(stores, b, key), rs, key, false, false);
    SameServerSameName(c, key, md5);
  }

  /** The cutover: START with a healthy table, requests by the do_jedis pair, NORMAL. If the connection names
      fit their buffers, every key whose last update in between was a SET reads back its value, before and
      after the exchange of the rings. */
  lemma CutoverKeepsWrites(c0: Center, stores: Stores, w: World, rs: seq<Req>, w': World, md5: Md5, key: string,
                           text: string)
    requires Settled(c0) && c0.state == NORMAL && WellNamed(c0.cur) && WellNamed(c0.nxt)
    requires Healthy(w) && WellFormed(w'.reply) && LastUpdate(rs, key) == Some(Set(text))
    requires NamesFit(c0.cur) && NamesFit(Rebuilt(c0.nxt, w, md5))
    ensures var c1 := Handle(c0, CONFIG_SHARDCHANNEL_KEY, SHARD_START_STATUS, w, md5);
            var c2 := Handle(c1, CONFIG_SHARDCHANNEL_KEY, SHARD_NORMAL_STATUS, w', md5);
            && Settled(c1) && c1.state == SYNING && Settled(c2) && c2.state == NORMAL
            && Read(PairAll(c1, stores, rs, md5), On(c1.cur, key, md5), key) == Some(Text(text))
            && Read(PairAll(c1, stores, rs, md5), On(c2.cur, key, md5), key) == Some(Text(text))
  {
    hide RouteKey, Rebuilt, RebuildOk, AddressText, PairAll, Read, LastUpdate, Parse, Connected, AddrOf;
    HealthyRebuildOk(w);
    RebuiltEmptyIff(c0.nxt, w, md5);
    RebuiltWellNamed(c0.nxt, w, md5);
    var c1 := Handle(c0, CONFIG_SHARDCHANNEL_KEY, SHARD_START_STATUS, w, md5);
    CutoverKeepsWriteIff(c1, stores, rs, w', md5, key, text);
    OnFits(c1.cur, key, md5);
    OnFits(c1.nxt, key, md5);
    FullNamesTellServersApart(On(c1.cur, key, md5), On(c1.nxt, key, md5));
  }

  lemma OnFits(ring: map<int, Conn>, key: string, md5: Md5)
    requires ring != map[] && WellNamed(ring) && NamesFit(ring)
    ensures var a := On(ring, key, md5);
            a.name == AddressText(a.host, a.port) && |a.host| + 1 + |IntText(a.port)| <= 30
  {
  }

  /** Two different servers whose long host names print alike: the write of a SET does not reach the second one. */
  lemma LongNamesLoseWrites(md5: Md5)
    ensures var x, y := "a-host-name-of-thirty-two-char-1", "a-host-name-of-thirty-two-char-2";
            var c := Center(map[0 := Conn(AddressText(x, 1), x, 1)], map[0 := Conn(AddressText(y, 1), y, 1)], SYNING);
            && Settled(c) && WellNamed(c.cur) && WellNamed(c.nxt)
            && Read(PairAll(c, map[], [Req("k", Set("v"))], md5), On(c.nxt, "k", md5), "k") == None
  {
    var x, y := "a-host-name-of-thirty-two-char-1", "a-host-name-of-thirty-two-char-2";
    var c := Center(map[0 := Conn(AddressText(x, 1), x, 1)], map[0 := Conn(AddressText(y, 1), y, 1)], SYNING);
    assert x[31] != y[31];
    assert (x + ":" + IntText(1))[..30] == x[..30] == y[..30] == (y + ":" + IntText(1))[..30];
    assert 0 in c.cur && 0 in c.nxt;
    PairRun(c, map[], [Req("k", Set("v"))], md5, "k");
  }

  // ---- the execute overloads

  /** The current ring stays authoritative for the overloads: it reads back the last SET, in spite of the
      repeated commands. After the exchange the key reads back that value exactly if both rings use the same
      server for it, or the second server happened to hold it already. */
  lemma OverloadsLoseWriteIff(c: Center, stores: Stores, rs: seq<Req>, w: World, md5: Md5, key: string, text: string)
    requires Settled(c) && c.state == SYNING && WellNamed(c.cur) && WellNamed(c.nxt)
    requires WellFormed(w.reply) && LastUpdate(rs, key) == Some(Set(text))
    ensures var s := OverloadAll(c, stores, rs, md5);
            var c' := Handle(c, CONFIG_SHARDCHANNEL_KEY, SHARD_NORMAL_STATUS, w, md5);
            var a, b := On(c.cur, key, md5), On(c.nxt, key, md5);
            && Read(s, a, key) == Some(Text(text))
            && (Read(s, On(c'.cur, key, md5), key) == Some(Text(text)) <==>
                  AddrOf(a) == AddrOf(b) || Read(stores, b, key) == Some(Text(text)))
  {
    hide RouteKey, Rebuilt, RebuildOk, AddressText;
    var a, b := On(c.cur, key, md5), On(c.nxt, key, md5);
    OverloadRun(c, stores, rs, md5, key);
    LastSetWins(Read(stores, a, key), rs, key, true, a.name != b.name);
  }

  /** In the normal state too, and there nothing is repeated. */
  lemma {:induction false} NormalRun(c: Center, stores: Stores, rs: seq<Req>, md5: Md5, key: string)
    requires c.cur != map[] && c.state != SYNING
    ensures OverloadAll(c, stores, rs, md5) == PairAll(c, stores, rs, md5)
    ensures Read(PairAll(c, stores, rs, md5), On(c.cur, key, md5), key)
            == Replay(Read(stores, On(c.cur, key, md5), key), rs, key, true, false)
    decreases |rs|
  {
    hide Eval;
    if rs != [] {
      var r := rs[0];
      SendEffect(stores, On(c.cur, r.key, md5), r.key, r.cmd, On(c.cur, key, md5), key);
      NormalRun(c, Pair(c, stores, r, md5).value, rs[1..], md5, key);
    }
  }

  /** The current ring stays authoritative up to the exchange: over requests by the overloads in the normal
      state, START, and more requests, the server that the current ring has for a key holds what all its
      commands make of the value it had, where only announced writes after START may count twice; in particular
      it holds the last SET. */
  lemma OldRingStaysAuthoritative(c0: Center, stores: Stores, rs: seq<Req>, w: World, rs': seq<Req>, md5: Md5,
                                  key: string)
    requires Settled(c0) && c0.state == NORMAL && WellNamed(c0.cur) && Healthy(w)
    ensures var c1 := Handle(c0, CONFIG_SHARDCHANNEL_KEY, SHARD_START_STATUS, w, md5);
            var s := OverloadAll(c1, OverloadAll(c0, stores, rs, md5), rs', md5);
            var a := On(c0.cur, key, md5);
            && c1.cur == c0.cur && c1.state == SYNING && c1.nxt != map[]
            && Read(s, a, key) == Replay(Replay(Read(stores, a, key), rs, key, true, false), rs', key, true,
                                         a.name != On(c1.nxt, key, md5).name)
            && (LastUpdate(rs + rs', key).Some? && LastUpdate(rs + rs', key).value.Set? ==>
                  Read(s, a, key) == Some(Text(LastUpdate(rs + rs', key).value.text)))
  {
    hide RouteKey, Rebuilt, RebuildOk, AddressText, OverloadAll, PairAll, Read, LastUpdate, Parse, Connected, AddrOf,
         Replay;
    HealthyRebuildOk(w);
    RebuiltEmptyIff(c0.nxt, w, md5);
    RebuiltWellNamed(c0.nxt, w, md5);
    var c1 := Handle(c0, CONFIG_SHARDCHANNEL_KEY, SHARD_START_STATUS, w, md5);
    var a, s := On(c0.cur, key, md5), OverloadAll(c0, stores, rs, md5);
    var twice := a.name != On(c1.nxt, key, md5).name;
    NormalRun(c0, stores, rs, md5, key);
    OverloadRun(c1, s, rs', md5, key);
    LastSetWins(Read(stores, a, key), rs, key, true, false);
    LastSetWins(Read(s, a, key), rs', key, true, twice);
    LastUpdateConcat(rs, rs', key);
  }

  lemma {:induction false} LastUpdateConcat(a: seq<Req>, b: seq<Req>, key: string)
    ensures LastUpdate(a + b, key) == if LastUpdate(b, key).Some? then LastUpdate(b, key) else LastUpdate(a, key)
    decreases |a|
  {
    if a == [] {
      assert a + b == b;
    } else {
      assert (a + b)[1..] == a[1..] + b;
      LastUpdateConcat(a[1..], b, key);
    }
  }

  // ---- where the overloads differ from the pair

  /** The command leaves something behind on a key that has no value. */
  predicate Creates(cmd: Command) { cmd.Set? || (cmd.Rpush? && cmd.items != []) }

  /** The commands include a write to the key that creates something. */
  ghost predicate SomeCreates(rs: seq<Req>, key: string) {
    exists i :: 0 <= i < |rs| && rs[i].key == key && Creates(rs[i].cmd)
  }

  /** Announced writes alone leave a key without a value exactly if it had none and none of them creates one. */
  lemma {:induction false} WritesLeaveNothingIff(v: Option<Value>, rs: seq<Req>, key: string)
    ensures Replay(v, rs, key, false, false) == None <==> v == None && !SomeCreates(rs, key)
    decreases |rs|
  {
    if rs != [] {
      WritesLeaveNothingIff(ReplayOne(v, rs[0], key, false, false), rs[1..], key);
      assert SomeCreates(rs, key) <==> (rs[0].key == key && Creates(rs[0].cmd)) || SomeCreates(rs[1..], key) by {
        assert forall i :: 0 <= i < |rs[1..]| ==> rs[1..][i] == rs[i + 1];
        if SomeCreates(rs, key) {
          var i :| 0 <= i < |rs| && rs[i].key == key && Creates(rs[i].cmd);
          assert i > 0 ==> rs[1..][i - 1] == rs[i];
        }
      }
    }
  }

  ghost predicate Due(c: Center, r: Req, md5: Md5) { SecondDue(c, RouteKey(md5, c.cur, r.key), r, md5) == Some(true) }

  /** The overloads and the pair leave the same on all servers, whatever these hold before, exactly if no
      command that creates a value is due a second time. */
  lemma OverloadsArePairsIff(c: Center, rs: seq<Req>, md5: Md5)
    requires c.cur != map[] && WellNamed(c.cur) && WellNamed(c.nxt)
    ensures (forall stores :: OverloadAll(c, stores, rs, md5) == PairAll(c, stores, rs, md5)) <==>
            forall i :: 0 <= i < |rs| && Creates(rs[i].cmd) ==> !Due(c, rs[i], md5)
  {
    hide RouteKey, AddressText, OverloadAll, PairAll, Replay;
    if i :| 0 <= i < |rs| && Creates(rs[i].cmd) && Due(c, rs[i], md5) {
      var key := rs[i].key;
      NonEmptyRoutes(c.nxt, key, md5);
      PairRun(c, map[], rs, md5, key);
      OverloadRun(c, map[], rs, md5, key);
      WritesLeaveNothingIff(None, rs, key);
      assert SomeCreates(rs, key);
      SameServerSameName(c, key, md5);
      assert OverloadAll(c, map[], rs, md5) != PairAll(c, map[], rs, md5);
    } else {
      forall stores ensures OverloadAll(c, stores, rs, md5) == PairAll(c, stores, rs, md5) {
        HarmlessRun(c, stores, rs, md5);
      }
    }
  }

  lemma NonEmptyRoutes(ring: map<int, Conn>, key: string, md5: Md5)
    ensures ring != map[] <==> RouteKey(md5, ring, key).Some?
  {
  }

  lemma {:induction false} HarmlessRun(c: Center, stores: Stores, rs: seq<Req>, md5: Md5)
    requires c.cur != map[]
    requires forall i :: 0 <= i < |rs| && Creates(rs[i].cmd) ==> !Due(c, rs[i], md5)
    ensures OverloadAll(c, stores, rs, md5) == PairAll(c, stores, rs, md5)
    decreases |rs|
  {
    hide RouteKey, Send;
    if rs != [] {
      HarmlessStep(c, stores, rs[0], md5);
      assert forall i :: 0 <= i < |rs[1..]| ==> rs[1..][i] == rs[i + 1];
      HarmlessRun(c, Pair(c, stores, rs[0], md5).value, rs[1..], md5);
    }
  }

  lemma HarmlessStep(c: Center, stores: Stores, r: Req, md5: Md5)
    requires c.cur != map[] && (Creates(r.cmd) ==> !Due(c, r, md5))
    ensures Overload(c, stores, r, md5) == Pair(c, stores, r, md5) && Pair(c, stores, r, md5).Some?
  {
    hide RouteKey, Send;
    NonEmptyRoutes(c.cur, r.key, md5);
    if Due(c, r, md5) {
      var j, k := On(c.cur, r.key, md5), RouteKey(md5, c.nxt, r.key).value;
      EmptyPush(stores, j, r.key, r.cmd);
      EmptyPush(stores, k, r.key, r.cmd);
    }
  }

  lemma EmptyPush(stores: Stores, j: Conn, key: string, cmd: Command)
    requires IsWrite(cmd) && !Creates(cmd)
    ensures Send(stores, j, key, cmd) == stores
  {
  }

  /** Repeating a command is harmless exactly if it is not a push that takes effect; a push is doubled. */
  lemma RepeatedPushDoubles(v: Option<Value>, cmd: Command)
    ensures Eval(Eval(v, cmd), cmd) == Eval(v, cmd) <==>
            !(cmd.Rpush? && cmd.items != [] && (v == None || v.value.List?))
    ensures cmd.Rpush? && v == Some(List([])) ==> Eval(Eval(v, cmd), cmd) == Some(List(cmd.items + cmd.items))
  {
    if cmd.Rpush? && cmd.items != [] {
      match v
      case None =>
        assert |cmd.items + cmd.items| != |cmd.items|;
      case Some(List(xs)) =>
        assert |xs + cmd.items + cmd.items| != |xs + cmd.items|;
        assert [] + cmd.items + cmd.items == cmd.items + cmd.items;
      case Some(Text(_)) =>
    }
  }

  // ---- lists

  /** Nothing but pushes and reads on the key. */
  ghost predicate OnlyPushes(rs: seq<Req>, key: string) {
    forall i :: 0 <= i < |rs| && rs[i].key == key ==> rs[i].cmd.Rpush? || rs[i].cmd.Get?
  }

  /** All that is pushed to the key, in order. */
  function Pushed(rs: seq<Req>, key: string): seq<string>
    decreases |rs|
  {
    if rs == [] then []
    else (if rs[0].key == key && rs[0].cmd.Rpush? then rs[0].cmd.items else []) + Pushed(rs[1..], key)
  }

  /** The value with items added at its end; a text stays as it is. */
  function Appended(v: Option<Value>, items: seq<string>): Option<Value> {
    if items == [] || (v.Some? && v.value.Text?) then v
    else Some(List((if v.Some? then v.value.items else []) + items))
  }

  lemma AppendedTwice(v: Option<Value>, a: seq<string>, b: seq<string>)
    ensures Appended(Appended(v, a), b) == Appended(v, a + b)
  {
    if a == [] {
      assert a + b == b;
    } else if b == [] {
      assert a + b == a;
    } else if v.Some? && v.value.List? {
      Regroup(v.value.items, a, b);
    } else {
      Regroup([], a, b);
    }
  }

  lemma {:induction false} PushesAccumulate(v: Option<Value>, rs: seq<Req>, key: string, all: bool)
    requires OnlyPushes(rs, key)
    ensures Replay(v, rs, key, all, false) == Appended(v, Pushed(rs, key))
    decreases |rs|
  {
    hide Appended;
    if rs == [] {
      assert Appended(v, []) == v by {
        AppendedNothing(v);
      }
    } else {
      var items := if rs[0].key == key && rs[0].cmd.Rpush? then rs[0].cmd.items else [];
      assert forall i :: 0 <= i < |rs[1..]| ==> rs[1..][i] == rs[i + 1];
      PushIsAppended(v, rs[0], key, all);
      PushesAccumulate(ReplayOne(v, rs[0], key, all, false), rs[1..], key, all);
      AppendedTwice(v, items, Pushed(rs[1..], key));
    }
  }

  lemma AppendedNothing(v: Option<Value>)
    ensures Appended(v, []) == v
  {
  }

  lemma PushIsAppended(v: Option<Value>, r: Req, key: string, all: bool)
    requires r.key == key ==> r.cmd.Rpush? || r.cmd.Get?
    ensures ReplayOne(v, r, key, all, false) == Appended(v, if r.key == key && r.cmd.Rpush? then r.cmd.items else [])
  {
    if r.key == key && r.cmd.Rpush? && v.None? {
      assert [] + r.cmd.items == r.cmd.items;
    }
  }

  /** Pushes by the pair during a resharding: each of two differently named servers appends everything that was
      pushed, in order and once, to what it held. */
  lemma PairKeepsPushes(c: Center, stores: Stores, rs: seq<Req>, md5: Md5, key: string)
    requires c.cur != map[] && c.nxt != map[] && c.state == SYNING && WellNamed(c.cur) && WellNamed(c.nxt)
    requires OnlyPushes(rs, key)
    ensures var s := PairAll(c, stores, rs, md5);
            var a, b := On(c.cur, key, md5), On(c.nxt, key, md5);
            && Read(s, a, key) == Appended(Read(stores, a, key), Pushed(rs, key))
            && (a.name != b.name ==> Read(s, b, key) == Appended(Read(stores, b, key), Pushed(rs, key)))
  {
    hide RouteKey, AddressText, PairAll, Replay, Pushed, Appended;
    var a, b := On(c.cur, key, md5), On(c.nxt, key, md5);
    PairRun(c, stores, rs, md5, key);
    PushesAccumulate(Read(stores, a, key), rs, key, true);
    PushesAccumulate(Read(stores, b, key), rs, key, false);
    SameServerSameName(c, key, md5);
  }

  /** Deleting is not announced as a write. A key whose last update during a resharding is a deletion reads
      nothing before the exchange. After it, it reads nothing exactly if both rings use the same server for it,
      or the second server had no value and got none: its name is the same, or no write created one. */
  lemma DeletedKeyStaysDeletedIff(c: Center, stores: Stores, rs: seq<Req>, w: World, md5: Md5, key: string)
    requires Settled(c) && c.state == SYNING && WellNamed(c.cur) && WellNamed(c.nxt)
    requires WellFormed(w.reply) && LastUpdate(rs, key) == Some(Del)
    ensures var s := PairAll(c, stores, rs, md5);
            var c' := Handle(c, CONFIG_SHARDCHANNEL_KEY, SHARD_NORMAL_STATUS, w, md5);
            var a, b := On(c.cur, key, md5), On(c.nxt, key, md5);
            && Read(s, a, key) == None
            && (Read(s, On(c'.cur, key, md5), key) == None <==>
                  || AddrOf(a) == AddrOf(b)
                  || (Read(stores, b, key) == None && (a.name == b.name || !SomeCreates(rs, key))))
  {
    hide RouteKey, AddressText, Rebuilt, RebuildOk, PairAll, Replay, LastUpdate;
    var a, b := On(c.cur, key, md5), On(c.nxt, key, md5);
    PairRun(c, stores, rs, md5, key);
    LastSetWins(Read(stores, a, key), rs, key, true, false);
    WritesLeaveNothingIff(Read(stores, b, key), rs, key);
  }
}
