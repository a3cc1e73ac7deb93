/** What the resharding messages do to the two rings and the state (cppredis/DataCenter.cpp), as functions
    on values. The answers of the configuration server are inputs. */
module Center {
  import opened Wrappers
  import opened Strings
  import opened Hashing
  import opened Ring
  import opened Shards
  import Splitter

  const CONFIG_SHARDCHANNEL_KEY := "shardchannel"
  const SHARD_NORMAL_STATUS := "0"
  const SHARD_START_STATUS := "1"
  const SHARD_CHANGE_STATUS := "3"
  const ADDRESS_SEPARATOR := ":"

  // SYN_STATE; atoi can store any other number as well
  const NORMAL := 0
  const SYNING := 1

  /** The names that hkeys returns, in the order of a set, and what hget returns for each. */
  datatype Reply = Reply(names: seq<string>, addrs: seq<string>)

  /** The answer to one reading of the address table, and the outcomes of the connection attempts after it. */
  datatype World = World(reply: Reply, up: nat -> bool)

  predicate WellFormed(r: Reply) {
    && |r.names| == |r.addrs|
    && forall i, j :: 0 <= i < j < |r.names| ==> Less(r.names[i], r.names[j])
  }

  /** The shard made from one address, if it splits into two parts at a colon. */
  function ParseOne(name: string, addr: string): Option<Shard> {
    var vec := Splitter.Pieces(addr, ADDRESS_SEPARATOR, 2);
    if addr != "" && |vec| >= 2 then Some(MakeShard(vec[0], Atoi(vec[1]), DEFAULT_WEIGHT, name)) else None
  }

  /** The shards of the table from entry `i` on; entries that do not parse are skipped. */
  function Parse(r: Reply, i: nat): seq<Shard>
    requires |r.names| == |r.addrs| && i <= |r.names|
    decreases |r.names| - i
  {
    if i == |r.names| then []
    else
      match ParseOne(r.names[i], r.addrs[i])
      case None => Parse(r, i + 1)
      case Some(s) => [s] + Parse(r, i + 1)
  }

  datatype Center = Center(cur: map<int, Conn>, nxt: map<int, Conn>, state: int)

  const FRESH_CENTER := Center(map[], map[], NORMAL)

  /** The ring that a rebuild leaves in place of `old`: the old one if there is nothing to parse. */
  function Rebuilt(old': map<int, Conn>, w: World, md5: Md5): map<int, Conn>
    requires WellFormed(w.reply)
  {
    var shards := Parse(w.reply, 0);
    if shards == [] then old' else ConnsOf(RingOf(md5, shards, w.up))
  }

  /** What init_sharded returns: false on an empty table, or when shards were made but none could be reached. */
  function RebuildOk(w: World): bool
    requires WellFormed(w.reply)
  {
    w.reply.names != [] && (Parse(w.reply, 0) == [] || Connected(Parse(w.reply, 0), w.up, 0) != [])
  }

  function Handle(c: Center, channel: string, value: string, w: World, md5: Md5): Center
    requires WellFormed(w.reply)
  {
    if channel != CONFIG_SHARDCHANNEL_KEY then c
    else if value == SHARD_START_STATUS then
      c.(nxt := Rebuilt(c.nxt, w, md5), state := if RebuildOk(w) then SYNING else c.state)
    else if value == SHARD_NORMAL_STATUS then Center(c.nxt, map[], NORMAL)
    else if value == SHARD_CHANGE_STATUS then c.(cur := Rebuilt(c.cur, w, md5))
    else c
  }

  /** DataCenter::init, for the text of the status key and the answers to the readings of "address" and
      "oldaddress". The connections to the configuration server are taken to succeed. */
  function Start(status: string, w: World, old': World, md5: Md5): (Center, bool)
    requires WellFormed(w.reply) && WellFormed(old'.reply)
  {
    var c := FRESH_CENTER;
    if status == "" then (c, false)
    else
      var c := c.(state := Atoi(status));
      if c.state == SYNING then
        var c := c.(nxt := Rebuilt(c.nxt, w, md5));
        if !RebuildOk(w) then (c, false)
        else (c.(cur := Rebuilt(c.cur, old', md5)), RebuildOk(old'))
      else (c.(cur := Rebuilt(c.cur, w, md5)), RebuildOk(w))
  }

  // ---- what the rebuilds keep

  lemma {:induction false} ParsedShards(r: Reply, i: nat)
    requires |r.names| == |r.addrs| && i <= |r.names|
    ensures Named(Parse(r, i)) && forall s :: s in Parse(r, i) ==> s.weight == DEFAULT_WEIGHT
    decreases |r.names| - i
  {
    hide MakeShard, Atoi, Splitter.Pieces;
    if i < |r.names| {
      ParsedShards(r, i + 1);
      ParsedOne(r.names[i], r.addrs[i]);
    }
  }

  /** What one address is read as: the host is what stands before the first colon, the port is the number
      between it and the next one, and something must follow the first colon. A shard without a name is named
      after its address, as far as that fits. */
  lemma ParsedParts(name: string, addr: string)
    ensures match Find(addr, ":", 0)
            case None => ParseOne(name, addr) == None
            case Some(p) =>
              var rest := addr[p + 1..];
              var port := Atoi(match Find(rest, ":", 0) case None => rest case Some(q) => rest[..q]);
              && (rest == "" ==> ParseOne(name, addr) == None)
              && (rest != "" ==>
                    && ParseOne(name, addr).Some?
                    && var s := ParseOne(name, addr).value;
                    && s.host == addr[..p] && s.port == port && s.weight == 1
                    && (name != "" ==> s.name == name)
                    && (name == "" ==> s.name == Fit(addr[..p] + ":" + IntText(port), 30)))
  {
    hide Atoi, Find;
    match Find(addr, ":", 0)
    case None =>
    case Some(p) =>
      Splitter.OneMorePiece(addr, ":", 2, p);
      var rest := addr[p + 1..];
      match Find(rest, ":", 0)
      case None =>
      case Some(q) => Splitter.OneMorePiece(rest, ":", 1, q);
  }

  /** An address is read as what it says, whatever follows the port, and connected to there; a port beyond 16
      bits is cut off. */
  lemma ParsedAddress(name: string, host: string, port: int, tail: string)
    requires ':' !in host && (tail == "" || tail[0] == ':')
    ensures var r := ParseOne(name, host + ":" + IntText(port) + tail);
            && r.Some? && r.value.host == host && r.value.port == port
            && (0 <= port < 0x1_0000 ==> ConnOf(r.value) == Conn(Fit(host + ":" + IntText(port), 30), host, port))
            && ConnOf(r.value).host == host && 0 <= ConnOf(r.value).port < 0x1_0000
            && (port - ConnOf(r.value).port) % 0x1_0000 == 0
  {
    hide Atoi, Find, IntText, ParseOne, Fit;
    var addr, rest := host + ":" + IntText(port) + tail, IntText(port) + tail;
    assert addr == host + ":" + rest;
    ParsedParts(name, addr);
    FirstColon(host, rest);
    assert addr[|host| + 1..] == rest && addr[..|host|] == host;
    PortOf(port, tail);
  }

  lemma PortOf(port: int, tail: string)
    requires tail == "" || tail[0] == ':'
    ensures var rest := IntText(port) + tail;
            Atoi(match Find(rest, ":", 0) case None => rest case Some(q) => rest[..q]) == port
  {
    hide Atoi, Find;
    var rest := IntText(port) + tail;
    AtoiReadsBack(port);
    if tail == "" {
      assert rest == IntText(port);
      NoColon(rest);
    } else {
      assert rest == IntText(port) + ":" + tail[1..];
      FirstColon(IntText(port), tail[1..]);
    }
  }

  lemma FirstColon(a: string, b: string)
    requires ':' !in a
    ensures Find(a + ":" + b, ":", 0) == Some(|a|)
  {
    var s := a + ":" + b;
    assert s[|a|..] == ":" + b;
    forall i: nat | i < |a| ensures !At(s, ":", i) {
      assert s[i..][0] == a[i];
    }
    FindIs(s, ":", |a|);
  }

  lemma NoColon(a: string)
    requires ':' !in a
    ensures Find(a, ":", 0) == None
  {
    FindIsFirst(a, ":", 0);
    forall i: nat ensures !At(a, ":", i) {
      if i < |a| {
        assert a[i..][0] == a[i];
      }
    }
  }

  /** Exactly the entries that parse become shards. */
  lemma {:induction false} ParsedExactly(r: Reply, i: nat, s: Shard)
    requires |r.names| == |r.addrs| && i <= |r.names|
    ensures s in Parse(r, i) <==> exists j :: i <= j < |r.names| && ParseOne(r.names[j], r.addrs[j]) == Some(s)
    decreases |r.names| - i
  {
    hide ParseOne;
    if i < |r.names| {
      ParsedExactly(r, i + 1, s);
    }
  }

  lemma ParsedOne(name: string, addr: string)
    ensures match ParseOne(name, addr)
            case None => true
            case Some(s) => s.name != "" && s.weight == DEFAULT_WEIGHT && (name != "" ==> s.name == name)
  {
  }

  lemma {:induction false} ParsedAfter(r: Reply, i: nat, name: string)
    requires WellFormed(r) && "" !in r.names && i <= |r.names|
    requires forall j :: i <= j < |r.names| ==> Less(name, r.names[j])
    ensures forall s :: s in Parse(r, i) ==> Less(name, s.name)
    decreases |r.names| - i
  {
    hide MakeShard, Atoi, Splitter.Pieces, Less, ParseOne;
    if i < |r.names| {
      ParsedAfter(r, i + 1, name);
      ParsedOne(r.names[i], r.addrs[i]);
      assert r.names[i] in r.names;
    }
  }

  /** The shards come in the order of their names. */
  lemma {:induction false} ParsedSorted(r: Reply, i: nat)
    requires WellFormed(r) && "" !in r.names && i <= |r.names|
    ensures SortedByName(Parse(r, i))
    decreases |r.names| - i
  {
    hide MakeShard, Atoi, Splitter.Pieces, Less, ParseOne;
    if i < |r.names| {
      ParsedSorted(r, i + 1);
      ParsedAfter(r, i + 1, r.names[i]);
      ParsedOne(r.names[i], r.addrs[i]);
      assert r.names[i] in r.names;
      var rest := Parse(r, i + 1);
      assert forall j :: 0 <= j < |rest| ==> rest[j] in rest;
    }
  }

  /** Two rebuilds from two tables: for all hashes and outages a key changes its shard only when the old shard
      is not connected any more or the new one was not connected before, exactly if no two shards change places
      between the tables. They never do if no field name is empty; the shard of an empty one is named after its
      address but stands first. */
  lemma RebuildsMoveLittleIff(r: Reply, r': Reply)
    requires WellFormed(r) && WellFormed(r')
    ensures (forall md5, up, up', key :: Stable(md5, Parse(r, 0), up, Parse(r', 0), up', key)) <==>
            !Swapped(Parse(r, 0), Parse(r', 0))
    ensures "" !in r.names && "" !in r'.names ==> !Swapped(Parse(r, 0), Parse(r', 0))
  {
    hide Parse, Stable, Swapped, SortedByName;
    ParsedShards(r, 0);
    ParsedShards(r', 0);
    RebuildsAreStableIff(Parse(r, 0), Parse(r', 0));
    if "" !in r.names && "" !in r'.names {
      ParsedSorted(r, 0);
      ParsedSorted(r', 0);
      SortedAreNotSwapped(Parse(r, 0), Parse(r', 0));
    }
  }

  /** A ring of shards with the default weight is empty exactly when none of them is connected. */
  lemma RingEmptyIff(md5: Md5, shards: seq<Shard>, up: nat -> bool)
    requires Named(shards) && forall s :: s in shards ==> s.weight == DEFAULT_WEIGHT
    ensures ConnsOf(RingOf(md5, shards, up)) == map[] <==> Connected(shards, up, 0) == []
  {
    var live := Connected(shards, up, 0);
    UnreachableActAsAbsent(md5, shards, up);
    ConnectedAreShards(shards, up, 0);
    RingOfNamed(md5, live);
    var nodes := RingOf(md5, shards, up);
    if live != [] {
      assert live[0] in live;
      NamedEntriesAt(md5, live, 0);
      var p := EntryOf(md5, live[0], 0).points[0];
      PointIsNode(NamedEntries(md5, live), 0, p);
      assert p in ConnsOf(nodes);
    }
  }

  /** A rebuild that has something to parse leaves a non-empty ring exactly when a server answers. */
  lemma RebuiltEmptyIff(old': map<int, Conn>, w: World, md5: Md5)
    requires WellFormed(w.reply)
    ensures Rebuilt(old', w, md5) == map[] <==>
            if Parse(w.reply, 0) == [] then old' == map[] else Connected(Parse(w.reply, 0), w.up, 0) == []
  {
    hide ConnsOf, RingOf, Connected;
    ParsedShards(w.reply, 0);
    RingEmptyIff(md5, Parse(w.reply, 0), w.up);
  }

  /** The table has an address that parses and a server that answers. */
  ghost predicate Healthy(w: World) {
    WellFormed(w.reply) && Parse(w.reply, 0) != [] && Connected(Parse(w.reply, 0), w.up, 0) != []
  }

  // ---- runs

  datatype Msg = Msg(channel: string, value: string, world: World)

  ghost predicate RunOk(msgs: seq<Msg>) { forall i :: 0 <= i < |msgs| ==> WellFormed(msgs[i].world.reply) }

  function HandleAll(c: Center, msgs: seq<Msg>, md5: Md5): Center
    requires RunOk(msgs)
    decreases |msgs|
  {
    if msgs == [] then c
    else HandleAll(Handle(c, msgs[0].channel, msgs[0].value, msgs[0].world, md5), msgs[1..], md5)
  }

  /** The messages that a resharding is meant to send: a start or a change only in the normal state, an end
      only while syning, and a healthy table behind every rebuild. Other messages may come at any time. */
  ghost predicate Conforming(c: Center, m: Msg) {
    && WellFormed(m.world.reply)
    && (m.channel == CONFIG_SHARDCHANNEL_KEY ==>
          && (m.value == SHARD_START_STATUS || m.value == SHARD_CHANGE_STATUS ==> c.state == NORMAL && Healthy(m.world))
          && (m.value == SHARD_NORMAL_STATUS ==> c.state == SYNING))
  }

  ghost predicate ConformingRun(c: Center, msgs: seq<Msg>, md5: Md5)
    decreases |msgs|
  {
    msgs == [] ||
    (Conforming(c, msgs[0])
     && ConformingRun(Handle(c, msgs[0].channel, msgs[0].value, msgs[0].world, md5), msgs[1..], md5))
  }

  /** The current ring serves, and the second ring exists exactly during a resharding. */
  ghost predicate Settled(c: Center) {
    && c.cur != map[]
    && (c.state == NORMAL || c.state == SYNING)
    && (c.nxt != map[] <==> c.state == SYNING)
  }

  lemma {:induction false} ConformingRunsKeepSettled(c: Center, msgs: seq<Msg>, md5: Md5)
    requires Settled(c) && ConformingRun(c, msgs, md5)
    ensures RunOk(msgs) && Settled(HandleAll(c, msgs, md5))
    decreases |msgs|
  {
    hide Rebuilt, RebuildOk, Parse, Connected;
    if msgs != [] {
      var m := msgs[0];
      RebuiltEmptyIff(c.nxt, m.world, md5);
      RebuiltEmptyIff(c.cur, m.world, md5);
      HealthyRebuildOk(m.world);
      var c' := Handle(c, m.channel, m.value, m.world, md5);
      ConformingRunsKeepSettled(c', msgs[1..], md5);
      assert forall i :: 0 < i < |msgs| ==> msgs[i] == msgs[1..][i - 1];
    }
  }

  lemma HealthyRebuildOk(w: World)
    ensures Healthy(w) ==> RebuildOk(w)
  {
  }

  /** A successful start in a known state with healthy tables is settled. */
  lemma StartSettles(status: string, w: World, old': World, md5: Md5)
    requires Healthy(w) && Healthy(old') && status != "" && (Atoi(status) == NORMAL || Atoi(status) == SYNING)
    ensures Start(status, w, old', md5).1 && Settled(Start(status, w, old', md5).0)
  {
    hide Rebuilt, Parse, Connected, Atoi;
    RebuiltEmptyIff(map[], w, md5);
    RebuiltEmptyIff(map[], old', md5);
    HealthyRebuildOk(w);
    HealthyRebuildOk(old');
  }

  /** Neither starts nor ends a resharding. */
  ghost predicate Between(m: Msg) {
    m.channel == CONFIG_SHARDCHANNEL_KEY ==> m.value != SHARD_START_STATUS && m.value != SHARD_NORMAL_STATUS
  }

  lemma {:induction false} BetweenKeepsSecondRing(c: Center, msgs: seq<Msg>, md5: Md5)
    requires RunOk(msgs) && forall i :: 0 <= i < |msgs| ==> Between(msgs[i])
    ensures HandleAll(c, msgs, md5).nxt == c.nxt
    decreases |msgs|
  {
    hide Rebuilt, RebuildOk;
    if msgs != [] {
      var m := msgs[0];
      assert forall i :: 0 <= i < |msgs[1..]| ==> msgs[1..][i] == msgs[i + 1];
      BetweenKeepsSecondRing(Handle(c, m.channel, m.value, m.world, md5), msgs[1..], md5);
    }
  }

  /** The ring routes the key to the shard that the table gives it, among the servers that answered. */
  ghost predicate Serves(ring: map<int, Conn>, w: World, md5: Md5, key: string)
    requires WellFormed(w.reply)
  {
    match RouteKey(md5, RingOf(md5, Connected(Parse(w.reply, 0), w.up, 0), AllUp()), key)
    case None => RouteKey(md5, ring, key) == None
    case Some(s) => RouteKey(md5, ring, key) == Some(ConnOf(s))
  }

  /** A rebuild from a table that parses serves the table; from any table, if there was no ring. */
  lemma RebuiltServes(old': map<int, Conn>, w: World, md5: Md5, key: string)
    requires WellFormed(w.reply)
    ensures Parse(w.reply, 0) != [] || old' == map[] ==> Serves(Rebuilt(old', w, md5), w, md5, key)
  {
    hide Parse, Hash, ConnOf, Build, ConnsOf;
    var shards := Parse(w.reply, 0);
    ParsedShards(w.reply, 0);
    UnreachableActAsAbsent(md5, shards, w.up);
    RouteOfConns(md5, RingOf(md5, shards, w.up), key);
    if shards == [] {
      NoShards(md5);
    }
  }

  lemma NoShards(md5: Md5)
    ensures RingOf(md5, [], AllUp()) == map[]
  {
  }

  /** After a start message, anything but another start or end, and an end message, every key is routed to the
      shard that the start message's table gives it, among the servers that answered then. */
  lemma ReshardingInstallsTable(c: Center, w: World, msgs: seq<Msg>, w': World, md5: Md5, key: string)
    requires WellFormed(w.reply) && Parse(w.reply, 0) != [] && WellFormed(w'.reply)
    requires RunOk(msgs) && forall i :: 0 <= i < |msgs| ==> Between(msgs[i])
    ensures var c1 := Handle(c, CONFIG_SHARDCHANNEL_KEY, SHARD_START_STATUS, w, md5);
            var c2 := Handle(HandleAll(c1, msgs, md5), CONFIG_SHARDCHANNEL_KEY, SHARD_NORMAL_STATUS, w', md5);
            c2.nxt == map[] && c2.state == NORMAL && Serves(c2.cur, w, md5, key)
  {
    hide Parse, Rebuilt, RebuildOk, Serves;
    RebuiltServes(c.nxt, w, md5, key);
    BetweenKeepsSecondRing(Handle(c, CONFIG_SHARDCHANNEL_KEY, SHARD_START_STATUS, w, md5), msgs, md5);
  }

  /** What each message installs: "3" the table as the current ring, "1" the table as the second one, "0" the
      second ring as the current one. A table in which nothing parses leaves its ring alone, and nothing else
      changes anything. */
  lemma MessagesInstall(c: Center, channel: string, value: string, w: World, md5: Md5, key: string)
    requires WellFormed(w.reply)
    ensures var c' := Handle(c, channel, value, w, md5);
            var shards := Parse(w.reply, 0);
            if channel != "shardchannel" then c' == c
            else if value == "3" then
              && c'.nxt == c.nxt && c'.state == c.state
              && (if shards == [] then c'.cur == c.cur else Serves(c'.cur, w, md5, key))
            else if value == "1" then
              && c'.cur == c.cur && (if shards == [] then c'.nxt == c.nxt else Serves(c'.nxt, w, md5, key))
              && c'.state == (if w.reply.names == [] || (shards != [] && Connected(shards, w.up, 0) == []) then c.state
                              else SYNING)
            else if value == "0" then c' == Center(c.nxt, map[], NORMAL)
            else c' == c
  {
    hide Parse, Connected, Rebuilt, Serves;
    RebuiltServes(c.cur, w, md5, key);
    RebuiltServes(c.nxt, w, md5, key);
    NothingParsed(c, w, md5);
  }

  lemma NothingParsed(c: Center, w: World, md5: Md5)
    requires WellFormed(w.reply)
    ensures Parse(w.reply, 0) == [] ==> Rebuilt(c.cur, w, md5) == c.cur && Rebuilt(c.nxt, w, md5) == c.nxt
  {
  }

  /** Routing to connections is routing to their shards. */
  lemma RouteOfConns(md5: Md5, nodes: map<int, Shard>, key: string)
    ensures match RouteKey(md5, nodes, key)
            case None => RouteKey(md5, ConnsOf(nodes), key) == None
            case Some(s) => RouteKey(md5, ConnsOf(nodes), key) == Some(ConnOf(s))
  {
    hide Hash, ConnOf;
    NoKeys(nodes);
    NoKeys(ConnsOf(nodes));
    assert ConnsOf(nodes).Keys == nodes.Keys;
  }

  /** A reading of a table fails if the table is empty, or if none of its servers answers. */
  ghost predicate Fails(w: World)
    requires WellFormed(w.reply)
  {
    w.reply.names == [] || (Parse(w.reply, 0) != [] && Connected(Parse(w.reply, 0), w.up, 0) == [])
  }

  /** What a start of the service builds. In the normal state the table "address" becomes the current ring.
      During a resharding, which status 1 stands for, "address" becomes the second ring and "oldaddress" the
      current one, unless reading the first fails. */
  lemma StartInstalls(status: string, w: World, old': World, md5: Md5, key: string)
    requires WellFormed(w.reply) && WellFormed(old'.reply)
    ensures var (c, ok) := Start(status, w, old', md5);
            if status == "" then c == Center(map[], map[], 0) && !ok
            else
              && c.state == Atoi(status)
              && if c.state == 1 then
                   && Serves(c.nxt, w, md5, key)
                   && (if Fails(w) then c.cur == map[] && !ok else Serves(c.cur, old', md5, key) && ok == !Fails(old'))
                 else
                   Serves(c.cur, w, md5, key) && c.nxt == map[] && ok == !Fails(w)
  {
    hide Parse, Connected, Rebuilt, Serves, Atoi;
    RebuiltServes(map[], w, md5, key);
    RebuiltServes(map[], old', md5, key);
  }

  /** Without the assumptions of a conforming run: a message empties a serving ring exactly when it is an end
      message without a second ring, or a change to a table whose servers all fail to answer. */
  lemma CurrentRingIsLostIff(c: Center, m: Msg, md5: Md5)
    requires c.cur != map[] && WellFormed(m.world.reply)
    ensures Handle(c, m.channel, m.value, m.world, md5).cur == map[] <==>
            && m.channel == CONFIG_SHARDCHANNEL_KEY
            && ((m.value == SHARD_NORMAL_STATUS && c.nxt == map[])
                || (m.value == SHARD_CHANGE_STATUS && Parse(m.world.reply, 0) != []
                    && Connected(Parse(m.world.reply, 0), m.world.up, 0) == []))
  {
    hide Rebuilt, Parse, Connected;
    RebuiltEmptyIff(c.cur, m.world, md5);
  }

  /** A start message leaves the syning state without a second ring exactly when nothing in its table parses
      and there was no second ring before (the table is not empty, or the state was syning already), or when it
      repeats an earlier start and no server in its table answers. */
  lemma SyningWithoutSecondRingIff(c: Center, w: World, md5: Md5)
    requires WellFormed(w.reply)
    ensures var c' := Handle(c, CONFIG_SHARDCHANNEL_KEY, SHARD_START_STATUS, w, md5);
            c'.state == SYNING && c'.nxt == map[] <==>
            if Parse(w.reply, 0) == [] then c.nxt == map[] && (w.reply.names != [] || c.state == SYNING)
            else c.state == SYNING && Connected(Parse(w.reply, 0), w.up, 0) == []
  {
    hide Rebuilt, Parse, Connected;
    RebuiltEmptyIff(c.nxt, w, md5);
    EmptyTable(w.reply);
  }

  lemma EmptyTable(r: Reply)
    requires WellFormed(r)
    ensures r.names == [] ==> Parse(r, 0) == []
  {
  }

  /** One server whose address has no colon. */
  const UNPARSABLE_TABLE := Reply(["a"], ["localhost"])

  lemma UnparsableTable()
    ensures WellFormed(UNPARSABLE_TABLE) && Parse(UNPARSABLE_TABLE, 0) == []
  {
    var text := "localhost";
    forall i: nat ensures !At(text, ":", i) {
      if i < |text| {
        assert text[i..][0] == text[i];
      }
    }
    FindIsFirst(text, ":", 0);
    assert ParseOne("a", text) == None;
    assert Parse(UNPARSABLE_TABLE, 1) == [];
  }

  /** With that table a start message, from any settled normal state, enters the syning state without a second
      ring, and the end message that follows leaves no ring at all. */
  lemma UnparsableStartLosesRings(c: Center, up: nat -> bool, w': World, md5: Md5)
    requires Settled(c) && c.state == NORMAL && WellFormed(w'.reply)
    ensures WellFormed(UNPARSABLE_TABLE)
    ensures var w := World(UNPARSABLE_TABLE, up);
            var c1 := Handle(c, CONFIG_SHARDCHANNEL_KEY, SHARD_START_STATUS, w, md5);
            var c2 := Handle(c1, CONFIG_SHARDCHANNEL_KEY, SHARD_NORMAL_STATUS, w', md5);
            c1.state == SYNING && c1.nxt == map[] && c2 == Center(map[], map[], NORMAL)
  {
    hide Parse, Connected, RebuildOk, Rebuilt;
    UnparsableTable();
    SyningWithoutSecondRingIff(c, World(UNPARSABLE_TABLE, up), md5);
  }
}
