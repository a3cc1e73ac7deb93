/** DataCenter as an object that owns two rings (cppredis/DataCenter.cpp): building, rebuilding, swapping
    and destroying them. Each method is tied to a function of module Center, and none leaks a shard or a
    connection or deletes one twice. */
module DataCenterObjects {
  import opened Wrappers
  import opened Strings
  import opened Hashing
  import opened Ring
  import opened Shards
  import opened ShardedObjects
  import opened Center
  import Splitter

  class DataCenter {
    var sharded: Sharded
    var shardedNew: Sharded
    var state: int
    const md5: Md5
    ghost const ledger: Ledger

    ghost predicate Distinct()
      reads this`sharded, this`shardedNew, sharded, shardedNew
    {
      && sharded != shardedNew
      && sharded.resources.Keys !! shardedNew.resources.Keys
      && sharded.resources.Values !! shardedNew.resources.Values
    }

    /** What was made is dead unless one of the two rings owns it, or it is a shard that still waits for its
        ring; what a ring owns is alive, as part of the ring's own validity. */
    ghost predicate Owned(pending: set<ShardInfo>)
      reads this`sharded, this`shardedNew, ledger, sharded, shardedNew, ledger.infos, ledger.conns
    {
      && sharded.resources.Keys <= ledger.infos && shardedNew.resources.Keys <= ledger.infos
      && sharded.resources.Values <= ledger.conns && shardedNew.resources.Values <= ledger.conns
      && (forall s {:trigger s in ledger.infos} :: s in ledger.infos && s.live ==>
            s in sharded.resources.Keys || s in shardedNew.resources.Keys || s in pending)
      && (forall j {:trigger j in ledger.conns} :: j in ledger.conns && j.live ==>
            j in sharded.resources.Values || j in shardedNew.resources.Values)
    }

    ghost predicate ValidBut(pending: set<ShardInfo>)
      reads this`sharded, this`shardedNew, ledger, sharded, shardedNew, ledger.infos, ledger.conns,
            sharded.resources.Keys, sharded.resources.Values, shardedNew.resources.Keys, shardedNew.resources.Values
    {
      && Distinct() && Owned(pending) && sharded.Valid() && shardedNew.Valid()
      && sharded.PointsIffOwners() && shardedNew.PointsIffOwners()
    }

    ghost predicate Valid()
      reads this`sharded, this`shardedNew, ledger, sharded, shardedNew, ledger.infos, ledger.conns,
            sharded.resources.Keys, sharded.resources.Values, shardedNew.resources.Keys, shardedNew.resources.Values
    {
      ValidBut({})
    }

    /** Shards that were just made and belong to no ring. */
    ghost predicate Pending(infos: seq<ShardInfo>)
      reads this`sharded, this`shardedNew, ledger, sharded, shardedNew, infos
    {
      && (forall s :: s in infos ==>
            s.live && s in ledger.infos && s !in sharded.resources && s !in shardedNew.resources && s.desc.weight > 0)
      && (forall i, j :: 0 <= i < j < |infos| ==> infos[i] != infos[j])
    }

    ghost function View(): Center
      reads this, sharded, shardedNew
    {
      Center(ConnsOf(Descs(sharded.nodes)), ConnsOf(Descs(shardedNew.nodes)), state)
    }

    constructor (md5: Md5)
      ensures Valid() && View() == FRESH_CENTER
      ensures fresh(sharded) && fresh(shardedNew) && ledger.infos == {} && ledger.conns == {} && this.md5 == md5
              && fresh(ledger)
    {
      this.md5 := md5;
      state := NORMAL;
      var a := new Sharded();
      var b := new Sharded();
      sharded, shardedNew := a, b;
      ghost var l := new Ledger();
      ledger := l;
    }

    /** The shards of an address table, newly made; entries that do not split are skipped. */
    method MakeShards(r: Reply) returns (infos: seq<ShardInfo>)
      requires WellFormed(r)
      modifies ledger`infos
      ensures ledger.infos == old(ledger.infos) + (set s | s in infos)
      ensures DescsOf(infos) == Parse(r, 0)
      ensures forall i :: 0 <= i < |infos| ==> fresh(infos[i]) && infos[i].live
      ensures forall i, j :: 0 <= i < j < |infos| ==> infos[i] != infos[j]
    {
      hide MakeShard, Atoi, Splitter.Pieces, Less;
      infos := [];
      var i := 0;
      while i < |r.names|
        invariant i <= |r.names| && ledger.infos == old(ledger.infos) + (set s | s in infos)
        invariant DescsOf(infos) + Parse(r, i) == Parse(r, 0)
        invariant forall j :: 0 <= j < |infos| ==> fresh(infos[j]) && infos[j].live
        invariant forall j, k :: 0 <= j < k < |infos| ==> infos[j] != infos[k]
      {
        var addr := r.addrs[i];
        ghost var before := infos;
        if addr != "" {
          var ok, vec := Splitter.Split2Vec(addr, [], ADDRESS_SEPARATOR, 2);
          if ok {
            var s := new ShardInfo(ledger, vec[0], Atoi(vec[1]), DEFAULT_WEIGHT, r.names[i]);
            infos := infos + [s];
            assert DescsOf(infos) == DescsOf(before) + [s.desc];
          }
        }
        i := i + 1;
      }
    }

    /** The same, with what this means for the ownership. */
    method MakePending(r: Reply) returns (infos: seq<ShardInfo>)
      requires Valid() && WellFormed(r)
      modifies ledger`infos
      ensures ValidBut(set s | s in infos) && Pending(infos) && View() == old(View()) && DescsOf(infos) == Parse(r, 0)
      ensures forall i :: 0 <= i < |infos| ==> fresh(infos[i])
      ensures ledger.infos == old(ledger.infos) + (set s | s in infos)
    {
      hide Sharded.Valid, Sharded.PointsIffOwners, Parse, Descs, ConnsOf, Less;
      infos := MakeShards(r);
      ParsedShards(r, 0);
      forall s | s in infos ensures s.desc.weight > 0 {
        var i :| 0 <= i < |infos| && infos[i] == s;
        assert Parse(r, 0)[i] in Parse(r, 0);
      }
    }

    /** Destroy a ring and build it again from new shards: what it owned is dead, what it owns now is new. */
    method Replace(target: Sharded, infos: seq<ShardInfo>, up: nat -> bool) returns (ok: bool, ghost made: set<Jedis>)
      requires target.Valid()
      requires forall s :: s in infos ==> s.live && s !in target.resources && s.desc.weight > 0
      requires forall i, j :: 0 <= i < j < |infos| ==> infos[i] != infos[j]
      modifies ledger`conns, target, target.resources.Keys, target.resources.Values, infos
      ensures ledger.conns == old(ledger.conns) + made
      ensures target.Valid() && target.PointsIffOwners() && fresh(made)
      ensures Descs(target.nodes) == RingOf(md5, DescsOf(infos), up)
      ensures ok == (Connected(DescsOf(infos), up, 0) != [])
      ensures forall s :: s in old(target.resources.Keys) ==> !s.live
      ensures forall j :: j in old(target.resources.Values) ==> !j.live
      ensures forall s :: s in target.resources ==> s in infos
      ensures forall s :: s in infos && s.live ==> s in target.resources
      ensures target.resources.Values <= made
      ensures forall j :: j in made && j.live ==> j in target.resources.Values
    {
      hide Sharded.Valid, Sharded.PointsIffOwners, RingOf, Descs, Connected, Reached, Build, Entries;
      target.Destroy();
      NewRing(md5, infos, up);
      var vec;
      ok, vec, made := target.Init(ledger, infos, up, md5);
      forall s | s in infos && s.live ensures s in target.resources {
        var i :| 0 <= i < |infos| && infos[i] == s;
        ReachedMember(infos, up, |infos|, i);
      }
    }

    /** Rebuild the current ring from pending shards. */
    method RebuildCurrent(infos: seq<ShardInfo>, up: nat -> bool) returns (ok: bool)
      requires ValidBut(set s | s in infos) && Pending(infos)
      modifies ledger`conns, sharded, sharded.resources.Keys, sharded.resources.Values, infos
      ensures Valid() && ok == (Connected(DescsOf(infos), up, 0) != [])
      ensures old(ledger.conns) <= ledger.conns && fresh(ledger.conns - old(ledger.conns))
      ensures View() == old(View()).(cur := ConnsOf(RingOf(md5, DescsOf(infos), up)))
    {
      hide Sharded.Valid, Sharded.PointsIffOwners, RingOf, Descs, DescsOf, ConnsOf, Connected;
      ghost var made;
      ok, made := Replace(sharded, infos, up);
      assert shardedNew.Valid();
      assert Distinct() && Owned({});
    }

    /** Rebuild the second ring from pending shards. */
    method RebuildSecond(infos: seq<ShardInfo>, up: nat -> bool) returns (ok: bool)
      requires ValidBut(set s | s in infos) && Pending(infos)
      modifies ledger`conns, shardedNew, shardedNew.resources.Keys, shardedNew.resources.Values, infos
      ensures Valid() && ok == (Connected(DescsOf(infos), up, 0) != [])
      ensures old(ledger.conns) <= ledger.conns && fresh(ledger.conns - old(ledger.conns))
      ensures View() == old(View()).(nxt := ConnsOf(RingOf(md5, DescsOf(infos), up)))
    {
      hide Sharded.Valid, Sharded.PointsIffOwners, RingOf, Descs, DescsOf, ConnsOf, Connected;
      ghost var made;
      ok, made := Replace(shardedNew, infos, up);
      assert sharded.Valid();
      assert Distinct() && Owned({});
    }

    /** init_sharded on one of the two rings. */
    method InitSharded(second: bool, w: World) returns (ok: bool)
      requires Valid() && WellFormed(w.reply)
      modifies ledger, sharded, shardedNew
      modifies sharded.resources.Keys, sharded.resources.Values, shardedNew.resources.Keys, shardedNew.resources.Values
      ensures Valid() && ok == RebuildOk(w)
      ensures old(ledger.infos) <= ledger.infos && fresh(ledger.infos - old(ledger.infos))
      ensures old(ledger.conns) <= ledger.conns && fresh(ledger.conns - old(ledger.conns))
      ensures View() == if second then old(View()).(nxt := Rebuilt(old(View()).nxt, w, md5))
                        else old(View()).(cur := Rebuilt(old(View()).cur, w, md5))
    {
      hide Sharded.Valid, Sharded.PointsIffOwners, Parse, RingOf, Descs, ConnsOf, Less, Connected, Owned, Distinct,
           Pending, ValidBut;
      if w.reply.names == [] {
        EmptyTable(w.reply);
        return false;
      }
      var infos := MakePending(w.reply);
      ok := true;
      if infos == [] {
        assert (set s | s in infos) == {};
      } else {
        if second {
          ok := RebuildSecond(infos, w.up);
        } else {
          ok := RebuildCurrent(infos, w.up);
        }
      }
    }

    /** The end of a resharding: destroy the current ring and exchange the two. */
    method Convert()
      requires Valid()
      modifies this`sharded, this`shardedNew, this`state, sharded, sharded.resources.Keys, sharded.resources.Values
      ensures Valid() && View() == Center(old(View()).nxt, map[], NORMAL)
      ensures sharded == old(shardedNew) && shardedNew == old(sharded)
    {
      hide Sharded.Valid, Sharded.PointsIffOwners;
      var temp := sharded;
      sharded.Destroy();
      assert shardedNew.Valid();
      sharded := shardedNew;
      shardedNew := temp;
      state := NORMAL;
    }

    /** handle_subs, under the write guard. */
    method HandleSubs(channel: string, value: string, w: World)
      requires Valid() && WellFormed(w.reply)
      modifies this, ledger, sharded, shardedNew
      modifies sharded.resources.Keys, sharded.resources.Values, shardedNew.resources.Keys, shardedNew.resources.Values
      ensures Valid() && View() == Handle(old(View()), channel, value, w, md5)
      ensures {sharded, shardedNew} == {old(sharded), old(shardedNew)}
      ensures old(ledger.infos) <= ledger.infos && fresh(ledger.infos - old(ledger.infos))
      ensures old(ledger.conns) <= ledger.conns && fresh(ledger.conns - old(ledger.conns))
    {
      hide Sharded.Valid, Sharded.PointsIffOwners, Rebuilt, RebuildOk, Descs, ConnsOf, WellFormed, Owned, Distinct;
      if channel == CONFIG_SHARDCHANNEL_KEY {
        if value == SHARD_START_STATUS {
          var ok := InitSharded(true, w);
          if ok {
            state := SYNING;
          }
        } else if value == SHARD_NORMAL_STATUS {
          Convert();
        } else if value == SHARD_CHANGE_STATUS {
          var _ := InitSharded(false, w);
        }
      }
    }

    /** init of a new object, for the value of the status key and the answers to the readings of "address"
        and "oldaddress". */
    method Init(status: string, w: World, old': World) returns (ok: bool)
      requires Valid() && View() == FRESH_CENTER && ledger.infos == {} && ledger.conns == {}
      requires WellFormed(w.reply) && WellFormed(old'.reply)
      modifies this, ledger, sharded, shardedNew
      modifies sharded.resources.Keys, sharded.resources.Values, shardedNew.resources.Keys, shardedNew.resources.Values
      ensures Valid() && (View(), ok) == Start(status, w, old', md5)
      ensures sharded == old(sharded) && shardedNew == old(shardedNew)
      ensures old(ledger.infos) <= ledger.infos && fresh(ledger.infos - old(ledger.infos))
      ensures old(ledger.conns) <= ledger.conns && fresh(ledger.conns - old(ledger.conns))
    {
      hide Sharded.Valid, Sharded.PointsIffOwners, Rebuilt, RebuildOk, Descs, ConnsOf, Atoi;
      if status == "" {
        return false;
      }
      state := Atoi(status);
      if state == SYNING {
        ok := InitSharded(true, w);
        if !ok {
          return false;
        }
        ok := InitSharded(false, old');
      } else {
        ok := InitSharded(false, w);
      }
    }

    /** The subscriber's loop, for the messages that arrive. What was made stays on record, what is alive is
        owned by a ring, and what was dead stays dead. */
    method Serve(msgs: seq<Msg>)
      requires Valid() && RunOk(msgs)
      modifies this, ledger, sharded, shardedNew, ledger.infos, ledger.conns
      ensures Valid() && View() == HandleAll(old(View()), msgs, md5)
      ensures {sharded, shardedNew} == {old(sharded), old(shardedNew)}
      ensures old(ledger.infos) <= ledger.infos && fresh(ledger.infos - old(ledger.infos))
      ensures old(ledger.conns) <= ledger.conns && fresh(ledger.conns - old(ledger.conns))
      ensures forall s :: s in old(ledger.infos) && !old(s.live) ==> !s.live
      ensures forall j :: j in old(ledger.conns) && !old(j.live) ==> !j.live
    {
      hide Sharded.Valid, Sharded.PointsIffOwners, Handle, Descs, ConnsOf, WellFormed, Owned, Distinct, ValidBut;
      var i := 0;
      while i < |msgs|
        invariant i <= |msgs| && Valid()
        invariant HandleAll(View(), msgs[i..], md5) == HandleAll(old(View()), msgs, md5)
        invariant {sharded, shardedNew} == {old(sharded), old(shardedNew)}
        invariant old(ledger.infos) <= ledger.infos && fresh(ledger.infos - old(ledger.infos))
        invariant old(ledger.conns) <= ledger.conns && fresh(ledger.conns - old(ledger.conns))
        invariant forall s :: s in old(ledger.infos) && !old(s.live) ==> !s.live
        invariant forall j :: j in old(ledger.conns) && !old(j.live) ==> !j.live
      {
        OwnedAreLive();
        ghost var rest := msgs[i..];
        assert rest[0] == msgs[i] && rest[1..] == msgs[i + 1..];
        HandleSubs(msgs[i].channel, msgs[i].value, msgs[i].world);
        i := i + 1;
      }
      assert msgs[i..] == [];
    }

    lemma OwnedAreLive()
      requires Valid()
      ensures sharded.resources.Keys <= ledger.infos && shardedNew.resources.Keys <= ledger.infos
      ensures sharded.resources.Values <= ledger.conns && shardedNew.resources.Values <= ledger.conns
      ensures forall s :: s in sharded.resources.Keys || s in shardedNew.resources.Keys ==> s.live
      ensures forall j :: j in sharded.resources.Values || j in shardedNew.resources.Values ==> j.live
    {
    }

    /** The destructor leaves nothing alive that was ever made for a ring. */
    method Destroy()
      requires Valid()
      modifies sharded, shardedNew
      modifies sharded.resources.Keys, sharded.resources.Values, shardedNew.resources.Keys, shardedNew.resources.Values
      ensures forall s :: s in ledger.infos ==> !s.live
      ensures forall j :: j in ledger.conns ==> !j.live
    {
      hide Sharded.Valid, Sharded.PointsIffOwners;
      sharded.Destroy();
      assert shardedNew.Valid();
      shardedNew.Destroy();
    }

    /** What Sharded.Init builds from a list in an empty ring. */
    lemma NewRing(md5: Md5, infos: seq<ShardInfo>, up: nat -> bool)
      ensures Descs(map[]) == map[]
      ensures Build(map[], Entries(md5, DescsOf(infos), up, 0)) == RingOf(md5, DescsOf(infos), up)
      ensures Reached(infos, up, |infos|) == {} <==> Connected(DescsOf(infos), up, 0) == []
      ensures forall s :: s in Reached(infos, up, |infos|) ==> s in infos
    {
      ReachedSome(infos, up, |infos|);
      ConnectedSome(DescsOf(infos), up, 0);
    }
  }

  /** A whole life: construction, init, any messages, destruction. Every shard and every connection that was
      allocated in it is dead at the end. */
  method Lifetime(md5: Md5, status: string, w: World, old': World, msgs: seq<Msg>)
    returns (ok: bool, ghost center: Center, ghost ledger: Ledger)
    requires WellFormed(w.reply) && WellFormed(old'.reply) && RunOk(msgs)
    ensures ok == Start(status, w, old', md5).1 && center == HandleAll(Start(status, w, old', md5).0, msgs, md5)
    ensures fresh(ledger) && (forall s :: s in ledger.infos ==> !s.live) && (forall j :: j in ledger.conns ==> !j.live)
  {
    hide HandleAll, Start, Sharded.Valid;
    var d := new DataCenter(md5);
    ledger := d.ledger;
    ok := d.Init(status, w, old');
    d.Serve(msgs);
    center := d.View();
    d.Destroy();
  }

  lemma {:induction false} ReachedSome(infos: seq<ShardInfo>, up: nat -> bool, n: nat)
    requires n <= |infos|
    ensures Reached(infos, up, n) == {} <==> forall i :: 0 <= i < n ==> !up(i)
    ensures forall s :: s in Reached(infos, up, n) ==> s in infos
  {
    if n > 0 {
      ReachedSome(infos, up, n - 1);
      assert up(n - 1) ==> infos[n - 1] in Reached(infos, up, n);
    }
  }

  lemma {:induction false} ReachedMember(infos: seq<ShardInfo>, up: nat -> bool, n: nat, i: nat)
    requires i < |infos| && n <= |infos| && forall j, k :: 0 <= j < k < |infos| ==> infos[j] != infos[k]
    ensures infos[i] in Reached(infos, up, n) <==> i < n && up(i)
  {
    if n > 0 {
      ReachedMember(infos, up, n - 1, i);
      assert i != n - 1 ==> infos[i] != infos[n - 1];
    }
  }

  lemma {:induction false} ConnectedSome(shards: seq<Shard>, up: nat -> bool, i: nat)
    requires i <= |shards|
    ensures Connected(shards, up, i) == [] <==> forall j :: i <= j < |shards| ==> !up(j)
    decreases |shards| - i
  {
    if i < |shards| {
      ConnectedSome(shards, up, i + 1);
    }
  }
}
