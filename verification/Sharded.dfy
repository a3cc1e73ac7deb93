/** ShardInfo, Jedis and Sharded as objects (cppredis/shardinfo.h, cppredis/jedis.cpp,
    cppredis/sharded.cpp). `delete` is modelled by a flag: deleting a dead object is not allowed, so every
    verified method is free of double deletion. Whether a server answers is an input. */
module ShardedObjects {
  import opened Wrappers
  import opened Strings
  import opened Hashing
  import opened RingOrder
  import opened Ring
  import opened Shards

  /** The objects allocated so far. Every allocation is entered by the constructor of what is allocated. */
  class Ledger {
    ghost var infos: set<ShardInfo>
    ghost var conns: set<Jedis>

    ghost constructor ()
      ensures infos == {} && conns == {}
    {
      infos, conns := {}, {};
    }
  }

  class ShardInfo {
    const desc: Shard
    var live: bool

    constructor (ghost ledger: Ledger, host: string, port: int, weight: int, name: string)
      modifies ledger`infos
      ensures live && desc == MakeShard(host, port, weight, name)
      ensures ledger.infos == old(ledger.infos) + {this}
    {
      desc := MakeShard(host, port, weight, name);
      live := true;
      new;
      ledger.infos := ledger.infos + {this};
    }

    method Delete()
      requires live
      modifies this
      ensures !live
    {
      live := false;
    }

    /** createResource: a connection that fails is deleted at once. */
    method CreateResource(ghost ledger: Ledger, reachable: bool) returns (j: Jedis?, ghost made: Jedis)
      modifies ledger`conns
      ensures ledger.conns == old(ledger.conns) + {made}
      ensures fresh(made) && (reachable ==> j == made && j.live) && (!reachable ==> j == null && !made.live)
      ensures made.conn == ConnOf(desc)
    {
      var c := new Jedis(ledger, desc);
      made := c;
      if reachable {
        j := c;
      } else {
        c.Delete();
        j := null;
      }
    }
  }

  class Jedis {
    const conn: Conn
    var live: bool

    constructor (ghost ledger: Ledger, s: Shard)
      modifies ledger`conns
      ensures live && conn == ConnOf(s)
      ensures ledger.conns == old(ledger.conns) + {this}
    {
      conn := ConnOf(s);
      live := true;
      new;
      ledger.conns := ledger.conns + {this};
    }

    method Delete()
      requires live
      modifies this
      ensures !live
    {
      live := false;
    }
  }

  /** The nodes with shards by value. */
  ghost function Descs(nodes: map<int, ShardInfo>): map<int, Shard> { map p | p in nodes :: nodes[p].desc }

  ghost function DescsOf(infos: seq<ShardInfo>): (descs: seq<Shard>)
    ensures |descs| == |infos| && forall i :: 0 <= i < |infos| ==> descs[i] == infos[i].desc
  {
    seq(|infos|, i requires 0 <= i < |infos| => infos[i].desc)
  }

  /** The shards among the first `n` whose connections succeed. */
  ghost function Reached(infos: seq<ShardInfo>, up: nat -> bool, n: nat): set<ShardInfo>
    requires n <= |infos|
  {
    if n == 0 then {} else Reached(infos, up, n - 1) + (if up(n - 1) then {infos[n - 1]} else {})
  }

  lemma ReachedNone(infos: seq<ShardInfo>, up: nat -> bool)
    ensures Reached(infos, up, 0) == {}
  {
  }

  lemma ReachedStep(infos: seq<ShardInfo>, up: nat -> bool, n: nat)
    requires n < |infos|
    ensures Reached(infos, up, n + 1) == Reached(infos, up, n) + (if up(n) then {infos[n]} else {})
  {
  }

  lemma DescsInsert(nodes: map<int, ShardInfo>, p: int, s: ShardInfo)
    ensures Descs(Insert(nodes, p, s)) == Insert(Descs(nodes), p, s.desc)
  {
  }

  lemma {:induction false} InsertAllSnoc<T>(nodes: map<int, T>, ps: seq<int>, p: int, x: T)
    ensures InsertAll(nodes, ps + [p], x) == Insert(InsertAll(nodes, ps, x), p, x)
    decreases |ps|
  {
    if ps == [] {
      assert ([] + [p])[1..] == [];
    } else {
      assert (ps + [p])[1..] == ps[1..] + [p];
      InsertAllSnoc(Insert(nodes, ps[0], x), ps[1..], p, x);
    }
  }

  /** One more point inserted. */
  lemma OnePoint(before: map<int, Shard>, nodes: map<int, ShardInfo>, md5: Md5, s: ShardInfo, i: nat, n: nat)
    requires Descs(nodes) == InsertAll(before, Points(md5, s.desc, i, n), s.desc)
    ensures Descs(Insert(nodes, Hash(md5, Label(s.desc, i, n)), s))
            == InsertAll(before, Points(md5, s.desc, i, n + 1), s.desc)
  {
    hide Hash, Label, InsertAll;
    var p := Hash(md5, Label(s.desc, i, n));
    assert Points(md5, s.desc, i, n + 1) == Points(md5, s.desc, i, n) + [p];
    InsertAllSnoc(before, Points(md5, s.desc, i, n), p, s.desc);
    DescsInsert(nodes, p, s);
  }

  lemma OneShard(md5: Md5, descs: seq<Shard>, up: nat -> bool, i: nat, before: map<int, Shard>)
    requires i < |descs|
    ensures Build(before, Entries(md5, descs, up, i))
            == Build(if up(i)
                     then InsertAll(before, Points(md5, descs[i], i, PointCount(descs[i])), descs[i])
                     else before,
                     Entries(md5, descs, up, i + 1))
  {
    var rest := Entries(md5, descs, up, i + 1);
    assert Entries(md5, descs, up, i) == (if up(i) then [EntryOf(md5, descs[i], i)] + rest else rest);
    assert ([EntryOf(md5, descs[i], i)] + rest)[1..] == rest;
  }

  lemma InsertNone(before: map<int, Shard>, md5: Md5, s: Shard, i: nat)
    ensures InsertAll(before, Points(md5, s, i, 0), s) == before
  {
  }

  lemma EndOfBuild(md5: Md5, descs: seq<Shard>, up: nat -> bool, nodes: map<int, Shard>)
    ensures Build(nodes, Entries(md5, descs, up, |descs|)) == nodes
  {
  }

  class Sharded {
    var nodes: map<int, ShardInfo>
    var resources: map<ShardInfo, Jedis>

    /** Every node's shard is a key of `resources`, and everything `resources` mentions is alive and mentioned once. */
    ghost predicate Valid()
      reads this, resources.Keys, resources.Values
    {
      && (forall p :: p in nodes ==> nodes[p] in resources)
      && (forall s :: s in resources ==> s.live && resources[s].live && resources[s].conn == ConnOf(s.desc))
      && (forall s, t :: s in resources && t in resources && s != t ==> resources[s] != resources[t])
    }

    constructor ()
      ensures Valid() && nodes == map[] && resources == map[]
    {
      nodes := map[];
      resources := map[];
    }

    /** The ring has points exactly if it owns a shard, as it does when all weights are positive. */
    ghost predicate PointsIffOwners()
      reads this
    {
      nodes == map[] <==> resources == map[]
    }

    /** destroy deletes each shard and each connection of this ring, once, and nothing else. */
    method Destroy()
      requires Valid()
      modifies this, resources.Keys, resources.Values
      ensures Valid() && PointsIffOwners() && nodes == map[] && resources == map[]
      ensures forall s :: s in old(resources.Keys) ==> !s.live
      ensures forall j :: j in old(resources.Values) ==> !j.live
    {
      var all := resources.Keys;
      var rest := all;
      while rest != {}
        invariant rest <= all == resources.Keys && resources == old(resources) && nodes == old(nodes)
        invariant forall s :: s in all ==> s.live == (s in rest) && resources[s].live == (s in rest)
        decreases rest
      {
        var s :| s in rest;
        s.Delete();
        resources[s].Delete();
        rest := rest - {s};
      }
      nodes := map[];
      resources := map[];
    }

    /** The virtual nodes of the shard at index `i`; an insertion that meets a taken point changes nothing. */
    method AddPoints(s: ShardInfo, i: nat, md5: Md5)
      modifies this`nodes
      ensures Descs(nodes) == InsertAll(old(Descs(nodes)), Points(md5, s.desc, i, PointCount(s.desc)), s.desc)
      ensures forall p :: p in nodes ==> nodes[p] == s || (p in old(nodes) && nodes[p] == old(nodes[p]))
      ensures s.desc.weight > 0 ==> nodes != map[]
    {
      hide Hash, Fit, IntText, InsertAll;
      ghost var before := Descs(nodes);
      InsertNone(before, md5, s.desc, i);
      var n := 0;
      if s.desc.name == "" {
        while n < POINTS_PER_WEIGHT * s.desc.weight
          invariant n <= PointCount(s.desc) && (n > 0 ==> nodes != map[])
          invariant Descs(nodes) == InsertAll(before, Points(md5, s.desc, i, n), s.desc)
          invariant forall p :: p in nodes ==> nodes[p] == s || (p in old(nodes) && nodes[p] == old(nodes[p]))
        {
          var key := Fit("SHARD-" + IntText(i) + "-NODE-" + IntText(n), 126);
          OnePoint(before, nodes, md5, s, i, n);
          nodes := Insert(nodes, Hash(md5, key), s);
          assert Hash(md5, key) in nodes;
          n := n + 1;
        }
      } else {
        while n < POINTS_PER_WEIGHT * s.desc.weight
          invariant n <= PointCount(s.desc) && (n > 0 ==> nodes != map[])
          invariant Descs(nodes) == InsertAll(before, Points(md5, s.desc, i, n), s.desc)
          invariant forall p :: p in nodes ==> nodes[p] == s || (p in old(nodes) && nodes[p] == old(nodes[p]))
        {
          var key := Fit(s.desc.name + "*" + IntText(s.desc.weight) + IntText(n), 126);
          OnePoint(before, nodes, md5, s, i, n);
          nodes := Insert(nodes, Hash(md5, key), s);
          assert Hash(md5, key) in nodes;
          n := n + 1;
        }
      }
    }

    /** One turn of the loop of init: connect, then either delete the shard or insert it. */
    method AddShard(ghost ledger: Ledger, s: ShardInfo, i: nat, reachable: bool, md5: Md5)
      returns (kept: bool, ghost made: Jedis)
      requires Valid() && s.live && s !in resources
      modifies this, s, ledger`conns
      ensures ledger.conns == old(ledger.conns) + {made}
      ensures Valid() && fresh(made) && kept == s.live == made.live == reachable
      ensures Descs(nodes) == if reachable
                              then InsertAll(old(Descs(nodes)), Points(md5, s.desc, i, PointCount(s.desc)), s.desc)
                              else old(Descs(nodes))
      ensures resources == if reachable then old(resources)[s := made] else old(resources)
      ensures resources.Values == old(resources.Values) + if reachable then {made} else {}
      ensures old(PointsIffOwners()) && s.desc.weight > 0 ==> PointsIffOwners()
    {
      hide InsertAll, Points, ConnOf, PointCount, Descs;
      var j;
      j, made := s.CreateResource(ledger, reachable);
      kept := j != null;
      if j == null {
        s.Delete();
      } else {
        AddPoints(s, i, md5);
        ghost var before := resources;
        resources := resources[s := j];
        assert forall t :: t in before ==> resources[t] == before[t];
        assert s in resources && resources[s] == j;
      }
    }

    /** init adds a list of freshly made shards; `up(i)` is the outcome of the i-th connection attempt.
        Shards that cannot be reached are deleted and become NULL in the vector, which is handed back. */
    method Init(ghost ledger: Ledger, infos: seq<ShardInfo>, up: nat -> bool, md5: Md5)
      returns (ok: bool, vec: seq<ShardInfo?>, ghost made: set<Jedis>)
      requires Valid() && Unused(infos)
      modifies this, infos, ledger`conns
      ensures ledger.conns == old(ledger.conns) + made
      ensures Valid() && fresh(made) && ok == (resources != map[])
      ensures Descs(nodes) == Build(old(Descs(nodes)), Entries(md5, DescsOf(infos), up, 0))
      ensures resources.Keys == old(resources.Keys) + Reached(infos, up, |infos|)
      ensures forall s :: s in old(resources) ==> resources[s] == old(resources[s])
      ensures resources.Values <= old(resources.Values) + made
      ensures forall j :: j in made ==> j.live == (j in resources.Values)
      ensures old(PointsIffOwners()) && (forall s :: s in infos ==> s.desc.weight > 0) ==> PointsIffOwners()
      ensures |vec| == |infos|
      ensures forall i :: 0 <= i < |infos| ==> infos[i].live == up(i) && vec[i] == if up(i) then infos[i] else null
    {
      ReachedNone(infos, up);
      hide Build, Entries, Points, Valid, Descs, DescsOf, InsertAll, PointCount, ConnOf, Reached, MakeShard,
           PointsIffOwners;
      made := {};
      vec := infos;
      ghost var goal := Build(Descs(nodes), Entries(md5, DescsOf(infos), up, 0));
      var i := 0;
      while i < |infos|
        invariant i <= |infos| && Valid() && fresh(made) && ledger.conns == old(ledger.conns) + made
        invariant Build(Descs(nodes), Entries(md5, DescsOf(infos), up, i)) == goal
        invariant forall j :: 0 <= j < |infos| ==> infos[j].live == (j >= i || up(j))
        invariant |vec| == |infos| && forall j :: 0 <= j < |infos| ==>
                    vec[j] == if j >= i || up(j) then infos[j] else null
        invariant resources.Keys == old(resources.Keys) + Reached(infos, up, i)
        invariant forall j :: i <= j < |infos| ==> infos[j] !in resources
        invariant old(PointsIffOwners()) && (forall s :: s in infos ==> s.desc.weight > 0) ==> PointsIffOwners()
        invariant forall s :: s in old(resources) ==> resources[s] == old(resources[s])
        invariant resources.Values <= old(resources.Values) + made
        invariant forall j :: j in made ==> j.live == (j in resources.Values)
      {
        OneShard(md5, DescsOf(infos), up, i, Descs(nodes));
        ReachedStep(infos, up, i);
        ghost var c;
        var kept;
        kept, c := AddShard(ledger, infos[i], i, up(i), md5);
        made := made + {c};
        if !kept {
          vec := vec[i := null];
        }
        i := i + 1;
      }
      EndOfBuild(md5, DescsOf(infos), up, Descs(nodes));
      ok := resources != map[];
    }

    /** Shards that were just made for this call. */
    ghost predicate Unused(infos: seq<ShardInfo>)
      reads this, infos
    {
      && (forall i :: 0 <= i < |infos| ==> infos[i].live && infos[i] !in resources)
      && (forall i, j :: 0 <= i < j < |infos| ==> infos[i] != infos[j])
    }

    /** getShardInfo: find, then upper_bound, then begin. */
    method GetShardInfo(key: string, md5: Md5) returns (s: ShardInfo?)
      ensures s == match RouteKey(md5, nodes, key) case None => null case Some(x) => x
    {
      if nodes == map[] {
        return null;
      }
      NoKeys(nodes);
      var h := Hash(md5, key);
      if h in nodes {
        s := nodes[h];
      } else {
        var above := Above(nodes.Keys, h);
        if above != {} {
          s := nodes[Least(above)];
        } else {
          s := nodes[Least(nodes.Keys)];
        }
      }
    }

    /** getShard: NULL exactly on an empty ring, which with positive weights is one that owns nothing. The shard
        found is always a key of `resources`, so indexing that map never adds an entry. */
    method GetShard(key: string, md5: Md5) returns (j: Jedis?)
      requires Valid()
      ensures j == null <==> nodes == map[]
      ensures PointsIffOwners() ==> (j == null <==> resources == map[])
      ensures j != null ==> j in resources.Values && j.live
      ensures RouteKey(md5, ConnsOf(Descs(nodes)), key) == if j == null then None else Some(j.conn)
    {
      var s := GetShardInfo(key, md5);
      SameRoute(key, md5);
      if s == null {
        j := null;
      } else {
        j := resources[s];
      }
    }

    /** Routing to shards and routing to their connections use the same node. */
    lemma SameRoute(key: string, md5: Md5)
      ensures match RouteKey(md5, nodes, key)
              case None => RouteKey(md5, ConnsOf(Descs(nodes)), key) == None
              case Some(s) => RouteKey(md5, ConnsOf(Descs(nodes)), key) == Some(ConnOf(s.desc))
    {
      NoKeys(nodes);
      NoKeys(ConnsOf(Descs(nodes)));
      assert ConnsOf(Descs(nodes)).Keys == nodes.Keys;
    }
  }
}
