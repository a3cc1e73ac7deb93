/** RedisTable (cppredis/DataCenter.cpp): the three ways in which a command reaches the servers, as methods
    that change the servers' stores. The read guard around them is the business of module Guarded. */
module RedisTableObjects {
  import opened Wrappers
  import opened Hashing
  import opened Ring
  import opened Shards
  import opened ShardedObjects
  import opened Center
  import opened DataCenterObjects
  import opened Cutover

  class Servers {
    var stores: Stores

    constructor ()
      ensures stores == map[]
    {
      stores := map[];
    }

    /** Jedis::execute on a connection to one of these servers. */
    method Execute(j: Jedis, key: string, cmd: Command)
      requires j.live
      modifies this
      ensures stores == Send(old(stores), j.conn, key, cmd)
    {
      var addr := AddrOf(j.conn);
      match Eval(Read(stores, j.conn, key), cmd)
      case None => stores := stores - {(addr, key)};
      case Some(v) => stores := stores[(addr, key) := v];
    }
  }

  function ConnOpt(j: Jedis?): Option<Conn> { if j == null then None else Some(j.conn) }

  class RedisTable {
    const dataCenter: DataCenter
    const servers: Servers

    constructor (dataCenter: DataCenter, servers: Servers)
      ensures this.dataCenter == dataCenter && this.servers == servers
    {
      this.dataCenter := dataCenter;
      this.servers := servers;
    }

    method DoJedisExecute(jedis: Jedis?, r: Req) returns (ret: bool)
      requires jedis != null ==> jedis.live
      modifies servers
      ensures servers.stores == SendOn(old(servers.stores), ConnOpt(jedis), r) && ret == (jedis != null)
    {
      if jedis != null {
        servers.Execute(jedis, r.key, r.cmd);
        ret := true;
      } else {
        ret := false;
      }
    }

    /** The name of a NULL connection must not be asked for. */
    method DoJedisNewExecute(jedis: Jedis?, r: Req)
      requires dataCenter.Valid()
      requires SecondDue(dataCenter.View(), ConnOpt(jedis), r, dataCenter.md5).Some?
      modifies servers
      ensures servers.stores
              == if SecondDue(dataCenter.View(), ConnOpt(jedis), r, dataCenter.md5) == Some(true)
                 then Send(old(servers.stores), RouteKey(dataCenter.md5, dataCenter.View().nxt, r.key).value,
                           r.key, r.cmd)
                 else old(servers.stores)
    {
      hide RouteKey, Descs, ConnsOf, Send, Sharded.PointsIffOwners;
      if dataCenter.state == SYNING && IsWrite(r.cmd) {
        var j := dataCenter.shardedNew.GetShard(r.key, dataCenter.md5);
        if j != null && j.conn.name != jedis.conn.name {
          servers.Execute(j, r.key, r.cmd);
        }
      }
    }

    /** The pair, on the connection that get_sharded()->getShard finds. */
    method ExecutePair(r: Req)
      requires dataCenter.Valid() && Pair(dataCenter.View(), servers.stores, r, dataCenter.md5).Some?
      modifies servers
      ensures Some(servers.stores) == Pair(dataCenter.View(), old(servers.stores), r, dataCenter.md5)
    {
      hide RouteKey, Descs, ConnsOf, Send, Sharded.PointsIffOwners;
      var jedis := dataCenter.sharded.GetShard(r.key, dataCenter.md5);
      var _ := DoJedisExecute(jedis, r);
      DoJedisNewExecute(jedis, r);
    }

    /** The execute overloads, which differ only in what they read from the reply. */
    method Execute(r: Req)
      requires dataCenter.Valid() && Overload(dataCenter.View(), servers.stores, r, dataCenter.md5).Some?
      modifies servers
      ensures Some(servers.stores) == Overload(dataCenter.View(), old(servers.stores), r, dataCenter.md5)
    {
      hide RouteKey, Descs, ConnsOf, Send, Sharded.PointsIffOwners;
      var jedis := dataCenter.sharded.GetShard(r.key, dataCenter.md5);
      if jedis != null {
        servers.Execute(jedis, r.key, r.cmd);
      }
      if dataCenter.state == SYNING && IsWrite(r.cmd) {
        var j := dataCenter.shardedNew.GetShard(r.key, dataCenter.md5);
        if j != null && j.conn.name != jedis.conn.name {
          servers.Execute(jedis, r.key, r.cmd);
        }
      }
    }
  }
}
