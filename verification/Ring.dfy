/** Building the consistent-hash ring (`Sharded::init`) and routing on it, as functions. `std::map::insert`
    keeps the first owner of a point, so colliding points are part of every statement here. */
module Ring {
  import opened Wrappers
  import opened Hashing
  import opened RingOrder

  /** One shard and its points, in the order in which they are inserted. */
  datatype Entry<+T> = Entry(owner: T, points: seq<int>)

  function Insert<T>(nodes: map<int, T>, p: int, x: T): map<int, T> {
    if p in nodes then nodes else nodes[p := x]
  }

  function InsertAll<T>(nodes: map<int, T>, ps: seq<int>, x: T): map<int, T>
    decreases |ps|
  {
    if ps == [] then nodes else InsertAll(Insert(nodes, ps[0], x), ps[1..], x)
  }

  function Build<T>(nodes: map<int, T>, es: seq<Entry<T>>): map<int, T>
    decreases |es|
  {
    if es == [] then nodes else Build(InsertAll(nodes, es[0].points, es[0].owner), es[1..])
  }

  /** getShardInfo. */
  function Route<T>(nodes: map<int, T>, h: int): Option<T> {
    if nodes == map[] then None else Some(nodes[NodeAt(nodes, h)])
  }

  function NodeAt<T>(nodes: map<int, T>, h: int): (p: int)
    requires nodes != map[]
    ensures p in nodes
  {
    NoKeys(nodes);
    Lookup(nodes.Keys, h)
  }

  lemma NoKeys<T>(nodes: map<int, T>)
    ensures nodes == map[] <==> nodes.Keys == {}
  {
    if nodes.Keys == {} {
      assert forall p :: p in nodes ==> p in nodes.Keys;
      assert nodes == map[];
    }
  }

  // ---- who owns a point

  /** The first entry that has the point `p`; |es| if none has. */
  function First<T>(es: seq<Entry<T>>, p: int): nat
    decreases |es|
  {
    if es == [] || p in es[0].points then 0 else 1 + First(es[1..], p)
  }

  lemma {:induction false} FirstSpec<T>(es: seq<Entry<T>>, p: int)
    ensures First(es, p) <= |es|
    ensures First(es, p) < |es| ==> p in es[First(es, p)].points
    ensures forall i :: 0 <= i < |es| && p in es[i].points ==> First(es, p) <= i
    decreases |es|
  {
    if es != [] && p !in es[0].points {
      FirstSpec(es[1..], p);
      forall i | 0 <= i < |es| && p in es[i].points ensures First(es, p) <= i {
        assert i > 0 && es[i] == es[1..][i - 1];
      }
    }
  }

  lemma {:induction false} InsertAllOwner<T>(nodes: map<int, T>, ps: seq<int>, x: T, p: int)
    ensures p in InsertAll(nodes, ps, x) <==> p in nodes || p in ps
    ensures p in nodes ==> InsertAll(nodes, ps, x)[p] == nodes[p]
    ensures p !in nodes && p in ps ==> InsertAll(nodes, ps, x)[p] == x
    decreases |ps|
  {
    if ps != [] {
      InsertAllOwner(Insert(nodes, ps[0], x), ps[1..], x, p);
    }
  }

  /** The owner of a point is the first shard in the list that has it. */
  lemma {:induction false} BuildOwner<T>(nodes: map<int, T>, es: seq<Entry<T>>, p: int)
    ensures p in Build(nodes, es) <==> p in nodes || First(es, p) < |es|
    ensures p in nodes ==> Build(nodes, es)[p] == nodes[p]
    ensures p !in nodes && First(es, p) < |es| ==> Build(nodes, es)[p] == es[First(es, p)].owner
    decreases |es|
  {
    if es != [] {
      InsertAllOwner(nodes, es[0].points, es[0].owner, p);
      BuildOwner(InsertAll(nodes, es[0].points, es[0].owner), es[1..], p);
    }
  }

  /** All points lie within one turn of the circle. */
  ghost predicate InWindow<T>(es: seq<Entry<T>>, lo: int) {
    forall i, p :: 0 <= i < |es| && p in es[i].points ==> lo <= p < lo + CIRCLE
  }

  lemma BuildWindow<T>(es: seq<Entry<T>>, lo: int)
    requires InWindow(es, lo)
    ensures Window(Build(map[], es).Keys, lo)
  {
    forall p | p in Build(map[], es).Keys ensures lo <= p < lo + CIRCLE {
      BuildOwner(map[], es, p);
      FirstSpec(es, p);
    }
  }

  /** Having a point is being on the ring. */
  lemma PointIsNode<T>(es: seq<Entry<T>>, i: nat, p: int)
    requires i < |es| && p in es[i].points
    ensures p in Build(map[], es) && First(es, p) <= i
  {
    FirstSpec(es, p);
    BuildOwner(map[], es, p);
  }

  // ---- minimal movement

  lemma {:induction false} FirstInConcat<T>(a: seq<Entry<T>>, b: seq<Entry<T>>, p: int)
    ensures First(a + b, p) == if First(a, p) < |a| then First(a, p) else |a| + First(b, p)
    decreases |a|
  {
    if a == [] {
      assert a + b == b;
    } else {
      assert (a + b)[1..] == a[1..] + b;
      FirstInConcat(a[1..], b, p);
      FirstSpec(a[1..], p);
    }
  }

  /** Inserting `x` anywhere in the list leaves the owner of every surviving point alone, or hands the
      point to `x`. */
  lemma InsertedOwner<T>(a: seq<Entry<T>>, x: Entry<T>, b: seq<Entry<T>>, p: int)
    ensures p in Build(map[], a + [x] + b) <==> p in Build(map[], a + b) || p in x.points
    ensures p in Build(map[], a + [x] + b) ==>
              Build(map[], a + [x] + b)[p] == x.owner
              || (p in Build(map[], a + b) && Build(map[], a + [x] + b)[p] == Build(map[], a + b)[p])
  {
    BuildOwner(map[], a + b, p);
    BuildOwner(map[], a + [x] + b, p);
    FirstInConcat(a, b, p);
    FirstInConcat(a + [x], b, p);
    FirstInConcat(a, [x], p);
    FirstSpec(a, p);
    FirstSpec(b, p);
    assert First([x], p) == if p in x.points then 0 else 1;
  }

  /** Adding a shard at any position moves a key only to that shard; read backwards, removing a shard moves
      only the keys it owned. Points may collide. */
  lemma MinimalMovement<T>(a: seq<Entry<T>>, x: Entry<T>, b: seq<Entry<T>>, h: int, lo: int)
    requires InWindow(a + [x] + b, lo) && lo <= h < lo + CIRCLE
    ensures var before, after := Route(Build(map[], a + b), h), Route(Build(map[], a + [x] + b), h);
            after == before || after == Some(x.owner)
  {
    var old', new' := Build(map[], a + b), Build(map[], a + [x] + b);
    BuildWindow(a + [x] + b, lo);
    NoKeys(old');
    NoKeys(new');
    forall p ensures p in old' ==> p in new' {
      InsertedOwner(a, x, b, p);
    }
    if new' != map[] {
      var p := NodeAt(new', h);
      InsertedOwner(a, x, b, p);
      if old' != map[] {
        LookupInMore(old'.Keys, new'.Keys, h, lo);
      }
    }
  }

  // ---- two-sided stability

  /** Two rings, each with the shard that the other one uses for `h`, agree on that shard's point, and each
      one's shard comes no later than the other's in its own list. */
  lemma SamePoint<T, U>(es: seq<Entry<T>>, fs: seq<Entry<U>>, h: int, lo: int, j: nat, k: nat)
    requires InWindow(es, lo) && InWindow(fs, lo) && lo <= h < lo + CIRCLE
    requires Build(map[], es) != map[] && Build(map[], fs) != map[]
    requires k < |fs| && NodeAt(Build(map[], es), h) in fs[k].points
    requires j < |es| && NodeAt(Build(map[], fs), h) in es[j].points
    ensures var p := NodeAt(Build(map[], es), h);
            p == NodeAt(Build(map[], fs), h) && First(es, p) <= j && First(fs, p) <= k
  {
    var p, q := NodeAt(Build(map[], es), h), NodeAt(Build(map[], fs), h);
    BuildWindow(es, lo);
    BuildWindow(fs, lo);
    NoKeys(Build(map[], es));
    NoKeys(Build(map[], fs));
    PointIsNode(fs, k, p);
    PointIsNode(es, j, q);
    LookupIsNearest(Build(map[], es).Keys, h, lo, q);
    LookupIsNearest(Build(map[], fs).Keys, h, lo, p);
  }

  // ---- rotation

  /** The same shards with the same points, read in another window of the circle. */
  ghost predicate SameCircle<T>(es: seq<Entry<T>>, fs: seq<Entry<T>>) {
    && |es| == |fs|
    && forall i :: 0 <= i < |es| ==>
         && es[i].owner == fs[i].owner && |es[i].points| == |fs[i].points|
         && forall n :: 0 <= n < |es[i].points| ==> Congruent(es[i].points[n], fs[i].points[n])
  }

  lemma SameCircleSymmetric<T>(es: seq<Entry<T>>, fs: seq<Entry<T>>)
    requires SameCircle(es, fs)
    ensures SameCircle(fs, es)
  {
  }

  lemma Counterpart<T>(es: seq<Entry<T>>, fs: seq<Entry<T>>, lo': int, p: int) returns (q: int)
    requires SameCircle(es, fs) && InWindow(fs, lo') && p in Build(map[], es)
    ensures q in Build(map[], fs) && Congruent(q, p)
  {
    BuildOwner(map[], es, p);
    FirstSpec(es, p);
    var i := First(es, p);
    var n :| 0 <= n < |es[i].points| && es[i].points[n] == p;
    q := fs[i].points[n];
    PointIsNode(fs, i, q);
  }

  lemma FirstNotLater<T>(es: seq<Entry<T>>, fs: seq<Entry<T>>, lo': int, p: int, q: int)
    requires SameCircle(es, fs) && InWindow(fs, lo') && p in Build(map[], es)
    requires lo' <= q < lo' + CIRCLE && Congruent(p, q)
    ensures First(fs, q) <= First(es, p) < |es|
  {
    BuildOwner(map[], es, p);
    FirstSpec(es, p);
    var i := First(es, p);
    var n :| 0 <= n < |es[i].points| && es[i].points[n] == p;
    var q' := fs[i].points[n];
    assert q' in fs[i].points;
    SamePlace(lo', q, q');
    FirstSpec(fs, q);
  }

  lemma SamePlace(lo: int, a: int, b: int)
    requires lo <= a < lo + CIRCLE && lo <= b < lo + CIRCLE && Congruent(a, b)
    ensures a == b
  {
    var d := a / CIRCLE - b / CIRCLE;
    assert a - b == d * CIRCLE;
  }

  lemma NodesCorrespond<T>(es: seq<Entry<T>>, fs: seq<Entry<T>>, h: int, h': int, lo: int, lo': int)
    requires SameCircle(es, fs) && InWindow(es, lo) && InWindow(fs, lo')
    requires lo <= h < lo + CIRCLE && lo' <= h' < lo' + CIRCLE && Congruent(h, h')
    requires Build(map[], es) != map[] && Build(map[], fs) != map[]
    ensures Congruent(NodeAt(Build(map[], es), h), NodeAt(Build(map[], fs), h'))
  {
    var a, b := Build(map[], es), Build(map[], fs);
    SameCircleSymmetric(es, fs);
    var j' := Counterpart(es, fs, lo', NodeAt(a, h));
    var j := Counterpart(fs, es, lo, NodeAt(b, h'));
    NoKeys(a);
    NoKeys(b);
    BuildWindow(es, lo);
    BuildWindow(fs, lo');
    LookupIsCyclic(a.Keys, h, lo, b.Keys, h', lo', j, j');
  }

  lemma NodesInWindow<T>(es: seq<Entry<T>>, lo: int, p: int)
    requires InWindow(es, lo) && p in Build(map[], es)
    ensures lo <= p < lo + CIRCLE
  {
    BuildWindow(es, lo);
    assert p in Build(map[], es).Keys;
  }

  lemma SameOwner<T>(es: seq<Entry<T>>, fs: seq<Entry<T>>, lo: int, lo': int, p: int, q: int)
    requires SameCircle(es, fs) && InWindow(es, lo) && InWindow(fs, lo')
    requires p in Build(map[], es) && q in Build(map[], fs) && Congruent(p, q)
    ensures Build(map[], es)[p] == Build(map[], fs)[q]
  {
    NodesInWindow(es, lo, p);
    NodesInWindow(fs, lo', q);
    SameCircleSymmetric(es, fs);
    FirstNotLater(es, fs, lo', p, q);
    FirstNotLater(fs, es, lo, q, p);
    BuildOwner(map[], es, p);
    BuildOwner(map[], fs, q);
  }

  /** Turning the circle changes no route. */
  lemma RouteIsCyclic<T>(es: seq<Entry<T>>, fs: seq<Entry<T>>, h: int, h': int, lo: int, lo': int)
    requires SameCircle(es, fs) && InWindow(es, lo) && InWindow(fs, lo')
    requires lo <= h < lo + CIRCLE && lo' <= h' < lo' + CIRCLE && Congruent(h, h')
    ensures Route(Build(map[], es), h) == Route(Build(map[], fs), h')
  {
    var a, b := Build(map[], es), Build(map[], fs);
    SameCircleSymmetric(es, fs);
    if a != map[] {
      var q := Counterpart(es, fs, lo', NodeAt(a, h));
      NodesCorrespond(es, fs, h, h', lo, lo');
      SameOwner(es, fs, lo, lo', NodeAt(a, h), NodeAt(b, h'));
    } else if b != map[] {
      var p := Counterpart(fs, es, lo, NodeAt(b, h'));
    }
  }

  // ---- sizes

  function TotalPoints<T>(es: seq<Entry<T>>): nat
    decreases |es|
  {
    if es == [] then 0 else |es[0].points| + TotalPoints(es[1..])
  }

  lemma {:induction false} InsertAllSize<T>(nodes: map<int, T>, ps: seq<int>, x: T)
    ensures |InsertAll(nodes, ps, x)| <= |nodes| + |ps|
    decreases |ps|
  {
    if ps != [] {
      InsertAllSize(Insert(nodes, ps[0], x), ps[1..], x);
    }
  }

  /** The ring never has more points than were inserted. */
  lemma {:induction false} BuildSize<T>(nodes: map<int, T>, es: seq<Entry<T>>)
    ensures |Build(nodes, es)| <= |nodes| + TotalPoints(es)
    decreases |es|
  {
    if es != [] {
      InsertAllSize(nodes, es[0].points, es[0].owner);
      BuildSize(InsertAll(nodes, es[0].points, es[0].owner), es[1..]);
    }
  }
}
