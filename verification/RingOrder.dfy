/** Looking a hash up in the ordered map of a ring: `find`, then `upper_bound`, then `begin`
    (cppredis/sharded.cpp), and what that means on the circle of 2^32 hashes. */
module RingOrder {
  import opened Hashing

  lemma Member(s: set<int>) returns (y: int)
    requires s != {}
    ensures y in s
  {
    if forall x :: x !in s {
      assert false;
    } else {
      y :| y in s;
    }
  }

  lemma {:induction false} SomeLeast(s: set<int>) returns (m: int)
    requires s != {}
    ensures m in s && forall x :: x in s ==> m <= x
    decreases |s|
  {
    m := Member(s);
    var rest := s - {m};
    if rest != {} {
      var n := SomeLeast(rest);
      forall x | x in s ensures (if n < m then n else m) <= x {
        assert x == m || x in rest;
      }
      m := if n < m then n else m;
    } else {
      forall x | x in s ensures x == m {
        assert x !in rest;
      }
    }
  }

  lemma LeastExists(s: set<int>)
    requires s != {}
    ensures exists m :: m in s && forall x :: x in s ==> m <= x
  {
    var m := SomeLeast(s);
  }

  function Least(s: set<int>): (m: int)
    requires s != {}
    ensures m in s && forall x :: x in s ==> m <= x
  {
    LeastExists(s);
    var m :| m in s && forall x :: x in s ==> m <= x;
    m
  }

  function Above(keys: set<int>, h: int): set<int> { set k | k in keys && k > h }

  /** The point that getShardInfo finds for the hash `h`. */
  function Lookup(keys: set<int>, h: int): int
    requires keys != {}
  {
    if h in keys then h
    else if Above(keys, h) != {} then Least(Above(keys, h))
    else Least(keys)
  }

  /** The reference: the smallest point at or after the hash, or else the smallest of all. */
  lemma LookupIsLinearScan(keys: set<int>, h: int)
    requires keys != {}
    ensures var after := set k | k in keys && k >= h;
            Lookup(keys, h) == Least(if after != {} then after else keys)
  {
    var after := set k | k in keys && k >= h;
    if h in keys {
      assert h in after;
    } else {
      assert after == Above(keys, h);
    }
  }

  // ---- the circle

  /** The same place on the circle. */
  predicate Congruent(a: int, b: int) { a % CIRCLE == b % CIRCLE }

  /** How far `to` lies clockwise of `from`. */
  function Dist(from: int, to: int): int { (to - from) % CIRCLE }

  predicate Window(keys: set<int>, lo: int) { forall k :: k in keys ==> lo <= k < lo + CIRCLE }

  lemma DistInWindow(lo: int, from: int, to: int)
    requires lo <= from < lo + CIRCLE && lo <= to < lo + CIRCLE
    ensures Dist(from, to) == if to >= from then to - from else to - from + CIRCLE
  {
  }

  /** The point found is the one nearest clockwise, and the only one at that distance. */
  lemma LookupIsNearest(keys: set<int>, h: int, lo: int, k: int)
    requires keys != {} && Window(keys, lo) && lo <= h < lo + CIRCLE && k in keys
    ensures Lookup(keys, h) in keys
    ensures Dist(h, Lookup(keys, h)) <= Dist(h, k)
    ensures k != Lookup(keys, h) ==> Dist(h, Lookup(keys, h)) < Dist(h, k)
  {
    var m := Lookup(keys, h);
    DistInWindow(lo, h, m);
    DistInWindow(lo, h, k);
    assert k > h ==> k in Above(keys, h);
    assert m in keys;
  }

  /** Adding points either leaves the point found as it was, or moves it to an added one. */
  lemma LookupInMore(keys: set<int>, more: set<int>, h: int, lo: int)
    requires keys != {} && keys <= more && Window(more, lo) && lo <= h < lo + CIRCLE
    ensures Lookup(more, h) in keys ==> Lookup(more, h) == Lookup(keys, h)
  {
    var m := Lookup(more, h);
    if m in keys {
      LookupIsNearest(keys, h, lo, m);
      LookupIsNearest(more, h, lo, Lookup(keys, h));
    }
  }

  /** Turning the circle: two readings find the same place, if each has a point at the place that the
      other one finds. */
  lemma LookupIsCyclic(keys: set<int>, h: int, lo: int, keys': set<int>, h': int, lo': int, j: int, j': int)
    requires keys != {} && Window(keys, lo) && lo <= h < lo + CIRCLE
    requires keys' != {} && Window(keys', lo') && lo' <= h' < lo' + CIRCLE
    requires Congruent(h, h')
    requires j in keys && Congruent(j, Lookup(keys', h'))
    requires j' in keys' && Congruent(j', Lookup(keys, h))
    ensures Congruent(Lookup(keys, h), Lookup(keys', h'))
  {
    var k, k' := Lookup(keys, h), Lookup(keys', h');
    LookupIsNearest(keys, h, lo, j);
    LookupIsNearest(keys', h', lo', j');
    SameDist(h, h', k, j');
    SameDist(h, h', j, k');
    SameDistSamePoint(h, k, j);
  }

  lemma SameDist(h: int, h': int, k: int, k': int)
    requires Congruent(h, h') && Congruent(k, k')
    ensures Dist(h, k) == Dist(h', k')
  {
    var a, b := (h' - h) / CIRCLE, (k' - k) / CIRCLE;
    assert h' - h == a * CIRCLE && k' - k == b * CIRCLE;
    assert k' - h' == k - h + (b - a) * CIRCLE;
  }

  lemma SameDistSamePoint(h: int, k: int, j: int)
    requires Dist(h, k) == Dist(h, j)
    ensures Congruent(k, j)
  {
    var a := (k - h) / CIRCLE;
    var b := (j - h) / CIRCLE;
    assert k == j + (a - b) * CIRCLE;
  }
}
