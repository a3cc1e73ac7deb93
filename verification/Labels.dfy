/** The labels "%s*%d%d" of virtual nodes, and how many points of the ring a shard owns. */
module Labels {
  import opened Strings
  import opened Hashing
  import opened RingOrder
  import opened Ring
  import opened Shards

  /** The labels of a named shard up to the n-th point are printed without being cut off. */
  predicate LabelFits(s: Shard, n: nat) {
    |s.name| + 1 + |IntText(s.weight)| + |IntText(n)| <= 126
  }

  lemma IntTextInjective(n: int, m: int)
    requires IntText(n) == IntText(m)
    ensures n == m
  {
    AtoiReadsBack(n);
    AtoiReadsBack(m);
  }

  /** At one weight, different (name, number) pairs have different labels: the last '*' ends the name. */
  lemma LabelsAreDistinct(s: Shard, n: nat, t: Shard, m: nat)
    requires s.name != "" && t.name != "" && s.weight == t.weight && LabelFits(s, n) && LabelFits(t, m)
    requires Label(s, 0, n) == Label(t, 0, m)
    ensures s.name == t.name && n == m
  {
    var w, a, b := IntText(s.weight), IntText(n), IntText(m);
    assert s.name + "*" + w + a == s.name + ['*'] + (w + a);
    assert t.name + "*" + w + b == t.name + ['*'] + (w + b);
    LastSeparator(s.name, w + a, t.name, w + b, '*');
    assert (w + a)[|w|..] == a && (w + b)[|w|..] == b;
    IntTextInjective(n, m);
  }

  /** Reading a label of a named shard back: the name, a '*', the weight, and the number of the point. */
  lemma LabelReadsBack(s: Shard, i: nat, n: nat)
    requires s.name != "" && LabelFits(s, n)
    ensures var l, k := Label(s, i, n), |s.name| + 1 + |IntText(s.weight)|;
            && k < |l| && l[..|s.name|] == s.name && l[|s.name|] == '*' && '*' !in l[|s.name| + 1..]
            && Atoi(l[|s.name| + 1..k]) == s.weight && Atoi(l[k..]) == n
  {
    var w, d := IntText(s.weight), IntText(n);
    var l, k := Label(s, i, n), |s.name| + 1 + |w|;
    assert l == s.name + "*" + w + d;
    assert l[|s.name| + 1..k] == w && l[k..] == d && l[|s.name| + 1..] == w + d;
    AtoiReadsBack(s.weight);
    AtoiReadsBack(n);
  }

  /** A shard without a name would be labelled by its place in the list. */
  lemma PlaceLabelReadsBack(s: Shard, i: nat, n: nat)
    requires s.name == "" && |IntText(i)| + |IntText(n)| <= 114
    ensures exists a, b :: Label(s, i, n) == "SHARD-" + a + "-NODE-" + b && Atoi(a) == i && Atoi(b) == n
  {
    AtoiReadsBack(i);
    AtoiReadsBack(n);
    assert Label(s, i, n) == "SHARD-" + IntText(i) + "-NODE-" + IntText(n);
  }

  /** The points of a connected shard are the hashes of its labels 0 to 160 times its weight. */
  lemma PointsAreHashes(md5: Md5, s: Shard, i: nat, p: int)
    ensures p in EntryOf(md5, s, i).points <==> exists n: nat :: n < 160 * s.weight && p == Hash(md5, Label(s, i, n))
  {
    hide Hash, Label;
    var ps := EntryOf(md5, s, i).points;
    if n: nat :| n < 160 * s.weight && p == Hash(md5, Label(s, i, n)) {
      assert ps[n] == p;
    }
    if p in ps {
      var n :| 0 <= n < |ps| && ps[n] == p;
      assert n < 160 * s.weight && p == Hash(md5, Label(s, i, n));
    }
  }

  lemma IntTextLength(n: nat)
    ensures |IntText(n)| <= 3 <==> n < 1000
  {
    assert |NatText(n)| == if n < 10 then 1 else |NatText(n / 10)| + 1;
    if n >= 10 {
      assert |NatText(n / 10)| == if n / 10 < 10 then 1 else |NatText(n / 10 / 10)| + 1;
      if n / 10 >= 10 {
        assert |NatText(n / 10 / 10)| == if n / 10 / 10 < 10 then 1 else |NatText(n / 10 / 10 / 10)| + 1;
        if n / 10 / 10 >= 10 {
          assert |NatText(n / 10 / 10 / 10)| >= 1;
        }
      }
    }
  }

  /** At weight 1, which is the default, a shard has 160 different labels exactly when its name is at most 121
      characters long; a longer name makes the buffer cut labels off until they coincide. */
  lemma DefaultLabelsDistinctIffNameFits(s: Shard)
    requires s.name != "" && s.weight == 1
    ensures (forall n, m :: 0 <= n < m < 160 ==> Label(s, 0, n) != Label(s, 0, m)) <==> |s.name| <= 121
  {
    assert IntText(1) == "1";
    if |s.name| <= 121 {
      forall n, m | 0 <= n < m < POINTS_PER_WEIGHT ensures Label(s, 0, n) != Label(s, 0, m) {
        IntTextLength(n);
        IntTextLength(m);
        if Label(s, 0, n) == Label(s, 0, m) {
          LabelsAreDistinct(s, n, s, m);
        }
      }
    } else {
      assert NatText(10) == NatText(1) + ['0'] == "10";
      assert IntText(100) == "10" + ['0'] && IntText(101) == "10" + ['1'];
      var stem := s.name + "*" + "1" + "10";
      assert s.name + "*" + "1" + ("10" + ['0']) == stem + ['0'];
      assert s.name + "*" + "1" + ("10" + ['1']) == stem + ['1'];
      assert Label(s, 0, 100) == stem[..126] && Label(s, 0, 101) == stem[..126];
    }
  }

  // ---- owned points

  function Owned<T(==)>(nodes: map<int, T>, x: T): set<int> { set p | p in nodes && nodes[p] == x }

  function Elements(ps: seq<int>): set<int> { set p | p in ps }

  lemma {:induction false} ElementCount(ps: seq<int>)
    requires forall i, j :: 0 <= i < j < |ps| ==> ps[i] != ps[j]
    ensures |Elements(ps)| == |ps|
    decreases |ps|
  {
    if ps != [] {
      ElementCount(ps[1..]);
      assert Elements(ps) == Elements(ps[1..]) + {ps[0]};
    }
  }

  /** The hash tells the labels of these shards apart. */
  ghost predicate HashInjectiveOnLabels(md5: Md5, shards: seq<Shard>) {
    forall i, n, j, m :: 0 <= i < |shards| && 0 <= n < PointCount(shards[i])
                         && 0 <= j < |shards| && 0 <= m < PointCount(shards[j])
                         && Label(shards[i], 0, n) != Label(shards[j], 0, m) ==>
      Hash(md5, Label(shards[i], 0, n)) != Hash(md5, Label(shards[j], 0, m))
  }

  ghost predicate SameWeightAndFitting(shards: seq<Shard>) {
    && (forall i, j :: 0 <= i < |shards| && 0 <= j < |shards| ==> shards[i].weight == shards[j].weight)
    && (forall i, n :: 0 <= i < |shards| && 0 <= n < PointCount(shards[i]) ==> LabelFits(shards[i], n))
  }

  lemma PointsDiffer(md5: Md5, shards: seq<Shard>, i: nat, n: nat, j: nat, m: nat)
    requires Named(shards) && SortedByName(shards) && SameWeightAndFitting(shards) && HashInjectiveOnLabels(md5, shards)
    requires i < |shards| && n < PointCount(shards[i]) && j < |shards| && m < PointCount(shards[j]) && (i, n) != (j, m)
    ensures EntryOf(md5, shards[i], 0).points[n] != EntryOf(md5, shards[j], 0).points[m]
  {
    hide Hash, Label, Less, LabelFits;
    assert shards[i] in shards && shards[j] in shards;
    if Label(shards[i], 0, n) == Label(shards[j], 0, m) {
      LabelsAreDistinct(shards[i], n, shards[j], m);
      NamesTellApart(shards, i, j);
    }
  }

  /** If the hash is injective on the labels, every connected shard owns exactly 160 points per weight unit. */
  lemma EveryShardOwnsItsPoints(md5: Md5, shards: seq<Shard>, i: nat)
    requires Named(shards) && SortedByName(shards) && SameWeightAndFitting(shards) && HashInjectiveOnLabels(md5, shards)
    requires i < |shards|
    ensures |Owned(RingOf(md5, shards, AllUp()), shards[i])|
            == if shards[i].weight > 0 then 160 * shards[i].weight else 0
  {
    RingOfNamed(md5, shards);
    var nodes, ps := Build(map[], NamedEntries(md5, shards)), EntryOf(md5, shards[i], 0).points;
    forall n, m | 0 <= n < m < |ps| ensures ps[n] != ps[m] {
      PointsDiffer(md5, shards, i, n, i, m);
    }
    ElementCount(ps);
    forall p | p in Elements(ps) ensures p in Owned(nodes, shards[i]) {
      OwnPoint(md5, shards, i, p);
    }
    forall p | p in Owned(nodes, shards[i]) ensures p in Elements(ps) {
      var j := OwnerOfNode(md5, shards, p);
      NamesTellApart(shards, i, j);
    }
    assert Owned(nodes, shards[i]) == Elements(ps);
  }

  lemma NamesTellApart(shards: seq<Shard>, i: nat, j: nat)
    requires SortedByName(shards) && i < |shards| && j < |shards| && shards[i].name == shards[j].name
    ensures i == j
  {
    LessIsAsymmetric(shards[i].name, shards[j].name);
  }

  lemma OwnerOfNode(md5: Md5, shards: seq<Shard>, p: int) returns (j: nat)
    requires p in Build(map[], NamedEntries(md5, shards))
    ensures j < |shards| && Build(map[], NamedEntries(md5, shards))[p] == shards[j]
    ensures p in EntryOf(md5, shards[j], 0).points && j == First(NamedEntries(md5, shards), p)
  {
    var es := NamedEntries(md5, shards);
    BuildOwner(map[], es, p);
    FirstSpec(es, p);
    NamedEntriesInWindow(md5, shards);
    j := First(es, p);
    NamedEntriesAt(md5, shards, j);
  }

  lemma OwnPoint(md5: Md5, shards: seq<Shard>, i: nat, p: int)
    requires Named(shards) && SortedByName(shards) && SameWeightAndFitting(shards) && HashInjectiveOnLabels(md5, shards)
    requires i < |shards| && p in EntryOf(md5, shards[i], 0).points
    ensures var nodes := Build(map[], NamedEntries(md5, shards)); p in nodes && nodes[p] == shards[i]
  {
    NamedEntriesAt(md5, shards, i);
    PointIsNode(NamedEntries(md5, shards), i, p);
    var j := OwnerOfNode(md5, shards, p);
    var ps, qs := EntryOf(md5, shards[i], 0).points, EntryOf(md5, shards[j], 0).points;
    var n :| 0 <= n < |ps| && ps[n] == p;
    var m :| 0 <= m < |qs| && qs[m] == p;
    if i != j {
      PointsDiffer(md5, shards, i, n, j, m);
    }
  }

  function PointSum(shards: seq<Shard>): nat
    decreases |shards|
  {
    if shards == [] then 0 else PointCount(shards[0]) + PointSum(shards[1..])
  }

  lemma {:induction false} EntriesTotal(md5: Md5, shards: seq<Shard>, up: nat -> bool, i: nat)
    requires i <= |shards|
    ensures TotalPoints(Entries(md5, shards, up, i)) == PointSum(Connected(shards, up, i))
    decreases |shards| - i
  {
    hide EntryOf;
    if i < |shards| {
      var rest, live := Entries(md5, shards, up, i + 1), Connected(shards, up, i + 1);
      EntriesTotal(md5, shards, up, i + 1);
      if up(i) {
        EntrySize(md5, shards[i], i);
        assert ([EntryOf(md5, shards[i], i)] + rest)[1..] == rest;
        assert ([shards[i]] + live)[1..] == live;
      } else {
        assert [] + rest == rest && [] + live == live;
      }
    }
  }

  lemma EntrySize(md5: Md5, s: Shard, i: nat)
    ensures |EntryOf(md5, s, i).points| == PointCount(s)
  {
  }

  /** With or without collisions, whatever the names and weights, the ring has at most 160 points per weight
      unit of the connected shards. */
  lemma RingSize(md5: Md5, shards: seq<Shard>, up: nat -> bool)
    ensures |RingOf(md5, shards, up)| <= PointSum(Connected(shards, up, 0))
  {
    EntriesTotal(md5, shards, up, 0);
    BuildSize<Shard>(map[], Entries(md5, shards, up, 0));
  }
}
