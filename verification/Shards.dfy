/** Shards, their labels and points, and the theorems about the rings that `Sharded::init` builds. */
module Shards {
  import opened Wrappers
  import opened Strings
  import opened Hashing
  import opened RingOrder
  import opened Ring

  datatype Shard = Shard(host: string, port: int, weight: int, name: string)

  const DEFAULT_WEIGHT := 1
  const POINTS_PER_WEIGHT := 160

  /** What fits into a buffer that has room for `n` characters. */
  function Fit(s: string, n: nat): string { if |s| <= n then s else s[..n] }

  /** "%s:%d" in a buffer of 32 bytes, printed with one byte less. */
  function AddressText(host: string, port: int): string { Fit(host + ":" + IntText(port), 30) }

  /** The constructor of ShardInfo: a shard without a name is named after its address. */
  function MakeShard(host: string, port: int, weight: int, name: string): (s: Shard)
    ensures s.name != ""
  {
    Shard(host, port, weight, if name == "" then AddressText(host, port) else name)
  }

  /** A connection to a server; the port is an unsigned short, and the name is printed from the address. */
  datatype Conn = Conn(name: string, host: string, port: int)

  function ConnOf(s: Shard): Conn {
    Conn(AddressText(s.host, s.port % 0x1_0000), s.host, s.port % 0x1_0000)
  }

  function ConnsOf(nodes: map<int, Shard>): map<int, Conn> { map p | p in nodes :: ConnOf(nodes[p]) }

  /** The text hashed for the n-th point of the shard at index `i` of the list. */
  function Label(s: Shard, i: nat, n: nat): string {
    Fit(if s.name == "" then "SHARD-" + IntText(i) + "-NODE-" + IntText(n)
        else s.name + "*" + IntText(s.weight) + IntText(n), 126)
  }

  function PointCount(s: Shard): nat { if s.weight > 0 then POINTS_PER_WEIGHT * s.weight else 0 }

  /** The first `n` points. */
  function Points(md5: Md5, s: Shard, i: nat, n: nat): (ps: seq<int>)
    ensures |ps| == n && forall m :: 0 <= m < n ==> ps[m] == Hash(md5, Label(s, i, m))
  {
    seq(n, m requires 0 <= m < n => Hash(md5, Label(s, i, m)))
  }

  function EntryOf(md5: Md5, s: Shard, i: nat): Entry<Shard> {
    Entry(s, Points(md5, s, i, PointCount(s)))
  }

  /** The entries from index `i` on; `up(j)` tells whether the j-th connection attempt succeeds. */
  function Entries(md5: Md5, shards: seq<Shard>, up: nat -> bool, i: nat): seq<Entry<Shard>>
    requires i <= |shards|
    decreases |shards| - i
  {
    if i == |shards| then []
    else (if up(i) then [EntryOf(md5, shards[i], i)] else []) + Entries(md5, shards, up, i + 1)
  }

  function RingOf(md5: Md5, shards: seq<Shard>, up: nat -> bool): map<int, Shard> {
    Build(map[], Entries(md5, shards, up, 0))
  }

  function AllUp(): nat -> bool { _ => true }

  /** The shards whose connections succeed. */
  function Connected(shards: seq<Shard>, up: nat -> bool, i: nat): seq<Shard>
    requires i <= |shards|
    decreases |shards| - i
  {
    if i == |shards| then []
    else (if up(i) then [shards[i]] else []) + Connected(shards, up, i + 1)
  }

  predicate Named(shards: seq<Shard>) { forall s :: s in shards ==> s.name != "" }

  /** Entries of named shards, which do not depend on list indices. */
  function NamedEntries(md5: Md5, shards: seq<Shard>): seq<Entry<Shard>>
    decreases |shards|
  {
    if shards == [] then [] else [EntryOf(md5, shards[0], 0)] + NamedEntries(md5, shards[1..])
  }

  lemma NamedIgnoresIndex(md5: Md5, s: Shard, i: nat, j: nat)
    requires s.name != ""
    ensures EntryOf(md5, s, i) == EntryOf(md5, s, j)
  {
    forall n: nat ensures Label(s, i, n) == Label(s, j, n) {
    }
    assert Points(md5, s, i, PointCount(s)) == Points(md5, s, j, PointCount(s));
  }

  lemma {:induction false} EntriesAreNamed(md5: Md5, shards: seq<Shard>, up: nat -> bool, i: nat)
    requires i <= |shards| && Named(shards)
    ensures Entries(md5, shards, up, i) == NamedEntries(md5, Connected(shards, up, i))
    decreases |shards| - i
  {
    if i < |shards| {
      EntriesAreNamed(md5, shards, up, i + 1);
      assert shards[i] in shards;
      NamedIgnoresIndex(md5, shards[i], i, 0);
      var live := Connected(shards, up, i + 1);
      assert [] + live == live && [] + NamedEntries(md5, live) == NamedEntries(md5, live);
      assert ([shards[i]] + live)[1..] == live;
    }
  }

  lemma {:induction false} ConnectedAllUp(shards: seq<Shard>, i: nat)
    requires i <= |shards|
    ensures Connected(shards, AllUp(), i) == shards[i..]
    decreases |shards| - i
  {
    if i < |shards| {
      ConnectedAllUp(shards, i + 1);
    }
  }

  lemma {:induction false} ConnectedAreShards(shards: seq<Shard>, up: nat -> bool, i: nat)
    requires i <= |shards|
    ensures forall s :: s in Connected(shards, up, i) ==> s in shards
    decreases |shards| - i
  {
    if i < |shards| {
      ConnectedAreShards(shards, up, i + 1);
    }
  }

  /** Servers that cannot be reached act as absent. */
  lemma UnreachableActAsAbsent(md5: Md5, shards: seq<Shard>, up: nat -> bool)
    requires Named(shards)
    ensures RingOf(md5, shards, up) == RingOf(md5, Connected(shards, up, 0), AllUp())
  {
    var live := Connected(shards, up, 0);
    ConnectedAreShards(shards, up, 0);
    EntriesAreNamed(md5, shards, up, 0);
    EntriesAreNamed(md5, live, AllUp(), 0);
    ConnectedAllUp(live, 0);
    assert live[0..] == live;
  }

  // ---- hashes fit one turn of the circle

  const LOW := -0x8000_0000

  lemma HashInWindow(md5: Md5, text: string)
    ensures LOW <= Hash(md5, text) < LOW + CIRCLE
  {
    HashIsSignWrapped(md5, text);
  }

  lemma {:induction false} NamedEntriesAt(md5: Md5, shards: seq<Shard>, i: nat)
    requires i < |shards|
    ensures |NamedEntries(md5, shards)| == |shards| && NamedEntries(md5, shards)[i] == EntryOf(md5, shards[i], 0)
    decreases |shards|
  {
    if i > 0 {
      NamedEntriesAt(md5, shards[1..], i - 1);
    } else if |shards| > 1 {
      NamedEntriesAt(md5, shards[1..], 0);
    }
  }

  lemma NamedEntriesInWindow(md5: Md5, shards: seq<Shard>)
    ensures |NamedEntries(md5, shards)| == |shards| && InWindow(NamedEntries(md5, shards), LOW)
  {
    var es := NamedEntries(md5, shards);
    if shards != [] {
      NamedEntriesAt(md5, shards, 0);
    }
    forall i, p | 0 <= i < |es| && p in es[i].points ensures LOW <= p < LOW + CIRCLE {
      NamedEntriesAt(md5, shards, i);
      var n :| 0 <= n < |es[i].points| && es[i].points[n] == p;
      HashInWindow(md5, Label(shards[i], 0, n));
    }
  }

  lemma RingOfNamed(md5: Md5, shards: seq<Shard>)
    requires Named(shards)
    ensures RingOf(md5, shards, AllUp()) == Build(map[], NamedEntries(md5, shards))
  {
    EntriesAreNamed(md5, shards, AllUp(), 0);
    ConnectedAllUp(shards, 0);
    assert shards[0..] == shards;
  }

  // ---- theorems about routing keys

  function RouteKey<T>(md5: Md5, nodes: map<int, T>, key: string): Option<T> {
    Route(nodes, Hash(md5, key))
  }

  lemma {:induction false} NamedEntriesConcat(md5: Md5, a: seq<Shard>, b: seq<Shard>)
    ensures NamedEntries(md5, a + b) == NamedEntries(md5, a) + NamedEntries(md5, b)
    decreases |a|
  {
    if a == [] {
      assert a + b == b;
    } else {
      NamedEntriesConcat(md5, a[1..], b);
      assert (a + b)[1..] == a[1..] + b;
    }
  }

  /** A new shard, at any position in the list, takes keys over but moves none between the others. */
  lemma AddingAShardMovesKeysOnlyToIt(md5: Md5, a: seq<Shard>, x: Shard, b: seq<Shard>, key: string)
    requires Named(a) && Named([x]) && Named(b)
    ensures var before := RouteKey(md5, RingOf(md5, a + b, AllUp()), key);
            var after := RouteKey(md5, RingOf(md5, a + [x] + b, AllUp()), key);
            after == before || after == Some(x)
  {
    RingOfNamed(md5, a + b);
    RingOfNamed(md5, a + [x] + b);
    NamedEntriesConcat(md5, a, b);
    NamedEntriesConcat(md5, a + [x], b);
    NamedEntriesConcat(md5, a, [x]);
    NamedEntriesInWindow(md5, a + [x] + b);
    HashInWindow(md5, key);
    assert NamedEntries(md5, [x]) == [EntryOf(md5, x, 0)];
    MinimalMovement(NamedEntries(md5, a), EntryOf(md5, x, 0), NamedEntries(md5, b), Hash(md5, key), LOW);
  }

  /** The order of std::string, which is the order of a set of names. */
  predicate Less(a: string, b: string)
    decreases |a|
  {
    b != "" && (a == "" || a[0] < b[0] || (a[0] == b[0] && Less(a[1..], b[1..])))
  }

  lemma {:induction false} LessIsAsymmetric(a: string, b: string)
    ensures !(Less(a, b) && Less(b, a))
    decreases |a|
  {
    if a != "" && b != "" {
      LessIsAsymmetric(a[1..], b[1..]);
    }
  }

  /** A text is less than another if it is a proper prefix of it, or has the smaller character at the first
      place where they differ. */
  lemma {:induction false} LessIff(a: string, b: string)
    ensures Less(a, b) <==>
            exists k :: 0 <= k <= |a| && k < |b| && a[..k] == b[..k] && (k == |a| || a[k] < b[k])
    decreases |a|
  {
    forall k | 0 < k <= |a| && k < |b| && a[..k] == b[..k] ensures a[0] == b[0] {
      assert a[..k][0] == b[..k][0];
    }
    if a != "" && b != "" && a[0] == b[0] {
      LessIff(a[1..], b[1..]);
      if Less(a, b) {
        var k :| 0 <= k <= |a[1..]| && k < |b[1..]| && a[1..][..k] == b[1..][..k]
                 && (k == |a[1..]| || a[1..][k] < b[1..][k]);
        assert a[..k + 1] == [a[0]] + a[1..][..k] == [b[0]] + b[1..][..k] == b[..k + 1];
      }
      if k :| 0 <= k <= |a| && k < |b| && a[..k] == b[..k] && (k == |a| || a[k] < b[k]) {
        assert k > 0;
        assert a[1..][..k - 1] == a[..k][1..] == b[..k][1..] == b[1..][..k - 1];
      }
    } else if b != "" && (a == "" || a[0] < b[0]) {
      assert a[..0] == b[..0];
    }
  }

  predicate SortedByName(shards: seq<Shard>) {
    forall i, j :: 0 <= i < j < |shards| ==> Less(shards[i].name, shards[j].name)
  }

  /** The same name and weight, hence the same points; addresses may differ. */
  ghost predicate Alike(s: Shard, t: Shard) { s.name == t.name && s.weight == t.weight }

  ghost predicate Has(shards: seq<Shard>, s: Shard) {
    exists i :: 0 <= i < |shards| && Alike(shards[i], s)
  }

  /** Two shards with points that both lists have, in opposite orders. */
  ghost predicate Swapped(olds: seq<Shard>, news: seq<Shard>) {
    exists i, l, j, k :: 0 <= i < l < |olds| && 0 <= j < k < |news|
                         && Alike(olds[i], news[k]) && Alike(olds[l], news[j])
                         && olds[i].name != olds[l].name && olds[i].weight > 0 && olds[l].weight > 0
  }

  lemma SortedAreNotSwapped(olds: seq<Shard>, news: seq<Shard>)
    requires SortedByName(olds) && SortedByName(news)
    ensures !Swapped(olds, news)
  {
    hide Less;
    if i, l, j, k :| 0 <= i < l < |olds| && 0 <= j < k < |news| && Alike(olds[i], news[k]) && Alike(olds[l], news[j]) {
      LessIsAsymmetric(olds[i].name, olds[l].name);
    }
  }

  lemma SamePoints(md5: Md5, s: Shard, t: Shard)
    requires s.name == t.name && s.weight == t.weight
    ensures EntryOf(md5, s, 0).points == EntryOf(md5, t, 0).points
  {
    assert forall n: nat :: Label(s, 0, n) == Label(t, 0, n);
  }

  /** However many shards come and go at once: a key keeps its shard unless that shard leaves or the key
      goes to a newcomer. Addresses may change freely; only names and weights matter, and that no two shards have
      changed places in the list. */
  lemma TwoSidedStability(md5: Md5, olds: seq<Shard>, news: seq<Shard>, key: string)
    requires Named(olds) && Named(news) && !Swapped(olds, news)
    requires RouteKey(md5, RingOf(md5, olds, AllUp()), key).Some?
             && RouteKey(md5, RingOf(md5, news, AllUp()), key).Some?
    requires Has(news, RouteKey(md5, RingOf(md5, olds, AllUp()), key).value)
    requires Has(olds, RouteKey(md5, RingOf(md5, news, AllUp()), key).value)
    ensures RouteKey(md5, RingOf(md5, olds, AllUp()), key).value.name
            == RouteKey(md5, RingOf(md5, news, AllUp()), key).value.name
  {
    hide Build, First, NamedEntries, RingOf, EntryOf, Hash;
    RingOfNamed(md5, olds);
    RingOfNamed(md5, news);
    NamedEntriesInWindow(md5, olds);
    NamedEntriesInWindow(md5, news);
    HashInWindow(md5, key);
    var es, fs, h := NamedEntries(md5, olds), NamedEntries(md5, news), Hash(md5, key);
    var i := OwnerIndex(md5, olds, h);
    var j := OwnerIndex(md5, news, h);
    var k: nat :| k < |news| && Alike(news[k], olds[i]);
    var l: nat :| l < |olds| && Alike(olds[l], news[j]);
    NamedEntriesAt(md5, news, k);
    NamedEntriesAt(md5, olds, l);
    SamePoints(md5, olds[i], news[k]);
    SamePoints(md5, news[j], olds[l]);
    SamePoint(es, fs, h, LOW, l, k);
    EntrySized(md5, olds[i]);
    EntrySized(md5, news[j]);
    assert Alike(olds[i], news[k]) && Alike(olds[l], news[j]);
  }

  lemma EntrySized(md5: Md5, s: Shard)
    ensures EntryOf(md5, s, 0).points != [] <==> s.weight > 0
  {
  }

  /** The index of the shard that a hash is routed to. */
  lemma OwnerIndex(md5: Md5, shards: seq<Shard>, h: int) returns (i: nat)
    requires Build(map[], NamedEntries(md5, shards)) != map[]
    ensures i < |shards| && Route(Build(map[], NamedEntries(md5, shards)), h) == Some(shards[i])
    ensures var p := NodeAt(Build(map[], NamedEntries(md5, shards)), h);
            i == First(NamedEntries(md5, shards), p) && p in EntryOf(md5, shards[i], 0).points
  {
    var es := NamedEntries(md5, shards);
    var p := NodeAt(Build(map[], es), h);
    BuildOwner(map[], es, p);
    FirstSpec(es, p);
    NamedEntriesInWindow(md5, shards);
    i := First(es, p);
    NamedEntriesAt(md5, shards, i);
  }

  /** A change of addresses only, as after the replacement of a machine, moves no key to another name. */
  lemma ReplacingMachinesMovesNoKey(md5: Md5, olds: seq<Shard>, news: seq<Shard>, key: string)
    requires Named(olds) && Named(news) && SortedByName(olds) && SortedByName(news)
    requires |olds| == |news|
    requires forall i :: 0 <= i < |olds| ==> olds[i].name == news[i].name && olds[i].weight == news[i].weight
    ensures match (RouteKey(md5, RingOf(md5, olds, AllUp()), key), RouteKey(md5, RingOf(md5, news, AllUp()), key))
            case (Some(s), Some(t)) => s.name == t.name
            case (None, None) => true
            case _ => false
  {
    RingOfNamed(md5, olds);
    RingOfNamed(md5, news);
    var h := Hash(md5, key);
    if RouteKey(md5, RingOf(md5, olds, AllUp()), key).Some? {
      var i := OwnerIndex(md5, olds, h);
      SameNodes(md5, olds, news, i, h);
      var j := OwnerIndex(md5, news, h);
      assert Has(news, olds[i]) && Has(olds, news[j]);
      SortedAreNotSwapped(olds, news);
      TwoSidedStability(md5, olds, news, key);
    } else if RouteKey(md5, RingOf(md5, news, AllUp()), key).Some? {
      var j := OwnerIndex(md5, news, h);
      SameNodes(md5, news, olds, j, h);
    }
  }

  lemma {:induction false} SameNodes(md5: Md5, olds: seq<Shard>, news: seq<Shard>, i: nat, h: int)
    requires i < |olds| && i < |news| && olds[i].name == news[i].name && olds[i].weight == news[i].weight
    requires EntryOf(md5, olds[i], 0).points != []
    ensures Build(map[], NamedEntries(md5, news)) != map[]
  {
    SamePoints(md5, olds[i], news[i]);
    NamedEntriesAt(md5, news, i);
    PointIsNode(NamedEntries(md5, news), i, EntryOf(md5, news[i], 0).points[0]);
  }

  // ---- reading the hash as an unsigned number

  function UnsignedEntry(md5: Md5, s: Shard): (e: Entry<Shard>)
    ensures e.owner == s && |e.points| == PointCount(s)
    ensures forall n :: 0 <= n < PointCount(s) ==> e.points[n] == UnsignedHash(md5, Label(s, 0, n))
  {
    Entry(s, seq(PointCount(s), n requires 0 <= n => UnsignedHash(md5, Label(s, 0, n))))
  }

  function UnsignedEntries(md5: Md5, shards: seq<Shard>): seq<Entry<Shard>>
    decreases |shards|
  {
    if shards == [] then [] else [UnsignedEntry(md5, shards[0])] + UnsignedEntries(md5, shards[1..])
  }

  lemma UnsignedPoint(md5: Md5, s: Shard, n: nat)
    requires n < PointCount(s)
    ensures var p, q := EntryOf(md5, s, 0).points[n], UnsignedEntry(md5, s).points[n];
            Congruent(p, q) && 0 <= q < CIRCLE
  {
    hide Hash, UnsignedHash;
    HashIsSignWrapped(md5, Label(s, 0, n));
  }

  lemma {:induction false} SameCircleUnsigned(md5: Md5, shards: seq<Shard>)
    ensures SameCircle(NamedEntries(md5, shards), UnsignedEntries(md5, shards))
    ensures InWindow(UnsignedEntries(md5, shards), 0)
    decreases |shards|
  {
    hide Hash, UnsignedHash, Congruent;
    if shards != [] {
      var s, es, fs := shards[0], NamedEntries(md5, shards), UnsignedEntries(md5, shards);
      SameCircleUnsigned(md5, shards[1..]);
      forall n | 0 <= n < PointCount(s)
        ensures Congruent(es[0].points[n], fs[0].points[n]) && 0 <= fs[0].points[n] < CIRCLE
      {
        UnsignedPoint(md5, s, n);
      }
      forall i, p | 0 <= i < |fs| && p in fs[i].points ensures 0 <= p < 0 + CIRCLE {
        if i > 0 {
          assert fs[i] == UnsignedEntries(md5, shards[1..])[i - 1];
        }
      }
    }
  }

  lemma SameHash(md5: Md5, text: string)
    ensures Congruent(Hash(md5, text), UnsignedHash(md5, text)) && 0 <= UnsignedHash(md5, text) < CIRCLE
  {
    hide Hash, UnsignedHash;
    HashIsSignWrapped(md5, text);
  }

  /** The sign of the hash does not matter: a ring of unsigned hashes routes every key to the same shard. */
  lemma SignDoesNotMatter(md5: Md5, shards: seq<Shard>, key: string)
    requires Named(shards)
    ensures RouteKey(md5, RingOf(md5, shards, AllUp()), key)
            == Route(Build(map[], UnsignedEntries(md5, shards)), UnsignedHash(md5, key))
  {
    hide Build, NamedEntries, UnsignedEntries, RingOf, Hash, UnsignedHash, InWindow, SameCircle;
    RingOfNamed(md5, shards);
    SameCircleUnsigned(md5, shards);
    NamedEntriesInWindow(md5, shards);
    HashInWindow(md5, key);
    SameHash(md5, key);
    RouteIsCyclic(NamedEntries(md5, shards), UnsignedEntries(md5, shards), Hash(md5, key), UnsignedHash(md5, key),
                  LOW, 0);
  }

  // ---- with unreachable servers

  /** Connected shards keep their order. */
  lemma {:induction false} ConnectedAt(shards: seq<Shard>, up: nat -> bool, from: nat, i: nat) returns (k: nat)
    requires from <= |shards| && i < |Connected(shards, up, from)|
    ensures from <= k < |shards| && shards[k] == Connected(shards, up, from)[i]
    decreases |shards| - from
  {
    if up(from) && i == 0 {
      k := from;
    } else {
      k := ConnectedAt(shards, up, from + 1, if up(from) then i - 1 else i);
    }
  }

  lemma {:induction false} ConnectedInOrder(shards: seq<Shard>, up: nat -> bool, from: nat, i: nat, l: nat)
    returns (k: nat, m: nat)
    requires from <= |shards| && i < l < |Connected(shards, up, from)|
    ensures from <= k < m < |shards|
    ensures shards[k] == Connected(shards, up, from)[i] && shards[m] == Connected(shards, up, from)[l]
    decreases |shards| - from
  {
    if up(from) && i == 0 {
      k := from;
      m := ConnectedAt(shards, up, from + 1, l - 1);
    } else {
      k, m := ConnectedInOrder(shards, up, from + 1, if up(from) then i - 1 else i, if up(from) then l - 1 else l);
    }
  }

  lemma ConnectedAreNotSwapped(olds: seq<Shard>, up: nat -> bool, news: seq<Shard>, up': nat -> bool)
    ensures Swapped(Connected(olds, up, 0), Connected(news, up', 0)) ==> Swapped(olds, news)
  {
    hide Connected;
    var a, b := Connected(olds, up, 0), Connected(news, up', 0);
    if i, l, j, k :| 0 <= i < l < |a| && 0 <= j < k < |b| && Alike(a[i], b[k]) && Alike(a[l], b[j])
                     && a[i].name != a[l].name && a[i].weight > 0 && a[l].weight > 0 {
      var i', l' := ConnectedInOrder(olds, up, 0, i, l);
      var j', k' := ConnectedInOrder(news, up', 0, j, k);
      assert Alike(olds[i'], news[k']) && Alike(olds[l'], news[j']);
    }
  }

  /** A key keeps its name over a rebuild, unless the old shard is not connected any more or the new one was
      not connected before. */
  ghost predicate Stable(md5: Md5, olds: seq<Shard>, up: nat -> bool, news: seq<Shard>, up': nat -> bool, key: string) {
    match (RouteKey(md5, RingOf(md5, olds, up), key), RouteKey(md5, RingOf(md5, news, up'), key))
    case (Some(s), Some(t)) =>
      Has(Connected(news, up', 0), s) && Has(Connected(olds, up, 0), t) ==> s.name == t.name
    case _ => true
  }

  lemma RebuildsAreStable(md5: Md5, olds: seq<Shard>, up: nat -> bool, news: seq<Shard>, up': nat -> bool, key: string)
    requires Named(olds) && Named(news) && !Swapped(olds, news)
    ensures Stable(md5, olds, up, news, up', key)
  {
    hide RingOf, RouteKey, Connected, Swapped;
    var a, b := Connected(olds, up, 0), Connected(news, up', 0);
    UnreachableActAsAbsent(md5, olds, up);
    UnreachableActAsAbsent(md5, news, up');
    ConnectedAreNotSwapped(olds, up, news, up');
    ConnectedAreShards(olds, up, 0);
    ConnectedAreShards(news, up', 0);
    match (RouteKey(md5, RingOf(md5, a, AllUp()), key), RouteKey(md5, RingOf(md5, b, AllUp()), key))
    case (Some(s), Some(t)) =>
      if Has(b, s) && Has(a, t) {
        TwoSidedStability(md5, a, b, key);
      }
    case _ =>
  }

  // ---- why the order matters

  /** The worst hash: every text gets the same digest. */
  function SameDigest(): Md5 { _ => Digest(0, 0, 0, 0) }

  function OnlyUp(i: nat, l: nat): nat -> bool { n => n == i || n == l }

  lemma {:induction false} ConnectedOnly(shards: seq<Shard>, i: nat, l: nat, from: nat)
    requires i < l < |shards| && from <= |shards|
    ensures Connected(shards, OnlyUp(i, l), from)
            == (if from <= i then [shards[i]] else []) + (if from <= l then [shards[l]] else [])
    decreases |shards| - from
  {
    if from < |shards| {
      ConnectedOnly(shards, i, l, from + 1);
    }
  }

  /** When all points collide, the first shard in the list takes every key. */
  lemma FirstTakesAll(shards: seq<Shard>, key: string)
    requires shards != [] && Named(shards) && shards[0].weight > 0
    ensures RouteKey(SameDigest(), RingOf(SameDigest(), shards, AllUp()), key) == Some(shards[0])
  {
    hide Hash, Build, First, Label;
    var md5 := SameDigest();
    var es, h := NamedEntries(md5, shards), Hash(md5, key);
    RingOfNamed(md5, shards);
    NamedEntriesAt(md5, shards, 0);
    EntrySized(md5, shards[0]);
    PointIsNode(es, 0, es[0].points[0]);
    var i := OwnerIndex(md5, shards, h);
    SamePoint0(shards[0], shards[i]);
    FirstSpec(es, NodeAt(Build(map[], es), h));
  }

  lemma SamePoint0(s: Shard, t: Shard)
    requires s.weight > 0
    ensures forall p :: p in EntryOf(SameDigest(), t, 0).points ==> p in EntryOf(SameDigest(), s, 0).points
  {
    hide Label;
    var md5 := SameDigest();
    var ps, qs := EntryOf(md5, s, 0).points, EntryOf(md5, t, 0).points;
    forall p | p in qs ensures p in ps {
      var n :| 0 <= n < |qs| && qs[n] == p;
      assert ps[0] == Hash(md5, Label(s, 0, 0)) == Hash(md5, Label(t, 0, n)) by {
        SameHashes(Label(s, 0, 0), Label(t, 0, n));
      }
    }
  }

  lemma SameHashes(a: string, b: string)
    ensures Hash(SameDigest(), a) == Hash(SameDigest(), b)
  {
    hide BitOr, Shift;
  }

  lemma SwappedMoves(olds: seq<Shard>, news: seq<Shard>) returns (up: nat -> bool, up': nat -> bool)
    requires Named(olds) && Named(news) && Swapped(olds, news)
    ensures !Stable(SameDigest(), olds, up, news, up', "")
  {
    hide RingOf, RouteKey, Connected;
    var i, l, j, k :| 0 <= i < l < |olds| && 0 <= j < k < |news| && Alike(olds[i], news[k]) && Alike(olds[l], news[j])
                      && olds[i].name != olds[l].name && olds[i].weight > 0 && olds[l].weight > 0;
    up, up' := OnlyUp(i, l), OnlyUp(j, k);
    ConnectedOnly(olds, i, l, 0);
    ConnectedOnly(news, j, k, 0);
    UnreachableActAsAbsent(SameDigest(), olds, up);
    UnreachableActAsAbsent(SameDigest(), news, up');
    FirstTakesAll([olds[i], olds[l]], "");
    FirstTakesAll([news[j], news[k]], "");
    assert [olds[i], olds[l]][0] == olds[i] && [olds[i], olds[l]][1] == olds[l];
    assert [news[j], news[k]][0] == news[j] && [news[j], news[k]][1] == news[k];
    assert Alike([news[j], news[k]][1], olds[i]) && Alike([olds[i], olds[l]][1], news[j]);
    assert Connected(olds, up, 0) == [olds[i], olds[l]] && Connected(news, up', 0) == [news[j], news[k]];
  }

  /** Rebuilding from one list and then from another is stable for all hashes, outages and keys exactly if no
      two shards with points change places from the one list to the other. */
  lemma RebuildsAreStableIff(olds: seq<Shard>, news: seq<Shard>)
    requires Named(olds) && Named(news)
    ensures (forall md5, up, up', key :: Stable(md5, olds, up, news, up', key)) <==> !Swapped(olds, news)
  {
    hide Stable, Swapped;
    if Swapped(olds, news) {
      var up, up' := SwappedMoves(olds, news);
    } else {
      forall md5, up, up', key ensures Stable(md5, olds, up, news, up', key) {
        RebuildsAreStable(md5, olds, up, news, up', key);
      }
    }
  }
}
