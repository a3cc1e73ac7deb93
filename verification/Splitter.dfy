/** utility::split2vec of cppredis/utility.cpp. */
module Splitter {
  import opened Wrappers
  import opened Strings

  /** `p` runs up to the first separator when `sep` follows it. */
  predicate Clean(p: string, sep: string) {
    Find(p + sep, sep, 0) == Some(|p|)
  }

  lemma FindAfterClean(p: string, sep: string, rest: string)
    requires Clean(p, sep)
    ensures Find(p + sep + rest, sep, 0) == Some(|p|)
  {
    var s := p + sep + rest;
    FindIsFirst(p + sep, sep, 0);
    assert s[|p|..] == sep + rest;
    forall i: nat | i < |p| ensures !At(s, sep, i) {
      assert !At(p + sep, sep, i);
      assert s[i..] == (p + sep)[i..] + rest;
    }
    FindIs(s, sep, |p|);
  }

  lemma CleanPrefix(s: string, sep: string)
    requires Find(s, sep, 0).Some?
    ensures Clean(s[..Find(s, sep, 0).value], sep)
  {
    var p := Find(s, sep, 0).value;
    var c := s[..p] + sep;
    FindIsFirst(s, sep, 0);
    assert c == s[..p + |sep|];
    assert c[p..] == sep;
    forall i: nat | i < p ensures !At(c, sep, i) {
      assert !At(s, sep, i);
      assert s[i..] == c[i..] + s[p + |sep|..];
    }
    FindIs(c, sep, p);
  }

  /** What is pushed for a remaining text `s` when `limit` more cuts may be made; a negative limit is none. */
  function Pieces(s: string, sep: string, limit: int): seq<string>
    requires sep != "" || limit >= 0
    decreases |s|, if limit > 0 then limit else 0
  {
    if limit == 0 || Find(s, sep, 0).None? then
      if s == "" then [] else [s]
    else
      var p := Find(s, sep, 0).value;
      [s[..p]] + Pieces(s[p + |sep|..], sep, limit - 1)
  }

  /** The number of separators cut out. */
  function Cuts(s: string, sep: string, limit: int): nat
    requires sep != "" || limit >= 0
    decreases |s|, if limit > 0 then limit else 0
  {
    if limit == 0 || Find(s, sep, 0).None? then 0
    else 1 + Cuts(s[Find(s, sep, 0).value + |sep|..], sep, limit - 1)
  }

  function Join(ps: seq<string>, sep: string): string {
    if ps == [] then "" else if |ps| == 1 then ps[0] else ps[0] + sep + Join(ps[1..], sep)
  }

  /** The limit that a `count` argument stands for. */
  function Limit(count: int): int { if count > 0 then count else -1 }

  lemma OneMorePiece(s: string, sep: string, limit: int, p: nat)
    requires (sep != "" || limit >= 0) && limit != 0 && Find(s, sep, 0) == Some(p)
    ensures Pieces(s, sep, limit) == [s[..p]] + Pieces(s[p + |sep|..], sep, limit - 1)
    ensures Cuts(s, sep, limit) == 1 + Cuts(s[p + |sep|..], sep, limit - 1)
  {
  }

  lemma CutAt(str: string, sep: string, end: nat, limit: int, p: nat)
    requires (sep != "" || limit >= 0) && limit != 0
    requires end <= |str| && Find(str, sep, end) == Some(p)
    ensures Pieces(str[end..], sep, limit) == [str[end..p]] + Pieces(str[p + |sep|..], sep, limit - 1)
  {
    FindInRest(str, sep, end);
    OneMorePiece(str[end..], sep, limit, p - end);
    assert str[end..][..p - end] == str[end..p];
    assert str[end..][p - end + |sep|..] == str[p + |sep|..];
  }

  lemma TailAt(str: string, sep: string, end: nat, limit: int)
    requires (sep != "" || limit >= 0) && end <= |str| && (limit == 0 || Find(str, sep, end).None?)
    ensures Pieces(str[end..], sep, limit) == if end < |str| then [str[end..]] else []
  {
    FindInRest(str, sep, end);
  }

  /** The pieces `cut` so far are the first ones of `all`, and the text from `end` on gives the others. */
  ghost predicate CutSoFar(all: seq<string>, cut: seq<string>, str: string, sep: string, end: nat, left: int) {
    && end <= |str| && (sep != "" || left >= 0)
    && all == cut + Pieces(str[end..], sep, left)
  }

  lemma CutOnce(all: seq<string>, cut: seq<string>, str: string, sep: string, end: nat, left: int, p: nat, end': nat,
                left': int)
    requires CutSoFar(all, cut, str, sep, end, left) && left != 0 && Find(str, sep, end) == Some(p)
    requires end' == p + |sep| && left' == left - 1
    ensures CutSoFar(all, cut + [str[end..p]], str, sep, end', left')
  {
    CutAt(str, sep, end, left, p);
    Regroup(cut, [str[end..p]], Pieces(str[p + |sep|..], sep, left - 1));
  }

  lemma CutNothing(str: string, sep: string, limit: int)
    requires sep != "" || limit >= 0
    ensures CutSoFar(Pieces(str, sep, limit), [], str, sep, 0, limit)
  {
    assert str[0..] == str;
  }

  lemma CutFinally(all: seq<string>, cut: seq<string>, str: string, sep: string, end: nat, left: int)
    requires CutSoFar(all, cut, str, sep, end, left) && (left == 0 || Find(str, sep, end).None?)
    ensures all == cut + if end < |str| then [str[end..]] else []
  {
    TailAt(str, sep, end, left);
  }

  /** split2vec appends to `vec`. An empty separator without a positive count never terminates in the
      original, so it is outside the contract. */
  method Split2Vec(str: string, vec: seq<string>, split: string, count: int) returns (ok: bool, vec': seq<string>)
    requires split != "" || count > 0 || str == ""
    ensures str == "" ==> !ok && vec' == vec
    ensures str != "" ==> vec' == vec + Pieces(str, split, Limit(count))
    ensures str != "" ==> ok == (count == 0 || (count > 0 && |vec'| - |vec| >= count))
  {
    hide Pieces, Find, CutSoFar;
    vec' := vec;
    if str == "" {
      return false, vec';
    }
    var end: nat := 0;
    var len := |split|;
    var pos := Find(str, split, 0);
    var index := 0;
    ghost var all, cut, left := Pieces(str, split, Limit(count)), [], Limit(count);
    CutNothing(str, split, left);
    while pos.Some?
      invariant end <= |str| && pos == Find(str, split, end)
      invariant vec' == vec + cut && CutSoFar(all, cut, str, split, end, left) && left == Limit(count) - |cut|
      invariant if count > 0 then 0 <= index == |cut| < count else index == 0
      decreases if count > 0 then count - index else |str| - end
    {
      CutOnce(all, cut, str, split, end, left, pos.value, pos.value + len, left - 1);
      Regroup(vec, cut, [str[end..pos.value]]);
      cut, left := cut + [str[end..pos.value]], left - 1;
      vec' := vec' + [str[end..pos.value]];
      end := pos.value + len;
      if count > 0 {
        index := index + 1;
        if index == count {
          break;
        }
      }
      pos := Find(str, split, end);
    }
    CutFinally(all, cut, str, split, end, left);
    Regroup(vec, cut, [str[end..]]);
    if end < |str| {
      vec' := vec' + [str[end..]];
      if index != count && count > 0 {
        index := index + 1;
      }
    }
    ok := count == 0 || index == count;
  }

  /** The text that `ps` came from: one more separator follows when every piece ended at a cut. */
  function Reassembled(ps: seq<string>, cuts: nat, sep: string): string {
    Join(ps, sep) + (if cuts == |ps| && cuts > 0 then sep else "")
  }

  lemma ReassembleStep(head: string, ps: seq<string>, cuts: nat, sep: string)
    requires ps == [] ==> cuts == 0
    ensures Reassembled([head] + ps, cuts + 1, sep) == head + sep + Reassembled(ps, cuts, sep)
  {
    assert ([head] + ps)[1..] == ps;
    Regroup(head + sep, Join(ps, sep), if cuts == |ps| && cuts > 0 then sep else "");
  }

  lemma FindIsText(s: string, sep: string, p: nat)
    requires Find(s, sep, 0) == Some(p)
    ensures s[p..p + |sep|] == sep
  {
    FindIsFirst(s, sep, 0);
    assert s[p..][..|sep|] == s[p..p + |sep|];
  }

  lemma GlueBack(s: string, p: nat, sep: string, ps: seq<string>, cuts: nat)
    requires p + |sep| <= |s| && s[p..p + |sep|] == sep
    requires Reassembled(ps, cuts, sep) == s[p + |sep|..] && (ps == [] ==> cuts == 0)
    ensures Reassembled([s[..p]] + ps, cuts + 1, sep) == s
  {
    ReassembleStep(s[..p], ps, cuts, sep);
    assert s[..p] + s[p..p + |sep|] + s[p + |sep|..] == s;
  }

  /** Joining the pieces gives the text back, with one separator more exactly when the text ran out at a cut. */
  lemma {:induction false} SplitReconstructs(s: string, sep: string, limit: int)
    requires sep != "" || limit >= 0
    ensures var ps, cuts := Pieces(s, sep, limit), Cuts(s, sep, limit);
            && Reassembled(ps, cuts, sep) == s
            && (|ps| == cuts || |ps| == cuts + 1)
            && (limit >= 0 ==> cuts <= limit)
            && (sep != "" && s != "" ==> ps != [])
    decreases |s|, if limit > 0 then limit else 0
  {
    hide Find;
    if limit != 0 && Find(s, sep, 0).Some? {
      var p := Find(s, sep, 0).value;
      var rest := s[p + |sep|..];
      OneMorePiece(s, sep, limit, p);
      SplitReconstructs(rest, sep, limit - 1);
      FindIsText(s, sep, p);
      GlueBack(s, p, sep, Pieces(rest, sep, limit - 1), Cuts(rest, sep, limit - 1));
    }
  }

  /** Every piece that was cut off ends at the first separator after it, so it contains none; an
      unexhausted limit means that the tail contains none either. */
  lemma {:induction false} PiecesAreClean(s: string, sep: string, limit: int, i: nat)
    requires sep != "" || limit >= 0
    requires i < |Pieces(s, sep, limit)|
    ensures var ps, cuts := Pieces(s, sep, limit), Cuts(s, sep, limit);
            if i < cuts then Clean(ps[i], sep)
            else i == cuts && (limit < 0 || cuts < limit ==> Find(ps[i], sep, 0).None?)
    decreases |s|, if limit > 0 then limit else 0
  {
    hide Find;
    if limit != 0 && Find(s, sep, 0).Some? {
      var p := Find(s, sep, 0).value;
      var rest := s[p + |sep|..];
      OneMorePiece(s, sep, limit, p);
      if i == 0 {
        CleanPrefix(s, sep);
      } else {
        PiecesAreClean(rest, sep, limit - 1, i - 1);
        assert Pieces(s, sep, limit)[i] == Pieces(rest, sep, limit - 1)[i - 1];
      }
    }
  }

  /** With a positive count, the first `count` pieces exist exactly when the call returns true, and there
      is at most one more. */
  lemma CountIsReached(s: string, sep: string, count: int)
    requires count > 0
    ensures |Pieces(s, sep, count)| <= count + 1
    ensures |Pieces(s, sep, count)| == count + 1 ==> Cuts(s, sep, count) == count
  {
    SplitReconstructs(s, sep, count);
  }

  /** A list of pieces that no separator reaches into. */
  ghost predicate Splittable(ps: seq<string>, sep: string) {
    && ps != []
    && (forall i :: 0 <= i < |ps| - 1 ==> Clean(ps[i], sep))
    && ps[|ps| - 1] != "" && Find(ps[|ps| - 1], sep, 0).None?
  }

  /** Splitting undoes joining. */
  lemma {:induction false} SplitUndoesJoin(ps: seq<string>, sep: string, limit: int)
    requires sep != "" && Splittable(ps, sep) && limit < 0
    ensures Pieces(Join(ps, sep), sep, limit) == ps
    decreases |ps|
  {
    hide Find;
    if |ps| > 1 {
      var s, rest := Join(ps, sep), Join(ps[1..], sep);
      assert Clean(ps[0], sep);
      FindAfterClean(ps[0], sep, rest);
      assert s[..|ps[0]|] == ps[0];
      assert s[|ps[0]| + |sep|..] == rest;
      assert Splittable(ps[1..], sep);
      SplitUndoesJoin(ps[1..], sep, limit - 1);
    }
  }
}
