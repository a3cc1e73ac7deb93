/** replace_all and dress of test/main.cpp. */
module Replacer {
  import opened Wrappers
  import opened Strings
  import Splitter

  /** A text that methods change in place. */
  class StringRef {
    var text: string

    constructor (text: string)
      ensures this.text == text
    {
      this.text := text;
    }
  }

  /** Reading left to right, every occurrence met is replaced and the reading goes on behind it. */
  function Replaced(s: string, pat: string, with: string): string
    requires pat != ""
  {
    if |s| < |pat| then s
    else if pat <= s then with + Replaced(s[|pat|..], pat, with)
    else [s[0]] + Replaced(s[1..], pat, with)
  }

  lemma PrefixIsAtZero(s: string, pat: string)
    ensures pat <= s <==> At(s, pat, 0)
  {
    assert s[0..] == s;
  }

  /** If `pat` is not at the front, the first occurrence is the one in the rest. */
  lemma FindSkipsFront(s: string, pat: string)
    requires s != "" && !At(s, pat, 0)
    ensures match Find(s[1..], pat, 0)
            case None => Find(s, pat, 0) == None
            case Some(i) => Find(s, pat, 0) == Some(1 + i)
  {
    FindInRest(s, pat, 1);
    assert Find(s, pat, 0) == Find(s, pat, 1);
  }

  lemma ReplacedInFront(s: string, pat: string, with: string)
    requires pat != ""
    ensures pat <= s ==> Replaced(s, pat, with) == with + Replaced(s[|pat|..], pat, with)
    ensures !(pat <= s) && |s| >= |pat| ==> Replaced(s, pat, with) == [s[0]] + Replaced(s[1..], pat, with)
  {
  }

  lemma {:induction false} ReplacedAtFirst(s: string, pat: string, with: string, p: nat)
    requires pat != "" && Find(s, pat, 0) == Some(p)
    ensures Replaced(s, pat, with) == s[..p] + with + Replaced(s[p + |pat|..], pat, with)
    decreases p
  {
    hide Find, At, Replaced;
    FindIsFirst(s, pat, 0);
    PrefixIsAtZero(s, pat);
    ReplacedInFront(s, pat, with);
    if p == 0 {
      assert s[..0] == "";
    } else {
      FindSkipsFront(s, pat);
      ReplacedAtFirst(s[1..], pat, with, p - 1);
      assert s[1..][p - 1 + |pat|..] == s[p + |pat|..];
      PutBackFront(s, p, with, Replaced(s[p + |pat|..], pat, with));
    }
  }

  lemma PutBackFront(s: string, p: nat, with: string, rest: string)
    requires 0 < p <= |s|
    ensures [s[0]] + (s[1..][..p - 1] + with + rest) == s[..p] + with + rest
  {
    assert s[..p] == [s[0]] + s[1..][..p - 1];
  }

  lemma {:induction false} ReplacedNowhere(s: string, pat: string, with: string)
    requires pat != "" && Find(s, pat, 0).None?
    ensures Replaced(s, pat, with) == s
    decreases |s|
  {
    if |s| >= |pat| {
      PrefixIsAtZero(s, pat);
      assert !At(s, pat, 0);
      FindSkipsFront(s, pat);
      ReplacedNowhere(s[1..], pat, with);
    }
  }

  /** replace_all terminates for every non-empty pattern, also when `newValue` contains it. */
  method ReplaceAll(str: StringRef, oldValue: string, newValue: string) returns (r: string)
    requires oldValue != ""
    modifies str
    ensures str.text == Replaced(old(str.text), oldValue, newValue) && r == str.text
  {
    hide Find, Replaced;
    var pos := 0;
    ghost var goal := Replaced(str.text, oldValue, newValue);
    assert str.text[0..] == str.text;
    while true
      invariant pos <= |str.text|
      invariant str.text[..pos] + Replaced(str.text[pos..], oldValue, newValue) == goal
      decreases |str.text| - pos
    {
      ghost var done, rest := str.text[..pos], str.text[pos..];
      FindInRest(str.text, oldValue, pos);
      match Find(str.text, oldValue, pos)
      case Some(p) =>
        ghost var tail := str.text[p + |oldValue|..];
        ReplacedAtFirst(rest, oldValue, newValue, p - pos);
        assert rest[p - pos + |oldValue|..] == tail;
        ghost var skipped := rest[..p - pos];
        assert str.text[..p] == done + skipped;
        Regroup(done, skipped + newValue, Replaced(tail, oldValue, newValue));
        Regroup(done, skipped, newValue);
        str.text := str.text[..p] + newValue + str.text[p + |oldValue|..];
        pos := p + |newValue|;
        assert str.text[..pos] == done + skipped + newValue;
        assert str.text[pos..] == tail;
      case None =>
        ReplacedNowhere(rest, oldValue, newValue);
        assert done + rest == str.text;
        return str.text;
    }
  }

  /** dress doubles every percent sign, unless told not to. */
  method Dress(str: StringRef, replace: bool) returns (r: StringRef)
    modifies str
    ensures r == str
    ensures str.text == if replace then Replaced(old(str.text), "%", "%%") else old(str.text)
  {
    if replace {
      var _ := ReplaceAll(str, "%", "%%");
    }
    r := str;
  }

  /** Replacing is splitting at the pattern and joining with the replacement. */
  lemma {:induction false} ReplaceIsSplitAndJoin(s: string, pat: string, with: string, limit: int)
    requires pat != "" && limit < 0
    ensures Replaced(s, pat, with)
            == Splitter.Reassembled(Splitter.Pieces(s, pat, limit), Splitter.Cuts(s, pat, limit), with)
    decreases |s|
  {
    match Find(s, pat, 0)
    case None =>
      ReplacedNowhere(s, pat, with);
    case Some(p) =>
      var rest := s[p + |pat|..];
      ReplacedAtFirst(s, pat, with, p);
      ReplaceIsSplitAndJoin(rest, pat, with, limit - 1);
      Splitter.SplitReconstructs(rest, pat, limit - 1);
      Splitter.OneMorePiece(s, pat, limit, p);
      Splitter.ReassembleStep(s[..p], Splitter.Pieces(rest, pat, limit - 1), Splitter.Cuts(rest, pat, limit - 1), with);
  }

  /** Collapsing doubled signs undoes doubling them, whatever the text was. */
  lemma {:induction false} DoublingIsUndone(s: string, c: char)
    ensures Replaced(Replaced(s, [c], [c, c]), [c, c], [c]) == s
  {
    if s != "" {
      DoublingIsUndone(s[1..], c);
      var rest := Replaced(s[1..], [c], [c, c]);
      if s[0] == c {
        assert [c] <= s;
        assert Replaced(s, [c], [c, c]) == [c, c] + rest;
        assert ([c, c] + rest)[2..] == rest;
      } else {
        assert !([c] <= s);
        var t := [s[0]] + rest;
        assert Replaced(s, [c], [c, c]) == t;
        assert t[1..] == rest;
        assert t[0] != c && !([c, c] <= t);
        if |t| < 2 {
          assert rest == "";
        }
      }
    }
  }
}
