/** std::string::find, and the decimal notation of "%d" and atoi. */
module Strings {
  import opened Wrappers

  predicate At(s: string, pat: string, i: nat) {
    i <= |s| && pat <= s[i..]
  }

  /** The least position at or after `from` where `pat` occurs; None is npos. */
  function Find(s: string, pat: string, from: nat): (r: Option<nat>)
    ensures r.Some? ==> from <= r.value && r.value + |pat| <= |s|
    decreases |s| - from
  {
    if from + |pat| > |s| then None
    else if At(s, pat, from) then Some(from)
    else Find(s, pat, from + 1)
  }

  lemma {:induction false} FindIsFirst(s: string, pat: string, from: nat)
    ensures match Find(s, pat, from)
            case None => forall i :: from <= i ==> !At(s, pat, i)
            case Some(p) => At(s, pat, p) && forall i :: from <= i < p ==> !At(s, pat, i)
    decreases |s| - from
  {
    if from + |pat| <= |s| && !At(s, pat, from) {
      FindIsFirst(s, pat, from + 1);
    }
  }

  lemma AtInRest(s: string, pat: string, from: nat, i: nat)
    requires from <= |s|
    ensures At(s[from..], pat, i) <==> At(s, pat, from + i)
  {
    if from + i <= |s| {
      assert s[from..][i..] == s[from + i..];
    }
  }

  /** Searching from an offset is searching the rest. */
  lemma FindInRest(s: string, pat: string, from: nat)
    requires from <= |s|
    ensures match Find(s[from..], pat, 0)
            case None => Find(s, pat, from) == None
            case Some(i) => Find(s, pat, from) == Some(from + i)
  {
    hide Find;
    forall i: nat ensures At(s[from..], pat, i) <==> At(s, pat, from + i) {
      AtInRest(s, pat, from, i);
    }
    FindIsFirst(s, pat, from);
    FindIsFirst(s[from..], pat, 0);
    match Find(s, pat, from)
    case None =>
    case Some(j) => assert At(s[from..], pat, j - from);
  }

  /** A text in which `pat` first occurs at `p`. */
  lemma FindIs(s: string, pat: string, p: nat)
    requires At(s, pat, p) && forall i :: 0 <= i < p ==> !At(s, pat, i)
    ensures Find(s, pat, 0) == Some(p)
  {
    FindIsFirst(s, pat, 0);
  }

  lemma Regroup<T>(a: seq<T>, b: seq<T>, c: seq<T>)
    ensures a + (b + c) == a + b + c
  {
  }

  // ---- decimal notation

  function Digit(d: int): char
    requires 0 <= d < 10
  {
    "0123456789"[d]
  }

  predicate IsDigit(c: char) { '0' <= c <= '9' }

  function DigitValue(c: char): nat
    requires IsDigit(c)
  {
    c as int - '0' as int
  }

  function NatText(n: nat): (s: string)
    ensures s != "" && forall c :: c in s ==> IsDigit(c)
  {
    if n < 10 then [Digit(n)] else NatText(n / 10) + [Digit(n % 10)]
  }

  /** "%d". */
  function IntText(n: int): (s: string)
    ensures s != "" && forall c :: c in s ==> c == '-' || IsDigit(c)
  {
    if n < 0 then "-" + NatText(-n) else NatText(n)
  }

  function Digits(s: string, acc: nat): nat {
    if s == "" || !IsDigit(s[0]) then acc else Digits(s[1..], 10 * acc + DigitValue(s[0]))
  }

  predicate IsSpace(c: char) { c == ' ' || '\t' <= c <= '\r' }

  /** atoi, for values that fit an int. */
  function Atoi(s: string): int {
    if s == "" then 0
    else if IsSpace(s[0]) then Atoi(s[1..])
    else if s[0] == '-' then (-1) * Digits(s[1..], 0)
    else if s[0] == '+' then Digits(s[1..], 0)
    else Digits(s, 0)
  }

  lemma {:induction false} DigitsSnoc(s: string, c: char, acc: nat)
    requires IsDigit(c) && forall x :: x in s ==> IsDigit(x)
    ensures Digits(s + [c], acc) == 10 * Digits(s, acc) + DigitValue(c)
  {
    if s == "" {
      assert (s + [c])[1..] == "";
    } else {
      DigitsSnoc(s[1..], c, 10 * acc + DigitValue(s[0]));
      assert (s + [c])[1..] == s[1..] + [c];
    }
  }

  lemma {:induction false} DigitsOfNatText(n: nat)
    ensures Digits(NatText(n), 0) == n
  {
    if n >= 10 {
      DigitsOfNatText(n / 10);
      DigitsSnoc(NatText(n / 10), Digit(n % 10), 0);
    } else {
      DigitsSnoc("", Digit(n), 0);
      assert "" + [Digit(n)] == [Digit(n)];
    }
  }

  lemma {:induction false} DigitsStop(s: string, tail: string, acc: nat)
    requires (forall c :: c in s ==> IsDigit(c)) && (tail == "" || !IsDigit(tail[0]))
    ensures Digits(s + tail, acc) == Digits(s, acc)
    decreases |s|
  {
    if s == "" {
      assert s + tail == tail;
    } else {
      assert (s + tail)[1..] == s[1..] + tail;
      DigitsStop(s[1..], tail, 10 * acc + DigitValue(s[0]));
    }
  }

  lemma AtoiSigns(d: string)
    requires d != "" && IsDigit(d[0])
    ensures Atoi(d) == Atoi("+" + d) == Digits(d, 0) && Atoi("-" + d) == (-1) * Digits(d, 0)
  {
    hide Digits;
    var plus, minus := "+" + d, "-" + d;
    assert plus[0] == '+' && plus[1..] == d;
    assert minus[0] == '-' && minus[1..] == d;
  }

  lemma AtoiOfDigits(m: nat, tail: string)
    requires tail == "" || !IsDigit(tail[0])
    ensures Atoi(NatText(m) + tail) == Atoi("+" + NatText(m) + tail) == m
    ensures Atoi("-" + NatText(m) + tail) == (-1) * m
  {
    hide NatText, Atoi, Digits;
    var d := NatText(m);
    DigitsOfNatText(m);
    DigitsStop(d, tail, 0);
    assert (d + tail)[0] == d[0] && d[0] in d;
    AtoiSigns(d + tail);
    assert "+" + (d + tail) == "+" + d + tail && "-" + (d + tail) == "-" + d + tail;
  }

  lemma {:induction false} SkipsSpace(space: string, s: string)
    requires forall c :: c in space ==> IsSpace(c)
    ensures Atoi(space + s) == Atoi(s)
    decreases |space|
  {
    if space == "" {
      assert space + s == s;
    } else {
      assert (space + s)[1..] == space[1..] + s;
      SkipsSpace(space[1..], s);
    }
  }

  /** atoi skips white space, reads what "%d" prints, with or without a plus sign, and stops at the first other
      character. */
  lemma AtoiReads(space: string, n: int, tail: string)
    requires (forall c :: c in space ==> IsSpace(c)) && (tail == "" || !IsDigit(tail[0]))
    ensures Atoi(space + (IntText(n) + tail)) == n
    ensures n >= 0 ==> Atoi(space + ("+" + IntText(n) + tail)) == n
  {
    hide NatText, Atoi;
    AtoiOfDigits(if n < 0 then -n else n, tail);
    SkipsSpace(space, IntText(n) + tail);
    SkipsSpace(space, "+" + IntText(n) + tail);
  }

  lemma AtoiReadsBack(n: int)
    ensures Atoi(IntText(n)) == n
  {
    AtoiReads("", n, "");
    assert "" + (IntText(n) + "") == IntText(n);
  }

  lemma NotBefore(s: string, a: string, a': string, d': string, c: char)
    requires s == a' + [c] + d' && c !in d' && |a| < |s| && s[|a|] == c
    ensures |a| <= |a'|
  {
    assert forall j :: |a'| < j < |s| ==> s[j] == d'[j - |a'| - 1];
  }

  /** When the parts behind the last `c` do not contain it, both parts can be told apart. */
  lemma LastSeparator(a: string, d: string, a': string, d': string, c: char)
    requires a + [c] + d == a' + [c] + d' && c !in d && c !in d'
    ensures a == a' && d == d'
  {
    var s := a + [c] + d;
    assert s == a' + [c] + d';
    assert s[|a|] == c && s[|a'|] == c;
    NotBefore(s, a, a', d', c);
    NotBefore(s, a', a, d, c);
    assert s[..|a|] == a && s[..|a'|] == a';
    assert s[|a| + 1..] == d && s[|a'| + 1..] == d';
  }
}
