/** Hash::hash of cppredis/hash.h: four digest bytes, shifted as C ints and or-ed together. MD5 itself is
    an arbitrary function from texts to digest bytes. */
module Hashing {

  type Byte = x: int | 0 <= x < 256

  /** The first four bytes of an MD5 digest. */
  datatype Digest = Digest(b0: Byte, b1: Byte, b2: Byte, b3: Byte)

  type Md5 = string -> Digest

  const CIRCLE: int := 0x1_0000_0000

  /** The int with the same 32 bits. */
  function SignWrap(x: int): int
    requires 0 <= x < CIRCLE
  {
    if x < CIRCLE / 2 then x else x - CIRCLE
  }

  /** Bitwise or of two's complement numbers of any width. */
  function BitOr(x: int, y: int): int
    decreases (if x < 0 then -x - 1 else x) + (if y < 0 then -y - 1 else y)
  {
    if (x == 0 || x == -1) && (y == 0 || y == -1) then (if x == 0 && y == 0 then 0 else -1)
    else 2 * BitOr(x / 2, y / 2) + (if x % 2 == 1 || y % 2 == 1 then 1 else 0)
  }

  function Pow2(k: nat): nat { if k == 0 then 1 else 2 * Pow2(k - 1) }

  lemma {:induction false} OrZero(x: int)
    ensures BitOr(x, 0) == x
    decreases if x < 0 then -x - 1 else x
  {
    if x != 0 && x != -1 {
      OrZero(x / 2);
    }
  }

  /** Or-ing into cleared low bits is adding. */
  lemma {:induction false} OrDisjoint(h: int, k: nat, lo: int)
    requires 0 <= lo < Pow2(k)
    ensures BitOr(h * Pow2(k), lo) == h * Pow2(k) + lo
    decreases k
  {
    if k == 0 {
      OrZero(h);
    } else {
      var x := h * Pow2(k - 1);
      assert h * Pow2(k) == 2 * x;
      OrDisjoint(h, k - 1, lo / 2);
      if x == 0 || x == -1 {
        OrSmall(x, lo);
      }
    }
  }

  lemma OrSmall(x: int, lo: int)
    requires lo >= 0
    ensures BitOr(2 * x, lo) == 2 * BitOr(x, lo / 2) + lo % 2
  {
    if x == 0 && lo == 0 {
      assert BitOr(0, 0) == 0;
    }
  }

  /** `(b & 0xFF) << k` evaluated in a 32-bit int. */
  function Shift(b: Byte, k: nat): int {
    SignWrap(b * Pow2(k) % CIRCLE)
  }

  function Hash(md5: Md5, text: string): int {
    var d := md5(text);
    BitOr(BitOr(BitOr(Shift(d.b3, 24), Shift(d.b2, 16)), Shift(d.b1, 8)), d.b0)
  }

  /** The same four bytes read as an unsigned 32-bit number. */
  function UnsignedHash(md5: Md5, text: string): int {
    var d := md5(text);
    d.b3 * 0x100_0000 + d.b2 * 0x1_0000 + d.b1 * 0x100 + d.b0
  }

  /** The hash is the digest's little-endian number, sign-wrapped. */
  lemma HashIsSignWrapped(md5: Md5, text: string)
    ensures 0 <= UnsignedHash(md5, text) < CIRCLE
    ensures Hash(md5, text) == SignWrap(UnsignedHash(md5, text))
  {
    hide BitOr, Pow2;
    var d := md5(text);
    Powers();
    var h := if d.b3 < 128 then d.b3 else d.b3 - 256;
    assert Shift(d.b3, 24) == h * Pow2(24);
    assert Shift(d.b2, 16) == d.b2 * Pow2(16);
    assert Shift(d.b1, 8) == d.b1 * Pow2(8);
    OrDisjoint(h, 24, d.b2 * Pow2(16));
    OrDisjoint(h * 0x100 + d.b2, 16, d.b1 * Pow2(8));
    OrDisjoint(h * 0x1_0000 + d.b2 * 0x100 + d.b1, 8, d.b0);
  }

  /** Its bytes, lowest first, are the first four bytes of the digest. */
  lemma HashBytes(md5: Md5, text: string)
    ensures var d, h := md5(text), Hash(md5, text);
            && h % 0x100 == d.b0 && h / 0x100 % 0x100 == d.b1
            && h / 0x1_0000 % 0x100 == d.b2 && h / 0x100_0000 % 0x100 == d.b3
  {
    hide BitOr, Shift, Pow2, Hash;
    HashIsSignWrapped(md5, text);
    var d := md5(text);
    var u := UnsignedHash(md5, text);
    var k := if u < CIRCLE / 2 then 0 else 1;
    assert Hash(md5, text) == u - k * CIRCLE;
    BytesOf(d.b0, d.b1, d.b2, d.b3, k);
  }

  lemma BytesOf(b0: Byte, b1: Byte, b2: Byte, b3: Byte, k: int)
    requires k == 0 || k == 1
    ensures var h := b3 * 0x100_0000 + b2 * 0x1_0000 + b1 * 0x100 + b0 - k * CIRCLE;
            && h % 0x100 == b0 && h / 0x100 % 0x100 == b1 && h / 0x1_0000 % 0x100 == b2 && h / 0x100_0000 % 0x100 == b3
  {
    var h := b3 * 0x100_0000 + b2 * 0x1_0000 + b1 * 0x100 + b0 - k * CIRCLE;
    assert h == 0x100 * (b3 * 0x1_0000 + b2 * 0x100 + b1 - k * 0x100_0000) + b0;
    assert h / 0x100 == b3 * 0x1_0000 + b2 * 0x100 + b1 - k * 0x100_0000;
    assert h / 0x1_0000 == b3 * 0x100 + b2 - k * 0x1_0000;
    assert h / 0x100_0000 == b3 - k * 0x100;
  }

  lemma Powers()
    ensures Pow2(8) == 0x100 && Pow2(16) == 0x1_0000 && Pow2(24) == 0x100_0000
  {
    assert Pow2(4) == 16;
    assert Pow2(8) == 0x100;
    assert Pow2(12) == 0x1000;
    assert Pow2(16) == 0x1_0000;
    assert Pow2(20) == 0x10_0000;
  }
}
