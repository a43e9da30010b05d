/** Bytes, exclusive or, and the fixed-width encodings of unsigned 64-bit numbers. */
module Bytes {
  newtype byte = x: int | 0 <= x < 256

  const TWO_64 := 0x1_0000_0000_0000_0000
  const TWO_32 := 0x1_0000_0000

  type u64 = n: nat | n < TWO_64
  type u32 = n: nat | n < TWO_32

  function ByteOf(n: nat): byte
    requires n < 256
  {
    n as byte
  }

  function NatOf(b: byte): nat { b as nat }

  function Zeros(n: nat): (r: seq<byte>)
    ensures |r| == n && forall i :: 0 <= i < n ==> r[i] == 0
  {
    seq(n, _ => 0)
  }

  // ---- Exclusive or, bit by bit ----

  function Power2(n: nat): (p: nat)
    ensures p > 0
  {
    if n == 0 then 1 else 2 * Power2(n - 1)
  }

  function Low(x: nat): (r: nat)
    ensures r < 2
  {
    x % 2
  }

  function High(x: nat): nat { x / 2 }

  function Join(low: nat, high: nat): nat { low + 2 * high }

  function XorBit(a: nat, b: nat): (r: nat)
    ensures r < 2
  {
    if a == b then 0 else 1
  }

  /** Exclusive or of the `n` low-order bits. */
  function XorBits(a: nat, b: nat, n: nat): (r: nat)
    ensures r < Power2(n)
  {
    if n == 0 then 0 else Join(XorBit(Low(a), Low(b)), XorBits(High(a), High(b), n - 1))
  }

  function XorByte(a: byte, b: byte): byte {
    assert Power2(8) == 256;
    XorBits(NatOf(a), NatOf(b), 8) as byte
  }

  lemma Split(low: nat, high: nat)
    requires low < 2
    ensures Low(Join(low, high)) == low && High(Join(low, high)) == high
  {
  }

  lemma {:induction false} XorBitsAssociates(a: nat, b: nat, c: nat, n: nat)
    ensures XorBits(XorBits(a, b, n), c, n) == XorBits(a, XorBits(b, c, n), n)
    decreases n
  {
    hide Low, High, Join;
    if n > 0 {
      XorBitsAssociates(High(a), High(b), High(c), n - 1);
      Split(XorBit(Low(a), Low(b)), XorBits(High(a), High(b), n - 1));
      Split(XorBit(Low(b), Low(c)), XorBits(High(b), High(c), n - 1));
    }
  }

  lemma {:induction false} XorBitsUnit(a: nat, n: nat)
    requires a < Power2(n)
    ensures XorBits(a, a, n) == 0 && XorBits(a, 0, n) == a && XorBits(0, a, n) == a
  {
    if n > 0 { XorBitsUnit(a / 2, n - 1); }
  }

  /** Bitwise or of the `n` low-order bits. */
  function OrBits(a: nat, b: nat, n: nat): (r: nat)
    ensures r < Power2(n)
  {
    if n == 0 then 0 else Join(if Low(a) == 0 then Low(b) else 1, OrBits(High(a), High(b), n - 1))
  }

  function OrByte(a: byte, b: byte): byte {
    assert Power2(8) == 256;
    OrBits(NatOf(a), NatOf(b), 8) as byte
  }

  lemma {:induction false} OrBitsZero(a: nat, b: nat, n: nat)
    requires a < Power2(n) && b < Power2(n)
    ensures OrBits(a, b, n) == 0 <==> a == 0 && b == 0
  {
    if n > 0 { OrBitsZero(a / 2, b / 2, n - 1); }
  }

  lemma {:induction false} XorBitsZero(a: nat, b: nat, n: nat)
    requires a < Power2(n) && b < Power2(n)
    ensures XorBits(a, b, n) == 0 <==> a == b
  {
    if n > 0 { XorBitsZero(a / 2, b / 2, n - 1); }
  }

  /** Or-ing the differences is zero exactly when there has been none. */
  lemma OrOfXorIsZero(diff: byte, a: byte, b: byte)
    ensures OrByte(diff, XorByte(a, b)) == 0 <==> diff == 0 && a == b
  {
    assert Power2(8) == 256;
    XorBitsZero(NatOf(a), NatOf(b), 8);
    OrBitsZero(NatOf(diff), XorBits(NatOf(a), NatOf(b), 8), 8);
  }

  /** A mask applied twice is no mask. */
  lemma XorCancels(a: byte, mask: byte)
    ensures XorByte(XorByte(a, mask), mask) == a
  {
    assert Power2(8) == 256;
    XorBitsAssociates(NatOf(a), NatOf(mask), NatOf(mask), 8);
    XorBitsUnit(NatOf(mask), 8);
    XorBitsUnit(NatOf(a), 8);
  }

  /** Masking with `first` and then with `first ^ second` is masking with `second`. */
  lemma XorRemask(a: byte, first: byte, second: byte)
    ensures XorByte(XorByte(a, first), XorByte(first, second)) == XorByte(a, second)
  {
    assert Power2(8) == 256;
    var x, i, o := NatOf(a), NatOf(first), NatOf(second);
    XorBitsAssociates(x, i, XorBits(i, o, 8), 8);
    XorBitsAssociates(i, i, o, 8);
    XorBitsUnit(i, 8);
    XorBitsUnit(o, 8);
  }

  /** Bit `i` of the exclusive or is set exactly when the two numbers differ there. */
  lemma {:induction false} XorBitsAt(a: nat, b: nat, n: nat, i: nat)
    requires i < n
    ensures BitOf(XorBits(a, b, n), i) == XorBit(BitOf(a, i), BitOf(b, i))
    decreases n
  {
    XorBitsStep(a, b, n);
    FirstBit(a);
    FirstBit(b);
    FirstBit(XorBits(a, b, n));
    if i > 0 {
      XorBitsAt(High(a), High(b), n - 1, i - 1);
      LaterBit(a, i);
      LaterBit(b, i);
      LaterBit(XorBits(a, b, n), i);
    }
    hide BitOf, XorBits, Low, High, XorBit;
  }

  function BitOf(v: nat, i: nat): nat { v / Power2(i) % 2 }

  lemma XorBitsStep(a: nat, b: nat, n: nat)
    requires n > 0
    ensures Low(XorBits(a, b, n)) == XorBit(Low(a), Low(b)) && High(XorBits(a, b, n)) == XorBits(High(a), High(b), n - 1)
  {
    hide Low, High, Join;
    Split(XorBit(Low(a), Low(b)), XorBits(High(a), High(b), n - 1));
  }

  lemma FirstBit(v: nat)
    ensures BitOf(v, 0) == Low(v)
  {
  }

  lemma LaterBit(v: nat, i: nat)
    requires i > 0
    ensures BitOf(v, i) == BitOf(High(v), i - 1)
  {
    HalveTwice(v, Power2(i - 1));
  }

  lemma HalveTwice(v: nat, p: nat)
    requires p > 0
    ensures v / 2 / p == v / (2 * p)
  {
    var a := v / 2;
    var q, r := a / p, a % p;
    assert a == q * p + r && v == 2 * a + v % 2;
    assert v == q * (2 * p) + (2 * r + v % 2);
    QuotientIs(v, 2 * p, q, 2 * r + v % 2);
  }

  // ---- Byte orders ----

  function Power256(n: nat): (p: nat)
    ensures p > 0
  {
    if n == 0 then 1 else 256 * Power256(n - 1)
  }

  /** The `n` low-order bytes of `v`, most significant first. */
  function BigEndian(v: nat, n: nat): (r: seq<byte>)
    ensures |r| == n
  {
    if n == 0 then [] else BigEndian(v / 256, n - 1) + [ByteOf(v % 256)]
  }

  function FromBigEndian(bytes: seq<byte>): (v: nat)
    ensures v < Power256(|bytes|)
  {
    if bytes == [] then 0 else FromBigEndian(bytes[..|bytes| - 1]) * 256 + NatOf(bytes[|bytes| - 1])
  }

  /** The `n` low-order bytes of `v`, least significant first. */
  function LittleEndian(v: nat, n: nat): (r: seq<byte>)
    ensures |r| == n
  {
    if n == 0 then [] else [ByteOf(v % 256)] + LittleEndian(v / 256, n - 1)
  }

  function FromLittleEndian(bytes: seq<byte>): (v: nat)
    ensures v < Power256(|bytes|)
  {
    if bytes == [] then 0 else NatOf(bytes[0]) + 256 * FromLittleEndian(bytes[1..])
  }

  lemma {:induction false} BigEndianRoundTrip(v: nat, n: nat)
    requires v < Power256(n)
    ensures FromBigEndian(BigEndian(v, n)) == v
  {
    if n > 0 {
      BigEndianRoundTrip(v / 256, n - 1);
      assert BigEndian(v, n)[..n - 1] == BigEndian(v / 256, n - 1);
    }
  }

  lemma {:induction false} LittleEndianRoundTrip(v: nat, n: nat)
    requires v < Power256(n)
    ensures FromLittleEndian(LittleEndian(v, n)) == v
  {
    if n > 0 {
      LittleEndianRoundTrip(v / 256, n - 1);
      assert LittleEndian(v, n)[1..] == LittleEndian(v / 256, n - 1);
    }
  }

  lemma SplitByte(low: nat, high: nat)
    requires low < 256
    ensures (low + 256 * high) % 256 == low && (low + 256 * high) / 256 == high
  {
  }

  lemma {:induction false} FromLittleEndianInjective(bytes: seq<byte>)
    ensures LittleEndian(FromLittleEndian(bytes), |bytes|) == bytes
  {
    if bytes != [] {
      FromLittleEndianInjective(bytes[1..]);
      SplitByte(NatOf(bytes[0]), FromLittleEndian(bytes[1..]));
    }
  }

  /** Byte `i` from the front has the weight 256^(n - 1 - i). */
  lemma {:induction false} BigEndianAt(v: nat, n: nat, i: nat)
    requires i < n
    ensures NatOf(BigEndian(v, n)[i]) == v / Power256(n - 1 - i) % 256
  {
    if i < n - 1 {
      BigEndianAt(v / 256, n - 1, i);
      DivideTwice(v, Power256(n - 2 - i));
    }
  }

  /** Byte `i` from the front has the weight 256^i. */
  lemma {:induction false} LittleEndianAt(v: nat, n: nat, i: nat)
    requires i < n
    ensures NatOf(LittleEndian(v, n)[i]) == v / Power256(i) % 256
  {
    if i > 0 {
      LittleEndianAt(v / 256, n - 1, i - 1);
      DivideTwice(v, Power256(i - 1));
    }
  }

  lemma DivideTwice(v: nat, p: nat)
    requires p > 0
    ensures v / 256 / p == v / (256 * p)
  {
    var a := v / 256;
    var q, r := a / p, a % p;
    assert a == q * p + r && v == 256 * a + v % 256;
    assert v == q * (256 * p) + (256 * r + v % 256);
    assert 256 * r + v % 256 < 256 * p;
    QuotientIs(v, 256 * p, q, 256 * r + v % 256);
  }

  lemma QuotientIs(v: nat, b: nat, q: nat, r: nat)
    requires b > 0 && v == q * b + r && r < b
    ensures v / b == q
  {
    var d := v / b - q;
    assert d * b == r - v % b;
    TimesAtLeast(d, b);
    TimesAtLeast(-d, b);
  }

  lemma TimesAtLeast(x: int, b: nat)
    ensures x >= 1 ==> x * b >= b
    ensures x <= -1 ==> x * b + b <= 0
  {
    if x <= -1 { assert (0 - x) * b >= b; }
  }

  /** Different numbers of at most that many bytes are spelled differently. */
  lemma LittleEndianInjective(v: nat, w: nat, n: nat)
    requires v < Power256(n) && w < Power256(n) && LittleEndian(v, n) == LittleEndian(w, n)
    ensures v == w
  {
    LittleEndianRoundTrip(v, n);
    LittleEndianRoundTrip(w, n);
  }

  lemma Power256Values()
    ensures Power256(8) == TWO_64 && Power256(4) == TWO_32
  {
    assert Power256(4) == 256 * 256 * 256 * 256;
    assert Power256(6) == 256 * 256 * Power256(4);
    assert Power256(8) == 256 * 256 * Power256(6);
  }

  // ---- Sizes ----

  function Min(a: nat, b: nat): nat { if a < b then a else b }

  /** A sum that wraps at 2^64 meets the total only when it does not wrap. */
  lemma WrapsExactly(overhead: nat, size: u64, total: nat)
    requires overhead <= total < TWO_64
    ensures (overhead + size) % TWO_64 == total <==> size == total - overhead
  {
    if overhead + size >= TWO_64 {
      assert (overhead + size) % TWO_64 == overhead + size - TWO_64;
    }
  }
}
