/** HMAC-SHA256 and PBKDF2: the standards (RFC 2104, RFC 8018) as functions, and the implementation's
  streaming and in-place forms proved to compute them.
    Line numbers are those of src/crypto/kdf.c. */
module Kdf {
  import opened Bytes
  import Sha256

  const SALT_SIZE := 16

  function XorWith(data: seq<byte>, b: byte): (r: seq<byte>)
    ensures |r| == |data| && forall i :: 0 <= i < |data| ==> r[i] == XorByte(data[i], b)
  {
    seq(|data|, i requires 0 <= i < |data| => XorByte(data[i], b))
  }

  function XorSeq(a: seq<byte>, b: seq<byte>): (r: seq<byte>)
    requires |a| == |b|
    ensures |r| == |a| && forall i :: 0 <= i < |a| ==> r[i] == XorByte(a[i], b[i])
  {
    seq(|a|, i requires 0 <= i < |a| => XorByte(a[i], b[i]))
  }

  // ---- Section 2 of RFC 2104 ----

  const IPAD: byte := 0x36
  const OPAD: byte := 0x5c

  /** The key brought to the block length: hashed when longer, then filled with zeros. */
  function KeyBlock(key: seq<byte>): (r: seq<byte>)
    ensures |r| == Sha256.BLOCK
  {
    var k := if |key| > Sha256.BLOCK then Sha256.Digest(key) else key;
    k + Zeros(Sha256.BLOCK - |k|)
  }

  function Hmac(key: seq<byte>, text: seq<byte>): (r: seq<byte>)
    ensures |r| == Sha256.DIGEST
  {
    Sha256.Digest(XorWith(KeyBlock(key), OPAD) + Sha256.Digest(XorWith(KeyBlock(key), IPAD) + text))
  }

  // ---- Section 5.2 of RFC 8018 ----

  /** U_j for j >= 1. */
  function U(password: seq<byte>, salt: seq<byte>, block: nat, j: nat): (r: seq<byte>)
    requires j > 0
    ensures |r| == Sha256.DIGEST
  {
    if j == 1 then Hmac(password, salt + BigEndian(block, 4)) else Hmac(password, U(password, salt, block, j - 1))
  }

  /** U_1 xor ... xor U_c. */
  function F(password: seq<byte>, salt: seq<byte>, c: nat, block: nat): (r: seq<byte>)
    requires c > 0
    ensures |r| == Sha256.DIGEST
  {
    if c == 1 then U(password, salt, block, 1)
    else XorSeq(F(password, salt, c - 1, block), U(password, salt, block, c))
  }

  /** T_1 || ... || T_n. */
  function Blocks(password: seq<byte>, salt: seq<byte>, c: nat, n: nat): (r: seq<byte>)
    requires c > 0
    ensures |r| == n * Sha256.DIGEST
  {
    if n == 0 then [] else Blocks(password, salt, c, n - 1) + F(password, salt, c, n)
  }

  /** The derived key of `length` bytes: the last block contributes what is still needed. */
  function DerivedKey(password: seq<byte>, salt: seq<byte>, c: nat, length: nat): (r: seq<byte>)
    requires c > 0
    ensures |r| == length
  {
    Blocks(password, salt, c, (length + Sha256.DIGEST - 1) / Sha256.DIGEST)[..length]
  }

  // ---- The standards byte by byte ----

  /** A key block under a mask: the key, or its digest when it is longer than 64 bytes, with zeros up to 64. */
  ghost predicate IsMaskedKey(block: seq<byte>, key: seq<byte>, mask: byte) {
    var k := if |key| <= 64 then key else Sha256.Digest(key);
    |block| == 64 && forall i :: 0 <= i < 64 ==> block[i] == XorByte(if i < |k| then k[i] else 0, mask)
  }

  /** RFC 2104: H(K ^ opad, H(K ^ ipad, text)). */
  lemma HmacIs(key: seq<byte>, text: seq<byte>, inner: seq<byte>, outer: seq<byte>)
    requires IsMaskedKey(inner, key, 0x36) && IsMaskedKey(outer, key, 0x5c)
    ensures Hmac(key, text) == Sha256.Digest(outer + Sha256.Digest(inner + text))
  {
    hide Sha256.Digest, XorByte;
    assert XorWith(KeyBlock(key), IPAD) == inner;
    assert XorWith(KeyBlock(key), OPAD) == outer;
  }

  /** RFC 8018: the first of the values that are added up is over the salt and the four bytes of the block number, and each
      of the later ones over the one before. */
  lemma RoundsAre(password: seq<byte>, salt: seq<byte>, c: nat, block: u32, number: seq<byte>, i: nat)
    requires c > 0 && i < 32
    requires |number| == 4 && NatOf(number[0]) == block / 0x100_0000 && NatOf(number[1]) == block / 0x1_0000 % 256
    requires NatOf(number[2]) == block / 0x100 % 256 && NatOf(number[3]) == block % 256
    ensures U(password, salt, block, 1) == Hmac(password, salt + number)
    ensures U(password, salt, block, c + 1) == Hmac(password, U(password, salt, block, c))
    ensures F(password, salt, 1, block) == U(password, salt, block, 1)
    ensures F(password, salt, c + 1, block)[i] == XorByte(F(password, salt, c, block)[i], U(password, salt, block, c + 1)[i])
  {
    hide Hmac, XorByte;
    BlockNumber(block, number);
  }

  lemma BlockNumber(block: u32, number: seq<byte>)
    requires |number| == 4 && NatOf(number[0]) == block / 0x100_0000 && NatOf(number[1]) == block / 0x1_0000 % 256
    requires NatOf(number[2]) == block / 0x100 % 256 && NatOf(number[3]) == block % 256
    ensures BigEndian(block, 4) == number
  {
    assert Power256(1) == 0x100 && Power256(2) == 0x1_0000 && Power256(3) == 0x100_0000;
    forall i | 0 <= i < 4 ensures BigEndian(block, 4)[i] == number[i] { BigEndianAt(block, 4, i); }
  }

  /** Byte `i` of the derived key is byte `i % 32` of block `i / 32 + 1`. */
  lemma DerivedKeyAt(password: seq<byte>, salt: seq<byte>, c: nat, length: nat, i: nat)
    requires c > 0 && i < length
    ensures DerivedKey(password, salt, c, length)[i] == F(password, salt, c, i / 32 + 1)[i % 32]
  {
    hide F;
    BlocksAt(password, salt, c, (length + 31) / 32, i);
  }

  lemma {:induction false} BlocksAt(password: seq<byte>, salt: seq<byte>, c: nat, n: nat, i: nat)
    requires c > 0 && i < n * 32
    ensures Blocks(password, salt, c, n)[i] == F(password, salt, c, i / 32 + 1)[i % 32]
  {
    hide F;
    if i < (n - 1) * 32 {
      BlocksAt(password, salt, c, n - 1, i);
    }
  }

  // ---- The implementation ----

  /** Masking a block with 0x36 and then with 0x36 ^ 0x5c is masking it with 0x5c. */
  lemma RemaskBlock(block: seq<byte>)
    ensures XorWith(XorWith(block, IPAD), XorByte(IPAD, OPAD)) == XorWith(block, OPAD)
  {
    hide XorByte;
    forall i | 0 <= i < |block|
      ensures XorByte(XorByte(block[i], IPAD), XorByte(IPAD, OPAD)) == XorByte(block[i], OPAD)
    {
      XorRemask(block[i], IPAD, OPAD);
    }
  }

  /** Lines 207-217: the one-shot digest. */
  method Sha256Of(data: seq<byte>, out: array<byte>)
    requires out.Length == Sha256.DIGEST
    modifies out
    ensures out[..] == Sha256.Digest(data)
  {
    var ctx := new Sha256.Context();
    ctx.Update(data);
    assert [] + data == data;
    ctx.Final(out);
  }

  /** Lines 168-178. */
  method MakeKeyBlock(key: seq<byte>) returns (keyBlock: array<byte>)
    ensures fresh(keyBlock) && keyBlock[..] == KeyBlock(key)
  {
    hide Sha256.Digest;
    keyBlock := new byte[Sha256.BLOCK](_ => 0);
    if |key| > Sha256.BLOCK {
      var keyHash := new byte[Sha256.DIGEST];
      Sha256Of(key, keyHash);
      forall i | 0 <= i < Sha256.DIGEST {
        keyBlock[i] := keyHash[i];
      }
    } else if |key| > 0 {
      forall i | 0 <= i < |key| {
        keyBlock[i] := key[i];
      }
    }
  }

  /** Lines 180-182 and 186-188: masks a block in place. */
  method MaskBlock(keyBlock: array<byte>, mask: byte)
    modifies keyBlock
    ensures keyBlock[..] == XorWith(old(keyBlock[..]), mask)
  {
    hide XorByte;
    for i := 0 to keyBlock.Length
      invariant forall j :: 0 <= j < i ==> keyBlock[j] == XorByte(old(keyBlock[j]), mask)
      invariant forall j :: i <= j < keyBlock.Length ==> keyBlock[j] == old(keyBlock[j])
    {
      keyBlock[i] := XorByte(keyBlock[i], mask);
    }
  }

  class HmacContext {
    const inner: Sha256.Context
    const outer: Sha256.Context
    ghost const key: seq<byte>
    /** Everything passed to Update. */
    ghost var text: seq<byte>

    ghost const Repr: set<object>

    ghost predicate Valid()
      reads this, Repr
    {
      && {inner, inner.state, inner.buffer, outer, outer.state, outer.buffer} <= Repr
      && inner.Footprint() !! outer.Footprint()
      && Repr == inner.Footprint() + outer.Footprint()
      && inner.Valid() && outer.Valid()
      && inner.absorbed == XorWith(KeyBlock(key), IPAD) + text
      && outer.absorbed == XorWith(KeyBlock(key), OPAD)
    }

    /** Lines 163-193. */
    constructor (key: seq<byte>)
      ensures Valid() && fresh(Repr)
      ensures this.key == key && text == []
    {
      hide XorByte, KeyBlock, XorWith, Sha256.Context.Valid;
      var keyBlock := MakeKeyBlock(key);
      ghost var block := keyBlock[..];
      MaskBlock(keyBlock, IPAD);
      var innerCtx := new Sha256.Context();
      innerCtx.Update(keyBlock[..]);
      MaskBlock(keyBlock, XorByte(IPAD, OPAD));
      RemaskBlock(block);
      var outerCtx := new Sha256.Context();
      outerCtx.Update(keyBlock[..]);

      inner, outer := innerCtx, outerCtx;
      this.key, text := key, [];
      Repr := innerCtx.Footprint() + outerCtx.Footprint();
    }

    /** Lines 195-197. */
    method Update(data: seq<byte>)
      requires Valid()
      modifies this`text, Repr
      ensures Valid()
      ensures text == old(text) + data
    {
      hide XorWith, KeyBlock, Sha256.Context.Valid;
      inner.Update(data);
      text := text + data;
      assert inner.absorbed == XorWith(KeyBlock(key), IPAD) + text;
    }

    /** Lines 199-205. */
    method Final(out: array<byte>)
      requires Valid() && out.Length == Sha256.DIGEST && out !in Repr
      modifies Repr, out
      ensures out[..] == Hmac(key, old(text))
    {
      hide Sha256.Digest, XorWith, KeyBlock, Sha256.Context.Valid;
      var innerHash := new byte[Sha256.DIGEST];
      inner.Final(innerHash);
      outer.Update(innerHash[..]);
      outer.Final(out);
    }
  }

  /** Lines 219-229: the one-shot MAC; `out` may be the array that holds the data. */
  method HmacSha256(key: seq<byte>, data: array<byte>, size: nat, out: array<byte>)
    requires size <= data.Length && out.Length == Sha256.DIGEST
    modifies out
    ensures out[..] == Hmac(key, old(data[..size]))
  {
    hide Hmac;
    var ctx := new HmacContext(key);
    ctx.Update(data[..size]);
    assert [] + data[..size] == data[..size];
    ctx.Final(out);
  }

  predicate ValidRequest(saltSize: nat, rounds: nat, keySize: nat) {
    0 < saltSize <= SALT_SIZE && rounds > 0 && keySize > 0
  }

  // The 32-bit block counter

  /** Line 287: the number of blocks, after the sum has wrapped at 2^64 and the quotient has been cut to 32 bits. */
  function BlockCount(length: nat): u32 { (length + Sha256.DIGEST - 1) % TWO_64 / Sha256.DIGEST % TWO_32 }

  /** The counter after so many turns of the loop. */
  function CounterAfter(turns: nat): u32 { (1 + turns) % TWO_32 }

  /** At some time the counter has passed its bound. */
  ghost predicate LoopEnds(count: u32) { exists turns: nat :: CounterAfter(turns) > count }

  /** The bytes of the key that the loop writes. */
  function Written(length: nat): (n: nat)
    ensures n <= length
  {
    if BlockCount(length) * Sha256.DIGEST < length then BlockCount(length) * Sha256.DIGEST else length
  }

  /** The largest key that is written whole. */
  const MAX_KEY_SIZE := (TWO_32 - 2) * Sha256.DIGEST

  /** The loop ends exactly when its bound is not the largest number the counter can hold. */
  lemma LoopEndsIff(count: u32)
    ensures LoopEnds(count) <==> count < TWO_32 - 1
  {
    if count < TWO_32 - 1 { assert CounterAfter(count) > count; }
  }

  lemma CountWithin(length: nat)
    requires length < TWO_64
    ensures BlockCount(length) <= (length + Sha256.DIGEST - 1) / Sha256.DIGEST
    ensures length <= MAX_KEY_SIZE ==> BlockCount(length) == (length + Sha256.DIGEST - 1) / Sha256.DIGEST < TWO_32 - 1
    ensures length > MAX_KEY_SIZE ==> BlockCount(length) == TWO_32 - 1 || BlockCount(length) * Sha256.DIGEST < length
  {
    var sum := length + Sha256.DIGEST - 1;
    if sum < TWO_64 {
      assert sum % TWO_64 == sum;
      CutTo32(sum / Sha256.DIGEST);
    } else {
      assert sum % TWO_64 == sum - TWO_64 < Sha256.DIGEST;
    }
  }

  lemma CutTo32(blocks: nat)
    ensures blocks % TWO_32 <= blocks && (blocks < TWO_32 ==> blocks % TWO_32 == blocks)
  {
  }

  /** The loop ends with the whole key written exactly up to the largest size. */
  lemma WholeKeyIff(length: nat)
    requires length < TWO_64
    ensures LoopEnds(BlockCount(length)) && Written(length) == length <==> length <= MAX_KEY_SIZE
  {
    CountWithin(length);
    LoopEndsIff(BlockCount(length));
  }

  /** With one byte more the loop never ends. */
  lemma OneByteMoreNeverEnds()
    ensures !LoopEnds(BlockCount(MAX_KEY_SIZE + 1))
  {
    LoopEndsIff(BlockCount(MAX_KEY_SIZE + 1));
  }

  /** With one block more than that it ends after no turn at all, and nothing of the key is written. */
  lemma OneBlockMoreIsEmpty()
    ensures var length := MAX_KEY_SIZE + 2 * Sha256.DIGEST; LoopEnds(BlockCount(length)) && Written(length) == 0
  {
    LoopEndsIff(0);
  }

  lemma {:induction false} BlocksPrefix(password: seq<byte>, salt: seq<byte>, c: nat, n: nat, m: nat)
    requires c > 0 && n <= m
    ensures n * Sha256.DIGEST <= m * Sha256.DIGEST
    ensures Blocks(password, salt, c, m)[..n * Sha256.DIGEST] == Blocks(password, salt, c, n)
  {
    hide F;
    if n < m {
      BlocksPrefix(password, salt, c, n, m - 1);
      var front := Blocks(password, salt, c, m - 1);
      assert Blocks(password, salt, c, m)[..|front|] == front;
      assert Blocks(password, salt, c, m)[..n * Sha256.DIGEST] == front[..n * Sha256.DIGEST];
    }
  }

  /** What the loop writes is the front of the key. */
  lemma WrittenIsFront(password: seq<byte>, salt: seq<byte>, c: nat, length: nat)
    requires c > 0 && length < TWO_64
    ensures var n, count := Written(length), BlockCount(length);
            n <= count * Sha256.DIGEST && Blocks(password, salt, c, count)[..n] == DerivedKey(password, salt, c, length)[..n]
  {
    hide Blocks, BlockCount;
    CountWithin(length);
    var n, count, all := Written(length), BlockCount(length), (length + Sha256.DIGEST - 1) / Sha256.DIGEST;
    BlocksPrefix(password, salt, c, count, all);
    var key := Blocks(password, salt, c, all);
    assert key[..length][..n] == key[..n] == key[..count * Sha256.DIGEST][..n];
  }

  lemma {:induction false} BlockAt(password: seq<byte>, salt: seq<byte>, c: nat, n: nat, i: nat, offset: nat)
    requires c > 0 && 0 < i <= n && offset == (i - 1) * Sha256.DIGEST
    ensures offset + Sha256.DIGEST <= n * Sha256.DIGEST
    ensures Blocks(password, salt, c, n)[offset..offset + Sha256.DIGEST] == F(password, salt, c, i)
  {
    hide F;
    var all, init, last := Blocks(password, salt, c, n), Blocks(password, salt, c, n - 1), F(password, salt, c, n);
    assert all == init + last;
    if i < n {
      BlockAt(password, salt, c, n - 1, i, offset);
      assert all[offset..offset + Sha256.DIGEST] == init[offset..offset + Sha256.DIGEST];
    } else {
      assert offset == |init|;
    }
  }

  /** Lines 296-319: one block; `u` is overwritten by its own MAC each round while `t` accumulates. */
  method DeriveBlock(password: seq<byte>, salt: seq<byte>, rounds: nat, blockIndex: u32, t: array<byte>)
    requires ValidRequest(|salt|, rounds, 1) && t.Length == Sha256.DIGEST
    modifies t
    ensures t[..] == F(password, salt, rounds, blockIndex)
  {
    hide Hmac, XorByte, BigEndian;
    var saltBlock := new byte[SALT_SIZE + 4];
    var u := new byte[Sha256.DIGEST];
    forall i | 0 <= i < |salt| {
      saltBlock[i] := salt[i];
    }
    assert saltBlock[..|salt|] == salt;
    StoreIndex(saltBlock, |salt|, blockIndex);
    assert saltBlock[..|salt| + 4] == saltBlock[..|salt|] + saltBlock[|salt|..|salt| + 4];
    assert saltBlock[..|salt| + 4] == salt + BigEndian(blockIndex, 4);
    HmacSha256(password, saltBlock, |salt| + 4, u);
    forall i | 0 <= i < Sha256.DIGEST {
      t[i] := u[i];
    }
    assert u[..] == Hmac(password, salt + BigEndian(blockIndex, 4));
    assert t[..] == u[..];
    for round := 1 to rounds
      invariant u[..] == U(password, salt, blockIndex, round)
      invariant t[..] == F(password, salt, round, blockIndex)
    {
      assert u[..Sha256.DIGEST] == u[..];
      HmacSha256(password, u, Sha256.DIGEST, u);
      ghost var before, mask := t[..], u[..];
      for i := 0 to Sha256.DIGEST
        invariant u[..] == mask
        invariant forall j :: 0 <= j < i ==> t[j] == XorByte(before[j], mask[j])
        invariant forall j :: i <= j < Sha256.DIGEST ==> t[j] == before[j]
      {
        t[i] := XorByte(t[i], u[i]);
      }
      assert t[..] == XorSeq(before, mask);
    }
  }

  /** Lines 297-301: the block number, big-endian, after the salt. */
  method StoreIndex(saltBlock: array<byte>, at: nat, blockIndex: u32)
    requires at + 4 <= saltBlock.Length
    modifies saltBlock
    ensures saltBlock[..at] == old(saltBlock[..at])
    ensures saltBlock[at..at + 4] == BigEndian(blockIndex, 4)
  {
    saltBlock[at] := ByteOf(blockIndex / 0x100_0000 % 256);
    saltBlock[at + 1] := ByteOf(blockIndex / 0x1_0000 % 256);
    saltBlock[at + 2] := ByteOf(blockIndex / 0x100 % 256);
    saltBlock[at + 3] := ByteOf(blockIndex % 256);
    FourDigits(blockIndex);
  }

  lemma FourDigits(v: nat)
    ensures BigEndian(v, 4) == [ByteOf(v / 0x100_0000 % 256), ByteOf(v / 0x1_0000 % 256), ByteOf(v / 0x100 % 256), ByteOf(v % 256)]
  {
    assert v / 256 / 256 == v / 0x1_0000 && v / 256 / 256 / 256 == v / 0x100_0000;
    assert BigEndian(v / 256 / 256 / 256, 1) == [ByteOf(v / 0x100_0000 % 256)];
    assert BigEndian(v / 256 / 256, 2) == BigEndian(v / 256 / 256 / 256, 1) + [ByteOf(v / 0x1_0000 % 256)];
    assert BigEndian(v / 256, 3) == BigEndian(v / 256 / 256, 2) + [ByteOf(v / 0x100 % 256)];
  }

  /** Lines 275-331: the derived key of RFC 8018, written block by block into `out`. When the counter comes round to zero
      the loop is in it for ever, and `ends` says so. */
  method Pbkdf2(password: seq<byte>, salt: seq<byte>, rounds: nat, out: array<byte>) returns (ends: bool, status: int)
    requires out.Length < TWO_64
    modifies out
    ensures ends <==> (ValidRequest(|salt|, rounds, out.Length) ==> LoopEnds(BlockCount(out.Length)))
    ensures ends ==> status == if ValidRequest(|salt|, rounds, out.Length) then 0 else -1
    ensures ends && status == 0 ==>
              var n := Written(out.Length);
              out[..n] == DerivedKey(password, salt, rounds, out.Length)[..n] && out[n..] == old(out[n..])
    ensures ends && status == 0 && out.Length <= MAX_KEY_SIZE ==> out[..] == DerivedKey(password, salt, rounds, out.Length)
    ensures ends && status != 0 ==> out[..] == old(out[..])
  {
    hide F, Blocks, DerivedKey;
    if |salt| == 0 || out.Length == 0 || rounds == 0 {
      return true, -1;
    }
    var blockCount: u32 := (out.Length + Sha256.DIGEST - 1) % TWO_64 / Sha256.DIGEST % TWO_32;
    if |salt| > SALT_SIZE {
      return true, -1;
    }
    LoopEndsIff(blockCount);
    CountWithin(out.Length);
    assert blockCount == BlockCount(out.Length);
    hide BlockCount, LoopEnds;
    ghost var key, was := Blocks(password, salt, rounds, blockCount), out[..];
    var t := new byte[Sha256.DIGEST];
    var blockIndex := 1;
    while blockIndex <= blockCount
      invariant 1 <= blockIndex <= blockCount + 1
      invariant blockIndex < TWO_32
      invariant forall j :: 0 <= j < (blockIndex - 1) * Sha256.DIGEST && j < out.Length ==> out[j] == key[j]
      invariant forall j :: (blockIndex - 1) * Sha256.DIGEST <= j < out.Length ==> out[j] == was[j]
    {
      DeriveBlock(password, salt, rounds, blockIndex, t);
      var offset := (blockIndex - 1) * Sha256.DIGEST;
      var remain := out.Length - offset;
      var copy := if remain < Sha256.DIGEST then remain else Sha256.DIGEST;
      BlockAt(password, salt, rounds, blockCount, blockIndex, offset);
      assert key[offset..offset + Sha256.DIGEST] == t[..];
      forall i | 0 <= i < copy {
        out[offset + i] := t[i];
      }
      blockIndex := (blockIndex + 1) % TWO_32;
      if blockIndex == 0 {
        return false, 0;
      }
    }
    WrittenIsFront(password, salt, rounds, out.Length);
    ghost var n := Written(out.Length);
    assert out[..n] == key[..n];
    assert out[n..] == was[n..];
    return true, 0;
  }
}
