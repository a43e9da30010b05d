/** Chunk hashes as the repository writes them: SHA-256 in lower-case hexadecimal.
    Line numbers are those of src/delta/hash.c. */
module Hashing {
  import opened Bytes
  import Sha256

  const HEX_LEN := 64
  const DIGITS: string := "0123456789abcdef"

  type Hash = string

  function Hex(bytes: seq<byte>): (r: string)
    ensures |r| == 2 * |bytes|
  {
    if bytes == [] then "" else [DIGITS[NatOf(bytes[0]) / 16], DIGITS[NatOf(bytes[0]) % 16]] + Hex(bytes[1..])
  }

  predicate IsHexDigit(c: char) {
    '0' <= c <= '9' || 'a' <= c <= 'f' || 'A' <= c <= 'F'
  }

  /** Lines 64-74: not empty, hexadecimal digits only. */
  predicate IsHex(s: string) {
    s != "" && forall i :: 0 <= i < |s| ==> IsHexDigit(s[i])
  }

  lemma DigitsAreDistinct(i: nat, j: nat)
    requires i < 16 && j < 16 && DIGITS[i] == DIGITS[j]
    ensures i == j
  {
  }

  /** Different digests never print alike. */
  lemma {:induction false} HexInjective(a: seq<byte>, b: seq<byte>)
    requires Hex(a) == Hex(b)
    ensures a == b
  {
    if a != [] {
      assert |a| == |b|;
      var x, y := NatOf(a[0]), NatOf(b[0]);
      assert Hex(a)[0] == DIGITS[x / 16] && Hex(a)[1] == DIGITS[x % 16];
      assert Hex(b)[0] == DIGITS[y / 16] && Hex(b)[1] == DIGITS[y % 16];
      DigitsAreDistinct(x / 16, y / 16);
      DigitsAreDistinct(x % 16, y % 16);
      assert a[0] == b[0];
      assert Hex(a)[2..] == Hex(a[1..]) && Hex(b)[2..] == Hex(b[1..]);
      HexInjective(a[1..], b[1..]);
    }
  }

  lemma {:induction false} HexIsHex(bytes: seq<byte>)
    ensures forall i :: 0 <= i < |Hex(bytes)| ==> '0' <= Hex(bytes)[i] <= '9' || 'a' <= Hex(bytes)[i] <= 'f'
  {
    if bytes != [] {
      HexIsHex(bytes[1..]);
      var d := NatOf(bytes[0]);
      assert forall i :: 0 <= i < 16 ==> '0' <= DIGITS[i] <= '9' || 'a' <= DIGITS[i] <= 'f';
    }
  }

  /** The name of a chunk. */
  function HashHex(data: seq<byte>): (r: Hash)
    ensures |r| == HEX_LEN
  {
    Hex(Sha256.Digest(data))
  }

  lemma HashHexIsHex(data: seq<byte>)
    ensures IsHex(HashHex(data))
  {
    hide Sha256.Digest;
    HexIsHex(Sha256.Digest(data));
  }

  /** No two of the given byte strings share a name. */
  ghost predicate NoCollision(chunks: set<seq<byte>>) {
    forall a, b :: a in chunks && b in chunks && HashHex(a) == HashHex(b) ==> a == b
  }

  /** The names collide only when the digests do. */
  lemma CollisionIsDigestCollision(a: seq<byte>, b: seq<byte>)
    ensures HashHex(a) == HashHex(b) <==> Sha256.Digest(a) == Sha256.Digest(b)
  {
    hide Sha256.Digest;
    if HashHex(a) == HashHex(b) { HexInjective(Sha256.Digest(a), Sha256.Digest(b)); }
  }

  /** So the hypothesis on names is one on digests: on the given byte strings SHA-256 has no collision. */
  lemma NoCollisionIsDigests(chunks: set<seq<byte>>)
    ensures NoCollision(chunks)
            <==> forall a, b :: a in chunks && b in chunks && Sha256.Digest(a) == Sha256.Digest(b) ==> a == b
  {
    hide HashHex, Sha256.Digest;
    forall a, b | a in chunks && b in chunks ensures HashHex(a) == HashHex(b) <==> Sha256.Digest(a) == Sha256.Digest(b) {
      CollisionIsDigestCollision(a, b);
    }
  }

  lemma HexStep(bytes: seq<byte>, high: char, low: char, done: string)
    requires bytes != [] && high == DIGITS[NatOf(bytes[0]) / 16] && low == DIGITS[NatOf(bytes[0]) % 16]
    ensures done + Hex(bytes) == done + [high, low] + Hex(bytes[1..])
  {
    assert Hex(bytes) == [high, low] + Hex(bytes[1..]);
  }

  /** Lines 32-35: the printing loop. */
  method BytesToHex(bytes: seq<byte>) returns (hex: string)
    ensures hex == Hex(bytes)
  {
    hide Hex;
    var out := new char[2 * |bytes|](_ => '0');
    assert bytes[0..] == bytes;
    for index := 0 to |bytes|
      invariant out[..2 * index] + Hex(bytes[index..]) == Hex(bytes)
    {
      ghost var done := out[..2 * index];
      var high, low := DIGITS[NatOf(bytes[index]) / 16], DIGITS[NatOf(bytes[index]) % 16];
      out[2 * index] := high;
      out[2 * index + 1] := low;
      assert out[..2 * (index + 1)] == done + [high, low];
      HexStep(bytes[index..], high, low, done);
      assert bytes[index..][1..] == bytes[index + 1..];
    }
    assert out[..] == out[..2 * |bytes|] + Hex(bytes[|bytes|..]);
    hex := out[..];
  }
}
