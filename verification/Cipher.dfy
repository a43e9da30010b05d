/** Sealing and opening of blobs: header, HMAC keystream and tag.
    Line numbers are those of src/crypto/cipher.c. */
module Cipher {
  import opened Bytes
  import opened Wrappers
  import Sha256
  import Kdf
  import KeyCache

  const MAGIC: seq<byte> := [0x43, 0x53, 0x45, 0x4e, 0x43, 0x30, 0x30, 0x31]
  const VERSION := 2
  const NONCE_SIZE := 16
  const TAG_SIZE := 32
  const HEADER_SIZE := 56
  const OVERHEAD := 88
  const DEFAULT_ROUNDS := 600000
  const ENC_LABEL: seq<byte> := [0x65, 0x6e, 0x63, 0x2d, 0x6b, 0x65, 0x79]
  const MAC_LABEL: seq<byte> := [0x6d, 0x61, 0x63, 0x2d, 0x6b, 0x65, 0x79]

  /** The fields of the blob header; the numbers are stored in the host's (little-endian) order. */
  datatype Header = Header(version: u32, rounds: u32, plaintextSize: u64, salt: seq<byte>, nonce: seq<byte>) {
    predicate Valid() { |salt| == Kdf.SALT_SIZE && |nonce| == NONCE_SIZE }
  }

  function PackHeader(h: Header): (r: seq<byte>)
    requires h.Valid()
    ensures |r| == HEADER_SIZE
  {
    MAGIC + LittleEndian(h.version, 4) + LittleEndian(h.rounds, 4) + LittleEndian(h.plaintextSize, 8) + h.salt + h.nonce
  }

  /** Lines 63-85: magic, version and the size test, whose sum wraps around at 2^64. */
  function ParseHeader(blob: seq<byte>): Option<Header> {
    if |blob| < OVERHEAD || blob[..8] != MAGIC then None
    else
      Power256Values();
      var h := Header(FromLittleEndian(blob[8..12]), FromLittleEndian(blob[12..16]), FromLittleEndian(blob[16..24]),
                      blob[24..40], blob[40..56]);
      if h.version != VERSION then None
      else if (HEADER_SIZE + h.plaintextSize % TWO_64 + TAG_SIZE) % TWO_64 != |blob| then None
      else Some(h)
  }

  function StreamBlock(key: seq<byte>, nonce: seq<byte>, counter: nat): (r: seq<byte>)
    ensures |r| == Sha256.DIGEST
  {
    Kdf.Hmac(key, nonce + LittleEndian(counter, 8))
  }

  /** Byte `i` is masked with byte `i % 32` of keystream block `i / 32`. */
  function Masked(key: seq<byte>, nonce: seq<byte>, data: seq<byte>): (r: seq<byte>)
    ensures |r| == |data|
    ensures forall i :: 0 <= i < |data| ==> r[i] == XorByte(data[i], StreamBlock(key, nonce, i / Sha256.DIGEST)[i % Sha256.DIGEST])
  {
    seq(|data|, i requires 0 <= i < |data| =>
      XorByte(data[i], StreamBlock(key, nonce, i / Sha256.DIGEST)[i % Sha256.DIGEST]))
  }

  function MasterKey(passphrase: seq<byte>, h: Header): (r: seq<byte>)
    requires h.rounds > 0
    ensures |r| == Sha256.DIGEST
  {
    Kdf.DerivedKey(passphrase, h.salt, h.rounds, Sha256.DIGEST)
  }

  function EncKey(master: seq<byte>): seq<byte> { Kdf.Hmac(master, ENC_LABEL) }
  function MacKey(master: seq<byte>): seq<byte> { Kdf.Hmac(master, MAC_LABEL) }

  function Tag(master: seq<byte>, header: seq<byte>, ciphertext: seq<byte>): (r: seq<byte>)
    ensures |r| == TAG_SIZE
  {
    Kdf.Hmac(MacKey(master), header + ciphertext)
  }

  function SealedWith(master: seq<byte>, plaintext: seq<byte>, h: Header): (r: seq<byte>)
    requires h.Valid()
    ensures |r| == OVERHEAD + |plaintext|
  {
    var ciphertext := Masked(EncKey(master), h.nonce, plaintext);
    PackHeader(h) + ciphertext + Tag(master, PackHeader(h), ciphertext)
  }

  function SealHeader(size: u64, salt: seq<byte>, nonce: seq<byte>): Header {
    Header(VERSION, DEFAULT_ROUNDS, size, salt, nonce)
  }

  /** The blob for a plaintext, given the random salt and nonce. */
  function Sealed(passphrase: seq<byte>, plaintext: seq<byte>, salt: seq<byte>, nonce: seq<byte>): (r: seq<byte>)
    requires |salt| == Kdf.SALT_SIZE && |nonce| == NONCE_SIZE && |plaintext| + OVERHEAD < TWO_64
    ensures |r| == OVERHEAD + |plaintext|
  {
    var h := SealHeader(|plaintext|, salt, nonce);
    SealedWith(MasterKey(passphrase, h), plaintext, h)
  }

  /** The plaintext of a blob, unless the header or the tag is wrong. */
  function Opened(passphrase: seq<byte>, blob: seq<byte>): Option<seq<byte>> {
    match ParseHeader(blob)
    case None => None
    case Some(h) =>
      if h.rounds == 0 || h.plaintextSize + OVERHEAD != |blob| then None
      else
        var master := MasterKey(passphrase, h);
        var ciphertext := blob[HEADER_SIZE..HEADER_SIZE + h.plaintextSize];
        if blob[HEADER_SIZE + h.plaintextSize..] != Tag(master, blob[..HEADER_SIZE], ciphertext) then None
        else Some(Masked(EncKey(master), h.nonce, ciphertext))
  }

  /** The wrapped size test admits only the exact size. */
  lemma ParsedSizeIsExact(blob: seq<byte>)
    requires |blob| < TWO_64 && ParseHeader(blob).Some?
    ensures ParseHeader(blob).value.plaintextSize == |blob| - OVERHEAD
    ensures ParseHeader(blob).value.Valid()
  {
    hide FromLittleEndian;
    var size := ParseHeader(blob).value.plaintextSize;
    assert size % TWO_64 == size;
    WrapsExactly(OVERHEAD, size, |blob|);
  }

  lemma ParsePacked(h: Header, rest: seq<byte>)
    requires h.Valid() && h.version == VERSION && |rest| == h.plaintextSize + TAG_SIZE && |rest| + HEADER_SIZE < TWO_64
    ensures ParseHeader(PackHeader(h) + rest) == Some(h)
  {
    hide LittleEndian, FromLittleEndian;
    var blob := PackHeader(h) + rest;
    Power256Values();
    LittleEndianRoundTrip(h.version, 4);
    LittleEndianRoundTrip(h.rounds, 4);
    LittleEndianRoundTrip(h.plaintextSize, 8);
    assert blob[..8] == MAGIC;
    assert blob[8..12] == LittleEndian(h.version, 4);
    assert blob[12..16] == LittleEndian(h.rounds, 4);
    assert blob[16..24] == LittleEndian(h.plaintextSize, 8);
    assert blob[24..40] == h.salt;
    assert blob[40..56] == h.nonce;
  }

  lemma MaskedTwice(key: seq<byte>, nonce: seq<byte>, data: seq<byte>)
    ensures Masked(key, nonce, Masked(key, nonce, data)) == data
  {
    hide XorByte, StreamBlock;
    var once := Masked(key, nonce, data);
    forall i | 0 <= i < |data| ensures Masked(key, nonce, once)[i] == data[i] {
      XorCancels(data[i], StreamBlock(key, nonce, i / Sha256.DIGEST)[i % Sha256.DIGEST]);
    }
  }

  /** Opening what was sealed gives back the plaintext, for every passphrase, plaintext, salt and nonce. */
  lemma OpenSealed(passphrase: seq<byte>, plaintext: seq<byte>, salt: seq<byte>, nonce: seq<byte>)
    requires |salt| == Kdf.SALT_SIZE && |nonce| == NONCE_SIZE && |plaintext| + OVERHEAD < TWO_64
    ensures Opened(passphrase, Sealed(passphrase, plaintext, salt, nonce)) == Some(plaintext)
  {
    hide Kdf.DerivedKey, Kdf.Hmac, ParseHeader, PackHeader;
    var h := SealHeader(|plaintext|, salt, nonce);
    var master := MasterKey(passphrase, h);
    var ciphertext := Masked(EncKey(master), nonce, plaintext);
    var tag := Tag(master, PackHeader(h), ciphertext);
    var blob := Sealed(passphrase, plaintext, salt, nonce);
    assert blob == PackHeader(h) + (ciphertext + tag);
    ParsePacked(h, ciphertext + tag);
    assert blob[..HEADER_SIZE] == PackHeader(h);
    assert blob[HEADER_SIZE..HEADER_SIZE + |plaintext|] == ciphertext;
    assert blob[HEADER_SIZE + |plaintext|..] == tag;
    MaskedTwice(EncKey(master), nonce, plaintext);
  }

  /** The tag that the other passphrase expects on a blob sealed with the first one is the tag it carries. */
  predicate TagsCoincide(sealer: seq<byte>, opener: seq<byte>, plaintext: seq<byte>, salt: seq<byte>, nonce: seq<byte>)
    requires |salt| == Kdf.SALT_SIZE && |nonce| == NONCE_SIZE && |plaintext| + OVERHEAD < TWO_64
  {
    var h := SealHeader(|plaintext|, salt, nonce);
    var ciphertext := Masked(EncKey(MasterKey(sealer, h)), nonce, plaintext);
    Tag(MasterKey(opener, h), PackHeader(h), ciphertext) == Tag(MasterKey(sealer, h), PackHeader(h), ciphertext)
  }

  /** A blob opens under another passphrase exactly when the tags coincide. */
  lemma OpensElsewhereIff(sealer: seq<byte>, opener: seq<byte>, plaintext: seq<byte>, salt: seq<byte>, nonce: seq<byte>)
    requires |salt| == Kdf.SALT_SIZE && |nonce| == NONCE_SIZE && |plaintext| + OVERHEAD < TWO_64
    ensures Opened(opener, Sealed(sealer, plaintext, salt, nonce)).Some? <==> TagsCoincide(sealer, opener, plaintext, salt, nonce)
  {
    hide Kdf.DerivedKey, Kdf.Hmac, ParseHeader, PackHeader;
    var h := SealHeader(|plaintext|, salt, nonce);
    var master := MasterKey(sealer, h);
    var ciphertext := Masked(EncKey(master), nonce, plaintext);
    var tag := Tag(master, PackHeader(h), ciphertext);
    var blob := Sealed(sealer, plaintext, salt, nonce);
    assert blob == PackHeader(h) + (ciphertext + tag);
    ParsePacked(h, ciphertext + tag);
    assert blob[..HEADER_SIZE] == PackHeader(h);
    assert blob[HEADER_SIZE..HEADER_SIZE + |plaintext|] == ciphertext;
    assert blob[HEADER_SIZE + |plaintext|..] == tag;
  }

  lemma PackParsed(blob: seq<byte>)
    requires ParseHeader(blob).Some?
    ensures ParseHeader(blob).value.Valid() && PackHeader(ParseHeader(blob).value) == blob[..HEADER_SIZE]
  {
    hide LittleEndian, FromLittleEndian;
    FromLittleEndianInjective(blob[8..12]);
    FromLittleEndianInjective(blob[12..16]);
    FromLittleEndianInjective(blob[16..24]);
    assert blob[..HEADER_SIZE] == blob[..8] + blob[8..12] + blob[12..16] + blob[16..24] + blob[24..40] + blob[40..56];
  }

  /** Nothing else opens: a blob that opens is, byte for byte, the sealing of its plaintext under its own header. */
  lemma OpensOnlySealed(passphrase: seq<byte>, blob: seq<byte>)
    requires |blob| < TWO_64 && Opened(passphrase, blob).Some?
    ensures var h := ParseHeader(blob).value;
            h.rounds > 0 && h.Valid() && blob == SealedWith(MasterKey(passphrase, h), Opened(passphrase, blob).value, h)
  {
    hide Kdf.DerivedKey, Kdf.Hmac, PackHeader, LittleEndian, FromLittleEndian;
    ParsedSizeIsExact(blob);
    PackParsed(blob);
    var h := ParseHeader(blob).value;
    var master := MasterKey(passphrase, h);
    var ciphertext := blob[HEADER_SIZE..HEADER_SIZE + h.plaintextSize];
    MaskedTwice(EncKey(master), h.nonce, ciphertext);
    assert blob == blob[..HEADER_SIZE] + ciphertext + blob[HEADER_SIZE + h.plaintextSize..];
  }

  // ---- The blob byte by byte ----

  /** The key behind "enc-key" or "mac-key", for a passphrase, a salt and a number of rounds. */
  function EncKeyFor(passphrase: seq<byte>, salt: seq<byte>, rounds: nat): seq<byte>
    requires rounds > 0
  {
    Kdf.Hmac(Kdf.DerivedKey(passphrase, salt, rounds, 32), [0x65, 0x6e, 0x63, 0x2d, 0x6b, 0x65, 0x79])
  }

  function MacKeyFor(passphrase: seq<byte>, salt: seq<byte>, rounds: nat): seq<byte>
    requires rounds > 0
  {
    Kdf.Hmac(Kdf.DerivedKey(passphrase, salt, rounds, 32), [0x6d, 0x61, 0x63, 0x2d, 0x6b, 0x65, 0x79])
  }

  /** Byte `i` of one is the exclusive or of byte `i` of the other with byte `i % 32` of the HMAC over the nonce and the
      eight little-endian bytes of `i / 32`. */
  ghost predicate MaskedBy(key: seq<byte>, nonce: seq<byte>, a: seq<byte>, b: seq<byte>) {
    |a| == |b|
    && forall i :: 0 <= i < |a| ==> b[i] == XorByte(a[i], MaskByte(key, nonce, i / 32, i % 32))
  }

  function MaskByte(key: seq<byte>, nonce: seq<byte>, block: nat, i: nat): byte
    requires i < 32
  {
    Kdf.Hmac(key, nonce + LittleEndian(block, 8))[i]
  }

  lemma MaskedIs(key: seq<byte>, nonce: seq<byte>, data: seq<byte>)
    ensures MaskedBy(key, nonce, data, Masked(key, nonce, data))
  {
    hide Kdf.Hmac, XorByte, LittleEndian;
  }

  /** What lies where in a blob: "CSENC001", version 2, 600000 rounds, the size, salt and nonce, the masked plaintext, and the
      HMAC over everything in front of it. */
  ghost predicate IsBlobOf(blob: seq<byte>, passphrase: seq<byte>, plaintext: seq<byte>, salt: seq<byte>, nonce: seq<byte>) {
    && |blob| == 88 + |plaintext|
    && blob[..8] == [0x43, 0x53, 0x45, 0x4e, 0x43, 0x30, 0x30, 0x31]
    && blob[8..16] == [2, 0, 0, 0, 0xc0, 0x27, 0x09, 0]
    && blob[16..24] == LittleEndian(|plaintext|, 8) && blob[24..40] == salt && blob[40..56] == nonce
    && MaskedBy(EncKeyFor(passphrase, salt, 600000), nonce, plaintext, blob[56..56 + |plaintext|])
    && blob[56 + |plaintext|..] == Kdf.Hmac(MacKeyFor(passphrase, salt, 600000), blob[..56 + |plaintext|])
  }

  /** That is what sealing makes. */
  lemma SealedIsBlob(passphrase: seq<byte>, plaintext: seq<byte>, salt: seq<byte>, nonce: seq<byte>)
    requires |salt| == Kdf.SALT_SIZE && |nonce| == NONCE_SIZE && |plaintext| + OVERHEAD < TWO_64
    ensures IsBlobOf(Sealed(passphrase, plaintext, salt, nonce), passphrase, plaintext, salt, nonce)
  {
    hide Kdf.Hmac, Kdf.DerivedKey, PackHeader, MaskedBy;
    var h := SealHeader(|plaintext|, salt, nonce);
    var header, master := PackHeader(h), MasterKey(passphrase, h);
    var ciphertext := Masked(EncKey(master), nonce, plaintext);
    var blob := Sealed(passphrase, plaintext, salt, nonce);
    HeaderBytes(|plaintext|, salt, nonce);
    MaskedIs(EncKey(master), nonce, plaintext);
    hide Masked, LittleEndian;
    assert blob[..56 + |plaintext|] == header + ciphertext;
    BlobParts(blob, header, ciphertext, Tag(master, header, ciphertext));
  }

  lemma BlobParts(blob: seq<byte>, header: seq<byte>, ciphertext: seq<byte>, tag: seq<byte>)
    requires blob == header + ciphertext + tag && |header| == 56 && |tag| == 32
    ensures blob[..8] == header[..8] && blob[8..16] == header[8..16] && blob[16..24] == header[16..24]
    ensures blob[24..40] == header[24..40] && blob[40..56] == header[40..56]
    ensures blob[56..56 + |ciphertext|] == ciphertext && blob[56 + |ciphertext|..] == tag
  {
  }

  lemma HeaderBytes(size: u64, salt: seq<byte>, nonce: seq<byte>)
    requires |salt| == Kdf.SALT_SIZE && |nonce| == NONCE_SIZE
    ensures var header := PackHeader(SealHeader(size, salt, nonce));
            && header[..8] == [0x43, 0x53, 0x45, 0x4e, 0x43, 0x30, 0x30, 0x31]
            && header[8..16] == [2, 0, 0, 0, 0xc0, 0x27, 0x09, 0]
            && header[16..24] == LittleEndian(size, 8) && header[24..40] == salt && header[40..56] == nonce
  {
    assert LittleEndian(2, 4) == [2, 0, 0, 0] && LittleEndian(600000, 4) == [0xc0, 0x27, 0x09, 0];
    hide LittleEndian;
    var header := PackHeader(SealHeader(size, salt, nonce));
    assert header[8..16] == header[8..12] + header[12..16];
  }

  /** A blob that opens to the plaintext: the same marks, any number of rounds but none, the size of the plaintext, which is
      masked under the blob's own salt, rounds and nonce, and the right tag at the end. */
  ghost predicate OpensTo(passphrase: seq<byte>, blob: seq<byte>, plaintext: seq<byte>) {
    && |blob| == 88 + |plaintext|
    && blob[..8] == [0x43, 0x53, 0x45, 0x4e, 0x43, 0x30, 0x30, 0x31] && blob[8..12] == [2, 0, 0, 0]
    && FromLittleEndian(blob[12..16]) > 0 && blob[16..24] == LittleEndian(|plaintext|, 8)
    && var rounds := FromLittleEndian(blob[12..16]);
       && MaskedBy(EncKeyFor(passphrase, blob[24..40], rounds), blob[40..56], blob[56..56 + |plaintext|], plaintext)
       && blob[56 + |plaintext|..] == Kdf.Hmac(MacKeyFor(passphrase, blob[24..40], rounds), blob[..56 + |plaintext|])
  }

  /** Exactly such blobs open, and to nothing else. */
  lemma OpensIff(passphrase: seq<byte>, blob: seq<byte>, plaintext: seq<byte>)
    requires |blob| < TWO_64
    ensures Opened(passphrase, blob) == Some(plaintext) <==> OpensTo(passphrase, blob, plaintext)
  {
    hide Kdf.DerivedKey, Kdf.Hmac, MaskedBy, Masked, OpensTo;
    if Opened(passphrase, blob).Some? { OpenedMeans(passphrase, blob); }
    if OpensTo(passphrase, blob, plaintext) { OpensToOpens(passphrase, blob, plaintext); }
  }

  /** What the header test lets through. */
  lemma ParsesIff(blob: seq<byte>)
    requires |blob| < TWO_64
    ensures ParseHeader(blob).Some?
            <==> |blob| >= 88 && blob[..8] == [0x43, 0x53, 0x45, 0x4e, 0x43, 0x30, 0x30, 0x31] && blob[8..12] == [2, 0, 0, 0]
                 && blob[16..24] == LittleEndian(|blob| - 88, 8)
    ensures ParseHeader(blob).Some? ==>
              ParseHeader(blob).value
              == Header(2, FromLittleEndian(blob[12..16]), |blob| - 88, blob[24..40], blob[40..56])
  {
    ParsesByNumbers(blob);
    hide ParseHeader;
    Power256Values();
    assert LittleEndian(2, 4) == [2, 0, 0, 0];
    hide LittleEndian, FromLittleEndian;
    if |blob| >= 88 {
      FieldIs(blob[8..12], 2, 4);
      FieldIs(blob[16..24], |blob| - 88, 8);
    }
  }

  lemma ParsesByNumbers(blob: seq<byte>)
    requires |blob| < TWO_64
    ensures ParseHeader(blob).Some?
            <==> |blob| >= 88 && blob[..8] == MAGIC && FromLittleEndian(blob[8..12]) == 2
                 && FromLittleEndian(blob[16..24]) == |blob| - 88
    ensures ParseHeader(blob).Some? ==>
              ParseHeader(blob).value
              == Header(2, FromLittleEndian(blob[12..16]), |blob| - 88, blob[24..40], blob[40..56])
  {
    hide FromLittleEndian;
    if |blob| >= OVERHEAD {
      Power256Values();
      var size: u64 := FromLittleEndian(blob[16..24]);
      assert size % TWO_64 == size;
      WrapsExactly(OVERHEAD, size, |blob|);
    }
  }

  lemma FieldIs(field: seq<byte>, v: nat, n: nat)
    requires |field| == n && v < Power256(n)
    ensures field == LittleEndian(v, n) <==> FromLittleEndian(field) == v
  {
    LittleEndianRoundTrip(v, n);
    FromLittleEndianInjective(field);
  }

  lemma OpenedMeans(passphrase: seq<byte>, blob: seq<byte>)
    requires |blob| < TWO_64 && Opened(passphrase, blob).Some?
    ensures OpensTo(passphrase, blob, Opened(passphrase, blob).value)
  {
    hide Kdf.DerivedKey, Kdf.Hmac, LittleEndian, FromLittleEndian, MaskedBy, Masked, ParseHeader;
    ParsesIff(blob);
    var h := ParseHeader(blob).value;
    var master := MasterKey(passphrase, h);
    var ciphertext := blob[HEADER_SIZE..HEADER_SIZE + h.plaintextSize];
    MaskedIs(EncKey(master), h.nonce, ciphertext);
    assert blob[..56 + h.plaintextSize] == blob[..HEADER_SIZE] + ciphertext;
  }

  lemma OpensToOpens(passphrase: seq<byte>, blob: seq<byte>, plaintext: seq<byte>)
    requires |blob| < TWO_64 && OpensTo(passphrase, blob, plaintext)
    ensures Opened(passphrase, blob) == Some(plaintext)
  {
    hide Kdf.DerivedKey, Kdf.Hmac, LittleEndian, FromLittleEndian, MaskedBy, Masked, ParseHeader;
    ParsesIff(blob);
    var h := ParseHeader(blob).value;
    var master := MasterKey(passphrase, h);
    var ciphertext := blob[HEADER_SIZE..HEADER_SIZE + h.plaintextSize];
    MaskedIs(EncKey(master), h.nonce, ciphertext);
    MaskIsUnique(EncKey(master), h.nonce, ciphertext, plaintext, Masked(EncKey(master), h.nonce, ciphertext));
    assert blob[..56 + h.plaintextSize] == blob[..HEADER_SIZE] + ciphertext;
  }

  lemma MaskIsUnique(key: seq<byte>, nonce: seq<byte>, a: seq<byte>, b: seq<byte>, c: seq<byte>)
    requires MaskedBy(key, nonce, a, b) && MaskedBy(key, nonce, a, c)
    ensures b == c
  {
    hide XorByte, MaskByte;
  }

  /** No two blocks of a blob are masked with the HMAC of the same input, and the two keys of a blob are HMACs of different
      labels. */
  lemma MaskInputsDiffer(nonce: seq<byte>, size: u64, i: nat, j: nat)
    requires i < size && j < size && i / 32 != j / 32
    ensures nonce + LittleEndian(i / 32, 8) != nonce + LittleEndian(j / 32, 8)
    ensures ENC_LABEL != MAC_LABEL
  {
    Power256Values();
    assert ENC_LABEL[0] != MAC_LABEL[0];
    hide LittleEndian;
    var a, b := nonce + LittleEndian(i / 32, 8), nonce + LittleEndian(j / 32, 8);
    if a == b {
      assert LittleEndian(i / 32, 8) == a[|nonce|..] == b[|nonce|..] == LittleEndian(j / 32, 8);
      LittleEndianInjective(i / 32, j / 32, 8);
    }
  }

  // ---- The implementation ----

  type Cache = KeyCache.KeyCache?

  ghost predicate CacheValid(cache: Cache)
    reads cache, if cache == null then {} else {cache.entries}
  {
    cache != null ==> cache.Valid()
  }

  /** The cache, if there is one, has seen no two passphrases with the same hash. */
  ghost predicate CacheTrusted(cache: Cache)
    reads cache
  {
    cache != null ==> KeyCache.NoCollision(cache.history)
  }

  /** Lines 22-28: compares all bytes before it answers. */
  method ConstantTimeEqual(lhs: seq<byte>, rhs: seq<byte>) returns (equal: bool)
    requires |lhs| == |rhs|
    ensures equal <==> lhs == rhs
  {
    hide OrByte, XorByte;
    var diff: byte := 0;
    for index := 0 to |lhs|
      invariant diff == 0 <==> lhs[..index] == rhs[..index]
    {
      OrOfXorIsZero(diff, lhs[index], rhs[index]);
      diff := OrByte(diff, XorByte(lhs[index], rhs[index]));
      assert lhs[..index + 1] == lhs[..index] + [lhs[index]] && rhs[..index + 1] == rhs[..index] + [rhs[index]];
    }
    assert lhs[..|lhs|] == lhs && rhs[..|rhs|] == rhs;
    return diff == 0;
  }

  /** Lines 30-40. */
  method MakeStreamBlock(key: seq<byte>, nonce: seq<byte>, counter: nat, out: array<byte>)
    requires out.Length == Sha256.DIGEST
    modifies out
    ensures out[..] == StreamBlock(key, nonce, counter)
  {
    hide Kdf.Hmac, Kdf.HmacContext.Valid, LittleEndian;
    var ctx := new Kdf.HmacContext(key);
    ctx.Update(nonce);
    ctx.Update(LittleEndian(counter, 8));
    assert ctx.text == nonce + LittleEndian(counter, 8);
    ctx.Final(out);
  }

  /** Lines 87-92: with the session's cache when there is one. */
  method DeriveKey(cache: Cache, passphrase: seq<byte>, h: Header, out: array<byte>) returns (status: int)
    requires CacheValid(cache) && h.Valid() && out.Length == Sha256.DIGEST
    modifies cache, if cache == null then {} else {cache.entries}, out
    ensures CacheValid(cache)
    ensures status == if h.rounds > 0 then 0 else -1
    ensures status == 0 && CacheTrusted(cache) ==> out[..] == MasterKey(passphrase, h)
  {
    hide Kdf.DerivedKey;
    if cache != null {
      status := cache.Derive(passphrase, h.salt, h.rounds, out);
    } else {
      Kdf.WholeKeyIff(out.Length);
      var ends;
      ends, status := Kdf.Pbkdf2(passphrase, h.salt, h.rounds, out);
    }
  }

  /** Lines 94-97. */
  method DeriveSubKeys(master: seq<byte>) returns (encKey: seq<byte>, macKey: seq<byte>)
    ensures encKey == EncKey(master) && macKey == MacKey(master)
  {
    hide Kdf.Hmac;
    var text := new byte[7](i requires 0 <= i < 7 => ENC_LABEL[i]);
    var out := new byte[Sha256.DIGEST];
    assert text[..7] == ENC_LABEL;
    Kdf.HmacSha256(master, text, 7, out);
    encKey := out[..];
    text := new byte[7](i requires 0 <= i < 7 => MAC_LABEL[i]);
    assert text[..7] == MAC_LABEL;
    Kdf.HmacSha256(master, text, 7, out);
    macKey := out[..];
  }

  /** Lines 156-166 and 230-239, one turn: masks the piece at `offset` with its keystream block. */
  method MaskPiece(key: seq<byte>, nonce: seq<byte>, data: seq<byte>, offset: nat, size: nat, out: array<byte>, base: nat)
    requires OnBlock(offset) && size <= Sha256.DIGEST && offset + size <= |data|
    requires base + |data| <= out.Length
    modifies out
    ensures out[..base + offset] == old(out[..base + offset])
    ensures out[base + offset..base + offset + size] == Masked(key, nonce, data)[offset..offset + size]
  {
    hide XorByte, StreamBlock, OnBlock;
    var stream := new byte[Sha256.DIGEST];
    MakeStreamBlock(key, nonce, offset / Sha256.DIGEST, stream);
    ghost var block, masked := stream[..], Masked(key, nonce, data);
    for index := 0 to size
      invariant out[..base + offset] == old(out[..base + offset])
      invariant stream[..] == block
      invariant out[base + offset..base + offset + index] == masked[offset..offset + index]
    {
      SameBlock(offset, index);
      ghost var done := out[base + offset..base + offset + index];
      out[base + offset + index] := XorByte(data[offset + index], stream[index]);
      assert out[base + offset..base + offset + index + 1] == done + [masked[offset + index]];
      assert masked[offset..offset + index + 1] == masked[offset..offset + index] + [masked[offset + index]];
    }
  }

  /** Where a keystream block starts. */
  predicate OnBlock(offset: nat) { offset % Sha256.DIGEST == 0 }

  lemma SameBlock(offset: nat, index: nat)
    requires OnBlock(offset) && index < Sha256.DIGEST
    ensures (offset + index) / Sha256.DIGEST == offset / Sha256.DIGEST && (offset + index) % Sha256.DIGEST == index
  {
  }

  /** Lines 99-181: writes the blob, masking and authenticating the plaintext 32 bytes at a time. */
  method Seal(cache: Cache, passphrase: seq<byte>, plaintext: seq<byte>, salt: seq<byte>, nonce: seq<byte>, blob: array<byte>)
    returns (status: int, size: nat)
    requires CacheValid(cache) && |salt| == Kdf.SALT_SIZE && |nonce| == NONCE_SIZE && |plaintext| < TWO_64
    modifies cache, if cache == null then {} else {cache.entries}, blob
    ensures CacheValid(cache)
    ensures status == if |plaintext| < TWO_64 - OVERHEAD && blob.Length >= OVERHEAD + |plaintext| then 0 else -1
    ensures status == 0 ==> size == OVERHEAD + |plaintext|
    ensures status == 0 && CacheTrusted(cache) ==>
              blob[..size] == Sealed(passphrase, plaintext, salt, nonce) && IsBlobOf(blob[..size], passphrase, plaintext, salt, nonce)
  {
    hide Kdf.Hmac, Kdf.DerivedKey, SealedWith, PackHeader, KeyCache.KeyCache.Valid, KeyCache.NoCollision, MasterKey,
         IsBlobOf;
    size := 0;
    if |plaintext| > TWO_64 - 1 - OVERHEAD {
      return -1, 0;
    }
    var requiredSize := OVERHEAD + |plaintext|;
    if blob.Length < requiredSize {
      return -1, 0;
    }
    var h := SealHeader(|plaintext|, salt, nonce);
    var key := new byte[Sha256.DIGEST];
    var _ := DeriveKey(cache, passphrase, h, key);
    SealBody(key[..], plaintext, h, blob);
    SealedIsBlob(passphrase, plaintext, salt, nonce);
    return 0, requiredSize;
  }

  lemma FirstBlock()
    ensures OnBlock(0)
  {
  }

  lemma NextBlock(offset: nat)
    requires OnBlock(offset)
    ensures OnBlock(offset + Sha256.DIGEST)
  {
  }

  lemma PrefixGrows(front: seq<byte>, s: seq<byte>, offset: nat, size: nat)
    requires offset + size <= |s|
    ensures s[..offset + size] == s[..offset] + s[offset..offset + size]
    ensures front + s[..offset] + s[offset..offset + size] == front + s[..offset + size]
  {
  }

  /** The blob starts with the header and the first `offset` bytes of the ciphertext. */
  predicate Written(blob: seq<byte>, header: seq<byte>, ciphertext: seq<byte>, offset: nat) {
    |header| == HEADER_SIZE && offset <= |ciphertext| && HEADER_SIZE + |ciphertext| <= |blob|
    && blob[..HEADER_SIZE] == header && blob[HEADER_SIZE..HEADER_SIZE + offset] == ciphertext[..offset]
  }

  lemma WrittenStart(blob: seq<byte>, ciphertext: seq<byte>)
    requires HEADER_SIZE + |ciphertext| <= |blob|
    ensures Written(blob, blob[..HEADER_SIZE], ciphertext, 0)
  {
  }

  lemma WrittenEnd(blob: seq<byte>, header: seq<byte>, ciphertext: seq<byte>)
    requires Written(blob, header, ciphertext, |ciphertext|)
    ensures blob[..HEADER_SIZE] == header && blob[HEADER_SIZE..HEADER_SIZE + |ciphertext|] == ciphertext
  {
    assert ciphertext[..|ciphertext|] == ciphertext;
  }

  lemma WrittenGrows(blob: seq<byte>, was: seq<byte>, header: seq<byte>, s: seq<byte>, offset: nat, size: nat)
    requires Written(was, header, s, offset) && offset + size <= |s| && |blob| == |was|
    requires blob[..HEADER_SIZE + offset] == was[..HEADER_SIZE + offset]
    requires blob[HEADER_SIZE + offset..HEADER_SIZE + offset + size] == s[offset..offset + size]
    ensures Written(blob, header, s, offset + size)
  {
    assert blob[..HEADER_SIZE] == blob[..HEADER_SIZE + offset][..HEADER_SIZE];
    assert was[..HEADER_SIZE] == was[..HEADER_SIZE + offset][..HEADER_SIZE];
    assert blob[HEADER_SIZE..HEADER_SIZE + offset] == blob[..HEADER_SIZE + offset][HEADER_SIZE..];
    assert was[HEADER_SIZE..HEADER_SIZE + offset] == was[..HEADER_SIZE + offset][HEADER_SIZE..];
    assert blob[HEADER_SIZE..HEADER_SIZE + offset + size]
        == blob[HEADER_SIZE..HEADER_SIZE + offset] + blob[HEADER_SIZE + offset..HEADER_SIZE + offset + size];
    assert s[..offset + size] == s[..offset] + s[offset..offset + size];
  }

  /** Lines 157-165: one piece of at most 32 bytes. */
  method MaskAndTagPiece(key: seq<byte>, nonce: seq<byte>, plaintext: seq<byte>, offset: nat, size: nat, blob: array<byte>,
                         tagCtx: Kdf.HmacContext, ghost header: seq<byte>, ghost before: seq<byte>)
    requires OnBlock(offset) && size <= Sha256.DIGEST && offset + size <= |plaintext|
    requires tagCtx.Valid() && blob !in tagCtx.Repr
    requires Written(blob[..], header, Masked(key, nonce, plaintext), offset)
    requires tagCtx.text == before + Masked(key, nonce, plaintext)[..offset]
    modifies blob, tagCtx`text, tagCtx.Repr
    ensures Written(blob[..], header, Masked(key, nonce, plaintext), offset + size)
    ensures tagCtx.Valid() && tagCtx.text == before + Masked(key, nonce, plaintext)[..offset + size]
  {
    hide Kdf.HmacContext.Valid, Masked, OnBlock;
    ghost var was, ciphertext := blob[..], Masked(key, nonce, plaintext);
    MaskPiece(key, nonce, plaintext, offset, size, blob, HEADER_SIZE);
    WrittenGrows(blob[..], was, header, ciphertext, offset, size);
    PrefixGrows(before, ciphertext, offset, size);
    hide Written;
    tagCtx.Update(blob[HEADER_SIZE + offset..HEADER_SIZE + offset + size]);
  }

  /** Lines 156-166: the pieces go into the blob and into the tag. */
  method MaskAndTag(key: seq<byte>, nonce: seq<byte>, plaintext: seq<byte>, blob: array<byte>, tagCtx: Kdf.HmacContext)
    requires blob.Length >= HEADER_SIZE + |plaintext| && tagCtx.Valid() && blob !in tagCtx.Repr
    modifies blob, tagCtx`text, tagCtx.Repr
    ensures blob[..HEADER_SIZE] == old(blob[..HEADER_SIZE])
    ensures blob[HEADER_SIZE..HEADER_SIZE + |plaintext|] == Masked(key, nonce, plaintext)
    ensures tagCtx.Valid() && tagCtx.text == old(tagCtx.text) + Masked(key, nonce, plaintext)
  {
    hide Kdf.HmacContext.Valid, Masked, OnBlock, Written;
    FirstBlock();
    ghost var ciphertext, before, header := Masked(key, nonce, plaintext), tagCtx.text, blob[..HEADER_SIZE];
    assert blob[..][..HEADER_SIZE] == header;
    WrittenStart(blob[..], ciphertext);
    var offset := 0;
    while offset < |plaintext|
      invariant OnBlock(offset) || offset == |plaintext|
      invariant 0 <= offset <= |plaintext|
      invariant Written(blob[..], header, ciphertext, offset)
      invariant tagCtx.Valid() && tagCtx.text == before + ciphertext[..offset]
    {
      var size := if |plaintext| - offset < Sha256.DIGEST then |plaintext| - offset else Sha256.DIGEST;
      MaskAndTagPiece(key, nonce, plaintext, offset, size, blob, tagCtx, header, before);
      NextBlock(offset);
      offset := offset + size;
    }
    assert ciphertext[..|plaintext|] == ciphertext;
    WrittenEnd(blob[..], header, ciphertext);
  }

  /** Lines 149-169. */
  method SealBody(master: seq<byte>, plaintext: seq<byte>, h: Header, blob: array<byte>)
    requires h.Valid() && h.plaintextSize == |plaintext| && blob.Length >= OVERHEAD + |plaintext|
    modifies blob
    ensures blob[..OVERHEAD + |plaintext|] == SealedWith(master, plaintext, h)
  {
    hide Kdf.Hmac, Kdf.HmacContext.Valid, PackHeader, Masked;
    var encKey, macKey := DeriveSubKeys(master);
    var header := PackHeader(h);
    forall i | 0 <= i < HEADER_SIZE {
      blob[i] := header[i];
    }
    assert blob[..HEADER_SIZE] == header;
    var tagCtx := new Kdf.HmacContext(macKey);
    tagCtx.Update(header);
    assert tagCtx.text == header;
    MaskAndTag(encKey, h.nonce, plaintext, blob, tagCtx);
    ghost var ciphertext := Masked(encKey, h.nonce, plaintext);
    ghost var masked := blob[..HEADER_SIZE + |plaintext|];
    assert masked == header + ciphertext;
    var tag := new byte[TAG_SIZE];
    tagCtx.Final(tag);
    forall i | 0 <= i < TAG_SIZE {
      blob[HEADER_SIZE + |plaintext| + i] := tag[i];
    }
    assert tag[..] == Tag(master, header, ciphertext);
    assert blob[..OVERHEAD + |plaintext|] == masked + tag[..];
  }

  /** Lines 183-249: checks the tag over the whole ciphertext, then unmasks it. */
  method Open(cache: Cache, passphrase: seq<byte>, blob: seq<byte>, plain: array<byte>) returns (status: int, size: nat)
    requires CacheValid(cache) && |blob| < TWO_64
    modifies cache, if cache == null then {} else {cache.entries}, plain
    ensures CacheValid(cache)
    ensures status == 0 || status == -1
    ensures CacheTrusted(cache) ==> (status == 0 <==> Opened(passphrase, blob).Some? && |Opened(passphrase, blob).value| <= plain.Length)
    ensures CacheTrusted(cache) && status == 0 ==> size <= plain.Length && Opened(passphrase, blob) == Some(plain[..size])
    ensures CacheTrusted(cache) && status == 0 ==> OpensTo(passphrase, blob, plain[..size])
  {
    hide FromLittleEndian, Kdf.Hmac, Kdf.DerivedKey, ParseHeader, Masked, Tag, MasterKey, CacheValid, CacheTrusted, OpensTo;
    var parsed := ParseHeader(blob);
    if parsed == None {
      return -1, 0;
    }
    ParsedSizeIsExact(blob);
    var h := parsed.value;
    if h.plaintextSize > plain.Length {
      return -1, 0;
    }
    var key := new byte[Sha256.DIGEST];
    var derived := DeriveKey(cache, passphrase, h, key);
    if derived != 0 {
      return -1, 0;
    }
    var ciphertext := blob[HEADER_SIZE..HEADER_SIZE + h.plaintextSize];
    var tagged := CheckTag(key[..], blob[..HEADER_SIZE], ciphertext, blob[HEADER_SIZE + h.plaintextSize..]);
    if !tagged {
      return -1, 0;
    }
    var encKey, macKey := DeriveSubKeys(key[..]);
    Unmask(encKey, h.nonce, ciphertext, plain);
    assert CacheTrusted(cache) ==> Opened(passphrase, blob) == Some(plain[..h.plaintextSize]);
    if Opened(passphrase, blob).Some? { OpenedMeans(passphrase, blob); }
    return 0, h.plaintextSize;
  }

  /** Lines 215-228. */
  method CheckTag(master: seq<byte>, header: seq<byte>, ciphertext: seq<byte>, tag: seq<byte>) returns (ok: bool)
    requires |tag| == TAG_SIZE
    ensures ok <==> tag == Tag(master, header, ciphertext)
  {
    hide Kdf.Hmac, Kdf.HmacContext.Valid;
    var encKey, macKey := DeriveSubKeys(master);
    var ctx := new Kdf.HmacContext(macKey);
    ctx.Update(header);
    ctx.Update(ciphertext);
    assert ctx.text == header + ciphertext;
    var expected := new byte[TAG_SIZE];
    ctx.Final(expected);
    ok := ConstantTimeEqual(expected[..], tag);
  }

  /** The first `offset` bytes are those of `s`. */
  predicate StartsLike(out: seq<byte>, s: seq<byte>, offset: nat) {
    offset <= |s| <= |out| && out[..offset] == s[..offset]
  }

  lemma StartsLikeNothing(out: seq<byte>, s: seq<byte>)
    requires |s| <= |out|
    ensures StartsLike(out, s, 0)
  {
  }

  lemma StartsLikeAll(out: seq<byte>, s: seq<byte>)
    requires StartsLike(out, s, |s|)
    ensures |s| <= |out| && out[..|s|] == s
  {
    assert s[..|s|] == s;
  }

  /** One turn of the unmasking loop. */
  method UnmaskPiece(key: seq<byte>, nonce: seq<byte>, ciphertext: seq<byte>, offset: nat, size: nat, plain: array<byte>)
    requires OnBlock(offset) && size <= Sha256.DIGEST && offset + size <= |ciphertext|
    requires StartsLike(plain[..], Masked(key, nonce, ciphertext), offset)
    modifies plain
    ensures StartsLike(plain[..], Masked(key, nonce, ciphertext), offset + size)
  {
    hide Masked, OnBlock;
    ghost var s := Masked(key, nonce, ciphertext);
    MaskPiece(key, nonce, ciphertext, offset, size, plain, 0);
    assert plain[..offset + size] == plain[..0 + offset] + plain[0 + offset..0 + offset + size];
    assert s[..offset + size] == s[..offset] + s[offset..offset + size];
  }

  /** Lines 230-239. */
  method Unmask(key: seq<byte>, nonce: seq<byte>, ciphertext: seq<byte>, plain: array<byte>)
    requires |ciphertext| <= plain.Length
    modifies plain
    ensures plain[..|ciphertext|] == Masked(key, nonce, ciphertext)
  {
    hide Masked, OnBlock, StartsLike;
    ghost var plaintext := Masked(key, nonce, ciphertext);
    FirstBlock();
    StartsLikeNothing(plain[..], plaintext);
    var offset := 0;
    while offset < |ciphertext|
      invariant OnBlock(offset) || offset == |ciphertext|
      invariant 0 <= offset <= |ciphertext| && StartsLike(plain[..], plaintext, offset)
    {
      var size := if |ciphertext| - offset < Sha256.DIGEST then |ciphertext| - offset else Sha256.DIGEST;
      UnmaskPiece(key, nonce, ciphertext, offset, size, plain);
      NextBlock(offset);
      offset := offset + size;
    }
    StartsLikeAll(plain[..], plaintext);
  }
}
