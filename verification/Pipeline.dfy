/** What a chunk becomes on its way into the store, and what restore and verify make of it.
    Line numbers are those of src/core/engine.c. */
module Pipeline {
  import opened Bytes
  import opened Cipher
  import opened Codec
  import opened Kdf
  import opened Wrappers

  /** Room for a passphrase in backup, without the NUL. */
  const PASSPHRASE_MAX := 255

  /** Backup keeps at most 255 bytes of the passphrase; restore and verify take it whole. */
  function Shortened(passphrase: seq<byte>): seq<byte> {
    if |passphrase| <= PASSPHRASE_MAX then passphrase else passphrase[..PASSPHRASE_MAX]
  }

  /** The salt and the nonce of one sealing. */
  datatype Seed = Seed(salt: seq<byte>, nonce: seq<byte>) {
    predicate Valid() { |salt| == SALT_SIZE && |nonce| == NONCE_SIZE }
  }

  /** The codec and the cipher can take any chunk up to this size. */
  const CHUNK_MAX := 0x4000_0000_0000_0000

  /** Lines 237-262: compressed if asked for, then sealed if there is a passphrase. */
  function StoredAs(data: seq<byte>, compress: bool, passphrase: seq<byte>, seed: Seed): seq<byte>
    requires |data| <= CHUNK_MAX && seed.Valid()
  {
    GreedyAtMostDouble(data);
    var packed := if compress then Greedy(data) else data;
    if passphrase == [] then packed else Sealed(passphrase, packed, seed.salt, seed.nonce)
  }

  /** Lines 411-423: the blob itself, or what it opens to. */
  function Unsealed(blob: seq<byte>, passphrase: seq<byte>): Option<seq<byte>> {
    if passphrase == [] then Some(blob) else Opened(passphrase, blob)
  }

  /** Lines 425-437: decoded only if that gives exactly `size` bytes. */
  function Unpacked(plain: seq<byte>, size: nat): seq<byte> {
    var decoded := Decode(plain);
    if decoded.Some? && |decoded.value| == size then decoded.value else plain
  }

  /** What restore copies into the file; None makes the restore fail. */
  function Recovered(blob: seq<byte>, size: nat, passphrase: seq<byte>): (r: Option<seq<byte>>)
    ensures r.Some? ==> |r.value| == size
  {
    var plain := Unsealed(blob, passphrase);
    if plain.None? || |Unpacked(plain.value, size)| != size then None else Some(Unpacked(plain.value, size))
  }

  /** Bytes that are themselves a run-length code for other bytes of the same number. */
  predicate Ambiguous(data: seq<byte>) {
    Decode(data).Some? && |Decode(data).value| == |data| && Decode(data).value != data
  }

  /** Without a passphrase the blob is the chunk or a code for it; with one that is what the cipher opens it to. */
  lemma StoredForms(data: seq<byte>, compress: bool, passphrase: seq<byte>, seed: Seed)
    requires |data| <= CHUNK_MAX && seed.Valid()
    ensures var blob := StoredAs(data, compress, passphrase, seed);
            var plain := if passphrase == [] then Some(blob) else Opened(passphrase, blob);
            plain.Some? && if compress then Decode(plain.value) == Some(data) else plain.value == data
  {
    hide StoredAs, Opened, Greedy, Decode;
    UnsealsToPacked(data, compress, passphrase, seed);
    RoundTrip(data);
  }

  lemma UnsealsToPacked(data: seq<byte>, compress: bool, passphrase: seq<byte>, seed: Seed)
    requires |data| <= CHUNK_MAX && seed.Valid()
    ensures Unsealed(StoredAs(data, compress, passphrase, seed), passphrase) == Some(if compress then Greedy(data) else data)
  {
    hide Sealed, Opened, Greedy;
    GreedyAtMostDouble(data);
    if passphrase != [] {
      OpenSealed(passphrase, if compress then Greedy(data) else data, seed.salt, seed.nonce);
    }
  }

  /** Stored with compression a chunk always comes back; stored raw it comes back exactly when it is not ambiguous. */
  lemma RecoversExactly(data: seq<byte>, compress: bool, passphrase: seq<byte>, seed: Seed)
    requires |data| <= CHUNK_MAX && seed.Valid()
    ensures Recovered(StoredAs(data, compress, passphrase, seed), |data|, passphrase).Some?
    ensures Recovered(StoredAs(data, compress, passphrase, seed), |data|, passphrase) == Some(data)
            <==> compress || !Ambiguous(data)
  {
    hide StoredAs, Unsealed, Greedy, Decode;
    UnsealsToPacked(data, compress, passphrase, seed);
    RoundTrip(data);
  }

  /** With the passphrase as it was given at both ends, backup shortening it and restore not: up to 255 bytes nothing
      changes, and a longer one opens a chunk exactly when its tag happens to be that of the shortened one. */
  lemma RecoversWithGiven(data: seq<byte>, compress: bool, given: seq<byte>, seed: Seed)
    requires |data| <= CHUNK_MAX && seed.Valid()
    ensures Shortened(given) == given <==> |given| <= 255
    ensures var blob := StoredAs(data, compress, Shortened(given), seed);
            if |given| <= 255 then Recovered(blob, |data|, given) == Some(data) <==> compress || !Ambiguous(data)
            else Unsealed(blob, given).Some? <==> KeysCoincide(data, compress, Shortened(given), given, seed)
  {
    hide StoredAs, Recovered, Ambiguous, Unsealed, KeysCoincide;
    RecoversExactly(data, compress, Shortened(given), seed);
    if |given| > 255 { UnsealsElsewhereIff(data, compress, Shortened(given), given, seed); }
  }

  /** Two passphrases that authenticate the blob of a chunk alike. */
  predicate KeysCoincide(data: seq<byte>, compress: bool, sealer: seq<byte>, opener: seq<byte>, seed: Seed)
    requires |data| <= CHUNK_MAX && seed.Valid()
  {
    GreedyAtMostDouble(data);
    TagsCoincide(sealer, opener, if compress then Greedy(data) else data, seed.salt, seed.nonce)
  }

  lemma UnsealsElsewhereIff(data: seq<byte>, compress: bool, sealer: seq<byte>, opener: seq<byte>, seed: Seed)
    requires |data| <= CHUNK_MAX && seed.Valid() && sealer != [] && opener != []
    ensures Unsealed(StoredAs(data, compress, sealer, seed), opener).Some? <==> KeysCoincide(data, compress, sealer, opener, seed)
  {
    hide Sealed, Opened, Greedy, TagsCoincide;
    GreedyAtMostDouble(data);
    OpensElsewhereIff(sealer, opener, if compress then Greedy(data) else data, seed.salt, seed.nonce);
  }

  /** The two bytes 2, 7 stored raw are restored as 7, 7. */
  lemma RawChunkMisread(passphrase: seq<byte>, seed: Seed)
    requires seed.Valid()
    ensures Recovered(StoredAs([2, 7], false, passphrase, seed), 2, passphrase) == Some([7, 7])
  {
    var data: seq<byte> := [2, 7];
    UnsealsToPacked(data, false, passphrase, seed);
    hide StoredAs, Unsealed, Greedy;
    FirstPair(data);
    FirstPair(data[2..]);
    assert Expand(data) == [7, 7];
  }

  /** An empty blob is never stored: compressing or sealing a non-empty chunk leaves something. */
  lemma StoredIsNotEmpty(data: seq<byte>, compress: bool, passphrase: seq<byte>, seed: Seed)
    requires 0 < |data| <= CHUNK_MAX && seed.Valid()
    ensures StoredAs(data, compress, passphrase, seed) != []
  {
    hide Sealed, Greedy;
    GreedyAtMostDouble(data);
  }
}
