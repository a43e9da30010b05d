/** Restoring and verifying the files of a snapshot.
    Line numbers are those of src/core/engine.c. */
module Restore {
  import opened Bytes
  import opened Chunker
  import opened ChunkStore
  import opened Codec
  import opened Hashing
  import opened Manifest
  import opened Pipeline
  import opened Wrappers

  // ---- Restoring ----

  /** `piece` written over `buffer` at `offset`. */
  function Overlay(buffer: seq<byte>, offset: nat, piece: seq<byte>): (r: seq<byte>)
    requires offset + |piece| <= |buffer|
    ensures |r| == |buffer|
    ensures r[..offset] == buffer[..offset] && r[offset..offset + |piece|] == piece
  {
    buffer[..offset] + piece + buffer[offset + |piece|..]
  }

  /** What restore fetches for a chunk. */
  function Fetched(blobs: Blobs, c: Chunk, passphrase: seq<byte>): (r: Option<seq<byte>>)
    ensures r.Some? ==> |r.value| == c.size
  {
    if Has(blobs, c.hash) then Recovered(blobs[c.hash], c.size, passphrase) else None
  }

  /** The buffer after the chunks have been written into it one after the other. */
  function RestoreChunks(buffer: seq<byte>, blobs: Blobs, chunks: seq<Chunk>, passphrase: seq<byte>): (r: Option<seq<byte>>)
    ensures r.Some? ==> |r.value| == |buffer|
    decreases |chunks|
  {
    if chunks == [] then Some(buffer)
    else if chunks[0].size == 0 then RestoreChunks(buffer, blobs, chunks[1..], passphrase)
    else
      var piece := Fetched(blobs, chunks[0], passphrase);
      if piece.None? || chunks[0].offset + chunks[0].size > |buffer| then None
      else RestoreChunks(Overlay(buffer, chunks[0].offset, piece.value), blobs, chunks[1..], passphrase)
  }

  function RestoredFile(blobs: Blobs, file: File, passphrase: seq<byte>): Option<seq<byte>> {
    RestoreChunks(Zeros(file.size), blobs, file.chunks, passphrase)
  }

  // ---- The chunks of a chunked file come back exactly when each of them does ----

  function ChunksFrom(data: seq<byte>, chunkSize: nat, offset: nat): (r: seq<Chunk>)
    requires chunkSize > 0 && offset <= |data| < TWO_64
    decreases |data| - offset
  {
    if offset == |data| then []
    else
      var size := PieceSize(|data| - offset, chunkSize);
      [Chunk(offset, size, HashHex(data[offset..offset + size]))] + ChunksFrom(data, chunkSize, offset + size)
  }

  lemma {:induction false} ChunksFromIsSlices(data: seq<byte>, chunkSize: nat, offset: nat)
    requires chunkSize > 0 && offset <= |data| < TWO_64
    ensures forall s :: s in SlicesFrom(data, chunkSize, offset) ==> s.offset < TWO_64 && s.size < TWO_64
    ensures ChunksOf(SlicesFrom(data, chunkSize, offset)) == ChunksFrom(data, chunkSize, offset)
    decreases |data| - offset
  {
    hide HashHex;
    if offset < |data| {
      var size := PieceSize(|data| - offset, chunkSize);
      ChunksFromIsSlices(data, chunkSize, offset + size);
      SlicesStep(data, chunkSize, offset);
    }
  }

  /** The bytes a chunk entry stands for. */
  function BytesOf(data: seq<byte>, c: Chunk): seq<byte>
    requires c.offset + c.size <= |data|
  {
    data[c.offset..c.offset + c.size]
  }

  ghost predicate ComesBack(blobs: Blobs, data: seq<byte>, c: Chunk, passphrase: seq<byte>) {
    c.offset + c.size <= |data| && (c.size == 0 || Fetched(blobs, c, passphrase) == Some(BytesOf(data, c)))
  }

  /** Writing chunks at or behind `k` leaves the first `k` bytes alone. */
  lemma {:induction false} RestoreKeepsFront(buffer: seq<byte>, blobs: Blobs, chunks: seq<Chunk>, passphrase: seq<byte>, k: nat)
    requires k <= |buffer| && forall c :: c in chunks ==> c.offset >= k
    ensures var r := RestoreChunks(buffer, blobs, chunks, passphrase); r.Some? ==> r.value[..k] == buffer[..k]
    decreases |chunks|
  {
    hide Fetched;
    if chunks != [] {
      var c := chunks[0];
      if c.size == 0 {
        RestoreKeepsFront(buffer, blobs, chunks[1..], passphrase, k);
      } else {
        var piece := Fetched(blobs, c, passphrase);
        if piece.Some? && c.offset + c.size <= |buffer| {
          var next := Overlay(buffer, c.offset, piece.value);
          assert next[..c.offset][..k] == next[..k];
          assert buffer[..c.offset][..k] == buffer[..k];
          RestoreKeepsFront(next, blobs, chunks[1..], passphrase, k);
        }
      }
    }
  }

  lemma {:induction false} ChunksFromBehind(data: seq<byte>, chunkSize: nat, offset: nat)
    requires chunkSize > 0 && offset <= |data| < TWO_64
    ensures forall c :: c in ChunksFrom(data, chunkSize, offset) ==>
      c.offset >= offset && 0 < c.size && c.offset + c.size <= |data| && c.hash == HashHex(BytesOf(data, c))
    decreases |data| - offset
  {
    hide HashHex;
    if offset < |data| { ChunksFromBehind(data, chunkSize, offset + PieceSize(|data| - offset, chunkSize)); }
  }

  /** One more piece in its place, or a wrong one that stays wrong. */
  lemma PieceDecides(buffer: seq<byte>, data: seq<byte>, offset: nat, piece: seq<byte>)
    requires |buffer| == |data| && offset + |piece| <= |data| && buffer[..offset] == data[..offset]
    ensures Overlay(buffer, offset, piece)[..offset + |piece|] == data[..offset + |piece|]
            <==> piece == data[offset..offset + |piece|]
  {
    var n := offset + |piece|;
    var next := Overlay(buffer, offset, piece);
    assert next[..n] == next[..offset] + next[offset..n];
    assert data[..n] == data[..offset] + data[offset..n];
    if next[..n] == data[..n] {
      assert next[offset..n] == next[..n][offset..] && data[offset..n] == data[..n][offset..];
    }
  }

  lemma RestoreFirst(buffer: seq<byte>, blobs: Blobs, c: Chunk, rest: seq<Chunk>, passphrase: seq<byte>)
    requires 0 < c.size && c.offset + c.size <= |buffer|
    ensures var piece := Fetched(blobs, c, passphrase);
            RestoreChunks(buffer, blobs, [c] + rest, passphrase)
            == if piece.None? then None else RestoreChunks(Overlay(buffer, c.offset, piece.value), blobs, rest, passphrase)
  {
    hide Fetched, Overlay;
    var chunks := [c] + rest;
    assert chunks[0] == c && chunks[1..] == rest;
  }

  /** A wrong piece is never repaired by later ones. */
  lemma WrongPieceStays(buffer: seq<byte>, blobs: Blobs, data: seq<byte>, c: Chunk, rest: seq<Chunk>, passphrase: seq<byte>)
    requires |buffer| == |data| && 0 < c.size && c.offset + c.size <= |data| && buffer[..c.offset] == data[..c.offset]
    requires forall d :: d in rest ==> d.offset >= c.offset + c.size
    requires !ComesBack(blobs, data, c, passphrase)
    ensures RestoreChunks(buffer, blobs, [c] + rest, passphrase) != Some(data)
  {
    RestoreFirst(buffer, blobs, c, rest, passphrase);
    var piece := Fetched(blobs, c, passphrase);
    if piece.Some? {
      assert piece.value != BytesOf(data, c);
      hide Fetched, RestoreChunks, Overlay, ComesBack;
      PieceDecides(buffer, data, c.offset, piece.value);
      RestoreKeepsFront(Overlay(buffer, c.offset, piece.value), blobs, rest, passphrase, c.offset + c.size);
    }
  }

  /** A right piece leaves the decision to the rest. */
  lemma RightPieceAdvances(buffer: seq<byte>, blobs: Blobs, data: seq<byte>, c: Chunk, rest: seq<Chunk>, passphrase: seq<byte>)
    requires |buffer| == |data| && 0 < c.size && c.offset + c.size <= |data| && buffer[..c.offset] == data[..c.offset]
    requires ComesBack(blobs, data, c, passphrase)
    ensures var next := Overlay(buffer, c.offset, BytesOf(data, c));
            && next[..c.offset + c.size] == data[..c.offset + c.size]
            && RestoreChunks(buffer, blobs, [c] + rest, passphrase) == RestoreChunks(next, blobs, rest, passphrase)
  {
    RestoreFirst(buffer, blobs, c, rest, passphrase);
    PieceDecides(buffer, data, c.offset, BytesOf(data, c));
    hide Fetched, RestoreChunks, Overlay;
  }

  ghost predicate EachComesBack(blobs: Blobs, data: seq<byte>, chunks: seq<Chunk>, passphrase: seq<byte>) {
    forall c :: c in chunks ==> ComesBack(blobs, data, c, passphrase)
  }

  lemma FirstComesBack(blobs: Blobs, data: seq<byte>, c: Chunk, rest: seq<Chunk>, passphrase: seq<byte>)
    ensures EachComesBack(blobs, data, [c] + rest, passphrase)
            <==> ComesBack(blobs, data, c, passphrase) && EachComesBack(blobs, data, rest, passphrase)
  {
    hide ComesBack;
    assert forall d :: d in [c] + rest <==> d == c || d in rest;
  }

  lemma RestoreStep(buffer: seq<byte>, blobs: Blobs, data: seq<byte>, c: Chunk, rest: seq<Chunk>, passphrase: seq<byte>)
    requires |buffer| == |data| && 0 < c.size && c.offset + c.size <= |data| && buffer[..c.offset] == data[..c.offset]
    requires forall d :: d in rest ==> d.offset >= c.offset + c.size
    requires ComesBack(blobs, data, c, passphrase) ==>
      (RestoreChunks(Overlay(buffer, c.offset, BytesOf(data, c)), blobs, rest, passphrase) == Some(data)
       <==> EachComesBack(blobs, data, rest, passphrase))
    ensures RestoreChunks(buffer, blobs, [c] + rest, passphrase) == Some(data)
            <==> EachComesBack(blobs, data, [c] + rest, passphrase)
  {
    FirstComesBack(blobs, data, c, rest, passphrase);
    hide RestoreChunks, Overlay, ComesBack, EachComesBack;
    if ComesBack(blobs, data, c, passphrase) {
      RightPieceAdvances(buffer, blobs, data, c, rest, passphrase);
    } else {
      WrongPieceStays(buffer, blobs, data, c, rest, passphrase);
    }
  }

  lemma {:induction false} RestoreFromIff(buffer: seq<byte>, blobs: Blobs, data: seq<byte>, chunkSize: nat, offset: nat,
                                          passphrase: seq<byte>)
    requires chunkSize > 0 && offset <= |data| < TWO_64 && |buffer| == |data| && buffer[..offset] == data[..offset]
    ensures RestoreChunks(buffer, blobs, ChunksFrom(data, chunkSize, offset), passphrase) == Some(data)
            <==> EachComesBack(blobs, data, ChunksFrom(data, chunkSize, offset), passphrase)
    decreases |data| - offset
  {
    hide HashHex, Fetched, Overlay, ComesBack;
    if offset == |data| {
      assert buffer == buffer[..offset] == data[..offset] == data;
    } else {
      var size := PieceSize(|data| - offset, chunkSize);
      var c := Chunk(offset, size, HashHex(data[offset..offset + size]));
      var rest := ChunksFrom(data, chunkSize, offset + size);
      assert ChunksFrom(data, chunkSize, offset) == [c] + rest;
      ChunksFromBehind(data, chunkSize, offset + size);
      hide RestoreChunks, ChunksFrom, PieceSize, EachComesBack;
      if ComesBack(blobs, data, c, passphrase) {
        RightPieceAdvances(buffer, blobs, data, c, rest, passphrase);
        RestoreFromIff(Overlay(buffer, offset, BytesOf(data, c)), blobs, data, chunkSize, offset + size, passphrase);
      }
      RestoreStep(buffer, blobs, data, c, rest, passphrase);
    }
  }

  /** A chunked file is restored byte for byte exactly when each of its chunks comes back; an empty file always is. */
  lemma RestoredIff(blobs: Blobs, file: File, data: seq<byte>, chunkSize: nat, passphrase: seq<byte>)
    requires chunkSize > 0 && |data| < TWO_64 && file.size == |data| && file.chunks == ChunksOfData(data, chunkSize)
    ensures RestoredFile(blobs, file, passphrase) == Some(data)
            <==> forall c :: c in file.chunks ==> ComesBack(blobs, data, c, passphrase)
  {
    hide HashHex, Fetched;
    if data == [] {
      assert file.chunks == [Chunk(0, 0, HashHex([]))];
      assert RestoreChunks(Zeros(0), blobs, file.chunks[1..], passphrase) == Some(Zeros(0));
    } else {
      ChunksFromIsSlices(data, chunkSize, 0);
      assert Zeros(|data|)[..0] == data[..0];
      RestoreFromIff(Zeros(|data|), blobs, data, chunkSize, 0, passphrase);
    }
  }

  /** A restore that succeeds has fetched every chunk that is not empty. */
  lemma {:induction false} RestoredMeansFetched(buffer: seq<byte>, blobs: Blobs, chunks: seq<Chunk>, passphrase: seq<byte>)
    requires RestoreChunks(buffer, blobs, chunks, passphrase).Some?
    ensures forall c :: c in chunks && c.size != 0 ==> Fetched(blobs, c, passphrase).Some?
    decreases |chunks|
  {
    hide Fetched, Overlay;
    if chunks != [] {
      var c := chunks[0];
      if c.size == 0 {
        RestoredMeansFetched(buffer, blobs, chunks[1..], passphrase);
      } else {
        RestoredMeansFetched(Overlay(buffer, c.offset, Fetched(blobs, c, passphrase).value), blobs, chunks[1..], passphrase);
      }
    }
  }

  /** And one that can fetch them all, inside the file, succeeds. */
  lemma {:induction false} FetchedMeansRestored(buffer: seq<byte>, blobs: Blobs, chunks: seq<Chunk>, passphrase: seq<byte>)
    requires forall c :: c in chunks && c.size != 0 ==> c.offset + c.size <= |buffer| && Fetched(blobs, c, passphrase).Some?
    ensures RestoreChunks(buffer, blobs, chunks, passphrase).Some?
    decreases |chunks|
  {
    hide Fetched, Overlay;
    if chunks != [] {
      var c := chunks[0];
      assert c in chunks;
      if c.size == 0 {
        FetchedMeansRestored(buffer, blobs, chunks[1..], passphrase);
      } else {
        FetchedMeansRestored(Overlay(buffer, c.offset, Fetched(blobs, c, passphrase).value), blobs, chunks[1..], passphrase);
      }
    }
  }

  /** Lines 407-443: open, decode, and insist on the size. */
  method RecoverChunk(blob: Blob, size: u64, passphrase: seq<byte>) returns (rc: int, raw: seq<byte>)
    ensures var r := Recovered(blob, size, passphrase);
            rc == (if r.Some? then 0 else -1) && (rc == 0 ==> raw == r.value)
  {
    hide Cipher.Opened;
    rc, raw := Unpack(blob, size, passphrase);
    if rc == 0 && |raw| != size {
      return -1, [];
    }
  }

  /** Lines 407-437, and again 720-750 in verify. */
  method Unpack(blob: Blob, size: u64, passphrase: seq<byte>) returns (rc: int, raw: seq<byte>)
    ensures var plain := Unsealed(blob, passphrase);
            rc == (if plain.Some? then 0 else -1) && (rc == 0 ==> raw == Unpacked(plain.value, size))
  {
    hide Expand, WellFormed;
    raw := blob;
    if passphrase != [] {
      var decrypted := Cipher.Opened(passphrase, raw);
      if decrypted.None? {
        return -1, [];
      }
      raw := decrypted.value;
    }
    hide Cipher.Opened;
    var status, decompressed := DecompressAlloc(raw);
    if status == 0 {
      if |decompressed| == size {
        raw := decompressed;
      }
    }
    rc := 0;
  }

  /** Whether a chunk that lies outside passes the test at line 439, because offset and size wrap around at 2^64;
      a file of size 0 has no buffer and fails there. */
  predicate GoesAstray(fileSize: nat, blobs: Blobs, chunks: seq<Chunk>, passphrase: seq<byte>)
    decreases |chunks|
  {
    if chunks == [] then false
    else
      var c := chunks[0];
      if c.size == 0 then GoesAstray(fileSize, blobs, chunks[1..], passphrase)
      else if Fetched(blobs, c, passphrase).None? then false
      else if c.offset + c.size > fileSize then fileSize > 0 && (c.offset + c.size) % TWO_64 <= fileSize
      else GoesAstray(fileSize, blobs, chunks[1..], passphrase)
  }

  /** No entry of a chunked file is of that kind. */
  lemma {:induction false} ChunkedStaysInside(fileSize: nat, blobs: Blobs, chunks: seq<Chunk>, passphrase: seq<byte>)
    requires forall c :: c in chunks ==> c.offset + c.size < TWO_64
    ensures !GoesAstray(fileSize, blobs, chunks, passphrase)
    decreases |chunks|
  {
    hide Fetched;
    if chunks != [] {
      assert chunks[0] in chunks;
      ChunkedStaysInside(fileSize, blobs, chunks[1..], passphrase);
    }
  }

  /** Lines 374-456: the file is put together in a zeroed buffer of its size. `stray` is set where a chunk would be copied
      to a place outside the buffer: C leaves open what happens then. */
  method RestoreFile(store: ChunkStore, file: File, passphrase: seq<byte>) returns (rc: int, data: seq<byte>, stray: bool)
    ensures stray <==> GoesAstray(file.size, store.blobs, file.chunks, passphrase)
    ensures var r := RestoredFile(store.blobs, file, passphrase);
            rc == (if r.Some? then 0 else -1) && (rc == 0 ==> data == r.value)
    ensures stray ==> rc != 0
  {
    hide Recovered, Overlay, Fetched;
    data, stray := [], false;
    var buffer := new byte[file.size](_ => 0);
    ghost var want := RestoredFile(store.blobs, file, passphrase);
    assert buffer[..] == Zeros(file.size);
    assert file.chunks[0..] == file.chunks;
    for i := 0 to |file.chunks|
      invariant RestoreChunks(buffer[..], store.blobs, file.chunks[i..], passphrase) == want
      invariant GoesAstray(file.size, store.blobs, file.chunks[i..], passphrase)
                == GoesAstray(file.size, store.blobs, file.chunks, passphrase)
    {
      var c := file.chunks[i];
      assert file.chunks[i..][0] == c && file.chunks[i..][1..] == file.chunks[i + 1..];
      if c.size != 0 {
        FetchedIs(store.blobs, c, passphrase);
        var blob, raw;
        rc, blob := store.Get(c.hash);
        if rc != 0 {
          return;
        }
        rc, raw := RecoverChunk(blob, c.size, passphrase);
        if rc != 0 || file.size == 0 || (c.offset + |raw|) % TWO_64 > file.size {
          SumExceeds(c.offset + |raw|, file.size);
          return -1, [], false;
        }
        if c.offset + |raw| > file.size {
          return -1, [], true;
        }
        CopyInto(buffer, c.offset, raw);
      }
    }
    return 0, buffer[..], false;
  }

  /** The memcpy at line 445. */
  method CopyInto(buffer: array<byte>, offset: nat, piece: seq<byte>)
    requires offset + |piece| <= buffer.Length
    modifies buffer
    ensures buffer[..] == Overlay(old(buffer[..]), offset, piece)
  {
    forall k | 0 <= k < |piece| { buffer[offset + k] := piece[k]; }
    OverlayIs(old(buffer[..]), offset, piece, buffer[..]);
  }

  lemma FetchedIs(blobs: Blobs, c: Chunk, passphrase: seq<byte>)
    ensures Fetched(blobs, c, passphrase) == if Has(blobs, c.hash) then Recovered(blobs[c.hash], c.size, passphrase) else None
  {
  }

  lemma SumExceeds(sum: nat, size: nat)
    ensures sum % TWO_64 > size ==> sum > size
  {
  }

  lemma OverlayIs(before: seq<byte>, offset: nat, piece: seq<byte>, after: seq<byte>)
    requires offset + |piece| <= |before| == |after|
    requires forall k :: 0 <= k < |before| ==>
      after[k] == if offset <= k < offset + |piece| then piece[k - offset] else before[k]
    ensures after == Overlay(before, offset, piece)
  {
  }

  // ---- Verifying ----

  datatype Outcome = Intact | Corrupt | Missing

  datatype Counters = Counters(files: nat, chunks: nat, corrupt: nat, missing: nat)

  /** What verify finds for a chunk; unlike restore it does not skip empty ones. */
  function Checked(blobs: Blobs, c: Chunk, passphrase: seq<byte>): Outcome {
    if !Has(blobs, c.hash) then Missing
    else
      var plain := Unsealed(blobs[c.hash], passphrase);
      if plain.None? || HashHex(Unpacked(plain.value, c.size)) != c.hash then Corrupt else Intact
  }

  function Counted(k: Counters, outcome: Outcome): Counters {
    var n := k.(chunks := k.chunks + 1);
    match outcome
    case Intact => n
    case Corrupt => n.(corrupt := n.corrupt + 1)
    case Missing => n.(missing := n.missing + 1)
  }

  function TallyChunks(k: Counters, blobs: Blobs, chunks: seq<Chunk>, passphrase: seq<byte>): Counters
    decreases |chunks|
  {
    if chunks == [] then k
    else TallyChunks(Counted(k, Checked(blobs, chunks[0], passphrase)), blobs, chunks[1..], passphrase)
  }

  function Tally(k: Counters, blobs: Blobs, files: seq<File>, passphrase: seq<byte>): Counters
    decreases |files|
  {
    if files == [] then k
    else Tally(TallyChunks(k.(files := k.files + 1), blobs, files[0].chunks, passphrase), blobs, files[1..], passphrase)
  }

  predicate NothingAdded(before: Counters, after: Counters) {
    before.corrupt == after.corrupt && before.missing == after.missing
  }

  lemma {:induction false} TallyChunksIff(k: Counters, blobs: Blobs, chunks: seq<Chunk>, passphrase: seq<byte>)
    ensures var r := TallyChunks(k, blobs, chunks, passphrase);
            && r.corrupt >= k.corrupt && r.missing >= k.missing && r.files == k.files && r.chunks == k.chunks + |chunks|
            && (NothingAdded(k, r) <==> forall c :: c in chunks ==> Checked(blobs, c, passphrase) == Intact)
    decreases |chunks|
  {
    hide Checked;
    if chunks != [] {
      TallyChunksIff(Counted(k, Checked(blobs, chunks[0], passphrase)), blobs, chunks[1..], passphrase);
    }
  }

  /** Verify counts every file and chunk once, and adds to no error counter exactly when every chunk is intact. */
  lemma {:induction false} TallyIff(k: Counters, blobs: Blobs, files: seq<File>, passphrase: seq<byte>)
    ensures var r := Tally(k, blobs, files, passphrase);
            && r.corrupt >= k.corrupt && r.missing >= k.missing && r.files == k.files + |files|
            && r.chunks == k.chunks + TotalChunks(files)
            && (NothingAdded(k, r) <==> forall f :: f in files ==> AllIntact(blobs, f.chunks, passphrase))
    decreases |files|
  {
    hide Checked, TallyChunks;
    if files != [] {
      TallyChunksIff(k.(files := k.files + 1), blobs, files[0].chunks, passphrase);
      TallyIff(TallyChunks(k.(files := k.files + 1), blobs, files[0].chunks, passphrase), blobs, files[1..], passphrase);
    }
  }

  /** Of the entries those that are not in the store. */
  function NotThere(blobs: Blobs, chunks: seq<Chunk>): seq<Chunk> {
    if chunks == [] then [] else (if Has(blobs, chunks[0].hash) then [] else [chunks[0]]) + NotThere(blobs, chunks[1..])
  }

  /** And those that are there but do not open, or hold something that does not have their hash. */
  function ThereButWrong(blobs: Blobs, chunks: seq<Chunk>, passphrase: seq<byte>): seq<Chunk> {
    if chunks == [] then []
    else (if Has(blobs, chunks[0].hash) && !ChecksOut(blobs[chunks[0].hash], chunks[0], passphrase) then [chunks[0]] else [])
         + ThereButWrong(blobs, chunks[1..], passphrase)
  }

  predicate ChecksOut(blob: Blob, c: Chunk, passphrase: seq<byte>) {
    Unsealed(blob, passphrase).Some? && HashHex(Unpacked(Unsealed(blob, passphrase).value, c.size)) == c.hash
  }

  function EntriesOf(files: seq<File>): seq<Chunk> { if files == [] then [] else files[0].chunks + EntriesOf(files[1..]) }

  lemma {:induction false} ChunksTalliedExactly(k: Counters, blobs: Blobs, chunks: seq<Chunk>, passphrase: seq<byte>)
    ensures TallyChunks(k, blobs, chunks, passphrase)
            == Counters(k.files, k.chunks + |chunks|, k.corrupt + |ThereButWrong(blobs, chunks, passphrase)|,
                        k.missing + |NotThere(blobs, chunks)|)
    decreases |chunks|
  {
    hide HashHex, Unsealed, Unpacked, Has;
    if chunks != [] {
      ChunksTalliedExactly(Counted(k, Checked(blobs, chunks[0], passphrase)), blobs, chunks[1..], passphrase);
    }
  }

  lemma {:induction false} NotThereInTwo(blobs: Blobs, a: seq<Chunk>, b: seq<Chunk>, passphrase: seq<byte>)
    ensures |NotThere(blobs, a + b)| == |NotThere(blobs, a)| + |NotThere(blobs, b)|
    ensures |ThereButWrong(blobs, a + b, passphrase)| == |ThereButWrong(blobs, a, passphrase)| + |ThereButWrong(blobs, b, passphrase)|
  {
    hide ChecksOut, Has;
    if a == [] {
      assert a + b == b;
    } else {
      assert (a + b)[1..] == a[1..] + b;
      NotThereInTwo(blobs, a[1..], b, passphrase);
    }
  }

  /** Verify raises the number of missing chunks by the entries that are not in the store, and that of corrupt ones by the
      entries that are there and do not check out. */
  lemma {:induction false} TalliedExactly(k: Counters, blobs: Blobs, files: seq<File>, passphrase: seq<byte>)
    ensures Tally(k, blobs, files, passphrase)
            == Counters(k.files + |files|, k.chunks + |EntriesOf(files)|,
                        k.corrupt + |ThereButWrong(blobs, EntriesOf(files), passphrase)|,
                        k.missing + |NotThere(blobs, EntriesOf(files))|)
    decreases |files|
  {
    hide NotThere, ThereButWrong, TallyChunks;
    if files == [] {
      NothingThere(blobs, passphrase);
    } else {
      var next := k.(files := k.files + 1);
      ChunksTalliedExactly(next, blobs, files[0].chunks, passphrase);
      TalliedExactly(TallyChunks(next, blobs, files[0].chunks, passphrase), blobs, files[1..], passphrase);
      NotThereInTwo(blobs, files[0].chunks, EntriesOf(files[1..]), passphrase);
    }
  }

  lemma NothingThere(blobs: Blobs, passphrase: seq<byte>)
    ensures NotThere(blobs, []) == [] && ThereButWrong(blobs, [], passphrase) == []
  {
  }

  function TotalChunks(files: seq<File>): nat {
    if files == [] then 0 else |files[0].chunks| + TotalChunks(files[1..])
  }

  ghost predicate AllIntact(blobs: Blobs, chunks: seq<Chunk>, passphrase: seq<byte>) {
    forall c :: c in chunks ==> Checked(blobs, c, passphrase) == Intact
  }

  /** Lines 691-769. */
  method VerifySnapshot(store: ChunkStore, files: seq<File>, passphrase: seq<byte>, before: Counters) returns (counters: Counters)
    ensures counters == Tally(before, store.blobs, files, passphrase)
  {
    hide HashHex, Unsealed, Unpacked, TallyChunks;
    counters := before;
    assert files[0..] == files;
    for fi := 0 to |files|
      invariant Tally(counters, store.blobs, files[fi..], passphrase) == Tally(before, store.blobs, files, passphrase)
    {
      assert files[fi..][0] == files[fi] && files[fi..][1..] == files[fi + 1..];
      counters := VerifyFile(store, files[fi].chunks, passphrase, counters.(files := counters.files + 1));
    }
  }

  method VerifyFile(store: ChunkStore, chunks: seq<Chunk>, passphrase: seq<byte>, before: Counters) returns (counters: Counters)
    ensures counters == TallyChunks(before, store.blobs, chunks, passphrase)
  {
    hide HashHex, Unsealed, Unpacked, Has;
    counters := before;
    assert chunks[0..] == chunks;
    for ci := 0 to |chunks|
      invariant TallyChunks(counters, store.blobs, chunks[ci..], passphrase) == TallyChunks(before, store.blobs, chunks, passphrase)
    {
      var c := chunks[ci];
      assert chunks[ci..][0] == c && chunks[ci..][1..] == chunks[ci + 1..];
      counters := counters.(chunks := counters.chunks + 1);
      var found := store.Exists(c.hash);
      var rc, blob := -1, [];
      if found {
        rc, blob := store.Get(c.hash);
      }
      if !found || rc != 0 {
        counters := counters.(missing := counters.missing + 1);
        continue;
      }
      var raw;
      rc, raw := Unpack(blob, c.size, passphrase);
      if rc != 0 {
        counters := counters.(corrupt := counters.corrupt + 1);
        continue;
      }
      if HashHex(raw) != c.hash {
        counters := counters.(corrupt := counters.corrupt + 1);
      }
    }
  }

  // ---- Verify and restore agree ----

  /** The byte strings whose names verify and restore compare for a chunk. */
  ghost predicate Told(universe: set<seq<byte>>, blobs: Blobs, data: seq<byte>, c: Chunk, passphrase: seq<byte>) {
    && c.offset + c.size <= |data| && c.hash == HashHex(BytesOf(data, c)) && BytesOf(data, c) in universe
    && (Has(blobs, c.hash) && Unsealed(blobs[c.hash], passphrase).Some?
        ==> Unpacked(Unsealed(blobs[c.hash], passphrase).value, c.size) in universe)
  }

  lemma IntactComesBack(universe: set<seq<byte>>, blobs: Blobs, data: seq<byte>, c: Chunk, passphrase: seq<byte>)
    requires NoCollision(universe) && Told(universe, blobs, data, c, passphrase) && c.size > 0
    ensures Checked(blobs, c, passphrase) == Intact <==> ComesBack(blobs, data, c, passphrase)
  {
    hide HashHex, Unsealed, Unpacked;
  }

  /** A file and the bytes it was made from. */
  ghost predicate MadeFrom(file: File, data: seq<byte>, chunkSize: nat) {
    chunkSize > 0 && |data| < TWO_64 && file.size == |data| && file.chunks == ChunksOfData(data, chunkSize)
  }

  lemma ChunkSizes(data: seq<byte>, chunkSize: nat)
    requires chunkSize > 0 && |data| < TWO_64
    ensures forall c :: c in ChunksOfData(data, chunkSize) ==> c.offset + c.size <= |data| && c.hash == HashHex(BytesOf(data, c))
    ensures data == [] ==> ChunksOfData(data, chunkSize) == [Chunk(0, 0, HashHex([]))]
    ensures data != [] ==> forall c :: c in ChunksOfData(data, chunkSize) ==> c.size > 0
  {
    hide HashHex;
    if data != [] {
      ChunksFromIsSlices(data, chunkSize, 0);
      ChunksFromBehind(data, chunkSize, 0);
    } else {
      assert data[0..0] == [];
    }
  }

  /** For one file: verify is content exactly when restore reproduces it, save that it also looks up the empty chunk. */
  lemma FileAgrees(universe: set<seq<byte>>, blobs: Blobs, file: File, data: seq<byte>, chunkSize: nat, passphrase: seq<byte>)
    requires MadeFrom(file, data, chunkSize) && NoCollision(universe)
    requires forall c :: c in file.chunks ==> Told(universe, blobs, data, c, passphrase)
    ensures AllIntact(blobs, file.chunks, passphrase)
            <==> RestoredFile(blobs, file, passphrase) == Some(data)
                 && (data == [] ==> Checked(blobs, Chunk(0, 0, HashHex([])), passphrase) == Intact)
  {
    RestoredIff(blobs, file, data, chunkSize, passphrase);
    ChunkSizes(data, chunkSize);
    hide HashHex, Checked, RestoredFile, ChunksOfData, NoCollision, Told, Fetched, ComesBack;
    if data != [] {
      assert AllIntact(blobs, file.chunks, passphrase) == (forall c :: c in file.chunks ==> ComesBack(blobs, data, c, passphrase)) by {
        AllComeBack(universe, blobs, file.chunks, data, passphrase);
      }
    } else {
      OnlyEmpty(blobs, file.chunks, passphrase);
      assert ComesBack(blobs, data, Chunk(0, 0, HashHex([])), passphrase) by { EmptyComesBack(blobs, passphrase); }
    }
  }

  lemma AllComeBack(universe: set<seq<byte>>, blobs: Blobs, chunks: seq<Chunk>, data: seq<byte>, passphrase: seq<byte>)
    requires NoCollision(universe)
    requires forall c :: c in chunks ==> Told(universe, blobs, data, c, passphrase) && c.size > 0
    ensures AllIntact(blobs, chunks, passphrase) <==> forall c :: c in chunks ==> ComesBack(blobs, data, c, passphrase)
  {
    hide HashHex, Checked, NoCollision, Told, ComesBack;
    forall c | c in chunks ensures Checked(blobs, c, passphrase) == Intact <==> ComesBack(blobs, data, c, passphrase) {
      IntactComesBack(universe, blobs, data, c, passphrase);
    }
  }

  lemma EmptyComesBack(blobs: Blobs, passphrase: seq<byte>)
    ensures ComesBack(blobs, [], Chunk(0, 0, HashHex([])), passphrase)
  {
    hide HashHex, Fetched;
  }

  lemma OnlyEmpty(blobs: Blobs, chunks: seq<Chunk>, passphrase: seq<byte>)
    requires chunks == [Chunk(0, 0, HashHex([]))]
    ensures AllIntact(blobs, chunks, passphrase) <==> Checked(blobs, Chunk(0, 0, HashHex([])), passphrase) == Intact
    ensures forall c :: c in chunks <==> c == Chunk(0, 0, HashHex([]))
  {
    hide HashHex, Checked;
    assert chunks[0] in chunks;
  }

  /** Over a whole snapshot: no counter grows exactly when every file is reproduced and no empty file's chunk is amiss. */
  lemma VerifyAgreesWithRestore(universe: set<seq<byte>>, blobs: Blobs, files: seq<File>, contents: seq<seq<byte>>,
                                chunkSize: nat, passphrase: seq<byte>, k: Counters)
    requires NoCollision(universe) && |files| == |contents|
    requires forall i :: 0 <= i < |files| ==> MadeFrom(files[i], contents[i], chunkSize)
    requires forall i, c :: 0 <= i < |files| && c in files[i].chunks ==> Told(universe, blobs, contents[i], c, passphrase)
    ensures NothingAdded(k, Tally(k, blobs, files, passphrase))
            <==> (forall i :: 0 <= i < |files| ==> RestoredFile(blobs, files[i], passphrase) == Some(contents[i]))
                 && ([] in contents ==> Checked(blobs, Chunk(0, 0, HashHex([])), passphrase) == Intact)
  {
    TallyIff(k, blobs, files, passphrase);
    hide HashHex, Checked, RestoredFile, NoCollision, Told, MadeFrom, AllIntact, Tally;
    forall i | 0 <= i < |files|
      ensures AllIntact(blobs, files[i].chunks, passphrase)
              <==> RestoredFile(blobs, files[i], passphrase) == Some(contents[i])
                   && (contents[i] == [] ==> Checked(blobs, Chunk(0, 0, HashHex([])), passphrase) == Intact)
    {
      FileAgrees(universe, blobs, files[i], contents[i], chunkSize, passphrase);
    }
    assert (forall f :: f in files ==> AllIntact(blobs, f.chunks, passphrase))
        == (forall i :: 0 <= i < |files| ==> AllIntact(blobs, files[i].chunks, passphrase));
    if [] in contents {
      var i :| 0 <= i < |contents| && contents[i] == [];
    }
  }

  /** Backup stores no chunk for an empty file, so verify reports it missing although restore reproduces it. */
  lemma EmptyFileReportedMissing(blobs: Blobs, file: File, passphrase: seq<byte>, k: Counters)
    requires MadeFrom(file, [], DEFAULT_CHUNK_SIZE) && !Has(blobs, HashHex([]))
    ensures RestoredFile(blobs, file, passphrase) == Some([])
    ensures Tally(k, blobs, [file], passphrase) == k.(files := k.files + 1, chunks := k.chunks + 1, missing := k.missing + 1)
  {
    hide HashHex, ChunksOfData, RestoredFile, MadeFrom, Unsealed, Unpacked, Tally;
    EmptyIsRestored(blobs, file, DEFAULT_CHUNK_SIZE, passphrase);
    TallyOne(blobs, file, Chunk(0, 0, HashHex([])), passphrase, k);
  }

  lemma EmptyIsRestored(blobs: Blobs, file: File, chunkSize: nat, passphrase: seq<byte>)
    requires MadeFrom(file, [], chunkSize)
    ensures file.chunks == [Chunk(0, 0, HashHex([]))] && RestoredFile(blobs, file, passphrase) == Some([])
  {
    ChunkSizes([], chunkSize);
    hide HashHex, ChunksOfData, RestoredFile, ComesBack;
    OnlyEmpty(blobs, file.chunks, passphrase);
    EmptyComesBack(blobs, passphrase);
    RestoredIff(blobs, file, [], chunkSize, passphrase);
  }

  lemma TallyOne(blobs: Blobs, file: File, c: Chunk, passphrase: seq<byte>, k: Counters)
    requires file.chunks == [c]
    ensures Tally(k, blobs, [file], passphrase) == Counted(k.(files := k.files + 1), Checked(blobs, c, passphrase))
  {
    hide Checked, Counted;
    var files := [file];
    assert files[1..] == [] && file.chunks[1..] == [];
    var one := k.(files := k.files + 1);
    assert TallyChunks(one, blobs, file.chunks, passphrase) == Counted(one, Checked(blobs, c, passphrase));
  }
}
