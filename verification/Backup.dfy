/** Backing up scanned files: manifest entries and stored chunks.
    Line numbers are those of src/core/engine.c. */
module Backup {
  import opened Bytes
  import opened Chunker
  import opened ChunkStore
  import opened Codec
  import opened Hashing
  import opened Manifest
  import opened Path
  import opened Pipeline
  import opened RelativePath
  import opened Wrappers

  /** What the scanner reports; a file that cannot be read has no content. */
  datatype Entry = Entry(fullPath: string, isFile: bool, mtime: i64, content: Option<seq<byte>>)

  ghost predicate StoredFrom(blob: seq<byte>, data: seq<byte>, compress: bool, passphrase: seq<byte>) {
    |data| <= CHUNK_MAX && exists seed: Seed :: seed.Valid() && blob == StoredAs(data, compress, passphrase, seed)
  }

  function SliceBytes(data: seq<byte>, s: Slice): seq<byte>
    requires s.offset + s.size <= |data|
  {
    data[s.offset..s.offset + s.size]
  }

  ghost predicate Within(slices: seq<Slice>, data: seq<byte>) {
    forall s :: s in slices ==> Names(s, data) && s.size <= CHUNK_MAX
  }

  /** The blob under `h` was made from a non-empty piece of that name. */
  ghost predicate MadeByBackup(blobs: Blobs, h: Hash, data: seq<byte>, slices: seq<Slice>, compress: bool, passphrase: seq<byte>)
    requires Within(slices, data) && h in blobs
  {
    exists s :: s in slices && s.size > 0 && s.hash == h && StoredFrom(blobs[h], SliceBytes(data, s), compress, passphrase)
  }

  /** Old blobs stay as they are, every non-empty piece is there, and nothing else has come in. */
  ghost predicate Extended(before: Blobs, after: Blobs, data: seq<byte>, slices: seq<Slice>, compress: bool, passphrase: seq<byte>)
    requires Within(slices, data)
  {
    && (forall h :: h in before ==> h in after && after[h] == before[h])
    && (forall s :: s in slices && s.size > 0 ==> s.hash in after)
    && (forall h :: h in after && h !in before ==> MadeByBackup(after, h, data, slices, compress, passphrase))
  }

  lemma ExtendedByNothing(blobs: Blobs, data: seq<byte>, compress: bool, passphrase: seq<byte>)
    ensures Extended(blobs, blobs, data, [], compress, passphrase)
  {
  }

  /** One more piece that is empty or already stored. */
  lemma ExtendedBySeen(before: Blobs, after: Blobs, data: seq<byte>, slices: seq<Slice>, s: Slice, compress: bool, passphrase: seq<byte>)
    requires Within(slices + [s], data) && Within(slices, data) && Extended(before, after, data, slices, compress, passphrase)
    requires s.size == 0 || s.hash in after
    ensures Extended(before, after, data, slices + [s], compress, passphrase)
  {
    hide StoredFrom, HashHex;
    forall h | h in after && h !in before ensures MadeByBackup(after, h, data, slices + [s], compress, passphrase) {
      var t :| t in slices && t.size > 0 && t.hash == h && StoredFrom(after[h], SliceBytes(data, t), compress, passphrase);
      assert t in slices + [s];
    }
  }

  /** One more piece that is put into the store. */
  lemma ExtendedByPut(before: Blobs, after: Blobs, data: seq<byte>, slices: seq<Slice>, s: Slice, blob: Blob,
                      compress: bool, passphrase: seq<byte>)
    requires Within(slices + [s], data) && Within(slices, data) && Extended(before, after, data, slices, compress, passphrase)
    requires s.size > 0 && s.hash !in after && StoredFrom(blob, SliceBytes(data, s), compress, passphrase)
    ensures Extended(before, after[s.hash := blob], data, slices + [s], compress, passphrase)
  {
    hide StoredFrom, HashHex;
    var grown := after[s.hash := blob];
    forall h | h in grown && h !in before ensures MadeByBackup(grown, h, data, slices + [s], compress, passphrase) {
      if h == s.hash {
        assert s in slices + [s];
      } else {
        assert MadeByBackup(after, h, data, slices, compress, passphrase);
        var t :| t in slices && t.size > 0 && t.hash == h && StoredFrom(after[h], SliceBytes(data, t), compress, passphrase);
        assert t in slices + [s];
      }
    }
  }

  /** The backup run's own state. */
  class Backup {
    const sourceRoot: string
    const manifest: Manifest
    const store: ChunkStore
    const dryRun: bool
    const compress: bool
    const passphrase: seq<byte>
    var fileCount: nat
    var totalBytes: u64
    var totalChunks: nat

    ghost predicate Valid()
      reads this, manifest, manifest.files
    {
      manifest.Valid()
    }

    /** Lines 1415-1441: the passphrase is shortened, and none at all means no encryption. */
    constructor (sourceRoot: string, manifest: Manifest, store: ChunkStore,
                 dryRun: bool, compress: bool, encrypt: bool, given: seq<byte>)
      requires manifest.Valid()
      ensures Valid() && this.manifest == manifest && this.store == store && this.sourceRoot == sourceRoot
      ensures this.dryRun == dryRun && this.compress == compress
      ensures this.passphrase == if encrypt then Shortened(given) else []
      ensures fileCount == 0 && totalBytes == 0 && totalChunks == 0
    {
      this.sourceRoot, this.manifest, this.store := sourceRoot, manifest, store;
      this.dryRun, this.compress := dryRun, compress;
      this.passphrase := if encrypt then Shortened(given) else [];
      fileCount, totalBytes, totalChunks := 0, 0, 0;
    }

    /** Lines 237-264: the blob of a non-empty chunk. */
    method Pack(data: seq<byte>) returns (blob: Blob)
      requires 0 < |data| <= CHUNK_MAX
      ensures StoredFrom(blob, data, compress, passphrase) && blob != []
    {
      hide Greedy, Cipher.Sealed;
      GreedyAtMostDouble(data);
      var packed := data;
      if compress {
        var rc, compressed := CompressAlloc(data);
        packed := compressed;
      }
      var seed: Seed := AnySeed();
      blob := packed;
      if passphrase != [] {
        blob := Cipher.Sealed(passphrase, packed, seed.salt, seed.nonce);
      }
      assert blob == StoredAs(data, compress, passphrase, seed);
    }

    /** Lines 211-286: the entry, and the blob unless its hash is already there. */
    method ChunkVisit(file: nat, s: Slice, data: seq<byte>, ghost before: Blobs, ghost done: seq<Slice>) returns (rc: int)
      requires Valid() && file < manifest.fileCount && |data| < TWO_64
      requires Within(done, data) && Names(s, data) && s.size <= CHUNK_MAX
      requires !dryRun ==> Extended(before, store.blobs, data, done, compress, passphrase)
      modifies this`totalChunks, manifest`totalChunks, manifest.files, store
      ensures Valid() && rc == 0 && totalChunks == old(totalChunks) + 1
      ensures WithChunk(old(manifest.Contents()), file, s.offset, s.size, s.hash) == Some(manifest.Contents())
      ensures dryRun ==> store.blobs == old(store.blobs)
      ensures Within(done + [s], data)
      ensures !dryRun ==> Extended(before, store.blobs, data, done + [s], compress, passphrase)
    {
      hide HashHex, IsHex, Extended, StoredFrom, WellBuilt, WithChunk;
      var piece := SliceBytes(data, s);
      HashHexIsHex(piece);
      assert WithChunk(manifest.Contents(), file, s.offset, s.size, s.hash).Some? by { HexChunkAdded(manifest.Contents(), file, s); }
      rc := manifest.AddChunk(file, s.offset, s.size, s.hash);
      totalChunks := totalChunks + 1;
      ghost var blobs := store.blobs;
      if dryRun || s.size == 0 {
        if !dryRun { ExtendedBySeen(before, blobs, data, done, s, compress, passphrase); }
        return 0;
      }
      var blob := Pack(piece);
      var found := store.Exists(s.hash);
      if !found {
        rc := store.Put(s.hash, blob);
        ExtendedByPut(before, blobs, data, done, s, blob, compress, passphrase);
      } else {
        ExtendedBySeen(before, blobs, data, done, s, compress, passphrase);
      }
      rc := 0;
    }

    /** Lines 288-339: directories and paths that cannot be made relative are skipped; an unreadable file or a path that
        the manifest refuses ends the backup. `wraps` is set where the chunker's offset wraps and the chunks are visited
        again. */
    method ScanVisit(entry: Entry) returns (rc: int, wraps: bool)
      requires Valid() && (entry.content.Some? ==> |entry.content.value| < TWO_64)
      modifies this, manifest, manifest.files, store
      ensures Valid() && (manifest.files == old(manifest.files) || fresh(manifest.files))
      ensures var path := MakeRelative(sourceRoot, entry.fullPath, PATH_CAP);
              var recorded := entry.isFile && path.Some? && entry.content.Some? && Accepts(path.value);
              && rc == (if recorded || !entry.isFile || path.None? then 0 else -1)
              && (wraps <==> recorded && OffsetWraps(|entry.content.value|, DEFAULT_CHUNK_SIZE))
              && (!recorded ==> manifest.Contents() == old(manifest.Contents()) && store.blobs == old(store.blobs)
                                && fileCount == old(fileCount) && totalBytes == old(totalBytes))
              && (recorded ==> var data := entry.content.value;
                               && manifest.Contents() == Appended(old(manifest.Contents()), FileOf(path.value, entry.mtime, data))
                               && fileCount == old(fileCount) + 1 && totalBytes == (old(totalBytes) + |data|) % TWO_64
                               && Within(Slices(data, DEFAULT_CHUNK_SIZE), data)
                               && (dryRun ==> store.blobs == old(store.blobs))
                               && (!dryRun ==> Extended(old(store.blobs), store.blobs, data, Slices(data, DEFAULT_CHUNK_SIZE),
                                                        compress, passphrase)))
    {
      hide WellBuilt, Slices, HashHex, Extended, MakeRelative, Components, WithChunk, StoredFrom, OffsetWraps;
      wraps := false;
      if !entry.isFile {
        return 0, false;
      }
      var relative := MakeRelative(sourceRoot, entry.fullPath, PATH_CAP);
      if relative.None? {
        return 0, false;
      }
      if entry.content.None? {
        return -1, false;
      }
      var data := entry.content.value;
      var file;
      rc, file := manifest.AddFile(relative.value, entry.mtime, |data|);
      if rc != 0 {
        return;
      }
      wraps := VisitAll(file, data);
      fileCount := fileCount + 1;
      totalBytes := (totalBytes + |data|) % TWO_64;
    }

    /** The chunker's calls of ChunkVisit for a file that has just been added. */
    method VisitAll(file: nat, data: seq<byte>) returns (wraps: bool)
      requires Valid() && file + 1 == manifest.fileCount && |data| < TWO_64 && manifest.files[file].chunks == []
      modifies this`totalChunks, manifest`totalChunks, manifest.files, store
      ensures Valid() && Within(Slices(data, DEFAULT_CHUNK_SIZE), data)
      ensures wraps <==> OffsetWraps(|data|, DEFAULT_CHUNK_SIZE)
      ensures manifest.Contents() == WithAll(old(manifest.Contents()), file, ChunksOfData(data, DEFAULT_CHUNK_SIZE))
      ensures dryRun ==> store.blobs == old(store.blobs)
      ensures !dryRun ==> Extended(old(store.blobs), store.blobs, data, Slices(data, DEFAULT_CHUNK_SIZE), compress, passphrase)
    {
      hide WellBuilt, Slices, HashHex, IsHex, Extended, WithChunk, StoredFrom, OffsetWraps;
      ghost var m, before := manifest.Contents(), store.blobs;
      var slices;
      slices, wraps := ChunkBuffer(data, DEFAULT_CHUNK_SIZE);
      SlicesCover(data, DEFAULT_CHUNK_SIZE);
      SlicesAreChunks(data, DEFAULT_CHUNK_SIZE);
      ghost var chunks := ChunksOf(slices);
      ExtendedByNothing(before, data, compress, passphrase);
      assert slices[..0] == [] && chunks[..0] == [];
      WithNone(m, file);
      for i := 0 to |slices|
        invariant Valid() && manifest.fileCount == old(manifest.fileCount) && manifest.files == old(manifest.files)
        invariant manifest.Contents() == WithAll(m, file, chunks[..i])
        invariant Within(slices[..i], data)
        invariant dryRun ==> store.blobs == before
        invariant !dryRun ==> Extended(before, store.blobs, data, slices[..i], compress, passphrase)
      {
        assert slices[i] in slices;
        var rc := ChunkVisit(file, slices[i], data, before, slices[..i]);
        WithOneMore(m, file, chunks[..i], slices[i]);
        assert slices[..i] + [slices[i]] == slices[..i + 1] && chunks[..i] + [chunks[i]] == chunks[..i + 1];
      }
      assert slices[..|slices|] == slices && chunks[..|slices|] == chunks;
    }
  }

  /** The manifest entry of a file. */
  function FileOf(path: string, mtime: i64, data: seq<byte>): File
    requires |data| < TWO_64
  {
    File(Cut(path, PATH_CAP - 1), mtime, |data|, ChunksOfData(data, DEFAULT_CHUNK_SIZE))
  }

  function WithAll(m: Listing, file: nat, chunks: seq<Chunk>): Listing
    requires file < |m.files|
  {
    Listing(m.files[file := m.files[file].(chunks := chunks)], m.totalBytes, (m.totalChunks + |chunks|) % TWO_64)
  }

  lemma WithNone(m: Listing, file: nat)
    requires file < |m.files| && m.files[file].chunks == []
    ensures WithAll(m, file, []) == m
  {
    assert m.files[file].(chunks := []) == m.files[file];
    assert m.files[file := m.files[file]] == m.files;
  }

  lemma WithOneMore(m: Listing, file: nat, chunks: seq<Chunk>, s: Slice)
    requires file < |m.files| && IsHex(s.hash) && |s.hash| == HEX_LEN && s.offset < TWO_64 && s.size < TWO_64
    ensures WithChunk(WithAll(m, file, chunks), file, s.offset, s.size, s.hash)
            == Some(WithAll(m, file, chunks + [Chunk(s.offset, s.size, s.hash)]))
  {
    hide IsHex;
    ModuloSum(m.totalChunks + |chunks|, 1);
    var f := m.files[file];
    var c := Chunk(s.offset, s.size, s.hash);
    var more := WithChunk(WithAll(m, file, chunks), file, s.offset, s.size, s.hash).value;
    assert more.files[file] == f.(chunks := chunks + [c]);
    assert more.files == m.files[file := f.(chunks := chunks + [c])];
  }

  lemma HexChunkAdded(m: Listing, file: nat, s: Slice)
    requires file < |m.files| && IsHex(s.hash) && s.offset < TWO_64 && s.size < TWO_64
    ensures WithChunk(m, file, s.offset, s.size, s.hash).Some?
  {
  }

  method AnySeed() returns (seed: Seed)
    ensures seed.Valid()
  {
    assert |Zeros(Kdf.SALT_SIZE)| == Kdf.SALT_SIZE && |Zeros(Cipher.NONCE_SIZE)| == Cipher.NONCE_SIZE;
    var salt: seq<byte> :| |salt| == Kdf.SALT_SIZE;
    var nonce: seq<byte> :| |nonce| == Cipher.NONCE_SIZE;
    seed := Seed(salt, nonce);
  }
}
