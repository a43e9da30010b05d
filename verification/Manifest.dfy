/** The list of files and chunks of a snapshot, grown in place.
    Line numbers are those of src/delta/manifest.c. */
module Manifest {
  import opened Bytes
  import opened Chunker
  import opened Hashing
  import opened Path
  import opened Text
  import opened Wrappers

  type i64 = i: int | I64_MIN <= i <= I64_MAX

  datatype Chunk = Chunk(offset: u64, size: u64, hash: Hash)

  datatype File = File(path: string, mtime: i64, size: u64, chunks: seq<Chunk>)

  /** What a manifest says. */
  datatype Listing = Listing(files: seq<File>, totalBytes: u64, totalChunks: u64)

  const EMPTY := Listing([], 0, 0)

  predicate IsAbsolute(path: string) { path != "" && path[0] == '/' }

  /** Lines 58-66. */
  predicate Accepts(path: string) {
    path != "" && !IsAbsolute(path) && ".." !in Components(path)
  }

  function Cut(text: string, n: nat): string { if |text| <= n then text else text[..n] }

  /** One more file without chunks. */
  function WithFile(m: Listing, path: string, mtime: i64, size: u64): Option<Listing> {
    if !Accepts(path) then None
    else Some(Listing(m.files + [File(Cut(path, PATH_CAP - 1), mtime, size, [])], (m.totalBytes + size) % TWO_64, m.totalChunks))
  }

  /** One more chunk of an existing file. */
  function WithChunk(m: Listing, file: nat, offset: u64, size: u64, hash: string): Option<Listing>
    requires file < |m.files|
  {
    if !IsHex(hash) then None
    else
      var f := m.files[file];
      Some(Listing(m.files[file := f.(chunks := f.chunks + [Chunk(offset, size, Cut(hash, HEX_LEN))])],
                   m.totalBytes, (m.totalChunks + 1) % TWO_64))
  }

  /** A whole file at once. */
  function Appended(m: Listing, f: File): Listing {
    Listing(m.files + [f], (m.totalBytes + f.size) % TWO_64, (m.totalChunks + |f.chunks|) % TWO_64)
  }

  // ---- What every listing built by these steps keeps ----

  function SumSizes(files: seq<File>): nat {
    if files == [] then 0 else SumSizes(files[..|files| - 1]) + files[|files| - 1].size
  }

  function SumChunks(files: seq<File>): nat {
    if files == [] then 0 else SumChunks(files[..|files| - 1]) + |files[|files| - 1].chunks|
  }

  predicate GoodChunk(c: Chunk) { IsHex(c.hash) && |c.hash| <= HEX_LEN }

  predicate GoodFile(f: File) {
    |f.path| < PATH_CAP && f.path != "" && !IsAbsolute(f.path) && forall c :: c in f.chunks ==> GoodChunk(c)
  }

  /** Totals are the sums over the entries, modulo 2^64. */
  predicate Totalled(m: Listing) {
    m.totalBytes == SumSizes(m.files) % TWO_64 && m.totalChunks == SumChunks(m.files) % TWO_64
  }

  ghost predicate WellBuilt(m: Listing) {
    Totalled(m) && forall f :: f in m.files ==> GoodFile(f)
  }

  lemma ModuloSum(a: nat, b: nat)
    ensures (a % TWO_64 + b) % TWO_64 == (a + b) % TWO_64
  {
  }

  /** A path is refused exactly when it is empty, starts with '/' or has ".." among its names. */
  lemma AcceptedIff(m: Listing, path: string, mtime: i64, size: u64)
    ensures WithFile(m, path, mtime, size).Some? <==> path != "" && path[0] != '/' && ".." !in Components(path)
  {
    hide Components;
  }

  /** Otherwise it stands behind the files that are there, as it is up to 4095 characters. */
  lemma AcceptedIs(m: Listing, path: string, mtime: i64, size: u64)
    requires WithFile(m, path, mtime, size).Some? && |path| <= 4095
    ensures WithFile(m, path, mtime, size).value == m.(files := m.files + [File(path, mtime, size, [])],
                                                       totalBytes := (m.totalBytes + size) % TWO_64)
  {
    hide Accepts;
  }

  /** A hash is refused exactly when it is empty or has a character that is no hexadecimal digit. Otherwise the chunk comes
      last in its file, all else stays, and adding it last is adding the file with it. */
  lemma WithChunkIs(m: Listing, f: File, offset: u64, size: u64, hash: string)
    ensures var r := WithChunk(Appended(m, f), |m.files|, offset, size, hash);
            && (r.Some? <==> hash != "" && forall c :: c in hash ==> '0' <= c <= '9' || 'a' <= c <= 'f' || 'A' <= c <= 'F')
            && (r.Some? && |hash| <= 64 ==> r.value == Appended(m, f.(chunks := f.chunks + [Chunk(offset, size, hash)])))
  {
    ModuloSum(m.totalChunks + |f.chunks|, 1);
    var more := f.(chunks := f.chunks + [Chunk(offset, size, Cut(hash, HEX_LEN))]);
    assert (m.files + [f])[|m.files| := more] == m.files + [more];
    assert forall i :: 0 <= i < |hash| ==> hash[i] in hash;
  }

  lemma WithFileKeeps(m: Listing, path: string, mtime: i64, size: u64)
    requires WellBuilt(m) && WithFile(m, path, mtime, size).Some?
    ensures WellBuilt(WithFile(m, path, mtime, size).value)
  {
    hide IsHex;
    var n := WithFile(m, path, mtime, size).value;
    assert n.files[..|n.files| - 1] == m.files;
    ModuloSum(SumSizes(m.files), size);
    ModuloSum(SumChunks(m.files), 0);
  }

  lemma {:induction false} ChunkAddsOne(files: seq<File>, k: nat, chunks: seq<Chunk>)
    requires k < |files| && |chunks| == |files[k].chunks| + 1
    ensures var grown := files[k := files[k].(chunks := chunks)];
            SumSizes(grown) == SumSizes(files) && SumChunks(grown) == SumChunks(files) + 1
  {
    var grown := files[k := files[k].(chunks := chunks)];
    var front := files[..|files| - 1];
    if k == |files| - 1 {
      assert grown[..|files| - 1] == front;
    } else {
      ChunkAddsOne(front, k, chunks);
      assert grown[..|files| - 1] == front[k := front[k].(chunks := chunks)];
    }
  }

  lemma WithChunkKeeps(m: Listing, file: nat, offset: u64, size: u64, hash: string)
    requires WellBuilt(m) && file < |m.files| && WithChunk(m, file, offset, size, hash).Some?
    ensures WellBuilt(WithChunk(m, file, offset, size, hash).value)
  {
    var f := m.files[file];
    var chunks := f.chunks + [Chunk(offset, size, Cut(hash, HEX_LEN))];
    ChunkAddsOne(m.files, file, chunks);
    ModuloSum(SumChunks(m.files), 1);
    assert GoodFile(f);
    assert GoodFile(f.(chunks := chunks));
  }

  /** The chunks of a file as the chunker reports them. */
  function ChunksOf(slices: seq<Slice>): (r: seq<Chunk>)
    requires forall s :: s in slices ==> s.offset < TWO_64 && s.size < TWO_64
    ensures |r| == |slices|
  {
    seq(|slices|, i requires 0 <= i < |slices| => Chunk(slices[i].offset, slices[i].size, slices[i].hash))
  }

  class Manifest {
    var files: array<File>
    var fileCount: nat
    var totalBytes: u64
    var totalChunks: u64

    ghost predicate Valid()
      reads this, files
    {
      fileCount <= files.Length && WellBuilt(Contents())
    }

    function Contents(): Listing
      requires fileCount <= files.Length
      reads this, files
    {
      Listing(files[..fileCount], totalBytes, totalChunks)
    }

    constructor ()
      ensures Valid() && Contents() == EMPTY && fresh(files)
    {
      files := new File[0];
      fileCount := 0;
      totalBytes, totalChunks := 0, 0;
      new;
      assert Contents() == EMPTY;
    }

    /** Lines 10-32: 8 entries, then twice as many each time. */
    method EnsureFileCapacity()
      requires Valid()
      modifies this`files
      ensures Valid() && Contents() == old(Contents()) && fresh(files)
      ensures files.Length == if old(files.Length) == 0 then 8 else 2 * old(files.Length)
    {
      var newCapacity := if files.Length == 0 then 8 else files.Length * 2;
      var grown := new File[newCapacity];
      forall i | 0 <= i < fileCount { grown[i] := files[i]; }
      assert grown[..fileCount] == files[..fileCount];
      files := grown;
      assert Contents() == old(Contents());
    }

    /** Lines 126-157. */
    method AddFile(path: string, mtime: i64, size: u64) returns (rc: int, file: nat)
      requires Valid()
      modifies this, files
      ensures Valid() && (files == old(files) || fresh(files))
      ensures var r := WithFile(old(Contents()), path, mtime, size);
              && rc == (if r.Some? then 0 else -1)
              && Contents() == (if r.Some? then r.value else old(Contents()))
      ensures rc == 0 ==> file == old(fileCount) && fileCount == old(fileCount) + 1
    {
      file := 0;
      hide Components;
      var parent := HasParentReference(path);
      if path == "" || IsAbsolute(path) || parent {
        return -1, 0;
      }
      hide WellBuilt;
      WithFileKeeps(Contents(), path, mtime, size);
      ghost var want := WithFile(Contents(), path, mtime, size).value;
      if fileCount >= files.Length {
        EnsureFileCapacity();
      }
      files[fileCount] := File(Cut(path, PATH_CAP - 1), mtime, size, []);
      file := fileCount;
      fileCount := fileCount + 1;
      totalBytes := (totalBytes + size) % TWO_64;
      assert Contents() == want by { assert files[..fileCount] == want.files; }
      rc := 0;
    }

    /** Lines 159-185. */
    method AddChunk(file: nat, offset: u64, size: u64, hash: string) returns (rc: int)
      requires Valid() && file < fileCount
      modifies this`totalChunks, files
      ensures Valid()
      ensures var r := WithChunk(old(Contents()), file, offset, size, hash);
              && rc == (if r.Some? then 0 else -1)
              && Contents() == (if r.Some? then r.value else old(Contents()))
    {
      hide WellBuilt, IsHex;
      if !IsHex(hash) {
        return -1;
      }
      WithChunkKeeps(Contents(), file, offset, size, hash);
      var f := files[file];
      files[file] := f.(chunks := f.chunks + [Chunk(offset, size, Cut(hash, HEX_LEN))]);
      totalChunks := (totalChunks + 1) % TWO_64;
      rc := 0;
    }

    /** Lines 187-222: a new file and one chunk for each visit of the chunker, as far as its offset does not wrap. */
    method AppendFileFromBuffer(path: string, data: seq<byte>, chunkSize: nat, mtime: i64) returns (rc: int, file: nat, wraps: bool)
      requires Valid() && |data| < TWO_64
      modifies this, files
      ensures Valid() && (files == old(files) || fresh(files))
      ensures rc == if chunkSize > 0 && Accepts(path) then 0 else -1
      ensures wraps <==> rc == 0 && OffsetWraps(|data|, chunkSize)
      ensures rc != 0 ==> Contents() == old(Contents())
      ensures rc == 0 ==> file == old(fileCount) && fileCount == old(fileCount) + 1
      ensures rc == 0 ==> files[..file] == old(files[..fileCount])
                          && files[file] == File(Cut(path, PATH_CAP - 1), mtime, |data|, ChunksOfData(data, chunkSize))
    {
      hide WellBuilt, Slices, HashHex, IsHex, OffsetWraps;
      wraps := false;
      if chunkSize == 0 {
        return -1, 0, false;
      }
      rc, file := AddFile(path, mtime, |data|);
      if rc != 0 {
        return;
      }
      ghost var front := files[..file];
      assert front == old(files[..fileCount]);
      var slices;
      slices, wraps := ChunkBuffer(data, chunkSize);
      SlicesAreChunks(data, chunkSize);
      ghost var start := files[file];
      for i := 0 to |slices|
        invariant Valid() && fileCount == old(fileCount) + 1 && file == old(fileCount) && rc == 0
        invariant files == old(files) || fresh(files)
        invariant files[..file] == front && files[file] == start.(chunks := ChunksOf(slices)[..i])
      {
        ghost var before := Contents();
        assert IsHex(slices[i].hash);
        rc := AddChunk(file, slices[i].offset, slices[i].size, slices[i].hash);
        assert Contents().files[..file] == before.files[..file];
        assert files[..file] == Contents().files[..file];
        assert files[file] == Contents().files[file];
      }
      assert ChunksOf(slices)[..|slices|] == ChunksOf(slices);
    }
  }

  /** What the chunker makes of the bytes of a file. */
  function ChunksOfData(data: seq<byte>, chunkSize: nat): seq<Chunk>
    requires chunkSize > 0 && |data| < TWO_64
  {
    SlicesAreChunks(data, chunkSize);
    ChunksOf(Slices(data, chunkSize))
  }

  lemma SlicesAreChunks(data: seq<byte>, chunkSize: nat)
    requires chunkSize > 0 && |data| < TWO_64
    ensures forall s :: s in Slices(data, chunkSize) ==>
      s.offset < TWO_64 && s.size < TWO_64 && IsHex(s.hash) && |s.hash| == HEX_LEN
  {
    hide Slices, IsHex, HashHex;
    SlicesCover(data, chunkSize);
    forall s | s in Slices(data, chunkSize) ensures IsHex(s.hash) && |s.hash| == HEX_LEN {
      HashHexIsHex(data[s.offset..s.offset + s.size]);
    }
  }
}
