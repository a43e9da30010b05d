/** After any run of backups, prunes, sync sessions, readers and stops: what restoring a snapshot gives back. */
module RepositoryRoundTrip {
  import opened Bytes
  import opened Chunker
  import opened ChunkStore
  import opened Codec
  import opened Hashing
  import opened Manifest
  import opened ManifestText
  import opened Pipeline
  import opened Repository
  import opened RepositorySafety
  import opened Restore
  import opened RestoreTree
  import opened SnapshotRoundTrip
  import opened SnapshotText
  import opened Wrappers

  function BlobOf(cell: Cell): Blob
    requires cell.Valid()
  {
    GreedyAtMostDouble(cell.data);
    StoredAs(cell.data, cell.compress, Shortened(cell.given), cell.seed)
  }

  /** The chunk store that restore and verify read. */
  function BlobsOf(chunks: map<Hash, Cell>): Blobs {
    map h | h in chunks && chunks[h].Valid() :: BlobOf(chunks[h])
  }

  /** A chunk entry that restore reads back under the passphrase of its blob: it is stored, and it was first stored
      compressed or its bytes are no code for others. */
  predicate Readable(chunks: map<Hash, Cell>, data: seq<byte>, c: Chunk)
    requires c.offset + c.size <= |data|
  {
    c.hash in chunks && (chunks[c.hash].compress || !Ambiguous(BytesOf(data, c)))
  }

  /** The blob of a chunk entry, if there is one, was sealed under the passphrase as it is used here. */
  predicate SameKey(chunks: map<Hash, Cell>, c: Chunk, passphrase: seq<byte>) {
    c.hash in chunks ==> Shortened(chunks[c.hash].given) == passphrase
  }

  /** A stored blob that the passphrase can open. */
  predicate KeyFits(cell: Cell, passphrase: seq<byte>) {
    && cell.Valid()
    && (cell.given != [] && passphrase != []
        ==> KeysCoincide(cell.data, cell.compress, Shortened(cell.given), passphrase, cell.seed))
  }

  lemma CellComesBack(chunks: map<Hash, Cell>, data: seq<byte>, c: Chunk, passphrase: seq<byte>)
    requires c.size != 0 && c.offset + c.size <= |data| && SameKey(chunks, c, passphrase)
    requires c.hash in chunks ==> chunks[c.hash].Valid() && chunks[c.hash].data == BytesOf(data, c) && |c.hash| >= 2
    ensures ComesBack(BlobsOf(chunks), data, c, passphrase) <==> Readable(chunks, data, c)
    ensures c.hash in chunks ==> Fetched(BlobsOf(chunks), c, passphrase).Some?
  {
    hide StoredAs, Recovered, Ambiguous;
    if c.hash in chunks {
      var cell := chunks[c.hash];
      assert BlobsOf(chunks)[c.hash] == BlobOf(cell);
      RecoversExactly(cell.data, cell.compress, passphrase, cell.seed);
    }
  }

  lemma FetchedFits(chunks: map<Hash, Cell>, c: Chunk, passphrase: seq<byte>)
    requires Fetched(BlobsOf(chunks), c, passphrase).Some?
    ensures c.hash in chunks && KeyFits(chunks[c.hash], passphrase)
  {
    hide StoredAs, Unsealed, Unpacked, KeysCoincide;
    var cell := chunks[c.hash];
    assert BlobsOf(chunks)[c.hash] == BlobOf(cell);
    if cell.given != [] && passphrase != [] {
      UnsealsElsewhereIff(cell.data, cell.compress, Shortened(cell.given), passphrase, cell.seed);
    }
  }

  /** A blob under the hash of a published snapshot's chunk holds the scanned bytes. */
  lemma CellHoldsPiece(setting: Setting, s: World, name: Name, i: nat, c: Chunk)
    requires Inv(setting, s) && NoCollision(setting.universe) && name in s.repo.manifests
    requires i < |s.sources[name]| && c in FileFor(s.sources[name][i]).chunks && c.size != 0
    ensures var data := s.sources[name][i].data;
            && c.offset + c.size <= |data| && |c.hash| >= 2
            && (c.hash in s.repo.chunks ==> s.repo.chunks[c.hash].Valid() && s.repo.chunks[c.hash].data == BytesOf(data, c))
  {
    var sources := s.sources[name];
    assert TrueManifests(setting, s);
    assert Scanned(sources[i]);
    EntryIsPiece(sources[i], c);
    SourceFound(sources, i, BytesOf(sources[i].data, c));
    hide HashHex, AllPieces, AllScanned, TextFor, FileFor, LockHeld, Progress;
    assert TrueNames(setting, s.repo);
  }

  lemma EntryIsNeeded(sources: seq<Source>, i: nat, c: Chunk)
    requires AllScanned(sources) && AllFit(sources) && i < |sources| && c in FileFor(sources[i]).chunks && c.size != 0
    ensures Needs(TextFor(sources), c.hash)
  {
    TextLoads(sources);
    hide TextFor, ListingFor, FileFor, Loaded, AllScanned, AllFit;
    assert FileFor(sources[i]) in Loaded(TextFor(sources)).value.files;
  }

  /** A manifest entry carries the source's name and time. If its blobs were sealed under the passphrase, restoring it
      gives the source's bytes exactly when every non-empty chunk is readable; and no file is restored with a chunk that
      is missing or that the passphrase does not open. */
  ghost predicate ReadsBack(chunks: map<Hash, Cell>, file: File, source: Source, passphrase: seq<byte>) {
    && file.path == source.path && file.mtime == source.mtime
    && (forall c :: c in file.chunks ==> c.offset + c.size <= |source.data|)
    && ((forall c :: c in file.chunks && c.size != 0 ==> SameKey(chunks, c, passphrase)) ==>
          (RestoredFile(BlobsOf(chunks), file, passphrase) == Some(source.data)
           <==> forall c :: c in file.chunks && c.size != 0 ==> Readable(chunks, source.data, c))
          && ((forall c :: c in file.chunks && c.size != 0 ==> c.hash in chunks) ==> RestoredFile(BlobsOf(chunks), file, passphrase).Some?))
    && (RestoredFile(BlobsOf(chunks), file, passphrase).Some? ==>
          forall c :: c in file.chunks && c.size != 0 ==> c.hash in chunks && KeyFits(chunks[c.hash], passphrase))
  }

  lemma SourceWasScanned(setting: Setting, s: World, name: Name, i: nat)
    requires Inv(setting, s) && name in s.repo.manifests
    ensures name in s.sources && (i < |s.sources[name]| ==> Scanned(s.sources[name][i]))
  {
    hide LockHeld, TrueNames, TextFor, Scanned, Progress;
  }

  lemma FileReadsBack(setting: Setting, s: World, name: Name, i: nat, passphrase: seq<byte>)
    requires Inv(setting, s) && NoCollision(setting.universe) && name in s.repo.manifests
    requires name in s.sources && i < |s.sources[name]|
    ensures |s.sources[name][i].data| < TWO_64
    ensures ReadsBack(s.repo.chunks, FileFor(s.sources[name][i]), s.sources[name][i], passphrase)
  {
    hide Inv, FileFor, ChunksOfData, HashHex, NoCollision, SameKey, Readable, BlobsOf, RestoredFile, KeyFits, Accepts;
    SourceWasScanned(setting, s, name, i);
    var source := s.sources[name][i];
    FileShape(source);
    var file := FileFor(source);
    if forall c :: c in file.chunks && c.size != 0 ==> SameKey(s.repo.chunks, c, passphrase) {
      PiecesComeBack(setting, s, name, i, passphrase);
      FileFromPieces(s.repo.chunks, file, source, passphrase);
    }
    NothingUnopened(s.repo.chunks, file, passphrase);
  }

  lemma FileShape(source: Source)
    requires Scanned(source)
    ensures var file := FileFor(source);
            && file.path == source.path && file.mtime == source.mtime
            && file.size == |source.data| && file.chunks == ChunksOfData(source.data, DEFAULT_CHUNK_SIZE)
            && forall c :: c in file.chunks ==> c.offset + c.size <= |source.data|
  {
    hide HashHex, ChunksOfData, Accepts;
    ChunkSizes(source.data, DEFAULT_CHUNK_SIZE);
  }

  lemma NothingUnopened(chunks: map<Hash, Cell>, file: File, passphrase: seq<byte>)
    ensures RestoredFile(BlobsOf(chunks), file, passphrase).Some? ==>
              forall c :: c in file.chunks && c.size != 0 ==> c.hash in chunks && KeyFits(chunks[c.hash], passphrase)
  {
    hide KeyFits, Fetched, BlobsOf, RestoreChunks;
    if RestoredFile(BlobsOf(chunks), file, passphrase).Some? {
      RestoredMeansFetched(Zeros(file.size), BlobsOf(chunks), file.chunks, passphrase);
      forall c | c in file.chunks && c.size != 0 ensures c.hash in chunks && KeyFits(chunks[c.hash], passphrase) {
        FetchedFits(chunks, c, passphrase);
      }
    }
  }

  lemma PiecesComeBack(setting: Setting, s: World, name: Name, i: nat, passphrase: seq<byte>)
    requires Inv(setting, s) && NoCollision(setting.universe) && name in s.repo.manifests
    requires i < |s.sources[name]| && |s.sources[name][i].data| < TWO_64
    requires forall c :: c in FileFor(s.sources[name][i]).chunks && c.size != 0 ==> SameKey(s.repo.chunks, c, passphrase)
    ensures var source := s.sources[name][i];
            forall c :: c in FileFor(source).chunks && c.size != 0 && c.offset + c.size <= |source.data| ==>
              (ComesBack(BlobsOf(s.repo.chunks), source.data, c, passphrase) <==> Readable(s.repo.chunks, source.data, c))
              && (c.hash in s.repo.chunks ==> Fetched(BlobsOf(s.repo.chunks), c, passphrase).Some?)
  {
    var source := s.sources[name][i];
    hide Inv, NoCollision, HashHex, Readable, Fetched, BlobsOf, FileFor, ComesBack, SameKey;
    forall c | c in FileFor(source).chunks && c.size != 0 && c.offset + c.size <= |source.data|
      ensures ComesBack(BlobsOf(s.repo.chunks), source.data, c, passphrase) <==> Readable(s.repo.chunks, source.data, c)
      ensures c.hash in s.repo.chunks ==> Fetched(BlobsOf(s.repo.chunks), c, passphrase).Some?
    {
      CellHoldsPiece(setting, s, name, i, c);
      CellComesBack(s.repo.chunks, source.data, c, passphrase);
    }
  }

  lemma FileFromPieces(chunks: map<Hash, Cell>, file: File, source: Source, passphrase: seq<byte>)
    requires |source.data| < TWO_64 && file.size == |source.data| && file.chunks == ChunksOfData(source.data, DEFAULT_CHUNK_SIZE)
    requires forall c :: c in file.chunks ==> c.offset + c.size <= |source.data|
    requires forall c :: c in file.chunks && c.size != 0 && c.offset + c.size <= |source.data| ==>
               (ComesBack(BlobsOf(chunks), source.data, c, passphrase) <==> Readable(chunks, source.data, c))
               && (c.hash in chunks ==> Fetched(BlobsOf(chunks), c, passphrase).Some?)
    ensures RestoredFile(BlobsOf(chunks), file, passphrase) == Some(source.data)
            <==> forall c :: c in file.chunks && c.size != 0 ==> Readable(chunks, source.data, c)
    ensures (forall c :: c in file.chunks && c.size != 0 ==> c.hash in chunks) ==> RestoredFile(BlobsOf(chunks), file, passphrase).Some?
  {
    if forall c :: c in file.chunks && c.size != 0 ==> c.hash in chunks {
      FetchedMeansRestored(Zeros(file.size), BlobsOf(chunks), file.chunks, passphrase);
    }
    hide RestoredFile, ChunksOfData, Readable, BlobsOf, Fetched;
    RestoredIff(BlobsOf(chunks), file, source.data, DEFAULT_CHUNK_SIZE, passphrase);
  }

  /** The whole-run round trip, for every manifest that is there after any run, whole snapshot or not: it loads to the
      scanned files in order if and only if they all fit their lines, and restoring each of those files is characterised
      chunk by chunk. */
  lemma RestoreAfterAnyRun(setting: Setting, s: World, name: Name, passphrase: seq<byte>)
    requires Reachable(setting, s) && NoCollision(setting.universe) && name in s.repo.manifests
    ensures name in s.sources && AllScanned(s.sources[name])
    ensures Loaded(s.repo.manifests[name]) == Some(ListingFor(s.sources[name])) <==> AllFit(s.sources[name])
    ensures var files := ListingFor(s.sources[name]).files;
            && |files| == |s.sources[name]|
            && forall i :: 0 <= i < |files| ==> ReadsBack(s.repo.chunks, files[i], s.sources[name][i], passphrase)
  {
    hide Reachable, ReadsBack, NoCollision, Loaded, TextFor, ListingFor, AllScanned, FileFor, Progress, LockHeld, HashHex, AllFit;
    ReachableIsSound(setting, s);
    assert TrueManifests(setting, s);
    var sources := s.sources[name];
    TextLoads(sources);
    forall i | 0 <= i < |sources| ensures ReadsBack(s.repo.chunks, FilesFor(sources)[i], sources[i], passphrase) {
      FileReadsBack(setting, s, name, i, passphrase);
    }
  }

  /** In a whole repository no chunk of a listed snapshot is missing, so only raw ambiguous chunks and other passphrases
      are left to stand between a snapshot and its sources. */
  lemma IntactIsStored(setting: Setting, s: World, name: Name, i: nat, c: Chunk)
    requires Reachable(setting, s) && Integrity(s.repo) && name in s.repo.snapshots && name in s.repo.manifests
    requires name in s.sources && AllScanned(s.sources[name]) && AllFit(s.sources[name])
    requires i < |s.sources[name]| && c in FileFor(s.sources[name][i]).chunks && c.size != 0
    ensures c.hash in s.repo.chunks
  {
    ReachableIsSound(setting, s);
    hide Reachable, TextFor, AllScanned, AllFit, FileFor, Progress, LockHeld, HashHex, TrueNames, Needs;
    assert TrueManifests(setting, s);
    EntryIsNeeded(s.sources[name], i, c);
    assert Covered(s.repo.chunks, s.repo.manifests[name]);
  }

  /** A file of which nothing is missing comes back exactly when none of its chunks was first stored raw and ambiguous. */
  ghost predicate ComesBackUnlessAmbiguous(chunks: map<Hash, Cell>, file: File, source: Source, passphrase: seq<byte>) {
    && (forall c :: c in file.chunks && c.size != 0 ==> c.offset + c.size <= |source.data| && c.hash in chunks)
    && RestoredFile(BlobsOf(chunks), file, passphrase).Some?
    && (RestoredFile(BlobsOf(chunks), file, passphrase) == Some(source.data)
        <==> forall c :: c in file.chunks && c.size != 0 ==> chunks[c.hash].compress || !Ambiguous(BytesOf(source.data, c)))
  }

  /** A listed snapshot of a whole repository that was always written under one passphrase of up to 255 bytes: the manifest
      loads, and every file by itself comes back unless a chunk of it is raw and ambiguous. */
  lemma EachFileComesBack(setting: Setting, s: World, name: Name, given: seq<byte>)
    requires Reachable(setting, s) && NoCollision(setting.universe) && Integrity(s.repo)
    requires name in s.repo.snapshots && name in s.repo.manifests && name in s.sources
    requires AllScanned(s.sources[name]) && AllFit(s.sources[name])
    requires |given| <= PASSPHRASE_MAX && forall h :: h in s.repo.chunks ==> s.repo.chunks[h].given == given
    ensures Loaded(s.repo.manifests[name]) == Some(ListingFor(s.sources[name]))
    ensures var files := ListingFor(s.sources[name]).files;
            && |files| == |s.sources[name]| && files == FilesFor(s.sources[name])
            && forall i :: 0 <= i < |files| ==>
                 ComesBackUnlessAmbiguous(s.repo.chunks, files[i], s.sources[name][i], given)
  {
    hide Reachable, NoCollision, Loaded, ListingFor, AllScanned, AllFit, Integrity, RestoredFile, ReadsBack, ComesBackUnlessAmbiguous;
    RestoreAfterAnyRun(setting, s, name, given);
    var sources := s.sources[name];
    TextLoads(sources);
    var files := ListingFor(sources).files;
    forall i | 0 <= i < |files| ensures ComesBackUnlessAmbiguous(s.repo.chunks, files[i], sources[i], given) {
      forall c | c in files[i].chunks && c.size != 0 ensures c.hash in s.repo.chunks {
        IntactIsStored(setting, s, name, i, c);
      }
      NothingMissing(s.repo.chunks, files[i], sources[i], given);
    }
  }

  function DatasOf(sources: seq<Source>): (r: seq<seq<byte>>)
    ensures |r| == |sources|
  {
    seq(|sources|, i requires 0 <= i < |sources| => sources[i].data)
  }

  /** No chunk was first stored raw and is ambiguous. */
  ghost predicate Clear(chunks: map<Hash, Cell>, file: File, source: Source) {
    forall c :: c in file.chunks && c.size != 0 && c.offset + c.size <= |source.data| && c.hash in chunks ==>
      chunks[c.hash].compress || !Ambiguous(BytesOf(source.data, c))
  }

  /** What stands last at each place is clear and the same as all that went there before. */
  ghost predicate LastOnesClear(chunks: map<Hash, Cell>, files: seq<File>, sources: seq<Source>)
    requires |files| == |sources|
  {
    forall i, j :: 0 <= i <= j < |files| && PlaceOf(files[i].path) == PlaceOf(files[j].path) && IsLast(files, j) ==>
      sources[i].data == sources[j].data && Clear(chunks, files[j], sources[j])
  }

  /** Restoring such a snapshot into any directory tree runs to its end and gives back every source if and only if no path
      stands in the way of another or of what is there already, sources of one place are alike, and the last of them has no
      chunk that is raw and ambiguous. */
  lemma WholeSnapshotComesBack(setting: Setting, s: World, name: Name, given: seq<byte>, tree: Tree)
    requires Reachable(setting, s) && NoCollision(setting.universe) && Integrity(s.repo)
    requires name in s.repo.snapshots && name in s.repo.manifests && name in s.sources
    requires AllScanned(s.sources[name]) && AllFit(s.sources[name])
    requires |given| <= PASSPHRASE_MAX && forall h :: h in s.repo.chunks ==> s.repo.chunks[h].given == given
    ensures Loaded(s.repo.manifests[name]) == Some(ListingFor(s.sources[name]))
    ensures var files, sources := FilesFor(s.sources[name]), s.sources[name];
            && ListingFor(sources).files == files
            && (GivesBack(tree, BlobsOf(s.repo.chunks), files, DatasOf(sources), given)
                <==> Compatible(tree, files) && LastOnesClear(s.repo.chunks, files, sources))
  {
    hide Reachable, NoCollision, Loaded, ListingFor, AllScanned, AllFit, Integrity, RestoredFile, ComesBackUnlessAmbiguous,
         GivesBack, Compatible, FileFor, LastOnesClear;
    EachFileComesBack(setting, s, name, given);
    var sources := s.sources[name];
    AllComeBackIff(tree, s.repo.chunks, FilesFor(sources), sources, given);
  }

  lemma AllComeBackIff(tree: Tree, chunks: map<Hash, Cell>, files: seq<File>, sources: seq<Source>, given: seq<byte>)
    requires |files| == |sources|
    requires forall i :: 0 <= i < |files| ==> ComesBackUnlessAmbiguous(chunks, files[i], sources[i], given)
    ensures GivesBack(tree, BlobsOf(chunks), files, DatasOf(sources), given)
            <==> Compatible(tree, files) && LastOnesClear(chunks, files, sources)
  {
    hide RestoredFile, GivesBack, Compatible, PlaceOf, BlobsOf, IsLast, Clear, ComesBackUnlessAmbiguous;
    var datas := DatasOf(sources);
    GivesBackIff(tree, BlobsOf(chunks), files, datas, given);
    forall i | 0 <= i < |files|
      ensures RestoredFile(BlobsOf(chunks), files[i], given).Some?
      ensures RestoredFile(BlobsOf(chunks), files[i], given) == Some(datas[i]) <==> Clear(chunks, files[i], sources[i])
    {
      ClearComesBack(chunks, files[i], sources[i], given);
    }
    assert AllRestored(BlobsOf(chunks), files, given);
    if LastOnesRight(BlobsOf(chunks), files, datas, given) {
      forall i, j | 0 <= i <= j < |files| && PlaceOf(files[i].path) == PlaceOf(files[j].path) && IsLast(files, j)
        ensures sources[i].data == sources[j].data && Clear(chunks, files[j], sources[j])
      {
        assert RestoredFile(BlobsOf(chunks), files[j], given) == Some(datas[j]);
        assert RestoredFile(BlobsOf(chunks), files[j], given) == Some(datas[i]);
      }
    }
  }

  lemma ClearComesBack(chunks: map<Hash, Cell>, file: File, source: Source, given: seq<byte>)
    requires ComesBackUnlessAmbiguous(chunks, file, source, given)
    ensures RestoredFile(BlobsOf(chunks), file, given).Some?
    ensures RestoredFile(BlobsOf(chunks), file, given) == Some(source.data) <==> Clear(chunks, file, source)
  {
    hide RestoredFile, BlobsOf, Ambiguous;
  }

  lemma NothingMissing(chunks: map<Hash, Cell>, file: File, source: Source, given: seq<byte>)
    requires |given| <= PASSPHRASE_MAX && forall h :: h in chunks ==> chunks[h].given == given
    requires ReadsBack(chunks, file, source, given) && forall c :: c in file.chunks && c.size != 0 ==> c.hash in chunks
    ensures ComesBackUnlessAmbiguous(chunks, file, source, given)
  {
    hide RestoredFile, BlobsOf, Ambiguous, KeyFits;
  }

  /** The name whose manifest a step writes. */
  function Writes(s: World, step: Step): Option<Name> {
    match step
    case PublishManifest(p) => if At(s, p).Updated? then Some(At(s, p).job.FileName()) else None
    case ServeManifest(p, _) => if At(s, p).Announced? then Some(At(s, p).name) else None
    case _ => None
  }

  /** What was published under an name stays what it was until the manifest is deleted or written anew. */
  lemma PublishedStays(setting: Setting, s: World, step: Step, name: Name)
    requires Reachable(setting, s) && Enabled(setting, s, step) && name in s.repo.manifests && Writes(s, step) != Some(name)
    ensures var t := Apply(setting, s, step);
            name in s.sources && name in t.sources && t.sources[name] == s.sources[name]
            && (name in t.repo.manifests ==> t.repo.manifests[name] == s.repo.manifests[name])
  {
    ReachableIsSound(setting, s);
    assert name in s.sources by { assert TrueManifests(setting, s); }
    hide Inv, Reachable;
    OnlyWritersWrite(setting, s, step, name);
  }

  lemma OnlyWritersWrite(setting: Setting, s: World, step: Step, name: Name)
    requires Enabled(setting, s, step) && name in s.repo.manifests && name in s.sources && Writes(s, step) != Some(name)
    ensures var t := Apply(setting, s, step);
            name in t.sources && t.sources[name] == s.sources[name]
            && (name in t.repo.manifests ==> t.repo.manifests[name] == s.repo.manifests[name])
  {
    hide Occur, AllPieces, TextFor, HashHex, AllScanned, Referenced, NobodyLocks, NobodyWrites, Stored, PrintSnapshot,
         SafeName, Recordable, FromHeader, ListedNames, AllListed;
  }

  /** The job of a process that writes for a backup. */
  predicate WritesFor(q: Proc, id: string) { (q.Putting? || q.Created? || q.Updated?) && q.job.info.id == id }

  predicate SameFiles(s: World, t: World, name: Name) {
    && (name in t.repo.snapshots <==> name in s.repo.snapshots)
    && (name in t.repo.snapshots ==> t.repo.snapshots[name] == s.repo.snapshots[name])
    && (name in t.repo.manifests <==> name in s.repo.manifests)
    && (name in t.repo.manifests ==> t.repo.manifests[name] == s.repo.manifests[name])
  }

  /** Every step of a backup under an id of the form that the program makes leaves the files of every other such id, and
      every chunk that is stored, as they were. */
  lemma DatedBackupLeavesOthers(setting: Setting, s: World, step: Step, id: string, other: string)
    requires Enabled(setting, s, step) && WritesFor(At(s, step.p), id) && IsDated(id) && IsDated(other) && other != id
    ensures SameFiles(s, Apply(setting, s, step), SafeName(other))
    ensures forall h :: h in s.repo.chunks ==>
              h in Apply(setting, s, step).repo.chunks && Apply(setting, s, step).repo.chunks[h] == s.repo.chunks[h]
  {
    hide IsDated, Enabled, Apply, SameFiles;
    if SafeName(id) == SafeName(other) { DatedNamesDiffer(id, other); }
    hide SafeName;
    OwnFilesOnly(setting, s, step, id, SafeName(other));
    ChunksStay(setting, s, step, id);
  }

  lemma OwnFilesOnly(setting: Setting, s: World, step: Step, id: string, name: Name)
    requires Enabled(setting, s, step) && WritesFor(At(s, step.p), id) && name != SafeName(id)
    ensures SameFiles(s, Apply(setting, s, step), name)
  {
    hide Occur, AllPieces, TextFor, HashHex, AllScanned, Referenced, NobodyLocks, NobodyWrites, PrintSnapshot, SafeName, Stored,
         Recordable, FromHeader, ListedNames, AllListed, PieceOf, Bare;
    match step
    case CreateSnapshot(p) =>
    case UpdateSnapshot(p) =>
    case PublishManifest(p) =>
    case Stop(p) =>
    case _ =>
  }

  lemma ChunksStay(setting: Setting, s: World, step: Step, id: string)
    requires Enabled(setting, s, step) && WritesFor(At(s, step.p), id)
    ensures forall h :: h in s.repo.chunks ==>
              h in Apply(setting, s, step).repo.chunks && Apply(setting, s, step).repo.chunks[h] == s.repo.chunks[h]
  {
    hide Occur, AllPieces, TextFor, HashHex, AllScanned, Referenced, NobodyLocks, NobodyWrites, PrintSnapshot, SafeName,
         Recordable, FromHeader, ListedNames, AllListed, PieceOf, Bare;
  }
}
