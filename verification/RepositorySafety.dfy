/** Whatever the interleaving and wherever a process stops: when does every published snapshot have its chunks? */
module RepositorySafety {
  import opened Bytes
  import opened Chunker
  import opened ChunkStore
  import opened Hashing
  import opened Manifest
  import opened ManifestText
  import opened Path
  import opened Pipeline
  import opened Repository
  import opened Restore
  import opened SnapshotText
  import opened Wrappers

  // ---- The invariant ----

  /** Referential integrity: a name with a snapshot and a manifest has every non-empty chunk stored. */
  ghost predicate Integrity(repo: Repo) {
    forall n :: n in repo.snapshots && n in repo.manifests ==> Covered(repo.chunks, repo.manifests[n])
  }

  /** A writer is alone. */
  ghost predicate LockHeld(s: World) {
    forall p, q :: p in s.procs && q in s.procs && p != q && Exclusive(s.procs[p]) ==> s.procs[q].Idle?
  }

  /** The first `done` pieces are stored. */
  ghost predicate HasPieces(repo: Repo, sources: seq<Source>, done: nat)
    requires AllScanned(sources)
  {
    done <= |AllPieces(sources)| && forall i :: 0 <= i < done ==> HashHex(AllPieces(sources)[i]) in repo.chunks
  }

  /** The pieces are stored and there is a `.snapshot`. */
  ghost predicate Scheduled(setting: Setting, repo: Repo, job: Job) {
    && Recordable(job.info) && Occur(setting, job.sources)
    && HasPieces(repo, job.sources, |AllPieces(job.sources)|) && job.FileName() in repo.snapshots
  }

  /** What a process has achieved so far. */
  ghost predicate Progress(setting: Setting, repo: Repo, q: Proc) {
    match q
    case Putting(job, done) => Recordable(job.info) && Occur(setting, job.sources) && HasPieces(repo, job.sources, done)
    case Created(job) => Scheduled(setting, repo, job)
    case Updated(job) => Scheduled(setting, repo, job)
    case Announced(name) => name in repo.snapshots
    case _ => true
  }

  /** Every blob lies under the hash of the bytes it was made from. */
  ghost predicate TrueNames(setting: Setting, repo: Repo) {
    forall h :: h in repo.chunks ==>
      repo.chunks[h].Valid() && HashHex(repo.chunks[h].data) == h && repo.chunks[h].data in setting.universe
  }

  /** Manifests say what was scanned. */
  ghost predicate TrueManifests(setting: Setting, s: World) {
    forall n :: n in s.repo.manifests ==>
      n in s.sources && Occur(setting, s.sources[n]) && s.repo.manifests[n] == TextFor(s.sources[n])
  }

  /** What holds in every reachable state, whole snapshots or not. */
  ghost predicate Inv(setting: Setting, s: World) {
    && LockHeld(s)
    && (forall p :: p in s.procs ==> Progress(setting, s.repo, s.procs[p]))
    && TrueNames(setting, s.repo)
    && TrueManifests(setting, s)
  }

  // ---- Manifests of scanned files ----

  lemma {:induction false} PiecesFound(data: seq<byte>, chunks: seq<Chunk>, c: Chunk)
    requires forall d :: d in chunks ==> d.offset + d.size <= |data|
    requires c in chunks && c.size != 0
    ensures BytesOf(data, c) in PiecesOf(data, chunks)
  {
    if chunks[0] != c { PiecesFound(data, chunks[1..], c); }
  }

  lemma {:induction false} SourceFound(sources: seq<Source>, i: nat, d: seq<byte>)
    requires AllScanned(sources) && i < |sources| && d in SourcePieces(sources[i])
    ensures d in AllPieces(sources)
  {
    hide SourcePieces, Scanned;
    if i > 0 { SourceFound(sources[1..], i - 1, d); }
  }

  lemma ListingIs(sources: seq<Source>)
    requires AllScanned(sources)
    ensures ListingFor(sources).files == FilesFor(sources) && Totalled(ListingFor(sources))
  {
    hide Scanned, AllScanned, FileFor, FilesFor, AppendedAll, SumSizes, SumChunks;
    var files := FilesFor(sources);
    AppendedAllFiles(EMPTY, files);
    AppendedAllTotals(EMPTY, files);
    assert [] + files == files;
  }

  /** What the manifest takes prints well: the engine's paths are whole and every number fits its type. */
  lemma ScannedIsPrintable(s: Source)
    requires Scanned(s)
    ensures Printable(FileFor(s)) && FileFor(s).path == s.path
  {
    hide HashHex, IsHex, Components;
    SlicesAreChunks(s.data, DEFAULT_CHUNK_SIZE);
    SlicesFromAdjacent(s.data, DEFAULT_CHUNK_SIZE, 0);
    hide SlicesFrom, Adjacent;
  }

  lemma FilesArePrintable(sources: seq<Source>)
    requires AllScanned(sources)
    ensures forall f :: f in FilesFor(sources) ==> Printable(f)
    ensures (forall f :: f in FilesFor(sources) ==> FitsLine(f)) <==> AllFit(sources)
    ensures forall i :: 0 <= i < |sources| ==> FilesFor(sources)[i].path == sources[i].path
  {
    hide Printable, FitsLine, FileFor, Scanned;
    forall i | 0 <= i < |sources| ensures Printable(FilesFor(sources)[i]) && FilesFor(sources)[i].path == sources[i].path {
      ScannedIsPrintable(sources[i]);
    }
    assert forall i :: 0 <= i < |sources| ==> FilesFor(sources)[i] in FilesFor(sources);
  }

  /** The loader reads back exactly the scanned files when, and only when, they all fit their lines. */
  lemma TextLoads(sources: seq<Source>)
    requires AllScanned(sources)
    ensures Loaded(TextFor(sources)) == Some(ListingFor(sources)) <==> AllFit(sources)
    ensures ListingFor(sources).files == FilesFor(sources)
  {
    hide Print, Loaded, Printable, FitsLine, Scanned, AllScanned, FileFor, FilesFor, ListingFor, Totalled, AllFit;
    FilesArePrintable(sources);
    ListingIs(sources);
    PrintedLoads(ListingFor(sources));
  }

  /** One of the visits of the chunker to the bytes of a file, in pieces of 1 MiB, has this name. */
  ghost predicate HasPiece(s: Source, hash: Hash)
    requires |s.data| < TWO_64
  {
    exists c :: c in ChunksOfData(s.data, 1048576) && c.hash == hash
  }

  lemma HasPieceIff(s: Source, hash: Hash)
    requires Scanned(s)
    ensures HasPiece(s, hash) <==> exists c :: c in FileFor(s).chunks && c.hash == hash
  {
    hide ChunksOfData, Accepts;
  }

  /** So what the collector finds mentioned in it are the names of the pieces of its files. */
  lemma MentionedArePieces(sources: seq<Source>, h: Hash)
    requires AllScanned(sources) && AllFit(sources)
    ensures Mentions(TextFor(sources), h) <==> exists k :: 0 <= k < |sources| && HasPiece(sources[k], h)
  {
    TextLoads(sources);
    hide Loaded, TextFor, ListingFor, Scanned, AllFit, HasPiece, FileFor;
    var files := FilesFor(sources);
    if Mentions(TextFor(sources), h) {
      var f, c :| f in files && c in f.chunks && c.hash == h;
      var k :| 0 <= k < |sources| && files[k] == f;
      HasPieceIff(sources[k], h);
    }
    if k :| 0 <= k < |sources| && HasPiece(sources[k], h) {
      HasPieceIff(sources[k], h);
      assert files[k] in files;
    }
  }

  predicate TabFree(sources: seq<Source>) { forall i :: 0 <= i < |sources| ==> '\t' !in sources[i].path }

  /** Without tabs in the paths the published text loads to the scanned files or not at all. */
  lemma TabFreeText(sources: seq<Source>)
    requires AllScanned(sources) && TabFree(sources)
    ensures Loaded(TextFor(sources)) == if AllFit(sources) then Some(ListingFor(sources)) else None
  {
    hide Print, Loaded, Printable, FitsLine, Scanned, AllScanned, FileFor, FilesFor, ListingFor, Totalled, AllFit;
    FilesArePrintable(sources);
    ListingIs(sources);
    forall f | f in ListingFor(sources).files ensures '\t' !in f.path {
      var i :| 0 <= i < |sources| && FilesFor(sources)[i] == f;
    }
    TabFreeLoads(ListingFor(sources));
  }

  /** A chunk entry of a scanned file. */
  lemma EntryIsPiece(s: Source, c: Chunk)
    requires Scanned(s) && c in FileFor(s).chunks
    ensures c.offset + c.size <= |s.data| && c.hash == HashHex(BytesOf(s.data, c))
    ensures c.size != 0 ==> BytesOf(s.data, c) in SourcePieces(s)
  {
    hide HashHex, ChunksOfData, PiecesOf;
    ChunkSizes(s.data, DEFAULT_CHUNK_SIZE);
    if c.size != 0 { PiecesFound(s.data, ChunksOfData(s.data, DEFAULT_CHUNK_SIZE), c); }
  }

  /** Without tabs in the paths a backup's manifest needs only what the backup stores. */
  lemma NeedsArePieces(sources: seq<Source>, h: Hash)
    requires AllScanned(sources) && TabFree(sources) && Needs(TextFor(sources), h)
    ensures exists i :: 0 <= i < |AllPieces(sources)| && HashHex(AllPieces(sources)[i]) == h
  {
    TextLoads(sources);
    TabFreeText(sources);
    hide HashHex, Loaded, TextFor, ListingFor, Scanned, AllPieces, SourcePieces, TabFree, AllFit;
    var f, c :| f in Loaded(TextFor(sources)).value.files && c in f.chunks && c.hash == h && c.size != 0;
    var k :| 0 <= k < |sources| && FileFor(sources[k]) == f;
    assert Scanned(sources[k]);
    EntryIsPiece(sources[k], c);
    SourceFound(sources, k, BytesOf(sources[k].data, c));
  }

  // ---- Every step keeps the invariant ----

  lemma LockKept(setting: Setting, s: World, step: Step)
    requires Inv(setting, s) && Enabled(setting, s, step)
    ensures LockHeld(Apply(setting, s, step))
  {
    hide AllPieces, TextFor, Integrity, Progress, TrueNames, TrueManifests, HashHex, AllScanned, Referenced, PrintSnapshot, SafeName, Recordable, FromHeader, ListedNames,
         AllListed;
  }

  /** A process that writes has no company. */
  lemma OthersIdle(s: World, p: Pid)
    requires LockHeld(s) && p in s.procs && Exclusive(s.procs[p])
    ensures forall q :: q in s.procs && q != p ==> s.procs[q].Idle?
  {
  }

  lemma NamesKept(setting: Setting, s: World, step: Step)
    requires Inv(setting, s) && Enabled(setting, s, step)
    ensures TrueNames(setting, Apply(setting, s, step).repo)
  {
    hide TextFor, Integrity, LockHeld, TrueManifests, HashHex, Referenced, PrintSnapshot, SafeName, Recordable, FromHeader, ListedNames,
         AllListed;
    if step.PutChunk? {
      var q := At(s, step.p);
      assert Progress(setting, s.repo, q);
      var piece := AllPieces(q.job.sources)[q.done];
      assert piece in AllPieces(q.job.sources);
      PiecesAreSmall(q.job.sources);
    }
  }

  lemma {:induction false} PiecesAreSmall(sources: seq<Source>)
    requires AllScanned(sources)
    ensures forall d :: d in AllPieces(sources) ==> 0 < |d| <= CHUNK_MAX
  {
    hide Accepts, SourcePieces;
    if sources != [] {
      forall d | d in SourcePieces(sources[0]) ensures 0 < |d| <= CHUNK_MAX { SourcePieceSize(sources[0], d); }
      PiecesAreSmall(sources[1..]);
    }
  }

  lemma SourcePieceSize(s: Source, d: seq<byte>)
    requires Scanned(s) && d in SourcePieces(s)
    ensures 0 < |d| <= CHUNK_MAX
  {
    hide HashHex, PiecesOf, ChunksOfData;
    ChunkSizes(s.data, DEFAULT_CHUNK_SIZE);
    ChunksAreSmall(s.data);
    PieceOfChunk(s.data, ChunksOfData(s.data, DEFAULT_CHUNK_SIZE), d);
  }

  lemma ChunksAreSmall(data: seq<byte>)
    requires |data| < TWO_64
    ensures forall c :: c in ChunksOfData(data, DEFAULT_CHUNK_SIZE) ==> c.size <= DEFAULT_CHUNK_SIZE
  {
    hide HashHex, Slices;
    SlicesCover(data, DEFAULT_CHUNK_SIZE);
    SlicesAreChunks(data, DEFAULT_CHUNK_SIZE);
  }

  lemma {:induction false} PieceOfChunk(data: seq<byte>, chunks: seq<Chunk>, d: seq<byte>)
    requires forall c :: c in chunks ==> c.offset + c.size <= |data|
    requires d in PiecesOf(data, chunks)
    ensures exists c :: c in chunks && c.size != 0 && d == BytesOf(data, c)
  {
    if chunks[0].size != 0 && d == BytesOf(data, chunks[0]) {
      assert chunks[0] in chunks;
    } else {
      PieceOfChunk(data, chunks[1..], d);
    }
  }

  lemma ManifestsKept(setting: Setting, s: World, step: Step)
    requires Inv(setting, s) && Enabled(setting, s, step)
    ensures TrueManifests(setting, Apply(setting, s, step))
  {
    hide AllPieces, TextFor, LockHeld, TrueNames, HashHex, AllScanned, Referenced, HasPieces, NobodyLocks, NobodyWrites, Occur, PrintSnapshot, SafeName, Recordable, FromHeader, ListedNames,
         AllListed;
    if step.PublishManifest? {
      assert Progress(setting, s.repo, At(s, step.p));
    }
  }

  lemma ProgressKept(setting: Setting, s: World, step: Step, p: Pid)
    requires Inv(setting, s) && Enabled(setting, s, step)
    requires p in Apply(setting, s, step).procs
    ensures var t := Apply(setting, s, step); Progress(setting, t.repo, t.procs[p])
  {
    hide AllPieces, TextFor, Integrity, TrueNames, TrueManifests, HashHex, AllScanned, Referenced, PrintSnapshot, SafeName, Recordable, FromHeader, ListedNames,
         AllListed;
    if p == step.p {
      assert p in s.procs ==> Progress(setting, s.repo, s.procs[p]);
    } else if step.p in s.procs && Exclusive(s.procs[step.p]) {
      OthersIdle(s, step.p);
    } else {
      assert Progress(setting, s.repo, s.procs[p]);
    }
  }

  lemma StepKeepsInv(setting: Setting, s: World, step: Step)
    requires Inv(setting, s) && Enabled(setting, s, step)
    ensures Inv(setting, Apply(setting, s, step))
  {
    LockKept(setting, s, step);
    NamesKept(setting, s, step);
    ManifestsKept(setting, s, step);
    var t := Apply(setting, s, step);
    forall p | p in t.procs ensures Progress(setting, t.repo, t.procs[p]) { ProgressKept(setting, s, step, p); }
    hide Apply, LockHeld, Progress, TrueNames, TrueManifests;
  }

  lemma {:induction false} RunKeepsInv(setting: Setting, s: World, steps: seq<Step>, t: World)
    requires Inv(setting, s) && Executes(setting, s, steps, t)
    ensures Inv(setting, t)
    decreases |steps|
  {
    hide Inv, Enabled, Apply;
    if steps != [] {
      StepKeepsInv(setting, s, steps[0]);
      RunKeepsInv(setting, Apply(setting, s, steps[0]), steps[1..], t);
    }
  }

  lemma InitialInv(setting: Setting)
    ensures Inv(setting, INITIAL) && Integrity(INITIAL.repo)
  {
  }

  /** Every reachable state: writers are alone, blobs lie under their names and manifests say what was scanned. */
  lemma ReachableIsSound(setting: Setting, s: World)
    requires Reachable(setting, s)
    ensures Inv(setting, s)
  {
    hide Executes, Inv;
    var steps :| Executes(setting, INITIAL, steps, s);
    InitialInv(setting);
    RunKeepsInv(setting, INITIAL, steps, s);
  }

  // ---- When snapshots stay whole ----

  /** A manifest beside a `.snapshot` needs the hash. */
  ghost predicate NeededBySome(repo: Repo, hash: Hash) {
    exists n :: n in repo.snapshots && n in repo.manifests && Needs(repo.manifests[n], hash)
  }

  /** Removing a chunk is safe exactly when no manifest beside a `.snapshot` needs it. */
  lemma RemoveKeepsIntegrityIff(repo: Repo, hash: Hash)
    requires Integrity(repo)
    ensures Integrity(repo.(chunks := repo.chunks - {hash})) <==> !NeededBySome(repo, hash)
  {
    hide Needs;
    var swept := repo.(chunks := repo.chunks - {hash});
    if NeededBySome(repo, hash) {
      var n :| n in repo.snapshots && n in repo.manifests && Needs(repo.manifests[n], hash);
      assert !Covered(swept.chunks, swept.manifests[n]);
    } else {
      forall n | n in swept.snapshots && n in swept.manifests ensures Covered(swept.chunks, swept.manifests[n]) {
        assert Covered(repo.chunks, repo.manifests[n]);
      }
    }
  }

  /** A collector that knows every `.snapshot` and can open every manifest beside one removes no chunk that is needed. */
  lemma UnmentionedIsUnneeded(repo: Repo, names: set<Name>, hash: Hash)
    requires repo.snapshots.Keys * repo.manifests.Keys <= names && !Referenced(repo, names, hash)
    ensures !NeededBySome(repo, hash)
  {
    hide Loaded;
    forall n | n in repo.snapshots && n in repo.manifests ensures !Needs(repo.manifests[n], hash) {
      assert !Mentions(repo.manifests[n], hash);
    }
  }

  /** Publishing a manifest beside its `.snapshot` is safe exactly when everything it needs is stored. */
  lemma PublishKeepsIntegrityIff(repo: Repo, name: Name, text: string)
    requires Integrity(repo) && name in repo.snapshots
    ensures Integrity(repo.(manifests := repo.manifests[name := text])) <==> Covered(repo.chunks, text)
  {
    hide Covered;
    var grown := repo.(manifests := repo.manifests[name := text]);
    assert Integrity(grown) ==> Covered(grown.chunks, grown.manifests[name]);
  }

  /** A `.snapshot` beside an old manifest of the same name is safe exactly when that manifest's chunks are still there. */
  lemma CreateKeepsIntegrityIff(repo: Repo, name: Name, text: string)
    requires Integrity(repo)
    ensures Integrity(repo.(snapshots := repo.snapshots[name := text])) <==> LeftoverCovered(repo, name)
  {
    hide Covered;
    var grown := repo.(snapshots := repo.snapshots[name := text]);
    if Integrity(grown) && name in repo.manifests {
      assert name in grown.snapshots && name in grown.manifests;
    }
  }

  /** The steps that can leave a snapshot incomplete are the first writes of a `.snapshot`, the writes of a manifest and the
      collector's removals. */
  ghost predicate Harmless(setting: Setting, s: World, step: Step)
    requires Enabled(setting, s, step)
  {
    match step
    case CreateSnapshot(p) => LeftoverCovered(s.repo, At(s, p).job.FileName())
    case ServeSnapshot(p, info) => LeftoverCovered(s.repo, SafeName(info.id))
    case PublishManifest(p) => Covered(s.repo.chunks, TextFor(At(s, p).job.sources))
    case ServeManifest(p, sources) => Covered(s.repo.chunks, TextFor(sources))
    case CollectChunk(p, hash, loads) => Referenced(s.repo, At(s, p).listed * loads, hash) || !NeededBySome(s.repo, hash)
    case _ => true
  }

  ghost predicate LeftoverCovered(repo: Repo, name: Name) {
    name in repo.manifests ==> Covered(repo.chunks, repo.manifests[name])
  }

  /** From a whole repository a step leads to a whole one exactly when it is harmless. */
  lemma StepIntegrityIff(setting: Setting, s: World, step: Step)
    requires Inv(setting, s) && Integrity(s.repo) && Enabled(setting, s, step)
    ensures Integrity(Apply(setting, s, step).repo) <==> Harmless(setting, s, step)
  {
    hide AllPieces, TextFor, LockHeld, TrueNames, TrueManifests, HashHex, AllScanned, Referenced, Needs, HasPieces,
         NobodyLocks, NobodyWrites, Integrity, Covered, NeededBySome, PrintSnapshot, SafeName, Recordable, FromHeader,
         ListedNames, AllListed;
    match step
    case PublishManifest(p) =>
      assert Progress(setting, s.repo, At(s, p));
      PublishKeepsIntegrityIff(s.repo, At(s, p).job.FileName(), TextFor(At(s, p).job.sources));
    case ServeManifest(p, sources) =>
      assert Progress(setting, s.repo, At(s, p));
      PublishKeepsIntegrityIff(s.repo, At(s, p).name, TextFor(sources));
    case CollectChunk(p, hash, loads) =>
      if !Referenced(s.repo, At(s, p).listed * loads, hash) { RemoveKeepsIntegrityIff(s.repo, hash); }
    case CreateSnapshot(p) =>
      CreateKeepsIntegrityIff(s.repo, At(s, p).job.FileName(), PrintSnapshot(Bare(At(s, p).job.info)));
    case UpdateSnapshot(p) =>
      assert Progress(setting, s.repo, At(s, p));
      RewriteKeepsIntegrity(s.repo, At(s, p).job.FileName(), PrintSnapshot(At(s, p).job.info));
    case ServeSnapshot(p, info) =>
      CreateKeepsIntegrityIff(s.repo, SafeName(info.id), PrintSnapshot(info));
    case PutChunk(p, seed) =>
      MoreChunksKeepIntegrity(s.repo, Stored(s.repo.chunks, PieceOf(At(s, p), seed)));
    case ServeChunk(p, cell) =>
      MoreChunksKeepIntegrity(s.repo, s.repo.chunks[HashHex(cell.data) := cell]);
    case DeleteSnapshot(p) =>
      FewerFilesKeepIntegrity(s.repo, {SafeName(At(s, p).todo[0])}, {});
    case WithdrawSnapshot(p) =>
      FewerFilesKeepIntegrity(s.repo, {At(s, p).name}, {});
    case DeleteManifest(p) =>
      FewerFilesKeepIntegrity(s.repo, {}, {At(s, p).name});
    case _ =>
  }

  lemma RewriteKeepsIntegrity(repo: Repo, name: Name, text: string)
    requires Integrity(repo) && name in repo.snapshots
    ensures Integrity(repo.(snapshots := repo.snapshots[name := text]))
  {
    hide Covered;
  }

  lemma MoreChunksKeepIntegrity(repo: Repo, chunks: map<Hash, Cell>)
    requires Integrity(repo) && repo.chunks.Keys <= chunks.Keys
    ensures Integrity(repo.(chunks := chunks))
  {
    hide Needs;
  }

  lemma FewerFilesKeepIntegrity(repo: Repo, snapshots: set<Name>, manifests: set<Name>)
    requires Integrity(repo)
    ensures Integrity(repo.(snapshots := repo.snapshots - snapshots)) && Integrity(repo.(manifests := repo.manifests - manifests))
  {
    hide Covered;
  }

  /** Every state of the run is whole. */
  ghost predicate StaysIntact(setting: Setting, s: World, steps: seq<Step>, t: World)
    requires Executes(setting, s, steps, t)
    decreases |steps|
  {
    Integrity(s.repo) && (steps != [] ==> StaysIntact(setting, Apply(setting, s, steps[0]), steps[1..], t))
  }

  /** Every step of the run is harmless where it is taken. */
  ghost predicate AllHarmless(setting: Setting, s: World, steps: seq<Step>, t: World)
    requires Executes(setting, s, steps, t)
    decreases |steps|
  {
    steps != [] ==> Harmless(setting, s, steps[0]) && AllHarmless(setting, Apply(setting, s, steps[0]), steps[1..], t)
  }

  lemma {:induction false} RunIntactIff(setting: Setting, s: World, steps: seq<Step>, t: World)
    requires Inv(setting, s) && Integrity(s.repo) && Executes(setting, s, steps, t)
    ensures StaysIntact(setting, s, steps, t) <==> AllHarmless(setting, s, steps, t)
    ensures AllHarmless(setting, s, steps, t) ==> Integrity(t.repo)
    decreases |steps|
  {
    hide Inv, Enabled, Apply, Integrity, Harmless;
    if steps != [] {
      StepKeepsInv(setting, s, steps[0]);
      StepIntegrityIff(setting, s, steps[0]);
      var next := Apply(setting, s, steps[0]);
      if Integrity(next.repo) {
        RunIntactIff(setting, next, steps[1..], t);
      } else {
        assert Executes(setting, next, steps[1..], t);
        NotIntactAtOnce(setting, next, steps[1..], t);
      }
    }
  }

  lemma NotIntactAtOnce(setting: Setting, s: World, steps: seq<Step>, t: World)
    requires Executes(setting, s, steps, t) && !Integrity(s.repo)
    ensures !StaysIntact(setting, s, steps, t)
  {
    hide Integrity, Executes;
  }

  /** Referential integrity over whole runs: from the empty repository every state of a run is whole if and only if no
      step of it writes a `.snapshot` or a manifest before the chunks that the two together need, or removes a needed chunk
      that no manifest on the collector's list mentions. */
  lemma IntactIffHarmless(setting: Setting, steps: seq<Step>, t: World)
    requires Executes(setting, INITIAL, steps, t)
    ensures StaysIntact(setting, INITIAL, steps, t) <==> AllHarmless(setting, INITIAL, steps, t)
    ensures AllHarmless(setting, INITIAL, steps, t) ==> Integrity(t.repo)
  {
    hide Executes, Inv, Integrity, StaysIntact, AllHarmless;
    InitialInv(setting);
    RunIntactIff(setting, INITIAL, steps, t);
  }

  // ---- Careful runs ----

  /** What keeps a run whole, as its processes could find out beforehand: a name that has a `.snapshot` already or no manifest
      yet, a label and a source path under which the `.snapshot` leads back to itself, paths without tabs, for a manifest
      that a server receives the chunks before it, and for a collection that all files can be opened. */
  ghost predicate Careful(setting: Setting, s: World, step: Step)
    requires Enabled(setting, s, step)
  {
    match step
    case CreateSnapshot(p) => NewOrListed(s.repo, At(s, p).job.FileName()) && LeadsBack(At(s, p).job.info)
    case UpdateSnapshot(p) => LeadsBack(At(s, p).job.info)
    case ServeSnapshot(p, info) => NewOrListed(s.repo, SafeName(info.id)) && LeadsBack(info)
    case PublishManifest(p) => TabFree(At(s, p).job.sources)
    case ServeManifest(p, sources) => TabFree(sources) && HasPieces(s.repo, sources, |AllPieces(sources)|)
    case BeginCollect(p, opens) => s.repo.snapshots.Keys <= opens
    case CollectChunk(p, hash, loads) => s.repo.manifests.Keys <= loads
    case _ => true
  }

  predicate NewOrListed(repo: Repo, name: Name) { name in repo.snapshots || name !in repo.manifests }

  /** Every `.snapshot` leads back to itself, and a collector has them all on its list. */
  ghost predicate Tidy(s: World) {
    && AllListThemselves(s.repo.snapshots)
    && forall p :: p in s.procs && s.procs[p].Collecting? ==> s.repo.snapshots.Keys <= s.procs[p].listed
  }

  lemma InitialTidy()
    ensures Tidy(INITIAL)
  {
  }

  lemma CarefulKeepsTidy(setting: Setting, s: World, step: Step)
    requires Inv(setting, s) && Tidy(s) && Enabled(setting, s, step) && Careful(setting, s, step)
    ensures Tidy(Apply(setting, s, step))
  {
    CarefulFilesListThemselves(setting, s, step);
    CollectorsKnowAll(setting, s, step);
    hide Inv, Enabled, Apply, Careful, AllListThemselves;
  }

  lemma CarefulFilesListThemselves(setting: Setting, s: World, step: Step)
    requires Inv(setting, s) && Tidy(s) && Enabled(setting, s, step) && Careful(setting, s, step)
    ensures AllListThemselves(Apply(setting, s, step).repo.snapshots)
  {
    hide AllPieces, TextFor, LockHeld, TrueNames, TrueManifests, HashHex, AllScanned, Referenced, HasPieces, TabFree, Occur,
         NobodyLocks, NobodyWrites, Covered, Recordable, PrintSnapshot, ListsItself, LeadsBack, SafeName, ListedNames, AllListed;
    match step
    case CreateSnapshot(p) =>
      assert Progress(setting, s.repo, At(s, p));
      BareLeadsBack(At(s, p).job.info);
      ListsItselfIff(Bare(At(s, p).job.info));
    case UpdateSnapshot(p) =>
      assert Progress(setting, s.repo, At(s, p));
      ListsItselfIff(At(s, p).job.info);
    case ServeSnapshot(p, info) =>
      ListsItselfIff(info);
    case _ =>
  }

  lemma BareLeadsBack(info: Snapshot)
    requires Recordable(info)
    ensures Recordable(Bare(info)) && (LeadsBack(Bare(info)) <==> LeadsBack(info)) && SafeName(Bare(info).id) == SafeName(info.id)
  {
    hide IdsIn, SafeName, Visible;
    assert SourceLine(Bare(info)) == SourceLine(info) && MarkLine(Bare(info)) == MarkLine(info);
  }

  lemma CollectorsKnowAll(setting: Setting, s: World, step: Step)
    requires Inv(setting, s) && Tidy(s) && Enabled(setting, s, step) && Careful(setting, s, step)
    ensures var t := Apply(setting, s, step);
            forall p :: p in t.procs && t.procs[p].Collecting? ==> t.repo.snapshots.Keys <= t.procs[p].listed
  {
    hide AllListThemselves, AllListed, AllPieces, AllScanned, Covered, HasPieces, HashHex, LeadsBack, ListedNames,
         NobodyWrites, Occur, PrintSnapshot, Progress, Recordable, Referenced, SafeName, TabFree, TextFor,
         TrueManifests, TrueNames, FromHeader, Stored, PieceOf, ListsItself;
    var t := Apply(setting, s, step);
    forall p | p in t.procs && t.procs[p].Collecting? ensures t.repo.snapshots.Keys <= t.procs[p].listed {
      if p != step.p && p in s.procs {
        OthersIdle(s, p);
      } else if step.BeginCollect? {
        ListsExactly(s.repo.snapshots, step.opens);
      }
    }
  }

  lemma CarefulIsHarmless(setting: Setting, s: World, step: Step)
    requires Inv(setting, s) && Tidy(s) && Integrity(s.repo) && Enabled(setting, s, step) && Careful(setting, s, step)
    ensures Harmless(setting, s, step)
  {
    hide AllPieces, TextFor, LockHeld, TrueNames, TrueManifests, HashHex, AllScanned, Referenced, HasPieces, TabFree,
         NobodyLocks, NobodyWrites, Covered, NeededBySome, Recordable, LeadsBack, SafeName, AllListThemselves, ListedNames,
         AllListed;
    match step
    case PublishManifest(p) =>
      assert Progress(setting, s.repo, At(s, p));
      StoredIsCovered(s.repo, At(s, p).job.sources);
    case ServeManifest(p, sources) =>
      StoredIsCovered(s.repo, sources);
    case CollectChunk(p, hash, loads) =>
      if !Referenced(s.repo, At(s, p).listed * loads, hash) { UnmentionedIsUnneeded(s.repo, At(s, p).listed * loads, hash); }
    case _ =>
  }

  ghost predicate AllCareful(setting: Setting, s: World, steps: seq<Step>, t: World)
    requires Executes(setting, s, steps, t)
    decreases |steps|
  {
    steps != [] ==> Careful(setting, s, steps[0]) && AllCareful(setting, Apply(setting, s, steps[0]), steps[1..], t)
  }

  /** A run of careful steps is whole in every state, and every `.snapshot` is listed under its own name in the end. */
  lemma {:induction false} CarefulRunIntact(setting: Setting, s: World, steps: seq<Step>, t: World)
    requires Inv(setting, s) && Tidy(s) && Integrity(s.repo) && Executes(setting, s, steps, t) && AllCareful(setting, s, steps, t)
    ensures StaysIntact(setting, s, steps, t) && Tidy(t)
    decreases |steps|
  {
    hide Inv, Tidy, Enabled, Apply, Integrity, Harmless, Careful;
    if steps != [] {
      StepKeepsInv(setting, s, steps[0]);
      CarefulIsHarmless(setting, s, steps[0]);
      CarefulKeepsTidy(setting, s, steps[0]);
      StepIntegrityIff(setting, s, steps[0]);
      CarefulRunIntact(setting, Apply(setting, s, steps[0]), steps[1..], t);
    }
  }

  lemma StoredIsCovered(repo: Repo, sources: seq<Source>)
    requires AllScanned(sources) && TabFree(sources) && HasPieces(repo, sources, |AllPieces(sources)|)
    ensures Covered(repo.chunks, TextFor(sources))
  {
    hide AllScanned, AllPieces, TextFor, Needs, HashHex, TabFree;
    forall h | Needs(TextFor(sources), h) ensures h in repo.chunks { NeedsArePieces(sources, h); }
  }

  /** While a reader holds the lock no step changes the repository. */
  lemma ReadersSeeNoChange(setting: Setting, s: World, step: Step, reader: Pid)
    requires Reachable(setting, s) && Enabled(setting, s, step) && At(s, reader).Reading?
    ensures Apply(setting, s, step).repo == s.repo
    ensures step.p != reader ==> At(Apply(setting, s, step), reader).Reading?
  {
    ReachableIsSound(setting, s);
    assert LockHeld(s);
    NoWriterBesideReader(s, reader);
    hide Inv, Reachable;
    OnlyReadersStep(setting, s, step, reader);
  }

  lemma OnlyReadersStep(setting: Setting, s: World, step: Step, reader: Pid)
    requires NobodyWrites(s) && !NobodyLocks(s) && Enabled(setting, s, step) && At(s, reader).Reading?
    ensures Apply(setting, s, step).repo == s.repo
    ensures step.p != reader ==> At(Apply(setting, s, step), reader).Reading?
  {
    hide AllPieces, TextFor, HashHex, AllScanned, Referenced, PrintSnapshot, SafeName, Recordable, FromHeader, ListedNames,
         AllListed;
    assert !Exclusive(At(s, step.p));
    hide NobodyWrites, NobodyLocks;
  }

  lemma NoWriterBesideReader(s: World, reader: Pid)
    requires LockHeld(s) && At(s, reader).Reading?
    ensures NobodyWrites(s) && !NobodyLocks(s)
  {
  }
}
