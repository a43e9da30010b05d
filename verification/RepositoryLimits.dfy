/** Where referential integrity ends: runs from the empty repository to an incomplete snapshot. One finds an old manifest
    under its name, one has a label or a source path that takes it off the collector's list, one records a path that its own
    manifest line breaks, and one is a sync session that stops half way.
    Line numbers are those of src/core/engine.c. */
module RepositoryLimits {
  import opened Bytes
  import opened Chunker
  import opened Hashing
  import opened Manifest
  import opened ManifestText
  import opened Path
  import opened Pipeline
  import opened Repository
  import opened RepositoryRoundTrip
  import opened RepositorySafety
  import opened Restore
  import opened SnapshotText
  import opened Text
  import opened Wrappers

  const ALONE: Pid := 0

  /** A world with one process. */
  function Alone(repo: Repo, q: Proc, sources: map<Name, seq<Source>>): World { World(repo, map[ALONE := q], sources) }

  /** One more step in front of a run of that process. */
  lemma StepThen(setting: Setting, repo: Repo, q: Proc, was: map<Name, seq<Source>>, step: Step,
                 next: World, rest: seq<Step>, end: World) returns (steps: seq<Step>)
    requires Enabled(setting, Alone(repo, q, was), step) && Executes(setting, next, rest, end)
    requires var t := Apply(setting, Alone(repo, q, was), step);
             t.repo == next.repo && t.sources == next.sources && t.procs == next.procs
    ensures Executes(setting, Alone(repo, q, was), steps, end)
  {
    hide Enabled, Apply;
    steps := [step] + rest;
    assert steps[0] == step && steps[1..] == rest;
  }

  /** A small file is one chunk, and its manifest needs it. */
  lemma OneChunk(source: Source)
    requires Scanned(source) && FitsLine(FileFor(source)) && 0 < |source.data| <= DEFAULT_CHUNK_SIZE
    ensures AllScanned([source]) && AllPieces([source]) == [source.data]
    ensures Needs(TextFor([source]), HashHex(source.data))
  {
    hide HashHex, TextFor, Accepts, FitsLine, ChunksOfData, Needs;
    var c := Chunk(0, |source.data|, HashHex(source.data));
    SingleSlice(source.data);
    assert FileFor(source).chunks == [c];
    OnePiece(source, c);
    EntryIsNeeded([source], 0, c);
  }

  lemma OnePiece(source: Source, c: Chunk)
    requires Scanned(source) && source.data != [] && c.offset == 0 && c.size == |source.data|
    requires ChunksOfData(source.data, DEFAULT_CHUNK_SIZE) == [c]
    ensures AllPieces([source]) == [source.data]
  {
    hide HashHex, Accepts, ChunksOfData;
    assert BytesOf(source.data, c) == source.data;
    var chunks, sources := [c], [source];
    assert chunks[1..] == [] && sources[1..] == [];
    assert PiecesOf(source.data, chunks) == [source.data];
  }

  lemma SingleSlice(data: seq<byte>)
    requires 0 < |data| <= DEFAULT_CHUNK_SIZE
    ensures ChunksOfData(data, DEFAULT_CHUNK_SIZE) == [Chunk(0, |data|, HashHex(data))]
  {
    hide HashHex;
    SlicesStep(data, DEFAULT_CHUNK_SIZE, 0);
    SlicesStep(data, DEFAULT_CHUNK_SIZE, |data|);
    assert data[0..|data|] == data;
  }

  lemma Moved(q: Proc, r: Proc)
    ensures map[ALONE := q][ALONE := r] == map[ALONE := r]
  {
  }

  lemma ExecutesNothing(setting: Setting, s: World)
    ensures Executes(setting, s, [], s)
  {
  }

  const NO_FILES := Repo(map[], map[], map[])

  /** A repository with one `.snapshot` and one manifest. */
  function OneSnapshot(chunks: map<Hash, Cell>, s: Snapshot, sources: seq<Source>): Repo
    requires AllScanned(sources)
  {
    Repo(chunks, map[SafeName(s.id) := PrintSnapshot(s)], map[SafeName(s.id) := TextFor(sources)])
  }

  /** The end of a backup by a process that has the repository to itself, from the first write of the `.snapshot` on. */
  lemma FinishRun(setting: Setting, chunks: map<Hash, Cell>, job: Job, rest: seq<Step>, end: World) returns (steps: seq<Step>)
    requires AllScanned(job.sources) && Recordable(job.info)
    requires Executes(setting, Alone(OneSnapshot(chunks, job.info, job.sources), Idle, map[job.FileName() := job.sources]), rest, end)
    ensures Executes(setting, Alone(Repo(chunks, map[job.FileName() := PrintSnapshot(Bare(job.info))], map[]), Created(job), map[]),
                     steps, end)
  {
    hide AllPieces, AllScanned, Executes, PrintSnapshot, Recordable, SafeName, TextFor, FromHeader, HashHex, Stored,
         NobodyWrites, ListedNames, AllListed, Referenced;
    var name, none := job.FileName(), map[];
    var was := map[name := job.sources];
    var full := OneSnapshot(chunks, job.info, job.sources);
    var bare, written := map[name := PrintSnapshot(Bare(job.info))], map[name := PrintSnapshot(job.info)];
    assert bare[name := PrintSnapshot(job.info)] == written;
    Moved(Published, Idle);
    steps := StepThen(setting, full, Published, was, Stop(ALONE), Alone(full, Idle, was), rest, end);
    Moved(Updated(job), Published);
    steps := StepThen(setting, Repo(chunks, written, map[]), Updated(job), none, PublishManifest(ALONE), Alone(full, Published, was),
                      steps, end);
    Moved(Created(job), Updated(job));
    steps := StepThen(setting, Repo(chunks, bare, map[]), Created(job), none, UpdateSnapshot(ALONE),
                      Alone(Repo(chunks, written, map[]), Updated(job), none), steps, end);
  }

  lemma BackupRun(setting: Setting, source: Source, info: Snapshot, seed: Seed, rest: seq<Step>, end: World) returns (steps: seq<Step>)
    requires AllScanned([source]) && AllPieces([source]) == [source.data] && source.data in setting.universe && seed.Valid()
    requires Recordable(info)
    requires var chunks := map[HashHex(source.data) := Cell(source.data, true, [], seed)];
             Executes(setting, Alone(OneSnapshot(chunks, info, [source]), Idle, map[SafeName(info.id) := [source]]), rest, end)
    ensures Executes(setting, Alone(NO_FILES, Idle, map[]), steps, end)
  {
    hide AllPieces, AllScanned, Executes, HashHex, OneSnapshot, PrintSnapshot, Recordable, SafeName, TextFor,
         FromHeader, NobodyWrites, ListedNames, AllListed, Referenced;
    var job, chunks := Job(info, [source], true, []), map[HashHex(source.data) := Cell(source.data, true, [], seed)];
    var none: map<Name, seq<Source>> := map[];
    var created, put := Repo(chunks, map[job.FileName() := PrintSnapshot(Bare(info))], map[]), Repo(chunks, map[], map[]);
    steps := FinishRun(setting, chunks, job, rest, end);
    Moved(Putting(job, 1), Created(job));
    steps := StepThen(setting, put, Putting(job, 1), none, CreateSnapshot(ALONE), Alone(created, Created(job), none), steps, end);
    Moved(Putting(job, 0), Putting(job, 1));
    steps := StepThen(setting, NO_FILES, Putting(job, 0), none, PutChunk(ALONE, seed), Alone(put, Putting(job, 1), none), steps, end);
    Moved(Idle, Putting(job, 0));
    steps := StepThen(setting, NO_FILES, Idle, none, BeginBackup(ALONE, job), Alone(NO_FILES, Putting(job, 0), none), steps, end);
  }

  /** A prune that stops between its two deletions. */
  lemma HalfPrune(setting: Setting, repo: Repo, name: Name, was: map<Name, seq<Source>>, rest: seq<Step>, end: World)
    returns (steps: seq<Step>)
    requires repo.snapshots.Keys == {name} && ListsItself(name, repo.snapshots[name])
    requires Executes(setting, Alone(repo.(snapshots := map[]), Idle, was), rest, end)
    ensures Executes(setting, Alone(repo, Idle, was), steps, end)
  {
    hide Executes, Read, Referenced, SafeName, Visible, FromHeader, Recordable, PrintSnapshot, TextFor, HashHex,
         AllPieces, Stored, NobodyWrites, PieceOf, ListedNames;
    var bare, todo := repo.(snapshots := map[]), [Read(repo.snapshots[name]).id];
    Moved(Unlisted(name, []), Idle);
    steps := StepThen(setting, bare, Unlisted(name, []), was, Stop(ALONE), Alone(bare, Idle, was), rest, end);
    assert todo[1..] == [] && repo.snapshots - {name} == map[];
    Moved(Pruning(todo), Unlisted(name, []));
    steps := StepThen(setting, repo, Pruning(todo), was, DeleteSnapshot(ALONE), Alone(bare, Unlisted(name, []), was), steps, end);
    Moved(Idle, Pruning(todo));
    assert AllListed(repo.snapshots, {name}, todo);
    steps := StepThen(setting, repo, Idle, was, BeginPrune(ALONE, {name}, todo), Alone(repo, Pruning(todo), was), steps, end);
  }

  /** A prune that finds nothing to delete but collects. */
  lemma Collection(setting: Setting, repo: Repo, opens: set<Name>, loads: set<Name>, h: Hash, was: map<Name, seq<Source>>,
                   rest: seq<Step>, end: World) returns (steps: seq<Step>)
    requires h in repo.chunks && !Referenced(repo, ListedNames(repo.snapshots, opens) * loads, h)
    requires Executes(setting, Alone(repo.(chunks := repo.chunks - {h}), Idle, was), rest, end)
    ensures Executes(setting, Alone(repo, Idle, was), steps, end)
  {
    hide Executes, Referenced, ListedNames, FromHeader, Recordable, PrintSnapshot, TextFor, HashHex, AllPieces, Stored, PieceOf,
         NobodyWrites, SafeName, AllScanned;
    var listed := ListedNames(repo.snapshots, opens);
    steps := Sweep(setting, repo, listed, loads, h, was, rest, end);
    Moved(Pruning([]), Collecting(listed));
    steps := StepThen(setting, repo, Pruning([]), was, BeginCollect(ALONE, opens), Alone(repo, Collecting(listed), was), steps, end);
    Moved(Idle, Pruning([]));
    steps := StepThen(setting, repo, Idle, was, BeginPrune(ALONE, opens, []), Alone(repo, Pruning([]), was), steps, end);
  }

  lemma Sweep(setting: Setting, repo: Repo, listed: set<Name>, loads: set<Name>, h: Hash, was: map<Name, seq<Source>>,
              rest: seq<Step>, end: World) returns (steps: seq<Step>)
    requires h in repo.chunks && !Referenced(repo, listed * loads, h)
    requires Executes(setting, Alone(repo.(chunks := repo.chunks - {h}), Idle, was), rest, end)
    ensures Executes(setting, Alone(repo, Collecting(listed), was), steps, end)
  {
    hide Executes, Referenced, ListedNames, AllListed, FromHeader, Recordable, PrintSnapshot, TextFor, HashHex, AllPieces, Stored,
         PieceOf, NobodyWrites, SafeName, AllScanned;
    var swept := repo.(chunks := repo.chunks - {h});
    Moved(Collecting(listed), Idle);
    steps := StepThen(setting, swept, Collecting(listed), was, Stop(ALONE), Alone(swept, Idle, was), rest, end);
    Moved(Collecting(listed), Collecting(listed));
    steps := StepThen(setting, repo, Collecting(listed), was, CollectChunk(ALONE, h, loads), Alone(swept, Collecting(listed), was),
                      steps, end);
  }

  /** A state that can come about, in which nobody holds the lock and the snapshot is incomplete. */
  ghost predicate Incomplete(setting: Setting, s: World, name: Name) {
    Reachable(setting, s) && NobodyLocks(s) && name in s.repo.snapshots && name in s.repo.manifests && !Integrity(s.repo)
  }

  lemma EndIsIncomplete(setting: Setting, steps: seq<Step>, repo: Repo, was: map<Name, seq<Source>>, name: Name, h: Hash)
    requires Executes(setting, INITIAL, steps, Alone(repo, Idle, was))
    requires name in repo.snapshots && name in repo.manifests && Needs(repo.manifests[name], h) && h !in repo.chunks
    ensures Incomplete(setting, Alone(repo, Idle, was), name)
  {
    hide Executes, Needs;
    NeededIsMissing(repo, name, h);
  }

  lemma NeededIsMissing(repo: Repo, name: Name, h: Hash)
    requires name in repo.snapshots && name in repo.manifests && Needs(repo.manifests[name], h) && h !in repo.chunks
    ensures !Integrity(repo)
  {
    hide Needs;
    assert !Covered(repo.chunks, repo.manifests[name]);
  }

  /** From an empty repository a prune that stops between its two deletions and a later one that collects leave a
      manifest without its chunk; a backup under the same id then makes it an incomplete snapshot. */
  lemma LeftoverManifest(setting: Setting, source: Source, info: Snapshot, seed: Seed)
    requires Scanned(source) && FitsLine(FileFor(source)) && 0 < |source.data| <= DEFAULT_CHUNK_SIZE
    requires source.data in setting.universe && seed.Valid() && Recordable(info) && LeadsBack(info)
    ensures exists s :: Incomplete(setting, s, SafeName(info.id))
  {
    hide TextFor, AllPieces, AllScanned, HashHex, Executes, Needs, Scanned, Alone, Incomplete, FitsLine, LeadsBack, SafeName,
         PrintSnapshot, Recordable;
    OneChunk(source);
    var h, name := HashHex(source.data), SafeName(info.id);
    var repo := OneSnapshot(map[], Bare(info), [source]);
    var end := Alone(repo, Idle, map[name := [source]]);
    var steps := LeftoverRun(setting, source, info, seed, end);
    EndIsIncomplete(setting, steps, repo, map[name := [source]], name, h);
  }

  lemma LeftoverRun(setting: Setting, source: Source, info: Snapshot, seed: Seed, end: World) returns (steps: seq<Step>)
    requires AllScanned([source]) && AllPieces([source]) == [source.data] && source.data in setting.universe && seed.Valid()
    requires Recordable(info) && LeadsBack(info)
    requires end == Alone(OneSnapshot(map[], Bare(info), [source]), Idle, map[SafeName(info.id) := [source]])
    ensures Executes(setting, INITIAL, steps, end)
  {
    hide TextFor, AllPieces, AllScanned, HashHex, Executes, Alone, PrintSnapshot, SafeName, ListsItself, LeadsBack, Recordable, Mentions;
    var h, name, was := HashHex(source.data), SafeName(info.id), map[SafeName(info.id) := [source]];
    var full := OneSnapshot(map[h := Cell(source.data, true, [], seed)], info, [source]);
    var bare, gone := full.(snapshots := map[]), Repo(map[], map[], full.manifests);
    assert full.chunks - {h} == map[] && bare.(chunks := map[]) == gone;
    assert gone.snapshots[name := PrintSnapshot(Bare(info))] == map[name := PrintSnapshot(Bare(info))];
    ExecutesNothing(setting, end);
    steps := BrokenOffBackup(setting, gone, info, was, [], end);
    assert ListedNames(bare.snapshots, {}) == {};
    steps := Collection(setting, bare, {}, {}, h, was, steps, end);
    ListsItselfIff(info);
    steps := HalfPrune(setting, full, name, was, steps, end);
    steps := BackupRun(setting, source, info, seed, steps, end);
    steps := FromInitial(setting, steps, end);
  }

  /** A backup of nothing that stops behind the first write of its `.snapshot`. */
  lemma BrokenOffBackup(setting: Setting, repo: Repo, info: Snapshot, was: map<Name, seq<Source>>, rest: seq<Step>, end: World)
    returns (steps: seq<Step>)
    requires Recordable(info)
    requires Executes(setting, Alone(repo.(snapshots := repo.snapshots[SafeName(info.id) := PrintSnapshot(Bare(info))]), Idle, was),
                      rest, end)
    ensures Executes(setting, Alone(repo, Idle, was), steps, end)
  {
    hide Executes, PrintSnapshot, Recordable, SafeName, FromHeader, HashHex, Stored, NobodyWrites, ListedNames,
         AllListed, Referenced, TextFor;
    var job := Job(info, [], true, []);
    var grown := repo.(snapshots := repo.snapshots[SafeName(info.id) := PrintSnapshot(Bare(info))]);
    Moved(Created(job), Idle);
    steps := StepThen(setting, grown, Created(job), was, Stop(ALONE), Alone(grown, Idle, was), rest, end);
    Moved(Putting(job, 0), Created(job));
    steps := StepThen(setting, repo, Putting(job, 0), was, CreateSnapshot(ALONE), Alone(grown, Created(job), was), steps, end);
    Moved(Idle, Putting(job, 0));
    steps := StepThen(setting, repo, Idle, was, BeginBackup(ALONE, job), Alone(repo, Putting(job, 0), was), steps, end);
  }

  /** The first process may as well be idle already. */
  lemma FromInitial(setting: Setting, rest: seq<Step>, end: World) returns (steps: seq<Step>)
    requires Executes(setting, Alone(NO_FILES, Idle, map[]), rest, end)
    ensures Executes(setting, INITIAL, steps, end)
  {
    steps := [Stop(ALONE)] + rest;
    assert steps[0] == Stop(ALONE) && steps[1..] == rest;
    var empty: map<Pid, Proc> := map[];
    assert empty[ALONE := Idle] == map[ALONE := Idle];
  }

  // ---- A label or a source path that takes its snapshot off the list ----

  /** A completed backup whose `.snapshot` does not lead back to itself, and then a prune that deletes nothing: although all can be
      opened, the collector does not know the snapshot and removes its chunk. */
  lemma UnlistedBackup(setting: Setting, source: Source, info: Snapshot, seed: Seed)
    requires Scanned(source) && FitsLine(FileFor(source)) && 0 < |source.data| <= DEFAULT_CHUNK_SIZE
    requires source.data in setting.universe && seed.Valid() && Recordable(info) && !LeadsBack(info)
    ensures exists s :: Incomplete(setting, s, SafeName(info.id))
  {
    hide TextFor, AllPieces, AllScanned, HashHex, Executes, Needs, Scanned, Alone, Incomplete, FitsLine, LeadsBack, SafeName,
         PrintSnapshot, Recordable;
    OneChunk(source);
    var h, name := HashHex(source.data), SafeName(info.id);
    var repo := OneSnapshot(map[], info, [source]);
    var end := Alone(repo, Idle, map[name := [source]]);
    var steps := UnlistedRun(setting, source, info, seed, end);
    EndIsIncomplete(setting, steps, repo, map[name := [source]], name, h);
  }

  lemma UnlistedRun(setting: Setting, source: Source, info: Snapshot, seed: Seed, end: World) returns (steps: seq<Step>)
    requires AllScanned([source]) && AllPieces([source]) == [source.data] && source.data in setting.universe && seed.Valid()
    requires Recordable(info) && !LeadsBack(info)
    requires end == Alone(OneSnapshot(map[], info, [source]), Idle, map[SafeName(info.id) := [source]])
    ensures Executes(setting, INITIAL, steps, end)
  {
    hide TextFor, AllPieces, AllScanned, HashHex, Executes, Alone, PrintSnapshot, SafeName, ListsItself, LeadsBack, Recordable, Mentions;
    var h, name, was := HashHex(source.data), SafeName(info.id), map[SafeName(info.id) := [source]];
    var full := OneSnapshot(map[h := Cell(source.data, true, [], seed)], info, [source]);
    assert full.chunks - {h} == map[];
    ExecutesNothing(setting, end);
    ListsItselfIff(info);
    NotOnTheList(full, name, h);
    steps := Collection(setting, full, {name}, {name}, h, was, [], end);
    steps := BackupRun(setting, source, info, seed, steps, end);
    steps := FromInitial(setting, steps, end);
  }

  lemma NotOnTheList(repo: Repo, name: Name, h: Hash)
    requires repo.snapshots.Keys == {name} == repo.manifests.Keys && !ListsItself(name, repo.snapshots[name])
    ensures !Referenced(repo, ListedNames(repo.snapshots, {name}) * {name}, h)
  {
    hide Mentions, Visible, Read, SafeName;
    assert name !in ListedNames(repo.snapshots, {name});
  }

  /** Such as a backup with a label that has a line end and "id=" with another id, or none, behind it. */
  lemma LabelLosesChunks(setting: Setting, source: Source, info: Snapshot, front: string, id: string, seed: Seed)
    requires Scanned(source) && FitsLine(FileFor(source)) && 0 < |source.data| <= DEFAULT_CHUNK_SIZE
    requires source.data in setting.universe && seed.Valid() && Recordable(info)
    requires info.mark == front + "\nid=" + id && '\n' !in id && SafeName(Cut(id, ID_MAX)) != SafeName(info.id)
    ensures exists s :: Incomplete(setting, s, SafeName(info.id))
  {
    hide Scanned, FitsLine, Incomplete, LeadsBack, SafeName, PrintSnapshot, Recordable, ListsItself, Read, Visible;
    MarkTakesId(info, front, id);
    ListsItselfIff(info);
    UnlistedBackup(setting, source, info, seed);
  }

  /** Or one of a source path that has "id=" behind its first 499 characters. */
  lemma SourcePathLosesChunks(setting: Setting, source: Source, info: Snapshot, front: string, id: string, seed: Seed)
    requires Scanned(source) && FitsLine(FileFor(source)) && 0 < |source.data| <= DEFAULT_CHUNK_SIZE
    requires source.data in setting.universe && seed.Valid() && Recordable(info) && '\n' !in info.mark && '\n' !in info.sourcePath
    requires info.sourcePath == front + "id=" + id && |front| == 499 && |id| + 4 < SnapshotText.LINE_CAP
    requires SafeName(Cut(id, ID_MAX)) != SafeName(info.id)
    ensures exists s :: Incomplete(setting, s, SafeName(info.id))
  {
    hide Scanned, FitsLine, Incomplete, LeadsBack, SafeName, PrintSnapshot, Recordable, ListsItself, Read, Visible;
    SourceTakesId(info, front, id);
    ListsItselfIff(info);
    UnlistedBackup(setting, source, info, seed);
  }

  // ---- A sync session that stops half way ----

  /** The server writes `.snapshot` and manifest before it asks for the chunks: if the session ends there the snapshot is
      incomplete. */
  lemma InterruptedSync(setting: Setting, source: Source, info: Snapshot)
    requires Scanned(source) && FitsLine(FileFor(source)) && 0 < |source.data| <= DEFAULT_CHUNK_SIZE
    requires source.data in setting.universe && FromHeader(info)
    ensures exists s :: Incomplete(setting, s, SafeName(info.id))
  {
    hide TextFor, AllPieces, AllScanned, HashHex, Executes, Needs, Scanned, Alone, Incomplete, FitsLine, SafeName, PrintSnapshot,
         FromHeader;
    OneChunk(source);
    var h, name := HashHex(source.data), SafeName(info.id);
    var repo := OneSnapshot(map[], info, [source]);
    var end := Alone(repo, Idle, map[name := [source]]);
    var steps := HalfSession(setting, [source], info, end);
    EndIsIncomplete(setting, steps, repo, map[name := [source]], name, h);
  }

  lemma HalfSession(setting: Setting, sources: seq<Source>, info: Snapshot, end: World) returns (steps: seq<Step>)
    requires Occur(setting, sources) && FromHeader(info)
    requires end == Alone(OneSnapshot(map[], info, sources), Idle, map[SafeName(info.id) := sources])
    ensures Executes(setting, INITIAL, steps, end)
  {
    hide AllPieces, AllScanned, Executes, FromHeader, PrintSnapshot, SafeName, TextFor, Recordable, HashHex, Stored,
         NobodyWrites, ListedNames, AllListed, Referenced;
    var name := SafeName(info.id);
    var none: map<Name, seq<Source>>, was := map[], map[name := sources];
    var listed, full := Repo(map[], map[name := PrintSnapshot(info)], map[]), OneSnapshot(map[], info, sources);
    ExecutesNothing(setting, end);
    Moved(Serving, Idle);
    steps := StepThen(setting, full, Serving, was, Stop(ALONE), end, [], end);
    Moved(Announced(name), Serving);
    steps := StepThen(setting, listed, Announced(name), none, ServeManifest(ALONE, sources), Alone(full, Serving, was), steps, end);
    Moved(Serving, Announced(name));
    steps := StepThen(setting, NO_FILES, Serving, none, ServeSnapshot(ALONE, info), Alone(listed, Announced(name), none), steps, end);
    Moved(Idle, Serving);
    steps := StepThen(setting, NO_FILES, Idle, none, BeginServe(ALONE), Alone(NO_FILES, Serving, none), steps, end);
    steps := FromInitial(setting, steps, end);
  }

  // ---- A path that its own manifest line breaks ----

  /** An empty file of such a name. */
  function Breaking(hash: Hash, mtime: i64): Source { Source(BreakingPath(hash), mtime, []) }

  /** The manifest takes the path. */
  lemma BreakingIsScanned(hash: Hash, mtime: i64)
    requires IsHex(hash) && |hash| <= HEX_LEN
    ensures Scanned(Breaking(hash, mtime)) && AllScanned([Breaking(hash, mtime)]) && Breaking(hash, mtime).data == []
  {
    hide BreakingPath, Components, IsHex, SourcePieces, AllPieces, Accepts;
    BreakingIsOneName(hash);
    OnePieceless(Breaking(hash, mtime));
  }

  lemma OnePieceless(source: Source)
    requires Scanned(source) && source.data == []
    ensures AllScanned([source]) && AllPieces([source]) == []
  {
    hide SourcePieces, Scanned;
    EmptyHasNoPieces(source);
    var sources := [source];
    assert sources[1..] == [];
    assert AllPieces(sources[1..]) == [];
  }

  lemma EmptyHasNoPieces(source: Source)
    requires source.data == []
    ensures SourcePieces(source) == []
  {
    hide HashHex, ChunksOfData;
    ChunkSizes(source.data, DEFAULT_CHUNK_SIZE);
    var chunks := ChunksOfData(source.data, DEFAULT_CHUNK_SIZE);
    assert chunks[1..] == [];
    assert PiecesOf(source.data, chunks[1..]) == [];
  }

  lemma BreakingIsOneName(hash: Hash)
    requires IsHex(hash) && |hash| <= HEX_LEN
    ensures var path := BreakingPath(hash);
            Accepts(path) && |path| < PATH_CAP && '\0' !in path
  {
    var path := BreakingPath(hash);
    assert Decimal(0) == "0" && Decimal(5) == "5";
    ComponentsOfSegment(path, "");
    assert path + "" == path;
    assert path != "..";
  }

  /** What the loader makes of it needs the hash in the path. */
  lemma BreakingNeeds(hash: Hash, mtime: i64)
    requires IsHex(hash) && |hash| <= HEX_LEN && AllScanned([Breaking(hash, mtime)])
    ensures Needs(TextFor([Breaking(hash, mtime)]), hash)
  {
    hide LoadFrom, PrintFile, TextFor, FileFor, ListingFor, BreakingPath, Scanned, IsHex;
    var sources := [Breaking(hash, mtime)];
    var f := FileFor(sources[0]);
    BreakingFile(hash, mtime);
    ListingIs(sources);
    OneFileText(sources, f);
    var loaded := LoadBreaking(f, hash);
    FirstChunkNeeded(TextFor(sources), loaded.m, Chunk(0, 5, hash));
  }

  lemma LoadBreaking(f: File, hash: Hash) returns (loaded: State)
    requires f.path == BreakingPath(hash) && GoodChunk(Chunk(0, 5, hash))
    requires |f.chunks| < TWO_64 && forall c :: c in f.chunks ==> GoodChunk(c)
    ensures loaded.Valid() && LoadFrom(State(EMPTY, None), PrintFile(f) + "") == Some(loaded)
    ensures var files := loaded.m.files; files != [] && files[0].chunks != [] && files[0].chunks[0] == Chunk(0, 5, hash)
  {
    hide LoadFrom, PrintFile, WithFile, ParseI64, ParseU64, BreakingPath, GoodChunk;
    BrokenLineLoads(State(EMPTY, None), f, hash, "");
    var bare := WithFile(EMPTY, "x", ParseI64("1"), ParseU64("2"));
    loaded := State(WithChunks(bare.value, 0, [Chunk(0, 5, hash)] + f.chunks), Some(0));
    LoadNothing(loaded);
  }

  lemma FirstChunkNeeded(text: string, m: Listing, c: Chunk)
    requires Loaded(text) == Some(m) && m.files != [] && m.files[0].chunks != [] && m.files[0].chunks[0] == c && c.size != 0
    ensures Needs(text, c.hash)
  {
    hide Loaded;
    var f := m.files[0];
    assert f in Loaded(text).value.files && c in f.chunks;
  }

  lemma BreakingFile(hash: Hash, mtime: i64)
    requires IsHex(hash) && |hash| <= HEX_LEN && Scanned(Breaking(hash, mtime))
    ensures var f := FileFor(Breaking(hash, mtime));
            && f.path == BreakingPath(hash) && |f.chunks| < TWO_64 && GoodChunk(Chunk(0, 5, hash))
            && forall c :: c in f.chunks ==> GoodChunk(c)
  {
    hide BreakingPath, Accepts, HashHex;
    ScannedIsPrintable(Breaking(hash, mtime));
  }

  lemma OneFileText(sources: seq<Source>, f: File)
    requires AllScanned(sources) && |sources| == 1 && FileFor(sources[0]) == f && ListingFor(sources).files == FilesFor(sources)
    ensures LoadFrom(State(EMPTY, None), TextFor(sources)) == LoadFrom(State(EMPTY, None), PrintFile(f) + "")
  {
    hide LoadFrom, PrintFile, FileFor, ListingFor, Scanned, MagicLine, TotalLine;
    var files := ListingFor(sources).files;
    assert files[0] == f && files[1..] == [];
    assert PrintFiles(files) == PrintFile(f) + "";
    LoadHeaders(ListingFor(sources), PrintFiles(files));
  }

  /** One backup of one empty file with such a name is an incomplete snapshot from the start: its manifest needs a chunk
      that no file of the backup has. */
  lemma BreakingBackup(setting: Setting, hash: Hash, mtime: i64, info: Snapshot)
    requires IsHex(hash) && |hash| <= HEX_LEN && Recordable(info)
    ensures exists s :: Incomplete(setting, s, SafeName(info.id))
  {
    hide TextFor, AllPieces, AllScanned, Executes, Needs, Scanned, Alone, IsHex, Breaking, Incomplete, SafeName, PrintSnapshot,
         Recordable;
    BreakingIsScanned(hash, mtime);
    BreakingNeeds(hash, mtime);
    var sources, name := [Breaking(hash, mtime)], SafeName(info.id);
    var repo := OneSnapshot(map[], info, sources);
    var end := Alone(repo, Idle, map[name := sources]);
    var steps := BackupOfNothing(setting, Breaking(hash, mtime), info, end);
    EndIsIncomplete(setting, steps, repo, map[name := sources], name, hash);
  }

  lemma BackupOfNothing(setting: Setting, source: Source, info: Snapshot, end: World) returns (steps: seq<Step>)
    requires Scanned(source) && source.data == [] && AllScanned([source]) && Recordable(info)
    requires end == Alone(OneSnapshot(map[], info, [source]), Idle, map[SafeName(info.id) := [source]])
    ensures Executes(setting, INITIAL, steps, end)
  {
    hide TextFor, AllPieces, AllScanned, Executes, Scanned, SafeName, PrintSnapshot, Recordable, OneSnapshot;
    OnePieceless(source);
    var job := Job(info, [source], true, []);
    var none: map<Name, seq<Source>> := map[];
    var created := Repo(map[], map[job.FileName() := PrintSnapshot(Bare(info))], map[]);
    ExecutesNothing(setting, end);
    steps := FinishRun(setting, map[], job, [], end);
    Moved(Putting(job, 0), Created(job));
    steps := StepThen(setting, NO_FILES, Putting(job, 0), none, CreateSnapshot(ALONE), Alone(created, Created(job), none), steps, end);
    Moved(Idle, Putting(job, 0));
    steps := StepThen(setting, NO_FILES, Idle, none, BeginBackup(ALONE, job), Alone(NO_FILES, Putting(job, 0), none), steps, end);
    steps := FromInitial(setting, steps, end);
  }
}
