/** The repository as processes see it: every effect on the file system is one step, and any process may stop between two. */
module Repository {
  import opened Bytes
  import opened Backup
  import opened Chunker
  import opened ChunkStore
  import opened Hashing
  import opened Manifest
  import opened ManifestText
  import opened Path
  import opened Pipeline
  import opened Restore
  import opened SnapshotText
  import opened Wrappers

  /** The form of a snapshot's id in which its files are named. */
  type Name = string
  type Pid = nat

  /** A scanned file: its recorded path and its content. */
  datatype Source = Source(path: string, mtime: i64, data: seq<byte>)

  /** A stored blob, by the bytes and the settings it was made from; `given` is the passphrase as it was typed, or empty. */
  datatype Cell = Cell(data: seq<byte>, compress: bool, given: seq<byte>, seed: Seed) {
    predicate Valid() { 0 < |data| <= CHUNK_MAX && seed.Valid() }
  }

  /** The files of the repository: chunks, and the texts of `.snapshot` and `.manifest` files. */
  datatype Repo = Repo(chunks: map<Hash, Cell>, snapshots: map<Name, string>, manifests: map<Name, string>)

  /** `info` is what the `.snapshot` is to say in the end. */
  datatype Job = Job(info: Snapshot, sources: seq<Source>, compress: bool, given: seq<byte>) {
    function FileName(): Name { SafeName(info.id) }
  }

  /** Where a process is. Every state but Idle holds the lock: exclusively, except while reading. Serving and Announced
      are a server in a sync session, before and after it has written the next `.snapshot`. */
  datatype Proc =
    | Idle
    | Putting(job: Job, done: nat)
    | Created(job: Job)
    | Updated(job: Job)
    | Published
    | Pruning(todo: seq<string>)
    | Unlisted(name: Name, todo: seq<string>)
    | Collecting(listed: set<Name>)
    | Serving
    | Announced(name: Name)
    | Reading

  /** All the chunk contents that ever occur. */
  datatype Setting = Setting(universe: set<seq<byte>>)

  /** `sources` remembers what was scanned for each published snapshot. */
  datatype World = World(repo: Repo, procs: map<Pid, Proc>, sources: map<Name, seq<Source>>)

  /** `opens` and `loads` are the `.snapshot` and `.manifest` files that can be opened at that moment. */
  datatype Step =
    | BeginBackup(p: Pid, job: Job)
    | PutChunk(p: Pid, seed: Seed)
    | CreateSnapshot(p: Pid)
    | UpdateSnapshot(p: Pid)
    | PublishManifest(p: Pid)
    | BeginPrune(p: Pid, opens: set<Name>, todo: seq<string>)
    | DeleteSnapshot(p: Pid)
    | SkipSnapshot(p: Pid)
    | DeleteManifest(p: Pid)
    | KeepManifest(p: Pid)
    | BeginCollect(p: Pid, opens: set<Name>)
    | CollectChunk(p: Pid, hash: Hash, loads: set<Name>)
    | BeginServe(p: Pid)
    | ServeSnapshot(p: Pid, info: Snapshot)
    | ServeManifest(p: Pid, sources: seq<Source>)
    | WithdrawSnapshot(p: Pid)
    | ServeChunk(p: Pid, cell: Cell)
    | BeginRead(p: Pid)
    | Stop(p: Pid)

  // ---- What a backup stores and writes ----

  function FileFor(s: Source): File
    requires |s.data| < TWO_64
  {
    FileOf(s.path, s.mtime, s.data)
  }

  /** What the manifest takes: a C string within the path buffer that is relative and has no "..". */
  predicate Scanned(s: Source) {
    |s.data| < TWO_64 && |s.path| < PATH_CAP && '\0' !in s.path && Accepts(s.path)
  }

  predicate AllScanned(sources: seq<Source>) { forall i :: 0 <= i < |sources| ==> Scanned(sources[i]) }

  function FilesFor(sources: seq<Source>): (r: seq<File>)
    requires AllScanned(sources)
    ensures |r| == |sources| && forall i :: 0 <= i < |r| ==> r[i] == FileFor(sources[i])
  {
    seq(|sources|, i requires 0 <= i < |sources| => FileFor(sources[i]))
  }

  /** Every file fits its manifest line. */
  predicate AllFit(sources: seq<Source>)
    requires AllScanned(sources)
  {
    forall i :: 0 <= i < |sources| ==> FitsLine(FileFor(sources[i]))
  }

  function ListingFor(sources: seq<Source>): Listing
    requires AllScanned(sources)
  {
    AppendedAll(EMPTY, FilesFor(sources))
  }

  function TextFor(sources: seq<Source>): string
    requires AllScanned(sources)
  {
    Print(ListingFor(sources))
  }

  /** The contents of the non-empty chunks of a file. */
  function PiecesOf(data: seq<byte>, chunks: seq<Chunk>): seq<seq<byte>>
    requires forall c :: c in chunks ==> c.offset + c.size <= |data|
  {
    if chunks == [] then []
    else (if chunks[0].size == 0 then [] else [BytesOf(data, chunks[0])]) + PiecesOf(data, chunks[1..])
  }

  function SourcePieces(s: Source): seq<seq<byte>>
    requires |s.data| < TWO_64
  {
    ChunkSizes(s.data, DEFAULT_CHUNK_SIZE);
    PiecesOf(s.data, ChunksOfData(s.data, DEFAULT_CHUNK_SIZE))
  }

  function AllPieces(sources: seq<Source>): seq<seq<byte>>
    requires AllScanned(sources)
  {
    if sources == [] then [] else SourcePieces(sources[0]) + AllPieces(sources[1..])
  }

  // ---- What a manifest refers to ----

  /** Every hash the loader finds in a manifest. */
  ghost predicate Mentions(text: string, hash: Hash) {
    Loaded(text).Some? && exists f, c :: f in Loaded(text).value.files && c in f.chunks && c.hash == hash
  }

  /** The hashes that restoring needs: those of non-empty chunks. */
  ghost predicate Needs(text: string, hash: Hash) {
    Loaded(text).Some? && exists f, c :: f in Loaded(text).value.files && c in f.chunks && c.hash == hash && c.size != 0
  }

  /** The manifest under one of the names mentions the hash. */
  ghost predicate Referenced(repo: Repo, names: set<Name>, hash: Hash) {
    exists n :: n in names && n in repo.manifests && Mentions(repo.manifests[n], hash)
  }

  /** Everything that restoring needs is stored. */
  ghost predicate Covered(chunks: map<Hash, Cell>, text: string) { forall h :: Needs(text, h) ==> h in chunks }

  // ---- Steps ----

  predicate Exclusive(q: Proc) { !q.Idle? && !q.Reading? }

  function At(s: World, p: Pid): Proc { if p in s.procs then s.procs[p] else Idle }

  predicate NobodyLocks(s: World) { forall q :: q in s.procs ==> s.procs[q].Idle? }

  predicate NobodyWrites(s: World) { forall q :: q in s.procs ==> !Exclusive(s.procs[q]) }

  /** Scanned files all of whose pieces are among those that occur. */
  ghost predicate Occur(setting: Setting, sources: seq<Source>) {
    AllScanned(sources) && forall d :: d in AllPieces(sources) ==> d in setting.universe
  }

  /** A `.snapshot` as it is first written, without the counts. */
  function Bare(info: Snapshot): Snapshot { info.(fileCount := 0, sizeBytes := 0) }

  /** What a server takes out of a header: neither label nor line end. */
  predicate FromHeader(info: Snapshot) { Recordable(info) && info.mark == "" && '\n' !in info.sourcePath }

  /** All the ids are read from files that can be seen and opened. */
  predicate AllListed(snapshots: map<Name, string>, opens: set<Name>, ids: seq<string>) {
    forall i :: 0 <= i < |ids| ==>
      ids[i] != "" && exists n :: n in snapshots && n in opens && Visible(n) && Read(snapshots[n]).id == ids[i]
  }

  ghost predicate Enabled(setting: Setting, s: World, step: Step) {
    match step
    case BeginBackup(p, job) => NobodyLocks(s) && Occur(setting, job.sources) && Recordable(job.info)
    case PutChunk(p, seed) =>
      At(s, p).Putting? && AllScanned(At(s, p).job.sources) && At(s, p).done < |AllPieces(At(s, p).job.sources)| && seed.Valid()
    case CreateSnapshot(p) =>
      At(s, p).Putting? && AllScanned(At(s, p).job.sources) && At(s, p).done == |AllPieces(At(s, p).job.sources)|
    case UpdateSnapshot(p) => At(s, p).Created?
    case PublishManifest(p) => At(s, p).Updated? && AllScanned(At(s, p).job.sources)
    case BeginPrune(p, opens, todo) => NobodyLocks(s) && AllListed(s.repo.snapshots, opens, todo)
    case DeleteSnapshot(p) => At(s, p).Pruning? && At(s, p).todo != [] && SafeName(At(s, p).todo[0]) in s.repo.snapshots
    case SkipSnapshot(p) => At(s, p).Pruning? && At(s, p).todo != []
    case DeleteManifest(p) => At(s, p).Unlisted?
    case KeepManifest(p) => At(s, p).Unlisted?
    case BeginCollect(p, opens) => At(s, p).Pruning?
    case CollectChunk(p, hash, loads) => At(s, p).Collecting? && hash in s.repo.chunks
    case BeginServe(p) => NobodyLocks(s)
    case ServeSnapshot(p, info) => At(s, p).Serving? && FromHeader(info)
    case ServeManifest(p, sources) => At(s, p).Announced? && Occur(setting, sources)
    case WithdrawSnapshot(p) => At(s, p).Announced?
    case ServeChunk(p, cell) => At(s, p).Serving? && cell.Valid() && cell.data in setting.universe
    case BeginRead(p) => At(s, p).Idle? && NobodyWrites(s)
    case Stop(p) => true
  }

  /** A piece whose hash is there already is not stored again. */
  function Stored(chunks: map<Hash, Cell>, cell: Cell): map<Hash, Cell> {
    if HashHex(cell.data) in chunks then chunks else chunks[HashHex(cell.data) := cell]
  }

  function PieceOf(q: Proc, seed: Seed): Cell
    requires q.Putting? && AllScanned(q.job.sources) && q.done < |AllPieces(q.job.sources)|
  {
    Cell(AllPieces(q.job.sources)[q.done], q.job.compress, q.job.given, seed)
  }

  ghost function Apply(setting: Setting, s: World, step: Step): World
    requires Enabled(setting, s, step)
  {
    match step
    case BeginBackup(p, job) => s.(procs := s.procs[p := Putting(job, 0)])
    case PutChunk(p, seed) =>
      var q := At(s, p);
      s.(repo := s.repo.(chunks := Stored(s.repo.chunks, PieceOf(q, seed))),
         procs := s.procs[p := Putting(q.job, q.done + 1)])
    case CreateSnapshot(p) =>
      var q := At(s, p);
      s.(repo := s.repo.(snapshots := s.repo.snapshots[q.job.FileName() := PrintSnapshot(Bare(q.job.info))]),
         procs := s.procs[p := Created(q.job)])
    case UpdateSnapshot(p) =>
      var q := At(s, p);
      s.(repo := s.repo.(snapshots := s.repo.snapshots[q.job.FileName() := PrintSnapshot(q.job.info)]),
         procs := s.procs[p := Updated(q.job)])
    case PublishManifest(p) =>
      var q := At(s, p);
      s.(repo := s.repo.(manifests := s.repo.manifests[q.job.FileName() := TextFor(q.job.sources)]),
         procs := s.procs[p := Published], sources := s.sources[q.job.FileName() := q.job.sources])
    case BeginPrune(p, opens, todo) => s.(procs := s.procs[p := Pruning(todo)])
    case DeleteSnapshot(p) =>
      var q := At(s, p);
      s.(repo := s.repo.(snapshots := s.repo.snapshots - {SafeName(q.todo[0])}),
         procs := s.procs[p := Unlisted(SafeName(q.todo[0]), q.todo[1..])])
    case SkipSnapshot(p) => s.(procs := s.procs[p := Pruning(At(s, p).todo[1..])])
    case DeleteManifest(p) =>
      var q := At(s, p);
      s.(repo := s.repo.(manifests := s.repo.manifests - {q.name}), procs := s.procs[p := Pruning(q.todo)])
    case KeepManifest(p) => s.(procs := s.procs[p := Pruning(At(s, p).todo)])
    case BeginCollect(p, opens) => s.(procs := s.procs[p := Collecting(ListedNames(s.repo.snapshots, opens))])
    case CollectChunk(p, hash, loads) =>
      if Referenced(s.repo, At(s, p).listed * loads, hash) then s
      else s.(repo := s.repo.(chunks := s.repo.chunks - {hash}))
    case BeginServe(p) => s.(procs := s.procs[p := Serving])
    case ServeSnapshot(p, info) =>
      s.(repo := s.repo.(snapshots := s.repo.snapshots[SafeName(info.id) := PrintSnapshot(info)]),
         procs := s.procs[p := Announced(SafeName(info.id))])
    case ServeManifest(p, sources) =>
      s.(repo := s.repo.(manifests := s.repo.manifests[At(s, p).name := TextFor(sources)]),
         procs := s.procs[p := Serving], sources := s.sources[At(s, p).name := sources])
    case WithdrawSnapshot(p) =>
      s.(repo := s.repo.(snapshots := s.repo.snapshots - {At(s, p).name}), procs := s.procs[p := Serving])
    case ServeChunk(p, cell) => s.(repo := s.repo.(chunks := s.repo.chunks[HashHex(cell.data) := cell]))
    case BeginRead(p) => s.(procs := s.procs[p := Reading])
    case Stop(p) => s.(procs := s.procs[p := Idle])
  }

  ghost predicate Executes(setting: Setting, s: World, steps: seq<Step>, t: World)
    decreases |steps|
  {
    if steps == [] then s == t
    else Enabled(setting, s, steps[0]) && Executes(setting, Apply(setting, s, steps[0]), steps[1..], t)
  }

  const INITIAL := World(Repo(map[], map[], map[]), map[], map[])

  ghost predicate Reachable(setting: Setting, s: World) {
    exists steps :: Executes(setting, INITIAL, steps, s)
  }
}
