/** The server's side of a sync session. Line numbers are those of src/net/server.c. */
module SyncServer {
  import opened Bytes
  import opened ChunkStore
  import opened Hashing
  import opened Manifest
  import opened SnapshotText
  import opened SyncText
  import opened Text
  import opened Wrappers

  const HEADER_COPY := 1023

  /** Room for the text of most replies, without the NUL. */
  const REPLY_MAX := 4095

  /** Of a chunk frame `hash` is the text of the first 64 bytes and `data` what stands behind them. */
  datatype Request =
    | Hello
    | ManifestFrame(payload: string)
    | ChunkFrame(hash: Hash, data: Blob)
    | Ping
    | Bye
    | Unknown(kind: nat)

  /** The reply to a manifest that was stored, any other response, the answer to a ping, or Silence when the server is
      caught in its scan and never answers. */
  datatype Answer = Reply(text: string) | Note(text: string) | Pong(text: string) | Silence

  /** The session and the repository behind it; the texts of artifacts are kept under the file-name form of the id. */
  datatype ServerState = ServerState(repo: string, open: bool, snapshots: map<string, string>, manifests: map<string, string>,
                                     blobs: Blobs)

  /** Lines 509-514: the `.snapshot` that the server writes for a header. */
  function SnapshotFor(h: SnapHeader): string { PrintSnapshot(Snapshot(h.id, h.ts, h.source, "", h.files, h.size)) }

  /** The header that the first line of a manifest frame carries. */
  function HeaderIn(payload: string): SnapHeader {
    ParsedHeader(BLANK, TextOf(Cut(payload[..IndexOf(payload, '\n')], HEADER_COPY)))
  }

  function ManifestIn(payload: string): string
    requires '\n' in payload
  {
    IndexInside(payload, '\n');
    payload[IndexOf(payload, '\n') + 1..]
  }

  lemma IndexInside(s: string, c: char)
    requires c in s
    ensures IndexOf(s, c) < |s|
  {
    var k :| 0 <= k < |s| && s[k] == c;
    IndexAtMost(s, c, k);
  }

  predicate Accepted(s: ServerState, payload: string) {
    s.open && '\n' in payload && HeaderIn(payload).id != ""
  }

  /** Lines 418-619: what a request does to the session and the repository. */
  function Handled(s: ServerState, r: Request, lockFree: bool): ServerState {
    match r
    case Hello => s.(open := s.open || (s.repo != "" && lockFree))
    case ManifestFrame(payload) =>
      if !Accepted(s, payload) then s
      else
        var h := HeaderIn(payload);
        s.(snapshots := s.snapshots[SafeName(h.id) := SnapshotFor(h)], manifests := s.manifests[SafeName(h.id) := ManifestIn(payload)])
    case ChunkFrame(hash, data) =>
      if s.open && |hash| >= 2 && data != [] then s.(blobs := s.blobs[hash := data]) else s
    case Bye => s.(open := false)
    case _ => s
  }

  function Answered(s: ServerState, r: Request): Answer {
    match r
    case Hello => Note(Cut("ACK HELLO repo=" + s.repo, REPLY_MAX))
    case ManifestFrame(payload) =>
      if !s.open then Note("ACK MANIFEST no-repo")
      else if '\n' !in payload then Note("ERROR invalid manifest format")
      else if HeaderIn(payload).id == "" then Note("ERROR manifest missing snapshot id")
      else
        var found := Scanned(TextOf(ManifestIn(payload)), s.blobs);
        if found.None? then Silence else Answer.Reply(SyncText.Reply(HeaderIn(payload).id, found.value))
    case ChunkFrame(hash, data) => Note(ChunkAnswer(s, hash, data))
    case Ping => Pong("PONG")
    case Bye => Note("BYE")
    case Unknown(kind) => Note(Cut("ERROR unknown message " + Decimal(kind), REPLY_MAX))
  }

  function ChunkAnswer(s: ServerState, hash: Hash, data: Blob): string {
    if !s.open then "ACK CHUNK no-repo"
    else if data == [] then "ERROR chunk payload too small"
    else if |hash| < 2 then Cut("ERROR failed to store chunk " + hash, REPLY_MAX)
    else Cut("ACK CHUNK " + hash, REPLY_MAX)
  }

  /** A manifest frame is split at its first line end: the line gives the record, and all that is behind it is kept as the
      manifest, both under the file name of the id in that line. */
  lemma FrameIsStored(s: ServerState, line: string, text: string, lockFree: bool)
    requires s.open && '\n' !in line && ParsedHeader(BLANK, TextOf(Cut(line, 1023))).id != ""
    ensures var t, h := Handled(s, ManifestFrame(line + "\n" + text), lockFree), ParsedHeader(BLANK, TextOf(Cut(line, 1023)));
            && t.manifests == s.manifests[SafeName(h.id) := text]
            && t.snapshots == s.snapshots[SafeName(h.id) := PrintSnapshot(Snapshot(h.id, h.ts, h.source, "", h.files, h.size))]
            && t.blobs == s.blobs && t.open
  {
    hide ParsedHeader, TextOf, Cut, SafeName, PrintSnapshot;
    var payload := line + "\n" + text;
    assert payload[|line|] == '\n';
    IndexAtMost(payload, '\n', |line|);
    IndexInside(payload, '\n');
    var k := IndexOf(payload, '\n');
    assert k == |line| by {
      assert forall i :: 0 <= i < |line| ==> payload[i] == line[i] && line[i] in line;
    }
    assert payload[..k] == line && payload[k + 1..] == text;
  }

  /** What the client can tell from the answer: the chunk of a full-length hash is stored if and only if the answer names the
      hash, and otherwise nothing has changed. */
  lemma AckMeansStored(s: ServerState, hash: Hash, data: Blob, lockFree: bool)
    requires |hash| == HEX_LEN
    ensures var t := Handled(s, ChunkFrame(hash, data), lockFree);
            if Answered(s, ChunkFrame(hash, data)) == Note("ACK CHUNK " + hash) then t == s.(blobs := s.blobs[hash := data])
            else t == s && !(s.open && data != [])
  {
    assert |"ACK CHUNK no-repo"| != |"ACK CHUNK " + hash|;
    assert "ERROR chunk payload too small"[0] != ("ACK CHUNK " + hash)[0];
  }

  /** Nothing that a request does removes a manifest, a snapshot or a chunk. */
  lemma HandledRemovesNothing(s: ServerState, r: Request, lockFree: bool)
    ensures var t := Handled(s, r, lockFree);
            s.snapshots.Keys <= t.snapshots.Keys && s.manifests.Keys <= t.manifests.Keys && s.blobs.Keys <= t.blobs.Keys
  {
    hide HeaderIn, ManifestIn, SafeName, SnapshotFor;
  }

  class Server {
    var open: bool
    var snapshots: map<string, string>
    var manifests: map<string, string>
    const repo: string
    const store: ChunkStore

    constructor (repo: string, store: ChunkStore)
      ensures this.repo == repo && this.store == store && !open && snapshots == map[] && manifests == map[]
    {
      this.repo, this.store := repo, store;
      open, snapshots, manifests := false, map[], map[];
    }

    function State(): ServerState
      reads this, store
    {
      ServerState(repo, open, snapshots, manifests, store.blobs)
    }

    /** Lines 418-634; `lockFree` says whether the repository's lock can be had. */
    method Handle(r: Request, lockFree: bool) returns (answer: Answer)
      modifies this, store
      ensures State() == Handled(old(State()), r, lockFree) && answer == Answered(old(State()), r)
      ensures r.Hello? ==> open == (old(open) || (repo != "" && lockFree))
      ensures r.Bye? ==> !open && answer == Note("BYE")
      ensures !old(open) && (r.ManifestFrame? || r.ChunkFrame?) ==> State() == old(State())
      ensures r.Ping? || r.Unknown? ==> State() == old(State())
    {
      hide HeaderIn, SafeName, SnapshotFor, SyncText.Reply, Scanned;
      match r
      case Hello =>
        if repo != "" && !open && lockFree {
          open := true;
        }
        answer := Note(Cut("ACK HELLO repo=" + repo, REPLY_MAX));
      case ManifestFrame(payload) =>
        answer := HandleManifest(payload);
      case ChunkFrame(hash, data) =>
        answer := HandleChunk(hash, data);
      case Ping =>
        answer := Pong("PONG");
      case Bye =>
        open := false;
        answer := Note("BYE");
      case Unknown(kind) =>
        answer := Note(Cut("ERROR unknown message " + Decimal(kind), REPLY_MAX));
    }

    /** Lines 580-610. */
    method HandleChunk(hash: Hash, data: Blob) returns (answer: Answer)
      modifies store
      ensures State() == Handled(old(State()), ChunkFrame(hash, data), false)
      ensures answer == Answered(old(State()), ChunkFrame(hash, data))
    {
      if !open {
        return Note("ACK CHUNK no-repo");
      }
      if data == [] {
        return Note("ERROR chunk payload too small");
      }
      var rc := store.Put(hash, data);
      if rc != 0 {
        return Note(Cut("ERROR failed to store chunk " + hash, REPLY_MAX));
      }
      return Note(Cut("ACK CHUNK " + hash, REPLY_MAX));
    }

    /** Lines 434-578: both artifacts are written before the chunks are looked for. */
    method HandleManifest(payload: string) returns (answer: Answer)
      modifies this`snapshots, this`manifests
      ensures State() == Handled(old(State()), ManifestFrame(payload), false)
      ensures answer == Answered(old(State()), ManifestFrame(payload))
    {
      hide HeaderIn, SafeName, SnapshotFor, SyncText.Reply, Scanned, TextOf;
      if !open {
        return Note("ACK MANIFEST no-repo");
      }
      if '\n' !in payload {
        return Note("ERROR invalid manifest format");
      }
      var header := HeaderIn(payload);
      if header.id == "" {
        return Note("ERROR manifest missing snapshot id");
      }
      var content := ManifestIn(payload);
      snapshots := snapshots[SafeName(header.id) := SnapshotFor(header)];
      manifests := manifests[SafeName(header.id) := content];
      var caught, hashes := CollectMissing(TextOf(content), store);
      if caught {
        return Silence;
      }
      var reply := BuildReply(header.id, hashes);
      return Answer.Reply(reply);
    }
  }
}
