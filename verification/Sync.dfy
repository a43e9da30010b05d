/** A whole sync run: the client's loop against the server, and what a completed run leaves on the server. Line numbers
    are those of src/core/engine.c. */
module Sync {
  import opened Bytes
  import opened ChunkStore
  import opened Hashing
  import opened Manifest
  import opened ManifestText
  import opened SnapshotRoundTrip
  import opened SnapshotText
  import opened SyncServer
  import opened SyncText
  import opened Text
  import opened Wrappers

  const HEADER_CAP := 512

  /** A listed snapshot of the client, and the content of its manifest file if there is one. */
  datatype Local = Local(header: SnapHeader, manifest: Option<string>)

  /** Snapshots without a manifest, or with an empty one, are passed over. */
  predicate Sends(l: Local) { l.manifest.Some? && l.manifest.value != "" }

  function PayloadOf(l: Local): string
    requires Sends(l)
  {
    HeaderLine(l.header) + "\n" + l.manifest.value
  }

  /** Lines 1150-1192: one chunk frame for each hash that is offered. */
  function WithChunks(s: ServerState, hashes: seq<Hash>, held: Blobs): ServerState
    requires forall h :: h in hashes ==> h in held && Has(held, h)
    decreases |hashes|
  {
    if hashes == [] then s else WithChunks(Handled(s, ChunkFrame(hashes[0], held[hashes[0]]), true), hashes[1..], held)
  }

  lemma {:induction false} OfferedAreHeld(text: string, left: nat, held: Blobs)
    ensures forall h :: h in Offered(text, left, held) ==> h in held && Has(held, h)
    decreases |text|
  {
    if text != "" && left > 0 {
      var n := IndexOf(text, '\n');
      var rest := if n < |text| then text[n + 1..] else "";
      if n == HEX_LEN && Has(held, text[..n]) {
        OfferedAreHeld(rest, left - 1, held);
      } else {
        OfferedAreHeld(rest, left, held);
      }
    }
  }

  lemma SentAreHeld(reply: string, held: Blobs)
    ensures forall h :: h in Sent(reply, held) ==> h in held && Has(held, h)
  {
    var n := IndexOf(reply, '\n');
    if n < |reply| { OfferedAreHeld(reply[n + 1..], AnnouncedCount(reply), held); }
  }

  /** How a run goes on: it may be given up by the client, or never be answered. */
  datatype Run = Going(state: ServerState) | GivenUp(state: ServerState) | Unanswered(state: ServerState)

  /** Lines 1034-1198: one snapshot. */
  function SyncOne(s: ServerState, l: Local, held: Blobs): Run {
    if !Sends(l) then Going(s)
    else if |HeaderLine(l.header)| >= HEADER_CAP then GivenUp(s)
    else
      var r := ManifestFrame(PayloadOf(l));
      var next := Handled(s, r, true);
      match Answered(s, r)
      case Silence => Unanswered(next)
      case Reply(text) =>
        SentAreHeld(text, held);
        Going(WithChunks(next, Sent(text, held), held))
      case _ => Going(next)
  }

  /** The client reads every reply for missing hashes; in a refusal of a manifest it finds none. */
  lemma RefusalAnnouncesNothing(s: ServerState, payload: string, held: Blobs)
    requires Answered(s, ManifestFrame(payload)).Note?
    ensures Sent(Answered(s, ManifestFrame(payload)).text, held) == []
  {
    hide Sent, HeaderIn, ManifestIn, TextOf, Scanned, SyncText.Reply, Answered;
    RefusalIsOneLine(s, payload);
    OneLineSendsNothing(Answered(s, ManifestFrame(payload)).text, held);
  }

  lemma RefusalIsOneLine(s: ServerState, payload: string)
    requires Answered(s, ManifestFrame(payload)).Note?
    ensures '\n' !in Answered(s, ManifestFrame(payload)).text
  {
    hide HeaderIn, ManifestIn, TextOf, Scanned, SyncText.Reply;
    NoRepoIsOneLine();
    BadFormatIsOneLine();
    MissingIdIsOneLine();
  }

  lemma NoRepoIsOneLine()
    ensures '\n' !in "ACK MANIFEST no-repo"
  {
  }

  lemma BadFormatIsOneLine()
    ensures '\n' !in "ERROR invalid manifest format"
  {
  }

  lemma MissingIdIsOneLine()
    ensures '\n' !in "ERROR manifest missing snapshot id"
  {
  }

  lemma OneLineSendsNothing(text: string, held: Blobs)
    requires '\n' !in text
    ensures Sent(text, held) == []
  {
    hide AnnouncedCount, Offered;
    assert text[..|text|] == text;
    IndexAtLeast(text, '\n', |text|);
  }

  function SyncAll(s: ServerState, locals: seq<Local>, held: Blobs): Run
    decreases |locals|
  {
    if locals == [] then Going(s)
    else
      var one := SyncOne(s, locals[0], held);
      if one.Going? then SyncAll(one.state, locals[1..], held) else one
  }

  // ---- What the theorems need of the client's snapshots ----

  /** A header as a listing gives it, without line ends, whose line fits the client's buffer. */
  predicate SendableHeader(h: SnapHeader) {
    && '\n' !in h.id && '\0' !in h.id && '\n' !in h.source && '\0' !in h.source
    && I64_MIN <= h.ts <= I64_MAX && h.files <= I64_MAX && h.size <= U64_MAX
    && |HeaderLine(h)| < HEADER_CAP
  }

  /** The header that the server reads. Tabs in the source path make it differ. */
  function Arrived(l: Local): SnapHeader { Arriving(l.header) }

  function ArrivedName(l: Local): string { SafeName(Arrived(l).id) }

  /** What is sent and not refused for want of an id. */
  predicate Stores(l: Local) { Sends(l) && Arrived(l).id != "" }

  /** All full-length chunk hashes of a manifest. */
  function WantedBy(manifest: string): Option<seq<Hash>> { Scanned(manifest, map[]) }

  predicate Good(l: Local) { SendableHeader(l.header) && (Stores(l) ==> GoodContent(l)) }

  /** An id that the client does not mistake for the count in the reply, and a manifest that the scan gets through. */
  predicate GoodContent(l: Local)
    requires Stores(l)
  {
    && QuietId(Arrived(l).id)
    && '\0' !in l.manifest.value && WantedBy(l.manifest.value).Some? && |WantedBy(l.manifest.value).value| <= I64_MAX
  }

  // ---- The scan is a filter ----

  function Lacking(hashes: seq<Hash>, blobs: Blobs): seq<Hash> {
    if hashes == [] then [] else (if Has(blobs, hashes[0]) then [] else [hashes[0]]) + Lacking(hashes[1..], blobs)
  }

  lemma {:induction false} LackingConcat(a: seq<Hash>, b: seq<Hash>, blobs: Blobs)
    ensures Lacking(a + b, blobs) == Lacking(a, blobs) + Lacking(b, blobs)
  {
    if a == [] {
      assert a + b == b;
    } else {
      assert (a + b)[1..] == a[1..] + b;
      LackingConcat(a[1..], b, blobs);
    }
  }

  lemma LineLacks(line: string, blobs: Blobs)
    ensures MissingIn(line, blobs) == Lacking(MissingIn(line, map[]), blobs)
  {
    hide CutAtTab, Stuck;
  }

  lemma RestInside(s: string)
    requires '\n' !in s
    ensures '\n' !in s[..0] && (CutAtTab(s).TwoFields? ==> '\n' !in CutAtTab(s).rest)
  {
    CutMeans(s);
    hide CutAtTab;
    if CutAtTab(s).TwoFields? {
      var f := CutAtTab(s);
      forall i | 0 <= i < |f.rest| ensures f.rest[i] != '\n' { assert f.rest[i] == s[|f.first| + 1 + i]; }
    }
  }

  lemma LineHashes(line: string)
    requires '\n' !in line
    ensures forall h :: h in MissingIn(line, map[]) ==> |h| == HEX_LEN && '\n' !in h
  {
    hide CutAtTab;
    if CHUNK_TAG <= line && !Stuck(line) {
      RestInside(line[6..]);
      RestInside(CutAtTab(line[6..]).rest);
    }
  }

  lemma {:induction false} TokenIsOneLine(text: string)
    ensures NextLine(text).Token? ==> '\n' !in NextLine(text).line
  {
    if text != "" && text[0] == '\n' { TokenIsOneLine(text[1..]); }
  }

  /** Whatever a scan finds has full length and no line end. */
  lemma {:induction false} FoundAreHashes(text: string)
    requires Scanned(text, map[]).Some?
    ensures FullLength(Scanned(text, map[]).value) && forall h :: h in Scanned(text, map[]).value ==> '\n' !in h
    decreases |text|
  {
    hide MissingIn, Stuck, NextLine;
    var t := NextLine(text);
    if t.Token? {
      TokenIsOneLine(text);
      LineHashes(t.line);
      FoundAreHashes(t.rest);
    }
  }

  lemma {:induction false} LackingExact(hashes: seq<Hash>, blobs: Blobs)
    ensures |Lacking(hashes, blobs)| <= |hashes|
    ensures forall h :: h in Lacking(hashes, blobs) <==> h in hashes && !Has(blobs, h)
  {
    hide Has;
    if hashes != [] { LackingExact(hashes[1..], blobs); }
  }

  lemma {:induction false} HeldExact(hashes: seq<Hash>, held: Blobs)
    ensures forall h :: h in HeldOf(hashes, held) <==> h in hashes && Has(held, h)
  {
    hide Has;
    if hashes != [] { HeldExact(hashes[1..], held); }
  }

  lemma {:induction false} ScannedLacks(text: string, blobs: Blobs)
    ensures Scanned(text, blobs)
            == if Scanned(text, map[]).None? then None else Some(Lacking(Scanned(text, map[]).value, blobs))
    decreases |text|
  {
    hide MissingIn, Stuck, NextLine;
    var t := NextLine(text);
    if t.Token? && !Stuck(t.line) {
      ScannedLacks(t.rest, blobs);
      LineLacks(t.line, blobs);
      if Scanned(t.rest, map[]).Some? {
        LackingConcat(MissingIn(t.line, map[]), Scanned(t.rest, map[]).value, blobs);
      }
    }
  }

  // ---- One snapshot ----

  /** The server reads out of the frame what arrives of the header, and the manifest as the client put it in. */
  lemma PayloadParses(l: Local)
    requires SendableHeader(l.header) && Sends(l)
    ensures var p := PayloadOf(l);
            '\n' in p && HeaderIn(p) == Arrived(l) && ManifestIn(p) == l.manifest.value
  {
    var line, text := HeaderLine(l.header), l.manifest.value;
    HeaderIsPlain(l.header);
    HeaderArrives(l.header);
    TextOfAll(line);
    hide HeaderLine, TextOf, ParsedHeader, Arriving;
    var p := PayloadOf(l);
    Assoc(line, "\n", text);
    IndexOfAt(line, '\n', "\n" + text);
    assert p[|line|] == '\n';
    assert p[..|line|] == line && p[|line| + 1..] == text;
  }

  lemma HeaderIsPlain(h: SnapHeader)
    requires SendableHeader(h)
    ensures '\n' !in HeaderLine(h) && '\0' !in HeaderLine(h)
  {
    NumbersArePlain(h);
    hide FromTime;
    assert '\n' !in FromSource(h) && '\0' !in FromSource(h);
    hide FromSource;
  }

  lemma NumbersArePlain(h: SnapHeader)
    ensures '\n' !in FromTime(h) && '\0' !in FromTime(h)
  {
    SignedDecimalIsPlain(h.ts);
    DecimalIsPlain(h.files);
    DecimalIsPlain(h.size);
    hide Decimal, SignedDecimal;
  }

  lemma ArrivedIsPlain(l: Local)
    requires SendableHeader(l.header)
    ensures |Arrived(l).id| <= ID_MAX && '\n' !in Arrived(l).id
  {
    HeaderIsPlain(l.header);
    hide HeaderLine, Arriving;
    ArrivingIsShort(l.header, '\n');
  }

  /** A frame whose id does not arrive is refused, and nothing changes. */
  lemma RefusedChangesNothing(s: ServerState, l: Local, held: Blobs)
    requires s.open && SendableHeader(l.header) && Sends(l) && !Stores(l)
    ensures SyncOne(s, l, held) == Going(s)
  {
    PayloadParses(l);
    hide HeaderLine, PayloadOf, HeaderIn, ManifestIn, Arrived, WithChunks, Handled, Answered, Sent;
    RefusedForId(s, PayloadOf(l));
  }

  lemma RefusedForId(s: ServerState, payload: string)
    requires s.open && '\n' in payload && HeaderIn(payload).id == ""
    ensures Handled(s, ManifestFrame(payload), true) == s && Answered(s, ManifestFrame(payload)).Note?
  {
    hide HeaderIn, ManifestIn, Scanned, SyncText.Reply, SnapshotFor;
  }

  /** `after` is `before` with some of the client's blobs added under their hashes. */
  ghost predicate Filled(before: Blobs, after: Blobs, held: Blobs) {
    && (forall h :: h in before ==> h in after)
    && (forall h :: h in after ==> (h in before && after[h] == before[h]) || (h in held && after[h] == held[h]))
  }

  lemma {:induction false} ChunksArrive(s: ServerState, hashes: seq<Hash>, held: Blobs)
    requires s.open && forall h :: h in hashes ==> h in held && Has(held, h) && held[h] != []
    ensures var t := WithChunks(s, hashes, held);
            && t == s.(blobs := t.blobs) && Filled(s.blobs, t.blobs, held)
            && forall h :: Has(t.blobs, h) <==> Has(s.blobs, h) || h in hashes
    decreases |hashes|
  {
    if hashes != [] {
      var one := Handled(s, ChunkFrame(hashes[0], held[hashes[0]]), true);
      assert one == s.(blobs := s.blobs[hashes[0] := held[hashes[0]]]);
      assert forall h :: h in hashes[1..] ==> h in held && Has(held, h) && held[h] != [];
      ChunksArrive(one, hashes[1..], held);
      hide Handled;
      assert forall h :: h in hashes[1..] ==> h in hashes;
      var t := WithChunks(s, hashes, held);
      forall h ensures Has(t.blobs, h) <==> Has(s.blobs, h) || h in hashes {
        assert Has(one.blobs, h) <==> Has(s.blobs, h) || h == hashes[0];
        assert h in hashes <==> h == hashes[0] || h in hashes[1..];
      }
    }
  }

  /** The client's store holds no empty file, as putting one is refused. */
  predicate NoneEmpty(held: Blobs) { forall h :: h in held ==> held[h] != [] }

  /** The hashes the server reports missing for a snapshot. */
  function Reported(s: ServerState, l: Local): seq<Hash>
    requires Stores(l) && WantedBy(l.manifest.value).Some?
  {
    Lacking(WantedBy(l.manifest.value).value, s.blobs)
  }

  /** The one reply that has no room for its hash. */
  predicate Dropped(s: ServerState, l: Local)
    requires Stores(l) && WantedBy(l.manifest.value).Some?
  {
    |Reported(s, l)| == 1 && |Arrived(l).id| > 30
  }

  function Recorded(s: ServerState, l: Local): ServerState
    requires Stores(l)
  {
    var name := ArrivedName(l);
    s.(snapshots := s.snapshots[name := SnapshotFor(Arrived(l))], manifests := s.manifests[name := l.manifest.value])
  }

  lemma FrameIsAnswered(s: ServerState, l: Local)
    requires s.open && Good(l) && Stores(l)
    ensures var r := ManifestFrame(PayloadOf(l));
            && Handled(s, r, true) == Recorded(s, l)
            && Answered(s, r) == Answer.Reply(SyncText.Reply(Arrived(l).id, Reported(s, l)))
  {
    PayloadParses(l);
    ScannedLacks(l.manifest.value, s.blobs);
    TextOfAll(l.manifest.value);
    hide HeaderIn, ManifestIn, TextOf, SafeName, PayloadOf, HeaderLine, Scanned, SyncText.Reply, Lacking, Arrived, SnapshotFor, QuietId;
  }

  /** Of the reported hashes the client sends those it has, or none at all when the reply has dropped the only one. */
  lemma ReplyIsServed(s: ServerState, l: Local, held: Blobs)
    requires Good(l) && Stores(l)
    ensures var reply := SyncText.Reply(Arrived(l).id, Reported(s, l));
            Sent(reply, held) == if Dropped(s, l) then [] else HeldOf(Reported(s, l), held)
  {
    ArrivedIsPlain(l);
    hide Arrived, QuietId;
    var id, hashes := Arrived(l).id, Reported(s, l);
    var wanted := WantedBy(l.manifest.value).value;
    FoundAreHashes(l.manifest.value);
    LackingExact(wanted, s.blobs);
    assert FullLength(hashes) && forall h :: h in hashes ==> '\n' !in h;
    hide Lacking, WantedBy, SyncText.Reply, ReplyHead, LinesOf, Sent, HeldOf, HeaderLine;
    ReplyComplete(id, hashes);
    if Dropped(s, l) {
      HeadIsSilent(id, held);
    } else {
      ClientSendsHeld(id, hashes, held);
    }
  }

  lemma HeadIsSilent(id: string, held: Blobs)
    requires '\n' !in id
    ensures Sent(ReplyHead(id, 1), held) == []
  {
    hide ReplyHead, Sent;
    HeadHasNoLineEnd(id, 1);
    OneLineSendsNothing(ReplyHead(id, 1), held);
  }

  /** One snapshot: what arrives of its header and its manifest as it is are recorded under the id that arrives, and what the server lacked and the client has arrives,
      unless the reply dropped it. */
  lemma SyncOneEffect(s: ServerState, l: Local, held: Blobs)
    requires s.open && Good(l) && Stores(l) && NoneEmpty(held)
    ensures SyncOne(s, l, held).Going?
    ensures var t := SyncOne(s, l, held).state;
            && t == Recorded(s, l).(blobs := t.blobs) && Filled(s.blobs, t.blobs, held)
            && (Dropped(s, l) ==> t.blobs == s.blobs)
            && (!Dropped(s, l) ==> forall h :: Has(t.blobs, h) <==> Has(s.blobs, h) || (h in Reported(s, l) && Has(held, h)))
  {
    FrameIsAnswered(s, l);
    ReplyIsServed(s, l, held);
    var reply := SyncText.Reply(Arrived(l).id, Reported(s, l));
    SentAreHeld(reply, held);
    HeldExact(Reported(s, l), held);
    var next := Recorded(s, l);
    ChunksArrive(next, Sent(reply, held), held);
    hide Handled, Answered, PayloadOf, HeaderLine, Reported, SyncText.Reply, Sent, HeldOf, SafeName, WantedBy, Has, Arrived,
         SnapshotFor;
    if Dropped(s, l) {
      assert WithChunks(next, [], held) == next;
    }
  }

  // ---- A whole run ----

  predicate AllGood(locals: seq<Local>) { forall l :: l in locals ==> Good(l) }

  /** No two snapshots arrive under one file name. */
  predicate DistinctNames(locals: seq<Local>) {
    forall i, j :: 0 <= i < j < |locals| && Stores(locals[i]) && Stores(locals[j]) ==> ArrivedName(locals[i]) != ArrivedName(locals[j])
  }

  lemma FilledTwice(a: Blobs, b: Blobs, c: Blobs, held: Blobs)
    requires Filled(a, b, held) && Filled(b, c, held)
    ensures Filled(a, c, held)
  {
  }

  /** What a completed run that ended in state `t` has achieved for one snapshot: header and manifest are there, and of
      its chunks only those are missing that the client lacks or a single one that the reply has no room for. */
  ghost predicate Converged(t: ServerState, l: Local, held: Blobs) {
    Stores(l) ==>
      && ArrivedName(l) in t.manifests && t.manifests[ArrivedName(l)] == l.manifest.value
      && ArrivedName(l) in t.snapshots && t.snapshots[ArrivedName(l)] == SnapshotFor(Arrived(l))
      && (WantedBy(l.manifest.value).Some? ==> Dropped(t, l) || forall h :: h in Reported(t, l) ==> !Has(held, h))
  }

  /** Nothing that was on the server is lost; only the artifacts of the given snapshots are written anew. */
  ghost predicate Kept(s: ServerState, t: ServerState, locals: seq<Local>, held: Blobs) {
    && t.open == s.open && Filled(s.blobs, t.blobs, held)
    && s.manifests.Keys <= t.manifests.Keys && s.snapshots.Keys <= t.snapshots.Keys
    && (forall name :: !NamesOne(locals, name) ==> SameUnder(s, t, name))
  }

  lemma OneConverges(s: ServerState, l: Local, held: Blobs)
    requires s.open && Good(l) && NoneEmpty(held)
    ensures SyncOne(s, l, held).Going?
    ensures Converged(SyncOne(s, l, held).state, l, held) && Kept(s, SyncOne(s, l, held).state, [l], held)
  {
    hide Arrived, SnapshotFor, QuietId, HeaderLine;
    if !Stores(l) {
      if Sends(l) { RefusedChangesNothing(s, l, held); }
      hide SyncOne;
      KeptWithOne(s, l, held);
    } else {
      SyncOneEffect(s, l, held);
      var t := SyncOne(s, l, held).state;
      NothingHeldIsLeft(s, t, l, held);
      hide SyncOne, SafeName, WantedBy, Lacking, SendableHeader, Has, Filled, Reported, Dropped;
      RecordedIsKept(s, t, l, held);
    }
  }

  lemma KeptWithOne(s: ServerState, l: Local, held: Blobs)
    ensures Kept(s, s, [l], held)
  {
    hide NamesOne;
  }

  lemma NothingHeldIsLeft(s: ServerState, t: ServerState, l: Local, held: Blobs)
    requires Stores(l) && WantedBy(l.manifest.value).Some?
    requires Dropped(s, l) ==> t.blobs == s.blobs
    requires !Dropped(s, l) ==> forall h :: Has(t.blobs, h) <==> Has(s.blobs, h) || (h in Reported(s, l) && Has(held, h))
    ensures Dropped(t, l) || forall h :: h in Reported(t, l) ==> !Has(held, h)
  {
    hide WantedBy, Lacking, Has;
    LackingExact(WantedBy(l.manifest.value).value, s.blobs);
    LackingExact(WantedBy(l.manifest.value).value, t.blobs);
  }

  lemma RecordedIsKept(s: ServerState, t: ServerState, l: Local, held: Blobs)
    requires Stores(l) && t == Recorded(s, l).(blobs := t.blobs) && Filled(s.blobs, t.blobs, held)
    ensures Kept(s, t, [l], held)
  {
    forall name | !NamesOne([l], name) ensures SameUnder(s, t, name) {
      assert l in [l];
      OtherNamesSame(s, l, name);
    }
    RecordedGrows(s, l);
    hide SafeName, Filled, Recorded, NamesOne, SameUnder;
  }

  lemma OtherNamesSame(s: ServerState, l: Local, name: string)
    requires Stores(l) && ArrivedName(l) != name
    ensures SameUnder(s, Recorded(s, l), name)
  {
    var key := ArrivedName(l);
    assert Recorded(s, l).manifests == s.manifests[key := l.manifest.value];
    assert Recorded(s, l).snapshots == s.snapshots[key := SnapshotFor(Arrived(l))];
  }

  lemma RecordedGrows(s: ServerState, l: Local)
    requires Stores(l)
    ensures Recorded(s, l).open == s.open
    ensures s.manifests.Keys <= Recorded(s, l).manifests.Keys && s.snapshots.Keys <= Recorded(s, l).snapshots.Keys
  {
    var key := ArrivedName(l);
    assert Recorded(s, l).manifests == s.manifests[key := l.manifest.value];
    assert Recorded(s, l).snapshots == s.snapshots[key := SnapshotFor(Arrived(l))];
  }

  /** A snapshot that has converged stays so while others are sent. */
  lemma StaysConverged(s: ServerState, t: ServerState, l: Local, rest: seq<Local>, held: Blobs)
    requires Converged(s, l, held) && Kept(s, t, rest, held)
    requires forall m :: m in rest && Stores(l) && Stores(m) ==> ArrivedName(m) != ArrivedName(l)
    ensures Converged(t, l, held)
  {
    hide Arrived, SnapshotFor, SafeName;
    if Stores(l) {
      var name := ArrivedName(l);
      assert !NamesOne(rest, name);
      assert SameUnder(s, t, name);
      hide WantedBy, NamesOne, Reported, Dropped;
      if WantedBy(l.manifest.value).Some? { StillNothingLeft(s, t, l, held); }
    }
  }

  /** With more blobs there the same hashes are missing or fewer. */
  lemma StillNothingLeft(s: ServerState, t: ServerState, l: Local, held: Blobs)
    requires Stores(l) && WantedBy(l.manifest.value).Some? && Filled(s.blobs, t.blobs, held)
    requires Dropped(s, l) || forall h :: h in Reported(s, l) ==> !Has(held, h)
    ensures Dropped(t, l) || forall h :: h in Reported(t, l) ==> !Has(held, h)
  {
    hide WantedBy, Lacking;
    var wanted := WantedBy(l.manifest.value).value;
    LackingShrinks(wanted, s.blobs, t.blobs);
    LackingExact(wanted, s.blobs);
    LackingExact(wanted, t.blobs);
  }

  lemma {:induction false} LackingShrinks(hashes: seq<Hash>, before: Blobs, after: Blobs)
    requires forall h :: Has(before, h) ==> Has(after, h)
    ensures |Lacking(hashes, after)| <= |Lacking(hashes, before)|
  {
    hide Has;
    if hashes != [] { LackingShrinks(hashes[1..], before, after); }
  }

  /** The artifacts kept under a name are the same. */
  predicate SameUnder(s: ServerState, t: ServerState, name: string) {
    && (name in t.manifests <==> name in s.manifests) && (name in t.manifests ==> t.manifests[name] == s.manifests[name])
    && (name in t.snapshots <==> name in s.snapshots) && (name in t.snapshots ==> t.snapshots[name] == s.snapshots[name])
  }

  predicate NamesOne(locals: seq<Local>, name: string) { exists l :: l in locals && Stores(l) && ArrivedName(l) == name }

  lemma KeptTwice(s: ServerState, u: ServerState, t: ServerState, l: Local, rest: seq<Local>, held: Blobs)
    requires Kept(s, u, [l], held) && Kept(u, t, rest, held)
    ensures Kept(s, t, [l] + rest, held)
  {
    hide SafeName, Filled;
    FilledTwice(s.blobs, u.blobs, t.blobs, held);
    forall name | !NamesOne([l] + rest, name) ensures SameUnder(s, t, name) {
      NamesApart(l, rest, name);
      assert SameUnder(s, u, name) && SameUnder(u, t, name);
    }
  }

  lemma NamesApart(l: Local, rest: seq<Local>, name: string)
    requires !NamesOne([l] + rest, name)
    ensures !NamesOne([l], name) && !NamesOne(rest, name)
  {
    hide SafeName;
    assert forall m :: m in [l] ==> m in [l] + rest;
    assert forall m :: m in rest ==> m in [l] + rest;
  }

  /** The server when a snapshot's turn comes. */
  function TurnState(s: ServerState, locals: seq<Local>, held: Blobs, i: nat): ServerState
    requires i <= |locals|
    decreases i
  {
    if i == 0 then s else TurnState(SyncOne(s, locals[0], held).state, locals[1..], held, i - 1)
  }

  /** At its turn a snapshot brings the hash along: its manifest lists it, the client has it, and the reply is complete. */
  predicate Delivers(u: ServerState, l: Local, held: Blobs, h: Hash) {
    Stores(l) && WantedBy(l.manifest.value).Some? && !Dropped(u, l) && h in WantedBy(l.manifest.value).value && Has(held, h)
  }

  /** Some snapshot of the run delivers the hash. */
  predicate Arrives(s: ServerState, locals: seq<Local>, held: Blobs, h: Hash) {
    exists i :: 0 <= i < |locals| && Delivers(TurnState(s, locals, held, i), locals[i], held, h)
  }

  lemma ArrivesStep(s: ServerState, locals: seq<Local>, held: Blobs, h: Hash)
    requires locals != []
    ensures Arrives(s, locals, held, h)
            <==> Delivers(s, locals[0], held, h) || Arrives(SyncOne(s, locals[0], held).state, locals[1..], held, h)
  {
    hide Delivers, SyncOne;
    var u, rest := SyncOne(s, locals[0], held).state, locals[1..];
    assert TurnState(s, locals, held, 0) == s;
    if Arrives(s, locals, held, h) {
      var i :| 0 <= i < |locals| && Delivers(TurnState(s, locals, held, i), locals[i], held, h);
      if i > 0 { assert Delivers(TurnState(u, rest, held, i - 1), rest[i - 1], held, h); }
    }
    if Arrives(u, rest, held, h) {
      var j :| 0 <= j < |rest| && Delivers(TurnState(u, rest, held, j), rest[j], held, h);
      assert Delivers(TurnState(s, locals, held, j + 1), locals[j + 1], held, h);
    }
  }

  lemma OneDelivers(s: ServerState, l: Local, held: Blobs, h: Hash)
    requires s.open && Good(l) && NoneEmpty(held)
    ensures Has(SyncOne(s, l, held).state.blobs, h) <==> Has(s.blobs, h) || Delivers(s, l, held, h)
  {
    hide Arrived, SnapshotFor, QuietId, HeaderLine;
    if !Stores(l) {
      if Sends(l) { RefusedChangesNothing(s, l, held); }
    } else {
      SyncOneEffect(s, l, held);
      LackingExact(WantedBy(l.manifest.value).value, s.blobs);
      hide SyncOne, SafeName, WantedBy, Lacking, SendableHeader, Has, Filled, Recorded;
    }
  }

  /** A run over good snapshots completes from any state of the server. Every manifest sent is there byte for byte, nothing
      has been removed, and the hashes on the server are those that were there and exactly those that some snapshot
      delivered: all that its manifest lists and the client has, unless at its turn the reply dropped its only missing one. */
  lemma {:induction false} RunConverges(s: ServerState, locals: seq<Local>, held: Blobs)
    requires s.open && AllGood(locals) && DistinctNames(locals) && NoneEmpty(held)
    ensures SyncAll(s, locals, held).Going?
    ensures var t := SyncAll(s, locals, held).state;
            && Kept(s, t, locals, held) && (forall l :: l in locals ==> Converged(t, l, held))
            && (forall h :: Has(t.blobs, h) <==> Has(s.blobs, h) || Arrives(s, locals, held, h))
    decreases |locals|
  {
    hide SyncOne, Good, SafeName, Converged, Kept, NoneEmpty, Arrives, Has, Delivers;
    if locals == [] {
      KeptItself(s, held);
      assert forall h :: !Arrives(s, locals, held, h) by { NothingArrives(s, locals, held); }
    } else {
      var l, rest := locals[0], locals[1..];
      assert l in locals;
      OneConverges(s, l, held);
      var u := SyncOne(s, l, held).state;
      assert u.open by { KeptOpen(s, u, [l], held); }
      RunConverges(u, rest, held);
      var t := SyncAll(u, rest, held).state;
      RestHasOtherNames(locals);
      StaysConverged(u, t, l, rest, held);
      KeptTwice(s, u, t, l, rest, held);
      assert [l] + rest == locals;
      forall h ensures Has(t.blobs, h) <==> Has(s.blobs, h) || Arrives(s, locals, held, h) {
        OneDelivers(s, l, held, h);
        ArrivesStep(s, locals, held, h);
      }
    }
  }

  lemma RestHasOtherNames(locals: seq<Local>)
    requires locals != [] && DistinctNames(locals)
    ensures DistinctNames(locals[1..])
    ensures forall m :: m in locals[1..] && Stores(locals[0]) && Stores(m) ==> ArrivedName(m) != ArrivedName(locals[0])
  {
    hide SafeName;
    var rest := locals[1..];
    assert forall k :: 0 <= k < |rest| ==> rest[k] == locals[k + 1];
  }

  lemma NothingArrives(s: ServerState, locals: seq<Local>, held: Blobs)
    requires locals == []
    ensures forall h :: !Arrives(s, locals, held, h)
  {
  }

  lemma KeptItself(s: ServerState, held: Blobs)
    ensures Kept(s, s, [], held)
  {
  }

  lemma KeptOpen(s: ServerState, t: ServerState, locals: seq<Local>, held: Blobs)
    requires Kept(s, t, locals, held)
    ensures t.open == s.open
  {
  }

  /** A snapshot finds at its turn what was there before, and leaves it for the end. */
  lemma {:induction false} TurnBetween(s: ServerState, locals: seq<Local>, held: Blobs, i: nat)
    requires s.open && AllGood(locals) && DistinctNames(locals) && NoneEmpty(held) && i <= |locals|
    ensures var u, t := TurnState(s, locals, held, i), SyncAll(s, locals, held).state;
            forall h :: (Has(s.blobs, h) ==> Has(u.blobs, h)) && (Has(u.blobs, h) ==> Has(t.blobs, h))
    decreases i
  {
    hide SyncOne, Good, SafeName, Kept, NoneEmpty, Arrives, Has, Delivers, Converged;
    if i == 0 {
      RunConverges(s, locals, held);
      assert TurnState(s, locals, held, 0) == s;
    } else {
      var l, rest := locals[0], locals[1..];
      assert l in locals;
      OneConverges(s, l, held);
      var one := SyncOne(s, l, held).state;
      assert one.open by { KeptOpen(s, one, [l], held); }
      RestHasOtherNames(locals);
      TurnBetween(one, rest, held, i - 1);
      var u, t := TurnState(one, rest, held, i - 1), SyncAll(one, rest, held).state;
      assert u == TurnState(s, locals, held, i) && t == SyncAll(s, locals, held).state;
      forall h ensures (Has(s.blobs, h) ==> Has(u.blobs, h)) && (Has(u.blobs, h) ==> Has(t.blobs, h)) {
        OneDelivers(s, l, held, h);
      }
    }
  }

  /** After a completed run every hash of a snapshot that is still missing is one that the client lacks, if and only if at
      its turn the reply was complete, or the only hash it reported is one the client lacks or another snapshot brought. */
  lemma OnlyUnheldReported(s: ServerState, locals: seq<Local>, held: Blobs, i: nat)
    requires s.open && AllGood(locals) && DistinctNames(locals) && NoneEmpty(held) && i < |locals| && Stores(locals[i])
    ensures WantedBy(locals[i].manifest.value).Some?
    ensures var l, u, t := locals[i], TurnState(s, locals, held, i), SyncAll(s, locals, held).state;
            (forall h :: h in Reported(t, l) ==> !Has(held, h))
            <==> (Dropped(u, l) ==> !Has(held, Reported(u, l)[0]) || Arrives(s, locals, held, Reported(u, l)[0]))
  {
    hide SyncAll, SyncOne, Good, Converged, Kept, NoneEmpty, Has, WantedBy, Reported, TurnState, DistinctNames, Arrives;
    var l, u, t := locals[i], TurnState(s, locals, held, i), SyncAll(s, locals, held).state;
    assert l in locals;
    GoodCanBeScanned(l);
    RunConverges(s, locals, held);
    TurnBetween(s, locals, held, i);
    forall h | Delivers(u, l, held, h) ensures Has(t.blobs, h) { DeliveredArrives(s, locals, held, i, h); }
    LeftAtTheEnd(u, t, l, held);
    if Dropped(u, l) { assert !Has(u.blobs, Reported(u, l)[0]) by { OneIsReported(u, l); } }
  }

  lemma GoodCanBeScanned(l: Local)
    requires Good(l) && Stores(l)
    ensures WantedBy(l.manifest.value).Some?
  {
    hide WantedBy, SendableHeader;
  }

  lemma DeliveredArrives(s: ServerState, locals: seq<Local>, held: Blobs, i: nat, h: Hash)
    requires i < |locals| && Delivers(TurnState(s, locals, held, i), locals[i], held, h)
    ensures Arrives(s, locals, held, h)
  {
    hide Delivers, TurnState;
  }

  lemma OneIsReported(u: ServerState, l: Local)
    requires Stores(l) && WantedBy(l.manifest.value).Some? && Dropped(u, l)
    ensures !Has(u.blobs, Reported(u, l)[0])
  {
    hide WantedBy, Lacking, Has;
    LackingExact(WantedBy(l.manifest.value).value, u.blobs);
    assert Reported(u, l)[0] in Reported(u, l);
  }

  /** From the turn of a snapshot to the end of the run. */
  lemma LeftAtTheEnd(u: ServerState, t: ServerState, l: Local, held: Blobs)
    requires Stores(l) && WantedBy(l.manifest.value).Some?
    requires forall h :: Has(u.blobs, h) ==> Has(t.blobs, h)
    requires forall h :: Delivers(u, l, held, h) ==> Has(t.blobs, h)
    ensures (forall h :: h in Reported(t, l) ==> !Has(held, h))
            <==> (Dropped(u, l) ==> !Has(held, Reported(u, l)[0]) || Has(t.blobs, Reported(u, l)[0]))
  {
    hide WantedBy, Lacking, Has;
    var wanted := WantedBy(l.manifest.value).value;
    LackingExact(wanted, u.blobs);
    LackingExact(wanted, t.blobs);
    if Dropped(u, l) {
      assert forall h :: h in Reported(u, l) ==> h == Reported(u, l)[0];
      assert Reported(u, l)[0] in Reported(u, l);
    }
  }

  // ---- A second run ----

  lemma {:induction false} HeldOfNoneHeld(hashes: seq<Hash>, held: Blobs)
    requires forall h :: h in hashes ==> !Has(held, h)
    ensures HeldOf(hashes, held) == []
  {
    if hashes != [] {
      assert hashes[0] in hashes;
      HeldOfNoneHeld(hashes[1..], held);
    }
  }

  lemma AgainOne(t: ServerState, l: Local, held: Blobs)
    requires t.open && Good(l) && Converged(t, l, held)
    ensures SyncOne(t, l, held) == Going(t)
  {
    hide Arrived, SnapshotFor, QuietId, HeaderLine;
    if !Stores(l) {
      if Sends(l) { RefusedChangesNothing(t, l, held); }
    } else {
      FrameIsAnswered(t, l);
      ReplyIsServed(t, l, held);
      if !Dropped(t, l) { HeldOfNoneHeld(Reported(t, l), held); }
      assert Recorded(t, l) == t by { RecordedAlready(t, l, held); }
      hide Handled, Answered, PayloadOf, HeaderLine, Reported, SyncText.Reply, Sent, HeldOf, SafeName, WantedBy, Has, Recorded, Dropped;
      assert WithChunks(t, [], held) == t;
    }
  }

  lemma RecordedAlready(t: ServerState, l: Local, held: Blobs)
    requires Stores(l) && Converged(t, l, held)
    ensures Recorded(t, l) == t
  {
    hide SafeName, WantedBy, Arrived, SnapshotFor;
    assert t.manifests[ArrivedName(l) := l.manifest.value] == t.manifests;
    assert t.snapshots[ArrivedName(l) := SnapshotFor(Arrived(l))] == t.snapshots;
  }

  lemma {:induction false} AgainAll(t: ServerState, locals: seq<Local>, held: Blobs)
    requires t.open && AllGood(locals) && forall l :: l in locals ==> Converged(t, l, held)
    ensures SyncAll(t, locals, held) == Going(t)
    decreases |locals|
  {
    hide SyncOne, Good, Converged;
    if locals != [] {
      assert locals[0] in locals;
      AgainOne(t, locals[0], held);
      AgainAll(t, locals[1..], held);
    }
  }

  /** A second run of the same client sends no chunk and leaves the server exactly as the first run left it. */
  lemma SecondRunChangesNothing(s: ServerState, locals: seq<Local>, held: Blobs)
    requires s.open && AllGood(locals) && DistinctNames(locals) && NoneEmpty(held)
    ensures SyncAll(s, locals, held).Going?
    ensures var t := SyncAll(s, locals, held).state; SyncAll(t, locals, held) == Going(t)
  {
    RunConverges(s, locals, held);
    hide SyncAll, Converged, Kept, AllGood, DistinctNames, NoneEmpty;
    var t := SyncAll(s, locals, held).state;
    assert t.open by { KeptOpen(s, t, locals, held); }
    AgainAll(t, locals, held);
  }

  /** A longer id with exactly one chunk missing: the chunk is not sent, in this run or in any later one. */
  lemma SingleChunkNeverArrives(s: ServerState, l: Local, held: Blobs)
    requires s.open && Good(l) && Stores(l) && NoneEmpty(held) && Dropped(s, l)
    ensures SyncOne(s, l, held).Going? && SyncOne(s, l, held).state.blobs == s.blobs
    ensures Dropped(SyncOne(s, l, held).state, l)
  {
    SyncOneEffect(s, l, held);
    hide SyncOne, Good, WantedBy, Lacking;
  }

  /** If the server could not take the lock at the greeting, nothing is stored and the run completes all the same. */
  lemma {:induction false} ClosedServerKeepsNothing(s: ServerState, locals: seq<Local>, held: Blobs)
    requires !s.open && forall l :: l in locals && Sends(l) ==> |HeaderLine(l.header)| < HEADER_CAP
    ensures SyncAll(s, locals, held) == Going(s)
    decreases |locals|
  {
    hide HeaderLine, PayloadOf;
    if locals != [] {
      assert locals[0] in locals;
      ClosedServerKeepsNothing(s, locals[1..], held);
    }
  }

  // ---- What the server's listing reads ----

  /** The `.snapshot` that the server writes is read back with the id and the source path that arrived and with the client's
      time, number of files and size, and without a label. */
  lemma RecordedReadsBack(l: Local)
    requires SendableHeader(l.header) && Stores(l)
    ensures Read(SnapshotFor(Arrived(l)))
            == Snapshot(Arrived(l).id, l.header.ts, Arrived(l).source, "", l.header.files, l.header.size)
  {
    var s := Snapshot(Arrived(l).id, l.header.ts, Arrived(l).source, "", l.header.files, l.header.size);
    ArrivedIsRecordable(l);
    hide Arrived, SendableHeader, Read;
    ReadsBackIff(s);
    assert SnapshotFor(Arrived(l)) == PrintSnapshot(s) by { ArrivedNumbers(l); }
  }

  lemma ArrivedNumbers(l: Local)
    ensures Arrived(l).ts == l.header.ts && Arrived(l).files == l.header.files && Arrived(l).size == l.header.size
  {
    hide ParsedHeader, Pair;
  }

  lemma ArrivedIsRecordable(l: Local)
    requires SendableHeader(l.header) && Stores(l)
    ensures Recordable(Snapshot(Arrived(l).id, l.header.ts, Arrived(l).source, "", l.header.files, l.header.size))
    ensures '\n' !in Arrived(l).source && |Arrived(l).source| <= 499 && l.header.files <= I64_MAX
  {
    HeaderIsPlain(l.header);
    HeaderHasRoom(l.header);
    hide HeaderLine, Arriving;
    ArrivingIsShort(l.header, '\n');
    ArrivingIsShort(l.header, '\0');
    ArrivingSourceLacks(l.header, '\n');
    ArrivingSourceLacks(l.header, '\0');
    ArrivingSourceFits(l.header, 499);
  }

  lemma HeaderHasRoom(h: SnapHeader)
    requires SendableHeader(h)
    ensures |h.id| + 3 <= 499 && |h.source| + 7 <= 499
  {
    hide Decimal, SignedDecimal;
    assert |FromTime(h)| >= 4;
  }

  // ---- Source paths with a tab ----

  /** Without a tab in id and source path the header is recorded as it is, and a tab in either is never recorded. */
  lemma RecordedAsSentIff(l: Local)
    requires SendableHeader(l.header) && |l.header.id| <= ID_MAX
    ensures Arrived(l) == l.header <==> '\t' !in l.header.id && '\t' !in l.header.source
  {
    assert |l.header.source| <= SOURCE_MAX by { hide Decimal, SignedDecimal; }
    hide HeaderLine;
    HeaderArrives(l.header);
    HeaderRoundTrip(l.header);
  }

  /** A snapshot goes to its own name on the server exactly when the last id that its source path brings in behind a tab, if
      any, has that name. */
  lemma ArrivesHomeIff(l: Local)
    requires '\t' !in l.header.id && |l.header.id| <= ID_MAX
    ensures var ids := TabIds(Pair("source", l.header.source));
            ArrivedName(l) == SafeName(l.header.id) <==> SafeName(LastOf(ids, l.header.id)) == SafeName(l.header.id)
  {
    hide TabIds, Arriving, SafeName;
    ArrivingId(l.header);
  }

  /** A source path with a tab and "id=" and the id of another snapshot behind it: the run writes over that one's artifacts
      and leaves nothing under its own name. */
  lemma TabWritesOver(s: ServerState, l: Local, held: Blobs, front: string, other: string)
    requires s.open && Good(l) && Sends(l) && NoneEmpty(held)
    requires '\t' !in l.header.id && |l.header.id| <= ID_MAX && SafeName(other) != SafeName(l.header.id)
    requires l.header.source == front + "\t" + ("id=" + other) && '\t' !in other && 0 < |other| <= ID_MAX
    ensures var run := SyncOne(s, l, held);
            && run.Going? && SafeName(other) in run.state.manifests && run.state.manifests[SafeName(other)] == l.manifest.value
            && SameUnder(s, run.state, SafeName(l.header.id))
  {
    hide SyncOne, SafeName, Reported, Dropped, Arriving, SnapshotFor, QuietId, HeaderLine, WantedBy, Has, Filled;
    TabTakesId(l.header, front, other);
    SyncOneEffect(s, l, held);
    OtherNamesSame(s, l, SafeName(l.header.id));
  }

  // ---- The client's loop ----

  /** Lines 1034-1198 and the greetings around them: the status tells a completed run from one given up; a run that the
      server does not answer would not come back. */
  method RunSync(server: Server, lockFree: bool, locals: seq<Local>, store: ChunkStore) returns (status: int, answered: bool)
    requires server.store != store
    modifies server, server.store
    ensures var run := SyncAll(Handled(old(server.State()), Hello, lockFree), locals, store.blobs);
            && answered == !run.Unanswered?
            && (answered ==> status == (if run.Going? then 0 else -1) && server.State() == run.state.(open := false))
            && (!answered ==> server.State() == run.state)
  {
    hide SyncOne;
    status, answered := -1, true;
    var _ := server.Handle(Hello, lockFree);
    ghost var run := SyncAll(server.State(), locals, store.blobs);
    var givenUp := false;
    assert locals[0..] == locals;
    for si := 0 to |locals|
      invariant answered && !givenUp && SyncAll(server.State(), locals[si..], store.blobs) == run
    {
      assert locals[si..][0] == locals[si] && locals[si..][1..] == locals[si + 1..];
      givenUp, answered := SyncSnapshot(server, locals[si], store);
      if !answered {
        return;
      }
      if givenUp {
        break;
      }
    }
    if !givenUp {
      status := 0;
    }
    var _ := server.Handle(Bye, lockFree);
  }

  method SyncSnapshot(server: Server, l: Local, store: ChunkStore) returns (givenUp: bool, answered: bool)
    requires server.store != store
    modifies server, server.store
    ensures var run := SyncOne(old(server.State()), l, store.blobs);
            server.State() == run.state && givenUp == run.GivenUp? && answered == !run.Unanswered?
  {
    hide HeaderLine, Sent, WithChunks, Handled, Answered;
    givenUp, answered := false, true;
    if !Sends(l) {
      return;
    }
    if |HeaderLine(l.header)| >= HEADER_CAP {
      return true, true;
    }
    var answer := server.Handle(ManifestFrame(PayloadOf(l)), true);
    if answer.Silence? {
      return false, false;
    }
    if answer.Reply? {
      SentAreHeld(answer.text, store.blobs);
      SendMissing(server, answer.text, store);
    }
  }

  /** Lines 1134-1192: line by line through the reply. */
  method SendMissing(server: Server, reply: string, store: ChunkStore)
    requires server.store != store && forall h :: h in Sent(reply, store.blobs) ==> h in store.blobs && Has(store.blobs, h)
    modifies server, server.store
    ensures server.State() == WithChunks(old(server.State()), Sent(reply, store.blobs), store.blobs)
  {
    hide Handled, AnnouncedCount, IndexOf, WithChunks, Offered, Has;
    var missingCount := AnnouncedCount(reply);
    var firstLine := IndexOf(reply, '\n');
    if missingCount == 0 || firstLine == |reply| {
      assert WithChunks(server.State(), [], store.blobs) == server.State() by { NoChunks(server.State(), store.blobs); }
      return;
    }
    var rest := reply[firstLine + 1..];
    var sentCount := 0;
    ghost var held := store.blobs;
    ghost var want := WithChunks(server.State(), Sent(reply, held), held);
    while rest != "" && sentCount < missingCount
      invariant sentCount <= missingCount && store.blobs == held
      invariant forall h :: h in Offered(rest, missingCount - sentCount, held) ==> h in held && Has(held, h)
      invariant WithChunks(server.State(), Offered(rest, missingCount - sentCount, held), held) == want
      decreases |rest|
    {
      OfferedStep(rest, missingCount - sentCount, held);
      var n := IndexOf(rest, '\n');
      var line := rest[..n];
      rest := if n < |rest| then rest[n + 1..] else "";
      ghost var left := missingCount - sentCount;
      OfferedAreHeld(rest, left, held);
      OfferedAreHeld(rest, left - 1, held);
      if n == HEX_LEN {
        var sent := SendOne(server, line, store, Offered(rest, left - 1, held));
        if sent {
          sentCount := sentCount + 1;
        }
      }
    }
    NothingOffered(rest, missingCount - sentCount, held);
    NoChunks(server.State(), held);
  }

  /** Lines 1167-1184. */
  method SendOne(server: Server, hash: Hash, store: ChunkStore, ghost later: seq<Hash>) returns (sent: bool)
    requires server.store != store && forall h :: h in later ==> h in store.blobs && Has(store.blobs, h)
    modifies server, server.store
    ensures sent <==> Has(store.blobs, hash)
    ensures !sent ==> server.State() == old(server.State())
    ensures sent ==> hash in store.blobs
                     && (forall h :: h in [hash] + later ==> h in store.blobs && Has(store.blobs, h))
                     && WithChunks(server.State(), later, store.blobs)
                        == WithChunks(old(server.State()), [hash] + later, store.blobs)
  {
    hide Handled;
    var rc, data := store.Get(hash);
    if rc != 0 {
      return false;
    }
    WithChunksFirst(server.State(), hash, later, store.blobs);
    var _ := server.Handle(ChunkFrame(hash, data), true);
    sent := true;
  }

  lemma NoChunks(s: ServerState, held: Blobs)
    ensures WithChunks(s, [], held) == s
  {
  }

  lemma NothingOffered(text: string, left: nat, held: Blobs)
    requires text == "" || left == 0
    ensures Offered(text, left, held) == []
  {
  }

  lemma OfferedStep(text: string, left: nat, held: Blobs)
    requires text != "" && left > 0
    ensures var n := IndexOf(text, '\n');
            var rest := if n < |text| then text[n + 1..] else "";
            Offered(text, left, held)
            == if n == HEX_LEN && Has(held, text[..n]) then [text[..n]] + Offered(rest, left - 1, held) else Offered(rest, left, held)
  {
  }

  lemma WithChunksFirst(s: ServerState, h: Hash, rest: seq<Hash>, held: Blobs)
    requires h in held && Has(held, h) && forall g :: g in rest ==> g in held && Has(held, g)
    ensures forall g :: g in [h] + rest ==> g in held && Has(held, g)
    ensures WithChunks(s, [h] + rest, held) == WithChunks(Handled(s, ChunkFrame(h, held[h]), true), rest, held)
  {
    hide Handled, Has;
    assert ([h] + rest)[1..] == rest;
  }
}
