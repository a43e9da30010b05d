/** The texts of a sync session: the snapshot header, the server's scan of a manifest, and its reply. Line numbers are
    those of src/net/server.c. */
module SyncText {
  import opened Bytes
  import opened ChunkStore
  import opened Hashing
  import opened Manifest
  import opened ManifestText
  import opened Path
  import opened SnapshotText
  import opened Text
  import opened Wrappers

  const NUMBER_MAX := 31

  // ---- The header line ----

  datatype SnapHeader = SnapHeader(id: string, source: string, ts: int, files: nat, size: nat)

  const BLANK := SnapHeader("", "", 0, 0, 0)

  function Pair(key: string, val: string): string { key + "=" + val }

  function FromFiles(h: SnapHeader): string { Pair("files", Decimal(h.files)) + "\t" + Pair("size", Decimal(h.size)) }

  function FromTime(h: SnapHeader): string { Pair("ts", SignedDecimal(h.ts)) + "\t" + FromFiles(h) }

  function FromSource(h: SnapHeader): string { Pair("source", h.source) + "\t" + FromTime(h) }

  /** Lines 1082-1092 of src/core/engine.c. */
  function HeaderLine(h: SnapHeader): string { "SNAPSHOT" + "\t" + (Pair("id", h.id) + "\t" + FromSource(h)) }

  function Assigned(h: SnapHeader, key: string, val: string): SnapHeader {
    if key == "id" then h.(id := Cut(val, ID_MAX))
    else if key == "source" then h.(source := Cut(val, SOURCE_MAX))
    else if key == "ts" then h.(ts := ParseI64(Cut(val, NUMBER_MAX)))
    else if key == "files" then h.(files := ParseI64(Cut(val, NUMBER_MAX)) % TWO_64)
    else if key == "size" then h.(size := ParseU64(Cut(val, NUMBER_MAX)))
    else h
  }

  /** One field: what stands around its first '='; a field without one changes nothing. */
  function WithField(h: SnapHeader, field: string): SnapHeader {
    var eq := IndexOf(field, '=');
    if eq < |field| then Assigned(h, field[..eq], field[eq + 1..]) else h
  }

  /** Lines 352-416: field by field between the tabs. */
  function ParsedHeader(h: SnapHeader, line: string): SnapHeader
    decreases |line|
  {
    var fields := CutAtTab(line);
    if line == "" then h
    else if fields.OneField? then WithField(h, line)
    else ParsedHeader(WithField(h, fields.first), fields.rest)
  }

  lemma FieldSplits(key: string, val: string)
    requires '=' !in key
    ensures IndexOf(Pair(key, val), '=') == |key|
    ensures Pair(key, val)[..|key|] == key && Pair(key, val)[|key| + 1..] == val
  {
    Assoc(key, "=", val);
    IndexOfAt(key, '=', "=" + val);
  }

  lemma FieldAssigns(h: SnapHeader, key: string, val: string)
    requires '=' !in key
    ensures WithField(h, Pair(key, val)) == Assigned(h, key, val)
  {
    FieldSplits(key, val);
    hide IndexOf, Assigned, Pair;
  }

  lemma HeaderField(h: SnapHeader, field: string, rest: string)
    requires '\t' !in field
    ensures ParsedHeader(h, field + "\t" + rest) == ParsedHeader(WithField(h, field), rest)
    ensures ParsedHeader(h, field) == WithField(h, field)
  {
    CutExact(field, rest);
    assert (field + "\t" + rest) != "";
    hide CutAtTab, WithField;
    if field == "" { assert WithField(h, "") == h by { BlankField(h); } }
  }

  lemma BlankField(h: SnapHeader)
    ensures WithField(h, "") == h
  {
  }

  /** What stands in front of a tab is read first. */
  lemma {:induction false} ParsedTwo(h: SnapHeader, a: string, b: string)
    ensures ParsedHeader(h, a + "\t" + b) == ParsedHeader(ParsedHeader(h, a), b)
    decreases |a|
  {
    hide CutAtTab, WithField, ParsedHeader;
    CutMeans(a);
    if '\t' !in a {
      HeaderField(h, a, b);
    } else {
      var f := CutAtTab(a);
      Assoc(f.first + "\t", f.rest, "\t" + b);
      Assoc(f.rest, "\t", b);
      assert a + "\t" + b == f.first + "\t" + (f.rest + "\t" + b);
      HeaderField(h, f.first, f.rest + "\t" + b);
      HeaderField(h, f.first, f.rest);
      ParsedTwo(WithField(h, f.first), f.rest, b);
    }
  }

  /** What the server reads out of the line for a header: id and source as its fields between tabs make them, and the time
      and the numbers, which come last, as they were. */
  function Arriving(h: SnapHeader): SnapHeader {
    ParsedHeader(ParsedHeader(BLANK, Pair("id", h.id)), Pair("source", h.source)).(ts := h.ts, files := h.files, size := h.size)
  }

  lemma HeaderArrives(h: SnapHeader)
    requires I64_MIN <= h.ts <= I64_MAX && h.files <= I64_MAX && h.size <= U64_MAX
    ensures ParsedHeader(BLANK, HeaderLine(h)) == Arriving(h)
  {
    hide Decimal, SignedDecimal, ParsedHeader, FromTime, FromFiles, WithField, Pair;
    FieldText(BLANK);
    HeaderField(BLANK, "SNAPSHOT", Pair("id", h.id) + "\t" + FromSource(h));
    var p := ParsedHeader(BLANK, Pair("id", h.id));
    ParsedTwo(BLANK, Pair("id", h.id), FromSource(h));
    ParsedTwo(p, Pair("source", h.source), FromTime(h));
    NumbersArrive(ParsedHeader(p, Pair("source", h.source)), h);
  }

  lemma NumbersArrive(p: SnapHeader, h: SnapHeader)
    requires I64_MIN <= h.ts <= I64_MAX && h.files <= I64_MAX && h.size <= U64_MAX
    ensures ParsedHeader(p, FromTime(h)) == p.(ts := h.ts, files := h.files, size := h.size)
  {
    HeaderNumbers(h);
    HeaderPlain(h);
    hide Decimal, SignedDecimal, ParsedHeader, ParseU64, ParseI64, FromTime, FromFiles, Cut;
    TimeStep(p, h);
    FilesStep(p.(ts := h.ts), h);
  }

  /** No field ever holds a tab, and none is longer than its buffer. */
  predicate PlainFields(h: SnapHeader) { '\t' !in h.id && '\t' !in h.source && |h.id| <= ID_MAX && |h.source| <= SOURCE_MAX }

  lemma {:induction false} ParsedIsPlain(h: SnapHeader, line: string)
    requires PlainFields(h)
    ensures PlainFields(ParsedHeader(h, line))
    decreases |line|
  {
    hide CutAtTab, WithField;
    CutMeans(line);
    if line != "" && '\t' in line {
      var f := CutAtTab(line);
      FieldIsPlain(h, f.first);
      ParsedIsPlain(WithField(h, f.first), f.rest);
    } else if line != "" {
      FieldIsPlain(h, line);
    }
  }

  lemma FieldIsPlain(h: SnapHeader, field: string)
    requires PlainFields(h) && '\t' !in field
    ensures PlainFields(WithField(h, field))
  {
    hide ParseI64, ParseU64;
  }

  /** Nor does one hold a character that the line lacks. */
  lemma {:induction false} ParsedLacks(h: SnapHeader, line: string, c: char)
    requires c !in line && c !in h.id && c !in h.source
    ensures c !in ParsedHeader(h, line).id && c !in ParsedHeader(h, line).source
    decreases |line|
  {
    hide CutAtTab, WithField;
    CutMeans(line);
    if line != "" && '\t' in line {
      var f := CutAtTab(line);
      FieldLacks(h, f.first, c);
      ParsedLacks(WithField(h, f.first), f.rest, c);
    } else if line != "" {
      FieldLacks(h, line, c);
    }
  }

  lemma FieldLacks(h: SnapHeader, field: string, c: char)
    requires c !in field && c !in h.id && c !in h.source
    ensures c !in WithField(h, field).id && c !in WithField(h, field).source
  {
    hide ParseI64, ParseU64;
  }

  /** Nor is one longer than the line. */
  lemma {:induction false} ParsedFits(h: SnapHeader, line: string, n: nat)
    requires |line| <= n && |h.source| <= n
    ensures |ParsedHeader(h, line).source| <= n
    decreases |line|
  {
    hide CutAtTab, WithField;
    CutMeans(line);
    if line != "" && '\t' in line {
      var f := CutAtTab(line);
      FieldFits(h, f.first, n);
      ParsedFits(WithField(h, f.first), f.rest, n);
    } else if line != "" {
      FieldFits(h, line, n);
    }
  }

  lemma FieldFits(h: SnapHeader, field: string, n: nat)
    requires |field| <= n && |h.source| <= n
    ensures |WithField(h, field).source| <= n
  {
    hide ParseI64, ParseU64;
  }

  lemma ArrivingSourceFits(h: SnapHeader, n: nat)
    requires |h.id| + 3 <= n && |h.source| + 7 <= n
    ensures |Arriving(h).source| <= n
  {
    hide ParsedHeader;
    ParsedFits(BLANK, Pair("id", h.id), n);
    ParsedFits(ParsedHeader(BLANK, Pair("id", h.id)), Pair("source", h.source), n);
  }

  /** What stays out of the line stays out of the source path that arrives. */
  lemma ArrivingSourceLacks(h: SnapHeader, c: char)
    requires c !in HeaderLine(h)
    ensures c !in Arriving(h).source
  {
    hide ParsedHeader, FromTime;
    var p := ParsedHeader(BLANK, Pair("id", h.id));
    ParsedLacks(BLANK, Pair("id", h.id), c);
    ParsedLacks(p, Pair("source", h.source), c);
  }

  lemma ArrivingIsShort(h: SnapHeader, c: char)
    requires c !in HeaderLine(h)
    ensures |Arriving(h).id| <= ID_MAX && c !in Arriving(h).id
  {
    hide ParsedHeader, FromTime;
    var p := ParsedHeader(BLANK, Pair("id", h.id));
    ParsedIsPlain(BLANK, Pair("id", h.id));
    ParsedIsPlain(p, Pair("source", h.source));
    ParsedLacks(BLANK, Pair("id", h.id), c);
    ParsedLacks(p, Pair("source", h.source), c);
  }

  /** What the client writes into the header is what the server reads out of it, if and only if neither id nor source path
      holds a tab. */
  lemma HeaderRoundTrip(h: SnapHeader)
    requires |h.id| <= ID_MAX && |h.source| <= SOURCE_MAX
    requires I64_MIN <= h.ts <= I64_MAX && h.files <= I64_MAX && h.size <= U64_MAX
    ensures ParsedHeader(BLANK, HeaderLine(h)) == h <==> '\t' !in h.id && '\t' !in h.source
  {
    hide HeaderLine, ParsedHeader;
    HeaderArrives(h);
    var p := ParsedHeader(BLANK, Pair("id", h.id));
    ParsedIsPlain(BLANK, Pair("id", h.id));
    ParsedIsPlain(p, Pair("source", h.source));
    hide Pair;
    if '\t' !in h.id && '\t' !in h.source {
      FieldArrives(BLANK, "id", h.id);
      FieldArrives(p, "source", h.source);
    }
  }

  lemma FieldArrives(h: SnapHeader, key: string, val: string)
    requires '=' !in key && '\t' !in key && '\t' !in val
    ensures ParsedHeader(h, Pair(key, val)) == Assigned(h, key, val)
  {
    HeaderStep(h, key, val, "");
  }

  // ---- Which id arrives ----

  /** The ids in the fields of a text, in order. */
  function TabIds(text: string): seq<string>
    decreases |text|
  {
    var fields := CutAtTab(text);
    if fields.OneField? then FieldId(text) else FieldId(fields.first) + TabIds(fields.rest)
  }

  function FieldId(field: string): seq<string> { if "id=" <= field then [Cut(field[3..], ID_MAX)] else [] }

  lemma FieldIdCounts(h: SnapHeader, field: string)
    ensures WithField(h, field).id == LastOf(FieldId(field), h.id)
  {
    hide ParseI64, ParseU64, Cut;
    if "id=" <= field {
      assert field == "id" + ("=" + field[3..]);
      IndexOfAt("id", '=', "=" + field[3..]);
      assert field[..2] == "id";
    }
  }

  /** The last one counts. */
  lemma {:induction false} LastFieldIsRead(h: SnapHeader, text: string)
    ensures ParsedHeader(h, text).id == LastOf(TabIds(text), h.id)
    decreases |text|
  {
    hide WithField, FieldId, CutAtTab;
    CutMeans(text);
    if text == "" {
      assert FieldId("") == [] by { NoFieldId(); }
    } else if '\t' !in text {
      FieldIdCounts(h, text);
    } else {
      var f := CutAtTab(text);
      FieldIdCounts(h, f.first);
      LastFieldIsRead(WithField(h, f.first), f.rest);
    }
  }

  lemma NoFieldId()
    ensures FieldId("") == []
  {
  }

  lemma {:induction false} TabIdsOfTwo(a: string, b: string)
    ensures TabIds(a + "\t" + b) == TabIds(a) + TabIds(b)
    decreases |a|
  {
    hide CutAtTab, FieldId;
    CutMeans(a);
    if '\t' !in a {
      CutExact(a, b);
    } else {
      var f := CutAtTab(a);
      Assoc(f.first + "\t", f.rest, "\t" + b);
      Assoc(f.rest, "\t", b);
      CutExact(f.first, f.rest + "\t" + b);
      assert a + "\t" + b == f.first + "\t" + (f.rest + "\t" + b);
      TabIdsOfTwo(f.rest, b);
    }
  }

  /** The id that arrives is the last one that the source path brings in behind a tab, or the snapshot's own. */
  lemma ArrivingId(h: SnapHeader)
    requires '\t' !in h.id && |h.id| <= ID_MAX
    ensures Arriving(h).id == LastOf(TabIds(Pair("source", h.source)), h.id)
  {
    hide ParsedHeader, TabIds;
    FieldArrives(BLANK, "id", h.id);
    LastFieldIsRead(BLANK.(id := h.id), Pair("source", h.source));
  }

  /** So it is the snapshot's own exactly when the source path brings in none, or the same last. */
  lemma IdArrivesIff(h: SnapHeader)
    requires '\t' !in h.id && |h.id| <= ID_MAX
    ensures var ids := TabIds(Pair("source", h.source));
            Arriving(h).id == h.id <==> ids == [] || ids[|ids| - 1] == h.id
  {
    hide TabIds, Arriving;
    ArrivingId(h);
  }

  /** A source path with a tab and "id=" behind it takes the snapshot to that id. */
  lemma TabTakesId(h: SnapHeader, front: string, id: string)
    requires '\t' !in h.id && |h.id| <= ID_MAX && h.source == front + "\t" + ("id=" + id) && '\t' !in id
    ensures Arriving(h).id == Cut(id, ID_MAX)
  {
    hide TabIds, Arriving, Cut;
    ArrivingId(h);
    var last := "id=" + id;
    Assoc("source=", front + "\t", last);
    Assoc("source=", front, "\t");
    assert Pair("source", h.source) == ("source=" + front) + "\t" + last;
    TabIdsOfTwo("source=" + front, last);
    assert TabIds(last) == [Cut(id, ID_MAX)] by { OneTabId(id); }
  }

  lemma OneTabId(id: string)
    requires '\t' !in id
    ensures TabIds("id=" + id) == [Cut(id, ID_MAX)]
  {
    CutExact("id=" + id, "");
    assert ("id=" + id)[3..] == id;
  }

  lemma HeaderPlain(h: SnapHeader)
    ensures '\t' !in SignedDecimal(h.ts) && '\t' !in Decimal(h.files) && '\t' !in Decimal(h.size)
  {
    SignedDecimalIsPlain(h.ts);
    DecimalIsPlain(h.files);
    DecimalIsPlain(h.size);
    hide Decimal, SignedDecimal;
  }

  lemma TimeStep(p: SnapHeader, h: SnapHeader)
    requires '\t' !in SignedDecimal(h.ts) && ParseI64(Cut(SignedDecimal(h.ts), NUMBER_MAX)) == h.ts
    ensures ParsedHeader(p, FromTime(h)) == ParsedHeader(p.(ts := h.ts), FromFiles(h))
  {
    hide ParsedHeader, FromFiles, ParseI64, SignedDecimal;
    HeaderStep(p, "ts", SignedDecimal(h.ts), FromFiles(h));
  }

  lemma FilesStep(p: SnapHeader, h: SnapHeader)
    requires '\t' !in Decimal(h.files) && ParseI64(Cut(Decimal(h.files), NUMBER_MAX)) % TWO_64 == h.files
    requires '\t' !in Decimal(h.size) && ParseU64(Cut(Decimal(h.size), NUMBER_MAX)) == h.size
    ensures ParsedHeader(p, FromFiles(h)) == p.(files := h.files, size := h.size)
  {
    hide ParsedHeader, ParseI64, ParseU64, Decimal;
    HeaderStep(p, "files", Decimal(h.files), Pair("size", Decimal(h.size)));
    HeaderStep(p.(files := h.files), "size", Decimal(h.size), "");
  }

  lemma HeaderStep(h: SnapHeader, key: string, val: string, rest: string)
    requires '=' !in key && '\t' !in key && '\t' !in val
    ensures ParsedHeader(h, Pair(key, val) + "\t" + rest) == ParsedHeader(Assigned(h, key, val), rest)
    ensures ParsedHeader(h, Pair(key, val)) == Assigned(h, key, val)
  {
    hide ParsedHeader, WithField, Assigned;
    HeaderField(h, Pair(key, val), rest);
    FieldAssigns(h, key, val);
  }

  /** The first field has no '='. */
  lemma FieldText(blank: SnapHeader)
    ensures WithField(blank, "SNAPSHOT") == blank
  {
    IndexOfAt("SNAPSHOT", '=', "");
    assert "SNAPSHOT" + "" == "SNAPSHOT";
  }

  lemma HeaderNumbers(h: SnapHeader)
    requires I64_MIN <= h.ts <= I64_MAX && h.files <= I64_MAX && h.size <= U64_MAX
    ensures ParseI64(Cut(SignedDecimal(h.ts), NUMBER_MAX)) == h.ts
    ensures ParseI64(Cut(Decimal(h.files), NUMBER_MAX)) % TWO_64 == h.files
    ensures ParseU64(Cut(Decimal(h.size), NUMBER_MAX)) == h.size
  {
    U64Length(if h.ts < 0 then -h.ts else h.ts);
    U64Length(h.files);
    U64Length(h.size);
    hide Decimal, ParseI64, ParseU64;
    ParsePrintedSigned(h.ts);
    ParsePrintedSigned(h.files);
    ParsePrinted(h.size);
  }

  // ---- The scan for missing chunks ----

  /** strtok at line ends: the next non-empty line and what is behind it. */
  datatype Token = NoToken | Token(line: string, rest: string)

  function NextLine(text: string): (t: Token)
    ensures t.Token? ==> t.line != "" && |t.rest| < |text|
  {
    if text == "" then NoToken
    else if text[0] == '\n' then NextLine(text[1..])
    else
      var n := IndexOf(text, '\n');
      Token(text[..n], if n < |text| then text[n + 1..] else "")
  }

  const CHUNK_TAG: string := "CHUNK\t"

  /** A chunk line that lacks one of the two tabs behind its tag. */
  predicate Stuck(line: string) {
    CHUNK_TAG <= line && (CutAtTab(line[6..]).OneField? || CutAtTab(CutAtTab(line[6..]).rest).OneField?)
  }

  /** The hash a chunk line contributes: 64 characters that the store does not have. */
  function MissingIn(line: string, blobs: Blobs): seq<Hash> {
    if !(CHUNK_TAG <= line) || Stuck(line) then []
    else
      var hash := CutAtTab(CutAtTab(line[6..]).rest).rest;
      if |hash| == HEX_LEN && !Has(blobs, hash) then [hash] else []
  }

  /** The loop's variables: the line in hand, strtok's position, and the hashes so far. */
  datatype Scan = Scan(token: Token, found: seq<Hash>)

  function StartScan(text: string): Scan { Scan(NextLine(text), []) }

  /** One turn of the loop in lines 300-346. A chunk line without its tabs is not left: the turn ends before the next
      line is fetched, with the line cut short if it had one tab. */
  function ScanStep(s: Scan, blobs: Blobs): Scan {
    if s.token.NoToken? then s
    else if !Stuck(s.token.line) then Scan(NextLine(s.token.rest), s.found + MissingIn(s.token.line, blobs))
    else if CutAtTab(s.token.line[6..]).OneField? then s
    else s.(token := Token(CHUNK_TAG + CutAtTab(s.token.line[6..]).first, s.token.rest))
  }

  function Scanning(s: Scan, blobs: Blobs, turns: nat): Scan
    decreases turns
  {
    if turns == 0 then s else Scanning(ScanStep(s, blobs), blobs, turns - 1)
  }

  ghost predicate Ends(s: Scan, blobs: Blobs) { exists turns :: Scanning(s, blobs, turns).token.NoToken? }

  /** What the scan finds, unless it is caught by a chunk line without its tabs. */
  function Scanned(text: string, blobs: Blobs): Option<seq<Hash>>
    decreases |text|
  {
    var t := NextLine(text);
    if t.NoToken? then Some([])
    else if Stuck(t.line) then None
    else
      var rest := Scanned(t.rest, blobs);
      if rest.None? then None else Some(MissingIn(t.line, blobs) + rest.value)
  }

  lemma StuckStays(s: Scan, blobs: Blobs)
    requires s.token.Token? && Stuck(s.token.line)
    ensures ScanStep(s, blobs).token.Token? && Stuck(ScanStep(s, blobs).token.line)
  {
    var cut := CutAtTab(s.token.line[6..]);
    if cut.TwoFields? {
      CutMeans(s.token.line[6..]);
      CutMeans(cut.first);
      assert (CHUNK_TAG + cut.first)[6..] == cut.first;
    }
  }

  lemma {:induction false} StuckForever(s: Scan, blobs: Blobs, turns: nat)
    requires s.token.Token? && Stuck(s.token.line)
    ensures Scanning(s, blobs, turns).token.Token?
    decreases turns
  {
    hide Stuck, ScanStep;
    if turns > 0 {
      StuckStays(s, blobs);
      StuckForever(ScanStep(s, blobs), blobs, turns - 1);
    }
  }

  lemma {:induction false} ScanReaches(text: string, found: seq<Hash>, blobs: Blobs) returns (turns: nat)
    requires Scanned(text, blobs).Some?
    ensures Scanning(Scan(NextLine(text), found), blobs, turns) == Scan(NoToken, found + Scanned(text, blobs).value)
    decreases |text|
  {
    hide Stuck, MissingIn, NextLine;
    var t := NextLine(text);
    if t.NoToken? {
      turns := 0;
      assert found + [] == found;
    } else {
      var more := found + MissingIn(t.line, blobs);
      turns := ScanReaches(t.rest, more, blobs);
      turns := turns + 1;
      assert more + Scanned(t.rest, blobs).value == found + Scanned(text, blobs).value;
    }
  }

  lemma {:induction false} ScanCaught(text: string, found: seq<Hash>, blobs: Blobs, turns: nat)
    requires Scanned(text, blobs).None?
    ensures Scanning(Scan(NextLine(text), found), blobs, turns).token.Token?
    decreases turns
  {
    var t := NextLine(text);
    var s := Scan(t, found);
    hide MissingIn, NextLine;
    if Stuck(t.line) {
      StuckForever(s, blobs, turns);
    } else if turns > 0 {
      ScanCaught(t.rest, found + MissingIn(t.line, blobs), blobs, turns - 1);
    }
  }

  /** The scan comes to an end exactly when no chunk line it meets lacks its tabs. */
  lemma ScanEndsIff(text: string, blobs: Blobs)
    ensures Ends(StartScan(text), blobs) <==> Scanned(text, blobs).Some?
  {
    hide Scanned, Scanning;
    if Scanned(text, blobs).Some? {
      var turns := ScanReaches(text, [], blobs);
    } else {
      forall turns: nat ensures Scanning(StartScan(text), blobs, turns).token.Token? {
        ScanCaught(text, [], blobs, turns);
      }
    }
  }

  // ---- The scan of a printed manifest ----

  function MissingChunks(chunks: seq<Chunk>, blobs: Blobs): seq<Hash> {
    if chunks == [] then []
    else (if |chunks[0].hash| == HEX_LEN && !Has(blobs, chunks[0].hash) then [chunks[0].hash] else [])
         + MissingChunks(chunks[1..], blobs)
  }

  /** In order, the hashes of the listed chunks that the store does not have. */
  function MissingFiles(files: seq<File>, blobs: Blobs): seq<Hash> {
    if files == [] then [] else MissingChunks(files[0].chunks, blobs) + MissingFiles(files[1..], blobs)
  }

  function Joined(front: seq<Hash>, rest: Option<seq<Hash>>): Option<seq<Hash>> {
    if rest.None? then None else Some(front + rest.value)
  }

  lemma ScannedLine(line: string, rest: string, blobs: Blobs)
    requires line != "" && '\n' !in line
    ensures Scanned(line + "\n" + rest, blobs)
            == if Stuck(line) then None else Joined(MissingIn(line, blobs), Scanned(rest, blobs))
  {
    var text := line + "\n" + rest;
    Assoc(line, "\n", rest);
    IndexOfAt(line, '\n', "\n" + rest);
    assert text[0] == line[0];
    assert text[..|line|] == line && text[|line| + 1..] == rest;
    hide Stuck, MissingIn, IndexOf;
  }

  /** Lines that are not chunk lines contribute nothing. */
  lemma ScannedOther(line: string, rest: string, blobs: Blobs)
    requires line != "" && '\n' !in line && !(CHUNK_TAG <= line)
    ensures Scanned(line + "\n" + rest, blobs) == Scanned(rest, blobs)
  {
    ScannedLine(line, rest, blobs);
    hide Scanned;
    if Scanned(rest, blobs).Some? { assert [] + Scanned(rest, blobs).value == Scanned(rest, blobs).value; }
  }

  lemma ChunkLineFields(c: Chunk)
    requires GoodChunk(c)
    ensures var line := PrintChunk(c)[..|PrintChunk(c)| - 1];
            && PrintChunk(c) == line + "\n" && '\n' !in line && CHUNK_TAG <= line && |line| >= 6
            && CutAtTab(line[6..]) == TwoFields(Decimal(c.offset), Decimal(c.size) + "\t" + c.hash)
            && CutAtTab(Decimal(c.size) + "\t" + c.hash) == TwoFields(Decimal(c.size), c.hash)
  {
    var rest := Decimal(c.offset) + "\t" + (Decimal(c.size) + "\t" + c.hash);
    ChunkLineShape(c);
    ChunkLineLength(c);
    DecimalIsPlain(c.offset);
    DecimalIsPlain(c.size);
    hide Decimal, IsHex, PrintChunk;
    CutExact(Decimal(c.offset), Decimal(c.size) + "\t" + c.hash);
    CutExact(Decimal(c.size), c.hash);
    var line := PrintChunk(c)[..|PrintChunk(c)| - 1];
    assert line == "CHUNK\t" + rest;
    assert line[6..] == rest;
  }

  lemma ScannedChunk(c: Chunk, rest: string, blobs: Blobs)
    requires GoodChunk(c)
    ensures Scanned(PrintChunk(c) + rest, blobs)
            == Joined(if |c.hash| == HEX_LEN && !Has(blobs, c.hash) then [c.hash] else [], Scanned(rest, blobs))
  {
    var line := PrintChunk(c)[..|PrintChunk(c)| - 1];
    ChunkLineFields(c);
    hide PrintChunk, Scanned, CutAtTab, Decimal;
    ScannedLine(line, rest, blobs);
  }

  lemma {:induction false} ScannedChunks(chunks: seq<Chunk>, rest: string, blobs: Blobs)
    requires forall c :: c in chunks ==> GoodChunk(c)
    ensures Scanned(PrintChunks(chunks) + rest, blobs) == Joined(MissingChunks(chunks, blobs), Scanned(rest, blobs))
    decreases |chunks|
  {
    hide PrintChunk, Scanned, GoodChunk;
    if chunks == [] {
      assert "" + rest == rest;
      assert Scanned(rest, blobs).Some? ==> [] + Scanned(rest, blobs).value == Scanned(rest, blobs).value;
    } else {
      Assoc(PrintChunk(chunks[0]), PrintChunks(chunks[1..]), rest);
      ScannedChunk(chunks[0], PrintChunks(chunks[1..]) + rest, blobs);
      ScannedChunks(chunks[1..], rest, blobs);
      JoinedTwice(if |chunks[0].hash| == HEX_LEN && !Has(blobs, chunks[0].hash) then [chunks[0].hash] else [],
                  MissingChunks(chunks[1..], blobs), Scanned(rest, blobs));
    }
  }

  lemma JoinedTwice(a: seq<Hash>, b: seq<Hash>, c: Option<seq<Hash>>)
    ensures Joined(a, Joined(b, c)) == Joined(a + b, c)
  {
    if c.Some? { assert a + (b + c.value) == a + b + c.value; }
  }

  lemma FileLineScans(f: File, rest: string, blobs: Blobs)
    requires '\n' !in f.path
    ensures Scanned(FileLine(f) + rest, blobs) == Scanned(rest, blobs)
  {
    var line := FileHead(f) + Decimal(|f.chunks|);
    FileHeadPlain(f);
    hide FileHead, Decimal, Scanned;
    ScannedOther(line, rest, blobs);
  }

  lemma FileHeadPlain(f: File)
    requires '\n' !in f.path
    ensures var line := FileHead(f) + Decimal(|f.chunks|);
            line != "" && '\n' !in line && !(CHUNK_TAG <= line)
  {
    SignedDecimalIsPlain(f.mtime);
    DecimalIsPlain(f.size);
    DecimalIsPlain(|f.chunks|);
    hide Decimal, SignedDecimal;
    assert (FileHead(f) + Decimal(|f.chunks|))[0] == 'F';
  }

  lemma {:induction false} ScannedFiles(files: seq<File>, blobs: Blobs)
    requires forall f :: f in files ==> '\n' !in f.path && forall c :: c in f.chunks ==> GoodChunk(c)
    ensures Scanned(PrintFiles(files), blobs) == Some(MissingFiles(files, blobs))
    decreases |files|
  {
    hide Scanned, FileLine, PrintChunks, MissingChunks, GoodChunk;
    if files == [] {
      assert Scanned("", blobs) == Some([]) by { ScannedNothing(blobs); }
    } else {
      var f, rest := files[0], PrintFiles(files[1..]);
      FileShape(f, rest);
      FileLineScans(f, PrintChunks(f.chunks) + ("END\n" + rest), blobs);
      ScannedChunks(f.chunks, "END\n" + rest, blobs);
      assert "END" + "\n" == "END\n";
      ScannedOther("END", rest, blobs);
      ScannedFiles(files[1..], blobs);
    }
  }

  lemma ScannedNothing(blobs: Blobs)
    ensures Scanned("", blobs) == Some([])
  {
  }

  /** On any printed manifest whose paths have no line end the scan ends, and finds in order exactly the chunk hashes of
      full length that the store does not have. */
  lemma ScanOfPrinted(m: Listing, blobs: Blobs)
    requires forall f :: f in m.files ==> '\n' !in f.path && forall c :: c in f.chunks ==> GoodChunk(c)
    ensures Ends(StartScan(Print(m)), blobs) && Scanned(Print(m), blobs) == Some(MissingFiles(m.files, blobs))
  {
    ScanEndsIff(Print(m), blobs);
    var totals := TotalLine(m);
    TotalLineScans(m, PrintFiles(m.files), blobs);
    ScannedFiles(m.files, blobs);
    hide Scanned, Ends, TotalLine, PrintFiles, GoodChunk, MissingFiles;
    Assoc(MagicLine(), totals, PrintFiles(m.files));
    MagicLineScans(totals + PrintFiles(m.files), blobs);
  }

  lemma MagicLineScans(rest: string, blobs: Blobs)
    ensures Scanned(MagicLine() + rest, blobs) == Scanned(rest, blobs)
  {
    hide Scanned;
    var line := "CIFRASYNC-MANIFEST\t1";
    assert line + "\n" == MagicLine();
    assert line[1] == 'I';
    ScannedOther(line, rest, blobs);
  }

  lemma TotalLineScans(m: Listing, rest: string, blobs: Blobs)
    ensures Scanned(TotalLine(m) + rest, blobs) == Scanned(rest, blobs)
  {
    var fields := Decimal(m.totalBytes) + "\t" + Decimal(m.totalChunks);
    TotalsArePlain(m);
    TotalLineShape(m);
    hide Decimal, TotalLine, Scanned;
    var line := "TOTAL" + "\t" + fields;
    assert line[0] == 'T';
    ScannedOther(line, rest, blobs);
  }

  /** The scan agrees with the loader: on a manifest that loads back, it finds exactly the loaded hashes not in the store. */
  lemma ScanAgreesWithLoader(m: Listing, blobs: Blobs)
    requires Totalled(m) && forall f :: f in m.files ==> Printable(f) && FitsLine(f)
    ensures Loaded(Print(m)) == Some(m)
    ensures Scanned(Print(m), blobs) == Some(MissingFiles(Loaded(Print(m)).value.files, blobs))
  {
    hide Print, Loaded, Scanned, MissingFiles, GoodChunk, Components;
    PrintedLoads(m);
    ScanOfPrinted(m, blobs);
  }

  /** A recorded path with line ends can stop the server for good: a part of it reads as a chunk line without tabs. */
  lemma LineEndCanCatchScan(f: File, rest: string, blobs: Blobs)
    requires f.path == "a\nCHUNK\t\nb"
    ensures Scanned(PrintFile(f) + rest, blobs) == None
  {
    var tail := "b\t" + SignedDecimal(f.mtime) + "\t" + Decimal(f.size) + "\t" + Decimal(|f.chunks|) + "\n"
                + PrintChunks(f.chunks) + "END\n" + rest;
    CaughtShape(f, rest, tail);
    hide Scanned, PrintFile;
    var first, second := "FILE\ta", "CHUNK\t";
    assert first[0] == 'F';
    ScannedOther(first, second + "\n" + tail, blobs);
    ScannedLine(second, tail, blobs);
    assert Stuck(second) by { CutMeans(second[6..]); }
  }

  lemma CaughtShape(f: File, rest: string, tail: string)
    requires f.path == "a\nCHUNK\t\nb"
    requires tail == "b\t" + SignedDecimal(f.mtime) + "\t" + Decimal(f.size) + "\t" + Decimal(|f.chunks|) + "\n"
                     + PrintChunks(f.chunks) + "END\n" + rest
    ensures PrintFile(f) + rest == "FILE\ta" + "\n" + ("CHUNK\t" + "\n" + tail)
  {
    hide Decimal, SignedDecimal, PrintChunks;
  }

  /** Lines 284-350: the loop, which ends early here where the source would take the same line again and again. */
  method CollectMissing(text: string, store: ChunkStore) returns (caught: bool, hashes: seq<Hash>)
    ensures caught <==> Scanned(text, store.blobs).None?
    ensures !caught ==> Scanned(text, store.blobs) == Some(hashes)
  {
    hide MissingIn, NextLine, CutAtTab, Has;
    caught, hashes := false, [];
    ghost var want := Scanned(text, store.blobs);
    assert want == Joined([], want) by { if want.Some? { assert [] + want.value == want.value; } }
    var token := NextLine(text);
    ghost var from := text;
    while token.Token?
      invariant token == NextLine(from) && want == Joined(hashes, Scanned(from, store.blobs))
      decreases |from|
    {
      var line := token.line;
      ghost var before := hashes;
      if CHUNK_TAG <= line {
        var offset := CutAtTab(line[6..]);
        if offset.OneField? {
          return true, [];
        }
        var size := CutAtTab(offset.rest);
        if size.OneField? {
          return true, [];
        }
        if |size.rest| == HEX_LEN {
          var found := store.Exists(size.rest);
          if !found {
            hashes := hashes + [size.rest];
          }
        }
      }
      assert hashes == before + MissingIn(line, store.blobs) by { MissingInIs(line, store.blobs); }
      JoinedTwice(before, MissingIn(line, store.blobs), Scanned(token.rest, store.blobs));
      from := token.rest;
      token := NextLine(token.rest);
    }
    assert hashes + [] == hashes;
  }

  lemma MissingInIs(line: string, blobs: Blobs)
    requires !Stuck(line)
    ensures !(CHUNK_TAG <= line) ==> MissingIn(line, blobs) == []
    ensures CHUNK_TAG <= line ==>
      var hash := CutAtTab(CutAtTab(line[6..]).rest).rest;
      MissingIn(line, blobs) == if |hash| == HEX_LEN && !Has(blobs, hash) then [hash] else []
  {
  }

  // ---- The reply and its buffer ----

  const LINE_LENGTH := HEX_LEN + 1
  const REPLY_MIN := 128

  function ReplyFront(id: string): string { "ACK MANIFEST snapshot=" + id + " " }

  function Marker(): (r: string)
    ensures |r| == 8
  {
    "missing="
  }

  function ReplyHead(id: string, count: nat): string { ReplyFront(id) + Marker() + Decimal(count) }

  /** Lines 539-545. */
  function ReplyCapacity(count: nat): nat {
    if count > 0 && count * LINE_LENGTH > REPLY_MIN then count * LINE_LENGTH + REPLY_MIN else REPLY_MIN
  }

  /** What fits is appended; a line that does not fit with its NUL is dropped. */
  function WithLines(text: string, capacity: nat, hashes: seq<Hash>): string
    decreases |hashes|
  {
    if hashes == [] then text
    else WithLines(if |text| + 1 + |hashes[0]| < capacity then text + ("\n" + hashes[0]) else text, capacity, hashes[1..])
  }

  function Reply(id: string, hashes: seq<Hash>): string {
    var head, capacity := ReplyHead(id, |hashes|), ReplyCapacity(|hashes|);
    WithLines(if |head| < capacity then head else "", capacity, hashes)
  }

  function LinesOf(hashes: seq<Hash>): string {
    if hashes == [] then "" else "\n" + hashes[0] + LinesOf(hashes[1..])
  }

  predicate FullLength(hashes: seq<Hash>) { forall h :: h in hashes ==> |h| == HEX_LEN }

  lemma {:induction false} AllLinesFit(text: string, capacity: nat, hashes: seq<Hash>)
    requires FullLength(hashes) && |text| + |hashes| * LINE_LENGTH < capacity
    ensures WithLines(text, capacity, hashes) == text + LinesOf(hashes)
    decreases |hashes|
  {
    if hashes == [] {
      assert text + "" == text;
    } else {
      assert |hashes[0]| == HEX_LEN && FullLength(hashes[1..]);
      Assoc(text, "\n" + hashes[0], LinesOf(hashes[1..]));
      hide FullLength;
      AllLinesFit(text + ("\n" + hashes[0]), capacity, hashes[1..]);
    }
  }

  lemma HeadLength(id: string, count: nat)
    requires count <= U64_MAX
    ensures 31 + |id| < |ReplyHead(id, count)| <= 51 + |id| && (count < 10 ==> |ReplyHead(id, count)| == 32 + |id|)
  {
    U64Length(count);
  }

  /** The reply holds every hash, except that a single one is dropped when the id has more than 30 characters. */
  lemma ReplyComplete(id: string, hashes: seq<Hash>)
    requires |id| <= ID_MAX && FullLength(hashes) && |hashes| <= U64_MAX
    ensures Reply(id, hashes) == ReplyHead(id, |hashes|) + LinesOf(hashes) <==> !(|hashes| == 1 && |id| > 30)
    ensures |hashes| == 1 && |id| > 30 ==> Reply(id, hashes) == ReplyHead(id, 1)
  {
    hide Reply, ReplyHead, LinesOf;
    if |hashes| == 0 {
      NoLineReply(id, hashes);
    } else if |hashes| == 1 {
      SingleReply(id, hashes);
    } else {
      ManyReply(id, hashes);
    }
  }

  lemma NoLineReply(id: string, hashes: seq<Hash>)
    requires |id| <= ID_MAX && hashes == []
    ensures Reply(id, hashes) == ReplyHead(id, |hashes|) + LinesOf(hashes)
  {
    HeadLength(id, 0);
    hide ReplyHead;
    assert ReplyHead(id, 0) + "" == ReplyHead(id, 0);
  }

  lemma SingleReply(id: string, hashes: seq<Hash>)
    requires |id| <= ID_MAX && |hashes| == 1 && FullLength(hashes)
    ensures Reply(id, hashes) == ReplyHead(id, 1) + LinesOf(hashes) <==> |id| <= 30
    ensures |id| > 30 ==> Reply(id, hashes) == ReplyHead(id, 1)
  {
    HeadLength(id, 1);
    OneLineReply(ReplyHead(id, 1), hashes);
    hide ReplyHead, WithLines, LinesOf;
  }

  lemma ManyReply(id: string, hashes: seq<Hash>)
    requires |id| <= ID_MAX && 1 < |hashes| <= U64_MAX && FullLength(hashes)
    ensures Reply(id, hashes) == ReplyHead(id, |hashes|) + LinesOf(hashes)
  {
    HeadLength(id, |hashes|);
    RoomForAll(|ReplyHead(id, |hashes|)|, |hashes|);
    hide ReplyHead, WithLines, LinesOf, FullLength, ReplyCapacity;
    AllLinesFit(ReplyHead(id, |hashes|), ReplyCapacity(|hashes|), hashes);
  }

  lemma RoomForAll(head: nat, count: nat)
    requires count > 1 && head < REPLY_MIN
    ensures head + count * LINE_LENGTH < ReplyCapacity(count) && head < ReplyCapacity(count)
  {
  }

  lemma OneLineReply(head: string, hashes: seq<Hash>)
    requires |hashes| == 1 && FullLength(hashes)
    ensures WithLines(head, REPLY_MIN, hashes)
            == if |head| + LINE_LENGTH < REPLY_MIN then head + LinesOf(hashes) else head
    ensures |LinesOf(hashes)| == LINE_LENGTH
  {
    assert hashes[0] in hashes;
    assert hashes[1..] == [];
    assert LinesOf(hashes) == "\n" + hashes[0] + LinesOf(hashes[1..]);
    assert "\n" + hashes[0] + "" == "\n" + hashes[0];
  }

  /** Lines 538-572. */
  method BuildReply(id: string, hashes: seq<Hash>) returns (reply: string)
    ensures reply == Reply(id, hashes)
  {
    hide ReplyHead;
    var capacity := REPLY_MIN;
    if |hashes| > 0 && |hashes| * LINE_LENGTH > capacity {
      capacity := |hashes| * LINE_LENGTH + REPLY_MIN;
    }
    reply := "";
    var head := ReplyHead(id, |hashes|);
    if |head| < capacity {
      reply := head;
    }
    assert hashes[0..] == hashes;
    for i := 0 to |hashes|
      invariant WithLines(reply, capacity, hashes[i..]) == Reply(id, hashes)
    {
      assert hashes[i..][0] == hashes[i] && hashes[i..][1..] == hashes[i + 1..];
      var line := "\n" + hashes[i];
      if |line| < capacity - |reply| {
        reply := reply + line;
      }
    }
  }

  // ---- What the client makes of a reply; line numbers of src/core/engine.c ----

  /** strstr: where the marker first occurs; the length when it does not. */
  function MarkerAt(s: string): (n: nat)
    ensures n <= |s| && (n < |s| ==> n + |Marker()| <= |s|)
  {
    if s == "" then 0 else if Marker() <= s then 0 else 1 + MarkerAt(s[1..])
  }

  /** Lines 1134-1146: the number behind the marker, none without it. */
  function AnnouncedCount(reply: string): nat {
    var n := MarkerAt(reply);
    if n == |reply| then 0 else ParseI64(reply[n + |Marker()|..]) % TWO_64
  }

  /** Lines 1148-1192: line by line, the full-length hashes that the client has, until `left` have been sent. */
  function Offered(text: string, left: nat, held: Blobs): seq<Hash>
    decreases |text|
  {
    if text == "" || left == 0 then []
    else
      var n := IndexOf(text, '\n');
      var line, rest := text[..n], if n < |text| then text[n + 1..] else "";
      if n == HEX_LEN && Has(held, line) then [line] + Offered(rest, left - 1, held) else Offered(rest, left, held)
  }

  /** The chunks the client sends in answer to a reply, every send going well. */
  function Sent(reply: string, held: Blobs): seq<Hash> {
    var n := IndexOf(reply, '\n');
    var count := AnnouncedCount(reply);
    if count == 0 || n == |reply| then [] else Offered(reply[n + 1..], count, held)
  }

  function HeldOf(hashes: seq<Hash>, held: Blobs): seq<Hash> {
    if hashes == [] then [] else (if Has(held, hashes[0]) then [hashes[0]] else []) + HeldOf(hashes[1..], held)
  }

  lemma {:induction false} MarkerNotBefore(s: string, k: nat)
    requires k <= |s| && forall p :: 0 <= p < k ==> !(Marker() <= s[p..])
    ensures MarkerAt(s) >= k
  {
    if k > 0 {
      assert s[0..] == s;
      forall p | 0 <= p < k - 1 ensures !(Marker() <= s[1..][p..]) { assert s[1..][p..] == s[p + 1..]; }
      MarkerNotBefore(s[1..], k - 1);
    }
  }

  lemma {:induction false} MarkerNotAfter(s: string, k: nat)
    requires k < |s| && Marker() <= s[k..]
    ensures MarkerAt(s) <= k
  {
    if k == 0 {
      assert s[0..] == s;
    } else {
      assert s[1..][k - 1..] == s[k..];
      MarkerNotAfter(s[1..], k - 1);
    }
  }

  /** With this id no marker stands in front of the one with the count. */
  predicate QuietId(id: string) { MarkerAt(ReplyFront(id) + Marker()) == |ReplyFront(id)| }

  /** Whether a marker stands at a place is decided by the next characters. */
  lemma MarkerDecided(a: string, rest: string, p: nat)
    requires p + |Marker()| <= |a|
    ensures Marker() <= (a + rest)[p..] <==> Marker() <= a[p..]
  {
    assert (a + rest)[p..][..|Marker()|] == a[p..][..|Marker()|];
  }

  lemma MarkerInReply(id: string, rest: string)
    requires QuietId(id)
    ensures MarkerAt(ReplyFront(id) + (Marker() + rest)) == |ReplyFront(id)|
  {
    hide ReplyFront, Marker;
    var front := ReplyFront(id);
    var s := front + (Marker() + rest);
    Assoc(front, Marker(), rest);
    assert s[|front|..] == Marker() + rest;
    MarkerNotAfter(s, |front|);
    forall p | 0 <= p < |front| ensures !(Marker() <= s[p..]) {
      MarkerDecided(front + Marker(), rest, p);
      if Marker() <= (front + Marker())[p..] { MarkerNotAfter(front + Marker(), p); }
    }
    MarkerNotBefore(s, |front|);
  }

  /** An id without '=' is such a one. */
  lemma PlainIdIsQuiet(id: string)
    requires '=' !in id
    ensures QuietId(id)
  {
    var front := ReplyFront(id);
    var s := front + Marker();
    assert s[|front|..] == Marker();
    MarkerNotAfter(s, |front|);
    forall p | 0 <= p < |front| ensures !(Marker() <= s[p..]) {
      if Marker() <= s[p..] {
        assert s[p..][7] == Marker()[7] && s[p..][0] == Marker()[0];
        assert s[p + 7] == '=' && s[p] == 'm';
        NoEqualsThere(id, p);
      }
    }
    MarkerNotBefore(s, |front|);
  }

  lemma NoEqualsThere(id: string, p: nat)
    requires '=' !in id && p < |ReplyFront(id)|
    ensures var s := ReplyFront(id) + Marker(); !(s[p + 7] == '=' && s[p] == 'm')
  {
    var s := ReplyFront(id) + Marker();
    if p + 7 < 22 {
      assert s[p + 7] == "ACK MANIFEST snapshot="[p + 7];
    } else if p + 7 < 22 + |id| {
      assert s[p + 7] == id[p + 7 - 22];
    } else if p + 7 == 22 + |id| {
      assert s[p + 7] == ' ';
    } else {
      assert s[p + 7] == Marker()[p + 7 - 23 - |id|];
    }
  }

  /** Digits followed by something else are read as their number. */
  lemma ParseCount(n: nat, rest: string)
    requires n <= I64_MAX && (rest == "" || rest[0] == '\n')
    ensures ParseI64(Decimal(n) + rest) == n
  {
    var s := Decimal(n) + rest;
    DecimalValue(n);
    DigitRunStops(Decimal(n), rest);
    assert s[0] == Decimal(n)[0];
    assert IsDigit(s[0]);
    assert s[..|Decimal(n)|] == Decimal(n);
  }

  lemma {:induction false} DigitRunStops(digits: string, rest: string)
    requires (forall i :: 0 <= i < |digits| ==> IsDigit(digits[i])) && (rest == "" || !IsDigit(rest[0]))
    ensures DigitRun(digits + rest) == |digits|
  {
    if digits == "" {
      assert digits + rest == rest;
    } else {
      assert (digits + rest)[1..] == digits[1..] + rest;
      DigitRunStops(digits[1..], rest);
    }
  }

  /** Every line is visited: the announced count does not stop the client early. */
  lemma {:induction false} OfferedAll(hashes: seq<Hash>, left: nat, held: Blobs)
    requires hashes != [] && FullLength(hashes) && left >= |hashes| && forall h :: h in hashes ==> '\n' !in h
    ensures Offered(LinesOf(hashes)[1..], left, held) == HeldOf(hashes, held)
    decreases |hashes|
  {
    var h, more := hashes[0], hashes[1..];
    var text := LinesOf(hashes)[1..];
    assert h in hashes;
    LinesStart(more);
    assert text == h + LinesOf(more);
    IndexOfAt(h, '\n', LinesOf(more));
    assert text[..HEX_LEN] == h;
    if more == [] {
      assert Offered("", left, held) == [] && (left > 0 ==> Offered("", left - 1, held) == []);
    } else {
      assert text[HEX_LEN + 1..] == LinesOf(more)[1..];
      hide LinesOf, FullLength;
      assert FullLength(more) by { FullLengthTail(hashes); }
      OfferedAll(more, if Has(held, h) then left - 1 else left, held);
    }
  }

  lemma FullLengthTail(hashes: seq<Hash>)
    requires FullLength(hashes) && hashes != []
    ensures FullLength(hashes[1..])
  {
  }

  /** The client sends exactly those listed hashes that it has. */
  lemma ClientSendsHeld(id: string, hashes: seq<Hash>, held: Blobs)
    requires QuietId(id) && '\n' !in id && FullLength(hashes) && |hashes| <= I64_MAX
    requires forall h :: h in hashes ==> '\n' !in h
    ensures Sent(ReplyHead(id, |hashes|) + LinesOf(hashes), held) == HeldOf(hashes, held)
  {
    hide ReplyHead, LinesOf, AnnouncedCount, HeldOf, Offered, IndexOf, FullLength, QuietId;
    var n := |hashes|;
    var head, lines := ReplyHead(id, n), LinesOf(hashes);
    LinesStart(hashes);
    CountInReply(id, n, lines);
    HeadHasNoLineEnd(id, n);
    IndexOfAt(head, '\n', lines);
    if hashes == [] {
      assert HeldOf(hashes, held) == [] by { HeldOfNone(held); }
    } else {
      assert (head + lines)[|head| + 1..] == lines[1..];
      OfferedAll(hashes, n, held);
    }
  }

  lemma HeldOfNone(held: Blobs)
    ensures HeldOf([], held) == []
  {
  }

  lemma LinesStart(hashes: seq<Hash>)
    ensures if hashes == [] then LinesOf(hashes) == "" else LinesOf(hashes) != "" && LinesOf(hashes)[0] == '\n'
  {
  }

  lemma CountInReply(id: string, n: nat, lines: string)
    requires QuietId(id) && n <= I64_MAX && (lines == "" || lines[0] == '\n')
    ensures AnnouncedCount(ReplyHead(id, n) + lines) == n
  {
    hide Decimal, ReplyFront, ReplyHead, ParseI64, AnnouncedCount, MarkerAt, Marker, QuietId;
    ReplyShape(id, n, lines);
    MarkerInReply(id, Decimal(n) + lines);
    ParseCount(n, lines);
    CountBehindMarker(ReplyFront(id), Decimal(n) + lines);
  }

  lemma ReplyShape(id: string, n: nat, lines: string)
    ensures ReplyHead(id, n) + lines == ReplyFront(id) + (Marker() + (Decimal(n) + lines))
  {
    hide Decimal, ReplyFront;
    Assoc(ReplyFront(id) + Marker(), Decimal(n), lines);
    Assoc(ReplyFront(id), Marker(), Decimal(n) + lines);
  }

  lemma CountBehindMarker(front: string, tail: string)
    requires MarkerAt(front + (Marker() + tail)) == |front|
    ensures AnnouncedCount(front + (Marker() + tail)) == ParseI64(tail) % TWO_64
  {
    hide MarkerAt, ParseI64;
    var reply := front + (Marker() + tail);
    assert reply[|front| + |Marker()|..] == tail;
  }

  lemma HeadHasNoLineEnd(id: string, n: nat)
    requires '\n' !in id
    ensures '\n' !in ReplyHead(id, n)
  {
    DecimalIsPlain(n);
    hide Decimal;
  }
}
