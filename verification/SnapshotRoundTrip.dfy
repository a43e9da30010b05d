/** What a `.snapshot` gives back when it is read, record by record and as a list, and under which name it lies.
    Line numbers are those of src/storage/snapshot_store.c. */
module SnapshotRoundTrip {
  import opened Bytes
  import opened Manifest
  import opened SnapshotStore
  import opened SnapshotText
  import opened Text
  import opened Wrappers

  // ---- One line ----

  /** A line that fits the buffer is read as it stands. */
  lemma ReadLine(s: Snapshot, body: string, rest: string)
    requires '\n' !in body && '\0' !in body && |body| + 1 < SnapshotText.LINE_CAP
    ensures ReadFrom(s, body + "\n" + rest) == ReadFrom(WithLine(s, body), rest)
  {
    LineTaken(body, rest);
    hide LineIn, Fragment, WithLine;
    var text := body + "\n" + rest;
    assert text != "" && text[|body| + 1..] == rest;
  }

  lemma LineTaken(body: string, rest: string)
    requires '\n' !in body && '\0' !in body && |body| + 1 < SnapshotText.LINE_CAP
    ensures var text := body + "\n" + rest;
            Fragment(text, SnapshotText.LINE_CAP) == |body| + 1 && LineIn(text[..|body| + 1]) == body
  {
    var text, line := body + "\n" + rest, body + "\n";
    Assoc(body, "\n", rest);
    IndexOfAt(body, '\n', "\n" + rest);
    IndexOfAt(body, '\n', "\n");
    TextOfAll(line);
    hide IndexOf, TextOf;
    assert text[..|body| + 1] == line;
  }

  /** A line of 511 characters fills the buffer; its line end is taken by itself. */
  lemma ReadFullLine(s: Snapshot, body: string, rest: string)
    requires '\n' !in body && '\0' !in body && |body| + 1 == SnapshotText.LINE_CAP
    ensures ReadFrom(s, body + "\n" + rest) == ReadFrom(WithLine(s, body), rest)
  {
    FullLineTaken(body, rest);
    var text := body + "\n" + rest;
    assert text != "" && text[|body|..] == "" + "\n" + rest;
    hide LineIn, Fragment, WithLine, ReadFrom;
    assert ReadFrom(s, text) == ReadFrom(WithLine(s, LineIn(text[..|body|])), text[|body|..]) by { FirstPiece(s, text, |body|); }
    ReadLine(WithLine(s, body), "", rest);
    EmptyLine(WithLine(s, body));
  }

  lemma FirstPiece(s: Snapshot, text: string, n: nat)
    requires text != "" && Fragment(text, SnapshotText.LINE_CAP) == n
    ensures ReadFrom(s, text) == ReadFrom(WithLine(s, LineIn(text[..n])), text[n..])
  {
    hide LineIn, Fragment, WithLine;
  }

  lemma FullLineTaken(body: string, rest: string)
    requires '\n' !in body && '\0' !in body && |body| + 1 == SnapshotText.LINE_CAP
    ensures var text := body + "\n" + rest;
            Fragment(text, SnapshotText.LINE_CAP) == |body| && LineIn(text[..|body|]) == body
  {
    var text := body + "\n" + rest;
    Assoc(body, "\n", rest);
    IndexOfAt(body, '\n', "\n" + rest);
    IndexOfAt(body, '\n', "");
    assert body + "" == body;
    TextOfAll(body);
    hide IndexOf, TextOf;
    assert text[..|body|] == body;
  }

  lemma EmptyLine(s: Snapshot)
    ensures WithLine(s, "") == s
  {
  }

  // ---- What each line says ----

  lemma KeyAndValue(key: string, val: string)
    ensures key <= key + val && (key + val)[|key|..] == val
  {
  }

  lemma IdIsRead(s: Snapshot, id: string)
    requires |id| <= ID_MAX
    ensures WithLine(s, "id=" + id) == s.(id := id)
  {
    KeyAndValue("id=", id);
    hide ParseI64, ParseU64;
  }

  lemma TimeIsRead(s: Snapshot, time: int)
    requires I64_MIN <= time <= I64_MAX
    ensures WithLine(s, "timestamp=" + SignedDecimal(time)) == s.(timestamp := time)
  {
    ParsePrintedSigned(time);
    KeyAndValue("timestamp=", SignedDecimal(time));
    assert ("timestamp=" + SignedDecimal(time))[0] == 't';
    hide ParseI64, ParseU64, SignedDecimal;
  }

  lemma SourceIsRead(s: Snapshot, path: string)
    requires |path| <= SOURCE_MAX
    ensures WithLine(s, "source_path=" + path) == s.(sourcePath := path)
  {
    KeyAndValue("source_path=", path);
    assert ("source_path=" + path)[0] == 's' && ("source_path=" + path)[1] == 'o';
    hide ParseI64, ParseU64;
  }

  lemma MarkIsRead(s: Snapshot, mark: string)
    requires |mark| <= MARK_MAX
    ensures WithLine(s, "label=" + mark) == s.(mark := mark)
  {
    KeyAndValue("label=", mark);
    assert ("label=" + mark)[0] == 'l';
    hide ParseI64, ParseU64;
  }

  lemma CountIsRead(s: Snapshot, n: nat)
    ensures WithLine(s, "file_count=" + Decimal(n)) == s.(fileCount := ParseI64(Decimal(n)) % TWO_64)
  {
    KeyAndValue("file_count=", Decimal(n));
    assert ("file_count=" + Decimal(n))[0] == 'f';
    hide ParseI64, ParseU64, Decimal;
  }

  lemma OtherKey(key: string, line: string, i: nat)
    requires i < |key| && i < |line| && key[i] != line[i]
    ensures !(key <= line)
  {
  }

  lemma SizeIsRead(s: Snapshot, n: nat)
    requires n <= U64_MAX
    ensures WithLine(s, "size_bytes=" + Decimal(n)) == s.(sizeBytes := n)
  {
    ParsePrinted(n);
    hide ParseI64, ParseU64, Decimal;
    var line := "size_bytes=" + Decimal(n);
    KeyAndValue("size_bytes=", Decimal(n));
    OtherKey("id=", line, 0);
    OtherKey("timestamp=", line, 0);
    OtherKey("source_path=", line, 1);
    OtherKey("label=", line, 0);
    OtherKey("file_count=", line, 0);
  }

  // ---- The whole record ----

  /** The longest source path that one line of the buffer takes whole. */
  const SOURCE_LINE_MAX := 499

  /** Label and source path on one line each, and the source path within the buffer. */
  predicate OnOneLineEach(s: Snapshot) { '\n' !in s.mark && '\n' !in s.sourcePath && |s.sourcePath| <= SOURCE_LINE_MAX }

  lemma ReadPrinted(s: Snapshot)
    requires Recordable(s) && OnOneLineEach(s)
    ensures Read(PrintSnapshot(s)) == s.(fileCount := ParseI64(Decimal(s.fileCount)) % TWO_64)
  {
    var sizes := s.(id := "", timestamp := 0, sourcePath := "", mark := "");
    hide ReadFrom, WithLine, ParseI64, ParseU64, Decimal, SignedDecimal, Recordable, OnOneLineEach;
    var r1 := NOTHING.(id := s.id);
    var r2 := r1.(timestamp := s.timestamp);
    var r3 := r2.(sourcePath := s.sourcePath);
    var r4 := r3.(mark := s.mark);
    IdThen(NOTHING, s, TimeLine(s) + (SourceLine(s) + (MarkLine(s) + (CountLine(s) + SizeLine(s)))));
    TimeThen(r1, s, SourceLine(s) + (MarkLine(s) + (CountLine(s) + SizeLine(s))));
    SourceThen(r2, s, MarkLine(s) + (CountLine(s) + SizeLine(s)));
    MarkThen(r3, s, CountLine(s) + SizeLine(s));
    NumbersThen(r4, s);
  }

  lemma IdThen(r: Snapshot, s: Snapshot, rest: string)
    requires Recordable(s)
    ensures ReadFrom(r, IdLine(s) + rest) == ReadFrom(r.(id := s.id), rest)
  {
    hide ReadFrom, WithLine;
    ReadLine(r, "id=" + s.id, rest);
    IdIsRead(r, s.id);
  }

  lemma TimeThen(r: Snapshot, s: Snapshot, rest: string)
    requires Recordable(s)
    ensures ReadFrom(r, TimeLine(s) + rest) == ReadFrom(r.(timestamp := s.timestamp), rest)
  {
    hide ReadFrom, WithLine, SignedDecimal;
    SignedDecimalIsShort(s.timestamp);
    ReadLine(r, "timestamp=" + SignedDecimal(s.timestamp), rest);
    TimeIsRead(r, s.timestamp);
  }

  lemma SourceThen(r: Snapshot, s: Snapshot, rest: string)
    requires Recordable(s) && OnOneLineEach(s)
    ensures ReadFrom(r, SourceLine(s) + rest) == ReadFrom(r.(sourcePath := s.sourcePath), rest)
  {
    hide ReadFrom, WithLine;
    var body := "source_path=" + s.sourcePath;
    if |body| + 1 < SnapshotText.LINE_CAP { ReadLine(r, body, rest); } else { ReadFullLine(r, body, rest); }
    SourceIsRead(r, s.sourcePath);
  }

  lemma MarkThen(r: Snapshot, s: Snapshot, rest: string)
    requires Recordable(s) && OnOneLineEach(s)
    ensures ReadFrom(r, MarkLine(s) + rest) == ReadFrom(r.(mark := s.mark), rest)
  {
    hide ReadFrom, WithLine;
    ReadLine(r, "label=" + s.mark, rest);
    MarkIsRead(r, s.mark);
  }

  lemma NumbersThen(r: Snapshot, s: Snapshot)
    requires Recordable(s)
    ensures ReadFrom(r, CountLine(s) + SizeLine(s))
            == r.(fileCount := ParseI64(Decimal(s.fileCount)) % TWO_64, sizeBytes := s.sizeBytes)
  {
    hide WithLine, Decimal, ParseI64;
    DecimalIsShort(s.fileCount);
    DecimalIsShort(s.sizeBytes);
    var counted := r.(fileCount := ParseI64(Decimal(s.fileCount)) % TWO_64);
    assert ReadFrom(counted.(sizeBytes := s.sizeBytes), "") == counted.(sizeBytes := s.sizeBytes);
    hide ReadFrom;
    ReadLine(r, "file_count=" + Decimal(s.fileCount), SizeLine(s));
    CountIsRead(r, s.fileCount);
    ReadLine(counted, "size_bytes=" + Decimal(s.sizeBytes), "");
    SizeIsRead(counted, s.sizeBytes);
    assert "size_bytes=" + Decimal(s.sizeBytes) + "\n" + "" == SizeLine(s);
  }

  /** What is read never has a line end, nor a longer source path than one buffer takes. */
  predicate FieldsOfLines(s: Snapshot) {
    '\n' !in s.mark && '\n' !in s.sourcePath && |s.sourcePath| <= SOURCE_LINE_MAX
  }

  lemma {:induction false} ReadFitsLines(s: Snapshot, text: string)
    requires FieldsOfLines(s)
    ensures FieldsOfLines(ReadFrom(s, text))
    decreases |text|
  {
    if text != "" {
      var n := Fragment(text, SnapshotText.LINE_CAP);
      LineIsShort(text[..n]);
      hide LineIn, Fragment;
      LineFits(s, LineIn(text[..n]));
      hide WithLine;
      ReadFitsLines(WithLine(s, LineIn(text[..n])), text[n..]);
    }
  }

  lemma LineIsShort(fragment: string)
    ensures |LineIn(fragment)| <= |fragment| && '\n' !in LineIn(fragment)
  {
  }

  lemma LineFits(s: Snapshot, line: string)
    requires FieldsOfLines(s) && '\n' !in line && |line| < SnapshotText.LINE_CAP
    ensures FieldsOfLines(WithLine(s, line))
  {
    hide ParseI64, ParseU64;
    assert forall k: nat :: k <= |line| ==> '\n' !in line[k..];
  }

  /** A record is read back as it was written if and only if label and source path have no line end, the source path has at
      most 499 characters, and the number of files fits a signed 64-bit number. */
  lemma ReadsBackIff(s: Snapshot)
    requires Recordable(s)
    ensures Read(PrintSnapshot(s)) == s
            <==> '\n' !in s.mark && '\n' !in s.sourcePath && |s.sourcePath| <= 499 && s.fileCount <= I64_MAX
  {
    hide ReadFrom, PrintSnapshot, ParseI64, Decimal, Recordable;
    ReadFitsLines(NOTHING, PrintSnapshot(s));
    if OnOneLineEach(s) {
      ReadPrinted(s);
      CountComesBackIff(s.fileCount);
    }
  }

  lemma CountComesBackIff(n: nat)
    ensures ParseI64(Decimal(n)) % TWO_64 == n <==> n <= I64_MAX
  {
    hide Decimal, NatValue, Magnitude, Negative;
    DecimalValue(n);
    DigitsUnsigned(Decimal(n));
    assert ParseI64(Decimal(n)) == if n > I64_MAX then I64_MAX else n;
    hide ParseI64;
    SmallIsItself(if n > I64_MAX then I64_MAX else n);
  }

  lemma SmallIsItself(n: nat)
    requires n <= I64_MAX
    ensures n % TWO_64 == n
  {
  }

  // ---- The list ----

  /** The files that records are written to. */
  function EntriesOf(written: seq<Snapshot>): (r: seq<Entry>)
    ensures |r| == |written|
  {
    seq(|written|, i requires 0 <= i < |written| => Entry(SafeName(written[i].id), Some(PrintSnapshot(written[i]))))
  }

  predicate ReadsBack(s: Snapshot) { Recordable(s) && OnOneLineEach(s) && s.fileCount <= I64_MAX && Visible(SafeName(s.id)) }

  /** Listing gives back what was written, in the order of the directory: with its times, by which a prune sorts. */
  lemma {:induction false} WrittenIsListed(written: seq<Snapshot>)
    requires forall s :: s in written ==> ReadsBack(s)
    ensures ReadEntries(EntriesOf(written)) == written
  {
    hide ReadsBack, Listable, PrintSnapshot, Read;
    if written != [] {
      var n := |written| - 1;
      var entries := EntriesOf(written);
      WrittenIsListed(written[..n]);
      assert entries[..n] == EntriesOf(written[..n]);
      assert entries[n] == Entry(SafeName(written[n].id), Some(PrintSnapshot(written[n])));
      assert written[n] in written;
      OneIsListed(written[n]);
      assert ReadEntries(entries) == ReadEntries(entries[..n]) + [written[n]];
      assert written == written[..n] + [written[n]];
    } else {
      assert EntriesOf(written) == [];
    }
  }

  lemma OneIsListed(s: Snapshot)
    requires ReadsBack(s)
    ensures var e := Entry(SafeName(s.id), Some(PrintSnapshot(s))); Listable(e) && Read(e.text.value) == s
  {
    ReadsBackIff(s);
    hide PrintSnapshot, Read;
  }

  // ---- File names ----

  const UPPER: string := "ABCDEFGHIJKLMNOPQRSTUVWXYZ"
  const LOWER: string := "abcdefghijklmnopqrstuvwxyz"
  const DIGITS: string := "0123456789"
  const PLAIN: string := UPPER + LOWER + DIGITS + "-_."

  lemma PlainChars(c: char)
    ensures SafeChar(c) <==> c in PLAIN
  {
    UpperChars(c);
    LowerChars(c);
    assert c in DIGITS <==> '0' <= c <= '9' by { DigitChars(c); }
    hide UPPER, LOWER, DIGITS;
    assert c in PLAIN <==> c in UPPER || c in LOWER || c in DIGITS || c in "-_.";
  }

  lemma UpperChars(c: char)
    ensures c in UPPER <==> 'A' <= c <= 'Z'
  {
    if 'A' <= c <= 'M' { assert c in UPPER; } else if 'N' <= c <= 'Z' { assert c in UPPER; }
  }

  lemma LowerChars(c: char)
    ensures c in LOWER <==> 'a' <= c <= 'z'
  {
    if 'a' <= c <= 'm' { assert c in LOWER; } else if 'n' <= c <= 'z' { assert c in LOWER; }
  }

  lemma DigitChars(c: char)
    ensures c in DIGITS <==> '0' <= c <= '9'
  {
  }

  /** Lines 62-74: letters, digits, '-', '_' and '.' stay as they are, and every other character becomes '-'. */
  lemma NameIs(id: string, i: nat)
    requires i < |id|
    ensures |SafeName(id)| == |id| && SafeName(id)[i] == if id[i] in PLAIN then id[i] else '-'
  {
    PlainChars(id[i]);
  }

  /** An id of such characters is its own file name. */
  lemma PlainIdIsName(id: string)
    requires forall c :: c in id ==> c in PLAIN
    ensures SafeName(id) == id
  {
    hide SafeName;
    assert |SafeName(id)| == |id| by { NameLength(id); }
    forall i | 0 <= i < |id| ensures SafeName(id)[i] == id[i] { NameIs(id, i); }
  }

  lemma NameLength(id: string)
    ensures |SafeName(id)| == |id|
  {
  }

  /** The ids that the program makes: year, month, day, hour, minute and second with their separators and a 'Z'. */
  predicate IsDated(id: string) {
    && |id| == 20 && id[4] == '-' && id[7] == '-' && id[10] == 'T' && id[13] == ':' && id[16] == ':' && id[19] == 'Z'
    && forall i :: 0 <= i < 20 && i !in [4, 7, 10, 13, 16, 19] ==> '0' <= id[i] <= '9'
  }

  /** Their file names differ from them in the two colons only. */
  lemma DatedName(id: string)
    requires IsDated(id)
    ensures SafeName(id) == id[..13] + "-" + id[14..16] + "-" + id[17..]
  {
  }

  /** So two of them have the same file name only if they are the same. */
  lemma DatedNamesDiffer(a: string, b: string)
    requires IsDated(a) && IsDated(b) && SafeName(a) == SafeName(b)
    ensures a == b
  {
    hide SafeName;
    DatedName(a);
    DatedName(b);
    forall i | 0 <= i < 20 ensures a[i] == b[i] {
      assert i != 13 && i != 16 ==> a[i] == SafeName(a)[i] && b[i] == SafeName(b)[i];
    }
  }

  /** And a file written for one of them leaves those of all others as they were. */
  lemma DatedFileLeavesOthers(disk: map<string, string>, id: string, text: string, other: string)
    requires IsDated(id) && IsDated(other) && other != id
    ensures var grown := disk[SafeName(id) := text];
            && (SafeName(other) in grown <==> SafeName(other) in disk)
            && (SafeName(other) in grown ==> grown[SafeName(other)] == disk[SafeName(other)])
  {
    hide SafeName, IsDated;
    if SafeName(id) == SafeName(other) { DatedNamesDiffer(id, other); }
  }

  /** And the listing sees them: no such name has ".snapshot" in it. */
  lemma DatedIsVisible(id: string)
    requires IsDated(id)
    ensures Visible(SafeName(id))
  {
    DatedName(id);
    hide SafeName;
    var name := SafeName(id);
    forall k | 0 <= k < |name| ensures !(Extension() <= (name + Extension())[k..]) {
      assert (name + Extension())[k..][0] == name[k];
      assert name[k] != '.';
      assert Extension()[0] == '.';
    }
  }
}
