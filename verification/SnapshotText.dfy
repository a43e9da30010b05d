/** The text of a `.snapshot` file: how it is printed, and what the store reads out of it when it lists a directory.
    Line numbers are those of src/storage/snapshot_store.c. */
module SnapshotText {
  import opened Bytes
  import opened Manifest
  import opened Text

  const ID_MAX := 63
  const SOURCE_MAX := 4095
  const MARK_MAX := 255

  /** The line buffer, with room for the NUL. */
  const LINE_CAP := 512

  /** `mark` is the label. */
  datatype Snapshot = Snapshot(id: string, timestamp: int, sourcePath: string, mark: string, fileCount: nat, sizeBytes: nat)

  const NOTHING := Snapshot("", 0, "", "", 0, 0)

  // ---- File names ----

  predicate SafeChar(c: char) {
    '0' <= c <= '9' || 'A' <= c <= 'Z' || 'a' <= c <= 'z' || c == '-' || c == '_' || c == '.'
  }

  /** Lines 54-78: characters that do not belong in a file name become '-'. */
  function SafeName(id: string): (r: string)
    ensures |r| == |id|
  {
    seq(|id|, i requires 0 <= i < |id| => if SafeChar(id[i]) then id[i] else '-')
  }

  function Extension(): string { ".snapshot" }

  /** Lines 170-171: the listing looks for the extension from the front and wants nothing behind it. */
  predicate Visible(name: string) {
    forall k :: 0 <= k < |name| ==> !(Extension() <= (name + Extension())[k..])
  }

  // ---- Printing ----

  function IdLine(s: Snapshot): string { "id=" + s.id + "\n" }
  function TimeLine(s: Snapshot): string { "timestamp=" + SignedDecimal(s.timestamp) + "\n" }
  function SourceLine(s: Snapshot): string { "source_path=" + s.sourcePath + "\n" }
  function MarkLine(s: Snapshot): string { "label=" + s.mark + "\n" }
  function CountLine(s: Snapshot): string { "file_count=" + Decimal(s.fileCount) + "\n" }
  function SizeLine(s: Snapshot): string { "size_bytes=" + Decimal(s.sizeBytes) + "\n" }

  /** Lines 310-315 and 387-392: source path and label go in as they are. */
  function PrintSnapshot(s: Snapshot): string {
    IdLine(s) + (TimeLine(s) + (SourceLine(s) + (MarkLine(s) + (CountLine(s) + SizeLine(s)))))
  }

  // ---- Reading ----

  /** Lines 189-200. */
  function WithLine(s: Snapshot, line: string): Snapshot {
    if "id=" <= line then s.(id := Cut(line[3..], ID_MAX))
    else if "timestamp=" <= line then s.(timestamp := ParseI64(line[10..]))
    else if "source_path=" <= line then s.(sourcePath := Cut(line[12..], SOURCE_MAX))
    else if "label=" <= line then s.(mark := Cut(line[6..], MARK_MAX))
    else if "file_count=" <= line then s.(fileCount := ParseI64(line[11..]) % TWO_64)
    else if "size_bytes=" <= line then s.(sizeBytes := ParseU64(line[11..]))
    else s
  }

  /** A fragment up to its line end. */
  function LineIn(fragment: string): string { TextOf(fragment)[..IndexOf(TextOf(fragment), '\n')] }

  function ReadFrom(s: Snapshot, text: string): Snapshot
    decreases |text|
  {
    if text == "" then s
    else
      var n := Fragment(text, LINE_CAP);
      ReadFrom(WithLine(s, LineIn(text[..n])), text[n..])
  }

  /** Lines 182-202: fragment by fragment, later ones overriding earlier ones. */
  function Read(text: string): Snapshot { ReadFrom(NOTHING, text) }

  /** Lines 182-203. */
  method LoadSnapshot(text: string) returns (s: Snapshot)
    ensures s == Read(text)
  {
    s := NOTHING;
    var rest := text;
    while rest != ""
      invariant ReadFrom(s, rest) == Read(text)
      decreases |rest|
    {
      var n := Fragment(rest, LINE_CAP);
      s := WithLine(s, LineIn(rest[..n]));
      rest := rest[n..];
    }
  }

  // ---- Which id is read ----

  /** The ids that a text gives, in order. */
  function IdsIn(text: string): seq<string>
    decreases |text|
  {
    if text == "" then []
    else
      var n := Fragment(text, LINE_CAP);
      var line := LineIn(text[..n]);
      (if "id=" <= line then [Cut(line[3..], ID_MAX)] else []) + IdsIn(text[n..])
  }

  function LastOf(ids: seq<string>, otherwise: string): string {
    if ids == [] then otherwise else ids[|ids| - 1]
  }

  /** The last one counts. */
  lemma {:induction false} LastIdIsRead(s: Snapshot, text: string)
    ensures ReadFrom(s, text).id == LastOf(IdsIn(text), s.id)
    decreases |text|
  {
    hide LineIn, Fragment, ParseI64, ParseU64;
    if text != "" {
      var n := Fragment(text, LINE_CAP);
      LastIdIsRead(WithLine(s, LineIn(text[..n])), text[n..]);
    }
  }

  /** Behind a line end the reading starts afresh. */
  lemma {:induction false} IdsOfTwo(front: string, rest: string)
    requires front != "" ==> front[|front| - 1] == '\n'
    ensures IdsIn(front + rest) == IdsIn(front) + IdsIn(rest)
    decreases |front|
  {
    hide LineIn, Fragment;
    if front == "" {
      assert front + rest == rest;
    } else {
      FragmentOfFront(front, rest, LINE_CAP);
      var n := Fragment(front, LINE_CAP);
      assert (front + rest)[..n] == front[..n] && (front + rest)[n..] == front[n..] + rest;
      IdsOfTwo(front[n..], rest);
    }
  }

  /** A line that fits the buffer is read as one. */
  lemma IdsOfLine(body: string)
    requires '\n' !in body && '\0' !in body && |body| + 1 < LINE_CAP
    ensures IdsIn(body + "\n") == if "id=" <= body then [Cut(body[3..], ID_MAX)] else []
  {
    var text := body + "\n";
    IndexOfAt(body, '\n', "\n");
    TextOfAll(text);
    hide IndexOf, TextOf;
    assert Fragment(text, LINE_CAP) == |text|;
    assert text[..|text|] == text && text[|text|..] == "";
    assert LineIn(text) == body;
  }

  /** A string that can stand in a `.snapshot` file at all. */
  predicate Recordable(s: Snapshot) {
    && 0 < |s.id| <= ID_MAX && '\n' !in s.id && '\0' !in s.id
    && |s.sourcePath| <= SOURCE_MAX && '\0' !in s.sourcePath && |s.mark| <= MARK_MAX && '\0' !in s.mark
    && I64_MIN <= s.timestamp <= I64_MAX && s.fileCount <= U64_MAX && s.sizeBytes <= U64_MAX
  }

  /** The ids that source path and label bring in. */
  function ForeignIds(s: Snapshot): seq<string> { IdsIn(SourceLine(s)) + IdsIn(MarkLine(s)) }

  lemma PlainLines(s: Snapshot)
    requires Recordable(s)
    ensures IdsIn(IdLine(s)) == [s.id] && IdsIn(TimeLine(s)) == [] && IdsIn(CountLine(s)) == [] && IdsIn(SizeLine(s)) == []
  {
    IdLineGives(s);
    NumberLinesGiveNothing(s);
  }

  lemma IdLineGives(s: Snapshot)
    requires Recordable(s)
    ensures IdsIn(IdLine(s)) == [s.id]
  {
    hide IdsIn;
    var body := "id=" + s.id;
    IdsOfLine(body);
    assert body[..3] == "id=" && body[3..] == s.id;
  }

  lemma NumberLinesGiveNothing(s: Snapshot)
    requires Recordable(s)
    ensures IdsIn(TimeLine(s)) == [] && IdsIn(CountLine(s)) == [] && IdsIn(SizeLine(s)) == []
  {
    hide IdsIn, Decimal, SignedDecimal;
    SignedDecimalIsShort(s.timestamp);
    DecimalIsShort(s.fileCount);
    DecimalIsShort(s.sizeBytes);
    IdsOfLine("timestamp=" + SignedDecimal(s.timestamp));
    IdsOfLine("file_count=" + Decimal(s.fileCount));
    IdsOfLine("size_bytes=" + Decimal(s.sizeBytes));
    assert ("timestamp=" + SignedDecimal(s.timestamp))[0] == 't';
    assert ("file_count=" + Decimal(s.fileCount))[0] == 'f';
    assert ("size_bytes=" + Decimal(s.sizeBytes))[0] == 's';
  }

  lemma DecimalIsShort(n: nat)
    requires n <= U64_MAX
    ensures |Decimal(n)| <= 20 && '\n' !in Decimal(n) && '\0' !in Decimal(n)
  {
    U64Length(n);
    hide Decimal;
  }

  lemma SignedDecimalIsShort(i: int)
    requires I64_MIN <= i <= I64_MAX
    ensures |SignedDecimal(i)| <= 21 && '\n' !in SignedDecimal(i) && '\0' !in SignedDecimal(i)
  {
    hide Decimal;
    DecimalIsShort(if i < 0 then -i else i);
  }

  /** A printed `.snapshot` gives its own id and then those in its source path and label. */
  lemma IdsOfPrinted(s: Snapshot)
    requires Recordable(s)
    ensures IdsIn(PrintSnapshot(s)) == [s.id] + ForeignIds(s)
  {
    hide IdsIn, Recordable, IdLine, TimeLine, SourceLine, MarkLine, CountLine, SizeLine;
    PlainLines(s);
    LinesEnd(s);
    IdsOfTwo(CountLine(s), SizeLine(s));
    IdsOfTwo(MarkLine(s), CountLine(s) + SizeLine(s));
    IdsOfTwo(SourceLine(s), MarkLine(s) + (CountLine(s) + SizeLine(s)));
    IdsOfTwo(TimeLine(s), SourceLine(s) + (MarkLine(s) + (CountLine(s) + SizeLine(s))));
    IdsOfTwo(IdLine(s), TimeLine(s) + (SourceLine(s) + (MarkLine(s) + (CountLine(s) + SizeLine(s)))));
  }

  predicate EndsLine(text: string) { text != "" && text[|text| - 1] == '\n' }

  lemma LinesEnd(s: Snapshot)
    ensures EndsLine(IdLine(s)) && EndsLine(TimeLine(s)) && EndsLine(SourceLine(s))
    ensures EndsLine(MarkLine(s)) && EndsLine(CountLine(s)) && EndsLine(SizeLine(s))
  {
    hide Decimal, SignedDecimal;
  }

  /** The id under which a printed `.snapshot` is listed: the last one that source path and label bring in, or its own. */
  lemma ReadIdOfPrinted(s: Snapshot)
    requires Recordable(s)
    ensures Read(PrintSnapshot(s)).id == LastOf(ForeignIds(s), s.id)
  {
    hide IdsIn, Recordable, PrintSnapshot;
    IdsOfPrinted(s);
    LastIdIsRead(NOTHING, PrintSnapshot(s));
  }

  /** So the id is read back exactly when source path and label bring in none, or the same last. */
  lemma IdReadsBackIff(s: Snapshot)
    requires Recordable(s)
    ensures Read(PrintSnapshot(s)).id == s.id <==> ForeignIds(s) == [] || ForeignIds(s)[|ForeignIds(s)| - 1] == s.id
  {
    hide Read, Recordable, PrintSnapshot, ForeignIds;
    ReadIdOfPrinted(s);
  }

  // ---- What source path and label bring in ----

  /** Without a line end a label brings in nothing. */
  lemma PlainMarkIsQuiet(s: Snapshot)
    requires Recordable(s) && '\n' !in s.mark
    ensures IdsIn(MarkLine(s)) == []
  {
    hide IdsIn;
    var body := "label=" + s.mark;
    IdsOfLine(body);
    assert body[0] == 'l';
  }

  /** A label whose last line is an id line brings in that id at the end. */
  lemma MarkBringsId(s: Snapshot, front: string, id: string)
    requires Recordable(s) && s.mark == front + "\nid=" + id && '\n' !in id
    ensures IdsIn(MarkLine(s)) == IdsIn("label=" + front + "\n") + [Cut(id, ID_MAX)]
  {
    hide IdsIn;
    var first, last := "label=" + front + "\n", "id=" + id;
    assert MarkLine(s) == first + (last + "\n") by {
      assert s.mark == front + "\n" + last;
      assert MarkLine(s) == "label=" + (front + "\n" + last) + "\n";
    }
    assert '\0' !in last by { assert forall i :: 0 <= i < |id| ==> s.mark[|front| + 4 + i] == id[i]; }
    IdsOfTwo(first, last + "\n");
    IdsOfLine(last);
    assert last[..3] == "id=" && last[3..] == id;
  }

  /** Whether the piece that starts `k` buffers behind `at` looks like an id line. */
  predicate IdPiece(body: string, at: nat, k: nat) {
    at + k * (LINE_CAP - 1) <= |body| && "id=" <= body[at + k * (LINE_CAP - 1)..]
  }

  predicate HasIdPiece(body: string, at: nat) { exists k: nat :: k <= |body| && IdPiece(body, at, k) }

  /** A line is taken 511 characters at a time: it brings in no id exactly when none of its pieces starts like an id line. */
  lemma {:induction false} LongLineQuietIff(body: string, at: nat)
    requires '\n' !in body && '\0' !in body && at <= |body|
    ensures IdsIn(body[at..] + "\n") == [] <==> !HasIdPiece(body, at)
    decreases |body| - at
  {
    var rest := body[at..];
    FirstPiece(body, at);
    if |rest| + 1 < LINE_CAP {
      IdsOfLine(rest);
    } else {
      LongPiece(rest);
      LongLineQuietIff(body, at + LINE_CAP - 1);
      hide IdsIn, HasIdPiece;
      assert rest[LINE_CAP - 1..] == body[at + LINE_CAP - 1..];
      assert "id=" <= rest[..LINE_CAP - 1] <==> "id=" <= rest;
    }
  }

  /** The pieces from `at` on are the one there and those from the next one on. */
  lemma FirstPiece(body: string, at: nat)
    requires at <= |body|
    ensures HasIdPiece(body, at) <==> "id=" <= body[at..] || (at + LINE_CAP - 1 <= |body| && HasIdPiece(body, at + LINE_CAP - 1))
  {
    var next := at + LINE_CAP - 1;
    if HasIdPiece(body, at) {
      var k: nat :| k <= |body| && IdPiece(body, at, k);
      if k > 0 { NextPiece(body, at, k); }
    }
    if "id=" <= body[at..] { assert IdPiece(body, at, 0); }
    if next <= |body| && HasIdPiece(body, next) {
      var k: nat :| k <= |body| && IdPiece(body, next, k);
      NextPiece(body, at, k + 1);
    }
  }

  lemma NextPiece(body: string, at: nat, k: nat)
    requires k > 0
    ensures IdPiece(body, at, k) <==> IdPiece(body, at + LINE_CAP - 1, k - 1)
    ensures IdPiece(body, at, k) ==> k <= |body| && at + LINE_CAP - 1 <= |body|
  {
    assert at + LINE_CAP - 1 + (k - 1) * (LINE_CAP - 1) == at + k * (LINE_CAP - 1);
  }

  lemma LongPiece(rest: string)
    requires '\n' !in rest && '\0' !in rest && |rest| + 1 >= LINE_CAP
    ensures IdsIn(rest + "\n") == (if "id=" <= rest[..LINE_CAP - 1] then [Cut(rest[..LINE_CAP - 1][3..], ID_MAX)] else [])
                                   + IdsIn(rest[LINE_CAP - 1..] + "\n")
  {
    var text, piece := rest + "\n", rest[..LINE_CAP - 1];
    IndexOfAt(rest, '\n', "\n");
    assert Fragment(text, LINE_CAP) == LINE_CAP - 1;
    assert text[..LINE_CAP - 1] == piece && text[LINE_CAP - 1..] == rest[LINE_CAP - 1..] + "\n";
    TextOfAll(piece);
    IndexOfAt(piece, '\n', "");
    assert piece + "" == piece && piece[..|piece|] == piece;
    hide IndexOf, TextOf;
    assert LineIn(piece) == piece;
  }

  /** A source path without a line end brings in an id exactly when its text from character 499 on, or 511, 1022, ...
      characters later, starts with "id=". */
  lemma PlainSourceQuietIff(s: Snapshot)
    requires Recordable(s) && '\n' !in s.sourcePath
    ensures IdsIn(SourceLine(s)) == [] <==> !HasIdPiece("source_path=" + s.sourcePath, 0)
  {
    hide IdsIn, HasIdPiece;
    var body := "source_path=" + s.sourcePath;
    LongLineQuietIff(body, 0);
    assert body[0..] == body;
  }

  // ---- Who is listed under its own name ----

  /** The file of that name and text is listed under an id that leads back to it. */
  predicate ListsItself(name: string, text: string) {
    Visible(name) && Read(text).id != "" && SafeName(Read(text).id) == name
  }

  /** The file names to which a listing leads: those of the ids read from the files that can be seen and opened. */
  function ListedNames(files: map<string, string>, opens: set<string>): set<string> {
    set n | n in files && n in opens && Visible(n) && Read(files[n]).id != "" :: SafeName(Read(files[n]).id)
  }

  predicate AllListThemselves(files: map<string, string>) { forall n :: n in files ==> ListsItself(n, files[n]) }

  /** Then, if all can be opened, the listing leads to every file and nowhere else. */
  lemma ListsExactly(files: map<string, string>, opens: set<string>)
    requires AllListThemselves(files) && files.Keys <= opens
    ensures ListedNames(files, opens) == files.Keys
  {
    hide Visible, Read, SafeName;
    forall n | n in files ensures n in ListedNames(files, opens) { assert SafeName(Read(files[n]).id) == n; }
  }

  /** The name can be seen, and the last id that source path and label bring in, if any, has the same name. */
  predicate LeadsBack(s: Snapshot) {
    Visible(SafeName(s.id)) && SafeName(LastOf(ForeignIds(s), s.id)) == SafeName(s.id)
  }

  /** Exactly then a written `.snapshot` leads back to itself. */
  lemma ListsItselfIff(s: Snapshot)
    requires Recordable(s)
    ensures ListsItself(SafeName(s.id), PrintSnapshot(s)) <==> LeadsBack(s)
  {
    hide Read, PrintSnapshot, ForeignIds, Visible;
    ReadIdOfPrinted(s);
    assert |SafeName(s.id)| == |s.id|;
  }

  /** Which is so for a label and a source path without a line end, unless a piece of the source path looks like an id line. */
  lemma PlainListsItself(s: Snapshot)
    requires Recordable(s) && '\n' !in s.mark && '\n' !in s.sourcePath && !HasIdPiece("source_path=" + s.sourcePath, 0)
    ensures ListsItself(SafeName(s.id), PrintSnapshot(s)) <==> Visible(SafeName(s.id))
  {
    hide IdsIn, PrintSnapshot, ListsItself, Visible, HasIdPiece, Recordable;
    ListsItselfIff(s);
    PlainMarkIsQuiet(s);
    PlainSourceQuietIff(s);
  }

  /** A label with a line end and "id=" behind it takes the snapshot to that id, or off the list. */
  lemma MarkTakesId(s: Snapshot, front: string, id: string)
    requires Recordable(s) && s.mark == front + "\nid=" + id && '\n' !in id
    ensures Read(PrintSnapshot(s)).id == Cut(id, ID_MAX)
    ensures ListsItself(SafeName(s.id), PrintSnapshot(s)) <==> Visible(SafeName(s.id)) && SafeName(Cut(id, ID_MAX)) == SafeName(s.id)
  {
    hide IdsIn, Read, PrintSnapshot, ListsItself, Visible, Recordable;
    ReadIdOfPrinted(s);
    MarkBringsId(s, front, id);
    LastOfTwo(IdsIn(SourceLine(s)), IdsIn("label=" + front + "\n"), Cut(id, ID_MAX), s.id);
    ListsItselfIff(s);
  }

  /** So does "id=" behind the first 499 characters of a source path, which needs no line end. */
  lemma SourceTakesId(s: Snapshot, front: string, id: string)
    requires Recordable(s) && '\n' !in s.mark && '\n' !in s.sourcePath
    requires s.sourcePath == front + "id=" + id && |front| == 499 && |id| + 4 < LINE_CAP
    ensures Read(PrintSnapshot(s)).id == Cut(id, ID_MAX)
    ensures ListsItself(SafeName(s.id), PrintSnapshot(s)) <==> Visible(SafeName(s.id)) && SafeName(Cut(id, ID_MAX)) == SafeName(s.id)
  {
    hide IdsIn, Read, PrintSnapshot, ListsItself, Visible, Recordable;
    ReadIdOfPrinted(s);
    PlainMarkIsQuiet(s);
    SourceBringsId(s, front, id);
    ListsItselfIff(s);
  }

  lemma SourceBringsId(s: Snapshot, front: string, id: string)
    requires Recordable(s) && '\n' !in s.sourcePath
    requires s.sourcePath == front + "id=" + id && |front| == 499 && |id| + 4 < LINE_CAP
    ensures IdsIn(SourceLine(s)) == [Cut(id, ID_MAX)]
  {
    hide IdsIn;
    var body, last := "source_path=" + s.sourcePath, "id=" + id;
    LongPiece(body);
    assert body[LINE_CAP - 1..] == last;
    assert body[..LINE_CAP - 1][0] == 's';
    assert '\n' !in last && '\0' !in last by { assert forall i :: 0 <= i < |last| ==> s.sourcePath[499 + i] == last[i]; }
    IdsOfLine(last);
    assert last[..3] == "id=" && last[3..] == id;
  }

  lemma LastOfTwo(a: seq<string>, b: seq<string>, last: string, otherwise: string)
    ensures LastOf(a + (b + [last]), otherwise) == last
  {
  }
}
