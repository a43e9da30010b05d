/** The text of a manifest: printer, line-by-line loader, and when the two agree.
    Line numbers are those of src/delta/manifest.c. */
module ManifestText {
  import opened Bytes
  import opened Hashing
  import opened Manifest
  import opened Path
  import opened Text
  import opened Wrappers

  /** The loader's line buffer, with room for the NUL. */
  const LINE_CAP := 1024

  // ---- Printing ----

  function PrintChunk(c: Chunk): string {
    "CHUNK\t" + Decimal(c.offset) + "\t" + Decimal(c.size) + "\t" + c.hash + "\n"
  }

  function PrintChunks(chunks: seq<Chunk>): string {
    if chunks == [] then "" else PrintChunk(chunks[0]) + PrintChunks(chunks[1..])
  }

  /** The fields of a FILE line that the loader reads, with their tabs. */
  function FileHead(f: File): string {
    "FILE\t" + f.path + "\t" + SignedDecimal(f.mtime) + "\t" + Decimal(f.size) + "\t"
  }

  function FileLine(f: File): string { FileHead(f) + Decimal(|f.chunks|) + "\n" }

  function PrintFile(f: File): string { FileLine(f) + PrintChunks(f.chunks) + "END\n" }

  function PrintFiles(files: seq<File>): string {
    if files == [] then "" else PrintFile(files[0]) + PrintFiles(files[1..])
  }

  function MagicLine(): string { "CIFRASYNC-MANIFEST\t1\n" }

  function TotalLine(m: Listing): string { "TOTAL\t" + Decimal(m.totalBytes) + "\t" + Decimal(m.totalChunks) + "\n" }

  function Print(m: Listing): string { MagicLine() + TotalLine(m) + PrintFiles(m.files) }

  // ---- Loading ----

  /** How much the loader takes at a time. */
  function FragmentLength(text: string): (n: nat)
    requires text != ""
    ensures 0 < n <= |text| && n < LINE_CAP
  {
    Fragment(text, LINE_CAP)
  }

  /** The listing so far and the file that chunks go to. */
  datatype State = State(m: Listing, current: Option<nat>) {
    predicate Valid() { current.Some? ==> current.value < |m.files| }
  }

  function StepFile(s: State, rest: string): (r: Option<State>)
    ensures r.Some? ==> r.value.Valid()
  {
    var path := CutAtTab(rest);
    if path.OneField? then None
    else
      var mtime := CutAtTab(path.rest);
      if mtime.OneField? then None
      else
        var size := CutAtTab(mtime.rest);
        if size.OneField? then None
        else
          var m := WithFile(s.m, path.first, ParseI64(mtime.first), ParseU64(size.first));
          if m.None? then None else Some(State(m.value, Some(|s.m.files|)))
  }

  function StepChunk(s: State, rest: string): (r: Option<State>)
    requires s.Valid()
    ensures r.Some? ==> r.value.Valid()
  {
    if s.current.None? then None
    else
      var offset := CutAtTab(rest);
      if offset.OneField? then None
      else
        var size := CutAtTab(offset.rest);
        if size.OneField? then None
        else
          var m := WithChunk(s.m, s.current.value, ParseU64(offset.first), ParseU64(size.first), size.rest);
          if m.None? then None else Some(State(m.value, s.current))
  }

  /** One turn of the loader's loop; lines of no known kind and lines without a tab are skipped. */
  function Step(s: State, fragment: string): (r: Option<State>)
    requires s.Valid()
    ensures r.Some? ==> r.value.Valid()
  {
    var fields := CutAtTab(Trim(TextOf(fragment)));
    if fields.OneField? then Some(s)
    else if fields.first == "FILE" then StepFile(s, fields.rest)
    else if fields.first == "CHUNK" then StepChunk(s, fields.rest)
    else if fields.first == "END" then Some(s.(current := None))
    else Some(s)
  }

  function LoadFrom(s: State, text: string): (r: Option<State>)
    requires s.Valid()
    ensures r.Some? ==> r.value.Valid()
    decreases |text|
  {
    if text == "" then Some(s)
    else
      var n := FragmentLength(text);
      var next := Step(s, text[..n]);
      if next.None? then None else LoadFrom(next.value, text[n..])
  }

  function Loaded(text: string): Option<Listing> {
    var r := LoadFrom(State(EMPTY, None), text);
    if r.None? then None else Some(r.value.m)
  }

  // ---- Reading back one line ----

  /** After one step the rest is read from the new state. */
  function Then(next: Option<State>, rest: string): Option<State>
    requires next.Some? ==> next.value.Valid()
  {
    if next.None? then None else LoadFrom(next.value, rest)
  }

  lemma OneLine(s: State, line: string, rest: string)
    requires s.Valid() && line != "" && |line| < LINE_CAP
    requires line[|line| - 1] == '\n' && '\n' !in line[..|line| - 1]
    ensures LoadFrom(s, line + rest) == Then(Step(s, line), rest)
  {
    var body := line[..|line| - 1];
    var text := line + rest;
    assert line == body + "\n";
    Assoc(body, "\n", rest);
    IndexOfAt(body, '\n', "\n" + rest);
    hide Step, IndexOf;
    assert FragmentLength(text) == |line|;
    assert text[..|line|] == line && text[|line|..] == rest;
  }

  lemma TrimLine(body: string)
    requires body == "" || body[|body| - 1] !in {'\n', '\r'}
    requires '\0' !in body
    ensures Trim(TextOf(body + "\n")) == body && Trim(TextOf(body)) == body
  {
    TextOfAll(body + "\n");
    TextOfAll(body);
    assert (body + "\n")[..|body|] == body;
  }

  lemma StepOfKind(s: State, kind: string, rest: string, fragment: string)
    requires s.Valid() && '\t' !in kind && Trim(TextOf(fragment)) == kind + "\t" + rest
    ensures kind == "FILE" ==> Step(s, fragment) == StepFile(s, rest)
    ensures kind == "CHUNK" ==> Step(s, fragment) == StepChunk(s, rest)
    ensures kind !in {"FILE", "CHUNK", "END"} ==> Step(s, fragment) == Some(s)
  {
    CutExact(kind, rest);
    hide CutAtTab, Trim, TextOf, StepFile, StepChunk;
  }

  lemma StepChunkFields(s: State, offset: string, size: string, hash: string)
    requires s.Valid() && s.current.Some? && Plain(offset) && Plain(size) && IsHex(hash)
    ensures var m := WithChunk(s.m, s.current.value, ParseU64(offset), ParseU64(size), hash);
            m.Some? && StepChunk(s, offset + "\t" + (size + "\t" + hash)) == Some(State(m.value, s.current))
  {
    CutExact(offset, size + "\t" + hash);
    CutExact(size, hash);
    hide CutAtTab, ParseU64, IsHex;
  }

  /** A chunk's line adds the chunk. */
  lemma StepPrintedChunk(s: State, c: Chunk)
    requires s.Valid() && s.current.Some? && GoodChunk(c)
    ensures var m := WithChunk(s.m, s.current.value, c.offset, c.size, c.hash);
            m.Some? && Step(s, PrintChunk(c)) == Some(State(m.value, s.current))
  {
    var o, z := Decimal(c.offset), Decimal(c.size);
    var rest := o + "\t" + (z + "\t" + c.hash);
    ChunkLineShape(c);
    DecimalIsPlain(c.offset);
    DecimalIsPlain(c.size);
    ChunkLineIsPlain(c);
    TrimLine("CHUNK\t" + rest);
    StepOfKind(s, "CHUNK", rest, PrintChunk(c));
    StepChunkFields(s, o, z, c.hash);
    ParsePrinted(c.offset);
    ParsePrinted(c.size);
    hide Decimal, Trim, TextOf, Step, StepChunk, ParseU64, PrintChunk, WithChunk;
  }

  lemma ChunkLineIsPlain(c: Chunk)
    requires GoodChunk(c)
    ensures var body := "CHUNK\t" + (Decimal(c.offset) + "\t" + (Decimal(c.size) + "\t" + c.hash));
            '\0' !in body && '\n' !in body && body[|body| - 1] !in {'\n', '\r'}
  {
    HexIsPlain(c.hash);
    hide Decimal, IsHex;
  }

  lemma ChunkLineShape(c: Chunk)
    ensures var rest := Decimal(c.offset) + "\t" + (Decimal(c.size) + "\t" + c.hash);
            PrintChunk(c) == "CHUNK\t" + rest + "\n" && "CHUNK\t" + rest == "CHUNK" + "\t" + rest
  {
    hide Decimal;
  }

  predicate Plain(s: string) { forall i :: 0 <= i < |s| ==> s[i] !in {'\0', '\t', '\n', '\r'} }

  lemma HexIsPlain(hash: string)
    requires IsHex(hash)
    ensures Plain(hash)
  {
  }

  lemma DecimalIsPlain(n: nat)
    ensures Plain(Decimal(n))
  {
    hide Decimal;
  }

  lemma SignedDecimalIsPlain(i: int)
    ensures Plain(SignedDecimal(i))
  {
    hide Decimal;
  }

  // ---- Reading back a list of chunks ----

  function WithChunks(m: Listing, file: nat, chunks: seq<Chunk>): Listing
    requires file < |m.files|
  {
    var f := m.files[file];
    Listing(m.files[file := f.(chunks := f.chunks + chunks)], m.totalBytes, (m.totalChunks + |chunks|) % TWO_64)
  }

  lemma WithChunksStep(m: Listing, file: nat, chunks: seq<Chunk>)
    requires file < |m.files| && chunks != [] && GoodChunk(chunks[0])
    ensures var c := chunks[0];
            var n := WithChunk(m, file, c.offset, c.size, c.hash);
            n.Some? && WithChunks(n.value, file, chunks[1..]) == WithChunks(m, file, chunks)
  {
    hide IsHex;
    ModuloSum(m.totalChunks + 1, |chunks| - 1);
    var f := m.files[file];
    assert f.chunks + chunks == f.chunks + [chunks[0]] + chunks[1..];
  }

  lemma ChunkLineLength(c: Chunk)
    requires GoodChunk(c)
    ensures 0 < |PrintChunk(c)| < LINE_CAP
    ensures var n := |PrintChunk(c)|; PrintChunk(c)[n - 1] == '\n' && '\n' !in PrintChunk(c)[..n - 1]
  {
    U64Length(c.offset);
    U64Length(c.size);
    ChunkLineIsPlain(c);
    ChunkLineShape(c);
    hide Decimal, IsHex;
  }

  lemma {:induction false} LoadChunks(m: Listing, file: nat, chunks: seq<Chunk>, rest: string)
    requires file < |m.files| && m.totalChunks < TWO_64 && forall c :: c in chunks ==> GoodChunk(c)
    ensures LoadFrom(State(m, Some(file)), PrintChunks(chunks) + rest)
            == LoadFrom(State(WithChunks(m, file, chunks), Some(file)), rest)
    decreases |chunks|
  {
    hide GoodChunk, PrintChunk, LoadFrom;
    if chunks == [] {
      assert "" + rest == rest;
      assert WithChunks(m, file, chunks) == m by { assert m.files[file].chunks + [] == m.files[file].chunks; }
    } else {
      LoadFirstChunk(m, file, chunks, rest);
      WithChunksStep(m, file, chunks);
      var c := chunks[0];
      var n := WithChunk(m, file, c.offset, c.size, c.hash).value;
      hide WithChunks, PrintChunks, Step, IsHex;
      LoadChunks(n, file, chunks[1..], rest);
    }
  }

  lemma LoadFirstChunk(m: Listing, file: nat, chunks: seq<Chunk>, rest: string)
    requires file < |m.files| && chunks != [] && GoodChunk(chunks[0])
    ensures var c := chunks[0];
            var n := WithChunk(m, file, c.offset, c.size, c.hash);
            n.Some? && LoadFrom(State(m, Some(file)), PrintChunks(chunks) + rest)
                       == LoadFrom(State(n.value, Some(file)), PrintChunks(chunks[1..]) + rest)
  {
    var line, tail := PrintChunk(chunks[0]), PrintChunks(chunks[1..]);
    Assoc(line, tail, rest);
    ChunkLineLength(chunks[0]);
    StepPrintedChunk(State(m, Some(file)), chunks[0]);
    OneLine(State(m, Some(file)), line, tail + rest);
    hide PrintChunk, WithChunk, Step, LoadFrom;
  }

  // ---- Reading back a file ----

  /** What the FILE line needs: no tab or line end in the path, and all fields up to the third tab in the buffer. */
  predicate FitsLine(f: File) {
    '\t' !in f.path && '\n' !in f.path && |FileHead(f)| < LINE_CAP
  }

  /** A file that the manifest accepts, with counts that fit their types. */
  predicate Printable(f: File) {
    Accepts(f.path) && '\0' !in f.path && |f.path| < PATH_CAP && |f.chunks| < TWO_64 && forall c :: c in f.chunks ==> GoodChunk(c)
  }

  lemma HeadShape(f: File, tail: string)
    ensures var rest := f.path + "\t" + (SignedDecimal(f.mtime) + "\t" + (Decimal(f.size) + "\t" + tail));
            FileHead(f) + tail == "FILE" + "\t" + rest
  {
    hide Decimal, SignedDecimal;
  }

  lemma StepFileFields(s: State, path: string, mtime: string, size: string, tail: string)
    requires s.Valid() && '\t' !in path && Plain(mtime) && Plain(size)
    ensures var m := WithFile(s.m, path, ParseI64(mtime), ParseU64(size));
            StepFile(s, path + "\t" + (mtime + "\t" + (size + "\t" + tail)))
            == if m.None? then None else Some(State(m.value, Some(|s.m.files|)))
  {
    CutExact(path, mtime + "\t" + (size + "\t" + tail));
    CutExact(mtime, size + "\t" + tail);
    CutExact(size, tail);
    hide CutAtTab, ParseU64, ParseI64, WithFile;
  }

  /** The start of a FILE line, cut anywhere behind its third tab, adds the file without its chunks. */
  lemma StepPrintedHead(s: State, f: File, digits: string, fragment: string)
    requires s.Valid() && FitsLine(f) && Printable(f) && Plain(digits)
    requires fragment == FileHead(f) + digits || fragment == FileHead(f) + digits + "\n"
    ensures var m := WithFile(s.m, f.path, f.mtime, f.size);
            m.Some? && Step(s, fragment) == Some(State(m.value, Some(|s.m.files|)))
  {
    var body := FileHead(f) + digits;
    SignedDecimalIsPlain(f.mtime);
    DecimalIsPlain(f.size);
    HeadIsPlain(f, digits);
    TrimLine(body);
    HeadShape(f, digits);
    var mtime, size := SignedDecimal(f.mtime), Decimal(f.size);
    StepOfKind(s, "FILE", f.path + "\t" + (mtime + "\t" + (size + "\t" + digits)), fragment);
    StepFileFields(s, f.path, mtime, size, digits);
    ParsePrintedSigned(f.mtime);
    ParsePrinted(f.size);
    hide Decimal, SignedDecimal, Trim, TextOf, Step, StepFile, ParseU64, ParseI64, FileHead, Components;
  }

  lemma HeadIsPlain(f: File, digits: string)
    requires '\n' !in f.path && '\0' !in f.path && Plain(digits)
    ensures var body := FileHead(f) + digits;
            '\0' !in body && '\n' !in body && body[|body| - 1] !in {'\n', '\r'}
  {
    SignedDecimalIsPlain(f.mtime);
    DecimalIsPlain(f.size);
    hide Decimal, SignedDecimal;
  }

  /** What is left of a FILE line that overflows the buffer is skipped. */
  lemma StepLeftover(s: State, digits: string)
    requires s.Valid() && Plain(digits)
    ensures Step(s, digits + "\n") == Some(s)
  {
    TrimLine(digits);
    CutMeans(digits);
    hide Trim, TextOf, CutAtTab;
  }

  lemma LoadFileLine(s: State, f: File, rest: string)
    requires s.Valid() && FitsLine(f) && Printable(f)
    ensures var m := WithFile(s.m, f.path, f.mtime, f.size);
            m.Some? && LoadFrom(s, FileLine(f) + rest) == LoadFrom(State(m.value, Some(|s.m.files|)), rest)
  {
    DecimalIsPlain(|f.chunks|);
    U64Length(|f.chunks|);
    if |FileHead(f)| + |Decimal(|f.chunks|)| + 1 < LINE_CAP {
      LoadShortLine(s, f, Decimal(|f.chunks|), rest);
    } else {
      LoadLongLine(s, f, Decimal(|f.chunks|), rest);
    }
  }

  lemma LoadShortLine(s: State, f: File, digits: string, rest: string)
    requires s.Valid() && FitsLine(f) && Printable(f) && Plain(digits) && |FileHead(f)| + |digits| + 1 < LINE_CAP
    ensures var m := WithFile(s.m, f.path, f.mtime, f.size);
            m.Some? && LoadFrom(s, FileHead(f) + digits + "\n" + rest) == LoadFrom(State(m.value, Some(|s.m.files|)), rest)
  {
    var line := FileHead(f) + digits + "\n";
    HeadIsPlain(f, digits);
    StepPrintedHead(s, f, digits, line);
    hide FileHead, Step, Printable, LoadFrom, WithFile;
    OneLine(s, line, rest);
  }

  lemma LoadLongLine(s: State, f: File, digits: string, rest: string)
    requires s.Valid() && FitsLine(f) && Printable(f) && Plain(digits)
    requires |digits| <= 20 && |FileHead(f)| + |digits| + 1 >= LINE_CAP
    ensures var m := WithFile(s.m, f.path, f.mtime, f.size);
            m.Some? && LoadFrom(s, FileHead(f) + digits + "\n" + rest) == LoadFrom(State(m.value, Some(|s.m.files|)), rest)
  {
    hide FileHead, Step, LoadFrom, WithFile, SignedDecimal, Decimal;
    var k := LINE_CAP - 1 - |FileHead(f)|;
    HeadIsPlain(f, digits);
    PlainPart(digits, k);
    hide Plain, Printable;
    StepPrintedHead(s, f, digits[..k], FileHead(f) + digits[..k]);
    var next := State(WithFile(s.m, f.path, f.mtime, f.size).value, Some(|s.m.files|));
    FileAdded(s.m, f);
    LoadLeftover(next, digits[k..], rest);
    LongLine(s, FileHead(f), digits, k, rest);
  }

  lemma PlainPart(digits: string, k: nat)
    requires Plain(digits) && k <= |digits|
    ensures Plain(digits[..k]) && Plain(digits[k..])
  {
  }

  lemma FileAdded(m: Listing, f: File)
    ensures var n := WithFile(m, f.path, f.mtime, f.size); n.Some? ==> |n.value.files| == |m.files| + 1
  {
    hide Components;
  }

  lemma LoadLeftover(s: State, digits: string, rest: string)
    requires s.Valid() && Plain(digits) && |digits| <= 20
    ensures LoadFrom(s, digits + "\n" + rest) == LoadFrom(s, rest)
  {
    StepLeftover(s, digits);
    hide Step, LoadFrom;
    OneLine(s, digits + "\n", rest);
  }

  lemma LongLine(s: State, head: string, digits: string, k: nat, rest: string)
    requires s.Valid() && |head| + k == LINE_CAP - 1 && k <= |digits| && '\n' !in head + digits
    ensures LoadFrom(s, head + digits + "\n" + rest) == Then(Step(s, head + digits[..k]), digits[k..] + "\n" + rest)
  {
    var text := head + digits + "\n" + rest;
    hide Step, IndexOf, FragmentLength;
    CutInDigits(head, digits, k, rest);
    LongFragment(head + digits, rest);
  }

  lemma LongFragment(body: string, rest: string)
    requires '\n' !in body && |body| >= LINE_CAP - 1
    ensures FragmentLength(body + "\n" + rest) == LINE_CAP - 1
  {
    Assoc(body, "\n", rest);
    IndexOfAt(body, '\n', "\n" + rest);
    hide IndexOf;
  }

  lemma CutInDigits(head: string, digits: string, k: nat, rest: string)
    requires k <= |digits|
    ensures var text := head + digits + "\n" + rest;
            text[..|head| + k] == head + digits[..k] && text[|head| + k..] == digits[k..] + "\n" + rest
  {
  }

  lemma AppendedInSteps(m: Listing, f: File)
    requires Accepts(f.path) && |f.path| < PATH_CAP
    ensures var bare := WithFile(m, f.path, f.mtime, f.size);
            bare.Some? && |bare.value.files| == |m.files| + 1
            && WithChunks(bare.value, |m.files|, f.chunks) == Appended(m, f)
  {
    hide Components;
    assert [] + f.chunks == f.chunks;
  }

  lemma LoadFile(s: State, f: File, rest: string)
    requires s.Valid() && FitsLine(f) && Printable(f)
    ensures LoadFrom(s, PrintFile(f) + rest) == LoadFrom(State(Appended(s.m, f), Some(|s.m.files|)), rest)
  {
    var chunks := PrintChunks(f.chunks);
    AppendedInSteps(s.m, f);
    FileShape(f, rest);
    LoadFileLine(s, f, chunks + ("END\n" + rest));
    LoadChunksAndEnd(WithFile(s.m, f.path, f.mtime, f.size).value, |s.m.files|, f.chunks, rest);
    hide WithFile, WithChunks, Appended, FileLine, PrintChunks, LoadFrom, FitsLine, Step, Components, Printable;
  }

  lemma FileShape(f: File, rest: string)
    ensures PrintFile(f) + rest == FileLine(f) + (PrintChunks(f.chunks) + ("END\n" + rest))
  {
    hide PrintChunks, FileLine;
  }

  lemma LoadChunksAndEnd(m: Listing, file: nat, chunks: seq<Chunk>, rest: string)
    requires file < |m.files| && forall c :: c in chunks ==> GoodChunk(c)
    ensures LoadFrom(State(m, Some(file)), PrintChunks(chunks) + ("END\n" + rest))
            == LoadFrom(State(WithChunks(m, file, chunks), Some(file)), rest)
  {
    hide LoadFrom, Step, PrintChunks, GoodChunk;
    LoadChunks(m, file, chunks, "END\n" + rest);
    var next := State(WithChunks(m, file, chunks), Some(file));
    OneLine(next, "END\n", rest);
    StepLeftover(next, "END");
    assert "END" + "\n" == "END\n";
  }

  // ---- A file that does not fit ----

  lemma PrefixField(a: string, b: string, u: string, v: string)
    requires '\t' !in a && '\t' !in b && a + "\t" + u <= b + "\t" + v
    ensures a == b && u <= v
  {
    var s, t := a + "\t" + u, b + "\t" + v;
    var more := t[|s|..];
    assert t == s + more;
    Assoc(a + "\t", u, more);
    CutExact(a, u + more);
    CutExact(b, v);
  }

  lemma {:induction false} TrimKeeps(s: string, k: nat)
    requires 0 < k <= |s| && s[k - 1] !in {'\n', '\r'}
    ensures |Trim(s)| >= k
  {
    if k < |s| { TrimKeeps(s[..|s| - 1], k); }
  }

  lemma TrimDropsNewline(s: string)
    ensures s != "" && s[|s| - 1] == '\n' ==> |Trim(s)| < |s|
  {
  }

  lemma FileLineIsPrintable(f: File)
    requires '\0' !in f.path
    ensures '\0' !in FileLine(f) && FileLine(f)[|FileLine(f)| - 1] == '\n' && |FileLine(f)| >= 6
    ensures "FILE\t" <= FileLine(f) && '\n' !in FileLine(f)[..5]
  {
    SignedDecimalIsPlain(f.mtime);
    DecimalIsPlain(f.size);
    DecimalIsPlain(|f.chunks|);
    hide Decimal, SignedDecimal;
    var line := FileLine(f);
    assert line[..5] == "FILE\t";
  }

  lemma FirstFragmentEnds(line: string, after: string)
    requires |line| >= 6 && line[|line| - 1] == '\n' && '\n' !in line[..5]
    ensures var n := FragmentLength(line + after);
            6 <= n <= |line| && '\n' !in (line + after)[..n - 1] && (line + after)[..n] == line[..n]
  {
    var text := line + after;
    var end := IndexOf(text, '\n');
    IndexAtMost(text, '\n', |line| - 1);
    assert text[..5] == line[..5];
    IndexAtLeast(text, '\n', 5);
    hide IndexOf;
    var n := FragmentLength(text);
    assert text[..n - 1] == text[..end][..n - 1];
  }

  /** The part of a FILE line that the loader sees first. */
  lemma FirstFragment(f: File, after: string) returns (rest: string)
    requires '\0' !in f.path
    ensures var text := FileLine(f) + after;
            && Trim(TextOf(text[..FragmentLength(text)])) == "FILE" + "\t" + rest
            && "FILE\t" + rest <= FileLine(f) && |rest| + 5 < LINE_CAP && '\n' !in rest
  {
    var line := FileLine(f);
    var text := line + after;
    FileLineIsPrintable(f);
    hide FileLine, FragmentLength, Trim, TextOf, IndexOf;
    FirstFragmentEnds(line, after);
    var n := FragmentLength(text);
    assert line[..n - 1] == text[..n - 1];
    assert line[..n][..5] == line[..5] && line[..n][..n - 1] == line[..n - 1];
    rest := FragmentBody(line[..n]);
    assert "FILE\t" + rest <= line[..n] <= line;
  }

  lemma FragmentBody(fragment: string) returns (rest: string)
    requires 6 <= |fragment| < LINE_CAP && "FILE\t" <= fragment && '\0' !in fragment && '\n' !in fragment[..|fragment| - 1]
    ensures Trim(TextOf(fragment)) == "FILE" + "\t" + rest && "FILE\t" + rest <= fragment && '\n' !in rest
  {
    TextOfAll(fragment);
    TrimKeeps(fragment, 5);
    TrimDropsNewline(fragment);
    hide Trim, TextOf;
    var l := Trim(fragment);
    rest := l[5..];
    assert l[..5] == "FILE\t" && l == l[..5] + rest;
    assert "FILE" + "\t" == "FILE\t";
    forall i | 0 <= i < |rest| ensures rest[i] != '\n' {
      if 5 + i < |fragment| - 1 { assert rest[i] == fragment[..|fragment| - 1][5 + i]; }
    }
  }

  /** A file added with its own path from that part is one that fits. */
  lemma SamePathFits(s: State, f: File, rest: string)
    requires s.Valid() && |f.path| < PATH_CAP && |rest| + 5 < LINE_CAP && '\n' !in rest
    requires "FILE\t" + rest <= FileLine(f)
    requires var r := StepFile(s, rest);
             r.Some? && r.value.m.files[|s.m.files|].path == f.path
    ensures FitsLine(f)
  {
    var path := CutAtTab(rest);
    var mtime := CutAtTab(path.rest);
    var size := CutAtTab(mtime.rest);
    assert path.first == f.path && mtime.TwoFields? && size.TwoFields? by {
      hide CutAtTab, Components, ParseU64, ParseI64;
    }
    CutMeans(rest);
    CutMeans(path.rest);
    CutMeans(mtime.rest);
    hide FileLine, CutAtTab, FitsLine, StepFile;
    FieldsFit(f, path.rest, mtime, size, rest);
  }

  lemma FieldsFit(f: File, tail: string, mtime: Fields, size: Fields, rest: string)
    requires rest == f.path + "\t" + tail && '\t' !in f.path && "FILE\t" + rest <= FileLine(f)
    requires mtime.TwoFields? && tail == mtime.first + "\t" + mtime.rest && '\t' !in mtime.first
    requires size.TwoFields? && mtime.rest == size.first + "\t" + size.rest && '\t' !in size.first
    requires |rest| + 5 < LINE_CAP && '\n' !in rest
    ensures FitsLine(f)
  {
    var m, z, d := SignedDecimal(f.mtime), Decimal(f.size), Decimal(|f.chunks|) + "\n";
    SignedDecimalIsPlain(f.mtime);
    DecimalIsPlain(f.size);
    FileLineShape(f);
    hide Decimal, SignedDecimal, FileLine;
    var whole := f.path + "\t" + (m + "\t" + (z + "\t" + d));
    assert rest <= whole by {
      assert ("FILE\t" + rest)[5..] == rest && ("FILE\t" + whole)[5..] == whole;
    }
    PrefixField(f.path, f.path, tail, m + "\t" + (z + "\t" + d));
    PrefixField(mtime.first, m, mtime.rest, z + "\t" + d);
    PrefixField(size.first, z, size.rest, d);
    forall i | 0 <= i < |f.path| ensures f.path[i] != '\n' {
      assert rest[i] == f.path[i];
    }
  }

  lemma FileLineShape(f: File)
    ensures FileLine(f) == "FILE\t" + (f.path + "\t" + (SignedDecimal(f.mtime) + "\t"
                                                       + (Decimal(f.size) + "\t" + (Decimal(|f.chunks|) + "\n"))))
  {
    hide Decimal, SignedDecimal;
  }

  // ---- The whole text ----

  /** Later lines never touch the paths already there. */
  lemma {:induction false} LoadKeepsPaths(s: State, text: string)
    requires s.Valid()
    ensures var r := LoadFrom(s, text);
            r.Some? ==> |r.value.m.files| >= |s.m.files|
                        && forall i :: 0 <= i < |s.m.files| ==> r.value.m.files[i].path == s.m.files[i].path
    decreases |text|
  {
    hide FragmentLength;
    if text != "" {
      var n := FragmentLength(text);
      StepKeepsPaths(s, text[..n]);
      var next := Step(s, text[..n]);
      hide Step;
      if next.Some? { LoadKeepsPaths(next.value, text[n..]); }
    }
  }

  lemma StepKeepsPaths(s: State, fragment: string)
    requires s.Valid()
    ensures var r := Step(s, fragment);
            r.Some? ==> |r.value.m.files| >= |s.m.files|
                        && forall i :: 0 <= i < |s.m.files| ==> r.value.m.files[i].path == s.m.files[i].path
  {
    hide CutAtTab, Trim, TextOf, ParseU64, ParseI64, Components, IsHex;
  }

  /** A file that does not fit is not read back: the load fails or the path differs. */
  lemma LoadMisfit(s: State, f: File, after: string)
    requires s.Valid() && Printable(f) && !FitsLine(f)
    ensures var r := LoadFrom(s, PrintFile(f) + after);
            r.Some? ==> |r.value.m.files| > |s.m.files| && r.value.m.files[|s.m.files|].path != f.path
  {
    var more := PrintChunks(f.chunks) + ("END\n" + after);
    FileShape(f, after);
    var text := FileLine(f) + more;
    var rest := FirstFragment(f, more);
    var n := FragmentLength(text);
    StepOfKind(s, "FILE", rest, text[..n]);
    StepFileAdds(s, rest);
    if Step(s, text[..n]).Some? {
      var next := Step(s, text[..n]).value;
      if next.m.files[|s.m.files|].path == f.path { SamePathFits(s, f, rest); }
      LoadKeepsPaths(next, text[n..]);
    }
    hide Step, StepFile, FragmentLength, FitsLine, PrintFile, FileLine, Trim, TextOf, Printable;
  }

  lemma StepFileAdds(s: State, rest: string)
    ensures var r := StepFile(s, rest); r.Some? ==> |r.value.m.files| == |s.m.files| + 1
  {
    hide CutAtTab, Components, ParseU64, ParseI64;
  }

  /** Without a tab in its path a file that does not fit makes the load fail. */
  lemma TabFreeMisfit(s: State, f: File, after: string)
    requires s.Valid() && Printable(f) && '\t' !in f.path && !FitsLine(f)
    ensures LoadFrom(s, PrintFile(f) + after).None?
  {
    var more := PrintChunks(f.chunks) + ("END\n" + after);
    FileShape(f, after);
    var text := FileLine(f) + more;
    var rest := FirstFragment(f, more);
    var n := FragmentLength(text);
    StepOfKind(s, "FILE", rest, text[..n]);
    if StepFile(s, rest).Some? {
      FirstFieldIsPath(s, f, rest);
      SamePathFits(s, f, rest);
    }
    hide Step, StepFile, FragmentLength, FitsLine, PrintFile, FileLine, Trim, TextOf, Printable;
  }

  lemma FirstFieldIsPath(s: State, f: File, rest: string)
    requires '\t' !in f.path && |f.path| < PATH_CAP && "FILE\t" + rest <= FileLine(f) && StepFile(s, rest).Some?
    ensures |StepFile(s, rest).value.m.files| > |s.m.files| && StepFile(s, rest).value.m.files[|s.m.files|].path == f.path
  {
    hide FileLine, CutAtTab, Components, ParseU64, ParseI64;
    CutPath(f, rest);
  }

  lemma CutPath(f: File, rest: string)
    requires '\t' !in f.path && "FILE\t" + rest <= FileLine(f) && CutAtTab(rest).TwoFields?
    ensures CutAtTab(rest).first == f.path
  {
    hide FileLine, CutAtTab, SignedDecimal, Decimal;
    var tail := SignedDecimal(f.mtime) + "\t" + (Decimal(f.size) + "\t" + (Decimal(|f.chunks|) + "\n"));
    FileLineShape(f);
    CutMeans(rest);
    var cut, whole := CutAtTab(rest), f.path + "\t" + tail;
    assert rest <= whole by {
      assert ("FILE\t" + rest)[5..] == rest && ("FILE\t" + whole)[5..] == whole;
    }
    PrefixField(cut.first, f.path, cut.rest, tail);
  }

  // ---- A path that its own line breaks ----

  /** A path whose line ends and tabs make its FILE line read as a shorter FILE line, a CHUNK line and a rest. */
  function BreakingPath(hash: Hash): string { "x\t1\t2\t3\n" + PrintChunk(Chunk(0, 5, hash)) + "z" }

  /** The fields of the rest. */
  function LeftFields(f: File): string { SignedDecimal(f.mtime) + "\t" + (Decimal(f.size) + "\t" + Decimal(|f.chunks|)) }

  lemma BrokenShape(f: File, hash: Hash, after: string)
    requires f.path == BreakingPath(hash)
    ensures PrintFile(f) + after == "FILE\tx\t1\t2\t3\n" + (PrintChunk(Chunk(0, 5, hash))
                                    + ("z" + "\t" + LeftFields(f) + "\n" + (PrintChunks(f.chunks) + ("END\n" + after))))
  {
    hide Decimal, SignedDecimal, PrintChunk, PrintChunks;
    var chunk, fields, more := PrintChunk(Chunk(0, 5, hash)), LeftFields(f), PrintChunks(f.chunks) + ("END\n" + after);
    FileShape(f, after);
    assert FileLine(f) == "FILE\tx\t1\t2\t3\n" + chunk + ("z" + "\t" + fields + "\n");
    hide FileLine, LeftFields;
    Assoc("FILE\tx\t1\t2\t3\n" + chunk, "z" + "\t" + fields + "\n", more);
    Assoc("FILE\tx\t1\t2\t3\n", chunk, "z" + "\t" + fields + "\n" + more);
  }

  lemma LoadShortFile(s: State, rest: string)
    requires s.Valid()
    ensures var m := WithFile(s.m, "x", ParseI64("1"), ParseU64("2"));
            m.Some? && LoadFrom(s, "FILE\tx\t1\t2\t3\n" + rest) == LoadFrom(State(m.value, Some(|s.m.files|)), rest)
  {
    hide Step, ParseI64, ParseU64, LoadFrom, WithFile;
    ShortNameAccepted(s.m);
    StepShortFile(s);
    OneLine(s, "FILE\tx\t1\t2\t3\n", rest);
  }

  lemma ShortNameAccepted(m: Listing)
    ensures WithFile(m, "x", ParseI64("1"), ParseU64("2")).Some?
  {
    hide ParseI64, ParseU64;
    ComponentsOfSegment("x", "");
    assert "x" + "" == "x";
  }

  lemma StepShortFile(s: State)
    requires s.Valid()
    ensures var m := WithFile(s.m, "x", ParseI64("1"), ParseU64("2"));
            Step(s, "FILE\tx\t1\t2\t3\n") == if m.None? then None else Some(State(m.value, Some(|s.m.files|)))
  {
    hide Trim, TextOf, Step, StepFile, ParseI64, ParseU64, WithFile;
    var body := "FILE\tx\t1\t2\t3";
    var rest := "x" + "\t" + ("1" + "\t" + ("2" + "\t" + "3"));
    assert body == "FILE" + "\t" + rest;
    assert "FILE\tx\t1\t2\t3\n" == body + "\n";
    TrimLine(body);
    StepOfKind(s, "FILE", rest, body + "\n");
    StepFileFields(s, "x", "1", "2", "3");
  }

  lemma LeftFieldsArePlain(f: File)
    requires |f.chunks| < TWO_64
    ensures var t := LeftFields(f); '\0' !in t && '\n' !in t && t[|t| - 1] != '\r' && 0 < |t| <= 63
  {
    SignedDecimalIsPlain(f.mtime);
    var mtime: int := f.mtime;
    U64Length(if mtime < 0 then -mtime else mtime);
    U64Length(f.size);
    U64Length(|f.chunks|);
    DecimalIsPlain(f.size);
    DecimalIsPlain(|f.chunks|);
    hide Decimal;
  }

  /** The loader takes the file for one named "x" with a chunk that nobody scanned in front of its own. */
  lemma BrokenLineLoads(s: State, f: File, hash: Hash, after: string)
    requires s.Valid() && f.path == BreakingPath(hash) && GoodChunk(Chunk(0, 5, hash))
    requires |f.chunks| < TWO_64 && forall c :: c in f.chunks ==> GoodChunk(c)
    ensures var bare := WithFile(s.m, "x", ParseI64("1"), ParseU64("2"));
            && bare.Some? && |bare.value.files| == |s.m.files| + 1 && bare.value.files[|s.m.files|].chunks == []
            && LoadFrom(s, PrintFile(f) + after)
               == LoadFrom(State(WithChunks(bare.value, |s.m.files|, [Chunk(0, 5, hash)] + f.chunks), Some(|s.m.files|)), after)
  {
    var rest := "z" + "\t" + LeftFields(f) + "\n" + (PrintChunks(f.chunks) + ("END\n" + after));
    BrokenShape(f, hash, after);
    LoadShortFile(s, PrintChunk(Chunk(0, 5, hash)) + rest);
    BareFile(s.m);
    hide LoadFrom, PrintChunk, PrintChunks, PrintFile, LeftFields, GoodChunk, WithFile, WithChunks, ParseI64, ParseU64;
    LoadForeignChunk(WithFile(s.m, "x", ParseI64("1"), ParseU64("2")).value, |s.m.files|, f, hash, after);
  }

  lemma BareFile(m: Listing)
    ensures var bare := WithFile(m, "x", ParseI64("1"), ParseU64("2"));
            bare.Some? ==> |bare.value.files| == |m.files| + 1 && bare.value.files[|m.files|].chunks == []
  {
    hide ParseI64, ParseU64, Components;
  }

  lemma LoadForeignChunk(bare: Listing, n: nat, f: File, hash: Hash, after: string)
    requires n < |bare.files| && GoodChunk(Chunk(0, 5, hash))
    requires |f.chunks| < TWO_64 && forall c :: c in f.chunks ==> GoodChunk(c)
    ensures LoadFrom(State(bare, Some(n)),
                     PrintChunk(Chunk(0, 5, hash)) + ("z" + "\t" + LeftFields(f) + "\n" + (PrintChunks(f.chunks) + ("END\n" + after))))
            == LoadFrom(State(WithChunks(bare, n, [Chunk(0, 5, hash)] + f.chunks), Some(n)), after)
  {
    hide LoadFrom, PrintChunk, PrintChunks, LeftFields, GoodChunk, Step, WithChunk, WithChunks;
    var c, more := Chunk(0, 5, hash), PrintChunks(f.chunks) + ("END\n" + after);
    StepPrintedChunk(State(bare, Some(n)), c);
    ChunkLineLength(c);
    OneLine(State(bare, Some(n)), PrintChunk(c), "z" + "\t" + LeftFields(f) + "\n" + more);
    WithChunksStep(bare, n, [c] + f.chunks);
    assert ([c] + f.chunks)[1..] == f.chunks;
    LeftFieldsArePlain(f);
    var one := State(WithChunk(bare, n, 0, 5, hash).value, Some(n));
    SkipLine(one, "z", LeftFields(f), more);
    SameLength(bare, n, hash);
    LoadChunksAndEnd(one.m, n, f.chunks, after);
  }

  lemma SameLength(m: Listing, n: nat, hash: Hash)
    requires n < |m.files| && WithChunk(m, n, 0, 5, hash).Some?
    ensures |WithChunk(m, n, 0, 5, hash).value.files| == |m.files|
  {
    hide IsHex;
  }

  function AppendedAll(m: Listing, files: seq<File>): Listing
    decreases |files|
  {
    if files == [] then m else AppendedAll(Appended(m, files[0]), files[1..])
  }

  lemma {:induction false} AppendedAllFiles(m: Listing, files: seq<File>)
    ensures AppendedAll(m, files).files == m.files + files
    decreases |files|
  {
    if files != [] {
      AppendedAllFiles(Appended(m, files[0]), files[1..]);
      assert m.files + [files[0]] + files[1..] == m.files + files;
    }
  }

  lemma {:induction false} SumsSplit(files: seq<File>)
    requires files != []
    ensures SumSizes(files) == files[0].size + SumSizes(files[1..])
    ensures SumChunks(files) == |files[0].chunks| + SumChunks(files[1..])
  {
    var front := files[..|files| - 1];
    if |files| > 1 {
      SumsSplit(front);
      assert front[1..] == files[1..][..|files| - 2];
    }
  }

  lemma {:induction false} AppendedAllTotals(m: Listing, files: seq<File>)
    ensures AppendedAll(m, files).totalBytes == (m.totalBytes + SumSizes(files)) % TWO_64
    ensures AppendedAll(m, files).totalChunks == (m.totalChunks + SumChunks(files)) % TWO_64
    decreases |files|
  {
    if files != [] {
      var n := Appended(m, files[0]);
      AppendedAllTotals(n, files[1..]);
      SumsSplit(files);
      hide SumSizes, SumChunks;
      ModuloSum(m.totalBytes + files[0].size, SumSizes(files[1..]));
      ModuloSum(m.totalChunks + |files[0].chunks|, SumChunks(files[1..]));
    }
  }

  /** The listed files are read back exactly when every one of them fits its line. */
  lemma {:induction false} LoadFiles(s: State, files: seq<File>)
    requires s.Valid() && forall f :: f in files ==> Printable(f)
    ensures (forall f :: f in files ==> FitsLine(f)) ==>
      var r := LoadFrom(s, PrintFiles(files)); r.Some? && r.value.m == AppendedAll(s.m, files)
    ensures !(forall f :: f in files ==> FitsLine(f)) ==>
      var r := LoadFrom(s, PrintFiles(files)); r.Some? ==> r.value.m.files != s.m.files + files
    decreases |files|
  {
    hide FitsLine, Printable, PrintFile, Appended, LoadFrom;
    if files == [] {
      assert LoadFrom(s, "") == Some(s) by { LoadNothing(s); }
    } else {
      var f, rest := files[0], files[1..];
      if FitsLine(f) {
        var next := State(Appended(s.m, f), Some(|s.m.files|));
        AppendedIs(s.m, f);
        LoadFile(s, f, PrintFiles(rest));
        LoadFiles(next, rest);
        assert s.m.files + [f] + rest == s.m.files + files;
        assert (forall g :: g in files ==> FitsLine(g)) == (forall g :: g in rest ==> FitsLine(g));
      } else {
        LoadMisfit(s, f, PrintFiles(rest));
        assert (s.m.files + files)[|s.m.files|] == f;
      }
    }
  }

  lemma LoadNothing(s: State)
    requires s.Valid()
    ensures LoadFrom(s, "") == Some(s)
  {
  }

  lemma AppendedIs(m: Listing, f: File)
    ensures Appended(m, f).files == m.files + [f]
  {
  }

  lemma LoadHeaders(m: Listing, rest: string)
    ensures LoadFrom(State(EMPTY, None), MagicLine() + TotalLine(m) + rest) == LoadFrom(State(EMPTY, None), rest)
  {
    hide MagicLine, TotalLine, LoadFrom;
    Assoc(MagicLine(), TotalLine(m), rest);
    LoadMagic(State(EMPTY, None), TotalLine(m) + rest);
    LoadTotals(State(EMPTY, None), m, rest);
  }

  lemma LoadTotals(s: State, m: Listing, rest: string)
    requires s.Valid()
    ensures LoadFrom(s, TotalLine(m) + rest) == LoadFrom(s, rest)
  {
    var totals := Decimal(m.totalBytes) + "\t" + Decimal(m.totalChunks);
    TotalsArePlain(m);
    TotalLineShape(m);
    hide Decimal, TotalLine, LoadFrom;
    SkipLine(s, "TOTAL", totals, rest);
  }

  lemma LoadMagic(s: State, rest: string)
    requires s.Valid()
    ensures LoadFrom(s, MagicLine() + rest) == LoadFrom(s, rest)
  {
    hide LoadFrom;
    SkipLine(s, "CIFRASYNC-MANIFEST", "1", rest);
    assert "CIFRASYNC-MANIFEST" + "\t" + "1" + "\n" == MagicLine();
  }

  lemma TotalsArePlain(m: Listing)
    ensures var t := Decimal(m.totalBytes) + "\t" + Decimal(m.totalChunks);
            '\0' !in t && '\n' !in t && t[|t| - 1] != '\r' && 0 < |t| <= 41
  {
    U64Length(m.totalBytes);
    U64Length(m.totalChunks);
    DecimalIsPlain(m.totalBytes);
    DecimalIsPlain(m.totalChunks);
    hide Decimal;
  }

  lemma TotalLineShape(m: Listing)
    ensures TotalLine(m) == "TOTAL" + "\t" + (Decimal(m.totalBytes) + "\t" + Decimal(m.totalChunks)) + "\n"
  {
    hide Decimal;
  }

  lemma SkipLine(s: State, kind: string, fields: string, rest: string)
    requires s.Valid() && Plain(kind) && kind !in {"FILE", "CHUNK", "END"} && |kind| + |fields| < LINE_CAP - 2
    requires '\0' !in fields && '\n' !in fields && fields != "" && fields[|fields| - 1] != '\r'
    ensures LoadFrom(s, kind + "\t" + fields + "\n" + rest) == LoadFrom(s, rest)
  {
    var body := kind + "\t" + fields;
    assert '\0' !in body && '\n' !in body && body[|body| - 1] == fields[|fields| - 1] && '\t' !in kind;
    hide Plain, Step, LoadFrom, Trim, TextOf;
    TrimLine(body);
    StepOfKind(s, kind, fields, body + "\n");
    var line := body + "\n";
    assert line[..|line| - 1] == body;
    OneLine(s, line, rest);
  }

  /** Loading a printed manifest gives it back, totals included, exactly when every file fits its line. */
  lemma PrintedLoads(m: Listing)
    requires Totalled(m) && forall f :: f in m.files ==> Printable(f)
    ensures Loaded(Print(m)) == Some(m) <==> forall f :: f in m.files ==> FitsLine(f)
  {
    hide LoadFrom, PrintFiles, FitsLine, Printable, TotalLine, AppendedAll, SumSizes, SumChunks;
    LoadHeaders(m, PrintFiles(m.files));
    LoadFiles(State(EMPTY, None), m.files);
    AppendedAllFiles(EMPTY, m.files);
    AppendedAllTotals(EMPTY, m.files);
    assert [] + m.files == m.files;
  }

  /** Without tabs in the paths the text loads to what was printed or not at all. */
  lemma TabFreeLoads(m: Listing)
    requires Totalled(m) && forall f :: f in m.files ==> Printable(f) && '\t' !in f.path
    ensures Loaded(Print(m)) == if forall f :: f in m.files ==> FitsLine(f) then Some(m) else None
  {
    PrintedLoads(m);
    hide LoadFrom, PrintFiles, FitsLine, Printable, TotalLine;
    if !(forall f :: f in m.files ==> FitsLine(f)) {
      LoadHeaders(m, PrintFiles(m.files));
      TabFreeFilesFail(State(EMPTY, None), m.files);
    }
  }

  lemma {:induction false} TabFreeFilesFail(s: State, files: seq<File>)
    requires s.Valid() && (forall f :: f in files ==> Printable(f) && '\t' !in f.path) && exists f :: f in files && !FitsLine(f)
    ensures LoadFrom(s, PrintFiles(files)).None?
    decreases |files|
  {
    hide FitsLine, Printable, PrintFile, Appended, LoadFrom;
    var f, rest := files[0], files[1..];
    if FitsLine(f) {
      AppendedIs(s.m, f);
      LoadFile(s, f, PrintFiles(rest));
      TabFreeFilesFail(State(Appended(s.m, f), Some(|s.m.files|)), rest);
    } else {
      TabFreeMisfit(s, f, PrintFiles(rest));
    }
  }

  // ---- The loops ----

  /** Lines 224-238. */
  method WriteFile(f: File) returns (text: string)
    ensures text == PrintFile(f)
  {
    hide PrintChunk, FileLine;
    text := FileLine(f);
    assert f.chunks[0..] == f.chunks;
    for index := 0 to |f.chunks|
      invariant text + PrintChunks(f.chunks[index..]) == FileLine(f) + PrintChunks(f.chunks)
    {
      var c := f.chunks[index];
      assert f.chunks[index..][1..] == f.chunks[index + 1..];
      Assoc(text, PrintChunk(c), PrintChunks(f.chunks[index + 1..]));
      text := text + PrintChunk(c);
    }
    assert text + "" == text;
    text := text + "END\n";
  }

  /** Lines 240-270. */
  method Write(manifest: Manifest) returns (text: string)
    requires manifest.Valid()
    ensures text == Print(manifest.Contents())
  {
    hide PrintFile, MagicLine, TotalLine, WellBuilt;
    ghost var m := manifest.Contents();
    ghost var head := MagicLine() + TotalLine(m);
    text := MagicLine() + TotalLine(Listing([], manifest.totalBytes, manifest.totalChunks));
    assert text == head by { TotalsAlone(m); }
    assert m.files[0..] == m.files;
    for index := 0 to manifest.fileCount
      invariant text + PrintFiles(m.files[index..]) == head + PrintFiles(m.files)
    {
      var one := WriteFile(manifest.files[index]);
      assert one == PrintFile(m.files[index]);
      assert m.files[index..][1..] == m.files[index + 1..];
      Assoc(text, one, PrintFiles(m.files[index + 1..]));
      text := text + one;
    }
    assert text + "" == text;
  }

  lemma TotalsAlone(m: Listing)
    ensures TotalLine(Listing([], m.totalBytes, m.totalChunks)) == TotalLine(m)
  {
  }

  /** Lines 286-391: fields are cut off line by line, and the first bad line ends the load. */
  method Load(text: string) returns (rc: int, manifest: Manifest)
    ensures fresh(manifest) && fresh(manifest.files) && manifest.Valid()
    ensures rc == if Loaded(text).Some? then 0 else -1
    ensures rc == 0 ==> manifest.Contents() == Loaded(text).value
  {
    hide Step, StepFile, StepChunk, FragmentLength, WellBuilt, CutAtTab, Trim, TextOf;
    manifest := new Manifest();
    var currentFile: Option<nat> := None;
    var position := 0;
    ghost var want := LoadFrom(State(EMPTY, None), text);
    assert text[0..] == text;
    while position < |text|
      invariant position <= |text|
      invariant fresh(manifest) && fresh(manifest.files) && manifest.Valid()
      invariant State(manifest.Contents(), currentFile).Valid()
      invariant LoadFrom(State(manifest.Contents(), currentFile), text[position..]) == want
    {
      var n := FragmentLength(text[position..]);
      var line := text[position..][..n];
      assert text[position..][n..] == text[position + n..];
      position := position + n;
      ghost var before := State(manifest.Contents(), currentFile);
      rc, currentFile := LoadLine(manifest, currentFile, line);
      if rc != 0 {
        return;
      }
    }
    assert LoadFrom(State(manifest.Contents(), currentFile), "") == want;
    rc := 0;
  }

  /** Lines 305-386: one line. */
  method LoadLine(manifest: Manifest, currentFile: Option<nat>, fragment: string) returns (rc: int, current: Option<nat>)
    requires manifest.Valid() && State(manifest.Contents(), currentFile).Valid()
    modifies manifest, manifest.files
    ensures manifest.Valid() && (manifest.files == old(manifest.files) || fresh(manifest.files))
    ensures var next := Step(State(old(manifest.Contents()), currentFile), fragment);
            && rc == (if next.Some? then 0 else -1)
            && (rc == 0 ==> State(manifest.Contents(), current) == next.value)
  {
    hide WellBuilt, CutAtTab, Trim, TextOf;
    rc, current := 0, currentFile;
    var line := Trim(TextOf(fragment));
    var fields := CutAtTab(line);
    if fields.OneField? {
      return;
    }
    if fields.first == "FILE" {
      rc, current := LoadFileFields(manifest, currentFile, fields.rest);
    } else if fields.first == "CHUNK" {
      rc := LoadChunkFields(manifest, currentFile, fields.rest);
    } else if fields.first == "END" {
      current := None;
    }
  }

  method LoadFileFields(manifest: Manifest, ghost currentFile: Option<nat>, rest: string) returns (rc: int, current: Option<nat>)
    requires manifest.Valid()
    modifies manifest, manifest.files
    ensures manifest.Valid() && (manifest.files == old(manifest.files) || fresh(manifest.files))
    ensures var next := StepFile(State(old(manifest.Contents()), currentFile), rest);
            && rc == (if next.Some? then 0 else -1)
            && (rc == 0 ==> State(manifest.Contents(), current) == next.value)
  {
    hide WellBuilt, CutAtTab, ParseU64, ParseI64, WithFile;
    current := None;
    var path := CutAtTab(rest);
    if path.OneField? {
      return -1, None;
    }
    var mtime := CutAtTab(path.rest);
    if mtime.OneField? {
      return -1, None;
    }
    var size := CutAtTab(mtime.rest);
    if size.OneField? {
      return -1, None;
    }
    var file;
    rc, file := manifest.AddFile(path.first, ParseI64(mtime.first), ParseU64(size.first));
    current := Some(file);
  }

  method LoadChunkFields(manifest: Manifest, currentFile: Option<nat>, rest: string) returns (rc: int)
    requires manifest.Valid() && State(manifest.Contents(), currentFile).Valid()
    modifies manifest, manifest.files
    ensures manifest.Valid() && manifest.files == old(manifest.files)
    ensures var next := StepChunk(State(old(manifest.Contents()), currentFile), rest);
            && rc == (if next.Some? then 0 else -1)
            && (rc == 0 ==> State(manifest.Contents(), currentFile) == next.value)
  {
    hide WellBuilt, CutAtTab, ParseU64, WithChunk;
    if currentFile.None? {
      return -1;
    }
    var offset := CutAtTab(rest);
    if offset.OneField? {
      return -1;
    }
    var size := CutAtTab(offset.rest);
    if size.OneField? {
      return -1;
    }
    rc := manifest.AddChunk(currentFile.value, ParseU64(offset.first), ParseU64(size.first), size.rest);
  }
}
