/** The written forms of the system as they stand on disk and on the wire, character by character. */
module Formats {
  import opened Bytes
  import opened Chunker
  import opened Codec
  import opened Framing
  import opened Hashing
  import opened Manifest
  import opened ManifestText
  import opened Path
  import Sha256
  import opened SnapshotText
  import opened SyncServer
  import opened SyncText
  import opened Text
  import opened Wrappers

  // ---- Numbers and names ----

  /** Numbers are printed in decimal. */
  lemma NumbersInText()
    ensures Decimal(0) == "0" && Decimal(907) == "907" && SignedDecimal(-42) == "-42"
  {
  }

  /** And read behind spaces and a sign, up to the first character that is no digit. */
  lemma NumbersFromText(rest: string)
    requires rest == "" || !IsDigit(rest[0])
    ensures ParseU64(" \t" + "" + "12" + rest) == 12 && ParseI64(" " + "-" + "7" + rest) == -7
    ensures ParseI64("" + "+" + "30" + rest) == 30
  {
    ReadNumber(" \t", "", "12", rest);
    ReadNumber(" ", "-", "7", rest);
    ReadNumber("", "+", "30", rest);
    assert NatValue("12") == 12 && NatValue("7") == 7 && NatValue("30") == 30 by { SmallNumbers(); }
    hide Magnitude, Negative, NatValue, IsDigit;
  }

  lemma SmallNumbers()
    ensures NatValue("12") == 12 && NatValue("7") == 7 && NatValue("30") == 30
  {
  }

  lemma ReadNumber(spaces: string, sign: string, digits: string, rest: string)
    requires (forall i :: 0 <= i < |spaces| ==> IsSpace(spaces[i])) && (sign == "" || sign == "-" || sign == "+")
    requires digits != "" && (forall i :: 0 <= i < |digits| ==> IsDigit(digits[i])) && (rest == "" || !IsDigit(rest[0]))
    ensures Magnitude(spaces + sign + digits + rest) == NatValue(digits)
    ensures Negative(spaces + sign + digits + rest) <==> sign == "-"
  {
    hide NatValue;
    var t := sign + digits + rest;
    Assoc(spaces, sign + digits, rest);
    Assoc(spaces, sign, digits);
    assert spaces + sign + digits + rest == spaces + t;
    DigitIsPlain(digits[0]);
    assert t[0] == if sign == "" then digits[0] else sign[0];
    Skipped(spaces, t);
    Assoc(sign, digits, rest);
    DigitRunStops(digits, rest);
    if sign != "" { assert t[1..] == digits + rest; }
    assert (digits + rest)[..|digits|] == digits;
    assert sign == "" ==> t == digits + rest;
  }

  lemma {:induction false} Skipped(spaces: string, t: string)
    requires (forall i :: 0 <= i < |spaces| ==> IsSpace(spaces[i])) && t != "" && !IsSpace(t[0])
    ensures SkipSpace(spaces + t) == t
  {
    if spaces == "" {
      assert spaces + t == t;
    } else {
      assert (spaces + t)[1..] == spaces[1..] + t;
      Skipped(spaces[1..], t);
    }
  }

  /** A byte is printed as two lower-case hexadecimal digits, the high one first. */
  lemma {:induction false} HexAt(bytes: seq<byte>, i: nat)
    requires i < |bytes|
    ensures Hex(bytes)[2 * i] == "0123456789abcdef"[NatOf(bytes[i]) / 16]
    ensures Hex(bytes)[2 * i + 1] == "0123456789abcdef"[NatOf(bytes[i]) % 16]
  {
    if i > 0 { HexAt(bytes[1..], i - 1); }
  }

  /** The name of a chunk is its digest, printed so. */
  lemma NameOfChunk(data: seq<byte>, i: nat)
    requires i < 32
    ensures HashHex(data)[2 * i..2 * i + 2]
            == ["0123456789abcdef"[NatOf(Sha256.Digest(data)[i]) / 16], "0123456789abcdef"[NatOf(Sha256.Digest(data)[i]) % 16]]
  {
    hide Sha256.Digest, Hex;
    HexAt(Sha256.Digest(data), i);
  }

  // ---- Paths ----

  predicate IsName(s: string) { s != "" && '/' !in s && '\\' !in s }

  /** Both separators part two names, one as well as several, and none in front or behind adds a name. */
  lemma PathInText(a: string, b: string)
    requires IsName(a) && IsName(b)
    ensures Components(a + "/" + b) == [a, b] && Components(a + "\\" + b) == [a, b] && Components(a + "//" + b) == [a, b]
    ensures Components("/" + a) == [a] && Components(a + "/") == [a]
  {
    hide Components;
    Parted(a, "/", b);
    Parted(a, "\\", b);
    Parted(a, "//", b);
    Parted("", "/", a);
    Parted(a, "/", "");
    assert a + "/" + "" == a + "/" && "" + "/" + a == "/" + a;
  }

  /** The normal form has '/' between the names. */
  lemma NormalInText(a: string, b: string)
    requires IsName(a) && IsName(b)
    ensures Normalize(a + "\\" + b) == a + "/" + b
  {
    hide Components, Normalize, Render;
    Parted(a, "\\", b);
    NormalizeIsCanonical(a + "\\" + b);
    assert (a + "\\" + b)[0] == a[0];
    RenderCons(a, [b]);
    RenderOne(b);
    assert [a] + [b] == [a, b];
  }

  lemma OneName(a: string)
    requires IsName(a)
    ensures IsComponent(a) && Components(a) == [a] && Components("") == []
  {
    ComponentsOfSegment(a, "");
    assert a + "" == a;
  }

  lemma Parted(a: string, seps: string, b: string)
    requires (a == "" || IsName(a)) && (b == "" || IsName(b)) && (seps == "/" || seps == "\\" || seps == "//")
    ensures Components(a + seps + b) == (if a == "" then [] else [a]) + (if b == "" then [] else [b])
  {
    Assoc(a, seps, b);
    if b != "" { OneName(b); }
    BehindSeps(seps, b);
    hide Components;
    if a == "" {
      assert a + (seps + b) == seps + b;
    } else {
      ComponentsOfSegment(a, seps + b);
    }
  }

  lemma BehindSeps(seps: string, b: string)
    requires seps == "/" || seps == "\\" || seps == "//"
    ensures Components(seps + b) == Components(b)
  {
    hide SegmentLength;
    assert (seps + b)[1..] == seps[1..] + b;
    if seps == "//" {
      assert seps[1..] == "/" && ("/" + b)[1..] == b;
    } else {
      assert seps[1..] + b == b;
    }
  }

  // ---- Codes ----

  /** A code is pairs of a count, which is not zero, and the byte that is to be repeated. */
  lemma {:induction false} DecodesIff(code: seq<byte>)
    ensures Codec.Decode(code).Some? <==> |code| % 2 == 0 && forall k :: 0 <= k < |code| && k % 2 == 0 ==> code[k] != 0
  {
    if |code| >= 2 {
      DecodesIff(code[2..]);
      assert forall k :: 0 <= k < |code| - 2 ==> code[2..][k] == code[k + 2];
      if forall k :: 0 <= k < |code| - 2 && k % 2 == 0 ==> code[2..][k] != 0 {
        forall k | 2 <= k < |code| && k % 2 == 0 ensures code[k] != 0 { assert code[2..][k - 2] != 0; }
      }
    }
  }

  lemma DecodesPair(count: byte, b: byte, code: seq<byte>)
    requires Codec.Decode([count, b] + code).Some?
    ensures Codec.Decode(code).Some?
    ensures Codec.Decode([count, b] + code).value == Repeat(b, NatOf(count)) + Codec.Decode(code).value
  {
    assert ([count, b] + code)[2..] == code;
  }

  // ---- Frames ----

  /** "CSNF", version 1, the kind, two zeros, the payload's size in eight bytes with the highest first, and the payload. */
  lemma FrameOnWire(f: Frame, i: nat)
    requires i < 8
    ensures var bytes := Encode(f);
            && bytes[..8] == [0x43, 0x53, 0x4e, 0x46, 1, f.kind, 0, 0] && bytes[16..] == f.payload
            && NatOf(bytes[8 + i]) == |f.payload| / Power256(7 - i) % 256
  {
    BigEndianAt(|f.payload|, 8, i);
    hide BigEndian;
  }

  // ---- Texts ----

  /** A manifest of one file with one chunk. */
  lemma ManifestAsText()
    ensures Print(Listing([File("a/b", -5, 3, [Chunk(0, 3, "ab")])], 3, 1))
            == "CIFRASYNC-MANIFEST\t1\n" + "TOTAL\t3\t1\n" + "FILE\ta/b\t-5\t3\t1\n" + "CHUNK\t0\t3\tab\n" + "END\n"
  {
  }

  /** A `.snapshot`. */
  lemma SnapshotAsText()
    ensures PrintSnapshot(Snapshot("s1", 5, "/src", "m", 2, 7))
            == "id=s1\n" + "timestamp=5\n" + "source_path=/src\n" + "label=m\n" + "file_count=2\n" + "size_bytes=7\n"
  {
  }

  /** The header line of a manifest frame. */
  lemma HeaderAsText(h: SnapHeader)
    ensures HeaderLine(h) == "SNAPSHOT\tid=" + (h.id + ("\tsource=" + (h.source + ("\t" + TimeAsText(h)))))
  {
    TimeIsText(h);
    hide FromTime, TimeAsText;
    assert FromSource(h) == "source=" + (h.source + ("\t" + TimeAsText(h)));
    hide FromSource;
    var rest := "source=" + (h.source + ("\t" + TimeAsText(h)));
    assert "\t" + rest == "\tsource=" + (h.source + ("\t" + TimeAsText(h)));
    assert HeaderLine(h) == "SNAPSHOT\tid=" + (h.id + ("\t" + rest));
  }

  function TimeAsText(h: SnapHeader): string {
    "ts=" + (SignedDecimal(h.ts) + ("\tfiles=" + (Decimal(h.files) + ("\tsize=" + Decimal(h.size)))))
  }

  lemma TimeIsText(h: SnapHeader)
    ensures FromTime(h) == TimeAsText(h)
  {
    hide SignedDecimal, Decimal;
  }

  /** The reply to it: the id, the number of missing chunks, and their hashes line by line. */
  lemma ReplyAsText(a: string, b: string)
    ensures ReplyHead("s1", 3) == "ACK MANIFEST snapshot=" + "s1" + " missing=3" && LinesOf([a, b]) == "\n" + a + ("\n" + b)
  {
    var lines := [a, b];
    assert lines[1..] == [b] && lines[1..][1..] == [];
    assert LinesOf(lines[1..]) == "\n" + b + "";
    assert "\n" + b + "" == "\n" + b;
  }

  /** A file whose name has the extension in it a second time is not seen. */
  lemma DoubleExtensionIsUnseen(front: string)
    ensures !Visible(front + ".snapshot")
  {
    var name := front + ".snapshot";
    assert (name + Extension())[|front|..] == ".snapshot" + Extension();
    assert Extension() <= (name + Extension())[|front|..];
  }
}
