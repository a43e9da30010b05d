/** Frames on the wire, and their transfer over a stream that splits them anywhere. Line numbers are those of
    src/net/protocol.c for the format and of src/net/client.c for the transfer. */
module Framing {
  import opened Bytes
  import opened Wrappers

  const MAGIC: seq<byte> := [0x43, 0x53, 0x4e, 0x46]
  const VERSION: byte := 1
  const HEADER_SIZE := 16

  datatype Frame = Frame(kind: byte, payload: seq<byte>)

  /** Lines 47-83. */
  function Encode(f: Frame): (r: seq<byte>)
    ensures |r| == HEADER_SIZE + |f.payload|
  {
    MAGIC + [VERSION, f.kind, 0, 0] + BigEndian(|f.payload|, 8) + f.payload
  }

  function AnnouncedSize(header: seq<byte>): (n: nat)
    requires |header| >= HEADER_SIZE
    ensures n < TWO_64
  {
    Power256Values();
    FromBigEndian(header[8..16])
  }

  /** Lines 95-127: the size test is made in 64-bit arithmetic. */
  function Decode(buffer: seq<byte>): Option<Frame> {
    if |buffer| < HEADER_SIZE || buffer[..4] != MAGIC || buffer[4] != VERSION then None
    else
      var size := AnnouncedSize(buffer);
      if |buffer| != (HEADER_SIZE + size) % TWO_64 then None
      else Some(Frame(buffer[5], buffer[HEADER_SIZE..]))
  }

  /** The wrapped test admits only the exact size, and any kind and any reserved bytes. */
  lemma DecodeExact(buffer: seq<byte>)
    requires |buffer| < TWO_64
    ensures Decode(buffer).Some?
            <==> |buffer| >= HEADER_SIZE && buffer[..4] == MAGIC && buffer[4] == VERSION
                 && AnnouncedSize(buffer) == |buffer| - HEADER_SIZE
  {
    if |buffer| >= HEADER_SIZE { WrapsExactly(HEADER_SIZE, AnnouncedSize(buffer), |buffer|); }
  }

  lemma HeaderOf(f: Frame, rest: seq<byte>)
    requires |f.payload| < TWO_64
    ensures var bytes := Encode(f) + rest;
            && bytes[..4] == MAGIC && bytes[4] == VERSION && bytes[5] == f.kind
            && AnnouncedSize(bytes) == |f.payload|
  {
    hide BigEndian, FromBigEndian;
    var bytes := Encode(f) + rest;
    Power256Values();
    BigEndianRoundTrip(|f.payload|, 8);
    assert bytes[8..16] == BigEndian(|f.payload|, 8);
  }

  lemma DecodeEncoded(f: Frame)
    requires HEADER_SIZE + |f.payload| < TWO_64
    ensures Decode(Encode(f)) == Some(f)
  {
    HeaderOf(f, []);
    assert Encode(f) + [] == Encode(f);
    hide BigEndian;
    assert Encode(f)[HEADER_SIZE..] == f.payload;
  }

  /** Lines 10-14: byte by byte from the end. */
  method WriteU64(value: u64) returns (out: array<byte>)
    ensures fresh(out) && out[..] == BigEndian(value, 8)
  {
    out := new byte[8](_ => 0);
    var left: nat := value;
    assert out[8..] == [];
    for index := 0 to 8
      invariant BigEndian(left, 8 - index) + out[8 - index..] == BigEndian(value, 8)
    {
      ghost var done := out[8 - index..];
      out[7 - index] := ByteOf(left % 256);
      assert out[7 - index..] == [ByteOf(left % 256)] + done;
      assert BigEndian(left, 8 - index) == BigEndian(left / 256, 7 - index) + [ByteOf(left % 256)];
      left := left / 256;
    }
  }

  /** Lines 16-22: shifted in from the front, modulo 2^64. */
  method ReadU64(input: seq<byte>) returns (value: u64)
    requires |input| == 8
    ensures value == FromBigEndian(input)
  {
    value := 0;
    Power256Values();
    for index := 0 to 8
      invariant value == FromBigEndian(input[..index])
    {
      assert input[..index + 1][..index] == input[..index];
      PrefixFits(input[..index + 1]);
      value := (value * 256 + NatOf(input[index])) % TWO_64;
    }
    assert input[..8] == input;
  }

  lemma PrefixFits(bytes: seq<byte>)
    requires |bytes| <= 8
    ensures FromBigEndian(bytes) < TWO_64
  {
    Power256Values();
    Power256Grows(|bytes|, 8);
  }

  lemma {:induction false} Power256Grows(m: nat, n: nat)
    requires m <= n
    ensures Power256(m) <= Power256(n)
  {
    if m < n { Power256Grows(m, n - 1); }
  }

  // ---- Several frames ----

  function Wire(frames: seq<Frame>): seq<byte> {
    if frames == [] then [] else Encode(frames[0]) + Wire(frames[1..])
  }

  /** The first frame of a stream of bytes and the bytes behind it. */
  datatype Parse = Parse(frame: Frame, rest: seq<byte>)

  function FirstFrame(bytes: seq<byte>): Option<Parse> {
    if |bytes| < HEADER_SIZE then None
    else
      var n := HEADER_SIZE + AnnouncedSize(bytes);
      if |bytes| < n then None
      else
        var f := Decode(bytes[..n]);
        if f.None? then None else Some(Parse(f.value, bytes[n..]))
  }

  lemma FirstOfWire(f: Frame, rest: seq<byte>)
    requires HEADER_SIZE + |f.payload| < TWO_64
    ensures FirstFrame(Encode(f) + rest) == Some(Parse(f, rest))
  {
    HeaderOf(f, rest);
    DecodeEncoded(f);
    hide Encode, Decode, AnnouncedSize;
    var bytes, n := Encode(f) + rest, HEADER_SIZE + |f.payload|;
    assert bytes[..n] == Encode(f) && bytes[n..] == rest;
  }

  /** The list of frames a stream starts with. */
  function Frames(bytes: seq<byte>, n: nat): Option<seq<Frame>> {
    if n == 0 then Some([])
    else
      var first := FirstFrame(bytes);
      if first.None? then None
      else
        var more := Frames(first.value.rest, n - 1);
        if more.None? then None else Some([first.value.frame] + more.value)
  }

  /** Whatever follows, the frames that were sent are the frames that are parsed. */
  lemma {:induction false} FramesOfWire(frames: seq<Frame>, rest: seq<byte>)
    requires forall f :: f in frames ==> HEADER_SIZE + |f.payload| < TWO_64
    ensures Frames(Wire(frames) + rest, |frames|) == Some(frames)
  {
    hide Encode, FirstFrame;
    if frames != [] {
      var first, more := frames[0], frames[1..];
      JoinedBytes(Encode(first), Wire(more), rest);
      FirstOfWire(first, Wire(more) + rest);
      FramesOfWire(more, rest);
      assert [first] + more == frames;
    }
  }

  lemma JoinedBytes(a: seq<byte>, b: seq<byte>, c: seq<byte>)
    ensures a + b + c == a + (b + c)
  {
  }

  // ---- The stream ----

  /** What a size becomes when it is cast to a 32-bit int. */
  function AsInt(size: nat): int {
    if size % TWO_32 < TWO_32 / 2 then size % TWO_32 else size % TWO_32 - TWO_32
  }

  /** What a socket call moves at most when a negative int, seen as an enormous size, is cut down instead of refused. */
  const MAX_CALL := 0x7fff_f000

  /** How much a call may move whose size has gone through that cast. */
  function Asked(left: nat, cutsDown: bool): (n: nat)
    ensures n <= left
  {
    if AsInt(left) >= 0 then AsInt(left) else if cutsDown then MAX_CALL else 0
  }

  /** The first size that never goes through. */
  function Limit(cutsDown: bool): nat { if cutsDown then TWO_32 else TWO_32 / 2 }

  /** Below the limit each call asks for something; above it what is left stays above it, down to a call for nothing. */
  lemma AskedKeeps(left: nat, moved: nat, cutsDown: bool)
    requires 0 < left && moved <= Asked(left, cutsDown)
    ensures left < Limit(cutsDown) ==> Asked(left, cutsDown) > 0
    ensures left >= Limit(cutsDown) ==> left - moved >= Limit(cutsDown)
  {
    if left < TWO_32 {
      assert left % TWO_32 == left;
    } else {
      assert left - left % TWO_32 == TWO_32 * (left / TWO_32) >= TWO_32;
    }
  }

  /** Below 2^31 bytes a call may move all that is left. Exactly 2^31 are moved only where a negative size is cut down, and
      exactly 2^32 nowhere. */
  lemma LimitIs(left: nat)
    ensures left < 0x8000_0000 ==> Asked(left, false) == left == Asked(left, true)
    ensures left == 0x8000_0000 ==> Asked(left, false) == 0 < Asked(left, true)
    ensures left == 0x1_0000_0000 ==> Asked(left, false) == 0 == Asked(left, true)
    ensures Limit(false) == 0x8000_0000 && Limit(true) == 0x1_0000_0000
  {
  }

  /** Bytes under way from a sender to a receiver. Each call moves as many as it likes of those it is asked for, at least
      one if it is asked for any; only an unreliable stream may also fail. */
  class Stream {
    var pending: seq<byte>
    const reliable: bool
    const cutsDown: bool

    constructor (reliable: bool, cutsDown: bool)
      ensures pending == [] && this.reliable == reliable && this.cutsDown == cutsDown
    {
      pending := [];
      this.reliable, this.cutsDown := reliable, cutsDown;
    }

    method Send(data: seq<byte>) returns (result: int)
      modifies this
      ensures result <= Asked(|data|, cutsDown) && (reliable && Asked(|data|, cutsDown) > 0 ==> result > 0)
      ensures pending == old(pending) + if result > 0 then data[..result] else []
    {
      var most := Asked(|data|, cutsDown);
      result :| (if reliable && most > 0 then 1 else -1) <= result <= most;
      if result > 0 {
        pending := pending + data[..result];
      }
    }

    method Recv(max: nat) returns (result: int, data: seq<byte>)
      modifies this
      ensures result <= Asked(max, cutsDown)
      ensures reliable && Asked(max, cutsDown) > 0 && old(pending) != [] ==> result > 0
      ensures result > 0 ==> result <= |old(pending)| && data == old(pending)[..result] && pending == old(pending)[result..]
      ensures result <= 0 ==> pending == old(pending)
    {
      var most := Min(Asked(max, cutsDown), |pending|);
      result :| (if reliable && most > 0 then 1 else -1) <= result <= most;
      data := [];
      if result > 0 {
        data, pending := pending[..result], pending[result..];
      }
    }
  }

  /** Lines 28-43. */
  method WriteAll(stream: Stream, data: seq<byte>) returns (rc: int)
    requires |data| < TWO_64
    modifies stream
    ensures rc == 0 || rc == -1
    ensures stream.reliable ==> (rc == 0 <==> |data| < Limit(stream.cutsDown))
    ensures |data| >= Limit(stream.cutsDown) ==> rc == -1
    ensures rc == 0 ==> stream.pending == old(stream.pending) + data
    ensures rc != 0 ==> exists k :: 0 <= k < |data| && stream.pending == old(stream.pending) + data[..k]
  {
    hide Asked;
    var sent := 0;
    while sent < |data|
      invariant sent <= |data| && stream.pending == old(stream.pending) + data[..sent]
      invariant |data| < Limit(stream.cutsDown) || |data| - sent >= Limit(stream.cutsDown)
    {
      ghost var before := data[..sent];
      var result := stream.Send(data[sent..]);
      AskedKeeps(|data| - sent, if result > 0 then result else 0, stream.cutsDown);
      if result <= 0 {
        return -1;
      }
      assert data[..sent + result] == before + data[sent..][..result];
      sent := sent + result;
    }
    assert data[..sent] == data;
    rc := 0;
  }

  /** `part` written over `buffer` at `start`. */
  function Placed(buffer: seq<byte>, start: nat, part: seq<byte>): (r: seq<byte>)
    requires start + |part| <= |buffer|
    ensures |r| == |buffer|
  {
    buffer[..start] + part + buffer[start + |part|..]
  }

  lemma PlacedNext(buffer: seq<byte>, start: nat, part: seq<byte>, piece: seq<byte>)
    requires start + |part| + |piece| <= |buffer|
    ensures Placed(Placed(buffer, start, part), start + |part|, piece) == Placed(buffer, start, part + piece)
  {
    var once := Placed(buffer, start, part);
    assert once[..start + |part|] == buffer[..start] + part;
    assert once[start + |part| + |piece|..] == buffer[start + |part| + |piece|..];
  }

  /** A piece that has been received goes to its place. */
  method PlacePiece(data: array<byte>, at: nat, piece: seq<byte>)
    requires at + |piece| <= data.Length
    modifies data
    ensures data[..] == Placed(old(data[..]), at, piece)
  {
    forall k | 0 <= k < |piece| { data[at + k] := piece[k]; }
  }

  /** Lines 45-60. */
  method ReadAll(stream: Stream, data: array<byte>, start: nat, size: nat) returns (rc: int)
    requires start + size <= data.Length && size < TWO_64
    modifies stream, data
    ensures rc == 0 || rc == -1
    ensures stream.reliable && |old(stream.pending)| >= size ==> (rc == 0 <==> size < Limit(stream.cutsDown))
    ensures size >= Limit(stream.cutsDown) ==> rc == -1
    ensures rc == 0 ==> size <= |old(stream.pending)| && stream.pending == old(stream.pending)[size..]
                        && data[..] == Placed(old(data[..]), start, old(stream.pending)[..size])
  {
    hide Asked, Placed;
    var received := 0;
    ghost var was, before := stream.pending, data[..];
    assert data[..] == Placed(before, start, was[..0]) by { PlacedNothing(before, start, was[..0]); }
    while received < size
      invariant received <= size && received <= |was| && stream.pending == was[received..]
      invariant data[..] == Placed(before, start, was[..received])
      invariant size < Limit(stream.cutsDown) || size - received >= Limit(stream.cutsDown)
    {
      var result, piece := stream.Recv(size - received);
      AskedKeeps(size - received, if result > 0 then result else 0, stream.cutsDown);
      if result <= 0 {
        return -1;
      }
      assert was[..received + result] == was[..received] + piece;
      PlacedNext(before, start, was[..received], piece);
      PlacePiece(data, start + received, piece);
      received := received + result;
    }
    rc := 0;
  }

  lemma PlacedNothing(buffer: seq<byte>, start: nat, part: seq<byte>)
    requires start <= |buffer| && part == []
    ensures Placed(buffer, start, part) == buffer
  {
  }

  /** Lines 156-173. */
  method SendFrame(stream: Stream, f: Frame) returns (rc: int)
    requires HEADER_SIZE + |f.payload| < TWO_64
    modifies stream
    ensures stream.reliable ==> (rc == 0 <==> HEADER_SIZE + |f.payload| < Limit(stream.cutsDown))
    ensures HEADER_SIZE + |f.payload| >= Limit(stream.cutsDown) ==> rc != 0
    ensures rc == 0 ==> stream.pending == old(stream.pending) + Encode(f)
  {
    rc := WriteAll(stream, Encode(f));
  }

  /** The size of the allocation for a frame wraps around. */
  predicate TooLargeToHold(bytes: seq<byte>) {
    |bytes| >= HEADER_SIZE && HEADER_SIZE + AnnouncedSize(bytes) >= TWO_64
  }

  /** Lines 175-211. `stray` is set where the allocation is smaller than what is copied into it: C leaves open what
      happens then. */
  method ReceiveFrame(stream: Stream) returns (rc: int, frame: Frame, stray: bool)
    modifies stream
    ensures stray ==> TooLargeToHold(old(stream.pending))
    ensures stream.reliable ==> (stray <==> TooLargeToHold(old(stream.pending)))
    ensures !stray && rc == 0 ==> FirstFrame(old(stream.pending)) == Some(Parse(frame, stream.pending))
                                  && |frame.payload| < Limit(stream.cutsDown)
    ensures stream.reliable && FirstFrame(old(stream.pending)).Some? ==>
              (rc == 0 <==> |FirstFrame(old(stream.pending)).value.frame.payload| < Limit(stream.cutsDown))
  {
    hide Decode, FromBigEndian, Limit;
    frame, stray := Frame(0, []), false;
    ghost var was := stream.pending;
    var header := new byte[HEADER_SIZE];
    HeaderWithin(stream.cutsDown);
    rc := ReadAll(stream, header, 0, HEADER_SIZE);
    if rc != 0 {
      return;
    }
    assert header[..] == was[..HEADER_SIZE];
    var payloadSize := AnnouncedSize(header[..]);
    assert AnnouncedSize(was) == payloadSize by { assert was[8..16] == header[..][8..16]; }
    FirstHasAnnounced(was);
    if HEADER_SIZE + payloadSize >= TWO_64 {
      return -1, frame, true;
    }
    var buffer := new byte[HEADER_SIZE + payloadSize];
    forall k | 0 <= k < HEADER_SIZE { buffer[k] := header[k]; }
    assert buffer[..HEADER_SIZE] == header[..];
    if payloadSize > 0 {
      rc := ReadAll(stream, buffer, HEADER_SIZE, payloadSize);
      if rc != 0 {
        return;
      }
    }
    WholeFrame(was, buffer[..], payloadSize);
    assert stream.pending == was[HEADER_SIZE + payloadSize..];
    var decoded := Decode(buffer[..]);
    if decoded.None? {
      return -1, frame, false;
    }
    return 0, decoded.value, false;
  }

  lemma HeaderWithin(cutsDown: bool)
    ensures HEADER_SIZE < Limit(cutsDown)
  {
  }

  lemma FirstHasAnnounced(bytes: seq<byte>)
    requires |bytes| >= HEADER_SIZE
    ensures var first := FirstFrame(bytes);
            first.Some? ==> HEADER_SIZE + AnnouncedSize(bytes) < TWO_64 && |first.value.frame.payload| == AnnouncedSize(bytes)
  {
    hide AnnouncedSize;
  }

  lemma WholeFrame(was: seq<byte>, buffer: seq<byte>, payloadSize: nat)
    requires |buffer| == HEADER_SIZE + payloadSize <= |was| && buffer[..HEADER_SIZE] == was[..HEADER_SIZE]
    requires buffer[HEADER_SIZE..] == was[HEADER_SIZE..][..payloadSize]
    ensures buffer == was[..HEADER_SIZE + payloadSize]
  {
    assert buffer == buffer[..HEADER_SIZE] + buffer[HEADER_SIZE..];
    assert was[..|buffer|] == was[..HEADER_SIZE] + was[HEADER_SIZE..][..payloadSize];
  }

  method SendAll(stream: Stream, frames: seq<Frame>) returns (rc: int)
    requires forall f :: f in frames ==> HEADER_SIZE + |f.payload| < TWO_64
    modifies stream
    ensures stream.reliable ==> (rc == 0 <==> forall f :: f in frames ==> HEADER_SIZE + |f.payload| < Limit(stream.cutsDown))
    ensures rc == 0 ==> stream.pending == old(stream.pending) + Wire(frames)
    ensures rc == 0 ==> forall f :: f in frames ==> HEADER_SIZE + |f.payload| < Limit(stream.cutsDown)
  {
    hide Encode, Limit;
    rc := 0;
    for i := 0 to |frames|
      invariant stream.pending + Wire(frames[i..]) == old(stream.pending) + Wire(frames)
      invariant forall k :: 0 <= k < i ==> HEADER_SIZE + |frames[k].payload| < Limit(stream.cutsDown)
    {
      assert frames[i..][1..] == frames[i + 1..];
      JoinedBytes(stream.pending, Encode(frames[i]), Wire(frames[i + 1..]));
      rc := SendFrame(stream, frames[i]);
      if rc != 0 {
        return;
      }
    }
    assert stream.pending + [] == stream.pending;
    rc := 0;
  }

  /** A sender that has written everything before the receiver starts: the receiver gets exactly the list of frames. */
  method TransferAll(stream: Stream, frames: seq<Frame>) returns (rc: int, received: seq<Frame>)
    requires stream.pending == [] && forall f :: f in frames ==> HEADER_SIZE + |f.payload| < TWO_64
    modifies stream
    ensures stream.reliable ==> (rc == 0 <==> forall f :: f in frames ==> HEADER_SIZE + |f.payload| < Limit(stream.cutsDown))
    ensures rc == 0 ==> received == frames && stream.pending == []
  {
    hide Encode, FirstFrame, Limit;
    received := [];
    rc := SendAll(stream, frames);
    if rc != 0 {
      return;
    }
    assert stream.pending == Wire(frames) by { assert [] + Wire(frames) == Wire(frames); }
    assert frames[0..] == frames;
    for i := 0 to |frames|
      invariant rc == 0 && received == frames[..i] && stream.pending == Wire(frames[i..])
    {
      assert frames[i..][1..] == frames[i + 1..];
      FirstOfWire(frames[i], Wire(frames[i + 1..]));
      FirstNotTooLarge(stream.pending);
      var frame, stray;
      rc, frame, stray := ReceiveFrame(stream);
      if rc != 0 {
        return;
      }
      received := received + [frame];
      assert frames[..i + 1] == frames[..i] + [frames[i]];
    }
  }

  lemma FirstNotTooLarge(bytes: seq<byte>)
    ensures FirstFrame(bytes).Some? ==> !TooLargeToHold(bytes)
  {
    if |bytes| >= HEADER_SIZE { FirstHasAnnounced(bytes); }
  }
}
