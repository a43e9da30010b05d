/** A sender and a receiver at work at the same time: each call moves some bytes into the stream or out of it, in any order.
    Line numbers are those of src/net/client.c. */
module Interleaving {
  import opened Bytes
  import opened Framing
  import opened Wrappers

  /** Bytes still to be sent, under way, and received so far. */
  datatype Link = Link(toSend: seq<byte>, pending: seq<byte>, received: seq<byte>)

  /** The frames of a transfer, and what becomes of a size that its cast makes negative. */
  datatype Transfer = Transfer(frames: seq<Frame>, cutsDown: bool)

  /** One call of send, or one of recv, that moves `n` bytes. */
  datatype Call = Push(n: nat) | Pull(n: nat)

  function SizeOf(f: Frame): nat { HEADER_SIZE + |f.payload| }

  /** What is left to write of the frame to which byte `n` of the wire belongs. */
  function FrameLeft(frames: seq<Frame>, n: nat): nat {
    if frames == [] then 0 else if n < SizeOf(frames[0]) then SizeOf(frames[0]) - n else FrameLeft(frames[1..], n - SizeOf(frames[0]))
  }

  /** What the receiver has yet to read of the header or the payload to which that byte belongs. */
  function Wanted(frames: seq<Frame>, n: nat): nat {
    if frames == [] then 0
    else if n < HEADER_SIZE then HEADER_SIZE - n
    else if n < SizeOf(frames[0]) then SizeOf(frames[0]) - n
    else Wanted(frames[1..], n - SizeOf(frames[0]))
  }

  /** Each call asks for what is left, cast to an int, and moves at most that. */
  predicate Enabled(t: Transfer, l: Link, call: Call) {
    match call
    case Push(n) => 0 < n <= |l.toSend| && n <= Asked(FrameLeft(t.frames, |l.received| + |l.pending|), t.cutsDown)
    case Pull(n) => 0 < n <= |l.pending| && n <= Asked(Wanted(t.frames, |l.received|), t.cutsDown)
  }

  function Apply(t: Transfer, l: Link, call: Call): Link
    requires Enabled(t, l, call)
  {
    match call
    case Push(n) => Link(l.toSend[n..], l.pending + l.toSend[..n], l.received)
    case Pull(n) => Link(l.toSend, l.pending[n..], l.received + l.pending[..n])
  }

  ghost predicate Executes(t: Transfer, l: Link, calls: seq<Call>, end: Link)
    decreases |calls|
  {
    if calls == [] then l == end
    else Enabled(t, l, calls[0]) && Executes(t, Apply(t, l, calls[0]), calls[1..], end)
  }

  function Start(frames: seq<Frame>): Link { Link(Wire(frames), [], []) }

  /** All bytes of the transfer, in order. */
  function Total(l: Link): seq<byte> { l.received + l.pending + l.toSend }

  lemma CallKeepsTotal(t: Transfer, l: Link, call: Call)
    requires Enabled(t, l, call)
    ensures Total(Apply(t, l, call)) == Total(l)
  {
    hide Asked, FrameLeft, Wanted;
    match call
    case Push(n) => assert l.toSend == l.toSend[..n] + l.toSend[n..];
    case Pull(n) => assert l.pending == l.pending[..n] + l.pending[n..];
  }

  lemma {:induction false} RunKeepsTotal(t: Transfer, l: Link, calls: seq<Call>, end: Link)
    requires Executes(t, l, calls, end)
    ensures Total(end) == Total(l)
    decreases |calls|
  {
    hide Enabled, Apply, Total;
    if calls != [] {
      CallKeepsTotal(t, l, calls[0]);
      RunKeepsTotal(t, Apply(t, l, calls[0]), calls[1..], end);
    }
  }

  // ---- What the receiver has ----

  /** The frames a receiver has read off, as far as they are complete. */
  function Parsed(bytes: seq<byte>): seq<Frame>
    decreases |bytes|
  {
    var first := FirstFrame(bytes);
    if first.None? then [] else [first.value.frame] + Parsed(first.value.rest)
  }

  /** How many of the frames the first `n` bytes of their wire contain whole. */
  function Whole(frames: seq<Frame>, n: nat): (k: nat)
    ensures k <= |frames|
  {
    if frames == [] || HEADER_SIZE + |frames[0].payload| > n then 0
    else 1 + Whole(frames[1..], n - (HEADER_SIZE + |frames[0].payload|))
  }

  /** The front of a frame is no frame. */
  lemma CutFrame(f: Frame, rest: seq<byte>, bytes: seq<byte>)
    requires HEADER_SIZE + |f.payload| < TWO_64 && bytes <= Encode(f) + rest && |bytes| < HEADER_SIZE + |f.payload|
    ensures FirstFrame(bytes).None?
  {
    HeaderOf(f, rest);
    hide Encode, Decode, FromBigEndian;
    var all := Encode(f) + rest;
    if |bytes| >= HEADER_SIZE {
      assert bytes[8..16] == all[8..16];
    }
  }

  lemma BehindFrame(f: Frame, rest: seq<byte>, bytes: seq<byte>)
    requires HEADER_SIZE + |f.payload| < TWO_64 && bytes <= Encode(f) + rest && |bytes| >= HEADER_SIZE + |f.payload|
    ensures var n := HEADER_SIZE + |f.payload|;
            bytes[n..] <= rest && FirstFrame(bytes) == Some(Parse(f, bytes[n..]))
  {
    hide Encode, FirstFrame;
    var n := HEADER_SIZE + |f.payload|;
    var all := Encode(f) + rest;
    assert all[..n] == Encode(f) && all[n..] == rest;
    assert bytes == bytes[..n] + bytes[n..] && bytes[..n] == all[..n];
    FirstOfWire(f, bytes[n..]);
  }

  /** Of any front of the wire exactly the whole frames are parsed. */
  lemma {:induction false} FrontParses(frames: seq<Frame>, bytes: seq<byte>)
    requires (forall f :: f in frames ==> HEADER_SIZE + |f.payload| < TWO_64) && bytes <= Wire(frames)
    ensures Parsed(bytes) == frames[..Whole(frames, |bytes|)]
    decreases |frames|
  {
    hide Encode, FirstFrame;
    if frames == [] {
      NoFrame();
    } else {
      var f, more := frames[0], frames[1..];
      var n := HEADER_SIZE + |f.payload|;
      if |bytes| < n {
        CutFrame(f, Wire(more), bytes);
      } else {
        BehindFrame(f, Wire(more), bytes);
        FrontParses(more, bytes[n..]);
        assert frames[..1 + Whole(more, |bytes| - n)] == [f] + more[..Whole(more, |bytes| - n)];
      }
    }
  }

  lemma NoFrame()
    ensures FirstFrame([]).None?
  {
  }

  lemma {:induction false} WholeWire(frames: seq<Frame>)
    ensures Whole(frames, |Wire(frames)|) == |frames|
  {
    hide Encode;
    if frames != [] { WholeWire(frames[1..]); }
  }

  /** At any moment of any interleaving the receiver can read off exactly the frames whose bytes have arrived whole, in the
      order in which they were sent; and all of them once nothing is left to move. */
  lemma ReceivedAreSent(t: Transfer, calls: seq<Call>, l: Link)
    requires (forall f :: f in t.frames ==> SizeOf(f) < TWO_64) && Executes(t, Start(t.frames), calls, l)
    ensures Parsed(l.received) == t.frames[..Whole(t.frames, |l.received|)]
    ensures |l.received| + |l.pending| + |l.toSend| == |Wire(t.frames)|
    ensures l.toSend == [] && l.pending == [] ==> Parsed(l.received) == t.frames
  {
    hide Executes, Wire, Parsed, Whole;
    var frames := t.frames;
    RunKeepsTotal(t, Start(frames), calls, l);
    assert Total(Start(frames)) == Wire(frames);
    assert l.received <= Total(l) by { JoinedBytes(l.received, l.pending, l.toSend); }
    FrontParses(frames, l.received);
    if l.toSend == [] && l.pending == [] {
      assert l.received == Total(l);
      WholeWire(frames);
      assert frames[..|frames|] == frames;
    }
  }

  // ---- Which transfers come to their end ----

  predicate AllBelow(t: Transfer) { forall f :: f in t.frames ==> SizeOf(f) < Limit(t.cutsDown) }

  /** What is left to do: each byte is moved twice. */
  function Left(l: Link): nat { 2 * |l.toSend| + |l.pending| }

  lemma {:induction false} RunsAreShort(t: Transfer, l: Link, calls: seq<Call>, end: Link)
    requires Executes(t, l, calls, end)
    ensures |calls| + Left(end) <= Left(l)
    decreases |calls|
  {
    hide Asked, FrameLeft, Wanted;
    if calls != [] { RunsAreShort(t, Apply(t, l, calls[0]), calls[1..], end); }
  }

  /** On the wire there is always a frame at hand, and something wanted of it. */
  lemma {:induction false} SomethingLeft(frames: seq<Frame>, n: nat, limit: nat)
    requires n < |Wire(frames)| && HEADER_SIZE < limit && forall f :: f in frames ==> SizeOf(f) < limit
    ensures 0 < FrameLeft(frames, n) < limit && 0 < Wanted(frames, n) < limit
  {
    hide Encode;
    assert frames[0] in frames;
    if n >= SizeOf(frames[0]) { SomethingLeft(frames[1..], n - SizeOf(frames[0]), limit); }
  }

  /** With all frames below the limit a call can be made as long as there is a byte to move. */
  lemma BelowGoesOn(t: Transfer, l: Link)
    requires AllBelow(t) && |l.received| + |l.pending| + |l.toSend| == |Wire(t.frames)|
    ensures l.toSend != [] ==> Enabled(t, l, Push(1))
    ensures l.pending != [] ==> Enabled(t, l, Pull(1))
  {
    hide Asked, FrameLeft, Wanted, Wire;
    HeaderWithin(t.cutsDown);
    if l.toSend != [] {
      SomethingLeft(t.frames, |l.received| + |l.pending|, Limit(t.cutsDown));
      AskedKeeps(FrameLeft(t.frames, |l.received| + |l.pending|), 0, t.cutsDown);
    }
    if l.pending != [] {
      SomethingLeft(t.frames, |l.received|, Limit(t.cutsDown));
      AskedKeeps(Wanted(t.frames, |l.received|), 0, t.cutsDown);
    }
  }

  /** How far a sender can come: of a frame from the limit on at least the limit is left. */
  predicate CanBeAt(frames: seq<Frame>, n: nat, limit: nat) {
    if frames == [] then true
    else if SizeOf(frames[0]) < limit then n < SizeOf(frames[0]) || CanBeAt(frames[1..], n - SizeOf(frames[0]), limit)
    else n + limit <= SizeOf(frames[0])
  }

  lemma {:induction false} SendKeepsBehind(frames: seq<Frame>, n: nat, moved: nat, cutsDown: bool)
    requires CanBeAt(frames, n, Limit(cutsDown)) && moved <= Asked(FrameLeft(frames, n), cutsDown)
    ensures CanBeAt(frames, n + moved, Limit(cutsDown))
  {
    hide Asked, Limit;
    if frames != [] {
      if n < SizeOf(frames[0]) {
        AskedKeeps(SizeOf(frames[0]) - n, moved, cutsDown);
        if n + moved == SizeOf(frames[0]) { CanStart(frames[1..], Limit(cutsDown)); }
      } else {
        HeaderWithin(cutsDown);
        SendKeepsBehind(frames[1..], n - SizeOf(frames[0]), moved, cutsDown);
      }
    }
  }

  lemma CanStart(frames: seq<Frame>, limit: nat)
    ensures CanBeAt(frames, 0, limit)
  {
  }

  lemma {:induction false} SenderStaysBehind(t: Transfer, l: Link, calls: seq<Call>, end: Link)
    requires Executes(t, l, calls, end) && CanBeAt(t.frames, |l.received| + |l.pending|, Limit(t.cutsDown))
    ensures CanBeAt(t.frames, |end.received| + |end.pending|, Limit(t.cutsDown))
    decreases |calls|
  {
    hide Asked, FrameLeft, Wanted, CanBeAt, Limit;
    if calls != [] {
      var next := Apply(t, l, calls[0]);
      match calls[0]
      case Push(n) =>
        SendKeepsBehind(t.frames, |l.received| + |l.pending|, n, t.cutsDown);
        SenderStaysBehind(t, next, calls[1..], end);
      case Pull(n) =>
        SenderStaysBehind(t, next, calls[1..], end);
    }
  }

  lemma {:induction false} EndNeedsBelow(frames: seq<Frame>, limit: nat)
    requires CanBeAt(frames, |Wire(frames)|, limit) && 0 < limit
    ensures forall f :: f in frames ==> SizeOf(f) < limit
  {
    hide Encode;
    if frames != [] {
      assert |Wire(frames)| == SizeOf(frames[0]) + |Wire(frames[1..])|;
      if SizeOf(frames[0]) < limit {
        EndNeedsBelow(frames[1..], limit);
      } else {
        FirstTooLong(frames, limit);
      }
    }
  }

  lemma FirstTooLong(frames: seq<Frame>, limit: nat)
    requires frames != [] && SizeOf(frames[0]) >= limit > 0
    ensures !CanBeAt(frames, |Wire(frames)|, limit)
  {
    hide Encode;
  }

  lemma {:induction false} WholeNeedsAll(frames: seq<Frame>, n: nat)
    requires Whole(frames, n) == |frames|
    ensures n >= |Wire(frames)|
  {
    hide Encode;
    if frames != [] { WholeNeedsAll(frames[1..], n - SizeOf(frames[0])); }
  }

  /** However the calls alternate and however little each moves, there are at most two for each byte; and when none is
      possible any more the receiver has all the frames if and only if all of them are below the limit of the cast. */
  lemma TransferCompletes(t: Transfer, calls: seq<Call>, l: Link)
    requires (forall f :: f in t.frames ==> SizeOf(f) < TWO_64) && Executes(t, Start(t.frames), calls, l)
    ensures |calls| <= 2 * |Wire(t.frames)|
    ensures Parsed(l.received) == t.frames ==> AllBelow(t)
    ensures AllBelow(t) && (forall call :: !Enabled(t, l, call)) ==> Parsed(l.received) == t.frames
  {
    hide Executes, Wire, Parsed, Enabled, CanBeAt, Limit, Whole;
    RunsAreShort(t, Start(t.frames), calls, l);
    ReceivedAreSent(t, calls, l);
    if Parsed(l.received) == t.frames {
      assert Whole(t.frames, |l.received|) == |t.frames|;
      WholeNeedsAll(t.frames, |l.received|);
      CanStart(t.frames, Limit(t.cutsDown));
      SenderStaysBehind(t, Start(t.frames), calls, l);
      HeaderWithin(t.cutsDown);
      EndNeedsBelow(t.frames, Limit(t.cutsDown));
    }
    if AllBelow(t) && forall call :: !Enabled(t, l, call) {
      BelowGoesOn(t, l);
    }
  }
}
