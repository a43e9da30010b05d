/** SHA-256: the standard (FIPS 180-4) as functions, and the streaming context of the implementation,
  proved to compute the standard's digest of everything absorbed, however it was split.
    Line numbers are those of src/crypto/kdf.c. */
module Sha256 {
  import opened Bytes

  type word = bv32

  const BLOCK := 64
  const DIGEST := 32

  // ---- FIPS 180-4 ----

  // Section 3.2: operations on words
  function Add(x: word, y: word): word { x + y }
  function And(x: word, y: word): word { x & y }
  function Xor(x: word, y: word): word { x ^ y }
  function Not(x: word): word { !x }
  function Shr(x: word, n: word): word
    requires n < 32
  {
    x >> n
  }
  function Rotr(x: word, n: word): word
    requires 0 < n < 32
  {
    (x >> n) | (x << (32 - n))
  }

  // Section 4.1.2
  function Ch(x: word, y: word, z: word): word { Xor(And(x, y), And(Not(x), z)) }
  function Maj(x: word, y: word, z: word): word { Xor(Xor(And(x, y), And(x, z)), And(y, z)) }
  function BigSigma0(x: word): word { Xor(Xor(Rotr(x, 2), Rotr(x, 13)), Rotr(x, 22)) }
  function BigSigma1(x: word): word { Xor(Xor(Rotr(x, 6), Rotr(x, 11)), Rotr(x, 25)) }
  function SmallSigma0(x: word): word { Xor(Xor(Rotr(x, 7), Rotr(x, 18)), Shr(x, 3)) }
  function SmallSigma1(x: word): word { Xor(Xor(Rotr(x, 17), Rotr(x, 19)), Shr(x, 10)) }

  // Section 4.2.2
  const K: seq<word> :=
    [0x428a2f98, 0x71374491, 0xb5c0fbcf, 0xe9b5dba5, 0x3956c25b, 0x59f111f1, 0x923f82a4, 0xab1c5ed5]
    + [0xd807aa98, 0x12835b01, 0x243185be, 0x550c7dc3, 0x72be5d74, 0x80deb1fe, 0x9bdc06a7, 0xc19bf174]
    + [0xe49b69c1, 0xefbe4786, 0x0fc19dc6, 0x240ca1cc, 0x2de92c6f, 0x4a7484aa, 0x5cb0a9dc, 0x76f988da]
    + [0x983e5152, 0xa831c66d, 0xb00327c8, 0xbf597fc7, 0xc6e00bf3, 0xd5a79147, 0x06ca6351, 0x14292967]
    + [0x27b70a85, 0x2e1b2138, 0x4d2c6dfc, 0x53380d13, 0x650a7354, 0x766a0abb, 0x81c2c92e, 0x92722c85]
    + [0xa2bfe8a1, 0xa81a664b, 0xc24b8b70, 0xc76c51a3, 0xd192e819, 0xd6990624, 0xf40e3585, 0x106aa070]
    + [0x19a4c116, 0x1e376c08, 0x2748774c, 0x34b0bcb5, 0x391c0cb3, 0x4ed8aa4a, 0x5b9cca4f, 0x682e6ff3]
    + [0x748f82ee, 0x78a5636f, 0x84c87814, 0x8cc70208, 0x90befffa, 0xa4506ceb, 0xbef9a3f7, 0xc67178f2]

  // Section 5.3.3
  const H0: seq<word> := [
    0x6a09e667, 0xbb67ae85, 0x3c6ef372, 0xa54ff53a, 0x510e527f, 0x9b05688c, 0x1f83d9ab, 0x5be0cd19]

  /** The big-endian word made of four bytes. */
  function LoadWord(b0: byte, b1: byte, b2: byte, b3: byte): word {
    (((NatOf(b0) * 256 + NatOf(b1)) * 256 + NatOf(b2)) * 256 + NatOf(b3)) as word
  }

  function StoreWord(w: word): (r: seq<byte>)
    ensures |r| == 4
  {
    var n := w as nat;
    [ByteOf(n / 0x100_0000 % 256), ByteOf(n / 0x1_0000 % 256), ByteOf(n / 0x100 % 256), ByteOf(n % 256)]
  }

  /** Section 6.2.2, step 1: the message schedule of one block. */
  function Schedule(block: seq<byte>, t: nat): word
    requires |block| == BLOCK && t < 64
  {
    if t < 16 then LoadWord(block[4 * t], block[4 * t + 1], block[4 * t + 2], block[4 * t + 3])
    else Add(Add(Add(SmallSigma1(Schedule(block, t - 2)), Schedule(block, t - 7)),
                     SmallSigma0(Schedule(block, t - 15))), Schedule(block, t - 16))
  }

  lemma ScheduleFirst(block: seq<byte>, t: nat)
    requires |block| == BLOCK && t < 16
    ensures Schedule(block, t) == LoadWord(block[4 * t], block[4 * t + 1], block[4 * t + 2], block[4 * t + 3])
  {
    hide LoadWord;
  }

  lemma ScheduleNext(block: seq<byte>, t: nat)
    requires |block| == BLOCK && 16 <= t < 64
    ensures Schedule(block, t)
            == Add(Add(Add(SmallSigma1(Schedule(block, t - 2)), Schedule(block, t - 7)),
                       SmallSigma0(Schedule(block, t - 15))), Schedule(block, t - 16))
  {
    hide Add, SmallSigma0, SmallSigma1;
  }

  datatype Vars = Vars(a: word, b: word, c: word, d: word, e: word, f: word, g: word, h: word)

  /** Section 6.2.2, step 3: one round. */
  function Round(v: Vars, k: word, w: word): Vars {
    var t1 := Add(Add(Add(Add(v.h, BigSigma1(v.e)), Ch(v.e, v.f, v.g)), k), w);
    var t2 := Add(BigSigma0(v.a), Maj(v.a, v.b, v.c));
    Vars(Add(t1, t2), v.a, v.b, v.c, Add(v.d, t1), v.e, v.f, v.g)
  }

  function Rounds(state: seq<word>, block: seq<byte>, t: nat): Vars
    requires |state| == 8 && |block| == BLOCK && t <= 64
  {
    if t == 0 then Vars(state[0], state[1], state[2], state[3], state[4], state[5], state[6], state[7])
    else Round(Rounds(state, block, t - 1), K[t - 1], Schedule(block, t - 1))
  }

  function Feedback(state: seq<word>, v: Vars): (r: seq<word>)
    requires |state| == 8
    ensures |r| == 8
  {
    FeedbackLow(state[..4], v) + FeedbackHigh(state[4..], v)
  }

  function FeedbackLow(low: seq<word>, v: Vars): (r: seq<word>)
    requires |low| == 4
    ensures |r| == 4
  {
    [Add(low[0], v.a), Add(low[1], v.b), Add(low[2], v.c), Add(low[3], v.d)]
  }

  function FeedbackHigh(high: seq<word>, v: Vars): (r: seq<word>)
    requires |high| == 4
    ensures |r| == 4
  {
    [Add(high[0], v.e), Add(high[1], v.f), Add(high[2], v.g), Add(high[3], v.h)]
  }

  /** Section 6.2.2, steps 2 to 4: the next intermediate hash value, after as many rounds as a block has bytes. */
  function Compress(state: seq<word>, block: seq<byte>): (r: seq<word>)
    requires |state| == 8 && |block| == BLOCK
    ensures |r| == 8
  {
    Feedback(state, Rounds(state, block, |block|))
  }

  /** The intermediate hash value after the whole blocks of `data`. */
  function Absorb(data: seq<byte>): (r: seq<word>)
    requires |data| % BLOCK == 0
    ensures |r| == 8
    decreases |data|, 1
  {
    if data == [] then H0 else AfterLastBlock(data)
  }

  /** Section 6.2.2 for the last block, on top of all the blocks before it. */
  function AfterLastBlock(data: seq<byte>): (r: seq<word>)
    requires |data| % BLOCK == 0 && data != []
    ensures |r| == 8
    decreases |data|, 0
  {
    Compress(Absorb(data[..|data| - BLOCK]), data[|data| - BLOCK..])
  }

  /** Section 5.1.1: the zero bytes after the 0x80 byte. */
  function PadZeros(length: nat): (k: nat)
    ensures k < BLOCK && (length + 1 + k) % BLOCK == 56
  {
    (119 - length % 64) % 64
  }

  /** The standard asks for the smallest such number. */
  lemma PadZerosIsLeast(length: nat, j: nat)
    requires (length + 1 + j) % BLOCK == 56
    ensures PadZeros(length) <= j
  {
    var r := length % 64;
    assert length == 64 * (length / 64) + r;
    assert (r + 1 + j) % 64 == 56;
    if j < 64 {
      assert r + 1 + j == 56 || r + 1 + j == 120;
    }
  }

  /** The 64-bit length in bits, reduced modulo 2^64 as the implementation does; the reduction changes
      nothing for the messages the standard admits (fewer than 2^61 bytes). */
  function LengthField(length: nat): (r: seq<byte>)
    ensures |r| == 8
  {
    BigEndian(8 * length % TWO_64, 8)
  }

  lemma EightMore(n: nat)
    requires n % BLOCK == 56
    ensures (n + 8) % BLOCK == 0
  {
  }

  /** Section 5.1.1: the padded message, given its zero bytes. */
  function Pad(message: seq<byte>, zeros: seq<byte>): (r: seq<byte>)
    requires |zeros| == PadZeros(|message|)
    ensures |r| % BLOCK == 0
  {
    hide LengthField;
    EightMore(|message| + 1 + |zeros|);
    message + [0x80] + zeros + LengthField(|message|)
  }

  function StoreWords(ws: seq<word>): (r: seq<byte>)
    ensures |r| == 4 * |ws|
  {
    if ws == [] then [] else StoreWords(ws[..|ws| - 1]) + StoreWord(ws[|ws| - 1])
  }

  /** Section 6.2: the digest of a message. */
  function Digest(message: seq<byte>): (r: seq<byte>)
    ensures |r| == DIGEST
  {
    StoreWords(Absorb(Pad(message, seq(PadZeros(|message|), _ => 0))))
  }

  // ---- The implementation ----

  lemma OneBlockMore(n: nat)
    ensures (n + BLOCK) % BLOCK == n % BLOCK
  {
  }

  lemma AbsorbBlock(data: seq<byte>, block: seq<byte>)
    requires |data| % BLOCK == 0 && |block| == BLOCK
    ensures (|data| + BLOCK) % BLOCK == 0
    ensures Absorb(data + block) == Compress(Absorb(data), block)
  {
    hide Compress;
    OneBlockMore(|data|);
    assert (data + block)[..|data|] == data;
    assert (data + block)[|data|..] == block;
  }

  /** The bytes of `data` that fill whole blocks, and the rest. */
  function Whole(data: seq<byte>): (r: seq<byte>)
    ensures |r| % BLOCK == 0
  {
    data[..|data| - |data| % BLOCK]
  }

  function Rest(data: seq<byte>): (r: seq<byte>)
    ensures |r| == |data| % BLOCK
  {
    data[|data| - |data| % BLOCK..]
  }

  lemma AddCommutes(x: word, y: word)
    ensures Add(x, y) == Add(y, x)
  {
  }

  lemma AddIs(x: word, y: word)
    ensures Add(x, y) == x + y
  {
  }

  lemma AddThree(x: word, y: word, z: word)
    ensures Add(x + y, z) == Add(x, y + z)
  {
  }

  lemma AddAssociates(x: word, y: word, z: word)
    ensures Add(Add(x, y), z) == Add(x, Add(y, z))
  {
    hide Add;
    AddIs(x, y);
    AddIs(y, z);
    AddThree(x, y, z);
  }

  lemma SumOrder(a: word, b: word, c: word, d: word)
    ensures Add(Add(Add(a, b), c), d) == Add(Add(Add(d, c), b), a)
  {
    hide Add;
    AddCommutes(a, b);
    AddCommutes(c, Add(b, a));
    AddAssociates(c, b, a);
    AddCommutes(d, Add(c, Add(b, a)));
    AddCommutes(Add(Add(c, b), a), d);
    AddAssociates(d, Add(c, b), a);
    AddAssociates(d, c, b);
  }

  /** Bytes that stay inside the current block only extend the rest. */
  lemma FillsRest(data: seq<byte>, piece: seq<byte>)
    requires |data| % BLOCK + |piece| < BLOCK
    ensures |data + piece| % BLOCK == |data| % BLOCK + |piece|
    ensures Whole(data + piece) == Whole(data)
    ensures Rest(data + piece) == Rest(data) + piece
  {
    var r := |data| % BLOCK;
    assert |data| == 64 * (|data| / 64) + r;
    assert (|data| + |piece|) % 64 == r + |piece|;
  }

  /** Bytes that reach the end of the current block complete it. */
  lemma FillsBlock(data: seq<byte>, piece: seq<byte>)
    requires |data| % BLOCK + |piece| == BLOCK
    ensures |data + piece| % BLOCK == 0
    ensures Whole(data + piece) == Whole(data) + (Rest(data) + piece)
    ensures Absorb(Whole(data + piece)) == Compress(Absorb(Whole(data)), Rest(data) + piece)
  {
    var r := |data| % BLOCK;
    assert |data| == 64 * (|data| / 64) + r;
    assert (|data| + |piece|) % 64 == 0;
    assert Whole(data + piece) == data + piece;
    assert data == Whole(data) + Rest(data);
    assert data + piece == Whole(data) + (Rest(data) + piece);
    AbsorbBlock(Whole(data), Rest(data) + piece);
  }

  lemma PadZerosIs(length: nat)
    ensures PadZeros(length) == if length % BLOCK < 56 then 55 - length % BLOCK else 119 - length % BLOCK
  {
  }

  lemma WholeAndRest(data: seq<byte>)
    ensures data == Whole(data) + Rest(data)
  {
  }

  lemma Regroup(w: seq<byte>, r: seq<byte>, one: seq<byte>, zeros: seq<byte>, length: seq<byte>)
    ensures w + r + one + zeros + length == w + (r + one + zeros + length)
  {
  }

  lemma RegroupTwo(w: seq<byte>, r: seq<byte>, one: seq<byte>, z1: seq<byte>, z2: seq<byte>, length: seq<byte>)
    ensures w + r + one + (z1 + z2) + length == w + (r + one + z1) + (z2 + length)
  {
  }

  /** Section 5.1.1, when the 0x80 byte and the length still fit into the last block. */
  lemma PadFits(message: seq<byte>)
    requires |message| % BLOCK < 56
    ensures Absorb(Pad(message, Zeros(PadZeros(|message|)))) ==
            Compress(Absorb(Whole(message)),
                     Rest(message) + [0x80] + Zeros(55 - |message| % BLOCK) + LengthField(|message|))
  {
    hide Absorb, Compress, LengthField, PadZeros;
    var r := |message| % BLOCK;
    var length := LengthField(|message|);
    var last := Rest(message) + [0x80] + Zeros(55 - r) + length;
    PadZerosIs(|message|);
    WholeAndRest(message);
    Regroup(Whole(message), Rest(message), [0x80], Zeros(55 - r), length);
    assert Pad(message, Zeros(PadZeros(|message|))) == Whole(message) + last;
    AbsorbBlock(Whole(message), last);
  }

  /** Section 5.1.1, when the length spills into a block of its own. */
  lemma PadSpills(message: seq<byte>)
    requires |message| % BLOCK >= 56
    ensures Absorb(Pad(message, Zeros(PadZeros(|message|)))) ==
            Compress(Compress(Absorb(Whole(message)), Rest(message) + [0x80] + Zeros(63 - |message| % BLOCK)),
                     Zeros(56) + LengthField(|message|))
  {
    hide Absorb, Compress, LengthField, PadZeros;
    var r := |message| % BLOCK;
    var length := LengthField(|message|);
    var first, last := Rest(message) + [0x80] + Zeros(63 - r), Zeros(56) + length;
    PadZerosIs(|message|);
    assert Zeros(119 - r) == Zeros(63 - r) + Zeros(56);
    WholeAndRest(message);
    RegroupTwo(Whole(message), Rest(message), [0x80], Zeros(63 - r), Zeros(56), length);
    assert Pad(message, Zeros(PadZeros(|message|))) == Whole(message) + first + last;
    AbsorbBlock(Whole(message), first);
    AbsorbBlock(Whole(message) + first, last);
  }

  class Context {
    const state: array<word>
    const buffer: array<byte>
    var bitLen: u64
    var bufferLen: nat
    /** Everything absorbed since initialisation. */
    ghost var absorbed: seq<byte>

    ghost function Footprint(): set<object> { {this, state, buffer} }

    /** The hash value covers the whole blocks and the buffer holds the bytes after them. */
    ghost predicate Buffered()
      reads this, state, buffer
    {
      && state.Length == 8 && buffer.Length == BLOCK
      && bufferLen == |absorbed| % BLOCK
      && state[..] == Absorb(Whole(absorbed))
      && buffer[..bufferLen] == Rest(absorbed)
    }

    ghost predicate Valid()
      reads this, state, buffer
    {
      Buffered() && bitLen == 8 * |absorbed| % TWO_64
    }

    constructor ()
      ensures Valid() && fresh(state) && fresh(buffer)
      ensures absorbed == []
    {
      state := new word[8](i requires 0 <= i < 8 => H0[i]);
      buffer := new byte[BLOCK](_ => 0);
      bitLen, bufferLen := 0, 0;
      absorbed := [];
      new;
      assert state[..] == H0;
    }

    /** Lines 59-67: the message schedule of the block in the buffer. */
    method ExpandBlock() returns (w: array<word>)
      requires buffer.Length == BLOCK
      ensures fresh(w) && w.Length == 64
      ensures forall t :: 0 <= t < 64 ==> w[t] == Schedule(buffer[..], t)
    {
      hide Add, And, Xor, Not, Shr, Rotr, LoadWord, Schedule;
      ghost var block := buffer[..];
      w := new word[64];
      for i := 0 to 16
        invariant forall t :: 0 <= t < i ==> w[t] == Schedule(block, t)
      {
        ScheduleFirst(block, i);
        w[i] := LoadWord(buffer[4 * i], buffer[4 * i + 1], buffer[4 * i + 2], buffer[4 * i + 3]);
      }
      for i := 16 to 64
        invariant forall t :: 0 <= t < i ==> w[t] == Schedule(block, t)
      {
        var s0 := Xor(Xor(Rotr(w[i - 15], 7), Rotr(w[i - 15], 18)), Shr(w[i - 15], 3));
        var s1 := Xor(Xor(Rotr(w[i - 2], 17), Rotr(w[i - 2], 19)), Shr(w[i - 2], 10));
        SumOrder(w[i - 16], s0, w[i - 7], s1);
        ScheduleNext(block, i);
        w[i] := Add(Add(Add(w[i - 16], s0), w[i - 7]), s1);
      }
    }

    /** Lines 69-94: the 64 rounds. */
    method RunRounds(w: array<word>) returns (v: Vars)
      requires state.Length == 8 && buffer.Length == BLOCK && w.Length == 64
      requires forall t :: 0 <= t < 64 ==> w[t] == Schedule(buffer[..], t)
      ensures v == Rounds(state[..], buffer[..], buffer.Length)
    {
      hide Add, And, Xor, Not, Shr, Rotr, LoadWord, Schedule;
      ghost var initial, block := state[..], buffer[..];
      var a, b, c, d := state[0], state[1], state[2], state[3];
      var e, f, g, h := state[4], state[5], state[6], state[7];
      for i := 0 to 64
        invariant Vars(a, b, c, d, e, f, g, h) == Rounds(initial, block, i)
      {
        var s1 := Xor(Xor(Rotr(e, 6), Rotr(e, 11)), Rotr(e, 25));
        var ch := Xor(And(e, f), And(Not(e), g));
        var temp1 := Add(Add(Add(Add(h, s1), ch), K[i]), w[i]);
        var s0 := Xor(Xor(Rotr(a, 2), Rotr(a, 13)), Rotr(a, 22));
        var maj := Xor(Xor(And(a, b), And(a, c)), And(b, c));
        var temp2 := Add(s0, maj);
        h := g;
        g := f;
        f := e;
        e := Add(d, temp1);
        d := c;
        c := b;
        b := a;
        a := Add(temp1, temp2);
      }
      v := Vars(a, b, c, d, e, f, g, h);
    }

    /** Lines 96-103: the sum of the old state and the working variables. */
    method AddBack(v: Vars)
      requires state.Length == 8
      modifies state
      ensures state[..] == Feedback(old(state[..]), v)
    {
      hide FeedbackLow, FeedbackHigh;
      AddBackLow(v);
      AddBackHigh(v);
      assert state[..] == state[..4] + state[4..];
      assert old(state[..])[..4] == old(state[..4]) && old(state[..])[4..] == old(state[4..]);
    }

    /** Lines 96-99. */
    method AddBackLow(v: Vars)
      requires state.Length == 8
      modifies state
      ensures state[..4] == FeedbackLow(old(state[..4]), v) && state[4..] == old(state[4..])
    {
      hide Add;
      state[0] := Add(state[0], v.a);
      state[1] := Add(state[1], v.b);
      state[2] := Add(state[2], v.c);
      state[3] := Add(state[3], v.d);
    }

    /** Lines 100-103. */
    method AddBackHigh(v: Vars)
      requires state.Length == 8
      modifies state
      ensures state[..4] == old(state[..4]) && state[4..] == FeedbackHigh(old(state[4..]), v)
    {
      hide Add;
      state[4] := Add(state[4], v.e);
      state[5] := Add(state[5], v.f);
      state[6] := Add(state[6], v.g);
      state[7] := Add(state[7], v.h);
    }

    /** Lines 58-105: one block through the compression function. */
    method Transform()
      requires state.Length == 8 && buffer.Length == BLOCK
      modifies state
      ensures state[..] == Compress(old(state[..]), buffer[..])
    {
      hide Feedback, Rounds;
      var w := ExpandBlock();
      var v := RunRounds(w);
      AddBack(v);
    }

    /** Lines 121-140: absorbs `data`, compressing each time the buffer is full. */
    method Update(data: seq<byte>)
      requires Valid()
      modifies this, state, buffer
      ensures Valid()
      ensures absorbed == old(absorbed) + data
    {
      hide Absorb, Compress, Whole, Rest;
      if |data| == 0 {
        assert absorbed + data == absorbed;
        return;
      }
      ghost var before := absorbed;
      bitLen := (bitLen + (|data| % TWO_64) * 8 % TWO_64) % TWO_64;
      LengthSum(|before|, |data|);
      var pos := 0;
      assert absorbed == before + data[..pos];
      while pos < |data|
        invariant pos <= |data| && Buffered() && absorbed == before + data[..pos]
        invariant bitLen == 8 * (|before| + |data|) % TWO_64
      {
        var space := BLOCK - bufferLen;
        var copy := if |data| - pos < space then |data| - pos else space;
        PieceAppends(before, data, pos, copy);
        FillBuffer(data[pos..pos + copy]);
        pos := pos + copy;
      }
      assert data[..|data|] == data;
    }

    /** Lines 129-138: one piece into the free part of the buffer, which is compressed if that fills it. */
    method FillBuffer(piece: seq<byte>)
      requires Buffered() && 0 < |piece| <= BLOCK - bufferLen
      modifies this`bufferLen, this`absorbed, state, buffer
      ensures Buffered() && absorbed == old(absorbed) + piece
    {
      hide Absorb, Compress, Whole, Rest;
      ghost var rest, hash := buffer[..bufferLen], state[..];
      forall i | 0 <= i < |piece| {
        buffer[bufferLen + i] := piece[i];
      }
      bufferLen := bufferLen + |piece|;
      assert state[..] == hash;
      assert buffer[..bufferLen] == rest + piece;
      if bufferLen == BLOCK {
        FillsBlock(absorbed, piece);
        assert buffer[..] == rest + piece;
        Transform();
        bufferLen := 0;
      } else {
        FillsRest(absorbed, piece);
      }
      absorbed := absorbed + piece;
    }

    /** Writes zero bytes from the fill mark up to `end`. */
    method FillZeros(end: nat)
      requires buffer.Length == BLOCK && bufferLen <= end <= BLOCK
      modifies buffer, this`bufferLen
      ensures bufferLen == end
      ensures buffer[..end] == old(buffer[..bufferLen]) + Zeros(end - old(bufferLen))
    {
      ghost var before := buffer[..bufferLen];
      ghost var start := bufferLen;
      while bufferLen < end
        invariant start <= bufferLen <= end
        invariant buffer[..bufferLen] == before + Zeros(bufferLen - start)
      {
        buffer[bufferLen] := 0;
        bufferLen := bufferLen + 1;
      }
    }

    /** Lines 142-161: pads, compresses and writes out the digest of everything absorbed. */
    method Final(out: array<byte>)
      requires Valid() && out.Length == DIGEST && out != buffer
      modifies this, state, buffer, out
      ensures out[..] == Digest(old(absorbed))
    {
      hide Absorb, Compress, BigEndian;
      ghost var message := absorbed;
      buffer[bufferLen] := 0x80;
      bufferLen := bufferLen + 1;
      assert buffer[..bufferLen] == Rest(message) + [0x80];
      if bufferLen > 56 {
        FillZeros(BLOCK);
        assert buffer[..BLOCK] == buffer[..];
        PadSpills(message);
        Transform();
        bufferLen := 0;
        FillZeros(56);
        assert buffer[..56] == Zeros(56);
      } else {
        FillZeros(56);
        PadFits(message);
      }
      ghost var prefix := buffer[..56];
      StoreLength();
      assert buffer[..] == prefix + BigEndian(bitLen, 8);
      Transform();
      assert state[..] == Absorb(Pad(message, Zeros(PadZeros(|message|))));
      StoreState(out);
    }

    /** Lines 52-56 and 154: the length in the last eight bytes. */
    method StoreLength()
      requires buffer.Length == BLOCK
      modifies buffer
      ensures buffer[..] == old(buffer[..56]) + BigEndian(bitLen, 8)
    {
      var value := bitLen;
      for i := 0 to 8
        invariant buffer[..56] == old(buffer[..56])
        invariant BigEndian(bitLen, 8) == BigEndian(value, 8 - i) + buffer[64 - i..]
      {
        buffer[63 - i] := ByteOf(value % 256);
        assert buffer[64 - i - 1..] == [ByteOf(value % 256)] + buffer[64 - i..];
        value := value / 256;
      }
      assert buffer[..] == buffer[..56] + buffer[56..];
    }

    /** Lines 157-159: the hash value, big-endian. */
    method StoreState(out: array<byte>)
      requires state.Length == 8 && out.Length == DIGEST
      modifies out
      ensures out[..] == StoreWords(state[..])
    {
      hide StoreWord;
      ghost var words := state[..];
      for i := 0 to 8
        invariant out[..4 * i] == StoreWords(words[..i])
      {
        var bytes := StoreWord(state[i]);
        ghost var done := out[..4 * i];
        forall j | 0 <= j < 4 {
          out[4 * i + j] := bytes[j];
        }
        assert out[..4 * (i + 1)] == done + bytes;
        assert words[..i + 1][..i] == words[..i];
      }
      assert out[..] == out[..32] && words == words[..8];
    }
  }

  lemma PieceAppends(before: seq<byte>, data: seq<byte>, pos: nat, size: nat)
    requires pos + size <= |data|
    ensures before + data[..pos] + data[pos..pos + size] == before + data[..pos + size]
  {
    assert data[..pos] + data[pos..pos + size] == data[..pos + size];
  }

  lemma LengthSum(n: nat, m: nat)
    ensures (8 * n % TWO_64 + (m % TWO_64) * 8 % TWO_64) % TWO_64 == 8 * (n + m) % TWO_64
  {
    EightTimes(m);
    SumOfRemainders(8 * n, 8 * m);
  }

  lemma EightTimes(m: nat)
    ensures (m % TWO_64) * 8 % TWO_64 == 8 * m % TWO_64
  {
  }

  lemma SumOfRemainders(a: nat, b: nat)
    ensures (a % TWO_64 + b % TWO_64) % TWO_64 == (a + b) % TWO_64
  {
  }

  /** For the messages the standard admits the length field is the exact length in bits. */
  lemma LengthFieldExact(length: nat)
    requires length < TWO_64 / 8
    ensures FromBigEndian(LengthField(length)) == 8 * length
  {
    assert 8 * length % TWO_64 == 8 * length;
    assert 8 * length < Power256(8) by { Power256Values(); }
    BigEndianRoundTrip(8 * length, 8);
  }

  function Flatten(pieces: seq<seq<byte>>): seq<byte> {
    if pieces == [] then [] else Flatten(pieces[..|pieces| - 1]) + pieces[|pieces| - 1]
  }

  /** The digest does not depend on how a message is split into updates. */
  method DigestOfPieces(pieces: seq<seq<byte>>) returns (hash: seq<byte>)
    ensures hash == Digest(Flatten(pieces))
  {
    hide Digest, Context.Valid, Context.Buffered;
    var ctx := new Context();
    for i := 0 to |pieces|
      invariant ctx.Valid() && fresh(ctx) && fresh(ctx.state) && fresh(ctx.buffer)
      invariant ctx.absorbed == Flatten(pieces[..i])
    {
      ctx.Update(pieces[i]);
      assert pieces[..i + 1][..i] == pieces[..i];
    }
    assert pieces[..|pieces|] == pieces;
    var out := new byte[DIGEST];
    ctx.Final(out);
    hash := out[..];
  }
}
