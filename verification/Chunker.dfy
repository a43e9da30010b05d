/** Fixed-size chunking.
    Line numbers are those of src/delta/chunker.c. */
module Chunker {
  import opened Bytes
  import opened Hashing

  const DEFAULT_CHUNK_SIZE := 1024 * 1024

  /** One call of the visitor: where the chunk lies and what it is called. */
  datatype Slice = Slice(offset: nat, size: nat, hash: Hash)

  function PieceSize(left: nat, chunkSize: nat): nat {
    if left < chunkSize then left else chunkSize
  }

  /** The pieces of `data` from `offset` on. */
  function SlicesFrom(data: seq<byte>, chunkSize: nat, offset: nat): (r: seq<Slice>)
    requires chunkSize > 0 && offset <= |data|
    decreases |data| - offset
  {
    if offset == |data| then []
    else
      var size := PieceSize(|data| - offset, chunkSize);
      [Slice(offset, size, HashHex(data[offset..offset + size]))] + SlicesFrom(data, chunkSize, offset + size)
  }

  /** All visits: a file without content is one empty chunk. */
  function Slices(data: seq<byte>, chunkSize: nat): seq<Slice>
    requires chunkSize > 0
  {
    if data == [] then [Slice(0, 0, HashHex(data))] else SlicesFrom(data, chunkSize, 0)
  }

  /** The slices lie side by side and fill the range from `start` to `end`. */
  predicate Adjacent(slices: seq<Slice>, start: nat, end: nat) {
    if slices == [] then start == end
    else slices[0].offset == start && Adjacent(slices[1..], start + slices[0].size, end)
  }

  /** A slice within `data`, named after the bytes it covers. */
  ghost predicate Names(slice: Slice, data: seq<byte>) {
    && slice.offset + slice.size <= |data|
    && slice.hash == HashHex(data[slice.offset..slice.offset + slice.size])
  }

  /** Number of chunks of a range of `left` bytes. */
  function Count(left: nat, chunkSize: nat): nat
    requires chunkSize > 0
  {
    (left + chunkSize - 1) / chunkSize
  }

  lemma {:induction false} SlicesFromAdjacent(data: seq<byte>, chunkSize: nat, offset: nat)
    requires chunkSize > 0 && offset <= |data|
    ensures Adjacent(SlicesFrom(data, chunkSize, offset), offset, |data|)
    ensures |SlicesFrom(data, chunkSize, offset)| == Count(|data| - offset, chunkSize)
    decreases |data| - offset
  {
    hide HashHex, Count;
    CountStep(|data| - offset, chunkSize);
    if offset < |data| {
      var size := PieceSize(|data| - offset, chunkSize);
      SlicesFromAdjacent(data, chunkSize, offset + size);
      var s := SlicesFrom(data, chunkSize, offset);
      assert s[1..] == SlicesFrom(data, chunkSize, offset + size);
    }
  }

  lemma {:induction false} SlicesFromNames(data: seq<byte>, chunkSize: nat, offset: nat)
    requires chunkSize > 0 && offset <= |data|
    ensures forall s :: s in SlicesFrom(data, chunkSize, offset) ==> Names(s, data) && 0 < s.size <= chunkSize
    decreases |data| - offset
  {
    hide HashHex;
    if offset < |data| {
      SlicesFromNames(data, chunkSize, offset + PieceSize(|data| - offset, chunkSize));
    }
  }

  lemma CountStep(left: nat, chunkSize: nat)
    requires chunkSize > 0
    ensures left == 0 ==> Count(left, chunkSize) == 0
    ensures 0 < left < chunkSize ==> Count(left, chunkSize) == 1 && Count(0, chunkSize) == 0
    ensures chunkSize <= left ==> Count(left, chunkSize) == 1 + Count(left - chunkSize, chunkSize)
  {
    if chunkSize <= left {
      DivStep(left - 1, chunkSize);
    } else if 0 < left {
      DivStep(left - 1, chunkSize);
    }
  }

  lemma {:induction false} AtLeastOne(x: int, b: int)
    requires b > 0
    ensures x >= 1 ==> x * b >= b
    ensures x <= -1 ==> x * b <= -b
    decreases if x < 0 then -x else x
  {
    if x > 1 {
      AtLeastOne(x - 1, b);
      assert x * b == (x - 1) * b + b;
    } else if x < -1 {
      AtLeastOne(x + 1, b);
      assert x * b == (x + 1) * b - b;
    }
  }

  lemma DivStep(a: nat, b: nat)
    requires b > 0
    ensures (a + b) / b == 1 + a / b
  {
    var q, q' := a / b, (a + b) / b;
    assert a == q * b + a % b && a + b == q' * b + (a + b) % b;
    assert (q' - q - 1) * b == q' * b - q * b - b;
    AtLeastOne(q' - q - 1, b);
  }

  /** Every visit covers the next piece of the input, the visits cover it all, and each carries its own name. */
  lemma SlicesCover(data: seq<byte>, chunkSize: nat)
    requires chunkSize > 0
    ensures Adjacent(Slices(data, chunkSize), 0, |data|)
    ensures forall s :: s in Slices(data, chunkSize) ==> Names(s, data) && s.size <= chunkSize
    ensures forall s :: s in Slices(data, chunkSize) && s.size == 0 ==> data == []
  {
    hide HashHex;
    SlicesFromAdjacent(data, chunkSize, 0);
    SlicesFromNames(data, chunkSize, 0);
    assert data[0..0] == [];
  }

  /** Every visit but the last covers exactly `chunkSize` bytes: the `i`-th lies at `i * chunkSize`. */
  lemma SliceAt(data: seq<byte>, chunkSize: nat, i: nat)
    requires chunkSize > 0 && i < |Slices(data, chunkSize)|
    ensures var s, rest := Slices(data, chunkSize)[i], |data| - i * chunkSize;
            s.offset == i * chunkSize && s.size == if rest < chunkSize then rest else chunkSize
  {
    if data != [] { SliceFromAt(data, chunkSize, 0, i); }
  }

  lemma {:induction false} SliceFromAt(data: seq<byte>, chunkSize: nat, offset: nat, i: nat)
    requires chunkSize > 0 && offset <= |data| && i < |SlicesFrom(data, chunkSize, offset)|
    ensures var s, rest := SlicesFrom(data, chunkSize, offset)[i], |data| - (offset + i * chunkSize);
            s.offset == offset + i * chunkSize && s.size == if rest < chunkSize then rest else chunkSize
    decreases i
  {
    hide HashHex;
    if i > 0 {
      var size := PieceSize(|data| - offset, chunkSize);
      var behind := SlicesFrom(data, chunkSize, offset + size);
      assert SlicesFrom(data, chunkSize, offset)[i] == behind[i - 1];
      assert size == chunkSize;
      SliceFromAt(data, chunkSize, offset + size, i - 1);
      assert (i - 1) * chunkSize + chunkSize == i * chunkSize;
    }
  }

  /** The source's estimate, in 64-bit arithmetic. */
  function EstimateCount(chunkSize: nat, size: nat): nat
    requires chunkSize > 0
  {
    if size == 0 then 0 else (size + chunkSize - 1) % TWO_64 / chunkSize
  }

  /** The estimate is the number of visits unless the input is empty or the sum wraps. */
  lemma EstimateIsExact(data: seq<byte>, chunkSize: nat)
    requires 0 < chunkSize < TWO_64 && |data| < TWO_64
    ensures |Slices(data, chunkSize)| == EstimateCount(chunkSize, |data|)
            <==> data != [] && |data| + chunkSize - 1 < TWO_64
  {
    hide HashHex, SlicesFrom, Adjacent, Count, EstimateCount;
    SlicesFromAdjacent(data, chunkSize, 0);
    EstimateCases(chunkSize, |data|);
  }

  lemma EstimateCases(chunkSize: nat, size: nat)
    requires 0 < chunkSize < TWO_64 && size < TWO_64
    ensures size == 0 ==> EstimateCount(chunkSize, size) == 0
    ensures size > 0 ==> (EstimateCount(chunkSize, size) == Count(size, chunkSize) <==> size + chunkSize - 1 < TWO_64)
  {
    if size > 0 {
      DivStep(size - 1, chunkSize);
      if size + chunkSize - 1 >= TWO_64 { WrappedIsSmall(size, chunkSize); }
    }
  }

  lemma WrappedIsSmall(size: nat, chunkSize: nat)
    requires 0 < chunkSize < TWO_64 && size < TWO_64 && size + chunkSize - 1 >= TWO_64
    ensures (size + chunkSize - 1) % TWO_64 / chunkSize == 0
  {
    assert (size + chunkSize - 1) % TWO_64 == size + chunkSize - 1 - TWO_64;
  }

  lemma SlicesStep(data: seq<byte>, chunkSize: nat, offset: nat)
    requires chunkSize > 0 && offset <= |data|
    ensures offset == |data| ==> SlicesFrom(data, chunkSize, offset) == []
    ensures offset < |data| ==>
      var size := PieceSize(|data| - offset, chunkSize);
      SlicesFrom(data, chunkSize, offset)
      == [Slice(offset, size, HashHex(data[offset..offset + size]))] + SlicesFrom(data, chunkSize, offset + size)
  {
    hide HashHex;
  }

  /** Whether the size_t offset wraps around behind the last piece, so that the loop goes on from near the front. */
  predicate OffsetWraps(size: nat, chunkSize: nat)
    requires chunkSize > 0
  {
    size > 0 && Count(size, chunkSize) * chunkSize >= TWO_64
  }

  /** For the engine's chunk size these are the sizes above 2^64 less that. */
  lemma DefaultWrapsIff(size: nat)
    ensures OffsetWraps(size, DEFAULT_CHUNK_SIZE) <==> size > TWO_64 - DEFAULT_CHUNK_SIZE
  {
  }

  lemma OffsetStep(size: nat, chunkSize: nat, offset: nat)
    requires chunkSize > 0 && offset < size
    ensures var rest := size - Min(offset + chunkSize, size);
            offset + Count(size - offset, chunkSize) * chunkSize == offset + chunkSize + Count(rest, chunkSize) * chunkSize
  {
    CountStep(size - offset, chunkSize);
    hide Count;
    if offset + chunkSize <= size {
      var n := Count(size - offset - chunkSize, chunkSize);
      assert (1 + n) * chunkSize == chunkSize + n * chunkSize;
    }
  }

  /** Lines 40-100: the visits in order, up to where the offset wraps. */
  method ChunkBuffer(data: seq<byte>, chunkSize: nat) returns (slices: seq<Slice>, wraps: bool)
    requires chunkSize > 0 && |data| < TWO_64
    ensures slices == Slices(data, chunkSize)
    ensures wraps <==> OffsetWraps(|data|, chunkSize)
  {
    hide HashHex, SlicesFrom, Count;
    slices, wraps := [], false;
    if |data| == 0 {
      return [Slice(0, 0, HashHex(data))], false;
    }
    var offset := 0;
    while offset < |data|
      invariant slices + SlicesFrom(data, chunkSize, Min(offset, |data|)) == SlicesFrom(data, chunkSize, 0)
      invariant !wraps && offset < TWO_64
      invariant offset + Count(|data| - Min(offset, |data|), chunkSize) * chunkSize == Count(|data|, chunkSize) * chunkSize
    {
      var currentSize := PieceSize(|data| - offset, chunkSize);
      var slice := Slice(offset, currentSize, HashHex(data[offset..offset + currentSize]));
      SlicesStep(data, chunkSize, offset);
      OffsetStep(|data|, chunkSize, offset);
      ghost var rest := SlicesFrom(data, chunkSize, offset + currentSize);
      assert slices + ([slice] + rest) == slices + [slice] + rest;
      slices := slices + [slice];
      offset := offset + chunkSize;
      if offset >= TWO_64 {
        WrapsBehindLast(data, chunkSize, offset);
        SlicesStep(data, chunkSize, |data|);
        return slices, true;
      }
    }
    SlicesStep(data, chunkSize, |data|);
    NoPieces(chunkSize);
  }

  lemma WrapsBehindLast(data: seq<byte>, chunkSize: nat, offset: nat)
    requires chunkSize > 0 && |data| < TWO_64 <= offset && |data| > 0
    requires offset + Count(|data| - Min(offset, |data|), chunkSize) * chunkSize == Count(|data|, chunkSize) * chunkSize
    ensures OffsetWraps(|data|, chunkSize)
  {
    NoPieces(chunkSize);
    hide Count;
  }

  lemma NoPieces(chunkSize: nat)
    requires chunkSize > 0
    ensures Count(0, chunkSize) == 0
  {
  }
}
