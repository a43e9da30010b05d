/** Run-length coding: pairs of a count (1 to 255) and a byte.
    Line numbers are those of src/compress/codec.c. */
module Codec {
  import opened Bytes
  import opened Wrappers

  const OK := 0
  const ERR_INVALID := -1
  const ERR_BUFFER := -2
  const SIZE_MAX := TWO_64 - 1

  // ---- The format ----

  function Repeat(b: byte, n: nat): (r: seq<byte>)
    ensures |r| == n && forall i :: 0 <= i < n ==> r[i] == b
  {
    seq(n, _ => b)
  }

  /** An even number of bytes, no count zero. */
  predicate WellFormed(code: seq<byte>) {
    |code| % 2 == 0 && (code != [] ==> code[0] != 0 && WellFormed(code[2..]))
  }

  function Expand(code: seq<byte>): seq<byte>
    requires WellFormed(code)
  {
    if code == [] then [] else Repeat(code[1], NatOf(code[0])) + Expand(code[2..])
  }

  /** What a code stands for; None when it is malformed. */
  function Decode(code: seq<byte>): Option<seq<byte>> {
    if WellFormed(code) then Some(Expand(code)) else None
  }

  /** The length of the leading run, at most 255. */
  function RunLength(data: seq<byte>, n: nat): (r: nat)
    requires 0 < n <= |data| && n <= 255 && forall i :: 0 <= i < n ==> data[i] == data[0]
    ensures n <= r <= |data| && r <= 255
    ensures forall i :: 0 <= i < r ==> data[i] == data[0]
    ensures r < 255 && r < |data| ==> data[r] != data[0]
    decreases |data| - n
  {
    if n < 255 && n < |data| && data[n] == data[0] then RunLength(data, n + 1) else n
  }

  /** Greedy encoding: each pair takes the longest run. */
  function Greedy(data: seq<byte>): (r: seq<byte>)
    ensures |r| % 2 == 0
  {
    if data == [] then []
    else
      var n := RunLength(data, 1);
      [ByteOf(n), data[0]] + Greedy(data[n..])
  }

  lemma FirstPair(code: seq<byte>)
    requires |code| % 2 == 0
    ensures code == [] ==> WellFormed(code) && Expand(code) == []
    ensures code != [] ==> (WellFormed(code) <==> code[0] != 0 && WellFormed(code[2..]))
    ensures code != [] && WellFormed(code) ==> Expand(code) == Repeat(code[1], NatOf(code[0])) + Expand(code[2..])
  {
  }

  lemma ExpandPair(n: nat, b: byte, code: seq<byte>)
    requires 0 < n < 256 && WellFormed(code)
    ensures WellFormed([ByteOf(n), b] + code)
    ensures Expand([ByteOf(n), b] + code) == Repeat(b, n) + Expand(code)
  {
    assert ([ByteOf(n), b] + code)[2..] == code;
  }

  lemma GreedyStep(data: seq<byte>, n: nat)
    requires data != [] && n == RunLength(data, 1)
    ensures Greedy(data) == [ByteOf(n), data[0]] + Greedy(data[n..])
    ensures data == Repeat(data[0], n) + data[n..]
  {
    hide RunLength;
  }

  lemma {:induction false} GreedyWellFormed(data: seq<byte>)
    ensures WellFormed(Greedy(data)) && Expand(Greedy(data)) == data
  {
    if data != [] {
      var n := RunLength(data, 1);
      GreedyStep(data, n);
      var tail := data[n..];
      GreedyWellFormed(tail);
      hide Expand, WellFormed, Greedy, RunLength;
      ExpandPair(n, data[0], Greedy(tail));
    }
  }

  /** Decompressing what was compressed gives back the input. */
  lemma RoundTrip(data: seq<byte>)
    ensures Decode(Greedy(data)) == Some(data)
  {
    GreedyWellFormed(data);
  }

  lemma {:induction false} GreedyAtMostDouble(data: seq<byte>)
    ensures |Greedy(data)| <= 2 * |data|
    ensures data != [] ==> Greedy(data) != []
  {
    if data != [] { GreedyAtMostDouble(data[RunLength(data, 1)..]); }
  }

  lemma {:induction false} RunCovers(data: seq<byte>, k: nat, n: nat)
    requires 0 < k <= n <= |data| && n <= 255 && forall i :: 0 <= i < n ==> data[i] == data[0]
    ensures RunLength(data, k) >= n
    decreases n - k
  {
    if k < n { RunCovers(data, k + 1, n); }
  }

  lemma RunIsUnique(data: seq<byte>, n: nat)
    requires 0 < n <= |data| && n <= 255 && forall i :: 0 <= i < n ==> data[i] == data[0]
    requires n == 255 || n == |data| || data[n] != data[0]
    ensures RunLength(data, 1) == n
  {
    RunCovers(data, 1, n);
  }

  /** Without its first byte a run of at least two is one shorter, or swallows the next byte of the same value. */
  lemma TailStep(data: seq<byte>, n: nat) returns (j: nat)
    requires data != [] && n == RunLength(data, 1) > 1
    ensures j <= |data[n..]| && |Greedy(data[1..])| == 2 + |Greedy(data[n..][j..])|
  {
    hide Greedy;
    var tail := data[1..];
    RunCovers(tail, 1, n - 1);
    var m := RunLength(tail, 1);
    GreedyStep(tail, m);
    j := m + 1 - n;
    assert tail[m..] == data[n..][j..];
  }

  /** Dropping leading bytes never lengthens the greedy code. */
  lemma {:induction false} GreedySuffix(data: seq<byte>, k: nat)
    requires k <= |data|
    ensures |Greedy(data[k..])| <= |Greedy(data)|
    decreases |data|, k
  {
    hide Greedy, RunLength;
    if k == 0 {
      assert data[0..] == data;
    } else if k == 1 {
      var n := RunLength(data, 1);
      GreedyStep(data, n);
      if n > 1 {
        var j := TailStep(data, n);
        GreedySuffix(data[n..], j);
      }
    } else {
      GreedySuffix(data, 1);
      GreedySuffix(data[1..], k - 1);
      assert data[1..][k - 1..] == data[k..];
    }
  }

  /** A run of `c` equal bytes in front is part of the greedy first run. */
  lemma FrontRun(b: byte, c: nat, rest: seq<byte>, data: seq<byte>, n: nat)
    requires 0 < c <= 255 && data == Repeat(b, c) + rest && n == RunLength(data, 1)
    ensures c <= n <= |data| && data[n..] == rest[n - c..]
  {
    hide RunLength;
    RunCovers(data, 1, c);
  }

  /** One more run in front costs the greedy code at most one more pair. */
  lemma FrontRunCost(b: byte, c: nat, rest: seq<byte>)
    requires 0 < c <= 255
    ensures |Greedy(Repeat(b, c) + rest)| <= 2 + |Greedy(rest)|
  {
    hide Greedy, RunLength, Repeat;
    var data := Repeat(b, c) + rest;
    var n := RunLength(data, 1);
    FrontRun(b, c, rest, data, n);
    assert |Greedy(data)| == 2 + |Greedy(data[n..])| by { GreedyStep(data, n); }
    assert |Greedy(data[n..])| <= |Greedy(rest)| by { GreedySuffix(rest, n - c); }
  }

  /** No code for the same data is shorter. */
  lemma {:induction false} GreedyIsShortest(code: seq<byte>, data: seq<byte>)
    requires Decode(code) == Some(data)
    ensures |Greedy(data)| <= |code|
    decreases |code|
  {
    assert |code| % 2 == 0;
    hide Greedy, Expand, WellFormed;
    FirstPair(code);
    if code == [] {
      GreedyEmpty(data);
    } else {
      GreedyIsShortest(code[2..], Expand(code[2..]));
      FrontRunCost(code[1], NatOf(code[0]), Expand(code[2..]));
    }
  }

  lemma GreedyEmpty(data: seq<byte>)
    requires data == []
    ensures Greedy(data) == []
  {
  }

  // ---- The implementation ----

  /** Lines 42-54. */
  function MaxCompressedSize(size: nat): nat {
    if size > SIZE_MAX / 2 then 0 else size * 2
  }

  lemma Regroup(a: seq<byte>, b: seq<byte>, c: seq<byte>)
    ensures a + (b + c) == a + b + c
  {
  }

  /** Lines 76-113. */
  method RleCompress(input: seq<byte>, output: array<byte>, capacity: nat) returns (rc: int, size: nat)
    requires capacity <= output.Length
    modifies output
    ensures rc == if |Greedy(input)| <= capacity then OK else ERR_BUFFER
    ensures rc == OK ==> size == |Greedy(input)| && output[..size] == Greedy(input)
  {
    hide Greedy, RunLength;
    var inI, outI := 0, 0;
    assert input[0..] == input;
    while inI < |input|
      invariant inI <= |input| && outI <= capacity
      invariant output[..outI] + Greedy(input[inI..]) == Greedy(input)
    {
      ghost var left, done := input[inI..], output[..outI];
      var value := input[inI];
      var run := 1;
      while run < 255 && inI + run < |input| && input[inI + run] == value
        invariant 1 <= run <= 255 && inI + run <= |input|
        invariant forall i :: 0 <= i < run ==> left[i] == value
      {
        assert left[run] == value;
        run := run + 1;
      }
      RunIsUnique(left, run);
      assert left[run..] == input[inI + run..];
      GreedyStep(left, run);
      if outI + 2 > capacity {
        return ERR_BUFFER, 0;
      }
      output[outI] := ByteOf(run);
      output[outI + 1] := value;
      assert output[..outI + 2] == done + [ByteOf(run), value];
      Regroup(done, [ByteOf(run), value], Greedy(input[inI + run..]));
      outI := outI + 2;
      inI := inI + run;
    }
    GreedyEmpty(input[inI..]);
    return OK, outI;
  }

  lemma {:induction false} WellFormedAt(code: seq<byte>, i: nat)
    requires i <= |code| && i % 2 == 0 && |code| % 2 == 0
    requires forall j :: 0 <= j < i && j % 2 == 0 ==> code[j] != 0
    ensures WellFormed(code) <==> WellFormed(code[i..])
    ensures WellFormed(code) ==> Expand(code) == ExpandTo(code, i) + Expand(code[i..])
  {
    if i == 0 {
      assert code[0..] == code;
    } else {
      WellFormedAt(code, i - 2);
      assert code[i - 2..][2..] == code[i..];
    }
  }

  /** The expansion of the first pairs. */
  function ExpandTo(code: seq<byte>, i: nat): seq<byte>
    requires i <= |code| && i % 2 == 0
  {
    if i == 0 then [] else ExpandTo(code, i - 2) + Repeat(code[i - 1], NatOf(code[i - 2]))
  }

  lemma {:induction false} ExpandToLength(code: seq<byte>, i: nat, k: nat)
    requires i <= k <= |code| && i % 2 == 0 && k % 2 == 0
    ensures |ExpandTo(code, i)| <= |ExpandTo(code, k)|
  {
    if i < k { ExpandToLength(code, i, k - 2); }
  }

  /** Lines 115-152. */
  method RleDecompress(input: seq<byte>, output: array<byte>, capacity: nat) returns (rc: int, size: nat)
    requires capacity <= output.Length
    modifies output
    ensures rc == OK <==> Decode(input).Some? && |Decode(input).value| <= capacity
    ensures rc == OK ==> size == |Decode(input).value| && output[..size] == Decode(input).value
    ensures rc == OK || rc == ERR_INVALID || rc == ERR_BUFFER
    ensures |input| % 2 != 0 ==> rc == ERR_INVALID
  {
    if |input| % 2 != 0 {
      return ERR_INVALID, 0;
    }
    hide WellFormed, Expand;
    var inI, outI := 0, 0;
    while inI < |input|
      invariant inI <= |input| && inI % 2 == 0 && outI <= capacity
      invariant forall j :: 0 <= j < inI && j % 2 == 0 ==> input[j] != 0
      invariant outI == |ExpandTo(input, inI)| && output[..outI] == ExpandTo(input, inI)
    {
      var run := input[inI];
      var value := input[inI + 1];
      WellFormedAt(input, inI);
      FirstPair(input[inI..]);
      if run == 0 {
        return ERR_INVALID, 0;
      }
      if outI + NatOf(run) > capacity {
        assert input[inI..][1] == value;
        return ERR_BUFFER, 0;
      }
      ghost var done := output[..outI];
      forall i | 0 <= i < NatOf(run) {
        output[outI + i] := value;
      }
      assert output[..outI + NatOf(run)] == done + Repeat(value, NatOf(run));
      outI := outI + NatOf(run);
      inI := inI + 2;
    }
    WellFormedAt(input, inI);
    FirstPair(input[inI..]);
    assert ExpandTo(input, inI) + [] == ExpandTo(input, inI);
    return OK, outI;
  }

  /** Lines 184-221 for RLE. */
  method CompressAlloc(input: seq<byte>) returns (rc: int, data: seq<byte>)
    requires |input| <= SIZE_MAX
    ensures rc == if |input| > SIZE_MAX / 2 then ERR_INVALID else OK
    ensures rc == OK ==> data == Greedy(input)
  {
    data := [];
    var capacity := MaxCompressedSize(|input|);
    if capacity == 0 && |input| != 0 {
      return ERR_INVALID, [];
    }
    if capacity == 0 {
      capacity := 1;
    }
    var buffer := new byte[capacity];
    GreedyAtMostDouble(input);
    var size;
    rc, size := RleCompress(input, buffer, capacity);
    if rc != OK {
      return rc, [];
    }
    data := buffer[..size];
  }

  /** Lines 223-275 for RLE: the first pass finds the exact size of the output. */
  method DecompressAlloc(input: seq<byte>) returns (rc: int, data: seq<byte>)
    requires |input| <= SIZE_MAX
    ensures rc == if Decode(input).Some? && |Decode(input).value| <= SIZE_MAX then OK else ERR_INVALID
    ensures rc == OK ==> data == Decode(input).value
  {
    if |input| % 2 != 0 {
      return ERR_INVALID, [];
    }
    hide WellFormed, Expand;
    var capacity := 0;
    var inI := 0;
    while inI < |input|
      invariant inI <= |input| && inI % 2 == 0
      invariant forall j :: 0 <= j < inI && j % 2 == 0 ==> input[j] != 0
      invariant capacity == |ExpandTo(input, inI)| <= SIZE_MAX
    {
      var runSize := NatOf(input[inI]);
      WellFormedAt(input, inI);
      FirstPair(input[inI..]);
      if runSize == 0 || capacity > SIZE_MAX - runSize {
        return ERR_INVALID, [];
      }
      capacity := capacity + runSize;
      inI := inI + 2;
    }
    WellFormedAt(input, inI);
    FirstPair(input[inI..]);
    assert capacity == |Expand(input)|;
    if capacity == 0 {
      capacity := 1;
    }
    var buffer := new byte[capacity];
    var size;
    rc, size := RleDecompress(input, buffer, capacity);
    if rc != OK {
      return rc, [];
    }
    data := buffer[..size];
  }
}
