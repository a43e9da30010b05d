/** The constants of SHA-256 are the roots of primes that sections 4.2.2 and 5.3.3 of FIPS 180-4 say. */
module Sha256Constants {
  import opened Bytes
  import opened Sha256

  ghost predicate IsPrime(n: nat) { n >= 2 && forall d :: 2 <= d < n ==> n % d != 0 }

  const PRIMES: seq<nat> :=
    [2, 3, 5, 7, 11, 13, 17, 19]
    + [23, 29, 31, 37, 41, 43, 47, 53]
    + [59, 61, 67, 71, 73, 79, 83, 89]
    + [97, 101, 103, 107, 109, 113, 127, 131]
    + [137, 139, 149, 151, 157, 163, 167, 173]
    + [179, 181, 191, 193, 197, 199, 211, 223]
    + [227, 229, 233, 239, 241, 251, 257, 263]
    + [269, 271, 277, 281, 283, 293, 307, 311]

  /** A number below 324 without a small prime factor other than itself. */
  predicate Sieved(n: nat) {
    && n >= 2 && (n % 2 != 0 || n == 2) && (n % 3 != 0 || n == 3) && (n % 5 != 0 || n == 5) && (n % 7 != 0 || n == 7)
    && (n % 11 != 0 || n == 11) && (n % 13 != 0 || n == 13) && (n % 17 != 0 || n == 17)
  }

  lemma SievedIsPrime(n: nat)
    requires n < 324
    ensures Sieved(n) <==> IsPrime(n)
  {
    if n >= 2 && !IsPrime(n) {
      var d :| 2 <= d < n && n % d == 0;
      DivisorShows(n, d);
    }
    if IsPrime(n) {
      assert n > 2 ==> n % 2 != 0;
      assert n > 3 ==> n % 3 != 0;
      assert n > 5 ==> n % 5 != 0;
      assert n > 7 ==> n % 7 != 0;
      assert n > 11 ==> n % 11 != 0;
      assert n > 13 ==> n % 13 != 0;
      assert n > 17 ==> n % 17 != 0;
    }
  }

  /** Of two factors of such a number one is at most 17. */
  lemma DivisorShows(n: nat, d: nat)
    requires n < 324 && 2 <= d < n && n % d == 0
    ensures !Sieved(n)
  {
    var e := n / d;
    assert n == d * e;
    if d < 18 {
      SmallDivisorShows(n, d);
    } else {
      if e >= 18 { ProductAtLeast(d, e); }
      assert e != 0 && e != 1;
      MultipleOf(d, e);
      SmallDivisorShows(n, e);
    }
  }

  lemma ProductAtLeast(a: nat, b: nat)
    requires a >= 18 && b >= 18
    ensures a * b >= 324
  {
    assert a * b >= 18 * b;
  }

  lemma MultipleOf(d: nat, e: nat)
    requires e > 0
    ensures (d * e) % e == 0
  {
    var q, r := (d * e) / e, (d * e) % e;
    assert d * e == q * e + r;
    assert (d - q) * e == r;
    TimesAtLeast(d - q, e);
    TimesAtLeast(q - d, e);
  }

  lemma TimesAtLeast(x: int, e: nat)
    ensures x >= 1 ==> x * e >= e
  {
  }

  lemma Fails(n: nat, p: nat)
    requires (p == 2 || p == 3 || p == 5 || p == 7 || p == 11 || p == 13 || p == 17) && n > p && n % p == 0
    ensures !Sieved(n)
  {
  }

  lemma SmallDivisorShows(n: nat, d: nat)
    requires 2 <= d < 18 && d < n < 324 && n % d == 0
    ensures !Sieved(n)
  {
    hide Sieved;
    if d == 2 {
      Fails(n, 2);
    } else if d == 3 {
      Fails(n, 3);
    } else if d == 4 {
      Fails(n, 2);
    } else if d == 5 {
      Fails(n, 5);
    } else if d == 6 {
      Fails(n, 2);
    } else if d == 7 {
      Fails(n, 7);
    } else if d == 8 {
      Fails(n, 2);
    } else if d == 9 {
      Fails(n, 3);
    } else if d == 10 {
      Fails(n, 2);
    } else if d == 11 {
      Fails(n, 11);
    } else if d == 12 {
      Fails(n, 2);
    } else if d == 13 {
      Fails(n, 13);
    } else if d == 14 {
      Fails(n, 2);
    } else if d == 15 {
      Fails(n, 3);
    } else if d == 16 {
      Fails(n, 2);
    } else if d == 17 {
      Fails(n, 17);
    }
  }

  /** The numbers that pass, from `n` up to `end`. */
  function SievedFrom(n: nat, end: nat): seq<nat>
    decreases end - n
  {
    if n >= end then [] else (if Sieved(n) then [n] else []) + SievedFrom(n + 1, end)
  }

  predicate InRows(n: nat) {
    || n in [2, 3, 5, 7, 11, 13, 17, 19]
    || n in [23, 29, 31, 37, 41, 43, 47, 53]
    || n in [59, 61, 67, 71, 73, 79, 83, 89]
    || n in [97, 101, 103, 107, 109, 113, 127, 131]
    || n in [137, 139, 149, 151, 157, 163, 167, 173]
    || n in [179, 181, 191, 193, 197, 199, 211, 223]
    || n in [227, 229, 233, 239, 241, 251, 257, 263]
    || n in [269, 271, 277, 281, 283, 293, 307, 311]
  }

  lemma RowsArePrimes(n: nat)
    ensures n in PRIMES <==> InRows(n)
  {
  }

  lemma Range0(n: nat)
    requires 0 <= n < 4
    ensures Sieved(n) <==> InRows(n)
  {
  }

  lemma Range4(n: nat)
    requires 4 <= n < 8
    ensures Sieved(n) <==> InRows(n)
  {
  }

  lemma Range8(n: nat)
    requires 8 <= n < 12
    ensures Sieved(n) <==> InRows(n)
  {
  }

  lemma Range12(n: nat)
    requires 12 <= n < 16
    ensures Sieved(n) <==> InRows(n)
  {
  }

  lemma Range16(n: nat)
    requires 16 <= n < 24
    ensures Sieved(n) <==> InRows(n)
  {
  }

  lemma Range24(n: nat)
    requires 24 <= n < 32
    ensures Sieved(n) <==> InRows(n)
  {
  }

  lemma Range32(n: nat)
    requires 32 <= n < 48
    ensures Sieved(n) <==> InRows(n)
  {
    if n < 36 {
    } else if n < 40 {
    } else if n < 44 {
    }
  }

  lemma Range48(n: nat)
    requires 48 <= n < 64
    ensures Sieved(n) <==> InRows(n)
  {
    if n < 52 {
    } else if n < 56 {
    } else if n < 60 {
    }
  }

  lemma Range64(n: nat)
    requires 64 <= n < 80
    ensures Sieved(n) <==> InRows(n)
  {
    if n < 68 {
    } else if n < 72 {
    } else if n < 76 {
    }
  }

  lemma Range80(n: nat)
    requires 80 <= n < 96
    ensures Sieved(n) <==> InRows(n)
  {
    if n < 84 {
    } else if n < 88 {
    } else if n < 92 {
    }
  }

  lemma Range96(n: nat)
    requires 96 <= n < 112
    ensures Sieved(n) <==> InRows(n)
  {
    if n < 100 {
    } else if n < 104 {
    } else if n < 108 {
    }
  }

  lemma Range112(n: nat)
    requires 112 <= n < 128
    ensures Sieved(n) <==> InRows(n)
  {
    if n < 116 {
    } else if n < 120 {
    } else if n < 124 {
    }
  }

  lemma Range128(n: nat)
    requires 128 <= n < 144
    ensures Sieved(n) <==> InRows(n)
  {
    if n < 132 {
    } else if n < 136 {
    } else if n < 140 {
    }
  }

  lemma Range144(n: nat)
    requires 144 <= n < 160
    ensures Sieved(n) <==> InRows(n)
  {
    if n < 148 {
    } else if n < 152 {
    } else if n < 156 {
    }
  }

  lemma Range160(n: nat)
    requires 160 <= n < 176
    ensures Sieved(n) <==> InRows(n)
  {
    if n < 164 {
    } else if n < 168 {
    } else if n < 172 {
    }
  }

  lemma Range176(n: nat)
    requires 176 <= n < 192
    ensures Sieved(n) <==> InRows(n)
  {
    if n < 180 {
    } else if n < 184 {
    } else if n < 188 {
    }
  }

  lemma Range192(n: nat)
    requires 192 <= n < 208
    ensures Sieved(n) <==> InRows(n)
  {
    if n < 196 {
    } else if n < 200 {
    } else if n < 204 {
    }
  }

  lemma Range208(n: nat)
    requires 208 <= n < 224
    ensures Sieved(n) <==> InRows(n)
  {
    if n < 212 {
    } else if n < 216 {
    } else if n < 220 {
    }
  }

  lemma Range224(n: nat)
    requires 224 <= n < 240
    ensures Sieved(n) <==> InRows(n)
  {
    if n < 228 {
    } else if n < 232 {
    } else if n < 236 {
    }
  }

  lemma Range240(n: nat)
    requires 240 <= n < 256
    ensures Sieved(n) <==> InRows(n)
  {
    if n < 244 {
    } else if n < 248 {
    } else if n < 252 {
    }
  }

  lemma Range256(n: nat)
    requires 256 <= n < 272
    ensures Sieved(n) <==> InRows(n)
  {
    if n < 260 {
    } else if n < 264 {
    } else if n < 268 {
    }
  }

  lemma Range272(n: nat)
    requires 272 <= n < 288
    ensures Sieved(n) <==> InRows(n)
  {
    if n < 276 {
    } else if n < 280 {
    } else if n < 284 {
    }
  }

  lemma Range288(n: nat)
    requires 288 <= n < 304
    ensures Sieved(n) <==> InRows(n)
  {
    if n < 292 {
    } else if n < 296 {
    } else if n < 300 {
    }
  }

  lemma Range304(n: nat)
    requires 304 <= n < 312
    ensures Sieved(n) <==> InRows(n)
  {
  }

  /** The list has all primes below 312 and nothing else, in ascending order: they are the first 64. */
  lemma FirstPrimes()
    ensures |PRIMES| == 64 && forall i, j :: 0 <= i < j < 64 ==> PRIMES[i] < PRIMES[j]
    ensures forall n: nat :: n < 312 ==> (n in PRIMES <==> IsPrime(n))
    ensures forall n :: n in PRIMES ==> n < 312
  {
    PrimesAscend();
    forall n: nat | n < 312 ensures n in PRIMES <==> IsPrime(n) {
      SievedIsPrime(n);
      hide Sieved, IsPrime;
      PrimesAreSieved(n);
    }
    PrimesBelow();
  }

  lemma PrimesBelow()
    ensures forall n :: n in PRIMES ==> n < 312
  {
    forall n | n in PRIMES ensures n < 312 { RowsArePrimes(n); }
  }

  lemma PrimesAreSieved(n: nat)
    requires n < 312
    ensures n in PRIMES <==> Sieved(n)
  {
    RowsArePrimes(n);
    hide Sieved, InRows;
    if n < 4 {
      Range0(n);
    } else if n < 8 {
      Range4(n);
    } else if n < 12 {
      Range8(n);
    } else if n < 16 {
      Range12(n);
    } else if n < 24 {
      Range16(n);
    } else if n < 32 {
      Range24(n);
    } else if n < 48 {
      Range32(n);
    } else if n < 64 {
      Range48(n);
    } else if n < 80 {
      Range64(n);
    } else if n < 96 {
      Range80(n);
    } else if n < 112 {
      Range96(n);
    } else if n < 128 {
      Range112(n);
    } else if n < 144 {
      Range128(n);
    } else if n < 160 {
      Range144(n);
    } else if n < 176 {
      Range160(n);
    } else if n < 192 {
      Range176(n);
    } else if n < 208 {
      Range192(n);
    } else if n < 224 {
      Range208(n);
    } else if n < 240 {
      Range224(n);
    } else if n < 256 {
      Range240(n);
    } else if n < 272 {
      Range256(n);
    } else if n < 288 {
      Range272(n);
    } else if n < 304 {
      Range288(n);
    } else if n < 312 {
      Range304(n);
    }
  }

  lemma NeighboursLow()
    ensures forall i :: 0 <= i < 32 ==> PRIMES[i] < PRIMES[i + 1]
  {
  }

  lemma NeighboursHigh()
    ensures forall i :: 32 <= i < 63 ==> PRIMES[i] < PRIMES[i + 1]
  {
  }

  lemma PrimesAscend()
    ensures |PRIMES| == 64 && forall i, j :: 0 <= i < j < 64 ==> PRIMES[i] < PRIMES[j]
  {
    NeighboursLow();
    NeighboursHigh();
    forall i, j | 0 <= i < j < 64 ensures PRIMES[i] < PRIMES[j] { AscendStep(PRIMES, i, j); }
  }

  lemma {:induction false} AscendStep(s: seq<nat>, i: nat, j: nat)
    requires i < j < |s| && forall k :: 0 <= k < |s| - 1 ==> s[k] < s[k + 1]
    ensures s[i] < s[j]
    decreases j
  {
    if i < j - 1 { AscendStep(s, i, j - 1); }
  }

  function Square(n: nat): nat { n * n }
  function Cube(n: nat): nat { n * n * n }

  /** `bits` are the first 32 bits behind the point of the cube root of `p`, whose whole part is `m`. */
  ghost predicate CubeRootBits(p: nat, m: nat, bits: nat) {
    && Cube(m) <= p < Cube(m + 1)
    && bits < TWO_32 && Cube(m * TWO_32 + bits) <= p * Cube(TWO_32) < Cube(m * TWO_32 + bits + 1)
  }

  ghost predicate SquareRootBits(p: nat, m: nat, bits: nat) {
    && Square(m) <= p < Square(m + 1)
    && bits < TWO_32 && Square(m * TWO_32 + bits) <= p * Square(TWO_32) < Square(m * TWO_32 + bits + 1)
  }

  ghost predicate HasCubeRootBits(p: nat, bits: nat) { exists m :: CubeRootBits(p, m, bits) }

  ghost predicate HasSquareRootBits(p: nat, bits: nat) { exists m :: SquareRootBits(p, m, bits) }

  ghost predicate IsCubeRootConstant(i: nat)
    requires i < 64
  {
    HasCubeRootBits(PRIMES[i], K[i] as nat)
  }

  ghost predicate IsSquareRootConstant(i: nat)
    requires i < 8
  {
    HasSquareRootBits(PRIMES[i], H0[i] as nat)
  }


  lemma CubeRoots0()
    ensures forall i: nat :: 0 <= i < 4 ==> IsCubeRootConstant(i)
  {
    assert CubeRootBits(PRIMES[0], 1, K[0] as nat);
    assert CubeRootBits(PRIMES[1], 1, K[1] as nat);
    assert CubeRootBits(PRIMES[2], 1, K[2] as nat);
    assert CubeRootBits(PRIMES[3], 1, K[3] as nat);
    hide CubeRootBits;
  }

  lemma CubeRoots4()
    ensures forall i: nat :: 4 <= i < 8 ==> IsCubeRootConstant(i)
  {
    assert CubeRootBits(PRIMES[4], 2, K[4] as nat);
    assert CubeRootBits(PRIMES[5], 2, K[5] as nat);
    assert CubeRootBits(PRIMES[6], 2, K[6] as nat);
    assert CubeRootBits(PRIMES[7], 2, K[7] as nat);
    hide CubeRootBits;
  }

  lemma CubeRoots8()
    ensures forall i: nat :: 8 <= i < 12 ==> IsCubeRootConstant(i)
  {
    assert CubeRootBits(PRIMES[8], 2, K[8] as nat);
    assert CubeRootBits(PRIMES[9], 3, K[9] as nat);
    assert CubeRootBits(PRIMES[10], 3, K[10] as nat);
    assert CubeRootBits(PRIMES[11], 3, K[11] as nat);
    hide CubeRootBits;
  }

  lemma CubeRoots12()
    ensures forall i: nat :: 12 <= i < 16 ==> IsCubeRootConstant(i)
  {
    assert CubeRootBits(PRIMES[12], 3, K[12] as nat);
    assert CubeRootBits(PRIMES[13], 3, K[13] as nat);
    assert CubeRootBits(PRIMES[14], 3, K[14] as nat);
    assert CubeRootBits(PRIMES[15], 3, K[15] as nat);
    hide CubeRootBits;
  }

  lemma CubeRoots16()
    ensures forall i: nat :: 16 <= i < 20 ==> IsCubeRootConstant(i)
  {
    assert CubeRootBits(PRIMES[16], 3, K[16] as nat);
    assert CubeRootBits(PRIMES[17], 3, K[17] as nat);
    assert CubeRootBits(PRIMES[18], 4, K[18] as nat);
    assert CubeRootBits(PRIMES[19], 4, K[19] as nat);
    hide CubeRootBits;
  }

  lemma CubeRoots20()
    ensures forall i: nat :: 20 <= i < 24 ==> IsCubeRootConstant(i)
  {
    assert CubeRootBits(PRIMES[20], 4, K[20] as nat);
    assert CubeRootBits(PRIMES[21], 4, K[21] as nat);
    assert CubeRootBits(PRIMES[22], 4, K[22] as nat);
    assert CubeRootBits(PRIMES[23], 4, K[23] as nat);
    hide CubeRootBits;
  }

  lemma CubeRoots24()
    ensures forall i: nat :: 24 <= i < 28 ==> IsCubeRootConstant(i)
  {
    assert CubeRootBits(PRIMES[24], 4, K[24] as nat);
    assert CubeRootBits(PRIMES[25], 4, K[25] as nat);
    assert CubeRootBits(PRIMES[26], 4, K[26] as nat);
    assert CubeRootBits(PRIMES[27], 4, K[27] as nat);
    hide CubeRootBits;
  }

  lemma CubeRoots28()
    ensures forall i: nat :: 28 <= i < 32 ==> IsCubeRootConstant(i)
  {
    assert CubeRootBits(PRIMES[28], 4, K[28] as nat);
    assert CubeRootBits(PRIMES[29], 4, K[29] as nat);
    assert CubeRootBits(PRIMES[30], 5, K[30] as nat);
    assert CubeRootBits(PRIMES[31], 5, K[31] as nat);
    hide CubeRootBits;
  }

  lemma CubeRoots32()
    ensures forall i: nat :: 32 <= i < 36 ==> IsCubeRootConstant(i)
  {
    assert CubeRootBits(PRIMES[32], 5, K[32] as nat);
    assert CubeRootBits(PRIMES[33], 5, K[33] as nat);
    assert CubeRootBits(PRIMES[34], 5, K[34] as nat);
    assert CubeRootBits(PRIMES[35], 5, K[35] as nat);
    hide CubeRootBits;
  }

  lemma CubeRoots36()
    ensures forall i: nat :: 36 <= i < 40 ==> IsCubeRootConstant(i)
  {
    assert CubeRootBits(PRIMES[36], 5, K[36] as nat);
    assert CubeRootBits(PRIMES[37], 5, K[37] as nat);
    assert CubeRootBits(PRIMES[38], 5, K[38] as nat);
    assert CubeRootBits(PRIMES[39], 5, K[39] as nat);
    hide CubeRootBits;
  }

  lemma CubeRoots40()
    ensures forall i: nat :: 40 <= i < 44 ==> IsCubeRootConstant(i)
  {
    assert CubeRootBits(PRIMES[40], 5, K[40] as nat);
    assert CubeRootBits(PRIMES[41], 5, K[41] as nat);
    assert CubeRootBits(PRIMES[42], 5, K[42] as nat);
    assert CubeRootBits(PRIMES[43], 5, K[43] as nat);
    hide CubeRootBits;
  }

  lemma CubeRoots44()
    ensures forall i: nat :: 44 <= i < 48 ==> IsCubeRootConstant(i)
  {
    assert CubeRootBits(PRIMES[44], 5, K[44] as nat);
    assert CubeRootBits(PRIMES[45], 5, K[45] as nat);
    assert CubeRootBits(PRIMES[46], 5, K[46] as nat);
    assert CubeRootBits(PRIMES[47], 6, K[47] as nat);
    hide CubeRootBits;
  }

  lemma CubeRoots48()
    ensures forall i: nat :: 48 <= i < 52 ==> IsCubeRootConstant(i)
  {
    assert CubeRootBits(PRIMES[48], 6, K[48] as nat);
    assert CubeRootBits(PRIMES[49], 6, K[49] as nat);
    assert CubeRootBits(PRIMES[50], 6, K[50] as nat);
    assert CubeRootBits(PRIMES[51], 6, K[51] as nat);
    hide CubeRootBits;
  }

  lemma CubeRoots52()
    ensures forall i: nat :: 52 <= i < 56 ==> IsCubeRootConstant(i)
  {
    assert CubeRootBits(PRIMES[52], 6, K[52] as nat);
    assert CubeRootBits(PRIMES[53], 6, K[53] as nat);
    assert CubeRootBits(PRIMES[54], 6, K[54] as nat);
    assert CubeRootBits(PRIMES[55], 6, K[55] as nat);
    hide CubeRootBits;
  }

  lemma CubeRoots56()
    ensures forall i: nat :: 56 <= i < 60 ==> IsCubeRootConstant(i)
  {
    assert CubeRootBits(PRIMES[56], 6, K[56] as nat);
    assert CubeRootBits(PRIMES[57], 6, K[57] as nat);
    assert CubeRootBits(PRIMES[58], 6, K[58] as nat);
    assert CubeRootBits(PRIMES[59], 6, K[59] as nat);
    hide CubeRootBits;
  }

  lemma CubeRoots60()
    ensures forall i: nat :: 60 <= i < 64 ==> IsCubeRootConstant(i)
  {
    assert CubeRootBits(PRIMES[60], 6, K[60] as nat);
    assert CubeRootBits(PRIMES[61], 6, K[61] as nat);
    assert CubeRootBits(PRIMES[62], 6, K[62] as nat);
    assert CubeRootBits(PRIMES[63], 6, K[63] as nat);
    hide CubeRootBits;
  }

  /** Section 4.2.2: the round constants are the first 32 bits behind the point of the cube roots of the first 64 primes. */
  lemma RoundConstants()
    ensures |K| == 64 && forall i: nat :: i < 64 ==> IsCubeRootConstant(i)
  {
    hide IsCubeRootConstant;
    forall i: nat | i < 64 ensures IsCubeRootConstant(i) { ConstantIs(i); }
  }

  lemma ConstantIs(i: nat)
    requires i < 64
    ensures IsCubeRootConstant(i)
  {
    hide IsCubeRootConstant;
    if i < 4 {
      CubeRoots0();
    } else if i < 8 {
      CubeRoots4();
    } else if i < 12 {
      CubeRoots8();
    } else if i < 16 {
      CubeRoots12();
    } else if i < 20 {
      CubeRoots16();
    } else if i < 24 {
      CubeRoots20();
    } else if i < 28 {
      CubeRoots24();
    } else if i < 32 {
      CubeRoots28();
    } else if i < 36 {
      CubeRoots32();
    } else if i < 40 {
      CubeRoots36();
    } else if i < 44 {
      CubeRoots40();
    } else if i < 48 {
      CubeRoots44();
    } else if i < 52 {
      CubeRoots48();
    } else if i < 56 {
      CubeRoots52();
    } else if i < 60 {
      CubeRoots56();
    } else if i < 64 {
      CubeRoots60();
    }
  }

  /** Section 5.3.3: the initial hash value are those of the square roots of the first eight. */
  lemma InitialHashValue()
    ensures |H0| == 8 && forall i: nat :: i < 8 ==> IsSquareRootConstant(i)
  {
    SquareRoots();
    hide SquareRootBits;
  }

  lemma SquareRoots()
    ensures SquareRootBits(PRIMES[0], 1, H0[0] as nat)
    ensures SquareRootBits(PRIMES[1], 1, H0[1] as nat)
    ensures SquareRootBits(PRIMES[2], 2, H0[2] as nat)
    ensures SquareRootBits(PRIMES[3], 2, H0[3] as nat)
    ensures SquareRootBits(PRIMES[4], 3, H0[4] as nat)
    ensures SquareRootBits(PRIMES[5], 3, H0[5] as nat)
    ensures SquareRootBits(PRIMES[6], 4, H0[6] as nat)
    ensures SquareRootBits(PRIMES[7], 4, H0[7] as nat)
  {
  }
}
