/**
 The code of the repository's encoding table (pajamax/src/huffman/table.rs). It is the canonical code
 of its lengths (appendix B of RFC 7541): code words of one length are consecutive numbers in the
 order of the symbols, and follow those of the shorter lengths. Every such code that is complete,
 with end-of-string last, is a valid one.
*/
module HuffmanTable {
  import opened Arith
  import opened Bits
  import opened Huffman

  // ---------------------------------------------------------------- canonical codes

  function CountLen(lens: seq<nat>, n: nat): nat {
    if lens == [] then 0 else CountLen(lens[..|lens| - 1], n) + (if lens[|lens| - 1] == n then 1 else 0)
  }

  /** The first code word of a length. */
  function First(lens: seq<nat>, n: nat): nat
    decreases n
  {
    if n == 0 then 0 else 2 * (First(lens, n - 1) + CountLen(lens, n - 1))
  }

  function Canonical(lens: seq<nat>): (c: Code)
    ensures |c| == |lens|
  {
    seq(|lens|, i requires 0 <= i < |lens| => Entry(lens[i], First(lens, lens[i]) + CountLen(lens[..i], lens[i])))
  }

  /** Thirty-bit words that start with a code word of fewer than n bits. */
  function Weight(lens: seq<nat>, n: nat): nat {
    if lens == [] then 0
    else
      var l := lens[|lens| - 1];
      Weight(lens[..|lens| - 1], n) + (if l < n && l <= 30 then Pow2(30 - l) else 0)
  }

  /** Code words of 5 to 30 bits that leave no word over, end-of-string among the longest. */
  ghost predicate Complete(lens: seq<nat>) {
    && |lens| == 257
    && (forall i :: 0 <= i < 257 ==> 5 <= lens[i] <= 30)
    && lens[EOS] == 30
    && Weight(lens, 31) == Pow2(30)
  }

  lemma {:induction false} CountGrows(lens: seq<nat>, i: nat, j: nat, n: nat)
    requires i <= j <= |lens|
    ensures CountLen(lens[..i], n) <= CountLen(lens[..j], n)
    decreases j
  {
    if i < j {
      assert lens[..j][..j - 1] == lens[..j - 1];
      CountGrows(lens, i, j - 1, n);
    }
  }

  /** A symbol takes its place among those of its length. */
  lemma CountAt(lens: seq<nat>, i: nat, j: nat)
    requires i < j <= |lens|
    ensures CountLen(lens[..i], lens[i]) + 1 <= CountLen(lens[..j], lens[i])
  {
    assert lens[..i + 1][..i] == lens[..i];
    CountGrows(lens, i + 1, j, lens[i]);
  }

  lemma InRange(lens: seq<nat>, i: nat)
    requires i < |lens|
    ensures Canonical(lens)[i].code + 1 <= First(lens, lens[i]) + CountLen(lens, lens[i])
  {
    CountAt(lens, i, |lens|);
    assert lens[..|lens|] == lens;
  }

  /** Longer code words come after everything that starts with a shorter one. */
  lemma {:induction false} FirstGrows(lens: seq<nat>, n: nat, e: nat)
    requires e > 0
    ensures First(lens, n + e) >= (First(lens, n) + CountLen(lens, n)) * Pow2(e)
    decreases e
  {
    var k := First(lens, n) + CountLen(lens, n);
    if e == 1 {
      assert Pow2(1) == 2;
    } else {
      FirstGrows(lens, n, e - 1);
      Associate(k, Pow2(e - 1), 2);
    }
  }

  // ---------------------------------------------------------------- complete codes fit

  lemma {:induction false} WeightStep(lens: seq<nat>, n: nat)
    requires n <= 30
    ensures Weight(lens, n + 1) == Weight(lens, n) + CountLen(lens, n) * Pow2(30 - n)
    decreases |lens|
  {
    if lens != [] {
      WeightStep(lens[..|lens| - 1], n);
      Distribute(CountLen(lens[..|lens| - 1], n), 1, Pow2(30 - n));
    }
  }

  lemma {:induction false} NoWeight(lens: seq<nat>)
    ensures Weight(lens, 0) == 0
    decreases |lens|
  {
    if lens != [] {
      NoWeight(lens[..|lens| - 1]);
    }
  }

  lemma {:induction false} FirstIsWeight(lens: seq<nat>, n: nat)
    requires n <= 30
    ensures First(lens, n) * Pow2(30 - n) == Weight(lens, n)
    decreases n
  {
    if n == 0 {
      NoWeight(lens);
    } else {
      var k, w := First(lens, n - 1) + CountLen(lens, n - 1), Pow2(30 - n);
      FirstIsWeight(lens, n - 1);
      WeightStep(lens, n - 1);
      Distribute(First(lens, n - 1), CountLen(lens, n - 1), 2 * w);
      Associate(k, 2, w);
    }
  }

  lemma LastIsFull(lens: seq<nat>)
    requires Complete(lens)
    ensures First(lens, 30) + CountLen(lens, 30) == Pow2(30)
  {
    FirstIsWeight(lens, 30);
    WeightStep(lens, 30);
    assert Pow2(0) == 1;
    Units(First(lens, 30), CountLen(lens, 30));
  }

  lemma Units(a: nat, b: nat)
    ensures a * Pow2(0) == a && b * Pow2(0) == b
  {
    assert Pow2(0) == 1;
  }

  lemma CodeFits(lens: seq<nat>, i: nat)
    requires Complete(lens) && i < 257
    ensures Canonical(lens)[i].code < Pow2(lens[i])
  {
    var n := lens[i];
    var k := First(lens, n) + CountLen(lens, n);
    InRange(lens, i);
    LastIsFull(lens);
    if n < 30 {
      FirstGrows(lens, n, 30 - n);
      Pow2Add(n, 30 - n);
      if k > Pow2(n) {
        MulLess(Pow2(n), k, Pow2(30 - n));
      }
    }
  }

  // ---------------------------------------------------------------- prefix-free

  lemma BitsOfHigh(v: nat, hi: nat, lo: nat, a: nat, k: nat)
    requires v == hi * Pow2(k) + lo && lo < Pow2(k)
    ensures BitsOf(v, a + k)[..a] == BitsOf(hi, a)
  {
    BitsOfConcat(hi, a, lo, k);
  }

  /** The number that the first bits of a number stand for. */
  lemma HighBits(v: nat, a: nat, k: nat) returns (hi: nat)
    requires v < Pow2(a + k)
    ensures BitsOf(v, a + k)[..a] == BitsOf(hi, a)
    ensures hi < Pow2(a) && v < (hi + 1) * Pow2(k)
  {
    var lo;
    hi, lo := Cut(v, Pow2(k));
    BitsOfHigh(v, hi, lo, a, k);
    Pow2Add(a, k);
    HighFits(hi, Pow2(k), Pow2(a), v);
  }

  lemma Cut(v: nat, m: nat) returns (hi: nat, lo: nat)
    requires m > 0
    ensures v == hi * m + lo && lo < m && hi * m <= v < (hi + 1) * m
  {
    hi, lo := v / m, v % m;
    DivMod(v, m);
    Distribute(hi, 1, m);
  }

  lemma HighFits(hi: nat, m: nat, bound: nat, v: nat)
    requires m > 0 && hi * m <= v < bound * m
    ensures hi < bound
  {
    if bound < hi {
      MulLess(bound, hi, m);
    }
  }

  lemma SameBits(v: nat, w: nat, n: nat)
    requires v < Pow2(n) && w < Pow2(n) && BitsOf(v, n) == BitsOf(w, n)
    ensures v == w
  {
    ValueBitsOf(v, n);
    ValueBitsOf(w, n);
  }

  /** What starts with a code word lies below all longer code words. */
  lemma LongerIsAbove(lens: seq<nat>, i: nat, j: nat)
    requires Complete(lens) && i < 257 && j < 257 && lens[i] < lens[j]
    ensures Canonical(lens)[j].code >= (Canonical(lens)[i].code + 1) * Pow2(lens[j] - lens[i])
  {
    var n, d := lens[i], lens[j] - lens[i];
    var k, next := First(lens, n) + CountLen(lens, n), Canonical(lens)[i].code + 1;
    InRange(lens, i);
    FirstGrows(lens, n, d);
    if next < k {
      MulLess(next, k, Pow2(d));
    }
  }

  lemma NotPrefix(lens: seq<nat>, i: nat, j: nat)
    requires Complete(lens) && i < 257 && j < 257 && i != j
    ensures !(CodeBits(Canonical(lens), i) <= CodeBits(Canonical(lens), j))
  {
    var n, m := lens[i], lens[j];
    var v, w := Canonical(lens)[i].code, Canonical(lens)[j].code;
    CodeFits(lens, i);
    CodeFits(lens, j);
    if n == m {
      SameLengthDiffers(lens, i, j);
      if BitsOf(v, n) == BitsOf(w, n) {
        SameBits(v, w, n);
      }
    } else if n < m {
      LongerIsAbove(lens, i, j);
      var hi := HighBits(w, n, m - n);
      if BitsOf(v, n) == BitsOf(hi, n) {
        SameBits(v, hi, n);
      }
    }
  }

  lemma SameLengthDiffers(lens: seq<nat>, i: nat, j: nat)
    requires i < |lens| && j < |lens| && i != j && lens[i] == lens[j]
    ensures Canonical(lens)[i].code != Canonical(lens)[j].code
  {
    if i < j {
      CountAt(lens, i, j);
    } else {
      CountAt(lens, j, i);
    }
  }

  /** The last symbol has the last code word, which is all ones. */
  lemma EosIsOnes(lens: seq<nat>)
    requires Complete(lens)
    ensures Canonical(lens)[EOS].code == Pow2(30) - 1
  {
    LastIsFull(lens);
    assert lens[..EOS] + [lens[EOS]] == lens;
    assert lens[..|lens| - 1] == lens[..EOS];
  }

  /** Every complete canonical code is prefix-free, with end-of-string all ones. */
  lemma CanonicalIsValid(lens: seq<nat>)
    requires Complete(lens)
    ensures ValidCode(Canonical(lens))
  {
    var c := Canonical(lens);
    forall i | 0 <= i < 257 ensures c[i].code < Pow2(c[i].nbits) {
      CodeFits(lens, i);
    }
    forall i, j | 0 <= i < 257 && 0 <= j < 257 && i != j ensures !(CodeBits(c, i) <= CodeBits(c, j)) {
      NotPrefix(lens, i, j);
    }
    EosIsOnes(lens);
  }

  // ---------------------------------------------------------------- the table

  const ROW_0: seq<nat> := [13, 23, 28, 28, 28, 28, 28, 28, 28, 24, 30, 28, 28, 30, 28, 28]
  const ROW_1: seq<nat> := [28, 28, 28, 28, 28, 28, 30, 28, 28, 28, 28, 28, 28, 28, 28, 28]
  const ROW_2: seq<nat> := [6, 10, 10, 12, 13, 6, 8, 11, 10, 10, 8, 11, 8, 6, 6, 6]
  const ROW_3: seq<nat> := [5, 5, 5, 6, 6, 6, 6, 6, 6, 6, 7, 8, 15, 6, 12, 10]
  const ROW_4: seq<nat> := [13, 6, 7, 7, 7, 7, 7, 7, 7, 7, 7, 7, 7, 7, 7, 7]
  const ROW_5: seq<nat> := [7, 7, 7, 7, 7, 7, 7, 7, 8, 7, 8, 13, 19, 13, 14, 6]
  const ROW_6: seq<nat> := [15, 5, 6, 5, 6, 5, 6, 6, 6, 5, 7, 7, 6, 6, 6, 5]
  const ROW_7: seq<nat> := [6, 7, 6, 5, 5, 6, 7, 7, 7, 7, 7, 15, 11, 14, 13, 28]
  const ROW_8: seq<nat> := [20, 22, 20, 20, 22, 22, 22, 23, 22, 23, 23, 23, 23, 23, 24, 23]
  const ROW_9: seq<nat> := [24, 24, 22, 23, 24, 23, 23, 23, 23, 21, 22, 23, 22, 23, 23, 24]
  const ROW_A: seq<nat> := [22, 21, 20, 22, 22, 23, 23, 21, 23, 22, 22, 24, 21, 22, 23, 23]
  const ROW_B: seq<nat> := [21, 21, 22, 21, 23, 22, 23, 23, 20, 22, 22, 22, 23, 22, 22, 23]
  const ROW_C: seq<nat> := [26, 26, 20, 19, 22, 23, 22, 25, 26, 26, 26, 27, 27, 26, 24, 25]
  const ROW_D: seq<nat> := [19, 21, 26, 27, 27, 26, 27, 24, 21, 21, 26, 26, 28, 27, 27, 27]
  const ROW_E: seq<nat> := [20, 24, 20, 21, 22, 21, 21, 23, 22, 22, 25, 25, 24, 24, 26, 23]
  const ROW_F: seq<nat> := [26, 27, 26, 26, 27, 27, 27, 27, 27, 28, 27, 27, 27, 27, 27, 26]

  const LOW: seq<nat> := ROW_0 + ROW_1 + ROW_2 + ROW_3 + ROW_4 + ROW_5 + ROW_6 + ROW_7
  const HIGH: seq<nat> := ROW_8 + ROW_9 + ROW_A + ROW_B + ROW_C + ROW_D + ROW_E + ROW_F

  /** The code lengths of ENCODE_TABLE, sixteen symbols a row, and end-of-string. */
  const LENGTHS: seq<nat> := LOW + HIGH + [30]

  const TABLE: Code := Canonical(LENGTHS)

  lemma {:induction false} WeightAppend(a: seq<nat>, b: seq<nat>, n: nat)
    ensures Weight(a + b, n) == Weight(a, n) + Weight(b, n)
    decreases |b|
  {
    if b == [] {
      assert a + b == a;
    } else {
      assert (a + b)[..|a + b| - 1] == a + b[..|b| - 1];
      WeightAppend(a, b[..|b| - 1], n);
    }
  }

  /** What one code word weighs. */
  function Share(l: nat): nat
    requires l <= 30
  {
    Pow2(30 - l)
  }

  lemma Shares()
    ensures Share(5) == 0x200_0000 && Share(6) == 0x100_0000 && Share(7) == 0x80_0000 && Share(8) == 0x40_0000
    ensures Share(10) == 0x10_0000 && Share(11) == 0x8_0000 && Share(12) == 0x4_0000 && Share(13) == 0x2_0000
    ensures Share(14) == 0x1_0000 && Share(15) == 0x8000 && Share(19) == 0x800 && Share(20) == 0x400
    ensures Share(21) == 0x200 && Share(22) == 0x100 && Share(23) == 0x80 && Share(24) == 0x40
    ensures Share(25) == 0x20 && Share(26) == 0x10 && Share(27) == 8 && Share(28) == 4 && Share(30) == 1
  {
    assert Pow2(0) == 1 && Pow2(2) == 4 && Pow2(3) == 8;
    assert Pow2(4) == 16;
    assert Pow2(5) == 2 * Pow2(4) && Pow2(6) == 2 * Pow2(5) && Pow2(7) == 2 * Pow2(6) && Pow2(8) == 2 * Pow2(7);
    assert Pow2(9) == 2 * Pow2(8) && Pow2(10) == 2 * Pow2(9) && Pow2(11) == 2 * Pow2(10);
    Pow2Add(11, 4);
    assert Pow2(16) == 2 * Pow2(15) && Pow2(17) == 2 * Pow2(16) && Pow2(18) == 2 * Pow2(17) && Pow2(19) == 2 * Pow2(18);
    assert Pow2(20) == 2 * Pow2(19) && Pow2(22) == 4 * Pow2(20);
    assert Pow2(23) == 2 * Pow2(22) && Pow2(24) == 2 * Pow2(23) && Pow2(25) == 2 * Pow2(24);
  }

  ghost predicate Small(r: seq<nat>) {
    forall i :: 0 <= i < |r| ==> 5 <= r[i] <= 30
  }

  lemma WeightOne(l: nat)
    requires l <= 30
    ensures Weight([l], 31) == Share(l)
  {
    assert [l][..0] == [];
  }

  lemma WeightFour(r: seq<nat>)
    requires |r| == 4 && Small(r)
    ensures Weight(r, 31) == Share(r[0]) + Share(r[1]) + Share(r[2]) + Share(r[3])
  {
    assert r == [r[0]] + [r[1]] + [r[2]] + [r[3]];
    WeightAppend([r[0]] + [r[1]] + [r[2]], [r[3]], 31);
    WeightAppend([r[0]] + [r[1]], [r[2]], 31);
    WeightAppend([r[0]], [r[1]], 31);
    WeightOne(r[0]);
    WeightOne(r[1]);
    WeightOne(r[2]);
    WeightOne(r[3]);
  }

  lemma WeightRow(r: seq<nat>)
    requires |r| == 16 && Small(r)
    ensures Weight(r, 31) == Share(r[0]) + Share(r[1]) + Share(r[2]) + Share(r[3])
                           + Share(r[4]) + Share(r[5]) + Share(r[6]) + Share(r[7])
                           + Share(r[8]) + Share(r[9]) + Share(r[10]) + Share(r[11])
                           + Share(r[12]) + Share(r[13]) + Share(r[14]) + Share(r[15])
  {
    assert r == r[..4] + r[4..8] + r[8..12] + r[12..];
    WeightAppend(r[..4] + r[4..8] + r[8..12], r[12..], 31);
    WeightAppend(r[..4] + r[4..8], r[8..12], 31);
    WeightAppend(r[..4], r[4..8], 31);
    WeightFour(r[..4]);
    WeightFour(r[4..8]);
    WeightFour(r[8..12]);
    WeightFour(r[12..]);
  }

  lemma Row0()
    ensures |ROW_0| == 16 && Small(ROW_0) && Weight(ROW_0, 31) == 131310
  {
    Shares();
    WeightRow(ROW_0);
  }

  lemma Row1()
    ensures |ROW_1| == 16 && Small(ROW_1) && Weight(ROW_1, 31) == 61
  {
    Shares();
    WeightRow(ROW_1);
  }

  lemma Row2()
    ensures |ROW_2| == 16 && Small(ROW_2) && Weight(ROW_2, 31) == 102105088
  {
    Shares();
    WeightRow(ROW_2);
  }

  lemma Row3()
    ensures |ROW_3| == 16 && Small(ROW_3) && Weight(ROW_3, 31) == 248807424
  {
    Shares();
    WeightRow(ROW_3);
  }

  lemma Row4()
    ensures |ROW_4| == 16 && Small(ROW_4) && Weight(ROW_4, 31) == 134348800
  {
    Shares();
    WeightRow(ROW_4);
  }

  lemma Row5()
    ensures |ROW_5| == 16 && Small(ROW_5) && Weight(ROW_5, 31) == 100993024
  {
    Shares();
    WeightRow(ROW_5);
  }

  lemma Row6()
    ensures |ROW_6| == 16 && Small(ROW_6) && Weight(ROW_6, 31) == 318799872
  {
    Shares();
    WeightRow(ROW_6);
  }

  lemma Row7()
    ensures |ROW_7| == 16 && Small(ROW_7) && Weight(ROW_7, 31) == 168525828
  {
    Shares();
    WeightRow(ROW_7);
  }

  lemma Row8()
    ensures |ROW_8| == 16 && Small(ROW_8) && Weight(ROW_8, 31) == 5312
  {
    Shares();
    WeightRow(ROW_8);
  }

  lemma Row9()
    ensures |ROW_9| == 16 && Small(ROW_9) && Weight(ROW_9, 31) == 2560
  {
    Shares();
    WeightRow(ROW_9);
  }

  lemma RowA()
    ensures |ROW_A| == 16 && Small(ROW_A) && Weight(ROW_A, 31) == 4800
  {
    Shares();
    WeightRow(ROW_A);
  }

  lemma RowB()
    ensures |ROW_B| == 16 && Small(ROW_B) && Weight(ROW_B, 31) == 4992
  {
    Shares();
    WeightRow(ROW_B);
  }

  lemma RowC()
    ensures |ROW_C| == 16 && Small(ROW_C) && Weight(ROW_C, 31) == 3952
  {
    Shares();
    WeightRow(ROW_C);
  }

  lemma RowD()
    ensures |ROW_D| == 16 && Small(ROW_D) && Weight(ROW_D, 31) == 3764
  {
    Shares();
    WeightRow(ROW_D);
  }

  lemma RowE()
    ensures |ROW_E| == 16 && Small(ROW_E) && Weight(ROW_E, 31) == 4880
  {
    Shares();
    WeightRow(ROW_E);
  }

  lemma RowF()
    ensures |ROW_F| == 16 && Small(ROW_F) && Weight(ROW_F, 31) == 156
  {
    Shares();
    WeightRow(ROW_F);
  }

  lemma EightRows(a: seq<nat>, b: seq<nat>, c: seq<nat>, d: seq<nat>, e: seq<nat>, f: seq<nat>, g: seq<nat>,
          h: seq<nat>)
    ensures Weight(a + b + c + d + e + f + g + h, 31)
         == Weight(a, 31) + Weight(b, 31) + Weight(c, 31) + Weight(d, 31)
          + Weight(e, 31) + Weight(f, 31) + Weight(g, 31) + Weight(h, 31)
  {
    WeightAppend(a, b, 31);
    WeightAppend(a + b, c, 31);
    WeightAppend(a + b + c, d, 31);
    WeightAppend(a + b + c + d, e, 31);
    WeightAppend(a + b + c + d + e, f, 31);
    WeightAppend(a + b + c + d + e + f, g, 31);
    WeightAppend(a + b + c + d + e + f + g, h, 31);
  }

  lemma SmallAppend(a: seq<nat>, b: seq<nat>)
    requires Small(a) && Small(b)
    ensures Small(a + b)
  {}

  lemma SmallRows(a: seq<nat>, b: seq<nat>, c: seq<nat>, d: seq<nat>, e: seq<nat>, f: seq<nat>, g: seq<nat>,
          h: seq<nat>)
    requires Small(a) && Small(b) && Small(c) && Small(d) && Small(e) && Small(f) && Small(g) && Small(h)
    ensures Small(a + b + c + d + e + f + g + h)
  {
    SmallAppend(a, b);
    SmallAppend(a + b, c);
    SmallAppend(a + b + c, d);
    SmallAppend(a + b + c + d, e);
    SmallAppend(a + b + c + d + e, f);
    SmallAppend(a + b + c + d + e + f, g);
    SmallAppend(a + b + c + d + e + f + g, h);
  }

  lemma LowHalf()
    ensures |LOW| == 128 && Small(LOW) && Weight(LOW, 31) == 1073711407
  {
    Row0(); Row1(); Row2(); Row3(); Row4(); Row5(); Row6(); Row7();
    EightRows(ROW_0, ROW_1, ROW_2, ROW_3, ROW_4, ROW_5, ROW_6, ROW_7);
    SmallRows(ROW_0, ROW_1, ROW_2, ROW_3, ROW_4, ROW_5, ROW_6, ROW_7);
  }

  lemma HighHalf()
    ensures |HIGH| == 128 && Small(HIGH) && Weight(HIGH, 31) == 30416
  {
    Row8(); Row9(); RowA(); RowB(); RowC(); RowD(); RowE(); RowF();
    EightRows(ROW_8, ROW_9, ROW_A, ROW_B, ROW_C, ROW_D, ROW_E, ROW_F);
    SmallRows(ROW_8, ROW_9, ROW_A, ROW_B, ROW_C, ROW_D, ROW_E, ROW_F);
  }

  /** The repository's code is complete, so it is one of those the proofs are about. */
  lemma TableIsValid()
    ensures Complete(LENGTHS) && ValidCode(TABLE)
  {
    LowHalf();
    HighHalf();
    SmallAppend(LOW, HIGH);
    SmallAppend(LOW + HIGH, [30]);
    WeightAppend(LOW, HIGH, 31);
    WeightAppend(LOW + HIGH, [30], 31);
    Shares();
    WeightOne(30);
    Pow2Values();
    CanonicalIsValid(LENGTHS);
  }
}
