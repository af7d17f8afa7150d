/** Octets, powers of two, bitwise or, and the bits of a number, most significant first. */
module Bits {
  import opened Arith

  type byte = x: int | 0 <= x < 256

  lemma AppendAssoc<T>(a: seq<T>, b: seq<T>, c: seq<T>)
    ensures (a + b) + c == a + (b + c)
  {}

  /** The octets of a text in ASCII. */
  function Ascii(s: string): (r: seq<byte>)
    ensures |r| == |s|
    ensures forall i :: 0 <= i < |s| ==> r[i] == s[i] as int % 256
  {
    seq(|s|, i requires 0 <= i < |s| => s[i] as int % 256)
  }

  function Pow2(n: nat): (r: nat)
    ensures r > 0
  {
    if n == 0 then 1 else 2 * Pow2(n - 1)
  }

  lemma {:induction false} Pow2Add(a: nat, b: nat)
    ensures Pow2(a + b) == Pow2(a) * Pow2(b)
  {
    if a > 0 {
      Pow2Add(a - 1, b);
    }
  }

  lemma {:induction false} Pow2Monotone(a: nat, b: nat)
    requires a <= b
    ensures Pow2(a) <= Pow2(b)
  {
    if a < b {
      Pow2Monotone(a, b - 1);
    }
  }

  /** The constants the sources write as shifts. */
  lemma Pow2Values()
    ensures Pow2(4) == 16 && Pow2(5) == 32 && Pow2(6) == 64 && Pow2(7) == 128 && Pow2(8) == 256
    ensures Pow2(28) == 0x1000_0000 && Pow2(30) == 0x4000_0000 && Pow2(32) == 0x1_0000_0000
    ensures Pow2(40) == 0x100_0000_0000 && Pow2(64) == 0x1_0000_0000_0000_0000
  {
    assert Pow2(4) == 16;
    assert Pow2(8) == 256;
    Pow2Add(8, 8);
    Pow2Add(16, 8);
    Pow2Add(24, 4);
    Pow2Add(28, 2);
    Pow2Add(16, 16);
    Pow2Add(32, 8);
    Pow2Add(32, 32);
  }

  /** `v << k` and `v >> k` on numbers without a width. */
  function Shl(v: nat, k: nat): nat
    decreases k, v
  {
    if k == 0 then v else 2 * Shl(v, k - 1)
  }

  function Shr(v: nat, k: nat): nat
    decreases k, v
  {
    if k == 0 then v else Shr(v / 2, k - 1)
  }

  lemma {:induction false} ShlIsMul(v: nat, k: nat)
    ensures Shl(v, k) == v * Pow2(k)
  {
    if k > 0 {
      ShlIsMul(v, k - 1);
    }
  }

  lemma {:induction false} ShrIsDiv(v: nat, k: nat)
    ensures Shr(v, k) == v / Pow2(k)
  {
    if k > 0 {
      ShrIsDiv(v / 2, k - 1);
      DivDiv(v, 2, Pow2(k - 1));
    }
  }

  /** Bitwise or of two unsigned integers. */
  function Or(a: nat, b: nat): nat
    decreases a + b
  {
    if a == 0 then b
    else if b == 0 then a
    else 2 * Or(a / 2, b / 2) + (if a % 2 == 1 || b % 2 == 1 then 1 else 0)
  }

  /** Bit k of a number is set if or-ing it in changes nothing. */
  lemma {:induction false} OrBit(a: nat, k: nat)
    ensures Or(a, Pow2(k)) == a <==> a / Pow2(k) % 2 == 1
    decreases k
  {
    if k == 0 {
      assert Pow2(0) == 1;
      if a != 0 {
        assert Or(a, 1) == 2 * Or(a / 2, 0) + 1;
      }
    } else if a != 0 {
      OrBit(a / 2, k - 1);
      assert Pow2(k) / 2 == Pow2(k - 1) && Pow2(k) % 2 == 0;
      assert Or(a, Pow2(k)) == 2 * Or(a / 2, Pow2(k - 1)) + a % 2;
      DivDiv(a, 2, Pow2(k - 1));
    }
  }

  /** Or is addition when the operands share no bit position. */
  lemma {:induction false} OrDisjoint(q: nat, b: nat, k: nat)
    requires b < Pow2(k)
    ensures Or(q * Pow2(k), b) == q * Pow2(k) + b
    decreases k
  {
    var a := q * Pow2(k);
    if a != 0 && b != 0 {
      assert k > 0;
      assert a == 2 * (q * Pow2(k - 1));
      OrDisjoint(q, b / 2, k - 1);
    }
  }

  lemma {:induction false} OrBound(a: nat, b: nat, k: nat)
    requires a < Pow2(k) && b < Pow2(k)
    ensures Or(a, b) < Pow2(k)
    decreases k
  {
    if a != 0 && b != 0 {
      OrBound(a / 2, b / 2, k - 1);
    }
  }

  /** The low w bits of v. */
  function BitsOf(v: nat, w: nat): (s: seq<bool>)
    ensures |s| == w
    decreases w, v
  {
    if w == 0 then [] else BitsOf(v / 2, w - 1) + [v % 2 == 1]
  }

  lemma {:induction false} BitsOfConcat(hi: nat, a: nat, lo: nat, k: nat)
    requires lo < Pow2(k)
    ensures BitsOf(hi * Pow2(k) + lo, a + k) == BitsOf(hi, a) + BitsOf(lo, k)
    decreases k
  {
    if k == 0 {
      assert BitsOf(lo, 0) == [];
    } else {
      var v := hi * Pow2(k) + lo;
      assert v == 2 * (hi * Pow2(k - 1)) + lo;
      assert v / 2 == hi * Pow2(k - 1) + lo / 2;
      BitsOfConcat(hi, a, lo / 2, k - 1);
    }
  }

  lemma {:induction false} BitsOfMod(v: nat, m: nat, w: nat)
    requires w <= m
    ensures BitsOf(v % Pow2(m), w) == BitsOf(v, w)
    decreases w
  {
    if w > 0 {
      var half := v / 2;
      ModHalves(v, Pow2(m - 1), Pow2(m));
      BitsOfMod(half, m - 1, w - 1);
    }
  }

  function Value(bits: seq<bool>): (v: nat)
    ensures v < Pow2(|bits|)
  {
    if bits == [] then 0
    else 2 * Value(bits[..|bits| - 1]) + (if bits[|bits| - 1] then 1 else 0)
  }

  lemma {:induction false} ValueBitsOf(v: nat, w: nat)
    requires v < Pow2(w)
    ensures Value(BitsOf(v, w)) == v
  {
    if w > 0 {
      ValueBitsOf(v / 2, w - 1);
      assert BitsOf(v, w)[..w - 1] == BitsOf(v / 2, w - 1);
    }
  }

  lemma {:induction false} BitsOfValue(bits: seq<bool>)
    ensures BitsOf(Value(bits), |bits|) == bits
  {
    if bits != [] {
      BitsOfValue(bits[..|bits| - 1]);
    }
  }

  function Ones(k: nat): (s: seq<bool>)
    ensures |s| == k && forall i :: 0 <= i < k ==> s[i]
  {
    seq(k, _ => true)
  }

  lemma {:induction false} BitsOfAllOnes(k: nat)
    ensures BitsOf(Pow2(k) - 1, k) == Ones(k)
  {
    if k > 0 {
      BitsOfAllOnes(k - 1);
      var half := Pow2(k - 1) - 1;
      assert Pow2(k) - 1 == 2 * half + 1;
      assert (2 * half + 1) / 2 == half;
      assert Ones(k) == Ones(k - 1) + [true];
    }
  }

  /** The bits of a string of octets. */
  function Unpack(s: seq<byte>): (bits: seq<bool>)
    ensures |bits| == 8 * |s|
  {
    if s == [] then [] else BitsOf(s[0], 8) + Unpack(s[1..])
  }

  /** The octets of a string of bits. */
  function Pack(bits: seq<bool>): (s: seq<byte>)
    requires |bits| % 8 == 0
    ensures 8 * |s| == |bits|
  {
    if bits == [] then []
    else
      assert Pow2(8) == 256;
      [Value(bits[..8])] + Pack(bits[8..])
  }

  lemma {:induction false} UnpackPack(bits: seq<bool>)
    requires |bits| % 8 == 0
    ensures Unpack(Pack(bits)) == bits
  {
    if bits != [] {
      BitsOfValue(bits[..8]);
      UnpackPack(bits[8..]);
    }
  }

  lemma {:induction false} PackUnpack(s: seq<byte>)
    ensures Pack(Unpack(s)) == s
  {
    if s != [] {
      Pow2Values();
      ValueBitsOf(s[0], 8);
      PackUnpack(s[1..]);
      assert Unpack(s)[..8] == BitsOf(s[0], 8);
      assert Unpack(s)[8..] == Unpack(s[1..]);
    }
  }

  lemma {:induction false} UnpackAppend(a: seq<byte>, b: seq<byte>)
    ensures Unpack(a + b) == Unpack(a) + Unpack(b)
  {
    if a == [] {
      assert a + b == b;
    } else {
      UnpackAppend(a[1..], b);
      assert (a + b)[1..] == a[1..] + b;
    }
  }

  lemma UnpackSnoc(a: seq<byte>, b: byte)
    ensures Unpack(a + [b]) == Unpack(a) + BitsOf(b, 8)
  {
    UnpackAppend(a, [b]);
    assert Unpack([b]) == BitsOf(b, 8) + Unpack([]);
  }

  lemma UnpackInjective(a: seq<byte>, b: seq<byte>)
    requires Unpack(a) == Unpack(b)
    ensures a == b
  {
    PackUnpack(a);
    PackUnpack(b);
  }
}
