/**
 The Huffman coder of section 5.2 of RFC 7541 (pajamax/src/huffman/mod.rs), over any prefix-free
 code of the shape of the RFC's: the bit packer, the automaton that eats four bits at a time,
 and the proof that they are inverse to each other in both directions.
*/
module Huffman {
  import opened Arith
  import opened Bits

  /** One row of the encoding table: how many bits, and which. */
  datatype Entry = Entry(nbits: nat, code: nat)

  /** The encoding table: 256 octets and the end-of-string symbol. */
  type Code = seq<Entry>

  const EOS: nat := 256

  function CodeBits(c: Code, sym: nat): (s: seq<bool>)
    requires sym < |c|
    ensures |s| == c[sym].nbits
  {
    BitsOf(c[sym].code, c[sym].nbits)
  }

  /** Code words of 5 to 30 bits. */
  ghost predicate ValidLengths(c: Code) {
    && |c| == 257
    && forall i :: 0 <= i < 257 ==> 5 <= c[i].nbits <= 30 && c[i].code < Pow2(c[i].nbits)
  }

  ghost predicate PrefixFree(c: Code) {
    forall i, j :: 0 <= i < |c| && 0 <= j < |c| && i != j ==> !(CodeBits(c, i) <= CodeBits(c, j))
  }

  /** No code word is a prefix of another, and end-of-string is thirty ones. */
  ghost predicate ValidCode(c: Code) {
    && ValidLengths(c)
    && PrefixFree(c)
    && c[EOS].nbits == 30 && c[EOS].code == Pow2(c[EOS].nbits) - 1
  }

  // ---------------------------------------------------------------- encoding

  /** The code words of a string, one after another. */
  function Codes(c: Code, s: seq<byte>): seq<bool>
    requires |c| == 257
  {
    if s == [] then [] else Codes(c, s[..|s| - 1]) + CodeBits(c, s[|s| - 1])
  }

  lemma CodesSnoc(c: Code, s: seq<byte>, i: nat)
    requires |c| == 257 && i < |s|
    ensures Codes(c, s[..i + 1]) == Codes(c, s[..i]) + CodeBits(c, s[i])
  {
    assert s[..i + 1][..i] == s[..i];
  }

  function PadLen(n: nat): (k: nat)
    ensures k < 8 && (n + k) % 8 == 0
  {
    (8 - n % 8) % 8
  }

  lemma PadLenIs(n: nat, k: nat, m: int)
    requires k < 8 && n + k == 8 * m
    ensures PadLen(n) == k
  {}

  /** The Huffman form of a string: its code words, filled up to an octet with ones. */
  function Encoded(c: Code, s: seq<byte>): seq<byte>
    requires |c| == 257
  {
    var bits := Codes(c, s);
    Pack(bits + Ones(PadLen(|bits|)))
  }

  // ---------------------------------------------------------------- the form as one number

  /** Octets as the digits of one number, most significant first. */
  function Big(s: seq<byte>): nat {
    if s == [] then 0 else Big(s[..|s| - 1]) * 256 + s[|s| - 1]
  }

  lemma {:induction false} BigAppend(a: seq<byte>, b: seq<byte>)
    ensures Big(a + b) == Big(a) * Pow2(8 * |b|) + Big(b)
    decreases |b|
  {
    if b == [] {
      assert a + b == a;
    } else {
      var b', n := b[..|b| - 1], 8 * (|b| - 1);
      assert (a + b)[..|a + b| - 1] == a + b';
      BigAppend(a, b');
      Pow2Add(n, 8);
      assert Pow2(8) == 256;
      Associate(Big(a), Pow2(n), 256);
      Distribute(Big(a) * Pow2(n), Big(b'), 256);
    }
  }

  lemma {:induction false} ValueAppend(a: seq<bool>, b: seq<bool>)
    ensures Value(a + b) == Value(a) * Pow2(|b|) + Value(b)
    decreases |b|
  {
    if b == [] {
      assert a + b == a;
    } else {
      var b', n := b[..|b| - 1], |b| - 1;
      assert (a + b)[..|a + b| - 1] == a + b';
      ValueAppend(a, b');
      Pow2Add(n, 1);
      assert Pow2(1) == 2;
      Associate(Value(a), Pow2(n), 2);
      Distribute(Value(a) * Pow2(n), Value(b'), 2);
    }
  }

  lemma {:induction false} BigIsValue(bits: seq<bool>)
    requires |bits| % 8 == 0
    ensures Big(Pack(bits)) == Value(bits)
    decreases |bits|
  {
    if bits != [] {
      var head, tail := bits[..8], bits[8..];
      BigIsValue(tail);
      assert bits == head + tail;
      ValueAppend(head, tail);
      assert Pack(bits) == [Value(head)] + Pack(tail);
      BigAppend([Value(head)], Pack(tail));
      assert [Value(head)][..0] == [];
    }
  }

  /** The code words of a string as the digits of one number, each in its own width. */
  function CodeNumber(c: Code, s: seq<byte>): nat
    requires |c| == 257
  {
    if s == [] then 0
    else
      var e := c[s[|s| - 1]];
      CodeNumber(c, s[..|s| - 1]) * Pow2(e.nbits) + e.code
  }

  function Width(c: Code, s: seq<byte>): nat
    requires |c| == 257
  {
    if s == [] then 0 else Width(c, s[..|s| - 1]) + c[s[|s| - 1]].nbits
  }

  lemma {:induction false} CodesAreNumber(c: Code, s: seq<byte>)
    requires ValidLengths(c)
    ensures Value(Codes(c, s)) == CodeNumber(c, s) && |Codes(c, s)| == Width(c, s)
    decreases |s|
  {
    if s != [] {
      var before, last := s[..|s| - 1], s[|s| - 1];
      CodesAreNumber(c, before);
      ValueAppend(Codes(c, before), CodeBits(c, last));
      ValueBitsOf(c[last].code, c[last].nbits);
    }
  }

  lemma {:induction false} ValueOfOnes(k: nat)
    ensures Value(Ones(k)) == Pow2(k) - 1
    decreases k
  {
    if k > 0 {
      ValueOfOnes(k - 1);
      assert Ones(k)[..k - 1] == Ones(k - 1);
    }
  }

  /**
   Read as one number, most significant octet first, the Huffman form is that of its code words, with fewer
   than eight ones behind it.
  */
  lemma EncodedIsNumber(c: Code, s: seq<byte>)
    requires ValidLengths(c)
    ensures var k := 8 * |Encoded(c, s)| - Width(c, s);
            0 <= k < 8 && Big(Encoded(c, s)) == CodeNumber(c, s) * Pow2(k) + (Pow2(k) - 1)
  {
    var bits := Codes(c, s);
    var k := PadLen(|bits|);
    CodesAreNumber(c, s);
    BigIsValue(bits + Ones(k));
    ValueAppend(bits, Ones(k));
    ValueOfOnes(k);
  }

  // ---------------------------------------------------------------- the packer

  /** The octet at the top of the window: `(bits >> 32) as u8`. */
  function Top(bits: nat): byte {
    Shr(bits, 32) % 256
  }

  /** `bits <<= 8` in a 64-bit word. */
  function Shifted(bits: nat): nat {
    Shl(bits, 8) % 0x1_0000_0000_0000_0000
  }

  /** `bits |= v << (left - n)` */
  function OrInto(bits: nat, left: nat, n: nat, v: nat): nat
    requires n <= left
  {
    Or(bits, Shl(v, left - n))
  }

  /** A 64-bit word whose low 40 bits are `40 - left` pending bits, the low bits of q, and zeros. */
  ghost predicate Window(bits: nat, left: nat, q: nat) {
    left <= 40 && bits == Shl(q, left) && bits < 0x1_0000_0000_0000_0000
  }

  ghost function Pending(left: nat, q: nat): seq<bool>
    requires left <= 40
  {
    BitsOf(q, 40 - left)
  }

  /** Or-ing v, n bits wide, into the window below its pending bits appends it to them. */
  lemma OrAppends(q: nat, left: nat, n: nat, v: nat) returns (q': nat)
    requires n <= left <= 40 && v < Pow2(n)
    ensures OrInto(Shl(q, left), left, n, v) == Shl(q', left - n)
    ensures Pending(left - n, q') == Pending(left, q) + BitsOf(v, n)
  {
    var low := Pow2(left - n);
    q' := q * Pow2(n) + v;
    ShlIsMul(q, left);
    ShlIsMul(v, left - n);
    ShlIsMul(q', left - n);
    Pow2Add(n, left - n);
    MulLess(v, Pow2(n), low);
    OrDisjoint(q, v * low, left);
    Associate(q, Pow2(n), low);
    Distribute(q * Pow2(n), v, low);
    BitsOfConcat(q, 40 - left, v, n);
  }

  lemma OrFits(bits: nat, left: nat, n: nat, v: nat)
    requires bits < Pow2(64) && n <= left <= 40 && v < Pow2(n)
    ensures OrInto(bits, left, n, v) < Pow2(64)
  {
    ShlIsMul(v, left - n);
    Pow2Add(n, left - n);
    MulLess(v, Pow2(n), Pow2(left - n));
    Pow2Monotone(left, 64);
    OrBound(bits, Shl(v, left - n), 64);
  }

  lemma AppendBits(bits: nat, left: nat, q: nat, n: nat, v: nat, out: seq<byte>) returns (q': nat)
    requires Window(bits, left, q)
    requires n <= left && v < Pow2(n)
    ensures Window(OrInto(bits, left, n, v), left - n, q')
    ensures Unpack(out) + Pending(left - n, q') == (Unpack(out) + Pending(left, q)) + BitsOf(v, n)
  {
    q' := OrAppends(q, left, n, v);
    Pow2Values();
    OrFits(bits, left, n, v);
  }

  lemma TopOctet(q: nat, left: nat)
    requires left <= 32
    ensures BitsOf(q, 40 - left) == BitsOf(Top(Shl(q, left)), 8) + BitsOf(q, 32 - left)
  {
    var k := 32 - left;
    var hi, lo := q / Pow2(k), q % Pow2(k);
    ShlIsMul(q, left);
    ShrIsDiv(Shl(q, left), 32);
    Pow2Add(k, left);
    DivCancel(q, Pow2(k), Pow2(left));
    DivMod(q, Pow2(k));
    BitsOfConcat(hi, 8, lo, k);
    BitsOfMod(q, k, k);
    assert Pow2(8) == 256;
    BitsOfMod(hi, 8, 8);
  }

  lemma ShiftLeft(q: nat, left: nat) returns (q': nat)
    requires left <= 32
    ensures Shifted(Shl(q, left)) == Shl(q', left + 8)
    ensures BitsOf(q', 32 - left) == BitsOf(q, 32 - left)
  {
    var bits := Shl(q, left);
    q' := q % Pow2(56 - left);
    ShlIsMul(q, left);
    ShlIsMul(bits, 8);
    ShlIsMul(q', left + 8);
    Pow2Values();
    Pow2Add(left, 8);
    Associate(q, Pow2(left), Pow2(8));
    Pow2Add(56 - left, left + 8);
    DivCancel(q, Pow2(56 - left), Pow2(left + 8));
    BitsOfMod(q, 56 - left, 32 - left);
  }

  lemma PopOctet(bits: nat, left: nat, q: nat, dst: seq<byte>) returns (q': nat)
    requires Window(bits, left, q) && left <= 32
    ensures Window(Shifted(bits), left + 8, q')
    ensures Unpack(dst + [Top(bits)]) + Pending(left + 8, q') == Unpack(dst) + Pending(left, q)
  {
    q' := ShiftLeft(q, left);
    TopOctet(q, left);
    UnpackSnoc(dst, Top(bits));
  }

  /** Octets holding the code words and fewer than eight ones are the Huffman form. */
  lemma PaddingIsUnique(c: Code, src: seq<byte>, dst0: seq<byte>, dst: seq<byte>, k: nat)
    requires |c| == 257 && k < 8
    requires Unpack(dst) == Unpack(dst0) + (Codes(c, src) + Ones(k))
    ensures dst == dst0 + Encoded(c, src)
  {
    PadLenIs(|Codes(c, src)|, k, |dst| - |dst0|);
    UnpackPack(Codes(c, src) + Ones(k));
    UnpackAppend(dst0, Encoded(c, src));
    UnpackInjective(dst, dst0 + Encoded(c, src));
  }

  lemma TrimPadding(pre: seq<bool>, all: seq<bool>, left: nat, out: seq<bool>, rest: seq<bool>)
    requires out + rest == (pre + all) + Ones(left) && |rest| == 32 && 33 <= left < 40
    ensures out == pre + (all + Ones(left - 32))
  {
    assert out == (out + rest)[..|out|];
    assert ((pre + all) + Ones(left))[..|out|] == (pre + all) + Ones(left - 32);
  }

  /** The last octet: the unused bits are the start of the end-of-string code. */
  lemma LastOctet(c: Code, src: seq<byte>, dst0: seq<byte>, dst: seq<byte>, bits: nat, left: nat, q: nat)
    requires |c| == 257
    requires Window(bits, left, q) && 33 <= left < 40
    requires Unpack(dst) + Pending(left, q) == Unpack(dst0) + Codes(c, src)
    ensures dst + [Top(OrInto(bits, left, left, Pow2(left) - 1))] == dst0 + Encoded(c, src)
  {
    var q1 := AppendBits(bits, left, q, left, Pow2(left) - 1, dst);
    var bits' := OrInto(bits, left, left, Pow2(left) - 1);
    assert Unpack(dst) + Pending(0, q1) == (Unpack(dst0) + Codes(c, src)) + Ones(left) by {
      BitsOfAllOnes(left);
    }
    PopLast(c, src, dst0, dst, bits', q1, left);
  }

  lemma PopLast(c: Code, src: seq<byte>, dst0: seq<byte>, dst: seq<byte>, bits: nat, q: nat, left: nat)
    requires |c| == 257 && 33 <= left < 40
    requires Window(bits, 0, q)
    requires Unpack(dst) + Pending(0, q) == (Unpack(dst0) + Codes(c, src)) + Ones(left)
    ensures dst + [Top(bits)] == dst0 + Encoded(c, src)
  {
    var q' := PopOctet(bits, 0, q, dst);
    TrimPadding(Unpack(dst0), Codes(c, src), left, Unpack(dst + [Top(bits)]), Pending(8, q'));
    PaddingIsUnique(c, src, dst0, dst + [Top(bits)], left - 32);
  }

  lemma NoPadding(c: Code, src: seq<byte>, dst0: seq<byte>, dst: seq<byte>, q: nat)
    requires |c| == 257
    requires Unpack(dst) + Pending(40, q) == Unpack(dst0) + Codes(c, src)
    ensures dst == dst0 + Encoded(c, src)
  {
    assert Codes(c, src) + Ones(0) == Codes(c, src);
    PaddingIsUnique(c, src, dst0, dst, 0);
  }

  /** The inner loop of the packer: whole octets leave at the top of the window. */
  method Flush(bits0: nat, left0: nat, dst0: seq<byte>, ghost q0: nat)
    returns (bits: nat, left: nat, dst: seq<byte>, ghost q: nat)
    requires Window(bits0, left0, q0)
    ensures 33 <= left <= 40 && Window(bits, left, q)
    ensures Unpack(dst) + Pending(left, q) == Unpack(dst0) + Pending(left0, q0)
  {
    bits, left, dst, q := bits0, left0, dst0, q0;
    while left <= 32
      invariant left <= 40
      invariant Window(bits, left, q)
      invariant Unpack(dst) + Pending(left, q) == Unpack(dst0) + Pending(left0, q0)
    {
      q := PopOctet(bits, left, q, dst);
      dst := dst + [Top(bits)];
      bits := Shifted(bits);
      left := left + 8;
    }
  }

  /** One code word of the packer. */
  lemma PushCode(c: Code, src: seq<byte>, i: nat, dst0: seq<byte>, dst: seq<byte>, bits: nat, left: nat, q: nat)
    returns (q': nat)
    requires ValidLengths(c) && i < |src|
    requires Window(bits, left, q) && 33 <= left
    requires Unpack(dst) + Pending(left, q) == Unpack(dst0) + Codes(c, src[..i])
    ensures var e := c[src[i]];
            && Window(OrInto(bits, left, e.nbits, e.code), left - e.nbits, q')
            && Unpack(dst) + Pending(left - e.nbits, q') == Unpack(dst0) + Codes(c, src[..i + 1])
  {
    var e := c[src[i]];
    q' := AppendBits(bits, left, q, e.nbits, e.code, dst);
    CodesSnoc(c, src, i);
    assert (Unpack(dst0) + Codes(c, src[..i])) + CodeBits(c, src[i]) == Unpack(dst0) + Codes(c, src[..i + 1]);
  }

  /**
   The bit packer. Each code word is or-ed into a 64-bit word whose low 40 bits are the window;
   whole octets leave at the top of the window. The bits above it are never masked off.
  */
  method Encode(c: Code, src: seq<byte>, dst0: seq<byte>) returns (dst: seq<byte>)
    requires ValidLengths(c)
    ensures dst == dst0 + Encoded(c, src)
  {
    dst := dst0;
    var bits: nat := 0;
    var bitsLeft: nat := 40;
    ghost var q: nat := 0;
    ShlIsMul(0, 40);
    var i := 0;
    while i < |src|
      invariant 0 <= i <= |src|
      invariant 33 <= bitsLeft <= 40
      invariant Window(bits, bitsLeft, q)
      invariant Unpack(dst) + Pending(bitsLeft, q) == Unpack(dst0) + Codes(c, src[..i])
    {
      var Entry(nbits, code) := c[src[i]];
      q := PushCode(c, src, i, dst0, dst, bits, bitsLeft, q);
      bits := OrInto(bits, bitsLeft, nbits, code);
      bitsLeft := bitsLeft - nbits;
      bits, bitsLeft, dst, q := Flush(bits, bitsLeft, dst, q);
      i := i + 1;
    }
    assert src[..i] == src;
    dst := Close(c, src, dst0, dst, bits, bitsLeft, q);
  }

  /** The last octet, if bits are left. */
  method Close(ghost c: Code, ghost src: seq<byte>, ghost dst0: seq<byte>, dst1: seq<byte>, bits: nat, left: nat,
               ghost q: nat)
    returns (dst: seq<byte>)
    requires |c| == 257 && Window(bits, left, q) && 33 <= left <= 40
    requires Unpack(dst1) + Pending(left, q) == Unpack(dst0) + Codes(c, src)
    ensures dst == dst0 + Encoded(c, src)
  {
    if left != 40 {
      LastOctet(c, src, dst0, dst1, bits, left, q);
      dst := dst1 + [Top(OrInto(bits, left, left, Pow2(left) - 1))];
    } else {
      NoPadding(c, src, dst0, dst1, q);
      dst := dst1;
    }
  }
}
