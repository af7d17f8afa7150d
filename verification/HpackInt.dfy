/**
 The integers and string literals of sections 5.1 and 5.2 of RFC 7541: the reference forms, and the
 coders of the server (pajamax/src/hpack_encoder.rs, pajamax/src/hpack_decoder.rs) against them.
*/
module HpackInt {
  import opened Wrappers
  import opened Arith
  import opened Bits

  // ---------------------------------------------------------------- reference

  /** The continuation octets: base-128 digits, least significant first. */
  function RfcTail(buf: seq<byte>): (r: Option<(nat, nat)>)
    ensures r.Some? ==> 1 <= r.value.1 <= |buf|
  {
    if buf == [] then None
    else if buf[0] < 128 then Some((buf[0], 1))
    else
      match RfcTail(buf[1..])
      case None => None
      case Some((t, n)) => Some((buf[0] - 128 + 128 * t, n + 1))
  }

  /** Decoding an integer with a prefix of p bits: its value and its length in octets. */
  function RfcInt(buf: seq<byte>, p: nat): (r: Option<(nat, nat)>)
    ensures r.Some? ==> 1 <= r.value.1 <= |buf|
  {
    if buf == [] then None
    else
      var low := buf[0] % Pow2(p);
      if low < Pow2(p) - 1 then Some((low, 1))
      else
        match RfcTail(buf[1..])
        case None => None
        case Some((t, n)) => Some((low + t, n + 1))
  }

  /** Encoding per section 5.1; `first` supplies the bits above the prefix. */
  function EncTail(v: nat): (s: seq<byte>)
    ensures s != []
  {
    if v < 128 then [v] else [128 + v % 128] + EncTail(v / 128)
  }

  predicate IsFirst(first: nat, p: nat) {
    1 <= p <= 8 && first < 256 && first % Pow2(p) == 0 && first + Pow2(p) <= 256
  }

  function EncInt(v: nat, p: nat, first: nat): (s: seq<byte>)
    requires IsFirst(first, p)
    ensures s != []
  {
    if v < Pow2(p) - 1 then [first + v]
    else [first + Pow2(p) - 1] + EncTail(v - (Pow2(p) - 1))
  }

  lemma {:induction false} RfcTailOfEnc(v: nat, rest: seq<byte>)
    ensures RfcTail(EncTail(v) + rest) == Some((v, |EncTail(v)|))
  {
    var s := EncTail(v) + rest;
    if v >= 128 {
      RfcTailOfEnc(v / 128, rest);
      assert s[1..] == EncTail(v / 128) + rest;
    }
  }

  lemma PrefixValue(first: nat, m: nat, low: nat)
    requires low < m && first % m == 0
    ensures (first + low) % m == low
  {
    DivMod(first, m);
    DivModUnique(first + low, m, first / m, low);
  }

  /** The reference decoder reads back every encoded integer, whatever follows it. */
  lemma RfcIntOfEnc(v: nat, p: nat, first: nat, rest: seq<byte>)
    requires IsFirst(first, p)
    ensures RfcInt(EncInt(v, p, first) + rest, p) == Some((v, |EncInt(v, p, first)|))
  {
    var m := Pow2(p);
    var s := EncInt(v, p, first) + rest;
    var low := if v < m - 1 then v else m - 1;
    PrefixValue(first, m, low);
    if v >= m - 1 {
      RfcTailOfEnc(v - low, rest);
      assert s[1..] == EncTail(v - low) + rest;
    }
  }

  // ---------------------------------------------------------------- the encoder

  /** `first | value` when value fits the prefix. */
  lemma OrFirst(first: nat, p: nat, low: nat)
    requires IsFirst(first, p) && low < Pow2(p)
    ensures Or(first, low) == first + low
  {
    DivMod(first, Pow2(p));
    OrDisjoint(first / Pow2(p), low, p);
  }

  /** `0b1000_0000 | value as u8` */
  lemma OrFlag(v: nat)
    ensures Or(128, v % 256) == 128 + v % 128
  {
    OrFlagOctet(v % 256);
    ModOctet(v);
  }

  lemma ModOctet(v: nat)
    ensures (v % 256) % 128 == v % 128
  {
    var q := v / 256;
    assert v % 256 == v - 256 * q;
    DivModUnique(v, 128, 2 * q + (v % 256) / 128, (v % 256) % 128);
  }

  lemma OrFlagOctet(b: byte)
    ensures Or(128, b) == 128 + b % 128
  {
    var low := b % 128;
    assert b == low || b == 128 + low;
    assert Pow2(7) == 128;
    OrDisjoint(1, low, 7);
    OrTop(low, 7);
  }

  lemma {:induction false} OrTop(b: nat, k: nat)
    requires b < Pow2(k)
    ensures Or(Pow2(k), Pow2(k) + b) == Pow2(k) + b
    decreases k
  {
    if k > 0 {
      assert (Pow2(k) + b) / 2 == Pow2(k - 1) + b / 2;
      OrTop(b / 2, k - 1);
    }
  }

  method EncodeInt(value0: nat, prefixBits: nat, firstByte: nat, dst0: seq<byte>) returns (dst: seq<byte>)
    requires IsFirst(firstByte, prefixBits)
    ensures dst == dst0 + EncInt(value0, prefixBits, firstByte)
  {
    dst := dst0;
    var value: nat := value0;
    var low := Pow2(prefixBits) - 1;
    if value < low {
      OrFirst(firstByte, prefixBits, value);
      return dst + [Or(firstByte, value)];
    }
    value := value - low;
    OrFirst(firstByte, prefixBits, low);
    dst := dst + [Or(firstByte, low)];
    while value >= 128
      invariant dst + EncTail(value) == dst0 + EncInt(value0, prefixBits, firstByte)
    {
      OrFlag(value);
      var b: byte := Or(128, value % 256);
      assert EncTail(value) == [b] + EncTail(value / 128);
      AppendAssoc(dst, [b], EncTail(value / 128));
      dst := dst + [b];
      value := value / 128;
    }
    dst := dst + [value];
  }

  // ---------------------------------------------------------------- the decoder

  const MAX_BYTES: nat := 5

  /**
   What the server's decoder returns: the reference value when it takes at most five octets.
   Octets that end inside an integer make it index past the end of its buffer, unless it has
   given up before.
  */
  function IntResult(buf: seq<byte>, p: nat): Result<(nat, nat)> {
    if p < 1 || p > 8 || buf == [] then Err(InvalidHpack)
    else
      match RfcInt(buf, p)
      case Some((v, n)) => if n <= MAX_BYTES then Ok((v, n)) else Err(InvalidHpack)
      case None => if |buf| < MAX_BYTES then Panic else Err(InvalidHpack)
  }

  /** The octets end inside an integer, in fewer octets than the decoder takes. */
  predicate IsCut(buf: seq<byte>, p: nat) {
    && 1 <= p <= 8 && 0 < |buf| < MAX_BYTES
    && buf[0] % Pow2(p) == Pow2(p) - 1
    && forall i :: 1 <= i < |buf| ==> buf[i] >= 128
  }

  lemma {:induction false} TailIsCut(buf: seq<byte>)
    ensures RfcTail(buf) == None <==> forall i :: 0 <= i < |buf| ==> buf[i] >= 128
    decreases |buf|
  {
    if buf != [] {
      TailIsCut(buf[1..]);
      assert buf == [buf[0]] + buf[1..];
    }
  }

  /** Reading an integer indexes past the end of the octets if and only if it is cut off there. */
  lemma IntPanicsExact(buf: seq<byte>, p: nat)
    ensures IntResult(buf, p) == Panic <==> IsCut(buf, p)
  {
    if buf != [] {
      TailIsCut(buf[1..]);
      assert buf == [buf[0]] + buf[1..];
    }
  }

  /** The tail that starts at i, seen from a decoder that has read the octets before it. */
  ghost predicate Resumes(buf: seq<byte>, low: nat, ret: nat, i: nat, shift: nat)
    requires 1 <= i <= |buf|
  {
    match RfcTail(buf[1..])
    case None => RfcTail(buf[i..]) == None
    case Some((t, n)) =>
      && RfcTail(buf[i..]).Some?
      && RfcTail(buf[i..]).value.1 == n + 1 - i
      && low + t == ret + Shl(RfcTail(buf[i..]).value.0, shift)
  }

  lemma ResumeStep(buf: seq<byte>, low: nat, ret: nat, i: nat, shift: nat)
    requires 1 <= i < |buf|
    requires Resumes(buf, low, ret, i, shift)
    ensures var b := buf[i];
            if b < 128 then RfcTail(buf[1..]) == Some((ret + Shl(b % 128, shift) - low, i))
            else Resumes(buf, low, ret + Shl(b % 128, shift), i + 1, shift + 7)
  {
    var b := buf[i];
    assert buf[i..][1..] == buf[i + 1..];
    if b >= 128 {
      match RfcTail(buf[i + 1..])
      case None =>
      case Some((t, n)) => ShiftDigit(b - 128, t, shift);
    }
  }

  lemma ShiftDigit(d: nat, t: nat, shift: nat)
    ensures Shl(d + 128 * t, shift) == Shl(d, shift) + Shl(t, shift + 7)
  {
    ShlIsMul(d + 128 * t, shift);
    ShlIsMul(d, shift);
    ShlIsMul(t, shift + 7);
    Pow2Add(7, shift);
    assert Pow2(7) == 128;
    Distribute(d, 128 * t, Pow2(shift));
    Associate(t, 128, Pow2(shift));
  }

  method DecodeInt(buf: seq<byte>, prefixSize: nat) returns (r: Result<(nat, nat)>)
    ensures r == IntResult(buf, prefixSize)
  {
    if prefixSize < 1 || prefixSize > 8 {
      return Err(InvalidHpack);
    }
    if buf == [] {
      return Err(InvalidHpack);
    }
    var mask := Pow2(prefixSize) - 1;
    var ret: nat := buf[0] % Pow2(prefixSize);
    if ret < mask {
      return Ok((ret, 1));
    }
    ghost var low := ret;
    var bytes: nat := 1;
    var shift: nat := 0;
    while true
      invariant 1 <= bytes <= |buf| && bytes < MAX_BYTES
      invariant Resumes(buf, low, ret, bytes, shift)
      decreases MAX_BYTES - bytes
    {
      if bytes == |buf| {
        return Panic;
      }
      var b := buf[bytes];
      ResumeStep(buf, low, ret, bytes, shift);
      bytes := bytes + 1;
      ret := ret + Shl(b % 128, shift);
      shift := shift + 7;
      if b < 128 {
        return Ok((ret, bytes));
      }
      if bytes == MAX_BYTES {
        return Err(InvalidHpack);
      }
    }
  }

  lemma {:induction false} EncTailLength(v: nat, k: nat)
    ensures |EncTail(v)| <= k + 1 <==> v < Pow2(7 * k + 7)
    decreases k
  {
    assert Pow2(7) == 128;
    if k == 0 {
      if v >= 128 {
        assert |EncTail(v)| == 1 + |EncTail(v / 128)|;
      }
    } else {
      EncTailLength(v / 128, k - 1);
      Pow2Add(7 * k, 7);
      if v < 128 {
        Pow2Monotone(7, 7 * k + 7);
      } else {
        assert v < 128 * Pow2(7 * k) <==> v / 128 < Pow2(7 * k);
      }
    }
  }

  lemma TailFits(t: nat)
    ensures |EncTail(t)| <= 4 <==> t < 0x1000_0000
  {
    EncTailLength(t, 3);
    Pow2Values();
  }

  lemma EncIntLength(v: nat, p: nat, first: nat)
    requires IsFirst(first, p)
    ensures |EncInt(v, p, first)| <= MAX_BYTES <==> v < Pow2(p) - 1 + 0x1000_0000
  {
    if v >= Pow2(p) - 1 {
      TailFits(v - (Pow2(p) - 1));
    }
  }

  /**
   The server's decoder inverts its encoder exactly below 2^28 past the prefix, whatever octets
   follow; the encoding of every larger value is rejected.
  */
  lemma DecodeInvertsEncode(v: nat, p: nat, first: nat, rest: seq<byte>)
    requires IsFirst(first, p)
    ensures IntResult(EncInt(v, p, first) + rest, p) ==
            if v < Pow2(p) - 1 + 0x1000_0000 then Ok((v, |EncInt(v, p, first)|)) else Err(InvalidHpack)
  {
    RfcIntOfEnc(v, p, first, rest);
    EncIntLength(v, p, first);
  }
}
