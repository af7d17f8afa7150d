/** Writing header fields in the wire forms of section 6 of RFC 7541, and reading them back. */
module HpackFields {
  import opened Wrappers
  import opened Bits
  import opened HpackInt
  import opened HpackReference

  function StrBytes(s: seq<byte>): seq<byte> {
    EncInt(|s|, 7, 0) + s
  }

  /** The forms the server writes: no Huffman strings, no size updates. */
  predicate Writable(f: Field) {
    match f
    case Indexed(i) => true
    case Literal(indexing, name, value) =>
      && value.Plain?
      && (if name.ByText? then name.text.Plain? else !indexing && name.i > 0)
    case SizeUpdate(_) => false
  }

  function FieldBytes(f: Field): (s: seq<byte>)
    requires Writable(f)
    ensures s != []
  {
    match f
    case Indexed(i) => EncInt(i, 7, 0x80)
    case Literal(true, ByText(name), value) => EncInt(0, 6, 0x40) + (StrBytes(name.s) + StrBytes(value.s))
    case Literal(false, ByText(name), value) => [0] + (StrBytes(name.s) + StrBytes(value.s))
    case Literal(false, ByIndex(i), value) => EncInt(i, 4, 0) + StrBytes(value.s)
  }

  /** Small enough for five octets of integer. */
  const LIMIT: nat := 0x1000_0000

  predicate Short(f: Field)
    requires Writable(f)
  {
    match f
    case Indexed(i) => i < LIMIT
    case Literal(_, ByText(name), value) => |name.s| < LIMIT && |value.s| < LIMIT
    case Literal(_, ByIndex(i), value) => i < LIMIT && |value.s| < LIMIT
  }

  lemma IntReadsBack(maxInt: nat, v: nat, p: nat, first: nat, rest: seq<byte>)
    requires IsFirst(first, p) && maxInt >= MAX_BYTES && v < LIMIT
    ensures Int(maxInt, EncInt(v, p, first) + rest, p) == Some((v, |EncInt(v, p, first)|))
  {
    DecodeInvertsEncode(v, p, first, rest);
    RfcIntOfEnc(v, p, first, rest);
  }

  lemma StrReadsBack(maxInt: nat, s: seq<byte>, rest: seq<byte>)
    requires maxInt >= MAX_BYTES && |s| < LIMIT
    ensures Str(maxInt, StrBytes(s) + rest) == Some((Plain(s), |StrBytes(s)|))
  {
    var head := EncInt(|s|, 7, 0);
    var buf := StrBytes(s) + rest;
    assert IsFirst(0, 7) && Pow2(7) == 128;
    AppendAssoc(head, s, rest);
    IntReadsBack(maxInt, |s|, 7, 0, s + rest);
    assert buf[|head|..|head| + |s|] == s;
  }

  lemma TwoStrings(maxInt: nat, name: seq<byte>, value: seq<byte>, rest: seq<byte>)
    requires maxInt >= MAX_BYTES && |name| < LIMIT && |value| < LIMIT
    ensures var buf := (StrBytes(name) + StrBytes(value)) + rest;
            && Str(maxInt, buf) == Some((Plain(name), |StrBytes(name)|))
            && Str(maxInt, buf[|StrBytes(name)|..]) == Some((Plain(value), |StrBytes(value)|))
  {
    AppendAssoc(StrBytes(name), StrBytes(value), rest);
    StrReadsBack(maxInt, name, StrBytes(value) + rest);
    StrReadsBack(maxInt, value, rest);
    assert (StrBytes(name) + (StrBytes(value) + rest))[|StrBytes(name)|..] == StrBytes(value) + rest;
  }

  /** A literal: what follows its first integer reads as its strings. */
  lemma LiteralReadsBack(maxInt: nat, head: seq<byte>, i: nat, p: nat, indexing: bool, tail: seq<byte>, name: OutStr,
          value: OutStr)
    requires Int(maxInt, head + tail, p) == Some((i, |head|))
    requires i != 0 ==> Str(maxInt, tail).Some? && Str(maxInt, tail).value.0 == value
    requires i == 0 ==> Str(maxInt, tail).Some? && Str(maxInt, tail).value.0 == name
                        && Str(maxInt, tail[Str(maxInt, tail).value.1..]).Some?
                        && Str(maxInt, tail[Str(maxInt, tail).value.1..]).value.0 == value
    ensures var n1 := Str(maxInt, tail).value.1;
            LiteralField(maxInt, head + tail, p, indexing) ==
            if i != 0 then Some((Literal(indexing, ByIndex(i), value), |head| + n1))
            else Some((Literal(indexing, ByText(name), value), |head| + n1 + Str(maxInt, tail[n1..]).value.1))
  {
    var buf := head + tail;
    assert buf[|head|..] == tail;
    var n1 := Str(maxInt, tail).value.1;
    assert buf[|head| + n1..] == tail[n1..];
  }

  /** A literal whose name is a string, after a first octet that holds the index 0. */
  lemma TextReadsBack(maxInt: nat, indexing: bool, first: byte, p: nat, name: seq<byte>, value: seq<byte>,
          rest: seq<byte>)
    requires maxInt >= MAX_BYTES && |name| < LIMIT && |value| < LIMIT
    requires IsFirst(first, p) && p > 1
    ensures var body := [first] + (StrBytes(name) + StrBytes(value));
            LiteralField(maxInt, body + rest, p, indexing) ==
              Some((Literal(indexing, ByText(Plain(name)), Plain(value)), |body|))
  {
    var strings := StrBytes(name) + StrBytes(value);
    var tail := strings + rest;
    AppendAssoc([first], strings, rest);
    TwoStrings(maxInt, name, value, rest);
    assert EncInt(0, p, first) == [first];
    IntReadsBack(maxInt, 0, p, first, tail);
    LiteralReadsBack(maxInt, [first], 0, p, indexing, tail, Plain(name), Plain(value));
  }

  lemma TextLiteralReadsBack(maxInt: nat, indexing: bool, name: seq<byte>, value: seq<byte>, rest: seq<byte>)
    requires maxInt >= MAX_BYTES && |name| < LIMIT && |value| < LIMIT
    ensures var f := Literal(indexing, ByText(Plain(name)), Plain(value));
            ParseField(maxInt, FieldBytes(f) + rest) == Some((f, |FieldBytes(f)|))
  {
    assert Pow2(4) == 16 && Pow2(6) == 64;
    if indexing {
      assert EncInt(0, 6, 0x40) == [0x40];
      TextReadsBack(maxInt, true, 0x40, 6, name, value, rest);
    } else {
      TextReadsBack(maxInt, false, 0, 4, name, value, rest);
    }
  }

  lemma IndexLiteralReadsBack(maxInt: nat, i: nat, value: seq<byte>, rest: seq<byte>)
    requires maxInt >= MAX_BYTES && 0 < i < LIMIT && |value| < LIMIT
    ensures var f := Literal(false, ByIndex(i), Plain(value));
            ParseField(maxInt, FieldBytes(f) + rest) == Some((f, |FieldBytes(f)|))
  {
    assert Pow2(4) == 16;
    var head := EncInt(i, 4, 0);
    AppendAssoc(head, StrBytes(value), rest);
    StrReadsBack(maxInt, value, rest);
    IntReadsBack(maxInt, i, 4, 0, StrBytes(value) + rest);
    LiteralReadsBack(maxInt, head, i, 4, false, StrBytes(value) + rest, Plain(value), Plain(value));
  }

  /** Every written field reads back as itself, whatever follows it. */
  lemma FieldReadsBack(maxInt: nat, f: Field, rest: seq<byte>)
    requires maxInt >= MAX_BYTES && Writable(f) && Short(f)
    ensures ParseField(maxInt, FieldBytes(f) + rest) == Some((f, |FieldBytes(f)|))
  {
    match f
    case Indexed(i) =>
      assert Pow2(7) == 128;
      IntReadsBack(maxInt, i, 7, 0x80, rest);
    case Literal(indexing, ByText(name), value) =>
      TextLiteralReadsBack(maxInt, indexing, name.s, value.s, rest);
    case Literal(_, ByIndex(i), value) =>
      IndexLiteralReadsBack(maxInt, i, value.s, rest);
  }

  // ---------------------------------------------------------------- blocks

  predicate AllWritable(fs: seq<Field>) {
    forall i :: 0 <= i < |fs| ==> Writable(fs[i])
  }

  predicate AllShort(fs: seq<Field>)
    requires AllWritable(fs)
  {
    forall i :: 0 <= i < |fs| ==> Short(fs[i])
  }

  function BlockBytes(fs: seq<Field>): seq<byte>
    requires AllWritable(fs)
  {
    if fs == [] then [] else FieldBytes(fs[0]) + BlockBytes(fs[1..])
  }

  function ApplyAll(std: Standard, p: Peer, fs: seq<Field>): Option<(Peer, seq<Header>)>
    requires |std.huffman| == 257 && |std.statics| == STATIC_LEN
    decreases |fs|
  {
    if fs == [] then Some((p, []))
    else
      match Apply(std, p, fs[0])
      case None => None
      case Some((p', h)) =>
        match ApplyAll(std, p', fs[1..])
        case None => None
        case Some((p'', rest)) => Some((p'', Cons(h, rest)))
  }

  /** Decoding the octets of a block is applying its fields. */
  lemma {:induction false} BlockReadsBack(std: Standard, p: Peer, fs: seq<Field>)
    requires |std.huffman| == 257 && |std.statics| == STATIC_LEN && std.maxInt >= MAX_BYTES
    requires AllWritable(fs) && AllShort(fs)
    ensures DecodeBlock(std, p, BlockBytes(fs)) == ApplyAll(std, p, fs)
    decreases |fs|
  {
    if fs != [] {
      var rest := BlockBytes(fs[1..]);
      FieldReadsBack(std.maxInt, fs[0], rest);
      assert (FieldBytes(fs[0]) + rest)[|FieldBytes(fs[0])|..] == rest;
      match Apply(std, p, fs[0])
      case None =>
      case Some((p', h)) => BlockReadsBack(std, p', fs[1..]);
    }
  }

  lemma {:induction false} BlockBytesAppend(a: seq<Field>, b: seq<Field>)
    requires AllWritable(a) && AllWritable(b)
    ensures AllWritable(a + b) && BlockBytes(a + b) == BlockBytes(a) + BlockBytes(b)
    decreases |a|
  {
    if a == [] {
      assert a + b == b;
    } else {
      assert a + b == [a[0]] + (a[1..] + b);
      assert (a + b)[1..] == a[1..] + b;
      BlockBytesAppend(a[1..], b);
      assert BlockBytes(a + b) == FieldBytes(a[0]) + BlockBytes(a[1..] + b);
      AppendAssoc(FieldBytes(a[0]), BlockBytes(a[1..]), BlockBytes(b));
    }
  }
}
