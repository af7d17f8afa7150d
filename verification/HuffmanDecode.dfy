/**
 The Huffman decoder (pajamax/src/huffman/mod.rs): an automaton that walks the code tree four bits
 at a time. Its states are the inner nodes of the tree, here the bits read since the last symbol.
*/
module HuffmanDecode {
  import opened Wrappers
  import opened Bits
  import opened Huffman

  /** The symbol, counted from i on, whose code word is w. */
  function SymbolFrom(c: Code, w: seq<bool>, i: nat): (r: Option<nat>)
    requires i <= |c|
    ensures r.Some? ==> i <= r.value < |c| && CodeBits(c, r.value) == w
    ensures r.None? ==> forall j :: i <= j < |c| ==> CodeBits(c, j) != w
    decreases |c| - i
  {
    if i == |c| then None
    else if CodeBits(c, i) == w then Some(i)
    else SymbolFrom(c, w, i + 1)
  }

  /** A node of the code tree with further symbols below it. */
  predicate Inner(c: Code, w: seq<bool>) {
    exists i :: 0 <= i < |c| && w < CodeBits(c, i)
  }

  datatype Walked = Dead | At(node: seq<bool>, out: seq<byte>)

  /** One bit down the tree; a completed symbol goes back to the root. */
  function WalkBit(c: Code, node: seq<bool>, b: bool): Walked
    requires |c| == 257
  {
    var w := node + [b];
    match SymbolFrom(c, w, 0)
    case Some(sym) => if sym == EOS then Dead else At([], [sym])
    case None => if Inner(c, w) then At(w, []) else Dead
  }

  function Walk(c: Code, node: seq<bool>, bits: seq<bool>): Walked
    requires |c| == 257
    decreases |bits|
  {
    if bits == [] then At(node, [])
    else
      match WalkBit(c, node, bits[0])
      case Dead => Dead
      case At(n, o) => Then(o, Walk(c, n, bits[1..]))
  }

  function Then(out: seq<byte>, w: Walked): Walked {
    match w
    case Dead => Dead
    case At(n, o) => At(n, out + o)
  }

  lemma {:induction false} WalkAppend(c: Code, node: seq<bool>, a: seq<bool>, b: seq<bool>)
    requires |c| == 257
    ensures Walk(c, node, a + b) ==
            match Walk(c, node, a) case Dead => Dead case At(n, o) => Then(o, Walk(c, n, b))
    decreases |a|
  {
    if a == [] {
      assert a + b == b;
    } else {
      assert (a + b)[1..] == a[1..] + b;
      match WalkBit(c, node, a[0])
      case Dead =>
      case At(n, o) =>
        WalkAppend(c, n, a[1..], b);
        match Walk(c, n, a[1..])
        case Dead =>
        case At(n1, o1) =>
          match Walk(c, n1, b)
          case Dead =>
          case At(n2, o2) => assert o + (o1 + o2) == (o + o1) + o2;
    }
  }

  lemma {:induction false} CodesAppend(c: Code, a: seq<byte>, b: seq<byte>)
    requires |c| == 257
    ensures Codes(c, a + b) == Codes(c, a) + Codes(c, b)
    decreases |b|
  {
    if b == [] {
      assert a + b == a;
    } else {
      var b' := b[..|b| - 1];
      assert (a + b)[..|a + b| - 1] == a + b';
      CodesAppend(c, a, b');
      AppendAssoc(Codes(c, a), Codes(c, b'), CodeBits(c, b[|b| - 1]));
    }
  }

  lemma CodesOne(c: Code, sym: byte)
    requires |c| == 257
    ensures Codes(c, [sym]) == CodeBits(c, sym)
  {
    assert Codes(c, [sym]) == Codes(c, []) + CodeBits(c, sym);
  }

  lemma RootIsInner(c: Code)
    requires ValidLengths(c)
    ensures Inner(c, [])
  {
    assert [] < CodeBits(c, 0);
  }

  lemma WalkBitSound(c: Code, node: seq<bool>, b: bool)
    requires ValidLengths(c)
    ensures var w := WalkBit(c, node, b);
            w.At? ==> node + [b] == Codes(c, w.out) + w.node && Inner(c, w.node)
  {
    RootIsInner(c);
    match SymbolFrom(c, node + [b], 0)
    case Some(sym) =>
      if sym != EOS {
        CodesOne(c, sym);
        assert CodeBits(c, sym) == CodeBits(c, sym) + [];
      }
    case None =>
      assert Codes(c, []) + (node + [b]) == node + [b];
  }

  /** What a walk has eaten is the code words of what it put out, and the node it stands on. */
  lemma {:induction false} WalkSound(c: Code, node: seq<bool>, bits: seq<bool>)
    requires ValidLengths(c)
    requires Inner(c, node)
    ensures var w := Walk(c, node, bits);
            w.At? ==> node + bits == Codes(c, w.out) + w.node && Inner(c, w.node)
    decreases |bits|
  {
    if bits == [] {
      assert Codes(c, []) + node == node + bits;
    } else {
      WalkBitSound(c, node, bits[0]);
      match WalkBit(c, node, bits[0])
      case Dead =>
      case At(n, o) =>
        WalkSound(c, n, bits[1..]);
        match Walk(c, n, bits[1..])
        case Dead =>
        case At(n', out) =>
          CodesAppend(c, o, out);
          Regroup(node, bits, Codes(c, o), n, Codes(c, out), n');
    }
  }

  lemma Regroup(node: seq<bool>, bits: seq<bool>, o: seq<bool>, n: seq<bool>, out: seq<bool>, n': seq<bool>)
    requires bits != []
    requires node + [bits[0]] == o + n && n + bits[1..] == out + n'
    ensures node + bits == (o + out) + n'
  {
    assert node + bits == (node + [bits[0]]) + bits[1..];
    assert (o + n) + bits[1..] == o + (n + bits[1..]);
    assert o + (out + n') == (o + out) + n';
  }

  /** On the way to a symbol there is no other symbol. */
  lemma OnlySymbol(c: Code, w: seq<bool>, sym: nat)
    requires ValidCode(c) && sym < 257
    requires w <= CodeBits(c, sym)
    ensures SymbolFrom(c, w, 0) == if w == CodeBits(c, sym) then Some(sym) else None
  {
    var found := SymbolFrom(c, w, 0);
    if found.Some? {
      assert CodeBits(c, found.value) == w;
    }
  }

  lemma {:induction false} WalkTowards(c: Code, node: seq<bool>, rest: seq<bool>, sym: nat)
    requires ValidCode(c) && sym < 257
    requires node + rest < CodeBits(c, sym)
    ensures Walk(c, node, rest) == At(node + rest, [])
    decreases |rest|
  {
    if rest == [] {
      assert node + rest == node;
    } else {
      var node' := node + [rest[0]];
      assert node' + rest[1..] == node + rest;
      assert node' == (node + rest)[..|node'|];
      OnlySymbol(c, node', sym);
      WalkTowards(c, node', rest[1..], sym);
    }
  }

  /** A code word from the root yields its symbol and is back at the root. */
  lemma WalkSymbol(c: Code, sym: byte)
    requires ValidCode(c)
    ensures Walk(c, [], CodeBits(c, sym)) == At([], [sym])
  {
    var w := CodeBits(c, sym);
    var pre, last := w[..|w| - 1], w[|w| - 1];
    assert [] + pre == pre;
    WalkTowards(c, [], pre, sym);
    assert w == pre + [last];
    OnlySymbol(c, w, sym);
    WalkOne(c, pre, last);
    WalkAppend(c, [], pre, [last]);
  }

  lemma WalkOne(c: Code, node: seq<bool>, b: bool)
    requires |c| == 257
    ensures Walk(c, node, [b]) == WalkBit(c, node, b)
  {
    assert [b][1..] == [];
    match WalkBit(c, node, b)
    case Dead =>
    case At(n, o) =>
      assert Walk(c, n, []) == At(n, []);
      assert o + [] == o;
  }

  lemma WalkThen(c: Code, a: seq<bool>, b: seq<bool>, s: seq<byte>, t: seq<byte>)
    requires |c| == 257
    requires Walk(c, [], a) == At([], s) && Walk(c, [], b) == At([], t)
    ensures Walk(c, [], a + b) == At([], s + t)
  {
    WalkAppend(c, [], a, b);
  }

  /** One more code word, if what comes before leads to the root and it does so too. */
  lemma WalkSnoc(c: Code, s: seq<byte>, sym: byte)
    requires |c| == 257
    requires Walk(c, [], Codes(c, s)) == At([], s) && Walk(c, [], CodeBits(c, sym)) == At([], [sym])
    ensures Walk(c, [], Codes(c, s + [sym])) == At([], s + [sym])
  {
    assert (s + [sym])[..|s|] == s;
    WalkThen(c, Codes(c, s), CodeBits(c, sym), s, [sym]);
  }

  /** The code words of s lead from the root to the root and yield s. */
  lemma {:induction false} WalkCodes(c: Code, s: seq<byte>)
    requires ValidCode(c)
    ensures Walk(c, [], Codes(c, s)) == At([], s)
    decreases |s|
  {
    if s != [] {
      var s', last := s[..|s| - 1], s[|s| - 1];
      assert s' + [last] == s;
      WalkCodes(c, s');
      WalkSymbol(c, last);
      WalkSnoc(c, s', last);
    }
  }

  /** The padding a decoder accepts: one to seven ones, the start of the end-of-string code. */
  predicate IsPadding(node: seq<bool>) {
    1 <= |node| <= 7 && node == Ones(|node|)
  }

  /** Huffman decoding as one walk over all the bits. */
  function Decoded(c: Code, x: seq<byte>): Option<seq<byte>>
    requires |c| == 257
  {
    match Walk(c, [], Unpack(x))
    case Dead => None
    case At(node, out) => if node == [] || IsPadding(node) then Some(out) else None
  }

  /**
   Decoding inverts encoding, and only the one encoding of a string decodes to it: every accepted
   input is canonical.
  */
  lemma DecodeIffEncode(c: Code, x: seq<byte>, s: seq<byte>)
    requires ValidCode(c)
    ensures Decoded(c, x) == Some(s) <==> Encoded(c, s) == x
  {
    if Encoded(c, s) == x {
      EncodedDecodes(c, s);
    }
    if Decoded(c, x) == Some(s) {
      RootIsInner(c);
      WalkSound(c, [], Unpack(x));
      var node := Walk(c, [], Unpack(x)).node;
      assert [] + Unpack(x) == Unpack(x);
      assert Unpack([]) + (Codes(c, s) + Ones(|node|)) == Unpack(x) by {
        assert node == Ones(|node|);
      }
      PaddingIsUnique(c, s, [], x, |node|);
    }
  }

  lemma EncodedDecodes(c: Code, s: seq<byte>)
    requires ValidCode(c)
    ensures Decoded(c, Encoded(c, s)) == Some(s)
  {
    var bits := Codes(c, s);
    var k := PadLen(|bits|);
    UnpackPack(bits + Ones(k));
    WalkCodes(c, s);
    WalkPadding(c, k);
    WalkAppend(c, [], bits, Ones(k));
    assert s + [] == s;
  }

  lemma OnesArePrefix(k: nat, n: nat)
    requires k < n
    ensures Ones(k) < BitsOf(Pow2(n) - 1, n)
  {
    BitsOfAllOnes(n);
    assert Ones(k) == Ones(n)[..k];
  }

  lemma EosStartsWithOnes(c: Code, k: nat)
    requires |c| == 257 && k < c[EOS].nbits && c[EOS].code == Pow2(c[EOS].nbits) - 1
    ensures [] + Ones(k) == Ones(k)
    ensures [] + Ones(k) < CodeBits(c, EOS)
  {
    OnesArePrefix(k, c[EOS].nbits);
    assert [] + Ones(k) == Ones(k);
  }

  lemma WalkPadding(c: Code, k: nat)
    requires ValidCode(c) && k < 30
    ensures Walk(c, [], Ones(k)) == At(Ones(k), [])
  {
    EosStartsWithOnes(c, k);
    WalkTowards(c, [], Ones(k), EOS);
  }

  // ---------------------------------------------------------------- the nibble automaton

  /** A row of the decoding table. */
  datatype Row = ErrorRow | Row(next: seq<bool>, decoded: Option<byte>, maybeEos: bool)

  /** The row for a state and four bits of input: it has room for one decoded octet only. */
  function TableRow(c: Code, state: seq<bool>, input: nat): Row
    requires |c| == 257
  {
    match Walk(c, state, BitsOf(input, 4))
    case Dead => ErrorRow
    case At(next, out) => Row(next, if out == [] then None else Some(out[0]), IsPadding(next))
  }

  lemma {:induction false} CodesAtLeast(c: Code, s: seq<byte>)
    requires ValidLengths(c)
    ensures |Codes(c, s)| >= 5 * |s|
  {
    if s != [] {
      CodesAtLeast(c, s[..|s| - 1]);
    }
  }

  /** Code words have five bits or more, so four bits complete at most one symbol. */
  lemma {:induction false} AtMostOne(c: Code, state: seq<bool>, bits: seq<bool>)
    requires ValidLengths(c) && Inner(c, state) && |bits| <= 4
    ensures Walk(c, state, bits).At? ==> |Walk(c, state, bits).out| <= 1
    decreases |bits|
  {
    if bits != [] {
      match WalkBit(c, state, bits[0])
      case Dead =>
      case At(n, o) =>
        var rest := Walk(c, n, bits[1..]);
        if rest.At? {
          if o == [] {
            AtMostOne(c, n, bits[1..]);
          } else {
            RootIsInner(c);
            WalkSound(c, [], bits[1..]);
            CodesAtLeast(c, rest.out);
          }
        }
    }
  }

  class Decoder {
    var state: seq<bool>
    var maybeEos: bool

    constructor ()
      ensures state == [] && !maybeEos
    {
      state := [];
      maybeEos := false;
    }

    method Decode4(c: Code, input: nat) returns (r: Result<Option<byte>>)
      requires |c| == 257
      modifies this
      ensures TableRow(c, old(state), input).ErrorRow? ==> r == Err(InvalidHuffman)
      ensures var row := TableRow(c, old(state), input);
              row.Row? ==> r == Ok(row.decoded) && state == row.next && maybeEos == row.maybeEos
    {
      match TableRow(c, state, input)
      case ErrorRow =>
        // Data followed the end-of-string marker.
        r := Err(InvalidHuffman);
      case Row(next, decoded, flag) =>
        state := next;
        maybeEos := flag;
        r := Ok(decoded);
    }

    predicate IsFinal()
      reads this
    {
      state == [] || maybeEos
    }
  }

  function ToResult(r: Option<seq<byte>>): Result<seq<byte>> {
    match r
    case Some(s) => Ok(s)
    case None => Err(InvalidHuffman)
  }

  /** Where the automaton stands after a prefix of the input. */
  ghost predicate Reached(c: Code, bits: seq<bool>, state: seq<bool>, maybeEos: bool, out: seq<byte>)
    requires |c| == 257
  {
    && Walk(c, [], bits) == At(state, out)
    && Inner(c, state)
    && (state != [] ==> maybeEos == IsPadding(state))
  }

  function Push(buf: seq<byte>, b: Option<byte>): seq<byte> {
    if b.Some? then buf + [b.value] else buf
  }

  lemma RowIsWalk(c: Code, state: seq<bool>, input: nat, out: seq<byte>)
    requires ValidLengths(c) && Inner(c, state)
    ensures var row := TableRow(c, state, input);
            var w := Walk(c, state, BitsOf(input, 4));
            if row.ErrorRow? then w == Dead
            else w.At? && row.next == w.node && Inner(c, w.node) && row.maybeEos == IsPadding(w.node)
                 && out + w.out == Push(out, row.decoded)
  {
    var bits := BitsOf(input, 4);
    WalkSound(c, state, bits);
    AtMostOne(c, state, bits);
    match Walk(c, state, bits)
    case Dead =>
    case At(_, more) =>
      OneOrNone(out, more);
  }

  lemma OneOrNone(out: seq<byte>, more: seq<byte>)
    requires |more| <= 1
    ensures out + more == Push(out, if more == [] then None else Some(more[0]))
  {
    assert more == [] || more == [more[0]];
  }

  lemma NibbleStep(c: Code, bits: seq<bool>, state: seq<bool>, maybeEos: bool, out: seq<byte>, input: nat)
    requires ValidLengths(c)
    requires Reached(c, bits, state, maybeEos, out)
    ensures var row := TableRow(c, state, input);
            var bits' := bits + BitsOf(input, 4);
            if row.ErrorRow? then Walk(c, [], bits') == Dead
            else Reached(c, bits', row.next, row.maybeEos, Push(out, row.decoded))
  {
    WalkAppend(c, [], bits, BitsOf(input, 4));
    RowIsWalk(c, state, input, out);
  }

  /** Both nibbles of an octet. */
  method DecodeOctet(c: Code, decoder: Decoder, b: byte, buf0: seq<byte>, ghost pre: seq<bool>)
    returns (r: Result<seq<byte>>)
    requires ValidLengths(c) && Reached(c, pre, decoder.state, decoder.maybeEos, buf0)
    modifies decoder
    ensures r.Ok? ==> Reached(c, pre + BitsOf(b, 8), decoder.state, decoder.maybeEos, r.value)
    ensures !r.Ok? ==> r == Err(InvalidHuffman) && Walk(c, [], pre + BitsOf(b, 8)) == Dead
  {
    ghost var hiBits, loBits := BitsOf(b / 16, 4), BitsOf(b % 16, 4);
    OctetNibbles(b);
    AppendAssoc(pre, hiBits, loBits);
    NibbleStep(c, pre, decoder.state, decoder.maybeEos, buf0, b / 16);
    var hi := decoder.Decode4(c, b / 16);
    if hi.Err? {
      DeadStays(c, pre + hiBits, loBits);
      return Err(hi.error);
    }
    var buf := Push(buf0, hi.value);
    NibbleStep(c, pre + hiBits, decoder.state, decoder.maybeEos, buf, b % 16);
    var lo := decoder.Decode4(c, b % 16);
    if lo.Err? {
      return Err(lo.error);
    }
    return Ok(Push(buf, lo.value));
  }

  /** The decoder of the source, nibble by nibble, computes the walk over all bits. */
  method Decode(c: Code, src: seq<byte>) returns (r: Result<seq<byte>>)
    requires ValidLengths(c)
    ensures r == ToResult(Decoded(c, src))
  {
    var decoder := new Decoder();
    var buf: seq<byte> := [];
    RootIsInner(c);
    var i := 0;
    while i < |src|
      invariant 0 <= i <= |src|
      invariant Reached(c, Unpack(src[..i]), decoder.state, decoder.maybeEos, buf)
      modifies decoder
    {
      UnpackTo(src, i);
      var step := DecodeOctet(c, decoder, src[i], buf, Unpack(src[..i]));
      if !step.Ok? {
        DeadIsNone(c, src, Unpack(src[..i + 1]), Unpack(src[i + 1..]));
        return step;
      }
      buf := step.value;
      i := i + 1;
    }
    assert src[..i] == src;
    var final := decoder.IsFinal();
    if !final {
      return Err(InvalidHuffman);
    }
    return Ok(buf);
  }

  /** Once the automaton is dead, the whole string is refused. */
  lemma DeadIsNone(c: Code, src: seq<byte>, bits: seq<bool>, more: seq<bool>)
    requires |c| == 257 && Walk(c, [], bits) == Dead && Unpack(src) == bits + more
    ensures Decoded(c, src) == None
  {
    DeadStays(c, bits, more);
  }

  lemma CutAt(s: seq<byte>, i: nat)
    requires i < |s|
    ensures s[..i + 1] == s[..i] + [s[i]] && s == s[..i + 1] + s[i + 1..]
  {}

  lemma UnpackTo(src: seq<byte>, i: nat)
    requires i < |src|
    ensures Unpack(src[..i + 1]) == Unpack(src[..i]) + BitsOf(src[i], 8)
    ensures Unpack(src) == Unpack(src[..i + 1]) + Unpack(src[i + 1..])
  {
    CutAt(src, i);
    UnpackSnoc(src[..i], src[i]);
    UnpackAppend(src[..i + 1], src[i + 1..]);
  }

  lemma DeadStays(c: Code, a: seq<bool>, b: seq<bool>)
    requires |c| == 257 && Walk(c, [], a) == Dead
    ensures Walk(c, [], a + b) == Dead
  {
    WalkAppend(c, [], a, b);
  }

  lemma OctetNibbles(b: byte)
    ensures BitsOf(b, 8) == BitsOf(b / 16, 4) + BitsOf(b % 16, 4)
  {
    assert Pow2(4) == 16;
    BitsOfConcat(b / 16, 4, b % 16, 4);
  }
}
