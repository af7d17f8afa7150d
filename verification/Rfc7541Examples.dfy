/**
 Examples of appendix C of RFC 7541, with the tables of the standard: they hold the reference decoder to
 the text of the standard, apart from the server.
*/
module Rfc7541Examples {
  import opened Wrappers
  import opened Bits
  import opened HpackInt
  import opened HpackReference
  import opened HpackFields
  import Rfc7541

  /** C.1.1 to C.1.3. */
  lemma Integers()
    ensures EncInt(10, 5, 0) == [0x0a]
    ensures EncInt(1337, 5, 0) == [0x1f, 0x9a, 0x0a]
    ensures EncInt(42, 8, 0) == [0x2a]
  {
    assert Pow2(5) == 32 && Pow2(8) == 256;
    assert EncTail(10) == [10];
    assert EncTail(1306) == [0x9a] + EncTail(10);
  }

  // ---------------------------------------------------------------- fields of one block

  ghost predicate Sized(std: Standard) {
    |std.huffman| == 257 && |std.statics| == STATIC_LEN && std.maxInt == MAX_BYTES
  }

  /** A block that is read, with these headers and this table after it. */
  ghost predicate Reads(std: Standard, p: Peer, block: seq<byte>, q: Peer, hs: seq<Header>)
    requires Sized(std)
  {
    DecodeBlock(std, p, block) == Some((q, hs))
  }

  lemma TakeField(std: Standard, p: Peer, buf: seq<byte>, f: Field, n: nat, p1: Peer, h: Header, q: Peer,
          hs: seq<Header>)
    requires Sized(std) && buf != [] && n <= |buf| && ParseField(MAX_BYTES, buf) == Some((f, n))
    requires Apply(std, p, f) == Some((p1, Some(h))) && Reads(std, p1, buf[n..], q, hs)
    ensures Reads(std, p, buf, q, [h] + hs)
  {}

  lemma TakeIndex(std: Standard, p: Peer, i: byte, h: Header, rest: seq<byte>, q: Peer, hs: seq<Header>)
    requires Sized(std) && 0 < i < 127 && Lookup(std.statics, p, i) == Some(h) && Reads(std, p, rest, q, hs)
    ensures Reads(std, p, [128 + i] + rest, q, [h] + hs)
  {
    var buf := [128 + i] + rest;
    assert EncInt(i, 7, 0x80) == [128 + i] by {
      assert Pow2(7) == 128;
    }
    FieldReadsBack(MAX_BYTES, Indexed(i), rest);
    assert buf[1..] == rest;
    TakeField(std, p, buf, Indexed(i), 1, p, h, q, hs);
  }

  /** A short string on the wire. */
  function ShortStr(text: seq<byte>): seq<byte>
    requires |text| < 127
  {
    [|text|] + text
  }

  lemma ShortIsString(text: seq<byte>)
    requires |text| < 127
    ensures StrBytes(text) == ShortStr(text)
  {
    assert Pow2(7) == 128;
  }

  lemma ParseNamed(i: byte, value: seq<byte>)
    requires 0 < i < 63 && |value| < 127
    ensures var buf := [64 + i] + ShortStr(value);
            ParseField(MAX_BYTES, buf) == Some((Literal(true, ByIndex(i), Plain(value)), |buf|))
  {
    var tail := ShortStr(value);
    assert Pow2(6) == 64;
    assert EncInt(i, 6, 0x40) == [64 + i];
    ShortIsString(value);
    IntReadsBack(MAX_BYTES, i, 6, 0x40, tail);
    StrReadsBack(MAX_BYTES, value, []);
    assert tail + [] == tail;
    LiteralReadsBack(MAX_BYTES, [64 + i], i, 6, true, tail, Plain(value), Plain(value));
  }

  lemma ParseNew(name: seq<byte>, value: seq<byte>)
    requires |name| < 127 && |value| < 127
    ensures var buf := [64] + (ShortStr(name) + ShortStr(value));
            ParseField(MAX_BYTES, buf) == Some((Literal(true, ByText(Plain(name)), Plain(value)), |buf|))
  {
    var f := Literal(true, ByText(Plain(name)), Plain(value));
    assert EncInt(0, 6, 0x40) == [64] by {
      assert Pow2(6) == 64;
    }
    ShortIsString(name);
    ShortIsString(value);
    FieldReadsBack(MAX_BYTES, f, []);
    assert FieldBytes(f) + [] == FieldBytes(f);
  }

  /** A literal with indexing that is the whole block. */
  lemma TakeLast(std: Standard, p: Peer, buf: seq<byte>, f: Field, h: Header, q: Peer)
    requires Sized(std) && buf != [] && ParseField(MAX_BYTES, buf) == Some((f, |buf|))
    requires Apply(std, p, f) == Some((q, Some(h)))
    ensures Reads(std, p, buf, q, [h])
  {
    assert buf[|buf|..] == [];
    TakeField(std, p, buf, f, |buf|, q, h, q, []);
    assert [h] + [] == [h];
  }

  /** Indexing under the name of an entry of the static table. */
  lemma TakeNamed(std: Standard, p: Peer, i: byte, h: Header, q: Peer)
    requires Sized(std) && 0 < i <= STATIC_LEN && std.statics[i - 1].name == h.name && |h.value| < 127
    requires Insert(p, h) == q
    ensures Reads(std, p, [64 + i] + ShortStr(h.value), q, [h])
  {
    ParseNamed(i, h.value);
    TakeLast(std, p, [64 + i] + ShortStr(h.value), Literal(true, ByIndex(i), Plain(h.value)), h, q);
  }

  /** Indexing with a new name. */
  lemma TakeNew(std: Standard, p: Peer, h: Header, q: Peer)
    requires Sized(std) && |h.name| < 127 && |h.value| < 127 && Insert(p, h) == q
    ensures Reads(std, p, [64] + (ShortStr(h.name) + ShortStr(h.value)), q, [h])
  {
    ParseNew(h.name, h.value);
    var f := Literal(true, ByText(Plain(h.name)), Plain(h.value));
    TakeLast(std, p, [64] + (ShortStr(h.name) + ShortStr(h.value)), f, h, q);
  }

  lemma ThreeFirst<T>(a: T, b: T, c: T, rest: seq<T>)
    ensures [a] + ([b] + ([c] + rest)) == [a, b, c] + rest
  {}

  /** Three indexed fields of the static table, before the rest. */
  lemma TakeThree(std: Standard, p: Peer, i: byte, a: Header, j: byte, b: Header, k: byte, c: Header, rest: seq<byte>,
          q: Peer, hs: seq<Header>)
    requires Sized(std) && 0 < i <= STATIC_LEN && 0 < j <= STATIC_LEN && 0 < k <= STATIC_LEN
    requires std.statics[i - 1] == a && std.statics[j - 1] == b && std.statics[k - 1] == c
    requires Reads(std, p, rest, q, hs)
    ensures Reads(std, p, [128 + i, 128 + j, 128 + k] + rest, q, [a, b, c] + hs)
  {
    TakeIndex(std, p, k, c, rest, q, hs);
    TakeIndex(std, p, j, b, [128 + k] + rest, q, [c] + hs);
    TakeIndex(std, p, i, a, [128 + j] + ([128 + k] + rest), q, [b] + ([c] + hs));
    ThreeFirst(128 + i, 128 + j, 128 + k, rest);
    ThreeFirst(a, b, c, hs);
  }

  /** A new entry, before those there are. */
  lemma NewEntry(table: seq<Header>, h: Header)
    requires Size(table) + |h.name| + |h.value| + 32 <= TABLE_SIZE
    ensures Insert(Peer(table, TABLE_SIZE), h) == Peer([h] + table, TABLE_SIZE)
    ensures Size([h] + table) == Size(table) + |h.name| + |h.value| + 32
  {
    assert ([h] + table)[1..] == table;
  }

  // ---------------------------------------------------------------- C.3, three requests

  function Text(name: string, value: string): Header {
    Header(Ascii(name), Ascii(value))
  }

  /** The rows of the static table that are used. */
  ghost predicate HasRows(std: Standard)
    requires Sized(std)
  {
    && std.statics[0].name == Ascii(":authority")
    && std.statics[1] == Text(":method", "GET")
    && std.statics[3] == Text(":path", "/")
    && std.statics[4] == Text(":path", "/index.html")
    && std.statics[5] == Text(":scheme", "http")
    && std.statics[6] == Text(":scheme", "https")
    && std.statics[23].name == Ascii("cache-control")
  }

  lemma First(std: Standard, host: Header, a: Header, b: Header, c: Header)
    requires Sized(std) && std.statics[1] == a && std.statics[5] == b && std.statics[3] == c
    requires std.statics[0].name == host.name && |host.value| < 127 && Size([]) + |host.name| + |host.value| < 4000
    ensures Reads(std, EMPTY, [0x82, 0x86, 0x84] + ([0x41] + ShortStr(host.value)), Peer([host], TABLE_SIZE),
              [a, b, c, host])
  {
    NewEntry([], host);
    assert [host] + [] == [host];
    TakeNamed(std, EMPTY, 1, host, Peer([host], TABLE_SIZE));
    TakeThree(std, EMPTY, 2, a, 6, b, 4, c, [0x41] + ShortStr(host.value), Peer([host], TABLE_SIZE), [host]);
    assert [a, b, c] + [host] == [a, b, c, host];
  }

  lemma SecondTail(std: Standard, host: Header, cache: Header)
    requires Sized(std) && std.statics[23].name == cache.name && |cache.value| < 127
    requires Size([host]) + |cache.name| + |cache.value| < 4000
    ensures Reads(std, Peer([host], TABLE_SIZE), [0xbe] + ([0x58] + ShortStr(cache.value)),
              Peer([cache, host], TABLE_SIZE), [host, cache])
  {
    var p, q := Peer([host], TABLE_SIZE), Peer([cache, host], TABLE_SIZE);
    NewEntry([host], cache);
    assert [cache] + [host] == [cache, host];
    TakeNamed(std, p, 24, cache, q);
    TakeIndex(std, p, 62, host, [0x58] + ShortStr(cache.value), q, [cache]);
    assert [host] + [cache] == [host, cache];
  }

  lemma Second(std: Standard, host: Header, cache: Header, a: Header, b: Header, c: Header)
    requires Sized(std) && std.statics[1] == a && std.statics[5] == b && std.statics[3] == c
    requires std.statics[23].name == cache.name && |cache.value| < 127
    requires Size([host]) + |cache.name| + |cache.value| < 4000
    ensures Reads(std, Peer([host], TABLE_SIZE), [0x82, 0x86, 0x84] + ([0xbe] + ([0x58] + ShortStr(cache.value))),
              Peer([cache, host], TABLE_SIZE), [a, b, c, host, cache])
  {
    var p, q := Peer([host], TABLE_SIZE), Peer([cache, host], TABLE_SIZE);
    SecondTail(std, host, cache);
    TakeThree(std, p, 2, a, 6, b, 4, c, [0xbe] + ([0x58] + ShortStr(cache.value)), q, [host, cache]);
    assert [a, b, c] + [host, cache] == [a, b, c, host, cache];
  }

  lemma ThirdTail(std: Standard, host: Header, cache: Header, custom: Header)
    requires Sized(std) && |custom.name| < 127 && |custom.value| < 127
    requires Size([cache, host]) + |custom.name| + |custom.value| < 4000
    ensures Reads(std, Peer([cache, host], TABLE_SIZE),
              [0xbf] + ([0x40] + (ShortStr(custom.name) + ShortStr(custom.value))),
              Peer([custom, cache, host], TABLE_SIZE), [host, custom])
  {
    var p, q := Peer([cache, host], TABLE_SIZE), Peer([custom, cache, host], TABLE_SIZE);
    NewEntry([cache, host], custom);
    assert [custom] + [cache, host] == [custom, cache, host];
    TakeNew(std, p, custom, q);
    TakeIndex(std, p, 63, host, [0x40] + (ShortStr(custom.name) + ShortStr(custom.value)), q, [custom]);
    assert [host] + [custom] == [host, custom];
  }

  lemma Third(std: Standard, host: Header, cache: Header, custom: Header, a: Header, b: Header, c: Header)
    requires Sized(std) && std.statics[1] == a && std.statics[6] == b && std.statics[4] == c
    requires |custom.name| < 127 && |custom.value| < 127
    requires Size([cache, host]) + |custom.name| + |custom.value| < 4000
    ensures Reads(std, Peer([cache, host], TABLE_SIZE),
              [0x82, 0x87, 0x85] + ([0xbf] + ([0x40] + (ShortStr(custom.name) + ShortStr(custom.value)))),
              Peer([custom, cache, host], TABLE_SIZE), [a, b, c, host, custom])
  {
    var p, q := Peer([cache, host], TABLE_SIZE), Peer([custom, cache, host], TABLE_SIZE);
    ThirdTail(std, host, cache, custom);
    var literal := [0x40] + (ShortStr(custom.name) + ShortStr(custom.value));
    TakeThree(std, p, 2, a, 7, b, 5, c, [0xbf] + literal, q, [host, custom]);
    assert [a, b, c] + [host, custom] == [a, b, c, host, custom];
  }

  /** C.3.1: a literal with indexing, under a name of the static table. */
  lemma FirstRequest(std: Standard)
    requires Sized(std) && HasRows(std)
    ensures var host := Text(":authority", "www.example.com");
            Reads(std, EMPTY, [0x82, 0x86, 0x84] + ([0x41] + ([15] + Ascii("www.example.com"))),
              Peer([host], TABLE_SIZE), [Text(":method", "GET"), Text(":scheme", "http"), Text(":path", "/"), host])
  {
    First(std, Text(":authority", "www.example.com"), std.statics[1], std.statics[5], std.statics[3]);
  }

  /** C.3.2: the entry of the first request by index 62, and one more. */
  lemma SecondRequest(std: Standard, host: Header)
    requires Sized(std) && HasRows(std) && Size([host]) == 57
    ensures var cache := Text("cache-control", "no-cache");
            Reads(std, Peer([host], TABLE_SIZE), [0x82, 0x86, 0x84] + ([0xbe] + ([0x58] + ([8] + Ascii("no-cache")))),
              Peer([cache, host], TABLE_SIZE),
              [Text(":method", "GET"), Text(":scheme", "http"), Text(":path", "/"), host, cache])
  {
    Second(std, host, Text("cache-control", "no-cache"), std.statics[1], std.statics[5], std.statics[3]);
  }

  /** C.3.3: the older entry by index 63, and a literal with a new name. */
  lemma ThirdRequest(std: Standard, host: Header, cache: Header)
    requires Sized(std) && HasRows(std) && Size([cache, host]) == 110
    ensures var custom := Text("custom-key", "custom-value");
            var literal := [0x40] + (([10] + Ascii("custom-key")) + ([12] + Ascii("custom-value")));
            Reads(std, Peer([cache, host], TABLE_SIZE), [0x82, 0x87, 0x85] + ([0xbf] + literal),
              Peer([custom, cache, host], TABLE_SIZE),
              [Text(":method", "GET"), Text(":scheme", "https"), Text(":path", "/index.html"), host, custom])
  {
    Third(std, host, cache, Text("custom-key", "custom-value"), std.statics[1], std.statics[6], std.statics[4]);
  }

  /** The sizes that the standard gives for these tables. */
  lemma TableSizes()
    ensures var host, cache := Text(":authority", "www.example.com"), Text("cache-control", "no-cache");
            Size([host]) == 57 && Size([cache, host]) == 110
  {
    var host, cache := Text(":authority", "www.example.com"), Text("cache-control", "no-cache");
    NewEntry([], host);
    assert [host] + [] == [host];
    NewEntry([host], cache);
    assert [cache] + [host] == [cache, host];
  }

  // ---------------------------------------------------------------- the standard's own tables

  lemma FirstRow()
    ensures |Rfc7541.STATIC_0| == 8 && Rfc7541.STATIC_0[0].name == Ascii(":authority")
    ensures Rfc7541.STATIC_0[1] == Text(":method", "GET")
    ensures Rfc7541.STATIC_0[3] == Text(":path", "/") && Rfc7541.STATIC_0[4] == Text(":path", "/index.html")
    ensures Rfc7541.STATIC_0[5] == Text(":scheme", "http") && Rfc7541.STATIC_0[6] == Text(":scheme", "https")
  {}

  lemma CacheRow()
    ensures |Rfc7541.STATIC_1| == 8 && |Rfc7541.STATIC_2| == 8
    ensures Rfc7541.STATIC_2[7].name == Ascii("cache-control")
  {
    Rfc7541.Others1();
  }

  lemma FromRow(a: seq<Header>, b: seq<Header>, c: seq<Header>, rest: seq<Header>)
    requires |a| == 8 && |b| == 8 && |c| == 8
    ensures var all := a + (b + (c + rest));
            (forall i :: 0 <= i < 8 ==> all[i] == a[i]) && all[23] == c[7]
  {}

  lemma JoinRows(a: seq<Header>, b: seq<Header>, c: seq<Header>, d: seq<Header>, e: seq<Header>, f: seq<Header>,
          g: seq<Header>, h: seq<Header>)
    ensures a + b + c + d + e + f + g + h == a + (b + (c + (d + e + f + g + h)))
  {}

  /** The tables of the standard have these rows. */
  lemma StandardHasRows()
    ensures Sized(Rfc7541.STANDARD) && HasRows(Rfc7541.STANDARD)
  {
    Rfc7541.StandardIsValid();
    FirstRow();
    CacheRow();
    var rest := Rfc7541.STATIC_3 + Rfc7541.STATIC_4 + Rfc7541.STATIC_5 + Rfc7541.STATIC_6 + Rfc7541.STATIC_7;
    JoinRows(Rfc7541.STATIC_0, Rfc7541.STATIC_1, Rfc7541.STATIC_2, Rfc7541.STATIC_3, Rfc7541.STATIC_4,
      Rfc7541.STATIC_5, Rfc7541.STATIC_6, Rfc7541.STATIC_7);
    FromRow(Rfc7541.STATIC_0, Rfc7541.STATIC_1, Rfc7541.STATIC_2, rest);
  }

  /** The three requests in a row, with the tables of the standard. */
  lemma ThreeRequests()
    ensures Sized(Rfc7541.STANDARD)
    ensures var host, cache := Text(":authority", "www.example.com"), Text("cache-control", "no-cache");
            var custom := Text("custom-key", "custom-value");
            var p1, p2 := Peer([host], TABLE_SIZE), Peer([cache, host], TABLE_SIZE);
            var literal := [0x40] + (([10] + Ascii("custom-key")) + ([12] + Ascii("custom-value")));
            && Reads(Rfc7541.STANDARD, EMPTY, [0x82, 0x86, 0x84] + ([0x41] + ([15] + Ascii("www.example.com"))), p1,
                 [Text(":method", "GET"), Text(":scheme", "http"), Text(":path", "/"), host])
            && Reads(Rfc7541.STANDARD, p1, [0x82, 0x86, 0x84] + ([0xbe] + ([0x58] + ([8] + Ascii("no-cache")))), p2,
                 [Text(":method", "GET"), Text(":scheme", "http"), Text(":path", "/"), host, cache])
            && Reads(Rfc7541.STANDARD, p2, [0x82, 0x87, 0x85] + ([0xbf] + literal),
                 Peer([custom, cache, host], TABLE_SIZE),
                 [Text(":method", "GET"), Text(":scheme", "https"), Text(":path", "/index.html"), host, custom])
  {
    StandardHasRows();
    TableSizes();
    var host, cache := Text(":authority", "www.example.com"), Text("cache-control", "no-cache");
    FirstRequest(Rfc7541.STANDARD);
    SecondRequest(Rfc7541.STANDARD, host);
    ThirdRequest(Rfc7541.STANDARD, host, cache);
  }
}
