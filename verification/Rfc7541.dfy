/**
 The tables of RFC 7541: what the proofs assume of a static table and of a Huffman code holds of
 them.
*/
module Rfc7541 {
  import opened Bits
  import opened Huffman
  import opened HuffmanTable
  import opened HpackReference
  import HpackInt
  import RouteCache

  function Field(name: string, value: string): (h: Header)
    ensures |h.name| == |name| && (name != "" ==> h.name[0] == name[0] as int % 256)
  {
    Header(Ascii(name), Ascii(value))
  }

  // Appendix A, entries 1 to 61.
  const STATIC_0: seq<Header> := [
    Field(":authority", ""),
    Field(":method", "GET"),
    Field(":method", "POST"),
    Field(":path", "/"),
    Field(":path", "/index.html"),
    Field(":scheme", "http"),
    Field(":scheme", "https"),
    Field(":status", "200")]
  const STATIC_1: seq<Header> := [
    Field(":status", "204"),
    Field(":status", "206"),
    Field(":status", "304"),
    Field(":status", "400"),
    Field(":status", "404"),
    Field(":status", "500"),
    Field("accept-charset", ""),
    Field("accept-encoding", "gzip, deflate")]
  const STATIC_2: seq<Header> := [
    Field("accept-language", ""),
    Field("accept-ranges", ""),
    Field("accept", ""),
    Field("access-control-allow-origin", ""),
    Field("age", ""),
    Field("allow", ""),
    Field("authorization", ""),
    Field("cache-control", "")]
  const STATIC_3: seq<Header> := [
    Field("content-disposition", ""),
    Field("content-encoding", ""),
    Field("content-language", ""),
    Field("content-length", ""),
    Field("content-location", ""),
    Field("content-range", ""),
    Field("content-type", ""),
    Field("cookie", "")]
  const STATIC_4: seq<Header> := [
    Field("date", ""),
    Field("etag", ""),
    Field("expect", ""),
    Field("expires", ""),
    Field("from", ""),
    Field("host", ""),
    Field("if-match", ""),
    Field("if-modified-since", "")]
  const STATIC_5: seq<Header> := [
    Field("if-none-match", ""),
    Field("if-range", ""),
    Field("if-unmodified-since", ""),
    Field("last-modified", ""),
    Field("link", ""),
    Field("location", ""),
    Field("max-forwards", ""),
    Field("proxy-authenticate", "")]
  const STATIC_6: seq<Header> := [
    Field("proxy-authorization", ""),
    Field("range", ""),
    Field("referer", ""),
    Field("refresh", ""),
    Field("retry-after", ""),
    Field("server", ""),
    Field("set-cookie", ""),
    Field("strict-transport-security", "")]
  const STATIC_7: seq<Header> := [
    Field("transfer-encoding", ""),
    Field("user-agent", ""),
    Field("vary", ""),
    Field("via", ""),
    Field("www-authenticate", "")]

  const STATICS: seq<Header> :=
    STATIC_0 + STATIC_1 + STATIC_2 + STATIC_3 + STATIC_4 + STATIC_5 + STATIC_6 + STATIC_7

  /** None of the names is one the server looks for. */
  ghost predicate Others(hs: seq<Header>) {
    forall i :: 0 <= i < |hs| ==> hs[i].name != PATH && hs[i].name != GRPC_ENCODING
  }

  lemma Specials()
    ensures |STATIC_0| == 8
    ensures STATIC_0[3] == Header(PATH, SLASH) && STATIC_0[4] == Header(PATH, INDEX_HTML)
            && STATIC_0[7] == Header(STATUS, S200)
    ensures Others(STATIC_0[..3] + STATIC_0[5..])
  {}

  lemma Others1()
    ensures |STATIC_1| == 8 && Others(STATIC_1)
  {}

  lemma Others2()
    ensures |STATIC_2| == 8 && Others(STATIC_2)
  {}

  lemma Others3()
    ensures |STATIC_3| == 8 && Others(STATIC_3)
  {}

  lemma Others4()
    ensures |STATIC_4| == 8 && Others(STATIC_4)
  {}

  lemma Others5()
    ensures |STATIC_5| == 8 && Others(STATIC_5)
  {}

  lemma Others6()
    ensures |STATIC_6| == 8 && Others(STATIC_6)
  {}

  lemma Others7()
    ensures |STATIC_7| == 5 && Others(STATIC_7)
  {}

  lemma OthersAppend(a: seq<Header>, b: seq<Header>)
    requires Others(a) && Others(b)
    ensures Others(a + b)
  {}

  lemma StaticsAreValid()
    ensures ValidStatics(STATICS)
  {
    Specials();
    Others1();
    Others2();
    Others3();
    Others4();
    Others5();
    Others6();
    Others7();
    var rest := STATIC_1 + STATIC_2 + STATIC_3 + STATIC_4 + STATIC_5 + STATIC_6 + STATIC_7;
    OthersAppend(STATIC_1, STATIC_2);
    OthersAppend(STATIC_1 + STATIC_2, STATIC_3);
    OthersAppend(STATIC_1 + STATIC_2 + STATIC_3, STATIC_4);
    OthersAppend(STATIC_1 + STATIC_2 + STATIC_3 + STATIC_4, STATIC_5);
    OthersAppend(STATIC_1 + STATIC_2 + STATIC_3 + STATIC_4 + STATIC_5, STATIC_6);
    OthersAppend(STATIC_1 + STATIC_2 + STATIC_3 + STATIC_4 + STATIC_5 + STATIC_6, STATIC_7);
    assert STATICS == STATIC_0 + rest;
    SpecialRow(STATIC_0, rest);
  }

  /** The special entries stand among others. */
  lemma SpecialRow(row: seq<Header>, rest: seq<Header>)
    requires |row| == 8 && |rest| == 53 && Others(rest) && Others(row[..3] + row[5..])
    requires row[3] == Header(PATH, SLASH) && row[4] == Header(PATH, INDEX_HTML) && row[7] == Header(STATUS, S200)
    ensures ValidStatics(row + rest)
  {
    var all, plain := row + rest, row[..3] + row[5..];
    forall i | 0 <= i < STATIC_LEN && i != 3 && i != 4 ensures all[i].name != PATH && all[i].name != GRPC_ENCODING {
      if i < 8 {
        assert plain[if i < 3 then i else i - 2] == all[i];
      } else {
        assert rest[i - 8] == all[i];
      }
    }
  }

  // ---------------------------------------------------------------- the names the server looks for

  /** Code words of at most eight bits do not make a string longer. */
  lemma {:induction false} ShortCodes(c: Code, s: seq<byte>)
    requires |c| == 257 && forall i :: 0 <= i < |s| ==> c[s[i]].nbits <= 8
    ensures |Codes(c, s)| <= 8 * |s|
    decreases |s|
  {
    if s != [] {
      ShortCodes(c, s[..|s| - 1]);
    }
  }

  lemma LowRows()
    ensures |LOW| == 128 && |HIGH| == 128
    ensures LOW[32..48] == ROW_2 && LOW[48..64] == ROW_3 && LOW[96..112] == ROW_6 && LOW[112..] == ROW_7
  {
    LowHalf();
    HighHalf();
  }

  lemma LengthOf(sym: byte)
    requires sym < 128
    ensures TABLE[sym].nbits == LOW[sym]
  {
    LowRows();
  }

  lemma NameCodesAreShort(sym: byte)
    requires sym in PATH || sym in GRPC_ENCODING
    ensures TABLE[sym].nbits <= 8
  {
    LengthOf(sym);
    LowRows();
    if sym < 64 {
      assert sym == 45 || sym == 58;
      assert LOW[45] == ROW_2[13] && LOW[58] == ROW_3[10];
    } else if sym < 112 {
      assert LOW[sym] == ROW_6[sym - 96];
    } else {
      assert LOW[sym] == ROW_7[sym - 112];
    }
  }

  /** The tables of the standard, with the longest integer the server reads. */
  const STANDARD: Standard := Standard(TABLE, STATICS, HpackInt.MAX_BYTES)

  lemma PackedLength(c: Code, s: seq<byte>, n: nat)
    requires |c| == 257 && |Codes(c, s)| <= 8 * n
    ensures |Encoded(c, s)| <= n
  {
    var bits := Codes(c, s);
    var k := PadLen(|bits|);
    assert |bits + Ones(k)| == |bits| + k;
    assert 8 * |Encoded(c, s)| == |bits| + k;
  }

  lemma NameFits(name: seq<byte>)
    requires name == PATH || name == GRPC_ENCODING
    ensures |Encoded(TABLE, name)| <= |name|
  {
    forall i | 0 <= i < |name| ensures TABLE[name[i]].nbits <= 8 {
      assert name[i] in name;
      NameCodesAreShort(name[i]);
    }
    ShortCodes(TABLE, name);
    PackedLength(TABLE, name, |name|);
  }

  /** What the proofs assume of the tables, the tables of the standard satisfy. */
  lemma StandardIsValid()
    ensures ValidStandard(STANDARD) && RouteCache.NamesFit(TABLE)
  {
    TableIsValid();
    StaticsAreValid();
    NameFits(PATH);
    NameFits(GRPC_ENCODING);
  }
}
