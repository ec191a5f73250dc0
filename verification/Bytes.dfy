/** Bytes, little-endian integers, and the 32-byte header shared by both directions of the
    worker protocol. */
module Bytes {
  import opened Arithmetic

  type Byte = b: int | 0 <= b < 256
  const U16_LIMIT := 0x1_0000
  const U32_LIMIT := 0x1_0000_0000
  const U64_LIMIT := 0x1_0000_0000_0000_0000

  /** A 32-bit word: an unsigned integer, or the bit pattern of a float32. */
  type Word = w: int | 0 <= w < U32_LIMIT

  function Pow256(n: nat): (p: nat)
    ensures p > 0
  {
    if n == 0 then 1 else 256 * Pow256(n - 1)
  }

  lemma Pow256Values()
    ensures Pow256(2) == U16_LIMIT && Pow256(4) == U32_LIMIT && Pow256(8) == U64_LIMIT
  {
    assert Pow256(2) == 256 * Pow256(1) == 256 * 256 * Pow256(0);
    assert Pow256(4) == 256 * Pow256(3) == 256 * 256 * Pow256(2);
    assert Pow256(6) == 256 * Pow256(5) == 256 * 256 * Pow256(4);
    assert Pow256(8) == 256 * Pow256(7) == 256 * 256 * Pow256(6);
  }

  /** The `n` low bytes of `v`, least significant first. */
  function Encode(v: nat, n: nat): (r: seq<Byte>)
    ensures |r| == n
  {
    if n == 0 then [] else [v % 256] + Encode(v / 256, n - 1)
  }

  function Decode(bs: seq<Byte>): nat {
    if bs == [] then 0 else bs[0] + 256 * Decode(bs[1..])
  }

  lemma {:induction false} DecodeBound(bs: seq<Byte>)
    ensures Decode(bs) < Pow256(|bs|)
  {
    if bs != [] { DecodeBound(bs[1..]); }
  }

  /** Decoding the low bytes keeps the value modulo their range, and the whole value if it fits. */
  lemma {:induction false} DecodeEncode(v: nat, n: nat)
    ensures Decode(Encode(v, n)) == v % Pow256(n)
    ensures v < Pow256(n) ==> Decode(Encode(v, n)) == v
  {
    if n > 0 {
      DecodeEncode(v / 256, n - 1);
      assert Encode(v, n)[1..] == Encode(v / 256, n - 1);
      LowDigit(v, Pow256(n - 1));
    }
  }

  lemma LowDigit(v: nat, p: nat)
    requires p > 0
    ensures v % 256 + 256 * ((v / 256) % p) == v % (256 * p)
    ensures v < 256 * p ==> v % (256 * p) == v
  {
    var q, r := v / 256, v % 256;
    var a, b := q / p, q % p;
    assert q == p * a + b;
    assert v == (256 * p) * a + (r + 256 * b) by { assert (256 * p) * a == 256 * (p * a); }
    QuotientUnique(v, 256 * p, a, r + 256 * b);
  }

  lemma {:induction false} EncodeDecode(bs: seq<Byte>)
    ensures Encode(Decode(bs), |bs|) == bs
  {
    if bs != [] {
      EncodeDecode(bs[1..]);
      assert (bs[0] + 256 * Decode(bs[1..])) / 256 == Decode(bs[1..]);
    }
  }

  lemma {:induction false} DecodeAppend(bs: seq<Byte>, b: Byte)
    ensures Decode(bs + [b]) == Decode(bs) + b * Pow256(|bs|)
  {
    if bs == [] {
      assert bs + [b] == [b];
      assert Decode([b]) == b + 256 * Decode([b][1..]);
    } else {
      DecodeAppend(bs[1..], b);
      assert (bs + [b])[1..] == bs[1..] + [b];
      assert 256 * (b * Pow256(|bs| - 1)) == b * Pow256(|bs|);
    }
  }

  /** The loop of `DecodeU16`, `DecodeU32` and `DecodeU64`: byte `index` is shifted into place
      and merged into the accumulator, whose bits there are still zero. */
  method DecodeLoop(value: seq<Byte>) returns (result: nat)
    ensures result == Decode(value)
  {
    result := 0;
    for index := 0 to |value|
      invariant result == Decode(value[..index])
    {
      assert value[..index + 1] == value[..index] + [value[index]];
      DecodeAppend(value[..index], value[index]);
      result := result + value[index] * Pow256(index);
    }
    assert value[..|value|] == value;
  }

  lemma {:induction false} EncodeStep(v: nat, k: nat)
    ensures Encode(v, k + 1) == Encode(v, k) + [(v / Pow256(k)) % 256]
  {
    if k > 0 {
      EncodeStep(v / 256, k - 1);
      DivDiv(v, Pow256(k - 1));
    }
  }

  lemma DivDiv(v: nat, p: nat)
    requires p > 0
    ensures (v / 256) / p == v / (256 * p)
  {
    var q, r := v / 256, v % 256;
    var a, b := q / p, q % p;
    assert v == 256 * q + r && q == p * a + b;
    assert v == (256 * p) * a + (256 * b + r) by {
      assert 256 * (p * a + b) == (256 * p) * a + 256 * b;
    }
    assert 0 <= 256 * b + r < 256 * p;
    QuotientUnique(v, 256 * p, a, 256 * b + r);
  }

  /** The loop of `EncodeU16`, `EncodeU32` and `EncodeU64`. */
  method EncodeLoop(value: nat, n: nat) returns (output: seq<Byte>)
    ensures output == Encode(value, n)
  {
    output := [];
    for index := 0 to n
      invariant output == Encode(value, index)
    {
      EncodeStep(value, index);
      output := output + [(value / Pow256(index)) % 256];
    }
  }

  // ---------------------------------------------------------------- words

  function EncodeWords(ws: seq<Word>): (r: seq<Byte>)
    ensures |r| == 4 * |ws|
  {
    if ws == [] then [] else Encode(ws[0], 4) + EncodeWords(ws[1..])
  }

  function DecodeWords(bs: seq<Byte>): (r: seq<Word>)
    requires |bs| % 4 == 0
    ensures |r| == |bs| / 4
  {
    if bs == [] then []
    else
      DecodeBound(bs[..4]);
      Pow256Values();
      [Decode(bs[..4])] + DecodeWords(bs[4..])
  }

  lemma {:induction false} DecodeEncodeWords(ws: seq<Word>)
    ensures DecodeWords(EncodeWords(ws)) == ws
  {
    if ws != [] {
      var bs := EncodeWords(ws);
      assert bs[..4] == Encode(ws[0], 4) && bs[4..] == EncodeWords(ws[1..]);
      Pow256Values();
      DecodeEncode(ws[0], 4);
      DecodeEncodeWords(ws[1..]);
    }
  }

  lemma {:induction false} EncodeDecodeWords(bs: seq<Byte>)
    requires |bs| % 4 == 0
    ensures EncodeWords(DecodeWords(bs)) == bs
  {
    if bs != [] {
      EncodeDecode(bs[..4]);
      EncodeDecodeWords(bs[4..]);
      assert bs == bs[..4] + bs[4..];
    }
  }

  lemma {:induction false} EncodeWordsAppend(a: seq<Word>, b: seq<Word>)
    ensures EncodeWords(a + b) == EncodeWords(a) + EncodeWords(b)
  {
    if a == [] {
      assert a + b == b;
    } else {
      assert (a + b)[1..] == a[1..] + b;
      EncodeWordsAppend(a[1..], b);
    }
  }

  // ---------------------------------------------------------------- header

  const HEADER_BYTES := 32
  const PROTOCOL_VERSION := 1

  /** The layout "<4sHHQIIII" of a request or response header. */
  datatype Header = Header(
    magic: seq<Byte>, version: nat, code: nat, requestId: nat,
    batchSize: nat, width: nat, payloadBytes: nat, extra: nat)
  {
    predicate Packable() {
      && |magic| == 4 && version < U16_LIMIT && code < U16_LIMIT && requestId < U64_LIMIT
      && batchSize < U32_LIMIT && width < U32_LIMIT && payloadBytes < U32_LIMIT && extra < U32_LIMIT
    }
  }

  function PackHeader(h: Header): (r: seq<Byte>)
    requires h.Packable()
    ensures |r| == HEADER_BYTES
  {
    h.magic + Encode(h.version, 2) + Encode(h.code, 2) + Encode(h.requestId, 8)
    + Encode(h.batchSize, 4) + Encode(h.width, 4) + Encode(h.payloadBytes, 4) + Encode(h.extra, 4)
  }

  function UnpackHeader(s: seq<Byte>): (h: Header)
    requires |s| == HEADER_BYTES
    ensures h.Packable()
  {
    Pow256Values();
    DecodeBound(s[4..6]); DecodeBound(s[6..8]); DecodeBound(s[8..16]); DecodeBound(s[16..20]);
    DecodeBound(s[20..24]); DecodeBound(s[24..28]); DecodeBound(s[28..32]);
    Header(s[..4], Decode(s[4..6]), Decode(s[6..8]), Decode(s[8..16]), Decode(s[16..20]),
           Decode(s[20..24]), Decode(s[24..28]), Decode(s[28..32]))
  }

  lemma PackedSlices(h: Header)
    requires h.Packable()
    ensures var s := PackHeader(h);
            && s[..4] == h.magic
            && s[4..6] == Encode(h.version, 2)
            && s[6..8] == Encode(h.code, 2)
            && s[8..16] == Encode(h.requestId, 8)
            && s[16..20] == Encode(h.batchSize, 4)
            && s[20..24] == Encode(h.width, 4)
            && s[24..28] == Encode(h.payloadBytes, 4)
            && s[28..32] == Encode(h.extra, 4)
  {
  }

  lemma UnpackPack(h: Header)
    requires h.Packable()
    ensures UnpackHeader(PackHeader(h)) == h
  {
    PackedSlices(h);
    Pow256Values();
    DecodeEncode(h.version, 2);
    DecodeEncode(h.code, 2);
    DecodeEncode(h.requestId, 8);
    DecodeEncode(h.batchSize, 4);
    DecodeEncode(h.width, 4);
    DecodeEncode(h.payloadBytes, 4);
    DecodeEncode(h.extra, 4);
  }

  lemma PackUnpack(s: seq<Byte>)
    requires |s| == HEADER_BYTES
    ensures PackHeader(UnpackHeader(s)) == s
  {
    EncodeDecode(s[4..6]); EncodeDecode(s[6..8]); EncodeDecode(s[8..16]); EncodeDecode(s[16..20]);
    EncodeDecode(s[20..24]); EncodeDecode(s[24..28]); EncodeDecode(s[28..32]);
    assert s == s[..4] + s[4..6] + s[6..8] + s[8..16] + s[16..20] + s[20..24] + s[24..28] + s[28..32];
  }
}
