/** `ReadRequest` as the worker runs it, against the function `ParseRequest`. */
module RequestReader {
  import opened Bytes
  import opened RequestCodec

  /** The bytes still to be read from a finite stream; reading consumes a prefix. */
  class InputStream {
    var rest: seq<Byte>

    constructor (bytes: seq<Byte>)
      ensures rest == bytes
    {
      rest := bytes;
    }

    /** `istream::read`: as many of the requested bytes as there are. */
    method ReadUpTo(n: nat) returns (got: seq<Byte>)
      modifies this
      ensures got + rest == old(rest) && |got| == if n <= old(|rest|) then n else old(|rest|)
    {
      var k := if n <= |rest| then n else |rest|;
      got, rest := rest[..k], rest[k..];
    }
  }

  datatype Outcome = KOk | KEndOfStream | KError

  const EMPTY_REQUEST := Request(OP_PING, 0, MEL_BINS, [])

  method ReadRequest(input: InputStream, maxBatch: nat, maxFrames: nat)
    returns (outcome: Outcome, request: Request, error: string)
    requires maxBatch < U32_LIMIT && maxFrames < U32_LIMIT
    modifies input
    ensures match ParseRequest(old(input.rest), maxBatch, maxFrames)
            case EndOfStream => outcome == KEndOfStream
            case ReadError(e, id) => outcome == KError && error == e && request.requestId == id
            case ReadOk(r, rest) => outcome == KOk && request == r && input.rest == rest
  {
    request, error := EMPTY_REQUEST, "";
    ghost var s := input.rest;
    var header := input.ReadUpTo(HEADER_BYTES);
    if |header| == 0 { return KEndOfStream, request, error; }
    if |header| != HEADER_BYTES { return KError, request, "truncated request header"; }
    assert header == s[..HEADER_BYTES] && input.rest == s[HEADER_BYTES..];
    var h := UnpackHeader(header);
    request := request.(requestId := h.requestId);
    if h.magic != REQUEST_MAGIC { return KError, request, "invalid request magic"; }
    if h.version != PROTOCOL_VERSION { return KError, request, "unsupported protocol version"; }
    request := request.(operation := h.code, melBins := h.width);
    if h.extra != 0 { return KError, request, "reserved request field must be zero"; }
    if h.batchSize > maxBatch { return KError, request, "batch exceeds configured maximum"; }
    var maximumBytes := MaximumBytes(maxBatch, maxFrames);
    if maximumBytes.None? { return KError, request, "configured request limit overflows"; }
    if h.payloadBytes > maximumBytes.value { return KError, request, "request payload exceeds configured maximum"; }
    var payload := input.ReadUpTo(h.payloadBytes);
    if |payload| != h.payloadBytes { return KError, request, "truncated request payload"; }
    assert payload == s[HEADER_BYTES..HEADER_BYTES + h.payloadBytes];
    assert input.rest == s[HEADER_BYTES + h.payloadBytes..];
    outcome, request, error := ReadBody(h, payload, maxFrames);
  }

  /** What follows the payload read: control requests carry none, inference requests a batch. */
  method ReadBody(h: Header, payload: seq<Byte>, maxFrames: nat)
    returns (outcome: Outcome, request: Request, error: string)
    requires maxFrames < U32_LIMIT && |payload| == h.payloadBytes
    ensures forall rest :: match ParseBody(h, payload, rest, maxFrames)
            case EndOfStream => false
            case ReadError(e, id) => outcome == KError && error == e && request.requestId == id
            case ReadOk(r, after) => outcome == KOk && request == r && after == rest
  {
    request, error := Request(h.code, h.requestId, h.width, []), "";
    if request.operation != OP_INFER {
      if h.batchSize != 0 || h.payloadBytes != 0 {
        return KError, request, "control request must not contain a payload";
      }
      return KOk, request, error;
    }
    if h.batchSize == 0 { return KError, request, "inference batch must not be empty"; }
    if request.melBins != MEL_BINS { return KError, request, "worker expects 80 log-Mel bins"; }
    var items := ReadItems(payload, h.batchSize, maxFrames);
    if items.BadItems? { return KError, request, items.error; }
    if |items.rest| != 0 { return KError, request, "request payload has trailing bytes"; }
    return KOk, request.(features := items.features), error;
  }

  function Prepend(ms: seq<FeatureMatrix>, items: Items): Items {
    match items
    case BadItems(error) => items
    case Items(more, rest) => Items(ms + more, rest)
  }

  /** The item loop of `ReadRequest`, with its running offset into the payload. */
  method ReadItems(payload: seq<Byte>, batchSize: nat, maxFrames: nat) returns (r: Items)
    ensures r == ParseItems(payload, batchSize, maxFrames)
  {
    var features: seq<FeatureMatrix> := [];
    var offset := 0;
    assert payload[0..] == payload;
    assert Prepend([], ParseItems(payload, batchSize, maxFrames)) == ParseItems(payload, batchSize, maxFrames);
    for index := 0 to batchSize
      invariant 0 <= offset <= |payload|
      invariant ParseItems(payload, batchSize, maxFrames)
             == Prepend(features, ParseItems(payload[offset..], batchSize - index, maxFrames))
    {
      var item := ReadItem(payload, offset, maxFrames);
      if item.BadItem? { return BadItems(item.error); }
      assert payload[offset..][item.size..] == payload[offset + item.size..];
      offset := offset + item.size;
      PrependOne(features, item.m, ParseItems(payload[offset..], batchSize - index - 1, maxFrames));
      features := features + [item.m];
    }
    return Items(features, payload[offset..]);
  }

  /** One turn of the item loop: a frame count, then that many rows of 80 floats. */
  method ReadItem(payload: seq<Byte>, offset: nat, maxFrames: nat) returns (r: Item)
    requires offset <= |payload|
    ensures r == ParseItem(payload[offset..], maxFrames)
  {
    ghost var p := payload[offset..];
    if |payload| - offset < 4 { return BadItem("missing feature frame count"); }
    assert p[..4] == payload[offset..offset + 4];
    var frames := DecodeLoop(payload[offset..offset + 4]);
    if frames == 0 || frames > maxFrames { return BadItem("invalid feature frame count"); }
    var byteCount := 4 * (80 * frames);
    if byteCount > |payload| - (offset + 4) { return BadItem("truncated feature matrix"); }
    var values := ReadValues(payload, offset + 4, 80 * frames);
    assert p[4..4 + byteCount] == payload[offset + 4..offset + 4 + byteCount];
    return Item(FeatureMatrix(frames, values), 4 + byteCount);
  }

  lemma PrependOne(ms: seq<FeatureMatrix>, m: FeatureMatrix, items: Items)
    ensures Prepend(ms, Prepend([m], items)) == Prepend(ms + [m], items)
  {
    if items.Items? { assert ms + ([m] + items.features) == (ms + [m]) + items.features; }
  }

  /** The float loop: word `i` sits four bytes further on. */
  method ReadValues(payload: seq<Byte>, offset: nat, valueCount: nat) returns (values: seq<Word>)
    requires offset + 4 * valueCount <= |payload|
    ensures values == DecodeWords(payload[offset..offset + 4 * valueCount])
  {
    values := [];
    Pow256Values();
    for index := 0 to valueCount
      invariant EncodeWords(values) == payload[offset..offset + 4 * index]
    {
      var at := offset + index * 4;
      var word := payload[at..at + 4];
      DecodeBound(word);
      EncodeDecode(word);
      var bits := DecodeLoop(word);
      EncodeWordsAppend(values, [bits]);
      assert EncodeWords([bits]) == word + EncodeWords([bits][1..]);
      assert payload[offset..at + 4] == payload[offset..at] + word;
      values := values + [bits];
    }
    DecodeEncodeWords(values);
  }
}
