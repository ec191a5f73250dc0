/** Requests on the wire: the client's validation and packing, the worker's `ReadRequest`,
    and the proof that the two are inverse. */
module RequestCodec {
  import opened Arithmetic
  import opened Bytes
  import opened Wrappers

  const MEL_BINS := 80
  const OP_INFER := 1
  const OP_PING := 2
  const OP_SHUTDOWN := 3
  const REQUEST_MAGIC: seq<Byte> := [67, 66, 83, 80]  // "CBSP"

  datatype FeatureMatrix = FeatureMatrix(frames: nat, values: seq<Word>)
  datatype Request = Request(operation: nat, requestId: nat, melBins: nat, features: seq<FeatureMatrix>)

  // ---------------------------------------------------------------- client side

  /** An array handed to the client: any shape, raw float32 words. */
  datatype RawArray = RawArray(shape: seq<nat>, values: seq<Word>)

  /** Neither infinite nor NaN: the exponent field is not all ones. */
  predicate Finite(w: Word) { (w / 0x80_0000) % 256 != 255 }

  datatype Rejection = BatchTooLarge | BadShape | TooManyFrames | NotFinite

  predicate Acceptable(a: RawArray, maxFrames: nat) {
    && |a.shape| == 2 && 0 < a.shape[0] <= maxFrames && a.shape[1] == MEL_BINS
    && forall i :: 0 <= i < |a.values| ==> Finite(a.values[i])
  }

  /** The rule an array violates, the first in the order in which they are checked. */
  predicate Violates(a: RawArray, maxFrames: nat, why: Rejection) {
    var shaped := |a.shape| == 2 && a.shape[0] != 0 && a.shape[1] == 80;
    match why
    case BatchTooLarge => false
    case BadShape => !shaped
    case TooManyFrames => shaped && a.shape[0] > maxFrames
    case NotFinite => shaped && a.shape[0] <= maxFrames && exists i :: 0 <= i < |a.values| && !Finite(a.values[i])
  }

  /** The reason given for a refused batch: its size, or what the first array at fault violates. */
  ghost predicate Refused(features: seq<RawArray>, maxBatch: nat, maxFrames: nat, why: Rejection) {
    if |features| > maxBatch then why == BatchTooLarge
    else exists k :: 0 <= k < |features| && Violates(features[k], maxFrames, why)
                       && forall i :: 0 <= i < k ==> Acceptable(features[i], maxFrames)
  }

  /** A validated matrix within the client's and the worker's frame limit. */
  predicate ValidMatrix(m: FeatureMatrix, maxFrames: nat) {
    0 < m.frames <= maxFrames && |m.values| == 80 * m.frames
  }

  predicate ValidMatrices(ms: seq<FeatureMatrix>, maxFrames: nat) {
    forall i :: 0 <= i < |ms| ==> ValidMatrix(ms[i], maxFrames)
  }

  /** `_validate_features`: accepts exactly the batches within the limits whose arrays are all
      non-empty [time, 80] matrices of finite values, and passes those values on unchanged. */
  method ValidateFeatures(features: seq<RawArray>, maxBatch: nat, maxFrames: nat)
    returns (r: Option<seq<FeatureMatrix>>, why: Rejection)
    requires forall i :: 0 <= i < |features| && |features[i].shape| == 2
               ==> |features[i].values| == features[i].shape[0] * features[i].shape[1]
    ensures r.Some? <==> |features| <= maxBatch && forall i :: 0 <= i < |features| ==> Acceptable(features[i], maxFrames)
    ensures r.None? ==> Refused(features, maxBatch, maxFrames, why)
    ensures r.Some? ==> |r.value| == |features| && ValidMatrices(r.value, maxFrames)
    ensures r.Some? ==> forall i :: 0 <= i < |features| ==>
              r.value[i] == FeatureMatrix(features[i].shape[0], features[i].values)
  {
    if |features| > maxBatch { return None, BatchTooLarge; }
    var matrices: seq<FeatureMatrix> := [];
    for k := 0 to |features|
      invariant |matrices| == k && ValidMatrices(matrices, maxFrames)
      invariant forall i :: 0 <= i < k ==> Acceptable(features[i], maxFrames)
      invariant forall i :: 0 <= i < k ==> matrices[i] == FeatureMatrix(features[i].shape[0], features[i].values)
    {
      var a := features[k];
      if |a.shape| != 2 || a.shape[0] == 0 || a.shape[1] != MEL_BINS { return None, BadShape; }
      if a.shape[0] > maxFrames { return None, TooManyFrames; }
      if !(forall i :: 0 <= i < |a.values| ==> Finite(a.values[i])) { return None, NotFinite; }
      matrices := matrices + [FeatureMatrix(a.shape[0], a.values)];
    }
    return Some(matrices), BatchTooLarge;
  }

  function EncodeMatrix(m: FeatureMatrix): (r: seq<Byte>)
    ensures |r| == 4 + 4 * |m.values|
  {
    Encode(m.frames, 4) + EncodeWords(m.values)
  }

  function EncodeMatrices(ms: seq<FeatureMatrix>): seq<Byte> {
    if ms == [] then [] else EncodeMatrix(ms[0]) + EncodeMatrices(ms[1..])
  }

  /** The fields fit the header and frame counts fit their 32 bits; otherwise Python's
      `struct.pack` raises. */
  predicate Packable(r: Request) {
    && r.operation < U16_LIMIT && r.requestId < U64_LIMIT && r.melBins < U32_LIMIT
    && |r.features| < U32_LIMIT && |EncodeMatrices(r.features)| < U32_LIMIT
    && forall i :: 0 <= i < |r.features| ==> r.features[i].frames < U32_LIMIT
  }

  function RequestHeader(r: Request): Header {
    Header(REQUEST_MAGIC, PROTOCOL_VERSION, r.operation, r.requestId, |r.features|, r.melBins,
           |EncodeMatrices(r.features)|, 0)
  }

  function EncodeRequest(r: Request): seq<Byte>
    requires Packable(r)
  {
    PackHeader(RequestHeader(r)) + EncodeMatrices(r.features)
  }

  // ---------------------------------------------------------------- worker side

  /** `CheckedMultiply`: the product, or nothing when it exceeds 64 bits. */
  function CheckedMultiply(left: nat, right: nat): (r: Option<nat>)
    requires left < U64_LIMIT && right < U64_LIMIT
    ensures r == if left * right < U64_LIMIT then Some(left * right) else None
  {
    if left != 0 && right > (U64_LIMIT - 1) / left then
      DivisionBound(left, right);
      None
    else
      ProductBound(left, right);
      Some(left * right)
  }

  lemma DivisionBound(left: nat, right: nat)
    requires left > 0 && right > (U64_LIMIT - 1) / left
    ensures left * right >= U64_LIMIT
  {
    var q := (U64_LIMIT - 1) / left;
    assert left * q + (U64_LIMIT - 1) % left == U64_LIMIT - 1;
    assert left * right >= left * (q + 1) == left * q + left;
  }

  lemma ProductBound(left: nat, right: nat)
    requires left == 0 || right <= (U64_LIMIT - 1) / left
    ensures left * right < U64_LIMIT
  {
    if left > 0 {
      var q := (U64_LIMIT - 1) / left;
      assert left * q <= U64_LIMIT - 1;
      assert left * right <= left * q;
    }
  }

  /** The worker's payload limit; the last addition is unchecked and wraps. */
  function MaximumBytes(maxBatch: nat, maxFrames: nat): (r: Option<nat>)
    requires maxBatch < U32_LIMIT && maxFrames < U32_LIMIT
  {
    var values := CheckedMultiply(maxBatch, maxFrames);
    if values.None? then None else
    var bins := CheckedMultiply(values.value, 80);
    if bins.None? then None else
    var bytes := CheckedMultiply(bins.value, 4);
    if bytes.None? then None else
    Some((bytes.value + maxBatch * 4) % U64_LIMIT)
  }

  datatype Item = Item(m: FeatureMatrix, size: nat) | BadItem(error: string)
  datatype Items = Items(features: seq<FeatureMatrix>, rest: seq<Byte>) | BadItems(error: string)

  /** The matrix at the front of a payload and the bytes it occupies. */
  function ParseItem(p: seq<Byte>, maxFrames: nat): (r: Item)
    ensures r.Item? ==> 0 < r.size <= |p|
  {
    if |p| < 4 then BadItem("missing feature frame count")
    else
      var frames := Decode(p[..4]);
      if frames == 0 || frames > maxFrames then BadItem("invalid feature frame count")
      else if 320 * frames > |p| - 4 then BadItem("truncated feature matrix")
      else Item(FeatureMatrix(frames, DecodeWords(p[4..4 + 320 * frames])), 4 + 320 * frames)
  }

  /** The first `count` matrices of a payload. */
  function ParseItems(p: seq<Byte>, count: nat, maxFrames: nat): Items
    decreases count
  {
    if count == 0 then Items([], p)
    else
      match ParseItem(p, maxFrames)
      case BadItem(error) => BadItems(error)
      case Item(m, size) =>
        match ParseItems(p[size..], count - 1, maxFrames)
        case BadItems(error) => BadItems(error)
        case Items(ms, rest) => Items([m] + ms, rest)
  }

  datatype ReadOutcome =
    | EndOfStream
    | ReadError(error: string, requestId: nat)
    | ReadOk(request: Request, rest: seq<Byte>)

  /** `ReadRequest` as a function of the bytes still to be read. */
  function ParseRequest(s: seq<Byte>, maxBatch: nat, maxFrames: nat): ReadOutcome
    requires maxBatch < U32_LIMIT && maxFrames < U32_LIMIT
  {
    if s == [] then EndOfStream
    else if |s| < HEADER_BYTES then ReadError("truncated request header", 0)
    else
      var h := UnpackHeader(s[..HEADER_BYTES]);
      if h.magic != REQUEST_MAGIC then ReadError("invalid request magic", h.requestId)
      else if h.version != PROTOCOL_VERSION then ReadError("unsupported protocol version", h.requestId)
      else if h.extra != 0 then ReadError("reserved request field must be zero", h.requestId)
      else if h.batchSize > maxBatch then ReadError("batch exceeds configured maximum", h.requestId)
      else if MaximumBytes(maxBatch, maxFrames).None? then ReadError("configured request limit overflows", h.requestId)
      else if h.payloadBytes > MaximumBytes(maxBatch, maxFrames).value then
        ReadError("request payload exceeds configured maximum", h.requestId)
      else if |s| - HEADER_BYTES < h.payloadBytes then ReadError("truncated request payload", h.requestId)
      else ParseBody(h, s[HEADER_BYTES..HEADER_BYTES + h.payloadBytes], s[HEADER_BYTES + h.payloadBytes..], maxFrames)
  }

  function ParseBody(h: Header, payload: seq<Byte>, rest: seq<Byte>, maxFrames: nat): ReadOutcome {
    if h.code != OP_INFER then
      if h.batchSize != 0 || h.payloadBytes != 0 then
        ReadError("control request must not contain a payload", h.requestId)
      else ReadOk(Request(h.code, h.requestId, h.width, []), rest)
    else if h.batchSize == 0 then ReadError("inference batch must not be empty", h.requestId)
    else if h.width != MEL_BINS then ReadError("worker expects 80 log-Mel bins", h.requestId)
    else
      var items := ParseItems(payload, h.batchSize, maxFrames);
      if items.BadItems? then ReadError(items.error, h.requestId)
      else if items.rest != [] then ReadError("request payload has trailing bytes", h.requestId)
      else ReadOk(Request(h.code, h.requestId, h.width, items.features), rest)
  }

  // ---------------------------------------------------------------- round trips

  lemma ParseEncodedItem(m: FeatureMatrix, more: seq<Byte>, maxFrames: nat)
    requires ValidMatrix(m, maxFrames) && maxFrames < U32_LIMIT
    ensures var p := EncodeMatrix(m) + more;
            ParseItem(p, maxFrames) == Item(m, |EncodeMatrix(m)|) && p[|EncodeMatrix(m)|..] == more
  {
    var p, n := EncodeMatrix(m) + more, 4 + 320 * m.frames;
    assert p[..4] == Encode(m.frames, 4);
    assert p[4..n] == EncodeWords(m.values);
    Pow256Values();
    DecodeEncode(m.frames, 4);
    DecodeEncodeWords(m.values);
  }

  lemma {:induction false} ParseEncodedItems(ms: seq<FeatureMatrix>, tail: seq<Byte>, maxFrames: nat)
    requires ValidMatrices(ms, maxFrames) && maxFrames < U32_LIMIT
    ensures ParseItems(EncodeMatrices(ms) + tail, |ms|, maxFrames) == Items(ms, tail)
  {
    if ms == [] {
      assert EncodeMatrices(ms) + tail == tail;
    } else {
      var more := EncodeMatrices(ms[1..]) + tail;
      assert EncodeMatrices(ms) + tail == EncodeMatrix(ms[0]) + more;
      ParseEncodedItem(ms[0], more, maxFrames);
      ParseEncodedItems(ms[1..], tail, maxFrames);
      assert [ms[0]] + ms[1..] == ms;
    }
  }

  lemma EncodeParsedItem(p: seq<Byte>, maxFrames: nat)
    requires ParseItem(p, maxFrames).Item?
    ensures var r := ParseItem(p, maxFrames);
            ValidMatrix(r.m, maxFrames) && EncodeMatrix(r.m) == p[..r.size]
  {
    var n := ParseItem(p, maxFrames).size;
    EncodeDecode(p[..4]);
    EncodeDecodeWords(p[4..n]);
    assert p[..4] + p[4..n] == p[..n];
  }

  lemma {:induction false} EncodeParsedItems(p: seq<Byte>, count: nat, maxFrames: nat)
    requires ParseItems(p, count, maxFrames).Items?
    ensures var r := ParseItems(p, count, maxFrames);
            |r.features| == count && ValidMatrices(r.features, maxFrames)
            && p == EncodeMatrices(r.features) + r.rest
    decreases count
  {
    if count > 0 {
      var item := ParseItem(p, maxFrames);
      var inner := ParseItems(p[item.size..], count - 1, maxFrames);
      EncodeParsedItem(p, maxFrames);
      EncodeParsedItems(p[item.size..], count - 1, maxFrames);
      JoinItems(p, item.size, item.m, inner.features, inner.rest);
    }
  }

  lemma JoinItems(p: seq<Byte>, n: nat, m: FeatureMatrix, ms: seq<FeatureMatrix>, rest: seq<Byte>)
    requires n <= |p| && EncodeMatrix(m) == p[..n] && p[n..] == EncodeMatrices(ms) + rest
    ensures p == EncodeMatrices([m] + ms) + rest
  {
    assert ([m] + ms)[1..] == ms;
    assert p == p[..n] + p[n..];
    assert p[..n] + (EncodeMatrices(ms) + rest) == (p[..n] + EncodeMatrices(ms)) + rest;
  }

  /** The requests the worker is built to serve. */
  predicate Serviceable(r: Request, maxBatch: nat, maxFrames: nat) {
    && |r.features| <= maxBatch
    && (if r.operation == OP_INFER
        then r.features != [] && r.melBins == MEL_BINS && ValidMatrices(r.features, maxFrames)
        else r.features == [])
  }

  /** What the limit check decides about a payload of `n` bytes. */
  predicate WithinLimit(n: nat, maxBatch: nat, maxFrames: nat)
    requires maxBatch < U32_LIMIT && maxFrames < U32_LIMIT
  {
    MaximumBytes(maxBatch, maxFrames).Some? && n <= MaximumBytes(maxBatch, maxFrames).value
  }

  /** Encoded requests decode to themselves and consume exactly their own bytes, whatever
      follows in the stream. */
  lemma DecodeEncodedRequest(r: Request, tail: seq<Byte>, maxBatch: nat, maxFrames: nat)
    requires maxBatch < U32_LIMIT && maxFrames < U32_LIMIT
    requires Packable(r) && Serviceable(r, maxBatch, maxFrames)
    requires WithinLimit(|EncodeMatrices(r.features)|, maxBatch, maxFrames)
    ensures ParseRequest(EncodeRequest(r) + tail, maxBatch, maxFrames) == ReadOk(r, tail)
  {
    var h, payload := RequestHeader(r), EncodeMatrices(r.features);
    var s := EncodeRequest(r) + tail;
    assert s[..HEADER_BYTES] == PackHeader(h);
    UnpackPack(h);
    assert s[HEADER_BYTES..HEADER_BYTES + |payload|] == payload;
    assert s[HEADER_BYTES + |payload|..] == tail;
    if r.operation == OP_INFER {
      assert payload + [] == payload;
      ParseEncodedItems(r.features, [], maxFrames);
    }
  }

  lemma EncodeParsedBody(h: Header, payload: seq<Byte>, rest: seq<Byte>, maxBatch: nat, maxFrames: nat)
    requires |payload| == h.payloadBytes && h.batchSize <= maxBatch
    requires ParseBody(h, payload, rest, maxFrames).ReadOk?
    ensures var o := ParseBody(h, payload, rest, maxFrames);
            && o.rest == rest && payload == EncodeMatrices(o.request.features)
            && o.request == Request(h.code, h.requestId, h.width, o.request.features)
            && |o.request.features| == h.batchSize && Serviceable(o.request, maxBatch, maxFrames)
  {
    if h.code == OP_INFER {
      EncodeParsedItems(payload, h.batchSize, maxFrames);
      var ms := ParseItems(payload, h.batchSize, maxFrames).features;
      assert EncodeMatrices(ms) + [] == EncodeMatrices(ms);
    }
  }

  lemma FramesFit(ms: seq<FeatureMatrix>, maxFrames: nat)
    requires ValidMatrices(ms, maxFrames) && maxFrames < U32_LIMIT
    ensures forall i :: 0 <= i < |ms| ==> ms[i].frames < U32_LIMIT
  {
    forall i | 0 <= i < |ms| ensures ms[i].frames < U32_LIMIT { assert ValidMatrix(ms[i], maxFrames); }
  }

  /** Conversely, whatever is read successfully is the encoding of the request returned. */
  lemma EncodeDecodedRequest(s: seq<Byte>, maxBatch: nat, maxFrames: nat)
    requires maxBatch < U32_LIMIT && maxFrames < U32_LIMIT
    requires ParseRequest(s, maxBatch, maxFrames).ReadOk?
    ensures var o := ParseRequest(s, maxBatch, maxFrames);
            && Packable(o.request) && Serviceable(o.request, maxBatch, maxFrames)
            && WithinLimit(|EncodeMatrices(o.request.features)|, maxBatch, maxFrames)
            && s == EncodeRequest(o.request) + o.rest
  {
    var head := s[..HEADER_BYTES];
    var h := UnpackHeader(head);
    var end := HEADER_BYTES + h.payloadBytes;
    var payload, rest := s[HEADER_BYTES..end], s[end..];
    EncodeParsedBody(h, payload, rest, maxBatch, maxFrames);
    var r := ParseBody(h, payload, rest, maxFrames).request;
    FramesFit(r.features, maxFrames);
    PackUnpack(head);
    assert RequestHeader(r) == h;
    assert s == head + payload + rest;
  }

  /** Each matrix holds 80 values per frame. */
  predicate Consistent(ms: seq<FeatureMatrix>) {
    forall i :: 0 <= i < |ms| ==> |ms[i].values| == 80 * ms[i].frames
  }

  lemma {:induction false} EncodingInjective(a: seq<FeatureMatrix>, b: seq<FeatureMatrix>)
    requires Consistent(a) && Consistent(b) && |a| == |b|
    requires forall i :: 0 <= i < |a| ==> a[i].frames < U32_LIMIT && b[i].frames < U32_LIMIT
    requires EncodeMatrices(a) == EncodeMatrices(b)
    ensures a == b
  {
    if a != [] {
      var s := EncodeMatrices(a);
      var m, n := a[0], b[0];
      Pow256Values();
      assert s[..4] == Encode(m.frames, 4);
      assert s[..4] == Encode(n.frames, 4);
      DecodeEncode(m.frames, 4);
      DecodeEncode(n.frames, 4);
      var k := |EncodeMatrix(m)|;
      assert s[4..k] == EncodeWords(m.values);
      assert s[4..k] == EncodeWords(n.values);
      DecodeEncodeWords(m.values);
      DecodeEncodeWords(n.values);
      assert s[k..] == EncodeMatrices(a[1..]);
      assert s[k..] == EncodeMatrices(b[1..]);
      EncodingInjective(a[1..], b[1..]);
      assert a == [m] + a[1..] && b == [n] + b[1..];
    }
  }

  lemma RequestInjective(r: Request, tail: seq<Byte>, q: Request, rest: seq<Byte>)
    requires Packable(r) && Packable(q) && Consistent(r.features) && Consistent(q.features)
    requires EncodeRequest(r) + tail == EncodeRequest(q) + rest
    ensures r == q && tail == rest
  {
    var s := EncodeRequest(r) + tail;
    assert s[..HEADER_BYTES] == PackHeader(RequestHeader(r));
    assert s[..HEADER_BYTES] == PackHeader(RequestHeader(q));
    UnpackPack(RequestHeader(r));
    UnpackPack(RequestHeader(q));
    assert RequestHeader(r) == RequestHeader(q);
    var end := HEADER_BYTES + |EncodeMatrices(r.features)|;
    assert s[HEADER_BYTES..end] == EncodeMatrices(r.features);
    assert s[HEADER_BYTES..end] == EncodeMatrices(q.features);
    EncodingInjective(r.features, q.features);
    assert s[end..] == tail && s[end..] == rest;
  }

  /** The worker accepts an encoded request exactly when it is serviceable and within the limit. */
  lemma AcceptedIff(r: Request, tail: seq<Byte>, maxBatch: nat, maxFrames: nat)
    requires maxBatch < U32_LIMIT && maxFrames < U32_LIMIT && Packable(r) && Consistent(r.features)
    ensures ParseRequest(EncodeRequest(r) + tail, maxBatch, maxFrames).ReadOk?
       <==> Serviceable(r, maxBatch, maxFrames) && WithinLimit(|EncodeMatrices(r.features)|, maxBatch, maxFrames)
  {
    var s := EncodeRequest(r) + tail;
    if Serviceable(r, maxBatch, maxFrames) && WithinLimit(|EncodeMatrices(r.features)|, maxBatch, maxFrames) {
      DecodeEncodedRequest(r, tail, maxBatch, maxFrames);
    }
    if ParseRequest(s, maxBatch, maxFrames).ReadOk? {
      EncodeDecodedRequest(s, maxBatch, maxFrames);
      var o := ParseRequest(s, maxBatch, maxFrames);
      RequestInjective(r, tail, o.request, o.rest);
    }
  }

  // ---------------------------------------------------------------- the size limit

  lemma {:induction false} PayloadSize(ms: seq<FeatureMatrix>, maxFrames: nat, k: nat)
    requires ValidMatrices(ms, maxFrames) && k == 320 * maxFrames + 4
    ensures |EncodeMatrices(ms)| <= |ms| * k
  {
    if ms != [] {
      PayloadSize(ms[1..], maxFrames, k);
      assert ValidMatrix(ms[0], maxFrames);
      SuccTimes(|ms[1..]|, k);
    }
  }

  /** The limit check's bound, exactly: the full size of the largest batch unless it wraps. */
  lemma MaximumBytesValue(maxBatch: nat, maxFrames: nat)
    requires maxBatch < U32_LIMIT && maxFrames < U32_LIMIT
    ensures var full := maxBatch * (320 * maxFrames + 4);
            && full == 320 * (maxBatch * maxFrames) + 4 * maxBatch
            && (full < U64_LIMIT ==> MaximumBytes(maxBatch, maxFrames) == Some(full))
            && (320 * (maxBatch * maxFrames) < U64_LIMIT && full >= U64_LIMIT ==>
                  MaximumBytes(maxBatch, maxFrames) == Some(full - U64_LIMIT))
            && (320 * (maxBatch * maxFrames) >= U64_LIMIT ==> MaximumBytes(maxBatch, maxFrames) == None)
  {
    var product := maxBatch * maxFrames;
    assert maxBatch * (320 * maxFrames) == 320 * product;
    assert maxBatch * (320 * maxFrames + 4) == maxBatch * (320 * maxFrames) + maxBatch * 4;
    if 320 * product < U64_LIMIT { WrapOnce(320 * product + maxBatch * 4); }
  }

  lemma WrapOnce(v: nat)
    requires v < 2 * U64_LIMIT
    ensures v % U64_LIMIT == if v < U64_LIMIT then v else v - U64_LIMIT
  {
  }

  /** The batches the client lets through: validated, and packable into the header. */
  ghost predicate Sendable(ms: seq<FeatureMatrix>, maxBatch: nat, maxFrames: nat) {
    |ms| <= maxBatch && ValidMatrices(ms, maxFrames) && |EncodeMatrices(ms)| < U32_LIMIT
  }

  /** The configured limits for which the worker's size check is harmless. */
  predicate SafeLimits(maxBatch: nat, maxFrames: nat)
    requires maxBatch < U32_LIMIT && maxFrames < U32_LIMIT
  {
    var m := MaximumBytes(maxBatch, maxFrames);
    maxBatch * (320 * maxFrames + 4) < U64_LIMIT || (m.Some? && m.value >= U32_LIMIT - 4)
  }

  function Silence(frames: nat): (m: FeatureMatrix)
    ensures |m.values| == 80 * frames && m.frames == frames
  {
    FeatureMatrix(frames, seq(80 * frames, _ => 0))
  }

  lemma {:induction false} EncodeMatricesAppend(ms: seq<FeatureMatrix>, m: FeatureMatrix)
    ensures |EncodeMatrices(ms + [m])| == |EncodeMatrices(ms)| + |EncodeMatrix(m)|
  {
    if ms == [] {
      assert ms + [m] == [m];
      assert EncodeMatrices([m]) == EncodeMatrix(m) + EncodeMatrices([m][1..]);
    } else {
      assert (ms + [m])[1..] == ms[1..] + [m];
      EncodeMatricesAppend(ms[1..], m);
    }
  }

  /** `n` one-frame matrices. */
  function Shorts(n: nat): (ms: seq<FeatureMatrix>)
    ensures |ms| == n && forall i :: 0 <= i < n ==> ms[i] == Silence(1)
  {
    if n == 0 then [] else Shorts(n - 1) + [Silence(1)]
  }

  lemma {:induction false} ShortsSize(n: nat)
    ensures |EncodeMatrices(Shorts(n))| == 324 * n
  {
    if n > 0 {
      ShortsSize(n - 1);
      EncodeMatricesAppend(Shorts(n - 1), Silence(1));
    }
  }

  /** The largest payload a 32-bit length can announce, from 63 matrices. */
  lemma LargestPayload(maxBatch: nat, maxFrames: nat) returns (ms: seq<FeatureMatrix>)
    requires maxBatch >= 63 && maxFrames >= 13_421_710
    ensures Sendable(ms, maxBatch, maxFrames) && |EncodeMatrices(ms)| == U32_LIMIT - 4
  {
    ms := WithShorts(62, 13_421_710, maxFrames);
  }

  lemma WithShorts(n: nat, frames: nat, maxFrames: nat) returns (ms: seq<FeatureMatrix>)
    requires 0 < frames <= maxFrames
    ensures |ms| == n + 1 && ValidMatrices(ms, maxFrames) && |EncodeMatrices(ms)| == 324 * n + 4 + 320 * frames
  {
    ms := Shorts(n) + [Silence(frames)];
    ShortsSize(n);
    EncodeMatricesAppend(Shorts(n), Silence(frames));
  }

  lemma WrapNeedsHugeLimits(maxBatch: nat, maxFrames: nat)
    requires maxBatch < U32_LIMIT && maxFrames < U32_LIMIT
    requires maxBatch * (320 * maxFrames + 4) >= U64_LIMIT
    ensures maxBatch >= 63 && maxFrames >= 13_421_710
  {
    var k := 320 * maxFrames + 4;
    MulMono(maxBatch, U32_LIMIT - 1, k);
    MulMono(k, 320 * (U32_LIMIT - 1) + 4, maxBatch);
  }

  /** The size limit never rejects a sendable batch exactly when the limits are safe. */
  lemma SizeLimitHarmlessIff(maxBatch: nat, maxFrames: nat)
    requires 0 < maxBatch < U32_LIMIT && 0 < maxFrames < U32_LIMIT
    ensures SafeLimits(maxBatch, maxFrames)
       <==> forall ms :: Sendable(ms, maxBatch, maxFrames) ==> WithinLimit(|EncodeMatrices(ms)|, maxBatch, maxFrames)
  {
    MaximumBytesValue(maxBatch, maxFrames);
    if SafeLimits(maxBatch, maxFrames) {
      forall ms | Sendable(ms, maxBatch, maxFrames) ensures WithinLimit(|EncodeMatrices(ms)|, maxBatch, maxFrames) {
        SafeAccepts(ms, maxBatch, maxFrames);
      }
    } else {
      WrapNeedsHugeLimits(maxBatch, maxFrames);
      var ms := LargestPayload(maxBatch, maxFrames);
      assert Sendable(ms, maxBatch, maxFrames);
    }
  }

  lemma SafeAccepts(ms: seq<FeatureMatrix>, maxBatch: nat, maxFrames: nat)
    requires maxBatch < U32_LIMIT && maxFrames < U32_LIMIT
    requires SafeLimits(maxBatch, maxFrames) && Sendable(ms, maxBatch, maxFrames)
    ensures WithinLimit(|EncodeMatrices(ms)|, maxBatch, maxFrames)
  {
    var k := 320 * maxFrames + 4;
    MaximumBytesValue(maxBatch, maxFrames);
    PayloadSize(ms, maxFrames, k);
    MulMono(|ms|, maxBatch, k);
    PayloadMultipleOf4(ms);
    FitsUnder(|EncodeMatrices(ms)|, maxBatch * k, MaximumBytes(maxBatch, maxFrames));
  }

  lemma FitsUnder(n: nat, full: nat, m: Option<nat>)
    requires n <= full && n < U32_LIMIT && n % 4 == 0
    requires full < U64_LIMIT ==> m == Some(full)
    requires full < U64_LIMIT || (m.Some? && m.value >= U32_LIMIT - 4)
    ensures m.Some? && n <= m.value
  {
  }

  lemma {:induction false} PayloadMultipleOf4(ms: seq<FeatureMatrix>)
    ensures |EncodeMatrices(ms)| % 4 == 0
  {
    if ms != [] { PayloadMultipleOf4(ms[1..]); }
  }

  const WRAP_BATCH := 23_674_294
  const WRAP_FRAMES := 2_434_964_913

  /** A configuration whose limit wraps to 600 bytes: it refuses two single-frame matrices. */
  lemma WrappedLimitRejects()
    ensures !SafeLimits(WRAP_BATCH, WRAP_FRAMES)
    ensures Sendable(Shorts(2), WRAP_BATCH, WRAP_FRAMES)
    ensures !WithinLimit(|EncodeMatrices(Shorts(2))|, WRAP_BATCH, WRAP_FRAMES)
  {
    ShortsSize(2);
    MaximumBytesValue(WRAP_BATCH, WRAP_FRAMES);
    assert MaximumBytes(WRAP_BATCH, WRAP_FRAMES) == Some(600);
  }
}
