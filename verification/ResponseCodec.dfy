/** Responses on the wire: the worker's `WriteResponse`, the client's reader thread, and the
    proof that a stream of written responses is read back exactly. */
module ResponseCodec {
  import opened Bytes
  import opened Wrappers

  const EMBEDDING_DIMENSION := 192
  const STATUS_OK := 0
  const STATUS_INVALID := 1
  const STATUS_BACKEND := 2
  const STATUS_UNSUPPORTED := 3
  const RESPONSE_MAGIC: seq<Byte> := [67, 66, 83, 82]  // "CBSR"
  const READER_LIMIT := 256 * 1024 * 1024

  datatype EmbeddingResult = EmbeddingResult(quality: Word, embedding: seq<Word>)

  /** What the worker answers. */
  datatype Response = Response(status: nat, requestId: nat, error: seq<Byte>, results: seq<EmbeddingResult>)

  /** What the client's reader hands on; results only accompany status 0. */
  datatype WorkerResponse = WorkerResponse(
    requestId: nat, status: nat, error: seq<Byte>, embeddings: seq<seq<Word>>, qualities: seq<Word>)

  datatype Message = Received(response: WorkerResponse) | ReaderFailed

  // ---------------------------------------------------------------- writing

  function RecordWords(r: EmbeddingResult): seq<Word> { [r.quality] + r.embedding }

  function EncodeResults(rs: seq<EmbeddingResult>): seq<Byte> {
    if rs == [] then [] else EncodeWords(RecordWords(rs[0])) + EncodeResults(rs[1..])
  }

  predicate Dimensioned(rs: seq<EmbeddingResult>) {
    forall i :: 0 <= i < |rs| ==> |rs[i].embedding| == EMBEDDING_DIMENSION
  }

  function Payload(r: Response): seq<Byte> {
    r.error + (if r.status == STATUS_OK then EncodeResults(r.results) else [])
  }

  /** The responses `WriteResponse` writes; it refuses the others without writing. */
  predicate Writable(r: Response) {
    && r.status < U16_LIMIT && r.requestId < U64_LIMIT
    && (r.status == STATUS_OK ==> Dimensioned(r.results))
    && |Payload(r)| < U32_LIMIT && |r.error| < U32_LIMIT && |r.results| < U32_LIMIT
  }

  function ResponseHeader(r: Response): Header {
    Header(RESPONSE_MAGIC, PROTOCOL_VERSION, r.status, r.requestId, |r.results|,
           if r.results == [] then 0 else EMBEDDING_DIMENSION, |Payload(r)|, |r.error|)
  }

  function EncodeResponse(r: Response): (s: seq<Byte>)
    requires Writable(r)
    ensures |s| == HEADER_BYTES + |Payload(r)|
  {
    PackHeader(ResponseHeader(r)) + Payload(r)
  }

  /** The loop over the results, which stops at the first wrong dimension. */
  method WriteResults(results: seq<EmbeddingResult>) returns (body: Option<seq<Byte>>)
    ensures body == if Dimensioned(results) then Some(EncodeResults(results)) else None
  {
    var bytes: seq<Byte> := [];
    for i := 0 to |results|
      invariant bytes + EncodeResults(results[i..]) == EncodeResults(results)
      invariant forall j :: 0 <= j < i ==> |results[j].embedding| == EMBEDDING_DIMENSION
    {
      var result := results[i];
      if |result.embedding| != EMBEDDING_DIMENSION { return None; }
      NextResult(results, i, bytes);
      bytes := bytes + EncodeWords(RecordWords(result));
    }
    assert results[|results|..] == [] && bytes + [] == bytes;
    return Some(bytes);
  }

  lemma NextResult(results: seq<EmbeddingResult>, i: nat, bytes: seq<Byte>)
    requires i < |results|
    ensures bytes + EncodeResults(results[i..]) == (bytes + EncodeWords(RecordWords(results[i]))) + EncodeResults(results[i + 1..])
  {
    assert results[i..][0] == results[i] && results[i..][1..] == results[i + 1..];
  }

  /** `WriteResponse` with its loop over the results; nothing is written on failure. */
  method WriteResponse(r: Response) returns (written: Option<seq<Byte>>)
    requires r.status < U16_LIMIT && r.requestId < U64_LIMIT
    ensures written == if Writable(r) then Some(EncodeResponse(r)) else None
  {
    var payload := r.error;
    if r.status == STATUS_OK {
      var body := WriteResults(r.results);
      if body.None? { return None; }
      payload := payload + body.value;
    }
    assert payload == Payload(r);
    if |payload| >= U32_LIMIT || |r.error| >= U32_LIMIT || |r.results| >= U32_LIMIT { return None; }
    return Some(PackHeader(ResponseHeader(r)) + payload);
  }

  // ---------------------------------------------------------------- reading

  /** Cuts a payload into records of one quality and 192 embedding words each. */
  function Records(ws: seq<Word>, n: nat): (r: (seq<seq<Word>>, seq<Word>))
    requires |ws| == n * 193
    decreases n
  {
    if n == 0 then ([], [])
    else
      var rest := Records(ws[193..], n - 1);
      ([ws[1..193]] + rest.0, [ws[0]] + rest.1)
  }

  datatype ReadResult = ReadMessage(response: WorkerResponse, rest: seq<Byte>) | ReadFailure

  /** One turn of the reader loop as a function of the bytes still in the pipe. */
  function ReadOne(s: seq<Byte>): (r: ReadResult)
    ensures r.ReadMessage? ==> |r.rest| < |s|
  {
    if |s| < HEADER_BYTES then ReadFailure
    else
      var h := UnpackHeader(s[..HEADER_BYTES]);
      if h.magic != RESPONSE_MAGIC || h.version != PROTOCOL_VERSION then ReadFailure
      else if h.payloadBytes > READER_LIMIT || h.extra > h.payloadBytes then ReadFailure
      else if |s| - HEADER_BYTES < h.payloadBytes then ReadFailure
      else
        var end := HEADER_BYTES + h.payloadBytes;
        var r := ParsePayload(h, s[HEADER_BYTES..end]);
        if r.None? then ReadFailure else ReadMessage(r.value, s[end..])
  }

  function ParsePayload(h: Header, payload: seq<Byte>): Option<WorkerResponse>
    requires h.extra <= |payload|
  {
    var error, body := payload[..h.extra], payload[h.extra..];
    if h.code != STATUS_OK then Some(WorkerResponse(h.requestId, h.code, error, [], []))
    else if h.batchSize == 0 then
      if h.width != 0 || body != [] then None
      else Some(WorkerResponse(h.requestId, h.code, error, [], []))
    else if h.width != EMBEDDING_DIMENSION || |body| != h.batchSize * 193 * 4 then None
    else
      var (embeddings, qualities) := Records(DecodeWords(body), h.batchSize);
      Some(WorkerResponse(h.requestId, h.code, error, embeddings, qualities))
  }

  /** Everything the reader thread puts on its queue for a given pipe content; the last
      message is always the failure that ends the thread. */
  function ReadAll(s: seq<Byte>): (ms: seq<Message>)
    ensures ms != [] && ms[|ms| - 1] == ReaderFailed
    ensures forall i :: 0 <= i < |ms| - 1 ==> ms[i].Received?
    decreases |s|
  {
    match ReadOne(s)
    case ReadFailure => [ReaderFailed]
    case ReadMessage(r, rest) => [Received(r)] + ReadAll(rest)
  }

  // ---------------------------------------------------------------- round trip

  function Embeddings(rs: seq<EmbeddingResult>): (r: seq<seq<Word>>)
    ensures |r| == |rs| && forall i :: 0 <= i < |rs| ==> r[i] == rs[i].embedding
  {
    if rs == [] then [] else [rs[0].embedding] + Embeddings(rs[1..])
  }

  function Qualities(rs: seq<EmbeddingResult>): (r: seq<Word>)
    ensures |r| == |rs| && forall i :: 0 <= i < |rs| ==> r[i] == rs[i].quality
  {
    if rs == [] then [] else [rs[0].quality] + Qualities(rs[1..])
  }

  /** A response as the client should see it: results are dropped exactly when the status is not OK. */
  function Seen(r: Response): WorkerResponse {
    if r.status == STATUS_OK
    then WorkerResponse(r.requestId, r.status, r.error, Embeddings(r.results), Qualities(r.results))
    else WorkerResponse(r.requestId, r.status, r.error, [], [])
  }

  function AllWords(rs: seq<EmbeddingResult>): seq<Word> {
    if rs == [] then [] else RecordWords(rs[0]) + AllWords(rs[1..])
  }

  lemma {:induction false} ResultsAreWords(rs: seq<EmbeddingResult>)
    requires Dimensioned(rs)
    ensures EncodeResults(rs) == EncodeWords(AllWords(rs)) && |AllWords(rs)| == |rs| * 193
  {
    if rs != [] {
      ResultsAreWords(rs[1..]);
      EncodeWordsAppend(RecordWords(rs[0]), AllWords(rs[1..]));
    }
  }

  lemma {:induction false} RecordsOfWords(rs: seq<EmbeddingResult>)
    requires Dimensioned(rs) && |AllWords(rs)| == |rs| * 193
    ensures Records(AllWords(rs), |rs|) == (Embeddings(rs), Qualities(rs))
  {
    if rs != [] {
      var ws := AllWords(rs);
      ResultsAreWords(rs[1..]);
      assert ws[193..] == AllWords(rs[1..]);
      assert ws[1..193] == rs[0].embedding;
      RecordsOfWords(rs[1..]);
    }
  }

  lemma ParseWrittenPayload(r: Response)
    requires Writable(r)
    ensures ParsePayload(ResponseHeader(r), Payload(r)) == Some(Seen(r))
  {
    var p := Payload(r);
    assert p[..|r.error|] == r.error;
    if r.status == STATUS_OK {
      assert p[|r.error|..] == EncodeResults(r.results);
      ResultsAreWords(r.results);
      DecodeEncodeWords(AllWords(r.results));
      RecordsOfWords(r.results);
    }
  }

  /** A written response within the reader's limit is read back as itself, whatever follows. */
  lemma ReadWritten(r: Response, tail: seq<Byte>)
    requires Writable(r) && |Payload(r)| <= READER_LIMIT
    ensures ReadOne(EncodeResponse(r) + tail) == ReadMessage(Seen(r), tail)
  {
    var s := EncodeResponse(r) + tail;
    var end := HEADER_BYTES + |Payload(r)|;
    assert s[..HEADER_BYTES] == PackHeader(ResponseHeader(r));
    UnpackPack(ResponseHeader(r));
    assert s[HEADER_BYTES..end] == Payload(r);
    assert s[end..] == tail;
    ParseWrittenPayload(r);
  }

  predicate AllReadable(rs: seq<Response>) {
    forall i :: 0 <= i < |rs| ==> Writable(rs[i]) && |Payload(rs[i])| <= READER_LIMIT
  }

  function Concatenated(rs: seq<Response>): seq<Byte>
    requires AllReadable(rs)
  {
    if rs == [] then [] else EncodeResponse(rs[0]) + Concatenated(rs[1..])
  }

  function AllSeen(rs: seq<Response>): (ms: seq<Message>)
    ensures |ms| == |rs| && forall i :: 0 <= i < |rs| ==> ms[i] == Received(Seen(rs[i]))
  {
    if rs == [] then [] else [Received(Seen(rs[0]))] + AllSeen(rs[1..])
  }

  /** The reader parses a concatenation of written responses into exactly that sequence, then
      goes on with whatever follows. */
  lemma {:induction false} StreamRoundTrip(rs: seq<Response>, tail: seq<Byte>)
    requires AllReadable(rs)
    ensures ReadAll(Concatenated(rs) + tail) == AllSeen(rs) + ReadAll(tail)
  {
    if rs == [] {
      assert Concatenated(rs) + tail == tail;
    } else {
      var more := Concatenated(rs[1..]) + tail;
      assert Concatenated(rs) + tail == EncodeResponse(rs[0]) + more;
      ReadWritten(rs[0], more);
      StreamRoundTrip(rs[1..], tail);
    }
  }

  /** A response cut short by a crash yields no message, only the reader's failure. */
  lemma CutResponseFails(r: Response, n: nat)
    requires Writable(r) && n < |EncodeResponse(r)|
    ensures ReadOne(EncodeResponse(r)[..n]) == ReadFailure
    ensures ReadAll(EncodeResponse(r)[..n]) == [ReaderFailed]
  {
    var s := EncodeResponse(r);
    if n >= HEADER_BYTES {
      assert s[..n][..HEADER_BYTES] == PackHeader(ResponseHeader(r));
      UnpackPack(ResponseHeader(r));
    }
  }

  /** A response beyond the reader's limit makes the reader fail. */
  lemma OversizedFails(r: Response)
    requires Writable(r) && |Payload(r)| > READER_LIMIT
    ensures ReadOne(EncodeResponse(r)) == ReadFailure
  {
    assert EncodeResponse(r)[..HEADER_BYTES] == PackHeader(ResponseHeader(r));
    UnpackPack(ResponseHeader(r));
  }

  /** What the client sees determines status, id and error bytes, and on success every result word. */
  lemma SeenInjective(a: Response, b: Response)
    requires Seen(a) == Seen(b)
    ensures a.status == b.status && a.requestId == b.requestId && a.error == b.error
    ensures a.status == STATUS_OK ==> a == b
  {
    if a.status == STATUS_OK { ResultsSeen(a, b); }
  }

  lemma ResultsSeen(a: Response, b: Response)
    requires Seen(a) == Seen(b) && a.status == STATUS_OK
    ensures a == b
  {
    forall i | 0 <= i < |a.results| ensures |a.results| == |b.results| && a.results[i] == b.results[i] {
      assert |Embeddings(a.results)| == |Embeddings(b.results)|;
      assert Embeddings(a.results)[i] == Embeddings(b.results)[i];
      assert Qualities(a.results)[i] == Qualities(b.results)[i];
    }
    assert |Embeddings(a.results)| == |Embeddings(b.results)|;
  }

  // ---------------------------------------------------------------- the reader thread

  /** A pipe holding the bytes a finished process wrote: each read yields some non-empty part
      of what is left, or nothing at end of stream. */
  class PipeStream {
    var rest: seq<Byte>

    constructor (bytes: seq<Byte>)
      ensures rest == bytes
    {
      rest := bytes;
    }

    method Read(n: nat) returns (chunk: seq<Byte>)
      modifies this
      ensures chunk + rest == old(rest) && |chunk| <= n
      ensures n > 0 && old(rest) != [] ==> chunk != []
    {
      if n == 0 || rest == [] { return []; }
      var limit := if n <= |rest| then n else |rest|;
      var k: nat :| 1 <= k <= limit;
      chunk, rest := rest[..k], rest[k..];
    }
  }

  /** `_read_exact`: however the pipe cuts the data, exactly `size` bytes or end of stream. */
  method ReadExact(stream: PipeStream, size: nat) returns (data: Option<seq<Byte>>)
    modifies stream
    ensures data.Some? <==> size <= old(|stream.rest|)
    ensures data.Some? ==> |data.value| == size && data.value + stream.rest == old(stream.rest)
  {
    var chunks: seq<Byte> := [];
    var remaining := size;
    while remaining > 0
      invariant remaining >= 0 && |chunks| + remaining == size && chunks + stream.rest == old(stream.rest)
    {
      var chunk := stream.Read(remaining);
      if chunk == [] { return None; }
      assert chunks + (chunk + stream.rest) == (chunks + chunk) + stream.rest;
      chunks := chunks + chunk;
      remaining := remaining - |chunk|;
    }
    return Some(chunks);
  }

  /** The body of the reader thread: one queue entry per message, then the terminal failure. */
  method ReaderLoop(stream: PipeStream) returns (responses: seq<Message>)
    modifies stream
    ensures responses == ReadAll(old(stream.rest))
  {
    responses := [];
    while true
      invariant responses + ReadAll(stream.rest) == ReadAll(old(stream.rest))
      decreases |stream.rest|
    {
      ghost var s := stream.rest;
      var one := ReadOneMessage(stream);
      if one.None? { return responses + [ReaderFailed]; }
      assert ReadAll(s) == [Received(one.value)] + ReadAll(stream.rest);
      assert (responses + [Received(one.value)]) + ReadAll(stream.rest)
          == responses + ([Received(one.value)] + ReadAll(stream.rest));
      responses := responses + [Received(one.value)];
    }
  }

  method ReadOneMessage(stream: PipeStream) returns (r: Option<WorkerResponse>)
    modifies stream
    ensures match ReadOne(old(stream.rest))
            case ReadFailure => r == None
            case ReadMessage(m, rest) => r == Some(m) && stream.rest == rest
  {
    ghost var s := stream.rest;
    var header := ReadExact(stream, HEADER_BYTES);
    if header.None? { return None; }
    assert header.value == s[..HEADER_BYTES] && stream.rest == s[HEADER_BYTES..];
    var h := UnpackHeader(header.value);
    if h.magic != RESPONSE_MAGIC || h.version != PROTOCOL_VERSION { return None; }
    if h.payloadBytes > READER_LIMIT || h.extra > h.payloadBytes { return None; }
    var payload := ReadExact(stream, h.payloadBytes);
    if payload.None? { return None; }
    assert payload.value == s[HEADER_BYTES..HEADER_BYTES + h.payloadBytes];
    assert stream.rest == s[HEADER_BYTES + h.payloadBytes..];
    return ParsePayload(h, payload.value);
  }
}
