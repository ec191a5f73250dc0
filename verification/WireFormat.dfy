/** The bytes on the wire, place by place, and what the worker answers to each kind of request. */
module WireFormat {
  import opened Bytes
  import opened RequestCodec
  import opened Wrappers
  import opened WorkerProtocol
  import R = ResponseCodec

  /** A little-endian number in four bytes from `at`. */
  ghost predicate Holds4(s: seq<Byte>, at: nat, v: nat) {
    at + 4 <= |s| && s[at] as int + 256 * s[at + 1] as int + 65536 * s[at + 2] as int + 16777216 * s[at + 3] as int == v
  }

  ghost predicate Holds2(s: seq<Byte>, at: nat, v: nat) { at + 2 <= |s| && s[at] as int + 256 * s[at + 1] as int == v }

  lemma EncodedIn2(v: nat)
    requires v < 65536
    ensures Holds2(Encode(v, 2), 0, v)
  {
    assert Encode(v, 2) == [v % 256] + Encode(v / 256, 1) == [v % 256, v / 256 % 256] + Encode(v / 256 / 256, 0);
  }

  lemma EncodedIn4(v: nat)
    requires v < 4294967296
    ensures Holds4(Encode(v, 4), 0, v)
  {
    assert Encode(v, 4) == [v % 256] + Encode(v / 256, 3);
    assert Encode(v / 256, 3) == [v / 256 % 256] + Encode(v / 256 / 256, 2);
    EncodedIn2(v / 256 / 256);
  }

  /** The 32 bytes of a header: magic, version, code, 8 bytes of id, four numbers. */
  lemma HeaderOnWire(h: Header)
    requires h.Packable()
    ensures var s := PackHeader(h);
            |s| == 32 && s[..4] == h.magic && Holds2(s, 4, h.version) && Holds2(s, 6, h.code) && Decode(s[8..16]) == h.requestId
            && Holds4(s, 16, h.batchSize) && Holds4(s, 20, h.width) && Holds4(s, 24, h.payloadBytes) && Holds4(s, 28, h.extra)
  {
    PackedSlices(h);
    Pow256Values();
    DecodeEncode(h.requestId, 8);
    EncodedIn2(h.version);
    EncodedIn2(h.code);
    EncodedIn4(h.batchSize);
    EncodedIn4(h.width);
    EncodedIn4(h.payloadBytes);
    EncodedIn4(h.extra);
    var s := PackHeader(h);
    assert s[4] == s[4..6][0] && s[5] == s[4..6][1] && s[6] == s[6..8][0] && s[7] == s[6..8][1];
    Slice4(s, 16);
    Slice4(s, 20);
    Slice4(s, 24);
    Slice4(s, 28);
  }

  lemma Slice4(s: seq<Byte>, at: nat)
    requires at + 4 <= |s|
    ensures forall v :: Holds4(s[at..at + 4], 0, v) ==> Holds4(s, at, v)
  {
    var t := s[at..at + 4];
    assert t[0] == s[at] && t[1] == s[at + 1] && t[2] == s[at + 2] && t[3] == s[at + 3];
  }

  /** A request: "CBSP", version 1, operation, id, batch size, bins, payload length, zero; then the payload. */
  lemma RequestOnWire(q: Request)
    requires Packable(q)
    ensures var s := EncodeRequest(q);
            |s| >= 32 && s[..4] == [67, 66, 83, 80] && Holds2(s, 4, 1) && Holds2(s, 6, q.operation) && Decode(s[8..16]) == q.requestId
            && Holds4(s, 16, |q.features|) && Holds4(s, 20, q.melBins) && Holds4(s, 24, |s| - 32) && Holds4(s, 28, 0)
            && s[32..] == EncodeMatrices(q.features)
  {
    var h, s := RequestHeader(q), EncodeRequest(q);
    HeaderOnWire(h);
    assert s[..32] == PackHeader(h);
    assert s[8..16] == PackHeader(h)[8..16];
  }

  /** A response: "CBSR", version 1, status, id, result count, dimension, payload length, error length; then
      the error bytes and the results. */
  lemma ResponseOnWire(r: R.Response)
    requires R.Writable(r)
    ensures var s := R.EncodeResponse(r);
            |s| >= 32 + |r.error| && s[..4] == [67, 66, 83, 82] && Holds2(s, 4, 1) && Holds2(s, 6, r.status) && Decode(s[8..16]) == r.requestId
            && Holds4(s, 16, |r.results|) && Holds4(s, 20, if r.results == [] then 0 else 192)
            && Holds4(s, 24, |s| - 32) && Holds4(s, 28, |r.error|) && s[32..32 + |r.error|] == r.error
  {
    var h, s := R.ResponseHeader(r), R.EncodeResponse(r);
    HeaderOnWire(h);
    assert s[..32] == PackHeader(h);
    assert s[8..16] == PackHeader(h)[8..16];
    assert s[32..] == R.Payload(r);
  }

  /** A matrix: its frame count, then its words row by row. */
  lemma MatrixOnWire(m: FeatureMatrix)
    requires m.frames < 4294967296
    ensures var s := EncodeMatrix(m);
            |s| == 4 + 4 * |m.values| && Holds4(s, 0, m.frames)
            && forall i: nat :: i < |m.values| ==> Holds4(s, 4 + 4 * i, m.values[i])
  {
    var s := EncodeMatrix(m);
    EncodedIn4(m.frames);
    forall i: nat | i < |m.values| ensures Holds4(s, 4 + 4 * i, m.values[i]) { WordOnWire(m.values, i); }
  }

  lemma {:induction false} WordOnWire(ws: seq<Word>, i: nat)
    requires i < |ws|
    ensures |EncodeWords(ws)| == 4 * |ws| && Holds4(EncodeWords(ws), 4 * i, ws[i])
    decreases i
  {
    if i == 0 { EncodedIn4(ws[0]); } else { WordOnWire(ws[1..], i - 1); }
  }

  /** Finite means: the eight exponent bits, 23 to 30, are not all ones. */
  lemma FiniteMeans(w: Word)
    ensures Finite(w) <==> w % 0x8000_0000 < 0x7F80_0000
  {
  }

  /** What the client's reader takes: a whole response with the magic and version, at most 256 MiB of payload
      no shorter than its error, and, when the status is zero, results of dimension 192 filling the rest exactly;
      anything else ends the reader. */
  lemma ReaderTakes(s: seq<Byte>)
    ensures R.ReadOne(s).ReadMessage?
       <==> |s| >= 32
            && (var h := UnpackHeader(s[..32]);
                h.magic == [67, 66, 83, 82] && h.version == 1 && h.payloadBytes <= 268435456 && h.extra <= h.payloadBytes
                && |s| >= 32 + h.payloadBytes
                && (h.code == 0 ==>
                      if h.batchSize == 0 then h.width == 0 && h.payloadBytes == h.extra
                      else h.width == 192 && h.payloadBytes - h.extra == 772 * h.batchSize))
  {
  }

  /** What the client makes of a message: the response, if it bears the id asked for and status zero; its
      error, if it bears that id; anything else means that the worker is unavailable. */
  lemma VerdictMeans(m: R.Message, id: nat)
    ensures Verdict(m, id)
         == if m.Received? && m.response.requestId == id
            then if m.response.status == 0 then Returned(m.response) else ExecutionError(m.response.status, m.response.error)
            else Unavailable
  {
  }

  /** In every state, also with replies to earlier requests still queued, an exchange yields only a reply to
      its own request. */
  lemma OwnReplyOnly(w: World, st: State, op: nat, ms: seq<FeatureMatrix>, t: Turn)
    requires w.Valid() && st.Valid()
    ensures var x := Exchange(w, st, op, ms, t).1;
            x.Returned? ==> x.response.requestId == st.nextId && x.response.status == 0
  {
  }

  /** What the worker answers to a request it could read, and whether it goes on: 2 is a ping, 3 shuts it
      down, 1 asks the engine, anything else is unsupported. */
  lemma AnswersMean(w: World, q: Request, rest: seq<Byte>)
    ensures var (r, exits) := Respond(w, ReadOk(q, rest));
            r.requestId == q.requestId && (exits <==> q.operation == 3)
            && (q.operation == 2 || q.operation == 3 ==> r.status == 0 && r.error == [] && r.results == [])
            && (q.operation == 0 || q.operation > 3 ==> r.status == 3 && r.results == [])
            && (q.operation == 1 ==>
                  match w.engine(q.features)
                  case Results(rs) => r.status == 0 && r.error == [] && r.results == rs
                  case Throws(e) => r.status == 2 && r.error == e && r.results == [])
  {
  }

  /** A request it could not read it refuses under the id it read, and stops. */
  lemma RefusalMeans(w: World, error: string, id: nat)
    ensures var (r, exits) := Respond(w, ReadError(error, id));
            exits && r.status == 1 && r.requestId == id && r.results == [] && |r.error| == |error|
            && forall i :: 0 <= i < |error| && error[i] < 128 as char ==> r.error[i] == error[i] as int
  {
  }
}
