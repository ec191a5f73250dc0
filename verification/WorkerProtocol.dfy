/** Client, worker processes and reader threads as one transition system: bytes travel through
    per-process pipes that a crash may cut short, replies through a per-process queue. */
module WorkerProtocol {
  import opened Bytes
  import opened RequestCodec
  import opened Wrappers
  import R = ResponseCodec

  datatype EngineReply = Results(results: seq<R.EmbeddingResult>) | Throws(error: seq<Byte>)

  /** The inference engine and the limits the worker was started with. */
  datatype World = World(engine: seq<FeatureMatrix> -> EngineReply, maxBatch: nat, maxFrames: nat) {
    predicate Valid() { 0 < maxBatch < U32_LIMIT && 0 < maxFrames < U32_LIMIT }
  }

  // ---------------------------------------------------------------- the worker

  function Ascii(text: string): (bs: seq<Byte>)
    ensures |bs| == |text|
  {
    seq(|text|, i requires 0 <= i < |text| => text[i] as int % 256)
  }

  /** The response of one turn of the worker's loop, and whether the worker then exits. */
  function Respond(w: World, outcome: ReadOutcome): (r: (R.Response, bool))
    requires !outcome.EndOfStream?
  {
    match outcome
    case ReadError(error, id) => (R.Response(R.STATUS_INVALID, id, Ascii(error), []), true)
    case ReadOk(q, _) =>
      if q.operation == OP_PING then (R.Response(R.STATUS_OK, q.requestId, [], []), false)
      else if q.operation == OP_SHUTDOWN then (R.Response(R.STATUS_OK, q.requestId, [], []), true)
      else if q.operation != OP_INFER then
        (R.Response(R.STATUS_UNSUPPORTED, q.requestId, Ascii("unsupported worker operation"), []), false)
      else
        match w.engine(q.features)
        case Results(rs) => (R.Response(R.STATUS_OK, q.requestId, [], rs), false)
        case Throws(e) => (R.Response(R.STATUS_BACKEND, q.requestId, e, []), false)
  }

  // ---------------------------------------------------------------- processes and events

  /** A worker process with its two pipes and the queue its reader thread fills. */
  datatype Proc = Proc(
    inbox: seq<Byte>, outbox: seq<Byte>, queue: seq<R.Message>, alive: bool, readerDone: bool)

  const FRESH := Proc([], [], [], true, false)

  /** `Work`: the worker serves the request waiting in its inbox. `Read`: the reader thread takes a
      turn. `Crash(cut)`: the process dies and only `cut` of its unread output survives. */
  datatype Kind = Work | Read | Crash(cut: nat)
  datatype Event = Event(proc: nat, kind: Kind)

  function Worked(w: World, p: Proc): Proc
    requires w.Valid()
  {
    if !p.alive || p.inbox == [] then p
    else
      var outcome := ParseRequest(p.inbox, w.maxBatch, w.maxFrames);
      var (response, exits) := Respond(w, outcome);
      var rest := if outcome.ReadOk? then outcome.rest else [];
      if R.Writable(response)
      then p.(inbox := rest, outbox := p.outbox + R.EncodeResponse(response), alive := !exits)
      else p.(inbox := rest, alive := false)
  }

  /** More bytes could still complete the message at the front. */
  predicate Incomplete(s: seq<Byte>) {
    |s| < HEADER_BYTES ||
    (var h := UnpackHeader(s[..HEADER_BYTES]);
     h.magic == R.RESPONSE_MAGIC && h.version == PROTOCOL_VERSION
     && h.payloadBytes <= R.READER_LIMIT && h.extra <= h.payloadBytes
     && |s| - HEADER_BYTES < h.payloadBytes)
  }

  function HasRead(p: Proc): Proc {
    if p.readerDone then p
    else
      match R.ReadOne(p.outbox)
      case ReadMessage(m, rest) => p.(outbox := rest, queue := p.queue + [R.Received(m)])
      case ReadFailure =>
        if p.alive && Incomplete(p.outbox) then p
        else p.(queue := p.queue + [R.ReaderFailed], readerDone := true)
  }

  function Crashed(p: Proc, cut: nat): Proc {
    p.(alive := false, outbox := if p.alive && cut < |p.outbox| then p.outbox[..cut] else p.outbox)
  }

  function ProcStep(w: World, p: Proc, k: Kind): Proc
    requires w.Valid()
  {
    match k
    case Work => Worked(w, p)
    case Read => HasRead(p)
    case Crash(cut) => Crashed(p, cut)
  }

  function Happen(w: World, procs: seq<Proc>, e: Event): (r: seq<Proc>)
    requires w.Valid()
    ensures |r| == |procs|
  {
    if e.proc < |procs| then procs[e.proc := ProcStep(w, procs[e.proc], e.kind)] else procs
  }

  function HappenAll(w: World, procs: seq<Proc>, es: seq<Event>): (r: seq<Proc>)
    requires w.Valid()
    ensures |r| == |procs|
    decreases |es|
  {
    if es == [] then procs else HappenAll(w, Happen(w, procs, es[0]), es[1..])
  }

  // ---------------------------------------------------------------- the client

  /** `procs` keeps every process ever started: abandoned ones may still run and answer late. */
  datatype State = State(procs: seq<Proc>, current: Option<nat>, nextId: nat, closed: bool) {
    predicate Valid() { current.Some? ==> current.value < |procs| }
  }

  /** What the outside world does during one exchange: events before the liveness check, whether the
      write goes through (else only `partial` bytes of it), events before the reply or time-out. */
  datatype Turn = Turn(before: seq<Event>, writeOk: bool, partial: nat, during: seq<Event>, startOk: bool)

  datatype Exchanged =
    | Returned(response: R.WorkerResponse)
    | Unavailable
    | ExecutionError(status: nat, error: seq<Byte>)
    | PackError

  function Wrote(st: State, c: nat, bytes: seq<Byte>): State
    requires c < |st.procs|
  {
    st.(procs := st.procs[c := st.procs[c].(inbox := st.procs[c].inbox + bytes)])
  }

  function Popped(st: State, c: nat): State
    requires c < |st.procs| && st.procs[c].queue != []
  {
    st.(procs := st.procs[c := st.procs[c].(queue := st.procs[c].queue[1..])])
  }

  function Verdict(m: R.Message, id: nat): Exchanged {
    if m.ReaderFailed? then Unavailable
    else if m.response.requestId != id then Unavailable
    else if m.response.status != R.STATUS_OK then ExecutionError(m.response.status, m.response.error)
    else Returned(m.response)
  }

  /** `_exchange`. */
  function Exchange(w: World, st: State, op: nat, ms: seq<FeatureMatrix>, t: Turn): (r: (State, Exchanged))
    requires w.Valid() && st.Valid()
    ensures r.0.Valid() && r.0.current == st.current && r.0.closed == st.closed
  {
    var s1 := st.(procs := HappenAll(w, st.procs, t.before));
    if s1.current.None? || !s1.procs[s1.current.value].alive then (s1, Unavailable)
    else
      var c, id := s1.current.value, s1.nextId;
      var s2 := s1.(nextId := id + 1);
      var q := Request(op, id, MEL_BINS, ms);
      if !Packable(q) then (s2, PackError)
      else
        var bytes := EncodeRequest(q);
        if !t.writeOk then
          (Wrote(s2, c, if t.partial < |bytes| then bytes[..t.partial] else bytes), Unavailable)
        else
          var s3 := Wrote(s2, c, bytes);
          var s4 := s3.(procs := HappenAll(w, s3.procs, t.during));
          if s4.procs[c].queue == [] then (s4, Unavailable)
          else (Popped(s4, c), Verdict(s4.procs[c].queue[0], id))
  }

  /** `_start_process`: a new process with its own empty queue. */
  function Started(st: State): State {
    st.(procs := st.procs + [FRESH], current := Some(|st.procs|))
  }

  /** `_stop_process`: the client forgets the process, which dies with its output lost or not. */
  function Stopped(st: State): State
    requires st.Valid()
  {
    if st.current.None? then st
    else
      var c := st.current.value;
      st.(procs := st.procs[c := st.procs[c].(alive := false)], current := None)
  }

  datatype Inferred =
    | Success(embeddings: seq<seq<Word>>, qualities: seq<Word>)
    | WorkerUnavailable
    | EngineFailed(status: nat, error: seq<Byte>)
    | StructError

  /** The retry loop of `infer_batch`: one exchange per turn, a restart between them. */
  function Attempts(w: World, st: State, ms: seq<FeatureMatrix>, turns: seq<Turn>): (r: (State, Inferred))
    requires w.Valid() && st.Valid() && turns != []
    ensures r.0.Valid() && r.0.closed == st.closed
    decreases |turns|
  {
    var (s1, x) := Exchange(w, st, OP_INFER, ms, turns[0]);
    match x
    case Returned(m) => (s1, Success(m.embeddings, m.qualities))
    case ExecutionError(status, error) => (s1, EngineFailed(status, error))
    case PackError => (s1, StructError)
    case Unavailable =>
      var s2 := Stopped(s1);
      if |turns| == 1 || !turns[0].startOk then (s2, WorkerUnavailable)
      else Attempts(w, Started(s2), ms, turns[1..])
  }

  // ---------------------------------------------------------------- the invariant

  /** A process that owes no reply; its queue holds at most the reader's terminal failure. */
  predicate Quiet(p: Proc) {
    && p.inbox == [] && p.outbox == []
    && ((p.queue == [] && !p.readerDone) || (p.queue == [R.ReaderFailed] && p.readerDone))
  }

  predicate Idle(st: State) {
    st.Valid() && (st.current.Some? ==> Quiet(st.procs[st.current.value]))
  }

  lemma QuietStays(w: World, p: Proc, k: Kind)
    requires w.Valid() && Quiet(p)
    ensures Quiet(ProcStep(w, p, k))
  {
    assert R.ReadOne(p.outbox) == R.ReadFailure;
  }

  lemma {:induction false} QuietStaysAll(w: World, procs: seq<Proc>, es: seq<Event>, c: nat)
    requires w.Valid() && c < |procs| && Quiet(procs[c])
    ensures Quiet(HappenAll(w, procs, es)[c])
    decreases |es|
  {
    if es != [] {
      if es[0].proc == c { QuietStays(w, procs[c], es[0].kind); }
      QuietStaysAll(w, Happen(w, procs, es[0]), es[1..], c);
    }
  }

  /** The response to the request `b`, if the worker can write it at all. */
  function Owed(w: World, b: seq<Byte>): Option<R.Response>
    requires w.Valid() && b != []
  {
    var (response, exits) := Respond(w, ParseRequest(b, w.maxBatch, w.maxFrames));
    if R.Writable(response) then Some(response) else None
  }

  /** All that is left of the written response; only a crash cuts it short. */
  ghost predicate Remainder(p: Proc, owed: Option<R.Response>) {
    match owed
    case None => p.outbox == [] && !p.alive
    case Some(r) => R.Writable(r) && exists n: nat ::
      n <= |R.EncodeResponse(r)| && p.outbox == R.EncodeResponse(r)[..n] && (n < |R.EncodeResponse(r)| ==> !p.alive)
  }

  datatype Phase = Unserved | Served | Delivered | DeliveredThenFailed | OnlyFailed

  /** The ways an exchange for request `b` can stand: nothing in the process's pipes or queue ever
      stems from another request. */
  ghost predicate Stands(w: World, p: Proc, b: seq<Byte>, phase: Phase)
    requires w.Valid() && b != []
  {
    var owed := Owed(w, b);
    match phase
    case Unserved => !p.readerDone && p.queue == [] && p.inbox == b && p.outbox == []
    case Served => !p.readerDone && p.queue == [] && p.inbox == [] && Remainder(p, owed)
    case Delivered => !p.readerDone && owed.Some? && p.queue == [R.Received(R.Seen(owed.value))] && p.inbox == [] && p.outbox == []
    case DeliveredThenFailed => p.readerDone && owed.Some? && p.queue == [R.Received(R.Seen(owed.value)), R.ReaderFailed] && p.inbox == [] && p.outbox == []
    case OnlyFailed => p.readerDone && p.queue == [R.ReaderFailed]
  }

  ghost predicate Awaits(w: World, p: Proc, b: seq<Byte>)
    requires w.Valid() && b != []
  {
    exists phase :: Stands(w, p, b, phase)
  }

  /** A request whose bytes the worker consumes whole, whether it accepts or refuses them. */
  predicate WholeRequest(w: World, b: seq<Byte>)
    requires w.Valid()
  {
    b != [] && (var o := ParseRequest(b, w.maxBatch, w.maxFrames); o.ReadOk? ==> o.rest == [])
  }

  lemma ServedOutput(w: World, p: Proc)
    requires w.Valid() && p.alive && p.inbox != [] && WholeRequest(w, p.inbox)
    ensures var (t, owed) := (Worked(w, p), Owed(w, p.inbox));
            t.inbox == [] && t.queue == p.queue && t.readerDone == p.readerDone
            && (owed.None? ==> t.outbox == p.outbox && !t.alive)
            && (owed.Some? ==> R.Writable(owed.value) && t.outbox == p.outbox + R.EncodeResponse(owed.value))
  {
  }

  /** The worker serves the waiting request. */
  lemma ServesRequest(w: World, p: Proc, b: seq<Byte>)
    requires w.Valid() && WholeRequest(w, b) && Stands(w, p, b, Unserved) && p.alive
    ensures Stands(w, Worked(w, p), b, Served)
  {
    ServedOutput(w, p);
    if Owed(w, b).Some? {
      var s := R.EncodeResponse(Owed(w, b).value);
      assert [] + s == s[..|s|];
    }
  }

  lemma WorkAwaits(w: World, p: Proc, b: seq<Byte>, phase: Phase)
    requires w.Valid() && WholeRequest(w, b) && Stands(w, p, b, phase)
    ensures Awaits(w, Worked(w, p), b)
  {
    if phase.Unserved? && p.alive {
      ServesRequest(w, p, b);
    } else if phase.OnlyFailed? {
      WorkKeepsQueue(w, p);
      assert Stands(w, Worked(w, p), b, OnlyFailed);
    } else {
      assert Worked(w, p) == p;
    }
  }

  lemma WorkKeepsQueue(w: World, p: Proc)
    requires w.Valid()
    ensures Worked(w, p).queue == p.queue && Worked(w, p).readerDone == p.readerDone
  {
  }

  lemma ReadAwaits(w: World, p: Proc, b: seq<Byte>, phase: Phase)
    requires w.Valid() && b != [] && Stands(w, p, b, phase)
    ensures Awaits(w, HasRead(p), b)
  {
    var t := HasRead(p);
    if t == p {
      assert Stands(w, t, b, phase);
    } else if phase.Served? && Owed(w, b).Some? {
      ReadRemainder(w, p, b);
    } else if phase.Delivered? {
      assert Stands(w, t, b, DeliveredThenFailed);
    } else {
      assert Stands(w, t, b, OnlyFailed);
    }
  }

  lemma ReadRemainder(w: World, p: Proc, b: seq<Byte>)
    requires w.Valid() && b != [] && Stands(w, p, b, Served) && Owed(w, b).Some? && HasRead(p) != p
    ensures Awaits(w, HasRead(p), b)
  {
    var r := Owed(w, b).value;
    var s := R.EncodeResponse(r);
    var n: nat :| n <= |s| && p.outbox == s[..n] && (n < |s| ==> !p.alive);
    if n == |s| && |R.Payload(r)| <= R.READER_LIMIT {
      assert p.outbox == s + [];
      R.ReadWritten(r, []);
      assert Stands(w, HasRead(p), b, Delivered);
    } else {
      CutOrOversized(r, n);
      assert Stands(w, HasRead(p), b, OnlyFailed);
    }
  }

  lemma CutOrOversized(r: R.Response, n: nat)
    requires R.Writable(r) && n <= |R.EncodeResponse(r)|
    requires n < |R.EncodeResponse(r)| || |R.Payload(r)| > R.READER_LIMIT
    ensures R.ReadOne(R.EncodeResponse(r)[..n]) == R.ReadFailure
  {
    var s := R.EncodeResponse(r);
    if n < |s| {
      R.CutResponseFails(r, n);
    } else {
      assert s[..n] == s;
      R.OversizedFails(r);
    }
  }

  lemma CrashAwaits(w: World, p: Proc, b: seq<Byte>, phase: Phase, cut: nat)
    requires w.Valid() && b != [] && Stands(w, p, b, phase)
    ensures Awaits(w, Crashed(p, cut), b)
  {
    var t := Crashed(p, cut);
    if phase.Served? && Owed(w, b).Some? {
      var s := R.EncodeResponse(Owed(w, b).value);
      var n: nat :| n <= |s| && p.outbox == s[..n] && (n < |s| ==> !p.alive);
      var m := if p.alive && cut < n then cut else n;
      assert t.outbox == s[..m];
      assert Remainder(t, Owed(w, b));
    }
    assert Stands(w, t, b, phase);
  }

  lemma StepAwaits(w: World, p: Proc, b: seq<Byte>, k: Kind)
    requires w.Valid() && WholeRequest(w, b) && Awaits(w, p, b)
    ensures Awaits(w, ProcStep(w, p, k), b)
  {
    var phase :| Stands(w, p, b, phase);
    match k
    case Work => WorkAwaits(w, p, b, phase);
    case Read => ReadAwaits(w, p, b, phase);
    case Crash(cut) => CrashAwaits(w, p, b, phase, cut);
  }

  lemma {:induction false} AwaitsAll(w: World, procs: seq<Proc>, es: seq<Event>, c: nat, b: seq<Byte>)
    requires w.Valid() && c < |procs| && WholeRequest(w, b) && Awaits(w, procs[c], b)
    ensures Awaits(w, HappenAll(w, procs, es)[c], b)
    decreases |es|
  {
    if es != [] {
      if es[0].proc == c { StepAwaits(w, procs[c], b, es[0].kind); }
      AwaitsAll(w, Happen(w, procs, es[0]), es[1..], c, b);
    }
  }
}
