/** The client over the worker protocol refines a direct call of the engine, under every
    schedule of crashes, late replies, time-outs and restarts. */
module WorkerRuns {
  import opened Bytes
  import opened RequestCodec
  import opened Wrappers
  import opened WorkerProtocol
  import R = ResponseCodec

  // ---------------------------------------------------------------- what is owed

  lemma EncodedIsWhole(w: World, q: Request)
    requires w.Valid() && Packable(q) && Consistent(q.features)
    ensures WholeRequest(w, EncodeRequest(q))
  {
    var b := EncodeRequest(q);
    var o := ParseRequest(b, w.maxBatch, w.maxFrames);
    assert b != [] by { assert |b| >= HEADER_BYTES; }
    if o.ReadOk? { DecodedIsSame(w, q); }
  }

  lemma ValidIsConsistent(ms: seq<FeatureMatrix>, maxFrames: nat)
    requires ValidMatrices(ms, maxFrames)
    ensures Consistent(ms)
  {
    forall i | 0 <= i < |ms| ensures |ms[i].values| == 80 * ms[i].frames { assert ValidMatrix(ms[i], maxFrames); }
  }

  lemma DecodedIsSame(w: World, q: Request)
    requires w.Valid() && Packable(q) && Consistent(q.features)
    requires ParseRequest(EncodeRequest(q), w.maxBatch, w.maxFrames).ReadOk?
    ensures ParseRequest(EncodeRequest(q), w.maxBatch, w.maxFrames) == ReadOk(q, [])
  {
    var b := EncodeRequest(q);
    EncodeDecodedRequest(b, w.maxBatch, w.maxFrames);
    var o := ParseRequest(b, w.maxBatch, w.maxFrames);
    assert b + [] == b;
    if o.request.operation == OP_INFER { ValidIsConsistent(o.request.features, w.maxFrames); }
    RequestInjective(q, [], o.request, o.rest);
  }

  /** A refusal carries the id in the header. */
  lemma RefusalKeepsId(w: World, q: Request)
    requires w.Valid() && Packable(q) && ParseRequest(EncodeRequest(q), w.maxBatch, w.maxFrames).ReadError?
    ensures ParseRequest(EncodeRequest(q), w.maxBatch, w.maxFrames).requestId == q.requestId
  {
    var b := EncodeRequest(q);
    assert b[..HEADER_BYTES] == PackHeader(RequestHeader(q));
    UnpackPack(RequestHeader(q));
  }

  /** The reply owed to an inference request carries its id; on success it holds the engine's
      results for exactly those matrices, on a backend error the engine's message. */
  lemma OwedIsEngines(w: World, id: nat, ms: seq<FeatureMatrix>)
    requires w.Valid() && Packable(Request(OP_INFER, id, MEL_BINS, ms)) && Consistent(ms)
    ensures var b := EncodeRequest(Request(OP_INFER, id, MEL_BINS, ms));
            b != [] &&
            match Owed(w, b)
            case None => true
            case Some(r) =>
              && r.requestId == id
              && (r.status == R.STATUS_OK ==> w.engine(ms) == Results(r.results))
              && (r.status == R.STATUS_BACKEND ==> w.engine(ms) == Throws(r.error))
              && (r.status == R.STATUS_OK || r.status == R.STATUS_BACKEND || r.status == R.STATUS_INVALID)
              && (r.status == R.STATUS_INVALID ==> ParseRequest(b, w.maxBatch, w.maxFrames).ReadError?)
  {
    var q := Request(OP_INFER, id, MEL_BINS, ms);
    EncodedIsWhole(w, q);
    var o := ParseRequest(EncodeRequest(q), w.maxBatch, w.maxFrames);
    if o.ReadOk? { DecodedIsSame(w, q); } else { RefusalKeepsId(w, q); }
    RespondsWith(w, o, id, ms);
  }

  lemma RespondsWith(w: World, o: ReadOutcome, id: nat, ms: seq<FeatureMatrix>)
    requires o.ReadOk? || o.ReadError?
    requires o.ReadOk? ==> o.request == Request(OP_INFER, id, MEL_BINS, ms)
    requires o.ReadError? ==> o.requestId == id
    ensures var r := Respond(w, o).0;
            && r.requestId == id
            && (r.status == R.STATUS_OK ==> w.engine(ms) == Results(r.results))
            && (r.status == R.STATUS_BACKEND ==> w.engine(ms) == Throws(r.error))
            && (r.status == R.STATUS_OK || r.status == R.STATUS_BACKEND || r.status == R.STATUS_INVALID)
            && (r.status == R.STATUS_INVALID ==> o.ReadError?)
  {
  }

  // ---------------------------------------------------------------- one exchange

  lemma WriteAwaits(w: World, p: Proc, b: seq<Byte>)
    requires w.Valid() && b != [] && Quiet(p)
    ensures Awaits(w, p.(inbox := p.inbox + b), b)
  {
    var t := p.(inbox := p.inbox + b);
    assert [] + b == b;
    if p.readerDone { assert Stands(w, t, b, OnlyFailed); } else { assert Stands(w, t, b, Unserved); }
  }

  /** The first message an awaiting process yields is the owed reply or the reader's failure, and
      once the reply is taken the process owes nothing. */
  lemma FirstMessage(w: World, p: Proc, b: seq<Byte>)
    requires w.Valid() && b != [] && Awaits(w, p, b) && p.queue != [] && p.queue[0].Received?
    ensures Owed(w, b).Some? && p.queue[0] == R.Received(R.Seen(Owed(w, b).value))
    ensures Quiet(p.(queue := p.queue[1..]))
  {
    var phase :| Stands(w, p, b, phase);
  }

  /** Between calls a live process owes no reply: the invariant survives every exchange that does
      not end in the process being dropped, and a reply is always the one owed. */
  lemma ExchangeKeepsIdle(w: World, st: State, ms: seq<FeatureMatrix>, op: nat, t: Turn)
    requires w.Valid() && Idle(st) && Consistent(ms)
    ensures var (s, x) := Exchange(w, st, op, ms, t);
            && (!x.Unavailable? ==> Idle(s))
            && (x.Returned? || x.ExecutionError? ==>
                  && Packable(Request(op, st.nextId, MEL_BINS, ms))
                  && (var b := EncodeRequest(Request(op, st.nextId, MEL_BINS, ms));
                      b != [] && Owed(w, b).Some? && x == Verdict(R.Received(R.Seen(Owed(w, b).value)), st.nextId)))
  {
    if st.current.Some? {
      var c := st.current.value;
      QuietStaysAll(w, st.procs, t.before, c);
      var q := Request(op, st.nextId, MEL_BINS, ms);
      if Packable(q) && t.writeOk {
        var b := EncodeRequest(q);
        EncodedIsWhole(w, q);
        var s1 := st.(procs := HappenAll(w, st.procs, t.before), nextId := st.nextId + 1);
        WriteAwaits(w, s1.procs[c], b);
        var s3 := Wrote(s1, c, b);
        AwaitsAll(w, s3.procs, t.during, c, b);
        var p := HappenAll(w, s3.procs, t.during)[c];
        if p.queue != [] && p.queue[0].Received? { FirstMessage(w, p, b); }
      }
    }
  }

  // ---------------------------------------------------------------- a whole call

  /** The result is, bit for bit, what the engine produced for exactly these matrices. */
  ghost predicate Genuine(w: World, ms: seq<FeatureMatrix>, r: Inferred) {
    match r
    case Success(embeddings, qualities) =>
      w.engine(ms).Results?
      && embeddings == R.Embeddings(w.engine(ms).results) && qualities == R.Qualities(w.engine(ms).results)
    case EngineFailed(status, error) => status == R.STATUS_BACKEND ==> w.engine(ms) == Throws(error)
    case _ => true
  }

  lemma ExchangeGenuine(w: World, st: State, ms: seq<FeatureMatrix>, t: Turn)
    requires w.Valid() && Idle(st) && Consistent(ms)
    ensures var (s, x) := Exchange(w, st, OP_INFER, ms, t);
            && (x.Returned? ==> Genuine(w, ms, Success(x.response.embeddings, x.response.qualities)))
            && (x.ExecutionError? ==> Genuine(w, ms, EngineFailed(x.status, x.error)))
            && (x.ExecutionError? && x.status != R.STATUS_BACKEND ==>
                  !AcceptedBy(w, Request(OP_INFER, st.nextId, MEL_BINS, ms)))
  {
    ExchangeKeepsIdle(w, st, ms, OP_INFER, t);
    var (s, x) := Exchange(w, st, OP_INFER, ms, t);
    if x.Returned? || x.ExecutionError? {
      OwedIsEngines(w, st.nextId, ms);
      if AcceptedBy(w, Request(OP_INFER, st.nextId, MEL_BINS, ms)) {
        DecodeEncodedRequest(Request(OP_INFER, st.nextId, MEL_BINS, ms), [], w.maxBatch, w.maxFrames);
        var b := EncodeRequest(Request(OP_INFER, st.nextId, MEL_BINS, ms));
        assert b + [] == b;
      }
    }
  }

  /** The requests the worker's own checks let through. */
  predicate AcceptedBy(w: World, q: Request)
    requires w.Valid()
  {
    Packable(q) && Serviceable(q, w.maxBatch, w.maxFrames)
    && WithinLimit(|EncodeMatrices(q.features)|, w.maxBatch, w.maxFrames)
  }

  lemma StoppedIsIdle(st: State)
    requires st.Valid()
    ensures Idle(Stopped(st)) && Idle(Started(Stopped(st)))
  {
  }

  /** Refinement: whatever crashes, time-outs and restarts occur, a call that returns returns the
      engine's own result, and the client is idle again afterwards. */
  lemma {:induction false} InferRefinesEngine(w: World, st: State, ms: seq<FeatureMatrix>, turns: seq<Turn>)
    requires w.Valid() && Idle(st) && Consistent(ms) && turns != []
    ensures var (s, r) := Attempts(w, st, ms, turns); Idle(s) && Genuine(w, ms, r)
    decreases |turns|
  {
    ExchangeKeepsIdle(w, st, ms, OP_INFER, turns[0]);
    ExchangeGenuine(w, st, ms, turns[0]);
    var (s1, x) := Exchange(w, st, OP_INFER, ms, turns[0]);
    if x.Unavailable? {
      StoppedIsIdle(s1);
      if |turns| > 1 && turns[0].startOk {
        InferRefinesEngine(w, Started(Stopped(s1)), ms, turns[1..]);
      }
    }
  }

  // ---------------------------------------------------------------- whole lifetimes

  /** What a client object goes through: calls, the outside world in between, and `close`. */
  datatype Command =
    | Call(ms: seq<FeatureMatrix>, turns: seq<Turn>)
    | Outside(events: seq<Event>)
    | Shut(turn: Turn)

  /** The constructor: start a process and ping it; on failure the process is stopped again. */
  function Opened(w: World, t: Turn): (st: State)
    requires w.Valid()
    ensures st.Valid()
  {
    var (s, x) := Exchange(w, Started(State([], None, 1, false)), OP_PING, [], t);
    if x.Returned? then s else Stopped(s)
  }

  /** `close`: a shutdown request if the process lives, then stop it in any case. */
  function Closed(w: World, st: State, t: Turn): (s: State)
    requires w.Valid() && st.Valid()
    ensures s.Valid()
  {
    if st.closed then st
    else if st.current.Some? && st.procs[st.current.value].alive
    then Stopped(Exchange(w, st.(closed := true), OP_SHUTDOWN, [], t).0)
    else Stopped(st.(closed := true))
  }

  function Obey(w: World, st: State, c: Command): (r: (State, Inferred))
    requires w.Valid() && st.Valid()
    ensures r.0.Valid()
  {
    match c
    case Outside(es) => (st.(procs := HappenAll(w, st.procs, es)), WorkerUnavailable)
    case Shut(t) => (Closed(w, st, t), WorkerUnavailable)
    case Call(ms, turns) =>
      if st.closed || turns == [] then (st, WorkerUnavailable) else Attempts(w, st, ms, turns)
  }

  predicate WellFormed(c: Command) { c.Call? ==> Consistent(c.ms) }

  ghost predicate AllGenuine(w: World, st: State, cs: seq<Command>)
    requires w.Valid() && st.Valid()
    decreases |cs|
  {
    cs != [] ==>
      && (cs[0].Call? ==> Genuine(w, cs[0].ms, Obey(w, st, cs[0]).1))
      && AllGenuine(w, Obey(w, st, cs[0]).0, cs[1..])
  }

  lemma ObeyKeepsIdle(w: World, st: State, c: Command)
    requires w.Valid() && Idle(st) && WellFormed(c)
    ensures Idle(Obey(w, st, c).0)
    ensures c.Call? ==> Genuine(w, c.ms, Obey(w, st, c).1)
  {
    match c
    case Outside(es) => if st.current.Some? { QuietStaysAll(w, st.procs, es, st.current.value); }
    case Shut(t) =>
    case Call(ms, turns) => if !st.closed && turns != [] { InferRefinesEngine(w, st, ms, turns); }
  }

  lemma {:induction false} RunIsGenuine(w: World, st: State, cs: seq<Command>)
    requires w.Valid() && Idle(st) && forall i :: 0 <= i < |cs| ==> WellFormed(cs[i])
    ensures AllGenuine(w, st, cs)
    decreases |cs|
  {
    if cs != [] {
      ObeyKeepsIdle(w, st, cs[0]);
      RunIsGenuine(w, Obey(w, st, cs[0]).0, cs[1..]);
    }
  }

  /** Over the whole lifetime of a client, from its constructor on, every result it returns is the
      engine's result for the matrices of that call. */
  lemma LifetimeRefinesEngine(w: World, t: Turn, cs: seq<Command>)
    requires w.Valid() && forall i :: 0 <= i < |cs| ==> WellFormed(cs[i])
    ensures AllGenuine(w, Opened(w, t), cs)
  {
    var newborn := Started(State([], None, 1, false));
    ExchangeKeepsIdle(w, newborn, [], OP_PING, t);
    RunIsGenuine(w, Opened(w, t), cs);
  }

  // ---------------------------------------------------------------- progress

  /** Process `c` does not crash. */
  ghost predicate Unharmed(es: seq<Event>, c: nat) {
    forall i :: 0 <= i < |es| && es[i].proc == c ==> !es[i].kind.Crash?
  }

  /** Its worker takes a turn and later its reader does, among whatever else. */
  ghost predicate TakesTurns(es: seq<Event>, c: nat) {
    exists i, j :: 0 <= i < j < |es| && es[i] == Event(c, Work) && es[j] == Event(c, Read)
  }

  /** The process neither crashes nor is starved; everything else is left open. */
  ghost predicate Healthy(t: Turn, c: nat) {
    t.writeOk && Unharmed(t.before, c) && Unharmed(t.during, c) && TakesTurns(t.during, c)
  }

  /** The worker takes the request, answers `r` and goes on, and the reader accepts the answer. */
  predicate AnsweredBy(w: World, q: Request, r: R.Response)
    requires w.Valid()
  {
    && Packable(q) && EncodeRequest(q) != []
    && ParseRequest(EncodeRequest(q), w.maxBatch, w.maxFrames) == ReadOk(q, [])
    && Respond(w, ReadOk(q, [])) == (r, false)
    && R.Writable(r) && |R.Payload(r)| <= R.READER_LIMIT
  }

  /** A healthy process on the way from the request to its delivered reply. */
  predicate Underway(w: World, p: Proc, q: Request, r: R.Response, phase: Phase)
    requires w.Valid() && AnsweredBy(w, q, r)
  {
    match phase
    case Unserved => p == FRESH.(inbox := EncodeRequest(q))
    case Served => p == FRESH.(outbox := R.EncodeResponse(r))
    case Delivered => p == FRESH.(queue := [R.Received(R.Seen(r))])
    case _ => false
  }

  function NextPhase(phase: Phase, k: Kind): Phase {
    if phase.Unserved? && k.Work? then Served else if phase.Served? && k.Read? then Delivered else phase
  }

  function LastPhase(phase: Phase, es: seq<Event>, c: nat): Phase
    decreases |es|
  {
    if es == [] then phase else LastPhase(if es[0].proc == c then NextPhase(phase, es[0].kind) else phase, es[1..], c)
  }

  lemma WorkedOn(w: World, p: Proc, q: Request, r: R.Response)
    requires w.Valid() && p.alive && p.inbox != [] && ParseRequest(p.inbox, w.maxBatch, w.maxFrames) == ReadOk(q, [])
    requires Respond(w, ReadOk(q, [])) == (r, false) && R.Writable(r)
    ensures Worked(w, p) == p.(inbox := [], outbox := p.outbox + R.EncodeResponse(r))
  {
  }

  lemma ReadMoves(w: World, p: Proc, q: Request, r: R.Response)
    requires w.Valid() && AnsweredBy(w, q, r) && Underway(w, p, q, r, Phase.Served)
    ensures Underway(w, HasRead(p), q, r, Delivered)
  {
    assert R.EncodeResponse(r) + [] == R.EncodeResponse(r);
    R.ReadWritten(r, []);
  }

  lemma StepMoves(w: World, p: Proc, q: Request, r: R.Response, phase: Phase, k: Kind)
    requires w.Valid() && AnsweredBy(w, q, r) && Underway(w, p, q, r, phase) && !k.Crash?
    ensures Underway(w, ProcStep(w, p, k), q, r, NextPhase(phase, k))
  {
    if phase.Unserved? && k.Work? {
      WorkedOn(w, p, q, r);
      assert [] + R.EncodeResponse(r) == R.EncodeResponse(r);
    } else if phase.Served? && k.Read? {
      ReadMoves(w, p, q, r);
    } else if k.Read? {
      assert R.ReadOne(p.outbox) == R.ReadFailure;
    }
  }

  lemma {:induction false} AllMove(w: World, procs: seq<Proc>, es: seq<Event>, c: nat, q: Request, r: R.Response, phase: Phase)
    requires w.Valid() && AnsweredBy(w, q, r) && c < |procs| && Underway(w, procs[c], q, r, phase) && Unharmed(es, c)
    ensures Underway(w, HappenAll(w, procs, es)[c], q, r, LastPhase(phase, es, c))
    decreases |es|
  {
    if es != [] {
      var next := if es[0].proc == c then NextPhase(phase, es[0].kind) else phase;
      EventMoves(w, procs, es[0], c, q, r, phase);
      AllMove(w, Happen(w, procs, es[0]), es[1..], c, q, r, next);
    }
  }

  lemma EventMoves(w: World, procs: seq<Proc>, e: Event, c: nat, q: Request, r: R.Response, phase: Phase)
    requires w.Valid() && AnsweredBy(w, q, r) && c < |procs| && Underway(w, procs[c], q, r, phase)
    requires e.proc == c ==> !e.kind.Crash?
    ensures Underway(w, Happen(w, procs, e)[c], q, r, if e.proc == c then NextPhase(phase, e.kind) else phase)
  {
    if e.proc == c { StepMoves(w, procs[c], q, r, phase, e.kind); }
  }

  lemma {:induction false} DeliveredStays(es: seq<Event>, c: nat)
    ensures LastPhase(Delivered, es, c) == Delivered
    decreases |es|
  {
    if es != [] { DeliveredStays(es[1..], c); }
  }

  lemma {:induction false} ServedDelivers(es: seq<Event>, c: nat, j: nat)
    requires j < |es| && es[j] == Event(c, Read)
    ensures LastPhase(Served, es, c) == Delivered
    decreases |es|
  {
    if es[0] == Event(c, Read) { DeliveredStays(es[1..], c); } else { ServedDelivers(es[1..], c, j - 1); }
  }

  lemma {:induction false} TurnsDeliver(es: seq<Event>, c: nat, i: nat, j: nat)
    requires i < j < |es| && es[i] == Event(c, Work) && es[j] == Event(c, Read)
    ensures LastPhase(Unserved, es, c) == Delivered
    decreases |es|
  {
    if es[0] == Event(c, Work) { ServedDelivers(es[1..], c, j - 1); } else { TurnsDeliver(es[1..], c, i - 1, j - 1); }
  }

  lemma {:induction false} FreshStays(w: World, procs: seq<Proc>, es: seq<Event>, c: nat)
    requires w.Valid() && c < |procs| && procs[c] == FRESH && Unharmed(es, c)
    ensures HappenAll(w, procs, es)[c] == FRESH
    decreases |es|
  {
    if es != [] {
      assert R.ReadOne(FRESH.outbox) == R.ReadFailure;
      FreshStays(w, Happen(w, procs, es[0]), es[1..], c);
    }
  }

  lemma TurnsAnswer(w: World, procs: seq<Proc>, es: seq<Event>, c: nat, q: Request, r: R.Response)
    requires w.Valid() && AnsweredBy(w, q, r) && c < |procs| && Underway(w, procs[c], q, r, Unserved)
    requires Unharmed(es, c) && TakesTurns(es, c)
    ensures HappenAll(w, procs, es)[c] == FRESH.(queue := [R.Received(R.Seen(r))])
  {
    var i, j :| 0 <= i < j < |es| && es[i] == Event(c, Work) && es[j] == Event(c, Read);
    AllMove(w, procs, es, c, q, r, Unserved);
    TurnsDeliver(es, c, i, j);
  }

  /** The client's current process is alive and owes nothing, and no failure is queued. */
  predicate Live(st: State) {
    st.Valid() && st.current.Some? && st.procs[st.current.value] == FRESH
  }

  /** The same process is current, alive and owes nothing, no process was started, one id was used. */
  predicate Undisturbed(before: State, after: State) {
    Live(after) && after.current == before.current && |after.procs| == |before.procs|
    && after.nextId == before.nextId + 1 && after.closed == before.closed
  }

  /** A live process that does not crash and is given its turns delivers its answer, in every schedule and
      whatever other processes do, and stays the client's process. */
  lemma HealthyReply(w: World, st: State, op: nat, ms: seq<FeatureMatrix>, t: Turn, r: R.Response)
    requires w.Valid() && Live(st) && AnsweredBy(w, Request(op, st.nextId, MEL_BINS, ms), r) && Healthy(t, st.current.value)
    ensures Exchange(w, st, op, ms, t).1 == Verdict(R.Received(R.Seen(r)), st.nextId)
    ensures Undisturbed(st, Exchange(w, st, op, ms, t).0)
  {
    var c, q := st.current.value, Request(op, st.nextId, MEL_BINS, ms);
    FreshStays(w, st.procs, t.before, c);
    var procs := HappenAll(w, st.procs, t.before);
    assert [] + EncodeRequest(q) == EncodeRequest(q);
    TurnsAnswer(w, procs[c := FRESH.(inbox := EncodeRequest(q))], t.during, c, q, r);
  }

  /** The engine's answer on the wire: its results, or its error. */
  function Answer(w: World, id: nat, ms: seq<FeatureMatrix>): R.Response {
    match w.engine(ms)
    case Results(rs) => R.Response(0, id, [], rs)
    case Throws(e) => R.Response(2, id, e, [])
  }

  /** The worker's checks let the batch through, and the engine's answer fits into a response. */
  predicate Answerable(w: World, id: nat, ms: seq<FeatureMatrix>)
    requires w.Valid()
  {
    AcceptedBy(w, Request(OP_INFER, id, MEL_BINS, ms)) && R.Writable(Answer(w, id, ms)) && |R.Payload(Answer(w, id, ms))| <= R.READER_LIMIT
  }

  lemma AnswerServed(w: World, id: nat, ms: seq<FeatureMatrix>)
    requires w.Valid() && Answerable(w, id, ms)
    ensures AnsweredBy(w, Request(OP_INFER, id, MEL_BINS, ms), Answer(w, id, ms))
  {
    var q := Request(OP_INFER, id, MEL_BINS, ms);
    var b := EncodeRequest(q);
    assert b + [] == b && |b| >= HEADER_BYTES;
    DecodeEncodedRequest(q, [], w.maxBatch, w.maxFrames);
  }

  /** What a caller is told of the engine's answer. */
  ghost predicate Told(w: World, ms: seq<FeatureMatrix>, outcome: Inferred) {
    match w.engine(ms)
    case Results(rs) =>
      outcome.Success? && |outcome.embeddings| == |outcome.qualities| == |rs|
      && forall i :: 0 <= i < |rs| ==> (outcome.embeddings[i] == rs[i].embedding && outcome.qualities[i] == rs[i].quality)
    case Throws(e) => outcome == EngineFailed(2, e)
  }

  /** A healthy exchange returns the engine's results or reports its error. */
  lemma HealthyExchange(w: World, st: State, ms: seq<FeatureMatrix>, t: Turn)
    requires w.Valid() && Live(st) && Answerable(w, st.nextId, ms) && Healthy(t, st.current.value)
    ensures var (s, x) := Exchange(w, st, OP_INFER, ms, t);
            Undisturbed(st, s)
            && match w.engine(ms)
               case Results(rs) => x == Returned(R.Seen(Answer(w, st.nextId, ms)))
               case Throws(e) => x == ExecutionError(2, e)
  {
    AnswerServed(w, st.nextId, ms);
    HealthyReply(w, st, OP_INFER, ms, t, Answer(w, st.nextId, ms));
  }

  /** A call whose first attempt is healthy tells the caller the engine's answer, its error included, and
      leaves the same process running. */
  lemma HealthyCall(w: World, st: State, ms: seq<FeatureMatrix>, turns: seq<Turn>)
    requires w.Valid() && turns != [] && Live(st) && Answerable(w, st.nextId, ms) && Healthy(turns[0], st.current.value)
    ensures var (s, outcome) := Attempts(w, st, ms, turns); Undisturbed(st, s) && Told(w, ms, outcome)
  {
    HealthyExchange(w, st, ms, turns[0]);
  }

  /** A worker that answers the first ping is kept: the client starts with one live process. */
  lemma HealthyStart(w: World, t: Turn)
    requires w.Valid() && MaximumBytes(w.maxBatch, w.maxFrames).Some? && Healthy(t, 0)
    ensures var st := Opened(w, t); Live(st) && |st.procs| == 1 && st.nextId == 2 && !st.closed
  {
    var q, r := Request(OP_PING, 1, MEL_BINS, []), R.Response(0, 1, [], []);
    PingServed(w, q, r);
    HealthyReply(w, Started(State([], None, 1, false)), OP_PING, [], t, r);
  }

  lemma PingServed(w: World, q: Request, r: R.Response)
    requires w.Valid() && MaximumBytes(w.maxBatch, w.maxFrames).Some?
    requires q == Request(OP_PING, 1, MEL_BINS, []) && r == R.Response(0, 1, [], [])
    ensures AnsweredBy(w, q, r)
  {
    var b := EncodeRequest(q);
    assert b + [] == b && |b| >= HEADER_BYTES;
    assert EncodeMatrices([]) == [];
    DecodeEncodedRequest(q, [], w.maxBatch, w.maxFrames);
  }

  /** The client's state before attempt `k` of a call, after `k` failed attempts and restarts. */
  function BeforeAttempt(w: World, st: State, ms: seq<FeatureMatrix>, turns: seq<Turn>, k: nat): (s: State)
    requires w.Valid() && st.Valid() && k <= |turns|
    ensures s.Valid()
  {
    if k == 0 then st
    else Started(Stopped(Exchange(w, BeforeAttempt(w, st, ms, turns, k - 1), OP_INFER, ms, turns[k - 1]).0))
  }

  /** Each of the first `k` attempts fails in transport, and a new process can be started. */
  ghost predicate AllFail(w: World, st: State, ms: seq<FeatureMatrix>, turns: seq<Turn>, k: nat)
    requires w.Valid() && st.Valid() && k <= |turns|
  {
    forall i: nat :: i < k ==> FailsAt(w, st, ms, turns, i)
  }

  predicate FailsAt(w: World, st: State, ms: seq<FeatureMatrix>, turns: seq<Turn>, i: nat)
    requires w.Valid() && st.Valid() && i < |turns|
  {
    turns[i].startOk && Exchange(w, BeforeAttempt(w, st, ms, turns, i), OP_INFER, ms, turns[i]).1.Unavailable?
  }

  lemma FailurePasses(w: World, st: State, ms: seq<FeatureMatrix>, turns: seq<Turn>)
    requires w.Valid() && st.Valid() && |turns| > 1 && turns[0].startOk && Exchange(w, st, OP_INFER, ms, turns[0]).1.Unavailable?
    ensures Attempts(w, st, ms, turns)
         == Attempts(w, Started(Stopped(Exchange(w, st, OP_INFER, ms, turns[0]).0)), ms, turns[1..])
  {
  }

  /** What the call comes to from attempt `k` on. */
  function Rest(w: World, st: State, ms: seq<FeatureMatrix>, turns: seq<Turn>, k: nat): (State, Inferred)
    requires w.Valid() && st.Valid() && k < |turns|
  {
    Attempts(w, BeforeAttempt(w, st, ms, turns, k), ms, turns[k..])
  }

  lemma NextAttempt(w: World, st: State, ms: seq<FeatureMatrix>, turns: seq<Turn>, k: nat)
    requires w.Valid() && st.Valid() && k + 1 < |turns| && FailsAt(w, st, ms, turns, k)
    ensures Rest(w, st, ms, turns, k) == Rest(w, st, ms, turns, k + 1)
  {
    assert turns[k..][0] == turns[k] && turns[k..][1..] == turns[k + 1..];
    FailurePasses(w, BeforeAttempt(w, st, ms, turns, k), ms, turns[k..]);
  }

  lemma FailuresPass(w: World, st: State, ms: seq<FeatureMatrix>, turns: seq<Turn>, k: nat)
    requires w.Valid() && st.Valid() && k < |turns| && AllFail(w, st, ms, turns, k)
    ensures Rest(w, st, ms, turns, 0) == Rest(w, st, ms, turns, k)
  {
    var rs := Rests(w, st, ms, turns);
    forall i: nat | i < k ensures rs[i] == rs[i + 1] { NextAttempt(w, st, ms, turns, i); }
    Unchanged(rs, k);
  }

  ghost function Rests(w: World, st: State, ms: seq<FeatureMatrix>, turns: seq<Turn>): (rs: seq<(State, Inferred)>)
    requires w.Valid() && st.Valid()
    ensures |rs| == |turns| && forall k :: 0 <= k < |turns| ==> rs[k] == Rest(w, st, ms, turns, k)
  {
    seq(|turns|, k requires 0 <= k < |turns| => Rest(w, st, ms, turns, k))
  }

  lemma {:induction false} Unchanged<T>(xs: seq<T>, k: nat)
    requires k < |xs| && forall i: nat :: i < k ==> xs[i] == xs[i + 1]
    ensures xs[0] == xs[k]
    decreases k
  {
    if k > 0 { Unchanged(xs, k - 1); }
  }

  /** A call ends as its first exchange that is not a transport failure says, with the state that exchange
      leaves; it ends unavailable only after an exchange that failed in transport, when no attempt is left
      or no new process can be started, and then without a process. */
  ghost predicate EndsAt(w: World, st: State, ms: seq<FeatureMatrix>, turns: seq<Turn>, k: nat)
    requires w.Valid() && st.Valid() && k < |turns|
  {
    var (s, x) := Exchange(w, BeforeAttempt(w, st, ms, turns, k), OP_INFER, ms, turns[k]);
    var (end, outcome) := Attempts(w, st, ms, turns);
    && AllFail(w, st, ms, turns, k)
    && match x
       case Returned(m) => end == s && outcome == Success(m.embeddings, m.qualities)
       case ExecutionError(status, error) => end == s && outcome == EngineFailed(status, error)
       case PackError => end == s && outcome == StructError
       case Unavailable => end.current == None && outcome == WorkerUnavailable && (k == |turns| - 1 || !turns[k].startOk)
  }

  lemma {:induction false} CallEndsAt(w: World, st: State, ms: seq<FeatureMatrix>, turns: seq<Turn>) returns (k: nat)
    requires w.Valid() && st.Valid() && turns != []
    ensures k < |turns| && EndsAt(w, st, ms, turns, k)
  {
    k := FirstStop(w, st, ms, turns, 0);
    StopEnds(w, st, ms, turns, k);
  }

  /** The call cannot go on after attempt `k`. */
  predicate Stops(w: World, st: State, ms: seq<FeatureMatrix>, turns: seq<Turn>, k: nat)
    requires w.Valid() && st.Valid() && k < |turns|
  {
    k == |turns| - 1 || !FailsAt(w, st, ms, turns, k)
  }

  lemma {:induction false} FirstStop(w: World, st: State, ms: seq<FeatureMatrix>, turns: seq<Turn>, n: nat) returns (k: nat)
    requires w.Valid() && st.Valid() && n < |turns| && AllFail(w, st, ms, turns, n)
    ensures k < |turns| && AllFail(w, st, ms, turns, k) && Stops(w, st, ms, turns, k)
    decreases |turns| - n
  {
    if Stops(w, st, ms, turns, n) {
      k := n;
    } else {
      OneMoreFails(w, st, ms, turns, n);
      k := FirstStop(w, st, ms, turns, n + 1);
    }
  }

  lemma OneMoreFails(w: World, st: State, ms: seq<FeatureMatrix>, turns: seq<Turn>, n: nat)
    requires w.Valid() && st.Valid() && n < |turns| && AllFail(w, st, ms, turns, n) && FailsAt(w, st, ms, turns, n)
    ensures AllFail(w, st, ms, turns, n + 1)
  {
    forall i: nat | i < n + 1 ensures FailsAt(w, st, ms, turns, i) {}
  }

  lemma StopEnds(w: World, st: State, ms: seq<FeatureMatrix>, turns: seq<Turn>, k: nat)
    requires w.Valid() && st.Valid() && k < |turns| && AllFail(w, st, ms, turns, k) && Stops(w, st, ms, turns, k)
    ensures EndsAt(w, st, ms, turns, k)
  {
    FailuresPass(w, st, ms, turns, k);
    assert turns[0..] == turns && turns[k..][0] == turns[k];
    FirstDecides(w, BeforeAttempt(w, st, ms, turns, k), ms, turns[k..]);
  }

  lemma FirstDecides(w: World, st: State, ms: seq<FeatureMatrix>, turns: seq<Turn>)
    requires w.Valid() && st.Valid() && turns != []
    requires |turns| == 1 || !turns[0].startOk || !Exchange(w, st, OP_INFER, ms, turns[0]).1.Unavailable?
    ensures var (s, x) := Exchange(w, st, OP_INFER, ms, turns[0]);
            var (end, outcome) := Attempts(w, st, ms, turns);
            match x
            case Returned(m) => end == s && outcome == Success(m.embeddings, m.qualities)
            case ExecutionError(status, error) => end == s && outcome == EngineFailed(status, error)
            case PackError => end == s && outcome == StructError
            case Unavailable => end.current == None && outcome == WorkerUnavailable
  {
  }

  /** After any number of failed attempts one healthy attempt on the restarted worker tells the engine's
      answer. */
  lemma RestartRecovers(w: World, st: State, ms: seq<FeatureMatrix>, turns: seq<Turn>, k: nat)
    requires w.Valid() && st.Valid() && 0 < k < |turns| && AllFail(w, st, ms, turns, k)
    requires var s := BeforeAttempt(w, st, ms, turns, k);
             Answerable(w, s.nextId, ms) && s.current.Some? && Healthy(turns[k], s.current.value)
    ensures Told(w, ms, Attempts(w, st, ms, turns).1)
  {
    var s := BeforeAttempt(w, st, ms, turns, k);
    FailuresPass(w, st, ms, turns, k);
    assert turns[0..] == turns && turns[k..][0] == turns[k];
    HealthyCall(w, s, ms, turns[k..]);
  }

  lemma {:induction false} OthersOnly(w: World, procs: seq<Proc>, es: seq<Event>, c: nat)
    requires w.Valid() && c < |procs| && forall i :: 0 <= i < |es| ==> es[i].proc != c
    ensures HappenAll(w, procs, es)[c] == procs[c]
    decreases |es|
  {
    if es != [] { OthersOnly(w, Happen(w, procs, es[0]), es[1..], c); }
  }

  /** The client writes to its live process, which is not heard of again meanwhile. */
  ghost predicate Written(st: State, t: Turn) {
    Live(st) && t.writeOk && Unharmed(t.before, st.current.value)
    && forall i :: 0 <= i < |t.during| ==> t.during[i].proc != st.current.value
  }

  lemma ExchangeWrites(w: World, st: State, q: Request, t: Turn)
    requires w.Valid() && Written(st, t) && q.requestId == st.nextId && q.melBins == MEL_BINS && Packable(q)
    ensures Exchange(w, st, q.operation, q.features, t).0.procs[st.current.value] == FRESH.(inbox := EncodeRequest(q))
  {
    var c, b := st.current.value, EncodeRequest(q);
    assert q == Request(q.operation, st.nextId, MEL_BINS, q.features);
    FreshStays(w, st.procs, t.before, c);
    assert [] + b == b;
    OthersOnly(w, HappenAll(w, st.procs, t.before)[c := FRESH.(inbox := b)], t.during, c);
  }

  /** Closing a live worker asks it to shut down (operation 3) before it is stopped. */
  lemma CloseAsks(w: World, st: State, t: Turn)
    requires w.Valid() && !st.closed && Written(st, t) && Packable(Request(3, st.nextId, MEL_BINS, []))
    ensures Closed(w, st, t).procs[st.current.value]
         == FRESH.(inbox := EncodeRequest(Request(3, st.nextId, MEL_BINS, [])), alive := false)
  {
    ExchangeWrites(w, st.(closed := true), Request(3, st.nextId, MEL_BINS, []), t);
  }

  /** Closing leaves no process; closing again changes nothing. */
  lemma CloseMeans(w: World, st: State, t: Turn)
    requires w.Valid() && st.Valid()
    ensures var s := Closed(w, st, t);
            s.closed && (st.closed ==> s == st) && (!st.closed ==> s.current == None) && |s.procs| == |st.procs|
  {
  }

  /** Every request written carries a new id: each exchange with a live process uses one up, any other none. */
  lemma IdsAdvance(w: World, st: State, op: nat, ms: seq<FeatureMatrix>, t: Turn)
    requires w.Valid() && st.Valid()
    ensures var (s, x) := Exchange(w, st, op, ms, t);
            st.nextId <= s.nextId <= st.nextId + 1 && (x != Unavailable ==> s.nextId == st.nextId + 1)
  {
  }
}
