/** The micro-batcher as a state machine: submitting, cancelling, closing, taking a batch and
    completing it, with the clock as a parameter of each step. */
module Scheduler {
  import opened Batching
  import opened Wrappers

  datatype Config = Config(
    maxBatchSize: int, maxWaitMs: int, perSessionLimit: int,
    boundaries: seq<int>, defaultDeadlineMs: int)
  {
    predicate Valid() {
      && maxBatchSize > 0 && maxWaitMs > 0 && defaultDeadlineMs > 0 && perSessionLimit > 0
      && forall i, j :: 0 <= i < j < |boundaries| ==> boundaries[i] <= boundaries[j]
    }
  }

  type Vector = seq<real>

  /** What a backend call yields: arrays of some shape, or an exception. */
  datatype Reply = Reply(embeddings: seq<Vector>, qualities: seq<real>) | Raised(error: string)

  datatype EmbeddingResult = EmbeddingResult(
    chunk: FeatureChunk, embedding: Vector, quality: real,
    batchSize: nat, queueDelayMs: real, inferenceMs: real)

  datatype Future = Pending | Done(result: EmbeddingResult) | Failed(error: string) | Cancelled

  /** `futures` and `chunks` are indexed by ordinal; `served` holds the ordinals whose batch
      has completed. */
  datatype State = State(
    queues: map<nat, seq<Queued>>, futures: seq<Future>, inflight: seq<Queued>,
    closing: bool, clock: real, served: set<nat>, chunks: seq<FeatureChunk>)

  const INITIAL := State(map[], [], [], false, 0.0, {}, [])

  // ---------------------------------------------------------------- readiness

  function Ms(ms: int): real { ms as real / 1000.0 }

  function MinOf(xs: seq<real>): (m: real)
    requires xs != []
    ensures m in xs && forall x :: x in xs ==> m <= x
  {
    if |xs| == 1 then xs[0]
    else
      var m := MinOf(xs[1..]);
      assert xs == [xs[0]] + xs[1..];
      if xs[0] <= m then xs[0] else m
  }

  function Deadlines(q: seq<Queued>): (r: seq<real>)
    ensures |r| == |q| && forall i :: 0 <= i < |q| ==> r[i] == q[i].deadlineAt
  {
    seq(|q|, i requires 0 <= i < |q| => q[i].deadlineAt)
  }

  function EnqueueTimes(q: seq<Queued>): (r: seq<real>)
    ensures |r| == |q| && forall i :: 0 <= i < |q| ==> r[i] == q[i].enqueuedAt
  {
    seq(|q|, i requires 0 <= i < |q| => q[i].enqueuedAt)
  }

  function EarliestDeadline(q: seq<Queued>): (d: real)
    requires q != []
    ensures forall x :: x in q ==> d <= x.deadlineAt
    ensures exists x :: x in q && d == x.deadlineAt
  {
    var d := MinOf(Deadlines(q));
    assert forall i :: 0 <= i < |q| ==> Deadlines(q)[i] in Deadlines(q);
    assert exists i :: 0 <= i < |q| && q[i].deadlineAt == d by {
      var i :| 0 <= i < |q| && Deadlines(q)[i] == d;
    }
    d
  }

  function FlushAt(cfg: Config, q: seq<Queued>): (t: real)
    requires q != []
    ensures forall x :: x in q ==> t <= x.enqueuedAt + Ms(cfg.maxWaitMs) && t <= x.deadlineAt
    ensures t <= EarliestDeadline(q)
  {
    var oldest := MinOf(EnqueueTimes(q));
    assert forall i :: 0 <= i < |q| ==> EnqueueTimes(q)[i] in EnqueueTimes(q);
    var d := EarliestDeadline(q);
    if oldest + Ms(cfg.maxWaitMs) <= d then oldest + Ms(cfg.maxWaitMs) else d
  }

  predicate Ready(cfg: Config, closing: bool, q: seq<Queued>, now: real) {
    q != [] && (closing || |q| >= cfg.maxBatchSize || now >= FlushAt(cfg, q))
  }

  /** The tuple (earliest deadline, flush time, bucket) of a ready bucket. */
  datatype Entry = Entry(deadline: real, flushAt: real, bucket: nat)

  /** Python's order on such tuples. */
  predicate EntryLe(a: Entry, b: Entry) {
    || a.deadline < b.deadline
    || (a.deadline == b.deadline
        && (a.flushAt < b.flushAt || (a.flushAt == b.flushAt && a.bucket <= b.bucket)))
  }

  function EntryOf(cfg: Config, q: seq<Queued>, bucket: nat): Entry
    requires q != []
  {
    Entry(EarliestDeadline(q), FlushAt(cfg, q), bucket)
  }

  /** `bucket` is the least entry among the ready buckets. */
  ghost predicate Selects(cfg: Config, queues: map<nat, seq<Queued>>, closing: bool, now: real, bucket: nat) {
    && bucket in queues && Ready(cfg, closing, queues[bucket], now)
    && forall b :: b in queues && Ready(cfg, closing, queues[b], now)
         ==> EntryLe(EntryOf(cfg, queues[bucket], bucket), EntryOf(cfg, queues[b], b))
  }

  /** The index of the first boundary that admits the frame count, else one past the last. */
  function BucketFor(boundaries: seq<int>, frames: int): (b: nat)
    ensures b <= |boundaries|
    ensures forall i :: 0 <= i < b ==> frames > boundaries[i]
    ensures b < |boundaries| ==> frames <= boundaries[b]
  {
    if boundaries == [] || frames <= boundaries[0] then 0
    else 1 + BucketFor(boundaries[1..], frames)
  }

  // ---------------------------------------------------------------- steps

  datatype Event =
    | Submit(chunk: FeatureChunk, deadlineMs: Option<int>, now: real)
    | Cancel(ordinal: nat)
    | Close
    | Tick(now: real)
    | Take(now: real, bucket: nat)
    | Finish(startedAt: real, completedAt: real, reply: Reply)

  function Bucket(cfg: Config, chunk: FeatureChunk): nat {
    BucketFor(cfg.boundaries, |chunk.features|)
  }

  function Delay(cfg: Config, deadlineMs: Option<int>): int {
    if deadlineMs.Some? then deadlineMs.value else cfg.defaultDeadlineMs
  }

  function QueueOf(queues: map<nat, seq<Queued>>, b: nat): seq<Queued> {
    if b in queues then queues[b] else []
  }

  function Submitted(cfg: Config, s: State, chunk: FeatureChunk, deadlineMs: Option<int>, now: real): State {
    if s.closing || Delay(cfg, deadlineMs) <= 0 then s.(clock := now)
    else
      var x := Queued(chunk, now + Ms(Delay(cfg, deadlineMs)), now, |s.futures|);
      var b := Bucket(cfg, chunk);
      s.(queues := s.queues[b := QueueOf(s.queues, b) + [x]],
         futures := s.futures + [Pending], chunks := s.chunks + [chunk], clock := now)
  }

  function AfterCancel(s: State, o: nat): State {
    if o < |s.futures| && s.futures[o].Pending? then s.(futures := s.futures[o := Cancelled]) else s
  }

  function NextBatch(cfg: Config, s: State, bucket: nat): seq<Queued>
    requires cfg.Valid() && bucket in s.queues
  {
    Batch(s.queues[bucket], cfg.perSessionLimit, cfg.maxBatchSize)
  }

  function Taken(cfg: Config, s: State, bucket: nat, now: real): State
    requires cfg.Valid() && bucket in s.queues
  {
    var batch := NextBatch(cfg, s, bucket);
    var rest := Without(s.queues[bucket], batch);
    s.(queues := if rest == [] then s.queues - {bucket} else s.queues[bucket := rest],
       inflight := batch, clock := now)
  }

  predicate ShapeOk(reply: Reply, n: nat, dim: nat) {
    && reply.Reply? && |reply.embeddings| == n && |reply.qualities| == n
    && forall i :: 0 <= i < n ==> |reply.embeddings[i]| == dim
  }

  function Clip(q: real): real { if q < 0.0 then 0.0 else if q > 1.0 then 1.0 else q }

  /** What the future of the i-th request of a completed batch becomes. */
  function Outcome(batch: seq<Queued>, i: nat, startedAt: real, completedAt: real, reply: Reply, dim: nat): Future
    requires i < |batch|
  {
    if ShapeOk(reply, |batch|, dim) then
      Done(EmbeddingResult(
        batch[i].chunk, reply.embeddings[i], Clip(reply.qualities[i]), |batch|,
        (startedAt - batch[i].enqueuedAt) * 1000.0, (completedAt - startedAt) * 1000.0))
    else if reply.Raised? then Failed(reply.error)
    else Failed("backend returned invalid shapes")
  }

  /** The futures once the first `k` requests of the batch have been resolved. */
  function Settled(futures: seq<Future>, batch: seq<Queued>, k: nat,
                   startedAt: real, completedAt: real, reply: Reply, dim: nat): (r: seq<Future>)
    requires k <= |batch| && forall x :: x in batch ==> x.ordinal < |futures|
    ensures |r| == |futures|
  {
    if k == 0 then futures
    else
      var f := Settled(futures, batch, k - 1, startedAt, completedAt, reply, dim);
      var o := batch[k - 1].ordinal;
      assert batch[k - 1] in batch;
      if f[o].Pending? then f[o := Outcome(batch, k - 1, startedAt, completedAt, reply, dim)] else f
  }

  function OrdinalsOf(q: seq<Queued>): (r: set<nat>)
    ensures forall x :: x in q ==> x.ordinal in r
    ensures forall o :: o in r ==> exists x :: x in q && x.ordinal == o
  {
    set x | x in q :: x.ordinal
  }

  function Completed(s: State, startedAt: real, completedAt: real, reply: Reply, dim: nat): State
    requires forall x :: x in s.inflight ==> x.ordinal < |s.futures|
  {
    s.(futures := Settled(s.futures, s.inflight, |s.inflight|, startedAt, completedAt, reply, dim),
       served := s.served + OrdinalsOf(s.inflight), inflight := [], clock := completedAt)
  }

  ghost predicate Enabled(cfg: Config, s: State, e: Event) {
    match e
    case Submit(_, _, now) => now >= s.clock
    case Cancel(o) => true
    case Close => true
    case Tick(now) => now >= s.clock
    case Take(now, b) => s.inflight == [] && now >= s.clock && Selects(cfg, s.queues, s.closing, now, b)
    case Finish(_, completedAt, _) => s.inflight != [] && completedAt >= s.clock
  }

  ghost function Step(cfg: Config, dim: nat, s: State, e: Event): State
    requires cfg.Valid() && Inv(cfg, s) && Enabled(cfg, s, e)
  {
    match e
    case Submit(chunk, ms, now) => Submitted(cfg, s, chunk, ms, now)
    case Cancel(o) => AfterCancel(s, o)
    case Close => s.(closing := true)
    case Tick(now) => s.(clock := now)
    case Take(now, b) => Taken(cfg, s, b, now)
    case Finish(startedAt, completedAt, reply) => Completed(s, startedAt, completedAt, reply, dim)
  }

  // ---------------------------------------------------------------- the invariant

  /** A request somewhere in the system: its future is open, its chunk is the submitted one, and it was
      enqueued before its deadline and not after the present. */
  ghost predicate Live(s: State, x: Queued) {
    && x.ordinal < |s.futures| == |s.chunks| && x.ordinal !in s.served
    && s.chunks[x.ordinal] == x.chunk
    && x.enqueuedAt < x.deadlineAt && x.enqueuedAt <= s.clock
    && (s.futures[x.ordinal].Pending? || s.futures[x.ordinal].Cancelled?)
  }

  ghost predicate InQueue(s: State, o: nat) {
    exists b, x :: b in s.queues && x in s.queues[b] && x.ordinal == o
  }

  ghost predicate QueuesOk(cfg: Config, s: State) {
    && (forall b :: b in s.queues ==> s.queues[b] != [] && DistinctOrdinals(s.queues[b]))
    && (forall b, x :: b in s.queues && x in s.queues[b] ==> Live(s, x) && b == Bucket(cfg, x.chunk))
  }

  ghost predicate InflightOk(s: State) {
    && DistinctOrdinals(s.inflight)
    && forall x :: x in s.inflight ==> Live(s, x) && !InQueue(s, x.ordinal)
  }

  ghost predicate ServedOk(s: State) {
    && |s.futures| == |s.chunks|
    && forall o :: o in s.served ==> o < |s.futures| && !s.futures[o].Pending?
  }

  ghost predicate Placed(s: State) {
    forall o: nat :: o < |s.futures| ==> o in s.served || o in OrdinalsOf(s.inflight) || InQueue(s, o)
  }

  /** Every submitted request is in exactly one of: a queue, the batch in flight, `served`. */
  ghost predicate Inv(cfg: Config, s: State) {
    QueuesOk(cfg, s) && InflightOk(s) && ServedOk(s) && Placed(s)
  }

  lemma SubmitInQueue(cfg: Config, s: State, chunk: FeatureChunk, ms: Option<int>, now: real)
    requires Submitted(cfg, s, chunk, ms, now).futures != s.futures
    ensures forall o :: InQueue(Submitted(cfg, s, chunk, ms, now), o) <==> InQueue(s, o) || o == |s.futures|
  {
    var t := Submitted(cfg, s, chunk, ms, now);
    var b := Bucket(cfg, chunk);
    var x := Queued(chunk, now + Ms(Delay(cfg, ms)), now, |s.futures|);
    var before := QueueOf(s.queues, b);
    assert t.queues[b] == before + [x];
    forall o ensures InQueue(t, o) <==> InQueue(s, o) || o == x.ordinal {
      if InQueue(s, o) {
        var c, y :| c in s.queues && y in s.queues[c] && y.ordinal == o;
        assert c in t.queues && y in t.queues[c];
      }
      if InQueue(t, o) && o != x.ordinal {
        var c, y :| c in t.queues && y in t.queues[c] && y.ordinal == o;
        assert c in s.queues && y in s.queues[c];
      }
      assert x in t.queues[b];
    }
  }

  lemma SubmitQueuesOk(cfg: Config, s: State, chunk: FeatureChunk, ms: Option<int>, now: real)
    requires QueuesOk(cfg, s) && ServedOk(s) && now >= s.clock
    ensures QueuesOk(cfg, Submitted(cfg, s, chunk, ms, now))
  {
    var t := Submitted(cfg, s, chunk, ms, now);
    if t.futures != s.futures {
      var b := Bucket(cfg, chunk);
      var x := Queued(chunk, now + Ms(Delay(cfg, ms)), now, |s.futures|);
      var before := QueueOf(s.queues, b);
      forall c, y | c in t.queues && y in t.queues[c] ensures Live(t, y) && c == Bucket(cfg, y.chunk) {
        if c != b || y in before { assert Live(s, y); } else { assert y == x; }
      }
      forall i | 0 <= i < |before| ensures before[i].ordinal != x.ordinal { assert Live(s, before[i]); }
    }
  }

  lemma SubmitKeepsInv(cfg: Config, s: State, chunk: FeatureChunk, ms: Option<int>, now: real)
    requires cfg.Valid() && Inv(cfg, s) && now >= s.clock
    ensures Inv(cfg, Submitted(cfg, s, chunk, ms, now))
  {
    var t := Submitted(cfg, s, chunk, ms, now);
    SubmitQueuesOk(cfg, s, chunk, ms, now);
    if t.futures == s.futures {
      forall o ensures InQueue(s, o) <==> InQueue(t, o) {}
    } else {
      SubmitInQueue(cfg, s, chunk, ms, now);
    }
  }

  lemma CancelKeepsInv(cfg: Config, s: State, o: nat)
    requires Inv(cfg, s)
    ensures Inv(cfg, AfterCancel(s, o))
  {
    var t := AfterCancel(s, o);
    forall i ensures InQueue(t, i) <==> InQueue(s, i) {}
  }

  lemma TakeInQueue(cfg: Config, s: State, b: nat, now: real)
    requires cfg.Valid() && QueuesOk(cfg, s) && b in s.queues
    ensures var t := Taken(cfg, s, b, now);
            && (forall o :: InQueue(s, o) <==> InQueue(t, o) || o in OrdinalsOf(t.inflight))
            && (forall x :: x in t.inflight ==> !InQueue(t, x.ordinal))
            && (forall c, x :: c in t.queues && x in t.queues[c] ==> c in s.queues && x in s.queues[c])
  {
    var q := s.queues[b];
    var batch := NextBatch(cfg, s, b);
    var t := Taken(cfg, s, b, now);
    BatchTakes(q, cfg.perSessionLimit, cfg.maxBatchSize);
    forall c, x | c in t.queues && x in t.queues[c] ensures c in s.queues && x in s.queues[c] {}
    forall o ensures InQueue(s, o) <==> InQueue(t, o) || o in OrdinalsOf(batch) {
      if InQueue(s, o) {
        var c, y :| c in s.queues && y in s.queues[c] && y.ordinal == o;
        if c != b || y !in batch { assert c in t.queues && y in t.queues[c]; }
      }
      if o in OrdinalsOf(batch) {
        var y :| y in batch && y.ordinal == o;
        assert y in s.queues[b];
      }
    }
    forall x | x in batch ensures !InQueue(t, x.ordinal) {
      forall c, y | c in t.queues && y in t.queues[c] ensures y.ordinal != x.ordinal {
        assert Live(s, y) && Live(s, x);
        if c == b && y.ordinal == x.ordinal { SameOrdinalSame(q, x, y); }
      }
    }
  }

  lemma TakeQueuesOk(cfg: Config, s: State, b: nat, now: real)
    requires cfg.Valid() && QueuesOk(cfg, s) && b in s.queues && now >= s.clock
    ensures QueuesOk(cfg, Taken(cfg, s, b, now))
  {
    var t := Taken(cfg, s, b, now);
    WithoutDistinct(s.queues[b], NextBatch(cfg, s, b));
    forall c, x | c in t.queues && x in t.queues[c] ensures Live(t, x) && c == Bucket(cfg, x.chunk) {
      assert c in s.queues && x in s.queues[c];
      assert Live(s, x);
    }
  }

  lemma TakeInflightOk(cfg: Config, s: State, b: nat, now: real)
    requires cfg.Valid() && QueuesOk(cfg, s) && b in s.queues && now >= s.clock
    ensures InflightOk(Taken(cfg, s, b, now)) && NextBatch(cfg, s, b) != []
  {
    var t := Taken(cfg, s, b, now);
    BatchTakes(s.queues[b], cfg.perSessionLimit, cfg.maxBatchSize);
    TakeInQueue(cfg, s, b, now);
    forall x | x in t.inflight ensures Live(t, x) { assert x in s.queues[b] && Live(s, x); }
  }

  lemma TakeKeepsInv(cfg: Config, s: State, b: nat, now: real)
    requires cfg.Valid() && Inv(cfg, s) && b in s.queues && s.inflight == [] && now >= s.clock
    ensures Inv(cfg, Taken(cfg, s, b, now))
    ensures NextBatch(cfg, s, b) != []
  {
    TakeQueuesOk(cfg, s, b, now);
    TakeInflightOk(cfg, s, b, now);
    TakeInQueue(cfg, s, b, now);
  }

  lemma SameOrdinalSame(q: seq<Queued>, x: Queued, y: Queued)
    requires DistinctOrdinals(q) && x in q && y in q && x.ordinal == y.ordinal
    ensures x == y
  {
  }

  /** Resolving a batch settles exactly the open futures of that batch. */
  lemma {:induction false} SettledAt(futures: seq<Future>, batch: seq<Queued>, k: nat,
      startedAt: real, completedAt: real, reply: Reply, dim: nat)
    requires k <= |batch| && DistinctOrdinals(batch)
    requires forall x :: x in batch ==> x.ordinal < |futures|
    ensures var r := Settled(futures, batch, k, startedAt, completedAt, reply, dim);
            && (forall i :: 0 <= i < k ==>
                 (r[batch[i].ordinal] == if futures[batch[i].ordinal].Pending?
                                         then Outcome(batch, i, startedAt, completedAt, reply, dim)
                                         else futures[batch[i].ordinal]))
            && (forall o :: 0 <= o < |futures| && (forall i :: 0 <= i < k ==> batch[i].ordinal != o)
                 ==> r[o] == futures[o])
  {
    if k > 0 { SettledAt(futures, batch, k - 1, startedAt, completedAt, reply, dim); }
  }

  lemma NotInflight(s: State, o: nat)
    requires o !in OrdinalsOf(s.inflight)
    ensures forall i :: 0 <= i < |s.inflight| ==> s.inflight[i].ordinal != o
  {
    forall i | 0 <= i < |s.inflight| ensures s.inflight[i].ordinal != o {
      assert s.inflight[i] in s.inflight;
    }
  }

  lemma FinishServedOk(cfg: Config, s: State, startedAt: real, completedAt: real, reply: Reply, dim: nat)
    requires Inv(cfg, s)
    ensures ServedOk(Completed(s, startedAt, completedAt, reply, dim))
  {
    var t := Completed(s, startedAt, completedAt, reply, dim);
    SettledAt(s.futures, s.inflight, |s.inflight|, startedAt, completedAt, reply, dim);
    forall o | o in t.served ensures o < |t.futures| && !t.futures[o].Pending? {
      if o in OrdinalsOf(s.inflight) {
        var x :| x in s.inflight && x.ordinal == o;
        var i :| 0 <= i < |s.inflight| && s.inflight[i] == x;
      } else {
        NotInflight(s, o);
      }
    }
  }

  lemma FinishKeepsInv(cfg: Config, s: State, startedAt: real, completedAt: real, reply: Reply, dim: nat)
    requires Inv(cfg, s) && completedAt >= s.clock
    ensures Inv(cfg, Completed(s, startedAt, completedAt, reply, dim))
  {
    var t := Completed(s, startedAt, completedAt, reply, dim);
    FinishServedOk(cfg, s, startedAt, completedAt, reply, dim);
    SettledAt(s.futures, s.inflight, |s.inflight|, startedAt, completedAt, reply, dim);
    forall o ensures InQueue(t, o) <==> InQueue(s, o) {}
    forall b, x | b in t.queues && x in t.queues[b] ensures Live(t, x) {
      assert Live(s, x) && InQueue(s, x.ordinal);
      NotInflight(s, x.ordinal);
    }
  }

  lemma TickKeepsInv(cfg: Config, s: State, now: real)
    requires Inv(cfg, s) && now >= s.clock
    ensures Inv(cfg, s.(clock := now))
  {
    var t := s.(clock := now);
    forall o ensures InQueue(t, o) <==> InQueue(s, o) {}
    forall x | Live(s, x) ensures Live(t, x) {}
  }

  lemma StepKeepsInv(cfg: Config, dim: nat, s: State, e: Event)
    requires cfg.Valid() && Inv(cfg, s) && Enabled(cfg, s, e)
    ensures Inv(cfg, Step(cfg, dim, s, e))
  {
    match e
    case Submit(chunk, ms, now) => SubmitKeepsInv(cfg, s, chunk, ms, now);
    case Cancel(o) => CancelKeepsInv(cfg, s, o);
    case Close => forall o ensures InQueue(s.(closing := true), o) <==> InQueue(s, o) {}
    case Tick(now) => TickKeepsInv(cfg, s, now);
    case Take(now, b) => TakeKeepsInv(cfg, s, b, now);
    case Finish(startedAt, completedAt, reply) => FinishKeepsInv(cfg, s, startedAt, completedAt, reply, dim);
  }
}
