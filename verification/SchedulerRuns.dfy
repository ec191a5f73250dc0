/** Properties of whole runs of the micro-batcher: conservation of requests, batching
    transparency, no starvation, work conservation. */
module SchedulerRuns {
  import opened Batching
  import opened Scheduler
  import opened Wrappers

  ghost predicate ValidRun(cfg: Config, dim: nat, s: State, es: seq<Event>)
    requires cfg.Valid() && Inv(cfg, s)
    decreases |es|
  {
    es == [] ||
    (Enabled(cfg, s, es[0]) && (StepKeepsInv(cfg, dim, s, es[0]); ValidRun(cfg, dim, Step(cfg, dim, s, es[0]), es[1..])))
  }

  ghost function Run(cfg: Config, dim: nat, s: State, es: seq<Event>): (t: State)
    requires cfg.Valid() && Inv(cfg, s) && ValidRun(cfg, dim, s, es)
    ensures Inv(cfg, t)
    decreases |es|
  {
    if es == [] then s
    else
      StepKeepsInv(cfg, dim, s, es[0]);
      Run(cfg, dim, Step(cfg, dim, s, es[0]), es[1..])
  }

  lemma InitialInv(cfg: Config)
    ensures Inv(cfg, INITIAL)
  {
  }

  // ---------------------------------------------------------------- exactly once

  ghost function QueuedOrdinals(s: State): (r: set<nat>)
    ensures forall o :: o in r <==> InQueue(s, o)
  {
    set b, x | b in s.queues && x in s.queues[b] :: x.ordinal
  }

  ghost function Below(n: nat): (r: set<nat>)
    ensures (forall o :: o in r <==> 0 <= o < n) && |r| == n
  {
    if n == 0 then {}
    else
      var r := Below(n - 1);
      assert n - 1 !in r;
      r + {n - 1}
  }

  lemma {:induction false} OrdinalsCount(q: seq<Queued>)
    requires DistinctOrdinals(q)
    ensures |OrdinalsOf(q)| == |q|
  {
    if q != [] {
      OrdinalsCount(q[1..]);
      assert q == [q[0]] + q[1..];
      assert OrdinalsOf(q) == {q[0].ordinal} + OrdinalsOf(q[1..]);
    }
  }

  /** A request that is still queued or in flight is not yet resolved by the batcher. */
  lemma OpenWhileHeld(cfg: Config, s: State, o: nat)
    requires Inv(cfg, s) && (InQueue(s, o) || o in OrdinalsOf(s.inflight))
    ensures o !in s.served && o < |s.futures| && (s.futures[o].Pending? || s.futures[o].Cancelled?)
    ensures !(InQueue(s, o) && o in OrdinalsOf(s.inflight))
  {
    if InQueue(s, o) {
      var b, x :| b in s.queues && x in s.queues[b] && x.ordinal == o;
      assert Live(s, x);
    }
    if o in OrdinalsOf(s.inflight) {
      var x :| x in s.inflight && x.ordinal == o;
      assert Live(s, x);
    }
  }

  /** Each submitted request is in exactly one place, and its future is open or cancelled
      until it has been served. */
  ghost predicate Partitioned(s: State) {
    && QueuedOrdinals(s) !! OrdinalsOf(s.inflight) !! s.served
    && QueuedOrdinals(s) + OrdinalsOf(s.inflight) + s.served == Below(|s.futures|)
    && |QueuedOrdinals(s)| + |s.inflight| + |s.served| == |s.futures|
    && (forall o :: o in s.served ==> o < |s.futures| && !s.futures[o].Pending?)
    && (forall o :: o in QueuedOrdinals(s) + OrdinalsOf(s.inflight)
         ==> o < |s.futures| && (s.futures[o].Pending? || s.futures[o].Cancelled?))
  }

  lemma InvPartitions(cfg: Config, s: State)
    requires Inv(cfg, s)
    ensures Partitioned(s)
  {
    var q, i, d := QueuedOrdinals(s), OrdinalsOf(s.inflight), s.served;
    forall o | o in q + i
      ensures o !in d && o < |s.futures| && (s.futures[o].Pending? || s.futures[o].Cancelled?) && !(o in q && o in i)
    {
      OpenWhileHeld(cfg, s, o);
    }
    OrdinalsCount(s.inflight);
    EveryOrdinalPlaced(cfg, s);
    PartsCount(q, i, d, |s.futures|);
  }

  lemma EveryOrdinalPlaced(cfg: Config, s: State)
    requires Inv(cfg, s)
    ensures forall o: nat :: o < |s.futures| ==> o in QueuedOrdinals(s) + OrdinalsOf(s.inflight) + s.served
    ensures forall o :: o in s.served ==> o < |s.futures| && !s.futures[o].Pending?
  {
  }

  lemma PartsCount(q: set<nat>, i: set<nat>, d: set<nat>, n: nat)
    requires q !! i !! d
    requires forall o: nat :: o in q + i + d <==> o < n
    ensures q + i + d == Below(n) && |q| + |i| + |d| == n
  {
    assert q + i + d == Below(n);
    assert |q + i + d| == |q + i| + |d| == |q| + |i| + |d|;
  }

  /** submitted = queued + in flight + done, at every point of every run. */
  lemma Conservation(cfg: Config, dim: nat, es: seq<Event>)
    requires cfg.Valid() && (InitialInv(cfg); ValidRun(cfg, dim, INITIAL, es))
    ensures Partitioned(Run(cfg, dim, INITIAL, es))
  {
    InvPartitions(cfg, Run(cfg, dim, INITIAL, es));
  }

  lemma StepKeepsSettled(cfg: Config, dim: nat, s: State, e: Event, o: nat)
    requires cfg.Valid() && Inv(cfg, s) && Enabled(cfg, s, e)
    requires o < |s.futures| && !s.futures[o].Pending?
    ensures var t := Step(cfg, dim, s, e); o < |t.futures| && t.futures[o] == s.futures[o]
  {
    if e.Finish? {
      SettledAt(s.futures, s.inflight, |s.inflight|, e.startedAt, e.completedAt, e.reply, dim);
    }
  }

  /** A future is completed at most once: once settled it never changes again. */
  lemma {:induction false} CompletedAtMostOnce(cfg: Config, dim: nat, s: State, es: seq<Event>, o: nat)
    requires cfg.Valid() && Inv(cfg, s) && ValidRun(cfg, dim, s, es)
    requires o < |s.futures| && !s.futures[o].Pending?
    ensures var t := Run(cfg, dim, s, es); o < |t.futures| && t.futures[o] == s.futures[o]
    decreases |es|
  {
    if es != [] {
      StepKeepsInv(cfg, dim, s, es[0]);
      StepKeepsSettled(cfg, dim, s, es[0], o);
      CompletedAtMostOnce(cfg, dim, Step(cfg, dim, s, es[0]), es[1..], o);
    }
  }

  /** Completing a batch settles every open future of that batch, all by success or all by
      failure according to the shape of the reply, and touches nothing else. */
  lemma FinishSettlesTheBatch(cfg: Config, dim: nat, s: State, startedAt: real, completedAt: real, reply: Reply)
    requires cfg.Valid() && Inv(cfg, s)
    ensures var t := Completed(s, startedAt, completedAt, reply, dim);
            && t.queues == s.queues && t.chunks == s.chunks && t.closing == s.closing
            && |t.futures| == |s.futures|
            && (forall i :: 0 <= i < |s.inflight| && s.futures[s.inflight[i].ordinal].Pending? ==>
                 var f := t.futures[s.inflight[i].ordinal];
                 if ShapeOk(reply, |s.inflight|, dim)
                 then f.Done? && f.result.chunk == s.chunks[s.inflight[i].ordinal]
                      && f.result.embedding == reply.embeddings[i]
                      && 0.0 <= f.result.quality <= 1.0
                 else f.Failed?)
            && (forall o :: 0 <= o < |s.futures| && o !in OrdinalsOf(s.inflight) ==> t.futures[o] == s.futures[o])
  {
    SettledAt(s.futures, s.inflight, |s.inflight|, startedAt, completedAt, reply, dim);
    forall i | 0 <= i < |s.inflight| ensures Live(s, s.inflight[i]) {
      assert s.inflight[i] in s.inflight;
    }
    forall o | 0 <= o < |s.futures| && o !in OrdinalsOf(s.inflight)
      ensures forall i :: 0 <= i < |s.inflight| ==> s.inflight[i].ordinal != o
    {
      forall i | 0 <= i < |s.inflight| ensures s.inflight[i].ordinal != o {
        assert s.inflight[i] in s.inflight;
      }
    }
  }

  // ---------------------------------------------------------------- transparency

  /** A reply of the right shape holds, row by row, what `f` yields for that row's features. */
  ghost predicate ItemWise(f: Matrix -> (Vector, real), batch: seq<Queued>, reply: Reply, dim: nat) {
    ShapeOk(reply, |batch|, dim) ==>
      forall i :: 0 <= i < |batch| ==> (reply.embeddings[i], reply.qualities[i]) == f(batch[i].chunk.features)
  }

  ghost predicate ItemWiseRun(cfg: Config, dim: nat, s: State, es: seq<Event>, f: Matrix -> (Vector, real))
    requires cfg.Valid() && Inv(cfg, s) && ValidRun(cfg, dim, s, es)
    decreases |es|
  {
    es != [] ==>
      && (es[0].Finish? ==> ItemWise(f, s.inflight, es[0].reply, dim))
      && (StepKeepsInv(cfg, dim, s, es[0]); ItemWiseRun(cfg, dim, Step(cfg, dim, s, es[0]), es[1..], f))
  }

  ghost predicate Transparent(s: State, f: Matrix -> (Vector, real)) {
    |s.futures| == |s.chunks| &&
    forall o :: 0 <= o < |s.futures| && s.futures[o].Done? ==>
      var r := s.futures[o].result;
      r.chunk == s.chunks[o] && r.embedding == f(s.chunks[o].features).0
      && r.quality == Clip(f(s.chunks[o].features).1)
  }

  lemma StepKeepsTransparent(cfg: Config, dim: nat, s: State, e: Event, f: Matrix -> (Vector, real))
    requires cfg.Valid() && Inv(cfg, s) && Enabled(cfg, s, e) && Transparent(s, f)
    requires e.Finish? ==> ItemWise(f, s.inflight, e.reply, dim)
    ensures Transparent(Step(cfg, dim, s, e), f)
  {
    if e.Finish? {
      FinishSettlesTheBatch(cfg, dim, s, e.startedAt, e.completedAt, e.reply);
      SettledAt(s.futures, s.inflight, |s.inflight|, e.startedAt, e.completedAt, e.reply, dim);
      var t := Step(cfg, dim, s, e);
      forall o | 0 <= o < |t.futures| && t.futures[o].Done? && o in OrdinalsOf(s.inflight)
        ensures s.futures[o].Done? || (t.futures[o].result.chunk == s.chunks[o]
                && t.futures[o].result.embedding == f(s.chunks[o].features).0
                && t.futures[o].result.quality == Clip(f(s.chunks[o].features).1))
      {
        var i := InflightAt(cfg, s, o);
      }
    }
  }

  lemma InflightAt(cfg: Config, s: State, o: nat) returns (i: nat)
    requires Inv(cfg, s) && o in OrdinalsOf(s.inflight)
    ensures i < |s.inflight| && s.inflight[i].ordinal == o && Live(s, s.inflight[i])
  {
    var x :| x in s.inflight && x.ordinal == o;
    i :| 0 <= i < |s.inflight| && s.inflight[i] == x;
  }

  /** Whatever batches the run forms, a successful result is the backend's output for that
      request's own features. */
  lemma {:induction false} BatchingTransparency(cfg: Config, dim: nat, s: State, es: seq<Event>, f: Matrix -> (Vector, real))
    requires cfg.Valid() && Inv(cfg, s) && ValidRun(cfg, dim, s, es)
    requires ItemWiseRun(cfg, dim, s, es, f) && Transparent(s, f)
    ensures Transparent(Run(cfg, dim, s, es), f)
    decreases |es|
  {
    if es != [] {
      StepKeepsInv(cfg, dim, s, es[0]);
      StepKeepsTransparent(cfg, dim, s, es[0], f);
      BatchingTransparency(cfg, dim, Step(cfg, dim, s, es[0]), es[1..], f);
    }
  }

  // ---------------------------------------------------------------- selection exists

  /** A non-empty finite set of entries has a least one. */
  lemma {:induction false} LeastEntry(entries: map<nat, Entry>) returns (m: nat)
    requires entries != map[]
    ensures m in entries && forall k :: k in entries ==> EntryLe(entries[m], entries[k])
    decreases |entries|
  {
    var k :| k in entries;
    var rest := entries - {k};
    if rest == map[] {
      assert entries.Keys == {k} + rest.Keys;
      m := k;
    } else {
      assert k !in rest && |rest| < |entries|;
      m := LeastEntry(rest);
      assert forall j :: j in entries ==> j == k || (j in rest && rest[j] == entries[j]);
      if !EntryLe(entries[m], entries[k]) { m := k; }
    }
  }

  /** The list `ready` of the source, by bucket. */
  ghost function ReadyEntries(cfg: Config, queues: map<nat, seq<Queued>>, closing: bool, now: real): map<nat, Entry> {
    map b | b in queues && Ready(cfg, closing, queues[b], now) :: EntryOf(cfg, queues[b], b)
  }

  /** Selection succeeds whenever some bucket is ready. */
  lemma SelectionExists(cfg: Config, queues: map<nat, seq<Queued>>, closing: bool, now: real)
    requires exists b :: b in queues && Ready(cfg, closing, queues[b], now)
    ensures exists b :: Selects(cfg, queues, closing, now, b)
  {
    var entries := ReadyEntries(cfg, queues, closing, now);
    var k :| k in queues && Ready(cfg, closing, queues[k], now);
    assert k in entries;
    var m := LeastEntry(entries);
    LeastIsSelected(cfg, queues, closing, now, m);
  }

  lemma LeastIsSelected(cfg: Config, queues: map<nat, seq<Queued>>, closing: bool, now: real, m: nat)
    requires var entries := ReadyEntries(cfg, queues, closing, now);
             m in entries && forall k :: k in entries ==> EntryLe(entries[m], entries[k])
    ensures Selects(cfg, queues, closing, now, m)
  {
    forall b | b in queues && Ready(cfg, closing, queues[b], now)
      ensures EntryLe(EntryOf(cfg, queues[m], m), EntryOf(cfg, queues[b], b))
    {
      assert b in ReadyEntries(cfg, queues, closing, now);
    }
  }

  /** The minimum over the ready entries is unique, so `Selects` is a function. */
  lemma SelectionUnique(cfg: Config, queues: map<nat, seq<Queued>>, closing: bool, now: real, a: nat, b: nat)
    requires Selects(cfg, queues, closing, now, a) && Selects(cfg, queues, closing, now, b)
    ensures a == b
  {
    assert EntryLe(EntryOf(cfg, queues[a], a), EntryOf(cfg, queues[b], b));
    assert EntryLe(EntryOf(cfg, queues[b], b), EntryOf(cfg, queues[a], a));
  }

  // ---------------------------------------------------------------- no starvation

  /** The queued requests whose deadline is at most `d`. */
  ghost function Urgent(s: State, d: real): (r: set<nat>)
    ensures forall o :: o in r <==> exists b, x :: b in s.queues && x in s.queues[b] && x.ordinal == o && x.deadlineAt <= d
  {
    set b, x | b in s.queues && x in s.queues[b] && x.deadlineAt <= d :: x.ordinal
  }

  /** Once some deadline has passed, the batch taken starts with a request of globally
      minimal deadline over all buckets. */
  lemma TakesGloballyEarliest(cfg: Config, s: State, now: real, b: nat, c: nat, x: Queued)
    requires cfg.Valid() && Inv(cfg, s) && Selects(cfg, s.queues, s.closing, now, b)
    requires c in s.queues && x in s.queues[c] && x.deadlineAt <= now
    ensures NextBatch(cfg, s, b) != []
    ensures forall k, y :: k in s.queues && y in s.queues[k] ==> NextBatch(cfg, s, b)[0].deadlineAt <= y.deadlineAt
  {
    var q := s.queues[b];
    BatchTakes(q, cfg.perSessionLimit, cfg.maxBatchSize);
    var first := NextBatch(cfg, s, b)[0];
    assert first.deadlineAt == EarliestDeadline(q) by {
      var z :| z in q && z.deadlineAt == EarliestDeadline(q);
      assert first in NextBatch(cfg, s, b);
    }
    assert Ready(cfg, s.closing, s.queues[c], now);
    forall k, y | k in s.queues && y in s.queues[k] ensures first.deadlineAt <= y.deadlineAt {
      if y.deadlineAt <= now {
        assert Ready(cfg, s.closing, s.queues[k], now);
        assert EntryLe(EntryOf(cfg, q, b), EntryOf(cfg, s.queues[k], k));
      } else {
        assert EntryLe(EntryOf(cfg, q, b), EntryOf(cfg, s.queues[c], c));
      }
    }
  }

  lemma TakeShrinksUrgent(cfg: Config, dim: nat, s: State, now: real, b: nat, d: real)
    requires cfg.Valid() && Inv(cfg, s) && Enabled(cfg, s, Take(now, b)) && now >= d
    ensures Urgent(Taken(cfg, s, b, now), d) <= Urgent(s, d)
    ensures Urgent(s, d) != {} ==> Urgent(Taken(cfg, s, b, now), d) < Urgent(s, d)
  {
    var t := Taken(cfg, s, b, now);
    TakeInQueue(cfg, s, b, now);
    if Urgent(s, d) != {} {
      var o :| o in Urgent(s, d);
      var c, x :| c in s.queues && x in s.queues[c] && x.ordinal == o && x.deadlineAt <= d;
      TakesGloballyEarliest(cfg, s, now, b, c, x);
      BatchTakes(s.queues[b], cfg.perSessionLimit, cfg.maxBatchSize);
      var first := NextBatch(cfg, s, b)[0];
      assert first in t.inflight && first in s.queues[b] && first.deadlineAt <= d;
      assert first.ordinal in Urgent(s, d) && !InQueue(t, first.ordinal);
      assert first.ordinal !in Urgent(t, d);
    }
  }

  /** A later submission never has a deadline at or before the present. */
  lemma SubmitNotUrgent(cfg: Config, s: State, chunk: FeatureChunk, ms: Option<int>, now: real, d: real)
    requires cfg.Valid() && now >= s.clock >= d
    ensures Urgent(Submitted(cfg, s, chunk, ms, now), d) == Urgent(s, d)
  {
    var t := Submitted(cfg, s, chunk, ms, now);
    if t.futures != s.futures {
      var b := Bucket(cfg, chunk);
      var x := Queued(chunk, now + Ms(Delay(cfg, ms)), now, |s.futures|);
      AppendNotUrgent(s, t, b, x, d);
    }
  }

  lemma AppendNotUrgent(s: State, t: State, b: nat, x: Queued, d: real)
    requires x.deadlineAt > d && t.queues == s.queues[b := QueueOf(s.queues, b) + [x]]
    ensures Urgent(t, d) == Urgent(s, d)
  {
    forall o | o in Urgent(s, d) ensures o in Urgent(t, d) {
      var c, y :| c in s.queues && y in s.queues[c] && y.ordinal == o && y.deadlineAt <= d;
      assert c in t.queues && y in t.queues[c];
    }
    forall o | o in Urgent(t, d) ensures o in Urgent(s, d) {
      var c, y :| c in t.queues && y in t.queues[c] && y.ordinal == o && y.deadlineAt <= d;
      assert c in s.queues && y in s.queues[c];
    }
  }

  lemma StepUrgent(cfg: Config, dim: nat, s: State, e: Event, d: real)
    requires cfg.Valid() && Inv(cfg, s) && Enabled(cfg, s, e) && s.clock >= d
    ensures Step(cfg, dim, s, e).clock >= d
    ensures Urgent(Step(cfg, dim, s, e), d) <= Urgent(s, d)
    ensures e.Take? && Urgent(s, d) != {} ==> Urgent(Step(cfg, dim, s, e), d) < Urgent(s, d)
  {
    match e
    case Submit(chunk, ms, now) => SubmitNotUrgent(cfg, s, chunk, ms, now, d);
    case Take(now, b) => TakeShrinksUrgent(cfg, dim, s, now, b, d);
    case Cancel(o) => assert Urgent(Step(cfg, dim, s, e), d) == Urgent(s, d);
    case Close => assert Urgent(Step(cfg, dim, s, e), d) == Urgent(s, d);
    case Tick(_) => assert Urgent(Step(cfg, dim, s, e), d) == Urgent(s, d);
    case Finish(_, _, _) => assert Urgent(Step(cfg, dim, s, e), d) == Urgent(s, d);
  }

  function Takes(es: seq<Event>): nat {
    if es == [] then 0 else (if es[0].Take? then 1 else 0) + Takes(es[1..])
  }

  lemma SubsetSize(a: set<nat>, b: set<nat>)
    requires a <= b
    ensures |a| <= |b| && (a < b ==> |a| < |b|)
  {
    assert b == a + (b - a);
  }

  lemma {:induction false} UrgentShrinks(cfg: Config, dim: nat, s: State, es: seq<Event>, d: real)
    requires cfg.Valid() && Inv(cfg, s) && ValidRun(cfg, dim, s, es) && s.clock >= d
    ensures Urgent(Run(cfg, dim, s, es), d) <= Urgent(s, d)
    ensures Takes(es) >= |Urgent(s, d)| ==> Urgent(Run(cfg, dim, s, es), d) == {}
    decreases |es|
  {
    if es != [] {
      StepKeepsInv(cfg, dim, s, es[0]);
      StepUrgent(cfg, dim, s, es[0], d);
      var t := Step(cfg, dim, s, es[0]);
      SubsetSize(Urgent(t, d), Urgent(s, d));
      UrgentShrinks(cfg, dim, t, es[1..], d);
    }
  }

  /** No starvation: after the clock has passed a queued request's deadline it leaves its queue
      within as many batches as there were queued requests due by then, whatever is submitted,
      cancelled or closed meanwhile. */
  lemma NoStarvation(cfg: Config, dim: nat, s: State, es: seq<Event>, b: nat, x: Queued)
    requires cfg.Valid() && Inv(cfg, s) && ValidRun(cfg, dim, s, es)
    requires b in s.queues && x in s.queues[b] && x.deadlineAt <= s.clock
    requires Takes(es) >= |Urgent(s, x.deadlineAt)|
    ensures !InQueue(Run(cfg, dim, s, es), x.ordinal)
  {
    var t := Run(cfg, dim, s, es);
    UrgentShrinks(cfg, dim, s, es, x.deadlineAt);
    RunKeepsRequest(cfg, dim, s, es, x);
    forall c, y | c in t.queues && y in t.queues[c] ensures y.deadlineAt > x.deadlineAt {
      assert y.ordinal !in Urgent(t, x.deadlineAt);
    }
  }

  /** An ordinal in the queues can only name the request `x`. */
  ghost predicate Names(s: State, x: Queued) {
    x.ordinal < |s.futures|
    && forall c, y :: c in s.queues && y in s.queues[c] && y.ordinal == x.ordinal ==> y == x
  }

  lemma StepKeepsRequest(cfg: Config, dim: nat, s: State, e: Event, x: Queued)
    requires cfg.Valid() && Inv(cfg, s) && Enabled(cfg, s, e) && Names(s, x)
    ensures Names(Step(cfg, dim, s, e), x)
  {
    if e.Take? { TakeInQueue(cfg, s, e.bucket, e.now); }
  }

  lemma {:induction false} RunKeepsNames(cfg: Config, dim: nat, s: State, es: seq<Event>, x: Queued)
    requires cfg.Valid() && Inv(cfg, s) && ValidRun(cfg, dim, s, es) && Names(s, x)
    ensures Names(Run(cfg, dim, s, es), x)
    decreases |es|
  {
    if es != [] {
      StepKeepsInv(cfg, dim, s, es[0]);
      StepKeepsRequest(cfg, dim, s, es[0], x);
      RunKeepsNames(cfg, dim, Step(cfg, dim, s, es[0]), es[1..], x);
    }
  }

  lemma RunKeepsRequest(cfg: Config, dim: nat, s: State, es: seq<Event>, x: Queued)
    requires cfg.Valid() && Inv(cfg, s) && ValidRun(cfg, dim, s, es)
    requires exists b :: b in s.queues && x in s.queues[b]
    ensures Names(Run(cfg, dim, s, es), x)
  {
    var b :| b in s.queues && x in s.queues[b];
    assert Live(s, x);
    forall c, y | c in s.queues && y in s.queues[c] && y.ordinal == x.ordinal ensures y == x {
      assert Live(s, y) && c == b;
      SameOrdinalSame(s.queues[b], x, y);
    }
    RunKeepsNames(cfg, dim, s, es, x);
  }

  // ---------------------------------------------------------------- work conservation

  ghost predicate Idle(cfg: Config, s: State, now: real) {
    s.queues != map[] && forall b :: !Selects(cfg, s.queues, s.closing, now, b)
  }

  /** `w` is the least flush time over the queues. */
  ghost predicate WakesAt(cfg: Config, queues: map<nat, seq<Queued>>, w: real) {
    && (exists b :: b in queues && queues[b] != [] && FlushAt(cfg, queues[b]) == w)
    && (forall b :: b in queues && queues[b] != [] ==> w <= FlushAt(cfg, queues[b]))
  }

  /** When nothing is selected no bucket is full or due, and the wake time lies strictly ahead but
      no later than any queued request's maximum wait or deadline. */
  lemma WorkConservation(cfg: Config, s: State, now: real, w: real)
    requires cfg.Valid() && Inv(cfg, s) && Idle(cfg, s, now) && WakesAt(cfg, s.queues, w)
    ensures !s.closing && now < w
    ensures forall b :: b in s.queues ==> |s.queues[b]| < cfg.maxBatchSize && now < FlushAt(cfg, s.queues[b])
    ensures forall b, x :: b in s.queues && x in s.queues[b]
                ==> now < w <= x.enqueuedAt + Ms(cfg.maxWaitMs) && w <= x.deadlineAt
  {
    forall b | b in s.queues ensures !Ready(cfg, s.closing, s.queues[b], now) {
      if Ready(cfg, s.closing, s.queues[b], now) { SelectionExists(cfg, s.queues, s.closing, now); }
    }
    forall b, x | b in s.queues && x in s.queues[b]
      ensures w <= x.enqueuedAt + Ms(cfg.maxWaitMs) && w <= x.deadlineAt
    {
      assert w <= FlushAt(cfg, s.queues[b]);
    }
  }

  lemma {:induction false} QueuesGrow(cfg: Config, dim: nat, s: State, es: seq<Event>, b: nat)
    requires cfg.Valid() && Inv(cfg, s) && ValidRun(cfg, dim, s, es) && Takes(es) == 0
    requires b in s.queues
    ensures var t := Run(cfg, dim, s, es); b in t.queues && s.queues[b] <= t.queues[b]
    decreases |es|
  {
    if es != [] {
      StepKeepsInv(cfg, dim, s, es[0]);
      QueuesGrow(cfg, dim, Step(cfg, dim, s, es[0]), es[1..], b);
    }
  }

  lemma {:induction false} MinOfExtends(xs: seq<real>, ys: seq<real>)
    requires xs != [] && xs <= ys
    ensures MinOf(ys) <= MinOf(xs)
  {
    var k :| 0 <= k < |xs| && xs[k] == MinOf(xs);
    assert ys[k] in ys;
  }

  lemma FlushNotLater(cfg: Config, p: seq<Queued>, q: seq<Queued>)
    requires p != [] && p <= q
    ensures FlushAt(cfg, q) <= FlushAt(cfg, p)
  {
    MinOfExtends(EnqueueTimes(p), EnqueueTimes(q));
    MinOfExtends(Deadlines(p), Deadlines(q));
  }

  /** No lost wake-up: from the wake time on selection succeeds, whatever arrived meanwhile. */
  lemma NoLostWakeup(cfg: Config, dim: nat, s: State, es: seq<Event>, w: real, later: real)
    requires cfg.Valid() && Inv(cfg, s) && WakesAt(cfg, s.queues, w)
    requires ValidRun(cfg, dim, s, es) && Takes(es) == 0 && later >= w
    ensures var t := Run(cfg, dim, s, es); exists b :: Selects(cfg, t.queues, t.closing, later, b)
  {
    var t := Run(cfg, dim, s, es);
    var b :| b in s.queues && s.queues[b] != [] && FlushAt(cfg, s.queues[b]) == w;
    QueuesGrow(cfg, dim, s, es, b);
    FlushNotLater(cfg, s.queues[b], t.queues[b]);
    assert Ready(cfg, t.closing, t.queues[b], later);
    SelectionExists(cfg, t.queues, t.closing, later);
  }
}
