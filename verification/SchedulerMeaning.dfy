/** What the scheduler does, in terms of the requests' own times, sessions and counts: when a bucket is
    served, which of the ready ones, which requests form the batch, and what becomes of their futures. */
module SchedulerMeaning {
  import opened Arithmetic
  import opened Batching
  import opened Scheduler
  import opened SchedulerRuns
  import opened Wrappers

  // ---------------------------------------------------------------- when

  /** Someone in the bucket has waited the configured maximum or reached its deadline, or the bucket is
      full, or the batcher is closing. */
  ghost predicate Due(cfg: Config, closing: bool, q: seq<Queued>, now: real) {
    closing || |q| >= cfg.maxBatchSize ||
    exists x :: x in q && (now >= x.enqueuedAt + cfg.maxWaitMs as real / 1000.0 || now >= x.deadlineAt)
  }

  ghost predicate FirstDeadline(q: seq<Queued>, d: real) {
    (exists x :: x in q && d == x.deadlineAt) && forall x :: x in q ==> d <= x.deadlineAt
  }

  /** The first moment at which a request of the bucket has waited the maximum or reaches its deadline. */
  ghost predicate FirstFlush(cfg: Config, q: seq<Queued>, t: real) {
    && (exists x :: x in q && (t == x.enqueuedAt + cfg.maxWaitMs as real / 1000.0 || t == x.deadlineAt))
    && (forall x :: x in q ==> t <= x.enqueuedAt + cfg.maxWaitMs as real / 1000.0 && t <= x.deadlineAt)
  }

  lemma EarliestIsFirst(q: seq<Queued>, d: real)
    requires q != []
    ensures FirstDeadline(q, d) <==> d == EarliestDeadline(q)
  {
  }

  lemma FlushIsFirst(cfg: Config, q: seq<Queued>)
    requires q != []
    ensures FirstFlush(cfg, q, FlushAt(cfg, q))
  {
    var oldest := MinOf(EnqueueTimes(q));
    var i :| 0 <= i < |q| && EnqueueTimes(q)[i] == oldest;
    assert q[i] in q && q[i].enqueuedAt == oldest;
    EarliestIsFirst(q, EarliestDeadline(q));
    forall x | x in q ensures FlushAt(cfg, q) <= x.enqueuedAt + cfg.maxWaitMs as real / 1000.0 && FlushAt(cfg, q) <= x.deadlineAt {
      var k :| 0 <= k < |q| && q[k] == x;
      assert EnqueueTimes(q)[k] in EnqueueTimes(q);
    }
  }

  lemma FirstFlushUnique(cfg: Config, q: seq<Queued>, t: real, u: real)
    requires FirstFlush(cfg, q, t) && FirstFlush(cfg, q, u)
    ensures t == u
  {
  }

  /** A bucket is ready exactly when it is due. */
  lemma ReadyMeans(cfg: Config, closing: bool, q: seq<Queued>, now: real)
    requires q != []
    ensures Ready(cfg, closing, q, now) <==> Due(cfg, closing, q, now)
  {
    FlushIsFirst(cfg, q);
  }

  /** The bucket selected is due, and among the due ones it has the least first deadline, then the
      least first flush moment, then the least number. */
  lemma SelectsMeans(cfg: Config, queues: map<nat, seq<Queued>>, closing: bool, now: real, b: nat)
    requires forall c :: c in queues ==> queues[c] != []
    ensures Selects(cfg, queues, closing, now, b)
       <==> b in queues && Due(cfg, closing, queues[b], now)
            && forall c :: c in queues && Due(cfg, closing, queues[c], now) ==> Precedes(cfg, queues[b], b, queues[c], c)
  {
    forall c | c in queues
      ensures Ready(cfg, closing, queues[c], now) <==> Due(cfg, closing, queues[c], now)
    {
      ReadyMeans(cfg, closing, queues[c], now);
    }
    if b in queues {
      forall c | c in queues
        ensures EntryLe(EntryOf(cfg, queues[b], b), EntryOf(cfg, queues[c], c)) <==> Precedes(cfg, queues[b], b, queues[c], c)
      {
        EntriesMean(cfg, queues[b], b, queues[c], c);
      }
    }
  }

  ghost predicate Precedes(cfg: Config, q: seq<Queued>, b: nat, p: seq<Queued>, c: nat) {
    forall d, e, t, u :: FirstDeadline(q, d) && FirstDeadline(p, e) && FirstFlush(cfg, q, t) && FirstFlush(cfg, p, u) ==>
      d < e || (d == e && (t < u || (t == u && b <= c)))
  }

  lemma EntriesMean(cfg: Config, q: seq<Queued>, b: nat, p: seq<Queued>, c: nat)
    requires q != [] && p != []
    ensures EntryLe(EntryOf(cfg, q, b), EntryOf(cfg, p, c)) <==> Precedes(cfg, q, b, p, c)
  {
    var d, e, t, u := EarliestDeadline(q), EarliestDeadline(p), FlushAt(cfg, q), FlushAt(cfg, p);
    EarliestIsFirst(q, d);
    EarliestIsFirst(p, e);
    FlushIsFirst(cfg, q);
    FlushIsFirst(cfg, p);
    forall d', e', t', u' | FirstDeadline(q, d') && FirstDeadline(p, e') && FirstFlush(cfg, q, t') && FirstFlush(cfg, p, u')
      ensures d == d' && e == e' && t == t' && u == u'
    {
      EarliestIsFirst(q, d');
      EarliestIsFirst(p, e');
      FirstFlushUnique(cfg, q, t, t');
      FirstFlushUnique(cfg, p, u, u');
    }
  }

  /** A queued request has waited the maximum, or reaches its deadline, at `w`. */
  ghost predicate WakesSomeone(cfg: Config, queues: map<nat, seq<Queued>>, w: real) {
    exists b, x :: b in queues && x in queues[b]
      && (w == x.enqueuedAt + cfg.maxWaitMs as real / 1000.0 || w == x.deadlineAt)
  }

  /** The wake time is the first moment at which any queued request has waited the maximum or reaches its
      deadline. */
  lemma WakeMeans(cfg: Config, queues: map<nat, seq<Queued>>, w: real)
    requires WakesAt(cfg, queues, w)
    ensures WakesSomeone(cfg, queues, w)
    ensures forall b, x :: b in queues && x in queues[b] ==>
              w <= x.enqueuedAt + cfg.maxWaitMs as real / 1000.0 && w <= x.deadlineAt
  {
    forall b, x | b in queues && x in queues[b]
      ensures w <= x.enqueuedAt + cfg.maxWaitMs as real / 1000.0 && w <= x.deadlineAt
    {
      FlushIsFirst(cfg, queues[b]);
      assert w <= FlushAt(cfg, queues[b]);
    }
    var b :| b in queues && queues[b] != [] && FlushAt(cfg, queues[b]) == w;
    var x := FlushedBy(cfg, queues[b]);
  }

  lemma FlushedBy(cfg: Config, q: seq<Queued>) returns (x: Queued)
    requires q != []
    ensures x in q && (FlushAt(cfg, q) == x.enqueuedAt + cfg.maxWaitMs as real / 1000.0 || FlushAt(cfg, q) == x.deadlineAt)
  {
    FlushIsFirst(cfg, q);
    x :| x in q && (FlushAt(cfg, q) == x.enqueuedAt + cfg.maxWaitMs as real / 1000.0 || FlushAt(cfg, q) == x.deadlineAt);
  }

  // ---------------------------------------------------------------- what a submission queues

  /** The caller's deadline, or the configured one when it gives none. */
  ghost predicate DelayGiven(cfg: Config, deadlineMs: Option<int>, ms: int) {
    (deadlineMs == None && ms == cfg.defaultDeadlineMs) || deadlineMs == Some(ms)
  }

  /** An open batcher queues the request behind those of the first bucket that admits its frames, with its
      deadline `ms` milliseconds ahead, if that is ahead at all. */
  lemma SubmitMeans(cfg: Config, s: State, chunk: FeatureChunk, deadlineMs: Option<int>, now: real, ms: int, b: nat)
    requires DelayGiven(cfg, deadlineMs, ms)
    requires b <= |cfg.boundaries| && (forall i :: 0 <= i < b ==> |chunk.features| > cfg.boundaries[i])
    requires b < |cfg.boundaries| ==> |chunk.features| <= cfg.boundaries[b]
    ensures var t := Submitted(cfg, s, chunk, deadlineMs, now);
            t.clock == now && t.closing == s.closing && t.inflight == s.inflight && t.served == s.served
            && (s.closing || ms <= 0 ==> t.queues == s.queues && t.futures == s.futures && t.chunks == s.chunks)
            && (!s.closing && ms > 0 ==>
                  (t.queues == s.queues[b := (if b in s.queues then s.queues[b] else [])
                                             + [Queued(chunk, now + ms as real / 1000.0, now, |s.futures|)]]
                   && t.futures == s.futures + [Pending] && t.chunks == s.chunks + [chunk]))
  {
    FirstAdmits(cfg.boundaries, |chunk.features|, b);
  }

  lemma {:induction false} FirstAdmits(boundaries: seq<int>, frames: int, b: nat)
    requires b <= |boundaries| && forall i :: 0 <= i < b ==> frames > boundaries[i]
    requires b < |boundaries| ==> frames <= boundaries[b]
    ensures BucketFor(boundaries, frames) == b
    decreases b
  {
    if b > 0 {
      assert frames > boundaries[0];
      FirstAdmits(boundaries[1..], frames, b - 1);
    }
  }

  // ---------------------------------------------------------------- which requests

  /** The positions of one session's requests. */
  ghost function Mates(q: seq<Queued>, tenant: string, session: string): set<nat> {
    set i: nat | i < |q| && q[i].chunk.tenant == tenant && q[i].chunk.session == session
  }

  lemma {:induction false} CountIsMates(q: seq<Queued>, tenant: string, session: string)
    ensures Count(SessionsOf(q), (tenant, session)) == |Mates(q, tenant, session)|
    decreases |q|
  {
    if q == [] {
      assert Mates(q, tenant, session) == {};
    } else {
      var front, x := q[..|q| - 1], q[|q| - 1];
      CountIsMates(front, tenant, session);
      assert q == front + [x];
      OneMore(front, x, (tenant, session));
      MatesStep(front, x, tenant, session);
    }
  }

  lemma MatesStep(front: seq<Queued>, x: Queued, tenant: string, session: string)
    ensures |Mates(front + [x], tenant, session)|
         == |Mates(front, tenant, session)| + (if x.chunk.tenant == tenant && x.chunk.session == session then 1 else 0)
  {
    var gained: set<nat> := if x.chunk.tenant == tenant && x.chunk.session == session then {|front|} else {};
    assert Mates(front + [x], tenant, session) == Mates(front, tenant, session) + gained;
  }

  /** `a` is served before `b`: earlier deadline, then earlier submission, then lower number. */
  predicate Sooner(a: Queued, b: Queued) {
    if a.deadlineAt != b.deadlineAt then a.deadlineAt < b.deadlineAt
    else if a.enqueuedAt != b.enqueuedAt then a.enqueuedAt < b.enqueuedAt
    else a.ordinal < b.ordinal
  }

  /** What is passed over was passed over for a reason: the batch was full with sooner requests, or the
      request's session had its limit of sooner ones in it. */
  ghost predicate PassedOver(b: seq<Queued>, x: Queued, cap: nat, max: nat) {
    || (|b| == max && forall y :: y in b ==> Sooner(y, x))
    || (|Mates(b, x.chunk.tenant, x.chunk.session)| == cap
        && forall y :: y in b && y.chunk.tenant == x.chunk.tenant && y.chunk.session == x.chunk.session ==> Sooner(y, x))
  }

  lemma {:induction false} PickedPassesOver(o: seq<Queued>, n: nat, cap: nat, max: nat, k: nat)
    requires n <= |o| && InOrder(o) && k < n && o[k] !in Picked(o, n, cap, max)
    ensures PassedOver(Picked(o, n, cap, max), o[k], cap, max)
    decreases n
  {
    var p, x := Picked(o, n - 1, cap, max), o[n - 1];
    PickedShares(o, n - 1, cap, max, x.SessionKey());
    PickedInOrder(o, n - 1, cap, max);
    if k < n - 1 {
      PickedPassesOver(o, n - 1, cap, max, k);
      StillPassedOver(o, n, cap, max, k);
    } else {
      forall y | y in p ensures Sooner(y, x) {
        var i :| 0 <= i < n - 1 && o[i] == y;
        assert Before(o[i], o[n - 1]);
      }
      CountIsMates(p, x.chunk.tenant, x.chunk.session);
    }
  }

  /** A later selection leaves the reason in place. */
  lemma StillPassedOver(o: seq<Queued>, n: nat, cap: nat, max: nat, k: nat)
    requires 0 < n <= |o| && InOrder(o) && k < n - 1
    requires PassedOver(Picked(o, n - 1, cap, max), o[k], cap, max)
    ensures PassedOver(Picked(o, n, cap, max), o[k], cap, max)
  {
    var p, x := Picked(o, n - 1, cap, max), o[n - 1];
    if Picked(o, n, cap, max) != p && !(|p| == max) {
      CountIsMates(p, o[k].chunk.tenant, o[k].chunk.session);
      if x.SessionKey() != o[k].SessionKey() {
        CountIsMates(p + [x], o[k].chunk.tenant, o[k].chunk.session);
        OneMore(p, x, o[k].SessionKey());
      }
    }
  }

  /** The batch taken from a bucket: at most the batch size and each session's limit, soonest first, and
      nothing passed over without reason. */
  lemma BatchMeans(queue: seq<Queued>, cap: nat, max: nat)
    requires DistinctOrdinals(queue)
    ensures var b := Batch(queue, cap, max);
            && |b| <= max && (forall tenant, session :: |Mates(b, tenant, session)| <= cap)
            && (forall x :: x in b ==> x in queue)
            && (forall i, j :: 0 <= i < j < |b| ==> Sooner(b[i], b[j]))
            && (forall x :: x in queue && x !in b ==> PassedOver(b, x, cap, max))
  {
    var o, b := Ordered(queue), Batch(queue, cap, max);
    OrderedSorts(queue);
    PickedInOrder(o, |o|, cap, max);
    PickedShares(o, |o|, cap, max, ("", ""));
    forall tenant, session ensures |Mates(b, tenant, session)| <= cap {
      PickedShares(o, |o|, cap, max, (tenant, session));
      CountIsMates(b, tenant, session);
    }
    forall x | x in b ensures x in queue { assert x in multiset(o); }
    forall i, j | 0 <= i < j < |b| ensures Sooner(b[i], b[j]) { assert Before(b[i], b[j]); }
    forall x | x in queue && x !in b ensures PassedOver(b, x, cap, max) {
      assert x in multiset(o);
      var k :| 0 <= k < |o| && o[k] == x;
      PickedPassesOver(o, |o|, cap, max, k);
    }
  }

  /** Taking: the batch under the configured size and limit, exactly the others of the bucket still queued,
      other buckets as they were. */
  lemma TakeMeans(cfg: Config, s: State, bucket: nat, now: real)
    requires cfg.Valid() && Inv(cfg, s) && bucket in s.queues
    ensures var t := Taken(cfg, s, bucket, now);
            && |t.inflight| <= cfg.maxBatchSize && t.clock == now
            && (forall tenant, session :: |Mates(t.inflight, tenant, session)| <= cfg.perSessionLimit)
            && (forall x :: x in t.inflight ==> x in s.queues[bucket])
            && (forall i, j :: 0 <= i < j < |t.inflight| ==> Sooner(t.inflight[i], t.inflight[j]))
            && (forall x :: x in s.queues[bucket] && x !in t.inflight ==>
                  (PassedOver(t.inflight, x, cfg.perSessionLimit, cfg.maxBatchSize) && bucket in t.queues && x in t.queues[bucket]))
            && (bucket in t.queues ==> forall x :: x in t.queues[bucket] ==> x in s.queues[bucket] && x !in t.inflight)
            && (forall c :: c in t.queues && c != bucket ==> c in s.queues && t.queues[c] == s.queues[c])
            && (forall c :: c in s.queues && c != bucket ==> c in t.queues)
  {
    BatchMeans(s.queues[bucket], cfg.perSessionLimit, cfg.maxBatchSize);
  }

  // ---------------------------------------------------------------- what becomes of them

  /** A quality held to [0, 1]. */
  predicate Held(q: real, r: real) {
    (q < 0.0 ==> r == 0.0) && (0.0 <= q <= 1.0 ==> r == q) && (q > 1.0 ==> r == 1.0)
  }

  /** A reply with one embedding of dimension `dim` and one quality per request succeeds for each open
      future with that request's own share and times; any other reply fails each with its error. */
  lemma FinishMeans(cfg: Config, dim: nat, s: State, startedAt: real, completedAt: real, reply: Reply, i: nat)
    requires cfg.Valid() && Inv(cfg, s) && i < |s.inflight|
    requires var o := s.inflight[i].ordinal; o < |s.futures| && s.futures[o].Pending?
    ensures var f := Completed(s, startedAt, completedAt, reply, dim).futures[s.inflight[i].ordinal];
            var n := |s.inflight|;
            if reply.Reply? && |reply.embeddings| == n && |reply.qualities| == n
               && forall j :: 0 <= j < n ==> |reply.embeddings[j]| == dim
            then f.Done? && f.result.chunk == s.chunks[s.inflight[i].ordinal]
                 && f.result.embedding == reply.embeddings[i] && Held(reply.qualities[i], f.result.quality)
                 && f.result.batchSize == n
                 && f.result.queueDelayMs == 1000.0 * (startedAt - s.inflight[i].enqueuedAt)
                 && f.result.inferenceMs == 1000.0 * (completedAt - startedAt)
            else f.Failed? && (reply.Raised? ==> f.error == reply.error)
  {
    SettledAt(s.futures, s.inflight, |s.inflight|, startedAt, completedAt, reply, dim);
    assert s.inflight[i] in s.inflight && Live(s, s.inflight[i]);
  }
}
