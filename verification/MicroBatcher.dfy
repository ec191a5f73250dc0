/** The batcher object itself: fields updated in place by loops, each method tied to the
    step it performs in the state machine of module Scheduler. */
module MicroBatcher {
  import opened Batching
  import opened Scheduler
  import opened SchedulerMeaning
  import opened SchedulerRuns
  import opened Wrappers

  datatype SubmitResult = Accepted(ordinal: nat) | BatcherClosing | DeadlineNotPositive

  class CrossSessionMicroBatcher {
    const cfg: Config
    const dim: nat
    var queues: map<nat, seq<Queued>>
    var futures: seq<Future>
    var inflight: seq<Queued>
    var closing: bool
    var clock: real
    ghost var served: set<nat>
    ghost var chunks: seq<FeatureChunk>

    ghost function Current(): State
      reads this
    {
      State(queues, futures, inflight, closing, clock, served, chunks)
    }

    ghost predicate Valid()
      reads this
    {
      cfg.Valid() && Inv(cfg, Current())
    }

    constructor (cfg: Config, dim: nat)
      requires cfg.Valid()
      ensures Valid() && Current() == INITIAL && this.cfg == cfg && this.dim == dim
    {
      this.cfg, this.dim := cfg, dim;
      queues, futures, inflight, closing, clock := map[], [], [], false, 0.0;
      served, chunks := {}, [];
    }

    method BucketForFrames(frameCount: int) returns (bucket: nat)
      ensures bucket == BucketFor(cfg.boundaries, frameCount)
    {
      for index := 0 to |cfg.boundaries|
        invariant BucketFor(cfg.boundaries, frameCount) == index + BucketFor(cfg.boundaries[index..], frameCount)
      {
        if frameCount <= cfg.boundaries[index] {
          return index;
        }
      }
      return |cfg.boundaries|;
    }

    method Submit(chunk: FeatureChunk, deadlineMs: Option<int>, now: real) returns (r: SubmitResult)
      requires Valid() && now >= clock
      modifies this
      ensures Valid() && Current() == Submitted(cfg, old(Current()), chunk, deadlineMs, now)
      ensures r.BatcherClosing? <==> old(closing)
      ensures r.DeadlineNotPositive?
         <==> !old(closing) && (if deadlineMs.Some? then deadlineMs.value <= 0 else cfg.defaultDeadlineMs <= 0)
      ensures r.Accepted? ==>
                forall ms :: DelayGiven(cfg, deadlineMs, ms) ==>
                  exists b, x :: b in queues && x in queues[b] && x.chunk == chunk && x.enqueuedAt == now
                    && x.deadlineAt == now + ms as real / 1000.0 && x.ordinal == r.ordinal
      ensures r.Accepted? ==> r.ordinal == old(|futures|) == |futures| - 1
    {
      ghost var t := Submitted(cfg, Current(), chunk, deadlineMs, now);
      SubmitKeepsInv(cfg, Current(), chunk, deadlineMs, now);
      clock := now;
      if closing { return BatcherClosing; }
      var deadlineDelay := Delay(cfg, deadlineMs);
      if deadlineDelay <= 0 { return DeadlineNotPositive; }
      var bucket := BucketForFrames(|chunk.features|);
      var queued := Queued(chunk, now + Ms(deadlineDelay), now, |futures|);
      var waiting := if bucket in queues then queues[bucket] else [];
      queues := queues[bucket := waiting + [queued]];
      futures := futures + [Pending];
      chunks := chunks + [chunk];
      assert Current() == t;
      assert queued in queues[bucket];
      return Accepted(queued.ordinal);
    }

    method BeginClose()
      requires Valid()
      modifies this`closing
      ensures Valid() && Current() == old(Current()).(closing := true)
    {
      StepKeepsInv(cfg, dim, Current(), Close);
      closing := true;
    }

    /** The ready bucket with the least (earliest deadline, flush time, bucket). */
    method SelectReadyBucket(now: real) returns (r: Option<nat>)
      ensures r.Some? ==> Selects(cfg, queues, closing, now, r.value)
      ensures r.None? ==> forall b :: b in queues ==> !Ready(cfg, closing, queues[b], now)
      ensures r.Some? ==> Due(cfg, closing, queues[r.value], now)
      ensures r.None? ==> forall b :: b in queues && queues[b] != [] ==> !Due(cfg, closing, queues[b], now)
    {
      r := None;
      var todo := queues.Keys;
      while todo != {}
        invariant todo <= queues.Keys
        invariant r.Some? ==> r.value in queues && Ready(cfg, closing, queues[r.value], now)
        invariant r.None? ==> forall b :: b in queues && b !in todo ==> !Ready(cfg, closing, queues[b], now)
        invariant forall b :: r.Some? && b in queues && b !in todo && Ready(cfg, closing, queues[b], now)
                    ==> EntryLe(EntryOf(cfg, queues[r.value], r.value), EntryOf(cfg, queues[b], b))
        decreases todo
      {
        var b :| b in todo;
        todo := todo - {b};
        if Ready(cfg, closing, queues[b], now)
           && (r.None? || !EntryLe(EntryOf(cfg, queues[r.value], r.value), EntryOf(cfg, queues[b], b))) {
          r := Some(b);
        }
      }
      forall b | b in queues && queues[b] != []
        ensures Ready(cfg, closing, queues[b], now) <==> Due(cfg, closing, queues[b], now)
      {
        ReadyMeans(cfg, closing, queues[b], now);
      }
    }

    method NextWakeAt() returns (wakeAt: real)
      requires queues != map[] && forall b :: b in queues ==> queues[b] != []
      ensures WakesAt(cfg, queues, wakeAt)
      ensures WakesSomeone(cfg, queues, wakeAt)
    {
      var at :| at in queues;
      var todo := queues.Keys;
      while todo != {}
        invariant todo <= queues.Keys && at in queues
        invariant forall b :: b in queues && b !in todo ==> FlushAt(cfg, queues[at]) <= FlushAt(cfg, queues[b])
        decreases todo
      {
        var b :| b in todo;
        todo := todo - {b};
        if FlushAt(cfg, queues[b]) < FlushAt(cfg, queues[at]) { at := b; }
      }
      wakeAt := FlushAt(cfg, queues[at]);
      WakeMeans(cfg, queues, wakeAt);
    }

    method TakeBatch(bucket: nat, now: real) returns (selected: seq<Queued>)
      requires Valid() && bucket in queues && inflight == [] && now >= clock
      modifies this
      ensures Valid() && Current() == Taken(cfg, old(Current()), bucket, now)
      ensures selected == inflight && selected != []
    {
      TakeKeepsInv(cfg, Current(), bucket, now);
      var queue := queues[bucket];
      selected := GreedySelection(Ordered(queue), cfg.perSessionLimit, cfg.maxBatchSize);
      // The batch is never empty, so the source's fallback to the first request is dead code.
      assert selected != [];
      var rest := Without(queue, selected);
      if rest == [] { queues := queues - {bucket}; } else { queues := queues[bucket := rest]; }
      inflight, clock := selected, now;
    }

    /** Resolves the futures of the batch in flight from the backend's reply. */
    method Execute(startedAt: real, completedAt: real, reply: Reply)
      requires Valid() && inflight != [] && completedAt >= clock
      modifies this
      ensures Valid() && Current() == Completed(old(Current()), startedAt, completedAt, reply, dim)
    {
      FinishKeepsInv(cfg, Current(), startedAt, completedAt, reply, dim);
      forall x | x in inflight ensures x.ordinal < |futures| { assert Live(Current(), x); }
      futures := ResolveFutures(futures, inflight, startedAt, completedAt, reply, dim);
      served := served + OrdinalsOf(inflight);
      inflight, clock := [], completedAt;
    }

    /** Callers cancel the futures of these requests, wherever they are. */
    method CancelAll(ordinals: seq<nat>)
      requires Valid()
      modifies this
      ensures Valid() && Current() == AfterCancels(old(Current()), ordinals)
    {
      CancelsKeep(cfg, Current(), ordinals);
      for i := 0 to |ordinals|
        invariant AfterCancels(old(Current()), ordinals) == AfterCancels(Current(), ordinals[i..])
      {
        var o := ordinals[i];
        assert ordinals[i..][0] == o && ordinals[i..][1..] == ordinals[i + 1..];
        if o < |futures| && futures[o].Pending? { futures := futures[o := Cancelled]; }
      }
    }

    /** Takes the batch of a selected bucket and executes it; callers may cancel futures meanwhile. */
    method Serve(bucket: nat, startedAt: real, completedAt: real, backend: seq<Matrix> -> Reply, cancels: seq<nat>)
      requires Valid() && inflight == [] && bucket in queues && clock <= startedAt <= completedAt
      modifies this
      ensures Valid() && inflight == [] && clock == completedAt && closing == old(closing)
      ensures |QueuedOrdinals(Current())| < old(|QueuedOrdinals(Current())|)
      ensures Keeps(old(futures), futures)
    {
      ghost var s := Current();
      var batch := TakeBatch(bucket, startedAt);
      var reply := backend(seq(|batch|, i requires 0 <= i < |batch| => batch[i].chunk.features));
      ServeKeeps(cfg, dim, s, bucket, startedAt, cancels, completedAt, reply);
      CancelAll(cancels);
      Execute(startedAt, completedAt, reply);
    }

    /** `close`: no more submissions, and the runner drains what is queued. */
    method CloseAndDrain(backend: seq<Matrix> -> Reply, ticks: nat -> real, cancels: nat -> seq<nat>)
      requires Valid() && inflight == []
      requires ticks(0) >= clock && forall i, j :: 0 <= i <= j ==> ticks(i) <= ticks(j)
      modifies this
      ensures Valid() && closing && queues == map[] && inflight == []
      ensures forall o :: 0 <= o < |futures| ==> !futures[o].Pending?
      ensures Keeps(old(futures), futures)
    {
      BeginClose();
      DrainWhenClosing(backend, ticks, cancels);
    }

    /** The runner after `close`: batches are taken and executed until nothing is pending.
        `backend` may fail or answer in a wrong shape, and before and during each batch callers may
        cancel any futures (`cancels`); `ticks` bounds nothing, it only supplies non-decreasing clock
        readings. */
    method DrainWhenClosing(backend: seq<Matrix> -> Reply, ticks: nat -> real, cancels: nat -> seq<nat>)
      requires Valid() && closing && inflight == []
      requires ticks(0) >= clock && forall i, j :: 0 <= i <= j ==> ticks(i) <= ticks(j)
      modifies this
      ensures Valid() && closing && queues == map[] && inflight == []
      ensures forall o :: 0 <= o < |futures| ==> !futures[o].Pending?
      ensures Keeps(old(futures), futures)
    {
      var tick := 0;
      while queues != map[]
        invariant Valid() && closing && inflight == [] && ticks(tick) >= clock
        invariant Keeps(old(futures), futures)
        decreases |QueuedOrdinals(Current())|
      {
        CancelsKeep(cfg, Current(), cancels(tick));
        CancelAll(cancels(tick));
        var selection := SelectReadyBucket(ticks(tick));
        assert selection.Some? by {
          var some :| some in queues;
          assert Ready(cfg, closing, queues[some], ticks(tick));
        }
        Serve(selection.value, ticks(tick), ticks(tick + 1), backend, cancels(tick + 1));
        tick := tick + 2;
      }
      NothingOpen(cfg, Current());
    }
  }

  /** Settled futures are as they were and no future is lost. */
  ghost predicate Keeps(before: seq<Future>, after: seq<Future>) {
    |after| == |before| && forall o :: 0 <= o < |before| && !before[o].Pending? ==> after[o] == before[o]
  }

  ghost function AfterCancels(s: State, ordinals: seq<nat>): State
    decreases |ordinals|
  {
    if ordinals == [] then s else AfterCancels(AfterCancel(s, ordinals[0]), ordinals[1..])
  }

  /** Cancellations change nothing but open futures. */
  lemma {:induction false} CancelsKeep(cfg: Config, s: State, ordinals: seq<nat>)
    requires Inv(cfg, s)
    ensures var t := AfterCancels(s, ordinals);
            && Inv(cfg, t) && t == s.(futures := t.futures) && Keeps(s.futures, t.futures)
            && QueuedOrdinals(t) == QueuedOrdinals(s)
    decreases |ordinals|
  {
    if ordinals != [] {
      CancelKeepsInv(cfg, s, ordinals[0]);
      CancelsKeep(cfg, AfterCancel(s, ordinals[0]), ordinals[1..]);
    }
    SameQueued(s, AfterCancels(s, ordinals));
  }

  lemma SameQueued(s: State, t: State)
    requires s.queues == t.queues
    ensures QueuedOrdinals(s) == QueuedOrdinals(t)
  {
    forall o ensures InQueue(s, o) <==> InQueue(t, o) {}
  }

  /** Taking a batch leaves strictly fewer requests queued. */
  lemma TakeShrinks(cfg: Config, s: State, b: nat, startedAt: real)
    requires cfg.Valid() && Inv(cfg, s) && s.inflight == [] && b in s.queues && startedAt >= s.clock
    ensures |QueuedOrdinals(Taken(cfg, s, b, startedAt))| < |QueuedOrdinals(s)|
  {
    var t := Taken(cfg, s, b, startedAt);
    TakeKeepsInv(cfg, s, b, startedAt);
    TakeInQueue(cfg, s, b, startedAt);
    assert t.inflight[0] in t.inflight && t.inflight[0].ordinal in QueuedOrdinals(s);
    SubsetSize(QueuedOrdinals(t), QueuedOrdinals(s));
  }

  /** Completing it queues nothing and reopens or changes no settled future. */
  lemma CompleteKeeps(cfg: Config, dim: nat, t: State, startedAt: real, completedAt: real, reply: Reply)
    requires Inv(cfg, t)
    ensures var u := Completed(t, startedAt, completedAt, reply, dim);
            QueuedOrdinals(u) == QueuedOrdinals(t) && Keeps(t.futures, u.futures)
  {
    forall x | x in t.inflight ensures x.ordinal < |t.futures| { assert Live(t, x); }
    var u := Completed(t, startedAt, completedAt, reply, dim);
    SettledAt(t.futures, t.inflight, |t.inflight|, startedAt, completedAt, reply, dim);
    SameQueued(t, u);
  }

  lemma ServeKeeps(cfg: Config, dim: nat, s: State, b: nat, startedAt: real, cancels: seq<nat>, completedAt: real, reply: Reply)
    requires cfg.Valid() && Inv(cfg, s) && s.inflight == [] && b in s.queues && startedAt >= s.clock
    ensures var t := Taken(cfg, s, b, startedAt);
            var v := AfterCancels(t, cancels);
            && v == t.(futures := v.futures) && Inv(cfg, v)
            && (var u := Completed(v, startedAt, completedAt, reply, dim);
                |QueuedOrdinals(u)| < |QueuedOrdinals(s)| && Keeps(s.futures, u.futures))
  {
    TakeShrinks(cfg, s, b, startedAt);
    TakeKeepsInv(cfg, s, b, startedAt);
    CancelsKeep(cfg, Taken(cfg, s, b, startedAt), cancels);
    CompleteKeeps(cfg, dim, AfterCancels(Taken(cfg, s, b, startedAt), cancels), startedAt, completedAt, reply);
  }

  lemma NothingOpen(cfg: Config, s: State)
    requires Inv(cfg, s) && s.queues == map[] && s.inflight == []
    ensures forall o :: 0 <= o < |s.futures| ==> !s.futures[o].Pending?
  {
    forall o: nat | o < |s.futures| ensures o in s.served { assert !InQueue(s, o); }
  }

  /** The loop of `_execute` over the batch: each open future is resolved in turn. */
  method ResolveFutures(before: seq<Future>, batch: seq<Queued>,
                        startedAt: real, completedAt: real, reply: Reply, dim: nat)
    returns (futures: seq<Future>)
    requires forall x :: x in batch ==> x.ordinal < |before|
    ensures futures == Settled(before, batch, |batch|, startedAt, completedAt, reply, dim)
  {
    futures := before;
    for index := 0 to |batch|
      invariant futures == Settled(before, batch, index, startedAt, completedAt, reply, dim)
    {
      var o := batch[index].ordinal;
      assert batch[index] in batch;
      if futures[o].Pending? {
        futures := futures[o := Outcome(batch, index, startedAt, completedAt, reply, dim)];
      }
    }
  }

  /** The loop of `_take_batch` over the requests in service order. */
  method GreedySelection(ordered: seq<Queued>, limit: nat, max: nat) returns (selected: seq<Queued>)
    ensures selected == Picked(ordered, |ordered|, limit, max)
  {
    selected := [];
    var perSession: map<Session, nat> := map[];
    var i := 0;
    while i < |ordered| && |selected| < max
      invariant 0 <= i <= |ordered|
      invariant selected == Picked(ordered, i, limit, max)
      invariant forall s :: SessionCount(perSession, s) == Count(SessionsOf(selected), s)
    {
      var item := ordered[i];
      var count := SessionCount(perSession, item.SessionKey());
      if count < limit {
        forall s ensures Count(SessionsOf(selected + [item]), s)
                      == Count(SessionsOf(selected), s) + (if item.SessionKey() == s then 1 else 0)
        {
          SessionsAppend(selected, item);
          CountAppend(SessionsOf(selected), item.SessionKey(), s);
        }
        selected := selected + [item];
        perSession := perSession[item.SessionKey() := count + 1];
      }
      i := i + 1;
    }
    FullStays(ordered, i, |ordered|, limit, max);
  }

  function SessionCount(perSession: map<Session, nat>, s: Session): nat {
    if s in perSession then perSession[s] else 0
  }

  /** Once the global cap is reached the rest of the bucket changes nothing, so the source's
      `break` is sound. */
  lemma {:induction false} FullStays(o: seq<Queued>, i: nat, n: nat, cap: nat, max: nat)
    requires i <= n <= |o| && (i == n || |Picked(o, i, cap, max)| >= max)
    ensures Picked(o, n, cap, max) == Picked(o, i, cap, max)
  {
    if i < n { FullStays(o, i, n - 1, cap, max); }
  }
}
