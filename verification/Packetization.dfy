/** One signal, any packets: speakers, profiles, timeline and buffer depend on the audio of a session and not
    on how it was cut into packets, nor on which batches its chunks went through. */
module Packetization {
  import opened Arithmetic
  import opened Sequences
  import opened Wrappers
  import opened Vectors
  import G = Gateway
  import F = Frontend
  import FR = FrontendRuns
  import A = Assigner
  import S = Store
  import T = Timeline
  import L = SpeakerTimelines
  import opened Pipeline

  /** The backend's output for a chunk's features, whatever batch it is in. */
  type Embed = F.Features -> Embedding

  /** Where a call is answered, it is answered with that output. */
  ghost predicate Agrees(answers: Answers, embed: Embed) {
    forall f :: answers(f).Some? ==> answers(f).value == embed(f.features)
  }

  ghost predicate Total(answers: Answers) { forall f :: answers(f).Some? }

  // ---------------------------------------------------------------- features in order

  function Embedded(embed: Embed, fs: seq<F.FeatureChunk>): (rs: seq<A.Result>)
    ensures |rs| == |fs|
  {
    seq(|fs|, i requires 0 <= i < |fs| => ResultOf(fs[i], embed(fs[i].features)))
  }

  lemma {:induction false} AgreedResults(answers: Answers, embed: Embed, fs: seq<F.FeatureChunk>)
    requires Agrees(answers, embed)
    ensures Results(answers, fs).Some? ==> Results(answers, fs).value == Embedded(embed, fs)
    ensures Total(answers) ==> Results(answers, fs).Some?
    decreases |fs|
  {
    if fs != [] {
      AgreedResults(answers, embed, fs[1..]);
      assert Embedded(embed, fs) == [ResultOf(fs[0], embed(fs[0].features))] + Embedded(embed, fs[1..]);
    }
  }

  /** Processing in turn, every chunk answered and nothing sorted. */
  ghost function InTurn<X>(c: Setting<X>, embed: Embed, store: S.State<Vec>, fs: seq<F.FeatureChunk>): (S.State<Vec>, Option<seq<T.Segment>>) {
    AssignAll(c, store, Embedded(embed, fs))
  }

  lemma {:induction false} AssignAllAppend<X>(c: Setting<X>, store: S.State<Vec>, a: seq<A.Result>, b: seq<A.Result>)
    ensures var (s, first) := AssignAll(c, store, a);
            AssignAll(c, store, a + b) == if first.None? then (s, None) else Continued(first.value, AssignAll(c, s, b))
    decreases |a|
  {
    if a == [] {
      assert a + b == b;
      ContinueFirst(AssignAll(c, store, b));
    } else {
      assert (a + b)[1..] == a[1..] + b;
      var (s, out) := A.Assign(c.assign, c.norm, store, a[0]);
      AssignAllAppend(c, s, a[1..], b);
      if out.Assigned? && AssignAll(c, s, a[1..]).1.Some? {
        ContinuedTwice([SegmentOf(out.segment)], AssignAll(c, s, a[1..]).1.value, AssignAll(c, AssignAll(c, s, a[1..]).0, b));
      }
    }
  }

  lemma ContinuedTwice(a: seq<T.Segment>, b: seq<T.Segment>, rest: (S.State<Vec>, Option<seq<T.Segment>>))
    ensures Continued(a, Continued(b, rest)) == Continued(a + b, rest)
  {
    if rest.1.Some? { Associate(a, b, rest.1.value); }
  }

  /** Chunks processed in two parts succeed exactly when they do in one, with the same result. */
  lemma InTurnAppend<X>(c: Setting<X>, embed: Embed, store: S.State<Vec>, a: seq<F.FeatureChunk>, b: seq<F.FeatureChunk>)
    ensures var (s, first) := InTurn(c, embed, store, a);
            var (s', second) := InTurn(c, embed, s, b);
            var (t, both) := InTurn(c, embed, store, a + b);
            (both.Some? <==> first.Some? && second.Some?)
            && (both.Some? ==> t == s' && both.value == first.value + second.value)
  {
    assert Embedded(embed, a + b) == Embedded(embed, a) + Embedded(embed, b);
    AssignAllAppend(c, store, Embedded(embed, a), Embedded(embed, b));
  }

  // ---------------------------------------------------------------- runs of one session

  /** Packets in turn until the first exception: the state, the non-empty batches handed to the
      timeline, and whether no exception was raised. */
  ghost function IngestAll<X>(c: Setting<X>, st: State<X>, ps: seq<F.AudioChunk<X>>, calls: seq<Answers>): (State<X>, seq<seq<T.Segment>>, bool)
    requires c.Valid() && |ps| == |calls|
    decreases |ps|
  {
    if ps == [] then (st, [], true)
    else
      var (s, out) := Ingest(c, calls[0], st, ps[0]);
      if out.Raised? then (s, [], false)
      else
        var (s', batches, ok) := IngestAll(c, s, ps[1..], calls[1..]);
        (s', (if out.segments == [] then [] else [out.segments]) + batches, ok)
  }

  /** The cursor admits a packet of this epoch with a number from `next` on. */
  predicate Admits<X>(st: State<X>, key: Key, epoch: nat, next: nat) {
    key in st.cursors ==>
      st.cursors[key].epoch < epoch || (st.cursors[key].epoch == epoch && st.cursors[key].lastSeq < next)
  }

  /** Increasing sequence numbers, none below `next`; only the last packet may be final. */
  predicate Numbered<X>(next: nat, ps: seq<F.AudioChunk<X>>)
    decreases |ps|
  {
    ps != [] ==> ps[0].seqNo >= next && (ps[0].isFinal ==> |ps| == 1) && Numbered(ps[0].seqNo + 1, ps[1..])
  }

  predicate EndsFinal<X>(ps: seq<F.AudioChunk<X>>) { ps != [] && ps[|ps| - 1].isFinal }

  /** The chunks of one packet entering stream `s0`, its flush included. */
  function PacketChunks<X>(c: Setting<X>, s0: F.Stream<X>, p: F.AudioChunk<X>): seq<F.FeatureChunk>
    requires c.Valid()
  {
    var pushed := F.Push(c.frontend, Some(s0), p);
    pushed.chunks + (if p.isFinal then F.Flushed(c.frontend, p.KeyOf(), pushed.state) else [])
  }

  /** The chunks of all packets in turn. */
  function RunChunks<X>(c: Setting<X>, s0: F.Stream<X>, ps: seq<F.AudioChunk<X>>): seq<F.FeatureChunk>
    requires c.Valid()
    decreases |ps|
  {
    if ps == [] then []
    else PacketChunks(c, s0, ps[0]) + RunChunks(c, F.Push(c.frontend, Some(s0), ps[0]).state, ps[1..])
  }

  /** They are those of pushing all packets, and of one flush if the last is final. */
  lemma {:induction false} RunChunksAre<X>(c: Setting<X>, key: Key, s0: F.Stream<X>, next: nat, ps: seq<F.AudioChunk<X>>)
    requires c.Valid() && Numbered(next, ps) && forall i :: 0 <= i < |ps| ==> ps[i].KeyOf() == key
    ensures var all := FR.PushAll(c.frontend, s0, ps);
            RunChunks(c, s0, ps) == all.chunks + (if EndsFinal(ps) then F.Flushed(c.frontend, key, all.state) else [])
    decreases |ps|
  {
    if |ps| == 1 {
      var pushed := F.Push(c.frontend, Some(s0), ps[0]);
      assert ps[1..] == [] && pushed.chunks + [] == pushed.chunks;
      assert RunChunks(c, s0, ps) == PacketChunks(c, s0, ps[0]) + [] == PacketChunks(c, s0, ps[0]);
    } else if |ps| > 1 {
      var pushed := F.Push(c.frontend, Some(s0), ps[0]);
      RunChunksAre(c, key, pushed.state, ps[0].seqNo + 1, ps[1..]);
      var rest := FR.PushAll(c.frontend, pushed.state, ps[1..]);
      assert pushed.chunks + [] == pushed.chunks;
      Associate(pushed.chunks, rest.chunks, if EndsFinal(ps) then F.Flushed(c.frontend, key, rest.state) else []);
    }
  }

  /** One packet of such a run: it is admitted and cut, and its chunks are processed in their order. */
  lemma IngestDigests<X>(c: Setting<X>, answers: Answers, st: State<X>, p: F.AudioChunk<X>, s0: F.Stream<X>)
    requires c.Valid() && F.Check(c.frontend, p).None? && Admits(st, p.KeyOf(), p.epoch, p.seqNo)
    requires s0 == F.Entered(StreamOf(st, p.KeyOf()), p)
    ensures var key := p.KeyOf();
            var moved := State(st.cursors[key := G.Cursor(p.epoch, p.seqNo)], Framed(c, st, p).0, st.store, st.timeline);
            var (s, segments) := Digest(c, answers, moved, key, PacketChunks(c, s0, p));
            Ingest(c, answers, st, p).0 == s
            && Ingest(c, answers, st, p).1.Raised? == segments.None?
            && (segments.Some? ==> Ingest(c, answers, st, p).1.segments == segments.value)
  {
    FramedIsPacket(c, st, p, s0);
  }

  lemma IngestOne<X>(c: Setting<X>, answers: Answers, st: State<X>, p: F.AudioChunk<X>, s0: F.Stream<X>)
    requires c.Valid() && F.Check(c.frontend, p).None? && Admits(st, p.KeyOf(), p.epoch, p.seqNo)
    requires s0 == F.Entered(StreamOf(st, p.KeyOf()), p)
    ensures var (s, out) := Ingest(c, answers, st, p);
            var rs := Results(answers, PacketChunks(c, s0, p));
            if rs.None? then out.Raised?
            else
              var (store, segments) := AssignAll(c, st.store, rs.value);
              (out.Raised? <==> segments.None?) && (out.Ingested? ==> out.segments == segments.value && s.store == store)
  {
    IngestDigests(c, answers, st, p, s0);
    FramedIsPacket(c, st, p, s0);
    if Results(answers, PacketChunks(c, s0, p)).Some? { SortChangesNothing(c, answers, st, p); }
  }

  lemma IngestLeaves<X>(c: Setting<X>, answers: Answers, st: State<X>, p: F.AudioChunk<X>, s0: F.Stream<X>)
    requires c.Valid() && F.Check(c.frontend, p).None? && Admits(st, p.KeyOf(), p.epoch, p.seqNo)
    requires s0 == F.Entered(StreamOf(st, p.KeyOf()), p)
    ensures var (s, out) := Ingest(c, answers, st, p);
            out.Ingested? ==>
              (s.cursors == st.cursors[p.KeyOf() := G.Cursor(p.epoch, p.seqNo)]
               && StreamOf(s, p.KeyOf()) == (if p.isFinal then None else Some(F.Push(c.frontend, Some(s0), p).state))
               && s.timeline == Extended(st.timeline, c.retentionMs, p.KeyOf(), out.segments))
  {
    IngestDigests(c, answers, st, p, s0);
    assert F.Push(c.frontend, Some(s0), p) == F.Push(c.frontend, StreamOf(st, p.KeyOf()), p);
  }

  lemma FramedIsPacket<X>(c: Setting<X>, st: State<X>, p: F.AudioChunk<X>, s0: F.Stream<X>)
    requires c.Valid() && s0 == F.Entered(StreamOf(st, p.KeyOf()), p)
    ensures Framed(c, st, p).1 == PacketChunks(c, s0, p)
  {
    var pushed := F.Push(c.frontend, Some(s0), p);
    assert pushed == F.Push(c.frontend, StreamOf(st, p.KeyOf()), p);
    assert pushed.chunks + [] == pushed.chunks;
  }

  lemma {:induction false} EverythingPrepend(batch: seq<T.Segment>, batches: seq<seq<T.Segment>>)
    ensures T.Everything([batch] + batches) == batch + T.Everything(batches)
    decreases |batches|
  {
    var all := [batch] + batches;
    if batches == [] {
      assert all[..|all| - 1] == [] && batch + T.Everything([]) == batch == [] + batch;
    } else {
      var front, last := batches[..|batches| - 1], batches[|batches| - 1];
      EverythingPrepend(batch, front);
      assert all[..|all| - 1] == [batch] + front;
      Associate(batch, T.Everything(front), last);
    }
  }

  /** What a run from `st` has to do with processing the chunks `fs` at one go: if it raises nothing it gives
      the same profiles and segments, stored batch by batch after those in `done`; and it raises nothing if
      they can be processed and the batcher answers every chunk. */
  ghost predicate Matches<X>(c: Setting<X>, embed: Embed, st: State<X>, key: Key, done: seq<seq<T.Segment>>, fs: seq<F.FeatureChunk>,
                             run: (State<X>, seq<seq<T.Segment>>, bool), answered: bool)
  {
    var (store, segments) := InTurn(c, embed, st.store, fs);
    && (run.2 ==>
          (segments == Some(T.Everything(run.1)) && run.0.store == store
           && L.ListIn(run.0.timeline, key) == L.StoredAfter(c.retentionMs, done + run.1)))
    && (answered && segments.Some? ==> run.2)
  }

  function Put(done: seq<seq<T.Segment>>, batch: seq<T.Segment>): seq<seq<T.Segment>> {
    if batch == [] then done else done + [batch]
  }

  /** A first packet's batch in front of a matching run. */
  lemma MatchesPrepend<X>(c: Setting<X>, embed: Embed, st: State<X>, key: Key, done: seq<seq<T.Segment>>, a: seq<F.FeatureChunk>, b: seq<F.FeatureChunk>,
                          mid: State<X>, batch: seq<T.Segment>, run: (State<X>, seq<seq<T.Segment>>, bool), answered: bool)
    requires InTurn(c, embed, st.store, a) == (mid.store, Some(batch))
    requires Matches(c, embed, mid, key, Put(done, batch), b, run, answered)
    ensures Matches(c, embed, st, key, done, a + b, (run.0, (if batch == [] then [] else [batch]) + run.1, run.2), answered)
  {
    InTurnAppend(c, embed, st.store, a, b);
    if batch == [] {
      assert [] + run.1 == run.1;
      assert run.2 ==> [] + T.Everything(run.1) == T.Everything(run.1);
    } else {
      EverythingPrepend(batch, run.1);
      Associate(done, [batch], run.1);
    }
  }

  lemma ExtendedStores(before: map<Key, seq<T.Segment>>, retentionMs: int, key: Key, done: seq<seq<T.Segment>>, batch: seq<T.Segment>)
    requires L.ListIn(before, key) == L.StoredAfter(retentionMs, done)
    ensures L.ListIn(Extended(before, retentionMs, key, batch), key) == L.StoredAfter(retentionMs, Put(done, batch))
  {
    assert (done + [batch])[..|done|] == done;
  }

  /** The state of a session whose next packet enters stream `s0`. */
  ghost predicate Ready<X>(c: Setting<X>, st: State<X>, key: Key, s0: F.Stream<X>, next: nat, ps: seq<F.AudioChunk<X>>) {
    && Admits(st, key, s0.epoch, next) && Numbered(next, ps)
    && FR.Contiguous(c.frontend, key, s0.epoch, s0.expectedEndMs, ps)
    && (ps != [] ==> F.Entered(StreamOf(st, key), ps[0]) == s0)
  }

  ghost predicate MovedOn<X>(c: Setting<X>, embed: Embed, answers: Answers, st: State<X>, key: Key, s0: F.Stream<X>, ps: seq<F.AudioChunk<X>>)
    requires c.Valid() && ps != []
  {
    var (mid, out) := Ingest(c, answers, st, ps[0]);
    var state := F.Push(c.frontend, Some(s0), ps[0]).state;
    && out.Ingested?
    && Ready(c, mid, key, state, ps[0].seqNo + 1, ps[1..])
    && StreamOf(mid, key) == (if ps[0].isFinal then None else Some(state))
    && InTurn(c, embed, st.store, PacketChunks(c, s0, ps[0])) == (mid.store, Some(out.segments))
    && mid.timeline == Extended(st.timeline, c.retentionMs, key, out.segments)
  }

  /** The first packet, if it raises nothing, leaves the session ready for the next one; it raises nothing if
      its chunks can be processed and the batcher answers them. */
  lemma FirstPacket<X>(c: Setting<X>, embed: Embed, answers: Answers, st: State<X>, key: Key, s0: F.Stream<X>, next: nat, ps: seq<F.AudioChunk<X>>)
    requires c.Valid() && ps != [] && Ready(c, st, key, s0, next, ps) && Agrees(answers, embed)
    ensures Ingest(c, answers, st, ps[0]).1.Ingested? ==> MovedOn(c, embed, answers, st, key, s0, ps)
    ensures Total(answers) && InTurn(c, embed, st.store, PacketChunks(c, s0, ps[0])).1.Some? ==> Ingest(c, answers, st, ps[0]).1.Ingested?
  {
    IngestLeaves(c, answers, st, ps[0], s0);
    AgreedIngest(c, embed, answers, st, ps[0], s0);
    if Ingest(c, answers, st, ps[0]).1.Ingested? { NextReady(c, answers, st, key, s0, next, ps); }
  }

  lemma AgreedIngest<X>(c: Setting<X>, embed: Embed, answers: Answers, st: State<X>, p: F.AudioChunk<X>, s0: F.Stream<X>)
    requires c.Valid() && F.Check(c.frontend, p).None? && Admits(st, p.KeyOf(), p.epoch, p.seqNo) && Agrees(answers, embed)
    requires s0 == F.Entered(StreamOf(st, p.KeyOf()), p)
    ensures var (s, out) := Ingest(c, answers, st, p);
            var (store, segments) := InTurn(c, embed, st.store, PacketChunks(c, s0, p));
            (out.Ingested? ==> segments == Some(out.segments) && s.store == store)
            && (Total(answers) && segments.Some? ==> out.Ingested?)
  {
    IngestOne(c, answers, st, p, s0);
    AgreedResults(answers, embed, PacketChunks(c, s0, p));
  }

  lemma NextReady<X>(c: Setting<X>, answers: Answers, st: State<X>, key: Key, s0: F.Stream<X>, next: nat, ps: seq<F.AudioChunk<X>>)
    requires c.Valid() && ps != [] && Ready(c, st, key, s0, next, ps)
    requires var s := Ingest(c, answers, st, ps[0]).0;
             s.cursors == st.cursors[key := G.Cursor(ps[0].epoch, ps[0].seqNo)]
             && StreamOf(s, key) == (if ps[0].isFinal then None else Some(F.Push(c.frontend, Some(s0), ps[0]).state))
    ensures Ready(c, Ingest(c, answers, st, ps[0]).0, key, F.Push(c.frontend, Some(s0), ps[0]).state, ps[0].seqNo + 1, ps[1..])
  {
    FR.ContiguousPush(c.frontend, s0, ps[0]);
  }

  ghost predicate AllAgree(calls: seq<Answers>, embed: Embed) { forall i :: 0 <= i < |calls| ==> Agrees(calls[i], embed) }

  /** The batcher answers every chunk. */
  ghost predicate AllTotal(calls: seq<Answers>) { forall i :: 0 <= i < |calls| ==> Total(calls[i]) }

  lemma RaisedMatches<X>(c: Setting<X>, embed: Embed, st: State<X>, key: Key, done: seq<seq<T.Segment>>, s0: F.Stream<X>,
                         ps: seq<F.AudioChunk<X>>, calls: seq<Answers>)
    requires c.Valid() && ps != [] && |calls| == |ps| && Ingest(c, calls[0], st, ps[0]).1.Raised?
    requires Total(calls[0]) ==> InTurn(c, embed, st.store, PacketChunks(c, s0, ps[0])).1.None?
    ensures Matches(c, embed, st, key, done, RunChunks(c, s0, ps), IngestAll(c, st, ps, calls), AllTotal(calls))
  {
    InTurnAppend(c, embed, st.store, PacketChunks(c, s0, ps[0]), RunChunks(c, F.Push(c.frontend, Some(s0), ps[0]).state, ps[1..]));
    assert AllTotal(calls) ==> Total(calls[0]);
  }

  lemma FirstThenRest<X>(c: Setting<X>, embed: Embed, st: State<X>, key: Key, s0: F.Stream<X>, ps: seq<F.AudioChunk<X>>, calls: seq<Answers>, done: seq<seq<T.Segment>>)
    requires c.Valid() && ps != [] && |calls| == |ps| && MovedOn(c, embed, calls[0], st, key, s0, ps)
    requires var (mid, out) := Ingest(c, calls[0], st, ps[0]);
             Matches(c, embed, mid, key, Put(done, out.segments), RunChunks(c, F.Push(c.frontend, Some(s0), ps[0]).state, ps[1..]),
                     IngestAll(c, mid, ps[1..], calls[1..]), AllTotal(calls))
    ensures Matches(c, embed, st, key, done, RunChunks(c, s0, ps), IngestAll(c, st, ps, calls), AllTotal(calls))
  {
    var (mid, out) := Ingest(c, calls[0], st, ps[0]);
    MatchesPrepend(c, embed, st, key, done, PacketChunks(c, s0, ps[0]), RunChunks(c, F.Push(c.frontend, Some(s0), ps[0]).state, ps[1..]),
                   mid, out.segments, IngestAll(c, mid, ps[1..], calls[1..]), AllTotal(calls));
  }

  /** The stream a run leaves: none after a final packet. */
  function StreamLeft<X>(c: Setting<X>, s0: F.Stream<X>, ps: seq<F.AudioChunk<X>>): Option<F.Stream<X>>
    requires c.Valid()
  {
    if EndsFinal(ps) then None else Some(FR.PushAll(c.frontend, s0, ps).state)
  }

  lemma NextStart<X>(c: Setting<X>, embed: Embed, answers: Answers, st: State<X>, key: Key, s0: F.Stream<X>, ps: seq<F.AudioChunk<X>>, done: seq<seq<T.Segment>>)
    requires c.Valid() && ps != [] && MovedOn(c, embed, answers, st, key, s0, ps)
    requires L.ListIn(st.timeline, key) == L.StoredAfter(c.retentionMs, done)
    ensures var (mid, out) := Ingest(c, answers, st, ps[0]);
            Ready(c, mid, key, F.Push(c.frontend, Some(s0), ps[0]).state, ps[0].seqNo + 1, ps[1..])
            && L.ListIn(mid.timeline, key) == L.StoredAfter(c.retentionMs, Put(done, out.segments))
  {
    ExtendedStores(st.timeline, c.retentionMs, key, done, Ingest(c, answers, st, ps[0]).1.segments);
  }

  /** A matching rest makes a matching whole. */
  lemma Onward<X>(c: Setting<X>, embed: Embed, st: State<X>, key: Key, s0: F.Stream<X>, ps: seq<F.AudioChunk<X>>, calls: seq<Answers>, done: seq<seq<T.Segment>>)
    requires c.Valid() && ps != [] && |calls| == |ps| && MovedOn(c, embed, calls[0], st, key, s0, ps)
    requires var (mid, out) := Ingest(c, calls[0], st, ps[0]);
             Matches(c, embed, mid, key, Put(done, out.segments), RunChunks(c, F.Push(c.frontend, Some(s0), ps[0]).state, ps[1..]),
                     IngestAll(c, mid, ps[1..], calls[1..]), AllTotal(calls[1..]))
    ensures Matches(c, embed, st, key, done, RunChunks(c, s0, ps), IngestAll(c, st, ps, calls), AllTotal(calls))
  {
    var (mid, out) := Ingest(c, calls[0], st, ps[0]);
    MatchesForAll(c, embed, mid, key, Put(done, out.segments), RunChunks(c, F.Push(c.frontend, Some(s0), ps[0]).state, ps[1..]),
                  IngestAll(c, mid, ps[1..], calls[1..]), calls);
    FirstThenRest(c, embed, st, key, s0, ps, calls, done);
  }

  /** A run of packets matches the chunks of the whole sequence. */
  lemma {:induction false} RunMatches<X>(c: Setting<X>, embed: Embed, st: State<X>, key: Key, s0: F.Stream<X>, next: nat,
                                         ps: seq<F.AudioChunk<X>>, calls: seq<Answers>, done: seq<seq<T.Segment>>)
    requires c.Valid() && |calls| == |ps| && AllAgree(calls, embed) && Ready(c, st, key, s0, next, ps)
    requires L.ListIn(st.timeline, key) == L.StoredAfter(c.retentionMs, done)
    ensures Matches(c, embed, st, key, done, RunChunks(c, s0, ps), IngestAll(c, st, ps, calls), AllTotal(calls))
    decreases |ps|
  {
    if ps == [] {
      assert done + [] == done;
    } else {
      var out := Ingest(c, calls[0], st, ps[0]).1;
      FirstPacket(c, embed, calls[0], st, key, s0, next, ps);
      if out.Raised? {
        RaisedMatches(c, embed, st, key, done, s0, ps, calls);
      } else {
        var mid, state := Ingest(c, calls[0], st, ps[0]).0, F.Push(c.frontend, Some(s0), ps[0]).state;
        NextStart(c, embed, calls[0], st, key, s0, ps, done);
        RunMatches(c, embed, mid, key, state, ps[0].seqNo + 1, ps[1..], calls[1..], Put(done, out.segments));
        Onward(c, embed, st, key, s0, ps, calls, done);
      }
    }
  }

  lemma {:induction false} RunLeaves<X>(c: Setting<X>, embed: Embed, st: State<X>, key: Key, s0: F.Stream<X>, next: nat,
                                        ps: seq<F.AudioChunk<X>>, calls: seq<Answers>)
    requires c.Valid() && ps != [] && |calls| == |ps| && AllAgree(calls, embed) && Ready(c, st, key, s0, next, ps)
    requires IngestAll(c, st, ps, calls).2
    ensures StreamOf(IngestAll(c, st, ps, calls).0, key) == StreamLeft(c, s0, ps)
    decreases |ps|
  {
    var mid, state := Ingest(c, calls[0], st, ps[0]).0, F.Push(c.frontend, Some(s0), ps[0]).state;
    FirstPacket(c, embed, calls[0], st, key, s0, next, ps);
    assert MovedOn(c, embed, calls[0], st, key, s0, ps);
    FirstLeaves(c, st, s0, ps, calls);
    if |ps| > 1 { RunLeaves(c, embed, mid, key, state, ps[0].seqNo + 1, ps[1..], calls[1..]); }
  }

  lemma FirstLeaves<X>(c: Setting<X>, st: State<X>, s0: F.Stream<X>, ps: seq<F.AudioChunk<X>>, calls: seq<Answers>)
    requires c.Valid() && ps != [] && |calls| == |ps| && IngestAll(c, st, ps, calls).2
    ensures var (mid, out) := Ingest(c, calls[0], st, ps[0]);
            && out.Ingested? && IngestAll(c, mid, ps[1..], calls[1..]).2
            && IngestAll(c, st, ps, calls).0 == IngestAll(c, mid, ps[1..], calls[1..]).0
            && (|ps| == 1 ==> IngestAll(c, st, ps, calls).0 == mid)
    ensures var state := F.Push(c.frontend, Some(s0), ps[0]).state;
            StreamLeft(c, s0, ps) ==
            if |ps| > 1 then StreamLeft(c, state, ps[1..]) else if ps[0].isFinal then None else Some(state)
  {
    var (mid, out) := Ingest(c, calls[0], st, ps[0]);
    if |ps| == 1 { assert ps[1..] == [] && calls[1..] == []; }
    StreamLeftStep(c, s0, ps);
  }

  lemma StreamLeftStep<X>(c: Setting<X>, s0: F.Stream<X>, ps: seq<F.AudioChunk<X>>)
    requires c.Valid() && ps != []
    ensures var state := F.Push(c.frontend, Some(s0), ps[0]).state;
            StreamLeft(c, s0, ps) ==
            if |ps| > 1 then StreamLeft(c, state, ps[1..]) else if ps[0].isFinal then None else Some(state)
  {
    var state := F.Push(c.frontend, Some(s0), ps[0]).state;
    if |ps| == 1 {
      assert ps[1..] == [];
    } else {
      assert ps[1..][|ps| - 2] == ps[|ps| - 1];
    }
    assert FR.PushAll(c.frontend, s0, ps).state == FR.PushAll(c.frontend, state, ps[1..]).state;
  }

  lemma MatchesForAll<X>(c: Setting<X>, embed: Embed, st: State<X>, key: Key, done: seq<seq<T.Segment>>, fs: seq<F.FeatureChunk>,
                         run: (State<X>, seq<seq<T.Segment>>, bool), calls: seq<Answers>)
    requires calls != [] && Matches(c, embed, st, key, done, fs, run, AllTotal(calls[1..]))
    ensures Matches(c, embed, st, key, done, fs, run, AllTotal(calls))
  {
  }

  // ---------------------------------------------------------------- ends follow starts

  /** Chunks whose ends lie one window after their starts, the starts at least a hop before `to`. */
  ghost predicate Spanning<X>(cfg: F.Config<X>, fs: seq<F.FeatureChunk>, to: int) {
    forall f :: f in fs ==> f.endMs == f.startMs + cfg.windowMs && f.startMs <= to - cfg.hopMs
  }

  lemma {:induction false} ChunksSpan<X>(cfg: F.Config<X>, key: Key, epoch: nat, index: nat, audio: seq<X>, baseMs: int)
    requires cfg.Valid() && cfg.Cuts()
    ensures var ws := F.Windows(cfg, audio, baseMs);
            Spanning(cfg, F.Chunks(cfg, key, epoch, index, ws), baseMs + |ws| * cfg.hopMs)
    decreases |audio|
  {
    if |audio| >= cfg.windowSamples {
      var ws, rest := F.Windows(cfg, audio, baseMs), F.Windows(cfg, audio[cfg.hopSamples..], baseMs + cfg.hopMs);
      assert ws[1..] == rest;
      SuccTimes(|rest|, cfg.hopMs);
      MulMono(0, |rest|, cfg.hopMs);
      ChunksSpan(cfg, key, epoch, if F.Speech(cfg, ws[0]) then index + 1 else index, audio[cfg.hopSamples..], baseMs + cfg.hopMs);
    }
  }

  /** What is left once a window has been cut is at least the part of a window behind a hop. */
  lemma {:induction false} LeftoverLong<X>(cfg: F.Config<X>, audio: seq<X>)
    requires cfg.Cuts() && |audio| >= cfg.windowSamples
    ensures |F.Leftover(cfg, audio)| >= cfg.windowSamples - cfg.hopSamples
    decreases |audio|
  {
    if |audio| - cfg.hopSamples >= cfg.windowSamples { LeftoverLong(cfg, audio[cfg.hopSamples..]); }
  }

  /** Sample rates at which rounding to milliseconds does not shorten what is left behind a hop. */
  predicate FineRate(rate: int) { rate >= 2000 || rate % 1000 == 0 }

  lemma RoundedEnd(rate: int, windowMs: int, hopMs: int, n: int)
    requires rate > 0 && FineRate(rate) && 0 < hopMs <= windowMs
    requires n >= rate * windowMs / 1000 - rate * hopMs / 1000
    ensures F.RoundDiv(n * 1000, rate) >= windowMs - hopMs
  {
    var d, q := windowMs - hopMs, F.RoundDiv(n * 1000, rate);
    Rest(rate, windowMs, hopMs, n);
    if q < d { Shorter(rate, d, q); }
  }

  /** The samples behind a hop last almost as long as the time behind it, or exactly at whole rates. */
  lemma Rest(rate: int, windowMs: int, hopMs: int, n: int)
    requires n >= rate * windowMs / 1000 - rate * hopMs / 1000
    ensures n * 1000 > rate * (windowMs - hopMs) - 1000
    ensures rate % 1000 == 0 ==> n * 1000 >= rate * (windowMs - hopMs)
  {
    var a, b := rate * windowMs, rate * hopMs;
    assert a - b == rate * (windowMs - hopMs);
    if rate % 1000 == 0 {
      WholeRate(rate, windowMs);
      WholeRate(rate, hopMs);
    }
  }

  lemma WholeRate(rate: int, ms: int)
    requires rate % 1000 == 0
    ensures rate * ms % 1000 == 0
  {
    var r := rate / 1000;
    assert rate * ms == 1000 * (r * ms);
  }

  lemma Shorter(rate: int, d: int, q: int)
    requires rate > 0 && q < d
    ensures q * rate <= rate * d - rate
  {
    var k := d - 1 - q;
    SumTimes(q, 1 + k, rate);
    SumTimes(1, k, rate);
    MulMono(0, k, rate);
  }

  ghost predicate EndsFollow(fs: seq<F.FeatureChunk>) {
    forall i, j :: 0 <= i < |fs| && 0 <= j < |fs| && fs[i].startMs < fs[j].startMs ==> fs[i].endMs <= fs[j].endMs
  }

  /** The chunks of a whole signal cut at once, with the flush of what is left after a final packet. */
  function SignalChunks<X>(c: Setting<X>, key: Key, epoch: nat, startMs: int, signal: seq<X>, final: bool): seq<F.FeatureChunk>
    requires c.Valid()
  {
    var all := FR.CutAll(c.frontend, key, Fresh(epoch, startMs), signal, startMs);
    all.chunks + (if final then F.Flushed(c.frontend, key, all.state) else [])
  }

  /** The stream a session starts with. */
  function Fresh<X>(epoch: nat, startMs: int): F.Stream<X> { F.Stream(epoch, [], startMs, startMs, 0) }

  lemma SignalEndsFollow<X>(c: Setting<X>, key: Key, epoch: nat, startMs: int, signal: seq<X>, final: bool)
    requires c.Valid() && (final ==> FineRate(c.frontend.sampleRate))
    ensures EndsFollow(SignalChunks(c, key, epoch, startMs, signal, final))
  {
    var cfg := c.frontend;
    var all := FR.CutAll(cfg, key, Fresh(epoch, startMs), signal, startMs);
    var fs := SignalChunks(c, key, epoch, startMs, signal, final);
    ChunksSpan(cfg, key, epoch, 0, signal, startMs);
    if final && |signal| >= cfg.windowSamples {
      LeftoverLong(cfg, signal);
      RoundedEnd(cfg.sampleRate, cfg.windowMs, cfg.hopMs, |all.state.audio|);
    }
    FlushFollows(cfg, all.chunks, if final then F.Flushed(cfg, key, all.state) else [], all.state.baseMs);
  }

  lemma FlushFollows<X>(cfg: F.Config<X>, fs: seq<F.FeatureChunk>, flush: seq<F.FeatureChunk>, to: int)
    requires cfg.Valid() && Spanning(cfg, fs, to) && |flush| <= 1
    requires fs != [] && flush != [] ==> flush[0].startMs == to && flush[0].endMs >= to + cfg.windowMs - cfg.hopMs
    ensures EndsFollow(fs + flush)
  {
    var all := fs + flush;
    forall i, j | 0 <= i < |all| && 0 <= j < |all| && all[i].startMs < all[j].startMs ensures all[i].endMs <= all[j].endMs {
      if i < |fs| { assert all[i] in fs; }
      if j < |fs| { assert all[j] in fs; }
    }
  }

  /** Segments mirror the chunks' ranges. */
  ghost predicate Mirrors(fs: seq<F.FeatureChunk>, segments: seq<T.Segment>) {
    |segments| == |fs| && forall i :: 0 <= i < |fs| ==> segments[i].SlotOf() == (fs[i].startMs, fs[i].endMs)
  }

  lemma InTurnMirrors<X>(c: Setting<X>, embed: Embed, store: S.State<Vec>, fs: seq<F.FeatureChunk>)
    requires InTurn(c, embed, store, fs).1.Some?
    ensures Mirrors(fs, InTurn(c, embed, store, fs).1.value)
  {
    var rs, segments := Embedded(embed, fs), InTurn(c, embed, store, fs).1.value;
    SegmentsMatch(c, store, rs);
    forall i | 0 <= i < |fs| ensures segments[i].SlotOf() == (fs[i].startMs, fs[i].endMs) {
      assert rs[i] == ResultOf(fs[i], embed(fs[i].features));
    }
  }

  /** Segments of such chunks satisfy the timeline's hypothesis. */
  lemma MirroredFollow(fs: seq<F.FeatureChunk>, segments: seq<T.Segment>)
    requires EndsFollow(fs) && Mirrors(fs, segments)
    ensures T.EndsFollowStarts(T.PutAll(map[], segments).Keys)
  {
    T.PutAllKeys(map[], segments);
    var slots := T.PutAll(map[], segments).Keys;
    forall a, b | a in slots && b in slots && a.0 < b.0 ensures a.1 <= b.1 {
      var i :| 0 <= i < |segments| && segments[i].SlotOf() == a;
      var j :| 0 <= j < |segments| && segments[j].SlotOf() == b;
      assert fs[i].startMs < fs[j].startMs;
    }
  }

  // ---------------------------------------------------------------- the whole signal

  ghost predicate Unknown<X>(st: State<X>, key: Key) {
    key !in st.cursors && key !in st.streams && key !in st.timeline
  }

  /** A new session's contiguous packets with the batcher's answers to them. */
  ghost predicate Sent<X>(c: Setting<X>, embed: Embed, st: State<X>, key: Key, epoch: nat, startMs: int, ps: seq<F.AudioChunk<X>>, calls: seq<Answers>) {
    && Unknown(st, key) && ps != [] && |calls| == |ps| && AllAgree(calls, embed)
    && Numbered(0, ps) && FR.Contiguous(c.frontend, key, epoch, startMs, ps)
  }

  lemma {:induction false} ContiguousKeys<X>(cfg: F.Config<X>, key: Key, epoch: nat, endMs: int, ps: seq<F.AudioChunk<X>>)
    requires FR.Contiguous(cfg, key, epoch, endMs, ps)
    ensures forall i :: 0 <= i < |ps| ==> ps[i].KeyOf() == key
    decreases |ps|
  {
    if ps != [] { ContiguousKeys(cfg, key, epoch, ps[0].endMs, ps[1..]); }
  }

  /** The chunks of contiguous packets are those of the signal. */
  lemma RunIsSignal<X>(c: Setting<X>, key: Key, epoch: nat, startMs: int, ps: seq<F.AudioChunk<X>>)
    requires c.Valid() && Numbered(0, ps) && FR.Contiguous(c.frontend, key, epoch, startMs, ps)
    ensures RunChunks(c, Fresh(epoch, startMs), ps) == SignalChunks(c, key, epoch, startMs, FR.Signal(ps), EndsFinal(ps))
    ensures FR.PushAll(c.frontend, Fresh(epoch, startMs), ps).state
         == FR.CutAll(c.frontend, key, Fresh(epoch, startMs), FR.Signal(ps), FR.EndOf(startMs, ps)).state
  {
    var s0: F.Stream<X> := Fresh(epoch, startMs);
    ContiguousKeys(c.frontend, key, epoch, startMs, ps);
    RunChunksAre(c, key, s0, 0, ps);
    FR.PacketizationIndependence(c.frontend, key, s0, ps);
    assert [] + FR.Signal(ps) == FR.Signal(ps);
  }

  /** End to end: if the packets of a new session raise no exception, profiles and segments are those of the
      signal cut at once and processed in turn, the buffer is what that leaves, and the stored timeline is
      the one rebuilt from all segments. They raise none if the batcher answers every chunk and the
      signal's chunks can be processed. */
  lemma SignalDecides<X>(c: Setting<X>, embed: Embed, st: State<X>, key: Key, epoch: nat, startMs: int, ps: seq<F.AudioChunk<X>>, calls: seq<Answers>)
    requires c.Valid() && Sent(c, embed, st, key, epoch, startMs, ps, calls)
    ensures var (end, batches, ok) := IngestAll(c, st, ps, calls);
            var (store, segments) := InTurn(c, embed, st.store, SignalChunks(c, key, epoch, startMs, FR.Signal(ps), EndsFinal(ps)));
            (AllTotal(calls) && segments.Some? ==> ok)
            && (ok ==> segments == Some(T.Everything(batches)) && end.store == store)
    ensures var (end, batches, ok) := IngestAll(c, st, ps, calls);
            ok ==>
              StreamOf(end, key) ==
                (if EndsFinal(ps) then None
                 else Some(FR.CutAll(c.frontend, key, Fresh(epoch, startMs), FR.Signal(ps), FR.EndOf(startMs, ps)).state))
    ensures var (end, batches, ok) := IngestAll(c, st, ps, calls);
            ok && (EndsFinal(ps) ==> FineRate(c.frontend.sampleRate)) ==>
              L.ListIn(end.timeline, key) == T.Listed(T.Pruned(T.PutAll(map[], T.Everything(batches)), c.retentionMs))
  {
    var s0: F.Stream<X> := Fresh(epoch, startMs);
    var (end, batches, ok) := IngestAll(c, st, ps, calls);
    RunMatches(c, embed, st, key, s0, 0, ps, calls, []);
    RunIsSignal(c, key, epoch, startMs, ps);
    if ok {
      RunLeaves(c, embed, st, key, s0, 0, ps, calls);
      if EndsFinal(ps) ==> FineRate(c.frontend.sampleRate) {
        SignalTimeline(c, embed, st, key, epoch, startMs, FR.Signal(ps), EndsFinal(ps), batches);
      }
    }
  }

  lemma SignalTimeline<X>(c: Setting<X>, embed: Embed, st: State<X>, key: Key, epoch: nat, startMs: int, signal: seq<X>, final: bool, batches: seq<seq<T.Segment>>)
    requires c.Valid() && (final ==> FineRate(c.frontend.sampleRate))
    requires InTurn(c, embed, st.store, SignalChunks(c, key, epoch, startMs, signal, final)).1 == Some(T.Everything(batches))
    ensures L.StoredAfter(c.retentionMs, [] + batches) == T.Listed(T.Pruned(T.PutAll(map[], T.Everything(batches)), c.retentionMs))
  {
    SignalEndsFollow(c, key, epoch, startMs, signal, final);
    var fs := SignalChunks(c, key, epoch, startMs, signal, final);
    InTurnMirrors(c, embed, st.store, fs);
    MirroredFollow(fs, T.Everything(batches));
    L.TimelineEqualsRebuild(c.retentionMs, batches);
    assert [] + batches == batches;
  }

  /** Two packetizations of one signal, through whatever batches and with whatever else failing in them: if
      neither raises an exception they cannot be told apart by profiles, segments, timeline or buffer. */
  lemma PacketsInvisible<X>(c: Setting<X>, embed: Embed, st: State<X>, key: Key, epoch: nat, startMs: int,
                            ps: seq<F.AudioChunk<X>>, calls: seq<Answers>, qs: seq<F.AudioChunk<X>>, others: seq<Answers>)
    requires c.Valid() && Sent(c, embed, st, key, epoch, startMs, ps, calls) && Sent(c, embed, st, key, epoch, startMs, qs, others)
    requires FR.Signal(ps) == FR.Signal(qs) && FR.EndOf(startMs, ps) == FR.EndOf(startMs, qs) && EndsFinal(ps) == EndsFinal(qs)
    ensures var (end1, batches1, ok1) := IngestAll(c, st, ps, calls);
            var (end2, batches2, ok2) := IngestAll(c, st, qs, others);
            ok1 && ok2 ==>
              (end1.store == end2.store && T.Everything(batches1) == T.Everything(batches2)
               && StreamOf(end1, key) == StreamOf(end2, key)
               && ((EndsFinal(ps) ==> FineRate(c.frontend.sampleRate)) ==> L.ListIn(end1.timeline, key) == L.ListIn(end2.timeline, key)))
  {
    SignalDecides(c, embed, st, key, epoch, startMs, ps, calls);
    SignalDecides(c, embed, st, key, epoch, startMs, qs, others);
  }
}
