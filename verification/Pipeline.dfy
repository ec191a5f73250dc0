/** The ingestion pipeline: gateway, frontend, inference, assignment and timeline in the order one
    packet meets them, and the alignment of transcripts against the timeline. */
module Pipeline {
  import opened Wrappers
  import opened Vectors
  import opened Arithmetic
  import G = Gateway
  import F = Frontend
  import A = Assigner
  import S = Store
  import T = Timeline
  import L = SpeakerTimelines
  import Aligner

  type Key = (string, string)

  datatype Embedding = Embedding(vector: Vec, quality: real)

  /** What the batcher answers during one call, chunk by chunk; `None` stands for its exception. Another
      call may be answered otherwise for the same chunk, as a batch fails or succeeds as a whole. */
  type Answers = F.FeatureChunk -> Option<Embedding>

  datatype Setting<!X> = Setting(frontend: F.Config<X>, assign: A.Config, norm: Vec -> real, retentionMs: int) {
    predicate Valid() { frontend.Valid() && frontend.Cuts() }
  }

  datatype State<X> = State(
    cursors: map<Key, G.Cursor>, streams: map<Key, F.Stream<X>>,
    store: S.State<Vec>, timeline: map<Key, seq<T.Segment>>)

  /** `Raised` stands for the exception that leaves `ingest_audio`. */
  datatype Outcome = Ingested(decision: G.Decision, segments: seq<T.Segment>) | Raised

  // ---------------------------------------------------------------- features to segments

  function ResultOf(f: F.FeatureChunk, e: Embedding): A.Result {
    A.Result(f.key, f.startMs, f.endMs, e.vector, e.quality)
  }

  /** The answers to all chunks, or none if one of them fails. */
  function Results(answers: Answers, fs: seq<F.FeatureChunk>): (r: Option<seq<A.Result>>)
    ensures r.Some? ==> |r.value| == |fs|
  {
    if fs == [] then Some([])
    else
      var (first, rest) := (answers(fs[0]), Results(answers, fs[1..]));
      if first.None? || rest.None? then None else Some([ResultOf(fs[0], first.value)] + rest.value)
  }

  /** There are results exactly when every chunk is answered, and then each is its chunk's answer. */
  lemma {:induction false} ResultsMatch(answers: Answers, fs: seq<F.FeatureChunk>)
    ensures var r := Results(answers, fs);
            (r.Some? <==> forall i :: 0 <= i < |fs| ==> answers(fs[i]).Some?)
            && (r.Some? ==> forall i :: 0 <= i < |fs| ==>
                  (r.value[i].key == fs[i].key && r.value[i].startMs == fs[i].startMs && r.value[i].endMs == fs[i].endMs
                   && answers(fs[i]) == Some(Embedding(r.value[i].embedding, r.value[i].quality))))
  {
    if fs != [] { ResultsMatch(answers, fs[1..]); }
  }

  predicate NotAfter(a: A.Result, b: A.Result) {
    a.startMs < b.startMs || (a.startMs == b.startMs && a.endMs <= b.endMs)
  }

  ghost predicate InOrder(rs: seq<A.Result>) { forall i, j :: 0 <= i < j < |rs| ==> NotAfter(rs[i], rs[j]) }

  function Insert(rs: seq<A.Result>, r: A.Result): seq<A.Result> {
    if rs == [] || NotAfter(rs[|rs| - 1], r) then rs + [r]
    else Insert(rs[..|rs| - 1], r) + [rs[|rs| - 1]]
  }

  /** The stable sort by start and end. */
  function Sorted(rs: seq<A.Result>): seq<A.Result> {
    if rs == [] then [] else Insert(Sorted(rs[..|rs| - 1]), rs[|rs| - 1])
  }

  function SegmentOf(s: A.Segment): T.Segment {
    T.Segment(s.key.0, s.key.1, s.startMs, s.endMs, s.speakerId, s.confidence, 1)
  }

  /** Assignment of results one after another; the first failure ends it and what was stored stays. */
  ghost function AssignAll<X>(c: Setting<X>, store: S.State<Vec>, rs: seq<A.Result>): (S.State<Vec>, Option<seq<T.Segment>>)
    decreases |rs|
  {
    if rs == [] then (store, Some([]))
    else
      var (s, out) := A.Assign(c.assign, c.norm, store, rs[0]);
      if out.Failed? then (s, None)
      else
        var (s', rest) := AssignAll(c, s, rs[1..]);
        (s', if rest.None? then None else Some([SegmentOf(out.segment)] + rest.value))
  }

  /** `_process_features`. */
  ghost function Process<X>(c: Setting<X>, answers: Answers, store: S.State<Vec>, fs: seq<F.FeatureChunk>): (S.State<Vec>, Option<seq<T.Segment>>) {
    var rs := Results(answers, fs);
    if rs.None? then (store, None) else AssignAll(c, store, Sorted(rs.value))
  }

  // ---------------------------------------------------------------- one packet

  function StreamOf<X>(st: State<X>, key: Key): Option<F.Stream<X>> {
    if key in st.streams then Some(st.streams[key]) else None
  }

  /** The chunks of one accepted packet, and the streams it leaves. */
  function Framed<X>(c: Setting<X>, st: State<X>, chunk: F.AudioChunk<X>): (map<Key, F.Stream<X>>, seq<F.FeatureChunk>)
    requires c.Valid()
  {
    var key := chunk.KeyOf();
    var p := F.Push(c.frontend, StreamOf(st, key), chunk);
    if chunk.isFinal then (st.streams[key := p.state] - {key}, p.chunks + F.Flushed(c.frontend, key, p.state))
    else (st.streams[key := p.state], p.chunks)
  }

  ghost function Extended(timeline: map<Key, seq<T.Segment>>, retentionMs: int, key: Key, segments: seq<T.Segment>): map<Key, seq<T.Segment>> {
    if segments == [] then timeline
    else timeline[key := T.Listed(T.Added(T.TableOf(L.ListIn(timeline, key)), retentionMs, segments))]
  }

  /** `_process_features` and the timeline's `add`. */
  ghost function Digest<X>(c: Setting<X>, answers: Answers, st: State<X>, key: Key, fs: seq<F.FeatureChunk>): (State<X>, Option<seq<T.Segment>>) {
    var (store, segments) := Process(c, answers, st.store, fs);
    if segments.None? then (st.(store := store), None)
    else (st.(store := store, timeline := Extended(st.timeline, c.retentionMs, key, segments.value)), segments)
  }

  /** `ingest_audio`. */
  ghost function Ingest<X>(c: Setting<X>, answers: Answers, st: State<X>, chunk: F.AudioChunk<X>): (State<X>, Outcome)
    requires c.Valid()
  {
    var key := chunk.KeyOf();
    var (cursor, d) := G.Admit(G.CursorOf(st.cursors, key), chunk.epoch, chunk.seqNo);
    if !d.IsAccepted() then (st, Ingested(d, []))
    else
      var admitted := st.(cursors := st.cursors[key := cursor]);
      if F.Check(c.frontend, chunk).Some? then (admitted, Raised)
      else
        var (streams, fs) := Framed(c, admitted, chunk);
        var (s, segments) := Digest(c, answers, admitted.(streams := streams), key, fs);
        (s, if segments.None? then Raised else Ingested(d, segments.value))
  }

  // ---------------------------------------------------------------- what a batch of segments looks like

  ghost predicate Match(rs: seq<A.Result>, segments: seq<T.Segment>) {
    && |segments| == |rs|
    && forall i :: 0 <= i < |rs| ==>
         (segments[i].KeyOf() == rs[i].key && segments[i].startMs == rs[i].startMs && segments[i].endMs == rs[i].endMs)
  }

  /** One segment per result, in order, over the same time range and for the same session. */
  lemma {:induction false} SegmentsMatch<X>(c: Setting<X>, store: S.State<Vec>, rs: seq<A.Result>)
    ensures var segments := AssignAll(c, store, rs).1;
            segments.Some? ==> Match(rs, segments.value)
    decreases |rs|
  {
    if rs != [] {
      var (s, out) := A.Assign(c.assign, c.norm, store, rs[0]);
      SegmentsMatch(c, s, rs[1..]);
      AssignedRange(c, store, rs[0]);
      if out.Assigned? && AssignAll(c, s, rs[1..]).1.Some? {
        MatchPrepend(rs, SegmentOf(out.segment), AssignAll(c, s, rs[1..]).1.value);
      }
    }
  }

  /** The store before the i-th result is assigned, when each is assigned to the store the last one left. */
  ghost function StoreBefore<X>(c: Setting<X>, store: S.State<Vec>, rs: seq<A.Result>, i: nat): S.State<Vec>
    requires i <= |rs|
  {
    if i == 0 then store else A.Assign(c.assign, c.norm, StoreBefore(c, store, rs, i - 1), rs[i - 1]).0
  }

  ghost function AnswerAt<X>(c: Setting<X>, store: S.State<Vec>, rs: seq<A.Result>, i: nat): A.Outcome
    requires i < |rs|
  {
    A.Assign(c.assign, c.norm, StoreBefore(c, store, rs, i), rs[i]).1
  }

  /** The segment carries what the assigner answered, as its first revision. */
  predicate Reports(x: T.Segment, s: A.Segment) {
    && (x.tenant, x.session) == s.key && x.startMs == s.startMs && x.endMs == s.endMs
    && x.speakerId == s.speakerId && x.confidence == s.confidence && x.revision == 1
  }

  /** What the assigner answers to each result, given the store the results before it left. */
  ghost function AnswersTo<X>(c: Setting<X>, store: S.State<Vec>, rs: seq<A.Result>): (outs: seq<A.Outcome>)
    ensures |outs| == |rs| && forall i :: 0 <= i < |rs| ==> outs[i] == AnswerAt(c, store, rs, i)
  {
    seq(|rs|, i requires 0 <= i < |rs| => AnswerAt(c, store, rs, i))
  }

  /** The segments are the answers, each in its place, when there is no failure among them; else there are none. */
  ghost predicate AreAnswers(outs: seq<A.Outcome>, segments: Option<seq<T.Segment>>) {
    match segments
    case Some(xs) => |xs| == |outs| && forall i :: 0 <= i < |outs| ==> outs[i].Assigned? && Reports(xs[i], outs[i].segment)
    case None => exists i :: 0 <= i < |outs| && outs[i].Failed?
  }

  /** The number of results assigned before the first failure. */
  function Count(outs: seq<A.Outcome>): (n: nat)
    ensures n <= |outs| && (n < |outs| ==> outs[n].Failed?) && forall j :: 0 <= j < n ==> outs[j].Assigned?
  {
    if outs == [] || outs[0].Failed? then 0 else 1 + Count(outs[1..])
  }

  lemma {:induction false} TailStore<X>(c: Setting<X>, store: S.State<Vec>, rs: seq<A.Result>, i: nat)
    requires i < |rs|
    ensures StoreBefore(c, store, rs, i + 1) == StoreBefore(c, A.Assign(c.assign, c.norm, store, rs[0]).0, rs[1..], i)
    decreases i
  {
    if i > 0 { TailStore(c, store, rs, i - 1); } else { assert StoreBefore(c, store, rs, 0) == store; }
  }

  lemma TailAnswers<X>(c: Setting<X>, store: S.State<Vec>, rs: seq<A.Result>)
    requires rs != []
    ensures var (s, out) := A.Assign(c.assign, c.norm, store, rs[0]);
            AnswersTo(c, store, rs) == [out] + AnswersTo(c, s, rs[1..])
  {
    var (s, out) := A.Assign(c.assign, c.norm, store, rs[0]);
    var outs, rest := AnswersTo(c, store, rs), AnswersTo(c, s, rs[1..]);
    forall i: nat | i < |rest| ensures outs[i + 1] == rest[i] { TailAnswer(c, store, rs, i); }
    FirstAnswer(c, store, rs);
    Prepended(outs, out, rest);
  }

  lemma FirstAnswer<X>(c: Setting<X>, store: S.State<Vec>, rs: seq<A.Result>)
    requires rs != []
    ensures AnswerAt(c, store, rs, 0) == A.Assign(c.assign, c.norm, store, rs[0]).1
  {
  }

  lemma TailAnswer<X>(c: Setting<X>, store: S.State<Vec>, rs: seq<A.Result>, i: nat)
    requires i + 1 < |rs|
    ensures AnswerAt(c, store, rs, i + 1) == AnswerAt(c, A.Assign(c.assign, c.norm, store, rs[0]).0, rs[1..], i)
  {
    TailStore(c, store, rs, i);
  }

  lemma Prepended<Y>(all: seq<Y>, first: Y, rest: seq<Y>)
    requires |all| == 1 + |rest| && all[0] == first && forall i :: 0 <= i < |rest| ==> all[i + 1] == rest[i]
    ensures all == [first] + rest
  {
    forall i | 0 <= i < |all| ensures all[i] == ([first] + rest)[i] {
      if i > 0 { assert all[i - 1 + 1] == rest[i - 1]; }
    }
  }

  lemma FailureStoresNothing<X>(c: Setting<X>, store: S.State<Vec>, r: A.Result)
    requires A.Assign(c.assign, c.norm, store, r).1.Failed?
    ensures A.Assign(c.assign, c.norm, store, r).0 == store
  {
  }

  /** Results are assigned one after another, each to the store the last one left, up to the first failure,
      which stores nothing and leaves the call without segments. */
  lemma {:induction false} AssignedInTurn<X>(c: Setting<X>, store: S.State<Vec>, rs: seq<A.Result>)
    ensures var outs := AnswersTo(c, store, rs);
            AreAnswers(outs, AssignAll(c, store, rs).1)
            && AssignAll(c, store, rs).0 == StoreBefore(c, store, rs, Count(outs))
    decreases |rs|
  {
    if rs != [] {
      var (s, out) := A.Assign(c.assign, c.norm, store, rs[0]);
      var outs, rest := AnswersTo(c, store, rs), AnswersTo(c, s, rs[1..]);
      TailAnswers(c, store, rs);
      if out.Failed? {
        FailureStoresNothing(c, store, rs[0]);
        assert outs[0].Failed?;
      } else {
        AssignedInTurn(c, s, rs[1..]);
        TailStore(c, store, rs, Count(rest));
        TurnsPrepend(out, rest, AssignAll(c, s, rs[1..]).1);
      }
    }
  }

  lemma TurnsPrepend(out: A.Outcome, outs: seq<A.Outcome>, rest: Option<seq<T.Segment>>)
    requires out.Assigned? && AreAnswers(outs, rest)
    ensures AreAnswers([out] + outs, if rest.None? then None else Some([SegmentOf(out.segment)] + rest.value))
    ensures Count([out] + outs) == 1 + Count(outs)
  {
    var all := [out] + outs;
    assert all[1..] == outs;
    if rest.None? {
      var i :| 0 <= i < |outs| && outs[i].Failed?;
      assert all[i + 1].Failed?;
    }
  }

  lemma MatchPrepend(rs: seq<A.Result>, first: T.Segment, rest: seq<T.Segment>)
    requires rs != [] && Match(rs[1..], rest)
    requires first.KeyOf() == rs[0].key && first.startMs == rs[0].startMs && first.endMs == rs[0].endMs
    ensures Match(rs, [first] + rest)
  {
  }

  /** Segments of one session's chunks are that session's. */
  lemma ProcessKeepsKey<X>(c: Setting<X>, answers: Answers, store: S.State<Vec>, fs: seq<F.FeatureChunk>, key: Key)
    requires (forall f :: f in fs ==> f.key == key) && Process(c, answers, store, fs).1.Some?
    ensures forall x :: x in Process(c, answers, store, fs).1.value ==> x.KeyOf() == key
  {
    var rs := Results(answers, fs).value;
    ResultsMatch(answers, fs);
    SortedSorts(rs);
    SegmentsMatch(c, store, Sorted(rs));
    forall x | x in Process(c, answers, store, fs).1.value ensures x.KeyOf() == key {
      var i :| 0 <= i < |Sorted(rs)| && Process(c, answers, store, fs).1.value[i] == x;
      assert Sorted(rs)[i] in multiset(Sorted(rs));
      assert Sorted(rs)[i] in rs;
    }
  }

  lemma AssignedRange<X>(c: Setting<X>, store: S.State<Vec>, r: A.Result)
    ensures var out := A.Assign(c.assign, c.norm, store, r).1;
            out.Assigned? ==> out.segment.key == r.key && out.segment.startMs == r.startMs && out.segment.endMs == r.endMs
  {
  }

  lemma {:induction false} InsertPermutes(rs: seq<A.Result>, r: A.Result)
    ensures multiset(Insert(rs, r)) == multiset(rs) + multiset{r}
    decreases |rs|
  {
    if rs != [] && !NotAfter(rs[|rs| - 1], r) {
      InsertPermutes(rs[..|rs| - 1], r);
      assert rs == rs[..|rs| - 1] + [rs[|rs| - 1]];
    }
  }

  lemma {:induction false} InsertKeepsOrder(rs: seq<A.Result>, r: A.Result)
    requires InOrder(rs)
    ensures InOrder(Insert(rs, r))
    decreases |rs|
  {
    if rs != [] && !NotAfter(rs[|rs| - 1], r) {
      var front, last := rs[..|rs| - 1], rs[|rs| - 1];
      InsertKeepsOrder(front, r);
      InsertPermutes(front, r);
      var inner := Insert(front, r);
      forall i | 0 <= i < |inner| ensures NotAfter(inner[i], last) {
        assert inner[i] in multiset(inner);
        if inner[i] != r { assert inner[i] in front; }
      }
    } else {
      var all := rs + [r];
      forall i | 0 <= i < |rs| ensures NotAfter(rs[i], r) {
        if i < |rs| - 1 { assert NotAfter(rs[i], rs[|rs| - 1]); }
      }
      assert Insert(rs, r) == all;
    }
  }

  /** Sorting orders the results and loses none. */
  lemma {:induction false} SortedSorts(rs: seq<A.Result>)
    ensures InOrder(Sorted(rs)) && multiset(Sorted(rs)) == multiset(rs)
    decreases |rs|
  {
    if rs != [] {
      var front, last := rs[..|rs| - 1], rs[|rs| - 1];
      SortedSorts(front);
      InsertKeepsOrder(Sorted(front), last);
      InsertPermutes(Sorted(front), last);
      assert rs == front + [last];
    }
  }

  /** Results already in order stay as they are, equal ones included. */
  lemma {:induction false} SortedIsIdentity(rs: seq<A.Result>)
    requires InOrder(rs)
    ensures Sorted(rs) == rs
    decreases |rs|
  {
    if rs != [] { SortedIsIdentity(rs[..|rs| - 1]); }
  }

  // ---------------------------------------------------------------- what the frontend hands over

  /** Chunks of one session whose starts lie in [from, to) and strictly increase. */
  ghost predicate Rising(fs: seq<F.FeatureChunk>, key: Key, from: int, to: int) {
    && (forall i :: 0 <= i < |fs| ==> (fs[i].key == key && from <= fs[i].startMs < to))
    && (forall i, j :: 0 <= i < j < |fs| ==> fs[i].startMs < fs[j].startMs)
  }

  /** The chunks of a buffer start between its base time and that of what is left over. */
  lemma {:induction false} ChunksRise<X>(cfg: F.Config<X>, key: Key, epoch: nat, index: nat, audio: seq<X>, baseMs: int)
    requires cfg.Valid() && cfg.Cuts()
    ensures var ws := F.Windows(cfg, audio, baseMs);
            Rising(F.Chunks(cfg, key, epoch, index, ws), key, baseMs, baseMs + |ws| * cfg.hopMs)
    decreases |audio|
  {
    if |audio| >= cfg.windowSamples {
      var ws, rest := F.Windows(cfg, audio, baseMs), F.Windows(cfg, audio[cfg.hopSamples..], baseMs + cfg.hopMs);
      assert ws[1..] == rest;
      SuccTimes(|rest|, cfg.hopMs);
      MulMono(0, |rest|, cfg.hopMs);
      ChunksRise(cfg, key, epoch, if F.Speech(cfg, ws[0]) then index + 1 else index, audio[cfg.hopSamples..], baseMs + cfg.hopMs);
    }
  }

  /** All chunks of one packet, the final flush included, are its session's, their starts increasing. */
  lemma FramedRises<X>(c: Setting<X>, st: State<X>, chunk: F.AudioChunk<X>)
    requires c.Valid()
    ensures var fs := Framed(c, st, chunk).1;
            (forall i :: 0 <= i < |fs| ==> fs[i].key == chunk.KeyOf())
            && forall i, j :: 0 <= i < j < |fs| ==> fs[i].startMs < fs[j].startMs
  {
    var s := F.Entered(StreamOf(st, chunk.KeyOf()), chunk);
    if !F.Redundant(c.frontend, s, chunk) {
      var j := F.Joined(c.frontend, s, chunk);
      ChunksRise(c.frontend, chunk.KeyOf(), j.epoch, j.emitted, j.audio, j.baseMs);
    }
  }

  /** So the sort in `_process_features` never moves anything. */
  lemma SortChangesNothing<X>(c: Setting<X>, answers: Answers, st: State<X>, chunk: F.AudioChunk<X>)
    requires c.Valid() && Results(answers, Framed(c, st, chunk).1).Some?
    ensures var rs := Results(answers, Framed(c, st, chunk).1).value; Sorted(rs) == rs
  {
    FramedRises(c, st, chunk);
    ResultsMatch(answers, Framed(c, st, chunk).1);
    SortedIsIdentity(Results(answers, Framed(c, st, chunk).1).value);
  }

  // ---------------------------------------------------------------- the object

  lemma AddExtends(before: map<Key, seq<T.Segment>>, after: map<Key, seq<T.Segment>>, retentionMs: int, key: Key, batch: seq<T.Segment>)
    requires forall x :: x in batch ==> x.KeyOf() == key
    requires forall k :: L.Of(batch, k) != [] ==>
               L.ListIn(after, k) == T.Listed(T.Added(T.TableOf(L.ListIn(before, k)), retentionMs, L.Of(batch, k)))
    requires forall k :: L.Of(batch, k) == [] ==> L.ListIn(after, k) == L.ListIn(before, k)
    requires after.Keys == before.Keys + set x | x in batch :: x.KeyOf()
    ensures after == Extended(before, retentionMs, key, batch)
  {
    L.OfAll(batch, key);
    var e := Extended(before, retentionMs, key, batch);
    if batch != [] { assert batch[0].KeyOf() == key; }
    assert after.Keys == e.Keys;
    forall k | k in after ensures after[k] == e[k] {
      assert L.ListIn(after, k) == L.ListIn(e, k);
    }
  }

  class DiarizationPipeline<X> {
    const gateway: G.EventGateway
    const frontend: F.StreamingAudioFrontend<X>
    const assigner: A.OnlineSpeakerAssigner
    const timeline: L.SpeakerTimeline

    constructor (gateway: G.EventGateway, frontend: F.StreamingAudioFrontend<X>, assigner: A.OnlineSpeakerAssigner,
                 timeline: L.SpeakerTimeline)
      ensures this.gateway == gateway && this.frontend == frontend && this.assigner == assigner
      ensures this.timeline == timeline
    {
      this.gateway, this.frontend, this.assigner, this.timeline := gateway, frontend, assigner, timeline;
    }

    ghost function Config(): Setting<X> {
      Setting(frontend.cfg, assigner.config, assigner.norm, timeline.retentionMs)
    }

    ghost function Now(): State<X>
      reads gateway, frontend, assigner.store, timeline
    {
      State(gateway.cursors, frontend.states, assigner.store.Now(), timeline.segments)
    }

    method IngestAudio(chunk: F.AudioChunk<X>, answers: Answers) returns (out: Outcome)
      requires Config().Valid()
      modifies gateway, frontend, assigner.store, timeline
      ensures (Now(), out) == Ingest(Config(), answers, old(Now()), chunk)
    {
      var key := chunk.KeyOf();
      var decision := gateway.Accept(key, chunk.epoch, chunk.seqNo);
      if !decision.IsAccepted() { return Ingested(decision, []); }
      var features, error := frontend.PushChunk(chunk);
      if error.Some? { return Raised; }
      if chunk.isFinal {
        var rest := frontend.Flush(key);
        features := features + rest;
      }
      FramedRises(Config(), old(Now()), chunk);
      var segments := DigestFeatures(key, features, answers);
      out := if segments.None? then Raised else Ingested(decision, segments.value);
    }

    method FlushSession(key: Key, answers: Answers) returns (segments: Option<seq<T.Segment>>)
      requires Config().Valid()
      modifies frontend, assigner.store, timeline
      ensures var st := old(Now());
              (Now(), segments) == Digest(Config(), answers, st.(streams := st.streams - {key}), key,
                                          if key in st.streams then F.Flushed(frontend.cfg, key, st.streams[key]) else [])
    {
      var features := frontend.Flush(key);
      segments := DigestFeatures(key, features, answers);
    }

    method DigestFeatures(key: Key, features: seq<F.FeatureChunk>, answers: Answers) returns (segments: Option<seq<T.Segment>>)
      requires forall f :: f in features ==> f.key == key
      modifies assigner.store, timeline
      ensures (Now(), segments) == Digest(Config(), answers, old(Now()), key, features)
    {
      segments := ProcessFeatures(features, answers);
      if segments.None? { return; }
      ghost var before := timeline.segments;
      ProcessKeepsKey(Config(), answers, old(assigner.store.Now()), features, key);
      timeline.Add(segments.value);
      AddExtends(before, timeline.segments, timeline.retentionMs, key, segments.value);
    }

    method ProcessFeatures(features: seq<F.FeatureChunk>, answers: Answers) returns (segments: Option<seq<T.Segment>>)
      modifies assigner.store
      ensures (assigner.store.Now(), segments) == Process(Config(), answers, old(assigner.store.Now()), features)
    {
      var results := Results(answers, features);
      if results.None? { return None; }
      var ordered := Sorted(results.value);
      var found: seq<T.Segment> := [];
      ContinueFirst(AssignAll(Config(), assigner.store.Now(), ordered));
      assert ordered[0..] == ordered;
      for i := 0 to |ordered|
        invariant AssignAll(Config(), old(assigner.store.Now()), ordered)
               == Continued(found, AssignAll(Config(), assigner.store.Now(), ordered[i..]))
      {
        assert ordered[i..][0] == ordered[i] && ordered[i..][1..] == ordered[i + 1..];
        ghost var before := assigner.store.Now();
        var out := assigner.AssignResult(ordered[i]);
        ContinueStep(Config(), before, ordered[i..], found);
        if out.Failed? { return None; }
        found := found + [SegmentOf(out.segment)];
      }
      assert ordered[|ordered|..] == [] && found + [] == found;
      return Some(found);
    }

    /** The event's own segments are looked up first, and only those are aligned against. */
    method AlignStt(event: Aligner.Transcript, join: seq<Aligner.Word> -> string) returns (spans: seq<Aligner.Attributed>)
      ensures Aligner.WordsInside(event) ==>
                spans == Aligner.Aligned(event, L.ListIn(timeline.segments, (event.tenant, event.session)), join)
    {
      var speakers := timeline.Query((event.tenant, event.session), event.startMs, event.endMs);
      spans := Aligner.Align(event, speakers, join);
      if Aligner.WordsInside(event) {
        Aligner.PrefilteredAlignment(event, L.ListIn(timeline.segments, (event.tenant, event.session)), join);
      }
    }
  }

  /** Segments already made, and what the remaining results give. */
  ghost function Continued(found: seq<T.Segment>, rest: (S.State<Vec>, Option<seq<T.Segment>>)): (S.State<Vec>, Option<seq<T.Segment>>) {
    (rest.0, if rest.1.None? then None else Some(found + rest.1.value))
  }

  lemma ContinueFirst(rest: (S.State<Vec>, Option<seq<T.Segment>>))
    ensures Continued([], rest) == rest
  {
    if rest.1.Some? { assert [] + rest.1.value == rest.1.value; }
  }

  lemma ContinueStep<X>(c: Setting<X>, store: S.State<Vec>, rs: seq<A.Result>, found: seq<T.Segment>)
    requires rs != []
    ensures var (s, out) := A.Assign(c.assign, c.norm, store, rs[0]);
            Continued(found, AssignAll(c, store, rs))
            == if out.Failed? then (s, None) else Continued(found + [SegmentOf(out.segment)], AssignAll(c, s, rs[1..]))
  {
    var (s, out) := A.Assign(c.assign, c.norm, store, rs[0]);
    if out.Assigned? {
      var rest := AssignAll(c, s, rs[1..]).1;
      if rest.Some? {
        assert found + ([SegmentOf(out.segment)] + rest.value) == (found + [SegmentOf(out.segment)]) + rest.value;
      }
    }
  }
}
