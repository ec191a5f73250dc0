/** What the pipeline guarantees over whole runs: the frontend sees each admitted packet once and in
    order, and speakers, profiles and timeline depend on the signal, not on its packets. */
module PipelineRuns {
  import opened Wrappers
  import opened Vectors
  import G = Gateway
  import F = Frontend
  import S = Store
  import opened Pipeline

  // ---------------------------------------------------------------- many sessions

  /** The state after packets of any sessions in any order, from an empty service, each with the
      batcher's answers to it. */
  ghost function StateAfter<X>(c: Setting<X>, store: S.State<Vec>, ps: seq<F.AudioChunk<X>>, calls: seq<Answers>): State<X>
    requires c.Valid() && |ps| == |calls|
  {
    if ps == [] then State(map[], map[], store, map[])
    else Ingest(c, calls[|ps| - 1], StateAfter(c, store, ps[..|ps| - 1], calls[..|ps| - 1]), ps[|ps| - 1]).0
  }

  function Own<X>(ps: seq<F.AudioChunk<X>>, key: Key): seq<F.AudioChunk<X>> {
    if ps == [] then []
    else Own(ps[..|ps| - 1], key) + (if ps[|ps| - 1].KeyOf() == key then [ps[|ps| - 1]] else [])
  }

  function Tag<X>(p: F.AudioChunk<X>): G.Packet { G.Packet(p.epoch, p.seqNo) }

  function Tags<X>(qs: seq<F.AudioChunk<X>>): (r: seq<G.Packet>)
    ensures |r| == |qs|
  {
    seq(|qs|, i requires 0 <= i < |qs| => Tag(qs[i]))
  }

  /** The packets of one session that the gateway accepts, in arrival order. */
  function Admitted<X>(qs: seq<F.AudioChunk<X>>): seq<F.AudioChunk<X>> {
    if qs == [] then []
    else
      Admitted(qs[..|qs| - 1])
      + (if G.DecisionAt(Tags(qs), |qs| - 1).IsAccepted() then [qs[|qs| - 1]] else [])
  }

  /** The stream after pushing packets in turn; a refused payload changes nothing, a final packet ends it. */
  function StreamAfter<X>(cfg: F.Config<X>, qs: seq<F.AudioChunk<X>>): Option<F.Stream<X>>
    requires cfg.Valid() && cfg.Cuts()
  {
    if qs == [] then None
    else
      var (before, last) := (StreamAfter(cfg, qs[..|qs| - 1]), qs[|qs| - 1]);
      if F.Check(cfg, last).Some? then before
      else if last.isFinal then None
      else Some(F.Push(cfg, before, last).state)
  }

  lemma TagsExtend<X>(qs: seq<F.AudioChunk<X>>, q: F.AudioChunk<X>)
    ensures Tags(qs + [q]) == Tags(qs) + [Tag(q)]
  {
  }

  /** One packet moves its own session's cursor and stream, and no other session's. */
  lemma IngestMoves<X>(c: Setting<X>, answers: Answers, st: State<X>, p: F.AudioChunk<X>, key: Key)
    requires c.Valid()
    ensures var s := Ingest(c, answers, st, p).0;
            var (cursor, d) := G.Admit(G.CursorOf(st.cursors, p.KeyOf()), p.epoch, p.seqNo);
            if p.KeyOf() != key then G.CursorOf(s.cursors, key) == G.CursorOf(st.cursors, key) && StreamOf(s, key) == StreamOf(st, key)
            else
              G.CursorOf(s.cursors, key) == Some(cursor)
              && StreamOf(s, key) ==
                 if !d.IsAccepted() || F.Check(c.frontend, p).Some? then StreamOf(st, key)
                 else if p.isFinal then None
                 else Some(F.Push(c.frontend, StreamOf(st, key), p).state)
  {
  }

  /** A session's cursor and stream are those of its own packets. */
  ghost predicate Follows<X>(c: Setting<X>, st: State<X>, key: Key, own: seq<F.AudioChunk<X>>)
    requires c.Valid()
  {
    && G.CursorOf(st.cursors, key) == G.CursorAt(Tags(own), |own|)
    && StreamOf(st, key) == StreamAfter(c.frontend, Admitted(own))
  }

  lemma OwnPacketFollows<X>(c: Setting<X>, answers: Answers, st: State<X>, own: seq<F.AudioChunk<X>>, p: F.AudioChunk<X>)
    requires c.Valid() && Follows(c, st, p.KeyOf(), own)
    ensures Follows(c, Ingest(c, answers, st, p).0, p.KeyOf(), own + [p])
  {
    IngestMoves(c, answers, st, p, p.KeyOf());
    TagsExtend(own, p);
    G.CursorAtPrefix(Tags(own), Tag(p), |own|);
    AdmittedExtends(c.frontend, own, p);
  }

  /** For every session the gateway's cursor is that of its own packets, and the frontend has seen
      exactly its admitted ones. */
  lemma {:induction false} FrontendSeesAdmitted<X>(c: Setting<X>, store: S.State<Vec>, ps: seq<F.AudioChunk<X>>, calls: seq<Answers>, key: Key)
    requires c.Valid() && |ps| == |calls|
    ensures Follows(c, StateAfter(c, store, ps, calls), key, Own(ps, key))
    decreases |ps|
  {
    if ps != [] {
      var front, p := ps[..|ps| - 1], ps[|ps| - 1];
      var before, answers := calls[..|front|], calls[|front|];
      var st := StateAfter(c, store, front, before);
      FrontendSeesAdmitted(c, store, front, before, key);
      if p.KeyOf() == key {
        OwnPacketFollows(c, answers, st, Own(front, key), p);
      } else {
        OtherPacketFollows(c, answers, st, key, Own(front, key), p);
      }
      OwnStep(ps, key);
    }
  }

  lemma OtherPacketFollows<X>(c: Setting<X>, answers: Answers, st: State<X>, key: Key, own: seq<F.AudioChunk<X>>, p: F.AudioChunk<X>)
    requires c.Valid() && p.KeyOf() != key && Follows(c, st, key, own)
    ensures Follows(c, Ingest(c, answers, st, p).0, key, own)
  {
    IngestMoves(c, answers, st, p, key);
  }

  lemma OwnStep<X>(ps: seq<F.AudioChunk<X>>, key: Key)
    requires ps != []
    ensures var (front, p) := (Own(ps[..|ps| - 1], key), ps[|ps| - 1]);
            Own(ps, key) == if p.KeyOf() == key then front + [p] else front
  {
  }

  lemma AdmittedExtends<X>(cfg: F.Config<X>, own: seq<F.AudioChunk<X>>, p: F.AudioChunk<X>)
    requires cfg.Valid() && cfg.Cuts()
    ensures var (before, accepted) := (Admitted(own), G.DecisionAt(Tags(own + [p]), |own|).IsAccepted());
            Admitted(own + [p]) == (if accepted then before + [p] else before)
            && StreamAfter(cfg, Admitted(own + [p])) ==
               if !accepted || F.Check(cfg, p).Some? then StreamAfter(cfg, before)
               else if p.isFinal then None
               else Some(F.Push(cfg, StreamAfter(cfg, before), p).state)
  {
    assert (own + [p])[..|own|] == own;
    var before := Admitted(own);
    assert (before + [p])[..|before|] == before;
    assert before + [] == before;
  }

  lemma {:induction false} AdmittedFrom<X>(qs: seq<F.AudioChunk<X>>, k: nat) returns (i: nat)
    requires k < |Admitted(qs)|
    ensures i < |qs| && qs[i] == Admitted(qs)[k] && G.DecisionAt(Tags(qs), i).IsAccepted()
    decreases |qs|
  {
    var front := qs[..|qs| - 1];
    TagsExtend(front, qs[|qs| - 1]);
    assert front + [qs[|qs| - 1]] == qs;
    if k < |Admitted(front)| {
      i := AdmittedFrom(front, k);
      G.CursorAtPrefix(Tags(front), Tag(qs[|qs| - 1]), i);
    } else {
      i := |qs| - 1;
    }
  }

  /** Admitted packets come in strictly increasing (epoch, sequence) order: each number reaches the
      frontend at most once, whatever is retransmitted. */
  lemma {:induction false} AdmittedIncrease<X>(qs: seq<F.AudioChunk<X>>, k: nat, l: nat)
    requires k < l < |Admitted(qs)|
    ensures G.LexLess(Tag(Admitted(qs)[k]), Tag(Admitted(qs)[l]))
    decreases |qs|
  {
    var front := qs[..|qs| - 1];
    if l < |Admitted(front)| {
      AdmittedIncrease(front, k, l);
    } else {
      var i := AdmittedFrom(front, k);
      TagsExtend(front, qs[|qs| - 1]);
      assert front + [qs[|qs| - 1]] == qs;
      G.CursorAtPrefix(Tags(front), Tag(qs[|qs| - 1]), i);
      G.AcceptedIncrease(Tags(qs), i, |qs| - 1);
    }
  }

  /** A packet whose ingestion raised has used up its number: sent again, whatever the batcher would answer
      now, it is a duplicate and changes nothing. */
  lemma RetransmissionAfterError<X>(c: Setting<X>, answers: Answers, st: State<X>, p: F.AudioChunk<X>,
                                    later: Answers, again: F.AudioChunk<X>)
    requires c.Valid() && Ingest(c, answers, st, p).1.Raised? && again.KeyOf() == p.KeyOf() && Tag(again) == Tag(p)
    ensures var s := Ingest(c, answers, st, p).0;
            Ingest(c, later, s, again) == (s, Ingested(G.Decision(G.Duplicate, p.seqNo + 1, None), []))
  {
    IngestMoves(c, answers, st, p, p.KeyOf());
  }

  /** There are such packets: an admitted one whose payload is far too short for its time stamps. */
  lemma ShortPayloadRaises<X>(c: Setting<X>, answers: Answers, st: State<X>)
    requires c.Valid() && c.frontend.sampleRate == 16000
    ensures var p := F.AudioChunk("t", "s", NextEpoch(st), 0, 0, 1000, [], 16000, false);
            Ingest(c, answers, st, p) == (st.(cursors := st.cursors[("t", "s") := G.Cursor(p.epoch, 0)]), Raised)
  {
    var p: F.AudioChunk<X> := F.AudioChunk("t", "s", NextEpoch(st), 0, 0, 1000, [], 16000, false);
    assert F.RoundDiv(1000 * 16000, 1000) == 16000;
    assert F.Check(c.frontend, p) == Some(F.WrongDuration);
  }

  /** An epoch no packet of the session has had. */
  function NextEpoch<X>(st: State<X>): nat {
    if ("t", "s") in st.cursors then st.cursors[("t", "s")].epoch + 1 else 0
  }
}
