/** What every interleaving of assignments and renames guarantees, from its equivalence with a serial
    order: sessions are independent, no rename is lost, sample counts add up, quality averages stay in range. */
module SerializableRuns {
  import opened Vectors
  import opened Wrappers
  import opened SpeakerIds
  import opened Store
  import opened Assigner
  import opened Serializable

  // ---------------------------------------------------------------- sessions are independent

  /** The tasks of one session, in the same order. */
  ghost function OfSession(c: Setting, log: seq<nat>, key: Key): (r: seq<nat>)
    requires Order(c, log)
    ensures Order(c, r)
  {
    if log == [] then []
    else
      var (front, i) := (log[..|log| - 1], log[|log| - 1]);
      if c.tasks[i].KeyOf() == key then OfSession(c, front, key) + [i] else OfSession(c, front, key)
  }

  lemma {:induction false} SerialKeepsKeyed(c: Setting, log: seq<nat>)
    requires Order(c, log) && Keyed(c.start)
    ensures Keyed(SerialState(c, log))
    decreases |log|
  {
    if log != [] {
      SerialKeepsKeyed(c, log[..|log| - 1]);
      PerformKeepsKeyed(c, SerialState(c, log[..|log| - 1]), c.tasks[log[|log| - 1]]);
    }
  }

  lemma {:induction false} SerialOfSession(c: Setting, log: seq<nat>, key: Key)
    requires Order(c, log) && Keyed(c.start)
    ensures Agree(SerialState(c, log), SerialState(c, OfSession(c, log, key)), key)
    decreases |log|
  {
    if log != [] {
      var front, i := log[..|log| - 1], log[|log| - 1];
      var own := OfSession(c, front, key);
      SerialOfSession(c, front, key);
      SerialKeepsKeyed(c, front);
      SerialKeepsKeyed(c, own);
      if c.tasks[i].KeyOf() == key {
        OrderExtends(c, own, i, 0);
        PerformSame(c, SerialState(c, front), SerialState(c, own), c.tasks[i]);
      } else {
        PerformOther(c, SerialState(c, front), c.tasks[i], key);
        AgreeTransitive(SerialState(c, log), SerialState(c, front), SerialState(c, own), key);
      }
    }
  }

  lemma AgreeTransitive(a: State<Vec>, b: State<Vec>, d: State<Vec>, key: Key)
    requires Agree(a, b, key) && Agree(b, d, key)
    ensures Agree(a, d, key)
  {
  }

  /** After every run a session is what its own tasks alone, performed one after another, make of it. */
  lemma SessionsIndependent(c: Setting, es: seq<Event>, key: Key)
    requires Keyed(c.start)
    ensures var w := WorldAfter(c, es);
            Order(c, w.log) && Agree(w.st, SerialState(c, OfSession(c, w.log, key)), key)
  {
    EveryRunIsSerial(c, es);
    SerialOfSession(c, WorldAfter(c, es).log, key);
  }

  // ---------------------------------------------------------------- no rename is lost

  lemma PerformKeepsSound(c: Setting, st: State<Vec>, t: Task)
    requires Sound(st)
    ensures Sound(Perform(c, st, t).0)
  {
    var st' := Perform(c, st, t).0;
    PerformKeepsKeyed(c, st, t);
    if t.AssignTask? {
      var change := WhatAssignDid(c, st, t.r);
      SuffixOfSpeakerId(NextId(st, t.r.key));
      forall id | id in st'.profiles ensures FreshBelow(st', id) {
        if id in st.profiles { assert FreshBelow(st, id); }
      }
    } else {
      forall id | id in st'.profiles ensures FreshBelow(st', id) { assert FreshBelow(st, id); }
    }
  }

  ghost predicate Named(st: State<Vec>, key: Key, s: string, name: Option<string>) {
    s in IdsOf(st.profiles, key) && ProfileOf(st, key, s).displayName == name
  }

  predicate Renames(t: Task, key: Key, s: string) { t.RenameTask? && t.key == key && t.speakerId == s }

  /** Only a rename of the speaker changes its name, and nothing removes it. */
  lemma PerformKeepsName(c: Setting, st: State<Vec>, t: Task, key: Key, s: string, name: Option<string>)
    requires Sound(st) && Named(st, key, s, name) && !Renames(t, key, s)
    ensures Named(Perform(c, st, t).0, key, s, name)
  {
    if t.AssignTask? {
      var change := WhatAssignDid(c, st, t.r);
      NewIdIsFresh(st, t.r.key);
    }
  }

  lemma {:induction false} SerialKeepsSound(c: Setting, log: seq<nat>)
    requires Order(c, log) && Sound(c.start)
    ensures Sound(SerialState(c, log))
    decreases |log|
  {
    if log != [] {
      SerialKeepsSound(c, log[..|log| - 1]);
      PerformKeepsSound(c, SerialState(c, log[..|log| - 1]), c.tasks[log[|log| - 1]]);
    }
  }

  lemma {:induction false} SerialRename(c: Setting, log: seq<nat>, k: nat)
    requires Order(c, log) && Sound(c.start) && k < |log| && c.tasks[log[k]].RenameTask?
    requires SerialAnswer(c, log, k) == OfRename(true)
    requires forall l :: k < l < |log| ==> !Renames(c.tasks[log[l]], c.tasks[log[k]].key, c.tasks[log[k]].speakerId)
    ensures var t := c.tasks[log[k]]; Named(SerialState(c, log), t.key, t.speakerId, Some(t.name))
    decreases |log|
  {
    var front, t := log[..|log| - 1], c.tasks[log[k]];
    SerialKeepsSound(c, front);
    if k < |log| - 1 {
      assert front[..k] == log[..k];
      SerialRename(c, front, k);
      PerformKeepsName(c, SerialState(c, front), c.tasks[log[|log| - 1]], t.key, t.speakerId, Some(t.name));
    }
  }

  /** No rename is lost: after every run a speaker bears the name of the last rename of it that was
      answered with success, however many assignments of the session were under way meanwhile. */
  lemma NoRenameLost(c: Setting, es: seq<Event>, k: nat)
    requires Sound(c.start) && k < |WorldAfter(c, es).log|
    requires var log := WorldAfter(c, es).log;
             && log[k] < |c.tasks| && log[k] < |WorldAfter(c, es).phases| && c.tasks[log[k]].RenameTask?
             && WorldAfter(c, es).phases[log[k]] == Finished(OfRename(true))
             && forall l :: k < l < |log| && log[l] < |c.tasks| ==>
                  !Renames(c.tasks[log[l]], c.tasks[log[k]].key, c.tasks[log[k]].speakerId)
    ensures var w := WorldAfter(c, es);
            var t := c.tasks[w.log[k]];
            Named(w.st, t.key, t.speakerId, Some(t.name))
  {
    EveryRunIsSerial(c, es);
    SerialRename(c, WorldAfter(c, es).log, k);
  }

  // ---------------------------------------------------------------- sample counts add up

  ghost function Total(counts: map<string, int>): int
    decreases |counts|
  {
    if counts == map[] then 0
    else
      var s := First(counts.Keys);
      counts[s] + Total(counts - {s})
  }

  lemma {:induction false} TotalPick(counts: map<string, int>, s: string)
    requires s in counts
    ensures Total(counts) == counts[s] + Total(counts - {s})
    decreases |counts|
  {
    var f := First(counts.Keys);
    if f != s {
      TotalPick(counts - {f}, s);
      TotalPick(counts - {s}, f);
      assert counts - {f} - {s} == counts - {s} - {f};
    }
  }

  lemma TotalSet(counts: map<string, int>, s: string, n: int)
    ensures Total(counts[s := n]) == Total(counts) + n - (if s in counts then counts[s] else 0)
  {
    TotalPick(counts[s := n], s);
    if s in counts {
      TotalPick(counts, s);
      assert counts[s := n] - {s} == counts - {s};
    } else {
      assert counts[s := n] - {s} == counts;
    }
  }

  /** The sample counts of a session's speakers. */
  ghost function Samples(st: State<Vec>, key: Key): map<string, int> {
    map s | s in IdsOf(st.profiles, key) :: ProfileOf(st, key, s).sampleCount
  }

  predicate Absorbs(c: Setting, t: Task, a: Answer, key: Key) {
    t.AssignTask? && t.r.key == key && t.r.quality >= c.cfg.minQuality && a.OfAssign? && a.outcome.Assigned?
  }

  /** The finished, successful assignments of a session with passing quality. */
  ghost function Absorbed(c: Setting, w: World, key: Key): set<nat>
    requires |w.phases| == |c.tasks|
  {
    set i: nat | i < |c.tasks| && w.phases[i].Finished? && Absorbs(c, c.tasks[i], w.phases[i].answer, key)
  }

  /** A task adds one sample to its session when it is absorbed, and none otherwise. */
  lemma PerformCounts(c: Setting, st: State<Vec>, t: Task, key: Key)
    requires Sound(st)
    ensures var (st', a) := Perform(c, st, t);
            Total(Samples(st', key)) == Total(Samples(st, key)) + (if Absorbs(c, t, a, key) then 1 else 0)
  {
    var (st', a) := Perform(c, st, t);
    if key != t.KeyOf() {
      PerformOther(c, st, t, key);
      assert Samples(st', key) == Samples(st, key);
    } else if t.RenameTask? {
      RenameCounts(st, t);
    } else {
      var change := WhatAssignDid(c, st, t.r);
      ChangeCounts(c.cfg, st, t.r, st', change);
    }
  }

  lemma RenameCounts(st: State<Vec>, t: Task)
    requires t.RenameTask?
    ensures Samples(Apply(st, Rename(t.key, t.speakerId, Some(t.name))).0, t.key) == Samples(st, t.key)
  {
    var st' := Apply(st, Rename(t.key, t.speakerId, Some(t.name))).0;
    assert IdsOf(st'.profiles, t.key) == IdsOf(st.profiles, t.key);
  }

  lemma ChangeCounts(cfg: Config, st: State<Vec>, r: Result, st': State<Vec>, change: Change)
    requires Sound(st) && Did(cfg, st, r, st', change)
    ensures Total(Samples(st', r.key)) == Total(Samples(st, r.key)) + (if change.Nothing? then 0 else 1)
  {
    match change
    case Nothing =>
    case Added(s) =>
      NewIdIsFresh(st, r.key);
      assert Samples(st', r.key) == Samples(st, r.key)[s := 1];
      TotalSet(Samples(st, r.key), s, 1);
    case Advanced(s) =>
      var n := ProfileOf(st', r.key, s).sampleCount;
      assert Samples(st', r.key) == Samples(st, r.key)[s := n];
      TotalSet(Samples(st, r.key), s, n);
  }

  lemma {:induction false} RunKeepsSound(c: Setting, es: seq<Event>)
    requires Sound(c.start)
    ensures Sound(WorldAfter(c, es).st)
  {
    EveryRunIsSerial(c, es);
    SerialKeepsSound(c, WorldAfter(c, es).log);
  }

  lemma AbsorbedGrows(c: Setting, w: World, i: nat, w': World, key: Key)
    requires |w.phases| == |c.tasks| && i < |c.tasks| && !w.phases[i].Finished?
    requires |w'.phases| == |c.tasks| && w'.phases[i].Finished? && w'.phases == w.phases[i := w'.phases[i]]
    ensures |Absorbed(c, w', key)| == |Absorbed(c, w, key)| + (if Absorbs(c, c.tasks[i], w'.phases[i].answer, key) then 1 else 0)
  {
    var gained := if Absorbs(c, c.tasks[i], w'.phases[i].answer, key) then {i} else {};
    assert Absorbed(c, w', key) == Absorbed(c, w, key) + gained;
  }

  lemma FinishCounts(c: Setting, w: World, i: nat, w': World, key: Key)
    requires |w.phases| == |c.tasks| && Sound(w.st) && i < |c.tasks| && !w.phases[i].Finished?
    requires var (s, a) := Perform(c, w.st, c.tasks[i]);
             w' == World(s, w.phases[i := Finished(a)], w.log + [i])
    ensures Total(Samples(w'.st, key)) - |Absorbed(c, w', key)| == Total(Samples(w.st, key)) - |Absorbed(c, w, key)|
  {
    PerformCounts(c, w.st, c.tasks[i], key);
    AbsorbedGrows(c, w, i, w', key);
  }

  lemma StepCounts(c: Setting, w: World, e: Event, key: Key)
    requires Inv(c, w) && Sound(w.st) && Enabled(c, w, e)
    ensures var w' := After(c, w, e);
            |w'.phases| == |c.tasks|
            && Total(Samples(w'.st, key)) - |Absorbed(c, w', key)| == Total(Samples(w.st, key)) - |Absorbed(c, w, key)|
  {
    var w' := After(c, w, e);
    if e.Write? || e.Skip? {
      FinishPerforms(c, w, e);
      FinishCounts(c, w, e.i, w', key);
    } else {
      StartAbsorbs(c, w, e.i, w', key);
    }
  }

  lemma StartAbsorbs(c: Setting, w: World, i: nat, w': World, key: Key)
    requires |w.phases| == |c.tasks| && i < |c.tasks| && !w.phases[i].Finished?
    requires |w'.phases| == |c.tasks| && w'.phases == w.phases[i := w'.phases[i]] && !w'.phases[i].Finished?
    ensures Absorbed(c, w', key) == Absorbed(c, w, key)
  {
  }

  /** After every run a session's sample counts have grown by exactly the number of its finished,
      successful assignments of passing quality. */
  lemma {:induction false} SampleCounts(c: Setting, es: seq<Event>, key: Key)
    requires Sound(c.start)
    ensures var w := WorldAfter(c, es);
            |w.phases| == |c.tasks|
            && Total(Samples(w.st, key)) == Total(Samples(c.start, key)) + |Absorbed(c, w, key)|
    decreases |es|
  {
    if es == [] {
      assert Absorbed(c, WorldAfter(c, es), key) == {};
    } else {
      var front := es[..|es| - 1];
      SampleCounts(c, front, key);
      EveryRunIsSerial(c, front);
      RunKeepsSound(c, front);
      if Enabled(c, WorldAfter(c, front), es[|es| - 1]) { StepCounts(c, WorldAfter(c, front), es[|es| - 1], key); }
    }
  }

  // ---------------------------------------------------------------- quality averages

  lemma Mixed(alpha: real, a: real, b: real, low: real)
    requires 0.0 <= alpha <= 1.0 && low <= a <= 1.0 && low <= b <= 1.0
    ensures low <= Average(alpha, a, b) <= 1.0
  {
    ProductSign(1.0 - alpha, a - low);
    ProductSign(alpha, b - low);
    ProductSign(1.0 - alpha, 1.0 - a);
    ProductSign(alpha, 1.0 - b);
    assert (1.0 - alpha) * (a - low) + alpha * (b - low) == (1.0 - alpha) * a + alpha * b - low;
    assert (1.0 - alpha) * (1.0 - a) + alpha * (1.0 - b) == 1.0 - ((1.0 - alpha) * a + alpha * b);
  }

  lemma PerformKeepsQuality(c: Setting, st: State<Vec>, t: Task)
    requires c.cfg.Valid() && Keyed(st) && QualityIn(st, c.cfg.minQuality) && (t.AssignTask? ==> t.r.quality <= 1.0)
    ensures QualityIn(Perform(c, st, t).0, c.cfg.minQuality)
  {
    if t.AssignTask? {
      var change := WhatAssignDid(c, st, t.r);
      if !change.Nothing? { ChangeKeepsQuality(c.cfg, st, t.r, Perform(c, st, t).0, change); }
    } else {
      RenameKeepsQuality(st, t, c.cfg.minQuality);
    }
  }

  lemma RenameKeepsQuality(st: State<Vec>, t: Task, low: real)
    requires t.RenameTask? && QualityIn(st, low)
    ensures QualityIn(Apply(st, Rename(t.key, t.speakerId, Some(t.name))).0, low)
  {
  }

  lemma ChangeKeepsQuality(cfg: Config, st: State<Vec>, r: Result, st': State<Vec>, change: Change)
    requires cfg.Valid() && QualityIn(st, cfg.minQuality) && Did(cfg, st, r, st', change)
    requires cfg.minQuality <= r.quality <= 1.0
    ensures QualityIn(st', cfg.minQuality)
  {
    if change.Advanced? {
      var p := ProfileOf(st, r.key, change.speakerId);
      assert p.qualityEma <= 1.0 && p.qualityEma >= cfg.minQuality;
      Mixed(cfg.alpha, p.qualityEma, r.quality, cfg.minQuality);
      var q := ProfileOf(st', r.key, change.speakerId);
      assert cfg.minQuality <= q.qualityEma <= 1.0;
    }
  }

  lemma {:induction false} SerialKeepsQuality(c: Setting, log: seq<nat>)
    requires c.cfg.Valid() && Order(c, log) && Keyed(c.start) && QualityIn(c.start, c.cfg.minQuality)
    requires forall i :: 0 <= i < |c.tasks| && c.tasks[i].AssignTask? ==> c.tasks[i].r.quality <= 1.0
    ensures QualityIn(SerialState(c, log), c.cfg.minQuality)
    decreases |log|
  {
    if log != [] {
      SerialKeepsQuality(c, log[..|log| - 1]);
      SerialKeepsKeyed(c, log[..|log| - 1]);
      PerformKeepsQuality(c, SerialState(c, log[..|log| - 1]), c.tasks[log[|log| - 1]]);
    }
  }

  /** After every run each quality average lies between the minimal quality and one. */
  lemma QualityInRange(c: Setting, es: seq<Event>)
    requires c.cfg.Valid() && Keyed(c.start) && QualityIn(c.start, c.cfg.minQuality)
    requires forall i :: 0 <= i < |c.tasks| && c.tasks[i].AssignTask? ==> c.tasks[i].r.quality <= 1.0
    ensures QualityIn(WorldAfter(c, es).st, c.cfg.minQuality)
  {
    EveryRunIsSerial(c, es);
    SerialKeepsQuality(c, WorldAfter(c, es).log);
  }
}
