/** Concurrent assignments and renames. A task takes its session's lock, an assignment then reads the
    listing and writes in a later step, and steps of different tasks interleave freely. Every
    interleaving gives what the tasks give one after another, in the order they finish. */
module Serializable {
  import opened Vectors
  import opened Wrappers
  import opened SpeakerIds
  import opened Store
  import opened Assigner

  datatype Task =
    | AssignTask(r: Result)
    | RenameTask(key: Key, speakerId: string, name: string)
  {
    function KeyOf(): Key { if AssignTask? then r.key else key }
  }

  datatype Answer = OfAssign(outcome: Outcome) | OfRename(found: bool)

  /** `Reading` holds the lock before the read, `Deciding` after it. */
  datatype Phase = Waiting | Reading | Deciding(listing: seq<Profile<Vec>>) | Finished(answer: Answer) {
    predicate HoldsLock() { Reading? || Deciding? }
  }

  datatype Setting = Setting(cfg: Config, norm: Vec -> real, tasks: seq<Task>, start: State<Vec>)
  datatype World = World(st: State<Vec>, phases: seq<Phase>, log: seq<nat>)

  datatype Event = Skip(i: nat) | Acquire(i: nat) | ReadListing(i: nat) | Write(i: nat)

  // ---------------------------------------------------------------- steps

  predicate NeedsLock(c: Setting, t: Task) {
    t.RenameTask? || (t.r.quality >= c.cfg.minQuality && c.norm(t.r.embedding) > TINY)
  }

  ghost predicate LockFree(c: Setting, w: World, key: Key)
    requires |w.phases| == |c.tasks|
  {
    forall j :: 0 <= j < |c.tasks| && c.tasks[j].KeyOf() == key ==> !w.phases[j].HoldsLock()
  }

  ghost predicate Enabled(c: Setting, w: World, e: Event) {
    && |w.phases| == |c.tasks| && e.i < |c.tasks|
    && match e
       case Skip(i) => w.phases[i].Waiting? && !NeedsLock(c, c.tasks[i])
       case Acquire(i) => w.phases[i].Waiting? && NeedsLock(c, c.tasks[i]) && LockFree(c, w, c.tasks[i].KeyOf())
       case ReadListing(i) => w.phases[i].Reading? && c.tasks[i].AssignTask?
       case Write(i) => if c.tasks[i].AssignTask? then w.phases[i].Deciding? else w.phases[i].Reading?
  }

  /** The write of task `i`; an assignment decides from the listing it read earlier. */
  ghost function Written(c: Setting, w: World, i: nat): (State<Vec>, Answer)
    requires Enabled(c, w, Write(i))
  {
    match c.tasks[i]
    case AssignTask(r) =>
      var (s, out) := Commit(w.st, r, PlanFor(c.cfg, c.norm, w.phases[i].listing, r));
      (s, OfAssign(out))
    case RenameTask(key, id, name) =>
      var (s, out) := Apply(w.st, Rename(key, id, Some(name)));
      (s, OfRename(out.found))
  }

  /** A task that needs no lock neither reads nor writes the store. */
  ghost function Skipped(c: Setting, w: World, i: nat): Answer
    requires Enabled(c, w, Skip(i))
  {
    OfAssign(Commit(w.st, c.tasks[i].r, PlanFor(c.cfg, c.norm, [], c.tasks[i].r)).1)
  }

  ghost function After(c: Setting, w: World, e: Event): World
    requires Enabled(c, w, e)
  {
    match e
    case Skip(i) => World(w.st, w.phases[i := Finished(Skipped(c, w, i))], w.log + [i])
    case Acquire(i) => w.(phases := w.phases[i := Reading])
    case ReadListing(i) => w.(phases := w.phases[i := Deciding(ListOf(w.st.profiles, c.tasks[i].KeyOf()))])
    case Write(i) =>
      var (s, a) := Written(c, w, i);
      World(s, w.phases[i := Finished(a)], w.log + [i])
  }

  /** The world after a run; an event that is not enabled at its turn does nothing. */
  ghost function WorldAfter(c: Setting, es: seq<Event>): World {
    if es == [] then World(c.start, seq(|c.tasks|, _ => Waiting), [])
    else
      var w := WorldAfter(c, es[..|es| - 1]);
      if Enabled(c, w, es[|es| - 1]) then After(c, w, es[|es| - 1]) else w
  }

  // ---------------------------------------------------------------- one after another

  ghost function Perform(c: Setting, st: State<Vec>, t: Task): (State<Vec>, Answer) {
    match t
    case AssignTask(r) =>
      var (s, out) := Assign(c.cfg, c.norm, st, r);
      (s, OfAssign(out))
    case RenameTask(key, id, name) =>
      var (s, out) := Apply(st, Rename(key, id, Some(name)));
      (s, OfRename(out.found))
  }

  ghost predicate Order(c: Setting, log: seq<nat>) { forall k :: 0 <= k < |log| ==> log[k] < |c.tasks| }

  ghost function SerialState(c: Setting, log: seq<nat>): State<Vec>
    requires Order(c, log)
  {
    if log == [] then c.start else Perform(c, SerialState(c, log[..|log| - 1]), c.tasks[log[|log| - 1]]).0
  }

  ghost function SerialAnswer(c: Setting, log: seq<nat>, k: nat): Answer
    requires Order(c, log) && k < |log|
  {
    Perform(c, SerialState(c, log[..k]), c.tasks[log[k]]).1
  }

  // ---------------------------------------------------------------- the invariant

  /** One holder of each session's lock. */
  ghost predicate Exclusive(c: Setting, w: World)
    requires |w.phases| == |c.tasks|
  {
    forall i, j :: 0 <= i < |c.tasks| && 0 <= j < |c.tasks| && i != j && w.phases[i].HoldsLock() && w.phases[j].HoldsLock()
              ==> c.tasks[i].KeyOf() != c.tasks[j].KeyOf()
  }

  /** A deciding task is an assignment, and what it has read is still what the store would list. */
  ghost predicate Current(c: Setting, w: World)
    requires |w.phases| == |c.tasks|
  {
    forall i :: 0 <= i < |c.tasks| && w.phases[i].Deciding?
           ==> c.tasks[i].AssignTask? && w.phases[i].listing == ListOf(w.st.profiles, c.tasks[i].KeyOf())
  }

  /** The log holds exactly the finished tasks, each once. */
  ghost predicate Logged(c: Setting, w: World)
    requires |w.phases| == |c.tasks|
  {
    && Order(c, w.log)
    && (forall i :: 0 <= i < |c.tasks| ==> (w.phases[i].Finished? <==> i in w.log))
    && (forall k, l :: 0 <= k < l < |w.log| ==> w.log[k] != w.log[l])
  }

  /** State and answers are those of the serial execution. */
  ghost predicate Serial(c: Setting, w: World)
    requires |w.phases| == |c.tasks| && Order(c, w.log)
  {
    && w.st == SerialState(c, w.log)
    && forall k :: 0 <= k < |w.log| ==> w.phases[w.log[k]] == Finished(SerialAnswer(c, w.log, k))
  }

  ghost predicate Inv(c: Setting, w: World) {
    |w.phases| == |c.tasks| && Exclusive(c, w) && Current(c, w) && Logged(c, w) && Serial(c, w)
  }

  // ---------------------------------------------------------------- sessions do not meet

  /** The two states hold the same session `key`. */
  ghost predicate Agree(a: State<Vec>, b: State<Vec>, key: Key) {
    && IdsOf(a.profiles, key) == IdsOf(b.profiles, key)
    && (forall s :: s in IdsOf(a.profiles, key) ==> ProfileOf(a, key, s) == ProfileOf(b, key, s))
    && NextId(a, key) == NextId(b, key)
  }

  lemma AgreeListing(a: State<Vec>, b: State<Vec>, key: Key)
    requires Agree(a, b, key)
    ensures ListOf(a.profiles, key) == ListOf(b.profiles, key)
  {
    var ids := InOrder(IdsOf(a.profiles, key));
    forall i | 0 <= i < |ids| ensures ListOf(a.profiles, key)[i] == ListOf(b.profiles, key)[i] {
      assert ids[i] in ids;
      assert ProfileOf(a, key, ids[i]) == ProfileOf(b, key, ids[i]);
    }
  }

  lemma ReplaceMeans(cfg: Config, norm: Vec -> real, ps: seq<Profile<Vec>>, r: Result) returns (i: nat)
    requires PlanFor(cfg, norm, ps, r).Replace?
    ensures i < |ps| && r.quality >= cfg.minQuality
    ensures var (p, q) := (PlanFor(cfg, norm, ps, r).profile, ps[i]);
            p.IdOf() == q.IdOf() && p.displayName == q.displayName && p.sampleCount == q.sampleCount + 1
            && p.qualityEma == Average(cfg.alpha, q.qualityEma, r.quality)
  {
    i := Nearest(norm, ps, Normalized(norm, r.embedding));
  }

  /** What one assignment did to the store. */
  datatype Change = Nothing | Added(speakerId: string) | Advanced(speakerId: string)

  /** No more than the named profile of the result's session is new or different, its display name is
      kept, and its sample count and quality average move by this one result. */
  ghost predicate Did(cfg: Config, st: State<Vec>, r: Result, st': State<Vec>, change: Change) {
    match change
    case Nothing => st' == st
    case Added(s) =>
      && s == SpeakerId(NextId(st, r.key)) && s in IdsOf(st'.profiles, r.key)
      && st'.nextIds == st.nextIds[r.key := NextId(st, r.key) + 1]
      && var p := ProfileOf(st', r.key, s);
         st'.profiles == st.profiles[(r.key.0, r.key.1, s) := p] && p.IdOf() == (r.key.0, r.key.1, s)
         && p.sampleCount == 1 && p.qualityEma == r.quality && p.displayName == None
    case Advanced(s) =>
      && s in IdsOf(st.profiles, r.key) && s in IdsOf(st'.profiles, r.key)
      && st'.nextIds == st.nextIds
      && var (q, p) := (ProfileOf(st, r.key, s), ProfileOf(st', r.key, s));
         st'.profiles == st.profiles[(r.key.0, r.key.1, s) := p] && p.IdOf() == q.IdOf()
         && p.displayName == q.displayName && p.sampleCount == q.sampleCount + 1
         && p.qualityEma == Average(cfg.alpha, q.qualityEma, r.quality)
  }

  ghost predicate Counted(cfg: Config, r: Result, out: Outcome) { out.Assigned? && r.quality >= cfg.minQuality }

  lemma WhatAssignDid(c: Setting, st: State<Vec>, r: Result) returns (change: Change)
    requires Keyed(st)
    ensures var (st', out) := Assign(c.cfg, c.norm, st, r);
            Did(c.cfg, st, r, st', change) && (change.Nothing? <==> !Counted(c.cfg, r, out))
  {
    ListingLists(st, r.key);
    change := CommitDid(c.cfg, c.norm, st, r, ListOf(st.profiles, r.key));
  }

  lemma CommitDid(cfg: Config, norm: Vec -> real, st: State<Vec>, r: Result, ps: seq<Profile<Vec>>) returns (change: Change)
    requires Lists(st, r.key, ps)
    ensures var (st', out) := Commit(st, r, PlanFor(cfg, norm, ps, r));
            Did(cfg, st, r, st', change) && (change.Nothing? <==> !Counted(cfg, r, out))
  {
    var plan := PlanFor(cfg, norm, ps, r);
    PlanQuality(cfg, norm, ps, r);
    if plan.Replace? {
      var i := ReplaceMeans(cfg, norm, ps, r);
      ReplaceDid(cfg, st, r, ps[i], plan.profile, plan.score);
      change := Advanced(plan.profile.speakerId);
    } else {
      change := OtherwiseDid(cfg, st, r, plan);
    }
  }

  lemma PlanQuality(cfg: Config, norm: Vec -> real, ps: seq<Profile<Vec>>, r: Result)
    ensures PlanFor(cfg, norm, ps, r).Ignore? <==> r.quality < cfg.minQuality
  {
  }

  lemma OtherwiseDid(cfg: Config, st: State<Vec>, r: Result, plan: Plan) returns (change: Change)
    requires !plan.Replace? && (plan.Ignore? <==> r.quality < cfg.minQuality)
    ensures var (st', out) := Commit(st, r, plan);
            Did(cfg, st, r, st', change) && (change.Nothing? <==> !Counted(cfg, r, out))
  {
    change := if plan.Add? then Added(SpeakerId(NextId(st, r.key))) else Nothing;
  }

  lemma ReplaceDid(cfg: Config, st: State<Vec>, r: Result, q: Profile<Vec>, p: Profile<Vec>, score: real)
    requires q.IdOf() in st.profiles && st.profiles[q.IdOf()] == q && q.KeyOf() == r.key
    requires p.IdOf() == q.IdOf() && p.displayName == q.displayName && p.sampleCount == q.sampleCount + 1
    requires p.qualityEma == Average(cfg.alpha, q.qualityEma, r.quality)
    ensures var (st', out) := Commit(st, r, Replace(p, score));
            Did(cfg, st, r, st', Advanced(p.speakerId)) && out.Assigned?
  {
    assert q.speakerId in IdsOf(st.profiles, r.key);
  }

  lemma PerformKeepsKeyed(c: Setting, st: State<Vec>, t: Task)
    requires Keyed(st)
    ensures Keyed(Perform(c, st, t).0)
  {
    if t.AssignTask? { var change := WhatAssignDid(c, st, t.r); }
  }

  /** A task leaves every other session as it was. */
  lemma PerformOther(c: Setting, st: State<Vec>, t: Task, key: Key)
    requires Keyed(st) && key != t.KeyOf()
    ensures Agree(Perform(c, st, t).0, st, key)
  {
    if t.AssignTask? { var change := WhatAssignDid(c, st, t.r); }
  }

  /** What a task does to its own session, and its answer, depend on nothing but that session. */
  lemma PerformSame(c: Setting, a: State<Vec>, b: State<Vec>, t: Task)
    requires Keyed(a) && Keyed(b) && Agree(a, b, t.KeyOf())
    ensures Agree(Perform(c, a, t).0, Perform(c, b, t).0, t.KeyOf())
    ensures Perform(c, a, t).1 == Perform(c, b, t).1
  {
    if t.AssignTask? {
      AgreeListing(a, b, t.KeyOf());
      CommitSame(a, b, t.r, PlanFor(c.cfg, c.norm, ListOf(a.profiles, t.KeyOf()), t.r));
      var change := WhatAssignDid(c, a, t.r);
      var other := WhatAssignDid(c, b, t.r);
    } else {
      assert (t.key.0, t.key.1, t.speakerId) in a.profiles <==> t.speakerId in IdsOf(a.profiles, t.key);
      assert (t.key.0, t.key.1, t.speakerId) in b.profiles <==> t.speakerId in IdsOf(b.profiles, t.key);
    }
  }

  lemma CommitSame(a: State<Vec>, b: State<Vec>, r: Result, plan: Plan)
    requires Agree(a, b, r.key) && (plan.Replace? ==> plan.profile.KeyOf() == r.key)
    ensures Agree(Commit(a, r, plan).0, Commit(b, r, plan).0, r.key)
    ensures Commit(a, r, plan).1 == Commit(b, r, plan).1
  {
  }

  // ---------------------------------------------------------------- every step keeps the invariant

  lemma OrderExtends(c: Setting, log: seq<nat>, i: nat, k: nat)
    requires Order(c, log) && i < |c.tasks| && k <= |log|
    ensures Order(c, log + [i])
    ensures SerialState(c, log + [i]) == Perform(c, SerialState(c, log), c.tasks[i]).0
    ensures k < |log| ==> SerialAnswer(c, log + [i], k) == SerialAnswer(c, log, k)
    ensures k == |log| ==> SerialAnswer(c, log + [i], k) == Perform(c, SerialState(c, log), c.tasks[i]).1
  {
    assert (log + [i])[..|log|] == log;
    assert (log + [i])[..k] == log[..k];
  }

  /** Finishing task `i` with what `Perform` says keeps the log and the serial equation. */
  lemma FinishKeepsLog(c: Setting, w: World, i: nat, w': World)
    requires |w.phases| == |c.tasks| && Logged(c, w) && i < |c.tasks| && !w.phases[i].Finished?
    requires |w'.phases| == |c.tasks| && w'.phases == w.phases[i := w'.phases[i]] && w'.phases[i].Finished? && w'.log == w.log + [i]
    ensures Logged(c, w')
  {
    assert i !in w.log;
    forall k, l | 0 <= k < l < |w'.log| ensures w'.log[k] != w'.log[l] {
      assert w'.log[k] == w.log[k] && w.log[k] in w.log;
    }
  }

  lemma FinishKeepsSerial(c: Setting, w: World, i: nat, w': World)
    requires |w.phases| == |c.tasks| && Logged(c, w) && Serial(c, w) && i < |c.tasks| && !w.phases[i].Finished?
    requires var (s, a) := Perform(c, w.st, c.tasks[i]);
             w' == World(s, w.phases[i := Finished(a)], w.log + [i])
    ensures Order(c, w'.log) && Serial(c, w')
  {
    OrderExtends(c, w.log, i, |w.log|);
    assert i !in w.log;
    forall k | 0 <= k < |w'.log| ensures w'.phases[w'.log[k]] == Finished(SerialAnswer(c, w'.log, k)) {
      OrderExtends(c, w.log, i, k);
      if k < |w.log| { assert w.log[k] in w.log; }
    }
  }

  /** With a current listing a write is what the task alone would do, and so is a skip. */
  lemma FinishPerforms(c: Setting, w: World, e: Event)
    requires |w.phases| == |c.tasks| && Current(c, w) && Enabled(c, w, e) && (e.Write? || e.Skip?)
    ensures var (s, a) := Perform(c, w.st, c.tasks[e.i]);
            After(c, w, e) == World(s, w.phases[e.i := Finished(a)], w.log + [e.i])
  {
  }

  /** A finished task has disturbed no listing another task has read. */
  lemma FinishKeepsCurrent(c: Setting, w: World, i: nat, s: State<Vec>, a: Answer)
    requires |w.phases| == |c.tasks| && Exclusive(c, w) && Current(c, w) && Keyed(w.st) && i < |c.tasks|
    requires w.phases[i].HoldsLock() || !NeedsLock(c, c.tasks[i])
    requires (s, a) == Perform(c, w.st, c.tasks[i])
    ensures Current(c, World(s, w.phases[i := Finished(a)], w.log + [i]))
  {
    forall j: nat | j < |c.tasks| && j != i && w.phases[j].Deciding?
      ensures w.phases[j].listing == ListOf(s.profiles, c.tasks[j].KeyOf())
    {
      ListingUndisturbed(c, w.st, c.tasks[i], c.tasks[j].KeyOf());
    }
  }

  lemma ListingUndisturbed(c: Setting, st: State<Vec>, t: Task, key: Key)
    requires Keyed(st) && (key != t.KeyOf() || !NeedsLock(c, t))
    ensures ListOf(Perform(c, st, t).0.profiles, key) == ListOf(st.profiles, key)
  {
    if NeedsLock(c, t) {
      PerformOther(c, st, t, key);
      AgreeListing(Perform(c, st, t).0, st, key);
    }
  }

  lemma FinishKeepsInv(c: Setting, w: World, i: nat, w': World)
    requires Inv(c, w) && Keyed(w.st) && i < |c.tasks| && !w.phases[i].Finished?
    requires w.phases[i].HoldsLock() || !NeedsLock(c, c.tasks[i])
    requires var (s, a) := Perform(c, w.st, c.tasks[i]);
             w' == World(s, w.phases[i := Finished(a)], w.log + [i])
    ensures Inv(c, w') && Keyed(w'.st)
  {
    var (s, a) := Perform(c, w.st, c.tasks[i]);
    FinishKeepsLog(c, w, i, w');
    FinishKeepsSerial(c, w, i, w');
    FinishKeepsCurrent(c, w, i, s, a);
    FinishKeepsExclusive(c, w, i, w');
    PerformKeepsKeyed(c, w.st, c.tasks[i]);
  }

  lemma FinishKeepsExclusive(c: Setting, w: World, i: nat, w': World)
    requires |w.phases| == |c.tasks| && Exclusive(c, w) && i < |c.tasks|
    requires |w'.phases| == |c.tasks| && w'.phases == w.phases[i := w'.phases[i]] && w'.phases[i].Finished?
    ensures Exclusive(c, w')
  {
  }

  lemma StepKeepsInv(c: Setting, w: World, e: Event)
    requires Inv(c, w) && Keyed(w.st) && Enabled(c, w, e)
    ensures Inv(c, After(c, w, e)) && Keyed(After(c, w, e).st)
  {
    if e.Write? || e.Skip? {
      FinishPerforms(c, w, e);
      FinishKeepsInv(c, w, e.i, After(c, w, e));
    } else {
      KeepsRest(c, w, e);
    }
  }

  lemma KeepsRest(c: Setting, w: World, e: Event)
    requires Inv(c, w) && Enabled(c, w, e) && (e.Acquire? || e.ReadListing?)
    ensures Inv(c, After(c, w, e))
  {
    var w' := After(c, w, e);
    StartKeepsLog(c, w, e.i, w');
    if e.ReadListing? { assert Current(c, w'); } else { assert Exclusive(c, w'); }
  }

  /** A step before the end of a task leaves the log and the serial equation alone. */
  lemma StartKeepsLog(c: Setting, w: World, i: nat, w': World)
    requires |w.phases| == |c.tasks| && Logged(c, w) && Serial(c, w) && i < |c.tasks| && !w.phases[i].Finished?
    requires |w'.phases| == |c.tasks| && w'.phases == w.phases[i := w'.phases[i]] && !w'.phases[i].Finished?
    requires w'.st == w.st && w'.log == w.log
    ensures Logged(c, w') && Serial(c, w')
  {
    assert i !in w.log;
    forall k | 0 <= k < |w.log| ensures w'.phases[w.log[k]] == w.phases[w.log[k]] {
      assert w.log[k] in w.log;
    }
  }

  /** Serializability: after every run the store and every answer are those of the finished tasks
      performed one after another in the order they finished. */
  lemma {:induction false} EveryRunIsSerial(c: Setting, es: seq<Event>)
    requires Keyed(c.start)
    ensures Inv(c, WorldAfter(c, es)) && Keyed(WorldAfter(c, es).st)
    decreases |es|
  {
    if es != [] {
      EveryRunIsSerial(c, es[..|es| - 1]);
      var w := WorldAfter(c, es[..|es| - 1]);
      if Enabled(c, w, es[|es| - 1]) { StepKeepsInv(c, w, es[|es| - 1]); }
    }
  }

  lemma HolderMoves(c: Setting, w: World, j: nat) returns (e: Event)
    requires |w.phases| == |c.tasks| && Current(c, w) && j < |c.tasks| && w.phases[j].HoldsLock()
    ensures Enabled(c, w, e)
  {
    e := if w.phases[j].Reading? && c.tasks[j].AssignTask? then ReadListing(j) else Write(j);
  }

  /** No deadlock: while a task is unfinished, some step is enabled. */
  lemma NoDeadlock(c: Setting, w: World, i: nat) returns (e: Event)
    requires Inv(c, w) && i < |c.tasks| && !w.phases[i].Finished?
    ensures Enabled(c, w, e)
  {
    if w.phases[i].Waiting? && !NeedsLock(c, c.tasks[i]) {
      e := Skip(i);
    } else if w.phases[i].Waiting? && LockFree(c, w, c.tasks[i].KeyOf()) {
      e := Acquire(i);
    } else {
      var j: nat := i;
      if w.phases[i].Waiting? { j :| 0 <= j < |c.tasks| && w.phases[j].HoldsLock(); }
      e := HolderMoves(c, w, j);
    }
  }

  // ---------------------------------------------------------------- steps left

  function StepsLeft(ps: seq<Phase>): nat {
    if ps == [] then 0
    else StepsLeft(ps[..|ps| - 1])
         + (match ps[|ps| - 1] case Waiting => 3 case Reading => 2 case Deciding(_) => 1 case Finished(_) => 0)
  }

  lemma {:induction false} StepsLeftAt(ps: seq<Phase>, i: nat, p: Phase)
    requires i < |ps|
    ensures StepsLeft(ps[i := p]) == StepsLeft(ps) - StepsLeft([ps[i]]) + StepsLeft([p])
  {
    var n := |ps| - 1;
    assert forall q: Phase :: [q][..0] == [];
    if i == n {
      assert ps[i := p][..n] == ps[..n];
    } else {
      StepsLeftAt(ps[..n], i, p);
      assert ps[i := p][..n] == ps[..n][i := p];
    }
  }

  /** Every enabled step brings the tasks closer to their end, so the tasks finish whatever the order. */
  lemma StepsEnd(c: Setting, w: World, e: Event)
    requires Enabled(c, w, e)
    ensures StepsLeft(After(c, w, e).phases) < StepsLeft(w.phases)
  {
    StepsLeftAt(w.phases, e.i, After(c, w, e).phases[e.i]);
    assert forall q: Phase :: [q][..0] == [];
  }
}
