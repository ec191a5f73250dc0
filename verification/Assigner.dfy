/** Online nearest-centroid speaker assignment over a profile store, in exact reals. */
module Assigner {
  import opened Vectors
  import opened Wrappers
  import opened SpeakerIds
  import opened Store

  datatype Config = Config(threshold: real, minQuality: real, alpha: real, maxWeight: real) {
    predicate Valid() {
      -1.0 <= threshold <= 1.0 && 0.0 <= minQuality <= 1.0 && 0.0 < alpha <= 1.0
    }
  }

  /** An embedding result as far as assignment reads it. */
  datatype Result = Result(key: Key, startMs: int, endMs: int, embedding: Vec, quality: real)
  datatype Segment = Segment(key: Key, startMs: int, endMs: int, speakerId: string, confidence: real)

  /** `Failed` stands for the ValueError or KeyError that leaves `assign`. */
  datatype Outcome = Assigned(segment: Segment) | Failed

  const TINY := 0.000000000001
  const UNKNOWN := "spk_unknown"

  function Min(a: real, b: real): real { if a <= b then a else b }
  function Max(a: real, b: real): real { if a >= b then a else b }
  function Clip(x: real): real { Max(0.0, Min(1.0, x)) }

  // ---------------------------------------------------------------- nearest profile

  function Normalize(norm: Vec -> real, v: Vec): Option<Vec> {
    if norm(v) <= TINY then None else Some(Normalized(norm, v))
  }

  /** Stored centroids are normalizable vectors of the embedding's dimension. */
  predicate Comparable(norm: Vec -> real, p: Profile<Vec>, e: Vec) {
    norm(p.centroid) > TINY && |p.centroid| == |e|
  }

  function Score(norm: Vec -> real, p: Profile<Vec>, e: Vec): real
    requires Comparable(norm, p, e)
  {
    Dot(Normalized(norm, p.centroid), e)
  }

  predicate AllComparable(norm: Vec -> real, ps: seq<Profile<Vec>>, e: Vec) {
    forall i :: 0 <= i < |ps| ==> Comparable(norm, ps[i], e)
  }

  /** `i` is the first index of a maximal score. */
  ghost predicate IsNearest(norm: Vec -> real, ps: seq<Profile<Vec>>, e: Vec, i: nat)
    requires AllComparable(norm, ps, e)
  {
    && i < |ps|
    && (forall j :: 0 <= j < i ==> Score(norm, ps[j], e) < Score(norm, ps[i], e))
    && (forall j :: i <= j < |ps| ==> Score(norm, ps[j], e) <= Score(norm, ps[i], e))
  }

  /** `_nearest` on a non-empty list. */
  function Nearest(norm: Vec -> real, ps: seq<Profile<Vec>>, e: Vec): (i: nat)
    requires ps != [] && AllComparable(norm, ps, e)
    ensures IsNearest(norm, ps, e, i)
  {
    if |ps| == 1 then 0
    else
      var front := ps[..|ps| - 1];
      assert forall j :: 0 <= j < |front| ==> front[j] == ps[j];
      var i := Nearest(norm, front, e);
      if Score(norm, ps[|ps| - 1], e) > Score(norm, ps[i], e) then |ps| - 1 else i
  }

  // ---------------------------------------------------------------- update

  function ExistingWeight(cfg: Config, p: Profile<Vec>): real {
    Min(p.sampleCount as real, cfg.maxWeight) * Max(p.qualityEma, 0.05)
  }

  function Blend(cfg: Config, p: Profile<Vec>, e: Vec, quality: real): Vec
    requires |p.centroid| == |e|
  {
    Plus(Scale(ExistingWeight(cfg, p), p.centroid), Scale(Max(quality, 0.05), e))
  }

  /** One step of the exponential moving average. */
  function Average(alpha: real, before: real, next: real): real { (1.0 - alpha) * before + alpha * next }

  /** `_updated_profile`; fails when the weighted sum has no direction. */
  function Updated(cfg: Config, norm: Vec -> real, p: Profile<Vec>, e: Vec, quality: real, at: int): Option<Profile<Vec>>
    requires |p.centroid| == |e|
  {
    var centroid := Normalize(norm, Blend(cfg, p, e, quality));
    if centroid.None? then None
    else Some(p.(centroid := centroid.value, sampleCount := p.sampleCount + 1,
                 qualityEma := Average(cfg.alpha, p.qualityEma, quality), lastActiveMs := at))
  }

  // ---------------------------------------------------------------- assignment: read, plan, write

  /** What `assign` decides from the profiles it has read. */
  datatype Plan = Ignore | Abort | Add(embedding: Vec) | Replace(profile: Profile<Vec>, score: real)

  function PlanFor(cfg: Config, norm: Vec -> real, ps: seq<Profile<Vec>>, r: Result): Plan {
    if r.quality < cfg.minQuality then Ignore
    else
      var e := Normalize(norm, r.embedding);
      if e.None? then Abort
      else if !AllComparable(norm, ps, e.value) then Abort
      else if ps == [] then Add(e.value)
      else
        var i := Nearest(norm, ps, e.value);
        PlanAt(cfg, norm, ps[i], Score(norm, ps[i], e.value), e.value, r)
  }

  /** The plan once the nearest profile and its score are known. */
  function PlanAt(cfg: Config, norm: Vec -> real, p: Profile<Vec>, score: real, e: Vec, r: Result): Plan
    requires |p.centroid| == |e|
  {
    if score < cfg.threshold then Add(e)
    else
      var q := Updated(cfg, norm, p, e, r.quality, r.endMs);
      if q.None? then Abort else Replace(q.value, score)
  }

  function SegmentFor(r: Result, speakerId: string, confidence: real): Segment {
    Segment(r.key, r.startMs, r.endMs, speakerId, Clip(confidence))
  }

  /** The write of a plan to the store. */
  ghost function Commit(st: State<Vec>, r: Result, plan: Plan): (State<Vec>, Outcome) {
    match plan
    case Ignore => (st, Assigned(Segment(r.key, r.startMs, r.endMs, UNKNOWN, r.quality)))
    case Abort => (st, Failed)
    case Add(e) =>
      var (s, out) := Apply(st, Create(r.key, e, r.quality, r.endMs));
      (s, Assigned(SegmentFor(r, out.profile.speakerId, r.quality)))
    case Replace(p, score) =>
      var (s, out) := Apply(st, Update(p));
      (s, if out.KeyError? then Failed else Assigned(SegmentFor(r, p.speakerId, score)))
  }

  ghost function Assign(cfg: Config, norm: Vec -> real, st: State<Vec>, r: Result): (State<Vec>, Outcome) {
    Commit(st, r, PlanFor(cfg, norm, ListOf(st.profiles, r.key), r))
  }

  // ---------------------------------------------------------------- stores the assigner keeps

  /** Profiles under their own keys, with identifiers below the session's next number. */
  ghost predicate Sound(st: State<Vec>) {
    Keyed(st) && forall id :: id in st.profiles ==> FreshBelow(st, id)
  }

  /** Also unit centroids of one dimension and positive sample counts. */
  ghost predicate Fit(st: State<Vec>, dim: nat) {
    Sound(st) && forall id :: id in st.profiles ==> FitProfile(st.profiles[id], dim)
  }

  /** Quality averages between `low` and one. */
  ghost predicate QualityIn(st: State<Vec>, low: real) {
    forall id :: id in st.profiles ==> low <= st.profiles[id].qualityEma <= 1.0
  }

  predicate FitProfile(p: Profile<Vec>, dim: nat) {
    |p.centroid| == dim && Unit(p.centroid) && p.sampleCount >= 1
  }

  predicate FreshBelow(st: State<Vec>, id: Id) {
    Suffix(id.2).Some? ==> Suffix(id.2).value < NextId(st, (id.0, id.1))
  }

  lemma NewIdIsFresh(st: State<Vec>, key: Key)
    requires Sound(st)
    ensures (key.0, key.1, SpeakerId(NextId(st, key))) !in st.profiles
  {
    SuffixOfSpeakerId(NextId(st, key));
    assert !FreshBelow(st, (key.0, key.1, SpeakerId(NextId(st, key))));
  }

  lemma UnitScores(norm: Vec -> real, p: Profile<Vec>, e: Vec, dim: nat)
    requires IsNorm(norm) && FitProfile(p, dim) && |e| == dim
    ensures Comparable(norm, p, e) && Score(norm, p, e) == Dot(p.centroid, e)
  {
    NormalizeUnit(norm, p.centroid);
  }

  // ---------------------------------------------------------------- the choice of a speaker

  function ProfileOf(st: State<Vec>, key: Key, s: string): Profile<Vec>
    requires s in IdsOf(st.profiles, key)
  {
    st.profiles[(key.0, key.1, s)]
  }

  /** The cosine of a session's speaker to a unit embedding. */
  ghost function Cosine(st: State<Vec>, key: Key, s: string, e: Vec): real
    requires Fit(st, |e|) && s in IdsOf(st.profiles, key)
  {
    assert FitProfile(st.profiles[(key.0, key.1, s)], |e|);
    Dot(ProfileOf(st, key, s).centroid, e)
  }

  /** `s` has the largest cosine of the session, and the first identifier among equals. */
  ghost predicate Wins(st: State<Vec>, key: Key, e: Vec, s: string)
    requires Fit(st, |e|)
  {
    && s in IdsOf(st.profiles, key)
    && forall t :: t in IdsOf(st.profiles, key) ==> Beats(Cosine(st, key, s, e), s, Cosine(st, key, t, e), t)
  }

  predicate Beats(a: real, s: string, b: real, t: string) { a > b || (a == b && StrLe(s, t)) }

  lemma WinnerUnique(st: State<Vec>, key: Key, e: Vec, s: string, t: string)
    requires Fit(st, |e|) && Wins(st, key, e, s) && Wins(st, key, e, t)
    ensures s == t
  {
    StrLeTotal(s, t);
  }

  lemma ListedComparable(norm: Vec -> real, st: State<Vec>, key: Key, e: Vec)
    requires IsNorm(norm) && Fit(st, |e|)
    ensures var ps := ListOf(st.profiles, key);
            AllComparable(norm, ps, e) && Lists(st, key, ps)
            && forall i :: 0 <= i < |ps| ==>
                 (ps[i].speakerId in IdsOf(st.profiles, key) && Score(norm, ps[i], e) == Cosine(st, key, ps[i].speakerId, e))
  {
    var ps := ListOf(st.profiles, key);
    ListingLists(st, key);
    forall i | 0 <= i < |ps|
      ensures Comparable(norm, ps[i], e) && ps[i].speakerId in IdsOf(st.profiles, key)
      ensures Score(norm, ps[i], e) == Cosine(st, key, ps[i].speakerId, e)
    {
      UnitScores(norm, ps[i], e, |e|);
    }
  }

  /** The first maximum of the listing is the winner, and its stored profile is what was listed. */
  lemma NearestWins(norm: Vec -> real, st: State<Vec>, key: Key, e: Vec, ps: seq<Profile<Vec>>, i: nat)
    requires Fit(st, |e|) && Lists(st, key, ps) && AllComparable(norm, ps, e) && IsNearest(norm, ps, e, i)
    requires forall i :: 0 <= i < |ps| ==>
               (ps[i].speakerId in IdsOf(st.profiles, key) && Score(norm, ps[i], e) == Cosine(st, key, ps[i].speakerId, e))
    ensures Wins(st, key, e, ps[i].speakerId)
  {
    var s := ps[i].speakerId;
    var a := Cosine(st, key, s, e);
    forall t | t in IdsOf(st.profiles, key) ensures Beats(a, s, Cosine(st, key, t, e), t) {
      var j :| 0 <= j < |ps| && ps[j].speakerId == t;
      StrLeTotal(t, t);
      assert Score(norm, ps[j], e) == Cosine(st, key, t, e);
      if i < j { assert StrLe(ps[i].speakerId, ps[j].speakerId); }
    }
  }

  /** The plan for a session without speakers. */
  lemma PlanOfEmpty(cfg: Config, norm: Vec -> real, st: State<Vec>, r: Result)
    requires IsNorm(norm) && r.quality >= cfg.minQuality && norm(r.embedding) > TINY
    requires IdsOf(st.profiles, r.key) == {}
    ensures PlanFor(cfg, norm, ListOf(st.profiles, r.key), r) == Add(Normalized(norm, r.embedding))
  {
    InOrderSorts({});
  }

  /** The plan for any other session, by speakers rather than by positions: it is made from the profile
      of the speaker who wins. */
  lemma PlanOfWinner(cfg: Config, norm: Vec -> real, st: State<Vec>, r: Result) returns (s: string)
    requires IsNorm(norm) && Fit(st, |r.embedding|) && r.quality >= cfg.minQuality && norm(r.embedding) > TINY
    requires IdsOf(st.profiles, r.key) != {}
    ensures Wins(st, r.key, Normalized(norm, r.embedding), s)
    ensures var e := Normalized(norm, r.embedding);
            FitProfile(ProfileOf(st, r.key, s), |e|)
            && PlanFor(cfg, norm, ListOf(st.profiles, r.key), r)
            == PlanAt(cfg, norm, ProfileOf(st, r.key, s), Cosine(st, r.key, s, e), e, r)
  {
    var e := Normalized(norm, r.embedding);
    var ps, i := NearestListed(norm, st, r.key, e);
    s := ps[i].speakerId;
  }

  lemma NearestListed(norm: Vec -> real, st: State<Vec>, key: Key, e: Vec) returns (ps: seq<Profile<Vec>>, i: nat)
    requires IsNorm(norm) && Fit(st, |e|) && IdsOf(st.profiles, key) != {}
    ensures ps == ListOf(st.profiles, key) && ps != [] && AllComparable(norm, ps, e) && i == Nearest(norm, ps, e)
    ensures var s := ps[i].speakerId;
            Wins(st, key, e, s) && ProfileOf(st, key, s) == ps[i] && Score(norm, ps[i], e) == Cosine(st, key, s, e)
    ensures FitProfile(ps[i], |e|)
  {
    ps := ListOf(st.profiles, key);
    ListedComparable(norm, st, key, e);
    var t :| t in IdsOf(st.profiles, key);
    assert ps != [];
    i := Nearest(norm, ps, e);
    NearestWins(norm, st, key, e, ps, i);
  }

  /** A new speaker is created exactly when every cosine of the session is below the threshold. */
  lemma CreatesIff(cfg: Config, norm: Vec -> real, st: State<Vec>, r: Result)
    requires IsNorm(norm) && Fit(st, |r.embedding|) && r.quality >= cfg.minQuality && norm(r.embedding) > TINY
    ensures var e := Normalized(norm, r.embedding);
            PlanFor(cfg, norm, ListOf(st.profiles, r.key), r).Add?
            <==> forall s :: s in IdsOf(st.profiles, r.key) ==> Cosine(st, r.key, s, e) < cfg.threshold
  {
    if IdsOf(st.profiles, r.key) == {} {
      PlanOfEmpty(cfg, norm, st, r);
    } else {
      var s := PlanOfWinner(cfg, norm, st, r);
    }
  }

  // ---------------------------------------------------------------- invariants of an assignment

  lemma UpdatedFits(cfg: Config, norm: Vec -> real, p: Profile<Vec>, e: Vec, quality: real, at: int)
    requires IsNorm(norm) && FitProfile(p, |e|) && Updated(cfg, norm, p, e, quality, at).Some?
    ensures FitProfile(Updated(cfg, norm, p, e, quality, at).value, |e|)
  {
    NormalizedIsUnit(norm, Blend(cfg, p, e, quality));
  }

  lemma CreateKeepsFit(st: State<Vec>, key: Key, e: Vec, quality: real, at: int)
    requires Fit(st, |e|) && Unit(e)
    ensures Fit(Apply(st, Create(key, e, quality, at)).0, |e|)
  {
    var st' := Apply(st, Create(key, e, quality, at)).0;
    SuffixOfSpeakerId(NextId(st, key));
    forall id | id in st'.profiles ensures FitProfile(st'.profiles[id], |e|) && FreshBelow(st', id) {
      if id in st.profiles { assert FreshBelow(st, id); }
    }
  }

  lemma UpdateKeepsFit(st: State<Vec>, p: Profile<Vec>, dim: nat)
    requires Fit(st, dim) && FitProfile(p, dim)
    ensures Fit(Apply(st, Update(p)).0, dim)
  {
    var st' := Apply(st, Update(p)).0;
    forall id | id in st'.profiles ensures FitProfile(st'.profiles[id], dim) && FreshBelow(st', id) {
      assert FreshBelow(st, id);
    }
  }

  /** Every assignment keeps the store fit, whatever the configuration. */
  lemma AssignKeepsFit(cfg: Config, norm: Vec -> real, st: State<Vec>, r: Result)
    requires IsNorm(norm) && Fit(st, |r.embedding|)
    ensures Fit(Assign(cfg, norm, st, r).0, |r.embedding|)
  {
    if r.quality >= cfg.minQuality && norm(r.embedding) > TINY {
      var e := Normalized(norm, r.embedding);
      NormalizedIsUnit(norm, r.embedding);
      CreateKeepsFit(st, r.key, e, r.quality, r.endMs);
      if IdsOf(st.profiles, r.key) == {} {
        PlanOfEmpty(cfg, norm, st, r);
      } else {
        var s := PlanOfWinner(cfg, norm, st, r);
        var p := Updated(cfg, norm, ProfileOf(st, r.key, s), e, r.quality, r.endMs);
        if p.Some? {
          UpdatedFits(cfg, norm, ProfileOf(st, r.key, s), e, r.quality, r.endMs);
          UpdateKeepsFit(st, p.value, |e|);
        }
      }
    }
  }

  // ---------------------------------------------------------------- the object

  /** The assigner over a store; its locks and interleavings are the subject of Serializable. */
  class OnlineSpeakerAssigner {
    const store: InMemorySpeakerStore<Vec>
    const config: Config
    const norm: Vec -> real

    constructor (store: InMemorySpeakerStore<Vec>, config: Config, norm: Vec -> real)
      ensures this.store == store && this.config == config && this.norm == norm
    {
      this.store, this.config, this.norm := store, config, norm;
    }

    method AssignResult(r: Result) returns (out: Outcome)
      modifies store
      ensures (store.Now(), out) == Assign(config, norm, old(store.Now()), r)
    {
      if r.quality < config.minQuality {
        return Assigned(Segment(r.key, r.startMs, r.endMs, UNKNOWN, r.quality));
      }
      var e := Normalize(norm, r.embedding);
      if e.None? { return Failed; }
      var profiles := store.ListProfiles(r.key);
      if !AllComparable(norm, profiles, e.value) { return Failed; }
      if profiles != [] {
        var i := Nearest(norm, profiles, e.value);
        var score := Score(norm, profiles[i], e.value);
        if score >= config.threshold {
          var selected := Updated(config, norm, profiles[i], e.value, r.quality, r.endMs);
          if selected.None? { return Failed; }
          var ok := store.UpdateProfile(selected.value);
          if !ok { return Failed; }
          return Assigned(SegmentFor(r, selected.value.speakerId, score));
        }
      }
      var created := store.CreateProfile(r.key, e.value, r.quality, r.endMs);
      return Assigned(SegmentFor(r, created.speakerId, r.quality));
    }

    method RenameSpeaker(key: Key, speakerId: string, displayName: Option<string>) returns (found: bool)
      modifies store
      ensures (store.Now(), Renamed(found)) == Apply(old(store.Now()), Rename(key, speakerId, displayName))
    {
      found := store.RenameSpeaker(key, speakerId, displayName);
    }
  }
}
