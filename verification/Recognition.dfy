/** When an embedding presented again is given the same speaker, and when an assignment succeeds. */
module Recognition {
  import opened Vectors
  import opened Wrappers
  import opened SpeakerIds
  import opened Store
  import opened Assigner

  // ---------------------------------------------------------------- the same embedding again

  lemma WeightsNonNegative(cfg: Config, p: Profile<Vec>)
    requires cfg.maxWeight >= 0.0 && p.sampleCount >= 1
    ensures ExistingWeight(cfg, p) >= 0.0
  {
    ProductSign(Min(p.sampleCount as real, cfg.maxWeight), Max(p.qualityEma, 0.05));
  }

  /** Weights with which every embedding of dimension `dim` is recognized: a negative weight is small
      enough for the least weight of a new embedding, or, where only a cosine of one can reach the
      threshold or change, does not turn the centroid round. */
  predicate StableWeights(cfg: Config, dim: nat) {
    cfg.maxWeight >= 0.0 || dim == 0 ||
    (if dim >= 2 && cfg.threshold < 1.0 then 2.0 * -cfg.maxWeight <= Max(cfg.minQuality, 0.05)
     else -cfg.maxWeight <= Max(cfg.minQuality, 0.05) + TINY)
  }

  /** A fit store under stable weights; averages matter only when the weight is negative. */
  ghost predicate Stable(cfg: Config, st: State<Vec>, dim: nat) {
    StableWeights(cfg, dim) && Fit(st, dim) && (cfg.maxWeight < 0.0 ==> QualityIn(st, cfg.minQuality))
  }

  lemma NegativeWeights(cfg: Config, p: Profile<Vec>)
    requires cfg.maxWeight < 0.0 && p.sampleCount >= 1 && p.qualityEma <= 1.0
    ensures cfg.maxWeight <= ExistingWeight(cfg, p) < 0.0
  {
    var k := Max(p.qualityEma, 0.05);
    PositiveProduct(-cfg.maxWeight, k);
    ProductSign(-cfg.maxWeight, 1.0 - k);
    assert -cfg.maxWeight * (1.0 - k) == -cfg.maxWeight + cfg.maxWeight * k;
    assert -cfg.maxWeight * k == -(cfg.maxWeight * k);
  }

  lemma {:induction false} UnitOfOne(c: Vec, e: Vec)
    requires |c| == |e| == 1 && Unit(c) && Unit(e)
    ensures Dot(c, e) == 1.0 || Dot(c, e) == -1.0
  {
    var a, b := c[0], e[0];
    assert c[1..] == [] && e[1..] == [];
    assert a * a == 1.0 && b * b == 1.0;
    if a > 1.0 { StrictSquares(1.0, a); } else if 0.0 <= a < 1.0 { StrictSquares(a, 1.0); }
    else if a < -1.0 { StrictSquares(1.0, -a); } else if -1.0 < a < 0.0 { StrictSquares(-a, 1.0); }
    if b > 1.0 { StrictSquares(1.0, b); } else if 0.0 <= b < 1.0 { StrictSquares(b, 1.0); }
    else if b < -1.0 { StrictSquares(1.0, -b); } else if -1.0 < b < 0.0 { StrictSquares(-b, 1.0); }
  }

  /** At cosine one a sum with a direction points forward unless the negative weight is the larger. */
  lemma PointsForward(w: real, x: real, n: real)
    requires n * n == Squared(w, x, 1.0) && n > TINY && w + x >= -TINY
    ensures w + x >= 0.0
  {
    assert n * n == (w + x) * (w + x) == (-(w + x)) * (-(w + x));
    if w + x < 0.0 { StrictSquares(-(w + x), n); }
  }

  /** The numbers behind: at a cosine that reaches the threshold, and a sum with a direction. */
  lemma StableNumbers(cfg: Config, dim: nat, w: real, x: real, s: real, n: real)
    requires cfg.Valid() && StableWeights(cfg, dim) && cfg.maxWeight < 0.0 && dim > 0
    requires cfg.maxWeight <= w < 0.0 && x >= Max(cfg.minQuality, 0.05) && cfg.threshold <= s <= 1.0
    requires dim == 1 ==> s == 1.0 || s == -1.0
    requires n > TINY && n * n == Squared(w, x, s)
    ensures Harmless(w, x, s)
  {
    if s == 1.0 && x + 2.0 * w < 0.0 {
      if dim == 1 || cfg.threshold >= 1.0 { PointsForward(w, x, n); }
    }
  }

  /** Stable weights are harmless for every update that succeeds. */
  lemma StableIsHarmless(cfg: Config, norm: Vec -> real, p: Profile<Vec>, e: Vec, quality: real)
    requires IsNorm(norm) && cfg.Valid() && StableWeights(cfg, |e|) && FitProfile(p, |e|) && Unit(e)
    requires quality >= cfg.minQuality && (cfg.maxWeight < 0.0 ==> p.qualityEma <= 1.0)
    requires Dot(p.centroid, e) >= cfg.threshold && norm(Blend(cfg, p, e, quality)) > TINY
    ensures Harmless(ExistingWeight(cfg, p), Max(quality, 0.05), Dot(p.centroid, e))
  {
    if cfg.maxWeight >= 0.0 {
      WeightsNonNegative(cfg, p);
    } else {
      NegativeWeights(cfg, p);
      if |e| == 1 { UnitOfOne(p.centroid, e); }
      var s, v, n := SumNorm(norm, p.centroid, e, ExistingWeight(cfg, p), Max(quality, 0.05));
      StableNumbers(cfg, |e|, ExistingWeight(cfg, p), Max(quality, 0.05), s, n);
    }
  }

  /** The winner that absorbs the embedding still wins, its cosine no smaller. */
  lemma WinnerStays(cfg: Config, norm: Vec -> real, st: State<Vec>, key: Key, e: Vec, s: string, quality: real, at: int)
    requires IsNorm(norm) && Unit(e) && Fit(st, |e|) && Wins(st, key, e, s)
    requires Harmless(ExistingWeight(cfg, ProfileOf(st, key, s)), Max(quality, 0.05), Cosine(st, key, s, e))
    requires Updated(cfg, norm, ProfileOf(st, key, s), e, quality, at).Some?
    ensures var p := Updated(cfg, norm, ProfileOf(st, key, s), e, quality, at).value;
            var st' := Apply(st, Update(p)).0;
            Fit(st', |e|) && Wins(st', key, e, s) && Cosine(st', key, s, e) >= Cosine(st, key, s, e)
  {
    var q := ProfileOf(st, key, s);
    var p := Updated(cfg, norm, q, e, quality, at).value;
    var st' := Apply(st, Update(p)).0;
    assert FitProfile(q, |e|);
    UpdatedFits(cfg, norm, q, e, quality, at);
    UpdateKeepsFit(st, p, |e|);
    AbsorbingKeepsCosine(norm, q.centroid, e, ExistingWeight(cfg, q), Max(quality, 0.05));
    assert IdsOf(st'.profiles, key) == IdsOf(st.profiles, key);
    forall t | t in IdsOf(st'.profiles, key)
      ensures Beats(Cosine(st', key, s, e), s, Cosine(st', key, t, e), t)
    {
      StrLeTotal(s, s);
    }
  }

  /** A speaker created for an embedding wins over all that were below the threshold. */
  lemma NewcomerWins(cfg: Config, st: State<Vec>, key: Key, e: Vec, quality: real, at: int)
    requires cfg.Valid() && Unit(e) && Fit(st, |e|)
    requires forall s :: s in IdsOf(st.profiles, key) ==> Cosine(st, key, s, e) < cfg.threshold
    ensures var (st', out) := Apply(st, Create(key, e, quality, at));
            Fit(st', |e|) && Wins(st', key, e, out.profile.speakerId) && Cosine(st', key, out.profile.speakerId, e) == 1.0
  {
    var (st', out) := Apply(st, Create(key, e, quality, at));
    CreateKeepsFit(st, key, e, quality, at);
    var s := out.profile.speakerId;
    assert s in IdsOf(st'.profiles, key);
    forall t | t in IdsOf(st'.profiles, key)
      ensures Beats(Cosine(st', key, s, e), s, Cosine(st', key, t, e), t)
    {
      StrLeTotal(s, s);
      if t != s { assert t in IdsOf(st.profiles, key); assert ProfileOf(st', key, t) == ProfileOf(st, key, t); }
    }
  }

  /** After a successful assignment the speaker it named wins for that embedding, at or above the threshold. */
  lemma AssignedWins(cfg: Config, norm: Vec -> real, st: State<Vec>, r: Result)
    requires IsNorm(norm) && cfg.Valid() && Stable(cfg, st, |r.embedding|)
    requires r.quality >= cfg.minQuality && norm(r.embedding) > TINY && Assign(cfg, norm, st, r).1.Assigned?
    ensures var e := Normalized(norm, r.embedding);
            var (st', out) := Assign(cfg, norm, st, r);
            Fit(st', |e|) && Wins(st', r.key, e, out.segment.speakerId)
            && Cosine(st', r.key, out.segment.speakerId, e) >= cfg.threshold
  {
    var e := Normalized(norm, r.embedding);
    NormalizedIsUnit(norm, r.embedding);
    CreatesIff(cfg, norm, st, r);
    if IdsOf(st.profiles, r.key) == {} {
      PlanOfEmpty(cfg, norm, st, r);
      NewcomerWins(cfg, st, r.key, e, r.quality, r.endMs);
    } else {
      var s := PlanOfWinner(cfg, norm, st, r);
      if Cosine(st, r.key, s, e) < cfg.threshold {
        NewcomerWins(cfg, st, r.key, e, r.quality, r.endMs);
      } else {
        StableIsHarmless(cfg, norm, ProfileOf(st, r.key, s), e, r.quality);
        WinnerStays(cfg, norm, st, r.key, e, s, r.quality, r.endMs);
      }
    }
  }

  /** The second assignment, if both succeed, names the speaker of the first and creates no profile. */
  ghost predicate SameAgain(cfg: Config, norm: Vec -> real, st: State<Vec>, first: Result, second: Result) {
    var (st1, out1) := Assign(cfg, norm, st, first);
    var (st2, out2) := Assign(cfg, norm, st1, second);
    out1.Assigned? && out2.Assigned? ==>
      (out2.segment.speakerId == out1.segment.speakerId && st2.profiles.Keys == st1.profiles.Keys)
  }

  /** Re-presenting an embedding is stable: with nothing in between, any later assignment of it at passing
      quality names the same speaker, ties included. */
  lemma SameSpeakerAgain(cfg: Config, norm: Vec -> real, st: State<Vec>, first: Result, second: Result)
    requires IsNorm(norm) && cfg.Valid() && Stable(cfg, st, |first.embedding|)
    requires first.key == second.key && first.embedding == second.embedding
    requires first.quality >= cfg.minQuality && second.quality >= cfg.minQuality
    ensures SameAgain(cfg, norm, st, first, second)
  {
    var (st1, out1) := Assign(cfg, norm, st, first);
    var (st2, out2) := Assign(cfg, norm, st1, second);
    if out1.Assigned? && out2.Assigned? {
      AssignedWins(cfg, norm, st, first);
      WinnerIsReplaced(cfg, norm, st1, second, out1.segment.speakerId);
    }
  }

  lemma WinnerIsReplaced(cfg: Config, norm: Vec -> real, st: State<Vec>, r: Result, s: string)
    requires IsNorm(norm) && Fit(st, |r.embedding|) && r.quality >= cfg.minQuality && norm(r.embedding) > TINY
    requires var e := Normalized(norm, r.embedding); Wins(st, r.key, e, s) && Cosine(st, r.key, s, e) >= cfg.threshold
    requires Assign(cfg, norm, st, r).1.Assigned?
    ensures var (st', out) := Assign(cfg, norm, st, r);
            out.segment.speakerId == s && st'.profiles.Keys == st.profiles.Keys
  {
    var e := Normalized(norm, r.embedding);
    var t := PlanOfWinner(cfg, norm, st, r);
    WinnerUnique(st, r.key, e, s, t);
  }

  /** With a negative `maxWeight` that fails: the centroid is turned away from what it absorbs, and the
      embedding presented again gets a new speaker. */
  lemma NegativeWeightForgets(norm: Vec -> real)
    requires IsNorm(norm)
    ensures var cfg := Config(0.0, 0.2, 0.1, -1.0);
            var p := Profile("t", "s", "spk_001", [1.0], 1, 1.0, 0, None);
            var st := State(map[p.IdOf() := p], map[("t", "s") := 2]);
            var r := Result(("t", "s"), 0, 10, [1.0], 0.5);
            var (st1, out1) := Assign(cfg, norm, st, r);
            var (st2, out2) := Assign(cfg, norm, st1, r);
            cfg.Valid() && out1.Assigned? && out2.Assigned?
            && out1.segment.speakerId == "spk_001" && out2.segment.speakerId == SpeakerId(2) != "spk_001"
  {
    var cfg := Config(0.0, 0.2, 0.1, -1.0);
    var p := Profile("t", "s", "spk_001", [1.0], 1, 1.0, 0, None);
    var st := State(map[p.IdOf() := p], map[("t", "s") := 2]);
    var r := Result(("t", "s"), 0, 10, [1.0], 0.5);
    var q := TurnsAway(norm, cfg, p, st, r);
    NotRecognized(norm, cfg, q, Assign(cfg, norm, st, r).0, r);
    FirstId();
  }

  lemma FirstId()
    ensures SpeakerId(1) == "spk_001" != SpeakerId(2)
  {
    assert Padded(1) == "001";
    SuffixOfSpeakerId(1);
    SuffixOfSpeakerId(2);
  }

  lemma TurnsAway(norm: Vec -> real, cfg: Config, p: Profile<Vec>, st: State<Vec>, r: Result) returns (q: Profile<Vec>)
    requires IsNorm(norm) && cfg == Config(0.0, 0.2, 0.1, -1.0) && r.embedding == [1.0] && r.quality == 0.5
    requires p.centroid == [1.0] && p.sampleCount == 1 && p.qualityEma == 1.0
    requires st.profiles == map[p.IdOf() := p] && p.KeyOf() == r.key
    ensures var (st1, out) := Assign(cfg, norm, st, r);
            st1 == State(map[q.IdOf() := q], st.nextIds) && out.Assigned? && out.segment.speakerId == p.speakerId
    ensures q.centroid == [-1.0] && q.IdOf() == p.IdOf() && q.sampleCount == 2
  {
    OnlyOneListed(st, r.key, p);
    q := TurnedAway(norm, cfg, p, r);
  }

  lemma NotRecognized(norm: Vec -> real, cfg: Config, q: Profile<Vec>, st: State<Vec>, r: Result)
    requires IsNorm(norm) && cfg == Config(0.0, 0.2, 0.1, -1.0) && r.embedding == [1.0] && r.quality == 0.5
    requires q.centroid == [-1.0] && q.sampleCount == 2
    requires st.profiles == map[q.IdOf() := q] && q.KeyOf() == r.key
    ensures var out := Assign(cfg, norm, st, r).1;
            out.Assigned? && out.segment.speakerId == SpeakerId(NextId(st, r.key))
  {
    assert Unit([1.0]) && Unit([-1.0]);
    NormalizeUnit(norm, [1.0]);
    OnlyOneListed(st, r.key, q);
    UnitScores(norm, q, [1.0], 1);
    assert Dot(q.centroid, [1.0]) == -1.0;
    assert Nearest(norm, [q], [1.0]) == 0;
  }

  lemma TurnedAway(norm: Vec -> real, cfg: Config, p: Profile<Vec>, r: Result) returns (q: Profile<Vec>)
    requires IsNorm(norm) && cfg == Config(0.0, 0.2, 0.1, -1.0) && r.embedding == [1.0] && r.quality == 0.5
    requires p.centroid == [1.0] && p.sampleCount == 1 && p.qualityEma == 1.0
    ensures PlanFor(cfg, norm, [p], r) == Replace(q, 1.0)
    ensures q.centroid == [-1.0] && q.IdOf() == p.IdOf() && q.sampleCount == 2
  {
    assert Unit([1.0]);
    NormalizeUnit(norm, [1.0]);
    UnitScores(norm, p, [1.0], 1);
    assert Dot([1.0], [1.0]) == 1.0;
    assert ExistingWeight(cfg, p) == -1.0;
    assert Scale(-1.0, [1.0]) == [-1.0] && Scale(0.5, [1.0]) == [0.5];
    assert Blend(cfg, p, [1.0], 0.5) == [-0.5];
    HalfNorm(norm);
    assert Normalized(norm, [-0.5]) == [-1.0];
    assert Nearest(norm, [p], [1.0]) == 0;
    q := Updated(cfg, norm, p, [1.0], 0.5, r.endMs).value;
  }

  lemma HalfNorm(norm: Vec -> real)
    requires IsNorm(norm)
    ensures norm([-0.5]) == 0.5
  {
    var n := norm([-0.5]);
    assert Dot([-0.5], [-0.5]) == 0.25;
    assert n * n == 0.5 * 0.5;
    if n < 0.5 { StrictSquares(n, 0.5); } else if n > 0.5 { StrictSquares(0.5, n); }
  }

  // ---------------------------------------------------------------- exactly when

  /** Every embedding of dimension `dim` presented twice to a fit store is recognized. */
  ghost predicate Recognizes(cfg: Config, norm: Vec -> real, dim: nat) {
    forall st, first, second :: Presented(cfg, dim, st, first, second) ==> SameAgain(cfg, norm, st, first, second)
  }

  ghost predicate Presented(cfg: Config, dim: nat, st: State<Vec>, first: Result, second: Result) {
    && Fit(st, dim) && QualityIn(st, cfg.minQuality) && |first.embedding| == dim
    && first.key == second.key && first.embedding == second.embedding
    && cfg.minQuality <= first.quality <= 1.0 && cfg.minQuality <= second.quality <= 1.0
  }

  /** Two speakers with the same centroid. */
  ghost function Twins(a: string, b: string, c: Vec): State<Vec> {
    var (p, q) := (Twin(a, c), Twin(b, c));
    State(map[p.IdOf() := p, q.IdOf() := q], map[("t", "s") := 3])
  }

  function Twin(id: string, c: Vec): Profile<Vec> { Profile("t", "s", id, c, 1, 1.0, 0, None) }

  lemma TwinsFit(cfg: Config, a: string, b: string, c: Vec)
    requires cfg.Valid() && Unit(c) && Suffix(a) == Some(1) && Suffix(b) == Some(2)
    ensures Fit(Twins(a, b, c), |c|) && QualityIn(Twins(a, b, c), cfg.minQuality)
    ensures IdsOf(Twins(a, b, c).profiles, ("t", "s")) == {a, b}
  {
    var st := Twins(a, b, c);
    forall id | id in st.profiles ensures FreshBelow(st, id) && FitProfile(st.profiles[id], |c|) {
      assert id == ("t", "s", a) || id == ("t", "s", b);
    }
  }

  /** The sum of a twin's centroid and an embedding, with their weights. */
  function TwinSum(cfg: Config, c: Vec, e: Vec): Vec
    requires |c| == |e|
  {
    Plus(Scale(cfg.maxWeight, c), Scale(Max(cfg.minQuality, 0.05), e))
  }

  lemma TwinUpdated(cfg: Config, norm: Vec -> real, p: Profile<Vec>, e: Vec, at: int)
    requires cfg.maxWeight < 0.0 && p.sampleCount == 1 && p.qualityEma == 1.0 && |p.centroid| == |e|
    requires norm(TwinSum(cfg, p.centroid, e)) > TINY
    ensures var q := Updated(cfg, norm, p, e, cfg.minQuality, at);
            q.Some? && q.value.IdOf() == p.IdOf() && q.value.centroid == Normalized(norm, TwinSum(cfg, p.centroid, e))
  {
    assert ExistingWeight(cfg, p) == cfg.maxWeight;
  }

  /** A twin that wins absorbs the embedding. */
  lemma TwinAbsorbs(cfg: Config, norm: Vec -> real, st: State<Vec>, r: Result, s: string) returns (q: Profile<Vec>)
    requires IsNorm(norm) && cfg.maxWeight < 0.0 && Unit(r.embedding) && Fit(st, |r.embedding|) && r.quality == cfg.minQuality
    requires Wins(st, r.key, r.embedding, s) && Cosine(st, r.key, s, r.embedding) >= cfg.threshold
    requires var p := ProfileOf(st, r.key, s);
             p.sampleCount == 1 && p.qualityEma == 1.0 && |p.centroid| == |r.embedding| && norm(TwinSum(cfg, p.centroid, r.embedding)) > TINY
    ensures var (st1, out) := Assign(cfg, norm, st, r);
            out.Assigned? && out.segment.speakerId == s && st1 == st.(profiles := st.profiles[q.IdOf() := q])
    ensures q.IdOf() == (r.key.0, r.key.1, s)
    ensures q.centroid == Normalized(norm, TwinSum(cfg, ProfileOf(st, r.key, s).centroid, r.embedding))
  {
    NormalizeUnit(norm, r.embedding);
    var u := PlanOfWinner(cfg, norm, st, r);
    WinnerUnique(st, r.key, r.embedding, s, u);
    TwinUpdated(cfg, norm, ProfileOf(st, r.key, s), r.embedding, r.endMs);
    q := Updated(cfg, norm, ProfileOf(st, r.key, s), r.embedding, r.quality, r.endMs).value;
    assert st.profiles[(r.key.0, r.key.1, s)].IdOf() == (r.key.0, r.key.1, s);
  }

  /** Where absorbing lowers the cosine, the other twin wins the second time. */
  lemma TwinTakesOver(cfg: Config, norm: Vec -> real, c: Vec, e: Vec)
    requires IsNorm(norm) && cfg.Valid() && cfg.maxWeight < 0.0 && |c| == |e| && Unit(c) && Unit(e)
    requires Dot(c, e) >= cfg.threshold && norm(TwinSum(cfg, c, e)) > TINY
    requires Dot(Normalized(norm, TwinSum(cfg, c, e)), e) < Dot(c, e)
    ensures !Recognizes(cfg, norm, |c|)
  {
    var a, b := SpeakerId(1), SpeakerId(2);
    SuffixOfSpeakerId(1);
    SuffixOfSpeakerId(2);
    TwinsDiffer(cfg, norm, a, b, c, e);
  }

  lemma TwinsDiffer(cfg: Config, norm: Vec -> real, a: string, b: string, c: Vec, e: Vec)
    requires IsNorm(norm) && cfg.Valid() && cfg.maxWeight < 0.0 && |c| == |e| && Unit(c) && Unit(e)
    requires Dot(c, e) >= cfg.threshold && norm(TwinSum(cfg, c, e)) > TINY
    requires Dot(Normalized(norm, TwinSum(cfg, c, e)), e) < Dot(c, e)
    requires Suffix(a) == Some(1) && Suffix(b) == Some(2)
    ensures !Recognizes(cfg, norm, |c|)
  {
    var st, key := Twins(a, b, c), ("t", "s");
    var r := Result(key, 0, 10, e, cfg.minQuality);
    TwinsFit(cfg, a, b, c);
    NormalizeUnit(norm, e);
    var s := PlanOfWinner(cfg, norm, st, r);
    var t := if s == a then b else a;
    var q := TwinAbsorbs(cfg, norm, st, r, s);
    AssignKeepsFit(cfg, norm, st, r);
    TwinsAfter(a, b, c, s, t, q);
    OtherTwin(cfg, norm, Assign(cfg, norm, st, r).0, r, s, t);
    assert Presented(cfg, |c|, st, r, r) && !SameAgain(cfg, norm, st, r, r);
  }

  /** What is stored once a twin has absorbed the embedding. */
  lemma TwinsAfter(a: string, b: string, c: Vec, s: string, t: string, q: Profile<Vec>)
    requires (s == a && t == b) || (s == b && t == a)
    requires a != b && q.IdOf() == ("t", "s", s)
    ensures var st1 := Twins(a, b, c).(profiles := Twins(a, b, c).profiles[q.IdOf() := q]);
            IdsOf(st1.profiles, ("t", "s")) == {s, t}
            && ProfileOf(st1, ("t", "s"), t) == Twin(t, c) && ProfileOf(st1, ("t", "s"), s) == q
  {
  }

  lemma OtherTwin(cfg: Config, norm: Vec -> real, st1: State<Vec>, r: Result, s: string, t: string)
    requires IsNorm(norm) && cfg.maxWeight < 0.0 && Unit(r.embedding) && r.quality == cfg.minQuality
    requires Fit(st1, |r.embedding|) && s != t && IdsOf(st1.profiles, r.key) == {s, t}
    requires Cosine(st1, r.key, s, r.embedding) < Cosine(st1, r.key, t, r.embedding)
    requires Cosine(st1, r.key, t, r.embedding) >= cfg.threshold
    requires var p := ProfileOf(st1, r.key, t);
             p.sampleCount == 1 && p.qualityEma == 1.0 && |p.centroid| == |r.embedding| && norm(TwinSum(cfg, p.centroid, r.embedding)) > TINY
    ensures var out := Assign(cfg, norm, st1, r).1; out.Assigned? && out.segment.speakerId != s
  {
    HigherWins(st1, r.key, r.embedding, s, t);
    var p := TwinAbsorbs(cfg, norm, st1, r, t);
  }

  lemma HigherWins(st: State<Vec>, key: Key, e: Vec, s: string, t: string)
    requires Fit(st, |e|) && IdsOf(st.profiles, key) == {s, t} && Cosine(st, key, s, e) < Cosine(st, key, t, e)
    ensures Wins(st, key, e, t)
  {
    StrLeTotal(t, t);
  }

  // ---------------------------------------------------------------- embeddings of any dimension

  function Zeros(n: nat): (z: Vec)
    ensures |z| == n
  {
    if n == 0 then [] else [0.0] + Zeros(n - 1)
  }

  lemma {:induction false} ZerosVanish(n: nat)
    ensures Dot(Zeros(n), Zeros(n)) == 0.0
  {
    if n > 0 { ZerosVanish(n - 1); }
  }

  lemma AxisIsUnit(n: nat)
    ensures Unit([1.0] + Zeros(n))
  {
    ZerosVanish(n);
    assert ([1.0] + Zeros(n))[1..] == Zeros(n);
  }

  /** A unit vector at cosine `s` to the axis. */
  lemma TiltedIsUnit(n: nat, s: real, y: real)
    requires s * s + y * y == 1.0
    ensures var (c, e) := ([1.0] + Zeros(n + 1), [s, y] + Zeros(n)); |c| == |e| && Unit(e) && Dot(c, e) == s
  {
    var c, e := [1.0] + Zeros(n + 1), [s, y] + Zeros(n);
    ZerosVanish(n);
    assert c[1..] == [0.0] + Zeros(n) && c[1..][1..] == Zeros(n);
    assert e[1..] == [y] + Zeros(n) && e[1..][1..] == Zeros(n);
    assert Dot(c[1..], e[1..]) == 0.0 * y + Dot(Zeros(n), Zeros(n));
  }

  function Times(a: real, b: real): real { a * b }

  lemma TimesPositive(a: real, b: real)
    requires a > 0.0 && b > 0.0
    ensures Times(a, b) > 0.0
  {
  }

  lemma SmallSquare(t: real, q: real)
    requires 0.0 < t <= 0.05 && q == t * t
    ensures 0.0 < q <= 0.0025
  {
    TimesPositive(t, t);
    ProductSign(t, 0.05 - t);
    assert t * (0.05 - t) == 0.05 * t - q;
  }

  /** A rational point of the unit circle near (1, 0). */
  lemma CirclePoint(t: real) returns (s: real, y: real)
    requires 0.0 < t <= 0.05
    ensures s * s + y * y == 1.0 && 1.0 - 2.0 * (t * t) <= s < 1.0 && y >= 1.9 * t
  {
    var q := t * t;
    SmallSquare(t, q);
    var k := 1.0 / (1.0 + q);
    s, y := (1.0 - q) * k, 2.0 * t * k;
    CircleNumbers(t, q, k, s, y);
  }

  lemma CircleNumbers(t: real, q: real, k: real, s: real, y: real)
    requires 0.0 < t <= 0.05 && q == t * t && k == 1.0 / (1.0 + q) && 0.0 < q <= 0.0025
    requires s == (1.0 - q) * k && y == 2.0 * t * k
    ensures s * s + y * y == 1.0 && 1.0 - 2.0 * q <= s < 1.0 && y >= 1.9 * t
  {
    assert k * (1.0 + q) == 1.0;
    assert s == 1.0 - 2.0 * (q * k);
    PositiveProduct(q, k);
    ProductSign(q, 1.0 - k);
    assert k <= 1.0;
    assert y * y == 4.0 * (q * (k * k));
    assert s * s + y * y == ((1.0 - q) * (1.0 - q) + 4.0 * q) * (k * k);
    assert (1.0 - q) * (1.0 - q) + 4.0 * q == (1.0 + q) * (1.0 + q);
    assert ((1.0 + q) * (1.0 + q)) * (k * k) == (k * (1.0 + q)) * (k * (1.0 + q));
    assert k >= 0.95;
    ProductSign(t, k - 0.95);
  }

  // ---------------------------------------------------------------- unstable weights fail

  /** Far enough below one for a cosine in between at which a sum still has a direction. */
  const ROOM := 0.0000000000000000000003

  /** A cosine at or above the threshold that a weight `-v` lowers, at a sum with a direction. */
  lemma ChooseTilt(v: real, x: real, threshold: real) returns (s: real, y: real)
    requires 0.05 <= x < 2.0 * v && threshold <= 1.0 - ROOM
    ensures s * s + y * y == 1.0 && 0.0 < s < 1.0 && threshold <= s && 2.0 * (v * s) > x
    ensures x * s - v > TINY || x * y > TINY
  {
    if v <= 0.75 * x {
      s, y := TiltTowards(v, x, Max(threshold, 0.9));
    } else {
      var t := 0.000000000012;
      s, y := CirclePoint(t);
      assert 2.0 * (t * t) <= ROOM;
      ProductSign(v, s - 0.9);
      assert v * (s - 0.9) == v * s - 0.9 * v;
      ProductSign(x - 0.05, y);
      assert (x - 0.05) * y == x * y - 0.05 * y;
    }
  }

  lemma TiltTowards(v: real, x: real, low: real) returns (s: real, y: real)
    requires 0.05 <= x < 2.0 * v && v <= 0.75 * x && 0.9 <= low < 1.0
    ensures s * s + y * y == 1.0 && low <= s < 1.0 && 2.0 * (v * s) > x && x * s - v > TINY
  {
    var share := Share(x / 2.0, v);
    s, y := PointFrom(Max(low, (1.0 + share) / 2.0));
    TimesAbove(v, s, share, x / 2.0);
    TimesAbove(x, s, 0.8, 0.8 * x);
  }

  /** A rational point at or right of `b`. */
  lemma PointFrom(b: real) returns (s: real, y: real)
    requires 0.9 <= b < 1.0
    ensures s * s + y * y == 1.0 && b <= s < 1.0
  {
    var t := (1.0 - b) / 2.0;
    s, y := CirclePoint(t);
    ProductSign(t, 1.0 - t);
    assert t * (1.0 - t) == t - t * t;
  }

  lemma TimesAbove(v: real, s: real, low: real, p: real)
    requires v > 0.0 && s > low && low * v == p
    ensures v * s > p
  {
    PositiveProduct(v, s - low);
    assert v * (s - low) == v * s - low * v;
  }

  lemma Share(x: real, d: real) returns (share: real)
    requires 0.0 < x < d
    ensures 0.0 < share < 1.0 && share * d == x
  {
    share := x / d;
    assert (share - 1.0) * d == share * d - d && -share * d == -(share * d);
    if share >= 1.0 { ProductSign(share - 1.0, d); }
    if share <= 0.0 { ProductSign(-share, d); }
  }

  /** The squared norm of a sum, in the plane of the two unit vectors. */
  lemma PlaneNorm(w: real, x: real, s: real, y: real, n: real)
    requires s * s + y * y == 1.0 && n >= 0.0 && n * n == Squared(w, x, s)
    requires x * s + w > TINY || x * y > TINY
    ensures n > TINY
  {
    var a, b := x * s + w, x * y;
    assert a * a == (x * x) * (s * s) + 2.0 * (x * (w * s)) + w * w;
    assert b * b == (x * x) * (y * y);
    assert (x * x) * (s * s) + (x * x) * (y * y) == (x * x) * (s * s + y * y);
    assert n * n == a * a + b * b;
    SquareNonNegative(a);
    SquareNonNegative(b);
    if a > TINY { SquaresOrder(n, a); } else { SquaresOrder(n, b); }
  }

  lemma UnstableFails(cfg: Config, norm: Vec -> real, dim: nat)
    requires IsNorm(norm) && cfg.Valid() && !StableWeights(cfg, dim)
    requires cfg.threshold == 1.0 || cfg.threshold <= 1.0 - ROOM
    ensures !Recognizes(cfg, norm, dim)
  {
    if dim >= 2 && cfg.threshold < 1.0 { TiltedFails(cfg, norm, dim); } else { ParallelFails(cfg, norm, dim); }
  }

  lemma TiltedFails(cfg: Config, norm: Vec -> real, dim: nat)
    requires IsNorm(norm) && cfg.Valid() && cfg.maxWeight < 0.0 && dim >= 2 && cfg.threshold <= 1.0 - ROOM
    requires 2.0 * -cfg.maxWeight > Max(cfg.minQuality, 0.05)
    ensures !Recognizes(cfg, norm, dim)
  {
    var s, y := ChooseTilt(-cfg.maxWeight, Max(cfg.minQuality, 0.05), cfg.threshold);
    var c, e := Tilted(dim, s, y);
    TiltedNumbers(cfg.maxWeight, Max(cfg.minQuality, 0.05), s, y);
    TiltLoses(cfg, norm, c, e, s);
    TwinTakesOver(cfg, norm, c, e);
  }

  lemma Tilted(dim: nat, s: real, y: real) returns (c: Vec, e: Vec)
    requires dim >= 2 && s * s + y * y == 1.0
    ensures |c| == |e| == dim && Unit(c) && Unit(e) && Dot(c, e) == s
  {
    c, e := [1.0] + Zeros(dim - 2 + 1), [s, y] + Zeros(dim - 2);
    AxisIsUnit(dim - 2 + 1);
    TiltedIsUnit(dim - 2, s, y);
  }

  /** A numerator and a norm of an update at cosine `s`. */
  predicate Numbers(w: real, x: real, s: real, p: real, n: real) {
    p == w * s + x && n >= 0.0 && n * n == Squared(w, x, s)
  }

  /** Every update at cosine `s` has a direction and a lower cosine. */
  ghost predicate Loses(w: real, x: real, s: real) {
    forall p, n :: Numbers(w, x, s, p, n) ==> n > TINY && p < s * n
  }

  lemma TiltLoses(cfg: Config, norm: Vec -> real, c: Vec, e: Vec, s: real)
    requires IsNorm(norm) && |c| == |e| && Unit(c) && Unit(e) && s == Dot(c, e)
    requires Loses(cfg.maxWeight, Max(cfg.minQuality, 0.05), s)
    ensures norm(TwinSum(cfg, c, e)) > TINY && Dot(Normalized(norm, TwinSum(cfg, c, e)), e) < s
  {
    var w, x := cfg.maxWeight, Max(cfg.minQuality, 0.05);
    var s', p, n, d := UpdateNumbers(norm, c, e, w, x);
    LosesAt(w, x, s, s', p, n, d);
  }

  lemma LosesAt(w: real, x: real, s: real, s': real, p: real, n: real, d: real)
    requires s == s' && Loses(w, x, s)
    requires p == w * s' + x && n >= 0.0 && n * n == Squared(w, x, s')
    requires n > 0.0 ==> (p >= s' * n <==> d >= s')
    ensures n > TINY && d < s'
  {
    assert Numbers(w, x, s, p, n);
  }

  lemma TiltedNumbers(w: real, x: real, s: real, y: real)
    requires x > 0.0 && 0.0 < s < 1.0 && s * s + y * y == 1.0 && 2.0 * (-w * s) > x
    requires x * s - -w > TINY || x * y > TINY
    ensures Loses(w, x, s)
  {
    assert -w * s == -(w * s);
    forall p, n | Numbers(w, x, s, p, n) ensures n > TINY && p < s * n {
      PlaneNorm(w, x, s, y, n);
      CosineShrinks(w, x, s, n);
    }
  }

  lemma ParallelFails(cfg: Config, norm: Vec -> real, dim: nat)
    requires IsNorm(norm) && cfg.Valid() && cfg.maxWeight < 0.0 && dim >= 1
    requires -cfg.maxWeight > Max(cfg.minQuality, 0.05) + TINY
    ensures !Recognizes(cfg, norm, dim)
  {
    var w, x := cfg.maxWeight, Max(cfg.minQuality, 0.05);
    var c := [1.0] + Zeros(dim - 1);
    AxisIsUnit(dim - 1);
    var s, p, n, d := UpdateNumbers(norm, c, c, w, x);
    OppositeNorm(w, x, n);
    TwinTakesOver(cfg, norm, c, c);
  }

  lemma OppositeNorm(w: real, x: real, n: real)
    requires n >= 0.0 && n * n == Squared(w, x, 1.0) && -w > x + TINY
    ensures n > TINY && w * 1.0 + x < 1.0 * n
  {
    assert n * n == (-(w + x)) * (-(w + x));
    SquaresOrder(n, -(w + x));
  }

  /** Exactly when every presented embedding is recognized, for every threshold a double can hold: the
      weight limit is not negative, or so small that no update lowers the winner's cosine. */
  lemma RecognizesIff(cfg: Config, norm: Vec -> real, dim: nat)
    requires IsNorm(norm) && cfg.Valid() && (cfg.threshold == 1.0 || cfg.threshold <= 1.0 - ROOM)
    ensures Recognizes(cfg, norm, dim) <==> StableWeights(cfg, dim)
  {
    if StableWeights(cfg, dim) {
      forall st, first, second | Presented(cfg, dim, st, first, second) ensures SameAgain(cfg, norm, st, first, second) {
        SameSpeakerAgain(cfg, norm, st, first, second);
      }
    } else {
      UnstableFails(cfg, norm, dim);
    }
  }

  // ---------------------------------------------------------------- when an assignment fails

  /** Thresholds above which no weighted sum can come close to zero: everything but the immediate
      neighbourhood of -1. */
  predicate Steady(threshold: real) {
    threshold >= 0.0 || 0.0025 * (1.0 - threshold * threshold) > TINY * TINY
  }

  /** The weighted sum with the winner's centroid has a direction, if the winner reaches the threshold. */
  ghost predicate Directed(cfg: Config, norm: Vec -> real, st: State<Vec>, r: Result)
    requires norm(r.embedding) > 0.0 && Fit(st, |r.embedding|)
  {
    var e := Normalized(norm, r.embedding);
    forall s :: Wins(st, r.key, e, s) && Cosine(st, r.key, s, e) >= cfg.threshold ==>
      norm(Blend(cfg, ProfileOf(st, r.key, s), e, r.quality)) > TINY
  }

  /** For every threshold and weight: an embedding of passing quality is assigned exactly when it has a
      direction and its weighted sum with the winner's centroid, if it comes to that, has one. */
  lemma AssignsIff(cfg: Config, norm: Vec -> real, st: State<Vec>, r: Result)
    requires IsNorm(norm) && Fit(st, |r.embedding|) && r.quality >= cfg.minQuality
    ensures Assign(cfg, norm, st, r).1.Assigned? <==> norm(r.embedding) > TINY && Directed(cfg, norm, st, r)
  {
    if norm(r.embedding) > TINY {
      if IdsOf(st.profiles, r.key) == {} {
        PlanOfEmpty(cfg, norm, st, r);
      } else {
        var s := PlanOfWinner(cfg, norm, st, r);
        DirectedAt(cfg, norm, st, r, s);
        PlanSucceedsIff(cfg, norm, ProfileOf(st, r.key, s), Cosine(st, r.key, s, Normalized(norm, r.embedding)), Normalized(norm, r.embedding), r);
        PlanAssigns(cfg, norm, st, r);
      }
    }
  }

  /** Only the winner matters. */
  lemma DirectedAt(cfg: Config, norm: Vec -> real, st: State<Vec>, r: Result, s: string)
    requires norm(r.embedding) > 0.0 && Fit(st, |r.embedding|) && Wins(st, r.key, Normalized(norm, r.embedding), s)
    ensures var e := Normalized(norm, r.embedding);
            |ProfileOf(st, r.key, s).centroid| == |e|
            && (Directed(cfg, norm, st, r)
                <==> (Cosine(st, r.key, s, e) >= cfg.threshold ==> norm(Blend(cfg, ProfileOf(st, r.key, s), e, r.quality)) > TINY))
  {
    var e := Normalized(norm, r.embedding);
    assert FitProfile(ProfileOf(st, r.key, s), |e|);
    forall t | Wins(st, r.key, e, t) ensures t == s { WinnerUnique(st, r.key, e, s, t); }
  }

  lemma PlanSucceedsIff(cfg: Config, norm: Vec -> real, p: Profile<Vec>, score: real, e: Vec, r: Result)
    requires |p.centroid| == |e|
    ensures PlanAt(cfg, norm, p, score, e, r).Abort? <==> score >= cfg.threshold && norm(Blend(cfg, p, e, r.quality)) <= TINY
  {
  }

  /** An assignment fails exactly when its plan is to abort. */
  lemma PlanAssigns(cfg: Config, norm: Vec -> real, st: State<Vec>, r: Result)
    requires IsNorm(norm) && Fit(st, |r.embedding|) && r.quality >= cfg.minQuality && norm(r.embedding) > TINY
    requires IdsOf(st.profiles, r.key) != {}
    ensures Assign(cfg, norm, st, r).1.Failed? <==> PlanFor(cfg, norm, ListOf(st.profiles, r.key), r).Abort?
  {
    var s := PlanOfWinner(cfg, norm, st, r);
    assert st.profiles[(r.key.0, r.key.1, s)].IdOf() == (r.key.0, r.key.1, s);
  }

  /** With a steady threshold an embedding of passing quality is assigned exactly when it has a direction. */
  lemma SteadyAssigns(cfg: Config, norm: Vec -> real, st: State<Vec>, r: Result)
    requires IsNorm(norm) && cfg.maxWeight >= 0.0 && Steady(cfg.threshold) && Fit(st, |r.embedding|)
    requires r.quality >= cfg.minQuality
    ensures Assign(cfg, norm, st, r).1.Assigned? <==> norm(r.embedding) > TINY
  {
    AssignsIff(cfg, norm, st, r);
    if norm(r.embedding) > TINY {
      var e := Normalized(norm, r.embedding);
      NormalizedIsUnit(norm, r.embedding);
      forall s | Wins(st, r.key, e, s) && Cosine(st, r.key, s, e) >= cfg.threshold
        ensures norm(Blend(cfg, ProfileOf(st, r.key, s), e, r.quality)) > TINY
      {
        var p := ProfileOf(st, r.key, s);
        assert FitProfile(p, |e|);
        WeightsNonNegative(cfg, p);
        SumHasDirection(norm, p.centroid, e, ExistingWeight(cfg, p), Max(r.quality, 0.05), cfg.threshold);
      }
    }
  }

  lemma SumHasDirection(norm: Vec -> real, c: Vec, e: Vec, w: real, x: real, threshold: real)
    requires IsNorm(norm) && |c| == |e| && Unit(c) && Unit(e) && w >= 0.0 && x >= 0.05
    requires Steady(threshold) && Dot(c, e) >= threshold
    ensures norm(Plus(Scale(w, c), Scale(x, e))) > TINY
  {
    var s, p, n := SumNorm(norm, c, e, w, x);
    if s >= 0.0 {
      NoCancellation(norm, c, e, w, x);
    } else {
      CrossTerm(w, x, s);
      SquareBounds(s, threshold, x);
      assert n * n > TINY * TINY;
      if n < TINY { StrictSquares(n, TINY); }
    }
  }

  lemma SquareNonNegative(a: real)
    ensures a * a >= 0.0
  {
  }

  /** Completing the square. */
  lemma CrossTerm(w: real, x: real, s: real)
    ensures Squared(w, x, s) >= (x * x) * (1.0 - s * s)
  {
    var u := x * s;
    SquareNonNegative(w + u);
    assert (w + u) * (w + u) == w * w + 2.0 * (w * u) + u * u;
    assert w * u == x * (w * s);
    assert u * u == (x * x) * (s * s);
    assert (x * x) * (1.0 - s * s) == x * x - (x * x) * (s * s);
  }

  lemma SquareBounds(s: real, threshold: real, x: real)
    requires threshold <= s < 0.0 && x >= 0.05 && 0.0025 * (1.0 - threshold * threshold) > TINY * TINY
    ensures (x * x) * (1.0 - s * s) > TINY * TINY
  {
    if threshold < s { StrictSquares(-s, -threshold); }
    assert s * s <= threshold * threshold;
    if x > 0.05 { StrictSquares(0.05, x); }
    assert x * x >= 0.0025;
    ProductSign(x * x - 0.0025, 1.0 - s * s);
    assert (x * x - 0.0025) * (1.0 - s * s) == (x * x) * (1.0 - s * s) - 0.0025 * (1.0 - s * s);
  }

  /** At threshold -1 an embedding opposite to the only centroid, with equal weights, cancels it: the
      assignment fails although the embedding has a direction. */
  lemma OppositeCancels(norm: Vec -> real)
    requires IsNorm(norm)
    ensures var cfg := Config(-1.0, 0.2, 0.1, 20.0);
            var key := ("t", "s");
            var p := Profile("t", "s", "spk_001", [-1.0], 1, 0.5, 0, None);
            var st := State(map[p.IdOf() := p], map[key := 2]);
            var r := Result(key, 0, 10, [1.0], 0.5);
            cfg.Valid() && norm(r.embedding) > TINY && Assign(cfg, norm, st, r) == (st, Failed)
  {
    var cfg := Config(-1.0, 0.2, 0.1, 20.0);
    var key := ("t", "s");
    var p := Profile("t", "s", "spk_001", [-1.0], 1, 0.5, 0, None);
    var st := State(map[p.IdOf() := p], map[key := 2]);
    var r := Result(key, 0, 10, [1.0], 0.5);
    assert Unit([1.0]);
    NormalizeUnit(norm, [1.0]);
    OnlyOneListed(st, key, p);
    OppositeAborts(norm, cfg, p, r);
  }

  lemma OppositeAborts(norm: Vec -> real, cfg: Config, p: Profile<Vec>, r: Result)
    requires IsNorm(norm) && cfg == Config(-1.0, 0.2, 0.1, 20.0) && r.embedding == [1.0] && r.quality == 0.5
    requires p.centroid == [-1.0] && p.sampleCount == 1 && p.qualityEma == 0.5
    ensures PlanFor(cfg, norm, [p], r) == Abort
  {
    assert Unit([1.0]) && Unit([-1.0]);
    NormalizeUnit(norm, [1.0]);
    UnitScores(norm, p, [1.0], 1);
    assert Dot(p.centroid, [1.0]) == -1.0;
    ZeroNorm(norm);
    BlendCancels(cfg, p);
    assert Nearest(norm, [p], [1.0]) == 0;
  }

  lemma BlendCancels(cfg: Config, p: Profile<Vec>)
    requires p.centroid == [-1.0] && p.sampleCount == 1 && p.qualityEma == 0.5 && cfg.maxWeight == 20.0
    ensures Blend(cfg, p, [1.0], 0.5) == [0.0]
  {
    assert ExistingWeight(cfg, p) == 0.5;
    assert Scale(0.5, [-1.0]) == [-0.5] && Scale(0.5, [1.0]) == [0.5];
  }

  lemma ZeroNorm(norm: Vec -> real)
    requires IsNorm(norm)
    ensures norm([0.0]) == 0.0
  {
    var n := norm([0.0]);
    assert n * n == Dot([0.0], [0.0]);
    assert Dot([0.0], [0.0]) == 0.0;
    if n > 0.0 { StrictSquares(0.0, n); }
  }

  lemma OnlyOneListed(st: State<Vec>, key: Key, p: Profile<Vec>)
    requires st.profiles == map[p.IdOf() := p] && p.KeyOf() == key
    ensures ListOf(st.profiles, key) == [p]
  {
    var ids := IdsOf(st.profiles, key);
    assert p.speakerId in ids;
    assert ids == {p.speakerId};
    InOrderSorts(ids);
    ListingLists(st, key);
  }
}
