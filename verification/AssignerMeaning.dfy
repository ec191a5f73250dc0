/** What one assignment does, coordinate by coordinate and field by field. */
module AssignerMeaning {
  import opened Vectors
  import opened Wrappers
  import opened SpeakerIds
  import opened Store
  import opened Assigner
  import opened Recognition

  // ---------------------------------------------------------------- vectors by coordinates

  /** The sum of the first `n` products of coordinates. */
  function SumTo(a: Vec, b: Vec, n: nat): real
    requires n <= |a| == |b|
  {
    if n == 0 then 0.0 else SumTo(a, b, n - 1) + a[n - 1] * b[n - 1]
  }

  lemma {:induction false} SumSplits(a: Vec, b: Vec, n: nat)
    requires 0 < n <= |a| == |b|
    ensures SumTo(a, b, n) == a[0] * b[0] + SumTo(a[1..], b[1..], n - 1)
    decreases n
  {
    if n > 1 { SumSplits(a, b, n - 1); }
  }

  lemma {:induction false} DotIsSum(a: Vec, b: Vec)
    requires |a| == |b|
    ensures Dot(a, b) == SumTo(a, b, |a|)
    decreases |a|
  {
    if a != [] {
      DotIsSum(a[1..], b[1..]);
      SumSplits(a, b, |a|);
    }
  }

  lemma {:induction false} ScaleAt(k: real, a: Vec, i: nat)
    requires i < |a|
    ensures Scale(k, a)[i] == k * a[i]
  {
    if i > 0 { ScaleAt(k, a[1..], i - 1); }
  }

  lemma {:induction false} PlusAt(a: Vec, b: Vec, i: nat)
    requires i < |a| == |b|
    ensures Plus(a, b)[i] == a[i] + b[i]
  {
    if i > 0 { PlusAt(a[1..], b[1..], i - 1); }
  }

  /** `u` is `v` divided by its norm. */
  ghost predicate Directs(norm: Vec -> real, v: Vec, u: Vec) {
    |u| == |v| && forall i :: 0 <= i < |v| ==> u[i] * norm(v) == v[i]
  }

  lemma NormalizedDirects(norm: Vec -> real, v: Vec)
    requires norm(v) > 0.0
    ensures Directs(norm, v, Normalized(norm, v))
  {
    var n := norm(v);
    forall i: nat | i < |v| ensures Normalized(norm, v)[i] * n == v[i] {
      ScaleAt(1.0 / n, v, i);
      Undone(n, v[i], Normalized(norm, v)[i]);
    }
  }

  lemma Undone(n: real, y: real, u: real)
    requires n > 0.0 && u == (1.0 / n) * y
    ensures u * n == y
  {
    var k := 1.0 / n;
    assert k * n == 1.0;
    assert (k * y) * n == y * (k * n);
  }

  // ---------------------------------------------------------------- numbers

  predicate Lesser(a: real, b: real, m: real) { (m == a || m == b) && m <= a && m <= b }
  predicate Greater(a: real, b: real, m: real) { (m == a || m == b) && m >= a && m >= b }

  /** `r` is `q` held to [0, 1]. */
  predicate Held(q: real, r: real) {
    (q < 0.0 ==> r == 0.0) && (0.0 <= q <= 1.0 ==> r == q) && (q > 1.0 ==> r == 1.0)
  }

  // ---------------------------------------------------------------- the three ways out

  /** A result below the minimal quality is ignored: nothing is stored, and the segment names nobody. */
  lemma LowQualityIgnored(cfg: Config, norm: Vec -> real, st: State<Vec>, r: Result)
    requires r.quality < cfg.minQuality
    ensures Assign(cfg, norm, st, r) == (st, Assigned(Segment(r.key, r.startMs, r.endMs, "spk_unknown", r.quality)))
  {
  }

  /** An embedding without direction raises, and nothing is stored. */
  lemma NoDirectionFails(cfg: Config, norm: Vec -> real, st: State<Vec>, r: Result)
    requires r.quality >= cfg.minQuality && norm(r.embedding) <= 0.000000000001
    ensures Assign(cfg, norm, st, r) == (st, Failed)
  {
  }

  /** A profile deleted since it was read is not written back: the update raises. */
  lemma DeletedMeanwhile(st: State<Vec>, r: Result, p: Profile<Vec>, score: real)
    requires (p.tenant, p.session, p.speakerId) !in st.profiles
    ensures Commit(st, r, Replace(p, score)) == (st, Failed)
  {
  }

  /** With every cosine of the session below the threshold the next speaker is created from the embedding. */
  lemma NewSpeaker(cfg: Config, norm: Vec -> real, st: State<Vec>, r: Result)
    requires IsNorm(norm) && Fit(st, |r.embedding|) && r.quality >= cfg.minQuality && norm(r.embedding) > 0.000000000001
    requires forall s :: s in IdsOf(st.profiles, r.key) ==> Cosine(st, r.key, s, Normalized(norm, r.embedding)) < cfg.threshold
    ensures var (t, out) := Assign(cfg, norm, st, r);
            var n := if r.key in st.nextIds then st.nextIds[r.key] else 1;
            var id := (r.key.0, r.key.1, SpeakerId(n));
            id !in st.profiles && t.nextIds == st.nextIds[r.key := n + 1]
            && (forall other :: other in t.profiles && other != id ==> other in st.profiles && t.profiles[other] == st.profiles[other])
            && (forall other :: other in st.profiles ==> other in t.profiles)
            && id in t.profiles
            && (var p := t.profiles[id];
                p.IdOf() == id && Directs(norm, r.embedding, p.centroid) && p.sampleCount == 1 && p.qualityEma == r.quality
                && p.lastActiveMs == r.endMs && p.displayName == None)
            && out.Assigned? && out.segment.key == r.key && out.segment.startMs == r.startMs && out.segment.endMs == r.endMs
            && out.segment.speakerId == SpeakerId(n) && Held(r.quality, out.segment.confidence)
  {
    NewIdIsFresh(st, r.key);
    NormalizedDirects(norm, r.embedding);
    if IdsOf(st.profiles, r.key) == {} { PlanOfEmpty(cfg, norm, st, r); } else { var s := PlanOfWinner(cfg, norm, st, r); }
  }

  /** A profile after absorbing an embedding: the centroid is the direction of the sum, by coordinates, of the
      old one weighted by its samples (at most the limit) times its average quality and the embedding weighted
      by its own quality, neither quality below 0.05. */
  ghost predicate Absorbed(cfg: Config, norm: Vec -> real, p: Profile<Vec>, e: Vec, quality: real, at: int, v: Vec, q: Profile<Vec>) {
    && Summed(cfg, p, e, quality, v) && Directs(norm, v, q.centroid)
    && q.IdOf() == p.IdOf() && q.displayName == p.displayName
    && q.sampleCount == p.sampleCount + 1 && q.lastActiveMs == at
    && q.qualityEma - p.qualityEma == cfg.alpha * (quality - p.qualityEma)
  }

  ghost predicate Summed(cfg: Config, p: Profile<Vec>, e: Vec, quality: real, v: Vec) {
    exists w, x :: Weights(cfg, p, quality, w, x) && Weighted(w, p.centroid, x, e, v)
  }

  ghost predicate Weights(cfg: Config, p: Profile<Vec>, quality: real, w: real, x: real) {
    && Greater(quality, 0.05, x)
    && exists m, k :: SampleWeight(cfg, p, m) && QualityWeight(p, k) && w == m * k
  }

  predicate SampleWeight(cfg: Config, p: Profile<Vec>, m: real) { Lesser(p.sampleCount as real, cfg.maxWeight, m) }
  predicate QualityWeight(p: Profile<Vec>, k: real) { Greater(p.qualityEma, 0.05, k) }

  ghost predicate Weighted(w: real, c: Vec, x: real, e: Vec, v: Vec) {
    |v| == |c| == |e| && forall i :: 0 <= i < |v| ==> v[i] == w * c[i] + x * e[i]
  }

  lemma BlendSums(cfg: Config, p: Profile<Vec>, e: Vec, quality: real)
    requires |p.centroid| == |e|
    ensures Summed(cfg, p, e, quality, Blend(cfg, p, e, quality))
  {
    var w, x := ExistingWeight(cfg, p), Max(quality, 0.05);
    SumWeighted(w, p.centroid, x, e);
    WeightsAre(cfg, p, quality);
    assert Weights(cfg, p, quality, w, x);
  }

  lemma WeightsAre(cfg: Config, p: Profile<Vec>, quality: real)
    ensures Weights(cfg, p, quality, ExistingWeight(cfg, p), Max(quality, 0.05))
  {
    var m, k := Min(p.sampleCount as real, cfg.maxWeight), Max(p.qualityEma, 0.05);
    assert SampleWeight(cfg, p, m) && QualityWeight(p, k);
  }

  lemma SumWeighted(w: real, c: Vec, x: real, e: Vec)
    requires |c| == |e|
    ensures Weighted(w, c, x, e, Plus(Scale(w, c), Scale(x, e)))
  {
    var v := Plus(Scale(w, c), Scale(x, e));
    forall i: nat | i < |v| ensures v[i] == w * c[i] + x * e[i] {
      PlusAt(Scale(w, c), Scale(x, e), i);
      ScaleAt(w, c, i);
      ScaleAt(x, e, i);
    }
  }

  lemma EmaMoves(alpha: real, before: real, next: real)
    ensures Average(alpha, before, next) - before == alpha * (next - before)
  {
  }

  lemma UpdateAbsorbs(cfg: Config, norm: Vec -> real, p: Profile<Vec>, e: Vec, quality: real, at: int)
    requires |p.centroid| == |e|
    ensures var (v, q) := (Blend(cfg, p, e, quality), Updated(cfg, norm, p, e, quality, at));
            Summed(cfg, p, e, quality, v) && (q == None <==> norm(v) <= 0.000000000001)
            && (q.Some? ==> Absorbed(cfg, norm, p, e, quality, at, v, q.value))
  {
    var v := Blend(cfg, p, e, quality);
    BlendSums(cfg, p, e, quality);
    EmaMoves(cfg.alpha, p.qualityEma, quality);
    if norm(v) > 0.000000000001 { NormalizedDirects(norm, v); }
  }

  /** Otherwise the winner absorbs the embedding, unless the sum has no direction, which raises. */
  lemma KnownSpeaker(cfg: Config, norm: Vec -> real, st: State<Vec>, r: Result, s: string) returns (v: Vec)
    requires IsNorm(norm) && Fit(st, |r.embedding|) && r.quality >= cfg.minQuality && norm(r.embedding) > 0.000000000001
    requires var e := Normalized(norm, r.embedding);
             Wins(st, r.key, e, s) && Cosine(st, r.key, s, e) >= cfg.threshold
    ensures var e := Normalized(norm, r.embedding);
            var (t, out) := Assign(cfg, norm, st, r);
            Directs(norm, r.embedding, e) && Summed(cfg, ProfileOf(st, r.key, s), e, r.quality, v)
            && (norm(v) <= 0.000000000001 ==> t == st && out == Failed)
            && (norm(v) > 0.000000000001 ==>
                  (t.nextIds == st.nextIds && t.profiles.Keys == st.profiles.Keys
                   && (forall other :: other in st.profiles && other != (r.key.0, r.key.1, s) ==> t.profiles[other] == st.profiles[other])
                   && Absorbed(cfg, norm, ProfileOf(st, r.key, s), e, r.quality, r.endMs, v, t.profiles[(r.key.0, r.key.1, s)])
                   && out.Assigned? && out.segment.key == r.key && out.segment.startMs == r.startMs && out.segment.endMs == r.endMs
                   && out.segment.speakerId == s && Held(Cosine(st, r.key, s, e), out.segment.confidence)))
  {
    var e := Normalized(norm, r.embedding);
    var u := PlanOfWinner(cfg, norm, st, r);
    WinnerUnique(st, r.key, e, s, u);
    NormalizedDirects(norm, r.embedding);
    var p := ProfileOf(st, r.key, s);
    assert p.IdOf() == (r.key.0, r.key.1, s);
    UpdateAbsorbs(cfg, norm, p, e, r.quality, r.endMs);
    v := Blend(cfg, p, e, r.quality);
  }
}
