/** What the streaming frontend does, in terms of samples, ratios and times: which windows become chunks and
    what is in them, what a flush emits, which packets are refused, what an epoch change and an overlap do. */
module FrontendMeaning {
  import opened Arithmetic
  import opened Sequences
  import opened Wrappers
  import opened Frontend
  import opened FrontendRuns

  // ---------------------------------------------------------------- which windows become chunks

  /** Chunk `c` carries window `w`: its time range, its features and its speech ratio. */
  ghost predicate Carries<S>(cfg: Config<S>, c: FeatureChunk, w: Window<S>) {
    && c.startMs == w.startMs && c.endMs == w.startMs + cfg.windowMs
    && c.features == cfg.extract(w.samples) && c.speechRatio == cfg.speechRatio(w.samples)
  }

  /** The chunks are, in order, those of exactly the windows whose speech ratio reaches the minimum; `at`
      says which. */
  ghost predicate EmittedFrom<S>(cfg: Config<S>, ws: seq<Window<S>>, cs: seq<FeatureChunk>, at: seq<nat>) {
    && |at| == |cs|
    && (forall k :: 0 <= k < |at| ==> at[k] < |ws| && Carries(cfg, cs[k], ws[at[k]]))
    && (forall k, l :: 0 <= k < l < |at| ==> at[k] < at[l])
    && (forall j: nat :: j < |ws| ==> (j in at <==> cfg.speechRatio(ws[j].samples) >= cfg.minSpeechRatio))
  }

  function Moved(at: seq<nat>, shift: nat): (r: seq<nat>)
    ensures |r| == |at| && forall k :: 0 <= k < |at| ==> r[k] == at[k] + shift
  {
    seq(|at|, k requires 0 <= k < |at| => at[k] + shift)
  }

  lemma MovedIn(at: seq<nat>, shift: nat, j: nat)
    ensures j in Moved(at, shift) <==> j >= shift && j - shift in at
  {
    if j >= shift && j - shift in at {
      var k :| 0 <= k < |at| && at[k] == j - shift;
      assert Moved(at, shift)[k] == j;
    }
  }

  /** Windows in two parts emit the chunks of both. */
  lemma EmittedAppend<S>(cfg: Config<S>, ws: seq<Window<S>>, cs: seq<FeatureChunk>, at: seq<nat>,
                         vs: seq<Window<S>>, ds: seq<FeatureChunk>, bt: seq<nat>)
    requires EmittedFrom(cfg, ws, cs, at) && EmittedFrom(cfg, vs, ds, bt)
    ensures EmittedFrom(cfg, ws + vs, cs + ds, at + Moved(bt, |ws|))
  {
    var all, to := ws + vs, at + Moved(bt, |ws|);
    forall j: nat | j < |all| ensures j in to <==> cfg.speechRatio(all[j].samples) >= cfg.minSpeechRatio {
      MovedIn(bt, |ws|, j);
      if j < |ws| { assert all[j] == ws[j]; } else { assert all[j] == vs[j - |ws|] && j !in at; }
    }
    forall k | 0 <= k < |to| ensures to[k] < |all| && Carries(cfg, (cs + ds)[k], all[to[k]]) {
      if k < |at| { assert to[k] == at[k]; } else { assert to[k] == bt[k - |at|] + |ws|; }
    }
  }

  lemma SpokenFirst<S>(cfg: Config<S>, w: Window<S>, c: FeatureChunk, vs: seq<Window<S>>, ds: seq<FeatureChunk>, bt: seq<nat>)
    requires EmittedFrom(cfg, vs, ds, bt) && Carries(cfg, c, w) && cfg.speechRatio(w.samples) >= cfg.minSpeechRatio
    ensures EmittedFrom(cfg, [w] + vs, [c] + ds, [0] + Moved(bt, 1))
  {
    EmittedAppend(cfg, [w], [c], [0], vs, ds, bt);
  }

  lemma SilentFirst<S>(cfg: Config<S>, w: Window<S>, vs: seq<Window<S>>, ds: seq<FeatureChunk>, bt: seq<nat>)
    requires EmittedFrom(cfg, vs, ds, bt) && !(cfg.speechRatio(w.samples) >= cfg.minSpeechRatio)
    ensures EmittedFrom(cfg, [w] + vs, ds, Moved(bt, 1))
  {
    var ws, at := [w] + vs, Moved(bt, 1);
    forall j: nat | j < |ws| ensures j in at <==> cfg.speechRatio(ws[j].samples) >= cfg.minSpeechRatio { MovedIn(bt, 1, j); }
  }

  /** The chunks of windows, in terms of the first. */
  lemma FirstChunk<S>(cfg: Config<S>, key: Key, epoch: nat, index: nat, w: Window<S>, vs: seq<Window<S>>)
    ensures Chunks(cfg, key, epoch, index, [w] + vs)
         == if cfg.speechRatio(w.samples) >= cfg.minSpeechRatio
            then [ChunkOf(cfg, key, epoch, index, w)] + Chunks(cfg, key, epoch, index + 1, vs)
            else Chunks(cfg, key, epoch, index, vs)
  {
    assert ([w] + vs)[1..] == vs;
  }

  lemma {:induction false} ChunksEmitted<S>(cfg: Config<S>, key: Key, epoch: nat, index: nat, ws: seq<Window<S>>) returns (at: seq<nat>)
    ensures EmittedFrom(cfg, ws, Chunks(cfg, key, epoch, index, ws), at)
    decreases |ws|
  {
    at := [];
    if ws != [] {
      var w, vs := ws[0], ws[1..];
      assert ws == [w] + vs;
      FirstChunk(cfg, key, epoch, index, w, vs);
      if cfg.speechRatio(w.samples) >= cfg.minSpeechRatio {
        var rest := ChunksEmitted(cfg, key, epoch, index + 1, vs);
        SpokenFirst(cfg, w, ChunkOf(cfg, key, epoch, index, w), vs, Chunks(cfg, key, epoch, index + 1, vs), rest);
        at := [0] + Moved(rest, 1);
      } else {
        var rest := ChunksEmitted(cfg, key, epoch, index, vs);
        SilentFirst(cfg, w, vs, Chunks(cfg, key, epoch, index, vs), rest);
        at := Moved(rest, 1);
      }
    }
  }

  /** The chunks are numbered on. */
  lemma {:induction false} ChunksNumbered<S>(cfg: Config<S>, key: Key, epoch: nat, index: nat, ws: seq<Window<S>>)
    ensures var cs := Chunks(cfg, key, epoch, index, ws);
            forall k :: 0 <= k < |cs| ==> (cs[k].key == key && cs[k].epoch == epoch && cs[k].index == index + k)
    decreases |ws|
  {
    if ws != [] {
      var spoken := cfg.speechRatio(ws[0].samples) >= cfg.minSpeechRatio;
      var cs, rest := Chunks(cfg, key, epoch, index, ws), Chunks(cfg, key, epoch, if spoken then index + 1 else index, ws[1..]);
      assert ws == [ws[0]] + ws[1..];
      FirstChunk(cfg, key, epoch, index, ws[0], ws[1..]);
      ChunksNumbered(cfg, key, epoch, if spoken then index + 1 else index, ws[1..]);
      forall k | 0 <= k < |cs| ensures cs[k].key == key && cs[k].epoch == epoch && cs[k].index == index + k {
        if !spoken { assert cs[k] == rest[k]; } else if k > 0 { assert cs[k] == rest[k - 1]; }
      }
    }
  }

  /** One packet emits, in order and numbered on, the chunks of exactly the examined windows with speech. */
  lemma PushEmits<S>(cfg: Config<S>, before: Option<Stream<S>>, chunk: AudioChunk<S>) returns (at: seq<nat>)
    requires cfg.sampleRate > 0 && Returns(cfg, before, chunk)
    ensures var p := Push(cfg, before, chunk);
            EmittedFrom(cfg, p.windows, p.chunks, at)
            && forall k :: 0 <= k < |p.chunks| ==>
                 (p.chunks[k].key == chunk.KeyOf() && p.chunks[k].epoch == p.state.epoch
                  && p.chunks[k].index + |p.chunks| == p.state.emitted + k)
  {
    var p, st := Push(cfg, before, chunk), Entered(before, chunk);
    at := [];
    if !Redundant(cfg, st, chunk) {
      var j := Joined(cfg, st, chunk);
      at := ChunksEmitted(cfg, chunk.KeyOf(), j.epoch, j.emitted, p.windows);
      ChunksNumbered(cfg, chunk.KeyOf(), j.epoch, j.emitted, p.windows);
      assert p.chunks == Chunks(cfg, chunk.KeyOf(), j.epoch, j.emitted, p.windows);
    }
  }

  /** And so do any number of packets. */
  lemma {:induction false} PushAllEmits<S>(cfg: Config<S>, st: Stream<S>, ps: seq<AudioChunk<S>>) returns (at: seq<nat>)
    requires cfg.sampleRate > 0 && cfg.Cuts()
    ensures var p := PushAll(cfg, st, ps); EmittedFrom(cfg, p.windows, p.chunks, at)
    decreases |ps|
  {
    at := [];
    if ps != [] {
      var p := Push(cfg, Some(st), ps[0]);
      var first := PushEmits(cfg, Some(st), ps[0]);
      var rest := PushAllEmits(cfg, p.state, ps[1..]);
      var more := PushAll(cfg, p.state, ps[1..]);
      EmittedAppend(cfg, p.windows, p.chunks, first, more.windows, more.chunks, rest);
      at := first + Moved(rest, |p.windows|);
    }
  }

  // ---------------------------------------------------------------- rounding

  /** `e` is the integer nearest to n / d, the even one of two. */
  predicate Nearest(n: int, d: int, e: int) {
    2 * n - d <= 2 * (e * d) <= 2 * n + d && ((2 * (e * d) == 2 * n - d || 2 * (e * d) == 2 * n + d) ==> e % 2 == 0)
  }

  lemma RoundIsNearest(n: int, d: int)
    requires d > 0
    ensures Nearest(n, d, RoundDiv(n, d))
  {
    var q, r := n / d, n % d;
    assert n == q * d + r;
    assert (q + 1) * d == q * d + d;
  }

  /** Audio seen before is cut off to the nearest sample. */
  lemma OverlapIsNearest<S>(cfg: Config<S>, st: Stream<S>, chunk: AudioChunk<S>)
    requires cfg.sampleRate > 0 && chunk.startMs < st.expectedEndMs
    ensures Nearest((st.expectedEndMs - chunk.startMs) * cfg.sampleRate, 1000, OverlapSamples(cfg, st, chunk))
  {
    assert st.expectedEndMs - chunk.startMs == -Gap(st, chunk);
    RoundIsNearest(-Gap(st, chunk) * cfg.sampleRate, 1000);
  }

  // ---------------------------------------------------------------- packets refused

  /** A packet passes exactly when it has the configured rate and its sample count differs from the nearest
      to its duration by at most two samples or two per cent. */
  lemma CheckMeans<S>(cfg: Config<S>, chunk: AudioChunk<S>) returns (expected: int)
    requires chunk.sampleRate > 0 && chunk.endMs > chunk.startMs
    ensures Nearest((chunk.endMs - chunk.startMs) * chunk.sampleRate, 1000, expected)
    ensures Check(cfg, chunk) == None
       <==> chunk.sampleRate == cfg.sampleRate
            && (-2 <= |chunk.samples| - expected <= 2 || -expected <= 50 * (|chunk.samples| - expected) <= expected)
    ensures Check(cfg, chunk) == Some(WrongRate) <==> chunk.sampleRate != cfg.sampleRate
  {
    var n := (chunk.endMs - chunk.startMs) * chunk.sampleRate;
    expected := RoundDiv(n, 1000);
    RoundIsNearest(n, 1000);
    MulMono(1, chunk.endMs - chunk.startMs, chunk.sampleRate);
    var off := Abs(|chunk.samples| - expected);
    assert expected >= 0;
    assert off > Tolerance(expected) <==> off > 2 && 50 * off > expected;
  }

  // ---------------------------------------------------------------- epochs and flush

  /** A packet of another epoch starts the session afresh, as if nothing had been received. */
  lemma EpochRestarts<S>(cfg: Config<S>, st: Stream<S>, chunk: AudioChunk<S>)
    requires cfg.sampleRate > 0 && chunk.epoch != st.epoch && Returns(cfg, None, chunk)
    ensures Returns(cfg, Some(st), chunk) && Push(cfg, Some(st), chunk) == Push(cfg, None, chunk)
  {
  }

  /** The first packet of an epoch is buffered from its own start. */
  lemma FirstIsBuffered<S>(cfg: Config<S>, chunk: AudioChunk<S>)
    requires cfg.Valid() && chunk.endMs > chunk.startMs && cfg.Ends(|chunk.samples|)
    ensures Returns(cfg, None, chunk)
    ensures var p := Push(cfg, None, chunk);
            p.windows == Windows(cfg, chunk.samples, chunk.startMs) && p.state.audio == Leftover(cfg, chunk.samples)
            && p.state.epoch == chunk.epoch && p.state.expectedEndMs == chunk.endMs
            && p.state.baseMs == chunk.startMs + |p.windows| * cfg.hopMs && p.state.emitted == |p.chunks|
  {
    assert [] + chunk.samples == chunk.samples;
  }

  /** The later of two ends. */
  predicate Later(a: int, b: int, e: int) { (e == a || e == b) && e >= a && e >= b }

  /** The packet's audio is windowed as `audio` from `baseMs` on; what is left stays buffered. */
  ghost predicate Windowed<S>(cfg: Config<S>, st: Stream<S>, chunk: AudioChunk<S>, audio: seq<S>, baseMs: int, p: Pushed<S>) {
    && cfg.Ends(|audio|) && p.windows == Windows(cfg, audio, baseMs) && p.state.audio == Leftover(cfg, audio)
    && p.state.baseMs == baseMs + |p.windows| * cfg.hopMs && p.state.emitted == st.emitted + |p.chunks|
    && p.state.epoch == st.epoch && Later(st.expectedEndMs, chunk.endMs, p.state.expectedEndMs)
  }

  /** A further packet of the epoch: after a gap above one frame its audio replaces what is buffered, after a
      smaller one it follows that; of audio that overlaps what was received the `n` samples nearest to the
      overlap are dropped first, and a packet with no more than those changes nothing. */
  lemma PushMeans<S>(cfg: Config<S>, st: Stream<S>, chunk: AudioChunk<S>, n: int)
    requires cfg.Valid() && chunk.epoch == st.epoch && Returns(cfg, Some(st), chunk)
    requires Nearest((st.expectedEndMs - chunk.startMs) * cfg.sampleRate, 1000, n)
    ensures var p := Push(cfg, Some(st), chunk);
            if chunk.startMs > st.expectedEndMs + cfg.frameMs then Windowed(cfg, st, chunk, chunk.samples, chunk.startMs, p)
            else if chunk.startMs >= st.expectedEndMs then Windowed(cfg, st, chunk, st.audio + chunk.samples, st.baseMs, p)
            else if n >= |chunk.samples| then p == Pushed(st, [], [])
            else 0 <= n && Windowed(cfg, st, chunk, st.audio + chunk.samples[n..], st.baseMs, p)
  {
    if chunk.startMs < st.expectedEndMs {
      OverlapIsNearest(cfg, st, chunk);
      NearestUnique((st.expectedEndMs - chunk.startMs) * cfg.sampleRate, 1000, n, OverlapSamples(cfg, st, chunk));
    }
  }

  lemma NearestUnique(n: int, d: int, e: int, f: int)
    requires d > 0 && Nearest(n, d, e) && Nearest(n, d, f)
    ensures e == f
  {
    NotAbove(n, d, e, f);
    NotAbove(n, d, f, e);
  }

  lemma NotAbove(n: int, d: int, e: int, f: int)
    requires d > 0 && Nearest(n, d, e) && Nearest(n, d, f)
    ensures f <= e
  {
    if f > e {
      assert (f - e) * d == f * d - e * d;
      MulMono(if f == e + 1 then 1 else 2, f - e, d);
    }
  }

  /** A flush emits the buffered audio exactly when it holds at least 300 ms and a filter bank frame, and
      enough speech; the chunk starts at the buffer's base and lasts as long as its samples. */
  lemma FlushMeans<S>(cfg: Config<S>, key: Key, st: Stream<S>)
    requires cfg.sampleRate > 0
    ensures var cs := Flushed(cfg, key, st);
            if |st.audio| >= cfg.fbankFrameSamples && 1000 * (|st.audio| + 1) > 300 * cfg.sampleRate
               && cfg.speechRatio(st.audio) >= cfg.minSpeechRatio
            then |cs| == 1 && cs[0].key == key && cs[0].epoch == st.epoch && cs[0].index == st.emitted
                 && cs[0].startMs == st.baseMs && Nearest(1000 * |st.audio|, cfg.sampleRate, cs[0].endMs - cs[0].startMs)
                 && cs[0].features == cfg.extract(st.audio) && cs[0].speechRatio == cfg.speechRatio(st.audio)
            else cs == []
  {
    RoundIsNearest(|st.audio| * 1000, cfg.sampleRate);
  }
}
