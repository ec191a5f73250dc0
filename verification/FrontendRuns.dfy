/** What streaming window assembly promises over whole streams: independence of packetization,
    the closed form of the windows, termination, and the timing invariant. */
module FrontendRuns {
  import opened Arithmetic
  import opened Sequences
  import opened Wrappers
  import opened Frontend

  // ---------------------------------------------------------------- the loop as windowing

  /** How many windows fit in `n` samples. */
  function WindowCount<S>(cfg: Config<S>, n: nat): nat
    requires cfg.Cuts()
  {
    if n < cfg.windowSamples then 0 else (n - cfg.windowSamples) / cfg.hopSamples + 1
  }

  lemma CountStep(n: nat, w: nat, h: nat)
    requires n >= w >= h > 0
    ensures (n - w) / h + 1 == (if n - h < w then 0 else (n - h - w) / h + 1) + 1
  {
    if n - h >= w { DivStep(n - h - w, h); } else { DivSmall(n - w, h); }
  }

  lemma {:induction false} WindowsCount<S>(cfg: Config<S>, signal: seq<S>, baseMs: int)
    requires cfg.Cuts()
    ensures |Windows(cfg, signal, baseMs)| == WindowCount(cfg, |signal|)
    decreases |signal|
  {
    if |signal| >= cfg.windowSamples {
      WindowsCount(cfg, signal[cfg.hopSamples..], baseMs + cfg.hopMs);
      CountStep(|signal|, cfg.windowSamples, cfg.hopSamples);
    }
  }

  lemma SliceOfTail<S>(signal: seq<S>, h: nat, at: int, n: nat)
    requires h <= |signal| && 0 <= at && at + n <= |signal| - h
    ensures signal[h..][at..at + n] == signal[at + h..at + h + n]
  {
  }

  lemma {:induction false} WindowAt<S>(cfg: Config<S>, signal: seq<S>, baseMs: int, k: nat)
    requires cfg.Cuts() && k < |Windows(cfg, signal, baseMs)|
    ensures var at := k * cfg.hopSamples;
            && 0 <= at && at + cfg.windowSamples <= |signal|
            && Windows(cfg, signal, baseMs)[k]
                 == Window(baseMs + k * cfg.hopMs, signal[at..at + cfg.windowSamples])
    decreases k
  {
    var h := cfg.hopSamples;
    if k > 0 {
      var tail, j := signal[h..], k - 1;
      WindowAt(cfg, tail, baseMs + cfg.hopMs, j);
      SuccTimes(j, h);
      SuccTimes(j, cfg.hopMs);
      SliceOfTail(signal, h, j * h, cfg.windowSamples);
    }
  }

  lemma {:induction false} LeftoverIsSuffix<S>(cfg: Config<S>, signal: seq<S>, baseMs: int)
    requires cfg.Cuts()
    ensures var at := |Windows(cfg, signal, baseMs)| * cfg.hopSamples;
            0 <= at <= |signal| && Leftover(cfg, signal) == signal[at..]
    decreases |signal|
  {
    var h := cfg.hopSamples;
    if |signal| >= cfg.windowSamples {
      var tail := signal[h..];
      var n := |Windows(cfg, tail, baseMs + cfg.hopMs)|;
      LeftoverIsSuffix(cfg, tail, baseMs + cfg.hopMs);
      SuccTimes(n, h);
      assert tail[n * h..] == signal[(n + 1) * h..];
    }
  }

  /** Closed form: the examined windows are exactly the slices [kH, kH + W) that fit, and what
      stays buffered is the suffix after the last hop, shorter than a window. */
  lemma WindowsClosedForm<S>(cfg: Config<S>, signal: seq<S>, baseMs: int)
    requires cfg.Cuts()
    ensures var (w, h, ws) := (cfg.windowSamples, cfg.hopSamples, Windows(cfg, signal, baseMs));
            && |ws| == WindowCount(cfg, |signal|)
            && (forall k :: 0 <= k < |ws| ==> 0 <= k * h && k * h + w <= |signal|)
            && (forall k :: 0 <= k < |ws| ==> ws[k] == Window(baseMs + k * cfg.hopMs, signal[k * h..k * h + w]))
            && 0 <= |ws| * h <= |signal| && Leftover(cfg, signal) == signal[|ws| * h..]
            && |Leftover(cfg, signal)| < w
  {
    WindowsCount(cfg, signal, baseMs);
    LeftoverIsSuffix(cfg, signal, baseMs);
    forall k | 0 <= k < |Windows(cfg, signal, baseMs)|
      ensures 0 <= k * cfg.hopSamples && k * cfg.hopSamples + cfg.windowSamples <= |signal|
      ensures Windows(cfg, signal, baseMs)[k]
           == Window(baseMs + k * cfg.hopMs, signal[k * cfg.hopSamples..k * cfg.hopSamples + cfg.windowSamples])
    {
      WindowAt(cfg, signal, baseMs, k);
    }
  }

  lemma SlicesOfSum<S>(a: seq<S>, b: seq<S>, w: nat, h: nat)
    requires h <= w <= |a|
    ensures (a + b)[..w] == a[..w] && (a + b)[h..] == a[h..] + b
  {
  }

  lemma {:induction false} WindowsAppend<S>(cfg: Config<S>, a: seq<S>, b: seq<S>, baseMs: int)
    requires cfg.Cuts()
    ensures var before := Windows(cfg, a, baseMs);
            && Windows(cfg, a + b, baseMs)
                 == before + Windows(cfg, Leftover(cfg, a) + b, baseMs + |before| * cfg.hopMs)
            && Leftover(cfg, a + b) == Leftover(cfg, Leftover(cfg, a) + b)
    decreases |a|
  {
    if |a| >= cfg.windowSamples {
      var (w, h) := (cfg.windowSamples, cfg.hopSamples);
      SlicesOfSum(a, b, w, h);
      WindowsAppend(cfg, a[h..], b, baseMs + cfg.hopMs);
      var rest := Windows(cfg, a[h..], baseMs + cfg.hopMs);
      SuccTimes(|rest|, cfg.hopMs);
      WindowsUnfold(cfg, a, baseMs);
      WindowsUnfold(cfg, a + b, baseMs);
      Associate([Window(baseMs, a[..w])], rest, Windows(cfg, Leftover(cfg, a) + b, (baseMs + cfg.hopMs) + |rest| * cfg.hopMs));
    }
  }

  lemma {:induction false} ChunksAppend<S>(cfg: Config<S>, key: Key, epoch: nat, index: nat, a: seq<Window<S>>, b: seq<Window<S>>)
    ensures var first := Chunks(cfg, key, epoch, index, a);
            Chunks(cfg, key, epoch, index, a + b) == first + Chunks(cfg, key, epoch, index + |first|, b)
    decreases |a|
  {
    if a == [] {
      assert a + b == b;
    } else {
      assert (a + b)[1..] == a[1..] + b;
      ChunksAppend(cfg, key, epoch, if Speech(cfg, a[0]) then index + 1 else index, a[1..], b);
    }
  }

  // ---------------------------------------------------------------- packetization independence

  /** Packets of one session and epoch, each starting where the audio so far ends. */
  ghost predicate Contiguous<S>(cfg: Config<S>, key: Key, epoch: nat, endMs: int, ps: seq<AudioChunk<S>>)
    decreases |ps|
  {
    ps != [] ==>
      && ps[0].KeyOf() == key && ps[0].epoch == epoch && ps[0].startMs == endMs
      && ps[0].endMs > ps[0].startMs && Check(cfg, ps[0]).None?
      && Contiguous(cfg, key, epoch, ps[0].endMs, ps[1..])
  }

  function Signal<S>(ps: seq<AudioChunk<S>>): seq<S> {
    if ps == [] then [] else ps[0].samples + Signal(ps[1..])
  }

  function EndOf<S>(endMs: int, ps: seq<AudioChunk<S>>): int
    decreases |ps|
  {
    if ps == [] then endMs else EndOf(ps[0].endMs, ps[1..])
  }

  /** All packets pushed in turn: the windows and chunks of the whole sequence. */
  function PushAll<S>(cfg: Config<S>, st: Stream<S>, ps: seq<AudioChunk<S>>): Pushed<S>
    requires cfg.sampleRate > 0 && cfg.Cuts()
    decreases |ps|
  {
    if ps == [] then Pushed(st, [], [])
    else
      var p := Push(cfg, Some(st), ps[0]);
      var more := PushAll(cfg, p.state, ps[1..]);
      Pushed(more.state, p.windows + more.windows, p.chunks + more.chunks)
  }

  /** Windows, chunks and stream state of a buffer `audio` cut at once. */
  function CutAll<S>(cfg: Config<S>, key: Key, st: Stream<S>, audio: seq<S>, endMs: int): Pushed<S>
    requires cfg.Cuts()
  {
    var ws := Windows(cfg, audio, st.baseMs);
    Pushed(Cut(cfg, key, st.(audio := audio, expectedEndMs := endMs)), ws, Chunks(cfg, key, st.epoch, st.emitted, ws))
  }

  lemma ContiguousPush<S>(cfg: Config<S>, st: Stream<S>, chunk: AudioChunk<S>)
    requires cfg.Valid() && cfg.Cuts()
    requires chunk.epoch == st.epoch && chunk.startMs == st.expectedEndMs < chunk.endMs
    ensures Push(cfg, Some(st), chunk) == CutAll(cfg, chunk.KeyOf(), st, st.audio + chunk.samples, chunk.endMs)
  {
  }

  /** Cutting `a`, then what is left together with `b`, is cutting `a + b`. */
  lemma CutTwice<S>(cfg: Config<S>, key: Key, st: Stream<S>, a: seq<S>, b: seq<S>, mid: int, end: int)
    requires cfg.Cuts()
    ensures var p := CutAll(cfg, key, st, a, mid);
            var q := CutAll(cfg, key, p.state, p.state.audio + b, end);
            CutAll(cfg, key, st, a + b, end) == Pushed(q.state, p.windows + q.windows, p.chunks + q.chunks)
  {
    var p := CutAll(cfg, key, st, a, mid);
    WindowsAppend(cfg, a, b, st.baseMs);
    var later := Windows(cfg, Leftover(cfg, a) + b, p.state.baseMs);
    ChunksAppend(cfg, key, st.epoch, st.emitted, p.windows, later);
    SumTimes(|p.windows|, |later|, cfg.hopMs);
  }

  /** However a contiguous signal is cut into packets, what is examined, emitted and left behind
      is what the whole signal appended at once would give. */
  lemma {:induction false} PacketizationIndependence<S>(cfg: Config<S>, key: Key, st: Stream<S>, ps: seq<AudioChunk<S>>)
    requires cfg.Valid() && cfg.Cuts()
    requires Contiguous(cfg, key, st.epoch, st.expectedEndMs, ps)
    requires |st.audio| < cfg.windowSamples
    ensures PushAll(cfg, st, ps) == CutAll(cfg, key, st, st.audio + Signal(ps), EndOf(st.expectedEndMs, ps))
    decreases |ps|
  {
    if ps == [] {
      assert st.audio + Signal(ps) == st.audio;
    } else {
      var p := Push(cfg, Some(st), ps[0]);
      var a, b := st.audio + ps[0].samples, Signal(ps[1..]);
      ContiguousPush(cfg, st, ps[0]);
      PushedStream(cfg, key, st, a, ps[0].endMs);
      PacketizationIndependence(cfg, key, p.state, ps[1..]);
      assert st.audio + Signal(ps) == a + b;
      CutTwice(cfg, key, st, a, b, ps[0].endMs, EndOf(ps[0].endMs, ps[1..]));
      PushedFirst(cfg, st, ps, p, PushAll(cfg, p.state, ps[1..]));
    }
  }

  lemma PushedStream<S>(cfg: Config<S>, key: Key, st: Stream<S>, audio: seq<S>, endMs: int)
    requires cfg.Cuts()
    ensures var s := CutAll(cfg, key, st, audio, endMs).state;
            s.epoch == st.epoch && s.expectedEndMs == endMs && |s.audio| < cfg.windowSamples
  {
  }

  lemma PushedFirst<S>(cfg: Config<S>, st: Stream<S>, ps: seq<AudioChunk<S>>, p: Pushed<S>, more: Pushed<S>)
    requires cfg.sampleRate > 0 && cfg.Cuts() && ps != []
    requires p == Push(cfg, Some(st), ps[0]) && more == PushAll(cfg, p.state, ps[1..])
    ensures PushAll(cfg, st, ps) == Pushed(more.state, p.windows + more.windows, p.chunks + more.chunks)
  {
  }

  /** Two packetizations of the same signal are indistinguishable. */
  lemma SameSignalSameOutput<S>(cfg: Config<S>, key: Key, st: Stream<S>, ps: seq<AudioChunk<S>>, qs: seq<AudioChunk<S>>)
    requires cfg.Valid() && cfg.Cuts() && |st.audio| < cfg.windowSamples
    requires Contiguous(cfg, key, st.epoch, st.expectedEndMs, ps)
    requires Contiguous(cfg, key, st.epoch, st.expectedEndMs, qs)
    requires Signal(ps) == Signal(qs) && EndOf(st.expectedEndMs, ps) == EndOf(st.expectedEndMs, qs)
    ensures PushAll(cfg, st, ps) == PushAll(cfg, st, qs)
  {
    PacketizationIndependence(cfg, key, st, ps);
    PacketizationIndependence(cfg, key, st, qs);
  }

  // ---------------------------------------------------------------- termination of the loop

  /** The buffer after `n` turns of the window loop. */
  function AfterTurns<S>(cfg: Config<S>, audio: seq<S>, n: nat): seq<S>
    requires cfg.hopSamples <= cfg.windowSamples
    decreases n
  {
    if n == 0 || |audio| < cfg.windowSamples then audio
    else AfterTurns(cfg, audio[cfg.hopSamples..], n - 1)
  }

  lemma {:induction false} ZeroHopStandsStill<S>(cfg: Config<S>, audio: seq<S>, n: nat)
    requires cfg.hopSamples == 0
    ensures AfterTurns(cfg, audio, n) == audio
    decreases n
  {
    if n > 0 && |audio| >= cfg.windowSamples {
      assert audio[0..] == audio;
      ZeroHopStandsStill(cfg, audio, n - 1);
    }
  }

  lemma {:induction false} HopsEndLoop<S>(cfg: Config<S>, audio: seq<S>) returns (n: nat)
    requires cfg.Cuts()
    ensures |AfterTurns(cfg, audio, n)| < cfg.windowSamples
    decreases |audio|
  {
    if |audio| < cfg.windowSamples { return 0; }
    n := HopsEndLoop(cfg, audio[cfg.hopSamples..]);
    n := n + 1;
  }

  /** A configuration the constructor accepts whose loop never ends: at 500 samples a second a hop of one
      millisecond is no sample, so a full window stays where it is. */
  lemma HopOfNoSample<S(0)>(speech: seq<S> -> real, extract: seq<S> -> Features, audio: seq<S>, n: nat)
    requires |audio| == 750
    ensures var cfg := Config(500, 30, 1500, 1, 0.5, 750, 0, 200, speech, extract);
            cfg.Valid() && AfterTurns(cfg, audio, n) == audio && |audio| >= cfg.windowSamples
  {
    ZeroHopStandsStill(Config(500, 30, 1500, 1, 0.5, 750, 0, 200, speech, extract), audio, n);
  }

  /** The window loop ends exactly when there is nothing to cut or a hop is at least one sample. */
  lemma LoopEndsIff<S>(cfg: Config<S>, audio: seq<S>)
    requires cfg.Valid()
    ensures cfg.hopSamples <= cfg.windowSamples
    ensures (exists n :: |AfterTurns(cfg, audio, n)| < cfg.windowSamples)
       <==> cfg.sampleRate * cfg.hopMs >= 1000 || |audio| < cfg.windowSamples
  {
    CutsIff(cfg);
    if cfg.Cuts() {
      var n := HopsEndLoop(cfg, audio);
    } else {
      forall n ensures AfterTurns(cfg, audio, n) == audio { ZeroHopStandsStill(cfg, audio, n); }
      assert |AfterTurns(cfg, audio, 0)| == |audio|;
    }
  }
}
