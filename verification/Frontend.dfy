/** Streaming window assembly: one session's buffer, what a packet does to it, and the windows
    the loop cuts from it. Samples are of any type `S`; voice activity and filter bank are
    functions of a window. */
module Frontend {
  import opened Arithmetic
  import opened Wrappers

  type Key = (string, string)
  type Features = seq<seq<real>>

  datatype Config<!S> = Config(
    sampleRate: int, frameMs: int, windowMs: int, hopMs: int, minSpeechRatio: real,
    windowSamples: nat, hopSamples: nat,
    fbankFrameSamples: int, speechRatio: seq<S> -> real, extract: seq<S> -> Features)
  {
    /** The checked configuration, and the two sizes the constructor derives from it. */
    predicate Valid() {
      && sampleRate > 0 && frameMs > 0 && windowMs > 0 && 0 < hopMs <= windowMs
      && windowSamples == sampleRate * windowMs / 1000
      && hopSamples == sampleRate * hopMs / 1000
    }

    /** A window is cut by hops of at least one sample that never skip audio. */
    predicate Cuts() { 0 < hopSamples <= windowSamples }

    /** The window loop ends on a buffer of `n` samples. */
    predicate Ends(n: nat) { Cuts() || n < windowSamples }
  }

  /** A valid configuration cuts windows exactly when a hop lasts at least one sample. */
  lemma CutsIff<S>(cfg: Config<S>)
    requires cfg.Valid()
    ensures cfg.hopSamples <= cfg.windowSamples
    ensures cfg.Cuts() <==> cfg.sampleRate * cfg.hopMs >= 1000
  {
    assert cfg.sampleRate * cfg.hopMs <= cfg.sampleRate * cfg.windowMs;
  }

  datatype AudioChunk<S> = AudioChunk(
    tenant: string, session: string, epoch: nat, seqNo: nat,
    startMs: int, endMs: int, samples: seq<S>, sampleRate: int, isFinal: bool)
  {
    function KeyOf(): Key { (tenant, session) }
  }

  datatype Stream<S> = Stream(epoch: nat, audio: seq<S>, baseMs: int, expectedEndMs: int, emitted: nat)

  /** A window handed to voice activity detection. */
  datatype Window<S> = Window(startMs: int, samples: seq<S>)

  /** `index` and `epoch` make up the chunk id with tenant and session. */
  datatype FeatureChunk = FeatureChunk(
    key: Key, epoch: nat, index: nat, startMs: int, endMs: int, features: Features, speechRatio: real)

  // ---------------------------------------------------------------- arithmetic of the source

  /** Python's `round(n / d)`: to nearest, ties to even. */
  function RoundDiv(n: int, d: int): (q: int)
    requires d > 0
    ensures n % d == 0 ==> q * d == n
    ensures -d <= 2 * (n - q * d) <= d
  {
    var q, r := n / d, n % d;
    if 2 * r < d || (2 * r == d && q % 2 == 0) then q
    else
      assert (q + 1) * d == q * d + d;
      q + 1
  }

  /** `max(2, int(expected * 0.02))` for a non-negative count. */
  function Tolerance(expected: nat): nat { if expected / 50 > 2 then expected / 50 else 2 }

  datatype PushError = WrongRate | WrongDuration

  /** The two checks of `push` on a packet. */
  function Check<S>(cfg: Config<S>, chunk: AudioChunk<S>): Option<PushError>
  {
    if chunk.sampleRate != cfg.sampleRate then Some(WrongRate)
    else
      var expected := RoundDiv((chunk.endMs - chunk.startMs) * chunk.sampleRate, 1000);
      if Abs(|chunk.samples| - expected) > Tolerance(if expected < 0 then 0 else expected)
      then Some(WrongDuration) else None
  }

  // ---------------------------------------------------------------- buffering

  /** The session's stream, or a new one when there is none or the epoch differs. */
  function Entered<S>(st: Option<Stream<S>>, chunk: AudioChunk<S>): Stream<S> {
    if st.None? || st.value.epoch != chunk.epoch
    then Stream(chunk.epoch, [], chunk.startMs, chunk.startMs, 0)
    else st.value
  }

  function Gap<S>(st: Stream<S>, chunk: AudioChunk<S>): int { chunk.startMs - st.expectedEndMs }

  function OverlapSamples<S>(cfg: Config<S>, st: Stream<S>, chunk: AudioChunk<S>): (n: nat)
    requires cfg.sampleRate > 0 && Gap(st, chunk) < 0
  {
    assert -Gap(st, chunk) * cfg.sampleRate > 0;
    RoundDiv(-Gap(st, chunk) * cfg.sampleRate, 1000)
  }

  /** The packet repeats nothing but audio already seen. */
  predicate Redundant<S>(cfg: Config<S>, st: Stream<S>, chunk: AudioChunk<S>)
    requires cfg.sampleRate > 0
  {
    Gap(st, chunk) < 0 && OverlapSamples(cfg, st, chunk) >= |chunk.samples|
  }

  /** The stream after the packet's new samples are appended, before windows are cut. */
  function Joined<S>(cfg: Config<S>, st: Stream<S>, chunk: AudioChunk<S>): Stream<S>
    requires cfg.sampleRate > 0 && !Redundant(cfg, st, chunk)
  {
    var end := Max(st.expectedEndMs, chunk.endMs);
    if Gap(st, chunk) > cfg.frameMs then
      st.(audio := chunk.samples, baseMs := chunk.startMs, expectedEndMs := end)
    else if Gap(st, chunk) < 0 then
      st.(audio := st.audio + chunk.samples[OverlapSamples(cfg, st, chunk)..], expectedEndMs := end)
    else st.(audio := st.audio + chunk.samples, expectedEndMs := end)
  }

  // ---------------------------------------------------------------- windows

  /** The windows the loop examines, oldest first. */
  function Windows<S>(cfg: Config<S>, audio: seq<S>, baseMs: int): seq<Window<S>>
    requires cfg.Ends(|audio|)
    decreases |audio|
  {
    if |audio| < cfg.windowSamples then []
    else [Window(baseMs, audio[..cfg.windowSamples])]
         + Windows(cfg, audio[cfg.hopSamples..], baseMs + cfg.hopMs)
  }

  /** What the loop leaves in the buffer. */
  function Leftover<S>(cfg: Config<S>, audio: seq<S>): (r: seq<S>)
    requires cfg.Ends(|audio|)
    ensures |r| < cfg.windowSamples
    decreases |audio|
  {
    if |audio| < cfg.windowSamples then audio else Leftover(cfg, audio[cfg.hopSamples..])
  }

  predicate Speech<S>(cfg: Config<S>, w: Window<S>) { cfg.speechRatio(w.samples) >= cfg.minSpeechRatio }

  function ChunkOf<S>(cfg: Config<S>, key: Key, epoch: nat, index: nat, w: Window<S>): FeatureChunk {
    FeatureChunk(key, epoch, index, w.startMs, w.startMs + cfg.windowMs, cfg.extract(w.samples), cfg.speechRatio(w.samples))
  }

  /** The feature chunks of the windows with speech, numbered from `index`. */
  function Chunks<S>(cfg: Config<S>, key: Key, epoch: nat, index: nat, ws: seq<Window<S>>): seq<FeatureChunk>
    decreases |ws|
  {
    if ws == [] then []
    else if Speech(cfg, ws[0]) then [ChunkOf(cfg, key, epoch, index, ws[0])] + Chunks(cfg, key, epoch, index + 1, ws[1..])
    else Chunks(cfg, key, epoch, index, ws[1..])
  }

  /** The stream after the loop. */
  function Cut<S>(cfg: Config<S>, key: Key, st: Stream<S>): Stream<S>
    requires cfg.Ends(|st.audio|)
  {
    var ws := Windows(cfg, st.audio, st.baseMs);
    st.(audio := Leftover(cfg, st.audio), baseMs := st.baseMs + |ws| * cfg.hopMs,
        emitted := st.emitted + |Chunks(cfg, key, st.epoch, st.emitted, ws)|)
  }

  /** What one accepted packet examines and leaves behind. */
  datatype Pushed<S> = Pushed(state: Stream<S>, windows: seq<Window<S>>, chunks: seq<FeatureChunk>)

  /** `push` returns: the packet is redundant, or the loop ends on what is then buffered. */
  predicate Returns<S>(cfg: Config<S>, before: Option<Stream<S>>, chunk: AudioChunk<S>)
    requires cfg.sampleRate > 0
  {
    var st := Entered(before, chunk);
    Redundant(cfg, st, chunk) || cfg.Ends(|Joined(cfg, st, chunk).audio|)
  }

  function Push<S>(cfg: Config<S>, before: Option<Stream<S>>, chunk: AudioChunk<S>): Pushed<S>
    requires cfg.sampleRate > 0 && Returns(cfg, before, chunk)
  {
    var st := Entered(before, chunk);
    if Redundant(cfg, st, chunk) then Pushed(st, [], [])
    else
      var j := Joined(cfg, st, chunk);
      var ws := Windows(cfg, j.audio, j.baseMs);
      Pushed(Cut(cfg, chunk.KeyOf(), j), ws, Chunks(cfg, chunk.KeyOf(), j.epoch, j.emitted, ws))
  }

  /** `flush` of a non-empty stream: at most one chunk, of whatever is buffered. */
  function Flushed<S>(cfg: Config<S>, key: Key, st: Stream<S>): seq<FeatureChunk>
    requires cfg.sampleRate > 0
  {
    var minimum := Max(cfg.fbankFrameSamples, cfg.sampleRate * 300 / 1000);
    if |st.audio| < minimum || cfg.speechRatio(st.audio) < cfg.minSpeechRatio then []
    else
      [FeatureChunk(key, st.epoch, st.emitted, st.baseMs,
                    st.baseMs + RoundDiv(|st.audio| * 1000, cfg.sampleRate),
                    cfg.extract(st.audio), cfg.speechRatio(st.audio))]
  }

  lemma WindowsUnfold<S>(cfg: Config<S>, audio: seq<S>, baseMs: int)
    requires cfg.Cuts() && |audio| >= cfg.windowSamples
    ensures Windows(cfg, audio, baseMs)
         == [Window(baseMs, audio[..cfg.windowSamples])] + Windows(cfg, audio[cfg.hopSamples..], baseMs + cfg.hopMs)
    ensures Leftover(cfg, audio) == Leftover(cfg, audio[cfg.hopSamples..])
  {
  }

  /** One more window moves from the chunks to come to the chunks emitted. */
  lemma ChunksStep<S>(cfg: Config<S>, key: Key, epoch: nat, index: nat, ws: seq<Window<S>>, emitted: seq<FeatureChunk>)
    requires ws != []
    ensures emitted + Chunks(cfg, key, epoch, index, ws)
         == if Speech(cfg, ws[0])
            then (emitted + [ChunkOf(cfg, key, epoch, index, ws[0])]) + Chunks(cfg, key, epoch, index + 1, ws[1..])
            else emitted + Chunks(cfg, key, epoch, index, ws[1..])
  {
  }

  // ---------------------------------------------------------------- the object

  class StreamingAudioFrontend<S> {
    const cfg: Config<S>
    var states: map<Key, Stream<S>>

    constructor (cfg: Config<S>)
      ensures this.cfg == cfg && states == map[]
    {
      this.cfg := cfg;
      states := map[];
    }

    ghost function StreamOf(key: Key): Option<Stream<S>>
      reads this
    {
      if key in states then Some(states[key]) else None
    }

    /** `push`: a rejected packet changes nothing; an accepted one acts on its own session only. */
    method PushChunk(chunk: AudioChunk<S>) returns (emitted: seq<FeatureChunk>, error: Option<PushError>)
      requires cfg.Valid() && (Check(cfg, chunk).None? ==> Returns(cfg, StreamOf(chunk.KeyOf()), chunk))
      modifies this
      ensures error == Check(cfg, chunk)
      ensures error.Some? ==> emitted == [] && states == old(states)
      ensures error.None? ==>
                var p := Push(cfg, old(StreamOf(chunk.KeyOf())), chunk);
                emitted == p.chunks && states == old(states)[chunk.KeyOf() := p.state]
    {
      error := Check(cfg, chunk);
      if error.Some? { return [], error; }
      var key := chunk.KeyOf();
      if key !in states || states[key].epoch != chunk.epoch {
        states := states[key := Stream(chunk.epoch, [], chunk.startMs, chunk.startMs, 0)];
      }
      var state := states[key];
      var samples := chunk.samples;
      var gapMs := chunk.startMs - state.expectedEndMs;
      if gapMs > cfg.frameMs {
        state := state.(audio := [], baseMs := chunk.startMs);
      } else if gapMs < 0 {
        var overlap := OverlapSamples(cfg, state, chunk);
        if overlap >= |samples| { return [], None; }
        samples := samples[overlap..];
      }
      assert [] + samples == samples;
      state := state.(audio := state.audio + samples, expectedEndMs := Max(state.expectedEndMs, chunk.endMs));
      emitted, state := EmitCompleteWindows(key, state);
      states := states[key := state];
      return emitted, None;
    }

    /** The window loop. */
    method EmitCompleteWindows(key: Key, before: Stream<S>) returns (emitted: seq<FeatureChunk>, state: Stream<S>)
      requires cfg.Ends(|before.audio|)
      ensures emitted == Chunks(cfg, key, before.epoch, before.emitted, Windows(cfg, before.audio, before.baseMs))
      ensures state == Cut(cfg, key, before)
    {
      emitted := [];
      var audio, baseMs, count := before.audio, before.baseMs, before.emitted;
      ghost var all := Windows(cfg, audio, baseMs);
      while |audio| >= cfg.windowSamples
        invariant cfg.Ends(|audio|)
        invariant emitted + Chunks(cfg, key, before.epoch, count, Windows(cfg, audio, baseMs))
               == Chunks(cfg, key, before.epoch, before.emitted, all)
        invariant Leftover(cfg, audio) == Leftover(cfg, before.audio)
        invariant baseMs + |Windows(cfg, audio, baseMs)| * cfg.hopMs == before.baseMs + |all| * cfg.hopMs
        invariant count == before.emitted + |emitted|
        decreases |audio|
      {
        var window := Window(baseMs, audio[..cfg.windowSamples]);
        ghost var ws, rest := Windows(cfg, audio, baseMs), Windows(cfg, audio[cfg.hopSamples..], baseMs + cfg.hopMs);
        WindowsUnfold(cfg, audio, baseMs);
        assert ws[0] == window && ws[1..] == rest;
        SuccTimes(|rest|, cfg.hopMs);
        ChunksStep(cfg, key, before.epoch, count, ws, emitted);
        if Speech(cfg, window) {
          var chunk := ChunkOf(cfg, key, before.epoch, count, window);
          emitted := emitted + [chunk];
          count := count + 1;
        }
        audio := audio[cfg.hopSamples..];
        baseMs := baseMs + cfg.hopMs;
      }
      assert emitted + [] == emitted;
      state := before.(audio := audio, baseMs := baseMs, emitted := count);
    }

    method Flush(key: Key) returns (emitted: seq<FeatureChunk>)
      requires cfg.Valid()
      modifies this
      ensures emitted == if key in old(states) then Flushed(cfg, key, old(states)[key]) else []
      ensures states == old(states) - {key}
    {
      if key !in states { return []; }
      var state := states[key];
      states := states - {key};
      return Flushed(cfg, key, state);
    }

    method Forget(key: Key)
      modifies this
      ensures states == old(states) - {key}
    {
      states := states - {key};
    }
  }
}
