/** Time stamps of the streaming frontend for exact-length packets: every sample carries its true
    position in the stream, and the windows stay within a bounded drift of it. */
module FrontendTiming {
  import opened Arithmetic
  import opened Sequences
  import opened Wrappers
  import opened Frontend
  import opened FrontendRuns

  /** A sample and its true time, counted in samples since time stamp 0. */
  datatype Tagged = Tagged(value: int, at: int)

  /** `r` samples per millisecond: the sample rate is a multiple of 1000. */
  predicate Rate(cfg: Config<Tagged>, r: int) {
    cfg.Valid() && r > 0 && cfg.sampleRate == 1000 * r
  }

  lemma Sizes(cfg: Config<Tagged>, r: int)
    requires Rate(cfg, r)
    ensures cfg.windowSamples == cfg.windowMs * r && cfg.hopSamples == cfg.hopMs * r && cfg.Cuts()
  {
    assert cfg.sampleRate * cfg.windowMs == 1000 * (cfg.windowMs * r);
    assert cfg.sampleRate * cfg.hopMs == 1000 * (cfg.hopMs * r);
    CutsIff(cfg);
    MulAtLeast(r, cfg.hopMs);
  }

  /** A packet whose payload has exactly the length its time stamps announce. */
  predicate Exact(cfg: Config<Tagged>, r: int, chunk: AudioChunk<Tagged>) {
    && chunk.sampleRate == cfg.sampleRate && chunk.startMs < chunk.endMs
    && |chunk.samples| == (chunk.endMs - chunk.startMs) * r
    && forall i :: 0 <= i < |chunk.samples| ==> chunk.samples[i].at == chunk.startMs * r + i
  }

  lemma MulCancel(r: int, a: int, b: int)
    requires r > 0
    ensures a * r < b * r <==> a < b
    ensures a * r <= b * r <==> a <= b
  {
    assert (b - a) * r == b * r - a * r;
    MulAtLeast(r, b - a);
  }

  /** Exact packets are never refused. */
  lemma ExactPasses(cfg: Config<Tagged>, r: int, chunk: AudioChunk<Tagged>)
    requires Rate(cfg, r) && Exact(cfg, r, chunk)
    ensures Check(cfg, chunk).None?
  {
    var d := chunk.endMs - chunk.startMs;
    assert d * chunk.sampleRate == (d * r) * 1000;
  }

  // ---------------------------------------------------------------- the buffer, in sample units

  /** True times increase, and never jump by more than `frame` samples. */
  predicate Smooth(frame: int, audio: seq<Tagged>) {
    forall i :: 0 <= i < |audio| - 1 ==> audio[i].at < audio[i + 1].at <= audio[i].at + 1 + frame
  }

  /** Sample `i` is at most `drift` samples later than its nominal time. */
  predicate Within(base: int, drift: int, audio: seq<Tagged>) {
    forall i :: 0 <= i < |audio| ==> base + i <= audio[i].at <= base + i + drift
  }

  /** `base` plus the buffered duration is `end` minus the drift. */
  predicate Timed(base: int, drift: int, audio: seq<Tagged>, end: int) {
    && drift >= 0 && base + |audio| == end - drift
    && (audio != [] ==> audio[|audio| - 1].at == end - 1)
  }

  predicate AudioOk(frame: int, base: int, drift: int, audio: seq<Tagged>, end: int) {
    Timed(base, drift, audio, end) && Within(base, drift, audio) && Smooth(frame, audio)
  }

  /** The timing invariant of a stream, with time stamps in milliseconds and `r` samples each. */
  predicate BufferOk(cfg: Config<Tagged>, r: int, drift: int, st: Stream<Tagged>) {
    AudioOk(cfg.frameMs * r, st.baseMs * r, drift * r, st.audio, st.expectedEndMs * r)
  }

  /** Appending samples that start `gap` after the end adds the gap to the drift. */
  lemma AppendKeeps(frame: int, base: int, drift: int, audio: seq<Tagged>, end: int, gap: int, more: seq<Tagged>)
    requires AudioOk(frame, base, drift, audio, end) && 0 <= gap <= frame && more != []
    requires forall i :: 0 <= i < |more| ==> more[i].at == end + gap + i
    ensures AudioOk(frame, base, drift + gap, audio + more, end + gap + |more|)
  {
    var all := audio + more;
    forall i | 0 <= i < |all| - 1 ensures all[i].at < all[i + 1].at <= all[i].at + 1 + frame {
      if i >= |audio| { assert all[i] == more[i - |audio|] && all[i + 1] == more[i + 1 - |audio|]; }
    }
  }

  lemma SuffixKeeps(frame: int, base: int, drift: int, audio: seq<Tagged>, end: int, n: nat)
    requires AudioOk(frame, base, drift, audio, end) && n <= |audio|
    ensures AudioOk(frame, base + n, drift, audio[n..], end)
  {
    var tail := audio[n..];
    assert forall i :: 0 <= i < |tail| ==> tail[i] == audio[n + i];
  }

  // ---------------------------------------------------------------- windows

  /** A window's samples lie at most the drift late and hide no gap larger than a frame. */
  predicate WindowOk(cfg: Config<Tagged>, r: int, drift: int, w: Window<Tagged>) {
    Within(w.startMs * r, drift * r, w.samples) && Smooth(cfg.frameMs * r, w.samples)
  }

  /** Strictly increasing starts before `base`, ends by `end`, and no gap above a frame inside. */
  ghost predicate Past(cfg: Config<Tagged>, r: int, base: int, end: int, ws: seq<Window<Tagged>>) {
    && (forall i, j :: 0 <= i < j < |ws| ==> ws[i].startMs < ws[j].startMs)
    && (forall i :: 0 <= i < |ws| ==> PastWindow(cfg, r, base, end, ws[i]))
  }

  predicate PastWindow(cfg: Config<Tagged>, r: int, base: int, end: int, w: Window<Tagged>) {
    w.startMs < base && w.startMs + cfg.windowMs <= end && Smooth(cfg.frameMs * r, w.samples)
  }

  predicate StartFrom(from: int, ws: seq<Window<Tagged>>) {
    forall i :: 0 <= i < |ws| ==> from <= ws[i].startMs
  }

  lemma PastConcat(cfg: Config<Tagged>, r: int, base: int, end: int, ws: seq<Window<Tagged>>,
                   newBase: int, newEnd: int, more: seq<Window<Tagged>>)
    requires Past(cfg, r, base, end, ws) && Past(cfg, r, newBase, newEnd, more) && StartFrom(base, more)
    requires base <= newBase && end <= newEnd
    ensures Past(cfg, r, newBase, newEnd, ws + more)
  {
    var all := ws + more;
    forall i | 0 <= i < |all| ensures PastWindow(cfg, r, newBase, newEnd, all[i]) {
      assert if i < |ws| then PastWindow(cfg, r, base, end, all[i]) else PastWindow(cfg, r, newBase, newEnd, more[i - |ws|]);
    }
    forall i, j | 0 <= i < j < |all| ensures all[i].startMs < all[j].startMs {
      if i < |ws| { assert PastWindow(cfg, r, base, end, ws[i]); }
    }
  }

  /** The cut leaves a sound buffer, and the windows it takes are sound. */
  ghost predicate CutOk(cfg: Config<Tagged>, r: int, drift: int, base: int, end: int, ws: seq<Window<Tagged>>, rest: seq<Tagged>) {
    var newBase := base + |ws| * cfg.hopMs;
    && AudioOk(cfg.frameMs * r, newBase * r, drift * r, rest, end * r)
    && Past(cfg, r, newBase, end, ws) && StartFrom(base, ws) && newBase >= base
    && forall i :: 0 <= i < |ws| ==> WindowOk(cfg, r, drift, ws[i])
  }

  lemma {:induction false} CutKeeps(cfg: Config<Tagged>, r: int, drift: int, audio: seq<Tagged>, base: int, end: int)
    requires Rate(cfg, r) && cfg.Cuts()
    requires AudioOk(cfg.frameMs * r, base * r, drift * r, audio, end * r)
    ensures CutOk(cfg, r, drift, base, end, Windows(cfg, audio, base), Leftover(cfg, audio))
    decreases |audio|
  {
    if |audio| >= cfg.windowSamples {
      Sizes(cfg, r);
      FirstWindow(cfg, r, drift, audio, base, end);
      TailKeeps(cfg, r, drift, audio, base, end);
      CutKeeps(cfg, r, drift, audio[cfg.hopSamples..], base + cfg.hopMs, end);
      PrependWindow(cfg, r, drift, base, end, Window(base, audio[..cfg.windowSamples]),
                    Windows(cfg, audio[cfg.hopSamples..], base + cfg.hopMs), Leftover(cfg, audio));
    }
  }

  lemma TailKeeps(cfg: Config<Tagged>, r: int, drift: int, audio: seq<Tagged>, base: int, end: int)
    requires cfg.hopSamples == cfg.hopMs * r && cfg.hopSamples <= |audio|
    requires AudioOk(cfg.frameMs * r, base * r, drift * r, audio, end * r)
    ensures AudioOk(cfg.frameMs * r, (base + cfg.hopMs) * r, drift * r, audio[cfg.hopSamples..], end * r)
  {
    SumTimes(base, cfg.hopMs, r);
    SuffixKeeps(cfg.frameMs * r, base * r, drift * r, audio, end * r, cfg.hopSamples);
  }

  lemma PrependWindow(cfg: Config<Tagged>, r: int, drift: int, base: int, end: int,
                      w: Window<Tagged>, ws: seq<Window<Tagged>>, rest: seq<Tagged>)
    requires cfg.hopMs > 0 && CutOk(cfg, r, drift, base + cfg.hopMs, end, ws, rest)
    requires w.startMs == base && WindowOk(cfg, r, drift, w) && base + cfg.windowMs <= end
    ensures CutOk(cfg, r, drift, base, end, [w] + ws, rest)
  {
    SuccTimes(|ws|, cfg.hopMs);
    var newBase := base + cfg.hopMs + |ws| * cfg.hopMs;
    assert Past(cfg, r, base + cfg.hopMs, end, [w]);
    PastConcat(cfg, r, base + cfg.hopMs, end, [w], newBase, end, ws);
  }

  lemma FirstWindow(cfg: Config<Tagged>, r: int, drift: int, audio: seq<Tagged>, base: int, end: int)
    requires Rate(cfg, r) && cfg.windowSamples == cfg.windowMs * r && |audio| >= cfg.windowSamples
    requires AudioOk(cfg.frameMs * r, base * r, drift * r, audio, end * r)
    ensures WindowOk(cfg, r, drift, Window(base, audio[..cfg.windowSamples]))
    ensures base + cfg.windowMs <= end
  {
    SumTimes(base, cfg.windowMs, r);
    MulCancel(r, base + cfg.windowMs, end);
  }

  // ---------------------------------------------------------------- packets

  /** Milliseconds of gap absorbed since the last reset: a large gap resets the sum, a gap of up to
      a frame adds to it, overlaps leave it. */
  function DriftAfter(cfg: Config<Tagged>, st: Stream<Tagged>, drift: int, chunk: AudioChunk<Tagged>): int {
    if Gap(st, chunk) > cfg.frameMs then 0
    else if Gap(st, chunk) > 0 then drift + Gap(st, chunk)
    else drift
  }

  lemma OverlapExact(cfg: Config<Tagged>, r: int, st: Stream<Tagged>, chunk: AudioChunk<Tagged>)
    requires Rate(cfg, r) && Gap(st, chunk) < 0
    ensures OverlapSamples(cfg, st, chunk) == -Gap(st, chunk) * r
  {
    assert -Gap(st, chunk) * cfg.sampleRate == (-Gap(st, chunk) * r) * 1000;
  }

  lemma SmallGapKeeps(cfg: Config<Tagged>, r: int, drift: int, st: Stream<Tagged>, chunk: AudioChunk<Tagged>, gap: int)
    requires Rate(cfg, r) && Exact(cfg, r, chunk) && BufferOk(cfg, r, drift, st)
    requires gap == Gap(st, chunk) && 0 <= gap <= cfg.frameMs
    ensures AudioOk(cfg.frameMs * r, st.baseMs * r, (drift + gap) * r, st.audio + chunk.samples, chunk.endMs * r)
  {
    var (e, s) := (st.expectedEndMs, chunk.startMs);
    SumTimes(chunk.endMs - s, s, r);
    MulCancel(r, s, chunk.endMs);
    SumTimes(e, gap, r);
    SumTimes(drift, gap, r);
    MulCancel(r, 0, gap);
    MulCancel(r, gap, cfg.frameMs);
    AppendKeeps(cfg.frameMs * r, st.baseMs * r, drift * r, st.audio, e * r, gap * r, chunk.samples);
  }

  lemma JoinKeeps(cfg: Config<Tagged>, r: int, drift: int, st: Stream<Tagged>, chunk: AudioChunk<Tagged>)
    requires Rate(cfg, r) && Exact(cfg, r, chunk) && BufferOk(cfg, r, drift, st) && !Redundant(cfg, st, chunk)
    ensures Joined(cfg, st, chunk).expectedEndMs == chunk.endMs
    ensures BufferOk(cfg, r, DriftAfter(cfg, st, drift, chunk), Joined(cfg, st, chunk))
  {
    var (gap, e, s) := (Gap(st, chunk), st.expectedEndMs, chunk.startMs);
    SumTimes(chunk.endMs - s, s, r);
    MulCancel(r, s, chunk.endMs);
    MulAtLeast(r, cfg.frameMs);
    if gap > cfg.frameMs {
    } else if gap >= 0 {
      SmallGapKeeps(cfg, r, drift, st, chunk, gap);
    } else {
      OverlapExact(cfg, r, st, chunk);
      var cut := OverlapSamples(cfg, st, chunk);
      SumTimes(s, -gap, r);
      MulCancel(r, e, chunk.endMs);
      var more := chunk.samples[cut..];
      AppendKeeps(cfg.frameMs * r, st.baseMs * r, drift * r, st.audio, e * r, 0, more);
    }
  }

  /** What a run has established: the timing invariant, and the windows examined so far, in order,
      started before the present base and ended by the present end. */
  ghost predicate RunOk(cfg: Config<Tagged>, r: int, drift: int, st: Stream<Tagged>, ws: seq<Window<Tagged>>) {
    drift >= 0 && BufferOk(cfg, r, drift, st) && Past(cfg, r, st.baseMs, st.expectedEndMs, ws)
  }

  lemma JoinMovesForward(cfg: Config<Tagged>, r: int, drift: int, st: Stream<Tagged>, chunk: AudioChunk<Tagged>)
    requires Rate(cfg, r) && drift >= 0 && BufferOk(cfg, r, drift, st) && !Redundant(cfg, st, chunk)
    ensures var j := Joined(cfg, st, chunk);
            j.expectedEndMs >= st.expectedEndMs && j.baseMs >= st.baseMs
            && (Gap(st, chunk) > cfg.frameMs ==> j.baseMs > st.expectedEndMs)
            && DriftAfter(cfg, st, drift, chunk) >= 0
  {
    MulCancel(r, 0, drift);
    MulCancel(r, st.baseMs, st.expectedEndMs);
  }

  /** The drift after a packet; a redundant packet changes nothing. */
  function NextDrift(cfg: Config<Tagged>, st: Stream<Tagged>, drift: int, chunk: AudioChunk<Tagged>): int
    requires cfg.sampleRate > 0
  {
    if Redundant(cfg, st, chunk) then drift else DriftAfter(cfg, st, drift, chunk)
  }

  /** One exact packet of the same epoch keeps the run sound; its windows stay within the drift. */
  lemma PushKeepsRun(cfg: Config<Tagged>, r: int, drift: int, st: Stream<Tagged>, ws: seq<Window<Tagged>>, chunk: AudioChunk<Tagged>)
    requires Rate(cfg, r) && cfg.Cuts() && Exact(cfg, r, chunk) && chunk.epoch == st.epoch
    requires RunOk(cfg, r, drift, st, ws)
    ensures var (p, d) := (Push(cfg, Some(st), chunk), NextDrift(cfg, st, drift, chunk));
            && RunOk(cfg, r, d, p.state, ws + p.windows)
            && StartFrom(st.baseMs, p.windows) && p.state.baseMs >= st.baseMs
            && forall k :: 0 <= k < |p.windows| ==> WindowOk(cfg, r, d, p.windows[k])
  {
    if Redundant(cfg, st, chunk) {
      assert ws + [] == ws;
    } else {
      var j, d := Joined(cfg, st, chunk), DriftAfter(cfg, st, drift, chunk);
      JoinKeeps(cfg, r, drift, st, chunk);
      JoinMovesForward(cfg, r, drift, st, chunk);
      CutKeeps(cfg, r, d, j.audio, j.baseMs, j.expectedEndMs);
      var more := Windows(cfg, j.audio, j.baseMs);
      var newBase := j.baseMs + |more| * cfg.hopMs;
      assert StartFrom(st.baseMs, more);
      PastConcat(cfg, r, st.baseMs, st.expectedEndMs, ws, newBase, j.expectedEndMs, more);
    }
  }

  /** The packet that brings a gap larger than a frame starts everything afresh after the old end. */
  lemma LargeGapRestarts(cfg: Config<Tagged>, r: int, drift: int, st: Stream<Tagged>, chunk: AudioChunk<Tagged>)
    requires Rate(cfg, r) && cfg.Cuts() && Exact(cfg, r, chunk) && chunk.epoch == st.epoch
    requires BufferOk(cfg, r, drift, st) && Gap(st, chunk) > cfg.frameMs
    ensures var p := Push(cfg, Some(st), chunk);
            p.state.baseMs > st.expectedEndMs && StartFrom(st.expectedEndMs + 1, p.windows)
  {
    var j, d := Joined(cfg, st, chunk), DriftAfter(cfg, st, drift, chunk);
    JoinKeeps(cfg, r, drift, st, chunk);
    CutKeeps(cfg, r, d, j.audio, j.baseMs, j.expectedEndMs);
    assert StartFrom(j.baseMs, Windows(cfg, j.audio, j.baseMs));
  }

  // ---------------------------------------------------------------- whole runs

  ghost predicate ExactRun(cfg: Config<Tagged>, r: int, epoch: nat, ps: seq<AudioChunk<Tagged>>) {
    forall i :: 0 <= i < |ps| ==> Exact(cfg, r, ps[i]) && ps[i].epoch == epoch
  }

  function DriftAll(cfg: Config<Tagged>, st: Stream<Tagged>, drift: int, ps: seq<AudioChunk<Tagged>>): int
    requires cfg.sampleRate > 0 && cfg.Cuts()
    decreases |ps|
  {
    if ps == [] then drift
    else
      DriftAll(cfg, Push(cfg, Some(st), ps[0]).state,
               NextDrift(cfg, st, drift, ps[0]), ps[1..])
  }

  lemma {:induction false} RunKeeps(cfg: Config<Tagged>, r: int, drift: int, st: Stream<Tagged>, ws: seq<Window<Tagged>>, ps: seq<AudioChunk<Tagged>>)
    requires Rate(cfg, r) && cfg.Cuts() && ExactRun(cfg, r, st.epoch, ps) && RunOk(cfg, r, drift, st, ws)
    ensures var p := PushAll(cfg, st, ps);
            RunOk(cfg, r, DriftAll(cfg, st, drift, ps), p.state, ws + p.windows)
    decreases |ps|
  {
    if ps == [] {
      assert ws + [] == ws;
    } else {
      PushKeepsRun(cfg, r, drift, st, ws, ps[0]);
      var p := Push(cfg, Some(st), ps[0]);
      var d := NextDrift(cfg, st, drift, ps[0]);
      RunKeeps(cfg, r, d, p.state, ws + p.windows, ps[1..]);
      var more := PushAll(cfg, p.state, ps[1..]);
      Associate(ws, p.windows, more.windows);
      assert DriftAll(cfg, st, drift, ps) == DriftAll(cfg, p.state, d, ps[1..]);
    }
  }

  /** Nothing examined later starts before the present base. */
  lemma {:induction false} RunStarts(cfg: Config<Tagged>, r: int, drift: int, st: Stream<Tagged>, ws: seq<Window<Tagged>>, ps: seq<AudioChunk<Tagged>>)
    requires Rate(cfg, r) && cfg.Cuts() && ExactRun(cfg, r, st.epoch, ps) && RunOk(cfg, r, drift, st, ws)
    ensures StartFrom(st.baseMs, PushAll(cfg, st, ps).windows)
    decreases |ps|
  {
    if ps != [] {
      PushKeepsRun(cfg, r, drift, st, ws, ps[0]);
      var p := Push(cfg, Some(st), ps[0]);
      RunStarts(cfg, r, NextDrift(cfg, st, drift, ps[0]), p.state, ws + p.windows, ps[1..]);
    }
  }

  /** After a gap larger than a frame every window examined from then on, in the packet that brings
      the gap and in all packets after it, starts after all earlier windows have ended. */
  lemma LargeGapSeparates(cfg: Config<Tagged>, r: int, drift: int, st: Stream<Tagged>, ws: seq<Window<Tagged>>, ps: seq<AudioChunk<Tagged>>)
    requires Rate(cfg, r) && cfg.Cuts() && ExactRun(cfg, r, st.epoch, ps) && RunOk(cfg, r, drift, st, ws)
    requires ps != [] && Gap(st, ps[0]) > cfg.frameMs
    ensures var later := PushAll(cfg, st, ps).windows;
            forall i, k :: 0 <= i < |ws| && 0 <= k < |later| ==> ws[i].startMs + cfg.windowMs < later[k].startMs
  {
    LargeGapRestarts(cfg, r, drift, st, ps[0]);
    PushKeepsRun(cfg, r, drift, st, ws, ps[0]);
    var p := Push(cfg, Some(st), ps[0]);
    RunStarts(cfg, r, NextDrift(cfg, st, drift, ps[0]), p.state, ws + p.windows, ps[1..]);
    forall i | 0 <= i < |ws| ensures ws[i].startMs + cfg.windowMs <= st.expectedEndMs {
      assert PastWindow(cfg, r, st.baseMs, st.expectedEndMs, ws[i]);
    }
  }

  /** Timing over any exact stream of one epoch, with overlaps, duplicates and gaps in any order:
      the base plus the buffered duration is the expected end minus the absorbed gaps, window starts
      strictly increase, and no window hides a gap larger than a frame. */
  lemma TimingInvariant(cfg: Config<Tagged>, r: int, first: AudioChunk<Tagged>, ps: seq<AudioChunk<Tagged>>)
    requires Rate(cfg, r) && Exact(cfg, r, first) && ExactRun(cfg, r, first.epoch, ps)
    ensures cfg.Cuts()
    ensures var st := Entered(None, first);
            var p := PushAll(cfg, st, [first] + ps);
            RunOk(cfg, r, DriftAll(cfg, st, 0, [first] + ps), p.state, p.windows)
  {
    Sizes(cfg, r);
    var st := Entered(None, first);
    RunKeeps(cfg, r, 0, st, [], [first] + ps);
    assert [] + PushAll(cfg, st, [first] + ps).windows == PushAll(cfg, st, [first] + ps).windows;
  }
}
