/** The replica recommendation with hysteresis and cooldown, its closed loop under constant load,
    and what holds of its actions for arbitrary samples. */
module Autoscaler {
  import opened Arithmetic
  import opened Wrappers

  datatype Config = Config(
    minReplicas: int, maxReplicas: int, targetUtilization: real, backlogHigh: real, backlogLow: real,
    queueHighMs: real, cooldown: real, scaleDownWindows: int)
  {
    predicate Valid() {
      0 < minReplicas <= maxReplicas && 0.0 < targetUtilization < 1.0 && scaleDownWindows > 0
    }
  }

  datatype Sample = Sample(
    arrival: real, realTimeFactor: real, backlog: real, queueP95: real, utilization: real,
    current: int, observedAt: real)

  datatype Action = ScaleUp | ScaleDown | Hold
  datatype Reason = AudioCapacity | BacklogHigh | QueueP95High | Cooldown | SustainedLowLoad | ScaleDownHysteresis

  datatype Decision = Decision(current: int, desired: int, raw: int, action: Action, reasons: seq<Reason>)
  datatype Failure = InvalidSample | ZeroDivision
  datatype Outcome = Decided(decision: Decision) | Raised(failure: Failure)

  datatype State = State(lastActionAt: Option<real>, lowWindows: nat)
  const INITIAL := State(None, 0)

  // ---------------------------------------------------------------- one recommendation

  /** The least integer not below `x`. */
  function Ceil(x: real): (n: int)
    ensures n as real - 1.0 < x <= n as real
  {
    -((-x).Floor)
  }

  function Clamp(cfg: Config, replicas: int): (n: int)
    requires cfg.Valid()
    ensures cfg.minReplicas <= n <= cfg.maxReplicas
    ensures cfg.minReplicas <= replicas <= cfg.maxReplicas ==> n == replicas
    ensures (n < cfg.maxReplicas ==> n >= replicas) && (n > cfg.minReplicas ==> n <= replicas)
  {
    Min(cfg.maxReplicas, Max(cfg.minReplicas, replicas))
  }

  predicate ValidSample(s: Sample) {
    && s.arrival >= 0.0 && s.realTimeFactor > 0.0 && s.backlog >= 0.0 && s.queueP95 >= 0.0
    && 0.0 <= s.utilization <= 1.0 && s.current > 0
  }

  /** A sample the source computes on: `backlog / backlogHigh` must not divide by zero. */
  predicate Computable(cfg: Config, s: Sample) {
    ValidSample(s) && (s.backlog >= cfg.backlogHigh ==> cfg.backlogHigh != 0.0)
  }

  /** The replicas that the audio rate alone asks for. */
  function Capacity(cfg: Config, arrival: real, realTimeFactor: real): (n: int)
    requires cfg.Valid()
    ensures cfg.minReplicas <= n <= cfg.maxReplicas
  {
    Clamp(cfg, Ceil(BusyReplicas(cfg, arrival, realTimeFactor)))
  }

  function BusyReplicas(cfg: Config, arrival: real, realTimeFactor: real): real
    requires cfg.Valid()
  {
    arrival * realTimeFactor / cfg.targetUtilization
  }

  function RawTarget(cfg: Config, s: Sample): int
    requires cfg.Valid()
  {
    Capacity(cfg, s.arrival, s.realTimeFactor)
  }

  /** The target after the corrections for backlog and queueing delay. */
  function Desired(cfg: Config, s: Sample): int
    requires cfg.Valid() && Computable(cfg, s)
  {
    var raw := RawTarget(cfg, s);
    var a := if s.backlog >= cfg.backlogHigh
             then Max(raw, s.current + Max(1, Ceil(s.backlog / cfg.backlogHigh))) else raw;
    var b := if s.queueP95 >= cfg.queueHighMs then Max(a, s.current + 1) else a;
    Clamp(cfg, b)
  }

  function Reasons(cfg: Config, s: Sample): seq<Reason> {
    [AudioCapacity] + (if s.backlog >= cfg.backlogHigh then [BacklogHigh] else [])
    + (if s.queueP95 >= cfg.queueHighMs then [QueueP95High] else [])
  }

  predicate LowLoad(cfg: Config, s: Sample)
    requires cfg.Valid() && Computable(cfg, s)
  {
    && Desired(cfg, s) < s.current && s.backlog <= cfg.backlogLow
    && s.queueP95 < cfg.queueHighMs * 0.5 && s.utilization < cfg.targetUtilization * 0.65
  }

  predicate CooldownElapsed(cfg: Config, st: State, now: real) {
    st.lastActionAt.Some? ==> now - st.lastActionAt.value >= cfg.cooldown
  }

  /** What a sample comes down to. */
  datatype Brief = Brief(current: int, raw: int, desired: int, low: bool, reasons: seq<Reason>)

  function BriefOf(cfg: Config, s: Sample): (b: Brief)
    requires cfg.Valid() && Computable(cfg, s)
    ensures b.low ==> b.desired < b.current
  {
    Brief(s.current, RawTarget(cfg, s), Desired(cfg, s), LowLoad(cfg, s), Reasons(cfg, s))
  }

  /** Hysteresis and cooldown: the decision and the next state. */
  function Act(cfg: Config, st: State, b: Brief, now: real): (State, Decision)
    requires cfg.Valid()
  {
    var elapsed := CooldownElapsed(cfg, st, now);
    var low := if b.low then st.lowWindows + 1 else 0;
    if b.desired > b.current then
      if elapsed then (State(Some(now), 0), Decision(b.current, b.desired, b.raw, ScaleUp, b.reasons))
      else (st.(lowWindows := 0), Decision(b.current, b.current, b.raw, Hold, b.reasons + [Cooldown]))
    else if b.low && low >= cfg.scaleDownWindows && elapsed then
      (State(Some(now), 0),
       Decision(b.current, Clamp(cfg, Max(b.desired, b.current - 1)), b.raw, ScaleDown, [SustainedLowLoad]))
    else
      (st.(lowWindows := low),
       Decision(b.current, b.current, b.raw, Hold, b.reasons + (if b.low then [ScaleDownHysteresis] else [])))
  }

  /** The recommendation as a function of the state and the time of observation. */
  function Decide(cfg: Config, st: State, s: Sample, now: real): (r: (State, Decision))
    requires cfg.Valid() && Computable(cfg, s)
  {
    Act(cfg, st, BriefOf(cfg, s), now)
  }

  // ---------------------------------------------------------------- what a recommendation means

  /** `n` is the least replica count within the bounds at which the audio keeps utilization on target. */
  ghost predicate Carries(cfg: Config, s: Sample, n: int) {
    && cfg.minReplicas <= n <= cfg.maxReplicas
    && (n < cfg.maxReplicas ==> KeepsUp(cfg, s, n))
    && forall m: int :: cfg.minReplicas <= m < n ==> !KeepsUp(cfg, s, m)
  }

  /** `m` replicas at the target utilization process audio as fast as it arrives. */
  predicate KeepsUp(cfg: Config, s: Sample, m: int) {
    m as real * cfg.targetUtilization >= s.arrival * s.realTimeFactor
  }

  /** `m` replicas are no fewer than the audio asks for; a high backlog asks for at least one more than there
      are and one more per started `backlogHigh`, a high queueing delay for one more. */
  ghost predicate Enough(cfg: Config, s: Sample, raw: int, m: int) {
    && m >= raw
    && (s.backlog >= cfg.backlogHigh ==>
          m > s.current && (cfg.backlogHigh > 0.0 ==> (m - s.current) as real * cfg.backlogHigh >= s.backlog))
    && (s.queueP95 >= cfg.queueHighMs ==> m > s.current)
  }

  /** `v` is the least such count within the bounds. */
  ghost predicate Wanted(cfg: Config, s: Sample, raw: int, v: int) {
    && cfg.minReplicas <= v <= cfg.maxReplicas
    && (v < cfg.maxReplicas ==> Enough(cfg, s, raw, v))
    && forall m: int :: cfg.minReplicas <= m < v ==> !Enough(cfg, s, raw, m)
  }

  /** Few replicas wanted and everything calm. */
  predicate Low(cfg: Config, s: Sample, v: int) {
    v < s.current && s.backlog <= cfg.backlogLow && 2.0 * s.queueP95 < cfg.queueHighMs
    && s.utilization < 0.65 * cfg.targetUtilization
  }

  predicate Cooled(cfg: Config, st: State, now: real) {
    st.lastActionAt == None || now >= st.lastActionAt.value + cfg.cooldown
  }

  /** The order reasons are given in. */
  function Place(r: Reason): nat {
    match r
    case AudioCapacity => 0
    case BacklogHigh => 1
    case QueueP95High => 2
    case Cooldown => 3
    case ScaleDownHysteresis => 4
    case SustainedLowLoad => 5
  }

  predicate Gives(rs: seq<Reason>, r: Reason) { r in rs }

  /** The reasons given, each once and in order: a scale-down has its own, any other decision the audio, a high
      backlog and a high queueing delay, and a hold also what held it back. */
  ghost predicate Explained(cfg: Config, s: Sample, v: int, action: Action, rs: seq<Reason>) {
    && (forall i, j :: 0 <= i < j < |rs| ==> Place(rs[i]) < Place(rs[j]))
    && (Gives(rs, SustainedLowLoad) <==> action == ScaleDown)
    && (Gives(rs, AudioCapacity) <==> action != ScaleDown)
    && (Gives(rs, BacklogHigh) <==> action != ScaleDown && s.backlog >= cfg.backlogHigh)
    && (Gives(rs, QueueP95High) <==> action != ScaleDown && s.queueP95 >= cfg.queueHighMs)
    && (Gives(rs, Cooldown) <==> action == Hold && v > s.current)
    && (Gives(rs, ScaleDownHysteresis) <==> action == Hold && Low(cfg, s, v))
  }

  /** The decision `d` and next state `t` for a sample for which `v` replicas are wanted. */
  ghost predicate Follows(cfg: Config, st: State, s: Sample, v: int, now: real, t: State, d: Decision) {
    var windows := if Low(cfg, s, v) then st.lowWindows + 1 else 0;
    d.current == s.current && Explained(cfg, s, v, d.action, d.reasons) &&
    if v > s.current && Cooled(cfg, st, now) then
      d.action == ScaleUp && d.desired == v && t == State(Some(now), 0)
    else if windows >= cfg.scaleDownWindows && Cooled(cfg, st, now) then
      d.action == ScaleDown && t == State(Some(now), 0)
      && d.desired == (if s.current - 1 <= cfg.maxReplicas then s.current - 1 else cfg.maxReplicas)
    else
      d.action == Hold && d.desired == s.current && t == State(st.lastActionAt, windows)
  }

  /** A recommendation: the audio's count, the wanted count, and what cooldown and hysteresis make of it. */
  ghost predicate Recommends(cfg: Config, st: State, s: Sample, now: real, t: State, d: Decision) {
    Carries(cfg, s, d.raw) && exists v :: Wanted(cfg, s, d.raw, v) && Follows(cfg, st, s, v, now, t, d)
  }

  lemma LowIs(cfg: Config, s: Sample)
    requires cfg.Valid() && Computable(cfg, s)
    ensures LowLoad(cfg, s) <==> Low(cfg, s, Desired(cfg, s))
  {
  }

  lemma ActFollows(cfg: Config, st: State, s: Sample, raw: int, v: int, now: real)
    requires cfg.Valid() && s.current > 0 && cfg.minReplicas <= v <= cfg.maxReplicas
    requires Explained(cfg, s, v, Act(cfg, st, Brief(s.current, raw, v, Low(cfg, s, v), Reasons(cfg, s)), now).1.action,
                       Act(cfg, st, Brief(s.current, raw, v, Low(cfg, s, v), Reasons(cfg, s)), now).1.reasons)
    ensures var (t, d) := Act(cfg, st, Brief(s.current, raw, v, Low(cfg, s, v), Reasons(cfg, s)), now);
            Follows(cfg, st, s, v, now, t, d)
  {
  }

  lemma WantedUnique(cfg: Config, s: Sample, raw: int, v: int, w: int)
    requires Wanted(cfg, s, raw, v) && Wanted(cfg, s, raw, w)
    ensures v == w
  {
  }

  lemma TimesMore(a: real, b: real, k: real)
    requires k > 0.0
    ensures a >= b ==> a * k >= b * k
    ensures a < b ==> a * k < b * k
  {
    if a >= b { assert (a - b) * k >= 0.0; } else { assert (b - a) * k > 0.0; }
    assert (a - b) * k == a * k - b * k && (b - a) * k == b * k - a * k;
  }

  /** Counts compare with a ceiling as their products do with the dividend. */
  lemma CeilDivides(x: real, k: real, m: int)
    requires k > 0.0
    ensures m >= Ceil(x / k) <==> m as real * k >= x
  {
    var q := x / k;
    CeilTimes(q, k, x, m);
  }

  lemma CeilTimes(q: real, k: real, x: real, m: int)
    requires k > 0.0 && q * k == x
    ensures m >= Ceil(q) <==> m as real * k >= x
  {
    TimesMore(m as real, q, k);
    if m >= Ceil(q) { assert m as real >= q; } else { assert m as real <= Ceil(q) as real - 1.0; }
  }

  lemma RawCarries(cfg: Config, s: Sample)
    requires cfg.Valid()
    ensures Carries(cfg, s, RawTarget(cfg, s))
  {
    var n, asked := RawTarget(cfg, s), Ceil(BusyReplicas(cfg, s.arrival, s.realTimeFactor));
    assert n == Clamp(cfg, asked);
    KeepsUpIff(cfg, s, n);
    forall m: int | cfg.minReplicas <= m < n ensures !KeepsUp(cfg, s, m) {
      KeepsUpIff(cfg, s, m);
      assert m < asked;
    }
  }

  lemma KeepsUpIff(cfg: Config, s: Sample, m: int)
    requires cfg.Valid()
    ensures KeepsUp(cfg, s, m) <==> m >= Ceil(BusyReplicas(cfg, s.arrival, s.realTimeFactor))
  {
    BusyTimes(cfg, s.arrival, s.realTimeFactor);
    CeilTimes(BusyReplicas(cfg, s.arrival, s.realTimeFactor), cfg.targetUtilization, s.arrival * s.realTimeFactor, m);
  }

  lemma BusyTimes(cfg: Config, arrival: real, realTimeFactor: real)
    requires cfg.Valid()
    ensures BusyReplicas(cfg, arrival, realTimeFactor) * cfg.targetUtilization == arrival * realTimeFactor
  {
  }

  lemma EnoughIff(cfg: Config, s: Sample, raw: int, m: int)
    requires Computable(cfg, s)
    ensures Enough(cfg, s, raw, m)
       <==> m >= raw
            && (s.backlog >= cfg.backlogHigh ==> m >= s.current + Max(1, Ceil(s.backlog / cfg.backlogHigh)))
            && (s.queueP95 >= cfg.queueHighMs ==> m >= s.current + 1)
  {
    if s.backlog >= cfg.backlogHigh {
      if cfg.backlogHigh > 0.0 {
        CeilDivides(s.backlog, cfg.backlogHigh, m - s.current);
      } else {
        NoQuotient(s.backlog, cfg.backlogHigh);
      }
    }
  }

  lemma NoQuotient(x: real, k: real)
    requires x >= 0.0 && k < 0.0
    ensures Ceil(x / k) <= 0
  {
    var q := x / k;
    assert q * k == x;
    if q > 0.0 { TimesMore(0.0, q, -k); assert q * (-k) == -(q * k); }
  }

  lemma DesiredWanted(cfg: Config, s: Sample)
    requires cfg.Valid() && Computable(cfg, s)
    ensures Wanted(cfg, s, RawTarget(cfg, s), Desired(cfg, s))
  {
    var raw, v := RawTarget(cfg, s), Desired(cfg, s);
    EnoughIff(cfg, s, raw, v);
    forall m: int | cfg.minReplicas <= m < v ensures !Enough(cfg, s, raw, m) { EnoughIff(cfg, s, raw, m); }
  }

  /** The reasons of the raw target, and those with what holds a decision back. */
  lemma ReasonsExplain(cfg: Config, s: Sample, v: int)
    requires v <= s.current ==> !Low(cfg, s, v)
    ensures Explained(cfg, s, v, ScaleUp, Reasons(cfg, s))
    ensures v <= s.current ==> Explained(cfg, s, v, Hold, Reasons(cfg, s))
  {
  }

  lemma HeldBack(cfg: Config, s: Sample, v: int)
    ensures v > s.current ==> Explained(cfg, s, v, Hold, Reasons(cfg, s) + [Cooldown])
    ensures v <= s.current && Low(cfg, s, v) ==> Explained(cfg, s, v, Hold, Reasons(cfg, s) + [ScaleDownHysteresis])
  {
    OneMore(cfg, s, if v > s.current then Cooldown else ScaleDownHysteresis);
  }

  lemma OneMore(cfg: Config, s: Sample, last: Reason)
    requires Place(last) >= 3
    ensures var rs := Reasons(cfg, s) + [last];
            (forall i, j :: 0 <= i < j < |rs| ==> Place(rs[i]) < Place(rs[j]))
            && forall r :: Gives(rs, r) <==> r == last || r == AudioCapacity || (r == BacklogHigh && s.backlog >= cfg.backlogHigh)
                                             || (r == QueueP95High && s.queueP95 >= cfg.queueHighMs)
  {
    var rs := Reasons(cfg, s) + [last];
    forall r ensures Gives(rs, r) <==> Gives(Reasons(cfg, s), r) || r == last {}
  }

  lemma ActExplains(cfg: Config, st: State, s: Sample, raw: int, v: int, now: real)
    requires cfg.Valid()
    ensures var d := Act(cfg, st, Brief(s.current, raw, v, Low(cfg, s, v), Reasons(cfg, s)), now).1;
            Explained(cfg, s, v, d.action, d.reasons)
  {
    HeldBack(cfg, s, v);
    if v > s.current || !Low(cfg, s, v) { ReasonsExplain(cfg, s, v); }
    assert Explained(cfg, s, v, ScaleDown, [SustainedLowLoad]) by { assert SustainedLowLoad in [SustainedLowLoad]; }
    assert Reasons(cfg, s) + [] == Reasons(cfg, s);
  }

  /** Every recommendation made is one in these terms. */
  lemma DecideRecommends(cfg: Config, st: State, s: Sample, now: real)
    requires cfg.Valid() && Computable(cfg, s)
    ensures var (t, d) := Decide(cfg, st, s, now); Recommends(cfg, st, s, now, t, d)
  {
    var (t, d) := Decide(cfg, st, s, now);
    RawCarries(cfg, s);
    DesiredWanted(cfg, s);
    LowIs(cfg, s);
    ActExplains(cfg, st, s, RawTarget(cfg, s), Desired(cfg, s), now);
    ActFollows(cfg, st, s, RawTarget(cfg, s), Desired(cfg, s), now);
    assert Follows(cfg, st, s, Desired(cfg, s), now, t, d);
  }

  // ---------------------------------------------------------------- the object

  class AudioBacklogAutoscaler {
    const cfg: Config
    var lastActionAt: Option<real>
    var lowWindows: nat

    ghost function Now(): State
      reads this
    {
      State(lastActionAt, lowWindows)
    }

    constructor (cfg: Config)
      ensures this.cfg == cfg && Now() == INITIAL
    {
      this.cfg := cfg;
      lastActionAt, lowWindows := None, 0;
    }

    /** `recommend`: a rejected sample leaves the state alone, any other is decided by `Decide`. */
    method Recommend(sample: Sample, clock: real) returns (r: Outcome)
      requires cfg.Valid()
      modifies this
      ensures r == Raised(InvalidSample)
         <==> sample.arrival < 0.0 || sample.realTimeFactor <= 0.0 || sample.backlog < 0.0 || sample.queueP95 < 0.0
              || sample.utilization < 0.0 || sample.utilization > 1.0 || sample.current <= 0
      ensures r == Raised(ZeroDivision) <==> r != Raised(InvalidSample) && cfg.backlogHigh == 0.0
      ensures r.Raised? ==> Now() == old(Now())
      ensures r.Decided? ==>
                var now := if sample.observedAt != 0.0 then sample.observedAt else clock;
                (Now(), r.decision) == Decide(cfg, old(Now()), sample, now)
                && Recommends(cfg, old(Now()), sample, now, Now(), r.decision)
    {
      if !ValidSample(sample) { return Raised(InvalidSample); }
      var now := if sample.observedAt != 0.0 then sample.observedAt else clock;
      var raw := RawTarget(cfg, sample);
      if sample.backlog >= cfg.backlogHigh && cfg.backlogHigh == 0.0 { return Raised(ZeroDivision); }
      var desired, reasons := Correct(sample, raw);
      assert desired == Desired(cfg, sample) && reasons == Reasons(cfg, sample);
      ghost var brief := BriefOf(cfg, sample);
      var lowLoad := desired < sample.current && sample.backlog <= cfg.backlogLow
                     && sample.queueP95 < cfg.queueHighMs * 0.5
                     && sample.utilization < cfg.targetUtilization * 0.65;
      assert brief == Brief(sample.current, raw, desired, lowLoad, reasons);
      DecideRecommends(cfg, Now(), sample, now);
      var decision := Hysteresis(sample.current, raw, desired, lowLoad, reasons, now);
      return Decided(decision);
    }

    /** The raw target raised for a high backlog and a high queueing delay. */
    method Correct(sample: Sample, raw: int) returns (desired: int, reasons: seq<Reason>)
      requires cfg.Valid() && Computable(cfg, sample) && raw == RawTarget(cfg, sample)
      ensures desired == Desired(cfg, sample) && reasons == Reasons(cfg, sample)
    {
      desired := raw;
      reasons := [AudioCapacity];
      if sample.backlog >= cfg.backlogHigh {
        var correction := Max(1, Ceil(sample.backlog / cfg.backlogHigh));
        desired := Max(desired, sample.current + correction);
        reasons := reasons + [BacklogHigh];
      }
      if sample.queueP95 >= cfg.queueHighMs {
        desired := Max(desired, sample.current + 1);
        reasons := reasons + [QueueP95High];
      }
      desired := Clamp(cfg, desired);
    }

    /** Cooldown and low windows, and what they make of the desired count. */
    method Hysteresis(current: int, raw: int, desired: int, lowLoad: bool, reasons: seq<Reason>, now: real)
      returns (d: Decision)
      requires cfg.Valid() && (lowLoad ==> desired < current)
      modifies this
      ensures (Now(), d) == Act(cfg, old(Now()), Brief(current, raw, desired, lowLoad, reasons), now)
    {
      var cooldownElapsed := CooldownElapsed(cfg, State(lastActionAt, lowWindows), now);
      if desired > current {
        lowWindows := 0;
        if cooldownElapsed {
          lastActionAt := Some(now);
          return Decision(current, desired, raw, ScaleUp, reasons);
        }
        return Decision(current, current, raw, Hold, reasons + [Cooldown]);
      }
      lowWindows := if lowLoad then lowWindows + 1 else 0;
      if lowLoad && lowWindows >= cfg.scaleDownWindows && cooldownElapsed {
        var target := Clamp(cfg, Max(desired, current - 1));
        lastActionAt, lowWindows := Some(now), 0;
        return Decision(current, target, raw, ScaleDown, [SustainedLowLoad]);
      }
      var holdReasons := reasons + (if lowLoad then [ScaleDownHysteresis] else []);
      return Decision(current, current, raw, Hold, holdReasons);
    }
  }

  // ---------------------------------------------------------------- closed loop, constant load

  /** Load that calls for nothing but the raw capacity: low backlog, queueing delay and utilization. */
  predicate Calm(cfg: Config, load: Sample) {
    && ValidSample(load) && load.backlog < cfg.backlogHigh && load.backlog <= cfg.backlogLow
    && load.queueP95 < cfg.queueHighMs * 0.5 && load.utilization < cfg.targetUtilization * 0.65
  }

  /** Scaler state and replica count after `m` more ticks, the next one at `times(k)`, when every
      decision is applied. */
  function Loop(cfg: Config, load: Sample, times: nat -> real, k: nat, st: State, n: int, m: nat): (State, int)
    requires cfg.Valid() && Calm(cfg, load) && n > 0
    decreases m
  {
    if m == 0 then (st, n)
    else
      var (s, d) := Decide(cfg, st, load.(current := n), times(k));
      assert d.desired > 0;
      Loop(cfg, load, times, k + 1, s, d.desired, m - 1)
  }

  /** The same with the load reduced to its target. */
  function Drive(cfg: Config, target: int, times: nat -> real, k: nat, st: State, n: int, m: nat): (State, int)
    requires cfg.Valid()
    decreases m
  {
    if m == 0 then (st, n)
    else var (s, d) := Move(cfg, target, st, n, times(k)); Drive(cfg, target, times, k + 1, s, d, m - 1)
  }

  function Move(cfg: Config, target: int, st: State, n: int, now: real): (State, int)
    requires cfg.Valid()
  {
    var (s, d) := Act(cfg, st, Brief(n, target, target, target < n, []), now);
    (s, d.desired)
  }

  lemma CalmBrief(cfg: Config, load: Sample, n: int)
    requires cfg.Valid() && Calm(cfg, load) && n > 0
    ensures var (s, target) := (load.(current := n), RawTarget(cfg, load));
            Computable(cfg, s) && BriefOf(cfg, s) == Brief(n, target, target, target < n, [AudioCapacity])
  {
    var s := load.(current := n);
    assert RawTarget(cfg, s) == RawTarget(cfg, load);
    assert s.queueP95 < cfg.queueHighMs;
    assert Desired(cfg, s) == RawTarget(cfg, s);
  }

  lemma {:induction false} LoopIsDrive(cfg: Config, load: Sample, times: nat -> real, k: nat, st: State, n: int, m: nat)
    requires cfg.Valid() && Calm(cfg, load) && n > 0
    ensures Loop(cfg, load, times, k, st, n, m) == Drive(cfg, RawTarget(cfg, load), times, k, st, n, m)
    decreases m
  {
    if m > 0 {
      var target := RawTarget(cfg, load);
      CalmBrief(cfg, load, n);
      var (s, d) := Act(cfg, st, Brief(n, target, target, target < n, [AudioCapacity]), times(k));
      assert Move(cfg, target, st, n, times(k)) == (s, d.desired);
      LoopIsDrive(cfg, load, times, k + 1, s, d.desired, m - 1);
    }
  }

  predicate Towards(target: int, from: int, to: int) {
    from <= to <= target || target <= to <= from
  }

  lemma MoveIsTowards(cfg: Config, target: int, st: State, n: int, now: real)
    requires cfg.Valid() && cfg.minReplicas <= target <= cfg.maxReplicas
    ensures Towards(target, n, Move(cfg, target, st, n, now).1)
  {
  }

  lemma {:induction false} DriveIsTowards(cfg: Config, target: int, times: nat -> real, k: nat, st: State, n: int, m: nat)
    requires cfg.Valid() && cfg.minReplicas <= target <= cfg.maxReplicas
    ensures Towards(target, n, Drive(cfg, target, times, k, st, n, m).1)
    decreases m
  {
    if m > 0 {
      MoveIsTowards(cfg, target, st, n, times(k));
      var (s, d) := Move(cfg, target, st, n, times(k));
      DriveIsTowards(cfg, target, times, k + 1, s, d, m - 1);
    }
  }

  lemma {:induction false} DriveSplits(cfg: Config, target: int, times: nat -> real, k: nat, st: State, n: int, i: nat, m: nat)
    requires cfg.Valid()
    ensures var (s, d) := Drive(cfg, target, times, k, st, n, i);
            Drive(cfg, target, times, k, st, n, i + m) == Drive(cfg, target, times, k + i, s, d, m)
    decreases i
  {
    if i > 0 {
      var (s, d) := Move(cfg, target, st, n, times(k));
      DriveSplits(cfg, target, times, k + 1, s, d, i - 1, m);
    }
  }

  /** Ticks at least `period` apart. */
  ghost predicate Spaced(times: nat -> real, period: real) {
    period > 0.0 && forall k: nat :: times(k + 1) >= times(k) + period
  }

  function Distance(a: int, b: int): nat { if a >= b then a - b else b - a }

  /** A bound on the ticks until the cooldown has elapsed. */
  function CooldownTicks(cfg: Config, st: State, now: real, period: real): nat
    requires period > 0.0
  {
    if CooldownElapsed(cfg, st, now) then 0
    else Max(0, Ceil((cfg.cooldown - (now - st.lastActionAt.value)) / period))
  }

  lemma DivideLess(x: real, y: real, p: real)
    requires p > 0.0 && y <= x - p
    ensures y / p <= x / p - 1.0
  {
    var a, b := y / p, x / p;
    assert a * p == y && b * p == x;
    assert (b - 1.0 - a) * p == x - p - y;
    SignOf(b - 1.0 - a, p);
  }

  lemma SignOf(k: real, p: real)
    requires p > 0.0
    ensures k < 0.0 ==> k * p < 0.0
  {
    if k < 0.0 { assert (-k) * p > 0.0; }
  }

  lemma CooldownShrinks(cfg: Config, st: State, now: real, later: real, period: real)
    requires period > 0.0 && later >= now + period && !CooldownElapsed(cfg, st, now)
    ensures CooldownTicks(cfg, st, later, period) < CooldownTicks(cfg, st, now, period)
  {
    var x, y := cfg.cooldown - (now - st.lastActionAt.value), cfg.cooldown - (later - st.lastActionAt.value);
    assert x > 0.0;
    DivideLess(x, y, period);
    assert x / period > 0.0;
  }

  /** Low windows still missing before a scale-down may happen. */
  function WindowsLeft(cfg: Config, st: State): nat { Max(0, cfg.scaleDownWindows - 1 - st.lowWindows) }

  /** The loop reaches its target: a waiting tick uses up a low window or a tick of cooldown, every
      other tick brings the count closer. */
  lemma {:induction false} DriveReaches(cfg: Config, target: int, times: nat -> real, period: real, k: nat, st: State, n: int)
    returns (m: nat)
    requires cfg.Valid() && cfg.minReplicas <= target <= cfg.maxReplicas && Spaced(times, period)
    ensures Drive(cfg, target, times, k, st, n, m).1 == target
    decreases Distance(n, target), if n > target then WindowsLeft(cfg, st) else 0, CooldownTicks(cfg, st, times(k), period)
  {
    if n == target { return 0; }
    var now := times(k);
    var (s, d) := Move(cfg, target, st, n, now);
    MoveIsTowards(cfg, target, st, n, now);
    if !CooldownElapsed(cfg, st, now) {
      CooldownShrinks(cfg, st, now, times(k + 1), period);
      assert CooldownTicks(cfg, s, times(k + 1), period) == CooldownTicks(cfg, st, times(k + 1), period);
    }
    m := DriveReaches(cfg, target, times, period, k + 1, s, d);
    m := m + 1;
  }

  /** The replica count never crosses the raw target and never moves away from it. */
  lemma NeverCrosses(cfg: Config, load: Sample, times: nat -> real, st: State, n: int, i: nat, j: nat)
    requires cfg.Valid() && Calm(cfg, load) && n > 0 && i <= j
    ensures Towards(RawTarget(cfg, load), Loop(cfg, load, times, 0, st, n, i).1, Loop(cfg, load, times, 0, st, n, j).1)
  {
    var target := RawTarget(cfg, load);
    LoopIsDrive(cfg, load, times, 0, st, n, i);
    LoopIsDrive(cfg, load, times, 0, st, n, j);
    DriveSplits(cfg, target, times, 0, st, n, i, j - i);
    var (s, d) := Drive(cfg, target, times, 0, st, n, i);
    DriveIsTowards(cfg, target, times, i, s, d, j - i);
  }

  /** From tick `m` on the replica count is the raw target. */
  ghost predicate Settles(cfg: Config, load: Sample, times: nat -> real, st: State, n: int, m: nat)
    requires cfg.Valid() && Calm(cfg, load) && n > 0
  {
    forall j: nat :: j >= m ==> Loop(cfg, load, times, 0, st, n, j).1 == RawTarget(cfg, load)
  }

  /** Under constant calm load the replica count reaches the raw target and stays there forever. */
  lemma Converges(cfg: Config, load: Sample, times: nat -> real, period: real, st: State, n: int)
    requires cfg.Valid() && Calm(cfg, load) && n > 0 && Spaced(times, period)
    ensures exists m: nat :: Settles(cfg, load, times, st, n, m)
  {
    var target := RawTarget(cfg, load);
    var m := DriveReaches(cfg, target, times, period, 0, st, n);
    forall j: nat | j >= m ensures Loop(cfg, load, times, 0, st, n, j).1 == target {
      LoopIsDrive(cfg, load, times, 0, st, n, j);
      DriveSplits(cfg, target, times, 0, st, n, m, j - m);
      var (s, d) := Drive(cfg, target, times, 0, st, n, m);
      DriveIsTowards(cfg, target, times, m, s, d, j - m);
    }
    assert Settles(cfg, load, times, st, n, m);
  }

  // ---------------------------------------------------------------- arbitrary samples

  /** A computed sample at its time of observation. */
  datatype Observation = Observation(brief: Brief, now: real)

  /** The state before the i-th observation; samples the scaler rejects change nothing and so do
      not appear. */
  function StateAt(cfg: Config, os: seq<Observation>, i: nat): State
    requires cfg.Valid() && i <= |os|
  {
    if i == 0 then INITIAL else Act(cfg, StateAt(cfg, os, i - 1), os[i - 1].brief, os[i - 1].now).0
  }

  function ActionAt(cfg: Config, os: seq<Observation>, i: nat): Action
    requires cfg.Valid() && i < |os|
  {
    Act(cfg, StateAt(cfg, os, i), os[i].brief, os[i].now).1.action
  }

  ghost predicate Idle(cfg: Config, os: seq<Observation>, from: int, to: int)
    requires cfg.Valid()
  {
    0 <= from && to <= |os| && forall k: nat :: from <= k < to ==> ActionAt(cfg, os, k) == Hold
  }

  /** The counter counts the low samples since the last action or non-low sample. */
  lemma {:induction false} LowWindowsCount(cfg: Config, os: seq<Observation>, i: nat)
    requires cfg.Valid() && i <= |os|
    ensures var n := StateAt(cfg, os, i).lowWindows;
            n <= i && Idle(cfg, os, i - n, i) && forall k: nat :: i - n <= k < i ==> os[k].brief.low
    decreases i
  {
    if i > 0 { LowWindowsCount(cfg, os, i - 1); }
  }

  /** `a` is the last action before `i`. */
  ghost predicate LastAction(cfg: Config, os: seq<Observation>, a: nat, i: nat)
    requires cfg.Valid()
  {
    a < i <= |os| && ActionAt(cfg, os, a) != Hold && Idle(cfg, os, a + 1, i)
  }

  /** `lastActionAt` is the time of the last action. */
  lemma {:induction false} LastActionIs(cfg: Config, os: seq<Observation>, i: nat)
    requires cfg.Valid() && i <= |os|
    ensures LastTime(cfg, os, i, StateAt(cfg, os, i).lastActionAt)
    decreases i
  {
    if i > 0 {
      LastActionIs(cfg, os, i - 1);
      LastActionStep(cfg, os, i);
      if ActionAt(cfg, os, i - 1) == Hold {
        HoldKeepsTime(cfg, os, i, StateAt(cfg, os, i - 1).lastActionAt);
      } else {
        assert LastAction(cfg, os, i - 1, i);
      }
    }
  }

  /** The last of the first `i` actions was at `at`, or there was none. */
  ghost predicate LastTime(cfg: Config, os: seq<Observation>, i: nat, at: Option<real>)
    requires cfg.Valid()
  {
    if at == None then Idle(cfg, os, 0, i)
    else exists a: nat :: LastAction(cfg, os, a, i) && os[a].now == at.value
  }

  lemma HoldKeepsTime(cfg: Config, os: seq<Observation>, i: nat, at: Option<real>)
    requires cfg.Valid() && 0 < i <= |os| && ActionAt(cfg, os, i - 1) == Hold && LastTime(cfg, os, i - 1, at)
    ensures LastTime(cfg, os, i, at)
  {
    if at.Some? {
      var a: nat :| LastAction(cfg, os, a, i - 1) && os[a].now == at.value;
      assert LastAction(cfg, os, a, i);
    }
  }

  /** An action sets the time, anything else keeps it. */
  lemma LastActionStep(cfg: Config, os: seq<Observation>, i: nat)
    requires cfg.Valid() && 0 < i <= |os|
    ensures StateAt(cfg, os, i).lastActionAt
         == if ActionAt(cfg, os, i - 1) == Hold then StateAt(cfg, os, i - 1).lastActionAt else Some(os[i - 1].now)
  {
  }

  /** Consecutive actions are at least the cooldown apart. */
  lemma ActionsApart(cfg: Config, os: seq<Observation>, i: nat, j: nat)
    requires cfg.Valid() && j < |os| && LastAction(cfg, os, i, j) && ActionAt(cfg, os, j) != Hold
    ensures os[j].now - os[i].now >= cfg.cooldown
  {
    LastActionIs(cfg, os, j);
    var st := StateAt(cfg, os, j);
    var a: nat :| LastAction(cfg, os, a, j) && os[a].now == st.lastActionAt.value;
    assert a == i;
  }

  /** A scale-down ends `scaleDownWindows` consecutive low samples with no action between them. */
  lemma ScaleDownSustained(cfg: Config, os: seq<Observation>, j: nat)
    requires cfg.Valid() && j < |os| && ActionAt(cfg, os, j) == ScaleDown
    ensures j + 1 >= cfg.scaleDownWindows && Idle(cfg, os, j + 1 - cfg.scaleDownWindows, j)
    ensures forall k: nat :: j + 1 - cfg.scaleDownWindows <= k <= j ==> os[k].brief.low
  {
    LowWindowsCount(cfg, os, j);
  }
}
