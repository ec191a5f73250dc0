/** The client object: its fields are updated in place by `infer_batch`, `close` and the helpers
    below, each tied to the transition system of module WorkerProtocol. */
module NativeWorker {
  import opened Bytes
  import opened RequestCodec
  import opened Wrappers
  import opened WorkerProtocol
  import opened WorkerRuns
  import R = ResponseCodec

  datatype BatchResult = Invalid(why: Rejection) | BackendClosed | Finished(outcome: Inferred)

  class NativeWorkerBackend {
    const world: World
    const restartAttempts: nat
    var procs: seq<Proc>
    var current: Option<nat>
    var nextId: nat
    var closed: bool

    ghost function Now(): State
      reads this
    {
      State(procs, current, nextId, closed)
    }

    ghost predicate Valid()
      reads this
    {
      world.Valid() && Idle(Now())
    }

    constructor (world: World, restartAttempts: nat, t: Turn)
      requires world.Valid()
      ensures Valid() && Now() == Opened(world, t)
      ensures this.world == world && this.restartAttempts == restartAttempts
    {
      this.world, this.restartAttempts := world, restartAttempts;
      procs, current, nextId, closed := [], None, 1, false;
      new;
      StartProcess();
      ExchangeKeepsIdle(world, Now(), [], OP_PING, t);
      var x := Exchange(OP_PING, [], t);
      if !x.Returned? { StopProcess(); }
    }

    method StartProcess()
      requires Now().Valid()
      modifies this`procs, this`current
      ensures Now() == Started(old(Now()))
    {
      procs := procs + [FRESH];
      current := Some(|procs| - 1);
    }

    method StopProcess()
      requires Now().Valid()
      modifies this`procs, this`current
      ensures Now() == Stopped(old(Now()))
    {
      var process := current;
      current := None;
      if process.None? { return; }
      procs := procs[process.value := procs[process.value].(alive := false)];
    }

    /** One request and its reply; `t` is what the outside world does meanwhile. */
    method Exchange(op: nat, features: seq<FeatureMatrix>, t: Turn) returns (x: Exchanged)
      requires world.Valid() && Now().Valid()
      modifies this`procs, this`nextId
      ensures (Now(), x) == WorkerProtocol.Exchange(world, old(Now()), op, features, t)
    {
      procs := HappenAll(world, procs, t.before);
      if current.None? || !procs[current.value].alive { return Unavailable; }
      var c, requestId := current.value, nextId;
      nextId := nextId + 1;
      var request := Request(op, requestId, MEL_BINS, features);
      if !Packable(request) { return PackError; }
      var bytes := EncodeRequest(request);
      if !t.writeOk {
        var partial := if t.partial < |bytes| then bytes[..t.partial] else bytes;
        procs := procs[c := procs[c].(inbox := procs[c].inbox + partial)];
        return Unavailable;
      }
      procs := procs[c := procs[c].(inbox := procs[c].inbox + bytes)];
      procs := HappenAll(world, procs, t.during);
      if procs[c].queue == [] { return Unavailable; }
      var message := procs[c].queue[0];
      procs := procs[c := procs[c].(queue := procs[c].queue[1..])];
      return Verdict(message, requestId);
    }

    /** `infer_batch`: a call that succeeds returns the engine's own results for these arrays. */
    method InferBatch(features: seq<RawArray>, turns: seq<Turn>) returns (r: BatchResult)
      requires Valid() && |turns| == restartAttempts + 1
      requires forall i :: 0 <= i < |features| && |features[i].shape| == 2
                 ==> |features[i].values| == features[i].shape[0] * features[i].shape[1]
      modifies this
      ensures Valid()
      ensures features == [] ==> r == Finished(Success([], [])) && Now() == old(Now())
      ensures features != [] ==>
                (r.Invalid? <==> !(|features| <= world.maxBatch
                                   && forall i :: 0 <= i < |features| ==> Acceptable(features[i], world.maxFrames)))
      ensures r.Invalid? ==> Refused(features, world.maxBatch, world.maxFrames, r.why)
      ensures r.Invalid? || r.BackendClosed? ==> Now() == old(Now())
      ensures r.BackendClosed? <==> features != [] && !r.Invalid? && old(closed)
      ensures features != [] && r.Finished? ==>
                var ms := Matrices(features);
                Consistent(ms) && (Now(), r.outcome) == Attempts(world, old(Now()), ms, turns) && Genuine(world, ms, r.outcome)
      ensures features != [] && r.Finished? ==> Ended(world, old(Now()), Matrices(features), turns)
      ensures features != [] && r.Finished? && Able(world, old(Now()), Matrices(features), turns[0]) ==>
                Told(world, Matrices(features), r.outcome) && Undisturbed(old(Now()), Now())
    {
      if features == [] { return Finished(Success([], [])); }
      var matrices, why := ValidateFeatures(features, world.maxBatch, world.maxFrames);
      if matrices.None? { return Invalid(why); }
      if closed { return BackendClosed; }
      var ms := matrices.value;
      assert ms == Matrices(features);
      ValidIsConsistent(ms, world.maxFrames);
      InferRefinesEngine(world, Now(), ms, turns);
      ghost var k := CallEndsAt(world, Now(), ms, turns);
      if Able(world, Now(), ms, turns[0]) { HealthyCall(world, Now(), ms, turns); }
      var outcome := Retry(ms, turns);
      return Finished(outcome);
    }

    /** The retry loop. */
    method Retry(ms: seq<FeatureMatrix>, turns: seq<Turn>) returns (outcome: Inferred)
      requires world.Valid() && Now().Valid() && turns != []
      modifies this
      ensures (Now(), outcome) == Attempts(world, old(Now()), ms, turns)
    {
      var attempt := 0;
      assert turns[0..] == turns;
      while true
        invariant 0 <= attempt < |turns| && Now().Valid()
        invariant Attempts(world, old(Now()), ms, turns) == Attempts(world, Now(), ms, turns[attempt..])
        decreases |turns| - attempt
      {
        assert turns[attempt..][0] == turns[attempt] && turns[attempt..][1..] == turns[attempt + 1..];
        var x := Exchange(OP_INFER, ms, turns[attempt]);
        match x {
          case Returned(response) => return Success(response.embeddings, response.qualities);
          case ExecutionError(status, error) => return EngineFailed(status, error);
          case PackError => return StructError;
          case Unavailable =>
            StopProcess();
            if attempt + 1 >= |turns| { return WorkerUnavailable; }
            if !turns[attempt].startOk { return WorkerUnavailable; }
            StartProcess();
            attempt := attempt + 1;
        }
      }
    }

    method Close(t: Turn)
      requires Valid()
      modifies this
      ensures Valid() && Now() == Closed(world, old(Now()), t) && closed
      ensures !old(closed) ==> current == None
    {
      if closed { return; }
      closed := true;
      if current.Some? && procs[current.value].alive {
        var x := Exchange(OP_SHUTDOWN, [], t);
      }
      StopProcess();
    }
  }

  /** The first exchange that does not fail in transport decides the call. */
  ghost predicate Ended(w: World, st: State, ms: seq<FeatureMatrix>, turns: seq<Turn>)
    requires w.Valid() && st.Valid()
  {
    exists k: nat :: k < |turns| && EndsAt(w, st, ms, turns, k)
  }

  /** The worker is alive, undisturbed and can answer the batch. */
  ghost predicate Able(w: World, st: State, ms: seq<FeatureMatrix>, t: Turn)
    requires w.Valid()
  {
    Live(st) && Answerable(w, st.nextId, ms) && Healthy(t, st.current.value)
  }

  /** The matrices validated arrays stand for. */
  function Matrices(features: seq<RawArray>): (ms: seq<FeatureMatrix>)
    ensures |ms| == |features|
  {
    seq(|features|, i requires 0 <= i < |features| =>
      FeatureMatrix(if features[i].shape == [] then 0 else features[i].shape[0], features[i].values))
  }
}
