# CueBee speaker service: a verified model

This project models the core of the CueBee speaker diarization service in Dafny and proves what its
parts promise over whole runs. A packet of audio passes the gateway, is cut into windows by the
streaming frontend, embedded in cross-session batches (in process or by a C++ worker behind a pipe),
assigned to a speaker profile in a store, and placed on a timeline against which transcripts are
aligned. An autoscaler watches the load.

Each component has a functional specification (what one step does to its state), lemmas about whole
runs of that specification, and, where the program works by changing state, a class or a loop whose
contract equates it with the specification. What the specification functions mean is stated
beside them in terms of requests, samples, coordinates, milliseconds and bytes: in the modules named
`…Meaning`, in `WireFormat`, and in lemmas and predicates of the other modules.

| files | component |
|---|---|
| `Batching`, `Scheduler`, `SchedulerMeaning`, `SchedulerRuns`, `MicroBatcher` | the cross-session micro-batcher |
| `Bytes`, `RequestCodec`, `RequestReader`, `ResponseCodec`, `WireFormat` | the worker protocol, both directions, over bytes |
| `WorkerProtocol`, `WorkerRuns`, `NativeWorker` | client, worker process, reader thread; crashes, time-outs, restarts |
| `Frontend`, `FrontendMeaning`, `FrontendRuns`, `FrontendTiming` | streaming window assembly |
| `SpeakerIds`, `Store`, `SqliteStore` | the two profile stores |
| `Vectors`, `Assigner`, `AssignerMeaning`, `Recognition`, `Serializable`, `SerializableRuns` | speaker assignment, recognition and interleavings |
| `Timeline`, `SpeakerTimelines`, `Aligner` | speaker timeline and transcript alignment |
| `Autoscaler`, `Gateway` | replica recommendation, packet admission |
| `Pipeline`, `PipelineRuns`, `Packetization` | the ingestion pipeline, end to end |
| `Arithmetic`, `Sequences`, `Wrappers` | shared facts and types |

## Results where the code does not keep the plain promise

- Request size limit: the last addition of the limit (cpp/src/protocol.cc:135) is unchecked and can
  wrap at 64 bits. `RequestCodec.SizeLimitHarmlessIff` gives the exact condition under which no valid
  batch is refused, `RequestCodec.WrappedLimitRejects` a configuration that refuses one.
- Window loop: the configuration admits a hop of less than one sample, with which the loop never ends.
  `FrontendRuns.LoopEndsIff` gives the exact condition, `FrontendRuns.HopOfNoSample` such a configuration.
- Early pruning: the cutoff uses the end of the last-starting segment, not the greatest end.
  `Timeline.EarlyPruningCanLose` shows a segment lost, `Timeline.AlwaysRebuiltIff` says exactly when
  nothing is; the segments the pipeline makes satisfy the hypothesis (`Packetization.SignalDecides`).
- Centroid weights: the configuration admits a negative `max_centroid_weight`, with which an embedding
  presented again can get another speaker (`Recognition.NegativeWeightForgets`);
  `Recognition.RecognizesIff` gives the exact condition on the configuration.
- Assignment: a weighted sum can cancel, so that an embedding with a direction is not assigned
  (`Recognition.OppositeCancels`); `Recognition.AssignsIff` says exactly when, for every configuration.
- Ingestion: the gateway accepts a packet before its payload is examined, so a packet whose ingestion
  raises has used up its sequence number (`PipelineRuns.RetransmissionAfterError`,
  `PipelineRuns.ShortPayloadRaises`).
- Autoscaler: a zero `backlog_high_seconds` divides by zero; `Autoscaler.AudioBacklogAutoscaler.Recommend`
  models it as an exception that leaves the state alone.
- Batcher: the fallback that takes one request when none was selected
  (src/cuebee_speaker/inference/batcher.py:195-196) can never run under a valid configuration
  (`Batching.BatchTakes`).

## Conventions

Float32 values that are only moved are opaque 32-bit words; integers of fixed width are bounded or
wrapped explicitly. Cosines, qualities and loads are exact reals, and a Euclidean norm is any function
`norm` with `norm(v) >= 0` and `norm(v) * norm(v) == v . v`. Exceptions are values of a result type.
Clock readings, backend answers and what happens in the worker process between two client steps are
parameters over which every statement quantifies.

## Model

| member | source | states |
|---|---|---|
| `Batching.OrderedSorts` | src/cuebee_speaker/inference/batcher.py:176-183 | service order: a permutation of the bucket, strictly increasing by (deadline, enqueued, ordinal) |
| `Batching.SortUnique` | src/cuebee_speaker/inference/batcher.py:176-183 | two sequences in service order with the same elements are equal, so any sorting algorithm gives this order |
| `Batching.PickedShares` | src/cuebee_speaker/inference/batcher.py:186-193 | after any prefix of the greedy loop the caps hold, and below the global cap each session has min(limit, its count) |
| `Batching.BatchSize` | src/cuebee_speaker/inference/batcher.py:174-193 | the batch has exactly min(max_batch_size, sum over sessions of min(limit, count)) requests, at most the limit per session |
| `Batching.BatchOptimal` | src/cuebee_speaker/inference/batcher.py:174-193 | EDF optimality: any other selection within both caps is no larger, and its i-th request never precedes the i-th of the batch |
| `Batching.BatchTakes` | src/cuebee_speaker/inference/batcher.py:174-201 | a non-empty bucket gives a non-empty batch that starts with the bucket's earliest request (so the fallback at 195-196 is dead), and batch and rest together are the bucket |
| `Scheduler.SettledAt` | src/cuebee_speaker/inference/batcher.py:220-233 | after k turns of the resolving loop exactly the open futures of the first k requests have their own outcome; cancelled ones and all others are untouched |
| `Scheduler.StepKeepsInv` | src/cuebee_speaker/inference/batcher.py:65-251 | submit, cancel, close, select-and-take, execute and a clock tick all keep the scheduler invariant: each ordinal in exactly one place, every request in the bucket of its frame count with its own chunk and an open future, enqueued not after the present and before its deadline |
| `SchedulerRuns.Conservation` | src/cuebee_speaker/inference/batcher.py:83-103 | at every point of every run: submitted = queued + in flight + done, and the three are disjoint |
| `SchedulerRuns.CompletedAtMostOnce` | src/cuebee_speaker/inference/batcher.py:220-251 | a future once settled never changes again, over every run |
| `SchedulerRuns.FinishSettlesTheBatch` | src/cuebee_speaker/inference/batcher.py:203-251 | completing a batch settles every open future of that batch, all by success or all by failure according to the reply's shape, and nothing else |
| `SchedulerRuns.BatchingTransparency` | src/cuebee_speaker/inference/batcher.py:206-233 | over every run with a per-item backend, each successful result is the backend's output for that request's own features with the quality clipped to [0, 1], whatever batch it was in |
| `SchedulerRuns.SelectionExists` | src/cuebee_speaker/inference/batcher.py:155-169 | selection yields a bucket whenever some bucket is ready |
| `SchedulerRuns.SelectionUnique` | src/cuebee_speaker/inference/batcher.py:166-169 | the least (deadline, flush time, bucket) is unique |
| `SchedulerRuns.TakesGloballyEarliest` | src/cuebee_speaker/inference/batcher.py:155-193 | once a queued deadline has passed, the batch taken starts with a request of globally minimal deadline over all buckets |
| `SchedulerRuns.NoStarvation` | src/cuebee_speaker/inference/batcher.py:76-89 | a request whose deadline has passed leaves its queue within as many batches as there were queued requests due by then, whatever arrives meanwhile |
| `SchedulerRuns.WorkConservation` | src/cuebee_speaker/inference/batcher.py:133-141 | if nothing is selected, every non-empty bucket is short of full and not due; the wake time is later than the selection clock and at most each request's maximum wait and deadline |
| `SchedulerRuns.NoLostWakeup` | src/cuebee_speaker/inference/batcher.py:128-143 | at any time from the wake time on selection succeeds, whatever was submitted, cancelled or closed meanwhile |
| `SchedulerMeaning.SelectsMeans` | src/cuebee_speaker/inference/batcher.py:150-169 | the bucket selected is one that is due (closing, full, or with a request that has waited max_wait_ms or reached its deadline), of the due ones that with the earliest deadline, then the earliest such moment, then the least number |
| `SchedulerMeaning.WakeMeans` | src/cuebee_speaker/inference/batcher.py:150-172 | the wake time is the first moment at which some queued request has waited max_wait_ms or reaches its deadline |
| `SchedulerMeaning.SubmitMeans` | src/cuebee_speaker/inference/batcher.py:65-90 | an open batcher queues the request last in the first bucket that admits its frames, due the caller's deadline_ms ahead, or the default when there is none; a closing one, or a deadline not ahead, changes nothing |
| `SchedulerMeaning.TakeMeans` | src/cuebee_speaker/inference/batcher.py:174-201 | the batch respects max_batch_size and the session limit, comes soonest first, and passes a request over only when full, or its session at the limit, with sooner ones; exactly the requests passed over stay queued |
| `SchedulerMeaning.FinishMeans` | src/cuebee_speaker/inference/batcher.py:206-251 | a reply of one embedding of the right dimension and one quality per request gives each open future its own embedding, its quality held to [0, 1], the batch size and its times; any other reply fails it, with the backend's error if there is one |
| `MicroBatcher.CrossSessionMicroBatcher.BucketForFrames` | src/cuebee_speaker/inference/batcher.py:117-121 | the first boundary that admits the frame count, or one past the last |
| `MicroBatcher.CrossSessionMicroBatcher.Submit` | src/cuebee_speaker/inference/batcher.py:65-90 | rejects while closing and non-positive deadlines without queueing, otherwise appends to the bucket with the next ordinal; keeps the invariant |
| `MicroBatcher.CrossSessionMicroBatcher.SelectReadyBucket` | src/cuebee_speaker/inference/batcher.py:155-169 | returns the least of the buckets that are due by age, deadline, size or closing, or nothing exactly when none is |
| `MicroBatcher.CrossSessionMicroBatcher.NextWakeAt` | src/cuebee_speaker/inference/batcher.py:171-172 | the first moment at which a queued request has waited the maximum or reaches its deadline |
| `MicroBatcher.CrossSessionMicroBatcher.TakeBatch` | src/cuebee_speaker/inference/batcher.py:174-201 | moves exactly the greedy EDF batch out of its bucket |
| `MicroBatcher.GreedySelection` | src/cuebee_speaker/inference/batcher.py:184-193 | the loop with its per-session counts and its break computes the greedy selection |
| `MicroBatcher.FullStays` | src/cuebee_speaker/inference/batcher.py:192-193 | after the global cap is reached no later request would be selected, so the break is sound |
| `MicroBatcher.CrossSessionMicroBatcher.Execute` | src/cuebee_speaker/inference/batcher.py:203-251 | resolves the futures of the batch in flight from the reply and nothing else |
| `MicroBatcher.ResolveFutures` | src/cuebee_speaker/inference/batcher.py:220-251 | the loop over the batch settles each open future in turn, all by success or all by failure |
| `MicroBatcher.CrossSessionMicroBatcher.DrainWhenClosing` | src/cuebee_speaker/inference/batcher.py:123-145 | after close the runner ends with every queue empty and no future pending, whatever the backend answers and whatever futures callers cancel before and during each batch; settled futures are kept |
| `MicroBatcher.CrossSessionMicroBatcher.CloseAndDrain` | src/cuebee_speaker/inference/batcher.py:92-98 | close: no submission is accepted any more, and the drain ends with nothing queued or pending |
| `MicroBatcher.ServeKeeps` | src/cuebee_speaker/inference/batcher.py:142-145 | taking a batch, any cancellations meanwhile and completing it leave strictly fewer requests queued and every settled future as it was |
| `Bytes.DecodeLoop` | cpp/src/protocol.cc:28-46 | the shift-and-or loops compute the little-endian value of the bytes |
| `Bytes.EncodeLoop` | cpp/src/protocol.cc:56-72 | the byte loops write the little-endian bytes of the value |
| `Bytes.DecodeEncode` | cpp/src/protocol.cc:23-72 | decoding the n low bytes of v gives v modulo 256^n, and v itself when it fits |
| `Bytes.EncodeDecode` | cpp/src/protocol.cc:23-72 | encoding a decoded value gives the same bytes back |
| `Bytes.UnpackPack` | src/cuebee_speaker/inference/native_worker.py:259-268 | a packed header unpacks to itself |
| `Bytes.PackUnpack` | cpp/src/protocol.cc:104-118 | every 32 bytes are the packing of the header read from them |
| `RequestCodec.ValidateFeatures` | src/cuebee_speaker/inference/native_worker.py:161-174 | accepts exactly the batches within the limits of non-empty finite [time, 80] matrices, reports the first violated rule, and passes values on unchanged |
| `RequestCodec.CheckedMultiply` | cpp/src/protocol.cc:80-87 | the product, or nothing exactly when it exceeds 64 bits |
| `RequestCodec.DecodeEncodedRequest` | cpp/src/protocol.cc:91-201 | an encoded request within the limits decodes to itself and consumes exactly its own bytes, whatever follows |
| `RequestCodec.EncodeDecodedRequest` | cpp/src/protocol.cc:91-201 | whenever reading succeeds, the consumed bytes are the encoding of the request returned |
| `RequestCodec.RequestInjective` | src/cuebee_speaker/inference/native_worker.py:252-268 | that encoding is unique: two encodings followed by anything are equal streams only for the same request |
| `RequestCodec.AcceptedIff` | cpp/src/protocol.cc:114-200 | the worker accepts an encoded request if and only if it is serviceable and its payload is within the size limit |
| `RequestCodec.MaximumBytesValue` | cpp/src/protocol.cc:127-135 | the computed limit is the full size of the largest batch unless its unchecked last addition wraps at 64 bits |
| `RequestCodec.SizeLimitHarmlessIff` | cpp/src/protocol.cc:127-139 | the size limit never rejects a sendable batch if and only if the limit does not wrap or what it wraps to admits every 32-bit length |
| `RequestCodec.WrappedLimitRejects` | cpp/src/protocol.cc:135-139 | a concrete configuration whose limit wraps to 600 bytes and refuses two one-frame matrices |
| `WireFormat.RequestOnWire` | src/cuebee_speaker/inference/native_worker.py:254-268 | the bytes of a request, place by place: CBSP, version, operation, id, batch size, bins, payload length, zero, then the matrices |
| `WireFormat.MatrixOnWire` | src/cuebee_speaker/inference/native_worker.py:255-257 | a matrix is its frame count and then its words in order, each in four bytes from the lowest |
| `RequestReader.ReadRequest` | cpp/src/protocol.cc:91-201 | the imperative reader gives exactly the outcome, request, error text and rest of stream of the functional parser, for every byte stream |
| `RequestReader.ReadItems` | cpp/src/protocol.cc:164-200 | the item loop with its running offset stays inside the payload and yields the parsed items |
| `RequestReader.ReadValues` | cpp/src/protocol.cc:186-193 | the float loop yields the words at successive offsets |
| `ResponseCodec.WriteResponse` | cpp/src/protocol.cc:203-242 | writes the encoding, or nothing exactly when an embedding has a wrong dimension or a length exceeds 32 bits |
| `ResponseCodec.ReadWritten` | src/cuebee_speaker/inference/native_worker.py:307-360 | a written response of at most 256 MiB is read back as itself, whatever follows; results are dropped exactly when the status is not OK |
| `ResponseCodec.StreamRoundTrip` | src/cuebee_speaker/inference/native_worker.py:307-360 | a concatenation of written responses is parsed into exactly that sequence |
| `ResponseCodec.CutResponseFails` | src/cuebee_speaker/inference/native_worker.py:49-58 | a response cut short yields no message, only the reader's failure |
| `ResponseCodec.OversizedFails` | src/cuebee_speaker/inference/native_worker.py:323-324 | a response above 256 MiB makes the reader fail |
| `ResponseCodec.SeenInjective` | cpp/src/protocol.cc:203-236 | what the client sees determines status, id and error bytes of every response, and every result word of a successful one |
| `ResponseCodec.ReadExact` | src/cuebee_speaker/inference/native_worker.py:49-58 | however the pipe cuts the data: exactly the requested bytes in order, or end of stream exactly when there are fewer |
| `ResponseCodec.ReaderLoop` | src/cuebee_speaker/inference/native_worker.py:300-362 | the reader thread queues exactly the messages in the pipe, then its failure |
| `WireFormat.ResponseOnWire` | cpp/src/protocol.cc:203-242 | the bytes of a response, place by place: CBSR, version, status, id, result count, dimension, payload length, error length, then the error |
| `WireFormat.ReaderTakes` | src/cuebee_speaker/inference/native_worker.py:307-360 | the reader accepts exactly: CBSR, version 1, at most 256 MiB of payload, all of it there, no shorter than its error, and for status 0 results of dimension 192 that fill the rest |
| `WireFormat.OwnReplyOnly` | src/cuebee_speaker/inference/native_worker.py:288-298 | in every state, stale replies queued or not, an exchange returns only a response that bears its own id and status 0 |
| `WireFormat.AnswersMean` | cpp/src/worker_main.cc:119-144 | a ping and a shutdown are acknowledged, the latter ends the worker; an inference request gets the engine's results or its error as status 2; any other operation status 3 |
| `WireFormat.RefusalMeans` | cpp/src/worker_main.cc:110-117 | a request that cannot be read is refused with status 1 under the id it carried, and the worker ends |
| `WorkerProtocol.AwaitsAll` | cpp/src/worker_main.cc:102-145 | from the write of a request to its reply every schedule of work, reads and crashes leaves the process in a state that owes at most that one reply |
| `WorkerRuns.FirstMessage` | src/cuebee_speaker/inference/native_worker.py:279-298 | the first message of an awaiting process is the owed reply or the reader's failure; once it is taken the process owes nothing |
| `WorkerRuns.OwedIsEngines` | cpp/src/worker_main.cc:119-144 | the reply owed to an inference request carries its id and, on success, the engine's results for exactly those matrices, on a backend error the engine's message |
| `WorkerRuns.ExchangeKeepsIdle` | src/cuebee_speaker/inference/native_worker.py:243-298 | between calls a live process owes no reply and its queue holds at most a terminal reader error |
| `WorkerRuns.ExchangeGenuine` | src/cuebee_speaker/inference/native_worker.py:243-298 | a reply returned by an exchange is the engine's for that request |
| `WorkerRuns.InferRefinesEngine` | src/cuebee_speaker/inference/native_worker.py:128-140 | under every schedule of crashes, late replies, time-outs and restarts, a call that returns gives bit for bit the engine's result, an execution error the engine's error, and the client is idle again |
| `WorkerRuns.LifetimeRefinesEngine` | src/cuebee_speaker/inference/native_worker.py:66-159 | the same for every call over the whole lifetime of a client, from its constructor on |
| `WorkerRuns.HealthyExchange` | src/cuebee_speaker/inference/native_worker.py:243-298 | a live process that does not crash and whose worker and then reader get a turn answers with the engine's results or its error, in every such schedule and whatever other processes do, and stays the client's process |
| `WorkerRuns.HealthyCall` | src/cuebee_speaker/inference/native_worker.py:131-139 | a call whose first attempt is healthy returns the engine's results, or raises with the engine's error, keeps its process and starts none |
| `WorkerRuns.CallEndsAt` | src/cuebee_speaker/inference/native_worker.py:131-139 | a call ends as its first exchange that does not fail in transport says; it ends unavailable only after one that does, with no attempt left or no new process to be had, and then without a process |
| `WorkerRuns.HealthyStart` | src/cuebee_speaker/inference/native_worker.py:103-114 | a worker that answers the first ping is kept: the client starts with one live process |
| `WorkerRuns.IdsAdvance` | src/cuebee_speaker/inference/native_worker.py:252-253 | every request written to a process carries a new id |
| `WorkerRuns.RestartRecovers` | src/cuebee_speaker/inference/native_worker.py:131-139 | after any number of failed attempts one healthy attempt on the restarted worker tells the caller the engine's results or its error |
| `WorkerRuns.CloseAsks` | src/cuebee_speaker/inference/native_worker.py:142-153 | closing a live worker sends it a shutdown request before it is stopped |
| `NativeWorker.NativeWorkerBackend.constructor` | src/cuebee_speaker/inference/native_worker.py:103-114 | starts a worker and pings it; on failure the worker is stopped |
| `NativeWorker.NativeWorkerBackend.Exchange` | src/cuebee_speaker/inference/native_worker.py:243-298 | one request and its reply with the next id, or the kind of failure |
| `NativeWorker.NativeWorkerBackend.InferBatch` | src/cuebee_speaker/inference/native_worker.py:121-140 | empty batch, invalid batch, closed client and served batch are told apart; a success is the engine's result for these arrays, and a healthy first attempt ends in the engine's results or its error on the same process |
| `NativeWorker.NativeWorkerBackend.Retry` | src/cuebee_speaker/inference/native_worker.py:131-139 | at most restart_attempts + 1 exchanges, a fresh worker after each transport failure; the first exchange that is none decides, execution errors included |
| `NativeWorker.NativeWorkerBackend.Close` | src/cuebee_speaker/inference/native_worker.py:142-153 | idempotent; afterwards no process is left |
| `Frontend.CutsIff` | src/cuebee_speaker/audio/frontend.py:87-105 | a valid configuration advances the loop by at least one sample if and only if sample_rate * hop_ms >= 1000 |
| `Frontend.RoundDiv` | src/cuebee_speaker/audio/frontend.py:53 | round to nearest: exact on multiples, otherwise off by at most half |
| `Frontend.StreamingAudioFrontend.PushChunk` | src/cuebee_speaker/audio/frontend.py:46-81 | a rejected packet changes nothing; an accepted one acts on its own session only: epoch change, large gap, overlap trimming, duplicate, append and cut; required is only that the window loop ends |
| `Frontend.StreamingAudioFrontend.EmitCompleteWindows` | src/cuebee_speaker/audio/frontend.py:83-106 | the loop emits exactly the speech windows of the buffer and leaves its suffix |
| `Frontend.StreamingAudioFrontend.Flush` | src/cuebee_speaker/audio/frontend.py:108-130 | removes the stream; at most one chunk, of the audio still buffered |
| `FrontendMeaning.PushEmits` | src/cuebee_speaker/audio/frontend.py:83-106 | the chunks of one packet are, in order and numbered on, those of exactly the examined windows whose speech ratio is at least min_speech_ratio, each with its window's times, features and ratio |
| `FrontendMeaning.PushAllEmits` | src/cuebee_speaker/audio/frontend.py:83-106 | the same over any number of packets |
| `FrontendMeaning.CheckMeans` | src/cuebee_speaker/audio/frontend.py:47-56 | a packet passes if and only if it has the configured rate and its sample count is within two samples or two per cent of the nearest to its duration |
| `FrontendMeaning.PushMeans` | src/cuebee_speaker/audio/frontend.py:69-81 | a further packet replaces the buffer after a gap above frame_ms, follows it after a smaller one, loses the samples nearest to an overlap first, and changes nothing when it has no others |
| `FrontendMeaning.OverlapIsNearest` | src/cuebee_speaker/audio/frontend.py:73-77 | repeated audio is cut off to the nearest sample |
| `FrontendMeaning.EpochRestarts` | src/cuebee_speaker/audio/frontend.py:59-67 | a packet of another epoch is treated as the first of a new session |
| `FrontendMeaning.FirstIsBuffered` | src/cuebee_speaker/audio/frontend.py:60-81 | the first packet of an epoch is windowed from its own start |
| `FrontendMeaning.FlushMeans` | src/cuebee_speaker/audio/frontend.py:108-130 | a flush emits the buffered audio if and only if it holds a filter bank frame and 300 ms and enough speech, from the base time and for the nearest millisecond of its length |
| `FrontendRuns.WindowsClosedForm` | src/cuebee_speaker/audio/frontend.py:87-105 | the windows examined are exactly the slices [kH, kH + W) that fit, starting at base + k * hop_ms; what stays is the suffix after the last hop, shorter than W |
| `FrontendRuns.PacketizationIndependence` | src/cuebee_speaker/audio/frontend.py:46-106 | however a contiguous signal is cut into packets, windows, chunks and stream state are those of the whole signal appended at once |
| `FrontendRuns.SameSignalSameOutput` | src/cuebee_speaker/audio/frontend.py:46-106 | two packetizations of one signal are indistinguishable |
| `FrontendRuns.LoopEndsIff` | src/cuebee_speaker/audio/frontend.py:87-105 | the window loop terminates if and only if there is nothing to cut or sample_rate * hop_ms >= 1000 |
| `FrontendRuns.HopOfNoSample` | src/cuebee_speaker/audio/frontend.py:87-105 | a concrete accepted configuration (500 samples a second, hop of 1 ms) whose loop leaves a full window where it is, however often it turns |
| `FrontendTiming.ExactPasses` | src/cuebee_speaker/audio/frontend.py:53-56 | packets of exact length are never refused |
| `FrontendTiming.PushKeepsRun` | src/cuebee_speaker/audio/frontend.py:58-106 | one packet with any gap or overlap keeps the timing invariant; its windows lie within the drift |
| `FrontendTiming.LargeGapSeparates` | src/cuebee_speaker/audio/frontend.py:69-73 | after a gap above frame_ms every window examined from then on, in that packet and in all later ones of the epoch, starts after all earlier windows have ended |
| `FrontendTiming.TimingInvariant` | src/cuebee_speaker/audio/frontend.py:58-106 | over any stream of exact packets of one epoch: base plus buffered duration is expected end minus the absorbed gaps, window starts strictly increase, no window hides a gap above frame_ms |
| `Vectors.CosineGrows` | src/cuebee_speaker/assignment.py:119-123 | the scalar inequality behind the centroid update |
| `Vectors.AbsorbingKeepsCosine` | src/cuebee_speaker/assignment.py:119-123 | an update with harmless weights (non-negative, or a negative one at most half the new weight) never lowers the cosine to the embedding absorbed |
| `Assigner.NearestListed` | src/cuebee_speaker/assignment.py:102-110 | `_nearest` picks the speaker with the largest cosine of the session, and the first identifier among equals |
| `Assigner.CreatesIff` | src/cuebee_speaker/assignment.py:49-58 | a new profile is created if and only if every cosine of the session is below the threshold |
| `Assigner.AssignKeepsFit` | src/cuebee_speaker/assignment.py:43-62 | every assignment keeps unit centroids of one dimension, positive sample counts and identifiers below the next number |
| `Recognition.AssignedWins` | src/cuebee_speaker/assignment.py:43-63 | after a successful assignment the speaker named has the winning cosine for that embedding, at or above the threshold |
| `Recognition.SameSpeakerAgain` | src/cuebee_speaker/assignment.py:43-63 | re-presenting the embedding at passing quality names the same speaker, ties included, and creates nothing, under every stable weight limit |
| `Recognition.RecognizesIff` | src/cuebee_speaker/assignment.py:43-63 | exactly when that holds for all fit stores of a dimension: the weight limit is non-negative, or twice its size is at most max(min_quality, 0.05); where only a cosine of one can matter (threshold 1, or dimension 1) its size may reach that value and 1e-12 more |
| `Recognition.NegativeWeightForgets` | src/cuebee_speaker/assignment.py:119-123 | a concrete configuration with a negative max_centroid_weight under which the same embedding presented again gets a new speaker |
| `Recognition.AssignsIff` | src/cuebee_speaker/assignment.py:43-62 | for every threshold and weight limit: an embedding of passing quality is assigned if and only if its norm exceeds 1e-12 and, if the winner reaches the threshold, so does that of the weighted sum with its centroid |
| `Recognition.SteadyAssigns` | src/cuebee_speaker/assignment.py:43-62 | unless the threshold lies in the immediate neighbourhood of -1, with a non-negative weight limit the first condition alone decides |
| `Recognition.OppositeCancels` | src/cuebee_speaker/assignment.py:119-123 | at threshold -1 an embedding opposite to the only centroid fails although its norm is 1 |
| `Assigner.NewIdIsFresh` | src/cuebee_speaker/state/store.py:81-94 | a new identifier never collides with a stored one |
| `Assigner.OnlineSpeakerAssigner.AssignResult` | src/cuebee_speaker/assignment.py:31-71 | low quality, missing direction, new speaker and update, with the store left as the decision says; a failure writes nothing |
| `AssignerMeaning.LowQualityIgnored` | src/cuebee_speaker/assignment.py:31-41 | below min_quality nothing is stored and the segment is of spk_unknown with the quality as it came |
| `AssignerMeaning.NoDirectionFails` | src/cuebee_speaker/assignment.py:43 | an embedding of norm at most 1e-12 raises and stores nothing |
| `AssignerMeaning.NewSpeaker` | src/cuebee_speaker/assignment.py:49-71 | with all cosines below the threshold one profile is added, of the session's next number: direction of the embedding, one sample, its quality and end; the confidence is the quality held to [0, 1] |
| `AssignerMeaning.KnownSpeaker` | src/cuebee_speaker/assignment.py:60-71 | otherwise only the profile of the largest cosine changes, by absorbing the embedding; the confidence is that cosine held to [0, 1] |
| `AssignerMeaning.UpdateAbsorbs` | src/cuebee_speaker/assignment.py:112-134 | coordinate by coordinate: old centroid times min(samples, limit) times max(average quality, 0.05) plus embedding times max(quality, 0.05), divided by its norm; one more sample, the average moved by alpha towards the quality, name kept |
| `AssignerMeaning.DotIsSum` | src/cuebee_speaker/assignment.py:108 | the score is the sum of the products of coordinates |
| `Assigner.OnlineSpeakerAssigner.RenameSpeaker` | src/cuebee_speaker/assignment.py:73-84 | renames in the store and reports whether the speaker exists |
| `Serializable.EveryRunIsSerial` | src/cuebee_speaker/assignment.py:43-62 | every interleaving of assignments (lock, read, write) and renames leaves the store and gives the answers of some serial order, that of finishing |
| `Serializable.NoDeadlock` | src/cuebee_speaker/assignment.py:44-84 | while a task is unfinished some step is enabled |
| `Serializable.StepsEnd` | src/cuebee_speaker/assignment.py:44-84 | every step brings the tasks closer to their end |
| `SerializableRuns.SessionsIndependent` | src/cuebee_speaker/assignment.py:43-62 | after every run a session is what its own tasks alone make of it |
| `SerializableRuns.NoRenameLost` | src/cuebee_speaker/assignment.py:73-84 | after every run a speaker bears the name of its last successful rename, whatever assignments were under way |
| `SerializableRuns.SampleCounts` | src/cuebee_speaker/assignment.py:130 | after every run a session's sample counts have grown by exactly the number of its completed quality-passing assignments |
| `SerializableRuns.QualityInRange` | src/cuebee_speaker/assignment.py:124-131 | after every run each quality average lies in [min_quality, 1] |
| `Store.InMemorySpeakerStore.ListProfiles` | src/cuebee_speaker/state/store.py:63-70 | the session's profiles in identifier order |
| `Store.InMemorySpeakerStore.CreateProfile` | src/cuebee_speaker/state/store.py:72-94 | the operation Create on the abstract state |
| `Store.InMemorySpeakerStore.UpdateProfile` | src/cuebee_speaker/state/store.py:96-101 | replaces an existing profile, reports a missing one and changes nothing |
| `Store.InMemorySpeakerStore.RenameSpeaker` | src/cuebee_speaker/state/store.py:103-112 | changes only the display name of an existing profile |
| `Store.InMemorySpeakerStore.DeleteSession` | src/cuebee_speaker/state/store.py:114-119 | removes the session's profiles and its counter, nothing else |
| `Store.IdsNeverReused` | src/cuebee_speaker/state/store.py:80-94 | two creations in a session with no delete_session between them give different identifiers |
| `Store.ReadAfterCreate` | src/cuebee_speaker/state/store.py:72-94 | later listings show the profile created, with its fields, and everything else as before |
| `Store.ReadAfterUpdate` | src/cuebee_speaker/state/store.py:96-101 | later listings show the profile in place of the one with its identifier; if there was none it raises and nothing changes |
| `Store.ReadAfterRename` | src/cuebee_speaker/state/store.py:103-112 | later listings show that speaker under the new name and otherwise as before, everybody else untouched |
| `Store.ReadAfterDelete` | src/cuebee_speaker/state/store.py:114-119 | the session is shown empty and numbers from one again, others are untouched |
| `Store.ListingLists` | src/cuebee_speaker/state/store.py:63-70 | a listing shows exactly the stored profiles of the session, each once, ascending by identifier |
| `SpeakerIds.SuffixOfSpeakerId` | src/cuebee_speaker/state/store.py:208-213 | the number parsed from a generated identifier is the number it was generated from |
| `SpeakerIds.InOrderSorts` | src/cuebee_speaker/state/store.py:70 | the listing order is a strictly ascending enumeration of the session's identifiers |
| `SpeakerIds.StrLeMeans` | src/cuebee_speaker/state/store.py:70 | the order is that of strings: a prefix first, otherwise the first difference decides |
| `SqliteStore.RowRoundTrip` | src/cuebee_speaker/state/store.py:321-330 | a stored row reads back as the profile, the blob word for word |
| `SqliteStore.AllocationNeverCollides` | src/cuebee_speaker/state/store.py:193-231 | the allocated identifier hits no existing row, even when the counter row is missing |
| `SqliteStore.ExecuteIsApply` | src/cuebee_speaker/state/store.py:167-315 | each operation on the tables is the same operation on what they stand for, output included |
| `SqliteStore.StoresEquivalent` | src/cuebee_speaker/state/store.py:57-319 | over every sequence of create, update, rename, delete and list, with the SQLite store closed and reopened at any points, both stores give the same outputs |
| `SqliteStore.SQLiteSpeakerStore.CreateProfile` | src/cuebee_speaker/state/store.py:181-260 | the transaction: counter, fallback to the largest suffix, insert |
| `SqliteStore.NextNumber` | src/cuebee_speaker/state/store.py:193-222 | the counter, or one more than the largest number in use |
| `Timeline.PutAllWinner` | src/cuebee_speaker/alignment.py:28-35 | a slot holds the latest among its segments of highest revision |
| `Timeline.ListedSorts` | src/cuebee_speaker/alignment.py:36 | the stored list is exactly the table's segments, strictly sorted by slot |
| `Timeline.IncrementalEqualsRebuild` | src/cuebee_speaker/alignment.py:22-40 | if later-starting segments never end earlier, the incremental table equals the rebuild of everything ever added, pruned once |
| `Timeline.AddEqualsRebuildIff` | src/cuebee_speaker/alignment.py:31-39 | without that hypothesis one add equals the rebuild if and only if every forgotten segment stays below the new cutoff or is overtaken in the batch |
| `Timeline.AlwaysRebuiltIff` | src/cuebee_speaker/alignment.py:22-40 | over whole runs of add without that hypothesis the stored table is the rebuilt one after every call if and only if no call brings back a forgotten segment |
| `Timeline.EarlyPruningCanLose` | src/cuebee_speaker/alignment.py:37-39 | a concrete history in which pruning early loses a segment |
| `SpeakerTimelines.SpeakerTimeline.Add` | src/cuebee_speaker/alignment.py:22-40 | the sessions named get the listing of their updated tables, the others keep theirs |
| `SpeakerTimelines.SpeakerTimeline.Query` | src/cuebee_speaker/alignment.py:42-50 | exactly the stored segments that share time with the range, in stored order |
| `SpeakerTimelines.Filter` | src/cuebee_speaker/alignment.py:45-50 | the comprehension, segment by segment |
| `SpeakerTimelines.Merge` | src/cuebee_speaker/alignment.py:28-39 | the body of add for one session: replacement by revision, sort, prune |
| `SpeakerTimelines.TimelineEqualsRebuild` | src/cuebee_speaker/alignment.py:22-40 | the stored list after any run of add calls is the rebuilt one |
| `SpeakerTimelines.StoredMeans` | src/cuebee_speaker/alignment.py:22-40 | of everything ever added the stored list holds exactly the latest segments of highest revision for their slot that end no more than the retention before the last-sorting one ends, for segments whose ends follow their starts |
| `SpeakerTimelines.OverlapIsShared` | src/cuebee_speaker/alignment.py:12-13 | the overlap of two ranges is the number of milliseconds in both |
| `Aligner.RankedIsFirstBest` | src/cuebee_speaker/alignment.py:113-121 | the head of the stable descending sort is the first segment of highest (overlap, confidence, earlier start) |
| `Aligner.PrefilterExact` | src/cuebee_speaker/alignment.py:107-124 | for a range inside the event, attribution against the overlapping segments equals attribution against all, ties included |
| `Aligner.PrefilterSafeIff` | src/cuebee_speaker/alignment.py:107-124 | that holds for every timeline if and only if the range is empty or inside the event |
| `Aligner.Align` | src/cuebee_speaker/alignment.py:60-105 | the imperative alignment yields the specified spans |
| `Aligner.GroupWords` | src/cuebee_speaker/alignment.py:87-92 | the grouping loop yields maximal runs of one speaker whose words concatenate to the input |
| `Aligner.AlignedPartitions` | src/cuebee_speaker/alignment.py:60-105 | the spans' words concatenate to the transcript's, each under the label of its own best speaker; neighbouring spans differ in speaker; a span runs from its first word's start to its last word's end |
| `Aligner.LabelIsArgmax` | src/cuebee_speaker/alignment.py:107-124 | the label is spk_unknown if and only if no segment of the tenant and session shares a millisecond with the word; otherwise it is of the segment that shares the most, then of the higher confidence, the earlier start, the earlier place |
| `Aligner.WholeSegment` | src/cuebee_speaker/alignment.py:60-75 | a transcript without words is one span with its own text and times, labelled as one word would be |
| `Aligner.PrefilteredAlignment` | src/cuebee_speaker/pipeline.py:77-82 | aligning against the query of the event range gives the same spans as aligning against the whole timeline |
| `Autoscaler.AudioBacklogAutoscaler.Recommend` | src/cuebee_speaker/autoscaler.py:41-117 | invalid samples and the division by zero leave the state alone; any other sample gets the least replica count that carries the audio at the target utilization as raw target and the action that load, cooldown and hysteresis call for |
| `Autoscaler.DecideRecommends` | src/cuebee_speaker/autoscaler.py:44-117 | the raw target is the least count within the bounds that carries arrival times real-time factor at the target utilization; the wanted count the least that also meets backlog and queueing delay; up at once when cooled down, down by one after enough low samples, otherwise hold; the reasons given are exactly those that apply, in order |
| `Autoscaler.AudioBacklogAutoscaler.Correct` | src/cuebee_speaker/autoscaler.py:44-62 | the raw target raised for backlog and queueing delay, and the reasons given |
| `Autoscaler.AudioBacklogAutoscaler.Hysteresis` | src/cuebee_speaker/autoscaler.py:64-117 | cooldown and low windows and what they make of the desired count |
| `Autoscaler.NeverCrosses` | src/cuebee_speaker/autoscaler.py:41-117 | under constant calm load the replica count never crosses the raw target and never moves away from it |
| `Autoscaler.Converges` | src/cuebee_speaker/autoscaler.py:41-117 | it reaches the raw target and holds it forever |
| `Autoscaler.LowWindowsCount` | src/cuebee_speaker/autoscaler.py:86-89 | the counter is the number of low samples since the last action or non-low sample |
| `Autoscaler.ActionsApart` | src/cuebee_speaker/autoscaler.py:64-71 | for arbitrary samples consecutive actions are at least the cooldown apart |
| `Autoscaler.ScaleDownSustained` | src/cuebee_speaker/autoscaler.py:91-106 | each scale-down ends scale_down_windows consecutive low samples with no action between |
| `Gateway.EventGateway.Accept` | src/cuebee_speaker/gateway.py:29-52 | the decision and the new cursor; no other session is touched and a rejected packet changes nothing |
| `Gateway.DecisionMeans` | src/cuebee_speaker/gateway.py:29-52 | a packet is accepted if and only if it is the first, of a newer epoch, or further on in the same; the numbers reported missing are exactly those awaited before it; the next expected one follows the last accepted |
| `Gateway.CursorMonotone` | src/cuebee_speaker/gateway.py:33-51 | the cursor never moves backwards |
| `Gateway.AcceptedIncrease` | src/cuebee_speaker/gateway.py:29-52 | accepted packets strictly increase in (epoch, sequence), so none is admitted twice |
| `Gateway.Accounting` | src/cuebee_speaker/gateway.py:29-52 | in the current epoch the accepted and the missing numbers are disjoint and together exactly [0, last_seq] |
| `Gateway.EveryNumberPlaced` | src/cuebee_speaker/gateway.py:29-52 | the same in terms of packets: each number up to the cursor is that of exactly one of an accepted packet and a reported gap of the current epoch |
| `Gateway.MissingNeverAccepted` | src/cuebee_speaker/gateway.py:45-52 | a number once reported missing is never accepted in that epoch |
| `Gateway.SessionsIndependent` | src/cuebee_speaker/gateway.py:29-56 | a session's cursor is that of its own packets since it was last forgotten |
| `Pipeline.DiarizationPipeline.IngestAudio` | src/cuebee_speaker/pipeline.py:47-67 | accept, push, flush if final, process, add to the timeline, in that order, with what each exception leaves behind; the batcher's answers are those of this call |
| `Pipeline.DiarizationPipeline.FlushSession` | src/cuebee_speaker/pipeline.py:69-75 | the flushed chunk is processed and added to the timeline |
| `Pipeline.DiarizationPipeline.ProcessFeatures` | src/cuebee_speaker/pipeline.py:99-109 | all answers of this call or an exception, then sorted by start and end and assigned one after another |
| `Pipeline.DiarizationPipeline.AlignStt` | src/cuebee_speaker/pipeline.py:77-88 | for words inside the event the spans are those of aligning against the whole session timeline |
| `Pipeline.SortedSorts` | src/cuebee_speaker/pipeline.py:105 | the sort orders the results and loses none |
| `Pipeline.SortChangesNothing` | src/cuebee_speaker/pipeline.py:105 | the chunks of one packet already come in strictly increasing start order, so the sort never moves anything |
| `Pipeline.SegmentsMatch` | src/cuebee_speaker/pipeline.py:106-109 | one segment per result, in order, over the same range and for the same session |
| `Pipeline.ResultsMatch` | src/cuebee_speaker/pipeline.py:104 | there are results if and only if every chunk is answered, each with its chunk's times, embedding and quality |
| `Pipeline.AssignedInTurn` | src/cuebee_speaker/pipeline.py:106-109 | each segment carries the assigner's answer to its result given the store the results before it left; the first failure stores nothing, ends the call and leaves no segment |
| `PipelineRuns.FrontendSeesAdmitted` | src/cuebee_speaker/pipeline.py:50-62 | over any run of any sessions the frontend has seen exactly each session's admitted packets |
| `PipelineRuns.AdmittedIncrease` | src/cuebee_speaker/pipeline.py:50-62 | those come in strictly increasing (epoch, sequence) order, so each number reaches the frontend at most once |
| `PipelineRuns.RetransmissionAfterError` | src/cuebee_speaker/pipeline.py:50-63 | a packet whose ingestion raised has used up its number: sent again, whatever the batcher would answer now, it is a duplicate and changes nothing |
| `PipelineRuns.ShortPayloadRaises` | src/cuebee_speaker/pipeline.py:50-60 | there is such a packet in every state: an admitted one with an empty payload for one second |
| `Packetization.SignalDecides` | src/cuebee_speaker/pipeline.py:47-67 | end to end: if the contiguous packets of a new session, the last one possibly final, raise no exception, then profiles, segments and buffer are those of the whole signal cut at once, and the timeline is the rebuild of all its segments; they raise none if the batcher answers every chunk and the signal's chunks can be processed |
| `Packetization.PacketsInvisible` | src/cuebee_speaker/pipeline.py:47-67 | two packetizations of one signal, through whatever batches, give the same profiles, segments, timeline and buffer if neither raises an exception |

## Left out

- MicroBatcher.CrossSessionMicroBatcher.Submit: reads the clock and appends in one atomic step; the code reads the clock (batcher.py:76) before it takes the lock (batcher.py:83), so two submissions may be queued in the other order of their clock readings.
- SchedulerRuns.NoStarvation: counts batches, not seconds; how long a batch takes is the backend's matter.
- SchedulerRuns.BatchingTransparency: the backend is any per-item function that may also fail or answer in a wrong shape; worker id, the observer callback and `backlog()` are not modelled.
- WorkerProtocol.AwaitsAll: a pipe write is complete unless the process dies, and the worker takes up a request when all of it is there; partial writes of a living process and signals are not modelled.
- ResponseCodec.ReadWritten: error text is kept as bytes; replacement decoding of invalid UTF-8 is not modelled.
- NativeWorker.NativeWorkerBackend.constructor: path and permission checks, the command line, captured stderr and process spawning failures are not modelled.
- Frontend.StreamingAudioFrontend.PushChunk: PCM decoding, voice activity and filter bank are uninterpreted functions of the samples; the rounding of float divisions is that of exact quotients. A packet on which the window loop would not end (`FrontendRuns.LoopEndsIff`) has no result.
- FrontendTiming.TimingInvariant: assumes a sample rate that is a multiple of 1000 and packets of exact length, as only then do time stamps and sample counts agree.
- Frontend.StreamingAudioFrontend.Flush: chunk ids restart after a flush because the counter lives in the removed stream; the code promises no uniqueness across flushes.
- Recognition.SameSpeakerAgain: in exact reals; float32 rounding is not modelled. It speaks of assignments that succeed; `Recognition.AssignsIff` says when they do.
- Recognition.RecognizesIff: for thresholds of 1 or at most 1 - 3e-22, which are all a double can hold; for stores whose quality averages lie between the minimal quality and 1, as `SerializableRuns.QualityInRange` shows they do.
- Assigner.OnlineSpeakerAssigner.AssignResult: runs without its lock, as one call; locks, threads and interleavings are modelled on values in Serializable. It is stated over the in-memory store; the SQLite store is equivalent by `SqliteStore.StoresEquivalent`.
- Serializable.EveryRunIsSerial: one store call is one atomic step, as both stores lock each call; the lock-free `profiles()` reader changes nothing and is left out.
- SerializableRuns.QualityInRange: requires qualities of at most 1, which the batcher's clipping (batcher.py:227) gives.
- SqliteStore.StoresEquivalent: tables are maps and transactions atomic; SQL text, WAL and disk failures are not modelled. Identifier order is that of characters, and `isdigit` means ASCII digits, as in generated identifiers.
- Timeline.IncrementalEqualsRebuild: one-sided, under the hypothesis on ends; the exact condition is `Timeline.AlwaysRebuiltIff`, for a non-negative retention.
- Aligner.Align: the spacing rules of `_join_words` are a function parameter; segment id and revision are copied through and not part of the span.
- Autoscaler.Converges: constant calm load, ticks at least a fixed period apart, decisions applied at once; for varying load only the statements about actions hold.
- Pipeline.DiarizationPipeline.IngestAudio: one packet at a time; the session lock and other sessions' concurrent assignments are the matter of Serializable. A call may be answered for some chunks and raise for others, and another call otherwise for the same chunk; metrics are left out, and a hop of at least one sample is assumed.
- Packetization.SignalDecides: contiguous packets of one epoch of a new session, in increasing sequence order; other arrivals are covered by the frontend and gateway results. Successful answers are one function of a chunk's features, as `SchedulerRuns.BatchingTransparency` shows of a per-item backend; nothing is assumed of which calls fail. After a final packet the timeline equation is stated for sample rates of at least 2000 or whole thousands, at which rounding cannot shorten the flushed chunk.
- Server, factory, demo, load generator, metrics, configuration parsing and deployment files: I/O, wiring and reporting.
- ONNX and deterministic engines, filter bank and decibel computations: transcendental numerics, kept uninterpreted.
