/**
 * The outbound send loop: the producer that enqueues deltas and the batcher that flushes them.
 *
 * JavaScript runs one callback at a time and yields only at an `await`, so the loop is a
 * transition system: every callback is one atomic step, the `await` inside a flush splits it into
 * the part before it and two possible continuations, and the event loop may interleave the steps
 * in any order. `Step` gives one step, `Run` an arbitrary finite interleaving. A delta is
 * represented by its arrival number.
 */
module SendLoop {
  import opened Common

  const MAX_DELTAS_BUFFER_SIZE: nat := 1000
  const DELTA_BUFFER_DROP_RATIO: real := 0.5
  const OVERFLOW_DROP: nat := (MAX_DELTAS_BUFFER_SIZE as real * DELTA_BUFFER_DROP_RATIO).Floor
  const DELTA_SEND_MAX_RETRIES: nat := 1
  const MAX_SAFE_UDP_PAYLOAD: real := 1400.0
  const SMART_BATCH_SAFETY_MARGIN: real := 0.85
  const SMART_BATCH_SMOOTHING: real := 0.2
  const SMART_BATCH_INITIAL_ESTIMATE: real := 200.0
  const SMART_BATCH_MIN_DELTAS: nat := 1
  const SMART_BATCH_MAX_DELTAS: nat := 50

  /** The continuation of a flush that is waiting for its send to settle. */
  datatype Flight = Flight(batch: seq<nat>, actualBatchSize: nat, retryCount: nat, overflowsBefore: nat)

  /** An armed back-off timer and the arguments it will pass to the flush. */
  datatype Retry = Retry(batchSize: nat, retryCount: nat)

  /** What has happened so far; the program keeps none of this. */
  datatype Log = Log(accepted: nat, sent: seq<nat>, discarded: seq<nat>, overflows: nat)

  /** Lifecycle flags that gate producers and flushes. */
  datatype Gate = Gate(stopped: bool, readyToSend: bool, subscribing: bool, socketRecoveryInProgress: bool)

  /** Smart batching: the rolling bytes-per-delta average and the batch cap derived from it. */
  datatype Sizing = Sizing(avgBytesPerDelta: real, maxDeltasPerBatch: nat)

  datatype Dropped = Dropped(batches: nat, count: nat)

  /** Callbacks the event loop owes: send continuations, back-off timers, immediates, the flush timer. */
  datatype Due = Due(flights: seq<Flight>, retries: seq<Retry>, immediates: nat, deltaTimerArmed: bool)

  datatype State = State(
    deltas: seq<nat>,
    timer: bool,
    batchSendInFlight: bool,
    pendingRetry: bool,
    gate: Gate,
    sizing: Sizing,
    dropped: Dropped,
    due: Due,
    log: Log)

  datatype Event =
    | Enqueue
    | SendOk(flight: nat)
    | SendError(flight: nat)
    | RetryFires(retry: nat)
    | ImmediateFires
    | TimerFires
    | PacketSized(bytesPerDelta: real)
    | SetReady(on: bool)
    | SetRecovering(on: bool)
    | SetSubscribing(on: bool)
    | Stop

  // ------------------------------------------------------------ batch sizing

  function MaxDeltasPerBatch(avgBytes: real): nat
    requires 0.0 < avgBytes
  {
    var raw := (MAX_SAFE_UDP_PAYLOAD * SMART_BATCH_SAFETY_MARGIN / avgBytes).Floor;
    var capped := Min(SMART_BATCH_MAX_DELTAS, raw);
    if SMART_BATCH_MIN_DELTAS <= capped then capped else SMART_BATCH_MIN_DELTAS
  }

  function ClampSample(bytesPerDelta: real): real {
    if bytesPerDelta < 1.0 then 1.0
    else if MAX_SAFE_UDP_PAYLOAD < bytesPerDelta then MAX_SAFE_UDP_PAYLOAD
    else bytesPerDelta
  }

  function Smoothed(avgBytes: real, bytesPerDelta: real): real {
    (1.0 - SMART_BATCH_SMOOTHING) * avgBytes + SMART_BATCH_SMOOTHING * ClampSample(bytesPerDelta)
  }

  // -------------------------------------------------------------- the steps

  const Init: State :=
    State([], false, false, false, Gate(false, false, false, false),
          Sizing(SMART_BATCH_INITIAL_ESTIMATE, MaxDeltasPerBatch(SMART_BATCH_INITIAL_ESTIMATE)),
          Dropped(0, 0), Due([], [], 0, true), Log(0, [], [], 0))

  /** `Array.prototype.splice(0, n)`: what stays. */
  function AfterSplice(s: seq<nat>, n: nat): seq<nat> {
    s[Min(n, |s|)..]
  }

  function Spliced(s: seq<nat>, n: nat): seq<nat> {
    s[..Min(n, |s|)]
  }

  function RemoveAt<T>(s: seq<T>, i: nat): seq<T>
    requires i < |s|
  {
    s[..i] + s[i + 1..]
  }

  predicate MayFlush(s: State) {
    && !s.batchSendInFlight && !s.pendingRetry
    && !s.gate.stopped && s.gate.readyToSend && !s.gate.socketRecoveryInProgress
  }

  function Launch(s: State, n: nat, retryCount: nat): State
    requires n <= |s.deltas|
  {
    var f := Flight(s.deltas[..n], n, retryCount, s.log.overflows);
    s.(batchSendInFlight := true, due := s.due.(flights := s.due.flights + [f]))
  }

  /** A flush up to its `await`. */
  function Flush(s: State, batchSize: nat, retryCount: nat): (t: State)
    ensures t.gate == s.gate
  {
    if !MayFlush(s) then s
    else if batchSize == 0 || s.deltas == [] then s.(timer := false)
    else Launch(s, Min(Min(batchSize, |s.deltas|), s.sizing.maxDeltasPerBatch), retryCount)
  }

  /** Remove the `n` oldest deltas and count `n` of them as one dropped batch. */
  function DropOldest(s: State, n: nat): (t: State)
    ensures t.gate == s.gate
  {
    s.(deltas := AfterSplice(s.deltas, n),
       dropped := Dropped(s.dropped.batches + 1, s.dropped.count + n),
       log := s.log.(discarded := s.log.discarded + Spliced(s.deltas, n)))
  }

  function CountOverflow(s: State): State {
    s.(log := s.log.(overflows := s.log.overflows + 1))
  }

  function EnforceBufferCap(s: State): (t: State)
    ensures t.gate == s.gate
  {
    if |s.deltas| < MAX_DELTAS_BUFFER_SIZE then s else CountOverflow(DropOldest(s, OVERFLOW_DROP))
  }

  function Push(s: State): State {
    s.(deltas := s.deltas + [s.log.accepted], log := s.log.(accepted := s.log.accepted + 1))
  }

  function MaybeFlush(s: State): (t: State)
    ensures t.gate == s.gate
  {
    if (|s.deltas| >= s.sizing.maxDeltasPerBatch || s.timer) && !s.pendingRetry
    then Flush(s, |s.deltas|, 0)
    else s
  }

  function ProcessDelta(s: State): (t: State)
    ensures t.gate == s.gate
  {
    if !s.gate.readyToSend || s.gate.subscribing then s
    else MaybeFlush(Push(EnforceBufferCap(s)))
  }

  /** The continuation `i` starts running. */
  function Landed(s: State, i: nat): State
    requires i < |s.due.flights|
  {
    s.(due := s.due.(flights := RemoveAt(s.due.flights, i)))
  }

  /** The `finally` block shared by both continuations. */
  function Settle(s: State): (t: State)
    ensures t.gate == s.gate
  {
    var again := if s.deltas != [] && !s.pendingRetry && !s.gate.stopped then 1 else 0;
    s.(batchSendInFlight := false, due := s.due.(immediates := s.due.immediates + again))
  }

  /** The success path before its `finally`. */
  function Deliver(s: State, f: Flight): State {
    s.(deltas := AfterSplice(s.deltas, f.actualBatchSize), timer := false,
       log := s.log.(sent := s.log.sent + f.batch))
  }

  function SendSucceeded(s: State, i: nat): (t: State)
    requires i < |s.due.flights|
    ensures t.gate == s.gate
  {
    Settle(Deliver(Landed(s, i), s.due.flights[i]))
  }

  function ScheduleRetry(s: State, batchSize: nat, retryCount: nat): State {
    if s.pendingRetry || s.gate.stopped then s
    else s.(pendingRetry := true, due := s.due.(retries := s.due.retries + [Retry(batchSize, retryCount)]))
  }

  function HandleFailure(s: State, actualBatchSize: nat, retryCount: nat): (t: State)
    ensures t.gate == s.gate
  {
    if retryCount + 1 <= DELTA_SEND_MAX_RETRIES
    then ScheduleRetry(s, actualBatchSize, retryCount + 1)
    else DropOldest(s, actualBatchSize).(timer := false)
  }

  function SendFailed(s: State, i: nat): (t: State)
    requires i < |s.due.flights|
    ensures t.gate == s.gate
  {
    Settle(HandleFailure(Landed(s, i), s.due.flights[i].actualBatchSize, s.due.flights[i].retryCount))
  }

  /** The back-off timer `i` runs and clears `pendingRetry`. */
  function RetryDue(s: State, i: nat): State
    requires i < |s.due.retries|
  {
    s.(pendingRetry := false, due := s.due.(retries := RemoveAt(s.due.retries, i)))
  }

  function RetryFired(s: State, i: nat): (t: State)
    requires i < |s.due.retries|
    ensures t.gate == s.gate
  {
    Flush(RetryDue(s, i), s.due.retries[i].batchSize, s.due.retries[i].retryCount)
  }

  function ImmediateFired(s: State): (t: State)
    requires 0 < s.due.immediates
    ensures t.gate == s.gate
  {
    Flush(s.(due := s.due.(immediates := s.due.immediates - 1)), |s.deltas|, 0)
  }

  function TimerFired(s: State): (t: State)
    ensures t.gate == s.gate
  {
    if s.gate.stopped then s.(due := s.due.(deltaTimerArmed := false))
    else
      var due := s.(timer := true);
      if due.deltas != [] then Flush(due, |due.deltas|, 0) else due
  }

  function Resized(z: Sizing, bytesPerDelta: real): Sizing {
    var avg := Smoothed(z.avgBytesPerDelta, bytesPerDelta);
    if 0.0 < avg then Sizing(avg, MaxDeltasPerBatch(avg)) else z
  }

  function SessionTornDown(s: State): State {
    s.(deltas := [], timer := false, batchSendInFlight := false,
       gate := s.gate.(socketRecoveryInProgress := false), dropped := Dropped(0, 0))
  }

  function TimersTornDown(s: State): State {
    s.(pendingRetry := false, due := s.due.(deltaTimerArmed := false, retries := []))
  }

  /** The part of a connection's `stop()` that touches the send loop. */
  function StopNow(s: State): State {
    TimersTornDown(SessionTornDown(s.(gate := s.gate.(stopped := true, readyToSend := false))))
  }

  /** Callbacks can only run when something armed them; a stopped instance is not made ready. */
  predicate Enabled(s: State, e: Event) {
    match e
    case SendOk(i) => i < |s.due.flights|
    case SendError(i) => i < |s.due.flights|
    case RetryFires(i) => i < |s.due.retries|
    case ImmediateFires => 0 < s.due.immediates
    case TimerFires => s.due.deltaTimerArmed
    case SetReady(on) => !s.gate.stopped
    case _ => true
  }

  function Step(s: State, e: Event): (t: State)
    ensures e != Stop ==> t.gate.stopped == s.gate.stopped
  {
    if !Enabled(s, e) then s
    else
      match e
      case Enqueue => ProcessDelta(s)
      case SendOk(i) => SendSucceeded(s, i)
      case SendError(i) => SendFailed(s, i)
      case RetryFires(i) => RetryFired(s, i)
      case ImmediateFires => ImmediateFired(s)
      case TimerFires => TimerFired(s)
      case PacketSized(b) => s.(sizing := Resized(s.sizing, b))
      case SetReady(on) => s.(gate := s.gate.(readyToSend := on))
      case SetRecovering(on) => s.(gate := s.gate.(socketRecoveryInProgress := on))
      case SetSubscribing(on) => s.(gate := s.gate.(subscribing := on))
      case Stop => StopNow(s)
  }

  function Run(s: State, es: seq<Event>): State
    decreases |es|
  {
    if es == [] then s else Run(Step(s, es[0]), es[1..])
  }
}
