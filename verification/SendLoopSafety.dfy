/** What every interleaving of the send loop keeps. */
module SendLoopSafety {
  import opened Common
  import opened SendLoop

  function Range(a: nat, b: nat): seq<nat>
    requires a <= b
  {
    seq(b - a, i requires 0 <= i => a + i)
  }

  ghost predicate Increasing(s: seq<nat>) {
    forall i, j :: 0 <= i < j < |s| ==> s[i] < s[j]
  }

  ghost predicate AllBelow(s: seq<nat>, bound: nat) {
    forall i :: 0 <= i < |s| ==> s[i] < bound
  }

  /** Arrival number of the oldest delta that has not been removed from the buffer. */
  function Head(s: State): int {
    s.log.accepted - |s.deltas|
  }

  ghost predicate SizingOk(s: State) {
    && 1.0 <= s.sizing.avgBytesPerDelta <= MAX_SAFE_UDP_PAYLOAD
    && SMART_BATCH_MIN_DELTAS <= s.sizing.maxDeltasPerBatch <= SMART_BATCH_MAX_DELTAS
  }

  /** The batch is a run of consecutive arrivals, none of them sent before. */
  ghost predicate BatchOk(s: State, f: Flight) {
    && 1 <= f.actualBatchSize <= SMART_BATCH_MAX_DELTAS
    && f.retryCount <= DELTA_SEND_MAX_RETRIES
    && |f.batch| == f.actualBatchSize
    && f.batch == Range(f.batch[0], f.batch[0] + |f.batch|)
    && f.batch[0] + |f.batch| <= s.log.accepted
    && AllBelow(s.log.sent, f.batch[0])
  }

  /** While running: where the buffer stands relative to the batch in flight. */
  ghost predicate FlightOk(s: State, f: Flight) {
    && BatchOk(s, f)
    && f.actualBatchSize <= |s.deltas|
    && f.overflowsBefore <= s.log.overflows
    && (f.overflowsBefore == s.log.overflows ==> f.batch[0] == Head(s))
    && (f.overflowsBefore < s.log.overflows ==>
          && f.batch[0] + |f.batch| <= Head(s)
          && forall x :: x in f.batch ==> x in s.log.discarded)
  }

  ghost predicate RunningInv(s: State) {
    && s.due.deltaTimerArmed
    && |s.deltas| <= MAX_DELTAS_BUFFER_SIZE
    && 0 <= Head(s)
    && s.deltas == Range(Head(s), s.log.accepted)
    && s.log.accepted == |s.log.sent| + s.dropped.count + |s.deltas|
    && |s.log.discarded| == s.dropped.count
    && AllBelow(s.log.sent, Head(s))
    && (s.batchSendInFlight <==> |s.due.flights| == 1)
    && (s.pendingRetry <==> |s.due.retries| == 1)
    && !(s.batchSendInFlight && s.pendingRetry)
    && (forall i :: 0 <= i < |s.due.flights| ==> FlightOk(s, s.due.flights[i]))
    && (forall i :: 0 <= i < |s.due.retries| ==>
          s.due.retries[i].retryCount == DELTA_SEND_MAX_RETRIES && 1 <= s.due.retries[i].batchSize && s.deltas != [])
  }

  ghost predicate StoppedInv(s: State) {
    && s.deltas == [] && s.due.retries == []
    && !s.batchSendInFlight && !s.pendingRetry && !s.gate.readyToSend
    && AllBelow(s.log.sent, s.log.accepted)
    && (forall i :: 0 <= i < |s.due.flights| ==> BatchOk(s, s.due.flights[i]))
  }

  ghost predicate Inv(s: State) {
    && |s.due.flights| <= 1 && |s.due.retries| <= 1
    && SizingOk(s)
    && Increasing(s.log.sent)
    && (if s.gate.stopped then StoppedInv(s) else RunningInv(s))
  }

  // ------------------------------------------------------------ the steps keep it

  lemma MaxDeltasInRange(avg: real)
    requires 1.0 <= avg <= MAX_SAFE_UDP_PAYLOAD
    ensures SMART_BATCH_MIN_DELTAS <= MaxDeltasPerBatch(avg) <= SMART_BATCH_MAX_DELTAS
  {
  }

  lemma SmoothedInRange(avg: real, sample: real)
    requires 1.0 <= avg <= MAX_SAFE_UDP_PAYLOAD
    ensures 1.0 <= Smoothed(avg, sample) <= MAX_SAFE_UDP_PAYLOAD
  {
  }

  lemma FlushKeeps(s: State, batchSize: nat, retryCount: nat)
    requires Inv(s) && retryCount <= DELTA_SEND_MAX_RETRIES
    ensures Inv(Flush(s, batchSize, retryCount))
  {
    var t := Flush(s, batchSize, retryCount);
    if |t.due.flights| > |s.due.flights| {
      var f := t.due.flights[0];
      assert f.batch == Range(Head(s), Head(s) + |f.batch|);
    }
  }

  lemma OverflowKeeps(s: State)
    requires Inv(s) && !s.gate.stopped
    ensures Inv(EnforceBufferCap(s)) && |EnforceBufferCap(s).deltas| < MAX_DELTAS_BUFFER_SIZE
  {
    var t := EnforceBufferCap(s);
    if |s.deltas| >= MAX_DELTAS_BUFFER_SIZE {
      assert OVERFLOW_DROP == 500;
      assert t.deltas == Range(Head(t), t.log.accepted);
      assert AllBelow(t.log.sent, Head(t));
      forall i | 0 <= i < |s.due.flights|
        ensures FlightOk(t, t.due.flights[i])
      {
        var f := s.due.flights[i];
        assert FlightOk(s, f);
        forall x | x in f.batch
          ensures x in t.log.discarded
        {
          if f.overflowsBefore == s.log.overflows {
            assert s.deltas[x - Head(s)] == x;
            assert Spliced(s.deltas, OVERFLOW_DROP)[x - Head(s)] == x;
          }
        }
      }
    }
  }

  lemma PushKeeps(s: State)
    requires Inv(s) && !s.gate.stopped && |s.deltas| < MAX_DELTAS_BUFFER_SIZE
    ensures Inv(Push(s))
  {
    var t := Push(s);
    assert t.deltas == Range(Head(t), t.log.accepted);
    assert forall i :: 0 <= i < |s.due.flights| ==> FlightOk(s, t.due.flights[i]);
  }

  lemma SpliceKeepsRange(s: State, n: nat)
    requires !s.gate.stopped && RunningInv(s) && n <= |s.deltas|
    ensures AfterSplice(s.deltas, n) == Range(Head(s) + n, s.log.accepted)
    ensures Spliced(s.deltas, n) == Range(Head(s), Head(s) + n)
  {
  }

  lemma SendOkKeeps(s: State, i: nat)
    requires Inv(s) && i < |s.due.flights|
    ensures Inv(SendSucceeded(s, i))
  {
    var f := s.due.flights[i];
    var t := SendSucceeded(s, i);
    assert BatchOk(s, f);
    assert t.due.flights == [];
    assert Increasing(t.log.sent);
    if !s.gate.stopped {
      assert FlightOk(s, f);
      SpliceKeepsRange(s, f.actualBatchSize);
      assert AllBelow(t.log.sent, Head(t));
    }
  }

  lemma FirstFailureKeeps(s: State, i: nat)
    requires Inv(s) && i < |s.due.flights| && s.due.flights[i].retryCount == 0
    ensures Inv(SendFailed(s, i))
  {
    var f := s.due.flights[i];
    assert BatchOk(s, f);
    assert RemoveAt(s.due.flights, i) == [];
    if !s.gate.stopped {
      assert FlightOk(s, f);
      assert SendFailed(s, i).due.retries == [Retry(f.actualBatchSize, 1)];
    }
  }

  lemma LastFailureKeeps(s: State, i: nat)
    requires Inv(s) && i < |s.due.flights| && s.due.flights[i].retryCount == 1
    ensures Inv(SendFailed(s, i))
  {
    var f := s.due.flights[i];
    assert BatchOk(s, f);
    assert RemoveAt(s.due.flights, i) == [];
    if s.gate.stopped {
      assert SendFailed(s, i).deltas == [];
    } else {
      assert FlightOk(s, f);
      SpliceKeepsRange(s, f.actualBatchSize);
    }
  }

  lemma SendErrorKeeps(s: State, i: nat)
    requires Inv(s) && i < |s.due.flights|
    ensures Inv(SendFailed(s, i))
  {
    assert BatchOk(s, s.due.flights[i]);
    if s.due.flights[i].retryCount == 0 {
      FirstFailureKeeps(s, i);
    } else {
      LastFailureKeeps(s, i);
    }
  }

  lemma RetryKeeps(s: State, i: nat)
    requires Inv(s) && i < |s.due.retries|
    ensures Inv(RetryFired(s, i))
  {
    var t := RetryDue(s, i);
    assert t.due.retries == [];
    assert s.due.flights == [] || s.gate.stopped;
    assert Inv(t);
    FlushKeeps(t, s.due.retries[i].batchSize, s.due.retries[i].retryCount);
  }

  /** Fields that the invariant does not look at may change freely. */
  lemma SameFlights(s: State, t: State)
    requires Inv(s)
    requires t == s.(timer := t.timer, due := s.due.(immediates := t.due.immediates))
    ensures Inv(t)
  {
    assert forall j :: 0 <= j < |s.due.flights| && !s.gate.stopped ==> FlightOk(s, s.due.flights[j]);
  }

  lemma ImmediateKeeps(s: State)
    requires Inv(s) && 0 < s.due.immediates
    ensures Inv(ImmediateFired(s))
  {
    var t := s.(due := s.due.(immediates := s.due.immediates - 1));
    SameFlights(s, t);
    FlushKeeps(t, |s.deltas|, 0);
  }

  lemma TimerKeeps(s: State)
    requires Inv(s)
    ensures Inv(TimerFired(s))
  {
    if !s.gate.stopped {
      var t := s.(timer := true);
      SameFlights(s, t);
      FlushKeeps(t, |t.deltas|, 0);
    }
  }

  lemma SizingKeeps(s: State, bytesPerDelta: real)
    requires Inv(s)
    ensures Inv(s.(sizing := Resized(s.sizing, bytesPerDelta)))
  {
    SmoothedInRange(s.sizing.avgBytesPerDelta, bytesPerDelta);
    MaxDeltasInRange(Smoothed(s.sizing.avgBytesPerDelta, bytesPerDelta));
    assert forall j :: 0 <= j < |s.due.flights| && !s.gate.stopped ==> FlightOk(s, s.due.flights[j]);
  }

  lemma GateKeeps(s: State, g: Gate)
    requires Inv(s) && g.stopped == s.gate.stopped && (s.gate.stopped ==> g.readyToSend == s.gate.readyToSend)
    ensures Inv(s.(gate := g))
  {
    assert forall j :: 0 <= j < |s.due.flights| && !s.gate.stopped ==> FlightOk(s, s.due.flights[j]);
  }

  lemma StopKeeps(s: State)
    requires Inv(s)
    ensures Inv(StopNow(s))
  {
    assert forall j :: 0 <= j < |s.due.flights| && !s.gate.stopped ==> FlightOk(s, s.due.flights[j]);
  }

  lemma CallbackKeeps(s: State, e: Event)
    requires Inv(s) && Enabled(s, e)
    requires e.SendOk? || e.SendError? || e.RetryFires? || e.ImmediateFires? || e.TimerFires?
    ensures Inv(Step(s, e))
  {
    match e
    case SendOk(i) => SendOkKeeps(s, i);
    case SendError(i) => SendErrorKeeps(s, i);
    case RetryFires(i) => RetryKeeps(s, i);
    case ImmediateFires => ImmediateKeeps(s);
    case TimerFires => TimerKeeps(s);
  }

  /** One step of any kind keeps the invariant. */
  lemma StepKeeps(s: State, e: Event)
    requires Inv(s)
    ensures Inv(Step(s, e))
  {
    if Enabled(s, e) {
      match e
      case Enqueue =>
        if s.gate.readyToSend && !s.gate.subscribing {
          OverflowKeeps(s);
          PushKeeps(EnforceBufferCap(s));
          var t := Push(EnforceBufferCap(s));
          FlushKeeps(t, |t.deltas|, 0);
        }
      case PacketSized(b) => SizingKeeps(s, b);
      case SetReady(on) => GateKeeps(s, s.gate.(readyToSend := on));
      case SetRecovering(on) => GateKeeps(s, s.gate.(socketRecoveryInProgress := on));
      case SetSubscribing(on) => GateKeeps(s, s.gate.(subscribing := on));
      case Stop => StopKeeps(s);
      case _ => CallbackKeeps(s, e);
    }
  }

  lemma {:induction false} RunKeeps(s: State, es: seq<Event>)
    requires Inv(s)
    ensures Inv(Run(s, es))
    decreases |es|
  {
    if es == [] {
    } else {
      StepKeeps(s, es[0]);
      RunKeeps(Step(s, es[0]), es[1..]);
    }
  }

  // ------------------------------------------------------------ whole runs

  lemma EveryRunKeepsInv(es: seq<Event>)
    ensures Inv(Run(Init, es))
  {
    MaxDeltasInRange(SMART_BATCH_INITIAL_ESTIMATE);
    assert Init.deltas == Range(0, 0);
    RunKeeps(Init, es);
  }

  /**
   * One batch in flight at most, one armed retry at most and never both, the buffer bounded, the successful sends in
   * arrival order without repetition, and while the instance runs every accepted delta counted once as sent, dropped
   * or buffered.
   */
  ghost predicate Safe(s: State) {
    && |s.due.flights| <= 1 && |s.due.retries| <= 1
    && |s.deltas| <= MAX_DELTAS_BUFFER_SIZE
    && 1 <= s.sizing.maxDeltasPerBatch <= SMART_BATCH_MAX_DELTAS
    && Increasing(s.log.sent) && AllBelow(s.log.sent, s.log.accepted)
    && (!s.gate.stopped ==>
          && (s.batchSendInFlight <==> |s.due.flights| == 1)
          && !(s.batchSendInFlight && s.pendingRetry)
          && s.log.accepted == |s.log.sent| + s.dropped.count + |s.deltas|)
  }

  lemma InvIsSafe(s: State)
    requires Inv(s)
    ensures Safe(s)
  {
  }

  /** Every interleaving from start-up is safe. */
  lemma EveryRunIsSafe(es: seq<Event>)
    ensures Safe(Run(Init, es))
  {
    EveryRunKeepsInv(es);
    InvIsSafe(Run(Init, es));
  }

  lemma SizingIsPositive(s: State)
    requires Inv(s)
    ensures 1.0 <= s.sizing.avgBytesPerDelta
  {
  }

  lemma StoppedStep(s: State, e: Event)
    requires Inv(s) && s.gate.stopped
    ensures var t := Step(s, e);
            && t.gate.stopped && t.log.accepted == s.log.accepted
            && (t.due.flights == s.due.flights || t.due.flights == [])
            && |t.log.sent| == |s.log.sent| +
                 (if t.due.flights == s.due.flights then 0 else if e.SendOk? then |s.due.flights[0].batch| else 0)
  {
    if e.SendError? && Enabled(s, e) {
      assert RemoveAt(s.due.flights, e.flight) == [];
      assert HandleFailure(Landed(s, e.flight), s.due.flights[e.flight].actualBatchSize,
                           s.due.flights[e.flight].retryCount).log.sent == s.log.sent;
    }
  }

  /** After `stop()` nothing is accepted and no batch is started, whatever callbacks are still due. */
  lemma {:induction false} NothingStartsAfterStop(s: State, es: seq<Event>)
    requires Inv(s) && s.gate.stopped
    ensures var t := Run(s, es);
            && t.gate.stopped && t.deltas == [] && t.log.accepted == s.log.accepted
            && (t.due.flights == s.due.flights || t.due.flights == [])
            && |t.log.sent| <= |s.log.sent| + (if s.due.flights == [] then 0 else |s.due.flights[0].batch|)
    decreases |es|
  {
    if es == [] {
    } else {
      StepKeeps(s, es[0]);
      StoppedStep(s, es[0]);
      NothingStartsAfterStop(Step(s, es[0]), es[1..]);
    }
  }
}
