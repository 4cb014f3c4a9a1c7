/** What each callback of the running send loop does, in terms of the buffer, the counters and what is armed. */
module SendLoopEffects {
  import opened Common
  import opened SendLoop
  import opened SendLoopSafety

  // ------------------------------------------------------------------- failed sends

  /** The first failure of a batch takes nothing from the buffer, counts nothing, and arms one retry of that batch. */
  lemma FirstFailureIsRetried(s: State, i: nat)
    requires Inv(s) && !s.gate.stopped && i < |s.due.flights| && s.due.flights[i].retryCount == 0
    ensures var t := Step(s, SendError(i));
            && t.due.retries == [Retry(s.due.flights[i].actualBatchSize, 1)] && t.pendingRetry
            && t.due.flights == [] && !t.batchSendInFlight && t.due.immediates == s.due.immediates
            && t.deltas == s.deltas && t.dropped == s.dropped && t.log == s.log && t.timer == s.timer
  {
    assert RemoveAt(s.due.flights, i) == [];
  }

  /** The second failure drops that batch and no more from the head, counts it, and arms no retry. */
  lemma SecondFailureIsDropped(s: State, i: nat)
    requires Inv(s) && !s.gate.stopped && i < |s.due.flights| && s.due.flights[i].retryCount == 1
    ensures var n, t := s.due.flights[i].actualBatchSize, Step(s, SendError(i));
            && n <= |s.deltas| && t.deltas == s.deltas[n..] && t.log == s.log.(discarded := s.log.discarded + s.deltas[..n])
            && t.dropped == Dropped(s.dropped.batches + 1, s.dropped.count + n)
            && t.due.retries == [] && !t.pendingRetry && !t.timer && t.due.flights == [] && !t.batchSendInFlight
            && t.due.immediates == s.due.immediates + (if |s.deltas| > n then 1 else 0)
  {
    assert FlightOk(s, s.due.flights[i]);
    assert RemoveAt(s.due.flights, i) == [];
  }

  /** There is no third attempt. */
  lemma AttemptsAreTwo(s: State, i: nat)
    requires Inv(s) && i < |s.due.flights|
    ensures s.due.flights[i].retryCount == 0 || s.due.flights[i].retryCount == 1
  {
    assert BatchOk(s, s.due.flights[i]);
  }

  /** A successful send takes its batch size from the head, logs the batch as sent and chains the next flush. */
  lemma SuccessIsDelivered(s: State, i: nat)
    requires Inv(s) && !s.gate.stopped && i < |s.due.flights|
    ensures var f, t := s.due.flights[i], Step(s, SendOk(i));
            && f.actualBatchSize <= |s.deltas| && t.deltas == s.deltas[f.actualBatchSize..]
            && t.log == s.log.(sent := s.log.sent + f.batch) && t.dropped == s.dropped
            && t.due.flights == [] && !t.batchSendInFlight && !t.timer && t.due.retries == [] && !t.pendingRetry
            && t.due.immediates == s.due.immediates + (if |s.deltas| > f.actualBatchSize then 1 else 0)
  {
    assert FlightOk(s, s.due.flights[i]);
    assert RemoveAt(s.due.flights, i) == [];
  }

  // --------------------------------------------------------------------- starting a send

  /** Neither a send nor a retry is under way, and the link is up. */
  predicate Idle(s: State) {
    && s.due.flights == [] && s.due.retries == []
    && !s.gate.stopped && s.gate.readyToSend && !s.gate.socketRecoveryInProgress
  }

  function Smallest(a: nat, b: nat, c: nat): nat {
    if a <= b && a <= c then a else if b <= c then b else c
  }

  /** `t` differs from `s` by a batch of the `n` oldest deltas that is now on its way. */
  predicate Sends(s: State, t: State, n: nat, retryCount: nat) {
    && n <= |s.deltas|
    && t.due.flights == [Flight(s.deltas[..n], n, retryCount, s.log.overflows)] && t.batchSendInFlight
    && t.deltas == s.deltas && t.log == s.log && t.dropped == s.dropped
  }

  predicate SendsNothing(s: State, t: State) {
    t.due.flights == s.due.flights && t.deltas == s.deltas && t.log == s.log && t.dropped == s.dropped
  }

  /** The flush timer and a chained flush send as much as the batch cap allows, as a first attempt, exactly if idle. */
  lemma TimerSends(s: State, e: Event)
    requires Inv(s) && !s.gate.stopped && (e.TimerFires? || (e.ImmediateFires? && 0 < s.due.immediates))
    ensures var t := Step(s, e);
            && (if Idle(s) && s.deltas != [] then Sends(s, t, Min(|s.deltas|, s.sizing.maxDeltasPerBatch), 0) else SendsNothing(s, t))
            && t.due.deltaTimerArmed && t.due.retries == s.due.retries
            && t.due.immediates == (if e.TimerFires? then s.due.immediates else s.due.immediates - 1)
            && t.timer == (e.TimerFires? || (s.timer && !(Idle(s) && s.deltas == [])))
  {
  }

  /** A retry that fires sends again no more than its batch, with its own count. */
  lemma RetrySends(s: State, i: nat)
    requires Inv(s) && !s.gate.stopped && i < |s.due.retries|
    ensures var r, t := s.due.retries[i], Step(s, RetryFires(i));
            && t.due.retries == [] && !t.pendingRetry && r.retryCount == 1
            && if s.gate.readyToSend && !s.gate.socketRecoveryInProgress
               then Sends(s, t, Smallest(r.batchSize, |s.deltas|, s.sizing.maxDeltasPerBatch), 1)
               else SendsNothing(s, t)
  {
    assert RemoveAt(s.due.retries, i) == [];
  }

  /**
   * A delta is taken exactly if the link is ready and not subscribing: the oldest 500 make room for it at 1000, it goes
   * to the tail, and a send starts exactly if idle and the batch is full or the timer has fired.
   */
  lemma EnqueueTakes(s: State)
    requires Inv(s) && !s.gate.stopped
    ensures var t := Step(s, Enqueue);
            if !s.gate.readyToSend || s.gate.subscribing then t == s
            else
              var full := |s.deltas| == 1000;
              && t.deltas == (if full then s.deltas[500..] else s.deltas) + [s.log.accepted]
              && t.dropped == (if full then Dropped(s.dropped.batches + 1, s.dropped.count + 500) else s.dropped)
              && t.log.accepted == s.log.accepted + 1 && t.log.sent == s.log.sent
              && t.log.discarded == s.log.discarded + (if full then s.deltas[..500] else [])
              && t.due.retries == s.due.retries
              && t.due.flights == (if Idle(s) && (|t.deltas| >= s.sizing.maxDeltasPerBatch || s.timer)
                                   then [Flight(t.deltas[..Min(|t.deltas|, s.sizing.maxDeltasPerBatch)],
                                                Min(|t.deltas|, s.sizing.maxDeltasPerBatch), 0, t.log.overflows)]
                                   else s.due.flights)
  {
    OverflowKeeps(s);
    assert OVERFLOW_DROP == 500;
  }

  /** A stop empties the buffer, zeroes the counters and disarms every timer; a send under way stays under way. */
  lemma StopClears(s: State)
    ensures var t := Step(s, Stop);
            && t.deltas == [] && t.dropped == Dropped(0, 0) && !t.timer && !t.batchSendInFlight && !t.pendingRetry
            && t.gate == Gate(true, false, s.gate.subscribing, false) && t.sizing == s.sizing && t.log == s.log
            && t.due == Due(s.due.flights, [], s.due.immediates, false)
  {
  }

  // ------------------------------------------------------------------------ batch sizing

  /** The cap is the largest number of average deltas that fit into 1190 bytes, but at least 1 and at most 50. */
  lemma CapFits(avgBytes: real)
    requires 0.0 < avgBytes
    ensures var n := MaxDeltasPerBatch(avgBytes);
            && 1 <= n <= 50
            && (1 < n ==> n as real * avgBytes <= 1190.0)
            && (n < 50 ==> 1190.0 < n as real * avgBytes + avgBytes)
  {
    var q := 1190.0 / avgBytes;
    var n := MaxDeltasPerBatch(avgBytes);
    assert MAX_SAFE_UDP_PAYLOAD * SMART_BATCH_SAFETY_MARGIN == 1190.0;
    assert n < 50 ==> q.Floor <= n;
    assert 1 < n ==> n <= q.Floor;
    hide MaxDeltasPerBatch;
    if 1 < n {
      NotAbove(1190.0, avgBytes, n as real);
    }
    if n < 50 {
      Below(1190.0, avgBytes, n as real);
    }
  }

  lemma NotAbove(a: real, b: real, m: real)
    requires 0.0 < b && m <= a / b
    ensures m * b <= a
  {
    var q := a / b;
    assert a == q * b;
    assert m * b <= q * b;
  }

  lemma Product(x: real, y: real, b: real)
    requires 0.0 < b && x < y
    ensures x * b < y * b
  {
    assert 0.0 < (y - x) * b;
  }

  lemma Below(a: real, b: real, m: real)
    requires 0.0 < b && a / b < m + 1.0
    ensures a < m * b + b
  {
    var q := a / b;
    assert a == q * b;
    Product(q, m + 1.0, b);
    assert (m + 1.0) * b == m * b + b;
  }

  /** Each packet moves the average a fifth of the way to its sample, which counts as 1 at least and 1400 at most. */
  lemma AverageMoves(s: State, sample: real)
    requires Inv(s)
    ensures var x := if sample < 1.0 then 1.0 else if 1400.0 < sample then 1400.0 else sample;
            var t := Step(s, PacketSized(sample));
            && t.sizing.avgBytesPerDelta - s.sizing.avgBytesPerDelta == (x - s.sizing.avgBytesPerDelta) / 5.0
            && t.sizing.maxDeltasPerBatch == MaxDeltasPerBatch(t.sizing.avgBytesPerDelta)
            && t == s.(sizing := t.sizing)
  {
  }

  // ------------------------------------------------------------------------ over runs

  /** The delta that arrives now finds the buffer full. */
  predicate Overflows(s: State, e: Event) {
    e.Enqueue? && s.gate.readyToSend && !s.gate.subscribing && |s.deltas| == 1000
  }

  predicate Fails(s: State, e: Event, attempt: nat) {
    e.SendError? && e.flight < |s.due.flights| && s.due.flights[e.flight].retryCount + 1 == attempt
  }

  /** How many deltas and how many batches a run drops: 500 for each overflow, a batch for each second failure. */
  function Drops(s: State, es: seq<Event>): Dropped
    decreases |es|
  {
    if es == [] then Dropped(0, 0)
    else
      var rest := Drops(Step(s, es[0]), es[1..]);
      if Overflows(s, es[0]) then Dropped(rest.batches + 1, rest.count + 500)
      else if Fails(s, es[0], 2) then Dropped(rest.batches + 1, rest.count + s.due.flights[es[0].flight].actualBatchSize)
      else rest
  }

  lemma StepDrops(s: State, e: Event)
    requires Inv(s) && !s.gate.stopped && e != Stop
    ensures Step(s, e).dropped == if Overflows(s, e) then Dropped(s.dropped.batches + 1, s.dropped.count + 500)
                                  else if Fails(s, e, 2)
                                  then Dropped(s.dropped.batches + 1, s.dropped.count + s.due.flights[e.flight].actualBatchSize)
                                  else s.dropped
  {
    match e
    case Enqueue => EnqueueTakes(s);
    case SendError(i) =>
      if i < |s.due.flights| {
        AttemptsAreTwo(s, i);
        if s.due.flights[i].retryCount == 0 {
          FirstFailureIsRetried(s, i);
        } else {
          SecondFailureIsDropped(s, i);
        }
      }
    case _ =>
  }

  /** Short of a stop, nothing is dropped for any other reason. */
  lemma {:induction false} DropsAreCaused(s: State, es: seq<Event>)
    requires Inv(s) && !s.gate.stopped && Stop !in es
    ensures var t := Run(s, es).dropped;
            t == Dropped(s.dropped.batches + Drops(s, es).batches, s.dropped.count + Drops(s, es).count)
    decreases |es|
  {
    hide Step, Inv, Overflows, Fails;
    if es != [] {
      assert es[0] in es;
      StepDrops(s, es[0]);
      StepKeeps(s, es[0]);
      DropsAreCaused(Step(s, es[0]), es[1..]);
    }
  }

  /** First failures of a run, and back-offs that ran out. */
  function FirstFailures(s: State, es: seq<Event>): nat
    decreases |es|
  {
    if es == [] then 0 else (if Fails(s, es[0], 1) then 1 else 0) + FirstFailures(Step(s, es[0]), es[1..])
  }

  function RetriesFired(s: State, es: seq<Event>): nat
    decreases |es|
  {
    if es == [] then 0
    else (if es[0].RetryFires? && es[0].retry < |s.due.retries| then 1 else 0) + RetriesFired(Step(s, es[0]), es[1..])
  }

  lemma StepRetries(s: State, e: Event)
    requires Inv(s) && !s.gate.stopped && e != Stop
    ensures |Step(s, e).due.retries| + (if e.RetryFires? && e.retry < |s.due.retries| then 1 else 0)
         == |s.due.retries| + (if Fails(s, e, 1) then 1 else 0)
  {
    match e
    case Enqueue => EnqueueTakes(s);
    case SendOk(i) =>
      if i < |s.due.flights| {
        SuccessIsDelivered(s, i);
      }
    case SendError(i) =>
      if i < |s.due.flights| {
        AttemptsAreTwo(s, i);
        if s.due.flights[i].retryCount == 0 {
          FirstFailureIsRetried(s, i);
        } else {
          SecondFailureIsDropped(s, i);
        }
      }
    case RetryFires(i) =>
      if i < |s.due.retries| {
        RetrySends(s, i);
      }
    case _ =>
  }

  /** Every batch that fails for the first time is retried: its back-off has run out or is still armed. */
  lemma {:induction false} EveryFirstFailureIsRetried(s: State, es: seq<Event>)
    requires Inv(s) && !s.gate.stopped && Stop !in es
    ensures RetriesFired(s, es) + |Run(s, es).due.retries| == FirstFailures(s, es) + |s.due.retries|
    decreases |es|
  {
    hide Step, Inv, Fails;
    if es != [] {
      assert es[0] in es;
      StepRetries(s, es[0]);
      StepKeeps(s, es[0]);
      EveryFirstFailureIsRetried(Step(s, es[0]), es[1..]);
    }
  }
}
