/**
 * The send loop as the program holds it: one mutable object whose callbacks update it in place.
 * Every method is the corresponding step of the transition system.
 */
module SendLoopService {
  import opened Common
  import opened SendLoop
  import opened SendLoopSafety

  class DeltaSender {
    var deltas: seq<nat>
    var timer: bool
    var batchSendInFlight: bool
    var pendingRetry: bool
    var stopped: bool
    var readyToSend: bool
    var subscribing: bool
    var socketRecoveryInProgress: bool
    var avgBytesPerDelta: real
    var maxDeltasPerBatch: nat
    var droppedDeltaBatches: nat
    var droppedDeltaCount: nat
    /** What the event loop holds on the program's behalf. */
    var due: Due
    /** History. */
    var log: Log

    ghost function View(): State
      reads this
    {
      State(deltas, timer, batchSendInFlight, pendingRetry,
            Gate(stopped, readyToSend, subscribing, socketRecoveryInProgress),
            Sizing(avgBytesPerDelta, maxDeltasPerBatch),
            Dropped(droppedDeltaBatches, droppedDeltaCount),
            due, log)
    }

    /** The invariant that every interleaving keeps, and what it tells the caller. */
    ghost predicate Valid()
      reads this
      ensures Valid() ==> Safe(View())
    {
      if Inv(View()) then InvIsSafe(View()); true else false
    }

    constructor ()
      ensures View() == Init && Valid()
    {
      EveryRunKeepsInv([]);
      deltas, timer, batchSendInFlight, pendingRetry := [], false, false, false;
      stopped, readyToSend, subscribing, socketRecoveryInProgress := false, false, false, false;
      avgBytesPerDelta := SMART_BATCH_INITIAL_ESTIMATE;
      maxDeltasPerBatch := MaxDeltasPerBatch(SMART_BATCH_INITIAL_ESTIMATE);
      droppedDeltaBatches, droppedDeltaCount := 0, 0;
      due, log := Due([], [], 0, true), Log(0, [], [], 0);
    }

    method FlushDeltaBatch(batchSize: nat, retryCount: nat)
      modifies this
      ensures View() == Flush(old(View()), batchSize, retryCount)
    {
      if batchSendInFlight || pendingRetry || stopped || !readyToSend || socketRecoveryInProgress {
        return;
      }
      if batchSize == 0 || |deltas| == 0 {
        timer := false;
        return;
      }
      var actualBatchSize: nat := Min(Min(batchSize, |deltas|), maxDeltasPerBatch);
      var batch := deltas[..actualBatchSize];
      batchSendInFlight := true;
      due := due.(flights := due.flights + [Flight(batch, actualBatchSize, retryCount, log.overflows)]);
    }

    method DropFromHead(n: nat)
      modifies this
      ensures View() == DropOldest(old(View()), n)
    {
      log := log.(discarded := log.discarded + Spliced(deltas, n));
      deltas := AfterSplice(deltas, n);
      droppedDeltaBatches := droppedDeltaBatches + 1;
      droppedDeltaCount := droppedDeltaCount + n;
    }

    method MakeRoom()
      modifies this
      ensures View() == EnforceBufferCap(old(View()))
    {
      if |deltas| < MAX_DELTAS_BUFFER_SIZE {
        return;
      }
      DropFromHead(OVERFLOW_DROP);
      log := log.(overflows := log.overflows + 1);
    }

    method FlushIfDue()
      modifies this
      ensures View() == MaybeFlush(old(View()))
    {
      var batchReady := |deltas| >= maxDeltasPerBatch;
      if (batchReady || timer) && !pendingRetry {
        FlushDeltaBatch(|deltas|, 0);
      }
    }

    method Append()
      modifies this
      ensures View() == Push(old(View()))
    {
      deltas := deltas + [log.accepted];
      log := log.(accepted := log.accepted + 1);
    }

    method OnDelta()
      requires Valid()
      modifies this
      ensures Valid() && View() == Step(old(View()), Enqueue)
    {
      StepKeeps(View(), Enqueue);
      hide Inv, Safe, EnforceBufferCap, Push, MaybeFlush;
      if !readyToSend || subscribing {
        return;
      }
      MakeRoom();
      Append();
      FlushIfDue();
    }

    method FinallySettle()
      modifies this
      ensures View() == Settle(old(View()))
    {
      batchSendInFlight := false;
      if |deltas| > 0 && !pendingRetry && !stopped {
        due := due.(immediates := due.immediates + 1);
      }
    }

    /** The continuation of send `i` is no longer due. */
    method Land(i: nat) returns (f: Flight)
      requires i < |due.flights|
      modifies this`due
      ensures f == old(due.flights[i]) && View() == Landed(old(View()), i)
    {
      f := due.flights[i];
      due := due.(flights := RemoveAt(due.flights, i));
    }

    method DeliverBatch(f: Flight)
      modifies this
      ensures View() == Deliver(old(View()), f)
    {
      deltas := AfterSplice(deltas, f.actualBatchSize);
      timer := false;
      log := log.(sent := log.sent + f.batch);
    }

    method HandleBatchSendFailure(actualBatchSize: nat, retryCount: nat)
      modifies this
      ensures View() == HandleFailure(old(View()), actualBatchSize, retryCount)
      ensures retryCount == 0 ==>
                && deltas == old(deltas) && droppedDeltaBatches == old(droppedDeltaBatches) && log == old(log)
                && due.retries == old(due.retries) + (if old(pendingRetry) || stopped then [] else [Retry(actualBatchSize, 1)])
      ensures retryCount >= 1 ==>
                && deltas == old(deltas)[Min(actualBatchSize, |old(deltas)|)..] && due == old(due)
                && droppedDeltaBatches == old(droppedDeltaBatches) + 1
                && droppedDeltaCount == old(droppedDeltaCount) + actualBatchSize
    {
      var nextRetryCount := retryCount + 1;
      if nextRetryCount <= DELTA_SEND_MAX_RETRIES {
        if !pendingRetry && !stopped {
          pendingRetry := true;
          due := due.(retries := due.retries + [Retry(actualBatchSize, nextRetryCount)]);
        }
      } else {
        DropFromHead(actualBatchSize);
        timer := false;
      }
    }

    method OnSendOk(i: nat)
      requires Valid() && i < |due.flights|
      modifies this
      ensures Valid() && View() == Step(old(View()), SendOk(i))
    {
      StepKeeps(View(), SendOk(i));
      hide Inv, Safe, Landed, Deliver, Settle;
      var f := Land(i);
      DeliverBatch(f);
      FinallySettle();
    }

    method OnSendError(i: nat)
      requires Valid() && i < |due.flights|
      modifies this
      ensures Valid() && View() == Step(old(View()), SendError(i))
    {
      StepKeeps(View(), SendError(i));
      hide Inv, Safe, Landed, HandleFailure, Settle;
      var f := Land(i);
      HandleBatchSendFailure(f.actualBatchSize, f.retryCount);
      FinallySettle();
    }

    method OnRetryTimer(i: nat)
      requires Valid() && i < |due.retries|
      modifies this
      ensures Valid() && View() == Step(old(View()), RetryFires(i))
    {
      StepKeeps(View(), RetryFires(i));
      hide Inv, Safe;
      var r := due.retries[i];
      due := due.(retries := RemoveAt(due.retries, i));
      pendingRetry := false;
      FlushDeltaBatch(r.batchSize, r.retryCount);
    }

    method OnImmediate()
      requires Valid() && 0 < due.immediates
      modifies this
      ensures Valid() && View() == Step(old(View()), ImmediateFires)
    {
      StepKeeps(View(), ImmediateFires);
      hide Inv, Safe;
      due := due.(immediates := due.immediates - 1);
      FlushDeltaBatch(|deltas|, 0);
    }

    method OnDeltaTimer()
      requires Valid() && due.deltaTimerArmed
      modifies this
      ensures Valid() && View() == Step(old(View()), TimerFires)
    {
      StepKeeps(View(), TimerFires);
      hide Inv, Safe;
      due := due.(deltaTimerArmed := false);
      if stopped {
        return;
      }
      timer := true;
      if |deltas| > 0 {
        FlushDeltaBatch(|deltas|, 0);
      }
      due := due.(deltaTimerArmed := true);
    }

    /** After a packet of `packetLength` bytes with `sentCount` deltas. */
    method UpdateSmartBatch(packetLength: nat, sentCount: nat)
      requires Valid()
      modifies this
      ensures Valid()
      ensures var deltaCount := if sentCount == 0 then 1 else sentCount;
              View() == Step(old(View()), PacketSized(packetLength as real / deltaCount as real))
    {
      var deltaCount := if sentCount == 0 then 1 else sentCount;
      var bytesPerDelta := packetLength as real / deltaCount as real;
      StepKeeps(View(), PacketSized(bytesPerDelta));
      SizingIsPositive(View());
      hide Inv, Safe;
      var sample := ClampSample(bytesPerDelta);
      avgBytesPerDelta := (1.0 - SMART_BATCH_SMOOTHING) * avgBytesPerDelta + SMART_BATCH_SMOOTHING * sample;
      maxDeltasPerBatch := MaxDeltasPerBatch(avgBytesPerDelta);
    }

    method TeardownSession()
      modifies this
      ensures View() == SessionTornDown(old(View()))
    {
      deltas := [];
      timer, batchSendInFlight, socketRecoveryInProgress := false, false, false;
      droppedDeltaBatches, droppedDeltaCount := 0, 0;
    }

    method TeardownTimers()
      modifies this
      ensures View() == TimersTornDown(old(View()))
    {
      pendingRetry, due := false, due.(deltaTimerArmed := false, retries := []);
    }

    method SetReady(on: bool)
      requires Valid() && !stopped
      modifies this`readyToSend
      ensures Valid() && View() == Step(old(View()), SendLoop.SetReady(on))
    {
      StepKeeps(View(), SendLoop.SetReady(on));
      hide Inv, Safe;
      readyToSend := on;
    }

    method SetRecovering(on: bool)
      requires Valid()
      modifies this`socketRecoveryInProgress
      ensures Valid() && View() == Step(old(View()), SendLoop.SetRecovering(on))
    {
      StepKeeps(View(), SendLoop.SetRecovering(on));
      hide Inv, Safe;
      socketRecoveryInProgress := on;
    }

    method SetSubscribing(on: bool)
      requires Valid()
      modifies this`subscribing
      ensures Valid() && View() == Step(old(View()), SendLoop.SetSubscribing(on))
    {
      StepKeeps(View(), SendLoop.SetSubscribing(on));
      hide Inv, Safe;
      subscribing := on;
    }

    method OnStop()
      requires Valid()
      modifies this
      ensures Valid() && View() == Step(old(View()), Stop)
    {
      StepKeeps(View(), Stop);
      hide Inv, Safe;
      stopped, readyToSend := true, false;
      TeardownSession();
      TeardownTimers();
    }
  }
}
