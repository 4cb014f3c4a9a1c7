/**
 * Element-by-element accounting. An overflow drop that lands while a batch is in flight removes
 * that batch from the buffer; if the send then succeeds, the success path removes as many deltas
 * again. The counts still balance, but the batch is both sent and counted as dropped, and the
 * deltas removed the second time are neither. This happens exactly when a send succeeds over an
 * overflow.
 */
module SendLoopAccounting {
  import opened Common
  import opened SendLoop
  import opened SendLoopSafety

  /** Every accepted delta is exactly once in one of: sent, counted as dropped, still buffered. */
  ghost predicate Accounted(s: State) {
    multiset(s.log.sent) + multiset(s.log.discarded) + multiset(s.deltas)
      == multiset(Range(0, s.log.accepted))
  }

  /** The step is a successful send during which the buffer has overflowed. */
  predicate SucceedsOverOverflow(s: State, e: Event) {
    && e.SendOk?
    && e.flight < |s.due.flights|
    && s.due.flights[e.flight].overflowsBefore < s.log.overflows
  }

  predicate NoSuccessOverOverflow(s: State, es: seq<Event>)
    decreases |es|
  {
    es == [] ||
    (!SucceedsOverOverflow(s, es[0]) && NoSuccessOverOverflow(Step(s, es[0]), es[1..]))
  }

  predicate NoStop(es: seq<Event>) {
    forall i :: 0 <= i < |es| ==> es[i] != Stop
  }

  ghost function Known(s: State): multiset<nat> {
    multiset(s.log.sent) + multiset(s.log.discarded) + multiset(s.deltas)
  }

  lemma SplitMultiset(s: seq<nat>, n: nat)
    requires n <= |s|
    ensures multiset(s) == multiset(s[..n]) + multiset(s[n..])
  {
    assert s == s[..n] + s[n..];
  }

  lemma FlushKnown(s: State, batchSize: nat, retryCount: nat)
    ensures Known(Flush(s, batchSize, retryCount)) == Known(s)
    ensures Flush(s, batchSize, retryCount).log == s.log
  {
  }

  lemma OverflowKnown(s: State)
    ensures Known(EnforceBufferCap(s)) == Known(s)
    ensures EnforceBufferCap(s).log.accepted == s.log.accepted
  {
    if |s.deltas| >= MAX_DELTAS_BUFFER_SIZE {
      SplitMultiset(s.deltas, OVERFLOW_DROP);
    }
  }

  lemma PushAccounted(s: State)
    requires Accounted(s)
    ensures Accounted(Push(s))
  {
    var n := s.log.accepted;
    calc {
      multiset(Range(0, n + 1));
      { assert Range(0, n + 1) == Range(0, n) + [n]; }
      multiset(Range(0, n)) + multiset([n]);
      Known(s) + multiset([n]);
      { assert multiset(s.deltas + [n]) == multiset(s.deltas) + multiset([n]); }
      Known(Push(s));
    }
  }

  lemma EnqueueAccounted(s: State)
    requires Accounted(s)
    ensures Accounted(ProcessDelta(s))
  {
    if s.gate.readyToSend && !s.gate.subscribing {
      OverflowKnown(s);
      assert Accounted(EnforceBufferCap(s));
      PushAccounted(EnforceBufferCap(s));
      var t := Push(EnforceBufferCap(s));
      FlushKnown(t, |t.deltas|, 0);
    }
  }

  lemma SendOkAccounted(s: State, i: nat)
    requires Inv(s) && !s.gate.stopped && Accounted(s) && i < |s.due.flights|
    requires !SucceedsOverOverflow(s, SendOk(i))
    ensures Accounted(SendSucceeded(s, i))
  {
    var f := s.due.flights[i];
    assert FlightOk(s, f);
    SpliceKeepsRange(s, f.actualBatchSize);
    SplitMultiset(s.deltas, f.actualBatchSize);
    assert f.batch == s.deltas[..f.actualBatchSize];
  }

  lemma SendErrorAccounted(s: State, i: nat)
    requires Inv(s) && !s.gate.stopped && Accounted(s) && i < |s.due.flights|
    ensures Accounted(SendFailed(s, i))
  {
    var f := s.due.flights[i];
    assert FlightOk(s, f);
    SplitMultiset(s.deltas, f.actualBatchSize);
  }

  lemma StepAccounted(s: State, e: Event)
    requires Inv(s) && !s.gate.stopped && Accounted(s) && e != Stop
    requires !SucceedsOverOverflow(s, e)
    ensures Accounted(Step(s, e))
  {
    if Enabled(s, e) {
      match e
      case Enqueue => EnqueueAccounted(s);
      case SendOk(i) => SendOkAccounted(s, i);
      case SendError(i) => SendErrorAccounted(s, i);
      case _ =>
    }
  }

  /** Some delta has been sent and also counted as dropped. */
  ghost predicate CountedTwice(s: State) {
    exists x :: x in s.log.sent && x in s.log.discarded
  }

  lemma OverlapCountsTwice(s: State, e: Event)
    requires Inv(s) && !s.gate.stopped && SucceedsOverOverflow(s, e)
    ensures CountedTwice(Step(s, e))
  {
    var f := s.due.flights[e.flight];
    assert FlightOk(s, f);
    var x := f.batch[0];
    assert x in f.batch;
    assert x in Step(s, e).log.sent && x in Step(s, e).log.discarded;
  }

  ghost predicate LogGrows(s: State, t: State) {
    s.log.sent <= t.log.sent && s.log.discarded <= t.log.discarded
  }

  lemma EnqueueGrows(s: State)
    ensures LogGrows(s, ProcessDelta(s))
  {
    if s.gate.readyToSend && !s.gate.subscribing {
      var roomy := EnforceBufferCap(s);
      assert LogGrows(s, roomy);
      var t := Push(roomy);
      FlushKnown(t, |t.deltas|, 0);
      hide EnforceBufferCap, Flush;
    }
  }

  lemma SendGrows(s: State, i: nat)
    requires i < |s.due.flights|
    ensures LogGrows(s, SendSucceeded(s, i)) && LogGrows(s, SendFailed(s, i))
  {
    var f := s.due.flights[i];
    assert LogGrows(s, HandleFailure(Landed(s, i), f.actualBatchSize, f.retryCount));
  }

  lemma LogOnlyGrows(s: State, e: Event)
    ensures LogGrows(s, Step(s, e))
  {
    hide ProcessDelta, SendSucceeded, SendFailed;
    if Enabled(s, e) {
      match e
      case Enqueue => EnqueueGrows(s);
      case SendOk(i) => SendGrows(s, i);
      case SendError(i) => SendGrows(s, i);
      case _ =>
    }
  }

  lemma CountedTwiceStays(s: State, e: Event)
    requires CountedTwice(s)
    ensures CountedTwice(Step(s, e))
  {
    LogOnlyGrows(s, e);
    var x :| x in s.log.sent && x in s.log.discarded;
    assert x in Step(s, e).log.sent && x in Step(s, e).log.discarded;
  }

  lemma RangeHasNoRepeats(n: nat, x: nat)
    ensures multiset(Range(0, n))[x] <= 1
  {
    if n > 0 {
      RangeHasNoRepeats(n - 1, x);
      assert Range(0, n) == Range(0, n - 1) + [n - 1];
      assert n - 1 !in Range(0, n - 1);
    }
  }

  lemma CountedTwiceIsNotAccounted(s: State)
    requires CountedTwice(s)
    ensures !Accounted(s)
  {
    var x :| x in s.log.sent && x in s.log.discarded;
    RangeHasNoRepeats(s.log.accepted, x);
    assert multiset(s.log.sent)[x] >= 1 && multiset(s.log.discarded)[x] >= 1;
  }

  lemma {:induction false} DamageLasts(s: State, es: seq<Event>)
    requires CountedTwice(s)
    ensures CountedTwice(Run(s, es))
    decreases |es|
  {
    if es == [] {
    } else {
      CountedTwiceStays(s, es[0]);
      DamageLasts(Step(s, es[0]), es[1..]);
    }
  }

  lemma {:induction false} AccountingFrom(s: State, es: seq<Event>)
    requires Inv(s) && !s.gate.stopped && Accounted(s) && NoStop(es)
    ensures Accounted(Run(s, es)) <==> NoSuccessOverOverflow(s, es)
    decreases |es|
  {
    if es == [] {
    } else {
      var e := es[0];
      StepKeeps(s, e);
      if SucceedsOverOverflow(s, e) {
        OverlapCountsTwice(s, e);
        DamageLasts(Step(s, e), es[1..]);
        CountedTwiceIsNotAccounted(Run(s, es));
      } else {
        StepAccounted(s, e);
        assert NoStop(es[1..]);
        AccountingFrom(Step(s, e), es[1..]);
      }
    }
  }

  /** Over one lifetime the accounting is exact iff no send succeeded over an overflow. */
  lemma ExactAccounting(es: seq<Event>)
    requires NoStop(es)
    ensures Accounted(Run(Init, es)) <==> NoSuccessOverOverflow(Init, es)
  {
    EveryRunKeepsInv([]);
    AccountingFrom(Init, es);
  }

  // --------------------------------------------------- a run that breaks it

  function Repeat(e: Event, n: nat): seq<Event> {
    seq(n, _ => e)
  }

  lemma {:induction false} OverlapInSuffix(s: State, es: seq<Event>, rest: seq<Event>)
    ensures Run(s, es + rest) == Run(Run(s, es), rest)
    ensures !NoSuccessOverOverflow(Run(s, es), rest) ==> !NoSuccessOverOverflow(s, es + rest)
    decreases |es|
  {
    if es == [] {
      assert es + rest == rest;
    } else {
      assert (es + rest)[0] == es[0] && (es + rest)[1..] == es[1..] + rest;
      OverlapInSuffix(Step(s, es[0]), es[1..], rest);
    }
  }

  lemma RunRepeat(s: State, n: nat)
    requires 0 < n
    ensures Run(s, Repeat(Enqueue, n)) == Run(Step(s, Enqueue), Repeat(Enqueue, n - 1))
  {
    assert Repeat(Enqueue, n)[1..] == Repeat(Enqueue, n - 1);
  }

  ghost predicate Idle(s: State) {
    s.gate == Gate(false, true, false, false) && !s.timer && !s.batchSendInFlight && !s.pendingRetry
  }

  /** Until the batch cap is reached nothing is flushed. */
  lemma {:induction false} FillBelowCap(s: State, n: nat)
    requires Idle(s) && |s.deltas| + n < s.sizing.maxDeltasPerBatch <= MAX_DELTAS_BUFFER_SIZE
    ensures var t := Run(s, Repeat(Enqueue, n));
            && Idle(t) && |t.deltas| == |s.deltas| + n && t.sizing == s.sizing && t.due == s.due
            && t.log.overflows == s.log.overflows
    decreases n
  {
    if n > 0 {
      RunRepeat(s, n);
      FillBelowCap(Step(s, Enqueue), n - 1);
    }
  }

  ghost predicate Filling(s: State) {
    s.batchSendInFlight && s.gate == Gate(false, true, false, false) && !s.pendingRetry
  }

  /** While a batch is in flight, producers only append. */
  lemma {:induction false} FillWhileInFlight(s: State, n: nat)
    requires Filling(s) && |s.deltas| + n <= MAX_DELTAS_BUFFER_SIZE
    ensures var t := Run(s, Repeat(Enqueue, n));
            && Filling(t) && |t.deltas| == |s.deltas| + n
            && t.due.flights == s.due.flights && t.log.overflows == s.log.overflows
    decreases n
  {
    if n > 0 {
      RunRepeat(s, n);
      FillWhileInFlight(Step(s, Enqueue), n - 1);
    }
  }

  lemma LastTwoEventsOverlap(t: State)
    requires Inv(t) && Filling(t) && |t.deltas| == MAX_DELTAS_BUFFER_SIZE
    ensures !NoSuccessOverOverflow(t, [Enqueue, SendOk(0)])
  {
    var u := Step(t, Enqueue);
    assert FlightOk(t, t.due.flights[0]);
    assert u.due.flights == t.due.flights && u.log.overflows == t.log.overflows + 1;
    assert SucceedsOverOverflow(u, SendOk(0));
    assert [Enqueue, SendOk(0)][1..] == [SendOk(0)];
  }

  function FirstBatch(): seq<Event> {
    [SetReady(true)] + Repeat(Enqueue, 4) + [Enqueue]
  }

  lemma RunOne(s: State, e: Event)
    ensures Run(s, [e]) == Step(s, e)
  {
    assert [e][1..] == [];
  }

  lemma FirstBatchFills()
    ensures Filling(Run(Init, FirstBatch())) && |Run(Init, FirstBatch()).deltas| == 5
  {
    RunOne(Init, SetReady(true));
    var ready := Step(Init, SetReady(true));
    assert ready.sizing.maxDeltasPerBatch == 5;
    FillBelowCap(ready, 4);
    OverlapInSuffix(Init, [SetReady(true)], Repeat(Enqueue, 4));
    OverlapInSuffix(Init, [SetReady(true)] + Repeat(Enqueue, 4), [Enqueue]);
    RunOne(Run(ready, Repeat(Enqueue, 4)), Enqueue);
  }

  lemma OverlapAfter(prefix: seq<Event>, fill: seq<Event>, tail: seq<Event>)
    requires NoStop(prefix + fill + tail)
    requires Filling(Run(Init, prefix)) && |Run(Init, prefix).deltas| + |fill| == MAX_DELTAS_BUFFER_SIZE
    requires fill == Repeat(Enqueue, |fill|) && tail == [Enqueue, SendOk(0)]
    ensures !Accounted(Run(Init, prefix + fill + tail))
  {
    FillWhileInFlight(Run(Init, prefix), |fill|);
    OverlapInSuffix(Init, prefix, fill);
    EveryRunKeepsInv(prefix + fill);
    LastTwoEventsOverlap(Run(Init, prefix + fill));
    OverlapInSuffix(Init, prefix + fill, tail);
    ExactAccounting(prefix + fill + tail);
  }

  /**
   * One batch goes out when the fifth delta arrives, enough more arrive before the send settles to fill the
   * buffer and overflow it once; then the send succeeds.
   */
  lemma OverlapRunIsNotAccounted(fill: nat)
    requires 5 + fill == MAX_DELTAS_BUFFER_SIZE
    ensures var es := FirstBatch() + Repeat(Enqueue, fill) + [Enqueue, SendOk(0)];
            NoStop(es) && !Accounted(Run(Init, es))
  {
    FirstBatchFills();
    OverlapAfter(FirstBatch(), Repeat(Enqueue, fill), [Enqueue, SendOk(0)]);
  }
}
