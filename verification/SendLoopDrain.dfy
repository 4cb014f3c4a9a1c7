/**
 * Once producers fall silent on a link that stays ready, the flush/retry/drop loop empties the
 * buffer, whatever the sends' outcomes and however the callbacks interleave.
 */
module SendLoopDrain {
  import opened Common
  import opened SendLoop
  import opened SendLoopSafety

  predicate LinkUp(s: State) {
    !s.gate.stopped && s.gate.readyToSend && !s.gate.socketRecoveryInProgress
  }

  /** Anything may happen except a new delta, a stop or a change of link state. */
  predicate Silent(e: Event) {
    !e.Enqueue? && !e.Stop? && !e.SetReady? && !e.SetRecovering?
  }

  predicate AllSilent(es: seq<Event>) {
    forall i :: 0 <= i < |es| ==> Silent(es[i])
  }

  /** Attempts already spent on the batch at the head of the buffer. */
  function AttemptsUsed(s: State): nat {
    if s.due.flights != [] then s.due.flights[0].retryCount
    else if s.due.retries != [] then s.due.retries[0].retryCount
    else 0
  }

  /**
   * Buffer length first, attempts left second, and last whether the next send still has to start.
   * Zero exactly when the buffer is empty.
   */
  function Rank(s: State): int {
    if s.deltas == [] then 0
    else 2 * (2 * |s.deltas| - AttemptsUsed(s)) - (if s.due.flights != [] then 1 else 0)
  }

  /** The step moved a delta, started or settled a send, or armed or fired a retry. */
  predicate Moves(s: State, e: Event) {
    var t := Step(s, e);
    t.deltas != s.deltas || t.due.flights != s.due.flights || t.due.retries != s.due.retries
  }

  lemma RankIsZeroWhenEmpty(s: State)
    requires Inv(s) && LinkUp(s)
    ensures 0 <= Rank(s) <= 4 * |s.deltas|
    ensures Rank(s) == 0 <==> s.deltas == []
    ensures s.deltas == [] ==> s.due.flights == [] && s.due.retries == []
  {
    assert forall i :: 0 <= i < |s.due.flights| ==> FlightOk(s, s.due.flights[i]);
    if s.due.retries != [] {
      assert s.due.retries[0].retryCount == DELTA_SEND_MAX_RETRIES;
    }
  }

  lemma FlushRank(s: State, batchSize: nat, retryCount: nat)
    requires Inv(s) && LinkUp(s) && !s.batchSendInFlight && !s.pendingRetry
    requires s.deltas != [] && 1 <= batchSize && retryCount <= DELTA_SEND_MAX_RETRIES
    ensures var t := Flush(s, batchSize, retryCount);
            && |t.due.flights| == 1 && t.due.flights[0].retryCount == retryCount
            && t.deltas == s.deltas
            && Rank(t) == 2 * (2 * |s.deltas| - retryCount) - 1
  {
  }

  lemma SettleRank(s: State, e: Event)
    requires Inv(s) && LinkUp(s) && Enabled(s, e) && (e.SendOk? || e.SendError?)
    ensures Rank(Step(s, e)) < Rank(s)
  {
    var f := s.due.flights[e.flight];
    assert e.flight == 0;
    assert FlightOk(s, f);
    assert RemoveAt(s.due.flights, 0) == [];
  }

  ghost predicate Lowers(s: State, e: Event) {
    if Moves(s, e) then Rank(Step(s, e)) < Rank(s) else Rank(Step(s, e)) == Rank(s)
  }

  lemma RetryLowers(s: State, i: nat)
    requires Inv(s) && LinkUp(s) && i < |s.due.retries|
    ensures Lowers(s, RetryFires(i))
  {
    StepRetryDue(s, i);
    FlushRank(RetryDue(s, i), s.due.retries[i].batchSize, s.due.retries[i].retryCount);
  }

  lemma ImmediateLowers(s: State)
    requires Inv(s) && LinkUp(s) && 0 < s.due.immediates
    ensures Lowers(s, ImmediateFires)
  {
    var t := s.(due := s.due.(immediates := s.due.immediates - 1));
    if !s.batchSendInFlight && !s.pendingRetry && s.deltas != [] {
      SameFlights(s, t);
      FlushRank(t, |s.deltas|, 0);
    }
  }

  lemma TimerLowers(s: State)
    requires Inv(s) && LinkUp(s)
    ensures Lowers(s, TimerFires)
  {
    var t := s.(timer := true);
    if !s.batchSendInFlight && !s.pendingRetry && s.deltas != [] {
      SameFlights(s, t);
      FlushRank(t, |s.deltas|, 0);
    }
  }

  /** No silent event raises the rank; one that moves anything lowers it. */
  lemma SilentStep(s: State, e: Event)
    requires Inv(s) && LinkUp(s) && Silent(e)
    ensures Inv(Step(s, e)) && LinkUp(Step(s, e))
    ensures Lowers(s, e)
  {
    StepKeeps(s, e);
    if Enabled(s, e) {
      match e
      case SendOk(i) => SettleRank(s, e);
      case SendError(i) => SettleRank(s, e);
      case RetryFires(i) => RetryLowers(s, i);
      case ImmediateFires => ImmediateLowers(s);
      case TimerFires => TimerLowers(s);
      case PacketSized(b) =>
      case SetSubscribing(on) =>
    }
  }

  lemma StepRetryDue(s: State, i: nat)
    requires Inv(s) && !s.gate.stopped && i < |s.due.retries|
    ensures Inv(RetryDue(s, i)) && s.due.flights == [] && !s.batchSendInFlight
  {
    assert RemoveAt(s.due.retries, i) == [];
  }

  /**
   * A non-empty buffer is never stuck: the callback that is due next makes a move. A settled send
   * moves whichever way it went; with neither a send nor a retry outstanding the flush timer does.
   */
  lemma NeverStuck(s: State)
    requires Inv(s) && LinkUp(s) && s.deltas != []
    ensures s.due.flights != [] ==> Moves(s, SendOk(0)) && Moves(s, SendError(0))
    ensures s.due.retries != [] ==> Moves(s, RetryFires(0))
    ensures s.due.flights == [] && s.due.retries == [] ==> Enabled(s, TimerFires) && Moves(s, TimerFires)
  {
    if s.due.flights != [] {
      assert |Step(s, SendOk(0)).due.flights| == 0;
      assert |Step(s, SendError(0)).due.flights| == 0;
    } else if s.due.retries != [] {
      StepRetryDue(s, 0);
      FlushRank(RetryDue(s, 0), s.due.retries[0].batchSize, s.due.retries[0].retryCount);
    } else {
      var t := s.(timer := true);
      assert Inv(t);
      FlushRank(t, |s.deltas|, 0);
    }
  }

  function MovesIn(s: State, es: seq<Event>): nat
    decreases |es|
  {
    if es == [] then 0
    else (if Moves(s, es[0]) then 1 else 0) + MovesIn(Step(s, es[0]), es[1..])
  }

  /** Every silent run makes at most four moves per buffered delta; one that makes as many has drained. */
  lemma {:induction false} SilentRunDrains(s: State, es: seq<Event>)
    requires Inv(s) && LinkUp(s) && AllSilent(es)
    ensures MovesIn(s, es) + Rank(Run(s, es)) <= Rank(s) <= 4 * |s.deltas|
    ensures MovesIn(s, es) <= 4 * |s.deltas|
    ensures MovesIn(s, es) == Rank(s) ==> Run(s, es).deltas == []
    decreases |es|
  {
    RankIsZeroWhenEmpty(s);
    if es == [] {
    } else {
      var t := Step(s, es[0]);
      SilentStep(s, es[0]);
      SilentRunDrains(t, es[1..]);
      RunKeeps(t, es[1..]);
      SilentLinkUp(t, es[1..]);
      RankIsZeroWhenEmpty(Run(s, es));
    }
  }

  lemma {:induction false} SilentLinkUp(s: State, es: seq<Event>)
    requires Inv(s) && LinkUp(s) && AllSilent(es)
    ensures LinkUp(Run(s, es))
    decreases |es|
  {
    if es == [] {
    } else {
      SilentStep(s, es[0]);
      SilentLinkUp(Step(s, es[0]), es[1..]);
    }
  }

  /** The callback the event loop owes next, with the given outcome when it is a send. */
  function NextDue(s: State, sendOk: bool): Event {
    if s.due.flights != [] then (if sendOk then SendOk(0) else SendError(0))
    else if s.due.retries != [] then RetryFires(0)
    else TimerFires
  }

  function Drive(s: State, outcomes: seq<bool>): State
    decreases |outcomes|
  {
    if outcomes == [] then s else Drive(Step(s, NextDue(s, outcomes[0])), outcomes[1..])
  }

  /** Serving what is due, four rounds per buffered delta empty the buffer for every sequence of outcomes. */
  lemma {:induction false} DriveEmpties(s: State, outcomes: seq<bool>)
    requires Inv(s) && LinkUp(s) && Rank(s) <= |outcomes|
    ensures Drive(s, outcomes).deltas == []
    decreases |outcomes|
  {
    RankIsZeroWhenEmpty(s);
    if outcomes == [] {
    } else {
      var e := NextDue(s, outcomes[0]);
      SilentStep(s, e);
      if s.deltas != [] {
        NeverStuck(s);
      }
      DriveEmpties(Step(s, e), outcomes[1..]);
    }
  }
}
