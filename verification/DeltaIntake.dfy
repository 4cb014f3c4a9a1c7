/** The producer's whole path: the gates, the suppression of duplicates, and the send loop behind them. */
module DeltaIntake {
  import opened Common
  import opened SendLoop
  import opened SendLoopService
  import opened DuplicateSuppression
  import DedupeKey

  /** `sanitized` is what the sanitiser leaves of the delta, if anything. */
  method ProcessDelta(sender: DeltaSender, dedupe: OutboundDedupe, sanitized: Option<DedupeKey.Delta>, now: int)
    requires sender.Valid() && dedupe.Valid()
    modifies sender, dedupe
    ensures sender.Valid() && dedupe.Valid()
    ensures var taken := old(sender.readyToSend) && !old(sender.subscribing) && sanitized.Some?;
            if !taken then sender.View() == old(sender.View()) && dedupe.recent == old(dedupe.recent)
            else
              var key := DedupeKey.Key(DedupeKey.See(sanitized.value));
              && dedupe.recent == DuplicateSuppression.After(old(dedupe.recent), Offer(key, now))
              && sender.View() == (if Suppresses(old(dedupe.recent), key, now) then old(sender.View())
                                   else SendLoop.Step(old(sender.View()), Enqueue))
  {
    hide DuplicateSuppression.After, Suppresses, SendLoop.Step;
    if !sender.readyToSend || sender.subscribing || sanitized == None {
      return;
    }
    var duplicate := dedupe.SuppressDuplicate(sanitized.value, now);
    if duplicate {
      return;
    }
    sender.OnDelta();
  }
}
