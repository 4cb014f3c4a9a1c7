/** When the bonding manager switches, and what each event does to the links. */
module BondingEffects {
  import opened Common
  import opened JsMap
  import opened Bonding
  import opened BondingProbes
  import CircularHistory

  // ------------------------------------------------------------------- the decisions

  /** The primary as measured is too slow or loses too much, and was made active 5 s ago or more. */
  predicate Degraded(m: State, lastFailback: real, th: Thresholds, now: real) {
    now - lastFailback >= 5000.0 && (m.primary.health.rtt > th.rtt || m.primary.health.loss > th.loss)
  }

  predicate LeavesPrimary(m: State, lastFailback: real, th: Thresholds, now: real) {
    m.backup.health.status != Down && (m.primary.health.status == Down || Degraded(m, lastFailback, th, now))
  }

  /** The primary as measured is not down, clearly good again, and the delay since the failover is over. */
  predicate LeavesBackup(m: State, lastFailover: real, th: Thresholds, now: real) {
    && now - lastFailover >= th.failbackDelay && m.primary.health.status != Down
    && m.primary.health.rtt < 0.8 * th.rtt && m.primary.health.loss < 0.5 * th.loss
  }

  /** From `s`, over the links as measured in `m`, to `t`: switched exactly when it should be. */
  predicate DecidedRightly(s: State, m: State, t: State, th: Thresholds, at: Readings) {
    && (s.active == Primary ==> (t.active == Backup <==> LeavesPrimary(m, s.lastFailback, th, at.failover)))
    && (s.active == Backup ==> (t.active == Primary <==> LeavesBackup(m, s.lastFailover, th, at.failback)))
  }

  /** What a check leaves: the measured links with the statuses and the time of the switch, if there was one. */
  predicate OnlySwitched(s: State, m: State, t: State, at: Readings) {
    if t.active == s.active then t == s.(primary := m.primary, backup := m.backup, clock := at.failback)
    else
      && t.primary == WithStatus(m.primary, if t.active == Primary then Active
                                            else if m.primary.health.status == Down then Down else Standby)
      && t.backup == WithStatus(m.backup, if t.active == Backup then Active else Standby)
      && t.lastFailover == (if t.active == Backup then at.switched else s.lastFailover)
      && t.lastFailback == (if t.active == Primary then at.switched else s.lastFailback)
      && t.monitoring == s.monitoring && t.stopped == s.stopped
  }

  /** A monitoring check switches exactly when the links as measured call for it, and does no more. */
  lemma ChecksDecideExactly(s: State, th: Thresholds, at: Readings)
    requires s.monitoring
    ensures DecidedRightly(s, MeasureBoth(s, th, at), Step(s, th, Tick(at)), th, at)
    ensures OnlySwitched(s, MeasureBoth(s, th, at), Step(s, th, Tick(at)), at)
  {
    hide Measure;
  }

  // --------------------------------------------------------------------- measuring a link

  lemma {:induction false} ExpireOnlySamples(l: Link, probes: seq<nat>, now: real, timeout: real)
    ensures var m := Expire(l, probes, now, timeout);
            && m.open == l.open && m.health == l.health && m.recovering == l.recovering
            && m.probes == l.probes.(pending := m.probes.pending, lossWindow := m.probes.lossWindow)
    decreases |probes|
  {
    hide CircularHistory.LastN;
    if probes != [] {
      ExpireOnlySamples(l, probes[..|probes| - 1], now, timeout);
    }
  }

  /**
   * Measuring an open link sends one more probe, and marks it down exactly if more than three have been sent and the
   * last answer is older than the timeout; a closed link is left alone.
   */
  lemma MeasureMarksDown(l: Link, now: real, timeout: real)
    ensures var m := Measure(l, now, timeout);
            if !l.open then m == l
            else
              && m.health.status == (if l.probes.sent + 1 > 3 && now - l.probes.lastResponse > timeout then Down else l.health.status)
              && m.probes.sent == l.probes.sent + 1 && m.probes.next == l.probes.next + 1
              && m.probes.responses == l.probes.responses && m.probes.lastResponse == l.probes.lastResponse
              && m.health.rtt == l.health.rtt && m.health.quality == Quality(m.health.rtt, m.health.loss)
              && m.open && m.recovering == l.recovering
  {
    hide LossRatio, Quality;
    if l.open {
      var probed := SendProbe(l, now);
      ExpireOnlySamples(probed, probed.probes.pending.order, now, timeout);
    }
  }

  /** 60 points for what is not lost and 40 for the speed, rounded. */
  lemma QualityWeighs(rtt: real, loss: real)
    requires 0.0 <= rtt && 0.0 <= loss <= 1.0
    ensures var q, speed := Quality(rtt, loss) as real, if rtt < 1000.0 then 1.0 - rtt / 1000.0 else 0.0;
            q - 0.5 <= 60.0 * (1.0 - loss) + 40.0 * speed < q + 0.5
  {
    if rtt < 1000.0 {
      assert 0.0 <= 1.0 - rtt / 1000.0 <= 1.0;
    } else {
      assert 1.0 <= rtt / 1000.0;
    }
  }

  // --------------------------------------------------------------------------- answers

  /**
   * An answer to a pending probe settles it, counts, moves the round-trip average a fifth of the way to its sample (or
   * sets it, the first time) and brings a link back that was down; any other answer changes nothing.
   */
  lemma AnswerSettles(l: Link, probe: nat, arrived: real, recorded: real, isActive: bool)
    ensures var t := Answer(l, probe, arrived, recorded, isActive);
            if !l.probes.pending.Has(probe) then t == l
            else
              var sample := arrived - l.probes.pending.vals[probe];
              && !t.probes.pending.Has(probe)
              && (forall k :: k != probe ==> t.probes.pending.Get(k) == l.probes.pending.Get(k))
              && t.past.outcomes == l.past.outcomes + [Outcome(probe, true)]
              && t.probes.responses == l.probes.responses + 1 && t.probes.lastResponse == recorded
              && t.probes.sent == l.probes.sent && t.probes.next == l.probes.next
              && (l.health.rtt == 0.0 ==> t.health.rtt == sample)
              && (l.health.rtt != 0.0 ==> t.health.rtt - l.health.rtt == (sample - l.health.rtt) / 5.0)
              && t.health.status == (if l.health.status != Down then l.health.status else if isActive then Active else Standby)
              && t.health.loss == l.health.loss && t.open == l.open && t.recovering == l.recovering
  {
    hide CircularHistory.LastN;
  }

  // ----------------------------------------------------------------------- sockets, start, stop

  /** Only the named link is touched, and only in status, socket and recovery timer. */
  predicate OnlyStatus(s: State, t: State, name: Name) {
    && t == Put(s, name, Get(t, name))
    && Get(t, name) == Get(s, name).(open := Get(t, name).open, recovering := Get(t, name).recovering,
                                     health := Get(s, name).health.(status := Get(t, name).health.status))
  }

  /**
   * A socket error marks its link down and arms one recovery unless the manager is stopped; a recovery that was armed
   * puts the link on standby, leaves its status to the binding, or marks it down; nothing else moves.
   */
  lemma SocketsFailAndRecover(s: State, th: Thresholds, name: Name, outcome: Recovery)
    ensures var e, r := Step(s, th, SocketError(name)), Step(s, th, RecoveryFires(name, outcome));
            && OnlyStatus(s, e, name) && Get(e, name).health.status == Down && Get(e, name).open == Get(s, name).open
            && (Get(e, name).recovering <==> Get(s, name).recovering || !s.stopped)
            && OnlyStatus(s, r, name)
            && (!Get(s, name).recovering ==> r == s)
            && (Get(s, name).recovering ==>
                  && !Get(r, name).recovering
                  && Get(r, name).open == (!outcome.Broken? || Get(s, name).open)
                  && Get(r, name).health.status == (match outcome
                                                    case Recovered => Standby
                                                    case Binding => Get(s, name).health.status
                                                    case Broken => Down))
  {
  }

  /** A stop ends the checks, closes both links, disarms their recoveries and forgets what is pending. */
  lemma StopCloses(s: State, th: Thresholds, name: Name)
    ensures var t := Step(s, th, Stop);
            && t.stopped && !t.monitoring && t.active == s.active
            && !Get(t, name).open && !Get(t, name).recovering && Get(t, name).health == Get(s, name).health
            && (forall k :: !Get(t, name).probes.pending.Has(k)) && Get(t, name).probes.lossWindow == []
            && Get(t, name).probes.sent == Get(s, name).probes.sent
  {
  }

  /** Initialization puts each link it opens on standby, and ends with the primary active and the checks started. */
  lemma StartOpens(s: State, th: Thresholds, name: Name, now: real)
    ensures var o, b := Step(s, th, OpenLink(name)), Step(s, th, Begin(now));
            && OnlyStatus(s, o, name) && Get(o, name).open && Get(o, name).health.status == Standby
            && Get(o, name).recovering == Get(s, name).recovering
            && OnlyStatus(s.(lastFailback := now, monitoring := true, clock := now), b, Primary)
            && b.primary.health.status == Active && b.primary.open == s.primary.open
            && b.primary.recovering == s.primary.recovering
  {
  }

  /** A forced switch goes to the other link, whatever its state, and resets the time of that kind of switch. */
  lemma ForceSwitches(s: State, th: Thresholds, now: real)
    ensures var t := Step(s, th, Force(now));
            && t.active == (if s.active == Primary then Backup else Primary)
            && Get(t, t.active).health.status == Active
            && Get(t, s.active).health.status == (if s.active == Primary && s.primary.health.status == Down then Down else Standby)
            && t.lastFailover == (if t.active == Backup then now else s.lastFailover)
            && t.lastFailback == (if t.active == Primary then now else s.lastFailback)
  {
  }
}
