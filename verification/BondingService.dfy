/** The bonding manager as the program holds it: link objects with their histories, updated in place. */
module BondingService {
  import opened Common
  import opened CircularHistory
  import opened JsMap
  import opened Bonding
  import opened BondingProbes
  import opened BondingSafety
  import opened BondingEffects

  class LinkState {
    var open: bool
    var health: Health
    var heartbeatSeq: nat
    var pendingHeartbeats: JsMap<nat, real>
    var heartbeatsSent: nat
    var heartbeatResponses: nat
    var lastHeartbeatResponse: real
    var lossSamples: CircularBuffer<bool>
    var rttSamples: CircularBuffer<real>
    var recoveryTimer: bool
    ghost var past: Past

    ghost var Repr: set<object>

    ghost predicate Valid()
      reads this, Repr
      ensures Valid() ==> this in Repr
    {
      && Repr == {this} + lossSamples.Repr() + rttSamples.Repr()
      && lossSamples in Repr && rttSamples in Repr && lossSamples.buffer in Repr && rttSamples.buffer in Repr
      && lossSamples.Valid() && rttSamples.Valid()
      && lossSamples.Repr() !! rttSamples.Repr()
      && this !in lossSamples.Repr() && this !in rttSamples.Repr()
      && lossSamples.buffer.Length == HEALTH_WINDOW_SIZE == rttSamples.buffer.Length
    }

    ghost function View(): (l: Link)
      requires Valid()
      reads this, Repr
      ensures l.health == health && l.open == open && l.recovering == recoveryTimer
    {
      Link(open, health,
           Probes(heartbeatSeq, pendingHeartbeats, heartbeatsSent, heartbeatResponses, lastHeartbeatResponse,
                  LastN(lossSamples.pushed, HEALTH_WINDOW_SIZE), LastN(rttSamples.pushed, HEALTH_WINDOW_SIZE)),
           recoveryTimer, past)
    }

    constructor ()
      ensures Valid() && fresh(Repr) && View() == NewLink
    {
      open, health, recoveryTimer := false, Health(0.0, 0.0, 100, Unknown), false;
      heartbeatSeq, heartbeatsSent, heartbeatResponses, lastHeartbeatResponse := 0, 0, 0, 0.0;
      pendingHeartbeats := Empty();
      past := Past([], 0, 0);
      lossSamples := new CircularBuffer<bool>(HEALTH_WINDOW_SIZE);
      rttSamples := new CircularBuffer<real>(HEALTH_WINDOW_SIZE);
      new;
      Repr := {this} + lossSamples.Repr() + rttSamples.Repr();
    }

    method SetStatus(status: Status)
      requires Valid()
      modifies this`health
      ensures Valid() && Repr == old(Repr) && View() == WithStatus(old(View()), status)
    {
      health := health.(status := status);
    }

    method PushSample(probe: nat, answered: bool)
      requires Valid()
      modifies Repr
      ensures Valid() && Repr == old(Repr)
      ensures View() == Sample(old(View()), probe, answered)
    {
      hide LastN, JsMap.Delete, CircularBuffer.Valid;
      LastNPush(lossSamples.pushed, answered, HEALTH_WINDOW_SIZE);
      pendingHeartbeats := pendingHeartbeats.Delete(probe);
      lossSamples.Push(answered);
      past := past.(outcomes := past.outcomes + [Outcome(probe, answered)]);
    }

    method ExpirePendingHeartbeats(now: real, timeout: real)
      requires Valid()
      modifies Repr
      ensures Valid() && Repr == old(Repr)
      ensures View() == Expire(old(View()), old(pendingHeartbeats.order), now, timeout)
    {
      hide Sample, LastN;
      var probes := pendingHeartbeats.order;
      for i := 0 to |probes|
        invariant Valid() && Repr == old(Repr)
        invariant View() == Expire(old(View()), probes[..i], now, timeout)
      {
        assert probes[..i + 1][..i] == probes[..i];
        if pendingHeartbeats.Has(probes[i]) && now - pendingHeartbeats.vals[probes[i]] > timeout {
          PushSample(probes[i], false);
        }
      }
      assert probes[..|probes|] == probes;
    }

    method ComputeLossRatio() returns (loss: Option<real>)
      requires Valid()
      ensures loss == LossRatio(LastN(lossSamples.pushed, HEALTH_WINDOW_SIZE), heartbeatsSent, heartbeatResponses)
    {
      if lossSamples.Length() > 0 {
        var samples := lossSamples.ToArray();
        var received := 0;
        for i := 0 to |samples|
          invariant received == CountTrue(samples[..i])
        {
          assert samples[..i + 1][..i] == samples[..i];
          if samples[i] {
            received := received + 1;
          }
        }
        assert samples[..|samples|] == samples;
        return Some(Clamp01(1.0 - received as real / |samples| as real));
      }
      if heartbeatsSent > 0 {
        return Some(Clamp01(1.0 - heartbeatResponses as real / heartbeatsSent as real));
      }
      return None;
    }

    method UpdateLinkMetrics()
      requires Valid()
      modifies this`health
      ensures Valid() && Repr == old(Repr) && View() == UpdateMetrics(old(View()))
    {
      var loss := ComputeLossRatio();
      if loss.Some? {
        health := health.(loss := loss.value);
      }
      health := health.(quality := Quality(health.rtt, health.loss));
    }

    method MeasureLinkHealth(now: real, timeout: real)
      requires Valid()
      modifies Repr
      ensures Valid() && Repr == old(Repr)
      ensures View() == Measure(old(View()), now, timeout)
    {
      hide LastN, Expire, UpdateMetrics;
      if !open {
        return;
      }
      pendingHeartbeats := pendingHeartbeats.Set(heartbeatSeq, now);
      heartbeatSeq := heartbeatSeq + 1;
      heartbeatsSent := heartbeatsSent + 1;
      assert View() == SendProbe(old(View()), now);
      ExpirePendingHeartbeats(now, timeout);
      UpdateLinkMetrics();
      var noResponse := heartbeatsSent > 3 && now - lastHeartbeatResponse > timeout;
      if noResponse && health.status != Down {
        SetStatus(Down);
      }
    }

    method HandleHeartbeatResponse(probe: nat, arrived: real, recorded: real, isActive: bool)
      requires Valid()
      modifies Repr
      ensures Valid() && Repr == old(Repr)
      ensures View() == Answer(old(View()), probe, arrived, recorded, isActive)
    {
      hide LastN, Ema, CircularBuffer.Valid;
      if !pendingHeartbeats.Has(probe) {
        return;
      }
      var rtt := arrived - pendingHeartbeats.vals[probe];
      PushSample(probe, true);
      LastNPush(rttSamples.pushed, rtt, HEALTH_WINDOW_SIZE);
      heartbeatResponses := heartbeatResponses + 1;
      lastHeartbeatResponse := recorded;
      rttSamples.Push(rtt);
      health := health.(rtt := Ema(health.rtt, rtt));
      if health.status == Down {
        SetStatus(if isActive then Active else Standby);
      }
    }

    method Open()
      requires Valid()
      modifies this`open, this`health
      ensures Valid() && Repr == old(Repr) && View() == WithStatus(old(View()), Standby).(open := true)
    {
      hide LastN, CircularBuffer.Valid;
      open := true;
      SetStatus(Standby);
    }

    method Fail(stopped: bool)
      requires Valid()
      modifies this`health, this`recoveryTimer
      ensures Valid() && Repr == old(Repr) && View() == WithStatus(old(View()), Down).(recovering := old(View()).recovering || !stopped)
    {
      hide LastN, CircularBuffer.Valid;
      SetStatus(Down);
      if stopped || recoveryTimer {
        return;
      }
      recoveryTimer := true;
    }

    method Recreate(outcome: Recovery)
      requires Valid()
      modifies this`open, this`health, this`recoveryTimer
      ensures Valid() && Repr == old(Repr) && View() == Recover(old(View()), outcome)
    {
      hide LastN, CircularBuffer.Valid;
      recoveryTimer := false;
      if outcome != Broken {
        open := true;
      }
      if outcome == Recovered {
        SetStatus(Standby);
      } else if outcome == Broken {
        SetStatus(Down);
      }
    }

    method NewSamples()
      requires Valid()
      modifies this`lossSamples, this`rttSamples, this`Repr
      ensures Valid() && fresh(Repr - {this})
      ensures lossSamples.pushed == [] && rttSamples.pushed == []
    {
      hide LastN, Laid;
      var losses := new CircularBuffer<bool>(HEALTH_WINDOW_SIZE);
      var rtts := new CircularBuffer<real>(HEALTH_WINDOW_SIZE);
      lossSamples, rttSamples := losses, rtts;
      Repr := {this} + losses.Repr() + rtts.Repr();
    }

    method Close()
      requires Valid()
      modifies this
      ensures Valid() && fresh(Repr - {this})
      ensures View() == Shut(old(View()))
    {
      NewSamples();
      past := past.(windowFrom := |past.outcomes|, abandoned := past.abandoned + pendingHeartbeats.Size());
      open, recoveryTimer := false, false;
      pendingHeartbeats := Empty();
    }
  }

  class BondingManager {
    const primary: LinkState
    const backup: LinkState
    const thresholds: Thresholds
    var activeLink: Name
    var lastFailoverTime: real
    var lastFailbackTime: real
    var monitoring: bool
    var stopped: bool
    ghost var clock: real
    ghost var switches: seq<Switch>

    /** The two links are separate objects. */
    ghost predicate Shaped()
      reads this, primary, backup, primary.Repr, backup.Repr
    {
      && primary.Valid() && backup.Valid()
      && primary.Repr !! backup.Repr && primary !in backup.Repr && backup !in primary.Repr
      && primary != backup
      && this !in primary.Repr && this !in backup.Repr
    }

    ghost function Repr(): set<object>
      reads this, primary, backup
    {
      {this} + primary.Repr + backup.Repr
    }

    ghost function View(): State
      requires Shaped()
      reads this, primary, backup, primary.Repr, backup.Repr
    {
      State(activeLink, primary.View(), backup.View(), lastFailoverTime, lastFailbackTime, monitoring, stopped, clock, switches)
    }

    /** Besides: the switches so far are spaced as they must be, and every probe is accounted for. */
    ghost predicate Valid()
      reads this, primary, backup, primary.Repr, backup.Repr
      ensures Valid() ==> Shaped() && WellSpaced(switches, thresholds)
    {
      Shaped() && Kept(View(), thresholds)
    }

    constructor (thresholds: Thresholds)
      ensures Valid() && fresh(Repr()) && View() == Init && this.thresholds == thresholds
    {
      StartKept(thresholds);
      hide LinkState.View, LinkState.Valid;
      this.thresholds := thresholds;
      primary := new LinkState();
      backup := new LinkState();
      activeLink, lastFailoverTime, lastFailbackTime := Primary, 0.0, 0.0;
      monitoring, stopped, clock, switches := false, false, 0.0, [];
    }

    method SetStatuses(p: Status, b: Status)
      requires Shaped()
      modifies primary`health, backup`health
      ensures Shaped() && primary.View() == WithStatus(old(primary.View()), p) && backup.View() == WithStatus(old(backup.View()), b)
    {
      hide LinkState.View, LinkState.Valid;
      primary.SetStatus(p);
      backup.SetStatus(b);
    }

    method SwitchToBackup(ghost kind: Kind, now: real)
      requires Shaped()
      modifies this, primary`health, backup`health
      ensures Shaped() && View() == Failover(old(View()), kind, now)
    {
      hide LinkState.View, LinkState.Valid;
      if activeLink == Backup {
        return;
      }
      SetStatuses(if primary.health.status == Down then Down else Standby, Active);
      activeLink := Backup;
      lastFailoverTime, clock := now, now;
      switches := switches + [Switch(Backup, kind, now)];
    }

    method SwitchToPrimary(ghost kind: Kind, now: real)
      requires Shaped()
      modifies this, primary`health, backup`health
      ensures Shaped() && View() == Failback(old(View()), kind, now)
    {
      hide LinkState.View, LinkState.Valid;
      if activeLink == Primary {
        return;
      }
      SetStatuses(Active, Standby);
      activeLink := Primary;
      lastFailbackTime, clock := now, now;
      switches := switches + [Switch(Primary, kind, now)];
    }

    method FailoverIsDue(now: real) returns (due: bool)
      requires Shaped()
      ensures due == ShouldFailover(View(), thresholds, now)
    {
      if activeLink != Primary || backup.health.status == Down {
        return false;
      }
      if primary.health.status == Down {
        return true;
      }
      if now - lastFailbackTime < FAILOVER_MIN_DWELL {
        return false;
      }
      return primary.health.rtt > thresholds.rtt || primary.health.loss > thresholds.loss;
    }

    method FailbackIsDue(now: real) returns (due: bool)
      requires Shaped()
      ensures due == ShouldFailback(View(), thresholds, now)
    {
      if activeLink != Backup || now - lastFailoverTime < thresholds.failbackDelay || primary.health.status == Down {
        return false;
      }
      return primary.health.rtt < thresholds.rtt * FAILBACK_RTT_HYSTERESIS
          && primary.health.loss < thresholds.loss * FAILBACK_LOSS_HYSTERESIS;
    }

    method MeasureLinks(at: Readings)
      requires Shaped()
      modifies Repr()
      ensures Shaped() && Repr() == old(Repr())
      ensures View() == MeasureBoth(old(View()), thresholds, at)
    {
      hide LinkState.View, LinkState.Valid, Measure;
      primary.MeasureLinkHealth(at.primary, thresholds.heartbeatTimeout);
      backup.MeasureLinkHealth(at.backup, thresholds.heartbeatTimeout);
      clock := at.failover;
    }

    method SwitchIfDue(at: Readings)
      requires Shaped()
      modifies this, primary`health, backup`health
      ensures Shaped() && View() == Decide(old(View()), thresholds, at)
    {
      hide LinkState.View, LinkState.Valid, ShouldFailover, ShouldFailback, Failover, Failback;
      var failover := FailoverIsDue(at.failover);
      if failover {
        SwitchToBackup(if primary.health.status == Down then Hard else Soft, at.switched);
        return;
      }
      var failback := FailbackIsDue(at.failback);
      if failback {
        SwitchToPrimary(Return, at.switched);
      } else {
        clock := at.failback;
      }
    }

    method CheckHealth(at: Readings)
      requires Valid() && InOrder(clock, Tick(at))
      modifies Repr()
      ensures Valid() && Repr() == old(Repr())
      ensures View() == Step(old(View()), thresholds, Tick(at))
      ensures old(OneActive(View())) ==> OneActive(View())
      ensures monitoring ==> WellSwitched(old(View()), View(), thresholds)
      ensures monitoring ==>
                var m := MeasureBoth(old(View()), thresholds, at);
                DecidedRightly(old(View()), m, View(), thresholds, at) && OnlySwitched(old(View()), m, View(), at)
    {
      hide Kept, OneActive, WellSwitched, DecidedRightly, OnlySwitched, WellSpaced, SpacingInv, BothLinks, LinkState.View, LinkState.Valid, MeasureBoth, Decide;
      StepKeepsAll(View(), thresholds, Tick(at));
      if monitoring {
        ChecksSwitchWell(View(), thresholds, at);
        ChecksDecideExactly(View(), thresholds, at);
        MeasureLinks(at);
        SwitchIfDue(at);
      }
    }

    method HeartbeatArrived(name: Name, probe: nat, arrived: real, recorded: real)
      requires Valid() && InOrder(clock, Heard(name, probe, arrived, recorded))
      modifies Repr()
      ensures Valid() && Repr() == old(Repr())
      ensures View() == Step(old(View()), thresholds, Heard(name, probe, arrived, recorded))
      ensures old(OneActive(View())) ==> OneActive(View())
    {
      hide Kept, OneActive, WellSpaced, SpacingInv, BothLinks, LinkState.View, LinkState.Valid, Answer;
      StepKeepsAll(View(), thresholds, Heard(name, probe, arrived, recorded));
      if name == Primary {
        primary.HandleHeartbeatResponse(probe, arrived, recorded, activeLink == name);
      } else {
        backup.HandleHeartbeatResponse(probe, arrived, recorded, activeLink == name);
      }
      clock := recorded;
    }

    method ForceFailover(now: real)
      requires Valid() && InOrder(clock, Force(now))
      modifies this, primary`health, backup`health
      ensures Valid() && View() == Step(old(View()), thresholds, Force(now))
      ensures old(OneActive(View())) ==> OneActive(View())
    {
      hide Kept, OneActive, WellSpaced, SpacingInv, BothLinks, LinkState.View, LinkState.Valid, Failover, Failback;
      StepKeepsAll(View(), thresholds, Force(now));
      if activeLink == Primary {
        SwitchToBackup(Forced, now);
      } else {
        SwitchToPrimary(Forced, now);
      }
    }

    method CompleteInitialize(now: real)
      requires Valid() && InOrder(clock, Begin(now))
      modifies this, primary`health
      ensures Valid() && View() == Step(old(View()), thresholds, Begin(now))
      ensures old(OneActive(View())) ==> (OneActive(View()) <==> activeLink == Primary)
    {
      hide Kept, OneActive, WellSpaced, SpacingInv, BothLinks, LinkState.View, LinkState.Valid;
      StepKeepsAll(View(), thresholds, Begin(now));
      primary.SetStatus(Active);
      lastFailbackTime, clock := now, now;
      monitoring := true;
    }

    method SocketOpened(name: Name)
      requires Valid()
      modifies primary`open, primary`health, backup`open, backup`health
      ensures Valid() && View() == Step(old(View()), thresholds, OpenLink(name))
      ensures old(OneActive(View())) ==> OneActive(View())
    {
      hide Kept, OneActive, WellSpaced, SpacingInv, BothLinks, LinkState.View, LinkState.Valid;
      StepKeepsAll(View(), thresholds, OpenLink(name));
      if name == Primary {
        primary.Open();
      } else {
        backup.Open();
      }
    }

    method SocketFailed(name: Name)
      requires Valid()
      modifies primary`health, primary`recoveryTimer, backup`health, backup`recoveryTimer
      ensures Valid() && View() == Step(old(View()), thresholds, SocketError(name))
      ensures old(OneActive(View())) ==> OneActive(View())
    {
      hide Kept, OneActive, WellSpaced, SpacingInv, BothLinks, LinkState.View, LinkState.Valid;
      StepKeepsAll(View(), thresholds, SocketError(name));
      if name == Primary {
        primary.Fail(stopped);
      } else {
        backup.Fail(stopped);
      }
    }

    method RecoveryTimerFires(name: Name, outcome: Recovery)
      requires Valid()
      modifies primary`open, primary`health, primary`recoveryTimer, backup`open, backup`health, backup`recoveryTimer
      ensures Valid() && View() == Step(old(View()), thresholds, RecoveryFires(name, outcome))
      ensures old(OneActive(View())) ==> OneActive(View())
    {
      hide Kept, OneActive, WellSpaced, SpacingInv, BothLinks, LinkState.View, LinkState.Valid, Recover;
      StepKeepsAll(View(), thresholds, RecoveryFires(name, outcome));
      if name == Primary {
        if primary.recoveryTimer {
          primary.Recreate(outcome);
        }
      } else if backup.recoveryTimer {
        backup.Recreate(outcome);
      }
    }

    method SocketBound(name: Name)
      requires Valid()
      modifies primary`health, backup`health
      ensures Valid() && View() == Step(old(View()), thresholds, Bound(name))
      ensures old(OneActive(View())) ==> OneActive(View())
    {
      hide Kept, OneActive, WellSpaced, SpacingInv, BothLinks, LinkState.View, LinkState.Valid;
      StepKeepsAll(View(), thresholds, Bound(name));
      if name == Primary {
        primary.SetStatus(Standby);
      } else {
        backup.SetStatus(Standby);
      }
    }

    method StopAll()
      requires Valid()
      modifies this, primary, backup
      ensures Valid() && fresh(primary.Repr - {primary}) && fresh(backup.Repr - {backup})
      ensures View() == Step(old(View()), thresholds, Stop)
      ensures old(OneActive(View())) ==> OneActive(View())
    {
      hide Kept, OneActive, WellSpaced, SpacingInv, BothLinks, LinkState.View, LinkState.Valid, Shut;
      StepKeepsAll(View(), thresholds, Stop);
      stopped, monitoring := true, false;
      primary.Close();
      assert backup.Valid() && backup.View() == old(backup.View()) && backup.Repr == old(backup.Repr);
      backup.Close();
      assert primary.Valid() && primary.View() == Shut(old(primary.View()));
    }
  }
}
