/** The congestion controller as an object whose fields are updated step by step. */
module CongestionService {
  import opened Common
  import opened Congestion
  import opened CongestionTheorems

  class CongestionControl {
    const config: Config
    var currentDeltaTimer: real
    var lastAdjustment: real
    var avgRTT: real
    var avgLoss: real
    var hasRTTSample: bool
    var hasLossSample: bool
    var manualMode: bool
    /** The timer comes from an adjustment, not from the configuration or an override. */
    ghost var adjusted: bool

    ghost function View(): State
      reads this
    {
      State(currentDeltaTimer, lastAdjustment, if hasRTTSample then Some(avgRTT) else None,
            if hasLossSample then Some(avgLoss) else None, manualMode)
    }

    ghost predicate Valid()
      reads this
    {
      && (!hasRTTSample ==> avgRTT == 0.0) && (!hasLossSample ==> avgLoss == 0.0)
      && (adjusted && WholeBounds(config) ==> InRange(config, currentDeltaTimer) && Whole(currentDeltaTimer))
    }

    constructor (config: Config, initial: real, now: real)
      ensures Valid() && View() == Start(initial, now) && this.config == config
    {
      this.config := config;
      currentDeltaTimer, lastAdjustment := initial, now;
      avgRTT, avgLoss, hasRTTSample, hasLossSample, manualMode := 0.0, 0.0, false, false, false;
      adjusted := false;
    }

    method UpdateMetrics(rtt: Option<real>, packetLoss: Option<real>)
      requires Valid()
      modifies this
      ensures Valid() && View() == Step(config, old(View()), Metrics(rtt, packetLoss)) && adjusted == old(adjusted)
    {
      hide Blend;
      if rtt.Some? && rtt.value >= 0.0 {
        avgRTT := if !hasRTTSample then rtt.value else Blend(config.alpha, rtt.value, avgRTT);
        hasRTTSample := true;
      }
      if packetLoss.Some? && packetLoss.value >= 0.0 {
        avgLoss := if !hasLossSample then packetLoss.value
                   else Blend(config.alpha, packetLoss.value, avgLoss);
        hasLossSample := true;
      }
    }

    method ShouldAdjust(now: real) returns (due: bool)
      ensures due == Due(config, View(), now)
    {
      if !config.enabled || manualMode {
        return false;
      }
      if !hasRTTSample && !hasLossSample {
        return false;
      }
      return now - lastAdjustment >= config.interval;
    }

    /** What the next adjustment does, in terms of the bounds and the band. */
    lemma AdjustmentKeeps(s: State)
      ensures var t := Adjusted(config, s.timer, SevereNow(config, s), HealthyNow(config, s));
              && (WholeBounds(config) ==> InRange(config, t) && Whole(t))
              && ((Sound(config) && !SevereNow(config, s) && InRange(config, s.timer) && Whole(s.timer) && InBand(config, s.timer))
                    ==> InBand(config, t))
    {
      if WholeBounds(config) {
        EndsInRange(config, s.timer, SevereNow(config, s), HealthyNow(config, s));
        if Sound(config) && !SevereNow(config, s) && InRange(config, s.timer) && Whole(s.timer) {
          StepTowardsNominal(config, s.timer, HealthyNow(config, s));
        }
      }
    }

    method ChooseTimer(severe: bool, healthy: bool) returns (newTimer: real)
      ensures newTimer == Wanted(config, currentDeltaTimer, severe, healthy)
    {
      hide Clamp;
      var oldTimer, nominal := currentDeltaTimer, Clamp(config.min, config.max, config.nominal);
      newTimer := oldTimer;
      if severe {
        newTimer := oldTimer * DECREASE_FACTOR;
      } else if healthy {
        if oldTimer > nominal {
          newTimer := oldTimer * INCREASE_FACTOR;
        } else if oldTimer < nominal {
          newTimer := oldTimer * 1.05;
        }
      } else {
        if oldTimer > nominal {
          newTimer := oldTimer * 0.98;
        } else if oldTimer < nominal {
          newTimer := oldTimer * 1.02;
        }
      }
      if nominal == config.min && healthy && !severe {
        newTimer := oldTimer * INCREASE_FACTOR;
      }
    }

    method LimitChange(wanted: real) returns (newTimer: real)
      ensures newTimer == Capped(currentDeltaTimer, wanted, config.maxAdjustment)
    {
      newTimer := wanted;
      var maxChange := currentDeltaTimer * config.maxAdjustment;
      var change := newTimer - currentDeltaTimer;
      if Abs(change) > maxChange {
        var sign := if change > 0.0 then 1.0 else if change < 0.0 then -1.0 else 0.0;
        newTimer := currentDeltaTimer + sign * maxChange;
      }
    }

    method AdjustTimer(now: real) returns (timer: real)
      requires Valid()
      modifies this
      ensures Valid() && View() == Step(config, old(View()), Adjust(now)) && timer == currentDeltaTimer
      ensures adjusted <==> old(adjusted) || Due(config, old(View()), now)
      ensures adjusted && WholeBounds(config) ==> InRange(config, timer) && Whole(timer)
      ensures (old(adjusted) && Sound(config) && !SevereNow(config, old(View())) && InBand(config, old(currentDeltaTimer)))
                ==> InBand(config, timer)
    {
      AdjustmentKeeps(View());
      hide Wanted, Capped, Clamp, Round, InBand, Whole, WholeBounds, InRange, Nominal;
      var due := ShouldAdjust(now);
      if !due {
        return currentDeltaTimer;
      }
      var severe := avgLoss > LOSS_THRESHOLD_HIGH || avgRTT > config.targetRtt * RTT_MULTIPLIER_HIGH;
      var healthy := avgLoss < LOSS_THRESHOLD_LOW && avgRTT > 0.0 && avgRTT < config.targetRtt * 0.8;
      var newTimer := ChooseTimer(severe, healthy);
      newTimer := LimitChange(newTimer);
      newTimer := Clamp(config.min, config.max, newTimer);
      currentDeltaTimer := Round(newTimer) as real;
      lastAdjustment := now;
      adjusted := true;
      assert currentDeltaTimer == Adjusted(config, old(currentDeltaTimer), severe, healthy);
      return currentDeltaTimer;
    }

    method SetManualDeltaTimer(value: real)
      requires Valid()
      modifies this
      ensures Valid() && View() == Step(config, old(View()), SetManual(value))
    {
      manualMode := true;
      currentDeltaTimer := value;
      adjusted := false;
    }

    method EnableAutoMode(now: real)
      requires Valid()
      modifies this
      ensures Valid() && View() == Step(config, old(View()), EnableAuto(now)) && adjusted == old(adjusted)
    {
      manualMode := false;
      lastAdjustment := now;
    }
  }
}
