/** What each sample and each adjustment does to the averages and the timer, in numbers. */
module CongestionEffects {
  import opened Common
  import opened Congestion
  import opened CongestionTheorems

  // ------------------------------------------------------------------- the averages

  /** A missing or negative sample changes nothing, the first one sets the average, any other moves it by `alpha` of the way. */
  predicate Averaged(alpha: real, was: Option<real>, sample: Option<real>, now: Option<real>) {
    if sample == None || sample.value < 0.0 then now == was
    else if was == None then now == sample
    else now.Some? && now.value - was.value == alpha * (sample.value - was.value)
  }

  lemma SmoothedAverages(alpha: real, was: Option<real>, sample: Option<real>)
    ensures Averaged(alpha, was, sample, Smoothed(alpha, was, sample))
  {
    if sample.Some? && was.Some? && 0.0 <= sample.value {
      BlendIsPart(alpha, sample.value, was.value);
    }
  }

  /** A sample touches the two averages and nothing else. */
  lemma SamplesAverage(c: Config, s: State, rtt: Option<real>, loss: Option<real>)
    ensures var t := Step(c, s, Metrics(rtt, loss));
            && Averaged(c.alpha, s.rtt, rtt, t.rtt) && Averaged(c.alpha, s.loss, loss, t.loss)
            && t.timer == s.timer && t.lastAdjustment == s.lastAdjustment && t.manual == s.manual
  {
    SmoothedAverages(c.alpha, s.rtt, rtt);
    SmoothedAverages(c.alpha, s.loss, loss);
    hide Smoothed;
  }

  function Power(x: real, n: nat): real {
    if n == 0 then 1.0 else x * Power(x, n - 1)
  }

  /** A run of `n` equal samples. */
  function Constant(rtt: real, n: nat): seq<Event> {
    seq(n, _ => Metrics(Some(rtt), None))
  }

  lemma Shrink(alpha: real, was: real, sample: real, now: real, p: real)
    requires now - was == alpha * (sample - was)
    ensures p * (now - sample) == ((1.0 - alpha) * p) * (was - sample)
  {
    var gap, keep := was - sample, 1.0 - alpha;
    assert alpha * (sample - was) == -(alpha * gap);
    assert now - sample == keep * gap;
    assert p * (keep * gap) == (p * keep) * gap == (keep * p) * gap;
  }

  /** Equal samples close the gap to the average geometrically. */
  lemma {:induction false} ConstantSamples(c: Config, s: State, rtt: real, n: nat)
    requires s.rtt.Some? && 0.0 <= rtt
    ensures var t := Run(c, s, Constant(rtt, n));
            t.rtt.Some? && t.rtt.value - rtt == Power(1.0 - c.alpha, n) * (s.rtt.value - rtt)
    decreases n
  {
    hide Smoothed;
    if n > 0 {
      var s1 := Step(c, s, Constant(rtt, n)[0]);
      assert Constant(rtt, n)[1..] == Constant(rtt, n - 1);
      SamplesAverage(c, s, Some(rtt), None);
      ConstantSamples(c, s1, rtt, n - 1);
      Shrink(c.alpha, s.rtt.value, rtt, s1.rtt.value, Power(1.0 - c.alpha, n - 1));
    }
  }

  // ---------------------------------------------------------------------- adjusting

  function Value(average: Option<real>): real {
    if average.Some? then average.value else 0.0
  }

  predicate Congested(c: Config, s: State) {
    Value(s.loss) > 0.05 || Value(s.rtt) > 1.5 * c.targetRtt
  }

  predicate Healthy(c: Config, s: State) {
    Value(s.loss) < 0.01 && 0.0 < Value(s.rtt) < 0.8 * c.targetRtt
  }

  /** The nominal timer within the bounds; the minimum wins when they are crossed. */
  function Within(lo: real, hi: real, x: real): real {
    if hi < lo then lo else if x > hi then hi else if x < lo then lo else x
  }

  /** How an adjustment wants to stretch the timer. */
  function Factor(c: Config, s: State): real {
    var nominal := Within(c.min, c.max, c.nominal);
    if Congested(c, s) then 1.5
    else if Healthy(c, s) then (if s.timer > nominal || nominal == c.min then 0.95 else if s.timer < nominal then 1.05 else 1.0)
    else if s.timer > nominal then 0.98 else if s.timer < nominal then 1.02 else 1.0
  }

  /** No further from `was` than `most`. */
  function Towards(was: real, wanted: real, most: real): real {
    if wanted > was + most then was + most else if wanted < was - most then was - most else wanted
  }

  /** An adjustment is made exactly when adjusting is on, there is a sample, and the interval has passed. */
  predicate MayAdjust(c: Config, s: State, now: real) {
    c.enabled && !s.manual && !(s.rtt == None && s.loss == None) && now >= s.lastAdjustment + c.interval
  }

  lemma WantedIsStretched(c: Config, s: State)
    ensures Wanted(c, s.timer, SevereNow(c, s), HealthyNow(c, s)) == s.timer * Factor(c, s)
  {
  }

  lemma CappedIsTowards(was: real, wanted: real, cap: real, stretched: real, most: real)
    requires 0.0 <= was * cap && wanted == stretched && most == was * cap
    ensures Capped(was, wanted, cap) == Towards(was, stretched, most)
  {
  }

  /**
   * When it is due, the timer becomes the whole number nearest to what the conditions call for, changed by no more than
   * the cap and kept in the bounds, and the time is noted; when it is not, nothing changes.
   */
  lemma AdjustsExactly(c: Config, s: State, now: real)
    requires 0.0 <= s.timer && 0.0 <= c.maxAdjustment
    ensures var t := Step(c, s, Adjust(now));
            if !MayAdjust(c, s, now) then t == s
            else
              var aim := Within(c.min, c.max, Towards(s.timer, s.timer * Factor(c, s), s.timer * c.maxAdjustment));
              && t == s.(timer := t.timer, lastAdjustment := now)
              && t.timer == t.timer.Floor as real && t.timer - 0.5 <= aim < t.timer + 0.5
  {
    hide Wanted, Capped, Clamp, Round, Factor, Towards, Within, SevereNow, HealthyNow;
    AdjustedIsNear(c, s);
  }

  lemma ClampIsWithin(lo: real, hi: real, x: real)
    ensures Clamp(lo, hi, x) == Within(lo, hi, x)
  {
  }

  lemma RoundIsNear(x: real)
    ensures var t := Round(x) as real; t == t.Floor as real && t - 0.5 <= x < t + 0.5
  {
  }

  lemma NotNegative(x: real, y: real)
    requires 0.0 <= x && 0.0 <= y
    ensures 0.0 <= x * y
  {
  }

  lemma AdjustedIsNear(c: Config, s: State)
    requires 0.0 <= s.timer && 0.0 <= c.maxAdjustment
    ensures var t := Adjusted(c, s.timer, SevereNow(c, s), HealthyNow(c, s));
            var aim := Within(c.min, c.max, Towards(s.timer, s.timer * Factor(c, s), s.timer * c.maxAdjustment));
            t == t.Floor as real && t - 0.5 <= aim < t + 0.5
  {
    hide Wanted, Capped, Clamp, Round, Factor, Towards, Within, SevereNow, HealthyNow;
    var wanted := Wanted(c, s.timer, SevereNow(c, s), HealthyNow(c, s));
    var capped := Capped(s.timer, wanted, c.maxAdjustment);
    WantedIsStretched(c, s);
    NotNegative(s.timer, c.maxAdjustment);
    CappedIsTowards(s.timer, wanted, c.maxAdjustment, s.timer * Factor(c, s), s.timer * c.maxAdjustment);
    ClampIsWithin(c.min, c.max, capped);
    RoundIsNear(Clamp(c.min, c.max, capped));
  }
}
