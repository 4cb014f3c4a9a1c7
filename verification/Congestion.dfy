/** The congestion controller that lengthens and shortens the delta timer. */
module Congestion {
  import opened Common

  const LOSS_THRESHOLD_LOW: real := 0.01
  const LOSS_THRESHOLD_HIGH: real := 0.05
  const RTT_MULTIPLIER_HIGH: real := 1.5
  const INCREASE_FACTOR: real := 0.95
  const DECREASE_FACTOR: real := 1.5

  datatype Config = Config(enabled: bool, min: real, max: real, nominal: real, targetRtt: real, interval: real,
                           maxAdjustment: real, alpha: real)

  /** `None` until the first sample of its kind. */
  datatype State = State(timer: real, lastAdjustment: real, rtt: Option<real>, loss: Option<real>, manual: bool)

  function Start(initial: real, now: real): State {
    State(initial, now, None, None, false)
  }

  // --------------------------------------------------------------- the averages

  function Average(current: Option<real>): real {
    if current.Some? then current.value else 0.0
  }

  function Blend(alpha: real, sample: real, current: real): real {
    alpha * sample + (1.0 - alpha) * current
  }

  /** `sample` is `None` when it is missing or not finite. */
  function Smoothed(alpha: real, current: Option<real>, sample: Option<real>): Option<real> {
    if sample == None || sample.value < 0.0 then current
    else if current == None then sample
    else Some(Blend(alpha, sample.value, current.value))
  }

  // ------------------------------------------------------------- one adjustment

  function Abs(x: real): real {
    if x < 0.0 then -x else x
  }

  /** `Math.round`. */
  function Round(x: real): int {
    (x + 0.5).Floor
  }

  function Clamp(lo: real, hi: real, x: real): real {
    var y := if x > hi then hi else x;
    if y < lo then lo else y
  }

  function Nominal(c: Config): real {
    Clamp(c.min, c.max, c.nominal)
  }

  predicate Severe(c: Config, rtt: real, loss: real) {
    loss > LOSS_THRESHOLD_HIGH || rtt > c.targetRtt * RTT_MULTIPLIER_HIGH
  }

  predicate VeryHealthy(c: Config, rtt: real, loss: real) {
    loss < LOSS_THRESHOLD_LOW && rtt > 0.0 && rtt < c.targetRtt * 0.8
  }

  function Wanted(c: Config, was: real, severe: bool, healthy: bool): real {
    var n := Nominal(c);
    if severe then was * DECREASE_FACTOR
    else if n == c.min && healthy then was * INCREASE_FACTOR
    else if healthy then
      if was > n then was * INCREASE_FACTOR else if was < n then was * 1.05 else was
    else
      if was > n then was * 0.98 else if was < n then was * 1.02 else was
  }

  function Capped(was: real, wanted: real, maxAdjustment: real): real {
    var most := was * maxAdjustment;
    if Abs(wanted - was) <= most then wanted
    else if wanted > was then was + most
    else if wanted < was then was - most
    else was
  }

  function Adjusted(c: Config, was: real, severe: bool, healthy: bool): real {
    Round(Clamp(c.min, c.max, Capped(was, Wanted(c, was, severe, healthy), c.maxAdjustment))) as real
  }

  // ------------------------------------------------------------------- the steps

  datatype Event =
    | Metrics(rtt: Option<real>, loss: Option<real>)
    | Adjust(now: real)
    | SetManual(timer: real)
    | EnableAuto(now: real)

  predicate Due(c: Config, s: State, now: real) {
    && c.enabled && !s.manual
    && (s.rtt.Some? || s.loss.Some?)
    && now - s.lastAdjustment >= c.interval
  }

  predicate SevereNow(c: Config, s: State) {
    Severe(c, Average(s.rtt), Average(s.loss))
  }

  predicate HealthyNow(c: Config, s: State) {
    VeryHealthy(c, Average(s.rtt), Average(s.loss))
  }

  function Step(c: Config, s: State, e: Event): State {
    match e
    case Metrics(rtt, loss) => s.(rtt := Smoothed(c.alpha, s.rtt, rtt), loss := Smoothed(c.alpha, s.loss, loss))
    case Adjust(now) =>
      if Due(c, s, now) then
        s.(timer := Adjusted(c, s.timer, SevereNow(c, s), HealthyNow(c, s)), lastAdjustment := now)
      else s
    case SetManual(timer) => s.(manual := true, timer := timer)
    case EnableAuto(now) => s.(manual := false, lastAdjustment := now)
  }

  function Run(c: Config, s: State, es: seq<Event>): State
    decreases |es|
  {
    if es == [] then s else Run(c, Step(c, s, es[0]), es[1..])
  }

  predicate Fires(c: Config, s: State, e: Event) {
    e.Adjust? && Due(c, s, e.now)
  }

  /** How many adjustments a run makes. */
  function Adjustments(c: Config, s: State, es: seq<Event>): nat
    decreases |es|
  {
    if es == [] then 0 else (if Fires(c, s, es[0]) then 1 else 0) + Adjustments(c, Step(c, s, es[0]), es[1..])
  }
}
