/** Bounds, step size and convergence of the congestion controller. */
module CongestionTheorems {
  import opened Common
  import opened Congestion

  predicate InRange(c: Config, t: real) {
    c.min <= t <= c.max
  }

  predicate Whole(t: real) {
    t == t.Floor as real
  }

  // ------------------------------------------------------------------- bounds

  lemma RoundAtLeast(x: real, k: int)
    requires k as real - 0.5 <= x
    ensures k <= Round(x)
  {
    var f := (x + 0.5).Floor;
    assert x + 0.5 < (f + 1) as real;
  }

  lemma RoundAtMost(x: real, k: int)
    requires x < k as real + 0.5
    ensures Round(x) <= k
  {
    var f := (x + 0.5).Floor;
    assert f as real <= x + 0.5;
  }

  lemma RoundMonotone(x: real, y: real)
    requires x <= y
    ensures Round(x) <= Round(y)
  {
    RoundAtLeast(y, Round(x));
  }

  lemma RoundWhole(t: real)
    requires Whole(t)
    ensures Round(t) as real == t
  {
    hide Round;
    RoundAtLeast(t, t.Floor);
    RoundAtMost(t, t.Floor);
  }

  /** Rounding keeps a clamped timer inside the bounds exactly if it does not push a bound itself outward. */
  lemma BoundsKept(min: real, max: real)
    requires min <= max
    ensures (forall x: real :: min <= Round(Clamp(min, max, x)) as real <= max)
       <==> (min <= Round(min) as real && Round(max) as real <= max)
  {
    if min <= Round(min) as real && Round(max) as real <= max {
      forall x: real
        ensures min <= Round(Clamp(min, max, x)) as real <= max
      {
        RoundMonotone(min, Clamp(min, max, x));
        RoundMonotone(Clamp(min, max, x), max);
      }
    } else {
      assert Clamp(min, max, min) == min && Clamp(min, max, max) == max;
    }
  }

  predicate WholeBounds(c: Config) {
    c.min <= c.max && Whole(c.min) && Whole(c.max)
  }

  /** With whole bounds every adjustment ends in them, from wherever it starts, on a whole number. */
  lemma EndsInRange(c: Config, was: real, severe: bool, healthy: bool)
    requires WholeBounds(c)
    ensures InRange(c, Adjusted(c, was, severe, healthy)) && Whole(Adjusted(c, was, severe, healthy))
  {
    RoundWhole(c.min);
    RoundWhole(c.max);
    BoundsKept(c.min, c.max);
  }

  // ---------------------------------------------------------------- step size

  lemma CappedMoves(was: real, wanted: real, maxAdjustment: real)
    requires 0.0 <= was && 0.0 <= maxAdjustment
    ensures Abs(Capped(was, wanted, maxAdjustment) - was) <= was * maxAdjustment
  {
    assert 0.0 <= was * maxAdjustment;
  }

  lemma ClampTowards(lo: real, hi: real, was: real, x: real)
    requires lo <= was <= hi
    ensures Abs(Clamp(lo, hi, x) - was) <= Abs(x - was)
  {
  }

  /** From inside the bounds an adjustment moves the timer by at most the cap, plus rounding. */
  lemma MovesWithinCap(c: Config, was: real, severe: bool, healthy: bool)
    requires InRange(c, was) && 0.0 <= was && 0.0 <= c.maxAdjustment
    ensures Abs(Adjusted(c, was, severe, healthy) - was) <= was * c.maxAdjustment + 0.5
  {
    var wanted := Wanted(c, was, severe, healthy);
    hide Wanted;
    var capped := Capped(was, wanted, c.maxAdjustment);
    CappedMoves(was, wanted, c.maxAdjustment);
    hide Capped;
    ClampTowards(c.min, c.max, was, capped);
  }

  // -------------------------------------------------------------- convergence

  /** Within 5 per cent of the nominal timer, give or take rounding. */
  predicate InBand(c: Config, t: real) {
    Abs(t - Nominal(c)) <= 0.05 * Nominal(c) + 0.5
  }

  /** Whole bounds, none negative, and a cap that leaves the 5 per cent steps alone. */
  predicate Sound(c: Config) {
    WholeBounds(c) && 0.0 <= c.min && 0.05 <= c.maxAdjustment
  }

  /** From the minimum, 2 per cent up round to nothing, short of the band. */
  predicate StuckBelow(c: Config) {
    c.min < 25.0 && c.min < 0.95 * Nominal(c) - 0.5
  }

  /** From some timer up to 25, 2 per cent down round to nothing, above the band. */
  predicate StuckAbove(c: Config) {
    1.05 * Nominal(c) + 0.5 < 25.0 && 1.05 * Nominal(c) + 0.5 < c.max
  }

  predicate Tame(c: Config) {
    Sound(c) && !StuckBelow(c) && !StuckAbove(c)
  }

  lemma CapIsIdle(was: real, wanted: real, maxAdjustment: real)
    requires 0.0 <= was && 0.05 <= maxAdjustment && Abs(wanted - was) <= 0.05 * was
    ensures Capped(was, wanted, maxAdjustment) == wanted
  {
    assert was * maxAdjustment == was * 0.05 + was * (maxAdjustment - 0.05);
    assert 0.0 <= was * (maxAdjustment - 0.05);
  }

  /** The value before rounding, away from severe congestion. */
  function Aimed(c: Config, was: real, healthy: bool): real {
    Clamp(c.min, c.max, Wanted(c, was, false, healthy))
  }

  lemma AdjustedIsAimed(c: Config, was: real, healthy: bool)
    requires Sound(c) && 0.0 <= was
    ensures Adjusted(c, was, false, healthy) == Round(Aimed(c, was, healthy)) as real
  {
    CapIsIdle(was, Wanted(c, was, false, healthy), c.maxAdjustment);
  }

  /** Timers that 2 per cent move: from 25 up, from 26 down. */
  predicate Moves(c: Config, t: real) {
    (t < Nominal(c) ==> 25.0 <= t) && (t > Nominal(c) ==> 26.0 <= t)
  }

  lemma OutsideMoves(c: Config, t: real)
    requires Tame(c) && InRange(c, t) && Whole(t) && !InBand(c, t)
    ensures Moves(c, t)
  {
    if t > Nominal(c) {
      assert t > 25.0;
      WholeGap(25.0, t);
    }
  }

  /** One step from a whole timer in range: it stays in the band, and outside comes closer by one if 2 per cent move it. */
  lemma StepTowardsNominal(c: Config, was: real, healthy: bool)
    requires Sound(c) && InRange(c, was) && Whole(was)
    ensures var t := Adjusted(c, was, false, healthy);
            var n := Nominal(c);
            && (InBand(c, was) ==> InBand(c, t))
            && (!InBand(c, was) && Moves(c, was) && !InBand(c, t) ==> Abs(t - n) <= Abs(was - n) - 1.0)
  {
    AdjustedIsAimed(c, was, healthy);
    hide Round, Aimed, Nominal, Adjusted;
    if was > Nominal(c) {
      FromAbove(c, was, healthy);
    } else if was < Nominal(c) {
      FromBelow(c, was, healthy);
    } else {
      AtNominal(c, was, healthy);
    }
  }

  lemma AimedFromAbove(c: Config, was: real, healthy: bool)
    requires InRange(c, was) && 0.0 <= c.min && was > Nominal(c) && c.min <= was - 1.0
    ensures 0.95 * Nominal(c) <= Aimed(c, was, healthy) <= was
    ensures 26.0 <= was ==> Aimed(c, was, healthy) <= was - 0.52
  {
  }

  lemma WholeGap(a: real, b: real)
    requires Whole(a) && Whole(b) && a < b
    ensures a <= b - 1.0
  {
    var m, n := a.Floor, b.Floor;
    assert m < n;
    assert m as real <= (n - 1) as real;
  }

  lemma FromAbove(c: Config, was: real, healthy: bool)
    requires Sound(c) && InRange(c, was) && Whole(was) && was > Nominal(c)
    ensures var t := Round(Aimed(c, was, healthy)) as real;
            && 0.95 * Nominal(c) - 0.5 <= t <= was
            && (26.0 <= was ==> t <= was - 1.0)
  {
    NominalInRange(c);
    WholeGap(c.min, was);
    AimedFromAbove(c, was, healthy);
    hide Round, Aimed, Nominal;
    RoundAtMost(Aimed(c, was, healthy), was.Floor);
    if 26.0 <= was {
      RoundAtMost(Aimed(c, was, healthy), was.Floor - 1);
    }
    RoundNear(Aimed(c, was, healthy));
  }

  lemma AimedFromBelow(c: Config, was: real, healthy: bool)
    requires InRange(c, was) && 0.0 <= c.min && was < Nominal(c) && was <= c.max - 1.0
    ensures was <= Aimed(c, was, healthy) <= 1.05 * Nominal(c)
    ensures 25.0 <= was ==> was + 0.5 <= Aimed(c, was, healthy)
  {
  }

  lemma FromBelow(c: Config, was: real, healthy: bool)
    requires Sound(c) && InRange(c, was) && Whole(was) && was < Nominal(c)
    ensures var t := Round(Aimed(c, was, healthy)) as real;
            && was <= t <= 1.05 * Nominal(c) + 0.5
            && (25.0 <= was ==> was + 1.0 <= t)
  {
    NominalInRange(c);
    WholeGap(was, c.max);
    AimedFromBelow(c, was, healthy);
    hide Round, Aimed, Nominal;
    RoundAtLeast(Aimed(c, was, healthy), was.Floor);
    if 25.0 <= was {
      RoundAtLeast(Aimed(c, was, healthy), was.Floor + 1);
    }
    RoundNear(Aimed(c, was, healthy));
  }

  lemma AtNominal(c: Config, was: real, healthy: bool)
    requires Sound(c) && InRange(c, was) && Whole(was) && was == Nominal(c)
    ensures Round(Aimed(c, was, healthy)) as real == was
  {
    RoundWhole(was);
  }

  lemma RoundNear(x: real)
    ensures x - 0.5 <= Round(x) as real <= x + 0.5
  {
  }

  // ---------------------------------------------------------------- every run

  /** No sample that a run takes in is severe, and nobody overrides the timer. */
  predicate Gentle(c: Config, e: Event) {
    match e
    case Metrics(rtt, loss) =>
      && (rtt.Some? ==> rtt.value <= c.targetRtt * RTT_MULTIPLIER_HIGH)
      && (loss.Some? ==> loss.value <= LOSS_THRESHOLD_HIGH)
    case SetManual(_) => false
    case _ => true
  }

  function Times(a: real, d: real): real {
    a * d
  }

  lemma Between(alpha: real, x: real, y: real, lo: real, hi: real)
    requires 0.0 <= alpha <= 1.0 && lo <= x <= hi && lo <= y <= hi
    ensures lo <= Blend(alpha, x, y) <= hi
  {
    hide Blend, Times;
    BlendIsPart(alpha, x, y);
    Part(alpha, x - y);
  }

  lemma BlendIsPart(alpha: real, x: real, y: real)
    ensures Blend(alpha, x, y) == y + Times(alpha, x - y)
  {
    assert alpha * (x - y) == alpha * x - alpha * y;
    assert (1.0 - alpha) * y == y - alpha * y;
  }

  lemma Part(a: real, d: real)
    requires 0.0 <= a <= 1.0
    ensures if 0.0 <= d then 0.0 <= Times(a, d) <= d else d <= Times(a, d) <= 0.0
  {
    assert d == a * d + (1.0 - a) * d;
  }

  /** An average never leaves the range of what it averages. */
  lemma AverageStaysBetween(alpha: real, current: Option<real>, sample: Option<real>, lo: real, hi: real)
    requires 0.0 <= alpha <= 1.0
    requires current.Some? ==> lo <= current.value <= hi
    requires sample.Some? && 0.0 <= sample.value ==> lo <= sample.value <= hi
    ensures var next := Smoothed(alpha, current, sample);
            next.Some? ==> lo <= next.value <= hi
  {
    if current.Some? && sample.Some? && 0.0 <= sample.value {
      Between(alpha, sample.value, current.value, lo, hi);
    }
  }

  predicate Averaging(c: Config) {
    0.0 <= c.alpha <= 1.0 && 0.0 <= c.targetRtt
  }

  /** Both averages are taken over samples that are not severe. */
  predicate Calm(c: Config, s: State) {
    && (s.rtt.Some? ==> 0.0 <= s.rtt.value <= c.targetRtt * RTT_MULTIPLIER_HIGH)
    && (s.loss.Some? ==> 0.0 <= s.loss.value <= LOSS_THRESHOLD_HIGH)
  }

  lemma StepStaysCalm(c: Config, s: State, e: Event)
    requires Averaging(c) && Calm(c, s) && Gentle(c, e)
    ensures Calm(c, Step(c, s, e)) && !SevereNow(c, s)
  {
    if e.Metrics? {
      AverageStaysBetween(c.alpha, s.rtt, e.rtt, 0.0, c.targetRtt * RTT_MULTIPLIER_HIGH);
      AverageStaysBetween(c.alpha, s.loss, e.loss, 0.0, LOSS_THRESHOLD_HIGH);
    }
  }

  lemma {:induction false} GentleRunApproaches(c: Config, s: State, es: seq<Event>)
    requires Tame(c) && Averaging(c) && Calm(c, s) && forall e | e in es :: Gentle(c, e)
    requires InRange(c, s.timer) && Whole(s.timer)
    ensures InBand(c, Run(c, s, es).timer) || Adjustments(c, s, es) as real <= Abs(s.timer - Nominal(c))
    ensures InBand(c, s.timer) ==> InBand(c, Run(c, s, es).timer)
    decreases |es|
  {
    hide Adjusted, InBand, Calm, Gentle, SevereNow, HealthyNow, Tame, Sound, Moves, Averaging, Smoothed, WholeBounds;
    if es != [] {
      var s1 := Step(c, s, es[0]);
      StepStaysCalm(c, s, es[0]);
      if Fires(c, s, es[0]) {
        TameBounds(c);
        StepTowardsNominal(c, s.timer, HealthyNow(c, s));
        if !InBand(c, s.timer) {
          OutsideMoves(c, s.timer);
        }
        EndsInRange(c, s.timer, false, HealthyNow(c, s));
      } else {
        GentleKeepsTimer(c, s, es[0]);
      }
      GentleRunApproaches(c, s1, es[1..]);
    }
  }

  lemma TameBounds(c: Config)
    requires Tame(c)
    ensures Sound(c) && WholeBounds(c)
  {
  }

  lemma GentleKeepsTimer(c: Config, s: State, e: Event)
    requires Gentle(c, e) && !Fires(c, s, e)
    ensures Step(c, s, e).timer == s.timer
  {
  }

  lemma NominalInRange(c: Config)
    requires c.min <= c.max
    ensures InRange(c, Nominal(c))
  {
  }

  /**
   * From any start and through any run of samples that are not severe, max - min + 2 adjustments bring the
   * timer into the band around the nominal one.
   */
  lemma {:induction false} GentleRunConverges(c: Config, s: State, es: seq<Event>)
    requires Tame(c) && Averaging(c) && Calm(c, s) && forall e | e in es :: Gentle(c, e)
    requires Adjustments(c, s, es) as real >= c.max - c.min + 2.0
    ensures InBand(c, Run(c, s, es).timer)
    decreases |es|
  {
    hide Adjusted, InBand, Calm, Gentle, SevereNow, HealthyNow, Averaging, Smoothed, Nominal;
    NominalInRange(c);
    if es != [] {
      var s1 := Step(c, s, es[0]);
      StepStaysCalm(c, s, es[0]);
      if Fires(c, s, es[0]) {
        EndsInRange(c, s.timer, false, HealthyNow(c, s));
        GentleRunApproaches(c, s1, es[1..]);
      } else {
        GentleRunConverges(c, s1, es[1..]);
      }
    }
  }

  /** Once in the band, a run of samples that are not severe never leaves it. */
  lemma GentleRunStays(c: Config, s: State, es: seq<Event>)
    requires Tame(c) && Averaging(c) && Calm(c, s) && forall e | e in es :: Gentle(c, e)
    requires InRange(c, s.timer) && Whole(s.timer) && InBand(c, s.timer)
    ensures InBand(c, Run(c, s, es).timer)
  {
    GentleRunApproaches(c, s, es);
  }

  // ----------------------------------------------------------- where it gets stuck

  /** Out of the band, and 2 per cent either way round to nothing. */
  predicate Stuck(c: Config, t: real) {
    InRange(c, t) && Whole(t) && !InBand(c, t) && (if t < Nominal(c) then t < 25.0 else t <= 25.0)
  }

  lemma StuckStep(c: Config, t: real)
    requires Sound(c) && Stuck(c, t)
    ensures Adjusted(c, t, false, false) == t
  {
    AdjustedIsAimed(c, t, false);
    if t < Nominal(c) {
      WholeGap(t, 25.0);
    }
    AimedNear(c, t);
    hide Round, Aimed, Nominal, Adjusted;
    RoundAtLeast(Aimed(c, t, false), t.Floor);
    RoundAtMost(Aimed(c, t, false), t.Floor);
  }

  lemma AimedNear(c: Config, t: real)
    requires c.min <= c.max && InRange(c, t) && 0.0 <= t
    requires if t < Nominal(c) then t <= 24.0 else t <= 25.0
    ensures t - 0.5 <= Aimed(c, t, false) < t + 0.5
  {
  }

  /** Where an unmoved timer sits, for a configuration that has one. */
  function StuckTimer(c: Config): real {
    if StuckBelow(c) then c.min else if c.max < 25.0 then c.max else 25.0
  }

  lemma StuckTimerIsStuck(c: Config)
    requires Sound(c) && (StuckBelow(c) || StuckAbove(c))
    ensures Stuck(c, StuckTimer(c))
  {
    NominalInRange(c);
  }

  /** A moderate loss sample, then `n` adjustments, each one interval or more after the one before. */
  function Waiting(c: Config, from: real, n: nat): seq<Event>
    decreases n
  {
    if n == 0 then [] else [Adjust(Later(c, from))] + Waiting(c, Later(c, from), n - 1)
  }

  function Later(c: Config, from: real): real {
    if c.interval < 0.0 then from else from + c.interval
  }

  function StuckRun(c: Config, n: nat): seq<Event> {
    [Metrics(None, Some(0.03))] + Waiting(c, 0.0, n)
  }

  lemma {:induction false} WaitingChangesNothing(c: Config, s: State, n: nat)
    requires Sound(c) && c.enabled && 0.0 <= c.targetRtt && Stuck(c, s.timer)
    requires !s.manual && s.rtt == None && s.loss == Some(0.03)
    ensures var es := Waiting(c, s.lastAdjustment, n);
            && Run(c, s, es).timer == s.timer && Adjustments(c, s, es) == n
            && forall e | e in es :: Gentle(c, e)
    decreases n
  {
    hide Adjusted, Sound, Stuck;
    if n > 0 {
      var now := Later(c, s.lastAdjustment);
      StuckStep(c, s.timer);
      var s1 := Step(c, s, Adjust(now));
      assert Fires(c, s, Adjust(now));
      assert s1 == s.(lastAdjustment := now);
      WaitingChangesNothing(c, s1, n - 1);
      assert Waiting(c, s.lastAdjustment, n)[1..] == Waiting(c, now, n - 1);
    }
  }

  /** However many adjustments a configuration of the failing kind makes in this run, it never leaves its first timer. */
  lemma StuckRunNeverArrives(c: Config, n: nat)
    requires Sound(c) && c.enabled && 0.0 <= c.targetRtt && (StuckBelow(c) || StuckAbove(c))
    ensures var s, es := Start(StuckTimer(c), 0.0), StuckRun(c, n);
            && (forall e | e in es :: Gentle(c, e))
            && Adjustments(c, s, es) == n
            && !InBand(c, Run(c, s, es).timer)
  {
    var s, es := Start(StuckTimer(c), 0.0), StuckRun(c, n);
    StuckTimerIsStuck(c);
    var s1 := Step(c, s, es[0]);
    assert s1 == State(s.timer, 0.0, None, Some(0.03), false);
    WaitingChangesNothing(c, s1, n);
    assert es[1..] == Waiting(c, 0.0, n);
    hide Waiting, Stuck, Adjusted, Step;
    assert Run(c, s, es) == Run(c, s1, es[1..]);
    assert Adjustments(c, s, es) == Adjustments(c, s1, es[1..]);
  }

  /** A run from the start in which no sample is severe, nobody overrides the timer and enough adjustments are made. */
  predicate LongGentleRun(c: Config, s: State, es: seq<Event>) {
    && (forall e | e in es :: Gentle(c, e))
    && Adjustments(c, s, es) as real >= c.max - c.min + 2.0
  }

  /**
   * Every long run from every start, through samples that are not severe, ends in the band, exactly if the
   * configuration is not of one of the two failing kinds.
   */
  lemma ConvergesExactly(c: Config)
    requires Sound(c) && Averaging(c) && c.enabled
    ensures (forall t, now, es | LongGentleRun(c, Start(t, now), es) :: InBand(c, Run(c, Start(t, now), es).timer))
       <==> (!StuckBelow(c) && !StuckAbove(c))
  {
    if !StuckBelow(c) && !StuckAbove(c) {
      forall t, now, es | LongGentleRun(c, Start(t, now), es)
        ensures InBand(c, Run(c, Start(t, now), es).timer)
      {
        GentleRunConverges(c, Start(t, now), es);
      }
    } else {
      var n := (c.max - c.min + 3.0).Floor;
      StuckRunNeverArrives(c, n);
      hide StuckBelow, StuckAbove, StuckRun, InBand, StuckTimer, Sound;
      assert LongGentleRun(c, Start(StuckTimer(c), 0.0), StuckRun(c, n));
    }
  }

  /** With a minimum of 25 or more, and so with every minimum that the configuration check lets through, no run gets stuck. */
  lemma From25NothingSticks(c: Config)
    requires WholeBounds(c) && 25.0 <= c.min && 0.05 <= c.maxAdjustment
    ensures Tame(c)
  {
    NominalInRange(c);
  }

  /** With whole bounds every run that adjusts at least once, without an override, ends in them. */
  lemma {:induction false} RunEndsInRange(c: Config, s: State, es: seq<Event>)
    requires WholeBounds(c) && forall e | e in es :: !e.SetManual?
    requires Adjustments(c, s, es) > 0 || (InRange(c, s.timer) && Whole(s.timer))
    ensures InRange(c, Run(c, s, es).timer) && Whole(Run(c, s, es).timer)
    decreases |es|
  {
    hide Adjusted, SevereNow, HealthyNow, Smoothed;
    if es != [] {
      if Fires(c, s, es[0]) {
        EndsInRange(c, s.timer, SevereNow(c, s), HealthyNow(c, s));
      }
      RunEndsInRange(c, Step(c, s, es[0]), es[1..]);
    }
  }

  // ------------------------------------------------------- sustained congestion

  lemma SevereStep(c: Config, was: real, healthy: bool)
    requires WholeBounds(c) && 3.0 <= c.min && 0.2 <= c.maxAdjustment && InRange(c, was) && Whole(was)
    ensures var t := Adjusted(c, was, true, healthy);
            was == t == c.max || was + 1.0 <= t
  {
    SevereCapped(was, c.maxAdjustment);
    var capped := Capped(was, was * DECREASE_FACTOR, c.maxAdjustment);
    hide Capped, Round;
    var aimed := Clamp(c.min, c.max, capped);
    assert Adjusted(c, was, true, healthy) == Round(aimed) as real;
    hide Adjusted;
    if was == c.max {
      RoundWhole(c.max);
    } else {
      WholeGap(was, c.max);
      assert aimed >= was + 0.6;
      RoundAtLeast(aimed, was.Floor + 1);
    }
  }

  lemma SevereCapped(was: real, maxAdjustment: real)
    requires 3.0 <= was && 0.2 <= maxAdjustment
    ensures Capped(was, was * DECREASE_FACTOR, maxAdjustment) >= was + 0.6
  {
    assert was * maxAdjustment == was * 0.2 + was * (maxAdjustment - 0.2);
    assert 0.0 <= was * (maxAdjustment - 0.2);
  }

  /** A sample that reports loss reports severe loss, and nobody overrides the timer. */
  predicate Lossy(e: Event) {
    match e
    case Metrics(_, loss) => loss.Some? ==> loss.value > LOSS_THRESHOLD_HIGH
    case SetManual(_) => false
    case _ => true
  }

  predicate LossIsSevere(s: State) {
    s.loss.Some? && s.loss.value > LOSS_THRESHOLD_HIGH
  }

  lemma LossyStaysSevere(c: Config, s: State, e: Event)
    requires 0.0 <= c.alpha <= 1.0 && LossIsSevere(s) && Lossy(e)
    ensures LossIsSevere(Step(c, s, e)) && SevereNow(c, s)
  {
    if e.Metrics? && e.loss.Some? {
      var lo := if s.loss.value < e.loss.value then s.loss.value else e.loss.value;
      var hi := if s.loss.value < e.loss.value then e.loss.value else s.loss.value;
      AverageStaysBetween(c.alpha, s.loss, e.loss, lo, hi);
    }
  }

  /**
   * Through samples of severe loss every adjustment lengthens the timer by a millisecond at least, up to the
   * maximum, which it reaches and keeps.
   */
  lemma {:induction false} SevereRunReachesMax(c: Config, s: State, es: seq<Event>)
    requires WholeBounds(c) && 3.0 <= c.min && 0.2 <= c.maxAdjustment && 0.0 <= c.alpha <= 1.0
    requires InRange(c, s.timer) && Whole(s.timer) && LossIsSevere(s) && forall e | e in es :: Lossy(e)
    ensures var t := Run(c, s, es).timer;
            t == c.max || (Adjustments(c, s, es) as real <= t - s.timer && t < c.max)
    decreases |es|
  {
    hide Adjusted, HealthyNow, SevereNow, LossIsSevere, Lossy, Smoothed, WholeBounds, Whole;
    if es != [] {
      assert es[0] in es;
      LossyStaysSevere(c, s, es[0]);
      if Fires(c, s, es[0]) {
        SevereStep(c, s.timer, HealthyNow(c, s));
        EndsInRange(c, s.timer, true, HealthyNow(c, s));
      } else {
        LossyKeepsTimer(c, s, es[0]);
      }
      SevereRunReachesMax(c, Step(c, s, es[0]), es[1..]);
    }
  }

  lemma LossyKeepsTimer(c: Config, s: State, e: Event)
    requires Lossy(e) && !Fires(c, s, e)
    ensures Step(c, s, e).timer == s.timer
  {
  }
}
