/** Every heartbeat probe is accounted for once, and the loss ratio is that of the last ten outcomes. */
module BondingProbes {
  import opened Common
  import opened CircularHistory
  import opened JsMap
  import opened Bonding

  function Flags(os: seq<Outcome>): seq<bool> {
    seq(|os|, i requires 0 <= i < |os| => os[i].answered)
  }

  function CountFalse(s: seq<bool>): nat {
    if s == [] then 0 else CountFalse(s[..|s| - 1]) + (if s[|s| - 1] then 0 else 1)
  }

  /** No probe has two outcomes, and none that is pending has one. */
  ghost predicate SampledOnce(l: Link) {
    && (forall i, j :: 0 <= i < j < |l.past.outcomes| ==> l.past.outcomes[i].probe != l.past.outcomes[j].probe)
    && (forall i :: 0 <= i < |l.past.outcomes| ==>
          l.past.outcomes[i].probe < l.probes.next && !l.probes.pending.Has(l.past.outcomes[i].probe))
    && (forall k: nat :: l.probes.pending.Has(k) ==> k < l.probes.next)
  }

  ghost predicate Accounted(l: Link) {
    && l.probes.next == l.probes.sent
    && l.probes.responses == CountTrue(Flags(l.past.outcomes))
    && l.probes.sent == |l.past.outcomes| + l.probes.pending.Size() + l.past.abandoned
  }

  ghost predicate WindowIsRecent(l: Link) {
    && l.past.windowFrom <= |l.past.outcomes|
    && l.probes.lossWindow == LastN(Flags(l.past.outcomes[l.past.windowFrom..]), HEALTH_WINDOW_SIZE)
  }

  ghost predicate LinkInv(l: Link) {
    l.probes.pending.Valid() && SampledOnce(l) && Accounted(l) && WindowIsRecent(l)
  }

  lemma {:induction false} CountsAddUp(s: seq<bool>)
    ensures CountTrue(s) + CountFalse(s) == |s|
  {
    if s != [] {
      CountsAddUp(s[..|s| - 1]);
    }
  }

  lemma FlagsSnoc(os: seq<Outcome>, o: Outcome)
    ensures Flags(os + [o]) == Flags(os) + [o.answered]
    ensures CountTrue(Flags(os + [o])) == CountTrue(Flags(os)) + (if o.answered then 1 else 0)
  {
    var fs := Flags(os + [o]);
    assert fs == Flags(os) + [o.answered];
    assert fs[..|fs| - 1] == Flags(os);
  }

  // ------------------------------------------------------------ the step of one link

  lemma SendProbeKeeps(l: Link, now: real)
    requires LinkInv(l)
    ensures LinkInv(SendProbe(l, now))
  {
    SetValid(l.probes.pending, l.probes.next, now);
    var p := SendProbe(l, now).probes.pending;
    assert forall k :: p.Has(k) <==> l.probes.pending.Has(k) || k == l.probes.next;
  }

  lemma WindowPush(l: Link, o: Outcome)
    requires WindowIsRecent(l)
    ensures var os := l.past.outcomes + [o];
            LastN(l.probes.lossWindow + [o.answered], HEALTH_WINDOW_SIZE)
              == LastN(Flags(os[l.past.windowFrom..]), HEALTH_WINDOW_SIZE)
  {
    var recent := l.past.outcomes[l.past.windowFrom..];
    assert (l.past.outcomes + [o])[l.past.windowFrom..] == recent + [o];
    FlagsSnoc(recent, o);
    LastNPush(Flags(recent), o.answered, HEALTH_WINDOW_SIZE);
  }

  lemma SampleKeeps(l: Link, probe: nat, answered: bool)
    requires LinkInv(l) && l.probes.pending.Has(probe)
    ensures var t := Sample(l, probe, answered);
            LinkInv(if answered then t.(probes := t.probes.(responses := t.probes.responses + 1)) else t)
  {
    hide Flags, CountTrue, LastN;
    var p := Sample(l, probe, answered).probes.pending;
    assert forall k :: p.Has(k) <==> l.probes.pending.Has(k) && k != probe;
    DeleteValid(l.probes.pending, probe);
    FlagsSnoc(l.past.outcomes, Outcome(probe, answered));
    WindowPush(l, Outcome(probe, answered));
  }

  lemma {:induction false} ExpireKeeps(l: Link, probes: seq<nat>, now: real, timeout: real)
    requires LinkInv(l)
    ensures LinkInv(Expire(l, probes, now, timeout))
    decreases |probes|
  {
    if probes != [] {
      var n := |probes| - 1;
      ExpireKeeps(l, probes[..n], now, timeout);
      var m := Expire(l, probes[..n], now, timeout);
      if Late(m, probes[n], now, timeout) {
        SampleKeeps(m, probes[n], false);
      }
    }
  }

  /** LinkInv reads the probes and their history only. */
  lemma SameProbes(l: Link, m: Link)
    requires LinkInv(l) && m.past == l.past && m.probes.pending == l.probes.pending && m.probes.next == l.probes.next
    requires m.probes.sent == l.probes.sent && m.probes.responses == l.probes.responses
    requires m.probes.lossWindow == l.probes.lossWindow
    ensures LinkInv(m)
  {
  }

  lemma MeasureKeeps(l: Link, now: real, timeout: real)
    requires LinkInv(l)
    ensures LinkInv(Measure(l, now, timeout))
  {
    hide LinkInv, Expire, LossRatio, Quality;
    if l.open {
      var probed := SendProbe(l, now);
      SendProbeKeeps(l, now);
      ExpireKeeps(probed, probed.probes.pending.order, now, timeout);
      SameProbes(Expire(probed, probed.probes.pending.order, now, timeout), Measure(l, now, timeout));
    }
  }

  lemma AnswerKeeps(l: Link, probe: nat, arrived: real, recorded: real, isActive: bool)
    requires LinkInv(l)
    ensures LinkInv(Answer(l, probe, arrived, recorded, isActive))
  {
    hide LinkInv, LastN, Ema;
    if l.probes.pending.Has(probe) {
      SampleKeeps(l, probe, true);
      var t := Sample(l, probe, true);
      SameProbes(t.(probes := t.probes.(responses := t.probes.responses + 1)), Answer(l, probe, arrived, recorded, isActive));
    }
  }

  lemma ShutKeeps(l: Link)
    requires LinkInv(l)
    ensures LinkInv(Shut(l))
  {
  }

  // ---------------------------------------------------------------------- every run

  ghost predicate BothLinks(s: State) {
    LinkInv(s.primary) && LinkInv(s.backup)
  }

  lemma SwitchKeepsLinks(s: State, kind: Kind, now: real)
    requires BothLinks(s)
    ensures BothLinks(Failover(s, kind, now)) && BothLinks(Failback(s, kind, now))
  {
    hide LinkInv;
    SameProbes(s.primary, Failover(s, kind, now).primary);
    SameProbes(s.backup, Failover(s, kind, now).backup);
    SameProbes(s.primary, Failback(s, kind, now).primary);
    SameProbes(s.backup, Failback(s, kind, now).backup);
  }

  lemma DecideKeepsLinks(s: State, th: Thresholds, at: Readings)
    requires BothLinks(s)
    ensures BothLinks(Decide(s, th, at))
  {
    hide LinkInv, ShouldFailover, ShouldFailback, Failover, Failback;
    SwitchKeepsLinks(s, if s.primary.health.status == Down then Hard else Soft, at.switched);
    SwitchKeepsLinks(s, Return, at.switched);
  }

  lemma StatusStepKeepsLinks(s: State, th: Thresholds, e: Event)
    requires BothLinks(s)
    requires e.OpenLink? || e.SocketError? || e.RecoveryFires? || e.Bound?
    ensures BothLinks(Step(s, th, e))
  {
    hide LinkInv;
    SameProbes(Get(s, e.name), Get(Step(s, th, e), e.name));
  }

  lemma StepKeepsLinks(s: State, th: Thresholds, e: Event)
    requires BothLinks(s)
    ensures BothLinks(Step(s, th, e))
  {
    hide LinkInv, Measure, Answer, Shut, Decide, Failover, Failback;
    match e
    case Tick(at) =>
      MeasureKeeps(s.primary, at.primary, th.heartbeatTimeout);
      MeasureKeeps(s.backup, at.backup, th.heartbeatTimeout);
      DecideKeepsLinks(MeasureBoth(s, th, at), th, at);
    case Heard(name, probe, arrived, recorded) =>
      AnswerKeeps(Get(s, name), probe, arrived, recorded, s.active == name);
    case Stop =>
      ShutKeeps(s.primary);
      ShutKeeps(s.backup);
    case Begin(now) =>
      SameProbes(s.primary, WithStatus(s.primary, Active));
    case Force(now) =>
      SwitchKeepsLinks(s, Forced, now);
    case _ =>
      StatusStepKeepsLinks(s, th, e);
  }

  lemma {:induction false} RunKeepsLinks(s: State, th: Thresholds, es: seq<Event>)
    requires BothLinks(s)
    ensures BothLinks(Run(s, th, es))
    decreases |es|
  {
    hide Step, BothLinks;
    if es != [] {
      StepKeepsLinks(s, th, es[0]);
      RunKeepsLinks(Step(s, th, es[0]), th, es[1..]);
    }
  }

  /** Sent probes are answered, expired, pending, or were pending at a stop; none is sampled twice. */
  ghost predicate ProbesAddUp(l: Link) {
    && l.probes.sent == l.probes.responses + CountFalse(Flags(l.past.outcomes)) + l.probes.pending.Size() + l.past.abandoned
    && (forall i, j :: 0 <= i < j < |l.past.outcomes| ==> l.past.outcomes[i].probe != l.past.outcomes[j].probe)
    && (forall i :: 0 <= i < |l.past.outcomes| ==> !l.probes.pending.Has(l.past.outcomes[i].probe))
  }

  lemma EveryProbeAddsUp(th: Thresholds, es: seq<Event>)
    ensures ProbesAddUp(Run(Init, th, es).primary) && ProbesAddUp(Run(Init, th, es).backup)
  {
    assert Flags([]) == [];
    assert Elements<nat>([]) == {};
    RunKeepsLinks(Init, th, es);
    var s := Run(Init, th, es);
    CountsAddUp(Flags(s.primary.past.outcomes));
    CountsAddUp(Flags(s.backup.past.outcomes));
  }

  // ---------------------------------------------------------------- what expires

  /** A check removes exactly the pending probes older than the timeout. */
  lemma {:induction false} ExpireExactly(l: Link, probes: seq<nat>, now: real, timeout: real)
    requires l.probes.pending.Valid()
    ensures var p := Expire(l, probes, now, timeout).probes.pending;
            && p.Valid()
            && (forall k :: p.Has(k) <==> l.probes.pending.Has(k) && !(k in probes && now - l.probes.pending.vals[k] > timeout))
            && (forall k :: p.Has(k) ==> p.vals[k] == l.probes.pending.vals[k])
    decreases |probes|
  {
    if probes != [] {
      var n := |probes| - 1;
      ExpireExactly(l, probes[..n], now, timeout);
      assert probes == probes[..n] + [probes[n]];
      DeleteValid(Expire(l, probes[..n], now, timeout).probes.pending, probes[n]);
    }
  }

  /** After a check, a probe is pending exactly if it was or was just sent, and is within the timeout. */
  lemma PendingAfterCheck(l: Link, now: real, timeout: real, k: nat)
    requires LinkInv(l) && l.open && 0.0 <= timeout
    ensures Measure(l, now, timeout).probes.pending.Has(k)
       <==> k == l.probes.next || (l.probes.pending.Has(k) && now - l.probes.pending.vals[k] <= timeout)
  {
    var probed := SendProbe(l, now);
    SendProbeKeeps(l, now);
    ExpireExactly(probed, probed.probes.pending.order, now, timeout);
    assert probed.probes.pending.Has(k) ==> k in Elements(probed.probes.pending.order);
  }

  // ---------------------------------------------------------------- the loss ratio

  lemma RatioOfFailures(window: seq<bool>, sent: nat, responses: nat)
    requires |window| > 0
    ensures LossRatio(window, sent, responses) == Some(CountFalse(window) as real / |window| as real)
  {
    CountsAddUp(window);
    Complement(CountTrue(window), CountFalse(window), |window|);
  }

  lemma Complement(t: nat, f: nat, n: nat)
    requires t + f == n && 0 < n
    ensures Clamp01(1.0 - t as real / n as real) == f as real / n as real
  {
    DivideSum(t as real, f as real, n as real);
  }

  lemma DivideSum(t: real, f: real, n: real)
    requires t + f == n && 0.0 <= t && 0.0 <= f && 0.0 < n
    ensures 1.0 - t / n == f / n && 0.0 <= f / n <= 1.0
  {
    var q := 1.0 - t / n;
    assert (t / n) * n == t;
    assert q * n == n - (t / n) * n;
    assert q * n == f;
    Unscale(q, n, f);
  }

  lemma Unscale(q: real, n: real, f: real)
    requires q * n == f && 0.0 <= f <= n && 0.0 < n
    ensures f / n == q
    ensures 0.0 <= q <= 1.0
  {
    var d := f / n;
    assert d * n == f;
    ScaleStrict(d, q, n);
    ScaleStrict(q, d, n);
    ScaleStrict(q, 0.0, n);
    ScaleStrict(1.0, q, n);
  }

  lemma ScaleStrict(a: real, b: real, n: real)
    requires 0.0 < n
    ensures a < b ==> a * n < b * n
  {
    if a < b {
      assert (b - a) * n > 0.0;
    }
  }

  /** The failed fraction of the last ten outcomes; total while there is none. */
  ghost predicate LossIsRecent(l: Link) {
    var recent := LastN(Flags(l.past.outcomes), HEALTH_WINDOW_SIZE);
    l.health.loss == if recent == [] then 1.0 else CountFalse(recent) as real / |recent| as real
  }

  /** Without a stop, the fallback to the counters is never a proper fraction. */
  lemma MeasuredLoss(l: Link, now: real, timeout: real)
    requires LinkInv(l) && l.open && l.past.windowFrom == 0
    ensures LossIsRecent(Measure(l, now, timeout))
  {
    var probed := SendProbe(l, now);
    var late := Expire(probed, probed.probes.pending.order, now, timeout);
    SendProbeKeeps(l, now);
    ExpireKeeps(probed, probed.probes.pending.order, now, timeout);
    ExpireFrame(probed, probed.probes.pending.order, now, timeout);
    LossFrom(late);
    hide LinkInv, LossRatio, Quality, Expire;
    assert Measure(l, now, timeout).past == late.past;
    assert Measure(l, now, timeout).health.loss == UpdateMetrics(late).health.loss;
  }

  /** Switching touches the statuses only. */
  lemma SwitchFrame(s: State, kind: Kind, now: real)
    ensures var f, b := Failover(s, kind, now), Failback(s, kind, now);
            && f.primary == s.primary.(health := s.primary.health.(status := f.primary.health.status))
            && f.backup == s.backup.(health := s.backup.health.(status := f.backup.health.status))
            && b.primary == s.primary.(health := s.primary.health.(status := b.primary.health.status))
            && b.backup == s.backup.(health := s.backup.health.(status := b.backup.health.status))
  {
  }

  /** And so does deciding. */
  lemma DecideFrame(s: State, th: Thresholds, at: Readings)
    ensures var t := Decide(s, th, at);
            && t.primary == s.primary.(health := s.primary.health.(status := t.primary.health.status))
            && t.backup == s.backup.(health := s.backup.health.(status := t.backup.health.status))
  {
    SwitchFrame(s, if s.primary.health.status == Down then Hard else Soft, at.switched);
    SwitchFrame(s, Return, at.switched);
    hide ShouldFailover, ShouldFailback, Failover, Failback;
  }

  lemma MeasureKeepsWindowStart(l: Link, now: real, timeout: real)
    ensures Measure(l, now, timeout).past.windowFrom == l.past.windowFrom
  {
    hide LossRatio, Quality;
    if l.open {
      var p := SendProbe(l, now);
      ExpireFrame(p, p.probes.pending.order, now, timeout);
    }
  }

  predicate WindowsUncut(s: State) {
    s.primary.past.windowFrom == 0 && s.backup.past.windowFrom == 0
  }

  lemma CheckKeepsWindowStart(s: State, th: Thresholds, at: Readings)
    requires WindowsUncut(s)
    ensures WindowsUncut(Step(s, th, Tick(at)))
  {
    hide Measure, Decide;
    MeasureKeepsWindowStart(s.primary, at.primary, th.heartbeatTimeout);
    MeasureKeepsWindowStart(s.backup, at.backup, th.heartbeatTimeout);
    DecideFrame(MeasureBoth(s, th, at), th, at);
  }

  lemma OtherKeepsWindowStart(s: State, th: Thresholds, e: Event)
    requires WindowsUncut(s) && !e.Tick? && !e.Stop?
    ensures WindowsUncut(Step(s, th, e))
  {
    hide Ema, LastN;
  }

  lemma {:induction false} RunKeepsWindowStart(s: State, th: Thresholds, es: seq<Event>)
    requires WindowsUncut(s) && Stop !in es
    ensures WindowsUncut(Run(s, th, es))
    decreases |es|
  {
    hide Step, WindowsUncut;
    if es != [] {
      assert es[0] in es;
      if es[0].Tick? {
        CheckKeepsWindowStart(s, th, es[0].at);
      } else {
        OtherKeepsWindowStart(s, th, es[0]);
      }
      RunKeepsWindowStart(Step(s, th, es[0]), th, es[1..]);
    }
  }

  /** The next health check leaves each open link with the loss of its last ten outcomes. */
  ghost predicate CheckReports(s: State, th: Thresholds, at: Readings) {
    var t := Step(s, th, Tick(at));
    && (s.primary.open ==> LossIsRecent(t.primary))
    && (s.backup.open ==> LossIsRecent(t.backup))
  }

  lemma CheckReportsLoss(s: State, th: Thresholds, at: Readings)
    requires BothLinks(s) && s.monitoring && WindowsUncut(s)
    ensures CheckReports(s, th, at)
  {
    hide Measure, LinkInv, Decide, Flags, LastN, CountFalse;
    DecideFrame(MeasureBoth(s, th, at), th, at);
    if s.primary.open {
      MeasuredLoss(s.primary, at.primary, th.heartbeatTimeout);
    }
    if s.backup.open {
      MeasuredLoss(s.backup, at.backup, th.heartbeatTimeout);
    }
  }

  /** In every run up to a stop, each health check leaves each open link with the loss of its last ten outcomes. */
  lemma EveryCheckReportsLoss(th: Thresholds, es: seq<Event>, at: Readings)
    requires Stop !in es && Run(Init, th, es).monitoring
    ensures CheckReports(Run(Init, th, es), th, at)
  {
    assert Flags([]) == [];
    assert Elements<nat>([]) == {};
    RunKeepsLinks(Init, th, es);
    RunKeepsWindowStart(Init, th, es);
    CheckReportsLoss(Run(Init, th, es), th, at);
  }

  lemma {:induction false} ExpireFrame(l: Link, probes: seq<nat>, now: real, timeout: real)
    ensures var m := Expire(l, probes, now, timeout);
            m.past.windowFrom == l.past.windowFrom && m.probes.sent == l.probes.sent
    decreases |probes|
  {
    if probes != [] {
      ExpireFrame(l, probes[..|probes| - 1], now, timeout);
    }
  }

  lemma LossFrom(l: Link)
    requires LinkInv(l) && l.past.windowFrom == 0 && l.probes.sent > 0
    ensures var recent := LastN(Flags(l.past.outcomes), HEALTH_WINDOW_SIZE);
            UpdateMetrics(l).health.loss == if recent == [] then 1.0 else CountFalse(recent) as real / |recent| as real
  {
    assert l.past.outcomes[0..] == l.past.outcomes;
    var recent := LastN(Flags(l.past.outcomes), HEALTH_WINDOW_SIZE);
    if recent != [] {
      RatioOfFailures(recent, l.probes.sent, l.probes.responses);
    } else {
      assert l.probes.responses == 0;
    }
  }
}
