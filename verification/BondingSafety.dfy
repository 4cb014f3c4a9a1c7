/** Who is active, and how far apart the switches are, in every run of the bonding manager. */
module BondingSafety {
  import opened Common
  import opened Bonding
  import opened BondingProbes

  // ------------------------------------------------------------- one active link

  /** At most one link has status Active, and it is the active link. */
  predicate OneActive(s: State) {
    && (s.primary.health.status == Active ==> s.active == Primary)
    && (s.backup.health.status == Active ==> s.active == Backup)
  }

  predicate AlwaysOneActive(s: State, th: Thresholds, es: seq<Event>)
    decreases |es|
  {
    OneActive(s) && (es == [] || AlwaysOneActive(Step(s, th, es[0]), th, es[1..]))
  }

  /** Whenever initialization completes, the primary is the active link. */
  predicate StartsOnPrimary(s: State, th: Thresholds, es: seq<Event>)
    decreases |es|
  {
    es == [] || ((es[0].Begin? ==> s.active == Primary) && StartsOnPrimary(Step(s, th, es[0]), th, es[1..]))
  }

  lemma {:induction false} ExpireKeepsStatus(l: Link, probes: seq<nat>, now: real, timeout: real)
    ensures Expire(l, probes, now, timeout).health == l.health
    decreases |probes|
  {
    if probes != [] {
      ExpireKeepsStatus(l, probes[..|probes| - 1], now, timeout);
    }
  }

  lemma MeasureOnlyMarksDown(l: Link, now: real, timeout: real)
    ensures Measure(l, now, timeout).health.status in {l.health.status, Down}
    ensures Measure(l, now, timeout).open == l.open
  {
    if l.open {
      var p := SendProbe(l, now);
      ExpireKeepsStatus(p, p.probes.pending.order, now, timeout);
      ExpireKeepsOpen(p, p.probes.pending.order, now, timeout);
    }
  }

  lemma {:induction false} ExpireKeepsOpen(l: Link, probes: seq<nat>, now: real, timeout: real)
    ensures Expire(l, probes, now, timeout).open == l.open
    decreases |probes|
  {
    if probes != [] {
      ExpireKeepsOpen(l, probes[..|probes| - 1], now, timeout);
    }
  }

  lemma TickOneActive(s: State, th: Thresholds, at: Readings)
    requires OneActive(s)
    ensures OneActive(Step(s, th, Tick(at)))
  {
    hide Measure, ShouldFailover, ShouldFailback;
    MeasureOnlyMarksDown(s.primary, at.primary, th.heartbeatTimeout);
    MeasureOnlyMarksDown(s.backup, at.backup, th.heartbeatTimeout);
  }

  lemma AnswerActivatesOnlyTheActive(l: Link, probe: nat, arrived: real, recorded: real, isActive: bool)
    ensures Answer(l, probe, arrived, recorded, isActive).health.status == Active ==> l.health.status == Active || isActive
  {
    hide Ema, CircularHistory.LastN;
  }

  lemma StepOneActive(s: State, th: Thresholds, e: Event)
    requires OneActive(s)
    ensures OneActive(Step(s, th, e)) <==> (e.Begin? ==> s.active == Primary)
  {
    hide MeasureBoth, Decide, Answer;
    match e
    case Tick(at) => TickOneActive(s, th, at);
    case Heard(name, probe, arrived, recorded) =>
      AnswerActivatesOnlyTheActive(Get(s, name), probe, arrived, recorded, s.active == name);
    case _ =>
  }

  /** The invariant holds throughout a run exactly if every initialization completes on the primary. */
  lemma {:induction false} AtMostOneActive(s: State, th: Thresholds, es: seq<Event>)
    requires OneActive(s)
    ensures AlwaysOneActive(s, th, es) <==> StartsOnPrimary(s, th, es)
    decreases |es|
  {
    hide Step, OneActive;
    if es != [] {
      StepOneActive(s, th, es[0]);
      if OneActive(Step(s, th, es[0])) {
        AtMostOneActive(Step(s, th, es[0]), th, es[1..]);
      }
    }
  }

  /** A forced switch while initialization waits for a socket leaves the wrong link marked active. */
  lemma ForcedSwitchDuringStart(th: Thresholds, t: real)
    ensures var s := Run(Init, th, [OpenLink(Primary), Force(t), OpenLink(Backup), Begin(t)]);
            s.active == Backup && s.primary.health.status == Active && s.backup.health.status == Standby
  {
    var s1 := Step(Init, th, OpenLink(Primary));
    var s2 := Step(s1, th, Force(t));
    var s3 := Step(s2, th, OpenLink(Backup));
    var es := [OpenLink(Primary), Force(t), OpenLink(Backup), Begin(t)];
    assert es[1..][1..][1..] == [Begin(t)];
    assert Run(s3, th, [Begin(t)]) == Run(Step(s3, th, Begin(t)), th, []);
    assert Run(s2, th, es[1..][1..]) == Run(s3, th, es[1..][1..][1..]);
  }

  /** So does a restart on the backup link, forced there or not: stopping does not make the primary the active link. */
  lemma RestartOnBackup(s: State, th: Thresholds, t: real)
    requires s.active == Backup
    ensures var r := Run(s, th, [Stop, OpenLink(Primary), OpenLink(Backup), Begin(t)]);
            r.active == Backup && r.primary.health.status == Active && r.backup.health.status == Standby
  {
    hide Shut;
    var es := [Stop, OpenLink(Primary), OpenLink(Backup), Begin(t)];
    var s1 := Step(s, th, Stop);
    var s2 := Step(s1, th, OpenLink(Primary));
    var s3 := Step(s2, th, OpenLink(Backup));
    assert es[1..][1..][1..] == [Begin(t)];
    assert Run(s3, th, [Begin(t)]) == Run(Step(s3, th, Begin(t)), th, []);
    assert Run(s2, th, es[1..][1..]) == Run(s3, th, es[1..][1..][1..]);
  }

  // ------------------------------------------------------------------- anti-flap

  /** How far apart two switches in a row must be. */
  predicate ApartEnough(a: Switch, b: Switch, th: Thresholds) {
    && a.to != b.to
    && a.at <= b.at
    && (b.kind == Return ==> b.to == Primary)
    && (b.to == Primary && b.kind != Forced ==> b.at - a.at >= th.failbackDelay)
    && (b.kind == Soft ==> b.at - a.at >= FAILOVER_MIN_DWELL)
  }

  ghost predicate WellSpaced(switches: seq<Switch>, th: Thresholds) {
    && (switches != [] ==> switches[0].to == Backup)
    && (forall k :: 0 < k < |switches| ==> ApartEnough(switches[k - 1], switches[k], th))
  }

  /** The manager's two timestamps stand for the last switch. */
  ghost predicate TimesTellLast(s: State) {
    if s.switches == [] then s.active == Primary
    else
      var last := s.switches[|s.switches| - 1];
      && s.active == last.to
      && last.at <= s.clock
      && (last.to == Backup ==> s.lastFailover == last.at)
      && (last.to == Primary ==> last.at <= s.lastFailback)
  }

  ghost predicate SpacingInv(s: State, th: Thresholds) {
    WellSpaced(s.switches, th) && TimesTellLast(s)
  }

  lemma PushSwitch(switches: seq<Switch>, x: Switch, th: Thresholds)
    requires WellSpaced(switches, th)
    requires if switches == [] then x.to == Backup else ApartEnough(switches[|switches| - 1], x, th)
    ensures WellSpaced(switches + [x], th)
  {
    hide ApartEnough;
  }

  lemma FailoverSpacing(s: State, th: Thresholds, kind: Kind, now: real)
    requires SpacingInv(s, th) && s.clock <= now
    requires s.active == Primary && kind in {Hard, Soft, Forced}
    requires kind == Soft ==> now - s.lastFailback >= FAILOVER_MIN_DWELL
    ensures SpacingInv(Failover(s, kind, now), th)
  {
    hide WellSpaced;
    PushSwitch(s.switches, Switch(Backup, kind, now), th);
  }

  lemma FailbackSpacing(s: State, th: Thresholds, kind: Kind, now: real)
    requires SpacingInv(s, th) && s.clock <= now
    requires s.active == Backup && kind in {Return, Forced}
    requires kind == Return ==> now - s.lastFailover >= th.failbackDelay
    ensures SpacingInv(Failback(s, kind, now), th)
  {
    if s.switches != [] {
      hide WellSpaced;
      PushSwitch(s.switches, Switch(Primary, kind, now), th);
    }
  }

  lemma TickSpacing(s: State, th: Thresholds, at: Readings)
    requires SpacingInv(s, th) && InOrder(s.clock, Tick(at))
    ensures SpacingInv(Step(s, th, Tick(at)), th)
  {
    hide Measure, WellSpaced, ApartEnough;
    var m := MeasureBoth(s, th, at);
    if s.monitoring {
      if ShouldFailover(m, th, at.failover) {
        FailoverSpacing(m, th, if m.primary.health.status == Down then Hard else Soft, at.switched);
      } else if ShouldFailback(m, th, at.failback) {
        FailbackSpacing(m, th, Return, at.switched);
      }
    }
  }

  lemma StepSpacing(s: State, th: Thresholds, e: Event)
    requires SpacingInv(s, th) && InOrder(s.clock, e)
    ensures SpacingInv(Step(s, th, e), th)
  {
    hide WellSpaced, ApartEnough, Decide, MeasureBoth, Answer;
    match e
    case Tick(at) => TickSpacing(s, th, at);
    case Force(now) =>
      if s.active == Primary {
        FailoverSpacing(s, th, Forced, now);
      } else {
        FailbackSpacing(s, th, Forced, now);
      }
    case _ =>
  }

  /** In every run, whatever is forced: a failback waits failbackDelay, a soft failover the minimum dwell. */
  lemma {:induction false} SwitchesAreSpaced(s: State, th: Thresholds, es: seq<Event>)
    requires SpacingInv(s, th) && Timed(s, th, es)
    ensures SpacingInv(Run(s, th, es), th)
    decreases |es|
  {
    hide SpacingInv, Step, InOrder;
    if es != [] {
      StepSpacing(s, th, es[0]);
      SwitchesAreSpaced(Step(s, th, es[0]), th, es[1..]);
    }
  }

  ghost predicate NoForcedFailback(switches: seq<Switch>) {
    forall k :: 0 <= k < |switches| && switches[k].to == Primary ==> switches[k].kind != Forced
  }

  lemma {:induction false} Parity(switches: seq<Switch>, th: Thresholds, k: nat)
    requires WellSpaced(switches, th) && k < |switches|
    ensures switches[k].to == if k % 2 == 0 then Backup else Primary
  {
    if k > 0 {
      Parity(switches, th, k - 1);
      assert ApartEnough(switches[k - 1], switches[k], th);
    }
  }

  /** Consecutive failovers are failbackDelay apart, and the dwell more when the second is a soft one. */
  lemma ConsecutiveFailovers(th: Thresholds, es: seq<Event>, k: nat)
    requires Timed(Init, th, es)
    requires var sw := Run(Init, th, es).switches;
             k + 2 < |sw| && sw[k].to == Backup && sw[k + 1].kind != Forced
    ensures var sw := Run(Init, th, es).switches;
            && sw[k + 1].to == Primary && sw[k + 2].to == Backup
            && sw[k + 2].at - sw[k].at >= th.failbackDelay + (if sw[k + 2].kind == Soft then FAILOVER_MIN_DWELL else 0.0)
  {
    SwitchesAreSpaced(Init, th, es);
    var sw := Run(Init, th, es).switches;
    assert ApartEnough(sw[k], sw[k + 1], th);
    assert ApartEnough(sw[k + 1], sw[k + 1 + 1], th);
  }

  lemma {:induction false} FailoversSpread(sw: seq<Switch>, th: Thresholds, i: nat, j: nat)
    requires WellSpaced(sw, th) && NoForcedFailback(sw)
    requires i <= j && 2 * j < |sw|
    ensures sw[2 * j].at - sw[2 * i].at >= (j - i) as real * th.failbackDelay
    decreases j
  {
    if i < j {
      FailoversSpread(sw, th, i, j - 1);
      Parity(sw, th, 2 * j - 1);
      assert ApartEnough(sw[2 * j - 2], sw[2 * j - 1], th);
      assert ApartEnough(sw[2 * j - 1], sw[2 * j], th);
      assert (j - i) as real * th.failbackDelay == (j - 1 - i) as real * th.failbackDelay + th.failbackDelay;
    }
  }

  lemma CountWithin(n: nat, w: real, d: real)
    requires n as real * d <= w && 0.0 < d
    ensures (n + 1) as real <= 1.0 + w / d
  {
    var q := w / d;
    assert q * d == w;
    ScaleStrict(q, n as real, d);
  }

  /** The i-th to the j-th failover, all within a time W of each other, number at most 1 + W / failbackDelay. */
  lemma FailoversAreRare(th: Thresholds, es: seq<Event>, i: nat, j: nat, w: real)
    requires Timed(Init, th, es) && 0.0 < th.failbackDelay
    requires var sw := Run(Init, th, es).switches;
             NoForcedFailback(sw) && i <= j && 2 * j < |sw| && sw[2 * j].at - sw[2 * i].at <= w
    ensures (j - i + 1) as real <= 1.0 + w / th.failbackDelay
  {
    SwitchesAreSpaced(Init, th, es);
    FailoversSpread(Run(Init, th, es).switches, th, i, j);
    CountWithin(j - i, w, th.failbackDelay);
  }

  /** The failovers are the switches at even places: the i-th to the j-th leave none out. */
  lemma FailoversAreEven(th: Thresholds, es: seq<Event>, k: nat)
    requires Timed(Init, th, es) && k < |Run(Init, th, es).switches|
    ensures Run(Init, th, es).switches[k].to == Backup <==> k % 2 == 0
  {
    SwitchesAreSpaced(Init, th, es);
    Parity(Run(Init, th, es).switches, th, k);
  }

  /** A check switches only to a link it did not find down, and leaves it alone active. */
  lemma ChecksSwitchToALiveLink(s: State, th: Thresholds, at: Readings)
    requires s.monitoring && Step(s, th, Tick(at)).active != s.active
    ensures var m := MeasureBoth(s, th, at);
            var t := Step(s, th, Tick(at));
            && Get(m, t.active).health.status != Down
            && Get(t, t.active).health.status == Active
            && Get(t, s.active).health.status in {Standby, Down}
  {
    hide Measure;
  }

  /** After every check, a primary that is down while the backup is not leaves the backup active. */
  lemma DownPrimaryIsLeft(s: State, th: Thresholds, at: Readings)
    requires s.monitoring
    ensures var t := Step(s, th, Tick(at));
            t.primary.health.status == Down && t.backup.health.status != Down ==> t.active == Backup
  {
    hide Measure;
  }

  /** Hysteresis: a failback leaves nothing that calls for a failover, at any later time, until the link changes. */
  lemma FailbackInvitesNoFailover(s: State, th: Thresholds, at: Readings, later: real)
    requires s.monitoring && 0.0 <= th.rtt && 0.0 <= th.loss
    requires s.active == Backup && Step(s, th, Tick(at)).active == Primary
    ensures !ShouldFailover(Step(s, th, Tick(at)), th, later)
  {
    hide Measure;
  }

  /** What a caller can rely on after a check. */
  ghost predicate WellSwitched(s: State, t: State, th: Thresholds) {
    && (t.active != s.active ==> Get(t, t.active).health.status == Active && Get(t, s.active).health.status in {Standby, Down})
    && (t.primary.health.status == Down && t.backup.health.status != Down ==> t.active == Backup)
    && ((s.active == Backup && t.active == Primary && 0.0 <= th.rtt && 0.0 <= th.loss)
          ==> forall later: real :: !ShouldFailover(t, th, later))
  }

  lemma ChecksSwitchWell(s: State, th: Thresholds, at: Readings)
    requires s.monitoring
    ensures WellSwitched(s, Step(s, th, Tick(at)), th)
  {
    var t := Step(s, th, Tick(at));
    DownPrimaryIsLeft(s, th, at);
    if t.active != s.active {
      ChecksSwitchToALiveLink(s, th, at);
      if s.active == Backup && 0.0 <= th.rtt && 0.0 <= th.loss {
        forall later: real
          ensures !ShouldFailover(t, th, later)
        {
          FailbackInvitesNoFailover(s, th, at, later);
        }
      }
    }
    hide Step, ShouldFailover;
  }

  // -------------------------------------------------------------- all of it together

  /** The spacing of the switches and the bookkeeping of both links. */
  ghost predicate Kept(s: State, th: Thresholds) {
    SpacingInv(s, th) && BothLinks(s)
  }

  lemma StartKept(th: Thresholds)
    ensures Kept(Init, th) && OneActive(Init)
  {
    assert Flags([]) == [];
    assert Common.Elements<nat>([]) == {};
  }

  lemma StepKeepsAll(s: State, th: Thresholds, e: Event)
    requires Kept(s, th) && InOrder(s.clock, e)
    ensures Kept(Step(s, th, e), th)
    ensures OneActive(s) ==> (OneActive(Step(s, th, e)) <==> (e.Begin? ==> s.active == Primary))
  {
    StepSpacing(s, th, e);
    StepKeepsLinks(s, th, e);
    if OneActive(s) {
      StepOneActive(s, th, e);
    }
  }
}
