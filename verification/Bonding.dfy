/**
 * Main-backup bonding: two links probed by heartbeats, and the rules that switch between them.
 * Times are clock readings in milliseconds.
 */
module Bonding {
  import opened Common
  import opened CircularHistory
  import opened JsMap

  const FAILOVER_MIN_DWELL: real := 5000.0
  const FAILBACK_RTT_HYSTERESIS: real := 0.8
  const FAILBACK_LOSS_HYSTERESIS: real := 0.5
  const HEALTH_WINDOW_SIZE: nat := 10
  const RTT_EMA_ALPHA: real := 0.2

  datatype Thresholds = Thresholds(rtt: real, loss: real, failbackDelay: real, heartbeatTimeout: real)

  datatype Name = Primary | Backup

  datatype Status = Unknown | Active | Standby | Down

  datatype Health = Health(rtt: real, loss: real, quality: int, status: Status)

  datatype Probes = Probes(next: nat, pending: JsMap<nat, real>, sent: nat, responses: nat, lastResponse: real,
                           lossWindow: seq<bool>, rttWindow: seq<real>)

  /** How one probe ended. */
  datatype Outcome = Outcome(probe: nat, answered: bool)

  /** History: every outcome, where the current window began, and the probes dropped by a stop. */
  datatype Past = Past(outcomes: seq<Outcome>, windowFrom: nat, abandoned: nat)

  datatype Link = Link(open: bool, health: Health, probes: Probes, recovering: bool, past: Past)

  datatype Kind = Hard | Soft | Return | Forced

  datatype Switch = Switch(to: Name, kind: Kind, at: real)

  /** `clock` and `switches` are history: the last clock reading, and every change of the active link. */
  datatype State = State(active: Name, primary: Link, backup: Link, lastFailover: real, lastFailback: real,
                         monitoring: bool, stopped: bool, clock: real, switches: seq<Switch>)

  const NewLink: Link :=
    Link(false, Health(0.0, 0.0, 100, Unknown), Probes(0, Empty(), 0, 0, 0.0, [], []), false, Past([], 0, 0))

  const Init: State := State(Primary, NewLink, NewLink, 0.0, 0.0, false, false, 0.0, [])

  // ---------------------------------------------------------------- link health

  function Clamp01(x: real): real {
    if x < 0.0 then 0.0 else if x > 1.0 then 1.0 else x
  }

  function CountTrue(s: seq<bool>): nat {
    if s == [] then 0 else CountTrue(s[..|s| - 1]) + (if s[|s| - 1] then 1 else 0)
  }

  function LossRatio(window: seq<bool>, sent: nat, responses: nat): Option<real> {
    if |window| > 0 then Some(Clamp01(1.0 - CountTrue(window) as real / |window| as real))
    else if sent > 0 then Some(Clamp01(1.0 - responses as real / sent as real))
    else None
  }

  /** `Math.round`. */
  function Round(x: real): int {
    (x + 0.5).Floor
  }

  function Quality(rtt: real, loss: real): (q: int)
    ensures 0.0 <= loss ==> 0 <= q <= 100
  {
    var lossScore := if 1.0 - loss < 0.0 then 0.0 else 1.0 - loss;
    Round(lossScore * 60.0 + Clamp01(1.0 - rtt / 1000.0) * 40.0)
  }

  function Ema(current: real, sample: real): real {
    if current == 0.0 then sample else RTT_EMA_ALPHA * sample + (1.0 - RTT_EMA_ALPHA) * current
  }

  // ------------------------------------------------------------------ one link

  function SendProbe(l: Link, now: real): Link {
    var p := l.probes;
    l.(probes := p.(next := p.next + 1, pending := p.pending.Set(p.next, now), sent := p.sent + 1))
  }

  function Sample(l: Link, probe: nat, answered: bool): Link {
    l.(probes := l.probes.(pending := l.probes.pending.Delete(probe),
                           lossWindow := LastN(l.probes.lossWindow + [answered], HEALTH_WINDOW_SIZE)),
       past := l.past.(outcomes := l.past.outcomes + [Outcome(probe, answered)]))
  }

  predicate Late(l: Link, probe: nat, now: real, timeout: real) {
    l.probes.pending.Has(probe) && now - l.probes.pending.vals[probe] > timeout
  }

  function ExpireOne(l: Link, probe: nat, now: real, timeout: real): Link {
    if Late(l, probe, now, timeout) then Sample(l, probe, false) else l
  }

  /** The pending probes are visited oldest first. */
  function Expire(l: Link, probes: seq<nat>, now: real, timeout: real): Link {
    if probes == [] then l
    else
      var n := |probes| - 1;
      ExpireOne(Expire(l, probes[..n], now, timeout), probes[n], now, timeout)
  }

  function UpdateMetrics(l: Link): Link {
    var loss := LossRatio(l.probes.lossWindow, l.probes.sent, l.probes.responses);
    var h := if loss.Some? then l.health.(loss := loss.value) else l.health;
    l.(health := h.(quality := Quality(h.rtt, h.loss)))
  }

  function MarkDown(l: Link, now: real, timeout: real): Link {
    if l.probes.sent > 3 && now - l.probes.lastResponse > timeout then WithStatus(l, Down) else l
  }

  function WithStatus(l: Link, status: Status): Link {
    l.(health := l.health.(status := status))
  }

  function Measure(l: Link, now: real, timeout: real): Link {
    if !l.open then l
    else
      var probed := SendProbe(l, now);
      MarkDown(UpdateMetrics(Expire(probed, probed.probes.pending.order, now, timeout)), now, timeout)
  }

  /** `arrived` and `recorded` are the two clock readings of one answer; `isActive`: this is the active link. */
  function Answer(l: Link, probe: nat, arrived: real, recorded: real, isActive: bool): Link {
    if !l.probes.pending.Has(probe) then l
    else
      var rtt := arrived - l.probes.pending.vals[probe];
      var s := Sample(l, probe, true);
      var t := s.(probes := s.probes.(responses := s.probes.responses + 1, lastResponse := recorded,
                                      rttWindow := LastN(s.probes.rttWindow + [rtt], HEALTH_WINDOW_SIZE)),
                  health := s.health.(rtt := Ema(s.health.rtt, rtt)));
      if t.health.status == Down then WithStatus(t, if isActive then Active else Standby) else t
  }

  /** A stop drops what is pending and starts new windows. */
  function Shut(l: Link): Link {
    l.(open := false, recovering := false,
       probes := l.probes.(pending := Empty(), lossWindow := [], rttWindow := []),
       past := l.past.(windowFrom := |l.past.outcomes|, abandoned := l.past.abandoned + l.probes.pending.Size()))
  }

  // -------------------------------------------------------------- the decisions

  predicate ShouldFailover(s: State, th: Thresholds, now: real) {
    && s.active == Primary
    && s.backup.health.status != Down
    && (s.primary.health.status == Down ||
        (now - s.lastFailback >= FAILOVER_MIN_DWELL &&
         (s.primary.health.rtt > th.rtt || s.primary.health.loss > th.loss)))
  }

  predicate ShouldFailback(s: State, th: Thresholds, now: real) {
    && s.active == Backup
    && now - s.lastFailover >= th.failbackDelay
    && s.primary.health.status != Down
    && s.primary.health.rtt < th.rtt * FAILBACK_RTT_HYSTERESIS
    && s.primary.health.loss < th.loss * FAILBACK_LOSS_HYSTERESIS
  }

  function Failover(s: State, kind: Kind, now: real): State {
    if s.active == Backup then s
    else
      s.(active := Backup,
         primary := if s.primary.health.status == Down then s.primary else WithStatus(s.primary, Standby),
         backup := WithStatus(s.backup, Active),
         lastFailover := now, clock := now,
         switches := s.switches + [Switch(Backup, kind, now)])
  }

  function Failback(s: State, kind: Kind, now: real): State {
    if s.active == Primary then s
    else
      s.(active := Primary,
         primary := WithStatus(s.primary, Active),
         backup := WithStatus(s.backup, Standby),
         lastFailback := now, clock := now,
         switches := s.switches + [Switch(Primary, kind, now)])
  }

  // ------------------------------------------------------------------ the steps

  /** The clock readings of one health check, in the order they are taken. */
  datatype Readings = Readings(primary: real, backup: real, failover: real, failback: real, switched: real)

  datatype Recovery = Recovered | Binding | Broken

  /**
   * `OpenLink` and `Begin` are the pieces of initialize(), which may wait between them; overlapping calls
   * interleave their pieces.
   */
  datatype Event =
    | OpenLink(name: Name)
    | Begin(now: real)
    | Tick(at: Readings)
    | Heard(name: Name, probe: nat, arrived: real, recorded: real)
    | SocketError(name: Name)
    | RecoveryFires(name: Name, outcome: Recovery)
    | Bound(name: Name)
    | Force(now: real)
    | Stop

  function Get(s: State, name: Name): Link {
    if name == Primary then s.primary else s.backup
  }

  function Put(s: State, name: Name, l: Link): State {
    if name == Primary then s.(primary := l) else s.(backup := l)
  }

  function Recover(l: Link, outcome: Recovery): Link {
    match outcome
    case Recovered => WithStatus(l, Standby).(open := true, recovering := false)
    case Binding => l.(open := true, recovering := false)
    case Broken => WithStatus(l, Down).(recovering := false)
  }

  function MeasureBoth(s: State, th: Thresholds, at: Readings): State {
    s.(primary := Measure(s.primary, at.primary, th.heartbeatTimeout),
       backup := Measure(s.backup, at.backup, th.heartbeatTimeout),
       clock := at.failover)
  }

  function Decide(s: State, th: Thresholds, at: Readings): State {
    if ShouldFailover(s, th, at.failover) then
      Failover(s, if s.primary.health.status == Down then Hard else Soft, at.switched)
    else if ShouldFailback(s, th, at.failback) then Failback(s, Return, at.switched)
    else s.(clock := at.failback)
  }

  function Step(s: State, th: Thresholds, e: Event): State {
    match e
    case OpenLink(name) => Put(s, name, WithStatus(Get(s, name), Standby).(open := true))
    case Begin(now) => s.(primary := WithStatus(s.primary, Active), lastFailback := now, monitoring := true, clock := now)
    case Tick(at) => if s.monitoring then Decide(MeasureBoth(s, th, at), th, at) else s
    case Heard(name, probe, arrived, recorded) =>
      Put(s, name, Answer(Get(s, name), probe, arrived, recorded, s.active == name)).(clock := recorded)
    case SocketError(name) =>
      Put(s, name, WithStatus(Get(s, name), Down).(recovering := Get(s, name).recovering || !s.stopped))
    case RecoveryFires(name, outcome) =>
      if Get(s, name).recovering then Put(s, name, Recover(Get(s, name), outcome)) else s
    case Bound(name) => Put(s, name, WithStatus(Get(s, name), Standby))
    case Force(now) => if s.active == Primary then Failover(s, Forced, now) else Failback(s, Forced, now)
    case Stop => s.(primary := Shut(s.primary), backup := Shut(s.backup), monitoring := false, stopped := true)
  }

  function Run(s: State, th: Thresholds, es: seq<Event>): State
    decreases |es|
  {
    if es == [] then s else Run(Step(s, th, es[0]), th, es[1..])
  }

  // ------------------------------------------------------------------- the clock

  /** The readings an event takes, the first not before `from`, never go back. */
  predicate InOrder(from: real, e: Event) {
    match e
    case Begin(now) => from <= now
    case Tick(at) => from <= at.primary <= at.backup <= at.failover <= at.failback <= at.switched
    case Heard(_, _, arrived, recorded) => from <= arrived <= recorded
    case Force(now) => from <= now
    case _ => true
  }

  predicate Timed(s: State, th: Thresholds, es: seq<Event>)
    decreases |es|
  {
    es == [] || (InOrder(s.clock, es[0]) && Timed(Step(s, th, es[0]), th, es[1..]))
  }
}
