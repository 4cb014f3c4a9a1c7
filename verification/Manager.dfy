/**
 * The connection manager: overlapping asynchronous starts and stops over one instance registry.
 * A start runs synchronously up to its first `await`, resumes when the servers it started have
 * settled, and again when its clients have. A generation counter tells it whether a later start
 * or stop has superseded it. An instance is identified by its position in `conns`.
 */
module Manager {
  import opened Common
  import opened JsMap

  datatype Status = Created | Starting | Ready | Stopped

  /** `awaited`: its start promise has not settled; `valid`: it passes the synchronous checks. */
  datatype Conn = Conn(server: bool, valid: bool, status: Status, awaited: bool, generation: nat)

  datatype Phase = Servers | Clients | Finishing

  /** A suspended start; `error` records that some start promise was rejected. */
  datatype Attempt = Attempt(generation: nat, owned: seq<(string, nat)>, phase: Phase, error: bool)

  datatype State = State(
    generation: nat, conns: seq<Conn>, instances: JsMap<string, nat>, attempts: seq<Attempt>)

  /** One configured connection: its slug, its role, and whether its key and port are acceptable. */
  datatype Config = Config(id: string, server: bool, valid: bool)

  datatype Event =
    | Start(configs: Option<seq<Config>>)   // `None`: the options are rejected
    | Stop
    | Settle(conn: nat, ok: bool)
    | Resume(attempt: nat)

  const Init := State(0, [], JsMap([], map[]), [])

  // -------------------------------------------------------------- instance calls

  predicate Running(c: Conn) {
    c.status.Starting? || c.status.Ready?
  }

  function StopConn(c: Conn): Conn {
    c.(status := Stopped)
  }

  /** Legal from Created and from Stopped; the synchronous checks may stop it at once. */
  function StartConn(c: Conn): Conn {
    if c.status.Created? || c.status.Stopped?
    then c.(status := if c.valid then Starting else Stopped, awaited := true)
    else c.(awaited := true)
  }

  /** A start that completes on a stopped instance leaves it stopped; a failed one stops it. */
  function SettleConn(c: Conn, ok: bool): Conn {
    c.(awaited := false,
       status := if !ok then Stopped else if c.status.Starting? then Ready else c.status)
  }

  function Owned(owned: seq<(string, nat)>): set<nat> {
    set x | x in owned :: x.1
  }

  function StopAll(conns: seq<Conn>, ids: set<nat>): (r: seq<Conn>)
    ensures |r| == |conns|
  {
    seq(|conns|, i requires 0 <= i < |conns| => if i in ids then StopConn(conns[i]) else conns[i])
  }

  function StartGroup(conns: seq<Conn>, ids: set<nat>, servers: bool): (r: seq<Conn>)
    ensures |r| == |conns|
  {
    seq(|conns|, i requires 0 <= i < |conns| =>
      if i in ids && conns[i].server == servers then StartConn(conns[i]) else conns[i])
  }

  // ------------------------------------------------------------------- the steps

  function Registered(s: State): set<nat> {
    s.instances.vals.Values
  }

  function TeardownAll(s: State): State {
    s.(conns := StopAll(s.conns, Registered(s)), instances := JsMap([], map[]))
  }

  /** Remove the registry entries that still point at the instances given. */
  function Unregister(m: JsMap<string, nat>, owned: seq<(string, nat)>): JsMap<string, nat>
    decreases |owned|
  {
    if owned == [] then m
    else
      var (id, c) := owned[0];
      Unregister(if m.Get(id) == Some(c) then m.Delete(id) else m, owned[1..])
  }

  function TeardownOwned(s: State, owned: seq<(string, nat)>): State {
    s.(conns := StopAll(s.conns, Owned(owned)), instances := Unregister(s.instances, owned))
  }

  function NewConns(configs: seq<Config>, generation: nat): (r: seq<Conn>)
    ensures |r| == |configs|
  {
    seq(|configs|, i requires 0 <= i < |configs| =>
      Conn(configs[i].server, configs[i].valid, Created, false, generation))
  }

  function NewOwned(configs: seq<Config>, base: nat): (r: seq<(string, nat)>)
    ensures |r| == |configs|
  {
    seq(|configs|, i requires 0 <= i < |configs| => (configs[i].id, base + i))
  }

  function Register(m: JsMap<string, nat>, owned: seq<(string, nat)>): JsMap<string, nat>
    decreases |owned|
  {
    if owned == [] then m else Register(m.Set(owned[0].0, owned[0].1), owned[1..])
  }

  predicate DistinctIds(configs: seq<Config>) {
    forall i, j :: 0 <= i < j < |configs| ==> configs[i].id != configs[j].id
  }

  /** Create and register one instance per connection, and start the servers. */
  function Launch(s: State, configs: seq<Config>): State {
    var owned := NewOwned(configs, |s.conns|);
    s.(conns := StartGroup(s.conns + NewConns(configs, s.generation), Owned(owned), true),
       instances := Register(s.instances, owned),
       attempts := s.attempts + [Attempt(s.generation, owned, Servers, false)])
  }

  function Begin(s: State, configs: Option<seq<Config>>): State {
    var t := TeardownAll(s.(generation := s.generation + 1));
    if configs == None then t else Launch(t, configs.value)
  }

  function StopNow(s: State): State {
    TeardownAll(s.(generation := s.generation + 1))
  }

  function NoteError(a: Attempt, c: nat, ok: bool): Attempt {
    if !ok && c in Owned(a.owned) then a.(error := true) else a
  }

  function SettleStart(s: State, c: nat, ok: bool): State
    requires c < |s.conns|
  {
    s.(conns := s.conns[c := SettleConn(s.conns[c], ok)],
       attempts := seq(|s.attempts|, i requires 0 <= i < |s.attempts| => NoteError(s.attempts[i], c, ok)))
  }

  predicate Superseded(s: State, a: Attempt) {
    s.generation != a.generation
  }

  /** The group the attempt awaits has settled. */
  predicate GroupSettled(s: State, a: Attempt) {
    a.phase.Finishing? ||
    forall i :: 0 <= i < |s.conns| && i in Owned(a.owned) && s.conns[i].server == a.phase.Servers?
      ==> !s.conns[i].awaited
  }

  function RemoveAt<T>(xs: seq<T>, i: nat): seq<T>
    requires i < |xs|
  {
    xs[..i] + xs[i + 1..]
  }

  function Continue(s: State, i: nat): State
    requires i < |s.attempts|
  {
    var a := s.attempts[i];
    match a.phase
    case Servers =>
      if Superseded(s, a) then s.(attempts := s.attempts[i := a.(phase := Finishing)])
      else s.(conns := StartGroup(s.conns, Owned(a.owned), false),
              attempts := s.attempts[i := a.(phase := Clients)])
    case Clients => s.(attempts := s.attempts[i := a.(phase := Finishing)])
    case Finishing =>
      var rest := s.(attempts := RemoveAt(s.attempts, i));
      if Superseded(s, a) then TeardownOwned(rest, a.owned)
      else if a.error then TeardownAll(rest)
      else rest
  }

  predicate Enabled(s: State, e: Event) {
    match e
    case Start(configs) => configs.Some? ==> DistinctIds(configs.value)
    case Stop => true
    case Settle(c, ok) => c < |s.conns| && s.conns[c].awaited && (ok ==> s.conns[c].valid)
    case Resume(i) => i < |s.attempts| && GroupSettled(s, s.attempts[i])
  }

  function Step(s: State, e: Event): State {
    if !Enabled(s, e) then s
    else
      match e
      case Start(configs) => Begin(s, configs)
      case Stop => StopNow(s)
      case Settle(c, ok) => SettleStart(s, c, ok)
      case Resume(i) => Continue(s, i)
  }

  function Run(s: State, es: seq<Event>): State
    decreases |es|
  {
    if es == [] then s else Run(Step(s, es[0]), es[1..])
  }
}
