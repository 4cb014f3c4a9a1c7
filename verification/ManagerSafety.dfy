/** What every overlap of starts and stops keeps. */
module ManagerSafety {
  import opened Common
  import opened JsMap
  import opened Manager

  ghost predicate RegistryOk(s: State) {
    && s.instances.Valid()
    && forall i :: i in Registered(s) ==> i < |s.conns| && s.conns[i].generation == s.generation
  }

  /** Nothing runs outside the registry. */
  ghost predicate RunningAreRegistered(s: State) {
    forall i :: 0 <= i < |s.conns| && Running(s.conns[i]) ==> i in Registered(s)
  }

  ghost predicate AttemptOk(s: State, a: Attempt) {
    && a.generation <= s.generation
    && (forall i :: i in Owned(a.owned) ==> i < |s.conns| && s.conns[i].generation == a.generation)
    && (a.generation == s.generation ==> Registered(s) == Owned(a.owned))
  }

  /** How far an instance of the current attempt has come. */
  ghost predicate ProgressOk(a: Attempt, c: Conn) {
    if a.phase.Servers? && !c.server then c.status.Created? && !c.awaited
    else
      && (c.awaited ==> (if c.valid then c.status.Starting? else c.status.Stopped?))
      && (!c.awaited ==> c.status.Ready? || (c.status.Stopped? && a.error))
      && (c.awaited ==> a.phase == (if c.server then Servers else Clients))
  }

  ghost predicate CurrentAttemptOk(s: State) {
    forall k, i :: 0 <= k < |s.attempts| && s.attempts[k].generation == s.generation && i in Registered(s) && i < |s.conns|
      ==> ProgressOk(s.attempts[k], s.conns[i])
  }

  ghost predicate AttemptsOk(s: State) {
    && (forall j, k :: 0 <= j < k < |s.attempts| ==> s.attempts[j].generation < s.attempts[k].generation)
    && (forall k :: 0 <= k < |s.attempts| ==> AttemptOk(s, s.attempts[k]))
  }

  /** No suspended start owns the registry. */
  ghost predicate Quiet(s: State) {
    forall k :: 0 <= k < |s.attempts| ==> s.attempts[k].generation != s.generation
  }

  ghost predicate QuietMeansReady(s: State) {
    Quiet(s) ==> forall i :: i in Registered(s) && i < |s.conns| ==> s.conns[i].status.Ready? && !s.conns[i].awaited
  }

  ghost predicate Inv(s: State) {
    RegistryOk(s) && RunningAreRegistered(s) && AttemptsOk(s) && CurrentAttemptOk(s) && QuietMeansReady(s)
  }

  // ------------------------------------------------------------------ small facts

  lemma {:induction false} RegisterFacts(m: JsMap<string, nat>, owned: seq<(string, nat)>)
    requires m.Valid()
    requires forall i, j :: 0 <= i < j < |owned| ==> owned[i].0 != owned[j].0
    requires forall i :: 0 <= i < |owned| ==> owned[i].0 !in m.vals
    ensures Register(m, owned).Valid()
    ensures Register(m, owned).vals.Values == m.vals.Values + Owned(owned)
    decreases |owned|
  {
    if owned == [] {
    } else {
      var n := m.Set(owned[0].0, owned[0].1);
      SetValid(m, owned[0].0, owned[0].1);
      ValuesOfNew(m.vals, owned[0].0, owned[0].1);
      assert owned == [owned[0]] + owned[1..];
      assert Owned(owned) == {owned[0].1} + Owned(owned[1..]);
      RegisterFacts(n, owned[1..]);
    }
  }

  lemma ValuesOfNew(m: map<string, nat>, k: string, v: nat)
    requires k !in m
    ensures m[k := v].Values == m.Values + {v}
  {
    assert m[k := v][k] == v;
    forall x | x in m.Values
      ensures x in m[k := v].Values
    {
      var y :| y in m && m[y] == x;
      assert m[k := v][y] == x;
    }
  }

  /** Nothing is removed when no entry points at the instances given. */
  lemma {:induction false} UnregisterOthers(m: JsMap<string, nat>, owned: seq<(string, nat)>)
    requires forall i :: i in m.vals.Values ==> i !in Owned(owned)
    ensures Unregister(m, owned) == m
    decreases |owned|
  {
    if owned == [] {
    } else {
      assert owned == [owned[0]] + owned[1..];
      assert owned[0].1 in Owned(owned);
      assert m.Get(owned[0].0) != Some(owned[0].1);
      UnregisterOthers(m, owned[1..]);
    }
  }

  lemma NewOwnedIds(configs: seq<Config>, base: nat)
    ensures forall i :: i in Owned(NewOwned(configs, base)) <==> base <= i < base + |configs|
  {
    var owned := NewOwned(configs, base);
    forall i | base <= i < base + |configs|
      ensures i in Owned(owned)
    {
      assert owned[i - base] in owned;
    }
  }

  lemma CurrentIsLast(s: State, k: nat)
    requires AttemptsOk(s) && k < |s.attempts| && s.attempts[k].generation == s.generation
    ensures k == |s.attempts| - 1
  {
    assert AttemptOk(s, s.attempts[|s.attempts| - 1]);
  }

  /** The same registry, and the same instances owned by the same starts. */
  ghost predicate SameOwnership(s: State, t: State) {
    && t.generation == s.generation && t.instances == s.instances
    && |t.conns| == |s.conns| && |t.attempts| == |s.attempts|
    && (forall i :: 0 <= i < |s.conns| ==> t.conns[i].generation == s.conns[i].generation)
    && (forall k :: 0 <= k < |s.attempts| ==>
          t.attempts[k].owned == s.attempts[k].owned && t.attempts[k].generation == s.attempts[k].generation)
  }

  lemma OwnershipKept(s: State, t: State)
    requires RegistryOk(s) && AttemptsOk(s) && SameOwnership(s, t)
    ensures RegistryOk(t) && AttemptsOk(t)
    ensures Quiet(t) <==> Quiet(s)
  {
    forall i | i in Registered(t)
      ensures i < |t.conns| && t.conns[i].generation == t.generation
    {
      assert i in Registered(s);
    }
    forall k | 0 <= k < |t.attempts|
      ensures AttemptOk(t, t.attempts[k])
    {
      assert AttemptOk(s, s.attempts[k]);
    }
  }

  // ------------------------------------------------------------------- the steps

  lemma TeardownKeeps(s: State, generation: nat)
    requires Inv(s) && s.generation < generation
    ensures var t := TeardownAll(s.(generation := generation));
            Inv(t) && Quiet(t) && Registered(t) == {} && t.instances == JsMap([], map[])
  {
    var t := TeardownAll(s.(generation := generation));
    assert forall i :: 0 <= i < |s.conns| ==> t.conns[i].generation == s.conns[i].generation;
    forall k | 0 <= k < |t.attempts|
      ensures AttemptOk(t, t.attempts[k])
    {
      assert AttemptOk(s, s.attempts[k]);
    }
  }

  lemma LaunchConn(t: State, configs: seq<Config>, i: nat)
    requires i < |t.conns| + |configs|
    ensures var c := Launch(t, configs).conns[i];
            if i < |t.conns| then c == t.conns[i]
            else c.generation == t.generation
                 && ProgressOk(Attempt(t.generation, NewOwned(configs, |t.conns|), Servers, false), c)
  {
    NewOwnedIds(configs, |t.conns|);
  }

  lemma LaunchFacts(t: State, configs: seq<Config>)
    requires t.instances == JsMap([], map[]) && DistinctIds(configs)
    ensures var u := Launch(t, configs);
            && u.instances.Valid() && |u.conns| == |t.conns| + |configs|
            && Registered(u) == Owned(NewOwned(configs, |t.conns|))
            && (forall i :: i in Registered(u) <==> |t.conns| <= i < |u.conns|)
            && (forall i :: 0 <= i < |t.conns| ==> u.conns[i] == t.conns[i])
            && (forall i :: |t.conns| <= i < |u.conns| ==>
                  u.conns[i].generation == t.generation && ProgressOk(u.attempts[|t.attempts|], u.conns[i]))
  {
    var owned := NewOwned(configs, |t.conns|);
    NewOwnedIds(configs, |t.conns|);
    RegisterFacts(t.instances, owned);
    hide StartGroup, NewConns, ProgressOk, Owned;
    forall i: nat | i < |t.conns| + |configs|
      ensures var c := Launch(t, configs).conns[i];
              if i < |t.conns| then c == t.conns[i]
              else c.generation == t.generation && ProgressOk(Attempt(t.generation, owned, Servers, false), c)
    {
      LaunchConn(t, configs, i);
    }
  }

  lemma LaunchKeeps(t: State, configs: seq<Config>)
    requires Inv(t) && Quiet(t) && t.instances == JsMap([], map[]) && DistinctIds(configs)
    requires forall k :: 0 <= k < |t.attempts| ==> t.attempts[k].generation < t.generation
    ensures Inv(Launch(t, configs))
  {
    hide StartGroup, NewConns, NewOwned, Register, ProgressOk;
    var u := Launch(t, configs);
    LaunchFacts(t, configs);
    forall k | 0 <= k < |u.attempts|
      ensures AttemptOk(u, u.attempts[k])
    {
      if k < |t.attempts| {
        assert AttemptOk(t, t.attempts[k]);
      }
    }
    assert u.attempts[|t.attempts|].generation == u.generation;
  }

  lemma BeginKeeps(s: State, configs: Option<seq<Config>>)
    requires Inv(s) && (configs.Some? ==> DistinctIds(configs.value))
    ensures Inv(Begin(s, configs))
  {
    TeardownKeeps(s, s.generation + 1);
    var t := TeardownAll(s.(generation := s.generation + 1));
    forall k | 0 <= k < |t.attempts|
      ensures t.attempts[k].generation < t.generation
    {
      assert AttemptOk(s, s.attempts[k]);
    }
    hide Launch, TeardownAll;
    if configs.Some? {
      LaunchKeeps(t, configs.value);
    }
  }

  lemma SettleKeeps(s: State, c: nat, ok: bool)
    requires Inv(s) && Enabled(s, Settle(c, ok))
    ensures Inv(SettleStart(s, c, ok))
  {
    var t := SettleStart(s, c, ok);
    OwnershipKept(s, t);
    assert forall i :: 0 <= i < |s.conns| && Running(t.conns[i]) ==> Running(s.conns[i]);
    forall k, i | 0 <= k < |t.attempts| && t.attempts[k].generation == t.generation && i in Registered(t) && i < |t.conns|
      ensures ProgressOk(t.attempts[k], t.conns[i])
    {
      assert ProgressOk(s.attempts[k], s.conns[i]);
      assert AttemptOk(s, s.attempts[k]);
    }
  }

  lemma ServersDoneKeeps(s: State, k: nat)
    requires Inv(s) && Enabled(s, Resume(k)) && s.attempts[k].phase.Servers?
    ensures Inv(Continue(s, k))
  {
    var a := s.attempts[k];
    var t := Continue(s, k);
    assert AttemptOk(s, a);
    OwnershipKept(s, t);
    forall j, i | 0 <= j < |t.attempts| && t.attempts[j].generation == t.generation && i in Registered(t) && i < |t.conns|
      ensures ProgressOk(t.attempts[j], t.conns[i])
    {
      CurrentIsLast(s, j);
      assert ProgressOk(s.attempts[j], s.conns[i]);
    }
  }

  lemma ClientsDoneKeeps(s: State, k: nat)
    requires Inv(s) && Enabled(s, Resume(k)) && s.attempts[k].phase.Clients?
    ensures Inv(Continue(s, k))
  {
    var t := Continue(s, k);
    assert AttemptOk(s, s.attempts[k]);
    OwnershipKept(s, t);
    forall j, i | 0 <= j < |t.attempts| && t.attempts[j].generation == t.generation && i in Registered(t) && i < |t.conns|
      ensures ProgressOk(t.attempts[j], t.conns[i])
    {
      assert ProgressOk(s.attempts[j], s.conns[i]);
    }
  }

  lemma DropAttempt(s: State, k: nat)
    requires RegistryOk(s) && AttemptsOk(s) && k < |s.attempts|
    ensures AttemptsOk(s.(attempts := RemoveAt(s.attempts, k)))
    ensures Quiet(s.(attempts := RemoveAt(s.attempts, k))) <==>
              forall j :: 0 <= j < |s.attempts| && j != k ==> s.attempts[j].generation != s.generation
  {
    var t := s.(attempts := RemoveAt(s.attempts, k));
    forall j | 0 <= j < |t.attempts|
      ensures AttemptOk(t, t.attempts[j])
    {
      assert AttemptOk(s, s.attempts[if j < k then j else j + 1]);
    }
    forall j | 0 <= j < |s.attempts| && j != k
      ensures s.attempts[j] == t.attempts[if j < k then j else j - 1]
    {
    }
  }

  /** A superseded start ends: what it owned is not registered, so the registry is untouched. */
  lemma RollBackKeeps(s: State, k: nat)
    requires Inv(s) && k < |s.attempts| && s.attempts[k].phase.Finishing? && Superseded(s, s.attempts[k])
    ensures Inv(Continue(s, k))
    ensures Continue(s, k).instances == s.instances
    ensures forall i :: i in Registered(s) ==> Continue(s, k).conns[i] == s.conns[i]
  {
    hide Unregister;
    var a := s.attempts[k];
    var rest := s.(attempts := RemoveAt(s.attempts, k));
    var t := Continue(s, k);
    assert AttemptOk(s, a);
    UnregisterOthers(s.instances, a.owned);
    DropAttempt(s, k);
    OwnershipKept(rest, t);
    forall j, i | 0 <= j < |t.attempts| && t.attempts[j].generation == t.generation && i in Registered(t) && i < |t.conns|
      ensures ProgressOk(t.attempts[j], t.conns[i])
    {
      assert ProgressOk(s.attempts[if j < k then j else j + 1], s.conns[i]);
    }
  }

  lemma ConcludeKeeps(s: State, k: nat)
    requires Inv(s) && k < |s.attempts| && s.attempts[k].phase.Finishing? && !Superseded(s, s.attempts[k])
    ensures Inv(Continue(s, k))
  {
    var a := s.attempts[k];
    var rest := s.(attempts := RemoveAt(s.attempts, k));
    var t := Continue(s, k);
    CurrentIsLast(s, k);
    DropAttempt(s, k);
    assert Quiet(rest);
    assert forall i :: i in Registered(s) ==> ProgressOk(a, s.conns[i]);
    if a.error {
      forall j | 0 <= j < |t.attempts|
        ensures AttemptOk(t, t.attempts[j])
      {
        assert AttemptOk(rest, rest.attempts[j]);
      }
    }
  }

  /** One step of any kind keeps the invariant. */
  lemma StepKeeps(s: State, e: Event)
    requires Inv(s)
    ensures Inv(Step(s, e))
  {
    if Enabled(s, e) {
      match e
      case Start(configs) => BeginKeeps(s, configs);
      case Stop => TeardownKeeps(s, s.generation + 1);
      case Settle(c, ok) => SettleKeeps(s, c, ok);
      case Resume(k) =>
        match s.attempts[k].phase
        case Servers => ServersDoneKeeps(s, k);
        case Clients => ClientsDoneKeeps(s, k);
        case Finishing =>
          if Superseded(s, s.attempts[k]) {
            RollBackKeeps(s, k);
          } else {
            ConcludeKeeps(s, k);
          }
    }
  }

  lemma {:induction false} RunKeeps(s: State, es: seq<Event>)
    requires Inv(s)
    ensures Inv(Run(s, es))
    decreases |es|
  {
    if es == [] {
    } else {
      StepKeeps(s, es[0]);
      RunKeeps(Step(s, es[0]), es[1..]);
    }
  }

  /**
   * For every overlap of starts, stops and late completions: whatever runs is in the registry and
   * belongs to the newest start that no stop cancelled; and once no start is suspended, what runs
   * is exactly what is registered, all of it ready.
   */
  lemma EveryRunIsConsistent(es: seq<Event>)
    ensures var s := Run(Init, es);
            && (forall i :: i in Registered(s) ==> i < |s.conns| && s.conns[i].generation == s.generation)
            && (forall i :: 0 <= i < |s.conns| && Running(s.conns[i]) ==> i in Registered(s))
            && (s.attempts == [] ==>
                  forall i :: 0 <= i < |s.conns| ==>
                    (Running(s.conns[i]) <==> i in Registered(s)) &&
                    (i in Registered(s) ==> s.conns[i].status.Ready?))
  {
    assert Registered(Init) == {};
    RunKeeps(Init, es);
    var s := Run(Init, es);
    assert s.attempts == [] ==> Quiet(s);
  }

  /** The step makes instance `i` begin to start. */
  predicate Starts(s: State, e: Event, i: nat)
    requires i < |s.conns| <= |Step(s, e).conns|
  {
    !s.conns[i].awaited && Step(s, e).conns[i].awaited
  }

  /**
   * An existing client begins to start only when its own start resumes, not superseded, with every
   * server of that start settled; an existing server never begins to start again.
   */
  lemma ClientsStartAfterServers(s: State, e: Event, i: nat)
    requires Inv(s) && i < |s.conns| <= |Step(s, e).conns| && Starts(s, e, i)
    ensures !s.conns[i].server && e.Resume? && e.attempt < |s.attempts|
    ensures var a := s.attempts[e.attempt];
            && a.generation == s.generation == s.conns[i].generation && i in Owned(a.owned)
            && forall j :: j in Owned(a.owned) ==> j < |s.conns| && (s.conns[j].server ==> !s.conns[j].awaited)
  {
    match e
    case Start(configs) =>
      TeardownKeeps(s, s.generation + 1);
      var t := TeardownAll(s.(generation := s.generation + 1));
      if configs.Some? {
        NewOwnedIds(configs.value, |t.conns|);
      }
    case Stop =>
    case Settle(c, ok) =>
    case Resume(k) =>
      assert AttemptOk(s, s.attempts[k]);
  }
}
