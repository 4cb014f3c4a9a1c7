/** What each event does to the instances and the registry, and that every start comes to its end. */
module ManagerProgress {
  import opened Common
  import opened JsMap
  import opened Manager
  import opened ManagerSafety

  // ------------------------------------------------------------------- single events

  /** The registry holds exactly these connections, from position `base` on, each under its identifier. */
  ghost predicate Lists(m: JsMap<string, nat>, configs: seq<Config>, base: nat) {
    && (forall i :: 0 <= i < |configs| ==> m.Get(configs[i].id) == Some(base + i))
    && (forall k :: m.Has(k) ==> exists i :: 0 <= i < |configs| && configs[i].id == k)
  }

  lemma {:induction false} RegisterLists(m: JsMap<string, nat>, owned: seq<(string, nat)>)
    requires forall i, j :: 0 <= i < j < |owned| ==> owned[i].0 != owned[j].0
    ensures forall i :: 0 <= i < |owned| ==> Register(m, owned).Get(owned[i].0) == Some(owned[i].1)
    ensures forall k :: (forall i :: 0 <= i < |owned| ==> owned[i].0 != k) ==> Register(m, owned).Get(k) == m.Get(k)
    decreases |owned|
  {
    if owned != [] {
      var n := m.Set(owned[0].0, owned[0].1);
      RegisterLists(n, owned[1..]);
      assert forall i :: 0 < i < |owned| ==> owned[i] == owned[1..][i - 1];
      assert Register(m, owned) == Register(n, owned[1..]);
      assert forall i :: 0 <= i < |owned| - 1 ==> owned[1..][i].0 != owned[0].0;
    }
  }

  lemma NotOwned(configs: seq<Config>, base: nat, k: string)
    requires DistinctIds(configs) && forall i :: 0 <= i < |configs| ==> configs[i].id != k
    ensures !Register(JsMap([], map[]), NewOwned(configs, base)).Has(k)
  {
    var owned, m := NewOwned(configs, base), Empty<string, nat>();
    RegisterLists(m, owned);
    assert Register(m, owned).Get(k) == m.Get(k);
  }

  lemma NewOwnedLists(configs: seq<Config>, base: nat)
    requires DistinctIds(configs)
    ensures Lists(Register(JsMap([], map[]), NewOwned(configs, base)), configs, base)
  {
    var owned, m := NewOwned(configs, base), Empty<string, nat>();
    RegisterLists(m, owned);
    var r := Register(m, owned);
    forall i | 0 <= i < |configs|
      ensures r.Get(configs[i].id) == Some(base + i)
    {
      assert owned[i] == (configs[i].id, base + i);
    }
    forall k | r.Has(k)
      ensures exists i :: 0 <= i < |configs| && configs[i].id == k
    {
      if forall i :: 0 <= i < |configs| ==> configs[i].id != k {
        NotOwned(configs, base, k);
      }
    }
  }

  predicate IsNew(c: Conn, config: Config, generation: nat) {
    && c.server == config.server && c.valid == config.valid && c.generation == generation && c.awaited == config.server
    && c.status == (if !config.server then Created else if config.valid then Starting else Stopped)
  }

  lemma LaunchedConn(t: State, configs: seq<Config>, i: nat)
    requires i < |t.conns| + |configs|
    ensures var c := Launch(t, configs).conns[i];
            if i < |t.conns| then c == t.conns[i] else IsNew(c, configs[i - |t.conns|], t.generation)
  {
    NewOwnedIds(configs, |t.conns|);
    hide Owned, NewOwned, Register;
  }

  lemma LaunchFrame(t: State, configs: seq<Config>)
    ensures var u := Launch(t, configs);
            && |u.conns| == |t.conns| + |configs| && u.generation == t.generation
            && u.attempts == t.attempts + [Attempt(t.generation, NewOwned(configs, |t.conns|), Servers, false)]
            && u.instances == Register(t.instances, NewOwned(configs, |t.conns|))
  {
    hide NewOwned, Register, Owned;
  }

  lemma LaunchedConns(t: State, configs: seq<Config>)
    ensures var u := Launch(t, configs);
            && |u.conns| == |t.conns| + |configs| && u.generation == t.generation
            && (forall i :: 0 <= i < |configs| ==> IsNew(u.conns[|t.conns| + i], configs[i], t.generation))
            && (forall i :: 0 <= i < |t.conns| ==> u.conns[i] == t.conns[i])
            && u.attempts == t.attempts + [Attempt(t.generation, NewOwned(configs, |t.conns|), Servers, false)]
            && u.instances == Register(t.instances, NewOwned(configs, |t.conns|))
  {
    hide Launch, IsNew, NewOwned, Register, StartGroup, NewConns, Owned;
    LaunchFrame(t, configs);
    var u := Launch(t, configs);
    forall i | 0 <= i < |configs|
      ensures IsNew(u.conns[|t.conns| + i], configs[i], t.generation)
    {
      LaunchedConn(t, configs, |t.conns| + i);
    }
    forall i | 0 <= i < |t.conns|
      ensures u.conns[i] == t.conns[i]
    {
      LaunchedConn(t, configs, i);
    }
  }

  lemma TornDown(s: State)
    ensures var t := TeardownAll(s.(generation := s.generation + 1));
            && t.generation == s.generation + 1 && t.instances == JsMap([], map[]) && t.attempts == s.attempts
            && |t.conns| == |s.conns|
            && forall i :: 0 <= i < |s.conns| ==>
                 t.conns[i] == if i in Registered(s) then s.conns[i].(status := Stopped) else s.conns[i]
  {
  }

  /**
   * A start stops what is registered, registers one new instance for each connection under its identifier and nothing
   * else, and begins to start the servers among them, not yet the clients.
   */
  lemma StartLaunches(s: State, configs: seq<Config>)
    requires Inv(s) && DistinctIds(configs)
    ensures var t, base := Step(s, Start(Some(configs))), |s.conns|;
            && t.generation == s.generation + 1 && |t.conns| == base + |configs|
            && (forall i :: 0 <= i < |configs| ==> IsNew(t.conns[base + i], configs[i], s.generation + 1))
            && (forall i :: 0 <= i < base ==>
                  t.conns[i] == if i in Registered(s) then s.conns[i].(status := Stopped) else s.conns[i])
            && Lists(t.instances, configs, base)
            && t.attempts == s.attempts + [Attempt(s.generation + 1, NewOwned(configs, base), Servers, false)]
            && Owned(NewOwned(configs, base)) == Registered(t)
            && forall i :: i in Registered(t) <==> base <= i < base + |configs|
  {
    var d := TeardownAll(s.(generation := s.generation + 1));
    assert Step(s, Start(Some(configs))) == Launch(d, configs);
    hide Lists, Register, Launch, TeardownAll, IsNew, NewOwned, Step, Inv, DistinctIds, ProgressOk, Owned;
    TornDown(s);
    NewOwnedLists(configs, |s.conns|);
    LaunchedConns(d, configs);
    LaunchedOwned(d, configs);
  }

  lemma LaunchedOwned(t: State, configs: seq<Config>)
    requires t.instances == JsMap([], map[]) && DistinctIds(configs)
    ensures var u := Launch(t, configs);
            && Owned(NewOwned(configs, |t.conns|)) == Registered(u)
            && forall i :: i in Registered(u) <==> |t.conns| <= i < |t.conns| + |configs|
  {
    LaunchFacts(t, configs);
    hide Launch, Owned;
  }

  /** A stop, or a start with options that are rejected, stops every registered instance and empties the registry. */
  lemma StopTakesDown(s: State, e: Event)
    requires e.Stop? || (e.Start? && e.configs == None)
    ensures var t := Step(s, e);
            && t.generation == s.generation + 1 && t.instances == JsMap([], map[]) && t.attempts == s.attempts
            && |t.conns| == |s.conns|
            && forall i :: 0 <= i < |s.conns| ==>
                 t.conns[i] == if i in Registered(s) then s.conns[i].(status := Stopped) else s.conns[i]
  {
  }

  /** A start promise that settles: success makes a starting instance ready, failure stops it and is noted by its start. */
  lemma SettleTells(s: State, c: nat, ok: bool)
    requires Enabled(s, Settle(c, ok))
    ensures var t := Step(s, Settle(c, ok));
            && t.generation == s.generation && t.instances == s.instances && |t.conns| == |s.conns|
            && t.conns[c] == s.conns[c].(awaited := false, status := if !ok then Stopped
                                                                     else if s.conns[c].status == Starting then Ready
                                                                     else s.conns[c].status)
            && (forall i :: 0 <= i < |s.conns| && i != c ==> t.conns[i] == s.conns[i])
            && |t.attempts| == |s.attempts|
            && forall k :: 0 <= k < |s.attempts| ==>
                 t.attempts[k] == s.attempts[k].(error := s.attempts[k].error || (!ok && c in Owned(s.attempts[k].owned)))
  {
  }

  /**
   * The newest start whose servers have settled begins to start its clients, all of them and nothing else; a superseded
   * one starts nothing.
   */
  lemma ServersDone(s: State, k: nat)
    requires Inv(s) && Enabled(s, Resume(k)) && s.attempts[k].phase.Servers?
    ensures var a, t := s.attempts[k], Step(s, Resume(k));
            && t.generation == s.generation && t.instances == s.instances && |t.conns| == |s.conns|
            && (a.generation != s.generation ==> t.conns == s.conns && t.attempts == s.attempts[k := a.(phase := Finishing)])
            && (a.generation == s.generation ==>
                  && t.attempts == s.attempts[k := a.(phase := Clients)]
                  && forall i :: 0 <= i < |s.conns| ==>
                       t.conns[i] == if i in Owned(a.owned) && !s.conns[i].server
                                     then s.conns[i].(status := if s.conns[i].valid then Starting else Stopped, awaited := true)
                                     else s.conns[i])
  {
    var a := s.attempts[k];
    assert AttemptOk(s, a);
    if a.generation == s.generation {
      forall i | 0 <= i < |s.conns| && i in Owned(a.owned) && !s.conns[i].server
        ensures s.conns[i].status.Created?
      {
        assert ProgressOk(a, s.conns[i]);
      }
    }
  }

  /** The end of a start: superseded, it stops what it owns; failed, it takes everything down; else it leaves all as it is. */
  lemma StartEnds(s: State, k: nat)
    requires Inv(s) && Enabled(s, Resume(k)) && s.attempts[k].phase.Finishing?
    ensures var a, t := s.attempts[k], Step(s, Resume(k));
            && t.generation == s.generation && t.attempts == s.attempts[..k] + s.attempts[k + 1..] && |t.conns| == |s.conns|
            && (if a.generation != s.generation
                then t.instances == s.instances
                     && forall i :: 0 <= i < |s.conns| ==>
                          t.conns[i] == if i in Owned(a.owned) then s.conns[i].(status := Stopped) else s.conns[i]
                else if a.error
                then t.instances == JsMap([], map[])
                     && forall i :: 0 <= i < |s.conns| ==>
                          t.conns[i] == if i in Registered(s) then s.conns[i].(status := Stopped) else s.conns[i]
                else t.conns == s.conns && t.instances == s.instances)
  {
    if Superseded(s, s.attempts[k]) {
      RollBackKeeps(s, k);
      hide Unregister;
    }
  }

  lemma ClientsDone(s: State, k: nat)
    requires Enabled(s, Resume(k)) && s.attempts[k].phase.Clients?
    ensures Step(s, Resume(k)) == s.(attempts := s.attempts[k := s.attempts[k].(phase := Finishing)])
  {
  }

  // ----------------------------------------------------------------------- whole starts

  /** Only completions and resumptions, and none of an instance from `base` on fails. */
  predicate Peaceful(es: seq<Event>, base: nat) {
    forall e: Event | e in es :: e.Resume? || (e.Settle? && (e.ok || e.conn < base))
  }

  /** The newest start is under way or has ended, without a failure so far, and has the registry `m`. */
  ghost predicate OnCourse(s: State, generation: nat, m: JsMap<string, nat>, base: nat) {
    && Inv(s) && s.generation == generation && s.instances == m && (forall i :: i in m.vals.Values ==> base <= i)
    && forall k :: 0 <= k < |s.attempts| && s.attempts[k].generation == generation ==> !s.attempts[k].error
  }

  lemma OneOnCourseEnds(s: State, k: nat, generation: nat, m: JsMap<string, nat>, base: nat)
    requires OnCourse(s, generation, m, base) && Enabled(s, Resume(k)) && s.attempts[k].phase.Finishing? && Inv(Step(s, Resume(k)))
    ensures OnCourse(Step(s, Resume(k)), generation, m, base)
  {
    StartEnds(s, k);
    var t := Step(s, Resume(k));
    hide Step, Inv, Enabled;
    assert t.instances == s.instances;
    assert forall j :: 0 <= j < |t.attempts| ==> t.attempts[j] == s.attempts[if j < k then j else j + 1];
  }

  /** A failure of an older instance is no failure of the newest start. */
  lemma OlderFailure(s: State, c: nat, generation: nat, m: JsMap<string, nat>, base: nat)
    requires OnCourse(s, generation, m, base) && c < base
    ensures forall k :: 0 <= k < |s.attempts| && s.attempts[k].generation == generation ==> c !in Owned(s.attempts[k].owned)
  {
    forall k | 0 <= k < |s.attempts| && s.attempts[k].generation == generation
      ensures c !in Owned(s.attempts[k].owned)
    {
      assert AttemptOk(s, s.attempts[k]);
    }
  }

  lemma PeacefulStep(s: State, e: Event, generation: nat, m: JsMap<string, nat>, base: nat)
    requires OnCourse(s, generation, m, base) && (e.Resume? || (e.Settle? && (e.ok || e.conn < base)))
    ensures OnCourse(Step(s, e), generation, m, base)
  {
    StepKeeps(s, e);
    if Enabled(s, e) {
      match e
      case Settle(c, ok) =>
        SettleTells(s, c, ok);
        if c < base {
          OlderFailure(s, c, generation, m, base);
        }
        hide Step, Inv, Owned;
      case Resume(k) =>
        match s.attempts[k].phase
        case Servers =>
          ServersDone(s, k);
          hide Step, Inv;
        case Clients =>
          ClientsDone(s, k);
          hide Step, Inv;
        case Finishing => OneOnCourseEnds(s, k, generation, m, base);
    }
  }

  lemma {:induction false} PeacefulRun(s: State, es: seq<Event>, generation: nat, m: JsMap<string, nat>, base: nat)
    requires OnCourse(s, generation, m, base) && Peaceful(es, base)
    ensures OnCourse(Run(s, es), generation, m, base)
    decreases |es|
  {
    hide OnCourse, Step;
    if es != [] {
      assert es[0] in es && Peaceful(es[1..], base);
      PeacefulStep(s, es[0], generation, m, base);
      PeacefulRun(Step(s, es[0]), es[1..], generation, m, base);
    }
  }

  /** No start is under way that owns the registry. */
  predicate Settled(s: State) {
    forall k :: 0 <= k < |s.attempts| ==> s.attempts[k].generation != s.generation
  }

  /**
   * A start that no other start or stop interrupts and none of whose instances fails ends with all its connections
   * registered and ready, whatever older starts are still under way and however completions interleave.
   */
  lemma StartBringsAllUp(before: seq<Event>, configs: seq<Config>, es: seq<Event>)
    requires DistinctIds(configs)
    requires var s := Run(Init, before); Peaceful(es, |s.conns|) && Settled(Run(Step(s, Start(Some(configs))), es))
    ensures var s := Run(Init, before);
            var u := Run(Step(s, Start(Some(configs))), es);
            && Lists(u.instances, configs, |s.conns|)
            && forall k :: u.instances.Has(k) ==> IsUp(u, u.instances.vals[k])
  {
    assert Registered(Init) == {};
    RunKeeps(Init, before);
    var s, base := Run(Init, before), |Run(Init, before).conns|;
    var t := Step(s, Start(Some(configs)));
    StartLaunches(s, configs);
    StepKeeps(s, Start(Some(configs)));
    StartIsOnCourse(s, configs);
    PeacefulRun(t, es, t.generation, t.instances, base);
    AllAreUp(Run(t, es));
    hide Step, Run, Lists, Inv;
  }

  predicate IsUp(s: State, i: nat) {
    i < |s.conns| && s.conns[i].status.Ready?
  }

  lemma AllAreUp(s: State)
    requires Inv(s) && Settled(s)
    ensures forall k :: s.instances.Has(k) ==> IsUp(s, s.instances.vals[k])
  {
    forall k | s.instances.Has(k)
      ensures IsUp(s, s.instances.vals[k])
    {
      assert s.instances.vals[k] in Registered(s);
    }
  }

  lemma OlderAreOlder(s: State)
    requires Inv(s)
    ensures forall k :: 0 <= k < |s.attempts| ==> s.attempts[k].generation <= s.generation
  {
    assert forall k :: 0 <= k < |s.attempts| ==> AttemptOk(s, s.attempts[k]);
  }

  lemma StartIsOnCourse(s: State, configs: seq<Config>)
    requires Inv(s) && DistinctIds(configs)
    ensures var t := Step(s, Start(Some(configs))); OnCourse(t, t.generation, t.instances, |s.conns|)
  {
    StartLaunches(s, configs);
    StepKeeps(s, Start(Some(configs)));
    OlderAreOlder(s);
    hide Step, Inv, Lists, IsNew;
  }

  /** The newest start has seen a failure; or it has ended, and nothing is registered. */
  ghost predicate Failing(s: State) {
    && Inv(s)
    && if Settled(s) then Registered(s) == {}
       else forall k :: 0 <= k < |s.attempts| && s.attempts[k].generation == s.generation ==> s.attempts[k].error
  }

  /** The same starts with the same registry, their errors at most added to. */
  lemma StillFailing(s: State, t: State)
    requires Failing(s) && Inv(t) && t.generation == s.generation && t.instances == s.instances && |t.attempts| == |s.attempts|
    requires forall k :: 0 <= k < |s.attempts| ==>
               t.attempts[k].generation == s.attempts[k].generation && (s.attempts[k].error ==> t.attempts[k].error)
    ensures Failing(t)
  {
    hide Inv;
    if k :| 0 <= k < |s.attempts| && s.attempts[k].generation == s.generation {
      assert t.attempts[k].generation == t.generation;
    }
  }

  /** Another start goes on: the newest one has still failed. */
  lemma OtherEnds(s: State, t: State, k: nat)
    requires Failing(s) && Inv(t) && k < |s.attempts| && s.attempts[k].generation != s.generation
    requires t.generation == s.generation && t.instances == s.instances && t.attempts == s.attempts[..k] + s.attempts[k + 1..]
    ensures Failing(t)
  {
    hide Inv;
    if j :| 0 <= j < |s.attempts| && s.attempts[j].generation == s.generation {
      assert t.attempts[if j < k then j else j - 1] == s.attempts[j];
    }
    assert forall j :: 0 <= j < |t.attempts| ==> t.attempts[j] == s.attempts[if j < k then j else j + 1];
  }

  lemma OneFailingEnds(s: State, k: nat)
    requires Failing(s) && Enabled(s, Resume(k)) && s.attempts[k].phase.Finishing? && Inv(Step(s, Resume(k)))
    ensures Failing(Step(s, Resume(k)))
  {
    StartEnds(s, k);
    var t := Step(s, Resume(k));
    if s.attempts[k].generation == s.generation {
      CurrentIsLast(s, k);
      DropAttempt(s, k);
      assert t.attempts == RemoveAt(s.attempts, k);
      assert s.attempts[k].error && Registered(t) == {};
      assert forall j :: 0 <= j < |s.attempts| && j != k ==> s.attempts[j].generation < s.generation;
      hide Step, Inv, Enabled;
    } else {
      hide Step, Inv, Enabled;
      OtherEnds(s, t, k);
    }
  }

  lemma FailingStep(s: State, e: Event)
    requires Failing(s) && (e.Resume? || e.Settle?)
    ensures Failing(Step(s, e))
  {
    StepKeeps(s, e);
    if Enabled(s, e) {
      match e
      case Settle(c, ok) =>
        SettleTells(s, c, ok);
        hide Inv, Step;
        StillFailing(s, Step(s, e));
      case Resume(k) =>
        match s.attempts[k].phase
        case Servers =>
          ServersDone(s, k);
          hide Inv, Step;
          StillFailing(s, Step(s, e));
        case Clients =>
          ClientsDone(s, k);
          hide Inv, Step;
          StillFailing(s, Step(s, e));
        case Finishing => OneFailingEnds(s, k);
    }
  }

  lemma {:induction false} FailingRun(s: State, es: seq<Event>)
    requires Failing(s) && forall e: Event | e in es :: e.Resume? || e.Settle?
    ensures Failing(Run(s, es))
    decreases |es|
  {
    hide Failing, Step;
    if es != [] {
      assert es[0] in es;
      FailingStep(s, es[0]);
      FailingRun(Step(s, es[0]), es[1..]);
    }
  }

  /** Once one of its instances has failed, a start that nothing interrupts ends with nothing registered and nothing running. */
  lemma FailedStartTakesAllDown(s: State, c: nat, es: seq<Event>)
    requires Inv(s) && !Settled(s) && c in Registered(s) && Enabled(s, Settle(c, false))
    requires forall e: Event | e in es :: e.Resume? || e.Settle?
    requires Settled(Run(Step(s, Settle(c, false)), es))
    ensures var u := Run(Step(s, Settle(c, false)), es);
            Registered(u) == {} && forall i :: 0 <= i < |u.conns| ==> !Running(u.conns[i])
  {
    SettleTells(s, c, false);
    StepKeeps(s, Settle(c, false));
    assert forall k :: 0 <= k < |s.attempts| ==> AttemptOk(s, s.attempts[k]);
    FailingRun(Step(s, Settle(c, false)), es);
  }

  // ------------------------------------------------------------------------- progress

  /** While a start is under way some completion is due or some start can go on. */
  lemma SomethingIsDue(s: State)
    requires s.attempts != []
    ensures exists e: Event :: (e.Resume? || e.Settle?) && Enabled(s, e)
  {
    if GroupSettled(s, s.attempts[0]) {
      assert Enabled(s, Resume(0));
    } else {
      var i :| 0 <= i < |s.conns| && i in Owned(s.attempts[0].owned) && s.conns[i].awaited;
      assert Enabled(s, Settle(i, false));
    }
  }

  function AwaitedCount(conns: seq<Conn>): nat {
    if conns == [] then 0 else AwaitedCount(conns[..|conns| - 1]) + (if conns[|conns| - 1].awaited then 1 else 0)
  }

  lemma {:induction false} AwaitedAtMost(conns: seq<Conn>)
    ensures AwaitedCount(conns) <= |conns|
  {
    if conns != [] {
      AwaitedAtMost(conns[..|conns| - 1]);
    }
  }

  lemma {:induction false} AwaitedSame(xs: seq<Conn>, ys: seq<Conn>)
    requires |xs| == |ys| && forall i :: 0 <= i < |xs| ==> xs[i].awaited == ys[i].awaited
    ensures AwaitedCount(xs) == AwaitedCount(ys)
  {
    if xs != [] {
      AwaitedSame(xs[..|xs| - 1], ys[..|ys| - 1]);
    }
  }

  lemma {:induction false} OneLessAwaited(xs: seq<Conn>, ys: seq<Conn>, c: nat)
    requires |xs| == |ys| && c < |xs| && xs[c].awaited && !ys[c].awaited
    requires forall i :: 0 <= i < |xs| && i != c ==> xs[i].awaited == ys[i].awaited
    ensures AwaitedCount(ys) + 1 == AwaitedCount(xs)
  {
    var n := |xs| - 1;
    if c == n {
      AwaitedSame(xs[..n], ys[..n]);
    } else {
      OneLessAwaited(xs[..n], ys[..n], c);
    }
  }

  /** How many resumptions the starts under way still need. */
  function StepsLeft(attempts: seq<Attempt>): nat {
    if attempts == [] then 0
    else StepsLeft(attempts[..|attempts| - 1])
         + (match attempts[|attempts| - 1].phase case Servers => 3 case Clients => 2 case Finishing => 1)
  }

  lemma {:induction false} StepsAppend(a: seq<Attempt>, b: seq<Attempt>)
    ensures StepsLeft(a + b) == StepsLeft(a) + StepsLeft(b)
    decreases |b|
  {
    if b == [] {
      assert a + b == a;
    } else {
      assert (a + b)[..|a + b| - 1] == a + b[..|b| - 1];
      StepsAppend(a, b[..|b| - 1]);
    }
  }

  lemma StepsAt(attempts: seq<Attempt>, k: nat, with: seq<Attempt>)
    requires k < |attempts|
    ensures StepsLeft(attempts[..k] + with + attempts[k + 1..]) + StepsLeft([attempts[k]]) == StepsLeft(attempts) + StepsLeft(with)
  {
    assert attempts == attempts[..k] + ([attempts[k]] + attempts[k + 1..]);
    StepsAppend(attempts[..k], [attempts[k]] + attempts[k + 1..]);
    StepsAppend([attempts[k]], attempts[k + 1..]);
    StepsAppend(attempts[..k] + with, attempts[k + 1..]);
    StepsAppend(attempts[..k], with);
  }

  lemma {:induction false} StepsOfPhases(a: seq<Attempt>, b: seq<Attempt>)
    requires |a| == |b| && forall i :: 0 <= i < |a| ==> a[i].phase == b[i].phase
    ensures StepsLeft(a) == StepsLeft(b)
  {
    if a != [] {
      StepsOfPhases(a[..|a| - 1], b[..|b| - 1]);
    }
  }

  function Rank(s: State): nat {
    StepsLeft(s.attempts) * (|s.conns| + 1) + AwaitedCount(s.conns)
  }

  lemma OneStepOf(a: Attempt)
    ensures StepsLeft([a]) == match a.phase case Servers => 3 case Clients => 2 case Finishing => 1
  {
    assert [a][..0] == [];
  }

  lemma ResumeSteps(s: State, k: nat)
    requires Inv(s) && Enabled(s, Resume(k))
    ensures var t := Step(s, Resume(k)); |t.conns| == |s.conns| && StepsLeft(t.attempts) < StepsLeft(s.attempts)
  {
    hide Inv, Step, StepsLeft, Owned;
    var a, t := s.attempts[k], Step(s, Resume(k));
    match a.phase
    case Finishing =>
      StartEnds(s, k);
      StepsAt(s.attempts, k, []);
      assert s.attempts[..k] + [] + s.attempts[k + 1..] == t.attempts;
      OneStepOf(a);
      NoSteps();
    case Servers =>
      ServersDone(s, k);
      NextPhase(s, t, k);
    case Clients =>
      ClientsDone(s, k);
      NextPhase(s, t, k);
  }

  lemma NoSteps()
    ensures StepsLeft([]) == 0
  {
  }

  lemma NextPhase(s: State, t: State, k: nat)
    requires k < |s.attempts| == |t.attempts| && t.attempts == s.attempts[k := t.attempts[k]]
    requires StepsLeft([t.attempts[k]]) < StepsLeft([s.attempts[k]])
          || (t.attempts[k].phase.Finishing? && !s.attempts[k].phase.Finishing?)
          || (t.attempts[k].phase.Clients? && s.attempts[k].phase.Servers?)
    ensures StepsLeft(t.attempts) < StepsLeft(s.attempts)
  {
    OneStepOf(s.attempts[k]);
    OneStepOf(t.attempts[k]);
    StepsAt(s.attempts, k, [t.attempts[k]]);
    assert s.attempts[..k] + [t.attempts[k]] + s.attempts[k + 1..] == t.attempts;
  }

  lemma Product(a: nat, b: nat, m: nat)
    requires a <= b
    ensures a * m <= b * m
  {
    assert 0 <= (b - a) * m;
  }

  lemma RankFalls(steps: nat, steps': nat, n: nat, awaited: nat, awaited': nat)
    requires awaited' <= n && (steps' < steps || (steps' == steps && awaited' < awaited))
    ensures steps' * (n + 1) + awaited' < steps * (n + 1) + awaited
  {
    if steps' < steps {
      Product(steps' + 1, steps, n + 1);
      assert (steps' + 1) * (n + 1) == steps' * (n + 1) + (n + 1);
    }
  }

  /** Every completion and every resumption brings the starts under way closer to their ends. */
  lemma EventsAreProgress(s: State, e: Event)
    requires Inv(s) && Enabled(s, e) && (e.Resume? || e.Settle?)
    ensures Rank(Step(s, e)) < Rank(s)
  {
    hide Inv, Step, StepsLeft, AwaitedCount, GroupSettled, Owned;
    var t := Step(s, e);
    AwaitedAtMost(t.conns);
    match e
    case Settle(c, ok) =>
      SettleTells(s, c, ok);
      assert |t.attempts| == |s.attempts|;
      OneLessAwaited(s.conns, t.conns, c);
      StepsOfPhases(s.attempts, t.attempts);
      RankFalls(StepsLeft(s.attempts), StepsLeft(t.attempts), |s.conns|, AwaitedCount(s.conns), AwaitedCount(t.conns));
    case Resume(k) =>
      ResumeSteps(s, k);
      RankFalls(StepsLeft(s.attempts), StepsLeft(t.attempts), |s.conns|, AwaitedCount(s.conns), AwaitedCount(t.conns));
  }
}
