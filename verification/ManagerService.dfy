/** The manager as an object: identifiers, the registry and the instances updated in place. */
module ManagerService {
  import opened Common
  import opened JsMap
  import opened Decimal
  import opened Manager
  import opened ManagerSafety

  // ---------------------------------------------------------------- identifiers

  function Suffixed(base: string, n: nat): string {
    base + "-" + Dec(n)
  }

  lemma SuffixedInjective(base: string, m: nat, n: nat)
    requires Suffixed(base, m) == Suffixed(base, n)
    ensures m == n
  {
    assert Dec(m) == Suffixed(base, m)[|base| + 1..];
    assert Dec(n) == Suffixed(base, n)[|base| + 1..];
    DecInjective(m, n);
  }

  ghost predicate LeastFreeSuffix(base: string, used: set<string>, n: nat) {
    n >= 1 && Suffixed(base, n) !in used && forall m: nat :: 1 <= m < n ==> Suffixed(base, m) in used
  }

  /** The base itself, or the base with the least positive number that makes it unused. */
  ghost predicate IsInstanceId(base: string, used: set<string>, id: string) {
    if base !in used then id == base
    else exists n: nat :: LeastFreeSuffix(base, used, n) && id == Suffixed(base, n)
  }

  /** Terminates because a finite set of used identifiers cannot hold every suffix. */
  method GenerateInstanceId(base: string, used: set<string>) returns (id: string)
    ensures IsInstanceId(base, used, id)
  {
    if base !in used {
      return base;
    }
    var n := 1;
    ghost var left := used;
    while Suffixed(base, n) in used
      invariant n >= 1
      invariant forall m: nat :: 1 <= m < n ==> Suffixed(base, m) in used
      invariant forall m: nat :: m >= n && Suffixed(base, m) in used ==> Suffixed(base, m) in left
      decreases left
    {
      ghost var id := Suffixed(base, n);
      forall m: nat | m > n && Suffixed(base, m) in used
        ensures Suffixed(base, m) in left - {id}
      {
        if Suffixed(base, m) == id {
          SuffixedInjective(base, m, n);
        }
      }
      left := left - {id};
      n := n + 1;
    }
    id := Suffixed(base, n);
    assert LeastFreeSuffix(base, used, n);
  }

  function Ids(configs: seq<Config>): set<string> {
    set c | c in configs :: c.id
  }

  /** Every connection gets an identifier of its own, so none of a start's instances is lost. */
  method AssignIds(bases: seq<string>, servers: seq<bool>, valid: seq<bool>) returns (configs: seq<Config>)
    requires |bases| == |servers| == |valid|
    ensures |configs| == |bases| && DistinctIds(configs)
    ensures forall i :: 0 <= i < |configs| ==> configs[i].server == servers[i] && configs[i].valid == valid[i]
    ensures AreInstanceIds(bases, configs)
  {
    configs := [];
    var used: set<string> := {};
    for i := 0 to |bases|
      invariant |configs| == i && used == Ids(configs)
      invariant DistinctIds(configs)
      invariant forall k :: 0 <= k < i ==> configs[k].server == servers[k] && configs[k].valid == valid[k]
      invariant AreInstanceIds(bases[..i], configs)
    {
      hide IsInstanceId, AreInstanceIds, Ids, DistinctIds;
      var id := GenerateInstanceId(bases[i], used);
      AddId(bases[..i], configs, bases[i], Config(id, servers[i], valid[i]));
      assert bases[..i + 1] == bases[..i] + [bases[i]];
      configs := configs + [Config(id, servers[i], valid[i])];
      used := used + {id};
    }
    assert bases[..|bases|] == bases;
  }

  ghost predicate AreInstanceIds(bases: seq<string>, configs: seq<Config>) {
    |configs| == |bases| && forall i :: 0 <= i < |configs| ==> IsInstanceId(bases[i], Ids(configs[..i]), configs[i].id)
  }

  lemma AddId(bases: seq<string>, configs: seq<Config>, base: string, c: Config)
    requires AreInstanceIds(bases, configs) && DistinctIds(configs) && IsInstanceId(base, Ids(configs), c.id)
    ensures AreInstanceIds(bases + [base], configs + [c]) && DistinctIds(configs + [c])
    ensures Ids(configs + [c]) == Ids(configs) + {c.id}
  {
    hide IsInstanceId;
    FreshId(base, configs, c.id);
    var next := configs + [c];
    assert next[..|configs|] == configs;
    assert forall k :: 0 <= k < |configs| ==> next[..k] == configs[..k];
  }

  lemma FreshId(base: string, configs: seq<Config>, id: string)
    requires IsInstanceId(base, Ids(configs), id)
    ensures forall k :: 0 <= k < |configs| ==> configs[k].id != id
  {
    assert forall k :: 0 <= k < |configs| ==> configs[k].id in Ids(configs);
  }

  // ------------------------------------------------------------------ the object

  /** The registered instances in registration order. */
  function InOrder(m: JsMap<string, nat>): (ids: seq<nat>)
    requires m.Valid()
    ensures |ids| == |m.order|
  {
    seq(|m.order|, i requires 0 <= i < |m.order| => assert m.order[i] in Elements(m.order); m.vals[m.order[i]])
  }

  lemma OrderCoversValues(m: JsMap<string, nat>)
    requires m.Valid()
    ensures Elements(InOrder(m)) == m.vals.Values
  {
    forall v | v in m.vals.Values
      ensures v in InOrder(m)
    {
      var k :| k in m.vals && m.vals[k] == v;
      assert k in Elements(m.order);
      var i :| 0 <= i < |m.order| && m.order[i] == k;
      assert InOrder(m)[i] == v;
    }
    forall v | v in InOrder(m)
      ensures v in m.vals.Values
    {
      var i :| 0 <= i < |m.order| && InOrder(m)[i] == v;
      assert m.order[i] in Elements(m.order);
    }
  }

  lemma {:induction false} RegisterSnoc(m: JsMap<string, nat>, owned: seq<(string, nat)>, x: (string, nat))
    ensures Register(m, owned + [x]) == Register(m, owned).Set(x.0, x.1)
    decreases |owned|
  {
    if owned == [] {
      assert [x][1..] == [];
    } else {
      assert (owned + [x])[1..] == owned[1..] + [x];
      RegisterSnoc(m.Set(owned[0].0, owned[0].1), owned[1..], x);
    }
  }

  lemma {:induction false} UnregisterStep(m: JsMap<string, nat>, owned: seq<(string, nat)>, x: (string, nat))
    ensures Unregister(m, owned + [x])
         == var n := Unregister(m, owned); if n.Get(x.0) == Some(x.1) then n.Delete(x.0) else n
    decreases |owned|
  {
    if owned == [] {
      assert [x][1..] == [];
    } else {
      assert (owned + [x])[1..] == owned[1..] + [x];
      UnregisterStep(if m.Get(owned[0].0) == Some(owned[0].1) then m.Delete(owned[0].0) else m, owned[1..], x);
    }
  }

  lemma NoneCreated(base: nat, generation: nat)
    ensures NewOwned([], base) == [] && NewConns([], generation) == []
  {
  }

  lemma RegisterNone(m: JsMap<string, nat>)
    ensures Register(m, []) == m
  {
  }

  lemma OneCreated(configs: seq<Config>, c: Config, base: nat, generation: nat)
    ensures NewOwned(configs + [c], base) == NewOwned(configs, base) + [(c.id, base + |configs|)]
    ensures NewConns(configs + [c], generation)
         == NewConns(configs, generation) + [Conn(c.server, c.valid, Created, false, generation)]
  {
  }

  function Instances(owned: seq<(string, nat)>): (ids: seq<nat>)
    ensures |ids| == |owned|
  {
    seq(|owned|, i requires 0 <= i < |owned| => owned[i].1)
  }

  lemma InstancesAreOwned(owned: seq<(string, nat)>)
    ensures Elements(Instances(owned)) == Owned(owned)
  {
    forall v | v in Owned(owned)
      ensures v in Instances(owned)
    {
      var x :| x in owned && x.1 == v;
      var i :| 0 <= i < |owned| && owned[i] == x;
      assert Instances(owned)[i] == v;
    }
    forall v | v in Instances(owned)
      ensures v in Owned(owned)
    {
      var i :| 0 <= i < |owned| && Instances(owned)[i] == v;
      assert owned[i] in owned;
    }
  }

  lemma NewInstances(configs: seq<Config>, base: nat)
    ensures forall i :: 0 <= i < |configs| ==> Instances(NewOwned(configs, base))[i] == base + i
  {
  }

  lemma RegistryIsKnown(s: State)
    requires Inv(s)
    ensures s.instances.Valid() && forall i :: i in s.instances.vals.Values ==> i < |s.conns|
  {
    assert forall i :: i in s.instances.vals.Values ==> i in Registered(s);
  }

  class ConnectionManager {
    var startGeneration: nat
    var conns: seq<Conn>
    var instances: JsMap<string, nat>
    var attempts: seq<Attempt>

    ghost function View(): State
      reads this
    {
      State(startGeneration, conns, instances, attempts)
    }

    ghost predicate Valid()
      reads this
    {
      Inv(View())
    }

    constructor ()
      ensures View() == Init && Valid()
    {
      startGeneration, conns, instances, attempts := 0, [], JsMap([], map[]), [];
    }

    method StopInstances(ids: seq<nat>)
      requires forall i :: 0 <= i < |ids| ==> ids[i] < |conns|
      modifies this`conns
      ensures conns == StopAll(old(conns), Elements(ids))
    {
      ghost var before := conns;
      for i := 0 to |ids|
        invariant conns == StopAll(before, Elements(ids[..i]))
      {
        var next := conns[ids[i] := StopConn(conns[ids[i]])];
        assert Elements(ids[..i + 1]) == Elements(ids[..i]) + {ids[i]};
        assert next == StopAll(before, Elements(ids[..i + 1]));
        conns := next;
      }
      assert ids[..|ids|] == ids;
    }

    method StartInstances(ids: seq<nat>, servers: bool)
      requires forall i :: 0 <= i < |ids| ==> ids[i] < |conns|
      modifies this`conns
      ensures conns == StartGroup(old(conns), Elements(ids), servers)
    {
      ghost var before := conns;
      for i := 0 to |ids|
        invariant conns == StartGroup(before, Elements(ids[..i]), servers)
      {
        var c := conns[ids[i]];
        var next := conns[ids[i] := if c.server == servers then StartConn(c) else c];
        assert Elements(ids[..i + 1]) == Elements(ids[..i]) + {ids[i]};
        assert next == StartGroup(before, Elements(ids[..i + 1]), servers);
        conns := next;
      }
      assert ids[..|ids|] == ids;
    }

    method TeardownRegistry()
      requires instances.Valid() && forall i :: i in instances.vals.Values ==> i < |conns|
      modifies this
      ensures View() == TeardownAll(old(View()))
    {
      OrderCoversValues(instances);
      assert forall i :: 0 <= i < |InOrder(instances)| ==> InOrder(instances)[i] in Elements(InOrder(instances));
      StopInstances(InOrder(instances));
      instances := JsMap([], map[]);
    }

    /** One instance per connection, each registered as it is created. */
    method CreateInstances(configs: seq<Config>) returns (owned: seq<(string, nat)>)
      modifies this
      ensures owned == NewOwned(configs, |old(conns)|)
      ensures conns == old(conns) + NewConns(configs, startGeneration)
      ensures instances == Register(old(instances), owned)
      ensures startGeneration == old(startGeneration) && attempts == old(attempts)
    {
      hide Register, NewOwned, NewConns;
      owned := [];
      NoneCreated(|conns|, startGeneration);
      RegisterNone(instances);
      for i := 0 to |configs|
        invariant owned == NewOwned(configs[..i], |old(conns)|)
        invariant conns == old(conns) + NewConns(configs[..i], startGeneration)
        invariant instances == Register(old(instances), owned)
        invariant startGeneration == old(startGeneration) && attempts == old(attempts)
      {
        var c := |conns|;
        assert configs[..i + 1] == configs[..i] + [configs[i]];
        RegisterSnoc(old(instances), owned, (configs[i].id, c));
        OneCreated(configs[..i], configs[i], |old(conns)|, startGeneration);
        conns := conns + [Conn(configs[i].server, configs[i].valid, Created, false, startGeneration)];
        owned := owned + [(configs[i].id, c)];
        instances := instances.Set(configs[i].id, c);
      }
      assert configs[..|configs|] == configs;
    }

    method OnStart(configs: Option<seq<Config>>)
      requires Valid() && (configs.Some? ==> DistinctIds(configs.value))
      modifies this
      ensures Valid() && View() == Step(old(View()), Start(configs))
    {
      StepKeeps(View(), Start(configs));
      RegistryIsKnown(View());
      hide Inv, AttemptsOk, CurrentAttemptOk, QuietMeansReady, RunningAreRegistered;
      hide NewOwned, NewConns, Register, StartGroup;
      startGeneration := startGeneration + 1;
      TeardownRegistry();
      if configs == None {
        return;
      }
      ghost var torn := View();
      var owned := CreateInstances(configs.value);
      InstancesAreOwned(owned);
      NewInstances(configs.value, |torn.conns|);
      StartInstances(Instances(owned), true);
      attempts := attempts + [Attempt(startGeneration, owned, Servers, false)];
    }

    method OnStop()
      requires Valid()
      modifies this
      ensures Valid() && View() == Step(old(View()), Stop)
    {
      StepKeeps(View(), Stop);
      startGeneration := startGeneration + 1;
      TeardownRegistry();
    }

    method OnSettle(c: nat, ok: bool)
      requires Valid() && Enabled(View(), Settle(c, ok))
      modifies this
      ensures Valid() && View() == Step(old(View()), Settle(c, ok))
    {
      hide Inv, SettleConn;
      StepKeeps(View(), Settle(c, ok));
      conns := conns[c := SettleConn(conns[c], ok)];
      var noted := attempts;
      for i := 0 to |attempts|
        invariant |noted| == |attempts| && attempts == old(attempts)
        invariant forall k :: 0 <= k < |attempts| ==> noted[k] == if k < i then NoteError(attempts[k], c, ok) else attempts[k]
        invariant conns == old(conns)[c := SettleConn(old(conns)[c], ok)]
        invariant startGeneration == old(startGeneration) && instances == old(instances)
      {
        noted := noted[i := NoteError(attempts[i], c, ok)];
      }
      attempts := noted;
      assert View() == SettleStart(old(View()), c, ok);
    }

    method TeardownInstances(owned: seq<(string, nat)>)
      requires forall i :: i in Owned(owned) ==> i < |conns|
      modifies this
      ensures View() == TeardownOwned(old(View()), owned)
    {
      InstancesAreOwned(owned);
      assert forall i :: 0 <= i < |owned| ==> Instances(owned)[i] in Elements(Instances(owned));
      StopInstances(Instances(owned));
      for i := 0 to |owned|
        invariant instances == Unregister(old(instances), owned[..i])
        invariant conns == StopAll(old(conns), Owned(owned))
        invariant startGeneration == old(startGeneration) && attempts == old(attempts)
      {
        UnregisterStep(old(instances), owned[..i], owned[i]);
        assert owned[..i + 1] == owned[..i] + [owned[i]];
        var (id, c) := owned[i];
        if instances.Get(id) == Some(c) {
          instances := instances.Delete(id);
        }
      }
      assert owned[..|owned|] == owned;
    }

    method OnResume(k: nat)
      requires Valid() && Enabled(View(), Resume(k))
      modifies this
      ensures Valid() && View() == Step(old(View()), Resume(k))
    {
      StepKeeps(View(), Resume(k));
      assert AttemptOk(View(), attempts[k]);
      var a := attempts[k];
      var superseded := startGeneration != a.generation;
      match a.phase
      case Servers =>
        if superseded {
          attempts := attempts[k := a.(phase := Finishing)];
        } else {
          InstancesAreOwned(a.owned);
          assert forall i :: 0 <= i < |a.owned| ==> Instances(a.owned)[i] in Elements(Instances(a.owned));
          StartInstances(Instances(a.owned), false);
          attempts := attempts[k := a.(phase := Clients)];
        }
      case Clients =>
        attempts := attempts[k := a.(phase := Finishing)];
      case Finishing =>
        attempts := RemoveAt(attempts, k);
        if superseded {
          TeardownInstances(a.owned);
        } else if a.error {
          TeardownRegistry();
        }
    }
  }
}
