/**
 * Suppression of recent duplicates. The program remembers when each key was last accepted in a
 * map that a periodic cleanup prunes and a cap bounds; the ideal remembers every key for ever.
 */
module DuplicateSuppression {
  import opened Common
  import opened JsMap
  import DedupeKey

  const OUTBOUND_DUPLICATE_SUPPRESS_MS: int := 1500
  const OUTBOUND_DEDUPE_MAX_ENTRIES: nat := 5000

  type Key = DedupeKey.Text
  type Recent = JsMap<Key, int>
  type History = map<Key, int>

  predicate Expired(seenAt: int, now: int) {
    now - seenAt > OUTBOUND_DUPLICATE_SUPPRESS_MS
  }

  // ------------------------------------------------------------------- the program

  /** One pass over the entries in order, deleting the expired ones. */
  function Expire(m: Recent, keys: seq<Key>, now: int): Recent
    decreases |keys|
  {
    if keys == [] then m
    else Expire(if m.Has(keys[0]) && Expired(m.vals[keys[0]], now) then m.Delete(keys[0]) else m, keys[1..], now)
  }

  /** Delete the oldest insertions until the cap holds. */
  function Trim(m: Recent): Recent
    requires m.Valid()
    decreases m.Size()
  {
    if m.Size() <= OUTBOUND_DEDUPE_MAX_ENTRIES then m
    else
      DeleteValid(m, m.order[0]);
      assert m.order[0] in Elements(m.order);
      Trim(m.Delete(m.order[0]))
  }

  lemma {:induction false} ExpireFacts(m: Recent, keys: seq<Key>, now: int)
    requires m.Valid()
    ensures Expire(m, keys, now).Valid()
    ensures Expire(m, keys, now).Size() <= m.Size()
    ensures forall k :: Expire(m, keys, now).Has(k) <==> m.Has(k) && !(k in keys && Expired(m.vals[k], now))
    ensures forall k :: Expire(m, keys, now).Has(k) ==> m.Has(k) && Expire(m, keys, now).vals[k] == m.vals[k]
    decreases |keys|
  {
    if keys == [] {
    } else {
      var n := if m.Has(keys[0]) && Expired(m.vals[keys[0]], now) then m.Delete(keys[0]) else m;
      DeleteValid(m, keys[0]);
      ExpireFacts(n, keys[1..], now);
      assert keys == [keys[0]] + keys[1..];
    }
  }

  lemma {:induction false} TrimFacts(m: Recent)
    requires m.Valid()
    ensures Trim(m).Valid() && Trim(m).Size() <= OUTBOUND_DEDUPE_MAX_ENTRIES
    ensures forall k :: Trim(m).Has(k) ==> m.Has(k) && Trim(m).vals[k] == m.vals[k]
    decreases m.Size()
  {
    if m.Size() > OUTBOUND_DEDUPE_MAX_ENTRIES {
      DeleteValid(m, m.order[0]);
      assert m.order[0] in Elements(m.order);
      TrimFacts(m.Delete(m.order[0]));
    }
  }

  function Cleanup(m: Recent, now: int): Recent
    requires m.Valid()
  {
    ExpireFacts(m, m.order, now);
    Trim(Expire(m, m.order, now))
  }

  predicate Suppresses(m: Recent, key: Key, now: int) {
    m.Has(key) && !Expired(m.vals[key], now)
  }

  function Remember(m: Recent, key: Key, now: int): Recent
    requires m.Valid()
  {
    SetValid(m, key, now);
    var n := m.Set(key, now);
    if n.Size() > OUTBOUND_DEDUPE_MAX_ENTRIES then Cleanup(n, now) else n
  }

  // ---------------------------------------------------------------------- the ideal

  predicate IdealSuppresses(h: History, key: Key, now: int) {
    key in h && now - h[key] <= 1500
  }

  // ------------------------------------------------------------------------ runs

  datatype Event = Offer(key: Key, now: int) | Tick(now: int)

  function After(m: Recent, e: Event): Recent
    requires m.Valid()
  {
    match e
    case Offer(key, now) => if Suppresses(m, key, now) then m else Remember(m, key, now)
    case Tick(now) => Cleanup(m, now)
  }

  function IdealAfter(h: History, e: Event): History {
    match e
    case Offer(key, now) => if IdealSuppresses(h, key, now) then h else h[key := now]
    case Tick(_) => h
  }

  lemma AfterValid(m: Recent, e: Event)
    requires m.Valid()
    ensures After(m, e).Valid()
    ensures m.Size() <= OUTBOUND_DEDUPE_MAX_ENTRIES ==> After(m, e).Size() <= OUTBOUND_DEDUPE_MAX_ENTRIES
  {
    ExpireFacts(m, m.order, e.now);
    TrimFacts(Expire(m, m.order, e.now));
    if e.Offer? {
      SetValid(m, e.key, e.now);
      var n := m.Set(e.key, e.now);
      ExpireFacts(n, n.order, e.now);
      TrimFacts(Expire(n, n.order, e.now));
    }
  }

  function AfterAll(m: Recent, es: seq<Event>): (r: Recent)
    requires m.Valid()
    ensures r.Valid()
    decreases |es|
  {
    if es == [] then m else AfterValid(m, es[0]); AfterAll(After(m, es[0]), es[1..])
  }

  lemma {:induction false} AlwaysBounded(m: Recent, es: seq<Event>)
    requires m.Valid() && m.Size() <= OUTBOUND_DEDUPE_MAX_ENTRIES
    ensures AfterAll(m, es).Size() <= 5000
    decreases |es|
  {
    if es == [] {
    } else {
      AfterValid(m, es[0]);
      AlwaysBounded(After(m, es[0]), es[1..]);
    }
  }

  // ------------------------------------------------------------------ the object

  /** A delta that was let through, and when. */
  datatype Passed = Passed(delta: DedupeKey.Delta, at: int)

  /** Every remembered key and time are those of some delta that was let through. */
  ghost predicate Known(m: Recent, passed: seq<Passed>) {
    forall k :: m.Has(k) ==> exists i :: 0 <= i < |passed| && DedupeKey.Key(DedupeKey.See(passed[i].delta)) == k && passed[i].at == m.vals[k]
  }

  lemma CleanupKnown(m: Recent, passed: seq<Passed>, now: int)
    requires m.Valid() && Known(m, passed)
    ensures Expire(m, m.order, now).Valid() && Cleanup(m, now).Valid()
    ensures Cleanup(m, now).Size() <= OUTBOUND_DEDUPE_MAX_ENTRIES && Known(Cleanup(m, now), passed)
  {
    ExpireFacts(m, m.order, now);
    TrimFacts(Expire(m, m.order, now));
    hide Expire, Trim;
  }

  lemma PassedKnown(m: Recent, passed: seq<Passed>, d: DedupeKey.Delta, now: int)
    requires m.Valid() && Known(m, passed)
    ensures Known(m.Set(DedupeKey.Key(DedupeKey.See(d)), now), passed + [Passed(d, now)])
  {
    hide DedupeKey.Key, DedupeKey.See;
    var key, more := DedupeKey.Key(DedupeKey.See(d)), passed + [Passed(d, now)];
    assert more[|passed|] == Passed(d, now);
    forall k | m.Set(key, now).Has(k)
      ensures exists i :: 0 <= i < |more| && DedupeKey.Key(DedupeKey.See(more[i].delta)) == k && more[i].at == m.Set(key, now).vals[k]
    {
      if k != key {
        var i :| 0 <= i < |passed| && DedupeKey.Key(DedupeKey.See(passed[i].delta)) == k && passed[i].at == m.vals[k];
        assert more[i] == passed[i];
      }
    }
  }

  class OutboundDedupe {
    var recent: Recent
    var suppressed: nat
    ghost var passed: seq<Passed>

    ghost predicate Valid()
      reads this
    {
      recent.Valid() && recent.Size() <= OUTBOUND_DEDUPE_MAX_ENTRIES && Known(recent, passed)
    }

    constructor ()
      ensures Valid() && recent == Empty() && suppressed == 0 && passed == []
    {
      recent, suppressed, passed := Empty(), 0, [];
    }

    /** The first loop of the cleanup. */
    method DeleteExpired(now: int)
      requires recent.Valid()
      modifies this`recent
      ensures recent == Expire(old(recent), old(recent).order, now)
    {
      var keys := recent.order;
      ghost var before := recent;
      for i := 0 to |keys|
        invariant Expire(recent, keys[i..], now) == Expire(before, keys, now)
      {
        assert keys[i..][1..] == keys[i + 1..];
        var key := keys[i];
        if recent.Has(key) && Expired(recent.vals[key], now) {
          recent := recent.Delete(key);
        }
      }
    }

    /** The second one. */
    method DeleteOldest()
      requires recent.Valid()
      modifies this`recent
      ensures recent == Trim(old(recent))
    {
      while recent.Size() > OUTBOUND_DEDUPE_MAX_ENTRIES
        invariant recent.Valid() && Trim(recent) == Trim(old(recent))
        decreases recent.Size()
      {
        DeleteValid(recent, recent.order[0]);
        assert recent.order[0] in Elements(recent.order);
        recent := recent.Delete(recent.order[0]);
      }
    }

    method CleanupDedupeMap(now: int)
      requires recent.Valid() && Known(recent, passed)
      modifies this`recent
      ensures recent == Cleanup(old(recent), now) && Valid()
    {
      CleanupKnown(recent, passed, now);
      hide Known, Expire, Trim, JsMap.Valid;
      DeleteExpired(now);
      DeleteOldest();
    }

    /** A delta is suppressed only if it prints like one that was let through within the window. */
    method SuppressDuplicate(d: DedupeKey.Delta, now: int) returns (duplicate: bool)
      requires Valid()
      modifies this
      ensures Valid()
      ensures var key := DedupeKey.Key(DedupeKey.See(d));
              && duplicate == Suppresses(old(recent), key, now)
              && recent == After(old(recent), Offer(key, now))
      ensures suppressed == old(suppressed) + (if duplicate then 1 else 0)
      ensures passed == old(passed) + (if duplicate then [] else [Passed(d, now)])
      ensures duplicate ==> exists i :: 0 <= i < |passed| && DedupeKey.SamePrinted(d, passed[i].delta) && now - passed[i].at <= 1500
    {
      hide DedupeKey.Key, DedupeKey.See, DedupeKey.SamePrinted;
      var key := DedupeKey.BuildOutboundDedupeKey(d);
      AfterValid(recent, Offer(key, now));
      if recent.Has(key) && now - recent.vals[key] <= OUTBOUND_DUPLICATE_SUPPRESS_MS {
        suppressed := suppressed + 1;
        ghost var i :| 0 <= i < |passed| && DedupeKey.Key(DedupeKey.See(passed[i].delta)) == key && passed[i].at == recent.vals[key];
        DedupeKey.KeysAgreeExactly(d, passed[i].delta);
        return true;
      }
      SetValid(recent, key, now);
      PassedKnown(recent, passed, d, now);
      recent := recent.Set(key, now);
      passed := passed + [Passed(d, now)];
      if recent.Size() > OUTBOUND_DEDUPE_MAX_ENTRIES {
        CleanupDedupeMap(now);
      }
      return false;
    }
  }
}
