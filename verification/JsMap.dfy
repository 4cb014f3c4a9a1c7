/**
 * The JavaScript `Map`, whose iteration order is insertion order: `Set` on a key that is
 * present keeps its position, `Delete` followed by `Set` moves it to the tail.
 */
module JsMap {
  import opened Common

  datatype JsMap<K(==), V> = JsMap(order: seq<K>, vals: map<K, V>) {

    ghost predicate Valid() {
      && NoDup(order)
      && Elements(order) == vals.Keys
    }

    predicate Has(k: K) {
      k in vals
    }

    function Get(k: K): Option<V> {
      if k in vals then Some(vals[k]) else None
    }

    function Size(): nat {
      |order|
    }

    function Delete(k: K): JsMap<K, V> {
      if k in vals then JsMap(Without(order, k), vals - {k}) else this
    }

    function Set(k: K, v: V): JsMap<K, V> {
      JsMap(if k in vals then order else order + [k], vals[k := v])
    }
  }

  function Empty<K, V>(): JsMap<K, V> {
    JsMap([], map[])
  }

  function Without<K(==)>(s: seq<K>, k: K): seq<K> {
    if s == [] then []
    else if s[0] == k then s[1..]
    else [s[0]] + Without(s[1..], k)
  }

  lemma {:induction false} WithoutFacts<K>(s: seq<K>, k: K)
    requires NoDup(s)
    ensures NoDup(Without(s, k))
    ensures Elements(Without(s, k)) == Elements(s) - {k}
    ensures |Without(s, k)| == |s| - (if k in s then 1 else 0)
    ensures k !in s ==> Without(s, k) == s
  {
    if s == [] {
    } else if s[0] == k {
      assert s == [k] + s[1..];
    } else {
      WithoutFacts(s[1..], k);
      var rest := Without(s[1..], k);
      assert s == [s[0]] + s[1..];
      assert Elements(s) == {s[0]} + Elements(s[1..]);
      assert Elements([s[0]] + rest) == {s[0]} + Elements(rest);
      assert s[0] !in Elements(s[1..]);
      assert s[0] !in Elements(rest);
    }
  }

  lemma DeleteValid<K, V>(m: JsMap<K, V>, k: K)
    requires m.Valid()
    ensures m.Delete(k).Valid()
    ensures m.Delete(k).Size() == m.Size() - (if m.Has(k) then 1 else 0)
  {
    WithoutFacts(m.order, k);
  }

  lemma SetValid<K, V>(m: JsMap<K, V>, k: K, v: V)
    requires m.Valid()
    ensures m.Set(k, v).Valid()
    ensures m.Set(k, v).Size() == m.Size() + (if m.Has(k) then 0 else 1)
  {
  }

  // ---------------------------------------------------------------- LRU write

  /**
   * Write with least-recently-written eviction: a present key moves to the tail; an absent key
   * evicts the head first when the map is already at `cap`.
   */
  function LruSet<K, V>(m: JsMap<K, V>, k: K, v: V, cap: nat): JsMap<K, V> {
    LruRoom(m, k, cap).Set(k, v)
  }

  function LruRoom<K, V>(m: JsMap<K, V>, k: K, cap: nat): JsMap<K, V> {
    if m.Has(k) then m.Delete(k)
    else if m.Size() >= cap && m.order != [] then m.Delete(m.order[0])
    else m
  }

  lemma LruSetFacts<K, V>(m: JsMap<K, V>, k: K, v: V, cap: nat)
    requires m.Valid() && 0 < cap
    ensures LruSet(m, k, v, cap).Valid()
    ensures LruSet(m, k, v, cap).Get(k) == Some(v)
    ensures m.Size() <= cap ==> LruSet(m, k, v, cap).Size() <= cap
    ensures forall x | x != k && LruSet(m, k, v, cap).Has(x) ::
              LruSet(m, k, v, cap).Get(x) == m.Get(x)
    ensures forall x | m.Has(x) && x != k && !LruSet(m, k, v, cap).Has(x) ::
              !m.Has(k) && cap <= m.Size() && x == m.order[0]
  {
    DeleteValid(m, k);
    if m.order != [] {
      DeleteValid(m, m.order[0]);
    }
    SetValid(LruRoom(m, k, cap), k, v);
  }

  /** The keys written after `k`: those standing behind it in a least-recently-written map. */
  ghost function Behind<K>(order: seq<K>, k: K): set<K> {
    if order == [] then {}
    else if order[0] == k then Elements(order[1..])
    else Behind(order[1..], k)
  }

  lemma {:induction false} BehindWithout<K>(order: seq<K>, k: K, x: K)
    requires NoDup(order) && k in order && x != k
    ensures Behind(Without(order, x), k) == Behind(order, k) - {x}
  {
    if order[0] == k {
      assert Without(order, x) == [k] + Without(order[1..], x);
      assert order == [k] + order[1..];
      WithoutFacts(order[1..], x);
      assert Without(order, x)[1..] == Without(order[1..], x);
    } else if order[0] == x {
      BehindIsWithin(order[1..], k);
      assert x !in Elements(order[1..]);
    } else {
      assert order == [order[0]] + order[1..];
      BehindWithout(order[1..], k, x);
      assert Without(order, x)[1..] == Without(order[1..], x);
    }
  }

  lemma {:induction false} BehindIsWithin<K>(order: seq<K>, k: K)
    ensures Behind(order, k) <= Elements(order)
    ensures NoDup(order) ==> k !in Behind(order, k)
  {
    if order != [] {
      assert order == [order[0]] + order[1..];
      BehindIsWithin(order[1..], k);
    }
  }

  lemma {:induction false} BehindAppend<K>(order: seq<K>, k: K, x: K)
    requires k in order
    ensures Behind(order + [x], k) == Behind(order, k) + {x}
  {
    assert order == [order[0]] + order[1..];
    assert (order + [x])[1..] == order[1..] + [x];
    if order[0] != k {
      BehindAppend(order[1..], k, x);
    }
  }

  lemma {:induction false} BehindLast<K>(order: seq<K>, k: K)
    requires k !in order
    ensures Behind(order + [k], k) == {}
  {
    if order == [] {
      assert (order + [k])[1..] == [];
    } else {
      assert (order + [k])[1..] == order[1..] + [k];
      BehindLast(order[1..], k);
    }
  }

  /** A write puts its key last: nothing has been written after it. */
  lemma LruSetIsLast<K, V>(m: JsMap<K, V>, k: K, v: V, cap: nat)
    requires m.Valid() && 0 < cap
    ensures Behind(LruSet(m, k, v, cap).order, k) == {}
  {
    WithoutFacts(m.order, k);
    if m.order != [] {
      WithoutFacts(m.order, m.order[0]);
    }
    BehindLast(LruRoom(m, k, cap).order, k);
  }

  /** Making room for `x` keeps `k` unless `k` is the head of a full map that lacks `x`. */
  lemma LruRoomOther<K, V>(m: JsMap<K, V>, k: K, x: K, cap: nat)
    requires m.Valid() && 0 < cap && m.Has(k) && x != k
    ensures var room := LruRoom(m, x, cap);
            if !m.Has(x) && m.Size() >= cap && m.order[0] == k
            then k !in room.order && !room.Has(k)
            else k in room.order && room.Has(k) && Behind(room.order, k) + {x} == Behind(m.order, k) + {x}
  {
    assert k in Elements(m.order);
    if m.Has(x) {
      WithoutFacts(m.order, x);
      BehindWithout(m.order, k, x);
      assert k in Elements(Without(m.order, x));
    } else if m.Size() >= cap {
      WithoutFacts(m.order, m.order[0]);
      if m.order[0] != k {
        HeadIsNotBehind(m.order, k);
        BehindWithout(m.order, k, m.order[0]);
        assert k in Elements(Without(m.order, m.order[0]));
      } else {
        assert k !in Elements(Without(m.order, k));
      }
    }
  }

  lemma HeadIsNotBehind<K>(order: seq<K>, k: K)
    requires NoDup(order) && order != [] && order[0] != k
    ensures order[0] !in Behind(order, k)
  {
    BehindIsWithin(order[1..], k);
    assert order[0] !in Elements(order[1..]);
  }

  lemma HeadHasAllBehind<K>(order: seq<K>, x: K)
    requires order != [] && NoDup(order) && x !in order
    ensures |Behind(order, order[0]) + {x}| == |order|
  {
    NoDupCardinality(order[1..]);
    assert x !in Elements(order[1..]);
  }

  lemma {:induction false} FewBehind<K>(order: seq<K>, k: K)
    requires NoDup(order) && k in order
    ensures |Behind(order, k)| < |order|
  {
    if order[0] == k {
      NoDupCardinality(order[1..]);
    } else {
      assert order == [order[0]] + order[1..];
      FewBehind(order[1..], k);
    }
  }

  /**
   * Writing another key keeps `k`, with that key now behind it, exactly while fewer than `cap` other keys have been
   * written since: those behind it and the new one.
   */
  lemma LruSetOther<K, V>(m: JsMap<K, V>, k: K, x: K, v: V, cap: nat)
    requires m.Valid() && 0 < cap && m.Has(k) && x != k && m.Size() <= cap
    ensures var m' := LruSet(m, x, v, cap);
            && (m'.Has(k) <==> |Behind(m.order, k) + {x}| < cap)
            && (m'.Has(k) ==> Behind(m'.order, k) == Behind(m.order, k) + {x} && m'.Get(k) == m.Get(k))
  {
    LruSetFacts(m, x, v, cap);
    LruRoomOther(m, k, x, cap);
    if !m.Has(x) && m.Size() >= cap && m.order[0] == k {
      assert x !in Elements(m.order);
      HeadHasAllBehind(m.order, x);
    } else {
      var m' := LruSet(m, x, v, cap);
      BehindAppend(LruRoom(m, x, cap).order, k, x);
      assert k in Elements(m'.order);
      FewBehind(m'.order, k);
    }
  }
}
