/** What a least-recently-written map holds, told by the writes alone. */
module LruHistory {
  import opened Common
  import opened JsMap

  datatype Write<K, V> = Write(key: K, val: V)

  function AfterWrites<K(==), V>(ws: seq<Write<K, V>>, cap: nat): JsMap<K, V> {
    if ws == [] then Empty() else LruSet(AfterWrites(ws[..|ws| - 1], cap), ws[|ws| - 1].key, ws[|ws| - 1].val, cap)
  }

  /** Write `i` is the last one of its key among the first `n`. */
  predicate LastOf<K(==), V>(ws: seq<Write<K, V>>, i: nat, n: nat, key: K) {
    i < n <= |ws| && ws[i].key == key && forall j :: i < j < n ==> ws[j].key != key
  }

  /** The keys written after write `i` and before write `n`. */
  ghost function KeysSince<K, V>(ws: seq<Write<K, V>>, i: nat, n: nat): set<K>
    requires i < n <= |ws|
  {
    set j | i < j < n :: ws[j].key
  }

  lemma {:induction false} WritesValid<K, V>(ws: seq<Write<K, V>>, cap: nat)
    requires 0 < cap
    ensures AfterWrites(ws, cap).Valid() && AfterWrites(ws, cap).Size() <= cap
  {
    if ws != [] {
      var before := AfterWrites(ws[..|ws| - 1], cap);
      WritesValid(ws[..|ws| - 1], cap);
      LruSetFacts(before, ws[|ws| - 1].key, ws[|ws| - 1].val, cap);
    }
  }

  lemma {:induction false} NeverWritten<K, V>(ws: seq<Write<K, V>>, cap: nat, key: K)
    requires 0 < cap && forall j :: 0 <= j < |ws| ==> ws[j].key != key
    ensures !AfterWrites(ws, cap).Has(key)
  {
    if ws != [] {
      NeverWritten(ws[..|ws| - 1], cap, key);
    }
  }

  /** `key` is held, with value `v` and the keys `since` behind it, exactly while these are fewer than `cap`. */
  ghost predicate Held<K, V>(m: JsMap<K, V>, cap: nat, key: K, v: V, since: set<K>) {
    && (m.Has(key) <==> |since| < cap)
    && (m.Has(key) ==> m.vals[key] == v && Behind(m.order, key) == since)
  }

  lemma WriteOther<K, V>(m: JsMap<K, V>, cap: nat, key: K, v: V, since: set<K>, w: Write<K, V>)
    requires 0 < cap && m.Valid() && m.Size() <= cap && w.key != key && Held(m, cap, key, v, since)
    ensures Held(LruSet(m, w.key, w.val, cap), cap, key, v, since + {w.key})
  {
    LruSetFacts(m, w.key, w.val, cap);
    hide LruSet, JsMap.Valid, Behind;
    if m.Has(key) {
      LruSetOther(m, key, w.key, w.val, cap);
    } else {
      SubsetSize(since, since + {w.key});
    }
  }

  lemma WriteSame<K, V>(m: JsMap<K, V>, cap: nat, w: Write<K, V>)
    requires 0 < cap && m.Valid()
    ensures Held(LruSet(m, w.key, w.val, cap), cap, w.key, w.val, {})
  {
    LruSetFacts(m, w.key, w.val, cap);
    LruSetIsLast(m, w.key, w.val, cap);
    hide LruSet, JsMap.Valid, Behind;
  }

  /** A key that was written is held, with its last value, exactly while fewer than `cap` other keys have been written since. */
  lemma {:induction false} HeldExactly<K, V>(ws: seq<Write<K, V>>, cap: nat, i: nat, key: K)
    requires 0 < cap && LastOf(ws, i, |ws|, key)
    ensures Held(AfterWrites(ws, cap), cap, key, ws[i].val, KeysSince(ws, i, |ws|))
    decreases |ws|
  {
    hide Held, LruSet;
    var n := |ws| - 1;
    WritesValid(ws[..n], cap);
    if i == n {
      WriteSame(AfterWrites(ws[..n], cap), cap, ws[n]);
      assert KeysSince(ws, i, |ws|) == {};
    } else {
      HeldExactly(ws[..n], cap, i, key);
      assert KeysSince(ws[..n], i, n) == KeysSince(ws, i, n);
      KeysSinceSnoc(ws, i, n);
      WriteOther(AfterWrites(ws[..n], cap), cap, key, ws[i].val, KeysSince(ws, i, n), ws[n]);
    }
  }

  lemma KeysSinceSnoc<K, V>(ws: seq<Write<K, V>>, i: nat, n: nat)
    requires i < n < |ws|
    ensures KeysSince(ws, i, n + 1) == KeysSince(ws, i, n) + {ws[n].key}
  {
  }

  lemma {:induction false} SubsetSize<K>(a: set<K>, b: set<K>)
    requires a <= b
    ensures |a| <= |b|
  {
    if a != {} {
      var x :| x in a;
      SubsetSize(a - {x}, b - {x});
    }
  }
}
