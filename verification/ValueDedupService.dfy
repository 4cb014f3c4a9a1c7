/** The two ends of value deduplication as objects that update their cache entry by entry. */
module ValueDedupService {
  import opened Common
  import opened JsMap
  import opened JsonValue
  import opened ValueDedup

  // Processing one element more extends the result of processing those before it.

  lemma {:induction false} DedupEntriesSnoc(context: Option<string>, xs: seq<Entry>, x: Entry, c: Cache)
    ensures var (ws, m) := DedupEntries(context, xs, c);
            var (w, n) := DedupEntry(context, x, m);
            && DedupEntries(context, xs + [x], c).0 == ws + [w]
            && DedupEntries(context, xs + [x], c).1 == n
  {
    hide DedupEntry;
    if xs == [] {
      assert [x][1..] == [];
    } else {
      var (_, m) := DedupEntry(context, xs[0], c);
      DedupEntriesSnoc(context, xs[1..], x, m);
      assert (xs + [x])[1..] == xs[1..] + [x];
    }
  }

  lemma {:induction false} UndedupEntriesSnoc(context: Option<string>, xs: seq<Entry>, x: Entry, c: Cache)
    ensures var (ws, m) := UndedupEntries(context, xs, c);
            var (w, n) := UndedupEntry(context, x, m);
            && UndedupEntries(context, xs + [x], c).0 == ws + (if w == None then [] else [w.value])
            && UndedupEntries(context, xs + [x], c).1 == n
  {
    hide UndedupEntry;
    if xs == [] {
      assert [x][1..] == [];
    } else {
      var (_, m) := UndedupEntry(context, xs[0], c);
      UndedupEntriesSnoc(context, xs[1..], x, m);
      assert (xs + [x])[1..] == xs[1..] + [x];
    }
  }

  lemma {:induction false} DedupUpdatesSnoc(context: Option<string>, xs: seq<Update>, x: Update, c: Cache)
    ensures var (ws, m) := DedupUpdates(context, xs, c);
            var (w, n) := DedupUpdate(context, x, m);
            && DedupUpdates(context, xs + [x], c).0 == ws + [w]
            && DedupUpdates(context, xs + [x], c).1 == n
  {
    hide DedupUpdate;
    if xs == [] {
      assert [x][1..] == [];
    } else {
      var (_, m) := DedupUpdate(context, xs[0], c);
      DedupUpdatesSnoc(context, xs[1..], x, m);
      assert (xs + [x])[1..] == xs[1..] + [x];
    }
  }

  lemma {:induction false} UndedupUpdatesSnoc(context: Option<string>, xs: seq<Update>, x: Update, c: Cache)
    ensures var (ws, m) := UndedupUpdates(context, xs, c);
            var (w, n) := UndedupUpdate(context, x, m);
            && UndedupUpdates(context, xs + [x], c).0 == ws + [w]
            && UndedupUpdates(context, xs + [x], c).1 == n
  {
    hide UndedupUpdate;
    if xs == [] {
      assert [x][1..] == [];
    } else {
      var (_, m) := UndedupUpdate(context, xs[0], c);
      UndedupUpdatesSnoc(context, xs[1..], x, m);
      assert (xs + [x])[1..] == xs[1..] + [x];
    }
  }

  class DedupState {
    var cache: Cache

    /** At most as many values as the cap allows. */
    ghost predicate Valid()
      reads this
    {
      CacheOk(cache)
    }

    constructor ()
      ensures Valid() && cache == Empty()
    {
      cache := Empty();
    }

    method Remember(key: string, v: Value)
      requires Valid()
      modifies this
      ensures Valid()
      ensures cache == CacheSet(old(cache), key, v)
    {
      CacheSetOk(cache, key, v);
      if cache.Has(key) {
        cache := cache.Delete(key);
      } else if cache.Size() >= VALUE_DEDUP_CACHE_MAX {
        if cache.order != [] {
          cache := cache.Delete(cache.order[0]);
        }
      }
      cache := cache.Set(key, v);
    }

    method DedupValue(context: Option<string>, e: Entry) returns (w: Entry)
      requires Valid()
      modifies this
      ensures Valid()
      ensures w == DedupEntry(context, e, old(cache)).0
      ensures cache == DedupEntry(context, e, old(cache)).1
    {
      if e.Malformed? || e.path == "" {
        return e;
      }
      var key := CacheKey(context, e.path);
      var cached := Lookup(cache, key);
      if !cached.Undefined? && StableRepr(cached) == StableRepr(e.value) {
        Remember(key, cached);
        return e.(value := DUP_SENTINEL);
      }
      Remember(key, e.value);
      return e;
    }

    method DedupValues(context: Option<string>, xs: seq<Entry>) returns (out: seq<Entry>)
      requires Valid()
      modifies this
      ensures Valid()
      ensures out == DedupEntries(context, xs, old(cache)).0
      ensures cache == DedupEntries(context, xs, old(cache)).1
    {
      out := [];
      for i := 0 to |xs|
        invariant Valid()
        invariant out == DedupEntries(context, xs[..i], old(cache)).0
        invariant cache == DedupEntries(context, xs[..i], old(cache)).1
      {
        DedupEntriesSnoc(context, xs[..i], xs[i], old(cache));
        assert xs[..i + 1] == xs[..i] + [xs[i]];
        var w := DedupValue(context, xs[i]);
        out := out + [w];
      }
      assert xs[..|xs|] == xs;
    }

    method DedupOneUpdate(context: Option<string>, u: Update) returns (w: Update)
      requires Valid()
      modifies this
      ensures Valid()
      ensures w == DedupUpdate(context, u, old(cache)).0
      ensures cache == DedupUpdate(context, u, old(cache)).1
    {
      if u.values == None {
        return u;
      }
      var values := DedupValues(context, u.values.value);
      return u.(values := Some(values));
    }

    method DedupAllUpdates(context: Option<string>, xs: seq<Update>) returns (out: seq<Update>)
      requires Valid()
      modifies this
      ensures Valid()
      ensures out == DedupUpdates(context, xs, old(cache)).0
      ensures cache == DedupUpdates(context, xs, old(cache)).1
    {
      out := [];
      for i := 0 to |xs|
        invariant Valid()
        invariant out == DedupUpdates(context, xs[..i], old(cache)).0
        invariant cache == DedupUpdates(context, xs[..i], old(cache)).1
      {
        DedupUpdatesSnoc(context, xs[..i], xs[i], old(cache));
        assert xs[..i + 1] == xs[..i] + [xs[i]];
        var w := DedupOneUpdate(context, xs[i]);
        out := out + [w];
      }
      assert xs[..|xs|] == xs;
    }

    method Dedup(d: Delta) returns (wire: Delta)
      requires Valid()
      modifies this
      ensures Valid()
      ensures wire == DedupDelta(d, old(cache)).0
      ensures cache == DedupDelta(d, old(cache)).1
    {
      if d.updates == None {
        return d;
      }
      var updates := DedupAllUpdates(d.context, d.updates.value);
      return d.(updates := Some(updates));
    }

    method UndedupValue(context: Option<string>, e: Entry) returns (w: Option<Entry>)
      requires Valid()
      modifies this
      ensures Valid()
      ensures w == UndedupEntry(context, e, old(cache)).0
      ensures cache == UndedupEntry(context, e, old(cache)).1
    {
      if e.Malformed? || e.path == "" {
        return Some(e);
      }
      var key := CacheKey(context, e.path);
      if IsSentinel(e.value) {
        var cached := Lookup(cache, key);
        if cached.Undefined? {
          return None;
        }
        Remember(key, cached);
        return Some(e.(value := cached));
      }
      Remember(key, e.value);
      return Some(e);
    }

    method UndedupValues(context: Option<string>, xs: seq<Entry>) returns (out: seq<Entry>)
      requires Valid()
      modifies this
      ensures Valid()
      ensures out == UndedupEntries(context, xs, old(cache)).0
      ensures cache == UndedupEntries(context, xs, old(cache)).1
    {
      out := [];
      for i := 0 to |xs|
        invariant Valid()
        invariant out == UndedupEntries(context, xs[..i], old(cache)).0
        invariant cache == UndedupEntries(context, xs[..i], old(cache)).1
      {
        UndedupEntriesSnoc(context, xs[..i], xs[i], old(cache));
        assert xs[..i + 1] == xs[..i] + [xs[i]];
        var w := UndedupValue(context, xs[i]);
        out := out + (if w == None then [] else [w.value]);
      }
      assert xs[..|xs|] == xs;
    }

    method UndedupOneUpdate(context: Option<string>, u: Update) returns (w: Update)
      requires Valid()
      modifies this
      ensures Valid()
      ensures w == UndedupUpdate(context, u, old(cache)).0
      ensures cache == UndedupUpdate(context, u, old(cache)).1
    {
      if u.values == None {
        return u;
      }
      var values := UndedupValues(context, u.values.value);
      return u.(values := Some(values));
    }

    method UndedupAllUpdates(context: Option<string>, xs: seq<Update>) returns (out: seq<Update>)
      requires Valid()
      modifies this
      ensures Valid()
      ensures out == UndedupUpdates(context, xs, old(cache)).0
      ensures cache == UndedupUpdates(context, xs, old(cache)).1
    {
      out := [];
      for i := 0 to |xs|
        invariant Valid()
        invariant out == UndedupUpdates(context, xs[..i], old(cache)).0
        invariant cache == UndedupUpdates(context, xs[..i], old(cache)).1
      {
        UndedupUpdatesSnoc(context, xs[..i], xs[i], old(cache));
        assert xs[..i + 1] == xs[..i] + [xs[i]];
        var w := UndedupOneUpdate(context, xs[i]);
        out := out + [w];
      }
      assert xs[..|xs|] == xs;
    }

    method Undedup(wire: Delta) returns (d: Delta)
      requires Valid()
      modifies this
      ensures Valid()
      ensures d == UndedupDelta(wire, old(cache)).0
      ensures cache == UndedupDelta(wire, old(cache)).1
    {
      if wire.updates == None {
        return wire;
      }
      var updates := UndedupAllUpdates(wire.context, wire.updates.value);
      return wire.(updates := Some(updates));
    }
  }

  /**
   * One delta over an in-order lossless link: two objects in step stay in step and nothing is lost, unless a
   * sentinel-shaped value is sent as it is; then something is.
   */
  method Carry(sender: DedupState, receiver: DedupState, d: Delta) returns (out: Delta)
    requires sender != receiver && sender.Valid() && sender.cache == receiver.cache
    modifies sender, receiver
    ensures sender.Valid() && receiver.Valid()
    ensures SameDelta(d, out) <==> DeltaFine(d, old(sender.cache))
    ensures DeltaFine(d, old(sender.cache)) ==> sender.cache == receiver.cache
  {
    DeltaLockstep(d, sender.cache);
    hide CacheOk, SameDelta, DeltaFine, DedupDelta, UndedupDelta;
    var wire := sender.Dedup(d);
    out := receiver.Undedup(wire);
  }
}
