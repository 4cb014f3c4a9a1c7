/**
 * Same-as-last value deduplication. The sender replaces a value that prints like the cached one
 * by a sentinel; the receiver keeps its own cache and puts the cached value back.
 */
module ValueDedup {
  import opened Common
  import opened JsMap
  import opened JsonValue

  const VALUE_DEDUP_CACHE_MAX: nat := 10000

  const DUP_SENTINEL: Value := Obj([Field("$$", Str("dup"))])

  /** A value entry of an update: an object with a string `path`, or anything else. */
  datatype Entry = PathValue(path: string, value: Value) | Malformed(raw: Value)

  /** `rest` stands for the update's other fields. */
  datatype Update = Update(values: Option<seq<Entry>>, rest: Value)

  datatype Delta = Delta(context: Option<string>, updates: Option<seq<Update>>)

  type Cache = JsMap<string, Value>

  predicate IsSentinel(v: Value) {
    v == DUP_SENTINEL
  }

  function CacheKey(context: Option<string>, path: string): string {
    (if context == None || context == Some("") then "*" else context.value) + "\0" + path
  }

  function CacheSet(cache: Cache, key: string, v: Value): Cache {
    LruSet(cache, key, v, VALUE_DEDUP_CACHE_MAX)
  }

  /** An absent key and a cached `undefined` read the same. */
  function Lookup(cache: Cache, key: string): Value {
    if cache.Has(key) then cache.vals[key] else Undefined
  }

  predicate Repeats(cache: Cache, key: string, v: Value) {
    !Lookup(cache, key).Undefined? && StableRepr(Lookup(cache, key)) == StableRepr(v)
  }

  // ------------------------------------------------------------------ sender

  function DedupEntry(context: Option<string>, e: Entry, cache: Cache): (Entry, Cache) {
    if e.Malformed? || e.path == "" then (e, cache)
    else
      var key := CacheKey(context, e.path);
      if Repeats(cache, key, e.value)
      then (e.(value := DUP_SENTINEL), CacheSet(cache, key, Lookup(cache, key)))
      else (e, CacheSet(cache, key, e.value))
  }

  function DedupEntries(context: Option<string>, es: seq<Entry>, cache: Cache): (seq<Entry>, Cache) {
    if es == [] then ([], cache)
    else
      var (e, c) := DedupEntry(context, es[0], cache);
      var (rest, c') := DedupEntries(context, es[1..], c);
      ([e] + rest, c')
  }

  function DedupUpdates(context: Option<string>, us: seq<Update>, cache: Cache): (seq<Update>, Cache) {
    if us == [] then ([], cache)
    else
      var (u, c) := DedupUpdate(context, us[0], cache);
      var (rest, c') := DedupUpdates(context, us[1..], c);
      ([u] + rest, c')
  }

  function DedupUpdate(context: Option<string>, u: Update, cache: Cache): (Update, Cache) {
    if u.values == None then (u, cache)
    else
      var (es, c) := DedupEntries(context, u.values.value, cache);
      (u.(values := Some(es)), c)
  }

  function DedupDelta(d: Delta, cache: Cache): (Delta, Cache) {
    if d.updates == None then (d, cache)
    else
      var (us, c) := DedupUpdates(d.context, d.updates.value, cache);
      (d.(updates := Some(us)), c)
  }

  // ---------------------------------------------------------------- receiver

  /** `None` when the entry is dropped: a sentinel for which nothing is cached. */
  function UndedupEntry(context: Option<string>, e: Entry, cache: Cache): (Option<Entry>, Cache) {
    if e.Malformed? || e.path == "" then (Some(e), cache)
    else
      var key := CacheKey(context, e.path);
      if IsSentinel(e.value) then
        if Lookup(cache, key).Undefined? then (None, cache)
        else (Some(e.(value := Lookup(cache, key))), CacheSet(cache, key, Lookup(cache, key)))
      else (Some(e), CacheSet(cache, key, e.value))
  }

  function UndedupEntries(context: Option<string>, es: seq<Entry>, cache: Cache): (seq<Entry>, Cache) {
    if es == [] then ([], cache)
    else
      var (e, c) := UndedupEntry(context, es[0], cache);
      var (rest, c') := UndedupEntries(context, es[1..], c);
      ((if e == None then [] else [e.value]) + rest, c')
  }

  function UndedupUpdate(context: Option<string>, u: Update, cache: Cache): (Update, Cache) {
    if u.values == None then (u, cache)
    else
      var (es, c) := UndedupEntries(context, u.values.value, cache);
      (u.(values := Some(es)), c)
  }

  function UndedupUpdates(context: Option<string>, us: seq<Update>, cache: Cache): (seq<Update>, Cache) {
    if us == [] then ([], cache)
    else
      var (u, c) := UndedupUpdate(context, us[0], cache);
      var (rest, c') := UndedupUpdates(context, us[1..], c);
      ([u] + rest, c')
  }

  function UndedupDelta(d: Delta, cache: Cache): (Delta, Cache) {
    if d.updates == None then (d, cache)
    else
      var (us, c) := UndedupUpdates(d.context, d.updates.value, cache);
      (d.(updates := Some(us)), c)
  }

  // ------------------------------------------------------------- a lossless link

  /** The sender dedups a delta and the receiver, over an in-order lossless link, restores it. */
  function Exchange(d: Delta, sender: Cache, receiver: Cache): (Delta, Cache, Cache) {
    var (wire, s) := DedupDelta(d, sender);
    var (out, r) := UndedupDelta(wire, receiver);
    (out, s, r)
  }

  function ExchangeAll(ds: seq<Delta>, sender: Cache, receiver: Cache): (seq<Delta>, Cache, Cache) {
    if ds == [] then ([], sender, receiver)
    else
      var (out, s, r) := Exchange(ds[0], sender, receiver);
      var (outs, s', r') := ExchangeAll(ds[1..], s, r);
      ([out] + outs, s', r')
  }

  // ------------------------------------------------------------------- lockstep

  ghost predicate CacheOk(c: Cache) {
    c.Valid() && c.Size() <= VALUE_DEDUP_CACHE_MAX
  }

  ghost predicate SameEntry(e: Entry, f: Entry) {
    e == f || (e.PathValue? && f.PathValue? && e.path == f.path != "" && StableRepr(e.value) == StableRepr(f.value))
  }

  ghost predicate SameEntries(es: seq<Entry>, fs: seq<Entry>) {
    |es| == |fs| && forall i :: 0 <= i < |es| ==> SameEntry(es[i], fs[i])
  }

  ghost predicate SameUpdate(u: Update, v: Update) {
    && u.rest == v.rest
    && (u.values.Some? <==> v.values.Some?)
    && (u.values.Some? ==> SameEntries(u.values.value, v.values.value))
  }

  ghost predicate SameDelta(d: Delta, e: Delta) {
    && d.context == e.context
    && (d.updates.Some? <==> e.updates.Some?)
    && (d.updates.Some? ==>
          && |d.updates.value| == |e.updates.value|
          && forall i :: 0 <= i < |d.updates.value| ==> SameUpdate(d.updates.value[i], e.updates.value[i]))
  }

  /** The application value is not itself shaped like the sentinel. */
  predicate EntryClean(e: Entry) {
    e.PathValue? && e.path != "" ==> !IsSentinel(e.value)
  }

  predicate UpdateClean(u: Update) {
    u.values.Some? ==> forall i :: 0 <= i < |u.values.value| ==> EntryClean(u.values.value[i])
  }

  predicate DeltaClean(d: Delta) {
    d.updates.Some? ==> forall i :: 0 <= i < |d.updates.value| ==> UpdateClean(d.updates.value[i])
  }

  lemma CacheSetOk(c: Cache, key: string, v: Value)
    requires CacheOk(c)
    ensures CacheOk(CacheSet(c, key, v))
  {
    LruSetFacts(c, key, v, VALUE_DEDUP_CACHE_MAX);
  }

  /**
   * What the sender's cache `c` makes of an entry, an update, a delta, a run: nothing sentinel-shaped is sent, unless it
   * repeats the cached value, which sends the sentinel anyway.
   */
  predicate EntryFine(context: Option<string>, e: Entry, c: Cache) {
    EntryClean(e) || Repeats(c, CacheKey(context, e.path), e.value)
  }

  predicate EntriesFine(context: Option<string>, es: seq<Entry>, c: Cache) {
    es == [] || (EntryFine(context, es[0], c) && EntriesFine(context, es[1..], DedupEntry(context, es[0], c).1))
  }

  predicate UpdateFine(context: Option<string>, u: Update, c: Cache) {
    u.values.Some? ==> EntriesFine(context, u.values.value, c)
  }

  predicate UpdatesFine(context: Option<string>, us: seq<Update>, c: Cache) {
    us == [] || (UpdateFine(context, us[0], c) && UpdatesFine(context, us[1..], DedupUpdate(context, us[0], c).1))
  }

  predicate DeltaFine(d: Delta, c: Cache) {
    d.updates.Some? ==> UpdatesFine(d.context, d.updates.value, c)
  }

  predicate RunFine(ds: seq<Delta>, c: Cache) {
    ds == [] || (DeltaFine(ds[0], c) && RunFine(ds[1..], DedupDelta(ds[0], c).1))
  }

  /**
   * One entry through equal caches: it comes back printing the same exactly when it is not sentinel-shaped, or repeats
   * the cached value so that only the sentinel is sent; and exactly then the caches agree again.
   */
  lemma EntryLockstep(context: Option<string>, e: Entry, c: Cache)
    requires CacheOk(c)
    ensures var (w, s) := DedupEntry(context, e, c);
            var (out, r) := UndedupEntry(context, w, c);
            && CacheOk(s)
            && (out.Some? && SameEntry(e, out.value) <==> EntryFine(context, e, c))
            && (s == r <==> EntryFine(context, e, c))
  {
    if e.PathValue? && e.path != "" {
      var key := CacheKey(context, e.path);
      CacheSetOk(c, key, e.value);
      CacheSetOk(c, key, Lookup(c, key));
      LruSetFacts(c, key, e.value, VALUE_DEDUP_CACHE_MAX);
      LruSetFacts(c, key, Lookup(c, key), VALUE_DEDUP_CACHE_MAX);
    }
  }

  lemma {:induction false} NoEntriesAdded(context: Option<string>, es: seq<Entry>, s: Cache, r: Cache)
    ensures |UndedupEntries(context, DedupEntries(context, es, s).0, r).0| <= |es|
  {
    if es != [] {
      var (w, s') := DedupEntry(context, es[0], s);
      var ws := DedupEntries(context, es[1..], s').0;
      assert ([w] + ws)[1..] == ws;
      NoEntriesAdded(context, es[1..], s', UndedupEntry(context, w, r).1);
    }
  }

  lemma SameEntriesSplit(e: Entry, es: seq<Entry>, f: Entry, fs: seq<Entry>)
    ensures SameEntries([e] + es, [f] + fs) <==> SameEntry(e, f) && SameEntries(es, fs)
  {
    if SameEntries([e] + es, [f] + fs) {
      assert SameEntry(([e] + es)[0], ([f] + fs)[0]);
      forall i | 0 <= i < |es|
        ensures SameEntry(es[i], fs[i])
      {
        assert SameEntry(([e] + es)[i + 1], ([f] + fs)[i + 1]);
      }
    }
  }

  lemma {:induction false} EntriesLockstep(context: Option<string>, es: seq<Entry>, c: Cache)
    requires CacheOk(c)
    ensures var (ws, s) := DedupEntries(context, es, c);
            var (outs, r) := UndedupEntries(context, ws, c);
            && CacheOk(s)
            && (SameEntries(es, outs) <==> EntriesFine(context, es, c))
            && (EntriesFine(context, es, c) ==> s == r)
  {
    hide CacheOk, EntryFine, SameEntry, SameEntries;
    if es == [] {
      NothingIsSame();
    } else {
      EntryLockstep(context, es[0], c);
      var (w, s) := DedupEntry(context, es[0], c);
      EntriesLockstep(context, es[1..], s);
      var (ws, _) := DedupEntries(context, es[1..], s);
      assert ([w] + ws)[1..] == ws;
      var (out, r) := UndedupEntry(context, w, c);
      var rest := UndedupEntries(context, ws, r).0;
      assert es == [es[0]] + es[1..];
      if out.Some? {
        SameEntriesSplit(es[0], es[1..], out.value, rest);
      } else {
        NoEntriesAdded(context, es[1..], s, r);
        SameEntriesLength(es, rest);
        assert UndedupEntries(context, [w] + ws, c).0 == [] + rest == rest;
      }
    }
  }

  lemma NothingIsSame()
    ensures SameEntries([], [])
  {
  }

  lemma SameEntriesLength(es: seq<Entry>, fs: seq<Entry>)
    ensures SameEntries(es, fs) ==> |es| == |fs|
  {
  }

  lemma UpdateLockstep(context: Option<string>, u: Update, c: Cache)
    requires CacheOk(c)
    ensures var (w, s) := DedupUpdate(context, u, c);
            var (out, r) := UndedupUpdate(context, w, c);
            && CacheOk(s)
            && (SameUpdate(u, out) <==> UpdateFine(context, u, c))
            && (UpdateFine(context, u, c) ==> s == r)
  {
    if u.values.Some? {
      EntriesLockstep(context, u.values.value, c);
    }
  }

  ghost predicate SameUpdates(us: seq<Update>, vs: seq<Update>) {
    |us| == |vs| && forall i :: 0 <= i < |us| ==> SameUpdate(us[i], vs[i])
  }

  lemma SameUpdatesSplit(u: Update, us: seq<Update>, v: Update, vs: seq<Update>)
    ensures SameUpdates([u] + us, [v] + vs) <==> SameUpdate(u, v) && SameUpdates(us, vs)
  {
    if SameUpdates([u] + us, [v] + vs) {
      assert SameUpdate(([u] + us)[0], ([v] + vs)[0]);
      forall i | 0 <= i < |us|
        ensures SameUpdate(us[i], vs[i])
      {
        assert SameUpdate(([u] + us)[i + 1], ([v] + vs)[i + 1]);
      }
    }
  }

  lemma {:induction false} UpdatesLockstep(context: Option<string>, us: seq<Update>, c: Cache)
    requires CacheOk(c)
    ensures var (ws, s) := DedupUpdates(context, us, c);
            var (outs, r) := UndedupUpdates(context, ws, c);
            && CacheOk(s)
            && (SameUpdates(us, outs) <==> UpdatesFine(context, us, c))
            && (UpdatesFine(context, us, c) ==> s == r)
  {
    hide CacheOk, UpdateFine, SameUpdate, DedupUpdate, UndedupUpdate;
    if us == [] {
    } else {
      UpdateLockstep(context, us[0], c);
      var (w, s) := DedupUpdate(context, us[0], c);
      UpdatesLockstep(context, us[1..], s);
      var (ws, _) := DedupUpdates(context, us[1..], s);
      assert ([w] + ws)[1..] == ws;
      var (out, r) := UndedupUpdate(context, w, c);
      assert us == [us[0]] + us[1..];
      SameUpdatesSplit(us[0], us[1..], out, UndedupUpdates(context, ws, r).0);
    }
  }

  lemma DeltaLockstep(d: Delta, c: Cache)
    requires CacheOk(c)
    ensures var (out, s, r) := Exchange(d, c, c);
            && CacheOk(s)
            && (SameDelta(d, out) <==> DeltaFine(d, c))
            && (DeltaFine(d, c) ==> s == r)
  {
    hide CacheOk;
    if d.updates.Some? {
      UpdatesLockstep(d.context, d.updates.value, c);
    }
  }

  ghost predicate SameRun(ds: seq<Delta>, es: seq<Delta>) {
    |ds| == |es| && forall i :: 0 <= i < |ds| ==> SameDelta(ds[i], es[i])
  }

  lemma SameRunSplit(d: Delta, ds: seq<Delta>, e: Delta, es: seq<Delta>)
    ensures SameRun([d] + ds, [e] + es) <==> SameDelta(d, e) && SameRun(ds, es)
  {
    if SameRun([d] + ds, [e] + es) {
      assert SameDelta(([d] + ds)[0], ([e] + es)[0]);
      forall i | 0 <= i < |ds|
        ensures SameDelta(ds[i], es[i])
      {
        assert SameDelta(([d] + ds)[i + 1], ([e] + es)[i + 1]);
      }
    }
  }

  lemma {:induction false} LockstepFrom(ds: seq<Delta>, c: Cache)
    requires CacheOk(c)
    ensures var (outs, s, r) := ExchangeAll(ds, c, c);
            && (SameRun(ds, outs) <==> RunFine(ds, c))
            && (RunFine(ds, c) ==> s == r && CacheOk(s))
  {
    hide CacheOk, DeltaFine, SameDelta, DedupDelta, UndedupDelta;
    if ds == [] {
    } else {
      DeltaLockstep(ds[0], c);
      var (out, s, r) := Exchange(ds[0], c, c);
      LockstepFrom(ds[1..], s);
      assert ds == [ds[0]] + ds[1..];
      SameRunSplit(ds[0], ds[1..], out, ExchangeAll(ds[1..], s, r).0);
    }
  }

  /**
   * From empty caches, for every sequence of deltas: no update or entry is lost and every restored value prints like
   * the original, colliding cache keys or not, exactly if whatever is sentinel-shaped on the way repeats the value
   * cached then. In that case the two caches end equal, order and evictions included, within their bound.
   */
  lemma LockstepExactly(ds: seq<Delta>)
    ensures var (outs, s, r) := ExchangeAll(ds, Empty(), Empty());
            && (SameRun(ds, outs) <==> RunFine(ds, Empty()))
            && (RunFine(ds, Empty()) ==> s == r && s.Size() <= VALUE_DEDUP_CACHE_MAX)
  {
    LockstepFrom(ds, Empty());
  }

  lemma {:induction false} CleanEntriesAreFine(context: Option<string>, es: seq<Entry>, c: Cache)
    requires forall i :: 0 <= i < |es| ==> EntryClean(es[i])
    ensures EntriesFine(context, es, c)
  {
    hide EntryClean, DedupEntry;
    if es != [] {
      CleanEntriesAreFine(context, es[1..], DedupEntry(context, es[0], c).1);
    }
  }

  lemma CleanUpdateIsFine(context: Option<string>, u: Update, c: Cache)
    requires UpdateClean(u)
    ensures UpdateFine(context, u, c)
  {
    if u.values.Some? {
      CleanEntriesAreFine(context, u.values.value, c);
    }
  }

  lemma {:induction false} CleanUpdatesAreFine(context: Option<string>, us: seq<Update>, c: Cache)
    requires forall i :: 0 <= i < |us| ==> UpdateClean(us[i])
    ensures UpdatesFine(context, us, c)
  {
    hide UpdateClean, UpdateFine, DedupUpdate;
    if us != [] {
      CleanUpdateIsFine(context, us[0], c);
      CleanUpdatesAreFine(context, us[1..], DedupUpdate(context, us[0], c).1);
    }
  }

  lemma CleanDeltaIsFine(d: Delta, c: Cache)
    requires DeltaClean(d)
    ensures DeltaFine(d, c)
  {
    if d.updates.Some? {
      CleanUpdatesAreFine(d.context, d.updates.value, c);
    }
  }

  lemma {:induction false} CleanRunIsFine(ds: seq<Delta>, c: Cache)
    requires forall i :: 0 <= i < |ds| ==> DeltaClean(ds[i])
    ensures RunFine(ds, c)
  {
    hide DeltaClean, DeltaFine, DedupDelta;
    if ds != [] {
      CleanDeltaIsFine(ds[0], c);
      CleanRunIsFine(ds[1..], DedupDelta(ds[0], c).1);
    }
  }

  /** So for every sequence of deltas without sentinel-shaped values. */
  lemma Lockstep(ds: seq<Delta>)
    requires forall i :: 0 <= i < |ds| ==> DeltaClean(ds[i])
    ensures var (outs, s, r) := ExchangeAll(ds, Empty(), Empty());
            SameRun(ds, outs) && s == r && s.Size() <= VALUE_DEDUP_CACHE_MAX
  {
    CleanRunIsFine(ds, Empty());
    LockstepExactly(ds);
  }

  /**
   * What becomes of a sentinel-shaped value, for every cache: with nothing cached it is dropped; over a value that
   * prints like it that value arrives; over any other the receiver hands on the older value. The caches part but in the
   * second case.
   */
  lemma SentinelShapedValue(context: Option<string>, path: string, c: Cache)
    requires CacheOk(c) && path != ""
    ensures var e := PathValue(path, DUP_SENTINEL);
            var cached := Lookup(c, CacheKey(context, path));
            var (w, s) := DedupEntry(context, e, c);
            var (out, r) := UndedupEntry(context, w, c);
            && w == e
            && out == (if cached.Undefined? then None else Some(PathValue(path, cached)))
            && (s == r <==> !cached.Undefined? && StableRepr(cached) == StableRepr(DUP_SENTINEL))
  {
    hide StableRepr;
    EntryLockstep(context, PathValue(path, DUP_SENTINEL), c);
  }

  // ------------------------------------------------------------- restored values

  /** Two classes of values: all that JavaScript has, and those that JSON does not alter. */
  datatype Class = Any | Exact

  predicate Belongs(v: Value, k: Class) {
    if k.Any? then WellFormed(v) else Faithful(v)
  }

  /** Every value of the entry, update, delta or cache belongs to the class. */
  predicate EntryHolds(e: Entry, k: Class) {
    e.PathValue? && e.path != "" ==> Belongs(e.value, k)
  }

  predicate EntriesHold(es: seq<Entry>, k: Class) {
    forall i :: 0 <= i < |es| ==> EntryHolds(es[i], k)
  }

  predicate UpdateHolds(u: Update, k: Class) {
    u.values.Some? ==> EntriesHold(u.values.value, k)
  }

  predicate UpdatesHold(us: seq<Update>, k: Class) {
    forall i :: 0 <= i < |us| ==> UpdateHolds(us[i], k)
  }

  predicate DeltaHolds(d: Delta, k: Class) {
    d.updates.Some? ==> UpdatesHold(d.updates.value, k)
  }

  predicate DeltasHold(ds: seq<Delta>, k: Class) {
    forall i :: 0 <= i < |ds| ==> DeltaHolds(ds[i], k)
  }

  ghost predicate CacheHolds(c: Cache, k: Class) {
    CacheOk(c) && forall x :: x in c.vals ==> Belongs(c.vals[x], k)
  }

  lemma CacheSetHolds(c: Cache, key: string, v: Value, k: Class)
    requires CacheHolds(c, k) && Belongs(v, k)
    ensures CacheHolds(CacheSet(c, key, v), k)
  {
    CacheSetOk(c, key, v);
    LruSetFacts(c, key, v, VALUE_DEDUP_CACHE_MAX);
    forall x | x in CacheSet(c, key, v).vals
      ensures Belongs(CacheSet(c, key, v).vals[x], k)
    {
      if x != key {
        assert CacheSet(c, key, v).Get(x) == c.Get(x);
      }
    }
  }

  /** What the receiver hands on, it has been given before: no property of the values gets lost. */
  lemma EntryKeeps(context: Option<string>, e: Entry, c: Cache, k: Class)
    requires CacheHolds(c, k) && EntryClean(e) && EntryHolds(e, k)
    ensures var (w, s) := DedupEntry(context, e, c);
            var out := UndedupEntry(context, w, c).0;
            out.Some? && EntryHolds(out.value, k) && CacheHolds(s, k)
  {
    if e.PathValue? && e.path != "" {
      var key := CacheKey(context, e.path);
      CacheSetHolds(c, key, e.value, k);
      if Repeats(c, key, e.value) {
        CacheSetHolds(c, key, Lookup(c, key), k);
      }
    }
  }

  lemma {:induction false} EntriesKeep(context: Option<string>, es: seq<Entry>, c: Cache, k: Class)
    requires CacheHolds(c, k) && EntriesHold(es, k) && forall i :: 0 <= i < |es| ==> EntryClean(es[i])
    ensures var (ws, s) := DedupEntries(context, es, c);
            var outs := UndedupEntries(context, ws, c).0;
            CacheHolds(s, k) && EntriesHold(outs, k)
  {
    if es == [] {
    } else {
      EntryLockstep(context, es[0], c);
      EntryKeeps(context, es[0], c, k);
      var (w, s) := DedupEntry(context, es[0], c);
      EntriesKeep(context, es[1..], s, k);
      var (ws, _) := DedupEntries(context, es[1..], s);
      assert ([w] + ws)[1..] == ws;
      var outs := UndedupEntries(context, [w] + ws, c).0;
      assert outs == [UndedupEntry(context, w, c).0.value] + UndedupEntries(context, ws, s).0;
    }
  }

  lemma UpdateKeeps(context: Option<string>, u: Update, c: Cache, k: Class)
    requires CacheHolds(c, k) && UpdateClean(u) && UpdateHolds(u, k)
    ensures var (w, s) := DedupUpdate(context, u, c);
            UpdateHolds(UndedupUpdate(context, w, c).0, k) && CacheHolds(s, k)
  {
    if u.values.Some? {
      EntriesKeep(context, u.values.value, c, k);
    }
  }

  lemma {:induction false} UpdatesKeep(context: Option<string>, us: seq<Update>, c: Cache, k: Class)
    requires CacheHolds(c, k) && UpdatesHold(us, k) && forall i :: 0 <= i < |us| ==> UpdateClean(us[i])
    ensures var (ws, s) := DedupUpdates(context, us, c);
            var outs := UndedupUpdates(context, ws, c).0;
            CacheHolds(s, k) && UpdatesHold(outs, k)
  {
    if us == [] {
    } else {
      CleanUpdateIsFine(context, us[0], c);
      UpdateLockstep(context, us[0], c);
      UpdateKeeps(context, us[0], c, k);
      hide UpdateHolds, DedupUpdate, UndedupUpdate, CacheHolds, UpdateClean;
      var (w, s) := DedupUpdate(context, us[0], c);
      UpdatesKeep(context, us[1..], s, k);
      var (ws, _) := DedupUpdates(context, us[1..], s);
      assert ([w] + ws)[1..] == ws;
      assert UndedupUpdates(context, [w] + ws, c).0 == [UndedupUpdate(context, w, c).0] + UndedupUpdates(context, ws, s).0;
    }
  }

  lemma DeltaKeeps(d: Delta, c: Cache, k: Class)
    requires CacheHolds(c, k) && DeltaClean(d) && DeltaHolds(d, k)
    ensures var (out, s, _) := Exchange(d, c, c);
            DeltaHolds(out, k) && CacheHolds(s, k)
  {
    if d.updates.Some? {
      UpdatesKeep(d.context, d.updates.value, c, k);
    }
  }

  lemma {:induction false} RunKeeps(ds: seq<Delta>, c: Cache, k: Class)
    requires CacheHolds(c, k) && DeltasHold(ds, k) && forall i :: 0 <= i < |ds| ==> DeltaClean(ds[i])
    ensures DeltasHold(ExchangeAll(ds, c, c).0, k)
  {
    if ds == [] {
    } else {
      CleanDeltaIsFine(ds[0], c);
      DeltaLockstep(ds[0], c);
      DeltaKeeps(ds[0], c, k);
      hide Exchange, DeltaHolds, CacheHolds, DeltaClean;
      var (_, s, _) := Exchange(ds[0], c, c);
      RunKeeps(ds[1..], s, k);
      assert ExchangeAll(ds, c, c).0 == [Exchange(ds[0], c, c).0] + ExchangeAll(ds[1..], s, s).0;
    }
  }

  function NormEntry(e: Entry): Entry {
    if e.PathValue? && e.path != "" then e.(value := Norm(e.value)) else e
  }

  function NormUpdate(u: Update): Update {
    if u.values == None then u
    else u.(values := Some(seq(|u.values.value|, i requires 0 <= i < |u.values.value| => NormEntry(u.values.value[i]))))
  }

  function NormDelta(d: Delta): Delta {
    if d.updates == None then d
    else d.(updates := Some(seq(|d.updates.value|, i requires 0 <= i < |d.updates.value| => NormUpdate(d.updates.value[i]))))
  }

  lemma SameUpdateNorm(u: Update, v: Update)
    requires SameUpdate(u, v) && UpdateHolds(u, Any) && UpdateHolds(v, Any)
    ensures NormUpdate(u) == NormUpdate(v)
  {
    if u.values.Some? {
      forall i | 0 <= i < |u.values.value|
        ensures NormEntry(u.values.value[i]) == NormEntry(v.values.value[i])
      {
        var e, f := u.values.value[i], v.values.value[i];
        assert SameEntry(e, f) && EntryHolds(e, Any) && EntryHolds(f, Any);
        if e.PathValue? && e.path != "" {
          ReprsAgreeExactly(e.value, f.value);
        }
      }
      assert NormUpdate(u).values.value == NormUpdate(v).values.value;
    }
  }

  lemma SameDeltaNorm(d: Delta, e: Delta)
    requires SameDelta(d, e) && DeltaHolds(d, Any) && DeltaHolds(e, Any)
    ensures NormDelta(d) == NormDelta(e)
  {
    if d.updates.Some? {
      forall i | 0 <= i < |d.updates.value|
        ensures NormUpdate(d.updates.value[i]) == NormUpdate(e.updates.value[i])
      {
        SameUpdateNorm(d.updates.value[i], e.updates.value[i]);
      }
      assert NormDelta(d).updates.value == NormDelta(e).updates.value;
    }
  }

  /**
   * For every sequence of deltas without sentinel-shaped values, whatever is inside them: the receiver hands on
   * as many deltas, and each is the sender's up to what JSON forgets.
   */
  lemma RestoredUpToJson(ds: seq<Delta>)
    requires DeltasHold(ds, Any) && forall i :: 0 <= i < |ds| ==> DeltaClean(ds[i])
    ensures var outs := ExchangeAll(ds, Empty(), Empty()).0;
            |outs| == |ds| && forall i :: 0 <= i < |ds| ==> NormDelta(outs[i]) == NormDelta(ds[i])
  {
    Lockstep(ds);
    RunKeeps(ds, Empty(), Any);
    hide ExchangeAll, DeltaHolds, SameDelta, DeltaClean;
    var outs := ExchangeAll(ds, Empty(), Empty()).0;
    forall i | 0 <= i < |ds|
      ensures NormDelta(outs[i]) == NormDelta(ds[i])
    {
      SameDeltaNorm(ds[i], outs[i]);
    }
  }

  lemma SameUpdateFaithful(u: Update, v: Update)
    requires SameUpdate(u, v) && UpdateHolds(u, Exact) && UpdateHolds(v, Exact)
    ensures u == v
  {
    if u.values.Some? {
      forall i | 0 <= i < |u.values.value|
        ensures u.values.value[i] == v.values.value[i]
      {
        var e, f := u.values.value[i], v.values.value[i];
        assert SameEntry(e, f) && EntryHolds(e, Exact) && EntryHolds(f, Exact);
        if e != f {
          ReprIdentifiesValue(e.value, f.value);
        }
      }
      assert u.values.value == v.values.value;
    }
  }

  function OneValue(path: string, v: Value): Delta {
    Delta(None, Some([Update(Some([PathValue(path, v)]), Undefined)]))
  }

  /** An application value shaped like the sentinel is lost. */
  lemma SentinelShapedValueIsDropped()
    ensures ExchangeAll([OneValue("p", DUP_SENTINEL)], Empty(), Empty()).0
              == [Delta(None, Some([Update(Some([]), Undefined)]))]
  {
    var es := [PathValue("p", DUP_SENTINEL)];
    assert es[1..] == [];
    assert DedupEntries(None, es, Empty()).0 == es;
    assert UndedupEntries(None, es, Empty()).0 == [];
    var us := [Update(Some(es), Undefined)];
    assert us[1..] == [];
    assert DedupUpdates(None, us, Empty()).0 == us;
    assert UndedupUpdates(None, us, Empty()).0 == [Update(Some([]), Undefined)];
  }

  // a value after another one

  lemma OneValueExchange(v: Value, c: Cache)
    requires CacheOk(c) && !IsSentinel(v)
    ensures var key := CacheKey(None, "p");
            var same := Repeats(c, key, v);
            Exchange(OneValue("p", v), c, c)
              == (OneValue("p", if same then Lookup(c, key) else v), CacheSet(c, key, if same then Lookup(c, key) else v),
                  CacheSet(c, key, if same then Lookup(c, key) else v))
  {
    var key := CacheKey(None, "p");
    var e := PathValue("p", v);
    var (w, s) := DedupEntry(None, e, c);
    assert [e][1..] == [] && [w][1..] == [];
    var (out, r) := UndedupEntry(None, w, c);
    assert DedupEntries(None, [e], c).0 == [w] && DedupEntries(None, [e], c).1 == s;
    assert UndedupEntries(None, [w], c).0 == [out.value] && UndedupEntries(None, [w], c).1 == r;
    var u, x := Update(Some([e]), Undefined), Update(Some([w]), Undefined);
    assert [u][1..] == [] && [x][1..] == [];
    assert DedupUpdates(None, [u], c).0 == [x] && DedupUpdates(None, [u], c).1 == s;
    assert UndedupUpdates(None, [x], c).0 == [Update(Some([out.value]), Undefined)] && UndedupUpdates(None, [x], c).1 == r;
  }

  function Pair(u: Value, v: Value): seq<Delta> {
    [OneValue("p", u), OneValue("p", v)]
  }

  /** Two values in a row on one path, from empty caches, both arrive exactly if they are equal or do not print alike. */
  lemma PairRestored(u: Value, v: Value)
    requires WellFormed(u) && WellFormed(v) && !IsSentinel(u) && !IsSentinel(v)
    ensures ExchangeAll(Pair(u, v), Empty(), Empty()).0 == Pair(u, if Norm(u) == Norm(v) then u else v)
  {
    hide WellFormed, Inner, StableRepr, Exchange, CacheKey;
    var key, c0 := CacheKey(None, "p"), Empty<string, Value>();
    OneValueExchange(u, c0);
    var c1 := CacheSet(c0, key, u);
    CacheSetOk(c0, key, u);
    LruSetFacts(c0, key, u, VALUE_DEDUP_CACHE_MAX);
    OneValueExchange(v, c1);
    ReprsAgreeExactly(u, v);
    assert Lookup(c1, key) == u;
    var c2 := Exchange(OneValue("p", v), c1, c1).1;
    var p := Pair(u, v);
    assert p[1..] == [OneValue("p", v)] && p[1..][1..] == [];
    var out := if Norm(u) == Norm(v) then u else v;
    InnerIsPlain(v);
    assert Norm(u) == Norm(v) && u.Undefined? ==> v.Undefined?;
    assert Exchange(p[1], c1, c1).0 == OneValue("p", out);
    assert ExchangeAll(p[1..], c1, c1).0 == [OneValue("p", out)];
    assert ExchangeAll(p, c0, c0).0 == [p[0]] + ExchangeAll(p[1..], c1, c1).0;
    assert Pair(u, out) == [p[0]] + [OneValue("p", out)];
  }

  lemma SentinelExchange(c: Cache)
    requires CacheOk(c)
    ensures var cached := Lookup(c, CacheKey(None, "p"));
            !cached.Undefined? ==> Exchange(OneValue("p", DUP_SENTINEL), c, c).0 == OneValue("p", cached)
  {
    hide StableRepr, CacheKey;
    var cached := Lookup(c, CacheKey(None, "p"));
    if !cached.Undefined? {
      var e := PathValue("p", DUP_SENTINEL);
      SentinelShapedValue(None, "p", c);
      assert [e][1..] == [];
      assert DedupEntries(None, [e], c).0 == [e] && UndedupEntries(None, [e], c).0 == [PathValue("p", cached)];
      var u := Update(Some([e]), Undefined);
      assert [u][1..] == [];
      assert DedupUpdates(None, [u], c).0 == [u];
      assert UndedupUpdates(None, [u], c).0 == [Update(Some([PathValue("p", cached)]), Undefined)];
    }
  }

  /** In two deltas from empty caches: after any value, one shaped like the sentinel arrives as that value. */
  lemma SentinelBringsBackTheOlder(u: Value)
    requires !IsSentinel(u) && !u.Undefined?
    ensures ExchangeAll(Pair(u, DUP_SENTINEL), Empty(), Empty()).0 == Pair(u, u)
  {
    hide StableRepr, Exchange, CacheKey, IsSentinel;
    var key, c0 := CacheKey(None, "p"), Empty<string, Value>();
    OneValueExchange(u, c0);
    var c1 := CacheSet(c0, key, u);
    CacheSetOk(c0, key, u);
    LruSetFacts(c0, key, u, VALUE_DEDUP_CACHE_MAX);
    SentinelExchange(c1);
    var p := Pair(u, DUP_SENTINEL);
    assert p[1..] == [p[1]] && [p[1]][1..] == [];
    assert ExchangeAll(p[1..], c1, c1).0 == [OneValue("p", u)];
    assert ExchangeAll(p, c0, c0).0 == [p[0]] + ExchangeAll(p[1..], c1, c1).0;
  }

  /** A value arrives unharmed after every other one exactly if no other value prints like it. */
  lemma RestoredAfterAnything(v: Value)
    requires WellFormed(v) && !IsSentinel(v)
    ensures (forall u | WellFormed(u) && !IsSentinel(u) :: ExchangeAll(Pair(u, v), Empty(), Empty()).0 == Pair(u, v)) <==> Alone(v)
  {
    hide WellFormed, StableRepr, ExchangeAll, Inner;
    NoLookAlikeExactly(v);
    if Alone(v) {
      forall u | WellFormed(u) && !IsSentinel(u)
        ensures ExchangeAll(Pair(u, v), Empty(), Empty()).0 == Pair(u, v)
      {
        PairRestored(u, v);
        ReprsAgreeExactly(u, v);
      }
    } else {
      var u := Twin(v);
      TwinLooksAlike(v);
      ReprsAgreeExactly(u, v);
      if v.Obj? {
        assert u.fields[|v.fields|].val.Undefined?;
      }
      PairRestored(u, v);
      assert Pair(u, u)[1] != Pair(u, v)[1];
    }
  }

  /** In two deltas from empty caches: null inside an object, then NaN in its place, arrives as null both times. */
  lemma NestedNaNIsRestoredAsNull()
    ensures var a, b := Obj([Field("x", Null)]), Obj([Field("x", NaN)]);
            ExchangeAll(Pair(a, b), Empty(), Empty()).0 == Pair(a, a)
  {
    var a, b := Obj([Field("x", Null)]), Obj([Field("x", NaN)]);
    NestedNaNLooksLikeNull();
    ReprsAgreeExactly(b, a);
    PairRestored(a, b);
  }

  lemma SameDeltaFaithful(d: Delta, e: Delta)
    requires SameDelta(d, e) && DeltaHolds(d, Exact) && DeltaHolds(e, Exact)
    ensures d == e
  {
    if d.updates.Some? {
      forall i | 0 <= i < |d.updates.value|
        ensures d.updates.value[i] == e.updates.value[i]
      {
        SameUpdateFaithful(d.updates.value[i], e.updates.value[i]);
      }
      assert d.updates.value == e.updates.value;
    }
  }

  lemma SameDeltasFaithful(ds: seq<Delta>, outs: seq<Delta>)
    requires DeltasHold(ds, Exact) && DeltasHold(outs, Exact) && |ds| == |outs|
    requires forall i :: 0 <= i < |ds| ==> SameDelta(ds[i], outs[i])
    ensures outs == ds
  {
    hide DeltaHolds, SameDelta;
    forall i | 0 <= i < |ds|
      ensures outs[i] == ds[i]
    {
      SameDeltaFaithful(ds[i], outs[i]);
    }
  }

  /**
   * When nothing inside a value is undefined or non-finite, deduplication is invisible: the
   * receiver hands on exactly the deltas the sender was given.
   */
  lemma ExactRestoration(ds: seq<Delta>)
    requires DeltasHold(ds, Exact) && forall i :: 0 <= i < |ds| ==> DeltaClean(ds[i])
    ensures ExchangeAll(ds, Empty(), Empty()).0 == ds
  {
    hide ExchangeAll, DeltaClean, DeltaHolds, SameDelta;
    Lockstep(ds);
    RunKeeps(ds, Empty(), Exact);
    SameDeltasFaithful(ds, ExchangeAll(ds, Empty(), Empty()).0);
  }
}
