/** What value deduplication puts on the wire: which values go out as the sentinel. */
module DedupWire {
  import opened Common
  import opened JsMap
  import opened JsonValue
  import opened LruHistory
  import opened ValueDedup

  // ------------------------------------------------------------------ deltas as entries

  datatype Item = Item(context: Option<string>, entry: Entry)

  function ItemsOfEntries(context: Option<string>, es: seq<Entry>): seq<Item> {
    seq(|es|, i requires 0 <= i < |es| => Item(context, es[i]))
  }

  function ItemsOfUpdates(context: Option<string>, us: seq<Update>): seq<Item> {
    if us == [] then []
    else (if us[0].values.Some? then ItemsOfEntries(context, us[0].values.value) else []) + ItemsOfUpdates(context, us[1..])
  }

  function ItemsOf(d: Delta): seq<Item> {
    if d.updates.Some? then ItemsOfUpdates(d.context, d.updates.value) else []
  }

  /** The entries of several deltas, in order. */
  function Items(ds: seq<Delta>): seq<Item> {
    if ds == [] then [] else ItemsOf(ds[0]) + Items(ds[1..])
  }

  /** The wire deltas of a run. */
  function Sent(ds: seq<Delta>, c: Cache): seq<Delta> {
    if ds == [] then []
    else
      var (w, s) := DedupDelta(ds[0], c);
      [w] + Sent(ds[1..], s)
  }

  predicate SameShapes(us: seq<Update>, ws: seq<Update>) {
    && |us| == |ws|
    && forall i :: 0 <= i < |us| ==>
         && ws[i].rest == us[i].rest && (ws[i].values.Some? <==> us[i].values.Some?)
         && (us[i].values.Some? ==> |ws[i].values.value| == |us[i].values.value|)
  }

  /** Equal but for the entries, which are as many. */
  predicate SameShape(d: Delta, w: Delta) {
    && w.context == d.context && (w.updates.Some? <==> d.updates.Some?)
    && (d.updates.Some? ==> SameShapes(d.updates.value, w.updates.value))
  }

  /** The cache before item `n` of a run. */
  function CacheBefore(xs: seq<Item>, c: Cache, n: nat): Cache
    requires n <= |xs|
  {
    if n == 0 then c else DedupEntry(xs[n - 1].context, xs[n - 1].entry, CacheBefore(xs, c, n - 1)).1
  }

  function WireItem(xs: seq<Item>, c: Cache, n: nat): Item
    requires n < |xs|
  {
    Item(xs[n].context, DedupEntry(xs[n].context, xs[n].entry, CacheBefore(xs, c, n)).0)
  }

  /** The wire items are those of the entries, one after another, and leave that cache. */
  ghost predicate Follows(xs: seq<Item>, ws: seq<Item>, c: Cache, after: Cache) {
    && |ws| == |xs| && after == CacheBefore(xs, c, |xs|)
    && forall n :: 0 <= n < |xs| ==> ws[n] == WireItem(xs, c, n)
  }

  lemma {:induction false} CacheAppend(xs: seq<Item>, ys: seq<Item>, c: Cache, n: nat)
    requires n <= |ys|
    ensures CacheBefore(xs + ys, c, |xs| + n) == CacheBefore(ys, CacheBefore(xs, c, |xs|), n)
    decreases n
  {
    hide DedupEntry;
    if n == 0 {
      CachePrefix(xs, ys, c, |xs|);
    } else {
      CacheAppend(xs, ys, c, n - 1);
      assert (xs + ys)[|xs| + n - 1] == ys[n - 1];
    }
  }

  lemma {:induction false} CachePrefix(xs: seq<Item>, ys: seq<Item>, c: Cache, n: nat)
    requires n <= |xs|
    ensures CacheBefore(xs + ys, c, n) == CacheBefore(xs, c, n)
    decreases n
  {
    hide DedupEntry;
    if n > 0 {
      CachePrefix(xs, ys, c, n - 1);
    }
  }

  lemma FollowsAppend(xs: seq<Item>, ws: seq<Item>, c: Cache, mid: Cache, ys: seq<Item>, vs: seq<Item>, after: Cache)
    requires Follows(xs, ws, c, mid) && Follows(ys, vs, mid, after)
    ensures Follows(xs + ys, ws + vs, c, after)
  {
    hide DedupEntry, CacheBefore;
    CacheAppend(xs, ys, c, |ys|);
    forall n | 0 <= n < |xs + ys|
      ensures (ws + vs)[n] == WireItem(xs + ys, c, n)
    {
      if n < |xs| {
        CachePrefix(xs, ys, c, n);
      } else {
        CacheAppend(xs, ys, c, n - |xs|);
      }
    }
  }

  lemma NothingFollows(c: Cache)
    ensures Follows([], [], c, c)
  {
  }

  lemma OneFollows(x: Item, c: Cache)
    ensures var (w, s) := DedupEntry(x.context, x.entry, c);
            Follows([x], [Item(x.context, w)], c, s)
  {
    hide DedupEntry;
    assert CacheBefore([x], c, 0) == c;
  }

  lemma {:induction false} EntriesFollow(context: Option<string>, es: seq<Entry>, c: Cache)
    ensures var (ws, s) := DedupEntries(context, es, c);
            |ws| == |es| && Follows(ItemsOfEntries(context, es), ItemsOfEntries(context, ws), c, s)
  {
    hide DedupEntry, Follows;
    if es == [] {
      NothingFollows(c);
      assert ItemsOfEntries(context, es) == [];
    } else {
      var (w, s) := DedupEntry(context, es[0], c);
      var (ws, s') := DedupEntries(context, es[1..], s);
      EntriesFollow(context, es[1..], s);
      OneFollows(Item(context, es[0]), c);
      FollowsAppend([Item(context, es[0])], [Item(context, w)], c, s,
                    ItemsOfEntries(context, es[1..]), ItemsOfEntries(context, ws), s');
      assert ItemsOfEntries(context, es) == [Item(context, es[0])] + ItemsOfEntries(context, es[1..]);
      assert ItemsOfEntries(context, [w] + ws) == [Item(context, w)] + ItemsOfEntries(context, ws);
    }
  }

  lemma {:induction false} UpdatesFollow(context: Option<string>, us: seq<Update>, c: Cache)
    ensures var (ws, s) := DedupUpdates(context, us, c);
            SameShapes(us, ws) && Follows(ItemsOfUpdates(context, us), ItemsOfUpdates(context, ws), c, s)
  {
    hide DedupEntries, Follows, ItemsOfEntries;
    if us == [] {
      NothingFollows(c);
    } else {
      var (w, s) := DedupUpdate(context, us[0], c);
      var (ws, s') := DedupUpdates(context, us[1..], s);
      UpdatesFollow(context, us[1..], s);
      assert ([w] + ws)[1..] == ws;
      if us[0].values.Some? {
        EntriesFollow(context, us[0].values.value, c);
        FollowsAppend(ItemsOfEntries(context, us[0].values.value), ItemsOfEntries(context, w.values.value), c, s,
                      ItemsOfUpdates(context, us[1..]), ItemsOfUpdates(context, ws), s');
      } else {
        assert [] + ItemsOfUpdates(context, us[1..]) == ItemsOfUpdates(context, us[1..]);
        assert [] + ItemsOfUpdates(context, ws) == ItemsOfUpdates(context, ws);
      }
    }
  }

  lemma DeltaFollows(d: Delta, c: Cache)
    ensures var (w, s) := DedupDelta(d, c);
            SameShape(d, w) && Follows(ItemsOf(d), ItemsOf(w), c, s)
  {
    hide Follows, SameShapes;
    if d.updates.Some? {
      UpdatesFollow(d.context, d.updates.value, c);
    } else {
      NothingFollows(c);
    }
  }

  lemma {:induction false} RunFollows(ds: seq<Delta>, c: Cache)
    ensures var ws := Sent(ds, c);
            && |ws| == |ds| && (forall i :: 0 <= i < |ds| ==> SameShape(ds[i], ws[i]))
            && Follows(Items(ds), Items(ws), c, CacheBefore(Items(ds), c, |Items(ds)|))
  {
    hide Follows, SameShape, DedupDelta, ItemsOf;
    if ds == [] {
      NothingFollows(c);
    } else {
      var (w, s) := DedupDelta(ds[0], c);
      DeltaFollows(ds[0], c);
      RunFollows(ds[1..], s);
      var ws, xs := Sent(ds[1..], s), Items(ds[1..]);
      assert ([w] + ws)[1..] == ws;
      FollowsAppend(ItemsOf(ds[0]), ItemsOf(w), c, s, xs, Items(ws), CacheBefore(xs, s, |xs|));
      FollowsEnds(Items(ds), Items(Sent(ds, c)), c, CacheBefore(xs, s, |xs|));
    }
  }

  lemma FollowsEnds(xs: seq<Item>, ws: seq<Item>, c: Cache, after: Cache)
    ensures Follows(xs, ws, c, after) ==> after == CacheBefore(xs, c, |xs|)
  {
  }

  // ---------------------------------------------------------------------- who shares a key

  /** An absent context and an empty one count as "*". */
  function Scope(context: Option<string>): string {
    if context.Some? && context.value != "" then context.value else "*"
  }

  function Place(x: Item): string
    requires x.entry.PathValue?
  {
    Scope(x.context) + "\0" + x.entry.path
  }

  predicate NoNul(s: string) {
    forall i :: 0 <= i < |s| ==> s[i] != '\0'
  }

  /** Without "\0" in them, only an absent context, an empty one and "*" are taken for each other. */
  lemma PlacesAgreeExactly(x: Item, y: Item)
    requires x.entry.PathValue? && y.entry.PathValue? && NoNul(Scope(x.context)) && NoNul(Scope(y.context))
    ensures CacheKey(x.context, x.entry.path) == CacheKey(y.context, y.entry.path)
       <==> Scope(x.context) == Scope(y.context) && x.entry.path == y.entry.path
  {
    PlaceIsKey(x);
    PlaceIsKey(y);
    var a, b, p, q := Scope(x.context), Scope(y.context), x.entry.path, y.entry.path;
    if a + "\0" + p == b + "\0" + q {
      var s, t := a + "\0" + p, b + "\0" + q;
      assert s[|a|] == '\0' && t[|b|] == '\0';
      assert forall i :: 0 <= i < |a| ==> s[i] == a[i];
      assert forall i :: 0 <= i < |b| ==> t[i] == b[i];
      assert |a| == |b|;
      assert a == s[..|a|] && b == t[..|b|] && p == s[|a| + 1..] && q == t[|b| + 1..];
    }
  }

  lemma PlaceIsKey(x: Item)
    requires x.entry.PathValue?
    ensures CacheKey(x.context, x.entry.path) == Place(x)
  {
  }

  // ------------------------------------------------------------------ what the cache holds

  predicate Ordinary(x: Item) {
    x.entry.PathValue? && x.entry.path != ""
  }

  /** Item `i` is the last one before `n` that gave a value for the same place. */
  predicate GivenLast(xs: seq<Item>, i: nat, n: nat, place: string) {
    && i < n <= |xs| && Ordinary(xs[i]) && Place(xs[i]) == place
    && forall j :: i < j < n && Ordinary(xs[j]) ==> Place(xs[j]) != place
  }

  /** The other places given values between two items. */
  ghost function PlacesBetween(xs: seq<Item>, i: nat, n: nat): set<string>
    requires i < n <= |xs|
  {
    set j | i < j < n && Ordinary(xs[j]) :: Place(xs[j])
  }

  ghost predicate AllWellFormed(xs: seq<Item>) {
    forall n :: 0 <= n < |xs| && Ordinary(xs[n]) ==> WellFormed(xs[n].entry.value)
  }

  lemma {:induction false} CacheBeforeHolds(xs: seq<Item>, n: nat)
    requires n <= |xs| && AllWellFormed(xs)
    ensures CacheHolds(CacheBefore(xs, Empty(), n), Any)
    decreases n
  {
    if n > 0 {
      CacheBeforeHolds(xs, n - 1);
      var x, c := xs[n - 1], CacheBefore(xs, Empty(), n - 1);
      if Ordinary(x) {
        var key := CacheKey(x.context, x.entry.path);
        CacheSetHolds(c, key, x.entry.value, Any);
        if Repeats(c, key, x.entry.value) {
          CacheSetHolds(c, key, Lookup(c, key), Any);
        }
      }
    }
  }

  predicate Alike(v: Value, w: Value) {
    StableRepr(v) == StableRepr(w) && (v.Undefined? <==> w.Undefined?)
  }

  lemma RepeatsAlike(c: Cache, key: string, v: Value)
    requires CacheHolds(c, Any) && WellFormed(v) && Repeats(c, key, v)
    ensures Alike(Lookup(c, key), v)
  {
    ReprsAgreeExactly(Lookup(c, key), v);
    hide StableRepr, WellFormed;
  }

  /** Writing item `n` of its place: the cache then holds a value like it. */
  lemma GivenIsHeld(x: Item, c: Cache) returns (v: Value)
    requires Ordinary(x) && CacheHolds(c, Any) && WellFormed(x.entry.value)
    ensures Alike(v, x.entry.value)
    ensures DedupEntry(x.context, x.entry, c).1 == CacheSet(c, Place(x), v)
  {
    hide StableRepr, WellFormed;
    PlaceIsKey(x);
    if Repeats(c, Place(x), x.entry.value) {
      RepeatsAlike(c, Place(x), x.entry.value);
      v := Lookup(c, Place(x));
    } else {
      v := x.entry.value;
    }
  }

  lemma {:induction false} LastGivenIsHeld(xs: seq<Item>, i: nat, n: nat, place: string) returns (v: Value)
    requires AllWellFormed(xs) && GivenLast(xs, i, n, place)
    ensures Alike(v, xs[i].entry.value)
    ensures Held(CacheBefore(xs, Empty(), n), VALUE_DEDUP_CACHE_MAX, place, v, PlacesBetween(xs, i, n))
    decreases n
  {
    hide Held, DedupEntry, Alike, Belongs, Place;
    var c, x := CacheBefore(xs, Empty(), n - 1), xs[n - 1];
    CacheBeforeHolds(xs, n - 1);
    if i == n - 1 {
      v := GivenIsHeld(x, c);
      WriteSame(c, VALUE_DEDUP_CACHE_MAX, Write(place, v));
      assert PlacesBetween(xs, i, n) == {};
      assert CacheBefore(xs, Empty(), n) == LruSet(c, place, v, VALUE_DEDUP_CACHE_MAX);
    } else {
      v := LastGivenIsHeld(xs, i, n - 1, place);
      PlacesSnoc(xs, i, n - 1);
      if Ordinary(x) {
        var w := GivenIsHeld(x, c);
        WriteOther(c, VALUE_DEDUP_CACHE_MAX, place, v, PlacesBetween(xs, i, n - 1), Write(Place(x), w));
        assert CacheBefore(xs, Empty(), n) == LruSet(c, Place(x), w, VALUE_DEDUP_CACHE_MAX);
      } else {
        Unordinary(x, c);
        assert PlacesBetween(xs, i, n) == PlacesBetween(xs, i, n - 1);
      }
    }
  }

  lemma Unordinary(x: Item, c: Cache)
    requires !Ordinary(x)
    ensures DedupEntry(x.context, x.entry, c) == (x.entry, c)
  {
  }

  lemma PlacesSnoc(xs: seq<Item>, i: nat, n: nat)
    requires i < n < |xs|
    ensures PlacesBetween(xs, i, n + 1) == PlacesBetween(xs, i, n) + (if Ordinary(xs[n]) then {Place(xs[n])} else {})
  {
  }

  lemma {:induction false} NeverGiven(xs: seq<Item>, n: nat, place: string)
    requires n <= |xs| && AllWellFormed(xs) && forall j :: 0 <= j < n && Ordinary(xs[j]) ==> Place(xs[j]) != place
    ensures !CacheBefore(xs, Empty(), n).Has(place)
    decreases n
  {
    if n > 0 {
      NeverGiven(xs, n - 1, place);
      CacheBeforeHolds(xs, n - 1);
      var c, x := CacheBefore(xs, Empty(), n - 1), xs[n - 1];
      if Ordinary(x) {
        var v := GivenIsHeld(x, c);
        hide Place, DedupEntry, Belongs;
      }
    }
  }

  // ----------------------------------------------------------------------------- the wire

  /**
   * The value last given for the same place is not undefined and prints like this one, and fewer than 10000 other
   * places were given values since.
   */
  ghost predicate Repeated(xs: seq<Item>, i: nat, n: nat)
    requires n < |xs| && Ordinary(xs[n])
  {
    && GivenLast(xs, i, n, Place(xs[n]))
    && !xs[i].entry.value.Undefined? && StableRepr(xs[i].entry.value) == StableRepr(xs[n].entry.value)
    && |PlacesBetween(xs, i, n)| < 10000
  }

  /** What is to be on the wire for an entry: the sentinel for a repeated value, and else the entry itself. */
  ghost predicate WireIs(xs: seq<Item>, n: nat, w: Item)
    requires n < |xs|
  {
    if Ordinary(xs[n]) && exists i :: Repeated(xs, i, n)
    then w == Item(xs[n].context, PathValue(xs[n].entry.path, Obj([Field("$$", Str("dup"))])))
    else w == xs[n]
  }

  lemma {:induction false} LastGiven(xs: seq<Item>, n: nat, place: string) returns (i: nat)
    requires n <= |xs| && exists j :: 0 <= j < n && Ordinary(xs[j]) && Place(xs[j]) == place
    ensures GivenLast(xs, i, n, place)
    decreases n
  {
    if Ordinary(xs[n - 1]) && Place(xs[n - 1]) == place {
      i := n - 1;
    } else {
      i := LastGiven(xs, n - 1, place);
    }
  }

  lemma RepeatsExactly(xs: seq<Item>, n: nat)
    requires n < |xs| && AllWellFormed(xs) && Ordinary(xs[n])
    ensures Repeats(CacheBefore(xs, Empty(), n), Place(xs[n]), xs[n].entry.value) <==> exists i :: Repeated(xs, i, n)
  {
    hide StableRepr, WellFormed, Place, CacheBefore;
    var place := Place(xs[n]);
    if j :| 0 <= j < n && Ordinary(xs[j]) && Place(xs[j]) == place {
      var i := LastGiven(xs, n, place);
      var v := LastGivenIsHeld(xs, i, n, place);
      assert forall k :: Repeated(xs, k, n) ==> k == i;
      assert Repeated(xs, i, n) <==> Repeats(CacheBefore(xs, Empty(), n), place, xs[n].entry.value);
    } else {
      NeverGiven(xs, n, place);
    }
  }

  lemma ItemIsRight(xs: seq<Item>, n: nat)
    requires n < |xs| && AllWellFormed(xs)
    ensures WireIs(xs, n, WireItem(xs, Empty(), n))
  {
    hide StableRepr, CacheBefore, Repeated;
    if Ordinary(xs[n]) {
      PlaceIsKey(xs[n]);
      RepeatsExactly(xs, n);
    }
  }

  /** Every value of the deltas is one that JavaScript has. */
  lemma {:induction false} RunWellFormed(ds: seq<Delta>)
    requires DeltasHold(ds, Any)
    ensures AllWellFormed(Items(ds))
  {
    if ds != [] {
      hide WellFormed;
      assert DeltaHolds(ds[0], Any);
      assert DeltasHold(ds[1..], Any);
      if ds[0].updates.Some? {
        UpdatesWellFormed(ds[0].context, ds[0].updates.value);
      }
      RunWellFormed(ds[1..]);
    }
  }

  lemma {:induction false} UpdatesWellFormed(context: Option<string>, us: seq<Update>)
    requires UpdatesHold(us, Any)
    ensures AllWellFormed(ItemsOfUpdates(context, us))
  {
    if us != [] {
      hide WellFormed;
      assert UpdateHolds(us[0], Any);
      assert UpdatesHold(us[1..], Any);
      UpdatesWellFormed(context, us[1..]);
      if us[0].values.Some? {
        assert forall n :: 0 <= n < |us[0].values.value| ==> EntryHolds(us[0].values.value[n], Any);
      }
    }
  }

  /**
   * In every run of deltas from an empty cache: the wire deltas have the shape of the deltas, and an entry goes out as
   * the sentinel exactly if its value repeats the one last given for its place; every other entry goes out unchanged.
   */
  lemma WireExactly(ds: seq<Delta>)
    requires DeltasHold(ds, Any)
    ensures var ws := Sent(ds, Empty());
            && |ws| == |ds| && (forall i :: 0 <= i < |ds| ==> SameShape(ds[i], ws[i]))
            && |Items(ws)| == |Items(ds)|
            && forall n :: 0 <= n < |Items(ds)| ==> WireIs(Items(ds), n, Items(ws)[n])
  {
    RunFollows(ds, Empty());
    RunWellFormed(ds);
    hide Sent, Items, SameShape, WireIs, WireItem;
    forall n | 0 <= n < |Items(ds)|
      ensures WireIs(Items(ds), n, Items(Sent(ds, Empty()))[n])
    {
      ItemIsRight(Items(ds), n);
    }
  }
}
