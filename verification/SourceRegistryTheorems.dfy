/** The registry stays ordered by age, so its early-stopping scan is exact; it is bounded, and every record is accounted for. */
module SourceRegistryTheorems {
  import opened Common
  import opened JsMap
  import opened SourceRegistry

  type Records = JsMap<string, Record>

  function SeenAt(vals: map<string, Record>, k: string): int {
    if k in vals then vals[k].lastSeen else 0
  }

  /** Older records stand before younger ones. */
  ghost predicate OrderedBy(order: seq<string>, vals: map<string, Record>) {
    forall i, j :: 0 <= i < j < |order| ==> SeenAt(vals, order[i]) <= SeenAt(vals, order[j])
  }

  ghost predicate SeenBy(m: Records, clock: int) {
    forall k :: m.Has(k) ==> m.vals[k].firstSeen <= m.vals[k].lastUpdated <= m.vals[k].lastSeen <= clock
  }

  ghost predicate Aged(m: Records, clock: int) {
    m.Valid() && OrderedBy(m.order, m.vals) && SeenBy(m, clock)
  }

  // ------------------------------------------------------------ the early-exit scan

  lemma HeadFacts(m: Records)
    requires m.Valid() && m.order != []
    ensures m.Has(m.order[0]) && m.vals[m.order[0]] == HeadOf(m)
    ensures forall k :: RemoveHead(m).Has(k) <==> m.Has(k) && k != m.order[0]
    ensures forall k :: RemoveHead(m).Has(k) ==> RemoveHead(m).vals[k] == m.vals[k]
  {
    assert m.order[0] in Elements(m.order);
  }

  lemma RemoveHeadAged(m: Records, clock: int)
    requires Aged(m, clock) && m.order != []
    ensures Aged(RemoveHead(m), clock)
  {
    HeadFacts(m);
    var r := RemoveHead(m);
    forall i | 0 <= i < |r.order|
      ensures SeenAt(r.vals, r.order[i]) == SeenAt(m.vals, m.order[i + 1])
    {
      assert r.order[i] == m.order[i + 1] != m.order[0];
    }
  }

  lemma HeadIsOldest(m: Records, clock: int, k: string)
    requires Aged(m, clock) && m.Has(k)
    ensures m.order != [] && HeadOf(m).lastSeen <= m.vals[k].lastSeen
  {
    assert k in Elements(m.order);
    var j :| 0 <= j < |m.order| && m.order[j] == k;
    HeadFacts(m);
    assert SeenAt(m.vals, m.order[0]) <= SeenAt(m.vals, m.order[j]);
  }

  /** The scan that stops at the first fresh record removes exactly the stale ones. */
  lemma {:induction false} ScanIsExact(m: Records, clock: int, now: int)
    requires Aged(m, clock)
    ensures Aged(DropStale(m, now), clock)
    ensures forall k :: DropStale(m, now).Has(k) <==> m.Has(k) && !Stale(m.vals[k], now)
    ensures forall k :: DropStale(m, now).Has(k) ==> DropStale(m, now).vals[k] == m.vals[k]
    decreases |m.order|
  {
    hide Aged;
    AgedValid(m, clock);
    if m.order != [] && Stale(HeadOf(m), now) {
      HeadFacts(m);
      RemoveHeadAged(m, clock);
      ScanIsExact(RemoveHead(m), clock, now);
    } else {
      forall k | m.Has(k)
        ensures !Stale(m.vals[k], now)
      {
        HeadIsOldest(m, clock, k);
      }
    }
  }

  lemma AgedValid(m: Records, clock: int)
    requires Aged(m, clock)
    ensures m.Valid()
  {
  }

  /** What the hard cap drops is no younger than anything it keeps. */
  lemma {:induction false} OverflowDropsOldest(m: Records, clock: int)
    requires Aged(m, clock)
    ensures var r := DropOverflow(m);
            && Aged(r, clock)
            && (forall k :: r.Has(k) ==> m.Has(k) && r.vals[k] == m.vals[k])
            && (forall k, d :: r.Has(k) && m.Has(d) && !r.Has(d) ==> m.vals[d].lastSeen <= r.vals[k].lastSeen)
    decreases |m.order|
  {
    hide Aged;
    AgedValid(m, clock);
    if m.Size() > SOURCE_REGISTRY_MAX_RECORDS {
      HeadFacts(m);
      RemoveHeadAged(m, clock);
      OverflowDropsOldest(RemoveHead(m), clock);
      var r := DropOverflow(m);
      forall k, d | r.Has(k) && m.Has(d) && !r.Has(d)
        ensures m.vals[d].lastSeen <= r.vals[k].lastSeen
      {
        if d == m.order[0] {
          HeadIsOldest(m, clock, k);
        }
      }
    }
  }

  // ----------------------------------------------------------------- one upsert

  lemma {:induction false} WithoutOrdered(order: seq<string>, vals: map<string, Record>, k: string)
    requires OrderedBy(order, vals)
    ensures OrderedBy(Without(order, k), vals)
    ensures forall x :: x in Without(order, k) ==> x in order
  {
    if order == [] {
    } else {
      assert order == [order[0]] + order[1..];
      WithoutOrdered(order[1..], vals, k);
      var rest := Without(order[1..], k);
      if order[0] != k {
        forall j | 0 <= j < |rest|
          ensures SeenAt(vals, order[0]) <= SeenAt(vals, rest[j])
        {
          assert rest[j] in order[1..];
          var i :| 0 <= i < |order[1..]| && order[1..][i] == rest[j];
          assert order[i + 1] == rest[j];
        }
      }
    }
  }

  lemma AppendOrdered(order: seq<string>, vals: map<string, Record>, k: string, r: Record)
    requires OrderedBy(order, vals) && k !in order
    requires forall i :: 0 <= i < |order| ==> SeenAt(vals, order[i]) <= r.lastSeen
    ensures OrderedBy(order + [k], vals[k := r])
  {
    var w := vals[k := r];
    forall i | 0 <= i < |order|
      ensures SeenAt(w, order[i]) == SeenAt(vals, order[i])
    {
      assert order[i] in order;
    }
  }

  lemma WithoutKey(order: seq<string>, vals: map<string, Record>, k: string)
    requires OrderedBy(order, vals) && k !in order
    ensures OrderedBy(order, vals - {k})
  {
    forall i | 0 <= i < |order|
      ensures SeenAt(vals - {k}, order[i]) == SeenAt(vals, order[i])
    {
      assert order[i] in order;
    }
  }

  lemma RefreshShape(m: Records, k: string, r: Record)
    requires m.Valid()
    ensures var n := Refresh(m, k, r);
            n.order == Without(m.order, k) + [k] && n.vals == (m.vals - {k})[k := r]
  {
    WithoutFacts(m.order, k);
    assert k in Elements(m.order) <==> m.Has(k);
    hide JsMap.Valid, Without;
    if m.Has(k) {
      assert m.Delete(k).order == Without(m.order, k) && m.Delete(k).vals == m.vals - {k};
    } else {
      assert m.vals - {k} == m.vals;
    }
  }

  lemma RestAged(m: Records, clock: int, k: string)
    requires Aged(m, clock)
    ensures var rest := Without(m.order, k);
            && OrderedBy(rest, m.vals - {k}) && k !in rest
            && (forall i :: 0 <= i < |rest| ==> SeenAt(m.vals - {k}, rest[i]) <= clock)
  {
    var rest := Without(m.order, k);
    WithoutOrdered(m.order, m.vals, k);
    WithoutFacts(m.order, k);
    assert k !in Elements(rest);
    WithoutKey(rest, m.vals, k);
    forall i | 0 <= i < |rest|
      ensures SeenAt(m.vals - {k}, rest[i]) <= clock
    {
      assert rest[i] in Elements(rest) && rest[i] in Elements(m.order);
      assert m.Has(rest[i]);
    }
  }

  /** Moving a record to the tail as it is seen keeps the order. */
  lemma RefreshAged(m: Records, clock: int, k: string, r: Record, now: int)
    requires Aged(m, clock) && clock <= now && r.lastSeen == now && r.firstSeen <= r.lastUpdated <= now
    ensures Aged(Refresh(m, k, r), now)
  {
    RestAged(m, clock, k);
    RefreshShape(m, k, r);
    AppendOrdered(Without(m.order, k), m.vals - {k}, k, r);
    var n := Refresh(m, k, r);
    hide Refresh, OrderedBy, Without;
    forall x | n.Has(x)
      ensures n.vals[x].firstSeen <= n.vals[x].lastUpdated <= n.vals[x].lastSeen <= now
    {
      assert x == k || m.Has(x);
    }
  }

  /** Ages, bound, and the account of every record ever inserted. */
  ghost predicate Inv(s: State) {
    && Aged(s.records, s.clock)
    && s.records.Size() <= SOURCE_REGISTRY_MAX_RECORDS
    && s.inserted == s.records.Size() + s.counters.evictions
  }

  predicate InOrder(from: int, at: Readings) {
    from <= at.seen <= at.fallback <= at.evict
  }

  lemma AgedLater(m: Records, clock: int, now: int)
    requires Aged(m, clock) && clock <= now
    ensures Aged(m, now)
  {
  }

  lemma UpsertedFacts(s: State, u: Incoming, at: Readings)
    requires Inv(s) && u.identity.Some? && InOrder(s.clock, at)
    ensures var t := Upserted(s, u, at);
            && Aged(t.records, t.clock) && t.clock == at.fallback
            && t.records.Size() <= SOURCE_REGISTRY_MAX_RECORDS + 1
            && t.inserted == t.records.Size() + t.counters.evictions
            && (t.counters.upserts == s.counters.upserts ==> t.records.Size() == s.records.Size())
  {
    hide Merged, OrderedBy, JsMap.Valid, Refresh, ConflictsOf;
    var existing := s.records.Get(u.key);
    if existing.Some? {
      assert s.records.Has(u.key);
      RefreshAged(s.records, s.clock, u.key, existing.value.(lastSeen := at.seen), at.seen);
    }
    var first := if existing.Some? then existing.value.firstSeen else at.seen;
    var r := Record(Merged(existing, u, at.fallback), first, at.seen, at.seen);
    RefreshAged(s.records, s.clock, u.key, r, at.seen);
    hide Aged;
    AgedLater(Upserted(s, u, at).records, at.seen, at.fallback);
  }

  lemma EvictKeeps(s: State, now: int)
    requires Aged(s.records, s.clock) && s.clock <= now
    requires s.inserted == s.records.Size() + s.counters.evictions
    ensures Inv(Evict(s, now)) && Evict(s, now).clock == now
  {
    hide Aged, DropStale, DropOverflow;
    AgedValid(s.records, s.clock);
    ScanIsExact(s.records, s.clock, now);
    var m := DropStale(s.records, now);
    OverflowDropsOldest(m, s.clock);
    OverflowShrinks(m);
    DropsShrink(s.records, now);
    AgedLater(DropOverflow(m), s.clock, now);
  }

  lemma UpsertKeeps(s: State, u: Incoming, at: Readings)
    requires Inv(s) && InOrder(s.clock, at)
    ensures Inv(Upsert(s, u, at)) && Upsert(s, u, at).clock <= at.evict && s.clock <= Upsert(s, u, at).clock
  {
    hide Aged, Upserted, Evict;
    InvValid(s);
    if u.identity.Some? {
      UpsertedFacts(s, u, at);
      var t := Upserted(s, u, at);
      if t.counters.upserts > s.counters.upserts && t.records.Size() > SOURCE_REGISTRY_MAX_RECORDS {
        EvictKeeps(t, at.evict);
      } else {
        UpsertsGrow(s, u, at);
      }
    }
  }

  lemma UpsertsGrow(s: State, u: Incoming, at: Readings)
    requires s.records.Valid() && u.identity.Some?
    ensures Upserted(s, u, at).counters.upserts >= s.counters.upserts
  {
  }

  // -------------------------------------------------------------------- every run

  predicate AllInOrder(from: int, us: seq<Timed>) {
    && (us != [] ==> InOrder(from, us[0].at))
    && (forall i :: 0 < i < |us| ==> InOrder(us[i - 1].at.evict, us[i].at))
  }

  function LastReading(from: int, us: seq<Timed>): int {
    if us == [] then from else us[|us| - 1].at.evict
  }

  lemma {:induction false} UpsertAllKeeps(s: State, us: seq<Timed>)
    requires Inv(s) && AllInOrder(s.clock, us)
    ensures Inv(UpsertAll(s, us)) && s.clock <= UpsertAll(s, us).clock <= LastReading(s.clock, us)
  {
    hide Inv, Upsert;
    if us != [] {
      var n := |us| - 1;
      InvValid(s);
      UpsertAllKeeps(s, us[..n]);
      var m := UpsertAll(s, us[..n]);
      InvValid(m);
      UpsertKeeps(m, us[n].update, us[n].at);
    }
  }

  lemma InvValid(s: State)
    requires Inv(s)
    ensures s.records.Valid() && Aged(s.records, s.clock) && s.inserted == s.records.Size() + s.counters.evictions
  {
  }

  predicate EventInOrder(from: int, e: Event) {
    match e
    case Delta(us, end) => AllInOrder(from, us) && LastReading(from, us) <= end
    case Read(now) => from <= now
  }

  lemma StepKeeps(s: State, e: Event)
    requires Inv(s) && EventInOrder(s.clock, e)
    ensures Inv(Step(s, e))
  {
    hide Inv, Evict, UpsertAll;
    InvValid(s);
    match e
    case Delta(us, end) =>
      UpsertAllKeeps(s, us);
      InvValid(UpsertAll(s, us));
      EvictKeeps(UpsertAll(s, us), end);
    case Read(now) =>
      EvictKeeps(s, now);
  }

  predicate AllTimed(s: State, es: seq<Event>)
    requires s.records.Valid()
    decreases |es|
  {
    es == [] || (EventInOrder(s.clock, es[0]) && AllTimed(Step(s, es[0]), es[1..]))
  }

  lemma {:induction false} RunKeeps(s: State, es: seq<Event>)
    requires Inv(s) && AllTimed(s, es)
    ensures Inv(Run(s, es))
    decreases |es|
  {
    hide Inv, Step;
    InvValid(s);
    if es != [] {
      StepKeeps(s, es[0]);
      RunKeeps(Step(s, es[0]), es[1..]);
    }
  }

  lemma FreshRegistry()
    ensures Inv(Init)
  {
    assert Elements<string>([]) == {};
  }

  /**
   * After every call of every run: records stand in the order they were last seen, there are at most 5000, and
   * every first-time insertion is either still there or counted as an eviction.
   */
  lemma EveryRunIsOrderedAndBounded(es: seq<Event>)
    requires Init.records.Valid() && AllTimed(Init, es)
    ensures Inv(Run(Init, es))
  {
    FreshRegistry();
    hide Inv, AllTimed, Run, JsMap.Valid;
    RunKeeps(Init, es);
  }

  /** Reading never shows a record unseen for a week, and hides none seen since unless there are too many. */
  lemma ReadShowsTheLiving(s: State, now: int, k: string)
    requires Inv(s) && s.clock <= now
    ensures Step(s, Read(now)).records.Has(k) <==> s.records.Has(k) && now - s.records.vals[k].lastSeen <= 604800000
  {
    hide Aged;
    InvValid(s);
    ScanIsExact(s.records, s.clock, now);
    DropsShrink(s.records, now);
  }

  /** Nor does a delta leave one: of the records after its updates it keeps those seen within a week. */
  lemma DeltaKeepsTheLiving(s: State, us: seq<Timed>, end: int, k: string)
    requires Inv(s) && EventInOrder(s.clock, Delta(us, end))
    ensures s.records.Valid()
    ensures var m := UpsertAll(s, us).records;
            Step(s, Delta(us, end)).records.Has(k) <==> m.Has(k) && end - m.vals[k].lastSeen <= 604800000
  {
    InvValid(s);
    UpsertAllKeeps(s, us);
    var t := UpsertAll(s, us);
    hide Aged, UpsertAll;
    ScanIsExact(t.records, t.clock, end);
    DropsShrink(t.records, end);
  }

  // ------------------------------------------------------------------ repetition

  /** Does the update lose the conflicts it has with what the registry knows? */
  predicate Loses(existing: Option<Record>, u: Incoming, fallback: int)
    requires u.identity.Some?
  {
    && existing.Some?
    && ConflictsOf(existing.value.content.identity, u.identity.value) > 0
    && StampMs(u.provenance, fallback) < StampMs(existing.value.content.provenance, existing.value.lastUpdated)
  }

  /** A record that took over the update's stamp loses to it, or ties, when it comes again. */
  lemma OwnStampTies(r: Record, u: Incoming, fallback: int)
    requires r.content.provenance == u.provenance && r.lastUpdated <= fallback
    ensures StampMs(u.provenance, fallback) >= StampMs(r.content.provenance, r.lastUpdated)
  {
  }

  lemma RepeatedMerge(existing: Option<Record>, u: Incoming, fallback: int, r: Record, again: int)
    requires u.identity.Some? && r.content == Merged(existing, u, fallback) && r.lastUpdated <= again
    ensures Merged(Some(r), u, again) == r.content <==> !Loses(existing, u, fallback)
  {
    OwnStampTies(r, u, again);
    hide StampMs;
  }

  /** What an upsert leaves under its key, if anything. */
  ghost predicate Leaves(t: State, u: Incoming, content: Content, latest: int) {
    t.records.Has(u.key) ==> t.records.vals[u.key].content == content && t.records.vals[u.key].lastUpdated <= latest
  }

  lemma EvictLeaves(s: State, now: int, u: Incoming, content: Content, latest: int)
    requires Aged(s.records, s.clock) && Leaves(s, u, content, latest)
    ensures Leaves(Evict(s, now), u, content, latest)
  {
    hide Aged, DropStale, DropOverflow;
    AgedValid(s.records, s.clock);
    ScanIsExact(s.records, s.clock, now);
    OverflowDropsOldest(DropStale(s.records, now), s.clock);
  }

  lemma UpsertLeaves(s: State, u: Incoming, at: Readings)
    requires Inv(s) && u.identity.Some? && InOrder(s.clock, at)
    ensures Leaves(Upsert(s, u, at), u, Merged(s.records.Get(u.key), u, at.fallback), at.seen)
  {
    var existing := s.records.Get(u.key);
    var content := Merged(existing, u, at.fallback);
    UpsertedFacts(s, u, at);
    var t := Upserted(s, u, at);
    assert Leaves(t, u, content, at.seen) by {
      if existing.Some? {
        assert s.records.Has(u.key);
      }
      hide Merged;
    }
    hide Aged, Inv, Upserted, Evict, Leaves, Merged;
    if t.counters.upserts > s.counters.upserts && t.records.Size() > SOURCE_REGISTRY_MAX_RECORDS {
      EvictLeaves(t, at.evict, u, content, at.seen);
    }
  }

  /** The upsert found nothing to store. */
  predicate WasNoop(s: State, t: State) {
    t.counters.noops == s.counters.noops + 1 && t.counters.upserts == s.counters.upserts
  }

  lemma NoopMeans(s: State, u: Incoming, at: Readings)
    requires s.records.Valid() && u.identity.Some?
    ensures WasNoop(s, Upsert(s, u, at))
       <==> (s.records.Has(u.key) && Merged(s.records.Get(u.key), u, at.fallback) == s.records.vals[u.key].content)
  {
    hide Merged, Refresh, DropStale, DropOverflow;
  }

  /**
   * Upserting an update twice: the second call is a no-op exactly if the first left its record in place and did not
   * lose a conflict to a later one; having lost, it wins the second time, because the record took over its stamp.
   */
  lemma RepeatIsNoop(s: State, u: Incoming, at: Readings, again: Readings)
    requires Inv(s) && u.identity.Some? && InOrder(s.clock, at) && InOrder(at.evict, again)
    ensures var s1 := Upsert(s, u, at);
            WasNoop(s1, Upsert(s1, u, again)) <==> s1.records.Has(u.key) && !Loses(s.records.Get(u.key), u, at.fallback)
  {
    var s1 := Upsert(s, u, at);
    UpsertKeeps(s, u, at);
    UpsertLeaves(s, u, at);
    NoopMeans(s1, u, again);
    hide Inv, Upsert, Merged, Loses, WasNoop;
    if s1.records.Has(u.key) {
      RepeatedMerge(s.records.Get(u.key), u, at.fallback, s1.records.vals[u.key], again.fallback);
    }
  }

  /** The third call is a no-op whatever the stamps, if the second left its record in place. */
  lemma ThirdTimeIsNoop(s: State, u: Incoming, at1: Readings, at2: Readings, at3: Readings)
    requires Inv(s) && u.identity.Some?
    requires InOrder(s.clock, at1) && InOrder(at1.evict, at2) && InOrder(at2.evict, at3)
    ensures var s2 := Upsert(Upsert(s, u, at1), u, at2);
            WasNoop(s2, Upsert(s2, u, at3)) <==> s2.records.Has(u.key)
  {
    var s1 := Upsert(s, u, at1);
    UpsertKeeps(s, u, at1);
    UpsertLeaves(s, u, at1);
    RepeatIsNoop(s1, u, at2, at3);
    if s1.records.Has(u.key) {
      OwnStampTies(s1.records.vals[u.key], u, at2.fallback);
      hide StampMs, Inv, Upsert;
    }
  }

  // ------------------------------------------------------------ what an update does

  /** Of a field's two values a missing one gives way, and of two different ones the incoming one wins unless it is older. */
  predicate Chosen(was: Option<string>, incoming: Option<string>, notOlder: bool, now: Option<string>) {
    now == if incoming == None then was else if was == None || notOlder then incoming else was
  }

  /** The time an update stands for: its stamp if that can be read, else the given one. */
  function TimeOf(p: Provenance, otherwise: int): int {
    if p.stamp.Some? && p.stamp.value.ms.Some? then p.stamp.value.ms.value else otherwise
  }

  /** Field by field. */
  predicate MergedFrom(was: Identity, incoming: Identity, notOlder: bool, now: Identity) {
    && Chosen(was.sourceLabel, incoming.sourceLabel, notOlder, now.sourceLabel)
    && Chosen(was.kind, incoming.kind, notOlder, now.kind) && Chosen(was.src, incoming.src, notOlder, now.src)
    && Chosen(was.instance, incoming.instance, notOlder, now.instance) && Chosen(was.pgn, incoming.pgn, notOlder, now.pgn)
    && Chosen(was.deviceId, incoming.deviceId, notOlder, now.deviceId)
  }

  function Differ(was: Option<string>, incoming: Option<string>): nat {
    if was.Some? && incoming.Some? && was.value != incoming.value then 1 else 0
  }

  /** In how many fields the two say different things. */
  function Differences(was: Identity, incoming: Identity): nat {
    Differ(was.sourceLabel, incoming.sourceLabel) + Differ(was.kind, incoming.kind) + Differ(was.src, incoming.src)
    + Differ(was.instance, incoming.instance) + Differ(was.pgn, incoming.pgn) + Differ(was.deviceId, incoming.deviceId)
  }

  /**
   * An upsert merges the identity field by field, takes over where the update came from, keeps when the record was first
   * seen, notes that it is seen now, and that it changed if it did; no other record is touched before the cap is.
   */
  lemma UpdateIsMerged(s: State, u: Incoming, at: Readings)
    requires s.records.Valid() && u.identity.Some?
    ensures var t, known := Upserted(s, u, at), s.records.Has(u.key);
            && t.records.Has(u.key) && (forall k :: k != u.key ==> t.records.Get(k) == s.records.Get(k))
            && var r := t.records.vals[u.key];
            && r.content.provenance == u.provenance && r.content.raw == u.raw && r.lastSeen == at.seen
            && (!known ==> r.content.identity == u.identity.value && r.firstSeen == at.seen && r.lastUpdated == at.seen
                           && t.counters == s.counters.(upserts := s.counters.upserts + 1))
            && (known ==>
                  var was := s.records.vals[u.key];
                  var noop := r.content == was.content;
                  && MergedFrom(was.content.identity, u.identity.value,
                                TimeOf(u.provenance, at.fallback) >= TimeOf(was.content.provenance, was.lastUpdated), r.content.identity)
                  && r.firstSeen == was.firstSeen && r.lastUpdated == (if noop then was.lastUpdated else at.seen)
                  && t.counters == s.counters.(upserts := s.counters.upserts + (if noop then 0 else 1),
                                               noops := s.counters.noops + (if noop then 1 else 0),
                                               conflicts := s.counters.conflicts + Differences(was.content.identity, u.identity.value)))
  {
    var existing := s.records.Get(u.key);
    if existing.Some? {
      RefreshOthers(s.records, u.key, existing.value.(lastSeen := at.seen));
      MergeIsFieldwise(existing.value.content.identity, u.identity.value,
                       StampMs(existing.value.content.provenance, existing.value.lastUpdated), StampMs(u.provenance, at.fallback));
    }
    var first := if existing.Some? then existing.value.firstSeen else at.seen;
    RefreshOthers(s.records, u.key, Record(Merged(existing, u, at.fallback), first, at.seen, at.seen));
    hide Merge, MergedFrom, ConflictsOf, Differences, Refresh, JsMap.Valid;
  }

  lemma MergeIsFieldwise(was: Identity, incoming: Identity, wasMs: int, incomingMs: int)
    ensures MergedFrom(was, incoming, incomingMs >= wasMs, Merge(was, incoming, wasMs, incomingMs))
    ensures ConflictsOf(was, incoming) == Differences(was, incoming)
  {
    hide ChooseValue, Chosen, Conflicts, Count, Differ;
    FieldIsChosen(was.sourceLabel, incoming.sourceLabel, wasMs, incomingMs);
    FieldIsChosen(was.kind, incoming.kind, wasMs, incomingMs);
    FieldIsChosen(was.src, incoming.src, wasMs, incomingMs);
    FieldIsChosen(was.instance, incoming.instance, wasMs, incomingMs);
    FieldIsChosen(was.pgn, incoming.pgn, wasMs, incomingMs);
    FieldIsChosen(was.deviceId, incoming.deviceId, wasMs, incomingMs);
  }

  lemma FieldIsChosen(was: Option<string>, incoming: Option<string>, wasMs: int, incomingMs: int)
    ensures Chosen(was, incoming, incomingMs >= wasMs, ChooseValue(was, incoming, wasMs, incomingMs))
    ensures Count(Conflicts(was, incoming)) == Differ(was, incoming)
  {
  }

  lemma RefreshOthers(m: JsMap<string, Record>, k: string, r: Record)
    requires m.Valid()
    ensures Refresh(m, k, r).Get(k) == Some(r) && forall x :: x != k ==> Refresh(m, k, r).Get(x) == m.Get(x)
  {
  }

  /** An update that names no source is counted and changes nothing. */
  lemma NoIdentityNoRecord(s: State, u: Incoming, at: Readings)
    requires s.records.Valid() && u.identity == None
    ensures Upsert(s, u, at) == s.(counters := s.counters.(missingIdentity := s.counters.missingIdentity + 1))
  {
  }

  function KindOnly(key: string, kind: string, ms: int): Incoming {
    Incoming(key, Some(Identity(None, Some(kind), None, None, None, None)),
             Provenance("", "", Some(Stamp("", Some(ms)))), "")
  }

  function KindOf(s: State, key: string): Option<string> {
    if s.records.Has(key) then s.records.vals[key].content.identity.kind else None
  }

  /** For any two stamps and kinds: the older update loses to the newer one when it comes, and is stored when repeated. */
  lemma LoserWinsWhenRepeated(key: string, x: string, y: string, older: int, newer: int, at: Readings)
    requires older < newer && x != y
    ensures Init.records.Valid()
    ensures var s1 := Upsert(Init, KindOnly(key, x, newer), at);
            var s2 := Upsert(s1, KindOnly(key, y, older), at);
            var s3 := Upsert(s2, KindOnly(key, y, older), at);
            KindOf(s1, key) == Some(x) && KindOf(s2, key) == Some(x) && KindOf(s3, key) == Some(y)
  {
    hide Upsert, Refresh, DropStale, DropOverflow;
    var u, v := KindOnly(key, x, newer), KindOnly(key, y, older);
    OneRecordUpsert(Init, u, at);
    var s1 := Upsert(Init, u, at);
    OneRecordUpsert(s1, v, at);
    var s2 := Upsert(s1, v, at);
    OneRecordUpsert(s2, v, at);
  }

  /** In a registry of at most one record, an upsert leaves the merged content. */
  lemma OneRecordUpsert(s: State, u: Incoming, at: Readings)
    requires s.records.Valid() && u.identity.Some? && s.records.Size() + 1 < SOURCE_REGISTRY_MAX_RECORDS
    ensures var t := Upsert(s, u, at);
            && t.records.Has(u.key) && t.records.vals[u.key].content == Merged(s.records.Get(u.key), u, at.fallback)
            && t.records.Size() == s.records.Size() + (if s.records.Has(u.key) then 0 else 1)
  {
    hide Merged, DropStale, DropOverflow;
  }

  lemma {:induction false} LastSurvives(m: Records, k: string)
    requires m.Valid() && m.order != [] && m.order[|m.order| - 1] == k
    ensures DropOverflow(m).Has(k)
    decreases |m.order|
  {
    if m.Size() > SOURCE_REGISTRY_MAX_RECORDS {
      LastSurvives(RemoveHead(m), k);
    } else {
      assert k in Elements(m.order);
    }
  }

  lemma {:induction false} ScanKeepsLast(m: Records, now: int, k: string)
    requires m.Valid() && m.order != [] && m.order[|m.order| - 1] == k && m.Has(k) && !Stale(m.vals[k], now)
    ensures var r := DropStale(m, now);
            r.order != [] && r.order[|r.order| - 1] == k
    decreases |m.order|
  {
    if Stale(HeadOf(m), now) {
      HeadFacts(m);
      assert m.order[0] != k;
      ScanKeepsLast(RemoveHead(m), now, k);
    }
  }

  /** An upsert leaves its record in place unless the call itself lasts longer than a record may go unseen. */
  lemma UpsertKeepsItsRecord(s: State, u: Incoming, at: Readings)
    requires Inv(s) && u.identity.Some? && InOrder(s.clock, at) && at.evict - at.seen <= SOURCE_REGISTRY_TTL_MS
    ensures Upsert(s, u, at).records.Has(u.key)
  {
    var t := Upserted(s, u, at);
    UpsertedFacts(s, u, at);
    UpsertedIsLast(s, u, at);
    if t.counters.upserts > s.counters.upserts && t.records.Size() > SOURCE_REGISTRY_MAX_RECORDS {
      hide Inv, Upserted, Aged;
      ScanKeepsLast(t.records, at.evict, u.key);
      LastSurvives(DropStale(t.records, at.evict), u.key);
    }
  }

  lemma UpsertedIsLast(s: State, u: Incoming, at: Readings)
    requires s.records.Valid() && u.identity.Some?
    ensures var m := Upserted(s, u, at).records;
            && m.order != [] && m.order[|m.order| - 1] == u.key
            && m.Has(u.key) && m.vals[u.key].lastSeen == at.seen
  {
    var existing := s.records.Get(u.key);
    var first := if existing.Some? then existing.value.firstSeen else at.seen;
    RefreshShape(s.records, u.key, Record(Merged(existing, u, at.fallback), first, at.seen, at.seen));
    if existing.Some? {
      RefreshShape(s.records, u.key, existing.value.(lastSeen := at.seen));
    }
    hide Merged, Refresh;
  }
}
