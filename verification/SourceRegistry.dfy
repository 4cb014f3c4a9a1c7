/**
 * The registry of data sources seen by a server: records merged update by update, kept in the order in which they
 * were last seen, dropped when unseen for a week or when there are too many. Times are milliseconds.
 */
module SourceRegistry {
  import opened Common
  import opened JsMap

  const SOURCE_REGISTRY_TTL_MS: int := 604800000
  const SOURCE_REGISTRY_MAX_RECORDS: nat := 5000

  /** A time stamp as written, and what it parses to. */
  datatype Stamp = Stamp(text: string, ms: Option<int>)

  /** No field is the empty string. */
  datatype Identity = Identity(sourceLabel: Option<string>, kind: Option<string>, src: Option<string>,
                               instance: Option<string>, pgn: Option<string>, deviceId: Option<string>)

  /** Where a record's last update came from. */
  datatype Provenance = Provenance(author: string, client: string, stamp: Option<Stamp>)

  /** What the merge hash digests, but for the key. */
  datatype Content = Content(identity: Identity, provenance: Provenance, raw: string)

  datatype Record = Record(content: Content, firstSeen: int, lastSeen: int, lastUpdated: int)

  /** An update with its identity resolved; `None` when it names no source. */
  datatype Incoming = Incoming(key: string, identity: Option<Identity>, provenance: Provenance, raw: string)

  /** The clock readings of one update, in the order they are taken. */
  datatype Readings = Readings(seen: int, fallback: int, evict: int)

  datatype Counters = Counters(upserts: nat, noops: nat, missingIdentity: nat, conflicts: nat, evictions: nat)

  /** `inserted` and `clock` are history: records added for the first time, and the last clock reading. */
  datatype State = State(records: JsMap<string, Record>, counters: Counters, inserted: nat, clock: int)

  const Init: State := State(Empty(), Counters(0, 0, 0, 0, 0), 0, 0)

  // --------------------------------------------------------------------- merging

  /** A missing side gives way; of two different values the later one wins. */
  function ChooseValue(current: Option<string>, incoming: Option<string>, currentMs: int, incomingMs: int): Option<string> {
    if incoming == None then current
    else if current == None then incoming
    else if incomingMs >= currentMs then incoming else current
  }

  predicate Conflicts(current: Option<string>, incoming: Option<string>) {
    current.Some? && incoming.Some? && current != incoming
  }

  function Merge(a: Identity, b: Identity, aMs: int, bMs: int): Identity {
    Identity(ChooseValue(a.sourceLabel, b.sourceLabel, aMs, bMs), ChooseValue(a.kind, b.kind, aMs, bMs),
             ChooseValue(a.src, b.src, aMs, bMs), ChooseValue(a.instance, b.instance, aMs, bMs),
             ChooseValue(a.pgn, b.pgn, aMs, bMs), ChooseValue(a.deviceId, b.deviceId, aMs, bMs))
  }

  function Count(b: bool): nat {
    if b then 1 else 0
  }

  function ConflictsOf(a: Identity, b: Identity): nat {
    Count(Conflicts(a.sourceLabel, b.sourceLabel)) + Count(Conflicts(a.kind, b.kind)) + Count(Conflicts(a.src, b.src))
      + Count(Conflicts(a.instance, b.instance)) + Count(Conflicts(a.pgn, b.pgn)) + Count(Conflicts(a.deviceId, b.deviceId))
  }

  /** The time that stands for an update: its own stamp if it parses, else `fallback`. */
  function StampMs(p: Provenance, fallback: int): int {
    if p.stamp.Some? && p.stamp.value.ms.Some? then p.stamp.value.ms.value else fallback
  }

  function Merged(existing: Option<Record>, u: Incoming, fallback: int): Content
    requires u.identity.Some?
  {
    var identity :=
      if existing == None then u.identity.value
      else Merge(existing.value.content.identity, u.identity.value,
                 StampMs(existing.value.content.provenance, existing.value.lastUpdated), StampMs(u.provenance, fallback));
    Content(identity, u.provenance, u.raw)
  }

  // -------------------------------------------------------------------- eviction

  predicate Stale(r: Record, now: int) {
    r.lastSeen < now - SOURCE_REGISTRY_TTL_MS
  }

  function RemoveHead<V>(m: JsMap<string, V>): (r: JsMap<string, V>)
    requires m.Valid() && m.order != []
    ensures r.Valid() && r.order == m.order[1..] && r.vals == m.vals - {m.order[0]}
  {
    DeleteValid(m, m.order[0]);
    assert m.order[0] in Elements(m.order);
    m.Delete(m.order[0])
  }

  /** The scan stops at the first record that is not stale. */
  function DropStale(m: JsMap<string, Record>, now: int): (r: JsMap<string, Record>)
    requires m.Valid()
    ensures r.Valid()
    decreases |m.order|
  {
    if m.order != [] && Stale(HeadOf(m), now) then DropStale(RemoveHead(m), now) else m
  }

  function HeadOf(m: JsMap<string, Record>): Record
    requires m.Valid() && m.order != []
  {
    assert m.order[0] in Elements(m.order);
    m.vals[m.order[0]]
  }

  function DropOverflow(m: JsMap<string, Record>): (r: JsMap<string, Record>)
    requires m.Valid()
    ensures r.Valid()
    decreases |m.order|
  {
    if m.Size() > SOURCE_REGISTRY_MAX_RECORDS then DropOverflow(RemoveHead(m)) else m
  }

  function Evict(s: State, now: int): (t: State)
    requires s.records.Valid()
    ensures t.records.Valid()
  {
    var m := DropOverflow(DropStale(s.records, now));
    DropsShrink(s.records, now);
    State(m, s.counters.(evictions := s.counters.evictions + (s.records.Size() - m.Size())), s.inserted, now)
  }

  lemma {:induction false} DropsShrink(m: JsMap<string, Record>, now: int)
    requires m.Valid()
    ensures DropOverflow(DropStale(m, now)).Size() <= DropStale(m, now).Size() <= m.Size()
    decreases |m.order|
  {
    if m.order != [] && Stale(HeadOf(m), now) {
      DropsShrink(RemoveHead(m), now);
    } else {
      OverflowShrinks(m);
    }
  }

  lemma {:induction false} OverflowShrinks(m: JsMap<string, Record>)
    requires m.Valid()
    ensures DropOverflow(m).Size() == Min(m.Size(), SOURCE_REGISTRY_MAX_RECORDS)
    decreases |m.order|
  {
    if m.Size() > SOURCE_REGISTRY_MAX_RECORDS {
      OverflowShrinks(RemoveHead(m));
    }
  }

  // -------------------------------------------------------------------- upserting

  /** A present record moves to the tail; a new one is added there. */
  function Refresh(m: JsMap<string, Record>, k: string, r: Record): (n: JsMap<string, Record>)
    requires m.Valid()
    ensures n.Valid() && n.Size() == m.Size() + (if m.Has(k) then 0 else 1)
  {
    DeleteValid(m, k);
    SetValid(m.Delete(k), k, r);
    m.Delete(k).Set(k, r)
  }

  function Upserted(s: State, u: Incoming, at: Readings): (t: State)
    requires s.records.Valid() && u.identity.Some?
    ensures t.records.Valid()
  {
    var existing := s.records.Get(u.key);
    var content := Merged(existing, u, at.fallback);
    if existing.Some? && existing.value.content == content then
      s.(records := Refresh(s.records, u.key, existing.value.(lastSeen := at.seen)),
         counters := s.counters.(noops := s.counters.noops + 1,
                                 conflicts := s.counters.conflicts + NewConflicts(existing, u)),
         clock := at.fallback)
    else
      var first := if existing.Some? then existing.value.firstSeen else at.seen;
      s.(records := Refresh(s.records, u.key, Record(content, first, at.seen, at.seen)),
         counters := s.counters.(upserts := s.counters.upserts + 1,
                                 conflicts := s.counters.conflicts + NewConflicts(existing, u)),
         inserted := s.inserted + (if existing.Some? then 0 else 1),
         clock := at.fallback)
  }

  function NewConflicts(existing: Option<Record>, u: Incoming): nat
    requires u.identity.Some?
  {
    if existing.Some? then ConflictsOf(existing.value.content.identity, u.identity.value) else 0
  }

  function Upsert(s: State, u: Incoming, at: Readings): (t: State)
    requires s.records.Valid()
    ensures t.records.Valid()
  {
    if u.identity == None then s.(counters := s.counters.(missingIdentity := s.counters.missingIdentity + 1))
    else
      var t := Upserted(s, u, at);
      if t.counters.upserts > s.counters.upserts && t.records.Size() > SOURCE_REGISTRY_MAX_RECORDS
      then Evict(t, at.evict) else t
  }

  // -------------------------------------------------------------------- every run

  datatype Timed = Timed(update: Incoming, at: Readings)

  datatype Event =
    | Delta(updates: seq<Timed>, end: int)
    | Read(now: int)

  function UpsertAll(s: State, us: seq<Timed>): (t: State)
    requires s.records.Valid()
    ensures t.records.Valid()
  {
    if us == [] then s
    else Upsert(UpsertAll(s, us[..|us| - 1]), us[|us| - 1].update, us[|us| - 1].at)
  }

  function Step(s: State, e: Event): (t: State)
    requires s.records.Valid()
    ensures t.records.Valid()
  {
    match e
    case Delta(updates, end) => Evict(UpsertAll(s, updates), end)
    case Read(now) => Evict(s, now)
  }

  function Run(s: State, es: seq<Event>): (t: State)
    requires s.records.Valid()
    ensures t.records.Valid()
    decreases |es|
  {
    if es == [] then s else Run(Step(s, es[0]), es[1..])
  }
}
