/** The source registry as an object: its map and counters are updated in place. */
module SourceRegistryService {
  import opened Common
  import opened JsMap
  import opened SourceRegistry
  import opened SourceRegistryTheorems

  class Registry {
    var records: JsMap<string, Record>
    var counters: Counters
    ghost var inserted: nat
    ghost var clock: int

    /** Ordered by age, at most 5000 records, and every insertion accounted for. */
    ghost predicate Valid()
      reads this
      ensures Valid() ==> records.Valid() && records.Size() <= SOURCE_REGISTRY_MAX_RECORDS
      ensures Valid() ==> OrderedBy(records.order, records.vals) && inserted == records.Size() + counters.evictions
    {
      Inv(View())
    }

    ghost function View(): State
      reads this
    {
      State(records, counters, inserted, clock)
    }

    constructor ()
      ensures Valid() && View() == Init
    {
      hide Inv, JsMap.Valid, OrderedBy;
      FreshRegistry();
      records, counters, inserted, clock := Init.records, Init.counters, Init.inserted, Init.clock;
    }

    method DeleteHead()
      requires records.Valid() && records.order != []
      modifies this`records, this`counters
      ensures records.Valid() && records == RemoveHead(old(records))
      ensures counters == old(counters).(evictions := old(counters).evictions + 1)
    {
      DeleteValid(records, records.order[0]);
      records := records.Delete(records.order[0]);
      counters := counters.(evictions := counters.evictions + 1);
    }

    method EvictStaleAndOverflow(now: int)
      requires records.Valid()
      modifies this
      ensures records.Valid() && View() == Evict(old(View()), now)
    {
      hide JsMap.Valid;
      DropsShrink(records, now);
      var cutoff := now - SOURCE_REGISTRY_TTL_MS;
      while records.order != [] && HeadOf(records).lastSeen < cutoff
        invariant records.Valid() && DropStale(records, now) == DropStale(old(records), now)
        invariant counters == old(counters).(evictions := old(counters).evictions + (old(records).Size() - records.Size()))
        invariant records.Size() <= old(records).Size()
        invariant inserted == old(inserted)
        decreases |records.order|
      {
        DeleteHead();
      }
      assert records == DropStale(old(records), now);
      while records.Size() > SOURCE_REGISTRY_MAX_RECORDS
        invariant records.Valid() && DropOverflow(records) == DropOverflow(DropStale(old(records), now))
        invariant counters == old(counters).(evictions := old(counters).evictions + (old(records).Size() - records.Size()))
        invariant records.Size() <= old(records).Size()
        invariant inserted == old(inserted)
        decreases |records.order|
      {
        DeleteHead();
      }
      clock := now;
    }

    /** `stored` is false when the merged record is the one there was: only its time and position change. */
    method MergeRecord(u: Incoming, at: Readings) returns (stored: bool)
      requires records.Valid() && u.identity.Some?
      modifies this
      ensures records.Valid() && View() == Upserted(old(View()), u, at)
      ensures stored <==> counters.upserts > old(counters).upserts
    {
      hide JsMap.Valid, Merged, ConflictsOf;
      var existing := records.Get(u.key);
      var content := Merged(existing, u, at.fallback);
      counters := counters.(conflicts := counters.conflicts + NewConflicts(existing, u));
      clock := at.fallback;
      if existing.Some? && existing.value.content == content {
        records := Refresh(records, u.key, existing.value.(lastSeen := at.seen));
        counters := counters.(noops := counters.noops + 1);
        return false;
      }
      var first := if existing.Some? then existing.value.firstSeen else at.seen;
      records := Refresh(records, u.key, Record(content, first, at.seen, at.seen));
      counters := counters.(upserts := counters.upserts + 1);
      inserted := inserted + (if existing.Some? then 0 else 1);
      return true;
    }

    method UpsertSingleUpdate(u: Incoming, at: Readings)
      requires Valid() && InOrder(clock, at)
      modifies this
      ensures Valid() && View() == Upsert(old(View()), u, at) && clock <= at.evict
    {
      UpsertKeeps(View(), u, at);
      hide Inv, JsMap.Valid, OrderedBy, Upserted, Evict;
      if u.identity == None {
        counters := counters.(missingIdentity := counters.missingIdentity + 1);
        return;
      }
      var stored := MergeRecord(u, at);
      if stored && records.Size() > SOURCE_REGISTRY_MAX_RECORDS {
        EvictStaleAndOverflow(at.evict);
      }
    }

    method UpsertFromDelta(updates: seq<Timed>, end: int)
      requires Valid() && EventInOrder(clock, Delta(updates, end))
      modifies this
      ensures Valid() && View() == Step(old(View()), Delta(updates, end))
    {
      StepKeeps(View(), Delta(updates, end));
      hide Inv, JsMap.Valid, OrderedBy, Upsert, Evict;
      for i := 0 to |updates|
        invariant Valid() && View() == UpsertAll(old(View()), updates[..i])
        invariant clock <= LastReading(old(clock), updates[..i])
      {
        assert updates[..i + 1][..i] == updates[..i];
        UpsertSingleUpdate(updates[i].update, updates[i].at);
      }
      assert updates[..|updates|] == updates;
      EvictStaleAndOverflow(end);
    }

    method GetSize(now: int) returns (size: nat)
      requires Valid() && clock <= now
      modifies this
      ensures Valid() && View() == Step(old(View()), Read(now)) && size == records.Size()
    {
      StepKeeps(View(), Read(now));
      hide Inv, JsMap.Valid, OrderedBy, Evict;
      EvictStaleAndOverflow(now);
      size := records.Size();
    }
  }
}
