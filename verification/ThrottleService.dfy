/** The throttle as an object whose record is updated value by value. */
module ThrottleService {
  import opened Common
  import opened JsMap
  import opened Throttle

  // Processing one element more extends the result of processing those before it.

  lemma {:induction false} EntriesSnoc(context: Option<string>, source: string, es: seq<Entry>, e: Entry,
                                       rules: Rules, st: State, now: real)
    ensures var (kept, m) := ThrottleEntries(context, source, es, rules, st, now);
            var all := ThrottleEntries(context, source, es + [e], rules, st, now);
            if e.path !in rules then all.0 == kept + [e] && all.1 == m
            else
              var o := OfferOf(context, source, e, rules, now);
              all.0 == kept + (if Forwards(m, o) then [e] else []) && all.1 == After(m, o)
    decreases |es|
  {
    hide Forwards, After, OfferOf;
    if es == [] {
      assert [e][1..] == [];
    } else {
      var st1 := if es[0].path in rules then After(st, OfferOf(context, source, es[0], rules, now)) else st;
      EntriesSnoc(context, source, es[1..], e, rules, st1, now);
      assert (es + [e])[1..] == es[1..] + [e];
    }
  }

  lemma {:induction false} UpdatesSnoc(context: Option<string>, us: seq<Update>, u: Update, rules: Rules, st: State, now: real)
    ensures var (kept, m) := ThrottleUpdates(context, us, rules, st, now);
            var (w, n) := ThrottleUpdate(context, u, rules, m, now);
            var all := ThrottleUpdates(context, us + [u], rules, st, now);
            all.0 == kept + (if w.Some? then [w.value] else []) && all.1 == n
    decreases |us|
  {
    hide ThrottleUpdate;
    if us == [] {
      assert [u][1..] == [];
    } else {
      UpdatesSnoc(context, us[1..], u, rules, ThrottleUpdate(context, us[0], rules, st, now).1, now);
      assert (us + [u])[1..] == us[1..] + [u];
    }
  }


  class PathThrottle {
    var lastSent: State

    /** At most as many records as the cap allows. */
    ghost predicate Valid()
      reads this
    {
      lastSent.Valid() && lastSent.Size() <= PATH_THROTTLE_STATE_MAX
    }

    constructor ()
      ensures Valid() && lastSent == Empty()
    {
      lastSent := Empty();
    }

    method RecordSentValue(key: string, v: Value, now: real)
      requires Valid()
      modifies this
      ensures Valid()
      ensures lastSent == LruSet(old(lastSent), key, Last(now, AsNumber(v)), PATH_THROTTLE_STATE_MAX)
    {
      LruSetFacts(lastSent, key, Last(now, AsNumber(v)), PATH_THROTTLE_STATE_MAX);
      if lastSent.Has(key) {
        lastSent := lastSent.Delete(key);
      } else if lastSent.Size() >= PATH_THROTTLE_STATE_MAX {
        if lastSent.order != [] {
          lastSent := lastSent.Delete(lastSent.order[0]);
        }
      }
      lastSent := lastSent.Set(key, Last(now, AsNumber(v)));
    }

    method ThrottleValues(context: Option<string>, source: string, es: seq<Entry>, rules: Rules, now: real)
      returns (kept: seq<Entry>)
      requires Valid()
      modifies this
      ensures Valid()
      ensures kept == ThrottleEntries(context, source, es, rules, old(lastSent), now).0
      ensures lastSent == ThrottleEntries(context, source, es, rules, old(lastSent), now).1
    {
      hide ShouldDrop, LruSet, StateKey, JsMap.Valid;
      kept := [];
      for i := 0 to |es|
        invariant Valid()
        invariant kept == ThrottleEntries(context, source, es[..i], rules, old(lastSent), now).0
        invariant lastSent == ThrottleEntries(context, source, es[..i], rules, old(lastSent), now).1
      {
        var e := es[i];
        EntriesSnoc(context, source, es[..i], e, rules, old(lastSent), now);
        assert es[..i + 1] == es[..i] + [e];
        if e.path !in rules {
          kept := kept + [e];
        } else {
          var key := StateKey(context, source, e.path);
          if !ShouldDrop(e.value, rules[e.path], lastSent.Get(key), now) {
            kept := kept + [e];
            RecordSentValue(key, e.value, now);
          }
        }
      }
      assert es[..|es|] == es;
    }

    method ThrottleOneUpdate(context: Option<string>, u: Update, rules: Rules, now: real) returns (w: Option<Update>)
      requires Valid()
      modifies this
      ensures Valid()
      ensures w == ThrottleUpdate(context, u, rules, old(lastSent), now).0
      ensures lastSent == ThrottleUpdate(context, u, rules, old(lastSent), now).1
    {
      if u.values == None {
        return Some(u);
      }
      var kept := ThrottleValues(context, SourceOf(u), u.values.value, rules, now);
      if |kept| == |u.values.value| {
        return Some(u);
      }
      if |kept| == 0 {
        return None;
      }
      return Some(u.(values := Some(kept)));
    }

    method Throttle(d: Delta, rules: Rules, now: real) returns (r: Option<Delta>)
      requires Valid()
      modifies this
      ensures Valid()
      ensures r == ThrottleDelta(d, rules, old(lastSent), now).0
      ensures lastSent == ThrottleDelta(d, rules, old(lastSent), now).1
    {
      if rules == map[] || d.updates == None {
        return Some(d);
      }
      var us := d.updates.value;
      var updates: seq<Update> := [];
      for i := 0 to |us|
        invariant Valid()
        invariant updates == ThrottleUpdates(d.context, us[..i], rules, old(lastSent), now).0
        invariant lastSent == ThrottleUpdates(d.context, us[..i], rules, old(lastSent), now).1
      {
        UpdatesSnoc(d.context, us[..i], us[i], rules, old(lastSent), now);
        assert us[..i + 1] == us[..i] + [us[i]];
        var w := ThrottleOneUpdate(d.context, us[i], rules, now);
        if w.Some? {
          updates := updates + [w.value];
        }
      }
      assert us[..|us|] == us;
      if updates == us {
        return Some(d);
      }
      if |updates| == 0 {
        return None;
      }
      return Some(d.(updates := Some(updates)));
    }
  }
}
