/** Per-path rate limit and deadband over a least-recently-sent bounded record of what was sent. */
module Throttle {
  import opened Common
  import opened JsMap

  const PATH_THROTTLE_STATE_MAX: nat := 10000

  datatype Rule = Rule(minIntervalMs: Option<real>, deadband: Option<real>)

  /** A finite number, or a value that is not a number. */
  datatype Value = Num(r: real) | Other(text: string)

  datatype Entry = Entry(path: string, value: Value)

  /** `rest` stands for the update's other fields. */
  datatype Update = Update(dollarSource: Option<string>, values: Option<seq<Entry>>, rest: string)

  datatype Delta = Delta(context: Option<string>, updates: Option<seq<Update>>)

  type Rules = map<string, Rule>

  datatype Last = Last(atMs: real, value: Option<real>)

  type State = JsMap<string, Last>

  // ----------------------------------------------------------------- one value

  function Abs(x: real): real {
    if x < 0.0 then -x else x
  }

  function AsNumber(v: Value): Option<real> {
    if v.Num? then Some(v.r) else None
  }

  predicate ShouldDrop(v: Value, rule: Rule, last: Option<Last>, now: real) {
    last.Some? &&
    ((rule.minIntervalMs.Some? && now - last.value.atMs < rule.minIntervalMs.value) ||
     (rule.deadband.Some? && v.Num? && last.value.value.Some? && Abs(v.r - last.value.value.value) < rule.deadband.value))
  }

  function StateKey(context: Option<string>, source: string, path: string): string {
    (if context.Some? then context.value else "undefined") + " " + source + " " + path
  }

  /** Whose value it is. */
  datatype Origin = Origin(context: Option<string>, source: string, path: string)

  /** A value for which a rule exists, under its state key. */
  datatype Offer = Offer(key: string, rule: Rule, value: Value, now: real, origin: Origin)

  predicate Forwards(st: State, o: Offer) {
    !ShouldDrop(o.value, o.rule, st.Get(o.key), o.now)
  }

  function Record(o: Offer): Last {
    Last(o.now, AsNumber(o.value))
  }

  function After(st: State, o: Offer): State {
    if Forwards(st, o) then LruSet(st, o.key, Record(o), PATH_THROTTLE_STATE_MAX) else st
  }

  // ---------------------------------------------------------------------- a delta

  function SourceOf(u: Update): string {
    if u.dollarSource.Some? then u.dollarSource.value else ""
  }

  function OfferOf(context: Option<string>, source: string, e: Entry, rules: Rules, now: real): Offer
    requires e.path in rules
  {
    Offer(StateKey(context, source, e.path), rules[e.path], e.value, now, Origin(context, source, e.path))
  }

  /** The entries that stay, and the record afterwards. */
  function ThrottleEntries(context: Option<string>, source: string, es: seq<Entry>, rules: Rules, st: State, now: real)
    : (seq<Entry>, State)
  {
    if es == [] then ([], st)
    else if es[0].path !in rules then
      var (kept, st') := ThrottleEntries(context, source, es[1..], rules, st, now);
      ([es[0]] + kept, st')
    else
      var o := OfferOf(context, source, es[0], rules, now);
      var (kept, st') := ThrottleEntries(context, source, es[1..], rules, After(st, o), now);
      ((if Forwards(st, o) then [es[0]] else []) + kept, st')
  }

  /** `None` when every value of the update was dropped. */
  function ThrottleUpdate(context: Option<string>, u: Update, rules: Rules, st: State, now: real)
    : (Option<Update>, State)
  {
    if u.values == None then (Some(u), st)
    else
      var (kept, st') := ThrottleEntries(context, SourceOf(u), u.values.value, rules, st, now);
      if |kept| == |u.values.value| then (Some(u), st')
      else if kept == [] then (None, st')
      else (Some(u.(values := Some(kept))), st')
  }

  function ThrottleUpdates(context: Option<string>, us: seq<Update>, rules: Rules, st: State, now: real)
    : (seq<Update>, State)
  {
    if us == [] then ([], st)
    else
      var (u, st1) := ThrottleUpdate(context, us[0], rules, st, now);
      var (rest, st2) := ThrottleUpdates(context, us[1..], rules, st1, now);
      ((if u.Some? then [u.value] else []) + rest, st2)
  }

  /** `None` when nothing of the delta remains although something was dropped. */
  function ThrottleDelta(d: Delta, rules: Rules, st: State, now: real): (Option<Delta>, State) {
    if rules == map[] || d.updates == None then (Some(d), st)
    else
      var (us, st') := ThrottleUpdates(d.context, d.updates.value, rules, st, now);
      if us == d.updates.value then (Some(d), st')
      else if us == [] then (None, st')
      else (Some(d.(updates := Some(us))), st')
  }

  // ------------------------------------------------- a delta as a stream of offers

  function OffersOfEntries(context: Option<string>, source: string, es: seq<Entry>, rules: Rules, now: real): seq<Offer> {
    if es == [] then []
    else (if es[0].path in rules then [OfferOf(context, source, es[0], rules, now)] else [])
         + OffersOfEntries(context, source, es[1..], rules, now)
  }

  function OffersOfUpdates(context: Option<string>, us: seq<Update>, rules: Rules, now: real): seq<Offer> {
    if us == [] then []
    else (if us[0].values.Some? then OffersOfEntries(context, SourceOf(us[0]), us[0].values.value, rules, now) else [])
         + OffersOfUpdates(context, us[1..], rules, now)
  }

  function OffersOf(d: Delta, rules: Rules, now: real): seq<Offer> {
    if d.updates == None then [] else OffersOfUpdates(d.context, d.updates.value, rules, now)
  }

  function AfterAll(st: State, os: seq<Offer>): State
    decreases |os|
  {
    if os == [] then st else AfterAll(After(st, os[0]), os[1..])
  }

  lemma {:induction false} AfterAllAppend(st: State, a: seq<Offer>, b: seq<Offer>)
    ensures AfterAll(st, a + b) == AfterAll(AfterAll(st, a), b)
    decreases |a|
  {
    if a == [] {
      assert a + b == b;
    } else {
      assert (a + b)[1..] == a[1..] + b;
      AfterAllAppend(After(st, a[0]), a[1..], b);
    }
  }

  /** An entry list keeps exactly what has no rule and what its offer forwards. */
  lemma {:induction false} EntriesAreOffers(context: Option<string>, source: string, es: seq<Entry>, rules: Rules, st: State, now: real)
    ensures var (kept, st') := ThrottleEntries(context, source, es, rules, st, now);
            && st' == AfterAll(st, OffersOfEntries(context, source, es, rules, now))
            && |kept| <= |es|
            && (|kept| == |es| ==> kept == es)
    decreases |es|
  {
    if es == [] {
    } else if es[0].path !in rules {
      EntriesAreOffers(context, source, es[1..], rules, st, now);
      assert OffersOfEntries(context, source, es, rules, now) == OffersOfEntries(context, source, es[1..], rules, now);
      assert es == [es[0]] + es[1..];
    } else {
      var o := OfferOf(context, source, es[0], rules, now);
      EntriesAreOffers(context, source, es[1..], rules, After(st, o), now);
      var os := OffersOfEntries(context, source, es, rules, now);
      assert os[1..] == OffersOfEntries(context, source, es[1..], rules, now);
      assert es == [es[0]] + es[1..];
    }
  }

  lemma {:induction false} UpdatesAreOffers(context: Option<string>, us: seq<Update>, rules: Rules, st: State, now: real)
    ensures ThrottleUpdates(context, us, rules, st, now).1 == AfterAll(st, OffersOfUpdates(context, us, rules, now))
    decreases |us|
  {
    if us == [] {
    } else {
      var u := us[0];
      var head := if u.values.Some? then OffersOfEntries(context, SourceOf(u), u.values.value, rules, now) else [];
      if u.values.Some? {
        EntriesAreOffers(context, SourceOf(u), u.values.value, rules, st, now);
      }
      var st1 := ThrottleUpdate(context, u, rules, st, now).1;
      UpdatesAreOffers(context, us[1..], rules, st1, now);
      AfterAllAppend(st, head, OffersOfUpdates(context, us[1..], rules, now));
    }
  }

  /** Throttling a delta acts on the record as its offers do one after another. */
  lemma DeltaIsItsOffers(d: Delta, rules: Rules, st: State, now: real)
    ensures ThrottleDelta(d, rules, st, now).1
         == if rules == map[] then st else AfterAll(st, OffersOf(d, rules, now))
  {
    if rules != map[] && d.updates.Some? {
      UpdatesAreOffers(d.context, d.updates.value, rules, st, now);
    }
  }

  // -------------------------------------------------------- what comes out of a delta

  /** The offers that a stream forwards. */
  function Selected(st: State, os: seq<Offer>): seq<Offer>
    decreases |os|
  {
    if os == [] then []
    else (if Forwards(st, os[0]) then [os[0]] else []) + Selected(After(st, os[0]), os[1..])
  }

  function WithoutRule(es: seq<Entry>, rules: Rules): seq<Entry> {
    if es == [] then []
    else (if es[0].path in rules then [] else [es[0]]) + WithoutRule(es[1..], rules)
  }

  lemma {:induction false} SelectedAppend(st: State, a: seq<Offer>, b: seq<Offer>)
    ensures Selected(st, a + b) == Selected(st, a) + Selected(AfterAll(st, a), b)
    decreases |a|
  {
    if a == [] {
      assert a + b == b;
    } else {
      assert (a + b)[1..] == a[1..] + b;
      SelectedAppend(After(st, a[0]), a[1..], b);
    }
  }

  /** What an update keeps: every entry without a rule, and exactly the entries its offers forward. */
  lemma {:induction false} EntriesKeptExactly(context: Option<string>, source: string, es: seq<Entry>, rules: Rules, st: State, now: real)
    ensures var kept := ThrottleEntries(context, source, es, rules, st, now).0;
            && OffersOfEntries(context, source, kept, rules, now) == Selected(st, OffersOfEntries(context, source, es, rules, now))
            && WithoutRule(kept, rules) == WithoutRule(es, rules)
    decreases |es|
  {
    hide Forwards, OfferOf, After;
    if es == [] {
    } else {
      var e := es[0];
      var o := if e.path in rules then Some(OfferOf(context, source, e, rules, now)) else None;
      var st1 := if o.Some? then After(st, o.value) else st;
      EntriesKeptExactly(context, source, es[1..], rules, st1, now);
      var rest := ThrottleEntries(context, source, es[1..], rules, st1, now).0;
      assert ([e] + rest)[1..] == rest;
      var os := OffersOfEntries(context, source, es[1..], rules, now);
      if o.Some? {
        assert ([o.value] + os)[1..] == os;
        if !Forwards(st, o.value) {
          assert [] + rest == rest;
        }
      } else {
        assert [] + os == os;
      }
    }
  }

  lemma UpdateKeptExactly(context: Option<string>, u: Update, rules: Rules, st: State, now: real)
    ensures var w := ThrottleUpdate(context, u, rules, st, now).0;
            OffersOfUpdates(context, if w.Some? then [w.value] else [], rules, now)
              == Selected(st, OffersOfUpdates(context, [u], rules, now))
  {
    OneUpdate(context, u, rules, now);
    if u.values.Some? {
      EntriesKeptExactly(context, SourceOf(u), u.values.value, rules, st, now);
      EntriesAreOffers(context, SourceOf(u), u.values.value, rules, st, now);
      var w := ThrottleUpdate(context, u, rules, st, now).0;
      if w.Some? {
        OneUpdate(context, w.value, rules, now);
      }
    }
  }

  lemma OneUpdate(context: Option<string>, u: Update, rules: Rules, now: real)
    ensures OffersOfUpdates(context, [u], rules, now)
         == if u.values.Some? then OffersOfEntries(context, SourceOf(u), u.values.value, rules, now) else []
  {
    assert [u][1..] == [];
  }

  lemma {:induction false} OffersOfUpdatesAppend(context: Option<string>, a: seq<Update>, b: seq<Update>, rules: Rules, now: real)
    ensures OffersOfUpdates(context, a + b, rules, now)
         == OffersOfUpdates(context, a, rules, now) + OffersOfUpdates(context, b, rules, now)
  {
    if a == [] {
      assert a + b == b;
    } else {
      assert (a + b)[1..] == a[1..] + b;
      OffersOfUpdatesAppend(context, a[1..], b, rules, now);
    }
  }

  lemma {:induction false} UpdatesKeptExactly(context: Option<string>, us: seq<Update>, rules: Rules, st: State, now: real)
    ensures OffersOfUpdates(context, ThrottleUpdates(context, us, rules, st, now).0, rules, now)
         == Selected(st, OffersOfUpdates(context, us, rules, now))
    decreases |us|
  {
    if us == [] {
    } else {
      var (w, st1) := ThrottleUpdate(context, us[0], rules, st, now);
      UpdateKeptExactly(context, us[0], rules, st, now);
      UpdatesAreOffers(context, [us[0]], rules, st, now);
      assert [us[0]][1..] == [];
      UpdatesKeptExactly(context, us[1..], rules, st1, now);
      hide ThrottleUpdate;
      OffersOfUpdatesAppend(context, if w.Some? then [w.value] else [], ThrottleUpdates(context, us[1..], rules, st1, now).0, rules, now);
      assert us == [us[0]] + us[1..];
      OffersOfUpdatesAppend(context, [us[0]], us[1..], rules, now);
      SelectedAppend(st, OffersOfUpdates(context, [us[0]], rules, now), OffersOfUpdates(context, us[1..], rules, now));
    }
  }

  /** Of the values that have a rule, a throttled delta carries exactly the forwarded ones, in order. */
  lemma DeltaKeepsForwarded(d: Delta, rules: Rules, st: State, now: real)
    requires rules != map[]
    ensures var out := ThrottleDelta(d, rules, st, now).0;
            (if out.Some? then OffersOf(out.value, rules, now) else []) == Selected(st, OffersOf(d, rules, now))
  {
    if d.updates.Some? {
      UpdatesKeptExactly(d.context, d.updates.value, rules, st, now);
    }
  }
}
