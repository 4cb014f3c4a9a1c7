/** Whole runs of throttled deltas: how far apart the values of one context, source and path come out. */
module ThrottleRuns {
  import opened Common
  import opened JsMap
  import opened LruHistory
  import opened Throttle
  import opened ThrottleSpacing

  datatype Timed = Timed(delta: Delta, now: real)

  /** The deltas that come out of a run, with the times at which they do. */
  function ThrottleRun(ds: seq<Timed>, rules: Rules, st: State): seq<Timed>
    decreases |ds|
  {
    if ds == [] then []
    else
      var (out, st') := ThrottleDelta(ds[0].delta, rules, st, ds[0].now);
      (if out.Some? then [Timed(out.value, ds[0].now)] else []) + ThrottleRun(ds[1..], rules, st')
  }

  // --------------------------------------------------------- the ruled values of a run

  /** A value for which a rule exists, with all that it belongs to. */
  datatype Sent = Sent(context: Option<string>, source: string, path: string, value: Value, now: real) {
    function Key(): string {
      StateKey(context, source, path)
    }

    predicate Beside(other: Sent) {
      context == other.context && source == other.source && path == other.path
    }
  }

  function SentOfEntries(context: Option<string>, source: string, es: seq<Entry>, rules: Rules, now: real): seq<Sent> {
    if es == [] then []
    else (if es[0].path in rules then [Sent(context, source, es[0].path, es[0].value, now)] else [])
         + SentOfEntries(context, source, es[1..], rules, now)
  }

  function SentOfUpdates(context: Option<string>, us: seq<Update>, rules: Rules, now: real): seq<Sent> {
    if us == [] then []
    else (if us[0].values.Some? then SentOfEntries(context, SourceOf(us[0]), us[0].values.value, rules, now) else [])
         + SentOfUpdates(context, us[1..], rules, now)
  }

  function SentOf(d: Delta, rules: Rules, now: real): seq<Sent> {
    if d.updates == None then [] else SentOfUpdates(d.context, d.updates.value, rules, now)
  }

  /** The ruled values of several deltas, in order. */
  function Values(ds: seq<Timed>, rules: Rules): seq<Sent> {
    if ds == [] then [] else SentOf(ds[0].delta, rules, ds[0].now) + Values(ds[1..], rules)
  }

  function Offers(ds: seq<Timed>, rules: Rules): seq<Offer> {
    if ds == [] then [] else OffersOf(ds[0].delta, rules, ds[0].now) + Offers(ds[1..], rules)
  }

  /** The offers are those of the values. */
  ghost predicate Match(xs: seq<Sent>, os: seq<Offer>, rules: Rules) {
    && |xs| == |os|
    && forall i :: 0 <= i < |xs| ==>
         && xs[i].path in rules
         && os[i] == Offer(xs[i].Key(), rules[xs[i].path], xs[i].value, xs[i].now, Origin(xs[i].context, xs[i].source, xs[i].path))
  }

  lemma MatchAppend(xs: seq<Sent>, os: seq<Offer>, xs': seq<Sent>, os': seq<Offer>, rules: Rules)
    requires Match(xs, os, rules) && Match(xs', os', rules)
    ensures Match(xs + xs', os + os', rules)
  {
  }

  lemma {:induction false} EntriesMatch(context: Option<string>, source: string, es: seq<Entry>, rules: Rules, now: real)
    ensures Match(SentOfEntries(context, source, es, rules, now), OffersOfEntries(context, source, es, rules, now), rules)
  {
    if es != [] {
      EntriesMatch(context, source, es[1..], rules, now);
    }
  }

  lemma {:induction false} UpdatesMatch(context: Option<string>, us: seq<Update>, rules: Rules, now: real)
    ensures Match(SentOfUpdates(context, us, rules, now), OffersOfUpdates(context, us, rules, now), rules)
  {
    if us != [] {
      UpdatesMatch(context, us[1..], rules, now);
      if us[0].values.Some? {
        EntriesMatch(context, SourceOf(us[0]), us[0].values.value, rules, now);
      }
    }
  }

  lemma {:induction false} ValuesMatch(ds: seq<Timed>, rules: Rules)
    ensures Match(Values(ds, rules), Offers(ds, rules), rules)
  {
    hide Match;
    if ds == [] {
      NothingMatches(rules);
    } else {
      ValuesMatch(ds[1..], rules);
      var d := ds[0].delta;
      if d.updates.Some? {
        UpdatesMatch(d.context, d.updates.value, rules, ds[0].now);
      } else {
        NothingMatches(rules);
      }
      MatchAppend(SentOf(d, rules, ds[0].now), OffersOf(d, rules, ds[0].now), Values(ds[1..], rules), Offers(ds[1..], rules), rules);
    }
  }

  lemma NothingMatches(rules: Rules)
    ensures Match([], [], rules)
  {
  }

  /** What comes out of a run are the offers that the record forwards. */
  lemma {:induction false} RunForwards(ds: seq<Timed>, rules: Rules, st: State)
    requires rules != map[]
    ensures Offers(ThrottleRun(ds, rules, st), rules) == Selected(st, Offers(ds, rules))
    decreases |ds|
  {
    hide ThrottleDelta, OffersOf;
    if ds != [] {
      var d, now := ds[0].delta, ds[0].now;
      var (out, st') := ThrottleDelta(d, rules, st, now);
      DeltaKeepsForwarded(d, rules, st, now);
      DeltaIsItsOffers(d, rules, st, now);
      SelectedAppend(st, OffersOf(d, rules, now), Offers(ds[1..], rules));
      RunForwards(ds[1..], rules, st');
      var rest := ThrottleRun(ds[1..], rules, st');
      if out.Some? {
        assert ([Timed(out.value, now)] + rest)[1..] == rest;
      } else {
        assert [] + rest == rest;
      }
    }
  }

  // ------------------------------------------------------- where the forwarded offers stand

  lemma {:induction false} BeforeIsAfterAll(os: seq<Offer>, n: nat)
    requires n <= |os|
    ensures Before(os, n) == AfterAll(Empty(), os[..n])
    decreases n
  {
    if n > 0 {
      BeforeIsAfterAll(os, n - 1);
      assert os[..n] == os[..n - 1] + [os[n - 1]];
      AfterAllAppend(Empty(), os[..n - 1], [os[n - 1]]);
      assert [os[n - 1]][1..] == [];
    }
  }

  /** The places of the forwarded offers among the first `n`. */
  function Places(os: seq<Offer>, n: nat): seq<nat>
    requires n <= |os|
    decreases n
  {
    if n == 0 then [] else Places(os, n - 1) + (if Forwarded(os, n - 1) then [n - 1] else [])
  }

  lemma SelectedSnoc(os: seq<Offer>, n: nat)
    requires n < |os|
    ensures Selected(Empty(), os[..n + 1]) == Selected(Empty(), os[..n]) + (if Forwarded(os, n) then [os[n]] else [])
  {
    hide Forwards, After;
    BeforeIsAfterAll(os, n);
    assert os[..n + 1] == os[..n] + [os[n]];
    SelectedAppend(Empty(), os[..n], [os[n]]);
    assert [os[n]][1..] == [];
    assert Selected(Before(os, n), [os[n]]) == if Forwarded(os, n) then [os[n]] else [];
  }

  /** `at` are the places of `ys` among the first `n` offers, and those of all forwarded ones. */
  ghost predicate Placed(os: seq<Offer>, n: nat, at: seq<nat>, ys: seq<Offer>)
    requires n <= |os|
  {
    && |at| == |ys|
    && (forall a :: 0 <= a < |at| ==> at[a] < n && Forwarded(os, at[a]) && os[at[a]] == ys[a])
    && (forall a, b :: 0 <= a < b < |at| ==> at[a] < at[b])
    && (forall k :: 0 <= k < n && Forwarded(os, k) ==> k in at)
  }

  lemma PlacedSnoc(os: seq<Offer>, n: nat, at: seq<nat>, ys: seq<Offer>)
    requires n < |os| && Placed(os, n, at, ys)
    ensures if Forwarded(os, n) then Placed(os, n + 1, at + [n], ys + [os[n]]) else Placed(os, n + 1, at, ys)
  {
    hide Forwarded;
    if Forwarded(os, n) {
      assert (at + [n])[|at|] == n;
      assert forall k :: k in at ==> k in at + [n];
    }
  }

  lemma NothingPlaced(os: seq<Offer>)
    ensures Placed(os, 0, [], []) && Selected(Empty(), []) == []
  {
  }

  lemma {:induction false} PlaceFacts(os: seq<Offer>, n: nat)
    requires n <= |os|
    ensures Placed(os, n, Places(os, n), Selected(Empty(), os[..n]))
    decreases n
  {
    hide Forwarded, Placed, Selected;
    if n == 0 {
      NothingPlaced(os);
      assert os[..0] == [];
    } else {
      var k := n - 1;
      var at, ys := Places(os, k), Selected(Empty(), os[..k]);
      PlaceFacts(os, k);
      SelectedSnoc(os, k);
      PlacedSnoc(os, k, at, ys);
      var more, next := if Forwarded(os, k) then [k] else [], if Forwarded(os, k) then [os[k]] else [];
      assert Places(os, n) == at + more && Selected(Empty(), os[..n]) == ys + next;
      assert at + [] == at && ys + [] == ys;
    }
  }

  /** At the end of the stream. */
  lemma AllPlaced(os: seq<Offer>)
    ensures Placed(os, |os|, Places(os, |os|), Selected(Empty(), os))
  {
    hide Placed, Places, Selected;
    PlaceFacts(os, |os|);
    assert os[..|os|] == os;
  }

  /** The keys other than that of `ys[a]` that come out between two offers. */
  ghost function OtherKeys(ys: seq<Offer>, a: nat, b: nat): set<string>
    requires a < b < |ys|
  {
    set c | a < c < b && ys[c].key != ys[a].key :: ys[c].key
  }

  /** What is forwarded between two places comes out between the two. */
  lemma ForwardedBetween(os: seq<Offer>, at: seq<nat>, ys: seq<Offer>, a: nat, b: nat, k: nat) returns (c: nat)
    requires Placed(os, |os|, at, ys) && a < b < |ys| && at[a] < k < at[b] && Forwarded(os, k)
    ensures a < c < b && ys[c] == os[k]
  {
    hide Forwarded;
    c :| 0 <= c < |at| && at[c] == k;
  }

  lemma OthersAreBetween(os: seq<Offer>, at: seq<nat>, ys: seq<Offer>, a: nat, b: nat)
    requires Placed(os, |os|, at, ys) && a < b < |ys|
    ensures at[a] < at[b] < |os| && OthersRecorded(os, at[a] + 1, at[b], ys[a].key) <= OtherKeys(ys, a, b)
  {
    hide Forwarded;
    forall key | key in OthersRecorded(os, at[a] + 1, at[b], ys[a].key)
      ensures key in OtherKeys(ys, a, b)
    {
      var k :| at[a] + 1 <= k < at[b] && Forwarded(os, k) && os[k].key == key != ys[a].key;
      var c := ForwardedBetween(os, at, ys, a, b, k);
    }
  }

  /** As far apart as the later one's rule demands. */
  predicate Apart(x: Offer, y: Offer) {
    && (y.rule.minIntervalMs.Some? ==> y.now - x.now >= y.rule.minIntervalMs.value)
    && (y.rule.deadband.Some? && x.value.Num? && y.value.Num? ==> Abs(y.value.r - x.value.r) >= y.rule.deadband.value)
  }

  lemma SelectedApart(os: seq<Offer>, at: seq<nat>, ys: seq<Offer>, a: nat, b: nat)
    requires Placed(os, |os|, at, ys) && a < b < |ys| && ys[a].key == ys[b].key
    requires |OtherKeys(ys, a, b)| < PATH_THROTTLE_STATE_MAX
    requires forall c :: a < c < b ==> ys[c].key != ys[a].key
    ensures Apart(ys[a], ys[b])
  {
    OthersAreBetween(os, at, ys, a, b);
    hide Forwarded, OthersRecorded, OtherKeys;
    SubsetSize(OthersRecorded(os, at[a] + 1, at[b], ys[a].key), OtherKeys(ys, a, b));
    forall k | at[a] < k < at[b] && os[k].key == ys[a].key
      ensures !Forwarded(os, k)
    {
      if Forwarded(os, k) {
        var c := ForwardedBetween(os, at, ys, a, b, k);
      }
    }
    ConsecutiveAreApart(os, at[a], at[b]);
  }

  lemma SelectedSpaced(os: seq<Offer>, at: seq<nat>, ys: seq<Offer>, a: nat, b: nat)
    requires Placed(os, |os|, at, ys) && a < b < |ys| && ys[a].key == ys[b].key && ys[b].rule.minIntervalMs.Some?
    requires |OtherKeys(ys, a, b)| < PATH_THROTTLE_STATE_MAX
    requires forall k, l :: 0 <= k < l < |os| ==> os[k].now <= os[l].now
    ensures ys[b].now - ys[a].now >= ys[b].rule.minIntervalMs.value
  {
    OthersAreBetween(os, at, ys, a, b);
    hide Forwarded, OthersRecorded, OtherKeys;
    SubsetSize(OthersRecorded(os, at[a] + 1, at[b], ys[a].key), OtherKeys(ys, a, b));
    IntervalHoldsAcrossCollisions(os, at[a], at[b]);
  }

  // ------------------------------------------------------------------- runs of deltas

  /** The ruled values that come out of a run. */
  function Output(ds: seq<Timed>, rules: Rules): seq<Sent> {
    Values(ThrottleRun(ds, rules, Empty()), rules)
  }

  /** Fewer other keys than the record holds come out between two values. */
  ghost predicate FewBetween(xs: seq<Sent>, a: nat, b: nat)
    requires a < b < |xs|
  {
    |set c | a < c < b && xs[c].Key() != xs[a].Key() :: xs[c].Key()| < PATH_THROTTLE_STATE_MAX
  }

  /** Two values of one context, source and path, with none of theirs between them. */
  predicate InARow(xs: seq<Sent>, a: nat, b: nat)
    requires a < b < |xs|
  {
    xs[a].Beside(xs[b]) && forall c :: a < c < b ==> !xs[c].Beside(xs[a])
  }

  lemma OutputIsSelected(ds: seq<Timed>, rules: Rules)
    requires rules != map[]
    ensures Match(Output(ds, rules), Selected(Empty(), Offers(ds, rules)), rules)
  {
    hide Match;
    ValuesMatch(ThrottleRun(ds, rules, Empty()), rules);
    RunForwards(ds, rules, Empty());
  }

  lemma OutputHasRules(ds: seq<Timed>, rules: Rules, a: nat)
    requires a < |Output(ds, rules)|
    ensures Output(ds, rules)[a].path in rules && rules != map[]
  {
    ValueHasRule(ThrottleRun(ds, rules, Empty()), rules, a);
  }

  lemma SameBetween(xs: seq<Sent>, ys: seq<Offer>, rules: Rules, a: nat, b: nat)
    requires Match(xs, ys, rules) && a < b < |xs|
    ensures OtherKeys(ys, a, b) == set c | a < c < b && xs[c].Key() != xs[a].Key() :: xs[c].Key()
  {
    hide StateKey;
  }

  lemma ValuesApart(xs: seq<Sent>, ys: seq<Offer>, os: seq<Offer>, at: seq<nat>, rules: Rules, a: nat, b: nat)
    requires Match(xs, ys, rules) && Placed(os, |os|, at, ys)
    requires a < b < |xs| && InARow(xs, a, b) && FewBetween(xs, a, b) && OwnRecord(xs[a].context, xs[a].source, xs[a].path)
    ensures Apart(ys[a], ys[b])
  {
    SameBetween(xs, ys, rules, a, b);
    RecordIsOwn(xs[a].context, xs[a].source, xs[a].path);
    hide StateKey, OwnRecord, OtherKeys, Placed, Apart;
    forall c | a < c < b
      ensures ys[c].key != ys[a].key
    {
      assert !xs[c].Beside(xs[a]);
    }
    SelectedApart(os, at, ys, a, b);
  }

  /**
   * Values of one context, source and path with a record of its own come out of every run the minimum interval and the
   * deadband apart, if fewer than 10000 other keys come out between them.
   */
  lemma RunKeepsApart(ds: seq<Timed>, rules: Rules, a: nat, b: nat)
    requires var xs := Output(ds, rules);
             && a < b < |xs| && InARow(xs, a, b) && FewBetween(xs, a, b)
             && OwnRecord(xs[a].context, xs[a].source, xs[a].path)
    ensures var x, y := Output(ds, rules)[a], Output(ds, rules)[b];
            && y.path in rules
            && (rules[y.path].minIntervalMs.Some? ==> y.now - x.now >= rules[y.path].minIntervalMs.value)
            && (rules[y.path].deadband.Some? && x.value.Num? && y.value.Num?
                ==> Abs(y.value.r - x.value.r) >= rules[y.path].deadband.value)
  {
    OutputHasRules(ds, rules, b);
    OutputIsSelected(ds, rules);
    var xs, os := Output(ds, rules), Offers(ds, rules);
    hide Output, Offers, Selected, Places, StateKey, OwnRecord, Placed, InARow, FewBetween;
    AllPlaced(os);
    ValuesApart(xs, Selected(Empty(), os), os, Places(os, |os|), rules, a, b);
  }

  predicate InTime(ds: seq<Timed>) {
    forall i, j :: 0 <= i < j < |ds| ==> ds[i].now <= ds[j].now
  }

  lemma {:induction false} EntriesNow(context: Option<string>, source: string, es: seq<Entry>, rules: Rules, now: real)
    ensures forall o | o in OffersOfEntries(context, source, es, rules, now) :: o.now == now
  {
    if es != [] {
      EntriesNow(context, source, es[1..], rules, now);
    }
  }

  lemma {:induction false} UpdatesNow(context: Option<string>, us: seq<Update>, rules: Rules, now: real)
    ensures forall o | o in OffersOfUpdates(context, us, rules, now) :: o.now == now
  {
    if us != [] {
      UpdatesNow(context, us[1..], rules, now);
      if us[0].values.Some? {
        EntriesNow(context, SourceOf(us[0]), us[0].values.value, rules, now);
      }
    }
  }

  predicate Ordered(os: seq<Offer>) {
    forall k, l :: 0 <= k < l < |os| ==> os[k].now <= os[l].now
  }

  predicate NotBefore(os: seq<Offer>, t: real) {
    forall o | o in os :: t <= o.now
  }

  lemma OrderedAppend(head: seq<Offer>, rest: seq<Offer>, now: real)
    requires (forall o | o in head :: o.now == now) && Ordered(rest) && NotBefore(rest, now)
    ensures Ordered(head + rest) && NotBefore(head + rest, now)
  {
    assert forall k :: 0 <= k < |head| ==> head[k] in head;
    assert forall k :: 0 <= k < |rest| ==> rest[k] in rest;
  }

  lemma DeltaNow(d: Delta, rules: Rules, now: real)
    ensures forall o | o in OffersOf(d, rules, now) :: o.now == now
  {
    if d.updates.Some? {
      UpdatesNow(d.context, d.updates.value, rules, now);
    }
  }

  lemma {:induction false} OffersInTime(ds: seq<Timed>, rules: Rules, from: real)
    requires InTime(ds) && (ds != [] ==> from <= ds[0].now)
    ensures Ordered(Offers(ds, rules)) && NotBefore(Offers(ds, rules), from)
  {
    if ds != [] {
      var now := ds[0].now;
      DeltaNow(ds[0].delta, rules, now);
      assert InTime(ds[1..]);
      OffersInTime(ds[1..], rules, now);
      hide OffersOf, Ordered;
      OrderedAppend(OffersOf(ds[0].delta, rules, now), Offers(ds[1..], rules), now);
    }
  }

  lemma ValuesSpaced(xs: seq<Sent>, ys: seq<Offer>, os: seq<Offer>, at: seq<nat>, rules: Rules, a: nat, b: nat)
    requires Match(xs, ys, rules) && Placed(os, |os|, at, ys)
    requires Ordered(os)
    requires a < b < |xs| && xs[a].Beside(xs[b]) && FewBetween(xs, a, b) && ys[b].rule.minIntervalMs.Some?
    ensures ys[b].now - ys[a].now >= ys[b].rule.minIntervalMs.value
  {
    SameBetween(xs, ys, rules, a, b);
    hide StateKey, OtherKeys, Placed;
    SelectedSpaced(os, at, ys, a, b);
  }

  /**
   * The interval alone needs no record of its own: under a clock that never goes back any two values of one context,
   * source and path are the minimum interval apart, whoever shares their key.
   */
  lemma RunKeepsIntervals(ds: seq<Timed>, rules: Rules, a: nat, b: nat)
    requires InTime(ds)
    requires var xs := Output(ds, rules); a < b < |xs| && xs[a].Beside(xs[b]) && FewBetween(xs, a, b)
    ensures var x, y := Output(ds, rules)[a], Output(ds, rules)[b];
            y.path in rules && (rules[y.path].minIntervalMs.Some? ==> y.now - x.now >= rules[y.path].minIntervalMs.value)
  {
    OutputHasRules(ds, rules, b);
    OutputIsSelected(ds, rules);
    OffersInTime(ds, rules, if ds == [] then 0.0 else ds[0].now);
    var xs, os := Output(ds, rules), Offers(ds, rules);
    hide Output, Offers, Selected, Places, StateKey, Placed, FewBetween, InTime, Ordered;
    if rules[xs[b].path].minIntervalMs.Some? {
      AllPlaced(os);
      ValuesSpaced(xs, Selected(Empty(), os), os, Places(os, |os|), rules, a, b);
    }
  }

  // ------------------------------------------------------------- what comes out exactly

  /** The keys that come out after value `i` and before value `n`, if `at` are the places of what comes out. */
  ghost function KeysOut(xs: seq<Sent>, at: seq<nat>, i: nat, n: nat): set<string>
    requires i < n <= |xs|
  {
    set k | i < k < n && k in at :: xs[k].Key()
  }

  /** Value `i` is the last one before value `n` that came out under its key. */
  predicate CameOutLast(xs: seq<Sent>, at: seq<nat>, i: nat, n: nat) {
    && i < n < |xs| && i in at && xs[i].Key() == xs[n].Key()
    && forall k :: i < k < n && k in at ==> xs[k].Key() != xs[n].Key()
  }

  /** Too early after it under the minimum interval, or both numbers and too close to it for the deadband. */
  predicate TooNear(x: Sent, y: Sent, rule: Rule) {
    || (rule.minIntervalMs.Some? && y.now - x.now < rule.minIntervalMs.value)
    || (rule.deadband.Some? && x.value.Num? && y.value.Num?
        && -rule.deadband.value < y.value.r - x.value.r < rule.deadband.value)
  }

  /** The value that came out last under its key is recent enough to be known, and too near. */
  ghost predicate HeldBack(xs: seq<Sent>, rules: Rules, at: seq<nat>, i: nat, n: nat) {
    && CameOutLast(xs, at, i, n) && |KeysOut(xs, at, i, n)| < 10000
    && xs[n].path in rules && TooNear(xs[i], xs[n], rules[xs[n].path])
  }

  /** `at` are the places among `xs` of what comes out: all but what is held back. */
  ghost predicate ComesOut(xs: seq<Sent>, rules: Rules, at: seq<nat>, out: seq<Sent>) {
    && |out| == |at|
    && (forall a :: 0 <= a < |at| ==> at[a] < |xs| && out[a] == xs[at[a]])
    && (forall a, b :: 0 <= a < b < |at| ==> at[a] < at[b])
    && (forall n: nat :: n < |xs| ==> (n in at <==> !exists i :: HeldBack(xs, rules, at, i, n)))
  }

  lemma LastPlace(os: seq<Offer>, n: nat, key: string) returns (i: nat)
    requires n <= |os| && exists k :: 0 <= k < n && Forwarded(os, k) && os[k].key == key
    ensures ForwardedLast(os, i, n) && os[i].key == key
    decreases n
  {
    hide Forwards;
    if Forwarded(os, n - 1) && os[n - 1].key == key {
      i := n - 1;
    } else {
      i := LastPlace(os, n - 1, key);
    }
  }

  /** An offer is forwarded unless what was forwarded last under its key is still recorded and forbids it. */
  lemma ForwardedExactly(xs: seq<Sent>, os: seq<Offer>, rules: Rules, at: seq<nat>, n: nat)
    requires Match(xs, os, rules) && n < |os|
    requires forall k :: 0 <= k < |os| ==> (k in at <==> Forwarded(os, k))
    ensures Forwarded(os, n) <==> !exists i :: HeldBack(xs, rules, at, i, n)
  {
    hide StateKey, Held;
    if k :| 0 <= k < n && Forwarded(os, k) && os[k].key == os[n].key {
      var i := LastPlace(os, n, os[n].key);
      RecordIsHeld(os, i, n);
      KeysAreOut(xs, os, rules, at, i, n);
      ForwardsAfter(os, i, n);
      OnlyLast(xs, os, rules, at, i, n);
    } else {
      NeverRecorded(os, n, os[n].key);
      forall i
        ensures !HeldBack(xs, rules, at, i, n)
      {
        hide TooNear, KeysOut;
      }
    }
  }

  lemma KeysAreOut(xs: seq<Sent>, os: seq<Offer>, rules: Rules, at: seq<nat>, i: nat, n: nat)
    requires Match(xs, os, rules) && i < n < |os|
    requires forall k :: 0 <= k < |os| ==> (k in at <==> Forwarded(os, k))
    ensures KeysRecorded(os, i, n) == KeysOut(xs, at, i, n)
  {
    hide StateKey, Forwarded;
  }

  lemma ForwardsAfter(os: seq<Offer>, i: nat, n: nat)
    requires i < n < |os| && os[i].key == os[n].key
    requires Held(Before(os, n), PATH_THROTTLE_STATE_MAX, os[i].key, Record(os[i]), KeysRecorded(os, i, n))
    ensures Forwarded(os, n) <==>
              !(|KeysRecorded(os, i, n)| < PATH_THROTTLE_STATE_MAX && ShouldDrop(os[n].value, os[n].rule, Some(Record(os[i])), os[n].now))
  {
    hide KeysRecorded, Before, Behind;
  }

  lemma OnlyLast(xs: seq<Sent>, os: seq<Offer>, rules: Rules, at: seq<nat>, i: nat, n: nat)
    requires Match(xs, os, rules) && n < |os| && ForwardedLast(os, i, n) && os[i].key == os[n].key
    requires forall k :: 0 <= k < |os| ==> (k in at <==> Forwarded(os, k))
    ensures (exists j :: HeldBack(xs, rules, at, j, n))
       <==> (|KeysOut(xs, at, i, n)| < 10000 && ShouldDrop(os[n].value, os[n].rule, Some(Record(os[i])), os[n].now))
  {
    hide StateKey, Forwarded, KeysOut;
    assert CameOutLast(xs, at, i, n);
    forall j | CameOutLast(xs, at, j, n)
      ensures j == i
    {
    }
    assert ShouldDrop(os[n].value, os[n].rule, Some(Record(os[i])), os[n].now) <==> TooNear(xs[i], xs[n], rules[xs[n].path]);
    if |KeysOut(xs, at, i, n)| < 10000 && TooNear(xs[i], xs[n], rules[xs[n].path]) {
      assert HeldBack(xs, rules, at, i, n);
    }
  }

  lemma PlacesAre(os: seq<Offer>, at: seq<nat>, ys: seq<Offer>)
    requires Placed(os, |os|, at, ys)
    ensures forall k :: 0 <= k < |os| ==> (k in at <==> Forwarded(os, k))
  {
    hide Forwarded;
  }

  lemma OutputIsPlaced(xs: seq<Sent>, os: seq<Offer>, rules: Rules, at: seq<nat>, out: seq<Sent>, ys: seq<Offer>)
    requires Match(xs, os, rules) && Match(out, ys, rules) && Placed(os, |os|, at, ys)
    ensures ComesOut(xs, rules, at, out)
  {
    PlacesAre(os, at, ys);
    hide Forwarded, HeldBack, StateKey;
    forall n: nat | n < |xs|
      ensures n in at <==> !exists i :: HeldBack(xs, rules, at, i, n)
    {
      ForwardedExactly(xs, os, rules, at, n);
    }
  }

  /**
   * In every run of throttled deltas every ruled value comes out, unless the value that came out last under its key is
   * still known and this one is too early after it or too close to it; then it does not.
   */
  lemma OutputExactly(ds: seq<Timed>, rules: Rules) returns (at: seq<nat>)
    ensures ComesOut(Values(ds, rules), rules, at, Output(ds, rules))
  {
    var os := Offers(ds, rules);
    ValuesMatch(ds, rules);
    if rules == map[] {
      at := [];
      NoRulesNoValues(ds, rules);
      NoRulesNoValues(ThrottleRun(ds, rules, Empty()), rules);
    } else {
      OutputIsSelected(ds, rules);
      AllPlaced(os);
      at := Places(os, |os|);
      hide Match, Placed, Places, Output, Offers, Values, Selected;
      OutputIsPlaced(Values(ds, rules), os, rules, at, Output(ds, rules), Selected(Empty(), os));
    }
  }

  lemma ValueHasRule(ds: seq<Timed>, rules: Rules, a: nat)
    requires a < |Values(ds, rules)|
    ensures Values(ds, rules)[a].path in rules && rules != map[]
  {
    ValuesMatch(ds, rules);
  }

  lemma NoRulesNoValues(ds: seq<Timed>, rules: Rules)
    requires rules == map[]
    ensures Values(ds, rules) == []
  {
    if Values(ds, rules) != [] {
      ValueHasRule(ds, rules, 0);
    }
  }

  // ------------------------------------------------------------- what is never held back

  /** A value without a rule, or an update without any value. */
  datatype Free = FreeValue(context: Option<string>, source: string, entry: Entry, now: real) | FreeUpdate(context: Option<string>, update: Update, now: real)

  function FreeEntries(context: Option<string>, source: string, es: seq<Entry>, rules: Rules, now: real): seq<Free> {
    if es == [] then []
    else (if es[0].path in rules then [] else [FreeValue(context, source, es[0], now)])
         + FreeEntries(context, source, es[1..], rules, now)
  }

  function FreeUpdates(context: Option<string>, us: seq<Update>, rules: Rules, now: real): seq<Free> {
    if us == [] then []
    else (if us[0].values.Some? && us[0].values.value != []
          then FreeEntries(context, SourceOf(us[0]), us[0].values.value, rules, now)
          else [FreeUpdate(context, us[0], now)])
         + FreeUpdates(context, us[1..], rules, now)
  }

  function FreeOf(d: Delta, rules: Rules, now: real): seq<Free> {
    if d.updates.Some? then FreeUpdates(d.context, d.updates.value, rules, now) else []
  }

  function Freed(ds: seq<Timed>, rules: Rules): seq<Free> {
    if ds == [] then [] else FreeOf(ds[0].delta, rules, ds[0].now) + Freed(ds[1..], rules)
  }

  lemma {:induction false} EntriesFree(context: Option<string>, source: string, es: seq<Entry>, rules: Rules, st: State, now: real)
    ensures var kept := ThrottleEntries(context, source, es, rules, st, now).0;
            FreeEntries(context, source, kept, rules, now) == FreeEntries(context, source, es, rules, now)
    decreases |es|
  {
    hide Forwards, OfferOf, After;
    if es != [] {
      var st1 := if es[0].path in rules then After(st, OfferOf(context, source, es[0], rules, now)) else st;
      EntriesFree(context, source, es[1..], rules, st1, now);
      var rest := ThrottleEntries(context, source, es[1..], rules, st1, now).0;
      assert ([es[0]] + rest)[1..] == rest && [] + rest == rest;
    }
  }

  lemma OneFree(context: Option<string>, u: Update, rest: seq<Update>, rules: Rules, now: real)
    ensures FreeUpdates(context, [u] + rest, rules, now) == FreeUpdates(context, [u], rules, now) + FreeUpdates(context, rest, rules, now)
  {
    assert ([u] + rest)[1..] == rest && [u][1..] == [];
  }

  lemma UpdateFree(context: Option<string>, u: Update, rules: Rules, st: State, now: real)
    ensures var w := ThrottleUpdate(context, u, rules, st, now).0;
            FreeUpdates(context, if w.Some? then [w.value] else [], rules, now) == FreeUpdates(context, [u], rules, now)
  {
    assert [u][1..] == [];
    if u.values.Some? {
      var kept := ThrottleEntries(context, SourceOf(u), u.values.value, rules, st, now).0;
      EntriesFree(context, SourceOf(u), u.values.value, rules, st, now);
      EntriesAreOffers(context, SourceOf(u), u.values.value, rules, st, now);
      var w := u.(values := Some(kept));
      assert [w][1..] == [];
      hide ThrottleEntries, FreeEntries;
      if kept == [] {
        NoneFree(context, SourceOf(u), rules, now);
      }
    }
  }

  lemma NoneFree(context: Option<string>, source: string, rules: Rules, now: real)
    ensures FreeEntries(context, source, [], rules, now) == []
  {
  }

  lemma {:induction false} UpdatesFree(context: Option<string>, us: seq<Update>, rules: Rules, st: State, now: real)
    ensures FreeUpdates(context, ThrottleUpdates(context, us, rules, st, now).0, rules, now) == FreeUpdates(context, us, rules, now)
    decreases |us|
  {
    hide ThrottleUpdate;
    if us != [] {
      var (w, st1) := ThrottleUpdate(context, us[0], rules, st, now);
      UpdateFree(context, us[0], rules, st, now);
      UpdatesFree(context, us[1..], rules, st1, now);
      var rest := ThrottleUpdates(context, us[1..], rules, st1, now).0;
      assert us == [us[0]] + us[1..];
      OneFree(context, us[0], us[1..], rules, now);
      if w.Some? {
        OneFree(context, w.value, rest, rules, now);
      } else {
        assert [] + rest == rest;
      }
    }
  }

  /** Values without a rule and updates without values come out of every run, in order, as they went in. */
  lemma {:induction false} FreeValuesPass(ds: seq<Timed>, rules: Rules, st: State)
    ensures Freed(ThrottleRun(ds, rules, st), rules) == Freed(ds, rules)
    decreases |ds|
  {
    if ds != [] {
      var d, now := ds[0].delta, ds[0].now;
      var (out, st') := ThrottleDelta(d, rules, st, now);
      FreeValuesPass(ds[1..], rules, st');
      var rest := ThrottleRun(ds[1..], rules, st');
      if d.updates.Some? {
        UpdatesFree(d.context, d.updates.value, rules, st, now);
      }
      hide ThrottleUpdates, FreeUpdates;
      NoUpdateFree(d.context, rules, now);
      assert FreeOf(d, rules, now) == if out.Some? then FreeOf(out.value, rules, now) else [];
      hide ThrottleDelta, FreeOf;
      if out.Some? {
        assert ([Timed(out.value, now)] + rest)[1..] == rest;
      } else {
        assert [] + rest == rest;
      }
    }
  }

  lemma NoUpdateFree(context: Option<string>, rules: Rules, now: real)
    ensures FreeUpdates(context, [], rules, now) == []
  {
  }

  // ------------------------------------------------------ what sharing a record does

  function OneValue(context: Option<string>, source: string, path: string, v: real): Delta {
    Delta(context, Some([Update(Some(source), Some([Entry(path, Num(v))]), "")]))
  }

  lemma OneValueThrottled(context: Option<string>, source: string, path: string, v: real, rules: Rules, st: State, now: real)
    requires path in rules
    ensures var d := OneValue(context, source, path, v);
            var o := OfferOf(context, source, Entry(path, Num(v)), rules, now);
            ThrottleDelta(d, rules, st, now)
              == if Forwards(st, o) then (Some(d), LruSet(st, o.key, Record(o), PATH_THROTTLE_STATE_MAX)) else (None, st)
  {
    hide ShouldDrop, LruSet, StateKey;
    var d := OneValue(context, source, path, v);
    var es := [Entry(path, Num(v))];
    var o := OfferOf(context, source, es[0], rules, now);
    assert es[1..] == [] && d.updates.value[1..] == [];
    assert ThrottleEntries(context, source, [], rules, After(st, o), now) == ([], After(st, o));
    assert ThrottleEntries(context, source, es, rules, st, now).0 == if Forwards(st, o) then es else [];
    assert ThrottleUpdates(context, d.updates.value, rules, st, now).1 == After(st, o);
    assert ThrottleUpdates(context, d.updates.value, rules, st, now).0 == if Forwards(st, o) then d.updates.value else [];
  }

  /** A number as a delta of its own. */
  function Alone(x: Sent): Timed
    requires x.value.Num?
  {
    Timed(OneValue(x.context, x.source, x.path, x.value.r), x.now)
  }

  function Recorded(st: State, x: Sent): State
    requires x.value.Num?
  {
    LruSet(st, x.Key(), Last(x.now, Some(x.value.r)), PATH_THROTTLE_STATE_MAX)
  }

  /** First under its key, or the deadband away from the number recorded last. */
  predicate Far(st: State, x: Sent, d: real)
    requires x.value.Num?
  {
    var last := st.Get(x.Key());
    last.Some? ==> last.value.value.Some? && Abs(x.value.r - last.value.value.value) >= d
  }

  lemma FarNumberPasses(x: Sent, rest: seq<Timed>, rules: Rules, st: State, d: real)
    requires x.value.Num? && x.path in rules && rules[x.path] == Rule(None, Some(d)) && st.Valid() && Far(st, x, d)
    ensures Recorded(st, x).Valid()
    ensures ThrottleRun([Alone(x)] + rest, rules, st) == [Alone(x)] + ThrottleRun(rest, rules, Recorded(st, x))
  {
    OneValueThrottled(x.context, x.source, x.path, x.value.r, rules, st, x.now);
    LruSetFacts(st, x.Key(), Last(x.now, Some(x.value.r)), PATH_THROTTLE_STATE_MAX);
    var ds := [Alone(x)] + rest;
    assert ds[1..] == rest;
    hide LruSet, StateKey, ThrottleDelta, OneValue;
  }

  lemma NextIsFar(st: State, x: Sent, y: Sent, d: real)
    requires st.Valid() && x.value.Num? && y.value.Num? && x.Key() == y.Key() && Abs(y.value.r - x.value.r) >= d
    ensures Far(Recorded(st, x), y, d)
  {
    LruSetFacts(st, x.Key(), Last(x.now, Some(x.value.r)), PATH_THROTTLE_STATE_MAX);
    hide LruSet, StateKey;
  }

  /** A number, one that shares its record, and again one of the first kind: each the deadband away from the one before. */
  lemma ThreePass(x: Sent, y: Sent, z: Sent, rules: Rules, d: real)
    requires x.value.Num? && y.value.Num? && z.value.Num? && x.Key() == y.Key() == z.Key()
    requires x.path in rules && y.path in rules && z.path in rules
    requires rules[x.path] == rules[y.path] == rules[z.path] == Rule(None, Some(d))
    requires Abs(y.value.r - x.value.r) >= d && Abs(z.value.r - y.value.r) >= d
    ensures ThrottleRun([Alone(x), Alone(y), Alone(z)], rules, Empty()) == [Alone(x), Alone(y), Alone(z)]
  {
    var st0: State := Empty();
    assert st0.Valid() && Far(st0, x, d);
    hide JsMap.Valid, Far, Recorded, Alone, ThrottleRun, Sent.Key, Abs;
    FarNumberPasses(x, [Alone(y), Alone(z)], rules, st0, d);
    var st1 := Recorded(st0, x);
    NextIsFar(st0, x, y, d);
    FarNumberPasses(y, [Alone(z)], rules, st1, d);
    var st2 := Recorded(st1, y);
    NextIsFar(st1, y, z, d);
    FarNumberPasses(z, [], rules, st2, d);
    NothingRuns(rules, Recorded(st2, z));
    assert [Alone(z)] + [] == [Alone(z)];
    assert [Alone(y)] + [Alone(z)] == [Alone(y), Alone(z)];
    assert [Alone(x)] + [Alone(y), Alone(z)] == [Alone(x), Alone(y), Alone(z)];
  }

  lemma NothingRuns(rules: Rules, st: State)
    ensures ThrottleRun([], rules, st) == []
  {
  }

  lemma OneNumberSent(x: Sent, rest: seq<Timed>, rules: Rules)
    requires x.value.Num? && x.path in rules
    ensures Values([Alone(x)] + rest, rules) == [x] + Values(rest, rules)
  {
    var es := [Entry(x.path, x.value)];
    var us := [Update(Some(x.source), Some(es), "")];
    assert es[1..] == [] && us[1..] == [];
    assert SentOfEntries(x.context, x.source, es, rules, x.now) == [x];
    assert SentOfUpdates(x.context, us, rules, x.now) == [x];
    assert ([Alone(x)] + rest)[1..] == rest;
  }

  lemma ThreeSent(x: Sent, y: Sent, z: Sent, rules: Rules)
    requires x.value.Num? && y.value.Num? && z.value.Num? && x.path in rules && y.path in rules && z.path in rules
    ensures Values([Alone(x), Alone(y), Alone(z)], rules) == [x, y, z]
  {
    hide Alone;
    OneNumberSent(x, [Alone(y), Alone(z)], rules);
    OneNumberSent(y, [Alone(z)], rules);
    OneNumberSent(z, [], rules);
    assert [Alone(z)] + [] == [Alone(z)] && Values([], rules) == [];
    hide Values;
    assert [Alone(y)] + [Alone(z)] == [Alone(y), Alone(z)];
    assert [Alone(x)] + [Alone(y), Alone(z)] == [Alone(x), Alone(y), Alone(z)];
  }

  /** In this run two numbers in a row of this context, source and path come out closer than its deadband. */
  ghost predicate TooClose(ds: seq<Timed>, rules: Rules, a: nat, b: nat, context: Option<string>, source: string, path: string,
                           d: real)
  {
    var xs := Output(ds, rules);
    && a < b < |xs| && InARow(xs, a, b) && FewBetween(xs, a, b)
    && xs[b].context == context && xs[b].source == source && xs[b].path == path
    && path in rules && rules[path].deadband == Some(d)
    && xs[a].value.Num? && xs[b].value.Num? && Abs(xs[b].value.r - xs[a].value.r) < d
  }

  lemma OneSharerBetween(xs: seq<Sent>)
    requires |xs| == 3 && xs[1].Key() == xs[0].Key() && xs[2].Beside(xs[0]) && !xs[1].Beside(xs[0])
    ensures InARow(xs, 0, 2) && FewBetween(xs, 0, 2)
  {
    hide Sent.Key;
    assert (set c | 0 < c < 2 && xs[c].Key() != xs[0].Key() :: xs[c].Key()) == {};
  }

  /** For every deadband a run that shows it for two that share a record: the second number repeats the first exactly. */
  lemma DeadbandComparesOthers(x: Sent, y: Sent, d: real)
    requires 0.0 < d && x.value.Num? && y.value == Num(x.value.r + d) && x.Key() == y.Key() && !y.Beside(x)
    ensures var rules := map[x.path := Rule(None, Some(d)), y.path := Rule(None, Some(d))];
            TooClose([Alone(x), Alone(y), Alone(x)], rules, 0, 2, x.context, x.source, x.path, d)
  {
    var rules: Rules := map[x.path := Rule(None, Some(d)), y.path := Rule(None, Some(d))];
    ThreePass(x, y, x, rules, d);
    ThreeSent(x, y, x, rules);
    hide Alone, StateKey, Sent.Key, Values, ThrottleRun, FewBetween, InARow;
    OneSharerBetween([x, y, x]);
  }

  /**
   * In every run and under every rule with a given deadband, the numbers of a context, source and path come out that
   * far apart (fewer than 10000 other keys between them), exactly if it has a record of its own.
   */
  lemma DeadbandKeptExactly(context: Option<string>, source: string, path: string, d: real)
    requires 0.0 < d
    ensures (forall ds, rules, a, b :: !TooClose(ds, rules, a, b, context, source, path, d)) <==> OwnRecord(context, source, path)
  {
    hide OwnRecord, StateKey;
    if OwnRecord(context, source, path) {
      forall ds, rules, a, b
        ensures !TooClose(ds, rules, a, b, context, source, path, d)
      {
        if TooClose(ds, rules, a, b, context, source, path, d) {
          RunKeepsApart(ds, rules, a, b);
        }
      }
    } else {
      var c', s', p' := Sharer(context, source, path);
      var x, y := Sent(context, source, path, Num(0.0), 0.0), Sent(c', s', p', Num(d), 0.0);
      DeadbandComparesOthers(x, y, d);
    }
  }
}
