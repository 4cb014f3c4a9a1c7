/**
 * When the bounded map of recent keys keeps the promise of the suppression window: never to let equal keys through
 * unless they are more than the window apart.
 */
module SuppressionWindow {
  import opened Common
  import opened JsMap
  import opened DuplicateSuppression

  lemma EmptyValid()
    ensures Empty<Key, int>().Valid()
  {
  }

  /** The answers to the offers, true for suppressed. */
  function Decisions(m: Recent, es: seq<Event>): seq<bool>
    requires m.Valid()
    decreases |es|
  {
    if es == [] then []
    else
      AfterValid(m, es[0]);
      (if es[0].Offer? then [Suppresses(m, es[0].key, es[0].now)] else []) + Decisions(After(m, es[0]), es[1..])
  }

  function IdealDecisions(h: History, es: seq<Event>): seq<bool>
    decreases |es|
  {
    if es == [] then []
    else
      (if es[0].Offer? then [IdealSuppresses(h, es[0].key, es[0].now)] else [])
      + IdealDecisions(IdealAfter(h, es[0]), es[1..])
  }

  predicate Nondecreasing(es: seq<Event>, from: int) {
    && (forall i :: 0 <= i < |es| ==> from <= es[i].now)
    && forall i, j :: 0 <= i < j < |es| ==> es[i].now <= es[j].now
  }

  /** Keys accepted within the suppression window that ends now. */
  ghost function Fresh(h: History, now: int): set<Key> {
    set k | k in h && now - h[k] <= 1500
  }

  /** The map knows the true time of every key it holds, and holds every key that still matters. */
  ghost predicate Agrees(m: Recent, h: History, now: int) {
    && (forall k :: m.Has(k) ==> k in h && m.vals[k] == h[k])
    && (forall k :: k in h && now - h[k] <= 1500 ==> m.Has(k))
  }

  lemma {:induction false} SizeOfKeys(m: Recent)
    requires m.Valid()
    ensures |m.vals.Keys| == m.Size()
  {
    NoDupCardinality(m.order);
  }

  /** Cleanup evicts nothing that matters as long as the window's keys fit under the cap. */
  lemma CleanupAgrees(m: Recent, h: History, now: int)
    requires m.Valid() && Agrees(m, h, now) && |Fresh(h, now)| <= OUTBOUND_DEDUPE_MAX_ENTRIES
    ensures Agrees(Cleanup(m, now), h, now)
    ensures Cleanup(m, now) == Expire(m, m.order, now)
  {
    var x := Expire(m, m.order, now);
    ExpireFacts(m, m.order, now);
    assert forall k :: m.Has(k) <==> k in Elements(m.order);
    assert x.vals.Keys == Fresh(h, now);
    SizeOfKeys(x);
  }

  lemma StepAgrees(m: Recent, h: History, e: Event, from: int)
    requires m.Valid() && Agrees(m, h, from) && from <= e.now
    requires |Fresh(IdealAfter(h, e), e.now)| <= OUTBOUND_DEDUPE_MAX_ENTRIES
    ensures e.Offer? ==> Suppresses(m, e.key, e.now) == IdealSuppresses(h, e.key, e.now)
    ensures Agrees(After(m, e), IdealAfter(h, e), e.now)
  {
    assert Agrees(m, h, e.now);
    match e
    case Tick(now) => CleanupAgrees(m, h, now);
    case Offer(key, now) =>
      if !Suppresses(m, key, now) {
        var n := m.Set(key, now);
        SetValid(m, key, now);
        assert Agrees(n, h[key := now], now);
        if n.Size() > OUTBOUND_DEDUPE_MAX_ENTRIES {
          CleanupAgrees(n, h[key := now], now);
        }
      }
  }

  /** The map holds no key with a time that is not its true one. */
  ghost predicate Truthful(m: Recent, h: History) {
    forall k :: m.Has(k) ==> k in h && m.vals[k] == h[k]
  }

  /** The key offered was accepted within the window that ends now, and the map has evicted it since. */
  ghost predicate Missed(m: Recent, h: History, e: Event) {
    e.Offer? && e.key in Fresh(h, e.now) && !m.Has(e.key)
  }

  ghost predicate NothingMissed(m: Recent, h: History, es: seq<Event>)
    requires m.Valid()
    decreases |es|
  {
    es == [] || (AfterValid(m, es[0]); !Missed(m, h, es[0]) && NothingMissed(After(m, es[0]), IdealAfter(h, es[0]), es[1..]))
  }

  lemma StepDecidesAlike(m: Recent, h: History, e: Event)
    requires m.Valid() && Truthful(m, h)
    ensures e.Offer? ==> (Suppresses(m, e.key, e.now) == IdealSuppresses(h, e.key, e.now) <==> !Missed(m, h, e))
    ensures !Missed(m, h, e) ==> Truthful(After(m, e), IdealAfter(h, e))
  {
    ExpireFacts(m, m.order, e.now);
    TrimFacts(Expire(m, m.order, e.now));
    if e.Offer? {
      SetValid(m, e.key, e.now);
      var n := m.Set(e.key, e.now);
      ExpireFacts(n, n.order, e.now);
      TrimFacts(Expire(n, n.order, e.now));
    }
  }

  lemma {:induction false} DecidesAlikeFrom(m: Recent, h: History, es: seq<Event>)
    requires m.Valid() && Truthful(m, h)
    ensures Decisions(m, es) == IdealDecisions(h, es) <==> NothingMissed(m, h, es)
    decreases |es|
  {
    hide Truthful, Missed, Suppresses, IdealSuppresses, After, IdealAfter;
    if es == [] {
    } else {
      AfterValid(m, es[0]);
      StepDecidesAlike(m, h, es[0]);
      var rest, ideal := Decisions(After(m, es[0]), es[1..]), IdealDecisions(IdealAfter(h, es[0]), es[1..]);
      if es[0].Offer? {
        HeadsAndTails(Suppresses(m, es[0].key, es[0].now), rest, IdealSuppresses(h, es[0].key, es[0].now), ideal);
      } else {
        assert [] + rest == rest && [] + ideal == ideal;
        OnlyOffersAreMissed(m, h, es[0]);
      }
      if !Missed(m, h, es[0]) {
        DecidesAlikeFrom(After(m, es[0]), IdealAfter(h, es[0]), es[1..]);
      }
    }
  }

  lemma OnlyOffersAreMissed(m: Recent, h: History, e: Event)
    ensures Missed(m, h, e) ==> e.Offer?
  {
  }

  lemma HeadsAndTails<T>(x: T, s: seq<T>, y: T, t: seq<T>)
    ensures [x] + s == [y] + t <==> x == y && s == t
  {
    if [x] + s == [y] + t {
      assert s == ([x] + s)[1..] == ([y] + t)[1..] == t;
    }
  }

  /**
   * Whatever the clock does and however many keys arrive: the answers of a run are those of the unbounded history
   * exactly if no key that is offered again within its window was evicted.
   */
  lemma DecidesAlikeExactly(es: seq<Event>)
    ensures Empty<Key, int>().Valid()
    ensures Decisions(Empty(), es) == IdealDecisions(map[], es) <==> NothingMissed(Empty(), map[], es)
  {
    DecidesAlikeFrom(Empty(), map[], es);
  }

  // ------------------------------------------------------------ spacing of acceptances

  function IdealAll(h: History, es: seq<Event>): History
    decreases |es|
  {
    if es == [] then h else IdealAll(IdealAfter(h, es[0]), es[1..])
  }

  /** Event `i` of the run is an offer that the history accepts. */
  predicate Accepted(h: History, es: seq<Event>, i: nat)
    requires i < |es|
  {
    es[i].Offer? && !IdealSuppresses(IdealAll(h, es[..i]), es[i].key, es[i].now)
  }

  lemma {:induction false} TimesOnlyGrow(h: History, es: seq<Event>, from: int, key: Key)
    requires Nondecreasing(es, from) && key in h && h[key] <= from
    ensures key in IdealAll(h, es) && h[key] <= IdealAll(h, es)[key]
    decreases |es|
  {
    if es == [] {
    } else {
      assert forall i :: 0 <= i < |es| - 1 ==> es[1..][i] == es[i + 1];
      TimesOnlyGrow(IdealAfter(h, es[0]), es[1..], es[0].now, key);
    }
  }

  lemma {:induction false} IdealAllAppend(h: History, a: seq<Event>, b: seq<Event>)
    ensures IdealAll(h, a + b) == IdealAll(IdealAll(h, a), b)
    decreases |a|
  {
    if a == [] {
      assert a + b == b;
    } else {
      assert (a + b)[1..] == a[1..] + b;
      IdealAllAppend(IdealAfter(h, a[0]), a[1..], b);
    }
  }

  /** Two accepted deltas with the same key are more than the suppression window apart. */
  lemma AcceptancesAreApart(es: seq<Event>, from: int, i: nat, j: nat)
    requires Nondecreasing(es, from) && i < j < |es|
    requires Accepted(map[], es, i) && Accepted(map[], es, j) && es[i].key == es[j].key
    ensures es[j].now - es[i].now > 1500
  {
    var key := es[i].key;
    var h := IdealAll(map[], es[..i]);
    var h' := IdealAfter(h, es[i]);
    assert h'[key] == es[i].now;
    var between := es[i + 1..j];
    assert es[..j] == es[..i] + ([es[i]] + between);
    IdealAllAppend(map[], es[..i], [es[i]] + between);
    assert ([es[i]] + between)[1..] == between;
    assert forall k :: 0 <= k < |between| ==> between[k] == es[i + 1 + k];
    TimesOnlyGrow(h', between, es[i].now, key);
  }

  /** Event `i` of the run is an offer that the program lets through. */
  predicate Passes(es: seq<Event>, i: nat)
    requires i < |es|
  {
    EmptyValid();
    es[i].Offer? && !Suppresses(AfterAll(Empty(), es[..i]), es[i].key, es[i].now)
  }

  lemma {:induction false} StaysTruthful(m: Recent, h: History, es: seq<Event>)
    requires m.Valid() && Truthful(m, h) && NothingMissed(m, h, es)
    ensures AfterAll(m, es).Valid() && Truthful(AfterAll(m, es), IdealAll(h, es))
    decreases |es|
  {
    hide Truthful, Missed, After, IdealAfter;
    if es == [] {
    } else {
      AfterValid(m, es[0]);
      StepDecidesAlike(m, h, es[0]);
      StaysTruthful(After(m, es[0]), IdealAfter(h, es[0]), es[1..]);
    }
  }

  lemma {:induction false} PrefixMissesNothing(m: Recent, h: History, es: seq<Event>, i: nat)
    requires m.Valid() && NothingMissed(m, h, es) && i < |es|
    ensures NothingMissed(m, h, es[..i]) && !Missed(AfterAll(m, es[..i]), IdealAll(h, es[..i]), es[i])
    decreases i
  {
    hide Missed, After, IdealAfter;
    if i > 0 {
      AfterValid(m, es[0]);
      PrefixMissesNothing(After(m, es[0]), IdealAfter(h, es[0]), es[1..], i - 1);
      assert es[..i][1..] == es[1..][..i - 1];
    }
  }

  lemma {:induction false} FirstMiss(m: Recent, h: History, es: seq<Event>) returns (j: nat)
    requires m.Valid() && !NothingMissed(m, h, es)
    ensures j < |es| && NothingMissed(m, h, es[..j]) && Missed(AfterAll(m, es[..j]), IdealAll(h, es[..j]), es[j])
    decreases |es|
  {
    hide Missed, After, IdealAfter;
    if Missed(m, h, es[0]) {
      j := 0;
    } else {
      AfterValid(m, es[0]);
      var k := FirstMiss(After(m, es[0]), IdealAfter(h, es[0]), es[1..]);
      j := k + 1;
      assert es[..j][1..] == es[1..][..j - 1];
    }
  }

  /** Every time in the history is that of an accepted offer. */
  lemma {:induction false} AcceptedWhen(es: seq<Event>, key: Key) returns (i: nat)
    requires key in IdealAll(map[], es)
    ensures i < |es| && Accepted(map[], es, i) && es[i].key == key && es[i].now == IdealAll(map[], es)[key]
    decreases |es|
  {
    var n := |es| - 1;
    var before := es[..n];
    assert es == before + [es[n]];
    IdealAllAppend(map[], before, [es[n]]);
    assert [es[n]][1..] == [];
    if es[n].Offer? && es[n].key == key && Accepted(map[], es, n) {
      i := n;
    } else {
      i := AcceptedWhen(before, key);
      assert before[..i] == es[..i];
    }
  }

  lemma PassesLikeAccepted(es: seq<Event>, i: nat)
    requires Empty<Key, int>().Valid() && i < |es| && NothingMissed(Empty(), map[], es[..i])
    requires !Missed(AfterAll(Empty(), es[..i]), IdealAll(map[], es[..i]), es[i])
    ensures Passes(es, i) <==> Accepted(map[], es, i)
  {
    hide NothingMissed, Missed, After, IdealAfter, IdealSuppresses, Suppresses;
    StaysTruthful(Empty(), map[], es[..i]);
    StepDecidesAlike(AfterAll(Empty(), es[..i]), IdealAll(map[], es[..i]), es[i]);
  }

  /** Two deltas with the same key are let through only when they are more than the suppression window apart. */
  predicate AllApart(es: seq<Event>) {
    forall i, j :: 0 <= i < j < |es| && Passes(es, i) && Passes(es, j) && es[i].key == es[j].key
                   ==> es[j].now - es[i].now > 1500
  }

  /** A miss lets the same key through twice within the window. */
  lemma MissPasses(es: seq<Event>)
    requires Empty<Key, int>().Valid() && !NothingMissed(Empty(), map[], es)
    ensures !AllApart(es)
  {
    hide NothingMissed;
    var j := FirstMiss(Empty(), map[], es);
    var h := IdealAll(map[], es[..j]);
    var i := AcceptedWhen(es[..j], es[j].key);
    assert es[..j][..i] == es[..i];
    PrefixMissesNothing(Empty(), map[], es[..j], i);
    PassesLikeAccepted(es, i);
    assert Passes(es, i) && Passes(es, j);
  }

  /** One run keeps that promise exactly if no key offered again within its window had been evicted. */
  lemma PassesAreApart(es: seq<Event>, from: int)
    requires Nondecreasing(es, from)
    ensures Empty<Key, int>().Valid()
    ensures AllApart(es) <==> NothingMissed(Empty(), map[], es)
  {
    hide NothingMissed, Accepted, Nondecreasing, Missed, Suppresses;
    if NothingMissed(Empty(), map[], es) {
      forall i, j | 0 <= i < j < |es| && Passes(es, i) && Passes(es, j) && es[i].key == es[j].key
        ensures es[j].now - es[i].now > 1500
      {
        PrefixMissesNothing(Empty(), map[], es, i);
        PrefixMissesNothing(Empty(), map[], es, j);
        PassesLikeAccepted(es, i);
        PassesLikeAccepted(es, j);
        AcceptancesAreApart(es, from, i, j);
      }
    } else {
      MissPasses(es);
    }
  }

  // ------------------------------------------------------- how many keys the window takes

  /** Until event `n`, never are more keys than the map holds accepted within one suppression window. */
  ghost predicate CapUpTo(es: seq<Event>, n: nat)
    requires n <= |es|
  {
    forall i :: 0 < i <= n ==> |Fresh(IdealAll(map[], es[..i]), es[i - 1].now)| <= 5000
  }

  ghost predicate WithinCap(es: seq<Event>) {
    CapUpTo(es, |es|)
  }

  lemma {:induction false} AfterAllSnoc(m: Recent, es: seq<Event>, e: Event)
    requires m.Valid()
    ensures AfterAll(m, es + [e]) == After(AfterAll(m, es), e)
    decreases |es|
  {
    hide After;
    if es == [] {
      assert ([] + [e])[1..] == [];
    } else {
      AfterValid(m, es[0]);
      assert (es + [e])[1..] == es[1..] + [e];
      AfterAllSnoc(After(m, es[0]), es[1..], e);
    }
  }

  lemma OneMore(es: seq<Event>, n: nat)
    requires n < |es| && Empty<Key, int>().Valid()
    ensures AfterAll(Empty(), es[..n + 1]) == After(AfterAll(Empty(), es[..n]), es[n])
    ensures IdealAll(map[], es[..n + 1]) == IdealAfter(IdealAll(map[], es[..n]), es[n])
  {
    hide After, IdealAfter;
    assert es[..n + 1] == es[..n] + [es[n]];
    AfterAllSnoc(Empty(), es[..n], es[n]);
    IdealAllAppend(map[], es[..n], [es[n]]);
    assert [es[n]][1..] == [];
  }

  function Clock(es: seq<Event>, from: int, n: nat): int
    requires n <= |es|
  {
    if n == 0 then from else es[n - 1].now
  }

  lemma {:induction false} AgreesAfter(es: seq<Event>, from: int, n: nat)
    requires Nondecreasing(es, from) && n <= |es| && CapUpTo(es, n) && Empty<Key, int>().Valid()
    ensures Agrees(AfterAll(Empty(), es[..n]), IdealAll(map[], es[..n]), Clock(es, from, n))
  {
    hide After, IdealAfter, Fresh;
    if n > 0 {
      AgreesAfter(es, from, n - 1);
      OneMore(es, n - 1);
      StepAgrees(AfterAll(Empty(), es[..n - 1]), IdealAll(map[], es[..n - 1]), es[n - 1], Clock(es, from, n - 1));
    }
  }

  /** Nothing is missed up to the last event, if the cap held before it. */
  lemma CapMissesNothing(es: seq<Event>, from: int)
    requires Nondecreasing(es, from) && es != [] && CapUpTo(es, |es| - 1) && Empty<Key, int>().Valid()
    ensures NothingMissed(Empty(), map[], es)
  {
    hide NothingMissed, IdealAfter;
    if !NothingMissed(Empty(), map[], es) {
      var j := FirstMiss(Empty(), map[], es);
      AgreesAfter(es, from, j);
      assert false;
    }
  }

  /** Under a clock that never goes back, answers are right if no window sees more accepted keys than the cap. */
  lemma SameDecisions(es: seq<Event>, from: int)
    requires Nondecreasing(es, from) && WithinCap(es)
    ensures Empty<Key, int>().Valid()
    ensures Decisions(Empty(), es) == IdealDecisions(map[], es)
  {
    if es != [] {
      CapMissesNothing(es, from);
    }
    DecidesAlikeExactly(es);
  }

  ghost predicate SameAnswers(m: Recent, h: History, now: int) {
    forall k :: Suppresses(m, k, now) == IdealSuppresses(h, k, now)
  }

  /** After every event, an offer of any key at that moment would get the answer of the history. */
  ghost predicate AlwaysSameAnswers(es: seq<Event>) {
    EmptyValid();
    forall n :: 0 < n <= |es| ==> SameAnswers(AfterAll(Empty(), es[..n]), IdealAll(map[], es[..n]), es[n - 1].now)
  }

  /** Right answers for all keys need room for all keys. */
  lemma AnswersNeedRoom(m: Recent, h: History, now: int)
    requires m.Valid() && m.Size() <= OUTBOUND_DEDUPE_MAX_ENTRIES && SameAnswers(m, h, now)
    ensures |Fresh(h, now)| <= OUTBOUND_DEDUPE_MAX_ENTRIES
  {
    SizeOfKeys(m);
    forall k | k in Fresh(h, now)
      ensures k in m.vals.Keys
    {
      assert IdealSuppresses(h, k, now);
    }
    SubsetSize(Fresh(h, now), m.vals.Keys);
  }

  lemma {:induction false} SubsetSize(a: set<Key>, b: set<Key>)
    requires a <= b
    ensures |a| <= |b|
  {
    if a != {} {
      var x :| x in a;
      SubsetSize(a - {x}, b - {x});
    }
  }

  lemma AgreementAnswers(m: Recent, h: History, now: int)
    requires Agrees(m, h, now)
    ensures SameAnswers(m, h, now)
  {
  }

  /**
   * Under a clock that never goes back: at every moment of a run every key would get the right answer, exactly if at
   * no moment more keys than the map holds have been accepted within the window.
   */
  lemma RightAnswersExactly(es: seq<Event>, from: int)
    requires Nondecreasing(es, from)
    ensures AlwaysSameAnswers(es) <==> WithinCap(es)
  {
    hide SameAnswers, Agrees, Fresh;
    EmptyValid();
    if WithinCap(es) {
      forall n | 0 < n <= |es|
        ensures SameAnswers(AfterAll(Empty(), es[..n]), IdealAll(map[], es[..n]), es[n - 1].now)
      {
        AgreesAfter(es, from, n);
        AgreementAnswers(AfterAll(Empty(), es[..n]), IdealAll(map[], es[..n]), es[n - 1].now);
      }
    }
    if AlwaysSameAnswers(es) {
      forall n | 0 < n <= |es|
        ensures |Fresh(IdealAll(map[], es[..n]), es[n - 1].now)| <= OUTBOUND_DEDUPE_MAX_ENTRIES
      {
        AlwaysBounded(Empty(), es[..n]);
        AnswersNeedRoom(AfterAll(Empty(), es[..n]), IdealAll(map[], es[..n]), es[n - 1].now);
      }
    }
  }

  // --------------------------------------------------------------- the promise of the window

  /** The run up to event `n`, and one more offer at that moment. */
  function Probe(es: seq<Event>, n: nat, key: Key): seq<Event>
    requires 0 < n <= |es|
  {
    es[..n] + [Offer(key, es[n - 1].now)]
  }

  /** At no moment of the run would one more offer break the promise of the window. */
  ghost predicate WindowAlwaysKept(es: seq<Event>) {
    forall n, key :: 0 < n <= |es| ==> AllApart(Probe(es, n, key))
  }

  lemma ProbeIsKept(es: seq<Event>, from: int, n: nat, key: Key)
    requires Nondecreasing(es, from) && WithinCap(es) && 0 < n <= |es|
    ensures AllApart(Probe(es, n, key))
  {
    hide AllApart, NothingMissed, Fresh;
    var p := Probe(es, n, key);
    forall i | 0 < i <= n
      ensures |Fresh(IdealAll(map[], p[..i]), p[i - 1].now)| <= OUTBOUND_DEDUPE_MAX_ENTRIES
    {
      assert p[..i] == es[..i];
    }
    assert forall i :: 0 <= i < n ==> p[i] == es[i];
    CapMissesNothing(p, from);
    PassesAreApart(p, from);
  }

  lemma KeptProbeAnswers(es: seq<Event>, from: int, n: nat, key: Key)
    requires Nondecreasing(es, from) && 0 < n <= |es| && AllApart(Probe(es, n, key)) && Empty<Key, int>().Valid()
    ensures Suppresses(AfterAll(Empty(), es[..n]), key, es[n - 1].now) == IdealSuppresses(IdealAll(map[], es[..n]), key, es[n - 1].now)
  {
    assert Truthful(Empty(), map[]);
    hide AllApart, NothingMissed, Missed, Truthful, Suppresses, IdealSuppresses;
    var p := Probe(es, n, key);
    assert forall i :: 0 <= i < n ==> p[i] == es[i];
    PassesAreApart(p, from);
    PrefixMissesNothing(Empty(), map[], p, n);
    assert p[..n] == es[..n];
    StaysTruthful(Empty(), map[], es[..n]);
    StepDecidesAlike(AfterAll(Empty(), es[..n]), IdealAll(map[], es[..n]), p[n]);
  }

  lemma KeptProbesAnswer(es: seq<Event>, from: int, n: nat)
    requires Nondecreasing(es, from) && WindowAlwaysKept(es) && 0 < n <= |es| && Empty<Key, int>().Valid()
    ensures SameAnswers(AfterAll(Empty(), es[..n]), IdealAll(map[], es[..n]), es[n - 1].now)
  {
    hide AllApart, Probe, Suppresses, IdealSuppresses, Nondecreasing;
    var m, h, now := AfterAll(Empty(), es[..n]), IdealAll(map[], es[..n]), es[n - 1].now;
    forall key: Key
      ensures Suppresses(m, key, now) == IdealSuppresses(h, key, now)
    {
      assert AllApart(Probe(es, n, key));
      KeptProbeAnswers(es, from, n, key);
    }
  }

  /**
   * Equal keys get through only when more than the window apart, at every moment of a run and for every key that
   * might be offered then, exactly if at no moment more keys than the map holds have been accepted within the window.
   */
  lemma WindowKeptExactly(es: seq<Event>, from: int)
    requires Nondecreasing(es, from)
    ensures WindowAlwaysKept(es) <==> WithinCap(es)
  {
    hide AllApart, WithinCap, Probe, Nondecreasing, AfterAll, IdealAll;
    EmptyValid();
    if WithinCap(es) {
      forall n, key | 0 < n <= |es|
        ensures AllApart(Probe(es, n, key))
      {
        ProbeIsKept(es, from, n, key);
      }
    }
    if WindowAlwaysKept(es) {
      forall n | 0 < n <= |es|
        ensures SameAnswers(AfterAll(Empty(), es[..n]), IdealAll(map[], es[..n]), es[n - 1].now)
      {
        KeptProbesAnswer(es, from, n);
      }
      RightAnswersExactly(es, from);
    }
  }

  /** The keys offered within the window that ends with event `n`. */
  ghost function OfferedWithin(es: seq<Event>, n: nat): set<Key>
    requires 0 < n <= |es|
  {
    set i | 0 <= i < n && es[i].Offer? && es[n - 1].now - es[i].now <= 1500 :: es[i].key
  }

  /** It is enough that no window sees more different keys offered than the map holds. */
  lemma FewKeysOffered(es: seq<Event>)
    requires forall n :: 0 < n <= |es| ==> |OfferedWithin(es, n)| <= 5000
    ensures WithinCap(es)
  {
    hide OfferedWithin, Accepted;
    forall n | 0 < n <= |es|
      ensures |Fresh(IdealAll(map[], es[..n]), es[n - 1].now)| <= OUTBOUND_DEDUPE_MAX_ENTRIES
    {
      forall k | k in Fresh(IdealAll(map[], es[..n]), es[n - 1].now)
        ensures k in OfferedWithin(es, n)
      {
        FreshWasOffered(es, n, k);
      }
      SubsetSize(Fresh(IdealAll(map[], es[..n]), es[n - 1].now), OfferedWithin(es, n));
    }
  }

  lemma FreshWasOffered(es: seq<Event>, n: nat, k: Key)
    requires 0 < n <= |es| && k in Fresh(IdealAll(map[], es[..n]), es[n - 1].now)
    ensures k in OfferedWithin(es, n)
  {
    var i := AcceptedWhen(es[..n], k);
    assert es[..n][i] == es[i];
  }

  // ------------------------------------------------------------------- a window too full

  /** All the keys offered at one moment. */
  function Flood(ks: seq<Key>, t: int): seq<Event> {
    seq(|ks|, i requires 0 <= i < |ks| => Offer(ks[i], t))
  }

  lemma {:induction false} NothingExpires(m: Recent, keys: seq<Key>, t: int)
    requires forall k :: m.Has(k) ==> m.vals[k] == t
    ensures Expire(m, keys, t) == m
    decreases |keys|
  {
    if keys != [] {
      NothingExpires(m, keys[1..], t);
    }
  }

  lemma NewKeyIsAppended(m: Recent, k: Key, t: int)
    requires m.Valid() && k !in m.order && m.Size() < OUTBOUND_DEDUPE_MAX_ENTRIES
    ensures After(m, Offer(k, t)) == m.Set(k, t) && m.Set(k, t).order == m.order + [k]
  {
    assert k !in Elements(m.order);
    SetValid(m, k, t);
  }

  lemma {:induction false} FloodFills(ks: seq<Key>, t: int, n: nat)
    requires NoDup(ks) && n <= |ks| && n <= OUTBOUND_DEDUPE_MAX_ENTRIES && Empty<Key, int>().Valid()
    ensures var m := AfterAll(Empty(), Flood(ks, t)[..n]);
            m.order == ks[..n] && forall k :: m.Has(k) ==> m.vals[k] == t
  {
    hide After, JsMap.Valid;
    if n > 0 {
      FloodFills(ks, t, n - 1);
      OneMore(Flood(ks, t), n - 1);
      var m := AfterAll(Empty(), Flood(ks, t)[..n - 1]);
      assert forall i :: 0 <= i < n - 1 ==> ks[i] != ks[n - 1];
      NewKeyIsAppended(m, ks[n - 1], t);
      assert ks[..n] == ks[..n - 1] + [ks[n - 1]];
    }
  }

  /** One key too many: the oldest one goes. */
  lemma FloodEvicts(ks: seq<Key>, t: int)
    requires NoDup(ks) && |ks| == 5001 && Empty<Key, int>().Valid()
    ensures !AfterAll(Empty(), Flood(ks, t)).Has(ks[0])
  {
    var n := OUTBOUND_DEDUPE_MAX_ENTRIES;
    FloodFills(ks, t, n);
    OneMore(Flood(ks, t), n);
    assert Flood(ks, t)[..n + 1] == Flood(ks, t);
    var m := AfterAll(Empty(), Flood(ks, t)[..n]);
    assert ks[n] !in Elements(m.order);
    var full := m.Set(ks[n], t);
    SetValid(m, ks[n], t);
    NothingExpires(full, full.order, t);
    DeleteValid(full, full.order[0]);
    WithoutFacts(full.order, full.order[0]);
    assert full.order[0] == ks[0];
    assert full.Size() == n + 1 && full.Delete(ks[0]).Size() == n;
    assert Trim(full) == full.Delete(ks[0]) by {
      assert ks[0] in Elements(full.order);
    }
  }

  /** For any keys, one more than the map holds, and a repeat of the first at any time: it gets through again. */
  lemma FloodBreaksTheWindow(ks: seq<Key>, t: int, again: int)
    requires NoDup(ks) && |ks| == 5001
    ensures var es := Flood(ks, t) + [Offer(ks[0], again)];
            Passes(es, 0) && Passes(es, |ks|) && es[0].key == es[|ks|].key
  {
    EmptyValid();
    FloodEvicts(ks, t);
    var es := Flood(ks, t) + [Offer(ks[0], again)];
    assert es[..|ks|] == Flood(ks, t);
    assert es[..0] == [];
  }

  /** As many different keys as one likes. */
  function ManyKeys(n: nat): seq<Key> {
    seq(n, i requires 0 <= i < n => seq(i, _ => 0))
  }

  /** There are such keys, so the window is not always kept. */
  lemma WindowCanBreak(t: int)
    ensures var ks := ManyKeys(5001);
            !AllApart(Flood(ks, t) + [Offer(ks[0], t)])
  {
    var ks := ManyKeys(5001);
    forall i, j | 0 <= i < j < |ks|
      ensures ks[i] != ks[j]
    {
      assert |ks[i]| == i && |ks[j]| == j;
    }
    FloodBreaksTheWindow(ks, t, t);
    hide Passes, Flood;
    var es := Flood(ks, t) + [Offer(ks[0], t)];
    assert es[0].now == es[|ks|].now;
  }
}
