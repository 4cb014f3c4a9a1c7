/** What a stream of throttled values is certain to keep: distance in time and in value. */
module ThrottleSpacing {
  import opened Common
  import opened JsMap
  import opened LruHistory
  import opened Throttle

  /** The record before offer `n`. */
  function Before(os: seq<Offer>, n: nat): State
    requires n <= |os|
    decreases n
  {
    if n == 0 then Empty() else After(Before(os, n - 1), os[n - 1])
  }

  predicate Forwarded(os: seq<Offer>, n: nat)
    requires n < |os|
  {
    Forwards(Before(os, n), os[n])
  }

  lemma {:induction false} BeforeValid(os: seq<Offer>, n: nat)
    requires n <= |os|
    ensures Before(os, n).Valid() && Before(os, n).Size() <= PATH_THROTTLE_STATE_MAX
    decreases n
  {
    if n > 0 {
      BeforeValid(os, n - 1);
      LruSetFacts(Before(os, n - 1), os[n - 1].key, Record(os[n - 1]), PATH_THROTTLE_STATE_MAX);
    }
  }

  /** The keys other than `key` recorded by the offers from `i` up to `n`. */
  ghost function OthersRecorded(os: seq<Offer>, i: nat, n: nat, key: string): set<string>
    requires i <= n <= |os|
  {
    set k | i <= k < n && Forwarded(os, k) && os[k].key != key :: os[k].key
  }

  /** Consecutive forwarded values of one key. */
  predicate Consecutive(os: seq<Offer>, i: nat, j: nat)
    requires i < j < |os|
  {
    && os[i].key == os[j].key && Forwarded(os, i) && Forwarded(os, j)
    && forall k :: i < k < j && os[k].key == os[i].key ==> !Forwarded(os, k)
  }

  /** The keys recorded after offer `i` and before offer `n`. */
  ghost function KeysRecorded(os: seq<Offer>, i: nat, n: nat): set<string>
    requires i < n <= |os|
  {
    set k | i < k < n && Forwarded(os, k) :: os[k].key
  }

  lemma KeysRecordedSnoc(os: seq<Offer>, i: nat, n: nat)
    requires i < n < |os|
    ensures KeysRecorded(os, i, n + 1) == KeysRecorded(os, i, n) + (if Forwarded(os, n) then {os[n].key} else {})
  {
    hide Forwarded;
  }

  /** The last one of its key that was forwarded before offer `n`. */
  predicate ForwardedLast(os: seq<Offer>, i: nat, n: nat) {
    i < n <= |os| && Forwarded(os, i) && forall k :: i < k < n && os[k].key == os[i].key ==> !Forwarded(os, k)
  }

  /** The record holds it exactly while fewer other keys than it has room for have been recorded since. */
  lemma {:induction false} RecordIsHeld(os: seq<Offer>, i: nat, n: nat)
    requires ForwardedLast(os, i, n)
    ensures Held(Before(os, n), PATH_THROTTLE_STATE_MAX, os[i].key, Record(os[i]), KeysRecorded(os, i, n))
    decreases n
  {
    hide Held, ShouldDrop, Forwards, JsMap.Valid, KeysRecorded;
    var st, o := Before(os, n - 1), os[n - 1];
    BeforeValid(os, n - 1);
    if n == i + 1 {
      WriteSame(st, PATH_THROTTLE_STATE_MAX, Write(o.key, Record(o)));
      NothingRecorded(os, i);
      assert Before(os, n) == LruSet(st, o.key, Record(o), PATH_THROTTLE_STATE_MAX);
    } else {
      RecordIsHeld(os, i, n - 1);
      KeysRecordedSnoc(os, i, n - 1);
      var since := KeysRecorded(os, i, n - 1);
      if Forwarded(os, n - 1) {
        WriteOther(st, PATH_THROTTLE_STATE_MAX, os[i].key, Record(os[i]), since, Write(o.key, Record(o)));
        assert Before(os, n) == LruSet(st, o.key, Record(o), PATH_THROTTLE_STATE_MAX);
      } else {
        assert Before(os, n) == st && since + {} == since;
      }
    }
  }

  lemma NothingRecorded(os: seq<Offer>, i: nat)
    requires i < |os|
    ensures KeysRecorded(os, i, i + 1) == {}
  {
  }

  lemma {:induction false} NeverRecorded(os: seq<Offer>, n: nat, key: string)
    requires n <= |os| && forall k :: 0 <= k < n && os[k].key == key ==> !Forwarded(os, k)
    ensures !Before(os, n).Has(key)
    decreases n
  {
    hide ShouldDrop;
    if n > 0 {
      NeverRecorded(os, n - 1, key);
    }
  }

  /**
   * Two consecutive forwarded values of a key are at least the minimum interval apart and, when
   * both are numbers, differ by at least the deadband, provided fewer other keys than the record
   * holds were recorded between them.
   */
  lemma ConsecutiveAreApart(os: seq<Offer>, i: nat, j: nat)
    requires i < j < |os| && Consecutive(os, i, j)
    requires |OthersRecorded(os, i + 1, j, os[i].key)| < PATH_THROTTLE_STATE_MAX
    ensures os[j].rule.minIntervalMs.Some? ==> os[j].now - os[i].now >= os[j].rule.minIntervalMs.value
    ensures (os[j].rule.deadband.Some? && os[i].value.Num? && os[j].value.Num?)
              ==> Abs(os[j].value.r - os[i].value.r) >= os[j].rule.deadband.value
  {
    RecordIsHeld(os, i, j);
    assert KeysRecorded(os, i, j) == OthersRecorded(os, i + 1, j, os[i].key);
  }

  /** What was last forwarded for a key before offer `n`. */
  function LastForwarded(os: seq<Offer>, key: string, n: nat): Option<Last>
    requires n <= |os|
    decreases n
  {
    if n == 0 then None
    else if os[n - 1].key == key && Forwarded(os, n - 1) then Some(Record(os[n - 1]))
    else LastForwarded(os, key, n - 1)
  }

  /** Whatever the record still holds for a key is what was last forwarded. */
  lemma {:induction false} RecordIsLastForwarded(os: seq<Offer>, key: string, n: nat)
    requires n <= |os|
    ensures Before(os, n).Get(key) == None || Before(os, n).Get(key) == LastForwarded(os, key, n)
    decreases n
  {
    if n > 0 {
      RecordIsLastForwarded(os, key, n - 1);
      BeforeValid(os, n - 1);
      LruSetFacts(Before(os, n - 1), os[n - 1].key, Record(os[n - 1]), PATH_THROTTLE_STATE_MAX);
      if os[n - 1].key != key && Forwarded(os, n - 1) && Before(os, n).Has(key) {
        assert Before(os, n).Get(key) == Before(os, n - 1).Get(key);
      }
    }
  }

  /**
   * Under a deadband and no interval, evictions or not: after any offered number, what was last
   * forwarded for its key is that number or a number less than the deadband away from it.
   */
  lemma DeadbandTracksValue(os: seq<Offer>, j: nat, d: real)
    requires j < |os| && os[j].rule == Rule(None, Some(d)) && os[j].value.Num?
    ensures var last := LastForwarded(os, os[j].key, j + 1);
            && last.Some? && last.value.value.Some?
            && (last.value.value.value == os[j].value.r || Abs(os[j].value.r - last.value.value.value) < d)
  {
    RecordIsLastForwarded(os, os[j].key, j);
  }

  // ------------------------------------------------------------------- state keys

  predicate NoSpace(s: string) {
    forall i :: 0 <= i < |s| ==> s[i] != ' '
  }

  lemma FirstSpace(a: string, r: string, b: string, r': string)
    requires NoSpace(a) && NoSpace(b) && a + " " + r == b + " " + r'
    ensures a == b && r == r'
  {
    var x, y := a + " " + r, b + " " + r';
    assert x[|a|] == ' ' && y[|b|] == ' ';
    assert forall i :: 0 <= i < |a| ==> x[i] == a[i];
    assert forall i :: 0 <= i < |b| ==> y[i] == b[i];
    assert |a| == |b|;
    assert a == x[..|a|] && b == y[..|b|] && r == x[|a| + 1..] && r' == y[|b| + 1..];
  }

  function ContextText(c: Option<string>): string {
    if c.Some? then c.value else "undefined"
  }

  lemma KeyText(c: Option<string>, s: string, p: string)
    ensures StateKey(c, s, p) == ContextText(c) + " " + (s + " " + p)
  {
  }

  function Spaces(s: string): nat {
    if s == "" then 0 else (if s[0] == ' ' then 1 else 0) + Spaces(s[1..])
  }

  lemma {:induction false} SpacesAdd(a: string, b: string)
    ensures Spaces(a + b) == Spaces(a) + Spaces(b)
  {
    if a == "" {
      assert a + b == b;
    } else {
      assert (a + b)[1..] == a[1..] + b;
      SpacesAdd(a[1..], b);
    }
  }

  lemma {:induction false} NoSpaceMeansNone(s: string)
    ensures NoSpace(s) <==> Spaces(s) == 0
  {
    if s != "" {
      NoSpaceMeansNone(s[1..]);
      assert s == [s[0]] + s[1..];
    }
  }

  lemma SpacesOfKey(c: Option<string>, s: string, p: string)
    ensures Spaces(StateKey(c, s, p)) == Spaces(ContextText(c)) + Spaces(s) + Spaces(p) + 2
  {
    KeyText(c, s, p);
    SpacesAdd(ContextText(c) + " ", s + " " + p);
    SpacesAdd(ContextText(c), " ");
    SpacesAdd(s + " ", p);
    SpacesAdd(s, " ");
    assert Spaces(" ") == 1;
  }

  /** Keys whose contexts and sources hold no space are equal only for the same parts. */
  lemma SpacelessKeys(c: Option<string>, s: string, p: string, c': Option<string>, s': string, p': string)
    requires NoSpace(ContextText(c)) && NoSpace(s) && NoSpace(ContextText(c')) && NoSpace(s')
    ensures StateKey(c, s, p) == StateKey(c', s', p') <==> ContextText(c) == ContextText(c') && s == s' && p == p'
  {
    KeyText(c, s, p);
    KeyText(c', s', p');
    if StateKey(c, s, p) == StateKey(c', s', p') {
      FirstSpace(ContextText(c), s + " " + p, ContextText(c'), s' + " " + p');
      FirstSpace(s, p, s', p');
    }
  }

  /** A text with a space, split at its first one. */
  lemma SplitAtSpace(s: string) returns (a: string, b: string)
    requires !NoSpace(s)
    ensures s == a + " " + b && NoSpace(a)
  {
    var i := 0;
    while s[i] != ' '
      invariant i < |s| && NoSpace(s[..i])
      invariant exists j :: i <= j < |s| && s[j] == ' '
      decreases |s| - i
    {
      i := i + 1;
    }
    a, b := s[..i], s[i + 1..];
  }

  /** The context is present and does not read like the absent one. */
  predicate Named(c: Option<string>) {
    c.Some? && c.value != "undefined"
  }

  /** No other context, source and path has the same key. */
  predicate OwnRecord(c: Option<string>, s: string, p: string) {
    Named(c) && NoSpace(c.value) && NoSpace(s) && NoSpace(p)
  }

  lemma RegroupContext(a: string, b: string, s: string, p: string)
    ensures StateKey(Some(a + " " + b), s, p) == StateKey(Some(a), b, s + " " + p)
  {
    KeyText(Some(a + " " + b), s, p);
    KeyText(Some(a), b, s + " " + p);
    assert a + " " + b + " " + (s + " " + p) == a + " " + (b + " " + (s + " " + p));
  }

  lemma RegroupSource(c: Option<string>, a: string, b: string, p: string)
    ensures StateKey(c, a + " " + b, p) == StateKey(c, a, b + " " + p)
  {
    KeyText(c, a + " " + b, p);
    KeyText(c, a, b + " " + p);
    assert a + " " + b + " " + p == a + " " + (b + " " + p);
  }

  /** Another context, source and path with the same key, for one that is not alone. */
  lemma Sharer(c: Option<string>, s: string, p: string) returns (c': Option<string>, s': string, p': string)
    requires !OwnRecord(c, s, p)
    ensures StateKey(c', s', p') == StateKey(c, s, p) && (c' != c || s' != s || p' != p)
  {
    c', s', p' := c, s, p;
    if c == None {
      c' := Some("undefined");
    } else if c == Some("undefined") {
      c' := None;
    } else if !NoSpace(c.value) {
      var a, b := SplitAtSpace(c.value);
      RegroupContext(a, b, s, p);
      c', s', p' := Some(a), b, s + " " + p;
    } else if !NoSpace(s) {
      var a, b := SplitAtSpace(s);
      RegroupSource(c, a, b, p);
      s', p' := a, b + " " + p;
    } else {
      var a, b := SplitAtSpace(p);
      RegroupSource(c, s, a, b);
      assert s + " " + (a + " " + b) == (s + " " + a) + " " + b;
      KeyText(c, s, p);
      KeyText(c, s + " " + a, b);
      s', p' := s + " " + a, b;
    }
  }

  /**
   * A context, source and path have a record of their own exactly if none of them holds a space and the context is
   * neither absent nor the word that an absent one prints as.
   */
  lemma RecordIsOwn(c: Option<string>, s: string, p: string)
    ensures (forall c', s', p' | StateKey(c', s', p') == StateKey(c, s, p) :: c' == c && s' == s && p' == p)
       <==> OwnRecord(c, s, p)
  {
    if OwnRecord(c, s, p) {
      forall c', s', p' | StateKey(c', s', p') == StateKey(c, s, p)
        ensures c' == c && s' == s && p' == p
      {
        SpacesOfKey(c, s, p);
        SpacesOfKey(c', s', p');
        NoSpaceMeansNone(ContextText(c));
        NoSpaceMeansNone(s);
        NoSpaceMeansNone(p);
        NoSpaceMeansNone(ContextText(c'));
        NoSpaceMeansNone(s');
        SpacelessKeys(c, s, p, c', s', p');
      }
    } else {
      var c', s', p' := Sharer(c, s, p);
      assert StateKey(c', s', p') == StateKey(c, s, p);
    }
  }

  /** The key split at its first two spaces. */
  lemma SpacelessSharer(c: Option<string>, s: string, p: string) returns (c': string, s': string, p': string)
    ensures NoSpace(c') && NoSpace(s') && StateKey(Some(c'), s', p') == StateKey(c, s, p)
  {
    var key := StateKey(c, s, p);
    KeyText(c, s, p);
    assert key[|ContextText(c)|] == ' ';
    var rest;
    c', rest := SplitAtSpace(key);
    SpacesOfKey(c, s, p);
    SpacesAdd(c' + " ", rest);
    SpacesAdd(c', " ");
    assert Spaces(" ") == 1;
    NoSpaceMeansNone(c');
    NoSpaceMeansNone(rest);
    s', p' := SplitAtSpace(rest);
    KeyText(Some(c'), s', p');
  }

  /** Among those whose context and source hold no space, a record is shared exactly with a differently present context. */
  lemma SpacelessRecordIsOwn(c: Option<string>, s: string, p: string)
    ensures (forall c', s', p' | NoSpace(ContextText(c')) && NoSpace(s') && StateKey(c', s', p') == StateKey(c, s, p) ::
               c' == c && s' == s && p' == p)
       <==> (Named(c) && NoSpace(c.value) && NoSpace(s))
  {
    if Named(c) && NoSpace(c.value) && NoSpace(s) {
      forall c', s', p' | NoSpace(ContextText(c')) && NoSpace(s') && StateKey(c', s', p') == StateKey(c, s, p)
        ensures c' == c && s' == s && p' == p
      {
        SpacelessKeys(c, s, p, c', s', p');
      }
    } else if c == Some("undefined") && NoSpace(s) {
      assert StateKey(None, s, p) == StateKey(c, s, p) && NoSpace(ContextText(None));
    } else {
      var c', s', p' := SpacelessSharer(c, s, p);
      assert StateKey(Some(c'), s', p') == StateKey(c, s, p) && NoSpace(ContextText(Some(c')));
    }
  }

  /** The minimum interval holds between any two forwarded values of a shared key. */
  lemma IntervalHoldsAcrossCollisions(os: seq<Offer>, i: nat, j: nat)
    requires i < j < |os| && os[i].key == os[j].key && Forwarded(os, i) && Forwarded(os, j)
    requires forall k, l :: 0 <= k < l < |os| ==> os[k].now <= os[l].now
    requires |OthersRecorded(os, i + 1, j, os[i].key)| < PATH_THROTTLE_STATE_MAX
    requires os[j].rule.minIntervalMs.Some?
    ensures os[j].now - os[i].now >= os[j].rule.minIntervalMs.value
    decreases j - i
  {
    if k :| i < k < j && os[k].key == os[i].key && Forwarded(os, k) {
      SubsetSize(OthersRecorded(os, k + 1, j, os[i].key), OthersRecorded(os, i + 1, j, os[i].key));
      IntervalHoldsAcrossCollisions(os, k, j);
    } else {
      ConsecutiveAreApart(os, i, j);
    }
  }
}
