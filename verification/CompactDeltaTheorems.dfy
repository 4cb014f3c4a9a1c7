/** What comes out of the compact codec is the delta that went in, in normal form. */
module CompactDeltaTheorems {
  import opened Common
  import opened Decimal
  import opened JsonValue
  import opened CompactDelta

  // ---------------------------------------------------------------- dictionary

  /** Object keys are distinct. */
  ghost predicate Keyed(d: Dictionary) {
    forall i, j :: 0 <= i < j < |d| ==> d[i].path != d[j].path
  }

  ghost predicate UniqueIds(d: Dictionary) {
    forall i, j :: 0 <= i < j < |d| ==> d[i].id != d[j].id
  }

  lemma {:induction false} IdOfFacts(d: Dictionary, path: string)
    ensures IdOf(d, path).Some? ==> exists i :: 0 <= i < |d| && d[i] == Pair(path, IdOf(d, path).value)
    ensures IdOf(d, path).None? ==> forall i :: 0 <= i < |d| ==> d[i].path != path
  {
    if d == [] {
    } else {
      IdOfFacts(d[1..], path);
      assert d == [d[0]] + d[1..];
      if d[0].path == path {
        assert d[0] == Pair(path, IdOf(d, path).value);
      }
    }
  }

  lemma {:induction false} PathOfFacts(d: Dictionary, id: nat, i: nat)
    requires i < |d| && d[i].id == id
    ensures PathOf(d, id).Some?
    ensures exists j :: i <= j < |d| && d[j] == Pair(PathOf(d, id).value, id)
  {
    var n := |d| - 1;
    if d[n].id == id {
      assert d[n] == Pair(PathOf(d, id).value, id);
    } else {
      PathOfFacts(d[..n], id, i);
    }
  }

  lemma NumberOfDec(n: nat)
    ensures NumberOf(Finite(Dec(n))) == Some(n)
  {
    DecIsDigits(n);
  }

  predicate Plain(d: Dictionary, path: string) {
    IdOf(d, path).Some? || path !in INHERITED
  }

  lemma PathRoundTrip(d: Dictionary, path: string)
    requires UniqueIds(d) && Plain(d, path)
    ensures DecodePath(d, EncodePath(d, path)) == Data(Str(path))
  {
    IdOfFacts(d, path);
    if IdOf(d, path).Some? {
      var id := IdOf(d, path).value;
      NumberOfDec(id);
      var i :| 0 <= i < |d| && d[i] == Pair(path, id);
      PathOfFacts(d, id, i);
    }
  }

  /** Every ordinary path survives the dictionary exactly if no id is used twice. */
  lemma DictionaryIsInvertible(d: Dictionary)
    requires Keyed(d)
    ensures (forall p :: Plain(d, p) ==> DecodePath(d, EncodePath(d, p)) == Data(Str(p))) <==> UniqueIds(d)
  {
    if UniqueIds(d) {
      forall p | Plain(d, p)
        ensures DecodePath(d, EncodePath(d, p)) == Data(Str(p))
      {
        PathRoundTrip(d, p);
      }
    } else {
      var i, j :| 0 <= i < j < |d| && d[i].id == d[j].id;
      IdIsOwn(d, i);
      PathOfFacts(d, d[i].id, j);
      NumberOfDec(d[i].id);
      assert Plain(d, d[i].path);
    }
  }

  lemma IdIsOwn(d: Dictionary, i: nat)
    requires Keyed(d) && i < |d|
    ensures IdOf(d, d[i].path) == Some(d[i].id)
  {
    IdOfFacts(d, d[i].path);
  }

  // --------------------------------------------------------------- normal form

  function NormalEntries(es: seq<Entry>): seq<Entry> {
    if es == [] then []
    else (if Present(es[0]) then [Entry(es[0].path, es[0].value, [])] else []) + NormalEntries(es[1..])
  }

  function NormalUpdate(u: Update): Update {
    var meta := NormalEntries(EntriesOf(u.meta));
    Update(OrEmptyObject(u.source), u.dollarSource, u.timestamp, Some(NormalEntries(EntriesOf(u.values))),
           if meta == [] then None else Some(meta), [])
  }

  /** Context defaults to "", source to {}, values to []; entries without a path and empty meta are gone. */
  function Normal(d: Delta): Delta {
    Delta(Some(if d.context.Some? then d.context.value else ""),
          Some(seq(|UpdatesOf(d)|, i requires 0 <= i < |UpdatesOf(d)| => NormalUpdate(UpdatesOf(d)[i]))), [])
  }

  function NormalAll(ds: seq<Delta>): (r: seq<Delta>)
    ensures |r| == |ds|
  {
    seq(|ds|, i requires 0 <= i < |ds| => Normal(ds[i]))
  }

  lemma {:induction false} NormalEntriesFixed(es: seq<Entry>)
    ensures NormalEntries(NormalEntries(es)) == NormalEntries(es)
  {
    if es != [] {
      NormalEntriesFixed(es[1..]);
      if Present(es[0]) {
        assert NormalEntries(es)[1..] == NormalEntries(es[1..]);
      } else {
        assert NormalEntries(es) == NormalEntries(es[1..]);
      }
    }
  }

  lemma NormalIsIdempotent(d: Delta)
    ensures Normal(Normal(d)) == Normal(d)
  {
    var us, vs := UpdatesOf(d), UpdatesOf(Normal(d));
    forall i | 0 <= i < |us|
      ensures NormalUpdate(vs[i]) == vs[i]
    {
      NormalEntriesFixed(EntriesOf(us[i].values));
      NormalEntriesFixed(EntriesOf(us[i].meta));
    }
    assert UpdatesOf(Normal(Normal(d))) == UpdatesOf(Normal(d));
  }

  // --------------------------------------------------- positional arrays alone

  lemma {:induction false} TuplesRoundTrip(es: seq<Entry>)
    requires forall e | e in es :: Sendable(e)
    ensures UntupleAll(Tuples(es)) == NormalEntries(es)
  {
    if es != [] {
      TuplesRoundTrip(es[1..]);
      assert Sendable(es[0]);
      if Present(es[0]) {
        assert Tuples(es)[1..] == Tuples(es[1..]);
      } else {
        assert Tuples(es) == Tuples(es[1..]);
      }
    }
  }

  /** The normal form but for the source, which the arrays keep absent. */
  function Bare(u: Update): Update {
    NormalUpdate(u).(source := if u.source == Null then Undefined else u.source)
  }

  lemma {:induction false} TuplesEmpty(es: seq<Entry>)
    requires forall e | e in es :: Sendable(e)
    ensures Tuples(es) == [] <==> NormalEntries(es) == []
  {
    if es != [] {
      assert Sendable(es[0]);
      TuplesEmpty(es[1..]);
    }
  }

  lemma UpdateRoundTrip(u: Update)
    requires forall e | e in EntriesOf(u.values) + EntriesOf(u.meta) :: Sendable(e)
    ensures DecodeUpdate(EncodeUpdate(u)) == Some(Bare(u))
  {
    TuplesRoundTrip(EntriesOf(u.values));
    TuplesRoundTrip(EntriesOf(u.meta));
    TuplesEmpty(EntriesOf(u.meta));
  }

  lemma {:induction false} UpdatesRoundTrip(us: seq<Update>)
    requires forall u, e | u in us && e in EntriesOf(u.values) + EntriesOf(u.meta) :: Sendable(e)
    ensures DecodeUpdates(EncodeUpdates(us)) == seq(|us|, i requires 0 <= i < |us| => Bare(us[i]))
  {
    hide EncodeUpdate, DecodeUpdate, Sendable, Bare;
    if us != [] {
      UpdateRoundTrip(us[0]);
      UpdatesRoundTrip(us[1..]);
      assert EncodeUpdates(us)[1..] == EncodeUpdates(us[1..]);
    }
  }

  lemma CompactRoundTrip(d: Delta)
    requires SendableDelta(d)
    ensures var us := UpdatesOf(d);
            DecodeCompactDelta(EncodeCompactDelta(d))
              == Some(Delta(Normal(d).context, Some(seq(|us|, i requires 0 <= i < |us| => Bare(us[i]))), []))
  {
    UpdatesRoundTrip(UpdatesOf(d));
  }

  // ------------------------------------------------------ with the dictionary

  /** A path is a string, null, or absent. */
  predicate WellFormedEntry(e: Entry) {
    e.Entry? ==> e.path.Data? && (e.path.v.Str? || e.path.v == Null || e.path.v == Undefined)
  }

  predicate WellFormed(d: Delta) {
    forall u, e | u in UpdatesOf(d) && e in EntriesOf(u.values) + EntriesOf(u.meta) :: WellFormedEntry(e)
  }

  /** No value stands under the name of an inherited property. */
  predicate PlainEntry(dict: Dictionary, e: Entry) {
    Encodes(e) ==> Plain(dict, e.path.v.s)
  }

  predicate PlainDelta(dict: Dictionary, d: Delta) {
    forall u, e | u in UpdatesOf(d) && e in EntriesOf(u.values) :: PlainEntry(dict, e)
  }

  function Coded(dict: Dictionary, useDictionary: bool, es: seq<Entry>): seq<Entry> {
    if useDictionary then TransformEntries(Encoder(dict), es) else es
  }

  lemma EntryRoundTrip(dict: Dictionary, useDictionary: bool, e: Entry)
    requires UniqueIds(dict) && WellFormedEntry(e) && Present(e)
    ensures var c := if useDictionary then EncodeEntry(dict, e) else e;
            && Present(c)
            && (!useDictionary || PlainEntry(dict, e) ==> c.path.Data?)
            && ((c.path.Data? && DecodeEntry(dict, Entry(c.path, c.value, [])) == Entry(e.path, e.value, []))
                  <==> (!useDictionary || PlainEntry(dict, e)))
  {
    if Encodes(e) && Plain(dict, e.path.v.s) {
      PathRoundTrip(dict, e.path.v.s);
    }
  }

  lemma {:induction false} EntriesRoundTrip(dict: Dictionary, useDictionary: bool, es: seq<Entry>)
    requires UniqueIds(dict) && forall e | e in es :: WellFormedEntry(e)
    requires forall e | e in Coded(dict, useDictionary, es) :: Sendable(e)
    ensures TransformEntries(Decoder(dict), NormalEntries(Coded(dict, useDictionary, es))) == NormalEntries(es)
       <==> (!useDictionary || forall e | e in es :: PlainEntry(dict, e))
  {
    var c := Coded(dict, useDictionary, es);
    if es == [] {
    } else {
      assert c[1..] == Coded(dict, useDictionary, es[1..]);
      assert es == [es[0]] + es[1..];
      EntriesRoundTrip(dict, useDictionary, es[1..]);
      HeadRoundTrip(dict, useDictionary, es);
    }
  }

  lemma HeadRoundTrip(dict: Dictionary, useDictionary: bool, es: seq<Entry>)
    requires UniqueIds(dict) && es != [] && WellFormedEntry(es[0])
    requires Sendable(Coded(dict, useDictionary, es)[0])
    ensures var c := Coded(dict, useDictionary, es);
            var tail := TransformEntries(Decoder(dict), NormalEntries(c[1..])) == NormalEntries(es[1..]);
            ((TransformEntries(Decoder(dict), NormalEntries(c)) == NormalEntries(es))
               <==> (tail && (!useDictionary || PlainEntry(dict, es[0]))))
  {
    hide EncodePath, DecodePath, Plain;
    var c := Coded(dict, useDictionary, es);
    if Present(es[0]) {
      EntryRoundTrip(dict, useDictionary, es[0]);
      var t := TransformEntries(Decoder(dict), NormalEntries(c));
      assert t[1..] == TransformEntries(Decoder(dict), NormalEntries(c[1..]));
      assert NormalEntries(es)[1..] == NormalEntries(es[1..]);
      assert t[0] == DecodeEntry(dict, Entry(c[0].path, c[0].value, []));
      assert t == [t[0]] + t[1..];
    } else {
      assert !Present(c[0]);
      assert NormalEntries(c) == NormalEntries(c[1..]);
    }
  }

  predicate SendableUpdate(u: Update) {
    forall e | e in EntriesOf(u.values) + EntriesOf(u.meta) :: Sendable(e)
  }

  predicate PlainUpdate(dict: Dictionary, u: Update) {
    forall e | e in EntriesOf(u.values) :: PlainEntry(dict, e)
  }

  function CodedUpdate(dict: Dictionary, useDictionary: bool, u: Update): Update {
    if useDictionary then TransformUpdate(Encoder(dict), u) else u
  }

  lemma CodedUpdateRoundTrip(dict: Dictionary, useDictionary: bool, u: Update)
    requires UniqueIds(dict) && forall e | e in EntriesOf(u.values) + EntriesOf(u.meta) :: WellFormedEntry(e)
    requires SendableUpdate(CodedUpdate(dict, useDictionary, u))
    ensures (TransformUpdate(Decoder(dict), Bare(CodedUpdate(dict, useDictionary, u))) == NormalUpdate(u))
       <==> (!useDictionary || PlainUpdate(dict, u))
  {
    var c := CodedUpdate(dict, useDictionary, u);
    assert EntriesOf(c.values) == Coded(dict, useDictionary, EntriesOf(u.values));
    assert c.meta == u.meta;
    forall e | e in EntriesOf(u.values)
      ensures WellFormedEntry(e)
    {
      assert e in EntriesOf(u.values) + EntriesOf(u.meta);
    }
    forall e | e in EntriesOf(c.values)
      ensures Sendable(e)
    {
      assert e in EntriesOf(c.values) + EntriesOf(c.meta);
    }
    EntriesRoundTrip(dict, useDictionary, EntriesOf(u.values));
  }

  lemma {:induction false} PlainEntriesAreSendable(dict: Dictionary, useDictionary: bool, u: Update)
    requires UniqueIds(dict) && forall e | e in EntriesOf(u.values) + EntriesOf(u.meta) :: WellFormedEntry(e)
    requires !useDictionary || PlainUpdate(dict, u)
    ensures SendableUpdate(CodedUpdate(dict, useDictionary, u))
  {
    var c := CodedUpdate(dict, useDictionary, u);
    var vs := EntriesOf(u.values);
    forall e | e in EntriesOf(c.values) + EntriesOf(c.meta)
      ensures Sendable(e)
    {
      if e in EntriesOf(c.meta) {
        assert e in EntriesOf(u.values) + EntriesOf(u.meta);
        assert WellFormedEntry(e);
      } else {
        var i :| 0 <= i < |vs| && EntriesOf(c.values)[i] == e;
        assert vs[i] in EntriesOf(u.values) + EntriesOf(u.meta);
        assert WellFormedEntry(vs[i]) && vs[i] in EntriesOf(u.values);
        if Present(vs[i]) {
          EntryRoundTrip(dict, useDictionary, vs[i]);
        }
      }
    }
  }

  // -------------------------------------------------------- deltas and batches

  lemma SendableByUpdate(d: Delta)
    ensures SendableDelta(d) <==> forall u | u in UpdatesOf(d) :: SendableUpdate(u)
  {
    hide Sendable;
    if SendableDelta(d) {
      forall u | u in UpdatesOf(d) ensures SendableUpdate(u) {}
    } else {
      var u, e :| u in UpdatesOf(d) && e in EntriesOf(u.values) + EntriesOf(u.meta) && !Sendable(e);
      assert !SendableUpdate(u);
    }
  }

  lemma PreparedUpdates(dict: Dictionary, useDictionary: bool, d: Delta)
    ensures var p := Prepared(dict, useDictionary, d);
            && |UpdatesOf(p)| == |UpdatesOf(d)|
            && (forall i :: 0 <= i < |UpdatesOf(d)| ==> UpdatesOf(p)[i] == CodedUpdate(dict, useDictionary, UpdatesOf(d)[i]))
            && p.context == d.context
  {
    hide TransformUpdate;
  }

  predicate PlainWhenUsed(dict: Dictionary, useDictionary: bool, d: Delta) {
    !useDictionary || PlainDelta(dict, d)
  }

  lemma DeltaSends(dict: Dictionary, useDictionary: bool, d: Delta)
    requires UniqueIds(dict) && WellFormed(d) && PlainWhenUsed(dict, useDictionary, d)
    ensures SendableDelta(Prepared(dict, useDictionary, d))
  {
    hide CodedUpdate, WellFormedEntry, PlainEntry, SendableUpdate;
    PreparedUpdates(dict, useDictionary, d);
    var us := UpdatesOf(d);
    forall i | 0 <= i < |us|
      ensures SendableUpdate(CodedUpdate(dict, useDictionary, us[i]))
    {
      assert us[i] in us;
      PlainEntriesAreSendable(dict, useDictionary, us[i]);
    }
    SendableByUpdate(Prepared(dict, useDictionary, d));
  }

  function Decoded(dict: Dictionary, v: Value): Option<Delta> {
    var d := DecodeCompactDelta(v);
    if d.Some? then Some(TransformDelta(Decoder(dict), d.value)) else None
  }

  lemma DeltaRoundTrip(dict: Dictionary, useDictionary: bool, d: Delta)
    requires UniqueIds(dict) && WellFormed(d) && SendableDelta(Prepared(dict, useDictionary, d))
    ensures (Decoded(dict, EncodeCompactDelta(Prepared(dict, useDictionary, d))) == Some(Normal(d)))
       <==> PlainWhenUsed(dict, useDictionary, d)
  {
    hide CodedUpdate, WellFormedEntry, PlainEntry, SendableUpdate, NormalUpdate, Bare, TransformUpdate, EncodeCompactDelta, DecodeCompactDelta;
    var us, p := UpdatesOf(d), Prepared(dict, useDictionary, d);
    PreparedUpdates(dict, useDictionary, d);
    SendableByUpdate(p);
    CompactRoundTrip(p);
    forall i | 0 <= i < |us|
      ensures (TransformUpdate(Decoder(dict), Bare(CodedUpdate(dict, useDictionary, us[i]))) == NormalUpdate(us[i]))
         <==> (!useDictionary || PlainUpdate(dict, us[i]))
    {
      assert us[i] in us && UpdatesOf(p)[i] in UpdatesOf(p);
      CodedUpdateRoundTrip(dict, useDictionary, us[i]);
    }
    var got := UpdatesOf(Decoded(dict, EncodeCompactDelta(p)).value);
    var want := UpdatesOf(Normal(d));
    assert |got| == |us| == |want|;
    assert forall i :: 0 <= i < |us| ==> got[i] == TransformUpdate(Decoder(dict), Bare(CodedUpdate(dict, useDictionary, us[i])));
    assert got == want <==> forall i :: 0 <= i < |us| ==> got[i] == want[i];
    PlainByUpdate(dict, d);
  }

  lemma PlainByUpdate(dict: Dictionary, d: Delta)
    ensures PlainDelta(dict, d) <==> forall i :: 0 <= i < |UpdatesOf(d)| ==> PlainUpdate(dict, UpdatesOf(d)[i])
  {
    hide PlainEntry;
    if !PlainDelta(dict, d) {
      var u, e :| u in UpdatesOf(d) && e in EntriesOf(u.values) && !PlainEntry(dict, e);
      var i :| 0 <= i < |UpdatesOf(d)| && UpdatesOf(d)[i] == u;
      assert !PlainUpdate(dict, u);
    }
  }

  lemma {:induction false} DecodeAllOf(vs: seq<Value>)
    requires forall i :: 0 <= i < |vs| ==> DecodeCompactDelta(vs[i]).Some?
    ensures |DecodeAll(vs)| == |vs|
    ensures forall i :: 0 <= i < |vs| ==> DecodeAll(vs)[i] == DecodeCompactDelta(vs[i]).value
  {
    hide DecodeCompactDelta;
    if vs != [] {
      DecodeAllOf(vs[1..]);
      assert forall i :: 0 < i < |vs| ==> vs[1..][i - 1] == vs[i];
    }
  }

  /**
   * A batch of well-formed deltas is sent, and arrives as its normal forms in order, exactly if the dictionary is
   * not used or no value in it stands under the name of an inherited property.
   */
  lemma BatchRoundTrip(dict: Dictionary, useDictionary: bool, ds: seq<Delta>)
    requires UniqueIds(dict) && forall d | d in ds :: WellFormed(d)
    ensures (Send(dict, useDictionary, ds).Some? && Receive(dict, Send(dict, useDictionary, ds).value) == NormalAll(ds))
       <==> (!useDictionary || forall d | d in ds :: PlainDelta(dict, d))
  {
    hide Prepared, WellFormed, PlainDelta, SendableDelta, Normal;
    var ps := PreparedAll(dict, useDictionary, ds);
    if forall p | p in ps :: SendableDelta(p) {
      SentBatch(dict, useDictionary, ds);
    } else if !useDictionary || forall d | d in ds :: PlainDelta(dict, d) {
      var p :| p in ps && !SendableDelta(p);
      var i :| 0 <= i < |ps| && ps[i] == p;
      assert ds[i] in ds;
      DeltaSends(dict, useDictionary, ds[i]);
      assert false;
    }
  }

  lemma SentBatch(dict: Dictionary, useDictionary: bool, ds: seq<Delta>)
    requires UniqueIds(dict) && forall d | d in ds :: WellFormed(d)
    requires forall p | p in PreparedAll(dict, useDictionary, ds) :: SendableDelta(p)
    ensures (Receive(dict, Send(dict, useDictionary, ds).value) == NormalAll(ds))
       <==> (!useDictionary || forall d | d in ds :: PlainDelta(dict, d))
  {
    hide Prepared, WellFormed, PlainDelta, SendableDelta, Normal, EncodeCompactDelta, DecodeCompactDelta, TransformDelta;
    var ps, v := PreparedAll(dict, useDictionary, ds), Send(dict, useDictionary, ds).value;
    forall i | 0 <= i < |ds|
      ensures DecodeCompactDelta(v.items[i]).Some?
      ensures (Decoded(dict, v.items[i]) == Some(Normal(ds[i]))) <==> PlainWhenUsed(dict, useDictionary, ds[i])
    {
      assert ds[i] in ds && ps[i] in ps;
      CompactRoundTrip(ps[i]);
      DeltaRoundTrip(dict, useDictionary, ds[i]);
    }
    DecodeAllOf(v.items);
    BatchIsCompact(ps, v);
    var got, want := Receive(dict, v), NormalAll(ds);
    assert |got| == |ds| == |want|;
    assert forall i :: 0 <= i < |ds| ==> Decoded(dict, v.items[i]) == Some(got[i]);
    assert got == want <==> forall i :: 0 <= i < |ds| ==> got[i] == want[i];
    assert (forall d | d in ds :: PlainDelta(dict, d)) <==> forall i :: 0 <= i < |ds| ==> PlainDelta(dict, ds[i]);
  }

  lemma BatchIsCompact(ps: seq<Delta>, v: Value)
    requires v.Arr? && |v.items| == |ps| && forall i :: 0 <= i < |ps| ==> v.items[i] == EncodeCompactDelta(ps[i])
    ensures IsCompactDeltaArray(v) <==> ps != []
  {
    if ps != [] {
      assert v.items[0] == EncodeCompactDelta(ps[0]);
    }
  }
}
