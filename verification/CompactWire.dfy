/** What stands where in a compact delta, and what is taken from one that is not well-formed. */
module CompactWire {
  import opened Common
  import opened Decimal
  import opened JsonValue
  import opened CompactDelta
  import opened CompactDeltaTheorems

  // ------------------------------------------------------------------------ encoding

  /** One pair of path and value for each entry that has a path, in order. */
  predicate ArePairs(v: Value, es: seq<Entry>) {
    && v.Arr? && |v.items| == |NormalEntries(es)|
    && forall i :: 0 <= i < |v.items| ==>
         && NormalEntries(es)[i].Entry? && NormalEntries(es)[i].path.Data?
         && v.items[i] == Arr([NormalEntries(es)[i].path.v, NormalEntries(es)[i].value])
  }

  predicate IsText(v: Value, s: Option<string>) {
    v == if s.Some? then Str(s.value) else Null
  }

  /** Five positions: source, $source, timestamp, values and meta, null where there is nothing. */
  predicate IsUpdateTuple(v: Value, u: Update) {
    && v.Arr? && |v.items| == 5
    && v.items[0] == (if u.source == Undefined then Null else u.source)
    && IsText(v.items[1], u.dollarSource) && IsText(v.items[2], u.timestamp)
    && ArePairs(v.items[3], if u.values.Some? then u.values.value else [])
    && (if v.items[4] == Null then forall e | e in EntriesOf(u.meta) :: !Present(e) else ArePairs(v.items[4], EntriesOf(u.meta)))
  }

  lemma {:induction false} TuplesArePairs(es: seq<Entry>)
    requires forall e | e in es :: Sendable(e)
    ensures ArePairs(Arr(Tuples(es)), es)
    ensures Tuples(es) == [] ==> forall e | e in es :: !Present(e)
  {
    if es != [] {
      assert Sendable(es[0]);
      TuplesArePairs(es[1..]);
      var rest, tuples := NormalEntries(es[1..]), Tuples(es[1..]);
      assert es == [es[0]] + es[1..];
      if Present(es[0]) {
        assert NormalEntries(es) == [Entry(es[0].path, es[0].value, [])] + rest;
        assert Tuples(es) == [Arr([es[0].path.v, es[0].value])] + tuples;
      } else {
        assert NormalEntries(es) == rest && Tuples(es) == tuples;
      }
    }
  }

  lemma UpdateIsTuple(u: Update)
    requires forall e | e in EntriesOf(u.values) + EntriesOf(u.meta) :: Sendable(e)
    ensures IsUpdateTuple(EncodeUpdate(u), u)
  {
    TuplesArePairs(EntriesOf(u.values));
    TuplesArePairs(EntriesOf(u.meta));
    hide Tuples, NormalEntries;
  }

  /** A delta goes out as its context and the tuples of its updates, in order. */
  lemma DeltaIsLaidOut(d: Delta)
    requires SendableDelta(d)
    ensures var v := EncodeCompactDelta(d);
            && v.Arr? && |v.items| == 2 && IsText(v.items[0], d.context)
            && v.items[1].Arr? && |v.items[1].items| == |UpdatesOf(d)|
            && forall i :: 0 <= i < |UpdatesOf(d)| ==> IsUpdateTuple(v.items[1].items[i], UpdatesOf(d)[i])
  {
    var us := UpdatesOf(d);
    forall i | 0 <= i < |us|
      ensures IsUpdateTuple(EncodeUpdate(us[i]), us[i])
    {
      assert us[i] in us;
      UpdateIsTuple(us[i]);
    }
    hide IsUpdateTuple, EncodeUpdate;
  }

  // ---------------------------------------------------------------------- dictionary

  /** A path of the table goes out as its number, and any other one as it is, unless it names an inherited property. */
  lemma PathsAreNumbers(d: Dictionary, path: string)
    requires Keyed(d)
    ensures forall i :: 0 <= i < |d| && d[i].path == path ==> EncodePath(d, path) == Data(Finite(Dec(d[i].id)))
    ensures (forall i :: 0 <= i < |d| ==> d[i].path != path) && path !in INHERITED ==> EncodePath(d, path) == Data(Str(path))
  {
    IdOfFacts(d, path);
    forall i | 0 <= i < |d| && d[i].path == path
      ensures EncodePath(d, path) == Data(Finite(Dec(d[i].id)))
    {
      IdIsOwn(d, i);
    }
  }

  /** With the dictionary every value entry keeps its place and value, and only its path is looked up; meta goes as it is. */
  lemma OnlyPathsAreCoded(dict: Dictionary, d: Delta)
    requires d.updates.Some?
    ensures var t := Prepared(dict, true, d);
            && t.context == d.context && t.updates.Some? && |t.updates.value| == |d.updates.value|
            && forall i :: 0 <= i < |d.updates.value| ==>
                 var u, w := d.updates.value[i], t.updates.value[i];
                 && w.dollarSource == u.dollarSource && w.timestamp == u.timestamp && w.meta == u.meta
                 && w.source == (if u.source == Undefined || u.source == Null then Obj([]) else u.source)
                 && (w.values.Some? <==> u.values.Some?)
                 && (u.values.Some? ==> CodedAre(dict, w.values.value, u.values.value))
  {
    hide EncodePath;
  }

  predicate CodedAre(dict: Dictionary, ws: seq<Entry>, es: seq<Entry>) {
    && |ws| == |es|
    && forall i :: 0 <= i < |es| ==>
         if es[i].Entry? && es[i].path.Data? && es[i].path.v.Str? && es[i].path.v.s != ""
         then ws[i] == es[i].(path := EncodePath(dict, es[i].path.v.s))
         else ws[i] == es[i]
  }

  lemma {:induction false} NumberUnknown(d: Dictionary, id: nat)
    requires forall i :: 0 <= i < |d| ==> d[i].id != id
    ensures PathOf(d, id) == None
  {
    if d != [] {
      NumberUnknown(d[..|d| - 1], id);
    }
  }

  /** A number that the table does not know, and whatever is not a number, stays what it is. */
  lemma OtherPathsStay(d: Dictionary, v: Value)
    requires v.Finite? ==> forall i :: 0 <= i < |d| ==> v != Finite(Dec(d[i].id))
    ensures DecodePath(d, Data(v)) == Data(v)
  {
    if NumberOf(v).Some? {
      var n := NumberOf(v).value;
      assert v == Finite(Dec(n));
      NumberUnknown(d, n);
    }
  }

  // ------------------------------------------------------------------------ decoding

  predicate IsPair(v: Value) {
    v.Arr? && |v.items| >= 2
  }

  function PairOf(v: Value): Entry
    requires IsPair(v)
  {
    Entry(Data(v.items[0]), v.items[1], [])
  }

  function Pairs(vs: seq<Value>): seq<Value> {
    if vs == [] then [] else (if IsPair(vs[0]) then [vs[0]] else []) + Pairs(vs[1..])
  }

  /** What is no pair is left out, what follows a pair in it is ignored. */
  lemma {:induction false} OnlyPairsAreRead(vs: seq<Value>)
    ensures |UntupleAll(vs)| == |Pairs(vs)|
    ensures forall i :: 0 <= i < |Pairs(vs)| ==> IsPair(Pairs(vs)[i]) && UntupleAll(vs)[i] == PairOf(Pairs(vs)[i])
  {
    if vs != [] {
      OnlyPairsAreRead(vs[1..]);
    }
  }

  /** An update needs an array of five; fields of the wrong type are taken as absent, null as no source. */
  lemma DecodedFields(v: Value)
    ensures DecodeUpdate(v).Some? <==> v.Arr? && |v.items| >= 5
    ensures DecodeUpdate(v).Some? ==>
              var u := DecodeUpdate(v).value;
              && u.source == (if v.items[0] == Null then Undefined else v.items[0])
              && u.dollarSource == (if v.items[1].Str? then Some(v.items[1].s) else None)
              && u.timestamp == (if v.items[2].Str? then Some(v.items[2].s) else None)
              && u.values == Some(if v.items[3].Arr? then UntupleAll(v.items[3].items) else [])
              && (u.meta.Some? ==> v.items[4].Arr? && u.meta.value == UntupleAll(v.items[4].items) != [])
              && (u.meta == None ==> !v.items[4].Arr? || UntupleAll(v.items[4].items) == [])
  {
    hide UntupleAll;
  }

  /** A delta needs an array of two whose second is an array; a context that is no text counts as empty. */
  lemma DecodedDelta(v: Value)
    ensures DecodeCompactDelta(v).Some? <==> v.Arr? && |v.items| >= 2 && v.items[1].Arr?
    ensures DecodeCompactDelta(v).Some? ==>
              DecodeCompactDelta(v).value.context == Some(if v.items[0].Str? then v.items[0].s else "")
  {
  }
}
