/** The codec's loops: arrays filled position by position, lists pushed element by element. */
module CompactDeltaService {
  import opened Common
  import opened JsonValue
  import opened CompactDelta

  lemma {:induction false} TuplesSnoc(es: seq<Entry>, e: Entry)
    ensures Tuples(es + [e]) == Tuples(es) + (if Present(e) && e.path.Data? then [Arr([e.path.v, e.value])] else [])
  {
    if es == [] {
      assert [e][1..] == [];
    } else {
      TuplesSnoc(es[1..], e);
      assert (es + [e])[1..] == es[1..] + [e];
    }
  }

  lemma {:induction false} UntupleSnoc(vs: seq<Value>, v: Value)
    ensures UntupleAll(vs + [v]) == UntupleAll(vs) + Untuple(v)
  {
    hide Untuple;
    if vs == [] {
      assert [v][1..] == [];
    } else {
      UntupleSnoc(vs[1..], v);
      assert (vs + [v])[1..] == vs[1..] + [v];
    }
  }

  lemma {:induction false} UpdatesSnoc(vs: seq<Value>, v: Value)
    ensures DecodeUpdates(vs + [v]) == DecodeUpdates(vs) + (if DecodeUpdate(v).Some? then [DecodeUpdate(v).value] else [])
  {
    hide DecodeUpdate;
    if vs == [] {
      assert [v][1..] == [];
    } else {
      UpdatesSnoc(vs[1..], v);
      assert (vs + [v])[1..] == vs[1..] + [v];
    }
  }

  lemma {:induction false} DeltasSnoc(vs: seq<Value>, v: Value)
    ensures DecodeAll(vs + [v])
         == DecodeAll(vs) + (if DecodeCompactDelta(v).Some? then [DecodeCompactDelta(v).value] else [])
  {
    hide DecodeCompactDelta;
    if vs == [] {
      assert [v][1..] == [];
    } else {
      DeltasSnoc(vs[1..], v);
      assert (vs + [v])[1..] == vs[1..] + [v];
    }
  }

  /** The tuples of the entries that have a path. */
  method EncodeTuples(es: seq<Entry>) returns (tuples: seq<Value>)
    ensures tuples == Tuples(es)
  {
    tuples := [];
    for i := 0 to |es|
      invariant tuples == Tuples(es[..i])
    {
      TuplesSnoc(es[..i], es[i]);
      assert es[..i + 1] == es[..i] + [es[i]];
      if es[i].Entry? && es[i].path != Data(Undefined) && es[i].path.Data? {
        tuples := tuples + [Arr([es[i].path.v, es[i].value])];
      }
    }
    assert es[..|es|] == es;
  }

  method EncodeUpdateTuple(u: Update) returns (tuple: Value)
    ensures tuple == EncodeUpdate(u)
  {
    var values: seq<Value> := [];
    if u.values.Some? {
      values := EncodeTuples(u.values.value);
    }
    var meta: seq<Value> := [];
    if u.meta.Some? {
      meta := EncodeTuples(u.meta.value);
    }
    tuple := Arr([if u.source == Undefined then Null else u.source, Text(u.dollarSource), Text(u.timestamp),
                  Arr(values), if |meta| > 0 then Arr(meta) else Null]);
  }

  method DecodeValueTuples(raw: Value) returns (values: seq<Entry>)
    ensures values == DecodeTuples(raw)
  {
    values := [];
    if raw.Arr? {
      for i := 0 to |raw.items|
        invariant values == UntupleAll(raw.items[..i])
      {
        var vt := raw.items[i];
        UntupleSnoc(raw.items[..i], vt);
        assert raw.items[..i + 1] == raw.items[..i] + [vt];
        if vt.Arr? && |vt.items| >= 2 {
          values := values + [Entry(Data(vt.items[0]), vt.items[1], [])];
        }
      }
      assert raw.items[..|raw.items|] == raw.items;
    }
  }

  method DecodeUpdateTuple(tuple: Value) returns (u: Option<Update>)
    ensures u == DecodeUpdate(tuple)
  {
    if !tuple.Arr? || |tuple.items| < 5 {
      return None;
    }
    var values := DecodeValueTuples(tuple.items[3]);
    var update := Update(Undefined, None, None, Some(values), None, []);
    if tuple.items[0] != Null && tuple.items[0] != Undefined {
      update := update.(source := tuple.items[0]);
    }
    if tuple.items[1].Str? {
      update := update.(dollarSource := Some(tuple.items[1].s));
    }
    if tuple.items[2].Str? {
      update := update.(timestamp := Some(tuple.items[2].s));
    }
    var meta := DecodeValueTuples(tuple.items[4]);
    if |meta| > 0 {
      update := update.(meta := Some(meta));
    }
    return Some(update);
  }

  method DecodeDelta(payload: Value) returns (d: Option<Delta>)
    ensures d == DecodeCompactDelta(payload)
  {
    hide DecodeUpdate;
    if !payload.Arr? || |payload.items| < 2 || !payload.items[1].Arr? {
      return None;
    }
    var raw := payload.items[1].items;
    var updates: seq<Update> := [];
    for i := 0 to |raw|
      invariant updates == DecodeUpdates(raw[..i])
    {
      UpdatesSnoc(raw[..i], raw[i]);
      assert raw[..i + 1] == raw[..i] + [raw[i]];
      var decoded := DecodeUpdateTuple(raw[i]);
      if decoded.Some? {
        updates := updates + [decoded.value];
      }
    }
    assert raw[..|raw|] == raw;
    return Some(Delta(Some(if payload.items[0].Str? then payload.items[0].s else ""), Some(updates), []));
  }

  method DecodeDeltaArray(payload: Value) returns (ds: seq<Delta>)
    ensures ds == DecodeCompactDeltaArray(payload)
  {
    hide DecodeCompactDelta;
    ds := [];
    if payload.Arr? {
      for i := 0 to |payload.items|
        invariant ds == DecodeAll(payload.items[..i])
      {
        var item := payload.items[i];
        DeltasSnoc(payload.items[..i], item);
        assert payload.items[..i + 1] == payload.items[..i] + [item];
        var d := DecodeDelta(item);
        if d.Some? {
          ds := ds + [d.value];
        }
      }
      assert payload.items[..|payload.items|] == payload.items;
    }
  }

  method TransformValues(c: Coder, es: seq<Entry>) returns (r: seq<Entry>)
    ensures r == TransformEntries(c, es)
  {
    hide Transform;
    var transformed := new Entry[|es|](_ => Junk(Undefined));
    for j := 0 to |es|
      invariant forall k :: 0 <= k < j ==> transformed[k] == Transform(c, es[k])
    {
      transformed[j] := Transform(c, es[j]);
    }
    return transformed[..];
  }

  method TransformAll(c: Coder, us: seq<Update>) returns (r: seq<Update>)
    ensures r == TransformUpdates(c, us)
  {
    var blank := Update(Undefined, None, None, None, None, []);
    var transformed := new Update[|us|](_ => blank);
    for i := 0 to |us|
      invariant forall k :: 0 <= k < i ==> transformed[k] == TransformUpdate(c, us[k])
    {
      var u := us[i];
      var values := u.values;
      if u.values.Some? {
        var vs := TransformValues(c, u.values.value);
        values := Some(vs);
      }
      transformed[i] := Update(OrEmptyObject(u.source), u.dollarSource, u.timestamp, values, u.meta, []);
    }
    return transformed[..];
  }
}
