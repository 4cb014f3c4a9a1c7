/**
 * The key under which an outbound delta is remembered. Each field is written as a tag, the length
 * of its text, a colon and the text, so a key can be taken apart again whatever the texts contain.
 * Texts are sequences of UTF-16 code units, which is what the length counts.
 */
module DedupeKey {
  import opened Common
  import opened Decimal

  type Unit = u: int | 0 <= u < 0x10000
  type Text = seq<Unit>

  /** What `String(raw)` would print; null and undefined print nothing. */
  datatype Raw = Absent | Printed(text: Text)

  datatype SourceObject = SourceObject(name: Raw, sourceType: Raw, src: Raw)

  /** `value` is already in the printed form: JSON for objects, `String` otherwise. */
  datatype Entry = Entry(path: Raw, value: Raw)

  /** `None` stands for a missing or malformed list. */
  datatype Update = Update(dollarSource: Raw, source: Option<SourceObject>, timestamp: Raw, values: Option<seq<Entry>>)

  datatype Delta = Delta(context: Raw, updates: Option<seq<Update>>)

  // ------------------------------------------------------------ what the key sees

  datatype Triple = Triple(name: Text, sourceType: Text, src: Text)
  datatype SeenValue = SeenValue(path: Text, value: Text)
  datatype SeenUpdate = SeenUpdate(source: Text, triple: Option<Triple>, timestamp: Text, values: seq<SeenValue>)
  datatype Seen = Seen(context: Text, updates: seq<SeenUpdate>)

  function TextOf(r: Raw): Text {
    if r.Absent? then [] else r.text
  }

  function SeeValue(e: Entry): SeenValue {
    SeenValue(TextOf(e.path), TextOf(e.value))
  }

  function SeeValues(es: seq<Entry>): seq<SeenValue> {
    seq(|es|, i requires 0 <= i < |es| => SeeValue(es[i]))
  }

  function SeeUpdate(u: Update): SeenUpdate {
    SeenUpdate(TextOf(u.dollarSource),
               if u.source.Some?
               then Some(Triple(TextOf(u.source.value.name), TextOf(u.source.value.sourceType), TextOf(u.source.value.src)))
               else None,
               TextOf(u.timestamp),
               if u.values.Some? then SeeValues(u.values.value) else [])
  }

  function SeeUpdates(us: seq<Update>): seq<SeenUpdate> {
    seq(|us|, i requires 0 <= i < |us| => SeeUpdate(us[i]))
  }

  function See(d: Delta): Seen {
    Seen(TextOf(d.context), if d.updates.Some? then SeeUpdates(d.updates.value) else [])
  }

  // ---------------------------------------------------------------------- the key

  function Ascii(s: string): (t: Text)
    ensures |t| == |s|
  {
    seq(|s|, i requires 0 <= i < |s| => if s[i] as int < 0x10000 then s[i] as int else 0)
  }

  function LengthPrefix(n: nat): Text {
    Ascii(Dec(n)) + Ascii(":")
  }

  function Field(tag: Text, s: Text): Text {
    tag + (LengthPrefix(|s|) + s)
  }

  function ValueKey(v: SeenValue): Text {
    Ascii("|v") + (Field(Ascii("p"), v.path) + Field(Ascii("v"), v.value))
  }

  function ValuesKey(vs: seq<SeenValue>): Text {
    if vs == [] then [] else ValueKey(vs[0]) + ValuesKey(vs[1..])
  }

  function TripleKey(t: Option<Triple>): Text {
    if t == None then []
    else Field(Ascii("sl"), t.value.name) + (Field(Ascii("st"), t.value.sourceType) + Field(Ascii("ss"), t.value.src))
  }

  function UpdateKey(u: SeenUpdate): Text {
    Ascii("|u") + (Field(Ascii("s"), u.source) + (TripleKey(u.triple) + (Field(Ascii("t"), u.timestamp) + ValuesKey(u.values))))
  }

  function UpdatesKey(us: seq<SeenUpdate>): Text {
    if us == [] then [] else UpdateKey(us[0]) + UpdatesKey(us[1..])
  }

  function Key(d: Seen): Text {
    Field(Ascii("c"), d.context) + UpdatesKey(d.updates)
  }

  // ------------------------------------------------------------------- taking it apart

  predicate StartsWith(k: Text, p: Text) {
    |p| <= |k| && k[..|p|] == p
  }

  predicate IsDigitUnit(u: Unit) {
    '0' as int <= u <= '9' as int
  }

  function DigitRun(k: Text): (n: nat)
    ensures n <= |k| && forall i :: 0 <= i < n ==> IsDigitUnit(k[i])
    ensures n < |k| ==> !IsDigitUnit(k[n])
  {
    if k == [] || !IsDigitUnit(k[0]) then 0 else 1 + DigitRun(k[1..])
  }

  function Number(t: Text): nat
    requires forall i :: 0 <= i < |t| ==> IsDigitUnit(t[i])
  {
    if t == [] then 0 else
      assert IsDigitUnit(t[|t| - 1]);
      10 * Number(t[..|t| - 1]) + (t[|t| - 1] as int - '0' as int)
  }

  /** A field's text and what follows it. */
  function ReadField(tag: Text, k: Text): (r: Option<(Text, Text)>)
    ensures r.Some? ==> |r.value.1| < |k| || (tag == [] && |r.value.1| <= |k|)
  {
    if !StartsWith(k, tag) then None
    else
      var rest := k[|tag|..];
      var n := DigitRun(rest);
      if |rest| <= n || rest[n] != ':' as int then None
      else
        var body := rest[n + 1..];
        var length := Number(rest[..n]);
        if |body| < length then None else Some((body[..length], body[length..]))
  }

  function ReadValues(k: Text): (r: Option<(seq<SeenValue>, Text)>)
    ensures r.Some? ==> |r.value.1| <= |k|
    decreases |k|
  {
    if !StartsWith(k, Ascii("|v")) then Some(([], k))
    else
      var p := ReadField(Ascii("p"), k[2..]);
      if p == None then None
      else
        var v := ReadField(Ascii("v"), p.value.1);
        if v == None then None
        else
          var rest := ReadValues(v.value.1);
          if rest == None then None
          else Some(([SeenValue(p.value.0, v.value.0)] + rest.value.0, rest.value.1))
  }

  function ReadTriple(k: Text): (r: Option<(Option<Triple>, Text)>)
    ensures r.Some? ==> |r.value.1| <= |k|
  {
    if !StartsWith(k, Ascii("sl")) then Some((None, k))
    else
      var l := ReadField(Ascii("sl"), k);
      if l == None then None
      else
        var t := ReadField(Ascii("st"), l.value.1);
        if t == None then None
        else
          var s := ReadField(Ascii("ss"), t.value.1);
          if s == None then None
          else Some((Some(Triple(l.value.0, t.value.0, s.value.0)), s.value.1))
  }

  function ReadUpdate(k: Text): (r: Option<(SeenUpdate, Text)>)
    ensures r.Some? ==> |r.value.1| < |k|
  {
    if !StartsWith(k, Ascii("|u")) then None
    else
      var s := ReadField(Ascii("s"), k[2..]);
      if s == None then None
      else
        var triple := ReadTriple(s.value.1);
        if triple == None then None
        else
          var t := ReadField(Ascii("t"), triple.value.1);
          if t == None then None
          else
            var values := ReadValues(t.value.1);
            if values == None then None
            else Some((SeenUpdate(s.value.0, triple.value.0, t.value.0, values.value.0), values.value.1))
  }

  function ReadUpdates(k: Text): Option<seq<SeenUpdate>>
    decreases |k|
  {
    if k == [] then Some([])
    else
      var u := ReadUpdate(k);
      if u == None then None
      else
        var rest := ReadUpdates(u.value.1);
        if rest == None then None else Some([u.value.0] + rest.value)
  }

  function ReadKey(k: Text): Option<Seen> {
    var c := ReadField(Ascii("c"), k);
    if c == None then None
    else
      var us := ReadUpdates(c.value.1);
      if us == None then None else Some(Seen(c.value.0, us.value))
  }

  // ---------------------------------------------------------------- it is taken apart

  lemma Assoc(a: Text, b: Text, c: Text)
    ensures (a + b) + c == a + (b + c)
  {
  }

  lemma MarkIsTaken(mark: Text, rest: Text)
    ensures StartsWith(mark + rest, mark) && (mark + rest)[|mark|..] == rest
  {
    assert (mark + rest)[..|mark|] == mark;
  }

  lemma {:induction false} NumberOfAscii(s: string)
    requires AllDigits(s)
    ensures forall i :: 0 <= i < |Ascii(s)| ==> IsDigitUnit(Ascii(s)[i])
    ensures Number(Ascii(s)) == ParseDec(s)
  {
    if s == "" {
      assert Ascii(s) == [];
    } else {
      NumberOfAscii(s[..|s| - 1]);
      assert Ascii(s)[..|s| - 1] == Ascii(s[..|s| - 1]);
    }
  }

  lemma {:induction false} DigitRunStops(d: Text, rest: Text)
    requires forall i :: 0 <= i < |d| ==> IsDigitUnit(d[i])
    requires rest != [] && !IsDigitUnit(rest[0])
    ensures DigitRun(d + rest) == |d|
  {
    if d == [] {
      assert d + rest == rest;
    } else {
      assert (d + rest)[1..] == d[1..] + rest;
      DigitRunStops(d[1..], rest);
    }
  }

  /** The length prefix says where the text ends, whatever the text is. */
  lemma FieldIsRead(tag: Text, s: Text, rest: Text)
    ensures ReadField(tag, Field(tag, s) + rest) == Some((s, rest))
  {
    var digits := Ascii(Dec(|s|));
    var colon := Ascii(":");
    var k := Field(tag, s) + rest;
    DecIsDigits(|s|);
    NumberOfAscii(Dec(|s|));
    var tail := colon + (s + rest);
    assert k[..|tag|] == tag;
    assert k[|tag|..] == digits + tail;
    DigitRunStops(digits, tail);
    assert (digits + tail)[..|digits|] == digits;
    assert (digits + tail)[|digits| + 1..] == s + rest;
    assert (s + rest)[..|s|] == s && (s + rest)[|s|..] == rest;
  }

  lemma FieldStarts(tag: Text, s: Text, rest: Text)
    ensures StartsWith(Field(tag, s) + rest, tag)
  {
    assert (Field(tag, s) + rest)[..|tag|] == tag;
  }

  lemma TagsDiffer()
    ensures Ascii("|v")[0] == Ascii("|u")[0] && Ascii("|v")[1] != Ascii("|u")[1]
    ensures Ascii("t")[0] != Ascii("sl")[0]
  {
  }

  lemma ReadValuesStep(k: Text, v: SeenValue, k': Text, more: Text, vs: seq<SeenValue>, rest: Text)
    requires StartsWith(k, Ascii("|v")) && ReadField(Ascii("p"), k[2..]) == Some((v.path, k'))
    requires ReadField(Ascii("v"), k') == Some((v.value, more)) && ReadValues(more) == Some((vs, rest))
    ensures ReadValues(k) == Some(([v] + vs, rest))
  {
    hide ReadField, Ascii;
  }

  lemma {:induction false} ValuesAreRead(vs: seq<SeenValue>, rest: Text)
    requires !StartsWith(rest, Ascii("|v"))
    ensures ReadValues(ValuesKey(vs) + rest) == Some((vs, rest))
  {
    hide Field, ValueKey, ReadField, Ascii;
    if vs == [] {
      assert ValuesKey(vs) + rest == rest;
    } else {
      var more := ValuesKey(vs[1..]) + rest;
      ValuesAreRead(vs[1..], rest);
      hide ReadValues, StartsWith, ValuesKey;
      FirstValueKey(vs, rest);
      ValueIsRead(vs[0], more, ValuesKey(vs) + rest, vs[1..], rest);
      ReadValuesStep(ValuesKey(vs) + rest, vs[0], Field(Ascii("v"), vs[0].value) + more, more, vs[1..], rest);
      assert vs == [vs[0]] + vs[1..];
    }
  }

  lemma FirstValueKey(vs: seq<SeenValue>, rest: Text)
    requires vs != []
    ensures ValuesKey(vs) + rest == (ValueKey(vs[0]) + ValuesKey(vs[1..])) + rest
  {
  }

  lemma ValueIsRead(v: SeenValue, more: Text, k: Text, vs: seq<SeenValue>, rest: Text)
    requires k == (ValueKey(v) + ValuesKey(vs)) + rest && more == ValuesKey(vs) + rest
    ensures StartsWith(k, Ascii("|v"))
    ensures ReadField(Ascii("p"), k[2..]) == Some((v.path, Field(Ascii("v"), v.value) + more))
    ensures ReadField(Ascii("v"), Field(Ascii("v"), v.value) + more) == Some((v.value, more))
  {
    hide Field, Ascii, ReadField, ValuesKey;
    var mark, p, w := Ascii("|v"), Field(Ascii("p"), v.path), Field(Ascii("v"), v.value);
    Assoc(mark + (p + w), ValuesKey(vs), rest);
    Assoc(mark, p + w, more);
    Assoc(p, w, more);
    MarkIsTaken(mark, p + (w + more));
    FieldIsRead(Ascii("p"), v.path, w + more);
    FieldIsRead(Ascii("v"), v.value, more);
  }

  lemma TripleIsRead(t: Option<Triple>, rest: Text)
    requires !StartsWith(rest, Ascii("sl"))
    ensures ReadTriple(TripleKey(t) + rest) == Some((t, rest))
  {
    hide Field;
    if t == None {
      assert TripleKey(t) + rest == rest;
    } else {
      var a, b, c := Field(Ascii("sl"), t.value.name), Field(Ascii("st"), t.value.sourceType), Field(Ascii("ss"), t.value.src);
      assert TripleKey(t) + rest == a + (b + (c + rest));
      FieldStarts(Ascii("sl"), t.value.name, b + (c + rest));
      FieldIsRead(Ascii("sl"), t.value.name, b + (c + rest));
      FieldIsRead(Ascii("st"), t.value.sourceType, c + rest);
      FieldIsRead(Ascii("ss"), t.value.src, rest);
    }
  }

  lemma TimestampIsNoTriple(s: Text, rest: Text)
    ensures !StartsWith(Field(Ascii("t"), s) + rest, Ascii("sl"))
  {
    FieldStarts(Ascii("t"), s, rest);
    TagsDiffer();
    var k := Field(Ascii("t"), s) + rest;
    assert k[..1][0] == k[0];
  }

  lemma UpdateIsRead(u: SeenUpdate, rest: Text)
    requires !StartsWith(rest, Ascii("|v"))
    ensures ReadUpdate(UpdateKey(u) + rest) == Some((u, rest))
  {
    hide Field, TripleKey, ValuesKey, ReadTriple, ReadValues, ReadField;
    var s, t := Field(Ascii("s"), u.source), Field(Ascii("t"), u.timestamp);
    var tr, vs := TripleKey(u.triple), ValuesKey(u.values);
    var k := UpdateKey(u) + rest;
    assert k == Ascii("|u") + (s + (tr + (t + (vs + rest))));
    assert k[..2] == Ascii("|u") && k[2..] == s + (tr + (t + (vs + rest)));
    FieldIsRead(Ascii("s"), u.source, tr + (t + (vs + rest)));
    TimestampIsNoTriple(u.timestamp, vs + rest);
    TripleIsRead(u.triple, t + (vs + rest));
    FieldIsRead(Ascii("t"), u.timestamp, vs + rest);
    ValuesAreRead(u.values, rest);
  }

  lemma UpdatesStart(us: seq<SeenUpdate>)
    ensures !StartsWith(UpdatesKey(us), Ascii("|v"))
    ensures us != [] ==> UpdatesKey(us) != []
  {
    TagsDiffer();
    if us != [] {
      var k := UpdatesKey(us);
      assert k[..2] == Ascii("|u");
      assert k[..2][1] == k[1];
    }
  }

  lemma ReadUpdatesStep(k: Text, u: SeenUpdate, more: Text, us: seq<SeenUpdate>)
    requires k != [] && ReadUpdate(k) == Some((u, more)) && ReadUpdates(more) == Some(us)
    ensures ReadUpdates(k) == Some([u] + us)
  {
    hide ReadUpdate;
  }

  lemma {:induction false} UpdatesAreRead(us: seq<SeenUpdate>)
    ensures ReadUpdates(UpdatesKey(us)) == Some(us)
  {
    hide UpdateKey, ReadUpdate;
    UpdatesStart(us);
    if us == [] {
    } else {
      UpdatesAreRead(us[1..]);
      hide ReadUpdates, StartsWith;
      UpdatesStart(us[1..]);
      UpdateIsRead(us[0], UpdatesKey(us[1..]));
      ReadUpdatesStep(UpdatesKey(us), us[0], UpdatesKey(us[1..]), us[1..]);
      assert us == [us[0]] + us[1..];
    }
  }

  /** Every key is taken apart into exactly what it was made from. */
  lemma KeyIsRead(d: Seen)
    ensures ReadKey(Key(d)) == Some(d)
  {
    FieldIsRead(Ascii("c"), d.context, UpdatesKey(d.updates));
    UpdatesAreRead(d.updates);
  }

  // ------------------------------------------------------------------- who shares a key

  /** Printed alike: what is absent prints nothing. */
  predicate SamePrint(x: Raw, y: Raw) {
    (if x.Printed? then x.text else []) == (if y.Printed? then y.text else [])
  }

  predicate SameSource(x: SourceObject, y: SourceObject) {
    SamePrint(x.name, y.name) && SamePrint(x.sourceType, y.sourceType) && SamePrint(x.src, y.src)
  }

  /** A missing list counts as an empty one. */
  function Entries(u: Update): seq<Entry> {
    if u.values.Some? then u.values.value else []
  }

  function Updates(d: Delta): seq<Update> {
    if d.updates.Some? then d.updates.value else []
  }

  predicate SameEntry(x: Entry, y: Entry) {
    SamePrint(x.path, y.path) && SamePrint(x.value, y.value)
  }

  predicate SameUpdate(u: Update, v: Update) {
    && SamePrint(u.dollarSource, v.dollarSource) && SamePrint(u.timestamp, v.timestamp)
    && (u.source.Some? <==> v.source.Some?) && (u.source.Some? ==> SameSource(u.source.value, v.source.value))
    && |Entries(u)| == |Entries(v)|
    && forall i :: 0 <= i < |Entries(u)| ==> SameEntry(Entries(u)[i], Entries(v)[i])
  }

  /** The two deltas agree on everything they print, in order. */
  predicate SamePrinted(d: Delta, e: Delta) {
    && SamePrint(d.context, e.context) && |Updates(d)| == |Updates(e)|
    && forall i :: 0 <= i < |Updates(d)| ==> SameUpdate(Updates(d)[i], Updates(e)[i])
  }

  lemma SeenEntries(u: Update, v: Update)
    ensures SeeUpdate(u).values == SeeUpdate(v).values
       <==> |Entries(u)| == |Entries(v)| && forall i :: 0 <= i < |Entries(u)| ==> SameEntry(Entries(u)[i], Entries(v)[i])
  {
    var x, y := SeeUpdate(u).values, SeeUpdate(v).values;
    assert |x| == |Entries(u)| && |y| == |Entries(v)|;
    if x == y {
      forall i | 0 <= i < |x|
        ensures SameEntry(Entries(u)[i], Entries(v)[i])
      {
        assert x[i] == y[i];
      }
    }
  }

  lemma SeenUpdates(u: Update, v: Update)
    ensures SeeUpdate(u) == SeeUpdate(v) <==> SameUpdate(u, v)
  {
    SeenEntries(u, v);
    hide SeeValues, SameEntry;
  }

  lemma SeenDeltas(d: Delta, e: Delta)
    ensures See(d) == See(e) <==> SamePrinted(d, e)
  {
    hide SeeUpdate, SameUpdate;
    var x, y := See(d).updates, See(e).updates;
    assert |x| == |Updates(d)| && |y| == |Updates(e)|;
    if |x| == |y| {
      forall i | 0 <= i < |x|
        ensures x[i] == y[i] <==> SameUpdate(Updates(d)[i], Updates(e)[i])
      {
        SeenUpdates(Updates(d)[i], Updates(e)[i]);
      }
      assert x == y <==> forall i :: 0 <= i < |x| ==> x[i] == y[i];
    }
  }

  /**
   * Two deltas share a key exactly when they agree on context, sources, timestamps, paths and
   * printed values, in order.
   */
  lemma KeysAgreeExactly(d: Delta, e: Delta)
    ensures Key(See(d)) == Key(See(e)) <==> SamePrinted(d, e)
  {
    KeyIsRead(See(d));
    KeyIsRead(See(e));
    SeenDeltas(d, e);
  }

  // ------------------------------------------------------------------ building it

  function Join(parts: seq<Text>): Text {
    if parts == [] then [] else parts[0] + Join(parts[1..])
  }

  lemma {:induction false} JoinAppend(a: seq<Text>, b: seq<Text>)
    ensures Join(a + b) == Join(a) + Join(b)
  {
    if a == [] {
      assert a + b == b;
    } else {
      assert (a + b)[1..] == a[1..] + b;
      JoinAppend(a[1..], b);
    }
  }

  lemma JoinOne(t: Text)
    ensures Join([t]) == t
  {
    assert [t][1..] == [];
  }

  lemma JoinFour(a: Text, b: Text, c: Text, d: Text)
    ensures Join([a, b, c, d]) == a + ((b + c) + d)
  {
    assert [a, b, c, d] == [a] + ([b] + ([c] + [d]));
    JoinAppend([a], [b] + ([c] + [d]));
    JoinAppend([b], [c] + [d]);
    JoinAppend([c], [d]);
    JoinOne(a);
    JoinOne(b);
    JoinOne(c);
    JoinOne(d);
  }

  lemma JoinField(tag: Text, s: Text)
    ensures Join([tag, Ascii(Dec(|s|)), Ascii(":"), s]) == Field(tag, s)
  {
    hide Ascii, Dec, Join;
    JoinFour(tag, Ascii(Dec(|s|)), Ascii(":"), s);
  }

  method Push(parts: seq<Text>, tag: Text, raw: Raw) returns (more: seq<Text>)
    ensures Join(more) == Join(parts) + Field(tag, TextOf(raw))
  {
    var s := TextOf(raw);
    JoinField(tag, s);
    JoinAppend(parts, [tag, Ascii(Dec(|s|)), Ascii(":"), s]);
    more := parts + [tag, Ascii(Dec(|s|)), Ascii(":"), s];
  }

  lemma {:induction false} ValuesKeySnoc(vs: seq<SeenValue>, v: SeenValue)
    ensures ValuesKey(vs + [v]) == ValuesKey(vs) + ValueKey(v)
  {
    if vs == [] {
      assert [v][1..] == [];
    } else {
      assert (vs + [v])[1..] == vs[1..] + [v];
      ValuesKeySnoc(vs[1..], v);
    }
  }

  lemma {:induction false} UpdatesKeySnoc(us: seq<SeenUpdate>, u: SeenUpdate)
    ensures UpdatesKey(us + [u]) == UpdatesKey(us) + UpdateKey(u)
  {
    if us == [] {
      assert [u][1..] == [];
    } else {
      assert (us + [u])[1..] == us[1..] + [u];
      UpdatesKeySnoc(us[1..], u);
    }
  }

  method PushMark(parts: seq<Text>, mark: Text) returns (more: seq<Text>)
    ensures Join(more) == Join(parts) + mark
  {
    JoinOne(mark);
    JoinAppend(parts, [mark]);
    more := parts + [mark];
  }

  method PushValues(parts: seq<Text>, values: seq<Entry>) returns (more: seq<Text>)
    ensures Join(more) == Join(parts) + ValuesKey(SeeValues(values))
  {
    hide Field, Join;
    more := parts;
    assert SeeValues(values[..0]) == [];
    for i := 0 to |values|
      invariant Join(more) == Join(parts) + ValuesKey(SeeValues(values[..i]))
    {
      ValuesKeySnoc(SeeValues(values[..i]), SeeValue(values[i]));
      assert SeeValues(values[..i + 1]) == SeeValues(values[..i]) + [SeeValue(values[i])];
      more := PushMark(more, Ascii("|v"));
      more := Push(more, Ascii("p"), values[i].path);
      more := Push(more, Ascii("v"), values[i].value);
    }
    assert values[..|values|] == values;
  }

  method PushUpdate(parts: seq<Text>, u: Update) returns (more: seq<Text>)
    ensures Join(more) == Join(parts) + UpdateKey(SeeUpdate(u))
  {
    hide Field, Join, ValuesKey;
    more := PushMark(parts, Ascii("|u"));
    more := Push(more, Ascii("s"), u.dollarSource);
    if u.source.Some? {
      more := Push(more, Ascii("sl"), u.source.value.name);
      more := Push(more, Ascii("st"), u.source.value.sourceType);
      more := Push(more, Ascii("ss"), u.source.value.src);
    }
    more := Push(more, Ascii("t"), u.timestamp);
    more := PushValues(more, if u.values.Some? then u.values.value else []);
    assert SeeValues([]) == [];
  }

  method BuildOutboundDedupeKey(d: Delta) returns (key: Text)
    ensures key == Key(See(d))
  {
    hide Field, Join, UpdatesKey;
    var parts: seq<Text> := [];
    parts := Push(parts, Ascii("c"), d.context);
    JoinNothing();
    ghost var head := Join(parts);
    var updates := if d.updates.Some? then d.updates.value else [];
    assert SeeUpdates(updates[..0]) == [];
    NoUpdatesKey();
    for i := 0 to |updates|
      invariant Join(parts) == head + UpdatesKey(SeeUpdates(updates[..i]))
    {
      UpdatesKeySnoc(SeeUpdates(updates[..i]), SeeUpdate(updates[i]));
      assert SeeUpdates(updates[..i + 1]) == SeeUpdates(updates[..i]) + [SeeUpdate(updates[i])];
      parts := PushUpdate(parts, updates[i]);
    }
    assert updates[..|updates|] == updates;
    assert SeeUpdates([]) == [];
    key := Join(parts);
  }

  lemma JoinNothing()
    ensures Join([]) == []
  {
  }

  lemma NoUpdatesKey()
    ensures UpdatesKey([]) == []
  {
  }
}
