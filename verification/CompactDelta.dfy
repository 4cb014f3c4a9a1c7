/** Deltas as positional arrays, and paths as the numbers of a shared dictionary. */
module CompactDelta {
  import opened Common
  import opened Decimal
  import opened JsonValue

  /** What stands in a path field: plain data (`Undefined` when absent), or an inherited function, which cannot be sent. */
  datatype Slot = Data(v: Value) | Function(name: string)

  /** `rest` holds the fields that no decoder looks at; `Junk` is an entry that is not an object. */
  datatype Entry = Entry(path: Slot, value: Value, rest: seq<Field>) | Junk(raw: Value)

  datatype Update = Update(source: Value, dollarSource: Option<string>, timestamp: Option<string>,
                           values: Option<seq<Entry>>, meta: Option<seq<Entry>>, rest: seq<Field>)

  datatype Delta = Delta(context: Option<string>, updates: Option<seq<Update>>, rest: seq<Field>)

  // ------------------------------------------------------------------ dictionary

  datatype Pair = Pair(path: string, id: nat)

  /** The entries of the encode table in their order. */
  type Dictionary = seq<Pair>

  /** Property names that every object inherits, on which a table lookup finds a function or an object. */
  const INHERITED: set<string> := {
    "constructor", "toString", "toLocaleString", "valueOf", "hasOwnProperty", "isPrototypeOf", "propertyIsEnumerable",
    "__proto__", "__defineGetter__", "__defineSetter__", "__lookupGetter__", "__lookupSetter__"
  }

  function IdOf(d: Dictionary, path: string): Option<nat> {
    if d == [] then None else if d[0].path == path then Some(d[0].id) else IdOf(d[1..], path)
  }

  /** The decode table is built by swapping the pairs, so the last one of an id wins. */
  function PathOf(d: Dictionary, id: nat): Option<string> {
    if d == [] then None
    else if d[|d| - 1].id == id then Some(d[|d| - 1].path)
    else PathOf(d[..|d| - 1], id)
  }

  function EncodePath(d: Dictionary, path: string): Slot {
    if IdOf(d, path).Some? then Data(Finite(Dec(IdOf(d, path).value)))
    else if path == "__proto__" then Data(Obj([]))
    else if path in INHERITED then Function(path)
    else Data(Str(path))
  }

  /** The number that a numeral stands for. */
  function NumberOf(v: Value): Option<nat> {
    if v.Finite? && AllDigits(v.text) && Dec(ParseDec(v.text)) == v.text then Some(ParseDec(v.text)) else None
  }

  function DecodePath(d: Dictionary, slot: Slot): Slot {
    if slot.Data? && NumberOf(slot.v).Some? && PathOf(d, NumberOf(slot.v).value).Some?
    then Data(Str(PathOf(d, NumberOf(slot.v).value).value))
    else slot
  }

  predicate Encodes(e: Entry) {
    e.Entry? && e.path.Data? && e.path.v.Str? && e.path.v.s != ""
  }

  function EncodeEntry(d: Dictionary, e: Entry): Entry {
    if Encodes(e) then e.(path := EncodePath(d, e.path.v.s)) else e
  }

  function DecodeEntry(d: Dictionary, e: Entry): Entry {
    if e.Entry? && e.path != Data(Undefined) then e.(path := DecodePath(d, e.path)) else e
  }

  /** The coding of one entry, in either direction. */
  datatype Coder = Encoder(d: Dictionary) | Decoder(d: Dictionary)

  function Transform(c: Coder, e: Entry): Entry {
    if c.Encoder? then EncodeEntry(c.d, e) else DecodeEntry(c.d, e)
  }

  function TransformEntries(c: Coder, es: seq<Entry>): (r: seq<Entry>)
    ensures |r| == |es|
  {
    seq(|es|, i requires 0 <= i < |es| => Transform(c, es[i]))
  }

  function OrEmptyObject(source: Value): Value {
    if source == Undefined || source == Null then Obj([]) else source
  }

  function TransformUpdate(c: Coder, u: Update): Update {
    Update(OrEmptyObject(u.source), u.dollarSource, u.timestamp,
           if u.values.Some? then Some(TransformEntries(c, u.values.value)) else None, u.meta, [])
  }

  function TransformUpdates(c: Coder, us: seq<Update>): (r: seq<Update>)
    ensures |r| == |us|
  {
    seq(|us|, i requires 0 <= i < |us| => TransformUpdate(c, us[i]))
  }

  function TransformDelta(c: Coder, d: Delta): Delta {
    if d.updates == None then d else Delta(d.context, Some(TransformUpdates(c, d.updates.value)), [])
  }

  // ------------------------------------------------------------ positional arrays

  predicate Present(e: Entry) {
    e.Entry? && e.path != Data(Undefined)
  }

  predicate Sendable(e: Entry) {
    Present(e) ==> e.path.Data?
  }

  function Tuples(es: seq<Entry>): seq<Value> {
    if es == [] then []
    else (if Present(es[0]) && es[0].path.Data? then [Arr([es[0].path.v, es[0].value])] else []) + Tuples(es[1..])
  }

  function Text(s: Option<string>): Value {
    if s.Some? then Str(s.value) else Null
  }

  function EntriesOf(es: Option<seq<Entry>>): seq<Entry> {
    if es.Some? then es.value else []
  }

  function EncodeUpdate(u: Update): Value {
    var meta := Tuples(EntriesOf(u.meta));
    Arr([if u.source == Undefined then Null else u.source, Text(u.dollarSource), Text(u.timestamp),
         Arr(Tuples(EntriesOf(u.values))), if meta == [] then Null else Arr(meta)])
  }

  function EncodeUpdates(us: seq<Update>): (r: seq<Value>)
    ensures |r| == |us|
  {
    seq(|us|, i requires 0 <= i < |us| => EncodeUpdate(us[i]))
  }

  function UpdatesOf(d: Delta): seq<Update> {
    if d.updates.Some? then d.updates.value else []
  }

  function EncodeCompactDelta(d: Delta): Value {
    Arr([Text(d.context), Arr(EncodeUpdates(UpdatesOf(d)))])
  }

  function Untuple(v: Value): seq<Entry> {
    if v.Arr? && |v.items| >= 2 then [Entry(Data(v.items[0]), v.items[1], [])] else []
  }

  function UntupleAll(vs: seq<Value>): seq<Entry> {
    if vs == [] then [] else Untuple(vs[0]) + UntupleAll(vs[1..])
  }

  function DecodeTuples(v: Value): seq<Entry> {
    if v.Arr? then UntupleAll(v.items) else []
  }

  function AsText(v: Value): Option<string> {
    if v.Str? then Some(v.s) else None
  }

  function DecodeUpdate(v: Value): Option<Update> {
    if !v.Arr? || |v.items| < 5 then None
    else
      var source := if v.items[0] == Null then Undefined else v.items[0];
      var meta := DecodeTuples(v.items[4]);
      Some(Update(source, AsText(v.items[1]), AsText(v.items[2]), Some(DecodeTuples(v.items[3])),
                  if meta == [] then None else Some(meta), []))
  }

  function DecodeUpdates(vs: seq<Value>): seq<Update> {
    if vs == [] then []
    else
      var u := DecodeUpdate(vs[0]);
      (if u.Some? then [u.value] else []) + DecodeUpdates(vs[1..])
  }

  function DecodeCompactDelta(v: Value): Option<Delta> {
    if !v.Arr? || |v.items| < 2 || !v.items[1].Arr? then None
    else Some(Delta(Some(if v.items[0].Str? then v.items[0].s else ""), Some(DecodeUpdates(v.items[1].items)), []))
  }

  function DecodeAll(vs: seq<Value>): seq<Delta> {
    if vs == [] then []
    else
      var d := DecodeCompactDelta(vs[0]);
      (if d.Some? then [d.value] else []) + DecodeAll(vs[1..])
  }

  predicate IsCompactDeltaArray(v: Value) {
    && v.Arr? && v.items != []
    && v.items[0].Arr? && |v.items[0].items| >= 2 && v.items[0].items[1].Arr?
  }

  function DecodeCompactDeltaArray(v: Value): seq<Delta> {
    if v.Arr? then DecodeAll(v.items) else []
  }

  // -------------------------------------------------------------------- a batch

  predicate SendableDelta(d: Delta) {
    forall u, e | u in UpdatesOf(d) && e in EntriesOf(u.values) + EntriesOf(u.meta) :: Sendable(e)
  }

  function Prepared(dict: Dictionary, useDictionary: bool, d: Delta): Delta {
    if useDictionary then TransformDelta(Encoder(dict), d) else d
  }

  function PreparedAll(dict: Dictionary, useDictionary: bool, ds: seq<Delta>): (r: seq<Delta>)
    ensures |r| == |ds|
  {
    seq(|ds|, i requires 0 <= i < |ds| => Prepared(dict, useDictionary, ds[i]))
  }

  /** What goes on the wire; `None` when a path slot holds something that cannot be serialised. */
  function Send(dict: Dictionary, useDictionary: bool, ds: seq<Delta>): Option<Value> {
    var ps := PreparedAll(dict, useDictionary, ds);
    if forall p | p in ps :: SendableDelta(p)
    then Some(Arr(seq(|ps|, i requires 0 <= i < |ps| => EncodeCompactDelta(ps[i]))))
    else None
  }

  /** The receiver always looks paths up. An array that is not compact holds deltas in their plain form. */
  function Receive(dict: Dictionary, v: Value): seq<Delta> {
    if IsCompactDeltaArray(v) then
      var ds := DecodeCompactDeltaArray(v);
      seq(|ds|, i requires 0 <= i < |ds| => TransformDelta(Decoder(dict), ds[i]))
    else []
  }
}
