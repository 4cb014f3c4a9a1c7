/**
 * JavaScript values as far as a delta carries them, and the text forms the codec compares.
 * A finite number is represented by the decimal text the language prints for it; strings are
 * well-formed (no unpaired surrogates).
 */
module JsonValue {
  import opened Common

  datatype Field = Field(key: string, val: Value)

  datatype Value =
    | Undefined
    | Null
    | NaN
    | PosInf
    | NegInf
    | Bool(b: bool)
    | Finite(text: string)
    | Str(s: string)
    | Arr(items: seq<Value>)
    | Obj(fields: seq<Field>)

  function HexDigit(n: nat): char
    requires n < 16
  {
    "0123456789abcdef"[n]
  }

  /** One character inside a JSON string literal. */
  function EscapeChar(c: char): string {
    if c == '"' then "\\\""
    else if c == '\\' then "\\\\"
    else if c == '\n' then "\\n"
    else if c == '\r' then "\\r"
    else if c == '\t' then "\\t"
    else if c == 8 as char then "\\b"
    else if c == 12 as char then "\\f"
    else if c < ' ' then "\\u00" + [HexDigit(c as int / 16), HexDigit(c as int % 16)]
    else [c]
  }

  /** The rest of a string literal, closing quote included. */
  function EscapeRest(s: string): string {
    if s == "" then "\"" else EscapeChar(s[0]) + EscapeRest(s[1..])
  }

  function Quote(s: string): string {
    "\"" + EscapeRest(s)
  }

  /**
   * `JSON.stringify` below the top level: a field whose value is undefined is left out, and
   * undefined array items and non-finite numbers print as `null`.
   */
  function Json(v: Value): string {
    match v
    case Undefined => "null"
    case Null => "null"
    case NaN => "null"
    case PosInf => "null"
    case NegInf => "null"
    case Bool(b) => if b then "true" else "false"
    case Finite(text) => text
    case Str(s) => Quote(s)
    case Arr(items) => "[" + Commas(ItemTexts(items), "]")
    case Obj(fields) => "{" + Commas(FieldTexts(fields), "}")
  }

  /** The parts with commas between them, and the closing bracket. */
  function Commas(parts: seq<string>, close: string): string {
    if parts == [] then close else parts[0] + Continued(parts[1..], close)
  }

  function Continued(parts: seq<string>, close: string): string {
    if parts == [] then close else "," + (parts[0] + Continued(parts[1..], close))
  }

  function ItemTexts(items: seq<Value>): seq<string> {
    if items == [] then [] else [Json(items[0])] + ItemTexts(items[1..])
  }

  function FieldTexts(fields: seq<Field>): seq<string> {
    if fields == [] then []
    else
      (if fields[0].val.Undefined? then [] else [Quote(fields[0].key) + (":" + Json(fields[0].val))])
      + FieldTexts(fields[1..])
  }

  /** The text by which two values count as the same. */
  function StableRepr(v: Value): string {
    match v
    case Undefined => "undefined"
    case NaN => "\0nan"
    case PosInf => "\0+inf"
    case NegInf => "\0-inf"
    case _ => Json(v)
  }

  // ------------------------------------------------------- what JSON preserves

  predicate IsNumChar(c: char) {
    '0' <= c <= '9' || c == '-' || c == '+' || c == '.' || c == 'e'
  }

  predicate IsNumText(t: string) {
    && t != "" && ('0' <= t[0] <= '9' || t[0] == '-')
    && forall i :: 0 <= i < |t| ==> IsNumChar(t[i])
  }

  /** Nothing inside the value is undefined or non-finite. */
  predicate Plain(v: Value) {
    match v
    case Undefined => false
    case NaN => false
    case PosInf => false
    case NegInf => false
    case Finite(text) => IsNumText(text)
    case Arr(items) => forall i :: 0 <= i < |items| ==> Plain(items[i])
    case Obj(fields) => forall i :: 0 <= i < |fields| ==> Plain(fields[i].val)
    case _ => true
  }

  /** Undefined and non-finite numbers are told apart at the top level only. */
  predicate Faithful(v: Value) {
    v.Undefined? || v.NaN? || v.PosInf? || v.NegInf? || Plain(v)
  }

  /** The text ends, or goes on with a character that cannot continue a value. */
  predicate Delimited(rest: string) {
    rest == "" || rest[0] == ',' || rest[0] == ']' || rest[0] == '}'
  }

  lemma HexUnique(c: nat, d: nat)
    requires c < 16 && d < 16 && HexDigit(c) == HexDigit(d)
    ensures c == d
  {
    var h := "0123456789abcdef";
    assert h[0] == '0' && h[1] == '1' && h[2] == '2' && h[3] == '3' && h[4] == '4' && h[5] == '5'
        && h[6] == '6' && h[7] == '7' && h[8] == '8' && h[9] == '9' && h[10] == 'a' && h[11] == 'b'
        && h[12] == 'c' && h[13] == 'd' && h[14] == 'e' && h[15] == 'f';
  }

  lemma EscapeCharShape(c: char)
    ensures EscapeChar(c) != "" && EscapeChar(c)[0] != '"'
    ensures EscapeChar(c)[0] == '\\' <==> |EscapeChar(c)| > 1
    ensures EscapeChar(c)[0] != '\\' ==> EscapeChar(c) == [c]
  {
  }

  lemma EscapeCharUnique(c: char, d: char, r: string, r': string)
    requires EscapeChar(c) + r == EscapeChar(d) + r'
    ensures c == d && r == r'
  {
    var x, y := EscapeChar(c), EscapeChar(d);
    EscapeCharShape(c);
    EscapeCharShape(d);
    assert x[0] == (x + r)[0] == (y + r')[0] == y[0];
    if x[0] == '\\' {
      assert x[1] == (x + r)[1] == (y + r')[1] == y[1];
      if x[1] == 'u' {
        assert x[4] == (x + r)[4] == (y + r')[4] == y[4];
        assert x[5] == (x + r)[5] == (y + r')[5] == y[5];
        HexUnique(c as int / 16, d as int / 16);
        HexUnique(c as int % 16, d as int % 16);
      }
    }
    assert |x| == |y|;
    assert r == (x + r)[|x|..] == (y + r')[|y|..] == r';
  }

  lemma Assoc(a: string, b: string, c: string)
    ensures (a + b) + c == a + (b + c)
  {
  }

  /** A common first character can be cancelled. */
  lemma CancelChar(c: char, r: string, r': string)
    requires [c] + r == [c] + r'
    ensures r == r'
  {
    assert r == ([c] + r)[1..] == ([c] + r')[1..] == r';
  }

  lemma {:induction false} EscapeUnique(s: string, t: string, r: string, r': string)
    requires EscapeRest(s) + r == EscapeRest(t) + r'
    ensures s == t && r == r'
  {
    if s != "" {
      Assoc(EscapeChar(s[0]), EscapeRest(s[1..]), r);
      EscapeCharShape(s[0]);
      assert (EscapeRest(s) + r)[0] == EscapeChar(s[0])[0];
    }
    if t != "" {
      Assoc(EscapeChar(t[0]), EscapeRest(t[1..]), r');
      EscapeCharShape(t[0]);
      assert (EscapeRest(t) + r')[0] == EscapeChar(t[0])[0];
    }
    if s == "" && t == "" {
      CancelChar('"', r, r');
    } else {
      assert s != "" && t != "";
      EscapeCharUnique(s[0], t[0], EscapeRest(s[1..]) + r, EscapeRest(t[1..]) + r');
      EscapeUnique(s[1..], t[1..], r, r');
      assert s == [s[0]] + s[1..] && t == [t[0]] + t[1..];
    }
  }

  lemma QuoteUnique(s: string, t: string, r: string, r': string)
    requires Quote(s) + r == Quote(t) + r'
    ensures s == t && r == r'
  {
    Assoc("\"", EscapeRest(s), r);
    Assoc("\"", EscapeRest(t), r');
    CancelChar('"', EscapeRest(s) + r, EscapeRest(t) + r');
    EscapeUnique(s, t, r, r');
  }

  /** A number's text ends where the first non-number character stands. */
  lemma NumEnd(a: string, r: string, x: string)
    requires IsNumText(a) && Delimited(r) && x == a + r
    ensures forall i :: 0 <= i < |a| ==> IsNumChar(x[i])
    ensures |a| < |x| ==> !IsNumChar(x[|a|])
    ensures a == x[..|a|] && r == x[|a|..]
  {
  }

  lemma NumUnique(a: string, b: string, r: string, r': string)
    requires IsNumText(a) && IsNumText(b) && Delimited(r) && Delimited(r') && a + r == b + r'
    ensures a == b && r == r'
  {
    NumEnd(a, r, a + r);
    NumEnd(b, r', a + r);
    assert |a| == |b|;
  }

  /** Which kind of plain value a text begins: the first character decides. */
  function Kind(c: char): nat {
    if c == 'n' then 0 else if c == 't' then 1 else if c == 'f' then 2
    else if c == '"' then 3 else if c == '[' then 4 else if c == '{' then 5 else 6
  }

  function KindOf(v: Value): nat {
    match v
    case Bool(b) => if b then 1 else 2
    case Finite(_) => 6
    case Str(_) => 3
    case Arr(_) => 4
    case Obj(_) => 5
    case _ => 0
  }

  lemma FirstChar(v: Value)
    requires Plain(v)
    ensures Json(v) != "" && Kind(Json(v)[0]) == KindOf(v)
    ensures Json(v)[0] != ']' && Json(v)[0] != '}' && Json(v)[0] != 'u' && Json(v)[0] != 0 as char
  {
  }

  lemma WordUnique(p: string, r: string, r': string)
    requires p + r == p + r'
    ensures r == r'
  {
    assert r == (p + r)[|p|..] == (p + r')[|p|..] == r';
  }

  lemma {:induction false} ArrUnique(xs: seq<Value>, ys: seq<Value>, r: string, r': string)
    requires Plain(Arr(xs)) && Plain(Arr(ys))
    requires Json(Arr(xs)) + r == Json(Arr(ys)) + r'
    ensures xs == ys && r == r'
    decreases xs, 3
  {
    var p, q := Commas(ItemTexts(xs), "]"), Commas(ItemTexts(ys), "]");
    Assoc("[", p, r);
    Assoc("[", q, r');
    CancelChar('[', p + r, q + r');
    ItemsUnique(xs, ys, r, r');
  }

  lemma {:induction false} ObjUnique(xs: seq<Field>, ys: seq<Field>, r: string, r': string)
    requires Plain(Obj(xs)) && Plain(Obj(ys))
    requires Json(Obj(xs)) + r == Json(Obj(ys)) + r'
    ensures xs == ys && r == r'
    decreases xs, 3
  {
    var p, q := Commas(FieldTexts(xs), "}"), Commas(FieldTexts(ys), "}");
    Assoc("{", p, r);
    Assoc("{", q, r');
    CancelChar('{', p + r, q + r');
    FieldsUnique(xs, ys, r, r');
  }

  lemma SameKind(v: Value, w: Value, r: string, r': string)
    requires Plain(v) && Plain(w) && Json(v) + r == Json(w) + r'
    ensures KindOf(v) == KindOf(w)
  {
    FirstChar(v);
    FirstChar(w);
    assert Json(v)[0] == (Json(v) + r)[0] == (Json(w) + r')[0] == Json(w)[0];
  }

  lemma {:induction false} JsonUnique(v: Value, w: Value, r: string, r': string)
    requires Plain(v) && Plain(w) && Delimited(r) && Delimited(r')
    requires Json(v) + r == Json(w) + r'
    ensures v == w && r == r'
    decreases v, 2
  {
    SameKind(v, w, r, r');
    match v
    case Null => WordUnique("null", r, r');
    case Bool(b) => WordUnique(Json(v), r, r');
    case Finite(text) => NumUnique(text, w.text, r, r');
    case Str(s) => QuoteUnique(s, w.s, r, r');
    case Arr(items) => ArrUnique(items, w.items, r, r');
    case Obj(fields) => ObjUnique(fields, w.fields, r, r');
  }

  /** What follows a list element is a comma or the bracket, so the element's text ends there. */
  lemma ContinuedShape(parts: seq<string>, close: string, r: string)
    requires close == "]" || close == "}"
    ensures Delimited(Continued(parts, close) + r)
    ensures (Continued(parts, close) + r)[0] == if parts == [] then close[0] else ','
    ensures parts == [] ==> Continued(parts, close) + r == close + r
    ensures parts != [] ==>
              Continued(parts, close) + r == "," + (parts[0] + (Continued(parts[1..], close) + r))
  {
    if parts != [] {
      Assoc(",", parts[0] + Continued(parts[1..], close), r);
      Assoc(parts[0], Continued(parts[1..], close), r);
    }
  }

  lemma {:induction false} ItemsUnique(xs: seq<Value>, ys: seq<Value>, r: string, r': string)
    requires forall i :: 0 <= i < |xs| ==> Plain(xs[i])
    requires forall i :: 0 <= i < |ys| ==> Plain(ys[i])
    requires Commas(ItemTexts(xs), "]") + r == Commas(ItemTexts(ys), "]") + r'
    ensures xs == ys && r == r'
    decreases xs, 2
  {
    if xs != [] {
      FirstChar(xs[0]);
      Assoc(Json(xs[0]), Continued(ItemTexts(xs)[1..], "]"), r);
    }
    if ys != [] {
      FirstChar(ys[0]);
      Assoc(Json(ys[0]), Continued(ItemTexts(ys)[1..], "]"), r');
    }
    if xs == [] && ys == [] {
      CancelChar(']', r, r');
    } else {
      assert (Commas(ItemTexts(xs), "]") + r)[0] == (Commas(ItemTexts(ys), "]") + r')[0];
      assert xs != [] && ys != [];
      ItemUnique(xs, ys, r, r');
    }
  }

  /** The same for lists of at least one item, without the opening bracket or comma. */
  lemma {:induction false} ItemUnique(xs: seq<Value>, ys: seq<Value>, r: string, r': string)
    requires xs != [] && ys != []
    requires forall i :: 0 <= i < |xs| ==> Plain(xs[i])
    requires forall i :: 0 <= i < |ys| ==> Plain(ys[i])
    requires Json(xs[0]) + (Continued(ItemTexts(xs[1..]), "]") + r)
          == Json(ys[0]) + (Continued(ItemTexts(ys[1..]), "]") + r')
    ensures xs == ys && r == r'
    decreases xs, 1
  {
    var p, q := ItemTexts(xs[1..]), ItemTexts(ys[1..]);
    ContinuedShape(p, "]", r);
    ContinuedShape(q, "]", r');
    JsonUnique(xs[0], ys[0], Continued(p, "]") + r, Continued(q, "]") + r');
    if p == [] {
      CancelChar(']', r, r');
    } else {
      CancelChar(',', p[0] + (Continued(p[1..], "]") + r), q[0] + (Continued(q[1..], "]") + r'));
      assert xs[1..][1..] == xs[2..];
      ItemUnique(xs[1..], ys[1..], r, r');
    }
    assert xs == [xs[0]] + xs[1..] && ys == [ys[0]] + ys[1..];
  }

  lemma {:induction false} FieldsUnique(xs: seq<Field>, ys: seq<Field>, r: string, r': string)
    requires forall i :: 0 <= i < |xs| ==> Plain(xs[i].val)
    requires forall i :: 0 <= i < |ys| ==> Plain(ys[i].val)
    requires Commas(FieldTexts(xs), "}") + r == Commas(FieldTexts(ys), "}") + r'
    ensures xs == ys && r == r'
    decreases xs, 2
  {
    if xs != [] {
      FieldTextsHead(xs);
      Assoc(FieldTexts(xs)[0], Continued(FieldTexts(xs)[1..], "}"), r);
    }
    if ys != [] {
      FieldTextsHead(ys);
      Assoc(FieldTexts(ys)[0], Continued(FieldTexts(ys)[1..], "}"), r');
    }
    if xs == [] && ys == [] {
      CancelChar('}', r, r');
    } else {
      assert (Commas(FieldTexts(xs), "}") + r)[0] == (Commas(FieldTexts(ys), "}") + r')[0];
      assert xs != [] && ys != [];
      FieldUnique(xs, ys, r, r');
    }
  }

  lemma FieldTextsHead(fields: seq<Field>)
    requires fields != [] && Plain(fields[0].val)
    ensures FieldTexts(fields) != []
    ensures FieldTexts(fields)[0] == Quote(fields[0].key) + (":" + Json(fields[0].val))
    ensures FieldTexts(fields)[1..] == FieldTexts(fields[1..])
    ensures FieldTexts(fields)[0][0] == '"'
  {
  }

  lemma {:induction false} FieldUnique(xs: seq<Field>, ys: seq<Field>, r: string, r': string)
    requires xs != [] && ys != []
    requires forall i :: 0 <= i < |xs| ==> Plain(xs[i].val)
    requires forall i :: 0 <= i < |ys| ==> Plain(ys[i].val)
    requires FieldTexts(xs) != [] && FieldTexts(ys) != []
    requires FieldTexts(xs)[0] + (Continued(FieldTexts(xs[1..]), "}") + r)
          == FieldTexts(ys)[0] + (Continued(FieldTexts(ys[1..]), "}") + r')
    ensures xs == ys && r == r'
    decreases xs, 1
  {
    var p, q := FieldTexts(xs[1..]), FieldTexts(ys[1..]);
    FieldTextsHead(xs);
    FieldTextsHead(ys);
    OneFieldUnique(xs[0], ys[0], Continued(p, "}") + r, Continued(q, "}") + r');
    ContinuedShape(p, "}", r);
    ContinuedShape(q, "}", r');
    JsonUnique(xs[0].val, ys[0].val, Continued(p, "}") + r, Continued(q, "}") + r');
    FieldTextsEmpty(xs[1..]);
    FieldTextsEmpty(ys[1..]);
    if p == [] {
      CancelChar('}', r, r');
    } else {
      FieldTextsHead(xs[1..]);
      FieldTextsHead(ys[1..]);
      CancelChar(',', p[0] + (Continued(p[1..], "}") + r), q[0] + (Continued(q[1..], "}") + r'));
      FieldUnique(xs[1..], ys[1..], r, r');
    }
    assert xs == [xs[0]] + xs[1..] && ys == [ys[0]] + ys[1..];
  }

  lemma FieldTextsEmpty(fields: seq<Field>)
    requires forall i :: 0 <= i < |fields| ==> Plain(fields[i].val)
    ensures FieldTexts(fields) == [] <==> fields == []
  {
    if fields != [] {
      FieldTextsHead(fields);
    }
  }

  lemma OneFieldUnique(x: Field, y: Field, a: string, b: string)
    requires (Quote(x.key) + (":" + Json(x.val))) + a == (Quote(y.key) + (":" + Json(y.val))) + b
    ensures x.key == y.key && Json(x.val) + a == Json(y.val) + b
  {
    Assoc(Quote(x.key), ":" + Json(x.val), a);
    Assoc(Quote(y.key), ":" + Json(y.val), b);
    QuoteUnique(x.key, y.key, (":" + Json(x.val)) + a, (":" + Json(y.val)) + b);
    Assoc(":", Json(x.val), a);
    Assoc(":", Json(y.val), b);
    CancelChar(':', Json(x.val) + a, Json(y.val) + b);
  }

  /** On values that JSON does not alter, the comparison text identifies the value. */
  lemma ReprIdentifiesValue(v: Value, w: Value)
    requires Faithful(v) && Faithful(w)
    ensures StableRepr(v) == StableRepr(w) <==> v == w
  {
    if StableRepr(v) == StableRepr(w) {
      if Plain(v) {
        FirstChar(v);
      }
      if Plain(w) {
        FirstChar(w);
      }
      if Plain(v) && Plain(w) {
        assert Json(v) + "" == Json(v) && Json(w) + "" == Json(w);
        JsonUnique(v, w, "", "");
      } else {
        assert StableRepr(v)[0] == StableRepr(w)[0];
        assert StableRepr(v)[1] == StableRepr(w)[1];
      }
    }
  }

  // ------------------------------------------------------- what JSON forgets

  /** As JavaScript has it: numbers print as numerals, and the keys of an object are distinct. */
  predicate WellFormed(v: Value) {
    match v
    case Finite(text) => IsNumText(text)
    case Arr(items) => forall i :: 0 <= i < |items| ==> WellFormed(items[i])
    case Obj(fields) =>
      && (forall i :: 0 <= i < |fields| ==> WellFormed(fields[i].val))
      && (forall i, j :: 0 <= i < j < |fields| ==> fields[i].key != fields[j].key)
    case _ => true
  }

  /** What is left of a value inside another one. */
  function Inner(v: Value): Value {
    match v
    case Undefined => Null
    case NaN => Null
    case PosInf => Null
    case NegInf => Null
    case Arr(items) => Arr(InnerItems(items))
    case Obj(fields) => Obj(InnerFields(fields))
    case _ => v
  }

  function InnerItems(items: seq<Value>): seq<Value> {
    if items == [] then [] else [Inner(items[0])] + InnerItems(items[1..])
  }

  function InnerFields(fields: seq<Field>): seq<Field> {
    if fields == [] then []
    else
      (if fields[0].val.Undefined? then [] else [Field(fields[0].key, Inner(fields[0].val))]) + InnerFields(fields[1..])
  }

  /** What is left of a value: at the top level the exceptional ones are told apart. */
  function Norm(v: Value): Value {
    if v.Undefined? || v.NaN? || v.PosInf? || v.NegInf? then v else Inner(v)
  }

  lemma {:induction false} InnerIsPlain(v: Value)
    requires WellFormed(v)
    ensures Plain(Inner(v)) && Json(Inner(v)) == Json(v)
    decreases v, 1
  {
    match v
    case Arr(items) => InnerItemsPlain(items);
    case Obj(fields) => InnerFieldsPlain(fields);
    case _ =>
  }

  lemma {:induction false} InnerItemsPlain(items: seq<Value>)
    requires forall i :: 0 <= i < |items| ==> WellFormed(items[i])
    ensures forall i :: 0 <= i < |InnerItems(items)| ==> Plain(InnerItems(items)[i])
    ensures ItemTexts(InnerItems(items)) == ItemTexts(items)
    decreases items, 0
  {
    if items != [] {
      InnerIsPlain(items[0]);
      InnerItemsPlain(items[1..]);
      assert InnerItems(items)[1..] == InnerItems(items[1..]);
    }
  }

  lemma {:induction false} InnerFieldsPlain(fields: seq<Field>)
    requires forall i :: 0 <= i < |fields| ==> WellFormed(fields[i].val)
    ensures forall i :: 0 <= i < |InnerFields(fields)| ==> Plain(InnerFields(fields)[i].val)
    ensures FieldTexts(InnerFields(fields)) == FieldTexts(fields)
    decreases fields, 0
  {
    if fields != [] {
      InnerIsPlain(fields[0].val);
      InnerFieldsPlain(fields[1..]);
      if fields[0].val.Undefined? {
        assert InnerFields(fields) == InnerFields(fields[1..]);
      } else {
        assert InnerFields(fields)[1..] == InnerFields(fields[1..]);
      }
    }
  }

  lemma NormFacts(v: Value)
    requires WellFormed(v)
    ensures Faithful(Norm(v)) && StableRepr(Norm(v)) == StableRepr(v)
  {
    InnerIsPlain(v);
  }

  /** Two values print alike exactly if the same is left of them. */
  lemma ReprsAgreeExactly(v: Value, w: Value)
    requires WellFormed(v) && WellFormed(w)
    ensures StableRepr(v) == StableRepr(w) <==> Norm(v) == Norm(w)
  {
    NormFacts(v);
    NormFacts(w);
    ReprIdentifiesValue(Norm(v), Norm(w));
  }

  // -------------------------------------------------------------- look-alikes

  /** Inside a value, what no other value looks like: no null, nothing exceptional, no object. */
  predicate InnerAlone(v: Value) {
    v.Bool? || v.Finite? || v.Str? || (v.Arr? && forall i :: 0 <= i < |v.items| ==> InnerAlone(v.items[i]))
  }

  predicate Alone(v: Value) {
    v.Undefined? || v.NaN? || v.PosInf? || v.NegInf? || v.Null? || InnerAlone(v)
  }

  lemma {:induction false} InnerAloneIsUnique(v: Value, w: Value)
    requires InnerAlone(v) && Inner(w) == Inner(v)
    ensures w == v
    decreases v
  {
    if v.Arr? {
      InnerItemsLength(v.items);
      InnerItemsLength(w.items);
      forall i | 0 <= i < |v.items|
        ensures w.items[i] == v.items[i]
      {
        InnerItemsAt(v.items, i);
        InnerItemsAt(w.items, i);
        InnerAloneIsUnique(v.items[i], w.items[i]);
      }
    }
  }

  lemma {:induction false} InnerItemsLength(items: seq<Value>)
    ensures |InnerItems(items)| == |items|
  {
    if items != [] {
      InnerItemsLength(items[1..]);
    }
  }

  lemma {:induction false} InnerItemsAt(items: seq<Value>, i: nat)
    requires i < |items| == |InnerItems(items)|
    ensures InnerItems(items)[i] == Inner(items[i])
  {
    if i > 0 {
      InnerItemsLength(items[1..]);
      InnerItemsAt(items[1..], i - 1);
    }
  }

  /** A key longer than every key of an object. */
  function FreshKey(fields: seq<Field>): (k: string)
    ensures forall i :: 0 <= i < |fields| ==> |fields[i].key| < |k|
  {
    if fields == [] then "x"
    else
      var k := FreshKey(fields[1..]);
      k + fields[0].key
  }

  /** A different value that looks the same inside another one. */
  function Twin(v: Value): Value
    requires !InnerAlone(v)
  {
    match v
    case Null => NaN
    case Obj(fields) => Obj(fields + [Field(FreshKey(fields), Undefined)])
    case Arr(items) => Arr(TwinItems(items))
    case _ => Null
  }

  function TwinItems(items: seq<Value>): seq<Value>
    requires exists i :: 0 <= i < |items| && !InnerAlone(items[i])
  {
    if !InnerAlone(items[0]) then [Twin(items[0])] + items[1..]
    else
      assert exists i :: 0 <= i < |items[1..]| && !InnerAlone(items[1..][i]) by {
        var i :| 0 <= i < |items| && !InnerAlone(items[i]);
        assert items[1..][i - 1] == items[i];
      }
      [items[0]] + TwinItems(items[1..])
  }

  lemma {:induction false} TwinLooksAlike(v: Value)
    requires WellFormed(v) && !InnerAlone(v)
    ensures WellFormed(Twin(v)) && Twin(v) != v && Inner(Twin(v)) == Inner(v)
    decreases v, 1
  {
    match v
    case Obj(fields) => UndefinedFieldIsForgotten(fields, FreshKey(fields));
    case Arr(items) => TwinItemsLookAlike(items);
    case _ =>
  }

  lemma {:induction false} UndefinedFieldIsForgotten(fields: seq<Field>, k: string)
    ensures InnerFields(fields + [Field(k, Undefined)]) == InnerFields(fields)
  {
    var more := fields + [Field(k, Undefined)];
    if fields == [] {
      assert more[1..] == [];
    } else {
      assert more[1..] == fields[1..] + [Field(k, Undefined)];
      UndefinedFieldIsForgotten(fields[1..], k);
    }
  }

  lemma {:induction false} TwinItemsLookAlike(items: seq<Value>)
    requires exists i :: 0 <= i < |items| && !InnerAlone(items[i])
    requires forall i :: 0 <= i < |items| ==> WellFormed(items[i])
    ensures TwinItems(items) != items && InnerItems(TwinItems(items)) == InnerItems(items)
    ensures forall i :: 0 <= i < |TwinItems(items)| ==> WellFormed(TwinItems(items)[i])
    decreases items, 0
  {
    var twins := TwinItems(items);
    if !InnerAlone(items[0]) {
      TwinLooksAlike(items[0]);
      assert twins[1..] == items[1..] && twins[0] != items[0];
    } else {
      var i :| 0 <= i < |items| && !InnerAlone(items[i]);
      assert items[1..][i - 1] == items[i];
      TwinItemsLookAlike(items[1..]);
      assert twins[1..] == TwinItems(items[1..]);
    }
  }

  /**
   * No other value prints like `v` exactly if `v` is one of the exceptional values, or holds no object and no
   * null, undefined or non-finite item inside.
   */
  lemma NoLookAlikeExactly(v: Value)
    requires WellFormed(v)
    ensures (forall w | WellFormed(w) && StableRepr(w) == StableRepr(v) :: w == v) <==> Alone(v)
  {
    if Alone(v) {
      forall w | WellFormed(w) && StableRepr(w) == StableRepr(v)
        ensures w == v
      {
        ReprsAgreeExactly(v, w);
        if InnerAlone(v) {
          InnerAloneIsUnique(v, w);
        }
      }
    } else {
      TwinLooksAlike(v);
      ReprsAgreeExactly(v, Twin(v));
    }
  }

  /** Inside an object they are not told apart, although the comparison is documented to do so. */
  lemma NestedNaNLooksLikeNull()
    ensures var a := Obj([Field("x", NaN)]);
            var b := Obj([Field("x", Null)]);
            a != b && StableRepr(a) == StableRepr(b)
  {
    assert FieldTexts([Field("x", NaN)]) == [Quote("x") + (":" + "null")];
    assert FieldTexts([Field("x", Null)]) == [Quote("x") + (":" + "null")];
  }
}
