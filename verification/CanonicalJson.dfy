/**
  Canonical JSON: `canonicalize` sorts object keys and turns big integers into strings,
  `stableStringify` prints the result.
*/
module CanonicalJson {
  import opened Bytes
  import opened JsonText

  /** A JavaScript value. `plain` says whether an object's prototype is Object.prototype or
      null; `Bad` is undefined, a function, a symbol or a non-finite number. */
  datatype Json =
    | Null
    | Bool(b: bool)
    | Num(n: int)
    | BigInt(n: int)
    | Str(s: Text)
    | Arr(items: seq<Json>)
    | Obj(entries: seq<Entry>, plain: bool)
    | Bad

  datatype Entry = Entry(key: Text, value: Json)

  /** "__proto__": assigning this key on an object literal sets its prototype. */
  const PROTO: Text := [95, 95, 112, 114, 111, 116, 111, 95, 95]

  // ---------------------------------------------------------------------
  // The order in which an object lists its keys
  // ---------------------------------------------------------------------

  predicate LexLess(a: Text, b: Text) {
    if b == [] then false
    else if a == [] then true
    else a[0] < b[0] || (a[0] == b[0] && LexLess(a[1..], b[1..]))
  }

  /** A canonical array index; such keys come first, in numeric order. */
  predicate IsIndex(k: Text) {
    && k != [] && (forall i :: 0 <= i < |k| ==> IsDigit(k[i]))
    && (k[0] == 48 ==> |k| == 1) && DigitValue(k) < 0xFFFF_FFFF
  }

  /** Sorted insertion order, except that index keys are listed first; without leading zeros
      the shorter index is the smaller one, and equal lengths compare digit by digit. */
  predicate Before(a: Text, b: Text) {
    if IsIndex(a) != IsIndex(b) then IsIndex(a)
    else if IsIndex(a) && |a| != |b| then |a| < |b|
    else LexLess(a, b)
  }

  lemma {:induction false} LexTotal(a: Text, b: Text)
    ensures !LexLess(a, a)
    ensures LexLess(a, b) || LexLess(b, a) || a == b
    ensures !(LexLess(a, b) && LexLess(b, a))
    decreases |a| + |b|
  {
    if a != [] && b != [] {
      LexTotal(a[1..], b[1..]);
    } else if a != [] {
      LexTotal(a[1..], []);
    }
  }

  lemma {:induction false} LexTransitive(a: Text, b: Text, c: Text)
    requires LexLess(a, b) && LexLess(b, c)
    ensures LexLess(a, c)
    decreases |a|
  {
    if a != [] && a[0] == b[0] == c[0] {
      LexTransitive(a[1..], b[1..], c[1..]);
    }
  }

  lemma BeforeTotal(a: Text, b: Text)
    ensures !Before(a, a)
    ensures Before(a, b) || Before(b, a) || a == b
    ensures !(Before(a, b) && Before(b, a))
  {
    LexTotal(a, b);
    LexTotal(b, a);
  }

  lemma BeforeTransitive(a: Text, b: Text, c: Text)
    requires Before(a, b) && Before(b, c)
    ensures Before(a, c)
  {
    if LexLess(a, b) && LexLess(b, c) {
      LexTransitive(a, b, c);
    }
  }

  // ---------------------------------------------------------------------
  // Objects
  // ---------------------------------------------------------------------

  predicate Has(es: seq<Entry>, k: Text) {
    exists i :: 0 <= i < |es| && es[i].key == k
  }

  predicate Distinct(es: seq<Entry>) {
    forall i, j :: 0 <= i < j < |es| ==> es[i].key != es[j].key
  }

  predicate Sorted(es: seq<Entry>) {
    forall i, j :: 0 <= i < j < |es| ==> Before(es[i].key, es[j].key)
  }

  function Insert(e: Entry, es: seq<Entry>): seq<Entry> {
    if es == [] || Before(e.key, es[0].key) then [e] + es else [es[0]] + Insert(e, es[1..])
  }

  function Sort(es: seq<Entry>): seq<Entry> {
    if es == [] then [] else Insert(es[0], Sort(es[1..]))
  }

  function WithoutProto(es: seq<Entry>): seq<Entry> {
    if es == [] then []
    else (if es[0].key == PROTO then [] else [es[0]]) + WithoutProto(es[1..])
  }

  /** Assigning an object or array to "__proto__" replaces the prototype. */
  predicate SetsPrototype(es: seq<Entry>) {
    exists i :: 0 <= i < |es| && es[i].key == PROTO && (es[i].value.Arr? || es[i].value.Obj?)
  }

  // ---------------------------------------------------------------------
  // canonicalize and stableStringify
  // ---------------------------------------------------------------------

  /** `canonicalize`; None where it throws. */
  function Canonicalize(j: Json): Option<Json>
    decreases j
  {
    match j
    case BigInt(n) => Some(Str(Decimal(n)))
    case Arr(items) =>
      var all := CanonicalizeAll(items);
      if all.None? then None else Some(Arr(all.value))
    case Obj(entries, plain) =>
      var all := CanonicalizeEntries(entries);
      if !plain || all.None? then None
      else Some(Obj(Sort(WithoutProto(all.value)), !SetsPrototype(all.value)))
    case Bad => None
    case _ => Some(j)
  }

  function CanonicalizeAll(items: seq<Json>): (r: Option<seq<Json>>)
    ensures r.Some? ==> |r.value| == |items|
    ensures r.Some? ==> forall i :: 0 <= i < |items| ==> Canonicalize(items[i]) == Some(r.value[i])
    ensures r.None? ==> exists i :: 0 <= i < |items| && Canonicalize(items[i]) == None
    decreases items
  {
    if items == [] then Some([])
    else
      var first, rest := Canonicalize(items[0]), CanonicalizeAll(items[1..]);
      if first.None? || rest.None? then None else Some([first.value] + rest.value)
  }

  function CanonicalizeEntries(es: seq<Entry>): (r: Option<seq<Entry>>)
    ensures r.Some? ==> |r.value| == |es|
    ensures r.Some? ==> forall i :: 0 <= i < |es| ==>
                          r.value[i].key == es[i].key && Canonicalize(es[i].value) == Some(r.value[i].value)
    ensures r.None? ==> exists i :: 0 <= i < |es| && Canonicalize(es[i].value) == None
    decreases es
  {
    if es == [] then Some([])
    else
      var first, rest := Canonicalize(es[0].value), CanonicalizeEntries(es[1..]);
      if first.None? || rest.None? then None else Some([Entry(es[0].key, first.value)] + rest.value)
  }

  const OPEN_ARRAY: Unit := 0x5B
  const CLOSE_ARRAY: Unit := 0x5D
  const OPEN_OBJECT: Unit := 0x7B
  const CLOSE_OBJECT: Unit := 0x7D
  const COMMA: Unit := 0x2C
  const COLON: Unit := 0x3A

  /** `JSON.stringify` of a canonical value. */
  function Print(j: Json): Text
    decreases j
  {
    match j
    case Null => [110, 117, 108, 108]
    case Bool(b) => if b then [116, 114, 117, 101] else [102, 97, 108, 115, 101]
    case Num(n) => Decimal(n)
    case Str(s) => Quoted(s)
    case Arr(items) => [OPEN_ARRAY] + PrintItems(items, true)
    case Obj(es, _) => [OPEN_OBJECT] + PrintEntries(es, true)
    case BigInt(_) => []
    case Bad => []
  }

  /** The items from here on, comma-separated, and the closing bracket. */
  function PrintItems(items: seq<Json>, first: bool): Text
    decreases items
  {
    if items == [] then [CLOSE_ARRAY]
    else (if first then [] else [COMMA]) + Print(items[0]) + PrintItems(items[1..], false)
  }

  function PrintEntries(es: seq<Entry>, first: bool): Text
    decreases es
  {
    if es == [] then [CLOSE_OBJECT]
    else (if first then [] else [COMMA]) + Quoted(es[0].key) + [COLON] + Print(es[0].value)
         + PrintEntries(es[1..], false)
  }

  function StableStringify(j: Json): Option<Text> {
    var c := Canonicalize(j);
    if c.None? then None else Some(Print(c.value))
  }
}
