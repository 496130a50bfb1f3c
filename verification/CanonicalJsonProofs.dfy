/**
  Two values have the same canonical text exactly when they are the same tree up to key
  order, and canonicalizing twice is canonicalizing once; with the exact exceptions.
*/
module CanonicalJsonProofs {
  import opened Bytes
  import opened JsonText
  import opened CanonicalJson

  // ---------------------------------------------------------------------
  // Printing is injective
  // ---------------------------------------------------------------------

  /** Equal as data, prototypes aside. */
  predicate Alike(c: Json, d: Json)
    decreases c
  {
    match c
    case Null => d.Null?
    case Bool(b) => d == c
    case Num(n) => d == c
    case BigInt(n) => d == c
    case Str(s) => d == c
    case Bad => d == c
    case Arr(xs) => d.Arr? && |d.items| == |xs| && forall i :: 0 <= i < |xs| ==> Alike(xs[i], d.items[i])
    case Obj(es, _) =>
      d.Obj? && |d.entries| == |es| &&
      forall i :: 0 <= i < |es| ==> es[i].key == d.entries[i].key && Alike(es[i].value, d.entries[i].value)
  }

  predicate Printable(j: Json)
    decreases j
  {
    match j
    case BigInt(_) => false
    case Bad => false
    case Arr(xs) => forall i :: 0 <= i < |xs| ==> Printable(xs[i])
    case Obj(es, _) => forall i :: 0 <= i < |es| ==> Printable(es[i].value)
    case _ => true
  }

  /** What may follow a value inside a JSON text. */
  predicate Delimited(x: Text) {
    x == [] || x[0] == COMMA || x[0] == CLOSE_ARRAY || x[0] == CLOSE_OBJECT
  }

  lemma PrintFirst(j: Json)
    requires Printable(j)
    ensures |Print(j)| > 0
    ensures var u := Print(j)[0];
            match j
            case Null => u == 110
            case Bool(b) => u == if b then 116 else 102
            case Num(_) => u == MINUS || IsDigit(u)
            case Str(_) => u == QUOTE
            case Arr(_) => u == OPEN_ARRAY
            case Obj(_, _) => u == OPEN_OBJECT
            case _ => true
  {
    if j.Num? {
      DecimalFirst(j.n);
    }
  }

  lemma SameConstructor(c: Json, d: Json, x: Text, y: Text)
    requires Printable(c) && Printable(d) && Print(c) + x == Print(d) + y
    ensures c.Null? == d.Null? && c.Num? == d.Num? && c.Str? == d.Str? && c.Arr? == d.Arr? && c.Obj? == d.Obj?
    ensures c.Bool? == d.Bool? && (c.Bool? ==> c == d)
  {
    hide Print;
    PrintFirst(c);
    PrintFirst(d);
    assert (Print(c) + x)[0] == Print(c)[0] && (Print(d) + y)[0] == Print(d)[0];
  }

  /** Where a printed value ends, and what it is, can be read off the text. */
  lemma {:induction false} PrintPrefix(c: Json, d: Json, x: Text, y: Text)
    requires Printable(c) && Printable(d) && Delimited(x) && Delimited(y)
    requires Print(c) + x == Print(d) + y
    ensures Alike(c, d) && x == y
    decreases c, 1
  {
    hide Decimal, Quoted;
    SameConstructor(c, d, x, y);
    match c
    case Null => Drop(Print(c), x, y);
    case Bool(_) => Drop(Print(c), x, y);
    case Num(n) => DecimalPrefix(n, d.n, x, y);
    case Str(s) => QuotedPrefix(s, d.s, x, y);
    case Arr(xs) =>
      Shift(OPEN_ARRAY, PrintItems(xs, true), x, PrintItems(d.items, true), y);
      ItemsPrefix(xs, d.items, true, x, y);
    case Obj(es, _) =>
      Shift(OPEN_OBJECT, PrintEntries(es, true), x, PrintEntries(d.entries, true), y);
      EntriesPrefix(es, d.entries, true, x, y);
  }

  lemma Shift(u: Unit, s: Text, x: Text, t: Text, y: Text)
    requires [u] + s + x == [u] + t + y
    ensures s + x == t + y
  {
    assert ([u] + s + x)[1..] == s + x && ([u] + t + y)[1..] == t + y;
  }

  lemma Drop(t: Text, x: Text, y: Text)
    requires t + x == t + y
    ensures x == y
  {
    assert (t + x)[|t|..] == x && (t + y)[|t|..] == y;
  }

  /** The first unit of the rest of an array tells whether there is another item. */
  lemma ItemsFirst(cs: seq<Json>, first: bool, x: Text)
    requires forall i :: 0 <= i < |cs| ==> Printable(cs[i])
    ensures var t := PrintItems(cs, first) + x; |t| > 0 && (t[0] == CLOSE_ARRAY <==> cs == [])
  {
    hide Print;
    if cs != [] {
      PrintFirst(cs[0]);
      var t := PrintItems(cs, first) + x;
      assert t[0] == if first then Print(cs[0])[0] else COMMA;
    }
  }

  lemma ItemsRest(cs: seq<Json>, first: bool, x: Text)
    requires cs != []
    ensures PrintItems(cs, first) + x ==
            (if first then [] else [COMMA]) + (Print(cs[0]) + (PrintItems(cs[1..], false) + x))
    ensures |cs[1..]| == 0 ==> PrintItems(cs[1..], false) == [CLOSE_ARRAY]
    ensures Delimited(PrintItems(cs[1..], false) + x)
  {
    hide Print;
  }

  lemma {:induction false} ItemsPrefix(cs: seq<Json>, ds: seq<Json>, first: bool, x: Text, y: Text)
    requires (forall i :: 0 <= i < |cs| ==> Printable(cs[i])) && (forall i :: 0 <= i < |ds| ==> Printable(ds[i]))
    requires PrintItems(cs, first) + x == PrintItems(ds, first) + y
    ensures |cs| == |ds| && (forall i :: 0 <= i < |cs| ==> Alike(cs[i], ds[i])) && x == y
    decreases cs, 0
  {
    hide Print, Alike, Printable;
    ItemsFirst(cs, first, x);
    ItemsFirst(ds, first, y);
    if cs == [] {
      Drop([CLOSE_ARRAY], x, y);
    } else {
      ItemsRest(cs, first, x);
      ItemsRest(ds, first, y);
      var x', y' := PrintItems(cs[1..], false) + x, PrintItems(ds[1..], false) + y;
      Drop(if first then [] else [COMMA], Print(cs[0]) + x', Print(ds[0]) + y');
      PrintPrefix(cs[0], ds[0], x', y');
      ItemsPrefix(cs[1..], ds[1..], false, x, y);
    }
  }

  lemma EntriesFirst(es: seq<Entry>, first: bool, x: Text)
    ensures var t := PrintEntries(es, first) + x; |t| > 0 && (t[0] == CLOSE_OBJECT <==> es == [])
  {
    hide Print, Escape;
    if es != [] {
      var t := PrintEntries(es, first) + x;
      assert t[0] == if first then QUOTE else COMMA;
    }
  }

  lemma EntriesRest(es: seq<Entry>, first: bool, x: Text)
    requires es != []
    ensures PrintEntries(es, first) + x ==
            (if first then [] else [COMMA]) +
            (Quoted(es[0].key) + ([COLON] + (Print(es[0].value) + (PrintEntries(es[1..], false) + x))))
    ensures Delimited(PrintEntries(es[1..], false) + x)
  {
    hide Print, Quoted;
    EntriesDelimited(es[1..], x);
    Regroup(if first then [] else [COMMA], Quoted(es[0].key), [COLON], Print(es[0].value),
            PrintEntries(es[1..], false), x);
  }

  lemma EntriesDelimited(es: seq<Entry>, x: Text)
    ensures Delimited(PrintEntries(es, false) + x)
  {
    hide Print, Quoted;
    assert (PrintEntries(es, false) + x)[0] == PrintEntries(es, false)[0];
  }

  lemma Regroup(a: Text, b: Text, c: Text, d: Text, e: Text, x: Text)
    ensures a + b + c + d + e + x == a + (b + (c + (d + (e + x))))
  {
    Associate(a + b + c + d, e, x);
    Associate(a + b + c, d, e + x);
    Associate(a + b, c, d + (e + x));
    Associate(a, b, c + (d + (e + x)));
  }

  lemma Associate(a: Text, b: Text, c: Text)
    ensures a + b + c == a + (b + c)
  {}

  lemma {:induction false} EntriesPrefix(es: seq<Entry>, fs: seq<Entry>, first: bool, x: Text, y: Text)
    requires forall i :: 0 <= i < |es| ==> Printable(es[i].value)
    requires forall i :: 0 <= i < |fs| ==> Printable(fs[i].value)
    requires PrintEntries(es, first) + x == PrintEntries(fs, first) + y
    ensures |es| == |fs| && x == y
    ensures forall i :: 0 <= i < |es| ==> es[i].key == fs[i].key && Alike(es[i].value, fs[i].value)
    decreases es, 0
  {
    hide Print, Alike, Printable, Quoted;
    EntriesFirst(es, first, x);
    EntriesFirst(fs, first, y);
    if es == [] {
      Drop([CLOSE_OBJECT], x, y);
    } else {
      EntriesRest(es, first, x);
      EntriesRest(fs, first, y);
      var x', y' := PrintEntries(es[1..], false) + x, PrintEntries(fs[1..], false) + y;
      var v, w := [COLON] + (Print(es[0].value) + x'), [COLON] + (Print(fs[0].value) + y');
      Drop(if first then [] else [COMMA], Quoted(es[0].key) + v, Quoted(fs[0].key) + w);
      QuotedPrefix(es[0].key, fs[0].key, v, w);
      Drop([COLON], Print(es[0].value) + x', Print(fs[0].value) + y');
      PrintPrefix(es[0].value, fs[0].value, x', y');
      EntriesPrefix(es[1..], fs[1..], false, x, y);
    }
  }

  lemma {:induction false} AlikePrint(c: Json, d: Json)
    requires Alike(c, d)
    ensures Print(c) == Print(d)
    decreases c, 1
  {
    match c
    case Arr(xs) => AlikeItems(xs, d.items, true);
    case Obj(es, _) => AlikeEntries(es, d.entries, true);
    case _ =>
  }

  lemma {:induction false} AlikeItems(cs: seq<Json>, ds: seq<Json>, first: bool)
    requires |cs| == |ds| && forall i :: 0 <= i < |cs| ==> Alike(cs[i], ds[i])
    ensures PrintItems(cs, first) == PrintItems(ds, first)
    decreases cs, 0
  {
    if cs != [] {
      AlikePrint(cs[0], ds[0]);
      AlikeItems(cs[1..], ds[1..], false);
    }
  }

  lemma {:induction false} AlikeEntries(es: seq<Entry>, fs: seq<Entry>, first: bool)
    requires |es| == |fs|
    requires forall i :: 0 <= i < |es| ==> es[i].key == fs[i].key && Alike(es[i].value, fs[i].value)
    ensures PrintEntries(es, first) == PrintEntries(fs, first)
    decreases es, 0
  {
    if es != [] {
      AlikePrint(es[0].value, fs[0].value);
      AlikeEntries(es[1..], fs[1..], false);
    }
  }

  // ---------------------------------------------------------------------
  // Sorting
  // ---------------------------------------------------------------------

  lemma {:induction false} InsertMembers(e: Entry, es: seq<Entry>, f: Entry)
    ensures f in Insert(e, es) <==> f == e || f in es
    decreases es
  {
    if es != [] && !Before(e.key, es[0].key) {
      InsertMembers(e, es[1..], f);
    }
  }

  lemma {:induction false} SortMembers(es: seq<Entry>, f: Entry)
    ensures f in Sort(es) <==> f in es
    decreases es
  {
    if es != [] {
      SortMembers(es[1..], f);
      InsertMembers(es[0], Sort(es[1..]), f);
    }
  }

  lemma {:induction false} InsertSorted(e: Entry, es: seq<Entry>)
    requires Sorted(es) && forall i :: 0 <= i < |es| ==> es[i].key != e.key
    ensures Sorted(Insert(e, es))
    decreases es
  {
    hide Before;
    var r := Insert(e, es);
    if es == [] {
    } else if Before(e.key, es[0].key) {
      forall i, j | 0 <= i < j < |r| ensures Before(r[i].key, r[j].key) {
        if i == 0 && j > 1 {
          BeforeTransitive(e.key, es[0].key, es[j - 1].key);
        }
      }
    } else {
      BeforeTotal(e.key, es[0].key);
      var rest := Insert(e, es[1..]);
      InsertSorted(e, es[1..]);
      forall i, j | 0 <= i < j < |r| ensures Before(r[i].key, r[j].key) {
        if i == 0 {
          InsertMembers(e, es[1..], r[j]);
          assert r[j] == rest[j - 1];
          assert r[j] in rest;
        } else {
          assert r[i] == rest[i - 1] && r[j] == rest[j - 1];
        }
      }
    }
  }

  lemma {:induction false} SortSorted(es: seq<Entry>)
    requires Distinct(es)
    ensures Sorted(Sort(es))
    decreases es
  {
    hide Before;
    if es != [] {
      SortSorted(es[1..]);
      var s := Sort(es[1..]);
      forall i | 0 <= i < |s| ensures s[i].key != es[0].key {
        assert s[i] in s;
        SortMembers(es[1..], s[i]);
      }
      InsertSorted(es[0], s);
    }
  }

  lemma {:induction false} WithoutProtoMembers(es: seq<Entry>, f: Entry)
    ensures f in WithoutProto(es) <==> f in es && f.key != PROTO
    decreases es
  {
    if es != [] {
      WithoutProtoMembers(es[1..], f);
    }
  }

  lemma {:induction false} WithoutProtoDistinct(es: seq<Entry>)
    requires Distinct(es)
    ensures Distinct(WithoutProto(es))
    decreases es
  {
    if es != [] {
      WithoutProtoDistinct(es[1..]);
      var w := WithoutProto(es[1..]);
      forall i | 0 <= i < |w| ensures w[i].key != es[0].key {
        assert w[i] in w;
        WithoutProtoMembers(es[1..], w[i]);
      }
    }
  }

  /** The entries of a canonical object: sorted, and exactly the given ones without "__proto__". */
  lemma CanonicalEntries(es: seq<Entry>)
    requires Distinct(es)
    ensures Sorted(Sort(WithoutProto(es)))
    ensures forall f :: f in Sort(WithoutProto(es)) <==> f in es && f.key != PROTO
  {
    WithoutProtoDistinct(es);
    SortSorted(WithoutProto(es));
    forall f ensures f in Sort(WithoutProto(es)) <==> f in es && f.key != PROTO {
      SortMembers(WithoutProto(es), f);
      WithoutProtoMembers(es, f);
    }
  }

  /** A key set has one sorted listing. */
  lemma {:induction false} SortedKeysUnique(es: seq<Entry>, fs: seq<Entry>, n: nat)
    requires Sorted(es) && Sorted(fs) && n <= |es|
    requires forall i :: 0 <= i < |es| ==> Has(fs, es[i].key)
    requires forall i :: 0 <= i < |fs| ==> Has(es, fs[i].key)
    ensures n <= |fs| && forall i :: 0 <= i < n ==> es[i].key == fs[i].key
    decreases n
  {
    hide Before, Has, Sorted;
    if n > 0 {
      SortedKeysUnique(es, fs, n - 1);
      var k := es[n - 1].key;
      var j := Find(fs, k);
      if j < n - 1 {
        Apart(es, j, n - 1);
        assert false;
      }
      var l := fs[n - 1].key;
      var i := Find(es, l);
      if i < n - 1 {
        Apart(fs, i, n - 1);
        assert false;
      }
      if j > n - 1 && i > n - 1 {
        Apart(fs, n - 1, j);
        Apart(es, n - 1, i);
        BeforeTotal(k, l);
        assert false;
      }
    }
  }

  lemma Find(es: seq<Entry>, k: Text) returns (i: nat)
    requires Has(es, k)
    ensures i < |es| && es[i].key == k
  {
    i :| 0 <= i < |es| && es[i].key == k;
  }

  lemma Apart(es: seq<Entry>, i: nat, j: nat)
    requires Sorted(es) && i < j < |es|
    ensures Before(es[i].key, es[j].key) && es[i].key != es[j].key
  {
    BeforeTotal(es[i].key, es[j].key);
  }

  // ---------------------------------------------------------------------
  // The same tree, up to key order
  // ---------------------------------------------------------------------

  /** An object lists no key twice. */
  predicate WellFormed(j: Json)
    decreases j
  {
    match j
    case Arr(xs) => forall i :: 0 <= i < |xs| ==> WellFormed(xs[i])
    case Obj(es, _) => Distinct(es) && forall i :: 0 <= i < |es| ==> WellFormed(es[i].value)
    case _ => true
  }

  function TextOf(j: Json): Option<Text> {
    match j
    case Str(s) => Some(s)
    case BigInt(n) => Some(Decimal(n))
    case _ => None
  }

  /** Some entry of `es` has this key and the same value. */
  predicate Matches(e: Entry, es: seq<Entry>)
    decreases e, 0
  {
    exists j :: 0 <= j < |es| && es[j].key == e.key && Same(e.value, es[j].value)
  }

  /** The same tree: objects as unordered key sets, a big integer as its decimal string, and
      "__proto__" entries not counted. */
  predicate Same(a: Json, b: Json)
    decreases a, 1
  {
    match a
    case Null => b.Null?
    case Bool(_) => b == a
    case Num(_) => b == a
    case Str(s) => TextOf(b) == Some(s)
    case BigInt(n) => TextOf(b) == Some(Decimal(n))
    case Arr(xs) => b.Arr? && |b.items| == |xs| && forall i :: 0 <= i < |xs| ==> Same(xs[i], b.items[i])
    case Obj(es, _) =>
      && b.Obj?
      && (forall i :: 0 <= i < |es| && es[i].key != PROTO ==> Matches(es[i], b.entries))
      && (forall j :: 0 <= j < |b.entries| && b.entries[j].key != PROTO ==> Has(es, b.entries[j].key))
    case Bad => false
  }

  lemma {:induction false} AlikeIffSame(a: Json, b: Json)
    requires WellFormed(a) && WellFormed(b) && Canonicalize(a).Some? && Canonicalize(b).Some?
    ensures Alike(Canonicalize(a).value, Canonicalize(b).value) <==> Same(a, b)
    decreases a
  {
    hide Sort, WithoutProto, SetsPrototype, Has, Before, Decimal;
    match a
    case Arr(xs) =>
      if b.Arr? && |b.items| == |xs| {
        forall i | 0 <= i < |xs|
          ensures Alike(CanonicalizeAll(xs).value[i], CanonicalizeAll(b.items).value[i]) <==> Same(xs[i], b.items[i])
        {
          AlikeIffSame(xs[i], b.items[i]);
        }
      }
    case Obj(es, _) =>
      if b.Obj? {
        forall i, j | 0 <= i < |es| && 0 <= j < |b.entries|
          ensures Alike(CanonicalizeEntries(es).value[i].value, CanonicalizeEntries(b.entries).value[j].value)
             <==> Same(es[i].value, b.entries[j].value)
        {
          AlikeIffSame(es[i].value, b.entries[j].value);
        }
        ObjectsIff(es, b.entries, CanonicalizeEntries(es).value, CanonicalizeEntries(b.entries).value);
      }
    case _ =>
  }

  /** Entry by entry, `cs` is `es` canonicalized. */
  predicate Renders(es: seq<Entry>, cs: seq<Entry>) {
    |cs| == |es| && Distinct(es) && forall i :: 0 <= i < |es| ==> cs[i].key == es[i].key
  }

  predicate AlikeEntriesAt(xs: seq<Entry>, ys: seq<Entry>) {
    |xs| == |ys| && forall i :: 0 <= i < |xs| ==> xs[i].key == ys[i].key && Alike(xs[i].value, ys[i].value)
  }

  predicate SameObject(es: seq<Entry>, fs: seq<Entry>) {
    && (forall i :: 0 <= i < |es| && es[i].key != PROTO ==> Matches(es[i], fs))
    && (forall j :: 0 <= j < |fs| && fs[j].key != PROTO ==> Has(es, fs[j].key))
  }

  lemma ObjectsIff(es: seq<Entry>, fs: seq<Entry>, cs: seq<Entry>, ds: seq<Entry>)
    requires Renders(es, cs) && Renders(fs, ds)
    requires forall i, j :: 0 <= i < |es| && 0 <= j < |fs| ==>
               (Alike(cs[i].value, ds[j].value) <==> Same(es[i].value, fs[j].value))
    ensures AlikeEntriesAt(Sort(WithoutProto(cs)), Sort(WithoutProto(ds))) <==> SameObject(es, fs)
  {
    hide Sort, WithoutProto, Before, Alike, Same, Has, Matches;
    var xs, ys := Sort(WithoutProto(cs)), Sort(WithoutProto(ds));
    assert Distinct(cs) && Distinct(ds);
    CanonicalEntries(cs);
    CanonicalEntries(ds);
    if AlikeEntriesAt(xs, ys) {
      ObjectsForward(es, fs, cs, ds, xs, ys);
    }
    if SameObject(es, fs) {
      ObjectsBack(es, fs, cs, ds, xs, ys);
    }
  }

  /** `xs` lists the entries of `cs` that are not "__proto__". */
  ghost predicate Lists(xs: seq<Entry>, cs: seq<Entry>) {
    forall f :: f in xs <==> f in cs && f.key != PROTO
  }

  lemma ObjectsForward(es: seq<Entry>, fs: seq<Entry>, cs: seq<Entry>, ds: seq<Entry>, xs: seq<Entry>, ys: seq<Entry>)
    requires Renders(es, cs) && Renders(fs, ds) && Lists(xs, cs) && Lists(ys, ds) && AlikeEntriesAt(xs, ys)
    requires forall i, j :: 0 <= i < |es| && 0 <= j < |fs| ==>
               (Alike(cs[i].value, ds[j].value) <==> Same(es[i].value, fs[j].value))
    ensures SameObject(es, fs)
  {
    hide Alike, Same, Has, Lists, Matches;
    forall i | 0 <= i < |es| && es[i].key != PROTO ensures Matches(es[i], fs) {
      var k := Position(es, cs, xs, i);
      var j := SomeIndex(fs, ds, ys, k);
      MatchesBy(es[i], fs, j);
    }
    forall j | 0 <= j < |fs| && fs[j].key != PROTO ensures Has(es, fs[j].key) {
      var k := Position(fs, ds, ys, j);
      var i := SomeIndex(es, cs, xs, k);
      HasAt(es, i);
    }
  }

  lemma Position(es: seq<Entry>, cs: seq<Entry>, xs: seq<Entry>, i: nat) returns (k: nat)
    requires Renders(es, cs) && Lists(xs, cs) && i < |es| && es[i].key != PROTO
    ensures k < |xs| && xs[k] == cs[i]
  {
    assert cs[i] in xs;
    k :| 0 <= k < |xs| && xs[k] == cs[i];
  }

  lemma MatchesBy(e: Entry, fs: seq<Entry>, j: nat)
    requires j < |fs| && fs[j].key == e.key && Same(e.value, fs[j].value)
    ensures Matches(e, fs)
  {}

  lemma HasAt(es: seq<Entry>, i: nat)
    requires i < |es|
    ensures Has(es, es[i].key)
  {}

  lemma SomeIndex(es: seq<Entry>, cs: seq<Entry>, xs: seq<Entry>, k: nat) returns (i: nat)
    requires Renders(es, cs) && Lists(xs, cs) && k < |xs|
    ensures i < |es| && cs[i] == xs[k] && es[i].key == xs[k].key && es[i].key != PROTO
  {
    assert xs[k] in xs;
    i :| 0 <= i < |cs| && cs[i] == xs[k];
  }

  lemma ListsKey(es: seq<Entry>, cs: seq<Entry>, xs: seq<Entry>, j: nat)
    requires Renders(es, cs) && Lists(xs, cs) && j < |es| && es[j].key != PROTO
    ensures Has(xs, es[j].key)
  {
    var k := Position(es, cs, xs, j);
    HasAt(xs, k);
  }

  lemma ObjectsBack(es: seq<Entry>, fs: seq<Entry>, cs: seq<Entry>, ds: seq<Entry>, xs: seq<Entry>, ys: seq<Entry>)
    requires Renders(es, cs) && Renders(fs, ds) && Lists(xs, cs) && Lists(ys, ds) && Sorted(xs) && Sorted(ys)
    requires SameObject(es, fs)
    requires forall i, j :: 0 <= i < |es| && 0 <= j < |fs| ==>
               (Alike(cs[i].value, ds[j].value) <==> Same(es[i].value, fs[j].value))
    ensures AlikeEntriesAt(xs, ys)
  {
    hide Alike, Same, Sorted, Has, Lists;
    forall k | 0 <= k < |xs| ensures Has(ys, xs[k].key) {
      var i := SomeIndex(es, cs, xs, k);
      var j := MatchIndex(es[i], fs);
      ListsKey(fs, ds, ys, j);
    }
    forall k | 0 <= k < |ys| ensures Has(xs, ys[k].key) {
      var j := SomeIndex(fs, ds, ys, k);
      var i := Find(es, fs[j].key);
      ListsKey(es, cs, xs, i);
    }
    SortedKeysUnique(xs, ys, |xs|);
    SortedKeysUnique(ys, xs, |ys|);
    forall k | 0 <= k < |xs| ensures Alike(xs[k].value, ys[k].value) {
      var i := SomeIndex(es, cs, xs, k);
      var j := MatchIndex(es[i], fs);
      var j' := SomeIndex(fs, ds, ys, k);
      assert fs[j].key == fs[j'].key;
      assert j == j';
    }
  }

  lemma MatchIndex(e: Entry, fs: seq<Entry>) returns (j: nat)
    requires Matches(e, fs)
    ensures j < |fs| && fs[j].key == e.key && Same(e.value, fs[j].value)
  {
    j :| 0 <= j < |fs| && fs[j].key == e.key && Same(e.value, fs[j].value);
  }

  // ---------------------------------------------------------------------
  // Canonical forms
  // ---------------------------------------------------------------------

  /** What `canonicalize` returns: printable, keys sorted, no "__proto__" key. */
  predicate Canonical(c: Json)
    decreases c
  {
    match c
    case BigInt(_) => false
    case Bad => false
    case Arr(xs) => forall i :: 0 <= i < |xs| ==> Canonical(xs[i])
    case Obj(es, _) => Sorted(es) && forall i :: 0 <= i < |es| ==> es[i].key != PROTO && Canonical(es[i].value)
    case _ => true
  }

  /** Every object in it still has a plain prototype. */
  predicate AllPlain(c: Json)
    decreases c
  {
    match c
    case Arr(xs) => forall i :: 0 <= i < |xs| ==> AllPlain(xs[i])
    case Obj(es, plain) => plain && forall i :: 0 <= i < |es| ==> AllPlain(es[i].value)
    case _ => true
  }

  /** No object in the value gives "__proto__" an object or an array. */
  predicate Tame(j: Json)
    decreases j
  {
    match j
    case Arr(xs) => forall i :: 0 <= i < |xs| ==> Tame(xs[i])
    case Obj(es, _) => forall i :: 0 <= i < |es| ==>
        if es[i].key == PROTO then !es[i].value.Arr? && !es[i].value.Obj? else Tame(es[i].value)
    case _ => true
  }

  lemma {:induction false} CanonicalizeShape(j: Json)
    requires WellFormed(j) && Canonicalize(j).Some?
    ensures Canonical(Canonicalize(j).value)
    ensures AllPlain(Canonicalize(j).value) <==> Tame(j)
    decreases j
  {
    hide Sort, WithoutProto, Before, Decimal;
    match j
    case Arr(xs) =>
      forall i | 0 <= i < |xs|
        ensures var c := CanonicalizeAll(xs).value[i]; Canonical(c) && (AllPlain(c) <==> Tame(xs[i]))
      {
        CanonicalizeShape(xs[i]);
      }
    case Obj(es, _) =>
      forall i | 0 <= i < |es|
        ensures var c := CanonicalizeEntries(es).value[i].value; Canonical(c) && (AllPlain(c) <==> Tame(es[i].value))
        ensures var c := CanonicalizeEntries(es).value[i].value;
                (c.Arr? <==> es[i].value.Arr?) && (c.Obj? <==> es[i].value.Obj?)
      {
        CanonicalizeShape(es[i].value);
      }
      ObjectShape(es, CanonicalizeEntries(es).value);
    case _ =>
  }

  lemma ObjectShape(es: seq<Entry>, cs: seq<Entry>)
    requires Renders(es, cs)
    requires forall i :: 0 <= i < |es| ==>
               && Canonical(cs[i].value) && (AllPlain(cs[i].value) <==> Tame(es[i].value))
               && (cs[i].value.Arr? <==> es[i].value.Arr?) && (cs[i].value.Obj? <==> es[i].value.Obj?)
    ensures var c := Obj(Sort(WithoutProto(cs)), !SetsPrototype(cs));
            Canonical(c) && (AllPlain(c) <==> Tame(Obj(es, true)))
  {
    hide Sort, WithoutProto, Before, Sorted;
    var xs := Sort(WithoutProto(cs));
    assert Distinct(cs);
    CanonicalEntries(cs);
    forall k | 0 <= k < |xs| ensures xs[k].key != PROTO && Canonical(xs[k].value) {
      var i := SomeIndex(es, cs, xs, k);
    }
    if AllPlain(Obj(xs, !SetsPrototype(cs))) {
      forall i | 0 <= i < |es| && es[i].key != PROTO ensures Tame(es[i].value) {
        var k := Position(es, cs, xs, i);
      }
    }
    if Tame(Obj(es, true)) {
      forall k | 0 <= k < |xs| ensures AllPlain(xs[k].value) {
        var i := SomeIndex(es, cs, xs, k);
      }
    }
  }

  lemma {:induction false} SortFixed(es: seq<Entry>)
    requires Sorted(es)
    ensures Sort(es) == es
    decreases es
  {
    if es != [] {
      SortFixed(es[1..]);
    }
  }

  lemma {:induction false} WithoutProtoFixed(es: seq<Entry>)
    requires forall i :: 0 <= i < |es| ==> es[i].key != PROTO
    ensures WithoutProto(es) == es
    decreases es
  {
    if es != [] {
      WithoutProtoFixed(es[1..]);
    }
  }

  /** Canonicalizing a canonical value returns it, or throws if some prototype was replaced. */
  lemma {:induction false} CanonicalFixed(c: Json)
    requires Canonical(c)
    ensures Canonicalize(c) == if AllPlain(c) then Some(c) else None
    decreases c
  {
    hide Sort, WithoutProto, Sorted, Before;
    match c
    case Arr(xs) =>
      forall i | 0 <= i < |xs| ensures Canonicalize(xs[i]) == if AllPlain(xs[i]) then Some(xs[i]) else None {
        CanonicalFixed(xs[i]);
      }
      var all := CanonicalizeAll(xs);
      assert all.Some? ==> all.value == xs;
    case Obj(es, _) =>
      forall i | 0 <= i < |es|
        ensures Canonicalize(es[i].value) == if AllPlain(es[i].value) then Some(es[i].value) else None
      {
        CanonicalFixed(es[i].value);
      }
      var all := CanonicalizeEntries(es);
      if all.Some? {
        assert all.value == es;
        WithoutProtoFixed(es);
        SortFixed(es);
      }
    case _ =>
  }

  lemma {:induction false} CanonicalPrintable(c: Json)
    requires Canonical(c)
    ensures Printable(c)
    decreases c
  {
    match c
    case Arr(xs) =>
      forall i | 0 <= i < |xs| ensures Printable(xs[i]) {
        CanonicalPrintable(xs[i]);
      }
    case Obj(es, _) =>
      forall i | 0 <= i < |es| ensures Printable(es[i].value) {
        CanonicalPrintable(es[i].value);
      }
    case _ =>
  }

  /** Nothing `canonicalize` refuses: no undefined, function, symbol or non-finite number, and
      every object has a plain prototype. */
  predicate Clean(j: Json)
    decreases j
  {
    match j
    case Bad => false
    case Arr(xs) => forall i :: 0 <= i < |xs| ==> Clean(xs[i])
    case Obj(es, plain) => plain && forall i :: 0 <= i < |es| ==> Clean(es[i].value)
    case _ => true
  }

  lemma {:induction false} CanonicalizeSucceedsIff(j: Json)
    ensures Canonicalize(j).Some? <==> Clean(j)
    decreases j
  {
    hide Sort, WithoutProto, SetsPrototype, Decimal;
    match j
    case Arr(xs) =>
      forall i | 0 <= i < |xs| ensures Canonicalize(xs[i]).Some? <==> Clean(xs[i]) {
        CanonicalizeSucceedsIff(xs[i]);
      }
    case Obj(es, _) =>
      forall i | 0 <= i < |es| ensures Canonicalize(es[i].value).Some? <==> Clean(es[i].value) {
        CanonicalizeSucceedsIff(es[i].value);
      }
    case _ =>
  }

  // ---------------------------------------------------------------------
  // The theorems
  // ---------------------------------------------------------------------

  /** `stableStringify` gives two values the same text exactly when they are the same tree up
      to key order, big integers counting as strings and "__proto__" entries not at all. */
  lemma StringifyIff(a: Json, b: Json)
    requires WellFormed(a) && WellFormed(b) && StableStringify(a).Some? && StableStringify(b).Some?
    ensures StableStringify(a) == StableStringify(b) <==> Same(a, b)
  {
    hide Canonicalize, Print, Alike, Same, Canonical, Printable;
    var c, d := Canonicalize(a).value, Canonicalize(b).value;
    AlikeIffSame(a, b);
    CanonicalizeShape(a);
    CanonicalizeShape(b);
    CanonicalPrintable(c);
    CanonicalPrintable(d);
    if Print(c) == Print(d) {
      assert Print(c) + [] == Print(d) + [];
      PrintPrefix(c, d, [], []);
    }
    if Alike(c, d) {
      AlikePrint(c, d);
    }
  }

  /** So different trees can share a text, but only through "__proto__" or a big integer. */
  lemma ProtoCollides(v: Json)
    requires Canonicalize(v).Some?
    ensures StableStringify(Obj([Entry(PROTO, v)], true)) == StableStringify(Obj([], true))
        == Some([OPEN_OBJECT, CLOSE_OBJECT])
  {
    hide Canonicalize, Before;
    var es, c := [Entry(PROTO, v)], Canonicalize(v).value;
    var all := CanonicalizeEntries(es);
    assert all.Some? by { assert es[0].value == v; }
    assert all.value == [Entry(PROTO, c)];
    ProtoCollidesAt(es, c);
  }

  lemma ProtoCollidesAt(es: seq<Entry>, c: Json)
    requires CanonicalizeEntries(es) == Some([Entry(PROTO, c)])
    ensures StableStringify(Obj(es, true)) == StableStringify(Obj([], true)) == Some([OPEN_OBJECT, CLOSE_OBJECT])
  {
    var cs := [Entry(PROTO, c)];
    assert WithoutProto(cs) == WithoutProto(cs[1..]) == [];
    assert Print(Obj([], true)) == Print(Obj([], false)) == [OPEN_OBJECT, CLOSE_OBJECT];
  }

  /** `canonicalize` is idempotent exactly on values in which no object gives "__proto__" an
      object or an array; there the second call throws. */
  lemma CanonicalizeIdempotentIff(j: Json)
    requires WellFormed(j) && Canonicalize(j).Some?
    ensures var c := Canonicalize(j).value;
            Canonicalize(c) == if Tame(j) then Some(c) else None
  {
    hide Canonicalize, Canonical, AllPlain, Tame;
    CanonicalizeShape(j);
    CanonicalFixed(Canonicalize(j).value);
  }
}
