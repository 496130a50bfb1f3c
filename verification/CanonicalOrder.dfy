/**
  The order in which canonical JSON lists the keys of an object: array indices by number, then
  all other keys by their first differing code unit.
*/
module CanonicalOrder {
  import opened Bytes
  import opened JsonText
  import opened CanonicalJson
  import opened CanonicalJsonProofs
  import opened JsonReader

  // ---------------------------------------------------------------------
  // Code unit order
  // ---------------------------------------------------------------------

  /** `a` is a proper prefix of `b`, or smaller where they first differ. */
  predicate FirstSmaller(a: Text, b: Text, i: nat) {
    i <= |a| && i < |b| && a[..i] == b[..i] && (i == |a| || a[i] < b[i])
  }

  lemma {:induction false} LexMeans(a: Text, b: Text)
    ensures LexLess(a, b) <==> exists i :: FirstSmaller(a, b, i)
    decreases |a|
  {
    if b == [] {
    } else if a == [] {
      assert FirstSmaller(a, b, 0);
    } else {
      LexMeans(a[1..], b[1..]);
      if a[0] < b[0] {
        assert FirstSmaller(a, b, 0);
      }
      forall i: nat | a[0] == b[0] && FirstSmaller(a[1..], b[1..], i) ensures FirstSmaller(a, b, i + 1) {
        assert a[..i + 1] == [a[0]] + a[1..][..i] && b[..i + 1] == [b[0]] + b[1..][..i];
      }
      forall i: nat | i > 0 && FirstSmaller(a, b, i)
        ensures a[0] == b[0] && FirstSmaller(a[1..], b[1..], i - 1)
      {
        assert a[0] == a[..i][0] == b[..i][0] == b[0];
        assert a[1..][..i - 1] == a[..i][1..] && b[1..][..i - 1] == b[..i][1..];
      }
    }
  }

  // ---------------------------------------------------------------------
  // Array indices
  // ---------------------------------------------------------------------

  /** `k` is the array index `n`, written in decimal. */
  predicate IsIndexOf(k: Text, n: nat) { n < 0xFFFF_FFFF && k == Digits(n) }

  lemma IndexMeans(k: Text)
    ensures IsIndex(k) <==> exists n: nat :: IsIndexOf(k, n)
    ensures IsIndex(k) ==> IsIndexOf(k, DigitValue(k))
  {
    if IsIndex(k) {
      DigitsBack(k);
      assert IsIndexOf(k, DigitValue(k));
    }
    if n: nat :| IsIndexOf(k, n) {
      DigitsLead(n);
      DigitsValue(n);
    }
  }

  lemma {:induction false} LongerIsLarger(m: nat, n: nat)
    requires m <= n
    ensures |Digits(m)| <= |Digits(n)|
    decreases n
  {
    if m >= 10 {
      LongerIsLarger(m / 10, n / 10);
    }
  }

  lemma {:induction false} LexSnoc(a: Text, x: Unit, b: Text, y: Unit)
    requires |a| == |b|
    ensures LexLess(a + [x], b + [y]) <==> LexLess(a, b) || (a == b && x < y)
    decreases |a|
  {
    if a == [] {
      assert (a + [x])[1..] == [] && (b + [y])[1..] == [];
    } else {
      assert (a + [x])[1..] == a[1..] + [x] && (b + [y])[1..] == b[1..] + [y];
      LexSnoc(a[1..], x, b[1..], y);
      assert a == [a[0]] + a[1..] && b == [b[0]] + b[1..];
    }
  }

  lemma {:induction false} SameLength(a: Text, b: Text)
    requires |a| == |b|
    requires (forall i :: 0 <= i < |a| ==> IsDigit(a[i])) && (forall i :: 0 <= i < |b| ==> IsDigit(b[i]))
    ensures LexLess(a, b) <==> DigitValue(a) < DigitValue(b)
    ensures DigitValue(a) == DigitValue(b) ==> a == b
    decreases |a|
  {
    if a != [] {
      var n := |a| - 1;
      SameLength(a[..n], b[..n]);
      LexSnoc(a[..n], a[n], b[..n], b[n]);
      assert a == a[..n] + [a[n]] && b == b[..n] + [b[n]];
      assert IsDigit(a[n]) && IsDigit(b[n]);
    }
  }

  /** Indices are ordered as numbers. */
  lemma IndexOrder(m: nat, n: nat)
    requires m < 0xFFFF_FFFF && n < 0xFFFF_FFFF
    ensures Before(Digits(m), Digits(n)) <==> m < n
  {
    hide Digits, LexLess, IsIndex;
    IndexMeans(Digits(m));
    IndexMeans(Digits(n));
    assert IsIndexOf(Digits(m), m) && IsIndexOf(Digits(n), n);
    DigitsValue(m);
    DigitsValue(n);
    if |Digits(m)| == |Digits(n)| {
      SameLength(Digits(m), Digits(n));
    } else if m < n {
      LongerIsLarger(m, n);
    } else {
      LongerIsLarger(n, m);
    }
  }

  // ---------------------------------------------------------------------
  // The order of keys
  // ---------------------------------------------------------------------

  ghost predicate IsIndexKey(k: Text) { exists n: nat :: IsIndexOf(k, n) }

  /** Indices come first, in numeric order; then all other keys, in code unit order. */
  ghost predicate Precedes(a: Text, b: Text) {
    if IsIndexKey(a) && IsIndexKey(b) then exists m: nat, n: nat :: IsIndexOf(a, m) && IsIndexOf(b, n) && m < n
    else if IsIndexKey(a) || IsIndexKey(b) then IsIndexKey(a)
    else exists i :: FirstSmaller(a, b, i)
  }

  lemma BeforeMeans(a: Text, b: Text)
    ensures Before(a, b) <==> Precedes(a, b)
  {
    hide FirstSmaller, LexLess, Digits, IsIndex;
    IndexMeans(a);
    IndexMeans(b);
    LexMeans(a, b);
    if IsIndexKey(a) && IsIndexKey(b) {
      var m, n := DigitValue(a), DigitValue(b);
      IndexOrder(m, n);
      forall m': nat, n': nat | IsIndexOf(a, m') && IsIndexOf(b, n') ensures m' == m && n' == n {
        DigitsValue(m');
        DigitsValue(n');
      }
    }
  }

  /** Every object lists its keys in that order, each once and none of them "__proto__". */
  ghost predicate Ordered(j: Json)
    decreases j
  {
    match j
    case Arr(items) => forall i :: 0 <= i < |items| ==> Ordered(items[i])
    case Obj(es, _) =>
      && (forall i, k :: 0 <= i < k < |es| ==> Precedes(es[i].key, es[k].key))
      && (forall i :: 0 <= i < |es| ==> !Spells(es[i].key, "__proto__") && Ordered(es[i].value))
    case _ => true
  }

  lemma ProtoSpells(k: Text)
    ensures k == PROTO <==> Spells(k, "__proto__")
  {
    assert Spells(PROTO, "__proto__");
  }

  /** What `canonicalize` makes of a value with distinct keys is ordered, throughout. */
  lemma {:induction false} CanonicalIsOrdered(j: Json)
    requires WellFormed(j) && Canonicalize(j).Some?
    ensures Ordered(Canonicalize(j).value)
    decreases j
  {
    hide Precedes, Spells;
    match j
    case Arr(items) =>
      var all := CanonicalizeAll(items);
      forall i | 0 <= i < |items| ensures Ordered(all.value[i]) {
        CanonicalIsOrdered(items[i]);
      }
    case Obj(es, _) =>
      var all := CanonicalizeEntries(es).value;
      assert Distinct(all);
      CanonicalEntries(all);
      forall i | 0 <= i < |all| ensures Ordered(all[i].value) {
        CanonicalIsOrdered(es[i].value);
      }
      SortedIsOrdered(Sort(WithoutProto(all)), all, !SetsPrototype(all));
    case _ =>
  }

  lemma SortedIsOrdered(es: seq<Entry>, all: seq<Entry>, plain: bool)
    requires Sorted(es) && (forall f :: f in es <==> f in all && f.key != PROTO)
    requires forall i :: 0 <= i < |all| ==> Ordered(all[i].value)
    ensures Ordered(Obj(es, plain))
  {
    hide Before, Precedes, Spells;
    forall i, k | 0 <= i < k < |es| ensures Precedes(es[i].key, es[k].key) {
      BeforeMeans(es[i].key, es[k].key);
    }
    forall i | 0 <= i < |es| ensures !Spells(es[i].key, "__proto__") && Ordered(es[i].value) {
      assert es[i] in es;
      ProtoSpells(es[i].key);
    }
  }

  // ---------------------------------------------------------------------
  // The canonical text
  // ---------------------------------------------------------------------

  /** The canonical value is the same tree as the value. */
  lemma {:induction false} CanonicalIsSame(j: Json)
    requires WellFormed(j) && Canonicalize(j).Some?
    ensures Same(j, Canonicalize(j).value)
    decreases j
  {
    match j
    case Arr(items) =>
      var all := CanonicalizeAll(items).value;
      forall i | 0 <= i < |items| ensures Same(items[i], all[i]) {
        CanonicalIsSame(items[i]);
      }
    case Obj(es, _) =>
      var all := CanonicalizeEntries(es).value;
      CanonicalEntries(all);
      forall i | 0 <= i < |es| ensures Same(es[i].value, all[i].value) {
        CanonicalIsSame(es[i].value);
      }
      SameEntries(es, all, Sort(WithoutProto(all)));
    case _ =>
  }

  lemma SameEntries(es: seq<Entry>, all: seq<Entry>, out: seq<Entry>)
    requires |all| == |es|
    requires forall i :: 0 <= i < |es| ==> all[i].key == es[i].key && Same(es[i].value, all[i].value)
    requires forall f :: f in out <==> f in all && f.key != PROTO
    ensures forall i :: 0 <= i < |es| && es[i].key != PROTO ==> Matches(es[i], out)
    ensures forall k :: 0 <= k < |out| && out[k].key != PROTO ==> Has(es, out[k].key)
  {
    hide Same, Matches, Has;
    forall i | 0 <= i < |es| && es[i].key != PROTO ensures Matches(es[i], out) {
      assert all[i] in all;
      EntryMatches(es[i], all[i], out);
    }
    forall k | 0 <= k < |out| ensures Has(es, out[k].key) {
      assert out[k] in out;
      KeyOf(es, all, out[k]);
    }
  }

  lemma EntryMatches(e: Entry, f: Entry, out: seq<Entry>)
    requires f in out && f.key == e.key && Same(e.value, f.value)
    ensures Matches(e, out)
  {
    hide Same;
    var k :| 0 <= k < |out| && out[k] == f;
  }

  lemma KeyOf(es: seq<Entry>, all: seq<Entry>, f: Entry)
    requires |all| == |es| && (forall i :: 0 <= i < |es| ==> all[i].key == es[i].key) && f in all
    ensures Has(es, f.key)
  {
    var i :| 0 <= i < |all| && all[i] == f;
    assert es[i].key == f.key;
  }

  /** `stableStringify`: its text reads as a value that is the same tree as the one given, with the
      keys of every object in order, and no shorter text reads as that. */
  lemma CanonicalText(j: Json)
    requires WellFormed(j) && StableStringify(j).Some?
    ensures var text, c := StableStringify(j).value, Canonicalize(j).value;
            && ReadText(text) == Some(Plain(c)) && Alike(c, Plain(c)) && Ordered(c) && Same(j, c)
            && forall t :: ReadText(t) == Some(Plain(c)) ==> |text| <= |t|
  {
    hide Canonicalize, Print, ReadText, Plain, Alike, Ordered, WellFormed, Same, Canonical, Printable;
    var c := Canonicalize(j).value;
    CanonicalizeShape(j);
    CanonicalPrintable(c);
    CanonicalIsOrdered(j);
    CanonicalIsSame(j);
    ReadInvertsPrint(c);
    PlainAlike(c);
    AlikePrint(c, Plain(c));
    forall t | ReadText(t) == Some(Plain(c)) ensures |Print(c)| <= |t| {
      PrintIsShortest(t);
    }
  }
}
