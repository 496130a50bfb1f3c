/** Interval compression of a set of slots. */
module SlotRanges {

  datatype Range = Range(first: nat, last: nat)

  predicate Covers(ranges: seq<Range>, slot: nat) {
    exists i :: 0 <= i < |ranges| && ranges[i].first <= slot <= ranges[i].last
  }

  /** Non-empty, ascending, and with at least one missing slot between any two. */
  predicate Separated(ranges: seq<Range>) {
    && (forall i :: 0 <= i < |ranges| ==> ranges[i].first <= ranges[i].last)
    && (forall i, j :: 0 <= i < j < |ranges| ==> ranges[i].last + 1 < ranges[j].first)
  }

  /** The maximal intervals of a set, in ascending order. */
  ghost predicate Compresses(ranges: seq<Range>, slots: set<nat>) {
    Separated(ranges) && forall slot :: slot in slots <==> Covers(ranges, slot)
  }

  function Total(ranges: seq<Range>): int {
    if ranges == [] then 0
    else ranges[|ranges| - 1].last - ranges[|ranges| - 1].first + 1 + Total(ranges[..|ranges| - 1])
  }

  predicate Ascending(s: seq<nat>) {
    forall i, j :: 0 <= i < j < |s| ==> s[i] < s[j]
  }

  ghost predicate IsLeast(m: nat, s: set<nat>) {
    m in s && forall x :: x in s ==> m <= x
  }

  lemma {:induction false} LeastExists(s: set<nat>) returns (m: nat)
    requires |s| > 0
    ensures IsLeast(m, s)
  {
    var e :| e in s;
    var rest := s - {e};
    m := e;
    if |rest| > 0 {
      var m' := LeastExists(rest);
      m := if e < m' then e else m';
      forall x | x in s ensures m <= x {
        assert x == e || x in rest;
      }
    } else {
      forall x | x in s ensures m <= x {
        assert x == e || x in rest;
      }
    }
  }

  /** Python's `sorted` on a set of slots. */
  method Sorted(slots: set<nat>) returns (ordered: seq<nat>)
    ensures Ascending(ordered)
    ensures forall x :: x in slots <==> x in ordered
  {
    ordered := [];
    var rest := slots;
    while |rest| > 0
      invariant Ascending(ordered)
      invariant forall x :: x in slots <==> x in rest || x in ordered
      invariant forall y, x :: y in ordered && x in rest ==> y < x
      decreases |rest|
    {
      ghost var least := LeastExists(rest);
      var m :| m in rest && forall x :: x in rest ==> m <= x;
      TakeLeast(ordered, rest, m);
      ordered, rest := ordered + [m], rest - {m};
    }
  }

  lemma TakeLeast(ordered: seq<nat>, rest: set<nat>, m: nat)
    requires Ascending(ordered) && IsLeast(m, rest)
    requires forall y, x :: y in ordered && x in rest ==> y < x
    ensures Ascending(ordered + [m])
    ensures forall x :: x in ordered + [m] <==> x in ordered || x == m
    ensures forall y, x :: y in ordered + [m] && x in rest - {m} ==> y < x
  {
    assert forall i :: 0 <= i < |ordered| ==> ordered[i] in ordered;
  }

  lemma CoversSnoc(ranges: seq<Range>, r: Range, slot: nat)
    ensures Covers(ranges + [r], slot) <==> Covers(ranges, slot) || r.first <= slot <= r.last
  {
    var all := ranges + [r];
    if Covers(ranges, slot) {
      var i :| 0 <= i < |ranges| && ranges[i].first <= slot <= ranges[i].last;
      assert all[i] == ranges[i];
    }
    if r.first <= slot <= r.last {
      assert all[|ranges|] == r;
    }
  }

  /** `contiguous_ranges`. */
  method ContiguousRanges(slots: set<nat>) returns (ranges: seq<Range>)
    ensures Compresses(ranges, slots)
  {
    ranges := [];
    if |slots| == 0 {
      return;
    }
    var ordered := Sorted(slots);
    assert exists x :: x in slots && x in ordered;
    var start, previous := ordered[0], ordered[0];
    assert ordered[..1] == [start];
    forall slot ensures slot == start <==> Covers([] + [Range(start, start)], slot) {
      CoversSnoc([], Range(start, start), slot);
    }
    for i := 1 to |ordered|
      invariant start <= previous == ordered[i - 1]
      invariant Separated(ranges + [Range(start, previous)])
      invariant forall slot :: slot in ordered[..i] <==> Covers(ranges + [Range(start, previous)], slot)
    {
      var slot := ordered[i];
      assert previous < slot;
      Grow(ranges, start, previous, slot, ordered[..i]);
      assert ordered[..i + 1] == ordered[..i] + [slot];
      if slot != previous + 1 {
        ranges := ranges + [Range(start, previous)];
        start := slot;
      }
      previous := slot;
    }
    assert ordered[..|ordered|] == ordered;
    ranges := ranges + [Range(start, previous)];
  }

  /** The next slot either lengthens the open interval or opens one after a gap. */
  lemma Grow(ranges: seq<Range>, start: nat, previous: nat, slot: nat, seen: seq<nat>)
    requires start <= previous < slot
    requires Separated(ranges + [Range(start, previous)])
    requires forall x :: x in seen <==> Covers(ranges + [Range(start, previous)], x)
    ensures var grown := if slot == previous + 1 then ranges + [Range(start, slot)]
                         else ranges + [Range(start, previous)] + [Range(slot, slot)];
            && Separated(grown)
            && forall x :: x in seen + [slot] <==> Covers(grown, x)
  {
    var open := ranges + [Range(start, previous)];
    assert open[|ranges|] == Range(start, previous);
    assert forall i :: 0 <= i < |ranges| ==> open[i] == ranges[i];
    forall x
      ensures x in seen + [slot] <==>
              Covers(if slot == previous + 1 then ranges + [Range(start, slot)] else open + [Range(slot, slot)], x)
    {
      CoversSnoc(ranges, Range(start, previous), x);
      CoversSnoc(ranges, Range(start, slot), x);
      CoversSnoc(open, Range(slot, slot), x);
    }
  }

  // ---------------------------------------------------------------------
  // The answer is unique, and its lengths add up to the set's size
  // ---------------------------------------------------------------------

  /** Of two compressions of one set, neither interval can reach past the other's. */
  lemma SameInterval(a: seq<Range>, b: seq<Range>, slots: set<nat>, i: nat)
    requires Compresses(a, slots) && Compresses(b, slots)
    requires i < |a| && i <= |b| && a[..i] == b[..i]
    ensures i < |b| && b[i].first <= a[i].first && a[i].last <= b[i].last
  {
    var first := a[i].first;
    assert Covers(a, first);
    var j :| 0 <= j < |b| && b[j].first <= first <= b[j].last;
    SameBefore(a, b, i);
    assert j >= i;
    // were j > i, b[i] would lie wholly before a[i] and after a[i - 1]
    assert Covers(b, b[i].first);
    var k :| 0 <= k < |a| && a[k].first <= b[i].first <= a[k].last;
    assert k >= i;
    NoGap(a, b, slots, i);
  }

  lemma SameBefore(a: seq<Range>, b: seq<Range>, i: nat)
    requires i <= |a| && i <= |b| && a[..i] == b[..i]
    ensures forall k :: 0 <= k < i ==> a[k] == b[k]
  {
    forall k | 0 <= k < i ensures a[k] == b[k] {
      assert a[k] == a[..i][k] && b[k] == b[..i][k];
    }
  }

  /** Where an interval of `b` ends the next slot is missing, so an interval of `a` that
      starts inside it ends no later. */
  lemma NoGap(a: seq<Range>, b: seq<Range>, slots: set<nat>, i: nat)
    requires Compresses(a, slots) && Compresses(b, slots)
    requires i < |a| && i < |b| && b[i].first <= a[i].first <= b[i].last
    ensures a[i].last <= b[i].last
  {
    var x := b[i].last + 1;
    assert !Covers(b, x);
    assert !Covers(a, x);
  }

  lemma SamePrefix(a: seq<Range>, b: seq<Range>, slots: set<nat>, n: nat)
    requires Compresses(a, slots) && Compresses(b, slots) && n <= |a|
    ensures n <= |b| && a[..n] == b[..n]
  {
    if n > 0 {
      SamePrefix(a, b, slots, n - 1);
      SameInterval(a, b, slots, n - 1);
      SameInterval(b, a, slots, n - 1);
      assert a[..n] == a[..n - 1] + [a[n - 1]];
      assert b[..n] == b[..n - 1] + [b[n - 1]];
    }
  }

  /** A set has exactly one compression. */
  lemma CompressionUnique(a: seq<Range>, b: seq<Range>, slots: set<nat>)
    requires Compresses(a, slots) && Compresses(b, slots)
    ensures a == b
  {
    SamePrefix(a, b, slots, |a|);
    SamePrefix(b, a, slots, |b|);
    assert a[..|a|] == a && b[..|b|] == b;
  }

  function Interval(first: nat, last: nat): (s: set<nat>)
    ensures forall x :: x in s <==> first <= x <= last
    decreases last + 1 - first
  {
    if first > last then {} else {first} + Interval(first + 1, last)
  }

  lemma {:induction false} IntervalSize(first: nat, last: nat)
    requires first <= last + 1
    ensures |Interval(first, last)| == last + 1 - first
    decreases last + 1 - first
  {
    if first <= last {
      IntervalSize(first + 1, last);
      var rest := Interval(first + 1, last);
      assert Interval(first, last) == {first} + rest;
      assert |{first} + rest| == 1 + |rest|;
    }
  }

  /** The lengths of the ranges add up to the number of slots. */
  lemma {:induction false} TotalIsSize(ranges: seq<Range>, slots: set<nat>)
    requires Compresses(ranges, slots)
    ensures Total(ranges) == |slots|
    decreases ranges
  {
    hide Compresses, Interval;
    if ranges == [] {
      NothingCovered(slots);
    } else {
      var n := |ranges| - 1;
      var rest, r := ranges[..n], ranges[n];
      assert ranges == rest + [r];
      var front := slots - Interval(r.first, r.last);
      LastNonEmpty(ranges, slots);
      SplitLast(ranges, slots, rest, r);
      TotalIsSize(rest, front);
      IntervalSize(r.first, r.last);
      CardSplit(slots, Interval(r.first, r.last));
    }
  }

  lemma CardSplit(slots: set<nat>, part: set<nat>)
    requires part <= slots
    ensures |slots| == |slots - part| + |part|
  {
    assert slots == (slots - part) + part;
  }

  lemma NothingCovered(slots: set<nat>)
    requires Compresses([], slots)
    ensures |slots| == 0
  {
    assert forall x :: x in slots ==> Covers([], x);
    assert slots == {};
  }

  lemma LastNonEmpty(ranges: seq<Range>, slots: set<nat>)
    requires Compresses(ranges, slots) && |ranges| > 0
    ensures ranges[|ranges| - 1].first <= ranges[|ranges| - 1].last
  {}

  lemma SplitLast(ranges: seq<Range>, slots: set<nat>, rest: seq<Range>, r: Range)
    requires Compresses(ranges, slots) && ranges == rest + [r]
    ensures Compresses(rest, slots - Interval(r.first, r.last))
    ensures Interval(r.first, r.last) <= slots
  {
    var front := slots - Interval(r.first, r.last);
    assert ranges[|rest|] == r && forall i :: 0 <= i < |rest| ==> ranges[i] == rest[i];
    forall x: nat
      ensures x in front <==> Covers(rest, x)
      ensures x in Interval(r.first, r.last) ==> x in slots
    {
      CoversSnoc(rest, r, x);
    }
  }
}
