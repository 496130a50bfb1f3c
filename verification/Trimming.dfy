/** Trimming white space at both ends of a text; what counts as white space is a parameter. */
module Trimming {
  import opened JsonText

  function TrimStart(space: Unit -> bool, t: Text): (r: Text)
    ensures r == [] || !space(r[0])
  {
    if t == [] || !space(t[0]) then t else TrimStart(space, t[1..])
  }

  function TrimEnd(space: Unit -> bool, t: Text): (r: Text)
    ensures r == [] || !space(r[|r| - 1])
    ensures r <= t
  {
    if t == [] || !space(t[|t| - 1]) then t else TrimEnd(space, t[..|t| - 1])
  }

  function Trim(space: Unit -> bool, t: Text): (r: Text)
    ensures Trimmed(space, r)
  {
    TrimEnd(space, TrimStart(space, t))
  }

  predicate Trimmed(space: Unit -> bool, t: Text) {
    t == [] || (!space(t[0]) && !space(t[|t| - 1]))
  }

  lemma TrimTwice(space: Unit -> bool, t: Text)
    requires Trimmed(space, t)
    ensures Trim(space, t) == t
  {}

  predicate AllSpace(space: Unit -> bool, t: Text) {
    forall i :: 0 <= i < |t| ==> space(t[i])
  }

  lemma {:induction false} TrimStartSplits(space: Unit -> bool, t: Text) returns (cut: Text)
    ensures t == cut + TrimStart(space, t) && AllSpace(space, cut)
    decreases t
  {
    if t == [] || !space(t[0]) {
      cut := [];
    } else {
      var rest := TrimStartSplits(space, t[1..]);
      cut := [t[0]] + rest;
    }
  }

  lemma {:induction false} TrimEndSplits(space: Unit -> bool, t: Text) returns (cut: Text)
    ensures t == TrimEnd(space, t) + cut && AllSpace(space, cut)
    decreases t
  {
    if t == [] || !space(t[|t| - 1]) {
      cut := [];
    } else {
      var n := |t| - 1;
      var rest := TrimEndSplits(space, t[..n]);
      cut := rest + [t[n]];
      assert t == t[..n] + [t[n]];
    }
  }

  /** Only white space is cut off, and all of it. */
  lemma TrimSplits(space: Unit -> bool, t: Text) returns (before: Text, after: Text)
    ensures t == before + Trim(space, t) + after && AllSpace(space, before) && AllSpace(space, after)
    ensures Trimmed(space, Trim(space, t))
  {
    before := TrimStartSplits(space, t);
    after := TrimEndSplits(space, TrimStart(space, t));
  }
}
