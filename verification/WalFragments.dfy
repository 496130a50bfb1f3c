/**
  Which sequences of physical records the reader accepts: every MIDDLE and LAST needs an open
  fragment, and a FULL or FIRST must not come while bytes of a fragment are waiting. Bytes, not
  an open fragment: an interrupted fragment that is still empty goes unnoticed.
*/
module WalFragments {
  import opened Bytes
  import opened WalLog
  import opened WalTheorems

  /** No LAST stands between `j` and `i`. */
  predicate Unclosed(records: seq<Physical>, j: nat, i: nat) {
    forall k :: j < k < i && k < |records| ==> records[k].kind != LAST
  }

  /** Before record `i` a FIRST has not yet been closed. */
  predicate Open(records: seq<Physical>, i: nat)
    requires i <= |records|
  {
    exists j :: 0 <= j < i && records[j].kind == FIRST && Unclosed(records, j, i)
  }

  predicate IsPart(r: Physical) { r.kind == FIRST || r.kind == MIDDLE }

  /** Before record `i` some non-empty FIRST or MIDDLE has not yet been closed. */
  predicate Waiting(records: seq<Physical>, i: nat)
    requires i <= |records|
  {
    exists j :: 0 <= j < i && IsPart(records[j]) && records[j].payload != [] && Unclosed(records, j, i)
  }

  predicate Fits(records: seq<Physical>, i: nat)
    requires i < |records|
  {
    var kind := records[i].kind;
    if kind == FULL || kind == FIRST then !Waiting(records, i)
    else if kind == MIDDLE || kind == LAST then Open(records, i)
    else false
  }

  predicate Accepts(records: seq<Physical>) {
    forall i :: 0 <= i < |records| ==> Fits(records, i)
  }

  // ---------------------------------------------------------------------
  // One record more
  // ---------------------------------------------------------------------

  lemma {:induction false} AssembleSnoc(a: Assembly, records: seq<Physical>, r: Physical)
    ensures Assemble(a, records + [r]) == Absorb(Assemble(a, records), r)
    decreases records
  {
    hide Absorb;
    if records == [] {
      assert records + [r] == [r];
      assert Assemble(Absorb(a, r), [][..]) == Absorb(a, r);
    } else {
      assert (records + [r])[1..] == records[1..] + [r];
      AssembleSnoc(Absorb(a, records[0]), records[1..], r);
    }
  }

  /** What waits before record `i` depends on the records before it only. */
  lemma SamePast(records: seq<Physical>, r: Physical, i: nat)
    requires i <= |records|
    ensures Open(records + [r], i) <==> Open(records, i)
    ensures Waiting(records + [r], i) <==> Waiting(records, i)
  {
    var all := records + [r];
    assert forall k :: 0 <= k < |records| ==> all[k] == records[k];
    assert forall j :: 0 <= j < i ==> (Unclosed(all, j, i) <==> Unclosed(records, j, i));
  }

  lemma AcceptsSnoc(records: seq<Physical>, r: Physical)
    ensures Accepts(records + [r]) <==> Accepts(records) && Fits(records + [r], |records|)
  {
    var all := records + [r];
    forall i | 0 <= i < |records| ensures Fits(all, i) <==> Fits(records, i) {
      SamePast(records, r, i);
      assert all[i] == records[i];
    }
  }

  lemma OpenSnoc(records: seq<Physical>, r: Physical)
    ensures Open(records + [r], |records| + 1) <==> r.kind == FIRST || (r.kind != LAST && Open(records, |records|))
    ensures Waiting(records + [r], |records| + 1) <==>
            r.kind != LAST && ((IsPart(r) && r.payload != []) || Waiting(records, |records|))
  {
    var all, n := records + [r], |records|;
    assert all[n] == r && forall k :: 0 <= k < n ==> all[k] == records[k];
    assert Unclosed(all, n, n + 1);
    forall j | 0 <= j < n ensures Unclosed(all, j, n + 1) <==> r.kind != LAST && Unclosed(records, j, n) {
      if Unclosed(all, j, n + 1) {
        assert all[n].kind != LAST;
      }
    }
  }

  /** The reader accepts exactly these sequences, and knows what is open and what is waiting. */
  lemma {:induction false} AssembleAcceptsIff(records: seq<Physical>)
    ensures var a := Assemble(Empty, records);
            && (a.error.None? <==> Accepts(records))
            && (a.error.None? ==> (a.start.Some? <==> Open(records, |records|)) &&
                                  (a.buffer != [] <==> Waiting(records, |records|)))
    decreases |records|
  {
    hide Open, Waiting, Accepts;
    if records == [] {
      NothingYet();
    } else {
      var n := |records| - 1;
      var front, r := records[..n], records[n];
      assert records == front + [r];
      AssembleAcceptsIff(front);
      AssembleSnoc(Empty, front, r);
      AcceptsSnoc(front, r);
      SamePast(front, r, n);
      OpenSnoc(front, r);
    }
  }

  lemma NothingYet()
    ensures Accepts([]) && !Open([], 0) && !Waiting([], 0)
  {}

  /** A file is read without error if and only if its headers are sound, its records follow each
      other in an accepted way, and no fragment is left open. */
  lemma ReadSucceedsIff(file: seq<byte>)
    ensures var s := Scan(file, 0);
            Read(file).error.None? <==> s.error.None? && Accepts(s.records) && !Open(s.records, |s.records|)
  {
    hide Scan, Assemble, Accepts, Open;
    AssembleAcceptsIff(Scan(file, 0).records);
  }

  /** A record that does not follow stops the reader with an error of its own kind, at its own
      offset, and nothing more is yielded. */
  lemma FaultNamed(records: seq<Physical>, r: Physical)
    requires Accepts(records) && !Fits(records + [r], |records|)
    ensures var a := Assemble(Empty, records + [r]);
            && a.yielded == Assemble(Empty, records).yielded
            && a.error == Some(if r.kind == FULL then FullInterruptedFragments(r.offset)
                               else if r.kind == FIRST then FirstInterruptedFragments(r.offset)
                               else if r.kind == MIDDLE then OrphanMiddle(r.offset)
                               else if r.kind == LAST then OrphanLast(r.offset)
                               else UnsupportedType(r.offset))
  {
    hide Assemble, Accepts, Open, Waiting;
    AssembleAcceptsIff(records);
    AssembleSnoc(Empty, records, r);
    SamePast(records, r, |records|);
  }

  // ---------------------------------------------------------------------
  // Interrupted fragments
  // ---------------------------------------------------------------------

  /** `f` is the FIRST of the fragment that is open after these records. */
  predicate OpenFrom(records: seq<Physical>, f: nat) {
    && f < |records| && records[f].kind == FIRST
    && forall k :: f < k < |records| ==> records[k].kind != FIRST && records[k].kind != LAST
  }

  /** With a fragment open, a FULL or FIRST stops the reader if and only if some part of the
      fragment, from its FIRST on, was not empty. */
  lemma InterruptionStopsIff(records: seq<Physical>, f: nat, r: Physical)
    requires Accepts(records) && OpenFrom(records, f) && (r.kind == FULL || r.kind == FIRST)
    ensures Assemble(Empty, records + [r]).error.Some? <==>
            exists j :: f <= j < |records| && IsPart(records[j]) && records[j].payload != []
  {
    hide Assemble;
    AssembleAcceptsIff(records + [r]);
    AcceptsSnoc(records, r);
    SamePast(records, r, |records|);
    var n := |records|;
    assert Fits(records, f);
    forall j: nat ensures Unclosed(records, j, n) ==> Unclosed(records, j, f) {
    }
    forall j | f <= j < n && IsPart(records[j]) && records[j].payload != [] ensures Waiting(records, n) {
      assert Unclosed(records, j, n);
    }
  }

  /** So an empty FIRST, a whole record and a LAST are read without error, and the LAST is given
      the FIRST's offset. */
  lemma EmptyFirstInterrupted(x: seq<byte>, y: seq<byte>)
    requires 3 * HEADER_SIZE + |x| + |y| <= BLOCK_SIZE
    ensures Read(Fragment(FIRST, []) + Fragment(FULL, x) + Fragment(LAST, y)) ==
            Observed([LogicalRecord(HEADER_SIZE, x), LogicalRecord(0, y)], None)
  {
    hide Fragment, ReadFrom;
    var first, full, last := Fragment(FIRST, []), Fragment(FULL, x), Fragment(LAST, y);
    var file := first + full + last;
    var p, q := HEADER_SIZE, 2 * HEADER_SIZE + |x|;
    assert Holds(file, 0, first) && Holds(file, p, full) && Holds(file, q, last);
    var a := Absorb(Empty, Physical(0, FIRST, []));
    var b := Absorb(a, Physical(p, FULL, x));
    var c := Absorb(b, Physical(q, LAST, y));
    FragmentRead(file, 0, FIRST, [], Empty);
    FragmentRead(file, p, FULL, x, a);
    FragmentRead(file, q, LAST, y, b);
    assert a.buffer == [] && b.buffer == [] && [] + y == y;
    assert b.yielded == [LogicalRecord(p, x)];
    assert c.yielded == [LogicalRecord(p, x)] + [LogicalRecord(0, y)] && c.start.None?;
    ReadEnd(file, c);
  }
}
