/**
  Which payloads are write batches: every byte belongs to the header or to an item, lengths are
  varints in any spelling of at most five bytes, and nothing runs past the end.
*/
module BatchGrammar {
  import opened Bytes
  import opened WriteBatch

  // ---------------------------------------------------------------------
  // Varints and slices
  // ---------------------------------------------------------------------

  /** Seven bits a byte, least significant first. */
  function VarintValue(s: seq<byte>): nat {
    if s == [] then 0 else s[0] % 128 + 128 * VarintValue(s[1..])
  }

  /** The high bit says whether another byte follows. */
  predicate Continued(s: seq<byte>) {
    forall i :: 0 <= i < |s| ==> (s[i] >= 128 <==> i < |s| - 1)
  }

  /** The bytes from `from` to `to` are a varint of value `v`. */
  predicate VarintSpan(data: seq<byte>, from: nat, to: nat, v: nat) {
    from < to <= |data| && to - from <= 5 && Continued(data[from..to]) && VarintValue(data[from..to]) == v
  }

  lemma ContinuedCons(s: seq<byte>)
    requires |s| > 1
    ensures Continued(s) <==> s[0] >= 128 && Continued(s[1..])
  {
    var rest := s[1..];
    assert forall i :: 0 <= i < |rest| ==> rest[i] == s[i + 1];
    assert forall i :: 0 < i < |s| ==> s[i] == rest[i - 1];
  }

  lemma {:induction false} VarintIff(data: seq<byte>, from: nat, left: nat, v: nat, to: nat)
    ensures Varint(data, from, left) == Ok((v, to)) <==>
            from < to <= |data| && to - from <= left && Continued(data[from..to]) && VarintValue(data[from..to]) == v
    decreases left
  {
    if left > 0 && from < |data| {
      if data[from] < 128 {
        if from < to <= |data| && Continued(data[from..to]) {
          assert data[from..to][0] == data[from];
        }
        var one := data[from..from + 1];
        assert one[0] == data[from] && one[1..] == [];
      } else {
        VarintIff(data, from + 1, left - 1, v / 128, to);
        if from + 1 < to <= |data| {
          var s := data[from..to];
          assert s[0] == data[from] && s[1..] == data[from + 1..to];
          ContinuedCons(s);
        } else if to == from + 1 {
          assert data[from..to][0] == data[from];
        }
      }
    }
  }

  /** `s` stands before `to`, after its length. */
  ghost predicate SliceSpan(data: seq<byte>, from: nat, at: nat, to: nat, s: seq<byte>) {
    VarintSpan(data, from, at, |s|) && at + |s| == to <= |data| && data[at..to] == s
  }

  lemma SliceIff(data: seq<byte>, from: nat, s: seq<byte>, to: nat)
    ensures Slice(data, from) == Ok((s, to)) <==> exists at: nat :: SliceSpan(data, from, at, to, s)
  {
    hide Varint, Continued, VarintValue;
    if Slice(data, from) == Ok((s, to)) {
      var n := Varint(data, from, 5).value;
      VarintIff(data, from, 5, n.0, n.1);
      assert SliceSpan(data, from, n.1, to, s);
    }
    if at: nat :| SliceSpan(data, from, at, to, s) {
      VarintIff(data, from, 5, |s|, at);
    }
  }

  // ---------------------------------------------------------------------
  // Items
  // ---------------------------------------------------------------------

  /** A tag of these is followed by the id of a column family; after any other it is 0. */
  ghost predicate FamilySpan(data: seq<byte>, pos: nat, to: nat, family: nat) {
    && pos < |data|
    && if data[pos] in {4, 5, 6, 8, 14, 16} then VarintSpan(data, pos + 1, to, family) else to == pos + 1 && family == 0
  }

  lemma FamilyIff(data: seq<byte>, pos: nat, family: nat, to: nat)
    requires pos < |data|
    ensures (if Named(data[pos]) then Varint(data, pos + 1, 5) else Ok((0, pos + 1))) == Ok((family, to)) <==>
            FamilySpan(data, pos, to, family)
  {
    hide Varint, Continued, VarintValue;
    VarintIff(data, pos + 1, 5, family, to);
  }

  /** What the tag says the item does, where it takes a key and no value, or a key and a value. */
  predicate KeyTag(tag: byte, kind: OpKind) {
    (tag in {0, 4} && kind == Delete) || (tag in {7, 8} && kind == SingleDelete)
  }

  predicate ValueTag(tag: byte, kind: OpKind) {
    || (tag in {1, 5} && kind == Put)
    || (tag in {2, 6} && kind == Merge)
    || (tag in {14, 15} && kind == RangeDelete)
    || (tag in {16, 17} && kind == BlobIndex)
  }

  /** Where the parts of an item end. */
  datatype Cuts = Cuts(family: nat, keyAt: nat, keyEnd: nat, valueAt: nat, end: nat)

  /** The bytes from `pos` to `c.end` are one item, and `op` is what it contributes. */
  ghost predicate ItemSpan(data: seq<byte>, pos: nat, c: Cuts, op: Option<Operation>) {
    && pos < c.family <= c.end <= |data|
    && exists family: nat ::
         && FamilySpan(data, pos, c.family, family)
         && ItemRest(data, data[pos], family, c, op)
  }

  ghost predicate ItemRest(data: seq<byte>, tag: byte, family: nat, c: Cuts, op: Option<Operation>) {
    match op
    case None => tag == 3 && exists blob :: SliceSpan(data, c.family, c.keyAt, c.end, blob)
    case Some(Operation(kind, cf, key, value)) =>
      if tag == 13 then kind == Noop && cf == 0 && key == [] && value == None && c.end == c.family
      else
        && cf == family && SliceSpan(data, c.family, c.keyAt, c.keyEnd, key)
        && match value
           case None => KeyTag(tag, kind) && c.end == c.keyEnd
           case Some(v) => ValueTag(tag, kind) && SliceSpan(data, c.keyEnd, c.valueAt, c.end, v)
  }

  lemma TagTable(tag: byte, kind: OpKind)
    ensures KeyTag(tag, kind) <==> KindOf(tag) == Some(kind) && kind != Noop && !TakesValue(kind)
    ensures ValueTag(tag, kind) <==> KindOf(tag) == Some(kind) && TakesValue(kind)
    ensures tag == 13 <==> KindOf(tag) == Some(Noop)
    ensures tag == 3 ==> KindOf(tag) == None && !Named(tag)
    ensures tag == 13 ==> !Named(tag)
  {}

  /** What follows the family, as the parser reads it. */
  lemma RestReads(data: seq<byte>, tag: byte, family: nat, from: nat, op: Option<Operation>, to: nat) returns (c: Cuts)
    requires tag != 3 && KindOf(tag).Some? && KindOf(tag).value != Noop
    requires Slice(data, from).Ok?
    requires var key := Slice(data, from).value;
             if TakesValue(KindOf(tag).value) then
               && Slice(data, key.1).Ok? && to == Slice(data, key.1).value.1
               && op == Some(Operation(KindOf(tag).value, family, key.0, Some(Slice(data, key.1).value.0)))
             else to == key.1 && op == Some(Operation(KindOf(tag).value, family, key.0, None))
    ensures c.family == from && c.end == to && ItemRest(data, tag, family, c, op)
  {
    hide Slice, SliceSpan, KindOf, KeyTag, ValueTag;
    var kind, key := KindOf(tag).value, Slice(data, from).value;
    TagTable(tag, kind);
    TagTable(13, Noop);
    SliceIff(data, from, key.0, key.1);
    var keyAt: nat :| SliceSpan(data, from, keyAt, key.1, key.0);
    if TakesValue(kind) {
      var value := Slice(data, key.1).value;
      SliceIff(data, key.1, value.0, value.1);
      var valueAt: nat :| SliceSpan(data, key.1, valueAt, value.1, value.0);
      c := Cuts(from, keyAt, key.1, valueAt, to);
    } else {
      c := Cuts(from, keyAt, key.1, key.1, to);
    }
  }

  lemma ItemReads(data: seq<byte>, pos: nat, op: Option<Operation>, to: nat) returns (c: Cuts)
    requires pos < |data| && ItemAt(data, pos) == Ok((op, to))
    ensures c.end == to && ItemSpan(data, pos, c, op)
  {
    hide Slice, SliceSpan, KindOf, KeyTag, ValueTag, Varint, FamilySpan, Named;
    var tag := data[pos];
    var f := if Named(tag) then Varint(data, pos + 1, 5) else Ok((0, pos + 1));
    FamilyIff(data, pos, f.value.0, f.value.1);
    TagTable(tag, Noop);
    TagTable(3, Noop);
    if tag == 3 {
      var blob := Slice(data, f.value.1).value;
      SliceIff(data, f.value.1, blob.0, blob.1);
      var at: nat :| SliceSpan(data, f.value.1, at, blob.1, blob.0);
      c := Cuts(f.value.1, at, to, to, to);
    } else if tag == 13 {
      c := Cuts(to, to, to, to, to);
    } else {
      c := RestReads(data, tag, f.value.0, f.value.1, op, to);
    }
    assert ItemRest(data, tag, f.value.0, c, op);
  }

  lemma SpanReads(data: seq<byte>, pos: nat, c: Cuts, op: Option<Operation>)
    requires ItemSpan(data, pos, c, op)
    ensures ItemAt(data, pos) == Ok((op, c.end))
  {
    hide Slice, SliceSpan, KindOf, KeyTag, ValueTag, Varint, FamilySpan, Named;
    var tag := data[pos];
    var family: nat :| FamilySpan(data, pos, c.family, family) && ItemRest(data, tag, family, c, op);
    FamilyIff(data, pos, family, c.family);
    TagTable(tag, Noop);
    match op
    case None =>
      var blob :| SliceSpan(data, c.family, c.keyAt, c.end, blob);
      SliceIff(data, c.family, blob, c.end);
    case Some(Operation(kind, cf, key, value)) =>
      TagTable(tag, kind);
      if tag != 13 {
        SliceIff(data, c.family, key, c.keyEnd);
        if value.Some? {
          SliceIff(data, c.keyEnd, value.value, c.end);
        }
      }
  }

  // ---------------------------------------------------------------------
  // Batches
  // ---------------------------------------------------------------------

  datatype Span = Span(cuts: Cuts, op: Option<Operation>)

  /** The items lie one after another, from `pos` to the end. */
  ghost predicate Spans(data: seq<byte>, pos: nat, spans: seq<Span>)
    decreases spans
  {
    if spans == [] then pos == |data|
    else ItemSpan(data, pos, spans[0].cuts, spans[0].op) && Spans(data, spans[0].cuts.end, spans[1..])
  }

  function Operations(spans: seq<Span>): seq<Operation> {
    if spans == [] then []
    else (if spans[0].op.Some? then [spans[0].op.value] else []) + Operations(spans[1..])
  }

  lemma {:induction false} ItemsRead(data: seq<byte>, pos: nat) returns (spans: seq<Span>)
    requires pos <= |data| && ItemsFrom(data, pos).Ok?
    ensures Spans(data, pos, spans) && Operations(spans) == ItemsFrom(data, pos).value
    decreases |data| - pos
  {
    hide ItemAt, ItemSpan;
    if pos == |data| {
      spans := [];
    } else {
      var item := ItemAt(data, pos).value;
      var c := ItemReads(data, pos, item.0, item.1);
      var rest := ItemsRead(data, item.1);
      spans := [Span(c, item.0)] + rest;
      assert spans[1..] == rest;
    }
  }

  lemma {:induction false} SpansRead(data: seq<byte>, pos: nat, spans: seq<Span>)
    requires pos <= |data| && Spans(data, pos, spans)
    ensures ItemsFrom(data, pos) == Ok(Operations(spans))
    decreases spans
  {
    hide ItemAt;
    if spans != [] {
      SpanReads(data, pos, spans[0].cuts, spans[0].op);
      SpansRead(data, spans[0].cuts.end, spans[1..]);
    }
  }

  /** A payload is a batch with this sequence number and these operations if and only if its
      header says the number and how many operations there are, and the rest is items that
      contribute them, with no byte over. */
  lemma BatchIff(payload: seq<byte>, sequence: nat, ops: seq<Operation>)
    ensures Batch(payload) == Ok((sequence, ops)) <==>
            && |payload| >= 12 && sequence < Pow256(8) && |ops| < Pow256(4)
            && payload[..8] == ToLittleEndian(sequence, 8) && payload[8..12] == ToLittleEndian(|ops|, 4)
            && exists spans :: Spans(payload, 12, spans) && Operations(spans) == ops
  {
    hide ItemsFrom, Spans, Operations, LittleEndian, ToLittleEndian, Pow256;
    if |payload| >= 12 {
      ToLittleEndianInverse(payload[..8]);
      ToLittleEndianInverse(payload[8..12]);
      if ItemsFrom(payload, 12).Ok? {
        var spans := ItemsRead(payload, 12);
      }
      if sequence < Pow256(8) && payload[..8] == ToLittleEndian(sequence, 8) {
        LittleEndianInverse(sequence, 8);
      }
      if |ops| < Pow256(4) && payload[8..12] == ToLittleEndian(|ops|, 4) {
        LittleEndianInverse(|ops|, 4);
      }
      forall spans | Spans(payload, 12, spans) ensures ItemsFrom(payload, 12) == Ok(Operations(spans)) {
        SpansRead(payload, 12, spans);
      }
    }
  }
}
