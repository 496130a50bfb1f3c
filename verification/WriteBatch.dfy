/**
  The WriteBatch payload of a logical WAL record: a 12-byte header (sequence,
  count) and a run of tagged items with varint-prefixed byte strings.
*/
module WriteBatch {
  import opened Arithmetic
  import opened Bytes

  datatype BatchError =
    | ShortHeader
    | TruncatedVarint
    | VarintTooLong
    | SliceTooLong
    | UnsupportedTag(tag: byte)
    | CountMismatch(header: nat, parsed: nat)

  datatype Result<+T> = Ok(value: T) | Err(error: BatchError) {
    predicate IsFailure() { Err? }
    function PropagateFailure<U>(): Result<U>
      requires Err?
    {
      Err(error)
    }
    function Extract(): T
      requires Ok?
    {
      value
    }
  }

  datatype OpKind = Put | Delete | Merge | SingleDelete | RangeDelete | BlobIndex | Noop

  datatype Operation = Operation(kind: OpKind, columnFamily: nat, key: seq<byte>, value: Option<seq<byte>>)

  // ---------------------------------------------------------------------
  // Varints and slices
  // ---------------------------------------------------------------------

  /** A varint of at most `left` bytes at `cursor`: its value and the cursor after it. */
  function Varint(data: seq<byte>, cursor: nat, left: nat): (r: Result<(nat, nat)>)
    ensures r.Ok? ==> cursor < r.value.1 <= |data|
    decreases left
  {
    if left == 0 then Err(VarintTooLong)
    else if cursor >= |data| then Err(TruncatedVarint)
    else if data[cursor] < 0x80 then Ok((data[cursor], cursor + 1))
    else
      var rest :- Varint(data, cursor + 1, left - 1);
      Ok((data[cursor] - 0x80 + 0x80 * rest.0, rest.1))
  }

  function Pow128(n: nat): (p: nat)
    ensures p > 0
  {
    if n == 0 then 1 else 128 * Pow128(n - 1)
  }

  /** A partial value and the varint still to read, put together. */
  function Resume(value: nat, scale: nat, rest: Result<(nat, nat)>): Result<(nat, nat)> {
    if rest.Err? then rest else Ok((value + scale * rest.value.0, rest.value.1))
  }

  lemma ResumeStep(value: nat, scale: nat, b: byte, rest: Result<(nat, nat)>)
    requires b >= 0x80
    ensures Resume(value, scale, Resume(b - 0x80, 0x80, rest)) ==
            Resume(value + (b % 0x80) * scale, scale * 0x80, rest)
  {
    if rest.Ok? {
      var v := rest.value.0;
      assert scale * (b - 0x80 + 0x80 * v) == (b % 0x80) * scale + scale * 0x80 * v;
    }
  }

  /** Reading one more byte, in terms of what the loop has accumulated. */
  lemma VarintStep(data: seq<byte>, cursor: nat, left: nat, value: nat, scale: nat)
    requires left > 0
    ensures Resume(value, scale, Varint(data, cursor, left)) ==
            if cursor >= |data| then Err(TruncatedVarint)
            else if data[cursor] < 0x80 then Ok((value + (data[cursor] % 0x80) * scale, cursor + 1))
            else Resume(value + (data[cursor] % 0x80) * scale, scale * 0x80, Varint(data, cursor + 1, left - 1))
  {
    if cursor < |data| && data[cursor] >= 0x80 {
      ResumeStep(value, scale, data[cursor], Varint(data, cursor + 1, left - 1));
    }
  }

  lemma ResumeStart(data: seq<byte>, cursor: nat)
    ensures Resume(0, 1, Varint(data, cursor, 5)) == Varint(data, cursor, 5)
    ensures forall value, scale :: Resume(value, scale, Varint(data, cursor, 0)) == Err(VarintTooLong)
  {}

  /** `read_varint32`: five bytes at most, so values up to 2^35 - 1. Each group of
      seven bits lands above the ones before it, so the disjunction is a sum. */
  method ReadVarint32(data: seq<byte>, start: nat) returns (r: Result<(nat, nat)>)
    ensures r == Varint(data, start, 5)
  {
    hide Varint, Resume;
    var value: nat, scale: nat, cursor := 0, 1, start;
    ResumeStart(data, start);
    for i := 0 to 5
      invariant cursor == start + i
      invariant Resume(value, scale, Varint(data, cursor, 5 - i)) == Varint(data, start, 5)
    {
      VarintStep(data, cursor, 5 - i, value, scale);
      if cursor >= |data| {
        return Err(TruncatedVarint);
      }
      var b: int := data[cursor];
      cursor := cursor + 1;
      value := value + (b % 0x80) * scale;
      if b < 0x80 {
        return Ok((value, cursor));
      }
      scale := scale * 0x80;
    }
    ResumeStart(data, cursor);
    r := Err(VarintTooLong);
  }

  function Slice(data: seq<byte>, cursor: nat): (r: Result<(seq<byte>, nat)>)
    ensures r.Ok? ==> cursor < r.value.1 <= |data|
  {
    var n :- Varint(data, cursor, 5);
    if n.1 + n.0 > |data| then Err(SliceTooLong) else Ok((data[n.1..n.1 + n.0], n.1 + n.0))
  }

  method ReadSlice(data: seq<byte>, cursor: nat) returns (r: Result<(seq<byte>, nat)>)
    ensures r == Slice(data, cursor)
  {
    hide Varint;
    var n :- ReadVarint32(data, cursor);
    var end := n.1 + n.0;
    if end > |data| {
      return Err(SliceTooLong);
    }
    r := Ok((data[n.1..end], end));
  }

  // ---------------------------------------------------------------------
  // Items
  // ---------------------------------------------------------------------

  /** One item of a batch as a writer sees it. */
  datatype Item =
    | Write(kind: OpKind, family: Option<nat>, key: seq<byte>, value: Option<seq<byte>>)
    | LogData(blob: seq<byte>)

  predicate TakesValue(kind: OpKind) {
    kind in {Put, Merge, RangeDelete, BlobIndex}
  }

  /** The tag table: kind, and whether a column family id follows. */
  function TagOf(kind: OpKind, named: bool): byte {
    match kind
    case Delete => if named then 4 else 0
    case Put => if named then 5 else 1
    case Merge => if named then 6 else 2
    case SingleDelete => if named then 8 else 7
    case Noop => 13
    case RangeDelete => if named then 14 else 15
    case BlobIndex => if named then 16 else 17
  }

  const LOG_DATA: byte := 3

  function KindOf(tag: byte): Option<OpKind> {
    if tag == 0 || tag == 4 then Some(Delete)
    else if tag == 1 || tag == 5 then Some(Put)
    else if tag == 2 || tag == 6 then Some(Merge)
    else if tag == 7 || tag == 8 then Some(SingleDelete)
    else if tag == 13 then Some(Noop)
    else if tag == 14 || tag == 15 then Some(RangeDelete)
    else if tag == 16 || tag == 17 then Some(BlobIndex)
    else None
  }

  predicate Named(tag: byte) {
    tag in {4, 5, 6, 8, 14, 16}
  }

  /** The item at `cursor`, as the operation it contributes, and the cursor after it. */
  function ItemAt(data: seq<byte>, cursor: nat): (r: Result<(Option<Operation>, nat)>)
    requires cursor < |data|
    ensures r.Ok? ==> cursor < r.value.1 <= |data|
  {
    var tag := data[cursor];
    var family :- if Named(tag) then Varint(data, cursor + 1, 5) else Ok((0, cursor + 1));
    if tag == LOG_DATA then
      var blob :- Slice(data, family.1);
      Ok((None, blob.1))
    else
      match KindOf(tag)
      case None => Err(UnsupportedTag(tag))
      case Some(Noop) => Ok((Some(Operation(Noop, 0, [], None)), family.1))
      case Some(kind) =>
        var key :- Slice(data, family.1);
        if TakesValue(kind) then
          var value :- Slice(data, key.1);
          Ok((Some(Operation(kind, family.0, key.0, Some(value.0))), value.1))
        else Ok((Some(Operation(kind, family.0, key.0, None)), key.1))
  }

  function Contributed(op: Option<Operation>): seq<Operation> {
    if op.Some? then [op.value] else []
  }

  function ItemsFrom(data: seq<byte>, cursor: nat): Result<seq<Operation>>
    requires cursor <= |data|
    decreases |data| - cursor
  {
    if cursor == |data| then Ok([])
    else
      var item :- ItemAt(data, cursor);
      var rest :- ItemsFrom(data, item.1);
      Ok(Contributed(item.0) + rest)
  }

  function Batch(payload: seq<byte>): Result<(nat, seq<Operation>)> {
    if |payload| < 12 then Err(ShortHeader)
    else
      var operations :- ItemsFrom(payload, 12);
      var count := LittleEndian(payload[8..12]);
      if |operations| != count then Err(CountMismatch(count, |operations|))
      else Ok((LittleEndian(payload[..8]), operations))
  }

  /** One turn of the parser's loop. */
  method ReadItem(data: seq<byte>, start: nat) returns (r: Result<(Option<Operation>, nat)>)
    requires start < |data|
    ensures r == ItemAt(data, start)
  {
    hide Varint, Slice;
    var tag, cursor := data[start], start + 1;
    var columnFamily := 0;
    if tag in {4, 5, 6, 8, 14, 16} {
      var family :- ReadVarint32(data, cursor);
      columnFamily, cursor := family.0, family.1;
    }
    if tag == 3 {
      var blob :- ReadSlice(data, cursor);
      return Ok((None, blob.1));
    }
    if tag == 13 {
      return Ok((Some(Operation(Noop, 0, [], None)), cursor));
    }
    if tag in {0, 4, 7, 8} {
      var key :- ReadSlice(data, cursor);
      return Ok((Some(Operation(if tag in {0, 4} then Delete else SingleDelete, columnFamily, key.0, None)), key.1));
    }
    if tag in {1, 2, 5, 6, 14, 15, 16, 17} {
      var key :- ReadSlice(data, cursor);
      var value :- ReadSlice(data, key.1);
      var kind := if tag in {1, 5} then Put else if tag in {2, 6} then Merge
                  else if tag in {14, 15} then RangeDelete else BlobIndex;
      return Ok((Some(Operation(kind, columnFamily, key.0, Some(value.0))), value.1));
    }
    r := Err(UnsupportedTag(tag));
  }

  /** Operations read so far, and what the rest of the payload adds. */
  function Prepend(done: seq<Operation>, rest: Result<seq<Operation>>): Result<seq<Operation>> {
    if rest.Err? then rest else Ok(done + rest.value)
  }

  /** `parse_write_batch`. */
  method ParseWriteBatch(payload: seq<byte>) returns (r: Result<(nat, seq<Operation>)>)
    ensures r == Batch(payload)
  {
    hide ItemAt, LittleEndian;
    if |payload| < 12 {
      return Err(ShortHeader);
    }
    var sequence, expectedCount := LittleEndian(payload[..8]), LittleEndian(payload[8..12]);
    var cursor := 12;
    var operations: seq<Operation> := [];
    PrependStart(payload, 12);
    while cursor < |payload|
      invariant 12 <= cursor <= |payload|
      invariant Prepend(operations, ItemsFrom(payload, cursor)) == ItemsFrom(payload, 12)
    {
      var next := ReadItem(payload, cursor);
      if next.Err? {
        return Err(next.error);
      }
      var item := next.value;
      PrependStep(operations, Contributed(item.0), ItemsFrom(payload, item.1));
      operations := operations + Contributed(item.0);
      cursor := item.1;
    }
    assert operations + [] == operations;
    if |operations| != expectedCount {
      return Err(CountMismatch(expectedCount, |operations|));
    }
    r := Ok((sequence, operations));
  }

  lemma PrependStart(payload: seq<byte>, cursor: nat)
    requires cursor <= |payload|
    ensures Prepend([], ItemsFrom(payload, cursor)) == ItemsFrom(payload, cursor)
  {
    var all := ItemsFrom(payload, cursor);
    if all.Ok? {
      assert [] + all.value == all.value;
    }
  }

  lemma PrependStep(done: seq<Operation>, more: seq<Operation>, rest: Result<seq<Operation>>)
    ensures Prepend(done, Prepend(more, rest)) == Prepend(done + more, rest)
  {
    if rest.Ok? {
      assert done + (more + rest.value) == done + more + rest.value;
    }
  }

  // ---------------------------------------------------------------------
  // A writer, and its inverse
  // ---------------------------------------------------------------------

  function EncodeVarint(v: nat): (s: seq<byte>)
    ensures |s| > 0
  {
    if v < 0x80 then [v] else [0x80 + v % 0x80] + EncodeVarint(v / 0x80)
  }

  function EncodeSlice(s: seq<byte>): (bytes: seq<byte>)
    ensures |bytes| > 0
  {
    EncodeVarint(|s|) + s
  }

  function EncodeItem(item: Item): (bytes: seq<byte>)
    ensures |bytes| > 0
  {
    match item
    case LogData(blob) => [LOG_DATA] + EncodeSlice(blob)
    case Write(kind, family, key, value) =>
      [TagOf(kind, family.Some?)]
      + (if family.Some? then EncodeVarint(family.value) else [])
      + (if kind == Noop then [] else EncodeSlice(key))
      + (if value.Some? then EncodeSlice(value.value) else [])
  }

  function EncodeItems(items: seq<Item>): seq<byte> {
    if items == [] then [] else EncodeItem(items[0]) + EncodeItems(items[1..])
  }

  function EncodeBatch(sequence: nat, count: nat, items: seq<Item>): seq<byte> {
    ToLittleEndian(sequence, 8) + ToLittleEndian(count, 4) + EncodeItems(items)
  }

  /** What a batch writer can produce: sizes and ids that fit a five-byte varint. */
  predicate Encodable(item: Item) {
    match item
    case LogData(blob) => |blob| < Pow128(5)
    case Write(kind, family, key, value) =>
      && (family.Some? ==> family.value < Pow128(5))
      && |key| < Pow128(5)
      && (value.Some? <==> TakesValue(kind))
      && (value.Some? ==> |value.value| < Pow128(5))
      && (kind == Noop ==> family == None && key == [])
  }

  function OperationOf(item: Item): Option<Operation> {
    match item
    case LogData(_) => None
    case Write(kind, family, key, value) =>
      Some(Operation(kind, if family.Some? then family.value else 0, key, value))
  }

  function OperationsOf(items: seq<Item>): seq<Operation> {
    if items == [] then [] else Contributed(OperationOf(items[0])) + OperationsOf(items[1..])
  }

  lemma {:induction false} VarintInverse(data: seq<byte>, pos: nat, v: nat, left: nat)
    requires Holds(data, pos, EncodeVarint(v)) && v < Pow128(left) && left > 0
    ensures Varint(data, pos, left) == Ok((v, pos + |EncodeVarint(v)|))
    decreases left
  {
    assert data[pos] == EncodeVarint(v)[0];
    if v >= 0x80 {
      HoldsSplit(data, pos, [0x80 + v % 0x80], EncodeVarint(v / 0x80));
      VarintInverse(data, pos + 1, v / 0x80, left - 1);
    }
  }

  lemma SliceInverse(data: seq<byte>, pos: nat, s: seq<byte>)
    requires Holds(data, pos, EncodeSlice(s)) && |s| < Pow128(5)
    ensures Slice(data, pos) == Ok((s, pos + |EncodeSlice(s)|))
  {
    hide EncodeVarint, Varint, Pow128;
    HoldsSplit(data, pos, EncodeVarint(|s|), s);
    VarintInverse(data, pos, |s|, 5);
  }

  lemma TagInverse(kind: OpKind, named: bool)
    requires kind == Noop ==> !named
    ensures KindOf(TagOf(kind, named)) == Some(kind)
    ensures Named(TagOf(kind, named)) == named && TagOf(kind, named) != LOG_DATA
  {}

  lemma ItemInverse(data: seq<byte>, pos: nat, item: Item)
    requires Encodable(item) && Holds(data, pos, EncodeItem(item))
    ensures ItemAt(data, pos) == Ok((OperationOf(item), pos + |EncodeItem(item)|))
  {
    hide EncodeVarint, Varint, Pow128, EncodeSlice, Slice, Holds, TagOf, KindOf, Named;
    HoldsFirst(data, pos, EncodeItem(item));
    match item
    case LogData(blob) =>
      HoldsSplit(data, pos, [LOG_DATA], EncodeSlice(blob));
      SliceInverse(data, pos + 1, blob);
      LogDataTag();
    case Write(kind, family, key, value) =>
      TagInverse(kind, family.Some?);
      var tag := [TagOf(kind, family.Some?)];
      var f := if family.Some? then EncodeVarint(family.value) else [];
      var k := if kind == Noop then [] else EncodeSlice(key);
      var v := if value.Some? then EncodeSlice(value.value) else [];
      HoldsSplit(data, pos, tag + f + k, v);
      HoldsSplit(data, pos, tag + f, k);
      HoldsSplit(data, pos, tag, f);
      if family.Some? {
        VarintInverse(data, pos + 1, family.value, 5);
      }
      if kind != Noop {
        SliceInverse(data, pos + 1 + |f|, key);
      }
      if value.Some? {
        SliceInverse(data, pos + 1 + |f| + |k|, value.value);
      }
  }

  lemma LogDataTag()
    ensures !Named(LOG_DATA)
  {}

  lemma HoldsFirst(data: seq<byte>, pos: nat, bytes: seq<byte>)
    requires Holds(data, pos, bytes) && |bytes| > 0
    ensures pos < |data| && data[pos] == bytes[0]
  {
    assert data[pos..pos + |bytes|][0] == data[pos];
  }

  lemma {:induction false} ItemsInverse(data: seq<byte>, pos: nat, items: seq<Item>)
    requires forall i :: 0 <= i < |items| ==> Encodable(items[i])
    requires Holds(data, pos, EncodeItems(items)) && pos + |EncodeItems(items)| == |data|
    ensures ItemsFrom(data, pos) == Ok(OperationsOf(items))
    decreases items
  {
    hide ItemAt, EncodeItem, Encodable, OperationOf;
    if items != [] {
      HoldsSplit(data, pos, EncodeItem(items[0]), EncodeItems(items[1..]));
      HoldsFirst(data, pos, EncodeItem(items[0]));
      ItemInverse(data, pos, items[0]);
      ItemsInverse(data, pos + |EncodeItem(items[0])|, items[1..]);
    }
  }

  /** For every list of items, parsing its encoding returns the sequence number and the
      operations without the LogData, exactly when the header's count is right. */
  lemma ParseInvertsEncode(sequence: nat, count: nat, items: seq<Item>)
    requires sequence < Pow256(8) && count < Pow256(4)
    requires forall i :: 0 <= i < |items| ==> Encodable(items[i])
    ensures Batch(EncodeBatch(sequence, count, items)) ==
            if count == |OperationsOf(items)| then Ok((sequence, OperationsOf(items)))
            else Err(CountMismatch(count, |OperationsOf(items)|))
  {
    hide EncodeItems, ItemsFrom, LittleEndian, ToLittleEndian, Encodable, Pow256;
    var payload := EncodeBatch(sequence, count, items);
    assert payload[..8] == ToLittleEndian(sequence, 8);
    assert payload[8..12] == ToLittleEndian(count, 4);
    assert payload[12..] == EncodeItems(items);
    LittleEndianInverse(sequence, 8);
    LittleEndianInverse(count, 4);
    ItemsInverse(payload, 12, items);
  }
}
