/**
  The physical and logical layer of a RocksDB write-ahead log: 32 KiB blocks of
  checksummed records, and the reassembly of fragmented payloads.

  `Scan` parses physical records, `Absorb` is one step of reassembly, and `Read`
  is what the tool observes of a file: the records it yields, then its error.
*/
module WalLog {
  import opened Bytes
  import opened Crc32c

  const BLOCK_SIZE: nat := 32768
  const HEADER_SIZE: nat := 7

  const FULL: byte := 1
  const FIRST: byte := 2
  const MIDDLE: byte := 3
  const LAST: byte := 4

  datatype LogicalRecord = LogicalRecord(offset: nat, payload: seq<byte>)

  datatype Physical = Physical(offset: nat, kind: byte, payload: seq<byte>)

  datatype WalError =
    | NonzeroAfterZeroRecord(offset: nat)
    | CrossesBlock(offset: nat)
    | CrcMismatch(offset: nat)
    | FullInterruptedFragments(offset: nat)
    | FirstInterruptedFragments(offset: nat)
    | OrphanMiddle(offset: nat)
    | OrphanLast(offset: nat)
    | UnsupportedType(offset: nat)
    | TruncatedFragments(offset: nat)

  // ---------------------------------------------------------------------
  // Physical records
  // ---------------------------------------------------------------------

  /** End of the block that holds position `pos`; the file's last block may be short. */
  function BlockEnd(file: seq<byte>, pos: nat): (end: nat)
    requires pos < |file|
    ensures pos < end <= |file|
  {
    var full := (pos / BLOCK_SIZE + 1) * BLOCK_SIZE;
    if full <= |file| then full else |file|
  }

  predicate AllZero(s: seq<byte>) {
    forall i :: 0 <= i < |s| ==> s[i] == 0
  }

  function RecordCrc(kind: byte, payload: seq<byte>): (crc: nat)
    ensures crc < WORD
  {
    ChecksumBounded([kind] + payload);
    MaskCrc32c(Checksum([kind] + payload))
  }

  /** What the bytes from a cursor to the end of its block start with. */
  datatype Header =
    | Padding                       // too few bytes left, or a zero record: the block is over
    | Record(physical: Physical)
    | Bad(error: WalError)

  function StoredCrc(tail: seq<byte>): nat
    requires |tail| >= HEADER_SIZE
  {
    LittleEndian(tail[..4])
  }

  function Length(tail: seq<byte>): nat
    requires |tail| >= HEADER_SIZE
  {
    LittleEndian(tail[4..6])
  }

  /** `tail` is the rest of a block, `offset` the file position of its first byte. */
  function ReadHeader(tail: seq<byte>, offset: nat): (h: Header)
    ensures h.Record? ==> h.physical.offset == offset && HEADER_SIZE + |h.physical.payload| <= |tail|
  {
    if |tail| < HEADER_SIZE then Padding
    else
      var crc, length, kind := StoredCrc(tail), Length(tail), tail[6];
      if crc == 0 && length == 0 && kind == 0 then
        if AllZero(tail) then Padding else Bad(NonzeroAfterZeroRecord(offset))
      else if HEADER_SIZE + length > |tail| then Bad(CrossesBlock(offset))
      else
        var payload := tail[HEADER_SIZE..HEADER_SIZE + length];
        if RecordCrc(kind, payload) != crc then Bad(CrcMismatch(offset))
        else Record(Physical(offset, kind, payload))
  }

  function HeaderAt(file: seq<byte>, pos: nat): (h: Header)
    requires pos < |file|
    ensures h.Record? ==>
              && h.physical.offset == pos
              && pos + HEADER_SIZE + |h.physical.payload| <= BlockEnd(file, pos)
  {
    ReadHeader(file[pos..BlockEnd(file, pos)], pos)
  }

  datatype Scanned = Scanned(records: seq<Physical>, error: Option<WalError>)

  function Scan(file: seq<byte>, pos: nat): Scanned
    requires pos <= |file|
    decreases |file| - pos
  {
    if pos == |file| then Scanned([], None)
    else
      match HeaderAt(file, pos)
      case Padding => Scan(file, BlockEnd(file, pos))
      case Bad(e) => Scanned([], Some(e))
      case Record(r) =>
        var rest := Scan(file, pos + HEADER_SIZE + |r.payload|);
        Scanned([r] + rest.records, rest.error)
  }

  // ---------------------------------------------------------------------
  // Reassembly
  // ---------------------------------------------------------------------

  datatype Assembly = Assembly(
    buffer: seq<byte>,
    start: Option<nat>,
    yielded: seq<LogicalRecord>,
    error: Option<WalError>)

  const Empty := Assembly([], None, [], None)

  function Absorb(a: Assembly, r: Physical): Assembly {
    if a.error.Some? then a
    else if r.kind == FULL then
      if a.buffer != [] then a.(error := Some(FullInterruptedFragments(r.offset)))
      else a.(yielded := a.yielded + [LogicalRecord(r.offset, r.payload)])
    else if r.kind == FIRST then
      if a.buffer != [] then a.(error := Some(FirstInterruptedFragments(r.offset)))
      else a.(buffer := a.buffer + r.payload, start := Some(r.offset))
    else if r.kind == MIDDLE then
      if a.start.None? then a.(error := Some(OrphanMiddle(r.offset)))
      else a.(buffer := a.buffer + r.payload)
    else if r.kind == LAST then
      if a.start.None? then a.(error := Some(OrphanLast(r.offset)))
      else Assembly([], None, a.yielded + [LogicalRecord(a.start.value, a.buffer + r.payload)], None)
    else a.(error := Some(UnsupportedType(r.offset)))
  }

  function Assemble(a: Assembly, records: seq<Physical>): Assembly
    decreases records
  {
    if records == [] then a else Assemble(Absorb(a, records[0]), records[1..])
  }

  datatype Observed = Observed(yielded: seq<LogicalRecord>, error: Option<WalError>)

  /** The end of the file: the first error met decides, an open fragment is an error. */
  function Finish(a: Assembly, error: Option<WalError>): Observed {
    if a.error.Some? then Observed(a.yielded, a.error)
    else if error.Some? then Observed(a.yielded, error)
    else if a.start.Some? then Observed(a.yielded, Some(TruncatedFragments(a.start.value)))
    else Observed(a.yielded, None)
  }

  function ReadFrom(file: seq<byte>, pos: nat, a: Assembly): Observed
    requires pos <= |file|
  {
    var s := Scan(file, pos);
    Finish(Assemble(a, s.records), s.error)
  }

  function Read(file: seq<byte>): Observed {
    ReadFrom(file, 0, Empty)
  }

  // ---------------------------------------------------------------------
  // The reader
  // ---------------------------------------------------------------------

  lemma {:induction false} AssembleError(a: Assembly, records: seq<Physical>)
    requires a.error.Some?
    ensures Assemble(a, records) == a
    decreases records
  {
    if records != [] {
      AssembleError(a, records[1..]);
    }
  }

  /** Reading on from a position is deciding its header, then reading on. */
  lemma ReadStep(file: seq<byte>, pos: nat, a: Assembly)
    requires pos < |file| && a.error.None?
    ensures HeaderAt(file, pos).Padding? ==>
              ReadFrom(file, pos, a) == ReadFrom(file, BlockEnd(file, pos), a)
    ensures HeaderAt(file, pos).Bad? ==>
              ReadFrom(file, pos, a) == Observed(a.yielded, Some(HeaderAt(file, pos).error))
    ensures HeaderAt(file, pos).Record? ==>
              var r := HeaderAt(file, pos).physical;
              var b := Absorb(a, r);
              ReadFrom(file, pos, a) ==
              if b.error.Some? then Observed(b.yielded, b.error)
              else ReadFrom(file, pos + HEADER_SIZE + |r.payload|, b)
  {
    hide ReadHeader;
    var h := HeaderAt(file, pos);
    if h.Record? {
      var rest := Scan(file, pos + HEADER_SIZE + |h.physical.payload|);
      var b := Absorb(a, h.physical);
      assert ([h.physical] + rest.records)[1..] == rest.records;
      if b.error.Some? {
        AssembleError(b, rest.records);
      }
    }
  }

  /** What one `stream.read(BLOCK_SIZE)` at `start` returns. */
  predicate BlockAt(file: seq<byte>, start: nat, block: seq<byte>) {
    && start < |file| && start % BLOCK_SIZE == 0
    && block == if start + BLOCK_SIZE <= |file| then file[start..start + BLOCK_SIZE] else file[start..]
  }

  /** The rest of a block is the same bytes whether cut from the block or from the file. */
  lemma TailOfBlock(file: seq<byte>, start: nat, block: seq<byte>, cursor: nat)
    requires BlockAt(file, start, block) && cursor < |block|
    ensures BlockEnd(file, start + cursor) == start + |block|
    ensures file[start + cursor..start + |block|] == block[cursor..]
  {
    assert (start + cursor) / BLOCK_SIZE == start / BLOCK_SIZE;
  }

  /** Header and checksum of the record a cursor stands at. */
  method PhysicalRecord(tail: seq<byte>, offset: nat) returns (h: Header)
    requires HEADER_SIZE <= |tail|
    ensures h == ReadHeader(tail, offset)
  {
    hide LittleEndian, Checksum, MaskCrc32c;
    var storedCrc, length, kind := LittleEndian(tail[..4]), LittleEndian(tail[4..6]), tail[6];
    if storedCrc == 0 && length == 0 && kind == 0 {
      return if AllZero(tail) then Padding else Bad(NonzeroAfterZeroRecord(offset));
    }
    var end := HEADER_SIZE + length;
    if end > |tail| {
      return Bad(CrossesBlock(offset));
    }
    var payload := tail[HEADER_SIZE..end];
    var crc := Compute([kind] + payload);
    ChecksumBounded([kind] + payload);
    var computedCrc := MaskCrc32c(crc);
    h := if computedCrc != storedCrc then Bad(CrcMismatch(offset)) else Record(Physical(offset, kind, payload));
  }

  /** `logical_records`: blocks of BLOCK_SIZE, a cursor inside each, one buffer across them. */
  method LogicalRecords(file: seq<byte>) returns (yielded: seq<LogicalRecord>, error: Option<WalError>)
    ensures Observed(yielded, error) == Read(file)
  {
    hide ReadFrom, ReadHeader, BlockEnd;
    var fragmented: seq<byte> := [];
    var fragmentedOffset: Option<nat> := None;
    var fileOffset := 0;
    yielded := [];
    while fileOffset < |file|
      invariant fileOffset <= |file|
      invariant fileOffset % BLOCK_SIZE == 0 || fileOffset == |file|
      invariant ReadFrom(file, fileOffset, Assembly(fragmented, fragmentedOffset, yielded, None)) == Read(file)
    {
      var block := if fileOffset + BLOCK_SIZE <= |file|
                   then file[fileOffset..fileOffset + BLOCK_SIZE] else file[fileOffset..];
      var cursor := 0;
      while cursor + HEADER_SIZE <= |block|
        invariant cursor <= |block|
        invariant ReadFrom(file, fileOffset + cursor, Assembly(fragmented, fragmentedOffset, yielded, None))
            == Read(file)
      {
        ReadStep(file, fileOffset + cursor, Assembly(fragmented, fragmentedOffset, yielded, None));
        TailOfBlock(file, fileOffset, block, cursor);
        var h := PhysicalRecord(block[cursor..], fileOffset + cursor);
        if h.Bad? {
          return yielded, Some(h.error);
        }
        if h.Padding? {
          cursor := |block|;
          break;
        }
        var Physical(recordOffset, kind, payload) := h.physical;
        if kind == FULL {
          if fragmented != [] {
            return yielded, Some(FullInterruptedFragments(recordOffset));
          }
          yielded := yielded + [LogicalRecord(recordOffset, payload)];
        } else if kind == FIRST {
          if fragmented != [] {
            return yielded, Some(FirstInterruptedFragments(recordOffset));
          }
          fragmented := fragmented + payload;
          fragmentedOffset := Some(recordOffset);
        } else if kind == MIDDLE {
          if fragmentedOffset.None? {
            return yielded, Some(OrphanMiddle(recordOffset));
          }
          fragmented := fragmented + payload;
        } else if kind == LAST {
          if fragmentedOffset.None? {
            return yielded, Some(OrphanLast(recordOffset));
          }
          fragmented := fragmented + payload;
          yielded := yielded + [LogicalRecord(fragmentedOffset.value, fragmented)];
          fragmented, fragmentedOffset := [], None;
        } else {
          return yielded, Some(UnsupportedType(recordOffset));
        }
        cursor := cursor + HEADER_SIZE + |payload|;
      }
      BlockIsOver(file, fileOffset, block, cursor, Assembly(fragmented, fragmentedOffset, yielded, None));
      fileOffset := fileOffset + |block|;
    }
    ReadEnd(file, Assembly(fragmented, fragmentedOffset, yielded, None));
    error := if fragmentedOffset.Some? then Some(TruncatedFragments(fragmentedOffset.value)) else None;
  }

  /** Fewer than HEADER_SIZE bytes at the end of a block are skipped. */
  lemma BlockIsOver(file: seq<byte>, start: nat, block: seq<byte>, cursor: nat, a: Assembly)
    requires BlockAt(file, start, block) && cursor <= |block| < cursor + HEADER_SIZE
    ensures ReadFrom(file, start + cursor, a) == ReadFrom(file, start + |block|, a)
  {
    if cursor < |block| {
      TailOfBlock(file, start, block, cursor);
    }
  }

  lemma ReadEnd(file: seq<byte>, a: Assembly)
    ensures ReadFrom(file, |file|, a) == Finish(a, None)
  {}
}
