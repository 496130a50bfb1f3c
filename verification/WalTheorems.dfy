/**
  What the WAL reader guarantees: no payload byte is lost or invented, a cut file
  yields a prefix, a log-format writer is inverted, and short bursts are caught.
*/
module WalTheorems {
  import opened Arithmetic
  import opened Bytes
  import opened Crc32c
  import opened WalLog

  // ---------------------------------------------------------------------
  // Conservation
  // ---------------------------------------------------------------------

  function PhysicalBytes(records: seq<Physical>): seq<byte> {
    if records == [] then [] else records[0].payload + PhysicalBytes(records[1..])
  }

  function LogicalBytes(records: seq<LogicalRecord>): seq<byte> {
    if records == [] then [] else LogicalBytes(records[..|records| - 1]) + records[|records| - 1].payload
  }

  /** An empty buffer is all a closed assembly may hold. */
  predicate Coherent(a: Assembly) {
    a.buffer != [] ==> a.start.Some?
  }

  lemma AbsorbConserves(a: Assembly, r: Physical)
    requires Coherent(a) && a.error.None?
    ensures Coherent(Absorb(a, r))
    ensures Absorb(a, r).error.None? ==>
              LogicalBytes(Absorb(a, r).yielded) + Absorb(a, r).buffer ==
              LogicalBytes(a.yielded) + a.buffer + r.payload
  {
    var b := Absorb(a, r);
    if |b.yielded| > |a.yielded| {
      assert b.yielded[..|b.yielded| - 1] == a.yielded;
    }
  }

  lemma {:induction false} AssembleConserves(a: Assembly, records: seq<Physical>)
    requires Coherent(a)
    ensures var b := Assemble(a, records);
            Coherent(b) &&
            (b.error.None? ==>
               a.error.None? &&
               LogicalBytes(b.yielded) + b.buffer == LogicalBytes(a.yielded) + a.buffer + PhysicalBytes(records))
    decreases records
  {
    if a.error.Some? {
      AssembleError(a, records);
    } else if records != [] {
      AbsorbConserves(a, records[0]);
      AssembleConserves(Absorb(a, records[0]), records[1..]);
    }
  }

  /** A file read without error yields exactly the bytes of its physical records, in file order. */
  lemma Conservation(file: seq<byte>)
    requires Read(file).error.None?
    ensures Scan(file, 0).error.None?
    ensures LogicalBytes(Read(file).yielded) == PhysicalBytes(Scan(file, 0).records)
  {
    hide Scan, Assemble;
    var s := Scan(file, 0);
    AssembleConserves(Empty, s.records);
    assert LogicalBytes([]) + [] + PhysicalBytes(s.records) == PhysicalBytes(s.records);
    var a := Assemble(Empty, s.records);
    assert LogicalBytes(a.yielded) + [] == LogicalBytes(a.yielded);
  }

  // ---------------------------------------------------------------------
  // Truncation
  // ---------------------------------------------------------------------

  lemma CutBlock(file: seq<byte>, n: nat, pos: nat)
    requires pos < n <= |file|
    ensures BlockEnd(file[..n], pos) == if BlockEnd(file, pos) <= n then BlockEnd(file, pos) else n
    ensures file[..n][pos..BlockEnd(file[..n], pos)] <= file[pos..BlockEnd(file, pos)]
  {}

  lemma CutHeader(file: seq<byte>, n: nat, pos: nat)
    requires pos < n <= |file|
    ensures BlockEnd(file[..n], pos) == if BlockEnd(file, pos) <= n then BlockEnd(file, pos) else n
    ensures HeaderAt(file[..n], pos).Record? ==> HeaderAt(file, pos) == HeaderAt(file[..n], pos)
    ensures HeaderAt(file[..n], pos).Padding? && BlockEnd(file, pos) <= n ==> HeaderAt(file, pos).Padding?
  {
    hide RecordCrc, LittleEndian, BlockEnd;
    var cut := file[..n];
    CutBlock(file, n, pos);
    var short, long := cut[pos..BlockEnd(cut, pos)], file[pos..BlockEnd(file, pos)];
    if |short| >= HEADER_SIZE {
      assert short[..4] == long[..4];
      assert short[4..6] == long[4..6];
      if HeaderAt(cut, pos).Record? {
        var length := |HeaderAt(cut, pos).physical.payload|;
        assert short[HEADER_SIZE..HEADER_SIZE + length] == long[HEADER_SIZE..HEADER_SIZE + length];
      }
    }
  }

  /** The physical records of a cut file are the first ones of the whole file. */
  lemma {:induction false} CutScan(file: seq<byte>, n: nat, pos: nat)
    requires pos <= n <= |file|
    ensures Scan(file[..n], pos).records <= Scan(file, pos).records
    decreases n - pos
  {
    hide ReadHeader, HeaderAt, BlockEnd;
    if pos < n {
      CutHeader(file, n, pos);
      match HeaderAt(file[..n], pos)
      case Bad(_) =>
      case Record(r) => CutScan(file, n, pos + HEADER_SIZE + |r.payload|);
      case Padding =>
        if BlockEnd(file, pos) <= n {
          CutScan(file, n, BlockEnd(file, pos));
        }
    }
  }

  lemma {:induction false} AssemblePrefix(a: Assembly, some: seq<Physical>, all: seq<Physical>)
    requires some <= all
    ensures Assemble(a, some).yielded <= Assemble(a, all).yielded
    decreases all
  {
    if some == [] {
      YieldedGrows(a, all);
    } else {
      AssemblePrefix(Absorb(a, some[0]), some[1..], all[1..]);
    }
  }

  lemma {:induction false} YieldedGrows(a: Assembly, records: seq<Physical>)
    ensures a.yielded <= Assemble(a, records).yielded
    decreases records
  {
    if records != [] {
      YieldedGrows(Absorb(a, records[0]), records[1..]);
    }
  }

  /** However a file is cut short, the records read from it are the first ones of the whole. */
  lemma TruncationYieldsPrefix(file: seq<byte>, n: nat)
    requires n <= |file|
    ensures Read(file[..n]).yielded <= Read(file).yielded
  {
    hide Scan, Assemble;
    CutScan(file, n, 0);
    AssemblePrefix(Empty, Scan(file[..n], 0).records, Scan(file, 0).records);
  }

  // ---------------------------------------------------------------------
  // A writer of the log format, and its inverse
  // ---------------------------------------------------------------------

  function Fragment(kind: byte, payload: seq<byte>): (bytes: seq<byte>)
    ensures |bytes| == HEADER_SIZE + |payload|
  {
    ToLittleEndian(RecordCrc(kind, payload), 4) + ToLittleEndian(|payload|, 2) + [kind] + payload
  }

  function Zeros(n: nat): (s: seq<byte>)
    ensures |s| == n && AllZero(s)
  {
    seq(n, _ => 0)
  }

  function Leftover(pos: nat): (n: nat)
    ensures 0 < n <= BLOCK_SIZE
  {
    BLOCK_SIZE - pos % BLOCK_SIZE
  }

  /** The bytes a log writer appends at file position `pos` for a payload, or for the
      rest of one when `first` is false. A block tail too short for a header is zeroed;
      a tail of exactly one header takes an empty FIRST. */
  function Append(pos: nat, first: bool, payload: seq<byte>): seq<byte>
    decreases |payload|, pos % BLOCK_SIZE
  {
    var leftover := Leftover(pos);
    if leftover < HEADER_SIZE then
      Zeros(leftover) + Append(pos + leftover, first, payload)
    else if |payload| <= leftover - HEADER_SIZE then
      Fragment(if first then FULL else LAST, payload)
    else
      var n := leftover - HEADER_SIZE;
      Fragment(if first then FIRST else MIDDLE, payload[..n]) + Append(pos + leftover, false, payload[n..])
  }

  function WriteLog(pos: nat, payloads: seq<seq<byte>>): seq<byte>
    decreases payloads
  {
    if payloads == [] then []
    else
      var bytes := Append(pos, true, payloads[0]);
      bytes + WriteLog(pos + |bytes|, payloads[1..])
  }

  /** Where the first fragment of a payload appended at `pos` begins. */
  function RecordStart(pos: nat): nat {
    if Leftover(pos) < HEADER_SIZE then pos + Leftover(pos) else pos
  }

  function Written(pos: nat, payloads: seq<seq<byte>>): seq<LogicalRecord>
    decreases payloads
  {
    if payloads == [] then []
    else [LogicalRecord(RecordStart(pos), payloads[0])] +
         Written(pos + |Append(pos, true, payloads[0])|, payloads[1..])
  }

  /** The reader's view of a position inside a file that goes on for the rest of the block. */
  lemma BlockEndIs(file: seq<byte>, pos: nat)
    requires pos < |file|
    ensures BlockEnd(file, pos) == if pos + Leftover(pos) <= |file| then pos + Leftover(pos) else |file|
  {}

  lemma TooShort(file: seq<byte>, pos: nat)
    requires pos < |file| && Leftover(pos) < HEADER_SIZE
    ensures HeaderAt(file, pos) == Padding
  {}

  lemma FragmentHeader(kind: byte, payload: seq<byte>, tail: seq<byte>, offset: nat)
    requires FULL <= kind <= LAST && |payload| < 65536
    requires HEADER_SIZE + |payload| <= |tail| && tail[..HEADER_SIZE + |payload|] == Fragment(kind, payload)
    ensures ReadHeader(tail, offset) == Record(Physical(offset, kind, payload))
  {
    hide RecordCrc;
    var crc := RecordCrc(kind, payload);
    assert Pow256(4) == WORD && Pow256(2) == 65536;
    assert tail[..4] == ToLittleEndian(crc, 4);
    assert tail[4..6] == ToLittleEndian(|payload|, 2);
    assert tail[HEADER_SIZE..HEADER_SIZE + |payload|] == payload;
    LittleEndianInverse(crc, 4);
    LittleEndianInverse(|payload|, 2);
  }

  lemma FragmentRead(file: seq<byte>, pos: nat, kind: byte, payload: seq<byte>, a: Assembly)
    requires FULL <= kind <= LAST && HEADER_SIZE + |payload| <= Leftover(pos)
    requires Holds(file, pos, Fragment(kind, payload))
    requires a.error.None? && Absorb(a, Physical(pos, kind, payload)).error.None?
    ensures ReadFrom(file, pos, a) ==
            ReadFrom(file, pos + HEADER_SIZE + |payload|, Absorb(a, Physical(pos, kind, payload)))
  {
    hide ReadFrom, ReadHeader, BlockEnd, Fragment, Absorb;
    BlockEndIs(file, pos);
    var tail := file[pos..BlockEnd(file, pos)];
    assert tail[..HEADER_SIZE + |payload|] == file[pos..pos + HEADER_SIZE + |payload|];
    FragmentHeader(kind, payload, tail, pos);
    ReadStep(file, pos, a);
  }

  /** A state the reader may be in when a writer starts, or continues, a payload. */
  predicate Ready(a: Assembly, first: bool) {
    a.error.None? && (if first then a.buffer == [] && a.start.None? else a.start.Some?)
  }

  lemma NextBlock(pos: nat)
    ensures (pos + Leftover(pos)) % BLOCK_SIZE == 0 && Leftover(pos + Leftover(pos)) == BLOCK_SIZE
  {}

  lemma PaddingRead(file: seq<byte>, pos: nat, a: Assembly)
    requires Leftover(pos) < HEADER_SIZE && pos + Leftover(pos) <= |file| && a.error.None?
    ensures ReadFrom(file, pos, a) == ReadFrom(file, pos + Leftover(pos), a)
  {
    hide ReadFrom, ReadHeader;
    BlockEndIs(file, pos);
    TooShort(file, pos);
    ReadStep(file, pos, a);
  }

  /** The state after the last fragment of a payload. */
  function Closed(a: Assembly, start: nat, payload: seq<byte>): Assembly {
    Assembly([], None, a.yielded + [LogicalRecord(start, a.buffer + payload)], None)
  }

  lemma LastAbsorbed(a: Assembly, pos: nat, first: bool, payload: seq<byte>)
    requires Ready(a, first)
    ensures Absorb(a, Physical(pos, if first then FULL else LAST, payload)) ==
            Closed(a, if first then pos else a.start.value, payload)
  {
    assert first ==> a.buffer + payload == payload;
  }

  lemma PartAbsorbed(a: Assembly, pos: nat, first: bool, part: seq<byte>, rest: seq<byte>)
    requires Ready(a, first)
    ensures var b := Absorb(a, Physical(pos, if first then FIRST else MIDDLE, part));
            && Ready(b, false)
            && b.start.value == (if first then pos else a.start.value)
            && Closed(b, b.start.value, rest) == Closed(a, b.start.value, part + rest)
  {
    assert a.buffer + part + rest == a.buffer + (part + rest);
  }

  lemma {:induction false} AppendRead(file: seq<byte>, pos: nat, first: bool, payload: seq<byte>, a: Assembly)
    requires Holds(file, pos, Append(pos, first, payload))
    requires Ready(a, first)
    ensures ReadFrom(file, pos, a) ==
            ReadFrom(file, pos + |Append(pos, first, payload)|,
                     Closed(a, if first then RecordStart(pos) else a.start.value, payload))
    decreases |payload|, pos % BLOCK_SIZE
  {
    hide ReadFrom, Fragment, Absorb, Closed, Holds, Leftover;
    var leftover := Leftover(pos);
    NextBlock(pos);
    if leftover < HEADER_SIZE {
      var next := Append(pos + leftover, first, payload);
      HoldsSplit(file, pos, Zeros(leftover), next);
      HoldsFits(file, pos + leftover, next);
      PaddingRead(file, pos, a);
      NotAtStart(pos);
      AppendRead(file, pos + leftover, first, payload, a);
    } else if |payload| <= leftover - HEADER_SIZE {
      LastAbsorbed(a, pos, first, payload);
      ClosedIsReady(a, if first then pos else a.start.value, payload);
      FragmentRead(file, pos, if first then FULL else LAST, payload, a);
    } else {
      var n := leftover - HEADER_SIZE;
      var kind := if first then FIRST else MIDDLE;
      var next := Append(pos + leftover, false, payload[n..]);
      HoldsSplit(file, pos, Fragment(kind, payload[..n]), next);
      PartAbsorbed(a, pos, first, payload[..n], payload[n..]);
      FragmentRead(file, pos, kind, payload[..n], a);
      var b := Absorb(a, Physical(pos, kind, payload[..n]));
      if n == 0 {
        NotAtStart(pos);
      }
      AppendRead(file, pos + leftover, false, payload[n..], b);
      assert payload[..n] + payload[n..] == payload;
    }
  }

  lemma HoldsFits(file: seq<byte>, pos: nat, bytes: seq<byte>)
    requires Holds(file, pos, bytes)
    ensures pos + |bytes| <= |file|
  {}

  lemma ClosedIsReady(a: Assembly, start: nat, payload: seq<byte>)
    ensures Ready(Closed(a, start, payload), true)
  {}

  lemma NotAtStart(pos: nat)
    requires Leftover(pos) <= HEADER_SIZE
    ensures pos % BLOCK_SIZE > 0
  {}

  lemma {:induction false} WriteRead(file: seq<byte>, pos: nat, payloads: seq<seq<byte>>, a: Assembly)
    requires pos + |WriteLog(pos, payloads)| == |file| && Holds(file, pos, WriteLog(pos, payloads))
    requires Ready(a, true)
    ensures ReadFrom(file, pos, a) == Observed(a.yielded + Written(pos, payloads), None)
    decreases payloads
  {
    hide ReadFrom, Append, RecordStart;
    if payloads == [] {
      ReadEnd(file, a);
    } else {
      var bytes := Append(pos, true, payloads[0]);
      HoldsSplit(file, pos, bytes, WriteLog(pos + |bytes|, payloads[1..]));
      AppendRead(file, pos, true, payloads[0], a);
      assert [] + payloads[0] == payloads[0];
      var r := LogicalRecord(RecordStart(pos), payloads[0]);
      WriteRead(file, pos + |bytes|, payloads[1..], Assembly([], None, a.yielded + [r], None));
      assert a.yielded + [r] + Written(pos + |bytes|, payloads[1..]) == a.yielded + Written(pos, payloads);
    }
  }

  /** For every list of payloads, reading what the writer wrote yields that list, in order,
      each record at the file offset of its first fragment, and no error. */
  lemma ReadInvertsWrite(payloads: seq<seq<byte>>)
    ensures Read(WriteLog(0, payloads)) == Observed(Written(0, payloads), None)
    ensures |Written(0, payloads)| == |payloads|
    ensures forall i :: 0 <= i < |payloads| ==> Written(0, payloads)[i].payload == payloads[i]
  {
    var file := WriteLog(0, payloads);
    assert file[0..0 + |file|] == file;
    WriteRead(file, 0, payloads, Empty);
    assert [] + Written(0, payloads) == Written(0, payloads);
    WrittenPayloads(0, payloads);
  }

  lemma {:induction false} WrittenPayloads(pos: nat, payloads: seq<seq<byte>>)
    ensures |Written(pos, payloads)| == |payloads|
    ensures forall i :: 0 <= i < |payloads| ==> Written(pos, payloads)[i].payload == payloads[i]
    decreases payloads
  {
    if payloads != [] {
      WrittenPayloads(pos + |Append(pos, true, payloads[0])|, payloads[1..]);
    }
  }

  // ---------------------------------------------------------------------
  // Corruption
  // ---------------------------------------------------------------------

  lemma {:induction false} OffsetsFrom(file: seq<byte>, pos: nat, i: nat)
    requires pos <= |file| && i < |Scan(file, pos).records|
    ensures pos <= Scan(file, pos).records[i].offset
    decreases |file| - pos
  {
    hide ReadHeader, BlockEnd;
    match HeaderAt(file, pos)
    case Bad(_) =>
    case Padding => OffsetsFrom(file, BlockEnd(file, pos), i);
    case Record(r) =>
      if i > 0 {
        OffsetsFrom(file, pos + HEADER_SIZE + |r.payload|, i - 1);
      }
  }

  /** Bytes `from`..`to` of both files are the same. */
  predicate Agree(file: seq<byte>, file': seq<byte>, from: nat, to: nat) {
    && |file| == |file'|
    && forall k :: from <= k < to && k < |file| ==> file[k] == file'[k]
  }

  /** A header, and the record it announces, only depend on the bytes they cover. */
  lemma AgreeHeader(file: seq<byte>, file': seq<byte>, pos: nat, to: nat)
    requires pos < |file| && Agree(file, file', pos, to)
    requires match HeaderAt(file, pos)
             case Padding => BlockEnd(file, pos) <= to
             case Bad(_) => BlockEnd(file, pos) <= to
             case Record(r) => pos + HEADER_SIZE + |r.payload| <= to
    ensures BlockEnd(file', pos) == BlockEnd(file, pos) && HeaderAt(file', pos) == HeaderAt(file, pos)
  {
    hide ReadHeader;
    var end := BlockEnd(file, pos);
    if end <= to {
      AgreeSlice(file, file', pos, to, pos, end);
    } else {
      var n := |HeaderAt(file, pos).physical.payload|;
      AgreeSlice(file, file', pos, to, pos, pos + HEADER_SIZE + n);
      assert file[pos..end][..HEADER_SIZE + n] == file[pos..pos + HEADER_SIZE + n];
      assert file'[pos..end][..HEADER_SIZE + n] == file'[pos..pos + HEADER_SIZE + n];
      SameRecord(file[pos..end], file'[pos..end], n, pos);
    }
  }

  lemma AgreeSlice(file: seq<byte>, file': seq<byte>, from: nat, to: nat, a: nat, b: nat)
    requires Agree(file, file', from, to) && from <= a <= b <= to && b <= |file|
    ensures file[a..b] == file'[a..b]
  {}

  lemma SameRecord(tail: seq<byte>, tail': seq<byte>, n: nat, pos: nat)
    requires ReadHeader(tail, pos).Record? && |ReadHeader(tail, pos).physical.payload| == n
    requires |tail'| == |tail| && tail'[..HEADER_SIZE + n] == tail[..HEADER_SIZE + n]
    ensures ReadHeader(tail', pos) == ReadHeader(tail, pos)
  {
    hide RecordCrc, LittleEndian;
    var m := HEADER_SIZE + n;
    assert tail[..4] == tail[..m][..4] && tail'[..4] == tail'[..m][..4];
    assert tail[4..6] == tail[..m][4..6] && tail'[4..6] == tail'[..m][4..6];
    assert tail[6] == tail[..m][6] && tail'[6] == tail'[..m][6];
    assert tail[HEADER_SIZE..m] == tail[..m][HEADER_SIZE..] && tail'[HEADER_SIZE..m] == tail'[..m][HEADER_SIZE..];
  }

  /** `file'` is `file` with the bytes at `at` replaced by `w'`. */
  predicate Replaced(file: seq<byte>, file': seq<byte>, at: nat, w': seq<byte>) {
    at + |w'| <= |file| && file' == file[..at] + w' + file[at + |w'|..]
  }

  /** No empty record has checksum zero, so no damage to one makes it a zero record. */
  lemma EmptyCrcNotZero(kind: byte)
    ensures RecordCrc(kind, []) != 0
  {
    hide Checksum, MaskCrc32c;
    assert [kind] + [] == [kind];
    OneByteNotZero(kind);
  }

  /** Damage to the type byte or the payload. */
  lemma BodyDamage(file: seq<byte>, file': seq<byte>, pos: nat, at: nat, w': seq<byte>)
    requires pos < |file| && HeaderAt(file, pos).Record?
    requires pos + 6 <= at && at + |w'| <= pos + HEADER_SIZE + |HeaderAt(file, pos).physical.payload|
    requires |w'| <= 4 && Replaced(file, file', at, w') && file' != file
    ensures |file'| == |file| && HeaderAt(file', pos) == Bad(CrcMismatch(pos))
  {
    hide Checksum, MaskCrc32c, LittleEndian;
    EmptyCrcNotZero(HeaderAt(file, pos).physical.kind);
    var end := BlockEnd(file, pos);
    var tail, tail' := file[pos..end], file'[pos..end];
    var n := |HeaderAt(file, pos).physical.payload|;
    var w := file[at..at + |w'|];
    assert w != w' by {
      assert file == file[..at] + w + file[at + |w'|..];
    }
    var before, after := file[pos + 6..at], file[at + |w'|..pos + HEADER_SIZE + n];
    Outside(file, file', at, w', pos, pos + 4);
    Outside(file, file', at, w', pos + 4, pos + 6);
    Outside(file, file', at, w', pos + 6, at);
    Outside(file, file', at, w', at + |w'|, pos + HEADER_SIZE + n);
    assert file'[at..at + |w'|] == w';
    RecordSlices(file, pos, end, n, at, at + |w'|);
    RecordSlices(file', pos, end, n, at, at + |w'|);
    BurstDetected(before, w, w', after);
    BurstDecides(tail, tail', n, pos);
  }

  lemma OnlyChecksum(file: seq<byte>, file': seq<byte>, pos: nat, at: nat, w': seq<byte>)
    requires pos <= at && at + |w'| <= pos + 4 <= |file| && Replaced(file, file', at, w') && file' != file
    ensures |file'| == |file| && file[pos..pos + 4] != file'[pos..pos + 4] && file'[pos + 4..] == file[pos + 4..]
  {
    Outside(file, file', at, w', 0, pos);
    Outside(file, file', at, w', pos + 4, |file|);
    assert file == file[0..pos] + file[pos..pos + 4] + file[pos + 4..|file|];
    assert file' == file'[0..pos] + file'[pos..pos + 4] + file'[pos + 4..|file'|];
  }

  lemma ChecksumInBlock(file: seq<byte>, file': seq<byte>, pos: nat, end: nat)
    requires pos + HEADER_SIZE <= end <= |file| == |file'|
    requires file[pos..pos + 4] != file'[pos..pos + 4] && file'[pos + 4..] == file[pos + 4..]
    ensures StoredCrc(file'[pos..end]) != StoredCrc(file[pos..end]) && file'[pos..end][4..] == file[pos..end][4..]
  {
    hide LittleEndian;
    var tail, tail' := file[pos..end], file'[pos..end];
    assert tail[..4] == file[pos..pos + 4] && tail'[..4] == file'[pos..pos + 4];
    assert tail[4..] == file[pos + 4..][..end - pos - 4] && tail'[4..] == file'[pos + 4..][..end - pos - 4];
    ToLittleEndianInverse(tail[..4]);
    ToLittleEndianInverse(tail'[..4]);
  }

  /** Damage to the stored checksum. */
  lemma ChecksumDamage(file: seq<byte>, file': seq<byte>, pos: nat, at: nat, w': seq<byte>)
    requires pos < |file| && HeaderAt(file, pos).Record? && HeaderAt(file, pos).physical.kind != 0
    requires pos <= at && at + |w'| <= pos + 4
    requires Replaced(file, file', at, w') && file' != file
    ensures |file'| == |file| && HeaderAt(file', pos) == Bad(CrcMismatch(pos))
  {
    hide ReadHeader, Replaced, StoredCrc;
    var end := BlockEnd(file, pos);
    OnlyChecksum(file, file', pos, at, w');
    ChecksumInBlock(file, file', pos, end);
    CrcDecides(file[pos..end], file'[pos..end], |HeaderAt(file, pos).physical.payload|, pos);
  }

  lemma CrcDecides(tail: seq<byte>, tail': seq<byte>, n: nat, pos: nat)
    requires ReadHeader(tail, pos).Record? && |ReadHeader(tail, pos).physical.payload| == n
    requires ReadHeader(tail, pos).physical.kind != 0
    requires |tail'| == |tail| && tail'[4..] == tail[4..] && StoredCrc(tail') != StoredCrc(tail)
    ensures ReadHeader(tail', pos) == Bad(CrcMismatch(pos))
  {
    hide RecordCrc, LittleEndian;
    assert tail[6] == tail[4..][2] && tail'[6] == tail'[4..][2];
    FromFour(tail, 0, 2);
    FromFour(tail', 0, 2);
    FromFour(tail, 3, 3 + n);
    FromFour(tail', 3, 3 + n);
  }

  lemma FromFour(tail: seq<byte>, a: nat, b: nat)
    requires a <= b <= |tail| - 4
    ensures tail[4..][a..b] == tail[4 + a..4 + b]
  {
    SliceOfSlice(tail, 4, |tail|, a, b);
  }

  /** A window of `n` bytes at `at` lies in a record's stored checksum, or in its type byte and
      payload; only the two bytes of the length are left out. */
  predicate Covered(r: Physical, at: nat, n: nat) {
    || (r.offset <= at && at + n <= r.offset + 4)
    || (r.offset + 6 <= at && at + n <= r.offset + HEADER_SIZE + |r.payload|)
  }

  lemma BurstHeader(file: seq<byte>, file': seq<byte>, pos: nat, at: nat, w': seq<byte>)
    requires pos < |file| && HeaderAt(file, pos).Record? && HeaderAt(file, pos).physical.kind != 0
    requires Covered(HeaderAt(file, pos).physical, at, |w'|)
    requires |w'| <= 4 && Replaced(file, file', at, w') && file' != file
    ensures |file'| == |file| && HeaderAt(file', pos) == Bad(CrcMismatch(pos))
  {
    hide ReadHeader;
    if pos + 6 <= at {
      BodyDamage(file, file', pos, at, w');
    } else {
      ChecksumDamage(file, file', pos, at, w');
    }
  }

  /** The fields of a record, cut from its block or from the file. */
  lemma RecordSlices(file: seq<byte>, pos: nat, end: nat, n: nat, a: nat, b: nat)
    requires pos + 6 <= a <= b <= pos + HEADER_SIZE + n <= end <= |file|
    ensures file[pos..end][..4] == file[pos..pos + 4]
    ensures file[pos..end][4..6] == file[pos + 4..pos + 6]
    ensures [file[pos..end][6]] + file[pos..end][HEADER_SIZE..HEADER_SIZE + n] ==
            file[pos + 6..a] + file[a..b] + file[b..pos + HEADER_SIZE + n]
  {
    SliceOfSlice(file, pos, end, 0, 4);
    SliceOfSlice(file, pos, end, 4, 6);
    SliceOfSlice(file, pos, end, HEADER_SIZE, HEADER_SIZE + n);
    SplitSlice(file, pos + 6, pos + 7, pos + HEADER_SIZE + n);
    SplitSlice(file, pos + 6, a, b);
    SplitSlice(file, pos + 6, b, pos + HEADER_SIZE + n);
  }

  /** Outside the window nothing has changed. */
  lemma Outside(file: seq<byte>, file': seq<byte>, at: nat, w': seq<byte>, lo: nat, hi: nat)
    requires Replaced(file, file', at, w') && lo <= hi <= |file|
    requires hi <= at || at + |w'| <= lo
    ensures |file'| == |file| && file'[lo..hi] == file[lo..hi]
  {}

  lemma BurstDecides(tail: seq<byte>, tail': seq<byte>, n: nat, pos: nat)
    requires ReadHeader(tail, pos).Record? && |ReadHeader(tail, pos).physical.payload| == n
    requires |tail'| == |tail| && tail'[..4] == tail[..4] && tail'[4..6] == tail[4..6]
    requires !(n == 0 && StoredCrc(tail) == 0)
    requires RecordCrc(tail'[6], tail'[HEADER_SIZE..HEADER_SIZE + n]) !=
             RecordCrc(tail[6], tail[HEADER_SIZE..HEADER_SIZE + n])
    ensures ReadHeader(tail', pos) == Bad(CrcMismatch(pos))
  {
    hide RecordCrc, LittleEndian;
  }

  lemma {:induction false} BurstScan(file: seq<byte>, file': seq<byte>, q: nat, i: nat, at: nat, w': seq<byte>)
    requires q <= |file| && i < |Scan(file, q).records|
    requires var r := Scan(file, q).records[i]; r.kind != 0 && Covered(r, at, |w'|)
    requires |w'| <= 4 && Replaced(file, file', at, w') && file' != file
    ensures |file'| == |file|
    ensures Scan(file', q) == Scanned(Scan(file, q).records[..i], Some(CrcMismatch(Scan(file, q).records[i].offset)))
    decreases |file| - q
  {
    hide ReadHeader, BlockEnd, RecordCrc;
    var pos := Scan(file, q).records[i].offset;
    assert Agree(file, file', q, pos);
    match HeaderAt(file, q)
    case Bad(_) =>
    case Padding =>
      OffsetsFrom(file, BlockEnd(file, q), i);
      AgreeHeader(file, file', q, pos);
      BurstScan(file, file', BlockEnd(file, q), i, at, w');
    case Record(r) =>
      if i == 0 {
        BurstHeader(file, file', q, at, w');
      } else {
        var next := q + HEADER_SIZE + |r.payload|;
        OffsetsFrom(file, next, i - 1);
        AgreeHeader(file, file', q, pos);
        BurstScan(file, file', next, i - 1, at, w');
        assert [r] + Scan(file, next).records[..i - 1] == Scan(file, q).records[..i];
      }
  }

  lemma {:induction false} KnownKinds(a: Assembly, records: seq<Physical>, i: nat)
    requires Assemble(a, records).error.None? && i < |records|
    ensures FULL <= records[i].kind <= LAST
    decreases records
  {
    if Absorb(a, records[0]).error.Some? {
      AssembleError(Absorb(a, records[0]), records[1..]);
    } else if i > 0 {
      KnownKinds(Absorb(a, records[0]), records[1..], i - 1);
    }
  }

  /**
    Damage within at most four bytes to the stored checksum, the type byte or the payload
    of the `i`-th physical record of an error-free file: the reader stops there with a CRC
    mismatch and has yielded exactly the records completed before it.
  */
  lemma BurstStopsReader(file: seq<byte>, file': seq<byte>, i: nat, at: nat, w': seq<byte>)
    requires Read(file).error.None? && i < |Scan(file, 0).records|
    requires Covered(Scan(file, 0).records[i], at, |w'|)
    requires |w'| <= 4 && Replaced(file, file', at, w') && file' != file
    ensures Read(file').error == Some(CrcMismatch(Scan(file, 0).records[i].offset))
    ensures Read(file').yielded == Assemble(Empty, Scan(file, 0).records[..i]).yielded
    ensures Read(file').yielded <= Read(file).yielded
  {
    hide Scan, Assemble, Covered;
    KnownKinds(Empty, Scan(file, 0).records, i);
    BurstScan(file, file', 0, i, at, w');
    var records := Scan(file, 0).records;
    AssemblePrefix(Empty, records[..i], records);
    assert records[..i] + records[i..] == records;
    if Assemble(Empty, records[..i]).error.Some? {
      ErrorPersists(Empty, records[..i], records[i..]);
      assert false;
    }
  }

  lemma {:induction false} ErrorPersists(a: Assembly, some: seq<Physical>, more: seq<Physical>)
    requires Assemble(a, some).error.Some?
    ensures Assemble(a, some + more).error.Some?
    decreases some
  {
    if some == [] {
      assert some + more == more;
      AssembleError(a, more);
    } else {
      assert (some + more)[1..] == some[1..] + more;
      ErrorPersists(Absorb(a, some[0]), some[1..], more);
    }
  }
}
