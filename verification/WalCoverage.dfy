/**
  Every byte of a log accounted for: what the reader makes of the bytes at a position, which
  files it scans without error and into which records, and which cuts of a file it notices.
*/
module WalCoverage {
  import opened Bytes
  import opened WalLog
  import opened WalTheorems
  import opened WalFragments

  // ---------------------------------------------------------------------
  // What a header means, in bytes
  // ---------------------------------------------------------------------

  lemma ZeroValue(s: seq<byte>)
    requires |s| == 4 || |s| == 2
    ensures LittleEndian(s) == 0 <==> AllZero(s)
  {
    ToLittleEndianInverse(s);
    assert AllZero(ToLittleEndian(0, 4)) && AllZero(ToLittleEndian(0, 2));
    if AllZero(s) {
      assert s == ToLittleEndian(0, |s|);
      LittleEndianInverse(0, |s|);
    }
  }

  /** Seven zero bytes. */
  predicate ZeroHeader(tail: seq<byte>)
    requires |tail| >= HEADER_SIZE
  {
    AllZero(tail[..HEADER_SIZE])
  }

  lemma ZeroFields(tail: seq<byte>)
    requires |tail| >= HEADER_SIZE
    ensures ZeroHeader(tail) <==> StoredCrc(tail) == 0 && Length(tail) == 0 && tail[6] == 0
  {
    hide LittleEndian;
    ZeroValue(tail[..4]);
    ZeroValue(tail[4..6]);
    var h := tail[..HEADER_SIZE];
    assert forall i :: 0 <= i < 4 ==> tail[..4][i] == h[i];
    assert forall i :: 0 <= i < 2 ==> tail[4..6][i] == h[4 + i];
    assert forall i :: 4 <= i < 6 ==> h[i] == tail[4..6][i - 4];
  }

  /** The bytes begin with a record of `n` payload bytes, whether or not they hold all of it. */
  predicate Announces(tail: seq<byte>, n: nat)
    requires |tail| >= HEADER_SIZE
  {
    n < 65536 && tail[4..6] == ToLittleEndian(n, 2)
  }

  lemma AnnouncesLength(tail: seq<byte>, n: nat)
    requires |tail| >= HEADER_SIZE
    ensures (Announces(tail, n) <==> Length(tail) == n) && Length(tail) < 65536
  {
    assert Pow256(2) == 65536;
    ToLittleEndianInverse(tail[4..6]);
    if Announces(tail, n) {
      LittleEndianInverse(n, 2);
    }
  }

  /** A record is read if and only if the bytes begin with it as it is written. */
  lemma RecordMeans(tail: seq<byte>, offset: nat, kind: byte, payload: seq<byte>)
    ensures ReadHeader(tail, offset) == Record(Physical(offset, kind, payload)) <==>
            |payload| < 65536 && Fragment(kind, payload) <= tail
  {
    var size := HEADER_SIZE + |payload|;
    if |payload| < 65536 && Fragment(kind, payload) <= tail {
      FragmentReads(tail, offset, kind, payload);
    }
    if ReadHeader(tail, offset) == Record(Physical(offset, kind, payload)) {
      ReadsFragment(tail, offset);
    }
  }

  lemma ReadsFragment(tail: seq<byte>, offset: nat)
    requires ReadHeader(tail, offset).Record?
    ensures var r := ReadHeader(tail, offset).physical;
            |r.payload| < 65536 && Fragment(r.kind, r.payload) <= tail
  {
    hide RecordCrc, LittleEndian;
    var r := ReadHeader(tail, offset).physical;
    assert Pow256(2) == 65536;
    ToLittleEndianInverse(tail[..4]);
    ToLittleEndianInverse(tail[4..6]);
    var n := |r.payload|;
    assert tail[..HEADER_SIZE + n] == tail[..4] + tail[4..6] + [tail[6]] + tail[HEADER_SIZE..HEADER_SIZE + n];
  }

  lemma FragmentReads(tail: seq<byte>, offset: nat, kind: byte, payload: seq<byte>)
    requires |payload| < 65536 && Fragment(kind, payload) <= tail
    ensures ReadHeader(tail, offset) == Record(Physical(offset, kind, payload))
  {
    EmptyCrcNotZero(kind);
    hide RecordCrc, LittleEndian;
    var crc, n := RecordCrc(kind, payload), |payload|;
    assert Pow256(4) == Crc32c.WORD && Pow256(2) == 65536;
    var f := Fragment(kind, payload);
    assert tail[..4] == f[..4] == ToLittleEndian(crc, 4);
    assert tail[4..6] == f[4..6] == ToLittleEndian(n, 2);
    assert tail[6] == f[6] == kind;
    assert tail[HEADER_SIZE..HEADER_SIZE + n] == f[HEADER_SIZE..] == payload;
    LittleEndianInverse(crc, 4);
    LittleEndianInverse(n, 2);
  }

  /** Otherwise the rest of the block is skipped if and only if it is shorter than a header or all
      zero; and each error names its own fault. */
  lemma HeaderMeans(tail: seq<byte>, offset: nat)
    ensures ReadHeader(tail, offset) == Padding <==> |tail| < HEADER_SIZE || AllZero(tail)
    ensures ReadHeader(tail, offset) == Bad(NonzeroAfterZeroRecord(offset)) <==>
            |tail| >= HEADER_SIZE && ZeroHeader(tail) && !AllZero(tail)
    ensures ReadHeader(tail, offset) == Bad(CrossesBlock(offset)) <==>
            |tail| >= HEADER_SIZE && !ZeroHeader(tail) && exists n :: Announces(tail, n) && HEADER_SIZE + n > |tail|
    ensures ReadHeader(tail, offset) == Bad(CrcMismatch(offset)) <==>
            && |tail| >= HEADER_SIZE && !ZeroHeader(tail)
            && exists n :: Announces(tail, n) && HEADER_SIZE + n <= |tail| &&
                           !(Fragment(tail[6], tail[HEADER_SIZE..HEADER_SIZE + n]) <= tail)
  {
    hide RecordCrc, LittleEndian, Fragment, Announces, StoredCrc, Length;
    if |tail| >= HEADER_SIZE {
      ZeroFields(tail);
      var n := Length(tail);
      AnnouncesLength(tail, n);
      forall m ensures Announces(tail, m) <==> m == n {
        AnnouncesLength(tail, m);
      }
      if AllZero(tail) {
        assert ZeroHeader(tail);
      }
      if HEADER_SIZE + n <= |tail| {
        RecordMeans(tail, offset, tail[6], tail[HEADER_SIZE..HEADER_SIZE + n]);
      }
    }
  }

  // ---------------------------------------------------------------------
  // A log as a layout of pieces
  // ---------------------------------------------------------------------

  /** A record as it is written, or what is skipped at the end of a block. */
  datatype Piece = Placed(kind: byte, payload: seq<byte>) | Skipped(rest: seq<byte>)

  function PieceBytes(p: Piece): (bytes: seq<byte>)
    ensures p.Placed? ==> |bytes| == HEADER_SIZE + |p.payload|
  {
    match p
    case Placed(kind, payload) => Fragment(kind, payload)
    case Skipped(rest) => rest
  }

  function LayoutBytes(pieces: seq<Piece>): seq<byte> {
    if pieces == [] then [] else PieceBytes(pieces[0]) + LayoutBytes(pieces[1..])
  }

  /** A record stays in its block; what is skipped reaches to the end of the block or the file, and
      is shorter than a header or all zero. */
  predicate PieceFits(pos: nat, size: nat, p: Piece) {
    match p
    case Placed(_, payload) => HEADER_SIZE + |payload| <= Leftover(pos)
    case Skipped(rest) =>
      && rest != [] && (|rest| < HEADER_SIZE || AllZero(rest))
      && pos + |rest| == if pos + Leftover(pos) <= size then pos + Leftover(pos) else size
  }

  /** The pieces fill a file of `size` bytes from `pos` on. */
  predicate LaidOut(pos: nat, size: nat, pieces: seq<Piece>)
    decreases pieces
  {
    if pieces == [] then pos == size
    else PieceFits(pos, size, pieces[0]) && LaidOut(pos + |PieceBytes(pieces[0])|, size, pieces[1..])
  }

  function RecordsOf(pos: nat, pieces: seq<Piece>): seq<Physical>
    decreases pieces
  {
    if pieces == [] then []
    else
      var p, rest := pieces[0], RecordsOf(pos + |PieceBytes(pieces[0])|, pieces[1..]);
      if p.Placed? then [Physical(pos, p.kind, p.payload)] + rest else rest
  }

  /** The header at a position, for a piece that lies there. */
  lemma PieceRead(file: seq<byte>, pos: nat, p: Piece)
    requires PieceFits(pos, |file|, p) && Holds(file, pos, PieceBytes(p))
    ensures pos < |file|
    ensures HeaderAt(file, pos) == if p.Placed? then Record(Physical(pos, p.kind, p.payload)) else Padding
    ensures p.Skipped? ==> BlockEnd(file, pos) == pos + |p.rest|
  {
    hide ReadHeader, Fragment, BlockEnd;
    BlockEndIs(file, pos);
    var end := BlockEnd(file, pos);
    var tail := file[pos..end];
    match p
    case Placed(kind, payload) =>
      assert tail[..|PieceBytes(p)|] == file[pos..pos + |PieceBytes(p)|];
      RecordMeans(tail, pos, kind, payload);
    case Skipped(rest) =>
      HeaderMeans(tail, pos);
  }

  lemma {:induction false} LayoutScans(file: seq<byte>, pos: nat, pieces: seq<Piece>)
    requires pos <= |file| && file[pos..] == LayoutBytes(pieces) && LaidOut(pos, |file|, pieces)
    ensures Scan(file, pos) == Scanned(RecordsOf(pos, pieces), None)
    decreases pieces
  {
    hide HeaderAt, PieceBytes, PieceFits, BlockEnd;
    if pieces != [] {
      var bytes, rest := PieceBytes(pieces[0]), LayoutBytes(pieces[1..]);
      assert Holds(file, pos, bytes + rest) by {
        assert file[pos..pos + |bytes + rest|] == file[pos..];
      }
      HoldsSplit(file, pos, bytes, rest);
      PieceRead(file, pos, pieces[0]);
      SkippedBytes(pieces[0]);
      var next := pos + |bytes|;
      assert file[next..] == rest by {
        assert file[next..] == file[pos..][|bytes|..];
        assert (bytes + rest)[|bytes|..] == rest;
      }
      LayoutScans(file, next, pieces[1..]);
    }
  }

  lemma SkippedBytes(p: Piece)
    ensures p.Skipped? ==> PieceBytes(p) == p.rest
  {}

  /** The piece the reader takes the bytes at `pos` for. */
  lemma ReadPiece(file: seq<byte>, pos: nat) returns (p: Piece)
    requires pos < |file| && !HeaderAt(file, pos).Bad?
    ensures PieceFits(pos, |file|, p) && Holds(file, pos, PieceBytes(p))
    ensures HeaderAt(file, pos) == if p.Placed? then Record(Physical(pos, p.kind, p.payload)) else Padding
    ensures p.Skipped? ==> BlockEnd(file, pos) == pos + |p.rest|
  {
    hide ReadHeader, Fragment, BlockEnd;
    BlockEndIs(file, pos);
    var end := BlockEnd(file, pos);
    var tail := file[pos..end];
    match HeaderAt(file, pos)
    case Record(r) =>
      p := Placed(r.kind, r.payload);
      RecordMeans(tail, pos, r.kind, r.payload);
      assert tail[..|PieceBytes(p)|] == file[pos..pos + |PieceBytes(p)|];
    case Padding =>
      p := Skipped(tail);
      HeaderMeans(tail, pos);
  }

  lemma {:induction false} ScanLaysOut(file: seq<byte>, pos: nat) returns (pieces: seq<Piece>)
    requires pos <= |file| && Scan(file, pos).error.None?
    ensures file[pos..] == LayoutBytes(pieces) && LaidOut(pos, |file|, pieces)
    ensures Scan(file, pos).records == RecordsOf(pos, pieces)
    decreases |file| - pos
  {
    hide HeaderAt, PieceBytes, PieceFits, BlockEnd;
    if pos == |file| {
      pieces := [];
    } else {
      var p := ReadPiece(file, pos);
      SkippedBytes(p);
      var next := pos + |PieceBytes(p)|;
      var rest := ScanLaysOut(file, next);
      pieces := [p] + rest;
      assert pieces[1..] == rest;
      assert file[pos..] == file[pos..next] + file[next..];
    }
  }

  ghost predicate IsLayout(file: seq<byte>, pieces: seq<Piece>, records: seq<Physical>) {
    file == LayoutBytes(pieces) && LaidOut(0, |file|, pieces) && records == RecordsOf(0, pieces)
  }

  /** A file is scanned without error, into the records given, if and only if it consists of these
      records as they are written, each within its block, and of skipped ends of blocks. */
  lemma ScansIff(file: seq<byte>, records: seq<Physical>)
    ensures Scan(file, 0) == Scanned(records, None) <==> exists pieces :: IsLayout(file, pieces, records)
  {
    hide Scan, LaidOut, LayoutBytes, RecordsOf;
    assert file[0..] == file;
    if pieces :| IsLayout(file, pieces, records) {
      LayoutScans(file, 0, pieces);
    }
    if Scan(file, 0) == Scanned(records, None) {
      var pieces := ScanLaysOut(file, 0);
      assert IsLayout(file, pieces, records);
    }
  }

  /** So a file is read without error if and only if it is such a layout of records that follow
      each other in an accepted way and leave no fragment open. */
  lemma ReadsIff(file: seq<byte>)
    ensures Read(file).error.None? <==>
            exists pieces, records ::
              IsLayout(file, pieces, records) && Accepts(records) && !Open(records, |records|)
  {
    hide Scan, Accepts, Open, IsLayout, Read;
    ReadSucceedsIff(file);
    if pieces, records :| IsLayout(file, pieces, records) && Accepts(records) && !Open(records, |records|) {
      ScansIff(file, records);
    }
    if Read(file).error.None? {
      ScansIff(file, Scan(file, 0).records);
      var pieces :| IsLayout(file, pieces, Scan(file, 0).records);
    }
  }

  // ---------------------------------------------------------------------
  // Cuts
  // ---------------------------------------------------------------------

  /** What lies before the cut is read as before. */
  lemma CutKeeps(file: seq<byte>, n: nat, pos: nat)
    requires pos < n <= |file| && !HeaderAt(file, pos).Bad?
    requires match HeaderAt(file, pos)
             case Record(r) => pos + HEADER_SIZE + |r.payload| <= n
             case _ => BlockEnd(file, pos) <= n
    ensures HeaderAt(file[..n], pos) == HeaderAt(file, pos)
    ensures HeaderAt(file, pos).Padding? ==> BlockEnd(file[..n], pos) == BlockEnd(file, pos)
  {
    hide ReadHeader, Fragment, BlockEnd;
    CutBlock(file, n, pos);
    var cut := file[..n];
    var short, long := cut[pos..BlockEnd(cut, pos)], file[pos..BlockEnd(file, pos)];
    match HeaderAt(file, pos)
    case Padding =>
      assert short == long;
    case Record(r) =>
      RecordMeans(long, pos, r.kind, r.payload);
      assert Fragment(r.kind, r.payload) <= short;
      RecordMeans(short, pos, r.kind, r.payload);
  }

  /** A cut inside the payload is noticed; a cut inside the header is not. */
  lemma CutInside(file: seq<byte>, n: nat, pos: nat)
    requires pos < n <= |file| && HeaderAt(file, pos).Record?
    requires n < pos + HEADER_SIZE + |HeaderAt(file, pos).physical.payload|
    ensures BlockEnd(file[..n], pos) == n
    ensures HeaderAt(file[..n], pos) == if n < pos + HEADER_SIZE then Padding else Bad(CrossesBlock(pos))
  {
    hide ReadHeader, Fragment, BlockEnd;
    CutBlock(file, n, pos);
    var cut, r := file[..n], HeaderAt(file, pos).physical;
    var short, long := cut[pos..BlockEnd(cut, pos)], file[pos..BlockEnd(file, pos)];
    HeaderMeans(short, pos);
    if n >= pos + HEADER_SIZE {
      RecordMeans(long, pos, r.kind, r.payload);
      FragmentAnnounces(r.kind, r.payload, long);
      assert short[4..6] == long[4..6];
      assert Announces(short, |r.payload|);
      NotZeroHeader(short, |r.payload|);
    }
  }

  lemma FragmentAnnounces(kind: byte, payload: seq<byte>, tail: seq<byte>)
    requires |payload| < 65536 && Fragment(kind, payload) <= tail
    ensures Announces(tail, |payload|)
  {
    hide RecordCrc;
    assert tail[4..6] == Fragment(kind, payload)[4..6];
  }

  lemma NotZeroHeader(tail: seq<byte>, n: nat)
    requires |tail| >= HEADER_SIZE && Announces(tail, n) && n > 0
    ensures !ZeroHeader(tail)
  {
    hide LittleEndian;
    AnnouncesLength(tail, n);
    ZeroFields(tail);
  }

  /** The file cut at `n`, inside its `i`-th record: the records before it, and the error. */
  lemma {:induction false} CutScans(file: seq<byte>, n: nat, q: nat, i: nat)
    requires q <= |file| && i < |Scan(file, q).records| && q <= n < |file|
    requires var r := Scan(file, q).records[i]; r.offset <= n < r.offset + HEADER_SIZE + |r.payload|
    ensures var r := Scan(file, q).records[i];
            Scan(file[..n], q) == Scanned(Scan(file, q).records[..i],
                                          if n < r.offset + HEADER_SIZE then None else Some(CrossesBlock(r.offset)))
    decreases |file| - q
  {
    hide HeaderAt, BlockEnd;
    match HeaderAt(file, q)
    case Bad(_) =>
    case Padding =>
      OffsetsFrom(file, BlockEnd(file, q), i);
      CutKeeps(file, n, q);
      CutScans(file, n, BlockEnd(file, q), i);
    case Record(r) =>
      if i == 0 {
        HeaderOffset(file, q);
        if q < n {
          CutInside(file, n, q);
        }
      } else {
        var next := q + HEADER_SIZE + |r.payload|;
        OffsetsFrom(file, next, i - 1);
        CutKeeps(file, n, q);
        CutScans(file, n, next, i - 1);
        assert [r] + Scan(file, next).records[..i - 1] == Scan(file, q).records[..i];
      }
  }

  lemma HeaderOffset(file: seq<byte>, pos: nat)
    requires pos < |file| && HeaderAt(file, pos).Record?
    ensures HeaderAt(file, pos).physical.offset == pos
  {}

  /**
    A file read without error, cut inside its `i`-th physical record. The records completed before
    it are read. A cut from the end of the header on is an error at that record; a cut before is an
    error only if a fragment is open there, at the start of that fragment.
  */
  lemma CutNoticed(file: seq<byte>, n: nat, i: nat)
    requires Read(file).error.None? && i < |Scan(file, 0).records| && n < |file|
    requires var r := Scan(file, 0).records[i]; r.offset <= n < r.offset + HEADER_SIZE + |r.payload|
    ensures var records := Scan(file, 0).records;
            var seen := Assemble(Empty, records[..i]);
            && Read(file[..n]).yielded == seen.yielded
            && (n >= records[i].offset + HEADER_SIZE ==>
                  Read(file[..n]).error == Some(CrossesBlock(records[i].offset)))
            && (n < records[i].offset + HEADER_SIZE ==>
                  && (Read(file[..n]).error.Some? <==> Open(records, i))
                  && (Open(records, i) ==>
                        seen.start.Some? && Read(file[..n]).error == Some(TruncatedFragments(seen.start.value))))
  {
    hide Scan, Assemble, Open, Accepts;
    CutScans(file, n, 0, i);
    var records := Scan(file, 0).records;
    assert records[..i] + records[i..] == records;
    assert Assemble(Empty, records[..i]).error.None? by {
      if Assemble(Empty, records[..i]).error.Some? {
        ErrorPersists(Empty, records[..i], records[i..]);
      }
    }
    AssembleAcceptsIff(records[..i]);
    PastOnly(records, i);
  }

  lemma PastOnly(records: seq<Physical>, i: nat)
    requires i <= |records|
    ensures Open(records[..i], i) <==> Open(records, i)
  {
    var past := records[..i];
    assert forall k :: 0 <= k < i ==> past[k] == records[k];
    assert forall j :: 0 <= j < i ==> (Unclosed(past, j, i) <==> Unclosed(records, j, i));
  }
}
