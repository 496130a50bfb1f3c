/**
  The inventory over a whole log: counters by kind and column family, slot rows, the slots
  whose block is put in the same batch, and the rows extracted for them.
*/
module Inventory {
  import opened Bytes
  import opened WalLog
  import opened WriteBatch
  import Theorems = WalTheorems
  import Ranges = SlotRanges

  /** Column families, and the window of slots to extract if any are. */
  datatype Config = Config(blocksCf: nat, slotsCf: nat, window: Option<(nat, nat)>)

  /** A slot and its block, as extracted from one batch. */
  datatype Row = Row(sequence: nat, offset: nat, slot: nat, hash: seq<byte>, block: seq<byte>)

  /** What the loop over operations accumulates across batches. */
  datatype Tally = Tally(
    opCounts: map<OpKind, nat>,
    cfCounts: map<nat, nat>,
    slotRows: set<nat>,
    deletedSlotRows: set<nat>,
    lastSlotValues: seq<nat>,
    deletedBlockRows: nat,
    deletedLastSlotRows: nat)

  datatype Report = Report(
    tally: Tally,
    batches: nat,
    sequenceFirst: Option<nat>,
    sequenceLast: Option<nat>,
    matchedBlockSlots: set<nat>,
    extracted: set<Row>)

  const EmptyTally := Tally(map[], map[], {}, {}, [], 0, 0)
  const EmptyReport := Report(EmptyTally, 0, None, None, {}, {})

  /** b"last_slot" */
  const LAST_SLOT: seq<byte> := [108, 97, 115, 116, 95, 115, 108, 111, 116]

  function BigEndian(s: seq<byte>): nat {
    if s == [] then 0 else 256 * BigEndian(s[..|s| - 1]) + s[|s| - 1]
  }

  // ---------------------------------------------------------------------
  // What one operation is
  // ---------------------------------------------------------------------

  predicate IsBlockPut(c: Config, op: Operation) {
    op.kind == Put && op.value.Some? && op.columnFamily == c.blocksCf && |op.key| == 32
  }

  predicate InSlots(c: Config, op: Operation) {
    op.columnFamily == c.slotsCf && !(op.columnFamily == c.blocksCf && |op.key| == 32)
  }

  predicate IsSlotPut(c: Config, op: Operation) {
    op.kind == Put && op.value.Some? && InSlots(c, op) && |op.key| == 8 && |op.value.value| == 32
  }

  predicate IsLastSlotPut(c: Config, op: Operation) {
    && op.kind == Put && op.value.Some? && InSlots(c, op) && op.key == LAST_SLOT && |op.value.value| == 8
  }

  predicate IsDelete(op: Operation) {
    op.kind == Delete || op.kind == SingleDelete
  }

  function Increment<K>(counts: map<K, nat>, key: K): map<K, nat> {
    counts[key := (if key in counts then counts[key] else 0) + 1]
  }

  function Count(t: Tally, c: Config, op: Operation): Tally {
    Tally(
      Increment(t.opCounts, op.kind),
      Increment(t.cfCounts, op.columnFamily),
      if IsSlotPut(c, op) then t.slotRows + {BigEndian(op.key)} else t.slotRows,
      if IsDelete(op) && InSlots(c, op) && |op.key| == 8
      then t.deletedSlotRows + {BigEndian(op.key)} else t.deletedSlotRows,
      if IsLastSlotPut(c, op) then t.lastSlotValues + [BigEndian(op.value.value)] else t.lastSlotValues,
      if IsDelete(op) && op.columnFamily == c.blocksCf && |op.key| == 32
      then t.deletedBlockRows + 1 else t.deletedBlockRows,
      if IsDelete(op) && InSlots(c, op) && op.key == LAST_SLOT
      then t.deletedLastSlotRows + 1 else t.deletedLastSlotRows)
  }

  function CountAll(t: Tally, c: Config, ops: seq<Operation>): Tally {
    if ops == [] then t else Count(CountAll(t, c, ops[..|ops| - 1]), c, ops[|ops| - 1])
  }

  /** The blocks a batch puts, by hash; a later put of the same hash wins. */
  function BlockPuts(c: Config, ops: seq<Operation>): map<seq<byte>, seq<byte>> {
    if ops == [] then map[]
    else
      var before, op := BlockPuts(c, ops[..|ops| - 1]), ops[|ops| - 1];
      if IsBlockPut(c, op) then before[op.key := op.value.value] else before
  }

  /** The hash a batch puts at each slot; a later put of the same slot wins. */
  function BatchSlots(c: Config, ops: seq<Operation>): map<nat, seq<byte>> {
    if ops == [] then map[]
    else
      var before, op := BatchSlots(c, ops[..|ops| - 1]), ops[|ops| - 1];
      if IsSlotPut(c, op) then before[BigEndian(op.key) := op.value.value] else before
  }

  function Matched(c: Config, ops: seq<Operation>): set<nat> {
    set slot | slot in BatchSlots(c, ops) && BatchSlots(c, ops)[slot] in BlockPuts(c, ops)
  }

  predicate InWindow(c: Config, slot: nat) {
    c.window.Some? && c.window.value.0 <= slot <= c.window.value.1
  }

  function RowOf(sequence: nat, offset: nat, slot: nat, batchSlots: map<nat, seq<byte>>,
                 blockPuts: map<seq<byte>, seq<byte>>): Row
    requires slot in batchSlots && batchSlots[slot] in blockPuts
  {
    Row(sequence, offset, slot, batchSlots[slot], blockPuts[batchSlots[slot]])
  }

  predicate RowFrom(c: Config, sequence: nat, offset: nat, row: Row, batchSlots: map<nat, seq<byte>>,
                    blockPuts: map<seq<byte>, seq<byte>>) {
    && row.slot in batchSlots && batchSlots[row.slot] in blockPuts && InWindow(c, row.slot)
    && row == RowOf(sequence, offset, row.slot, batchSlots, blockPuts)
  }

  /** The rows of one batch: its matched slots in the window, with their blocks. */
  function Extracted(c: Config, sequence: nat, offset: nat, ops: seq<Operation>): set<Row> {
    set slot | slot in Matched(c, ops) && InWindow(c, slot) ::
      RowOf(sequence, offset, slot, BatchSlots(c, ops), BlockPuts(c, ops))
  }

  function Max(a: nat, b: nat): nat { if a < b then b else a }

  function Min(a: nat, b: nat): nat { if b < a then b else a }

  /** Last sequence number a batch uses; an empty batch still uses one. */
  function LastOf(sequence: nat, ops: seq<Operation>): nat {
    sequence + Max(|ops|, 1) - 1
  }

  /** `sequence_last or sequence`: zero counts as absent, as it does in Python. */
  function OrElse(last: Option<nat>, sequence: nat): nat {
    if last.None? || last.value == 0 then sequence else last.value
  }

  function AddBatch(r: Report, c: Config, sequence: nat, offset: nat, ops: seq<Operation>): Report {
    Report(
      CountAll(r.tally, c, ops),
      r.batches + 1,
      Some(if r.sequenceFirst.None? then sequence else Min(r.sequenceFirst.value, sequence)),
      Some(Max(OrElse(r.sequenceLast, sequence), LastOf(sequence, ops))),
      r.matchedBlockSlots + Matched(c, ops),
      r.extracted + Extracted(c, sequence, offset, ops))
  }

  datatype Failure = WalFailure(wal: WalError) | BatchFailure(offset: nat, batch: BatchError)

  /** A failed inventory reports nothing, but the rows it has extracted so far are written already. */
  datatype Outcome = Reported(report: Report) | Failed(failure: Failure, rows: set<Row>)

  /** The fold over yielded records, then the log's own error if it has one. */
  function Fold(r: Report, c: Config, records: seq<LogicalRecord>, error: Option<WalError>): Outcome
    decreases records
  {
    if records == [] then
      if error.Some? then Failed(WalFailure(error.value), r.extracted) else Reported(r)
    else
      match Batch(records[0].payload)
      case Err(e) => Failed(BatchFailure(records[0].offset, e), r.extracted)
      case Ok(batch) => Fold(AddBatch(r, c, batch.0, records[0].offset, batch.1), c, records[1..], error)
  }

  function Inventoried(c: Config, file: seq<byte>): Outcome {
    var seen := Read(file);
    Fold(EmptyReport, c, seen.yielded, seen.error)
  }

  // ---------------------------------------------------------------------
  // The implementation
  // ---------------------------------------------------------------------

  /** The loop over one batch's operations, with its two dictionaries. */
  method CountBatch(c: Config, start: Tally, ops: seq<Operation>)
    returns (tally: Tally, blockPuts: map<seq<byte>, seq<byte>>, batchSlots: map<nat, seq<byte>>)
    ensures tally == CountAll(start, c, ops)
    ensures blockPuts == BlockPuts(c, ops) && batchSlots == BatchSlots(c, ops)
  {
    hide BigEndian;
    tally, blockPuts, batchSlots := start, map[], map[];
    for i := 0 to |ops|
      invariant tally == CountAll(start, c, ops[..i])
      invariant blockPuts == BlockPuts(c, ops[..i]) && batchSlots == BatchSlots(c, ops[..i])
    {
      var op := ops[i];
      assert ops[..i + 1][..i] == ops[..i] && ops[..i + 1][i] == op;
      tally, blockPuts, batchSlots := CountOperation(c, tally, blockPuts, batchSlots, op);
    }
    assert ops[..|ops|] == ops;
  }

  /** The body of that loop: counters first, then deletes, then puts. */
  method CountOperation(
    c: Config, start: Tally, blocks: map<seq<byte>, seq<byte>>, slots: map<nat, seq<byte>>, op: Operation)
    returns (tally: Tally, blockPuts: map<seq<byte>, seq<byte>>, batchSlots: map<nat, seq<byte>>)
    ensures tally == Count(start, c, op)
    ensures blockPuts == if IsBlockPut(c, op) then blocks[op.key := op.value.value] else blocks
    ensures batchSlots == if IsSlotPut(c, op) then slots[BigEndian(op.key) := op.value.value] else slots
  {
    hide BigEndian;
    tally, blockPuts, batchSlots := start, blocks, slots;
    tally := tally.(opCounts := Increment(tally.opCounts, op.kind),
                    cfCounts := Increment(tally.cfCounts, op.columnFamily));
    if op.kind == Delete || op.kind == SingleDelete {
      if op.columnFamily == c.blocksCf && |op.key| == 32 {
        tally := tally.(deletedBlockRows := tally.deletedBlockRows + 1);
      } else if op.columnFamily == c.slotsCf {
        if |op.key| == 8 {
          tally := tally.(deletedSlotRows := tally.deletedSlotRows + {BigEndian(op.key)});
        } else if op.key == LAST_SLOT {
          tally := tally.(deletedLastSlotRows := tally.deletedLastSlotRows + 1);
        }
      }
    }
    if op.kind != Put || op.value.None? {
      return;
    }
    if op.columnFamily == c.blocksCf && |op.key| == 32 {
      blockPuts := blockPuts[op.key := op.value.value];
    } else if op.columnFamily == c.slotsCf {
      if |op.key| == 8 && |op.value.value| == 32 {
        var slot := BigEndian(op.key);
        batchSlots := batchSlots[slot := op.value.value];
        tally := tally.(slotRows := tally.slotRows + {slot});
      } else if op.key == LAST_SLOT && |op.value.value| == 8 {
        tally := tally.(lastSlotValues := tally.lastSlotValues + [BigEndian(op.value.value)]);
      }
    }
  }

  /** The loop over a batch's slots. */
  method MatchSlots(c: Config, sequence: nat, offset: nat, matched: set<nat>, rows: set<Row>,
                    blockPuts: map<seq<byte>, seq<byte>>, batchSlots: map<nat, seq<byte>>)
    returns (all: set<nat>, allRows: set<Row>)
    ensures all == matched + set slot | slot in batchSlots && batchSlots[slot] in blockPuts
    ensures allRows == rows + set slot | slot in batchSlots && batchSlots[slot] in blockPuts && InWindow(c, slot) ::
                                RowOf(sequence, offset, slot, batchSlots, blockPuts)
  {
    all, allRows := matched, rows;
    var rest := batchSlots.Keys;
    while |rest| > 0
      invariant rest <= batchSlots.Keys
      invariant forall s :: s in all <==> s in matched || (s in batchSlots && s !in rest && batchSlots[s] in blockPuts)
      invariant forall row :: row in allRows <==>
          (row in rows || (row.slot !in rest && RowFrom(c, sequence, offset, row, batchSlots, blockPuts)))
      decreases |rest|
    {
      var slot :| slot in rest;
      if batchSlots[slot] in blockPuts {
        all := all + {slot};
        if InWindow(c, slot) {
          allRows := allRows + {RowOf(sequence, offset, slot, batchSlots, blockPuts)};
        }
      }
      rest := rest - {slot};
    }
  }

  /** `inventory`, without the JSON it prints its report and rows as. */
  method TakeInventory(c: Config, file: seq<byte>) returns (outcome: Outcome)
    ensures outcome == Inventoried(c, file)
  {
    hide Batch, Read, CountAll, BlockPuts, BatchSlots;
    var yielded, error := LogicalRecords(file);
    var tally, batches := EmptyTally, 0;
    var sequenceFirst: Option<nat>, sequenceLast: Option<nat> := None, None;
    var matched: set<nat>, extracted: set<Row> := {}, {};
    for i := 0 to |yielded|
      invariant Fold(Report(tally, batches, sequenceFirst, sequenceLast, matched, extracted), c, yielded[i..], error)
             == Inventoried(c, file)
    {
      var parsed := ParseWriteBatch(yielded[i].payload);
      assert yielded[i..][1..] == yielded[i + 1..];
      if parsed.Err? {
        return Failed(BatchFailure(yielded[i].offset, parsed.error), extracted);
      }
      var (sequence, operations) := parsed.value;
      batches := batches + 1;
      sequenceFirst := Some(if sequenceFirst.None? then sequence else Min(sequenceFirst.value, sequence));
      sequenceLast := Some(Max(OrElse(sequenceLast, sequence), LastOf(sequence, operations)));
      var blockPuts, batchSlots;
      tally, blockPuts, batchSlots := CountBatch(c, tally, operations);
      matched, extracted := MatchSlots(c, sequence, yielded[i].offset, matched, extracted, blockPuts, batchSlots);
      ExtractedIs(c, sequence, yielded[i].offset, operations);
    }
    outcome := if error.Some? then Failed(WalFailure(error.value), extracted)
               else Reported(Report(tally, batches, sequenceFirst, sequenceLast, matched, extracted));
  }

  // ---------------------------------------------------------------------
  // Totals
  // ---------------------------------------------------------------------

  ghost function Sum<K>(counts: map<K, nat>): nat
    decreases counts.Keys
  {
    if counts.Keys == {} then 0
    else
      var k :| k in counts;
      counts[k] + Sum(counts - {k})
  }

  lemma {:induction false} SumSplit<K>(counts: map<K, nat>, key: K)
    requires key in counts
    ensures Sum(counts) == counts[key] + Sum(counts - {key})
    decreases counts.Keys
  {
    var k :| k in counts && Sum(counts) == counts[k] + Sum(counts - {k});
    if k != key {
      SumSplit(counts - {k}, key);
      SumSplit(counts - {key}, k);
      assert counts - {k} - {key} == counts - {key} - {k};
    }
  }

  lemma SumIncrement<K>(counts: map<K, nat>, key: K)
    ensures Sum(Increment(counts, key)) == Sum(counts) + 1
  {
    var more := Increment(counts, key);
    SumSplit(more, key);
    if key in counts {
      SumSplit(counts, key);
      assert more - {key} == counts - {key};
    } else {
      assert more - {key} == counts;
    }
  }

  /** Counts by kind and by column family both total `n`. */
  ghost predicate Totals(t: Tally, n: nat) {
    Sum(t.opCounts) == n && Sum(t.cfCounts) == n
  }

  lemma {:induction false} CountAllTotals(t: Tally, c: Config, ops: seq<Operation>, n: nat)
    requires Totals(t, n)
    ensures Totals(CountAll(t, c, ops), n + |ops|)
    decreases ops
  {
    hide IsSlotPut, IsLastSlotPut, Increment, Sum, BigEndian;
    if ops != [] {
      var before := CountAll(t, c, ops[..|ops| - 1]);
      CountAllTotals(t, c, ops[..|ops| - 1], n);
      SumIncrement(before.opCounts, ops[|ops| - 1].kind);
      SumIncrement(before.cfCounts, ops[|ops| - 1].columnFamily);
    }
  }

  // ---------------------------------------------------------------------
  // Slots
  // ---------------------------------------------------------------------

  /** The operations put a hash at `slot`, and the last time they do they put `hash`. */
  ghost predicate LastPut(c: Config, ops: seq<Operation>, slot: nat, hash: seq<byte>) {
    exists i ::
      && 0 <= i < |ops| && IsSlotPut(c, ops[i]) && BigEndian(ops[i].key) == slot && ops[i].value == Some(hash)
      && forall j :: i < j < |ops| && IsSlotPut(c, ops[j]) ==> BigEndian(ops[j].key) != slot
  }

  ghost predicate PutsSlot(c: Config, ops: seq<Operation>, slot: nat) {
    exists i :: 0 <= i < |ops| && IsSlotPut(c, ops[i]) && BigEndian(ops[i].key) == slot
  }

  ghost predicate PutsBlock(c: Config, ops: seq<Operation>, hash: seq<byte>) {
    exists i :: 0 <= i < |ops| && IsBlockPut(c, ops[i]) && ops[i].key == hash
  }

  lemma LastPutSnoc(c: Config, ops: seq<Operation>, op: Operation, slot: nat, hash: seq<byte>)
    ensures LastPut(c, ops + [op], slot, hash) <==>
            if IsSlotPut(c, op) && BigEndian(op.key) == slot then op.value == Some(hash)
            else LastPut(c, ops, slot, hash)
  {
    hide IsSlotPut, BigEndian;
    var all := ops + [op];
    assert all[|ops|] == op && forall i :: 0 <= i < |ops| ==> all[i] == ops[i];
    if LastPut(c, ops, slot, hash) && !(IsSlotPut(c, op) && BigEndian(op.key) == slot) {
      var i :| 0 <= i < |ops| && IsSlotPut(c, ops[i]) && BigEndian(ops[i].key) == slot && ops[i].value == Some(hash)
               && forall j :: i < j < |ops| && IsSlotPut(c, ops[j]) ==> BigEndian(ops[j].key) != slot;
      assert IsSlotPut(c, all[i]) && BigEndian(all[i].key) == slot && all[i].value == Some(hash);
    }
    if LastPut(c, all, slot, hash) {
      var i :| 0 <= i < |all| && IsSlotPut(c, all[i]) && BigEndian(all[i].key) == slot && all[i].value == Some(hash)
               && forall j :: i < j < |all| && IsSlotPut(c, all[j]) ==> BigEndian(all[j].key) != slot;
      if i < |ops| {
        assert IsSlotPut(c, ops[i]);
      }
    }
  }

  /** The dictionary of a batch holds, for each slot, the last hash put there. */
  lemma {:induction false} BatchSlotsLast(c: Config, ops: seq<Operation>, slot: nat, hash: seq<byte>)
    ensures (slot in BatchSlots(c, ops) && BatchSlots(c, ops)[slot] == hash) <==> LastPut(c, ops, slot, hash)
    decreases ops
  {
    hide BigEndian, LastPut, InSlots;
    if ops == [] {
      NoLastPut(c, slot, hash);
    } else {
      var n := |ops| - 1;
      assert ops == ops[..n] + [ops[n]];
      BatchSlotsLast(c, ops[..n], slot, hash);
      LastPutSnoc(c, ops[..n], ops[n], slot, hash);
    }
  }

  lemma NoLastPut(c: Config, slot: nat, hash: seq<byte>)
    ensures !LastPut(c, [], slot, hash)
  {}

  lemma {:induction false} BlockPutsKeys(c: Config, ops: seq<Operation>, hash: seq<byte>)
    ensures hash in BlockPuts(c, ops) <==> PutsBlock(c, ops, hash)
    decreases ops
  {
    hide IsBlockPut;
    if ops != [] {
      var n := |ops| - 1;
      BlockPutsKeys(c, ops[..n], hash);
      assert forall i :: 0 <= i < n ==> ops[..n][i] == ops[i];
    }
  }

  lemma ExtractedIs(c: Config, sequence: nat, offset: nat, ops: seq<Operation>)
    ensures var slots, blocks := BatchSlots(c, ops), BlockPuts(c, ops);
            Extracted(c, sequence, offset, ops)
            == set slot | slot in slots && slots[slot] in blocks && InWindow(c, slot) ::
                 RowOf(sequence, offset, slot, slots, blocks)
  {
    hide BatchSlots, BlockPuts;
  }

  /** The operations put a block under `hash`, and the last time they do it is `block`. */
  ghost predicate LastBlock(c: Config, ops: seq<Operation>, hash: seq<byte>, block: seq<byte>) {
    exists i ::
      && 0 <= i < |ops| && IsBlockPut(c, ops[i]) && ops[i].key == hash && ops[i].value == Some(block)
      && forall j :: i < j < |ops| && IsBlockPut(c, ops[j]) ==> ops[j].key != hash
  }

  lemma LastBlockSnoc(c: Config, ops: seq<Operation>, op: Operation, hash: seq<byte>, block: seq<byte>)
    ensures LastBlock(c, ops + [op], hash, block) <==>
            if IsBlockPut(c, op) && op.key == hash then op.value == Some(block) else LastBlock(c, ops, hash, block)
  {
    hide IsBlockPut;
    var all := ops + [op];
    assert all[|ops|] == op && forall i :: 0 <= i < |ops| ==> all[i] == ops[i];
    if LastBlock(c, ops, hash, block) && !(IsBlockPut(c, op) && op.key == hash) {
      var i :| 0 <= i < |ops| && IsBlockPut(c, ops[i]) && ops[i].key == hash && ops[i].value == Some(block)
               && forall j :: i < j < |ops| && IsBlockPut(c, ops[j]) ==> ops[j].key != hash;
      assert IsBlockPut(c, all[i]) && all[i].key == hash && all[i].value == Some(block);
    }
    if LastBlock(c, all, hash, block) {
      var i :| 0 <= i < |all| && IsBlockPut(c, all[i]) && all[i].key == hash && all[i].value == Some(block)
               && forall j :: i < j < |all| && IsBlockPut(c, all[j]) ==> all[j].key != hash;
      if i < |ops| {
        assert IsBlockPut(c, ops[i]);
      }
    }
  }

  /** The dictionary of a batch holds, for each hash, the last block put under it. */
  lemma {:induction false} BlockPutsLast(c: Config, ops: seq<Operation>, hash: seq<byte>, block: seq<byte>)
    ensures (hash in BlockPuts(c, ops) && BlockPuts(c, ops)[hash] == block) <==> LastBlock(c, ops, hash, block)
    decreases ops
  {
    hide LastBlock;
    if ops == [] {
      NoLastBlock(c, hash, block);
    } else {
      var n := |ops| - 1;
      assert ops == ops[..n] + [ops[n]];
      BlockPutsLast(c, ops[..n], hash, block);
      LastBlockSnoc(c, ops[..n], ops[n], hash, block);
    }
  }

  lemma NoLastBlock(c: Config, hash: seq<byte>, block: seq<byte>)
    ensures !LastBlock(c, [], hash, block)
  {}

  /** A row is extracted exactly when its slot is in the window, its hash is the one last put
      at the slot, and its block the one last put under that hash, all in the same batch. */
  lemma ExtractedMeans(c: Config, sequence: nat, offset: nat, ops: seq<Operation>, row: Row)
    ensures row in Extracted(c, sequence, offset, ops) <==>
            && row.sequence == sequence && row.offset == offset && InWindow(c, row.slot)
            && LastPut(c, ops, row.slot, row.hash) && LastBlock(c, ops, row.hash, row.block)
  {
    hide LastPut, LastBlock, BatchSlots, BlockPuts, InWindow;
    BatchSlotsLast(c, ops, row.slot, row.hash);
    BlockPutsLast(c, ops, row.hash, row.block);
    var slots, blocks := BatchSlots(c, ops), BlockPuts(c, ops);
    if row in Extracted(c, sequence, offset, ops) {
      var slot :| slot in Matched(c, ops) && InWindow(c, slot) && row == RowOf(sequence, offset, slot, slots, blocks);
    }
    if row.slot in Matched(c, ops) && InWindow(c, row.slot) {
      assert RowOf(sequence, offset, row.slot, slots, blocks) in Extracted(c, sequence, offset, ops);
    }
  }

  /** A slot is matched exactly when the hash last put there is the key of a block put
      somewhere in the same batch. */
  lemma MatchedMeans(c: Config, ops: seq<Operation>, slot: nat)
    ensures slot in Matched(c, ops) <==> exists hash :: LastPut(c, ops, slot, hash) && PutsBlock(c, ops, hash)
  {
    hide LastPut, PutsBlock, BatchSlots, BlockPuts;
    if slot in Matched(c, ops) {
      var hash := BatchSlots(c, ops)[slot];
      BatchSlotsLast(c, ops, slot, hash);
      BlockPutsKeys(c, ops, hash);
    }
    forall hash | LastPut(c, ops, slot, hash) && PutsBlock(c, ops, hash) ensures slot in Matched(c, ops) {
      BatchSlotsLast(c, ops, slot, hash);
      BlockPutsKeys(c, ops, hash);
    }
  }

  lemma {:induction false} CountAllSlots(t: Tally, c: Config, ops: seq<Operation>, slot: nat)
    ensures slot in CountAll(t, c, ops).slotRows <==> slot in t.slotRows || PutsSlot(c, ops, slot)
    decreases ops
  {
    hide IsSlotPut, IsLastSlotPut, BigEndian, Increment;
    if ops != [] {
      var n := |ops| - 1;
      CountAllSlots(t, c, ops[..n], slot);
      assert forall i :: 0 <= i < n ==> ops[..n][i] == ops[i];
    }
  }

  lemma MatchedArePut(c: Config, ops: seq<Operation>, slot: nat)
    requires slot in Matched(c, ops)
    ensures PutsSlot(c, ops, slot)
  {
    MatchedMeans(c, ops, slot);
  }

  // ---------------------------------------------------------------------
  // The whole log
  // ---------------------------------------------------------------------

  function Ops(record: LogicalRecord): seq<Operation> {
    var b := Batch(record.payload);
    if b.Ok? then b.value.1 else []
  }

  function Sequence(record: LogicalRecord): nat {
    var b := Batch(record.payload);
    if b.Ok? then b.value.0 else 0
  }

  function TotalOps(records: seq<LogicalRecord>): nat {
    if records == [] then 0 else |Ops(records[0])| + TotalOps(records[1..])
  }

  lemma {:induction false} TotalOpsSnoc(records: seq<LogicalRecord>, record: LogicalRecord)
    ensures TotalOps(records + [record]) == TotalOps(records) + |Ops(record)|
    decreases records
  {
    hide Ops;
    if records == [] {
      assert records + [record] == [record];
    } else {
      assert (records + [record])[1..] == records[1..] + [record];
      TotalOpsSnoc(records[1..], record);
    }
  }

  ghost predicate SomePutsSlot(c: Config, records: seq<LogicalRecord>, slot: nat) {
    exists k :: 0 <= k < |records| && PutsSlot(c, Ops(records[k]), slot)
  }

  ghost predicate SomeMatches(c: Config, records: seq<LogicalRecord>, slot: nat) {
    exists k :: 0 <= k < |records| && slot in Matched(c, Ops(records[k]))
  }

  /** The reported slots are those some batch puts, or matches; every match is a slot row. */
  ghost predicate SlotsRight(r: Report, c: Config, records: seq<LogicalRecord>) {
    && (forall slot :: slot in r.tally.slotRows <==> SomePutsSlot(c, records, slot))
    && (forall slot :: slot in r.matchedBlockSlots <==> SomeMatches(c, records, slot))
    && r.matchedBlockSlots <= r.tally.slotRows
  }

  predicate SomeExtracts(c: Config, records: seq<LogicalRecord>, row: Row) {
    exists k :: 0 <= k < |records| && row in Extracted(c, Sequence(records[k]), records[k].offset, Ops(records[k]))
  }

  /** The extracted rows are those of some batch, and all of them are matched slots. */
  ghost predicate RowsRight(r: Report, c: Config, records: seq<LogicalRecord>) {
    && (forall row :: row in r.extracted <==> SomeExtracts(c, records, row))
    && (forall row :: row in r.extracted ==> row.slot in r.matchedBlockSlots)
  }

  lemma RowsStep(r: Report, r': Report, c: Config, records: seq<LogicalRecord>, record: LogicalRecord)
    requires RowsRight(r, c, records)
    requires r'.extracted == r.extracted + Extracted(c, Sequence(record), record.offset, Ops(record))
    requires r'.matchedBlockSlots == r.matchedBlockSlots + Matched(c, Ops(record))
    ensures RowsRight(r', c, records + [record])
  {
    hide Ops, Sequence, Matched, BatchSlots, BlockPuts, Extracted;
    var all := records + [record];
    assert all[|records|] == record && forall k :: 0 <= k < |records| ==> all[k] == records[k];
    forall row: Row
      ensures row in r'.extracted <==> SomeExtracts(c, all, row)
      ensures row in r'.extracted ==> row.slot in r'.matchedBlockSlots
    {
      assert SomeExtracts(c, all, row) <==>
             SomeExtracts(c, records, row) || row in Extracted(c, Sequence(record), record.offset, Ops(record));
      RowSlot(c, Sequence(record), record.offset, Ops(record), row);
    }
  }

  lemma RowSlot(c: Config, sequence: nat, offset: nat, ops: seq<Operation>, row: Row)
    ensures row in Extracted(c, sequence, offset, ops) ==> row.slot in Matched(c, ops)
  {
    hide Matched, BatchSlots, BlockPuts;
  }

  function LastSequence(record: LogicalRecord): nat {
    LastOf(Sequence(record), Ops(record))
  }

  /** First and last sequence number are the least and the greatest used. */
  ghost predicate SequencesRight(r: Report, records: seq<LogicalRecord>) {
    if records == [] then r.sequenceFirst == None && r.sequenceLast == None
    else
      && r.sequenceFirst.Some? && r.sequenceLast.Some?
      && (forall k :: 0 <= k < |records| ==> r.sequenceFirst.value <= Sequence(records[k]))
      && (exists k :: 0 <= k < |records| && r.sequenceFirst.value == Sequence(records[k]))
      && (forall k :: 0 <= k < |records| ==> LastSequence(records[k]) <= r.sequenceLast.value)
      && (exists k :: 0 <= k < |records| && r.sequenceLast.value == LastSequence(records[k]))
  }

  ghost predicate Summarises(r: Report, c: Config, records: seq<LogicalRecord>) {
    && r.batches == |records|
    && Totals(r.tally, TotalOps(records))
    && SlotsRight(r, c, records)
    && RowsRight(r, c, records)
    && SequencesRight(r, records)
  }

  lemma SlotsStep(r: Report, r': Report, c: Config, records: seq<LogicalRecord>, record: LogicalRecord)
    requires SlotsRight(r, c, records)
    requires r'.tally == CountAll(r.tally, c, Ops(record))
    requires r'.matchedBlockSlots == r.matchedBlockSlots + Matched(c, Ops(record))
    ensures SlotsRight(r', c, records + [record])
  {
    hide Ops, Matched, PutsSlot, CountAll;
    var all := records + [record];
    assert all[|records|] == record && forall k :: 0 <= k < |records| ==> all[k] == records[k];
    forall slot: nat
      ensures slot in r'.tally.slotRows <==> SomePutsSlot(c, all, slot)
      ensures slot in r'.matchedBlockSlots <==> SomeMatches(c, all, slot)
      ensures slot in r'.matchedBlockSlots ==> slot in r'.tally.slotRows
    {
      CountAllSlots(r.tally, c, Ops(record), slot);
      assert SomePutsSlot(c, all, slot) <==> SomePutsSlot(c, records, slot) || PutsSlot(c, Ops(record), slot);
      assert SomeMatches(c, all, slot) <==> SomeMatches(c, records, slot) || slot in Matched(c, Ops(record));
      if slot in Matched(c, Ops(record)) {
        MatchedArePut(c, Ops(record), slot);
      }
    }
  }

  lemma SequencesStep(r: Report, r': Report, records: seq<LogicalRecord>, record: LogicalRecord)
    requires SequencesRight(r, records)
    requires r'.sequenceFirst ==
             Some(if r.sequenceFirst.None? then Sequence(record) else Min(r.sequenceFirst.value, Sequence(record)))
    requires r'.sequenceLast == Some(Max(OrElse(r.sequenceLast, Sequence(record)), LastSequence(record)))
    ensures SequencesRight(r', records + [record])
  {
    var all := records + [record];
    assert LastSequence(record) >= Sequence(record);
    hide Sequence, LastSequence;
    assert all[|records|] == record && forall k :: 0 <= k < |records| ==> all[k] == records[k];
    if records != [] {
      var i :| 0 <= i < |records| && r.sequenceFirst.value == Sequence(records[i]);
      var j :| 0 <= j < |records| && r.sequenceLast.value == LastSequence(records[j]);
      assert Sequence(all[i]) == Sequence(records[i]) && LastSequence(all[j]) == LastSequence(records[j]);
    }
  }

  lemma SummariseStep(r: Report, c: Config, records: seq<LogicalRecord>, record: LogicalRecord)
    requires Summarises(r, c, records) && Batch(record.payload).Ok?
    ensures Summarises(AddBatch(r, c, Sequence(record), record.offset, Ops(record)), c, records + [record])
  {
    hide Totals, SlotsRight, RowsRight, SequencesRight, CountAll, Matched, Extracted, Ops, Sequence, Batch;
    hide LastSequence;
    var r' := AddBatch(r, c, Sequence(record), record.offset, Ops(record));
    TotalOpsSnoc(records, record);
    CountAllTotals(r.tally, c, Ops(record), TotalOps(records));
    SlotsStep(r, r', c, records, record);
    RowsStep(r, r', c, records, record);
    LastSequenceIs(record);
    SequencesStep(r, r', records, record);
  }

  lemma LastSequenceIs(record: LogicalRecord)
    ensures LastSequence(record) == LastOf(Sequence(record), Ops(record))
  {}

  lemma {:induction false} FoldSummarises(
    r: Report, c: Config, done: seq<LogicalRecord>, rest: seq<LogicalRecord>, error: Option<WalError>)
    requires Summarises(r, c, done) && Fold(r, c, rest, error).Reported?
    ensures error.None? && forall k :: 0 <= k < |rest| ==> Batch(rest[k].payload).Ok?
    ensures Summarises(Fold(r, c, rest, error).report, c, done + rest)
    decreases rest
  {
    hide Summarises, Batch, AddBatch;
    if rest == [] {
      assert done + rest == done;
    } else {
      SummariseStep(r, c, done, rest[0]);
      var next := AddBatch(r, c, Sequence(rest[0]), rest[0].offset, Ops(rest[0]));
      FoldSummarises(next, c, done + [rest[0]], rest[1..], error);
      assert done + [rest[0]] + rest[1..] == done + rest;
    }
  }

  lemma EmptySummarises(c: Config)
    ensures Summarises(EmptyReport, c, [])
  {}

  // ---------------------------------------------------------------------
  // Every counter
  // ---------------------------------------------------------------------

  function AllOps(records: seq<LogicalRecord>): seq<Operation> {
    if records == [] then [] else Ops(records[0]) + AllOps(records[1..])
  }

  /** Where in a list of operations `p` holds. */
  function Where(ops: seq<Operation>, p: Operation -> bool): set<nat> {
    set i: nat | 0 <= i < |ops| && p(ops[i])
  }

  function OfKind(kind: OpKind): Operation -> bool { (op: Operation) => op.kind == kind }

  function InFamily(cf: nat): Operation -> bool { (op: Operation) => op.columnFamily == cf }

  function DeletesBlock(c: Config): Operation -> bool {
    (op: Operation) => IsDelete(op) && op.columnFamily == c.blocksCf && |op.key| == 32
  }

  function DeletesLastSlot(c: Config): Operation -> bool {
    (op: Operation) => IsDelete(op) && InSlots(c, op) && op.key == LAST_SLOT
  }

  predicate DeletesSlot(c: Config, op: Operation, slot: nat) {
    IsDelete(op) && InSlots(c, op) && |op.key| == 8 && BigEndian(op.key) == slot
  }

  /** The values put as last slot, in order. */
  function LastSlots(c: Config, ops: seq<Operation>): seq<nat> {
    if ops == [] then []
    else (if IsLastSlotPut(c, ops[0]) then [BigEndian(ops[0].value.value)] else []) + LastSlots(c, ops[1..])
  }

  function Times<K>(counts: map<K, nat>, key: K): nat {
    if key in counts then counts[key] else 0
  }

  /** Each counter is the number of operations it is for, deleted slots are those some operation
      deletes, and the last-slot values are those put, in order. */
  ghost predicate TallyRight(t: Tally, c: Config, ops: seq<Operation>) {
    && (forall kind: OpKind :: Times(t.opCounts, kind) == |Where(ops, OfKind(kind))|)
    && (forall cf: nat :: Times(t.cfCounts, cf) == |Where(ops, InFamily(cf))|)
    && t.deletedBlockRows == |Where(ops, DeletesBlock(c))|
    && t.deletedLastSlotRows == |Where(ops, DeletesLastSlot(c))|
    && (forall slot: nat :: slot in t.deletedSlotRows <==> exists i :: 0 <= i < |ops| && DeletesSlot(c, ops[i], slot))
    && t.lastSlotValues == LastSlots(c, ops)
  }

  lemma WhereSnoc(ops: seq<Operation>, op: Operation, p: Operation -> bool)
    ensures |Where(ops + [op], p)| == |Where(ops, p)| + if p(op) then 1 else 0
  {
    var all := ops + [op];
    assert all[|ops|] == op && forall i :: 0 <= i < |ops| ==> all[i] == ops[i];
    assert Where(all, p) == Where(ops, p) + if p(op) then {|ops|} else {};
  }

  lemma {:induction false} LastSlotsSnoc(c: Config, ops: seq<Operation>, op: Operation)
    ensures LastSlots(c, ops + [op]) ==
            LastSlots(c, ops) + if IsLastSlotPut(c, op) then [BigEndian(op.value.value)] else []
    decreases ops
  {
    hide IsLastSlotPut, BigEndian;
    if ops == [] {
      assert ops + [op] == [op] && [op][1..] == [];
    } else {
      assert (ops + [op])[1..] == ops[1..] + [op];
      LastSlotsSnoc(c, ops[1..], op);
    }
  }

  lemma DeletesSnoc(c: Config, ops: seq<Operation>, op: Operation, slot: nat)
    ensures (exists i :: 0 <= i < |ops| + 1 && DeletesSlot(c, (ops + [op])[i], slot)) <==>
            (exists i :: 0 <= i < |ops| && DeletesSlot(c, ops[i], slot)) || DeletesSlot(c, op, slot)
  {
    hide DeletesSlot;
    var all := ops + [op];
    assert all[|ops|] == op && forall i :: 0 <= i < |ops| ==> all[i] == ops[i];
  }

  lemma CountRight(t: Tally, c: Config, ops: seq<Operation>, op: Operation)
    requires TallyRight(t, c, ops)
    ensures TallyRight(Count(t, c, op), c, ops + [op])
  {
    hide BigEndian, InSlots, IsLastSlotPut, IsSlotPut, LastSlots, Where;
    var t', all := Count(t, c, op), ops + [op];
    forall kind: OpKind ensures Times(t'.opCounts, kind) == |Where(all, OfKind(kind))| {
      WhereSnoc(ops, op, OfKind(kind));
    }
    forall cf: nat ensures Times(t'.cfCounts, cf) == |Where(all, InFamily(cf))| {
      WhereSnoc(ops, op, InFamily(cf));
    }
    WhereSnoc(ops, op, DeletesBlock(c));
    WhereSnoc(ops, op, DeletesLastSlot(c));
    forall slot: nat
      ensures slot in t'.deletedSlotRows <==> exists i :: 0 <= i < |all| && DeletesSlot(c, all[i], slot)
    {
      DeletesSnoc(c, ops, op, slot);
    }
    LastSlotsSnoc(c, ops, op);
  }

  lemma {:induction false} CountAllRight(c: Config, ops: seq<Operation>)
    ensures TallyRight(CountAll(EmptyTally, c, ops), c, ops)
    decreases ops
  {
    hide TallyRight, Count;
    if ops == [] {
      NothingCounted(c);
    } else {
      var n := |ops| - 1;
      assert ops == ops[..n] + [ops[n]];
      CountAllRight(c, ops[..n]);
      CountRight(CountAll(EmptyTally, c, ops[..n]), c, ops[..n], ops[n]);
    }
  }

  lemma NothingCounted(c: Config)
    ensures TallyRight(EmptyTally, c, [])
  {
    assert forall p: Operation -> bool :: Where([], p) == {};
  }

  lemma {:induction false} CountAllConcat(t: Tally, c: Config, some: seq<Operation>, more: seq<Operation>)
    ensures CountAll(t, c, some + more) == CountAll(CountAll(t, c, some), c, more)
    decreases more
  {
    hide Count;
    if more == [] {
      assert some + more == some;
    } else {
      var n := |more| - 1;
      assert (some + more)[..|some| + n] == some + more[..n];
      CountAllConcat(t, c, some, more[..n]);
    }
  }

  lemma {:induction false} AllOpsSnoc(records: seq<LogicalRecord>, record: LogicalRecord)
    ensures AllOps(records + [record]) == AllOps(records) + Ops(record)
    decreases records
  {
    hide Ops;
    if records == [] {
      assert records + [record] == [record] && [record][1..] == [];
    } else {
      assert (records + [record])[1..] == records[1..] + [record];
      AllOpsSnoc(records[1..], record);
    }
  }

  lemma {:induction false} FoldTally(
    r: Report, c: Config, done: seq<LogicalRecord>, rest: seq<LogicalRecord>, error: Option<WalError>)
    requires r.tally == CountAll(EmptyTally, c, AllOps(done)) && Fold(r, c, rest, error).Reported?
    ensures Fold(r, c, rest, error).report.tally == CountAll(EmptyTally, c, AllOps(done + rest))
    decreases rest
  {
    hide Batch, CountAll, AllOps, Extracted, Matched;
    if rest == [] {
      assert done + rest == done;
    } else {
      AllOpsSnoc(done, rest[0]);
      CountAllConcat(EmptyTally, c, AllOps(done), Ops(rest[0]));
      FoldTally(AddBatch(r, c, Sequence(rest[0]), rest[0].offset, Ops(rest[0])), c, done + [rest[0]], rest[1..], error);
      assert done + [rest[0]] + rest[1..] == done + rest;
    }
  }

  /** A reported inventory covers an error-free log of parsable batches: totals by kind, by
      column family and by batch agree, slots, matches and extracted rows are exactly those put,
      and the sequence bounds are tight. */
  lemma ReportIsRight(c: Config, file: seq<byte>)
    requires Inventoried(c, file).Reported?
    ensures Read(file).error.None?
    ensures forall k :: 0 <= k < |Read(file).yielded| ==> Batch(Read(file).yielded[k].payload).Ok?
    ensures Summarises(Inventoried(c, file).report, c, Read(file).yielded)
    ensures TallyRight(Inventoried(c, file).report.tally, c, AllOps(Read(file).yielded))
  {
    hide Read, Summarises, Fold, TallyRight;
    var seen := Read(file);
    EmptySummarises(c);
    FoldSummarises(EmptyReport, c, [], seen.yielded, seen.error);
    FoldTally(EmptyReport, c, [], seen.yielded, seen.error);
    CountAllRight(c, AllOps(seen.yielded));
    assert [] + seen.yielded == seen.yielded;
  }

  // ---------------------------------------------------------------------
  // A failed inventory
  // ---------------------------------------------------------------------

  /** How many records come before the first that is not a batch. */
  function Parsable(records: seq<LogicalRecord>): (n: nat)
    ensures n <= |records|
    ensures forall k :: 0 <= k < n ==> Batch(records[k].payload).Ok?
    ensures n < |records| ==> Batch(records[n].payload).Err?
  {
    hide Batch;
    if records == [] || Batch(records[0].payload).Err? then 0
    else
      assert forall k :: 0 <= k < |records| - 1 ==> records[1..][k] == records[k + 1];
      1 + Parsable(records[1..])
  }

  function FailureAt(records: seq<LogicalRecord>, n: nat, error: Option<WalError>): Option<Failure>
    requires n <= |records| && (n < |records| ==> Batch(records[n].payload).Err?)
  {
    if n < |records| then Some(BatchFailure(records[n].offset, Batch(records[n].payload).error))
    else if error.Some? then Some(WalFailure(error.value))
    else None
  }

  lemma {:induction false} FoldFails(
    r: Report, c: Config, done: seq<LogicalRecord>, rest: seq<LogicalRecord>, error: Option<WalError>)
    requires RowsRight(r, c, done)
    ensures var n, outcome := Parsable(rest), Fold(r, c, rest, error);
            && (outcome.Failed? <==> FailureAt(rest, n, error).Some?)
            && (outcome.Failed? ==>
                  && FailureAt(rest, n, error) == Some(outcome.failure)
                  && forall row :: row in outcome.rows <==> SomeExtracts(c, done + rest[..n], row))
    decreases rest
  {
    hide Batch, SomeExtracts, Extracted, CountAll, Matched;
    if rest == [] || Batch(rest[0].payload).Err? {
      assert done + rest[..0] == done;
    } else {
      var next := AddBatch(r, c, Sequence(rest[0]), rest[0].offset, Ops(rest[0]));
      RowsStep(r, next, c, done, rest[0]);
      FoldFails(next, c, done + [rest[0]], rest[1..], error);
      var n := Parsable(rest);
      assert done + [rest[0]] + rest[1..][..n - 1] == done + rest[..n];
    }
  }

  /** The inventory fails if and only if a record is not a batch or the log has an error, at the
      first of these; the rows written by then are exactly those of the batches before it. */
  lemma FailedRows(c: Config, file: seq<byte>)
    ensures var records, outcome := Read(file).yielded, Inventoried(c, file);
            var n := Parsable(records);
            && (outcome.Failed? <==> n < |records| || Read(file).error.Some?)
            && (outcome.Failed? ==>
                  && FailureAt(records, n, Read(file).error) == Some(outcome.failure)
                  && forall row :: row in outcome.rows <==> SomeExtracts(c, records[..n], row))
  {
    hide Read, Fold, Batch, SomeExtracts;
    var seen := Read(file);
    NoRows(c);
    FoldFails(EmptyReport, c, [], seen.yielded, seen.error);
    assert [] + seen.yielded[..Parsable(seen.yielded)] == seen.yielded[..Parsable(seen.yielded)];
  }

  lemma NoRows(c: Config)
    ensures RowsRight(EmptyReport, c, [])
  {}

  // ---------------------------------------------------------------------
  // From batches written to the report
  // ---------------------------------------------------------------------

  datatype WrittenBatch = WrittenBatch(sequence: nat, items: seq<Item>)

  predicate Writable(b: WrittenBatch) {
    && b.sequence < Pow256(8) && |OperationsOf(b.items)| < Pow256(4)
    && forall i :: 0 <= i < |b.items| ==> Encodable(b.items[i])
  }

  function Payload(b: WrittenBatch): seq<byte> {
    EncodeBatch(b.sequence, |OperationsOf(b.items)|, b.items)
  }

  function Payloads(batches: seq<WrittenBatch>): seq<seq<byte>> {
    seq(|batches|, i requires 0 <= i < |batches| => Payload(batches[i]))
  }

  lemma {:induction false} FoldReports(r: Report, c: Config, records: seq<LogicalRecord>)
    requires forall k :: 0 <= k < |records| ==> Batch(records[k].payload).Ok?
    ensures Fold(r, c, records, None).Reported?
    decreases records
  {
    hide Batch, AddBatch;
    if records != [] {
      var b := Batch(records[0].payload).value;
      FoldReports(AddBatch(r, c, b.0, records[0].offset, b.1), c, records[1..]);
    }
  }

  /** Batches written to a log in the RocksDB format and read back: the inventory succeeds,
      its records are the batches, and `Summarises` and `TallyRight` say what it reports. */
  lemma InventoryOfWritten(c: Config, batches: seq<WrittenBatch>)
    requires forall i :: 0 <= i < |batches| ==> Writable(batches[i])
    ensures var file := Theorems.WriteLog(0, Payloads(batches));
            var records := Read(file).yielded;
            && Inventoried(c, file).Reported?
            && Summarises(Inventoried(c, file).report, c, records)
            && TallyRight(Inventoried(c, file).report.tally, c, AllOps(records))
            && |records| == |batches|
            && forall i :: 0 <= i < |batches| ==>
                 Sequence(records[i]) == batches[i].sequence && Ops(records[i]) == OperationsOf(batches[i].items)
  {
    hide Read, Summarises, TallyRight, Fold, EncodeBatch, Encodable, OperationsOf, Batch;
    hide Theorems.WriteLog, Theorems.Written;
    var file := Theorems.WriteLog(0, Payloads(batches));
    Theorems.ReadInvertsWrite(Payloads(batches));
    var records := Read(file).yielded;
    forall i | 0 <= i < |batches|
      ensures Batch(records[i].payload) == Ok((batches[i].sequence, OperationsOf(batches[i].items)))
    {
      ParseInvertsEncode(batches[i].sequence, |OperationsOf(batches[i].items)|, batches[i].items);
    }
    FoldReports(EmptyReport, c, records);
    ReportIsRight(c, file);
  }

  /** The four range lists of the report. */
  method ReportRanges(report: Report)
    returns (slotRows: seq<Ranges.Range>, deleted: seq<Ranges.Range>, matched: seq<Ranges.Range>,
             lastSlots: seq<Ranges.Range>)
    ensures Ranges.Compresses(slotRows, report.tally.slotRows)
    ensures Ranges.Compresses(deleted, report.tally.deletedSlotRows)
    ensures Ranges.Compresses(matched, report.matchedBlockSlots)
    ensures Ranges.Compresses(lastSlots, set v | v in report.tally.lastSlotValues)
  {
    slotRows := Ranges.ContiguousRanges(report.tally.slotRows);
    deleted := Ranges.ContiguousRanges(report.tally.deletedSlotRows);
    matched := Ranges.ContiguousRanges(report.matchedBlockSlots);
    lastSlots := Ranges.ContiguousRanges(set v | v in report.tally.lastSlotValues);
  }
}
