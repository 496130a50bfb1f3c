/**
  What the inventory reports, in terms of the bytes written: a slot is the big-endian number in
  the key of its row, and each reported set and list is that of the operations on such keys.
*/
module InventorySlots {
  import opened Bytes
  import opened WalLog
  import opened WriteBatch
  import opened Inventory
  import Base58

  // ---------------------------------------------------------------------
  // Slot numbers in bytes
  // ---------------------------------------------------------------------

  /** `BigEndian` is the value of the bytes as a numeral in base 256. */
  lemma {:induction false} BigEndianIs(s: seq<byte>)
    ensures BigEndian(s) == Base58.FromBase(Base58.AsNats(s), 256)
    decreases s
  {
    if s != [] {
      var n := |s| - 1;
      BigEndianIs(s[..n]);
      assert Base58.AsNats(s)[..n] == Base58.AsNats(s[..n]);
    }
  }

  /** `slot.to_bytes(n, "big")`. */
  function ToBigEndian(v: nat, n: nat): (s: seq<byte>)
    ensures |s| == n
  {
    if n == 0 then [] else ToBigEndian(v / 256, n - 1) + [v % 256]
  }

  lemma {:induction false} BigEndianInverse(v: nat, n: nat)
    requires v < Pow256(n)
    ensures BigEndian(ToBigEndian(v, n)) == v
  {
    if n > 0 {
      BigEndianInverse(v / 256, n - 1);
      assert ToBigEndian(v, n)[..n - 1] == ToBigEndian(v / 256, n - 1);
    }
  }

  lemma {:induction false} ToBigEndianInverse(s: seq<byte>)
    ensures BigEndian(s) < Pow256(|s|) && ToBigEndian(BigEndian(s), |s|) == s
    decreases s
  {
    if s != [] {
      ToBigEndianInverse(s[..|s| - 1]);
      assert BigEndian(s) / 256 == BigEndian(s[..|s| - 1]);
    }
  }

  predicate IsSlot(v: nat) { v < Pow256(8) }

  /** The row key of a slot, and the only key it has. */
  lemma KeyIsSlot(key: seq<byte>, slot: nat)
    ensures |key| == 8 && BigEndian(key) == slot <==> IsSlot(slot) && key == ToBigEndian(slot, 8)
  {
    ToBigEndianInverse(key);
    if IsSlot(slot) {
      BigEndianInverse(slot, 8);
    }
  }

  const LAST_SLOT_TEXT: string := "last_slot"

  predicate IsLastSlotKey(key: seq<byte>) {
    |key| == |LAST_SLOT_TEXT| && forall i :: 0 <= i < |key| ==> key[i] == LAST_SLOT_TEXT[i] as int
  }

  lemma LastSlotKey(key: seq<byte>)
    ensures key == LAST_SLOT <==> IsLastSlotKey(key)
  {
    assert IsLastSlotKey(LAST_SLOT);
  }

  // ---------------------------------------------------------------------
  // One operation
  // ---------------------------------------------------------------------

  /** The operation puts `hash` in the row of `slot`. */
  predicate PutsHash(c: Config, op: Operation, slot: nat, hash: seq<byte>) {
    && op.kind == Put && op.columnFamily == c.slotsCf && op.value == Some(hash) && |hash| == 32
    && IsSlot(slot) && op.key == ToBigEndian(slot, 8)
  }

  predicate PutsRow(c: Config, op: Operation, slot: nat) {
    op.value.Some? && PutsHash(c, op, slot, op.value.value)
  }

  predicate DeletesRow(c: Config, op: Operation, slot: nat) {
    && (op.kind == Delete || op.kind == SingleDelete) && op.columnFamily == c.slotsCf
    && IsSlot(slot) && op.key == ToBigEndian(slot, 8)
  }

  /** The operation puts eight bytes under "last_slot". */
  predicate PutsLastSlot(c: Config, op: Operation) {
    && op.kind == Put && op.columnFamily == c.slotsCf && IsLastSlotKey(op.key)
    && op.value.Some? && |op.value.value| == 8
  }

  predicate PutsBlockUnder(c: Config, op: Operation, hash: seq<byte>, block: seq<byte>) {
    op.kind == Put && op.columnFamily == c.blocksCf && op.key == hash && |hash| == 32 && op.value == Some(block)
  }

  lemma OperationMeans(c: Config, op: Operation, slot: nat)
    ensures IsSlotPut(c, op) && BigEndian(op.key) == slot <==> PutsRow(c, op, slot)
    ensures DeletesSlot(c, op, slot) <==> DeletesRow(c, op, slot)
    ensures IsLastSlotPut(c, op) <==> PutsLastSlot(c, op)
    ensures IsBlockPut(c, op) <==> op.value.Some? && PutsBlockUnder(c, op, op.key, op.value.value)
  {
    hide BigEndian, ToBigEndian, IsSlot;
    KeyIsSlot(op.key, slot);
    LastSlotKey(op.key);
  }

  // ---------------------------------------------------------------------
  // One batch
  // ---------------------------------------------------------------------

  /** Some operation puts `hash` in the row of `slot`, and none puts another there afterwards. */
  ghost predicate FinalHash(c: Config, ops: seq<Operation>, slot: nat, hash: seq<byte>) {
    exists i :: 0 <= i < |ops| && PutsHash(c, ops[i], slot, hash) &&
                forall j :: i < j < |ops| ==> !PutsRow(c, ops[j], slot)
  }

  /** Some operation puts `block` under `hash`, and none puts another there afterwards. */
  ghost predicate FinalBlock(c: Config, ops: seq<Operation>, hash: seq<byte>, block: seq<byte>) {
    exists i :: 0 <= i < |ops| && PutsBlockUnder(c, ops[i], hash, block) &&
                forall j, b :: i < j < |ops| ==> !PutsBlockUnder(c, ops[j], hash, b)
  }

  lemma LastPutMeans(c: Config, ops: seq<Operation>, slot: nat, hash: seq<byte>)
    ensures LastPut(c, ops, slot, hash) <==> FinalHash(c, ops, slot, hash)
  {
    forall op: Operation
      ensures IsSlotPut(c, op) && BigEndian(op.key) == slot <==> PutsRow(c, op, slot)
    {
      OperationMeans(c, op, slot);
    }
    hide BigEndian, ToBigEndian, InSlots, IsSlot, IsSlotPut;
  }

  lemma LastBlockMeans(c: Config, ops: seq<Operation>, hash: seq<byte>, block: seq<byte>)
    ensures LastBlock(c, ops, hash, block) <==> FinalBlock(c, ops, hash, block)
  {
    if i :| 0 <= i < |ops| && PutsBlockUnder(c, ops[i], hash, block) &&
            forall j, b :: i < j < |ops| ==> !PutsBlockUnder(c, ops[j], hash, b)
    {
      assert IsBlockPut(c, ops[i]);
      forall j | i < j < |ops| && IsBlockPut(c, ops[j]) ensures ops[j].key != hash {
        assert !PutsBlockUnder(c, ops[j], hash, ops[j].value.value);
      }
    }
    if LastBlock(c, ops, hash, block) {
      var i :| 0 <= i < |ops| && IsBlockPut(c, ops[i]) && ops[i].key == hash && ops[i].value == Some(block)
               && forall j :: i < j < |ops| && IsBlockPut(c, ops[j]) ==> ops[j].key != hash;
      assert PutsBlockUnder(c, ops[i], hash, block);
      forall j, b | i < j < |ops| ensures !PutsBlockUnder(c, ops[j], hash, b) {
      }
    }
  }

  lemma PutsSlotMeans(c: Config, ops: seq<Operation>, slot: nat)
    ensures PutsSlot(c, ops, slot) <==> exists i :: 0 <= i < |ops| && PutsRow(c, ops[i], slot)
  {
    forall i | 0 <= i < |ops|
      ensures IsSlotPut(c, ops[i]) && BigEndian(ops[i].key) == slot <==> PutsRow(c, ops[i], slot)
    {
      OperationMeans(c, ops[i], slot);
    }
    hide IsSlotPut, PutsRow;
  }

  // ---------------------------------------------------------------------
  // The whole report
  // ---------------------------------------------------------------------

  /** Some operation of some batch puts the row of `slot`. */
  ghost predicate RowPut(c: Config, records: seq<LogicalRecord>, slot: nat) {
    exists k, i :: 0 <= k < |records| && 0 <= i < |Ops(records[k])| && PutsRow(c, Ops(records[k])[i], slot)
  }

  /** In some batch the hash finally in the row of `slot` is one a block is put under. */
  ghost predicate RowMatched(c: Config, records: seq<LogicalRecord>, slot: nat) {
    exists k, hash, block :: 0 <= k < |records| && FinalHash(c, Ops(records[k]), slot, hash)
                             && FinalBlock(c, Ops(records[k]), hash, block)
  }

  /** The row, with its hash and block, is what some batch finally puts, and its slot is wanted. */
  ghost predicate RowWanted(c: Config, records: seq<LogicalRecord>, row: Row) {
    && c.window.Some? && c.window.value.0 <= row.slot <= c.window.value.1
    && exists k :: 0 <= k < |records| && row.sequence == Sequence(records[k]) && row.offset == records[k].offset
                   && FinalHash(c, Ops(records[k]), row.slot, row.hash)
                   && FinalBlock(c, Ops(records[k]), row.hash, row.block)
  }

  /** The values put under "last_slot", as bytes. */
  function LastSlotBytes(c: Config, ops: seq<Operation>): seq<seq<byte>> {
    if ops == [] then []
    else (if PutsLastSlot(c, ops[0]) then [ops[0].value.value] else []) + LastSlotBytes(c, ops[1..])
  }

  predicate InBytes(values: seq<nat>, texts: seq<seq<byte>>) {
    && |values| == |texts|
    && forall i :: 0 <= i < |values| ==> IsSlot(values[i]) && texts[i] == ToBigEndian(values[i], 8)
  }

  lemma {:induction false} LastSlotsMean(c: Config, ops: seq<Operation>)
    ensures InBytes(LastSlots(c, ops), LastSlotBytes(c, ops))
    decreases ops
  {
    hide BigEndian, ToBigEndian, IsSlot, IsLastSlotPut, PutsLastSlot;
    if ops != [] {
      LastSlotsMean(c, ops[1..]);
      OperationMeans(c, ops[0], 0);
      if PutsLastSlot(c, ops[0]) {
        LastSlotValue(c, ops[0]);
      }
    }
  }

  lemma LastSlotValue(c: Config, op: Operation)
    requires PutsLastSlot(c, op)
    ensures IsSlot(BigEndian(op.value.value)) && op.value.value == ToBigEndian(BigEndian(op.value.value), 8)
  {
    ToBigEndianInverse(op.value.value);
  }

  /** Everything the report says of slots, from the bytes of the operations. */
  ghost predicate SlotsMean(r: Report, c: Config, records: seq<LogicalRecord>) {
    && (forall slot :: slot in r.tally.slotRows <==> RowPut(c, records, slot))
    && (forall slot :: slot in r.matchedBlockSlots <==> RowMatched(c, records, slot))
    && (forall row :: row in r.extracted <==> RowWanted(c, records, row))
  }

  ghost predicate RowDeleted(c: Config, ops: seq<Operation>, slot: nat) {
    exists i :: 0 <= i < |ops| && DeletesRow(c, ops[i], slot)
  }

  lemma RowPutMeans(c: Config, records: seq<LogicalRecord>, slot: nat)
    ensures SomePutsSlot(c, records, slot) <==> RowPut(c, records, slot)
  {
    hide Ops, PutsSlot, PutsRow;
    forall k | 0 <= k < |records|
      ensures PutsSlot(c, Ops(records[k]), slot) <==>
              exists i :: 0 <= i < |Ops(records[k])| && PutsRow(c, Ops(records[k])[i], slot)
    {
      PutsSlotMeans(c, Ops(records[k]), slot);
    }
  }

  lemma BatchMatched(c: Config, ops: seq<Operation>, slot: nat)
    ensures slot in Matched(c, ops) <==>
            exists hash, block :: FinalHash(c, ops, slot, hash) && FinalBlock(c, ops, hash, block)
  {
    hide Matched, FinalHash, FinalBlock, LastPut, LastBlock, PutsBlock;
    MatchedMeans(c, ops, slot);
    forall hash ensures LastPut(c, ops, slot, hash) <==> FinalHash(c, ops, slot, hash) {
      LastPutMeans(c, ops, slot, hash);
    }
    forall hash ensures PutsBlock(c, ops, hash) <==> exists block :: FinalBlock(c, ops, hash, block) {
      SomeBlock(c, ops, hash);
    }
  }

  lemma SomeBlock(c: Config, ops: seq<Operation>, hash: seq<byte>)
    ensures PutsBlock(c, ops, hash) <==> exists block :: FinalBlock(c, ops, hash, block)
  {
    hide FinalBlock, LastBlock, PutsBlock, BlockPuts;
    BlockPutsKeys(c, ops, hash);
    if hash in BlockPuts(c, ops) {
      var block := BlockPuts(c, ops)[hash];
      BlockPutsLast(c, ops, hash, block);
      LastBlockMeans(c, ops, hash, block);
    }
    forall block | FinalBlock(c, ops, hash, block) ensures hash in BlockPuts(c, ops) {
      LastBlockMeans(c, ops, hash, block);
      BlockPutsLast(c, ops, hash, block);
    }
  }

  lemma RowMatchedMeans(c: Config, records: seq<LogicalRecord>, slot: nat)
    ensures SomeMatches(c, records, slot) <==> RowMatched(c, records, slot)
  {
    hide Ops, Matched, FinalHash, FinalBlock;
    forall k | 0 <= k < |records|
      ensures slot in Matched(c, Ops(records[k])) <==>
              exists hash, block ::
                FinalHash(c, Ops(records[k]), slot, hash) && FinalBlock(c, Ops(records[k]), hash, block)
    {
      BatchMatched(c, Ops(records[k]), slot);
    }
  }

  lemma RowWantedMeans(c: Config, records: seq<LogicalRecord>, row: Row)
    ensures SomeExtracts(c, records, row) <==> RowWanted(c, records, row)
  {
    hide Ops, Sequence, Extracted, FinalHash, FinalBlock;
    forall k | 0 <= k < |records|
      ensures row in Extracted(c, Sequence(records[k]), records[k].offset, Ops(records[k])) <==>
              && row.sequence == Sequence(records[k]) && row.offset == records[k].offset && InWindow(c, row.slot)
              && FinalHash(c, Ops(records[k]), row.slot, row.hash)
              && FinalBlock(c, Ops(records[k]), row.hash, row.block)
    {
      ExtractedMeans(c, Sequence(records[k]), records[k].offset, Ops(records[k]), row);
      LastPutMeans(c, Ops(records[k]), row.slot, row.hash);
      LastBlockMeans(c, Ops(records[k]), row.hash, row.block);
    }
  }

  /** The last sequence number a batch uses: one for each operation, and one if it has none. */
  predicate IsLastUsed(record: LogicalRecord, last: nat) {
    last == if |Ops(record)| == 0 then Sequence(record) else Sequence(record) + |Ops(record)| - 1
  }

  /** The report's sequence numbers are the least and the greatest the batches use. */
  ghost predicate SequencesMean(r: Report, records: seq<LogicalRecord>) {
    if records == [] then r.sequenceFirst == None && r.sequenceLast == None
    else
      && r.sequenceFirst.Some? && r.sequenceLast.Some?
      && (forall k :: 0 <= k < |records| ==> r.sequenceFirst.value <= Sequence(records[k]))
      && (exists k :: 0 <= k < |records| && r.sequenceFirst.value == Sequence(records[k]))
      && (forall k: int, last: nat ::
            0 <= k < |records| && IsLastUsed(records[k], last) ==> last <= r.sequenceLast.value)
      && (exists k :: 0 <= k < |records| && IsLastUsed(records[k], r.sequenceLast.value))
  }

  lemma LastUsedMeans(record: LogicalRecord, last: nat)
    ensures IsLastUsed(record, last) <==> last == LastSequence(record)
  {}

  lemma SequencesFromSummary(r: Report, records: seq<LogicalRecord>)
    requires SequencesRight(r, records)
    ensures SequencesMean(r, records)
  {
    hide Sequence, IsLastUsed, LastSequence;
    forall k: int, last: nat | 0 <= k < |records|
      ensures IsLastUsed(records[k], last) <==> last == LastSequence(records[k])
    {
      LastUsedMeans(records[k], last);
    }
  }

  /** The slot rows of a report are those some operation puts under the eight big-endian bytes of the
      slot, matches and rows follow from what each batch finally puts, deletions are those of
      such keys, and the last-slot values are the numbers in the bytes put under "last_slot". */
  lemma ReportInBytes(c: Config, file: seq<byte>)
    requires Inventoried(c, file).Reported?
    ensures var r, records := Inventoried(c, file).report, Read(file).yielded;
            && r.batches == |records| && SlotsMean(r, c, records) && SequencesMean(r, records)
            && (forall slot :: slot in r.tally.deletedSlotRows <==> RowDeleted(c, AllOps(records), slot))
            && InBytes(r.tally.lastSlotValues, LastSlotBytes(c, AllOps(records)))
  {
    hide Read, Inventoried, AllOps, LastSlots, LastSlotBytes, InBytes;
    ReportIsRight(c, file);
    var r, records := Inventoried(c, file).report, Read(file).yielded;
    SlotsFromSummary(r, c, records);
    SummaryParts(r, c, records);
    SequencesFromSummary(r, records);
    DeletionsFromTally(r.tally, c, AllOps(records));
    LastSlotsMean(c, AllOps(records));
  }

  lemma SummaryParts(r: Report, c: Config, records: seq<LogicalRecord>)
    requires Summarises(r, c, records)
    ensures r.batches == |records| && SequencesRight(r, records)
  {}

  lemma SlotsFromSummary(r: Report, c: Config, records: seq<LogicalRecord>)
    requires Summarises(r, c, records)
    ensures SlotsMean(r, c, records)
  {
    hide RowPut, RowMatched, RowWanted, SomePutsSlot, SomeMatches, SomeExtracts, Totals, SequencesRight, TotalOps;
    forall slot: nat ensures slot in r.tally.slotRows <==> RowPut(c, records, slot) {
      RowPutMeans(c, records, slot);
    }
    forall slot: nat ensures slot in r.matchedBlockSlots <==> RowMatched(c, records, slot) {
      RowMatchedMeans(c, records, slot);
    }
    forall row: Row ensures row in r.extracted <==> RowWanted(c, records, row) {
      RowWantedMeans(c, records, row);
    }
  }

  lemma DeletionsFromTally(t: Tally, c: Config, ops: seq<Operation>)
    requires TallyRight(t, c, ops)
    ensures forall slot :: slot in t.deletedSlotRows <==> RowDeleted(c, ops, slot)
    ensures t.lastSlotValues == LastSlots(c, ops)
  {
    forall slot: nat ensures slot in t.deletedSlotRows <==> RowDeleted(c, ops, slot) {
      forall i | 0 <= i < |ops| ensures DeletesSlot(c, ops[i], slot) <==> DeletesRow(c, ops[i], slot) {
        OperationMeans(c, ops[i], slot);
      }
      hide DeletesSlot, DeletesRow;
    }
  }
}
