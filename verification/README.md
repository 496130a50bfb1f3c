# Lichen: models and proofs

Dafny models of the parts of Lichen whose correctness rests on an argument, with proofs of
those arguments. Each method is proved equal to a function of its inputs; the theorems are
about those functions.

- **Consensus** (`BftVotes`, `BftEngine`, `BftSafety`, `BftAgreement`, `BftOneRound`,
  `BftDisagreement`, `BftNode`, `BftConsensus`, `BftResponses`, `BftAccountability`): the
  Tendermint-style engine of a validator at one height. `BftEngine` is the state machine,
  `BftConsensus` the object with its fields updated in place, proved to take exactly the state
  machine's steps; `BftResponses` says when each message makes it vote, lock, give up a lock, commit
  or move on, from the votes it has seen. A run lets the network deliver anything in any order any
  number of times, lets timeouts fire at any moment, and lets Byzantine validators sign whatever
  they like. Agreement holds in all of these runs if any two quorums share an honest validator;
  fewer than a third of the stake being Byzantine is enough. It fails otherwise, whoever leads the
  rounds, in a run where nothing is accepted that the round's leader did not propose.
- **Write-ahead log** (`BitwiseXor`, `Crc32c`, `WalLog`, `WalTheorems`, `WalFragments`,
  `WalCoverage`, `WriteBatch`, `BatchGrammar`, `SlotRanges`, `Inventory`, `InventorySlots`): the
  RocksDB log reader and inventory. The writer it is inverse to is written from the RocksDB "Write
  Ahead Log File Format" and LevelDB's `doc/log_format.md`; CRC-32C is the polynomial of section 12.1
  of RFC 3720. Which files are read, and which payloads are batches, is also given as a grammar over
  their bytes.
- **Concentrated liquidity** (`TickMath`, `TickAccuracy`, `Liquidity`, `WholeNeo`,
  `WholeNeoMisses`): Q64.64 multiplication by limbs, tick to square-root price, liquidity and
  amounts, and the search that aligns a pull to whole NEO.
- **PQ evidence** (`JsonText`, `CanonicalJson`, `CanonicalJsonProofs`, `JsonReader`,
  `CanonicalOrder`, `Base58`, `EvidenceText`, `Evidence`, `EvidenceBinding`, `EvidenceCompleteness`,
  `EvidenceSafety`, `EvidenceShapes`, `EvidenceSigners`, `EvidenceMessages`): canonical JSON, base58,
  and envelopes with a quorum of signers and a set of consumed ids. The text of canonical JSON is
  judged by a reader written from RFC 8259. What JavaScript and the cryptography do (`String`,
  `toLowerCase`, `Number`, SHA-256, ML-DSA) are function-valued fields of `Host`; the laws used of
  them are the predicate `Lawful`.
- **Staking economics and amounts** (`Staking`, `StakingScenario`, `Amounts`, `Readonly`):
  the epoch security budget, decimal amounts over 64-bit base units, and the decoder of
  readonly contract returns.

`Arithmetic`, `Bytes` and `Trimming` hold what several of these share.

## Where the code and what is said of it differ

- `consensus.rs` says the locking rule guarantees that two honest validators never commit
  different values. It does exactly when any two quorums share an honest validator, for every
  schedule of leaders (`AgreementIff`). A quorum is two thirds or more of the stake, so a third of
  the stake being Byzantine is already too much (`OneThirdIsTooMuch`).
- `mul_q64` adds the carry of the middle limbs to the high limb without shifting it. It is
  floor(a * b / 2^64) exactly when there is no carry; below 2^127 there is none, and every call
  made for a tick below 2^19 stays there.
- `tick_to_sqrt_price` looks at nineteen bits of the tick: it is monotone for |tick| < 2^19,
  depends only on the sign and |tick| modulo 2^19 beyond, and falls at 2^19 (`SqrtPriceDrops`).
- The contract's comment says a tick's price is floor(2^32 * 1.00005^tick). At tick 393220 it is
  one less (`FloorMissed`). The floor is reached wherever the exact price is not within
  38 * 1.00005^tick / 2^32 above a whole number (`FloorReached`), and the price is never short of
  the exact one by more than one unit and that much (`PriceShortfall`). A negative tick's price is
  the floor wherever the exact price is not within 40 / 2^32 below a whole number
  (`NegativeFloorReached`), within one unit everywhere, and 1 where the floor is 0
  (`SmallestPrice`).
- `compute_liquidity` ignores a side whose liquidity comes out as zero. So a deposit can pull more
  of either token than was supplied, exactly as `DepositBRespectedIff` and
  `DepositARespectedIff` say; a position can be withdrawn and deposited again for more liquidity
  than it had, exactly as `NoFreeLiquidityIff` says (`FreeLiquidity` goes from 10 to 15).
- The bisection of the alignment assumes that more B pulls more A, which fails below the first B
  amount that counts. So it can find nothing where an exact amount exists (`BisectionMisses`), and
  can return another one than the least (`LeastPassedOver`). `SearchMissesIff` says exactly when it
  finds nothing, `BisectionIff` when it returns the least, and `UnableIff` when the whole alignment
  fails.
- The inventory's docstring says a log is verified before any row is extracted. Rows are written
  batch by batch: an inventory that fails has written those of every batch before the failure
  (`FailedRows`).
- `canonicalize` builds its result by assignment, so a `__proto__` key sets a prototype instead:
  it is not printed, and a value that gives it an object or an array cannot be canonicalized a
  second time. Evidence with such a payload can be created but neither signed nor verified.
- `logical_records` notices an interrupted fragment by its bytes: with a fragment open, a FULL or
  FIRST stops it if and only if some part of the fragment was not empty. An empty FIRST, a FULL
  and a LAST are read without error, the LAST at the offset of the FIRST
  (`EmptyFirstInterrupted`).
- A log cut in the middle of a record is noticed from the end of that record's header on. A cut inside
  the seven bytes of the header is not, unless a fragment is open there (`CutNoticed`).
- `read_varint32` takes values up to 2^35 - 1 (`VarintInverse` covers all of them); a block's last
  bytes that are too few for a header are skipped whatever they are (`TooShort`).
- `decode_readonly_u64` tries the decimal reading of a string before base64. Base64 of a multiple
  of three bytes has no padding and may consist of digits; then it is read as a decimal
  (`NineBytesMisread`).
- `sequence_last or sequence` takes a last sequence number of zero for none; the bound is right
  all the same.

## Model

| member | source | states |
|---|---|---|
| BftVotes.StakeUnion | validator/src/consensus.rs:1613-1623 | the stake of two groups is the stake of their union plus that of their overlap, for every power table |
| BftVotes.FewFaultsResilient | validator/src/consensus.rs:1625-1633 | with less than a third of the stake Byzantine, any two groups the two-thirds test accepts share an honest eligible validator |
| BftVotes.AddVoteCounted | validator/src/consensus.rs:779-788 | recording a first vote keeps every cached tally equal to the stake of the distinct voters behind it, for all rounds and ballots |
| BftSafety.PolkaAgrees | validator/src/consensus.rs:1861-1886 | while a block could still be committed in some round, a polka in any later round is for that block |
| BftSafety.CertificatesAgree | validator/src/consensus.rs:12-16 | two commit certificates of one height, in whatever rounds, are for the same block |
| BftSafety.DoPrevoteSafe | validator/src/consensus.rs:1271-1382 | prevoting, with the lock and the precommit it may complete, keeps the network-wide invariant and commits only with a certificate |
| BftSafety.DoPrecommitSafe | validator/src/consensus.rs:1389-1516 | precommitting keeps the invariant and commits only with a certificate |
| BftSafety.PrevoteForProposalSafe | validator/src/consensus.rs:1861-1907 | prevoting for a proposal under the locking rule keeps the invariant |
| BftSafety.CatchUpSafe | validator/src/consensus.rs:1814-1849 | every turn of the catch-up loop keeps the invariant |
| BftSafety.SkipSafe | validator/src/consensus.rs:1755-1859 | skipping rounds on a third of the stake keeps the invariant |
| BftSafety.OnPrevoteSafe | validator/src/consensus.rs:716-888 | handling any genuine prevote keeps the invariant |
| BftSafety.OnPrecommitSafe | validator/src/consensus.rs:895-1088 | handling any genuine precommit keeps the invariant and commits only with a certificate |
| BftSafety.OnTimeoutSafe | validator/src/consensus.rs:1165-1260 | any timeout keeps the invariant |
| BftSafety.OnProposalSafe | validator/src/consensus.rs:617-708 | any proposal keeps the invariant |
| BftSafety.CreateProposalSafe | validator/src/consensus.rs:542-613 | proposing keeps the invariant, whether the block is fresh, valid or locked |
| BftAgreement.RunSound | validator/src/consensus.rs:12-16 | every world any run reaches satisfies the invariant, every decision has a certificate and nobody honest is accused |
| BftAgreement.Agreement | validator/src/consensus.rs:12-16 | if any two quorums share an honest validator, all blocks committed by honest validators in a run are the same |
| BftAgreement.Accuracy | validator/src/consensus.rs:744-778 | in every run, however many validators are Byzantine, no honest validator is reported for equivocation |
| BftAgreement.LockingRule | validator/src/consensus.rs:12-15 | in every run, after precommitting a block an honest validator prevotes only that block, nil, or one whose polka in a later round it has seen |
| BftAccountability.LockGivenUp | validator/src/consensus.rs:1861-1907 | after every run, the proposal of the round makes an honest validator that has not prevoted there sign the block if and only if it is unlocked, locked on it, or has seen a quorum prevote it in the later round the proposal points to; otherwise it signs nil |
| BftAccountability.Accountability | validator/src/consensus.rs:744-778 | however a run goes on, an eligible validator that sends one honest validator two different ballots of a kind for a round is reported; of precommits, if the first does not find the engine committed |
| BftAccountability.ConflictReported | validator/src/consensus.rs:744-778 | a conflicting ballot is reported together with the first one, prevote or precommit |
| BftAccountability.RunTallied | validator/src/consensus.rs:779-788 | after every run an honest validator's tallies are right and its proposals are filed under their rounds |
| BftResponses.OwnPrevote | validator/src/consensus.rs:1271-1382 | a prevote is signed once, broadcast and counted; exactly with a quorum the engine precommits the same, and locks on it if it is a block |
| BftResponses.OwnPrecommit | validator/src/consensus.rs:1389-1516 | a precommit is signed once, broadcast and counted; exactly with a quorum a known block is committed, or nil ends the round |
| BftResponses.ProposalBallot | validator/src/consensus.rs:1861-1907 | the ballot signed for the round's proposal, from the lock and the prevotes seen, in every state with right tallies |
| BftResponses.ProposalKept | validator/src/consensus.rs:617-708 | an acceptable proposal of this round or a later one is kept with its block, any other changes nothing |
| BftResponses.LockHandedOn | validator/src/consensus.rs:542-613 | what a locked engine proposes, an engine with an older lock prevotes once it has seen the prevotes the lock stands on |
| BftResponses.LockedProposes | validator/src/consensus.rs:542-613 | a locked engine proposes exactly its locked block, pointing to the round of its lock, and nothing if it lacks the block |
| BftResponses.FreshProposed | validator/src/consensus.rs:542-613 | an unlocked engine proposes exactly its valid block, or without one the fresh block |
| BftResponses.OwnProposalVoted | validator/src/consensus.rs:542-613 | what is proposed is kept and prevoted |
| BftResponses.ReplayBallot | validator/src/consensus.rs:450-464 | a kept proposal is voted on as if it had just arrived |
| BftResponses.TimeoutGivesUp | validator/src/consensus.rs:1165-1260 | a timeout of the current round and step signs nil, or ends the round after a precommit; any other does nothing |
| BftResponses.PrevoteNow | validator/src/consensus.rs:790-888 | a prevote of the current round makes the engine precommit and lock a block exactly when the prevotes for it are a quorum, and precommit nil exactly when those for nil are |
| BftResponses.PrevoteLate | validator/src/consensus.rs:779-879 | a prevote of an earlier round is recorded and nothing else happens |
| BftResponses.PrecommitDecides | validator/src/consensus.rs:961-1038 | a precommit of any round commits a known block, or requests an unknown one, exactly when the precommits for it are a quorum |
| BftResponses.NilEndsRound | validator/src/consensus.rs:1040-1059 | precommits for nil end the current round exactly when they are a quorum |
| BftResponses.VoteAhead | validator/src/consensus.rs:872-879 | a vote of a later round is recorded and then only the round skip is decided |
| BftResponses.SkipsIff | validator/src/consensus.rs:1755-1859 | the engine skips, to the highest round seen, if and only if more than a third of the stake was seen voting later in either way; it signs the kept proposal there if free to, else nil, and goes on for up to a hundred rounds |
| BftResponses.CatchUpFar | validator/src/consensus.rs:1814-1849 | the catch-up votes in every round it passes and stops where it has voted, behind a proposal, or at its bound |
| BftDisagreement.Disagreement | validator/src/consensus.rs:644-668 | for every schedule of leaders: from two quorums without a common honest validator, the first without the leader of round 1, a run in which one honest validator commits the leader's block of round 0 and another the leader's block of round 1 |
| BftDisagreement.AgreementIff | validator/src/consensus.rs:12-16 | for every schedule of leaders, with two honest validators or more: all runs that keep to it agree, and no two different validators commit different blocks, if and only if any two quorums share an honest validator |
| BftDisagreement.OneThirdIsTooMuch | validator/src/consensus.rs:1625-1633 | three equal validators, one of them Byzantine, can disagree, whoever leads the rounds |
| BftNode.BuildSnapshot | validator/src/consensus.rs:109-141 | the snapshot holds exactly the active members with enough stake, and its total is their stake |
| BftNode.OneMajority | validator/src/consensus.rs:796-819 | at most one ballot of a round can pass the two-thirds test, so the order of the search does not matter |
| BftNode.VoteTable.Add | validator/src/consensus.rs:779-788 | a vote is recorded, listed and added to the cached tally, and nothing else changes |
| BftNode.VoteTable.FindMajority | validator/src/consensus.rs:796-819 | the search over the vote table finds a block with two thirds of the stake if and only if there is one |
| BftNode.VoteTable.Later | validator/src/consensus.rs:1767-1786 | the voters seen in later rounds are collected exactly, with the highest round seen |
| BftNode.SumStake | validator/src/consensus.rs:1792-1796 | the loop sums the eligible stake of a set of voters |
| BftConsensus.ConsensusEngine.constructor | validator/src/consensus.rs:328-371 | a new height starts in round 0, unlocked, with empty vote tables and a right total |
| BftConsensus.ConsensusEngine.StartRound | validator/src/consensus.rs:438-446 | the round is set, the step is Propose, nothing else changes |
| BftConsensus.ConsensusEngine.TransitionTo | validator/src/consensus.rs:510-531 | the step moves along allowed transitions only and the result says whether it did |
| BftConsensus.ConsensusEngine.DoPrecommit | validator/src/consensus.rs:1389-1516 | the object takes the state machine's step: one precommit a round, then commit or next round on a majority; the tables stay right |
| BftConsensus.ConsensusEngine.DoPrevote | validator/src/consensus.rs:1271-1382 | one prevote a round, then lock and precommit on a polka, as the state machine says |
| BftConsensus.ConsensusEngine.HasPolkaFor | validator/src/consensus.rs:1668-1680 | the loop over recorded voters decides whether they hold two thirds of the stake |
| BftConsensus.ConsensusEngine.PrevoteForProposal | validator/src/consensus.rs:1861-1907 | the locking rule decides the ballot, as in the state machine |
| BftConsensus.ConsensusEngine.CatchUp | validator/src/consensus.rs:1814-1849 | the loop of at most a hundred rounds does what its recursive definition says |
| BftConsensus.ConsensusEngine.CheckRoundSkip | validator/src/consensus.rs:1755-1859 | rounds are skipped exactly when more than a third of the stake was seen later, to the highest round seen |
| BftConsensus.ConsensusEngine.CreateProposal | validator/src/consensus.rs:542-613 | a locked validator proposes its locked block or nothing, then prevotes it |
| BftConsensus.ConsensusEngine.OnProposal | validator/src/consensus.rs:617-708 | a proposal is dropped for its round, its signatures, its leader or its time, else stored for later or prevoted, as in the state machine |
| BftConsensus.ConsensusEngine.ReplayProposal | validator/src/consensus.rs:450-464 | a stored proposal of the current round is prevoted once |
| BftConsensus.ConsensusEngine.OnPrevote | validator/src/consensus.rs:716-888 | votes that fail the signature check are dropped, duplicates ignored, conflicts reported, polkas acted on, in the state machine's order; the tables stay right unless a vote in the engine's own name passes the check that it did not sign |
| BftConsensus.ConsensusEngine.OnPrecommit | validator/src/consensus.rs:895-1088 | votes that fail the signature check are dropped, a majority commits or requests the block, a nil majority ends the round, as in the state machine; the tables stay right under the same proviso |
| BftConsensus.ConsensusEngine.OnTimeout | validator/src/consensus.rs:1165-1260 | only a timeout of the current round and step acts, as in the state machine |
| Crc32c.BuildTable | tools/rocksdb_wal_inventory.py:27-35 | entry v is eight steps of polynomial division from v |
| Crc32c.TableStep | tools/rocksdb_wal_inventory.py:41-45 | one table lookup is eight bit-serial division steps, for every register and byte |
| Crc32c.Compute | tools/rocksdb_wal_inventory.py:41-45 | the table-driven loop computes the bit-serial checksum of every byte string |
| Crc32c.FeedDivides | tools/rocksdb_wal_inventory.py:27-45 | the bit-serial register is the polynomial division of the whole message read as one integer |
| Crc32c.StepInjective | tools/rocksdb_wal_inventory.py:33-33 | a division step loses no information |
| Crc32c.MaskInjective | tools/rocksdb_wal_inventory.py:48-50 | masking never maps two checksums to one |
| Crc32c.UnmaskInverts | tools/rocksdb_wal_inventory.py:48-50 | the unmasking of the log format undoes masking |
| Crc32c.BurstDetected | tools/rocksdb_wal_inventory.py:89-95 | strings that differ only within four consecutive bytes never have the same masked checksum |
| Crc32c.OneByteNotZero | tools/rocksdb_wal_inventory.py:79-91 | the masked checksum of a single byte is never zero, so an empty record never looks like a zero record |
| WalLog.PhysicalRecord | tools/rocksdb_wal_inventory.py:74-95 | one header is read, or refused for the reasons the reader gives, in its order |
| WalLog.LogicalRecords | tools/rocksdb_wal_inventory.py:63-124 | the block loop yields the records and the error of the reader's definition, for every file |
| WalTheorems.Conservation | tools/rocksdb_wal_inventory.py:97-124 | on a file read without error, the payloads yielded are all physical payloads in file order |
| WalTheorems.TruncationYieldsPrefix | tools/rocksdb_wal_inventory.py:63-124 | however a file is cut short, the records read are the first ones of the whole |
| WalTheorems.ReadInvertsWrite | tools/rocksdb_wal_inventory.py:63-124 | for every list of payloads, reading what a conforming writer produces yields exactly that list without error |
| WalTheorems.BurstStopsReader | tools/rocksdb_wal_inventory.py:75-95 | damage within four bytes to a record's stored checksum, type or payload stops the reader at that record, with exactly the records before it yielded |
| WalFragments.AssembleAcceptsIff | tools/rocksdb_wal_inventory.py:97-118 | a sequence of physical records is accepted if and only if every MIDDLE and LAST has an unclosed FIRST before it and no FULL or FIRST comes while non-empty parts wait |
| WalFragments.ReadSucceedsIff | tools/rocksdb_wal_inventory.py:63-124 | a file is read without error if and only if its headers are sound, its records are such a sequence and no fragment is left open |
| WalFragments.InterruptionStopsIff | tools/rocksdb_wal_inventory.py:97-105 | with a fragment open, a FULL or FIRST stops the reader if and only if some part since its FIRST was not empty |
| WalFragments.EmptyFirstInterrupted | tools/rocksdb_wal_inventory.py:97-116 | for all payloads that fit a block, an empty FIRST, a FULL and a LAST are read without error, the LAST at the offset of the FIRST |
| WalFragments.FaultNamed | tools/rocksdb_wal_inventory.py:97-119 | a record that does not follow stops the reader with the error of its kind at its offset |
| WalCoverage.RecordMeans | tools/rocksdb_wal_inventory.py:74-95 | the bytes at a position are read as a record if and only if they begin with it as it is written |
| WalCoverage.HeaderMeans | tools/rocksdb_wal_inventory.py:74-95 | the rest of a block is skipped if and only if it is shorter than a header or all zero; each of the three errors has its own exact condition on the bytes |
| WalCoverage.ScansIff | tools/rocksdb_wal_inventory.py:68-121 | a file is scanned into given records without error if and only if it consists of these records as written, each within its block, and of skipped ends of blocks |
| WalCoverage.ReadsIff | tools/rocksdb_wal_inventory.py:63-124 | a file is read without error if and only if it is such a layout of records that follow each other and leave no fragment open |
| WalCoverage.CutNoticed | tools/rocksdb_wal_inventory.py:74-124 | a file cut inside a record yields exactly the records completed before; from the end of the header on it is an error at that record, before only if a fragment is open |
| WriteBatch.ReadVarint32 | tools/rocksdb_wal_inventory.py:127-139 | the loop of at most five bytes decodes base 128, or fails as truncated or too long |
| WriteBatch.ReadSlice | tools/rocksdb_wal_inventory.py:142-147 | a length-prefixed slice is read, or refused when it overruns |
| WriteBatch.ReadItem | tools/rocksdb_wal_inventory.py:166-202 | one tagged item is read, or refused, as the tag table says |
| WriteBatch.ParseWriteBatch | tools/rocksdb_wal_inventory.py:158-209 | the parsing loop returns the batch of the definition, for every payload |
| WriteBatch.VarintInverse | tools/rocksdb_wal_inventory.py:127-139 | an encoded varint anywhere in the data is read back and the cursor ends right after it |
| WriteBatch.SliceInverse | tools/rocksdb_wal_inventory.py:142-147 | an encoded slice anywhere in the data is read back |
| WriteBatch.ItemInverse | tools/rocksdb_wal_inventory.py:166-202 | every kind of item, in the default or a named column family, is read back from its encoding |
| WriteBatch.ParseInvertsEncode | tools/rocksdb_wal_inventory.py:158-209 | for every list of items, parsing its encoding returns the operations without LogData, exactly when the header's count is right |
| BatchGrammar.VarintIff | tools/rocksdb_wal_inventory.py:127-139 | a varint is read if and only if at most so many bytes, all but the last with the high bit, give its value seven bits a byte |
| BatchGrammar.BatchIff | tools/rocksdb_wal_inventory.py:158-209 | a payload is a batch of given operations if and only if its header says their sequence and number and the rest is items, by the tag table, that contribute them with no byte over |
| SlotRanges.ContiguousRanges | tools/rocksdb_wal_inventory.py:212-224 | the loop returns ascending maximal intervals whose union is the set |
| SlotRanges.CompressionUnique | tools/rocksdb_wal_inventory.py:212-224 | there is only one such list |
| SlotRanges.TotalIsSize | tools/rocksdb_wal_inventory.py:212-224 | the interval lengths sum to the size of the set |
| Inventory.CountOperation | tools/rocksdb_wal_inventory.py:254-274 | one operation is counted and classified as the definition says |
| Inventory.CountBatch | tools/rocksdb_wal_inventory.py:251-274 | the loop over a batch keeps the counters and both dictionaries |
| Inventory.MatchSlots | tools/rocksdb_wal_inventory.py:276-300 | the loop over a batch's slots adds the matched slots and the rows extracted for them |
| Inventory.TakeInventory | tools/rocksdb_wal_inventory.py:227-303 | the whole fold over the file, with the errors of the reader and the parser and the rows written before them |
| Inventory.CountAllTotals | tools/rocksdb_wal_inventory.py:254-255 | totals by kind and by column family both equal the number of operations |
| Inventory.BatchSlotsLast | tools/rocksdb_wal_inventory.py:268-272 | the slot dictionary holds the last hash put at each slot |
| Inventory.BlockPutsLast | tools/rocksdb_wal_inventory.py:266-267 | the block dictionary holds the last block put under each hash |
| Inventory.MatchedMeans | tools/rocksdb_wal_inventory.py:276-280 | a slot is matched if and only if the hash last put there is the key of a block put in the same batch |
| Inventory.ExtractedMeans | tools/rocksdb_wal_inventory.py:276-300 | a row is extracted if and only if its slot is in the window, its hash was last put there and its block was last put under that hash, in one batch |
| Inventory.CountAllRight | tools/rocksdb_wal_inventory.py:253-274 | every counter is the number of operations it is for, deleted slots are those some operation deletes, last-slot values are those put, in order |
| Inventory.ReportIsRight | tools/rocksdb_wal_inventory.py:242-329 | a report covers an error-free log of parsable batches: totals agree, every counter, deletion and last-slot value is right, slots, matches and rows are exactly those put, sequence bounds are tight |
| Inventory.FailedRows | tools/rocksdb_wal_inventory.py:245-303 | an inventory fails if and only if a record is not a batch or the log has an error, at the first of these, having written exactly the rows of the batches before it |
| Inventory.InventoryOfWritten | tools/rocksdb_wal_inventory.py:242-329 | any batches written to a conforming log and read back give a report that summarises exactly those batches |
| InventorySlots.BigEndianIs | tools/rocksdb_wal_inventory.py:261-274 | slot numbers are their bytes read in base 256, most significant first |
| InventorySlots.OperationMeans | tools/rocksdb_wal_inventory.py:257-274 | an operation counts as a slot put, deletion, last-slot put or block put exactly by its kind, family, and key and value bytes |
| InventorySlots.ReportInBytes | tools/rocksdb_wal_inventory.py:242-329 | slot rows are those put under the eight big-endian bytes of the slot, matches and extracted rows follow from what each batch finally puts, deletions, last-slot values and sequence bounds likewise |
| Inventory.ReportRanges | tools/rocksdb_wal_inventory.py:316-325 | the four range lists compress the four reported sets |
| TickMath.MulQ64ExactIff | tools/seed_dex_liquidity.py:166-183 | for 128-bit operands the limb product is floor(a * b / 2^64) if and only if the middle limbs do not carry |
| TickMath.MulQ64Exact | tools/seed_dex_liquidity.py:166-183 | below 2^127 they never carry |
| TickMath.MulQ64Carries | tools/seed_dex_liquidity.py:178-183 | with a carry the result is wrong |
| TickMath.RatiosGrow | tools/seed_dex_liquidity.py:143-163 | the rounded square of each ratio is at most the next ratio |
| TickMath.AccBounds | tools/seed_dex_liquidity.py:189-192 | every accumulator stays below the next ratio, hence below 2^127 |
| TickMath.ExactHere | tools/seed_dex_liquidity.py:190-192 | every multiplication made for a tick is exact up to one floor |
| TickMath.TickToSqrtPrice | tools/seed_dex_liquidity.py:186-198 | the loop computes the price of the definition and it lies between 1 and 2^64 - 1 |
| TickMath.ReciprocalIsCeiling | tools/seed_dex_liquidity.py:193-194 | the negative branch is the rounded-up reciprocal |
| TickMath.ProductStrict | tools/seed_dex_liquidity.py:189-192 | the unshifted product is strictly increasing over all ticks from 0 to 2^19 - 1 |
| TickMath.SqrtPriceMonotone | tools/seed_dex_liquidity.py:186-198 | the price is nondecreasing over all ticks between -2^19 and 2^19 |
| TickMath.SqrtPriceWraps | tools/seed_dex_liquidity.py:186-198 | the price of any tick depends only on its sign and on its size modulo 2^19 |
| TickAccuracy.RatioIsFloor | contracts/dex_amm/src/lib.rs:806-835 | each table entry is floor(2^64 * 1.00005^(2^k)) |
| TickAccuracy.ProductAccurate | contracts/dex_amm/src/lib.rs:876-900 | the product is below 2^64 * 1.00005^tick by a relative error of at most 38 / 2^64 |
| TickAccuracy.SqrtPriceAccurate | contracts/dex_amm/src/lib.rs:878-915 | the price of a non-negative tick is at most 2^32 * 1.00005^tick, and short of it by at most forty units unless clamped |
| TickAccuracy.NegativePriceAccurate | contracts/dex_amm/src/lib.rs:898-915 | the price of a negative tick is within one unit of 2^32 * 1.00005^tick |
| TickAccuracy.FloorMissed | contracts/dex_amm/src/lib.rs:879-880 | at tick 393220 the price is one below the floor the comment gives |
| TickAccuracy.PriceShortfall | contracts/dex_amm/src/lib.rs:878-915 | an unclamped price of a non-negative tick is below 2^32 * 1.00005^tick by less than 1 + 38 * 1.00005^tick / 2^32 |
| TickAccuracy.FloorReached | contracts/dex_amm/src/lib.rs:879-880 | the price is the floor the comment gives, or the clamp, wherever the exact price is not within 38 * 1.00005^tick / 2^32 above a whole number |
| TickAccuracy.NegativeFloorReached | contracts/dex_amm/src/lib.rs:879-915 | a negative tick's price is that floor wherever the exact price is at least 1 and not within 40 / 2^32 below a whole number |
| TickAccuracy.SmallestPrice | contracts/dex_amm/src/lib.rs:909-915 | where the exact price of a negative tick is below one unit, the price is 1 |
| TickAccuracy.SqrtPriceDrops | tools/seed_dex_liquidity.py:186-198 | the price at 2^19 is that at 0, below that at 2^19 - 1 |
| TickAccuracy.SqrtPriceStrict | tools/seed_dex_liquidity.py:186-198 | below the clamp no two non-negative ticks share a price |
| Liquidity.SidesAreGreatest | tools/seed_dex_liquidity.py:204-215 | each side buys the greatest liquidity its amount pays for |
| Liquidity.LiquidityIsGreatest | tools/seed_dex_liquidity.py:201-220 | a deposit buys the greatest liquidity both sides pay for; a side that does not pay for one unit is left aside; on every band |
| Liquidity.AmountsAreGreatest | tools/seed_dex_liquidity.py:223-239 | a position pulls the greatest amounts its liquidity covers |
| Liquidity.SideBRespected | tools/seed_dex_liquidity.py:210-239 | liquidity bought with B never pulls more B |
| Liquidity.SideARespected | tools/seed_dex_liquidity.py:204-232 | the excess of A pulled, times the denominator, is below the A supplied; none when the supply is at most the denominator |
| Liquidity.DepositBRespectedIff | tools/seed_dex_liquidity.py:201-239 | the B pulled exceeds the B supplied if and only if the B side came out as zero in range and the A side needs more |
| Liquidity.DepositARespectedIff | tools/seed_dex_liquidity.py:201-239 | the A pulled exceeds the A supplied, by more than rounding explains, if and only if the A side came out as zero in range and the B side needs more |
| Liquidity.IgnoredSidePullsA | tools/seed_dex_liquidity.py:216-220 | a deposit without A can pull A |
| Liquidity.FreeLiquidityBound | tools/seed_dex_liquidity.py:201-239 | on every band, depositing what a position pulled buys at most a 1 / denom part more liquidity than it had |
| Liquidity.NoFreeLiquidityIff | tools/seed_dex_liquidity.py:201-239 | it buys more if and only if the B side comes out as zero and the A pulled is enough for one unit more |
| Liquidity.FreeLiquidity | tools/seed_dex_liquidity.py:201-239 | a position with liquidity 10 whose withdrawal buys 15 |
| WholeNeo.Bisect | tools/seed_dex_liquidity.py:274-286 | the bisection loop computes the search of the definition and ends |
| WholeNeo.Align | tools/seed_dex_liquidity.py:257-293 | the nested search returns the alignment of the definition; other pools are left alone |
| WholeNeo.AlignmentIsWhole | tools/seed_dex_liquidity.py:257-293 | an alignment keeps A, never raises B, and the pull recomputed from it is whole, within fifty NEO of the original |
| WholeNeo.LeftAloneIff | tools/seed_dex_liquidity.py:268-270 | a deposit is left as it is if and only if its pull is whole already |
| WholeNeo.FirstBIsLeast | tools/seed_dex_liquidity.py:210-215 | the least B amount with liquidity of its own |
| WholeNeo.PullMonotone | tools/seed_dex_liquidity.py:201-239 | from the least B amount that is not ignored on, more B never pulls less of either token |
| WholeNeo.BisectionIff | tools/seed_dex_liquidity.py:274-286 | in range, the search returns the least B amount that pulls exactly the target if and only if the midpoints of 0..b lead to it, meeting it before one falls below the least amount with liquidity |
| WholeNeo.BisectionWithoutA | tools/seed_dex_liquidity.py:274-286 | where the A side is ignored the search always returns that amount |
| WholeNeo.BisectionNone | tools/seed_dex_liquidity.py:274-286 | where no amount pulls exactly the target it returns none |
| WholeNeo.ClearOfEdge | tools/seed_dex_liquidity.py:274-286 | the midpoints lead to every amount more than twice the least one with liquidity |
| WholeNeo.BisectionMisses | tools/seed_dex_liquidity.py:274-286 | closer to that edge an exact amount can be missed |
| WholeNeoMisses.SearchMissesIff | tools/seed_dex_liquidity.py:274-286 | in range the search finds nothing if and only if no midpoint of 0..b falls on an amount that hits, the bisection turning down below the least amount not ignored and from the least one that reaches the target |
| WholeNeoMisses.NothingMissed | tools/seed_dex_liquidity.py:274-286 | it finds something whenever A alone would pull exactly the target and the given B pulls no less |
| WholeNeoMisses.LeastPassedOver | tools/seed_dex_liquidity.py:274-286 | the least exact amount can be passed over for another one |
| WholeNeoMisses.UnableIff | tools/seed_dex_liquidity.py:257-293 | on every band, the alignment fails if and only if the pull is not whole and, in range, the midpoints miss each of the fifty targets |
| WholeNeoMisses.WholeWithoutB | tools/seed_dex_liquidity.py:271-293 | if A alone would pull one of the fifty targets, the alignment succeeds |
| WholeNeo.BelowRangeUnable | tools/seed_dex_liquidity.py:268-293 | below the range a pull that is not whole cannot be aligned |
| WholeNeo.AlignmentFound | tools/seed_dex_liquidity.py:271-293 | if the midpoints lead to the least B amount for one of the fifty targets, the alignment succeeds, with at least that many NEO |
| JsonText.QuotedPrefix | scripts/pq-evidence.js:66-68 | a quoted string determines its content and where it ends, escapes and lone surrogates included |
| CanonicalJsonProofs.PrintPrefix | scripts/pq-evidence.js:66-68 | printed JSON determines the value and where its text ends |
| CanonicalJsonProofs.CanonicalizeSucceedsIff | scripts/pq-evidence.js:33-64 | canonicalizing succeeds if and only if nothing in the value is undefined, a function, a symbol, non-finite or an object with another prototype |
| CanonicalJsonProofs.StringifyIff | scripts/pq-evidence.js:33-68 | two values get the same text if and only if they are the same tree up to key order, big integers counting as strings and `__proto__` entries not at all |
| CanonicalJsonProofs.ProtoCollides | scripts/pq-evidence.js:50-61 | an object with only a `__proto__` key prints like the empty object |
| CanonicalJsonProofs.CanonicalizeIdempotentIff | scripts/pq-evidence.js:33-64 | canonicalizing twice gives the same value, unless some `__proto__` key holds an object or an array; then it throws |
| JsonReader.ReadInvertsPrint | scripts/pq-evidence.js:66-68 | a JSON reader written from RFC 8259 reads every printed value back |
| JsonReader.PrintIsShortest | scripts/pq-evidence.js:66-68 | no text that reads as a value is shorter than the one printed for it |
| JsonReader.HexIsLower | scripts/pq-evidence.js:66-68 | escapes are written in lower-case hexadecimal |
| CanonicalOrder.LexMeans | scripts/pq-evidence.js:51-51 | the order of keys is by the first differing code unit, a prefix first |
| CanonicalOrder.IndexOrder | scripts/pq-evidence.js:49-61 | keys that are array indices are listed by number |
| CanonicalOrder.BeforeMeans | scripts/pq-evidence.js:49-61 | keys are listed with array indices first and all others by code unit |
| CanonicalOrder.CanonicalIsOrdered | scripts/pq-evidence.js:33-64 | in a canonicalized value every object lists its keys in that order, none of them `__proto__` |
| CanonicalOrder.CanonicalIsSame | scripts/pq-evidence.js:33-64 | a canonicalized value is the same tree as the value |
| CanonicalOrder.CanonicalText | scripts/pq-evidence.js:33-68 | the canonical text reads as the same tree, in that order, and no shorter text does |
| Base58.Encode | scripts/pq-evidence.js:248-265 | the three loops write the leading zeros and the base-58 digits of the value |
| Base58.ConvertBack | scripts/pq-evidence.js:248-265 | converting digits between any two bases and back, leading zeros included, changes nothing |
| Base58.DecodeInvertsEncode | scripts/pq-evidence.js:248-265 | the reference decoder recovers the exact bytes |
| Base58.EncodeInvertsDecode | scripts/pq-evidence.js:248-265 | every text over the alphabet is the encoding of what it decodes to |
| Base58.EncodeInjective | scripts/pq-evidence.js:248-265 | different byte strings are encoded differently |
| EvidenceText.LowerTwice | scripts/pq-evidence.js:93-95 | a normalized name is its own normalization |
| EvidenceText.ChainIdTwice | scripts/pq-evidence.js:97-103 | so is a chain id |
| EvidenceText.ManifestHashTwice | scripts/pq-evidence.js:121-127 | so is a hash, with or without its 0x |
| EvidenceText.KindTwice | scripts/pq-evidence.js:129-135 | so is a kind |
| EvidenceText.DomainTwice | scripts/pq-evidence.js:137-160 | so is a domain, whichever spelling of its fields it came from |
| Trimming.TrimSplits | scripts/pq-evidence.js:82-91 | trimming cuts off white space at both ends, all of it and nothing else |
| EvidenceShapes.DomainIff | scripts/pq-evidence.js:137-160 | a domain is normalized to given fields if and only if each reads so under its snake-case name, or its camel-case one if that is missing |
| EvidenceShapes.ShapeIff | scripts/pq-evidence.js:332-360 | an envelope passes the shape check, as given, if and only if each field reads so, the version is 1, it expires after its slot and the payload is canonical |
| EvidenceShapes.CreateIff | scripts/pq-evidence.js:191-234 | a draft becomes a given envelope if and only if it reads as its fields, camel-case names first, and the id is the hash of them |
| EvidenceSigners.HexIff | scripts/pq-evidence.js:236-246 | a text is read as bytes if and only if, trimmed and without one `0x`, it spells them in hexadecimal |
| EvidenceSigners.AddressSays | scripts/pq-evidence.js:267-286 | an address is base58 of the scheme byte and the first thirty-one bytes of the key's digest |
| EvidenceSigners.TrustedSetIs | scripts/pq-evidence.js:400-402 | the trusted set is that of the normalized entries, and an entry without text is an error |
| EvidenceSigners.VerifiedIff | scripts/pq-evidence.js:372-446 | a receipt is given if and only if the shape passes, hashes match, options are met, and there are enough distinct signatures, all of which verify under the keys of their trusted signers |
| Evidence.SignAllEach | scripts/pq-evidence.js:317-324 | each keypair makes the signature entry at its own place |
| EvidenceMessages.IdText | scripts/pq-evidence.js:162-178 | the very text an evidence id is the hash of, by name, order and value |
| EvidenceMessages.MessageText | scripts/pq-evidence.js:180-189 | the very text that is signed |
| Evidence.VerifyEnvelope | scripts/pq-evidence.js:372-446 | the loop over signatures gives the outcome of the definition, and the id is consumed only by a call that accepts and records |
| EvidenceBinding.DomainTextBinds | scripts/pq-evidence.js:362-370 | the domain comparison by text is equality of domains |
| EvidenceBinding.IdTextBinds | scripts/pq-evidence.js:162-178 | the text an evidence id hashes determines every field |
| EvidenceBinding.MessageBinds | scripts/pq-evidence.js:180-189 | the signed message determines every field and the id |
| EvidenceCompleteness.CreateMakes | scripts/pq-evidence.js:191-234 | a draft that asks for normalized fields gets exactly them, the payload's hash and the id of all of them |
| EvidenceCompleteness.CreatedShapeIff | scripts/pq-evidence.js:191-234 | created evidence passes the shape check unchanged if and only if its payload can be canonicalized twice |
| EvidenceCompleteness.SignPasses | scripts/pq-evidence.js:303-330 | created evidence can be signed by enough honest keys and only its signatures change |
| EvidenceCompleteness.CreateSignVerify | scripts/pq-evidence.js:191-446 | created evidence whose payload can be canonicalized twice, signed by enough distinct, honest, trusted signers, verifies wherever it is expected, unexpired and unconsumed, with exactly those signers |
| EvidenceSafety.QuorumSafe | scripts/pq-evidence.js:372-446 | an accepted envelope has the larger threshold of pairwise distinct signers, each with a valid signature on its own fields and each trusted, and is expected, unexpired and unconsumed |
| EvidenceSafety.AcceptedOnce | scripts/pq-evidence.js:389-435 | in any run over one set of consumed ids an id recorded once is never accepted again |
| EvidenceSafety.IdsAre | scripts/pq-evidence.js:389-435 | the ids consumed by a run are exactly those its recording calls accepted; a rejecting call consumes nothing |
| EvidenceSafety.SameIdSameEvidence | scripts/pq-evidence.js:372-446 | two accepted envelopes with one id agree in every field unless the two texts their ids hash collide, and then have the same payload tree unless their two payload texts collide |
| Staking.TargetIsLeast | scripts/staking_economics_model.py:66-67 | the target is the least stake that is at least its share of the supply |
| Staking.CeilingIsGreatest | scripts/staking_economics_model.py:62-63 | the ceiling is the greatest whole number within an epoch's share of yearly inflation |
| Staking.BudgetIsGreatest | scripts/staking_economics_model.py:78-84 | up to the target the budget is the greatest whole number within the stake's share of the ceiling |
| Staking.AprIsGreatest | scripts/staking_economics_model.py:87-90 | the APR is the greatest whole number of basis points the reward covers for a year |
| Staking.BudgetShare | scripts/staking_economics_model.py:70-84 | the budget is at most the ceiling and at most the stake's share of it |
| Staking.AprCapped | scripts/staking_economics_model.py:70-90 | for every stake from 1 to the supply, gross APR times the target share is at most inflation, through all four roundings |
| Staking.BudgetMonotone | scripts/staking_economics_model.py:70-84 | more stake never earns a smaller budget |
| Staking.BudgetMeetsCeilingIff | scripts/staking_economics_model.py:78-84 | the budget is the ceiling if and only if the ceiling is zero or the stake has reached the target |
| Staking.YearlyIssue | scripts/staking_economics_model.py:62-84 | any epochs that fit in a year, at any stakes, issue at most the yearly inflation |
| StakingScenario.ScenarioSound | scripts/staking_economics_model.py:117-159 | the printed stakes add up, the printed budget is within the printed ceiling, ratios are within bounds and the APR cap holds |
| StakingScenario.ScenarioMeans | scripts/staking_economics_model.py:117-159 | a row is refused if and only if more is staked than supplied; otherwise each field says what its name says, ratios and rates rounded down |
| Amounts.ParseLicn | cli/src/governed_transfer_support.rs:532-583 | the parser, padding loop and checked arithmetic included, returns the exact value read if it fits 64 bits and fails otherwise |
| Amounts.ReadIff | cli/src/governed_transfer_support.rs:541-558 | reading succeeds if and only if the text is a well-formed decimal, with its exact value in base units |
| Amounts.FormatLicn | cli/src/governed_transfer_support.rs:585-596 | the popping loop prints the amount of the definition |
| Amounts.FormatTokenAmount | cli/src/token_units_support.rs:3-22 | the same for any number of decimals up to 38; beyond, ten to that power overflows |
| Amounts.PowerFitsIff | cli/src/token_units_support.rs:8-8 | ten to the power fits 128 bits if and only if the power is at most 38 |
| Amounts.ParseInvertsFormat | cli/src/governed_transfer_support.rs:532-596 | parsing a printed amount gives it back, for every 64-bit amount |
| Amounts.PrintersAgree | scripts/staking_economics_model.py:93-95 | `licn_string` prints what `format_licn` and `format_token_amount` with nine decimals print |
| Amounts.FormattedSays | cli/src/token_units_support.rs:3-22 | what is printed, with any number of decimals, is well formed and says the amount |
| Amounts.FormatInjective | cli/src/token_units_support.rs:3-22 | for each number of decimals different amounts print differently |
| Amounts.ScaledPrintsWhole | cli/src/token_units_support.rs:24-35 | a whole amount that scales without overflow prints as that whole number |
| Readonly.DecodeReadonly | cli/src/contract_readonly_support.rs:10-60 | the chain of cases, with its byte loop, decodes what the definition says |
| Readonly.Decode64Inverts | cli/src/contract_readonly_support.rs:46-52 | any bytes are read back from their base64 (section 4 of RFC 4648) |
| Readonly.PaddedIsNoDecimal | cli/src/contract_readonly_support.rs:41-52 | base64 of a number of bytes that is not a multiple of three is never also a decimal |
| Readonly.Base64Decodes | cli/src/contract_readonly_support.rs:41-53 | eight bytes or more in base64 decode to the first eight, unless the text can be read as a decimal |
| Readonly.NineBytesMisread | cli/src/contract_readonly_support.rs:41-44 | nine bytes whose base64 is read as the decimal zero |
| Readonly.EveryEncodingDecodes | cli/src/contract_readonly_support.rs:4-60 | every 64-bit number decodes to itself from a number, a decimal string, a byte array and base64 |
| Readonly.Encode64Inverts | cli/src/contract_readonly_support.rs:46-52 | only the base64 of some bytes is read as base64 |
| Readonly.DecodesIff | cli/src/contract_readonly_support.rs:10-60 | a response decodes to a number if and only if it does not say it failed and its data says that number in one of the four ways |

## Left out

- Consensus heights and the buffers for messages of later heights: one height is modelled. The leader of each round is a schedule given from outside, and whether a signature verifies is a boolean handed to the engine.
- Consensus crash recovery (`restore_*`, resuming after a recovered round): a validator's engine is modelled from the start of the height on.
- Consensus liveness and the requests to schedule timeouts: timeouts may fire at any moment, so nothing is proved about when a block is committed.
- BftConsensus.ConsensusEngine.OnPrevote: takes the state machine's step on every vote, but the vote tables are not shown right after a vote in the engine's own name that verifies and that it did not sign, since its own vote would then be counted twice.
- BftConsensus.ConsensusEngine.OnPrecommit: the same.
- Signature bytes, and collecting them into a commit certificate.
- WalTheorems.BurstStopsReader: does not cover damage to the two length bytes, after which other bytes are checksummed and nothing can be promised.
- Amounts.FormatTokenAmount: an overflowing power of ten is a failure, as it is with overflow checks; without them Rust wraps.
- Consensus tallies are unbounded; the source's 128-bit sums of 64-bit stakes cannot overflow.
- Inventory: the JSON of the report, base64 of the rows and the order in which rows are written; rows are a set.
- Floating-point price code, fetching the pool price (the current price is any natural number) and the call to the contract.
- JsonReader.ReadNumber: refuses fractions and exponents, which no printed value has.
- JavaScript numbers other than integers, and integers large enough to print with an exponent: `Num` is an integer printed in decimal.
- The UTF-8 encoding of signed and hashed texts: `hash`, `sign` and `verify` take the text.
- Error messages: errors are the kinds of failure, without the names of fields.
- Parsing of the command line, `parse_licn` of the staking model with its decimal context, and everything else in the repository.
- The object `canonicalize` fills key by key: it is a recursion over values here, and what assigning a key does is part of its definition.
