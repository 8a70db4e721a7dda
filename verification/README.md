# Verified models of DOLI's tooling, test harness and pool commands

Dafny models of the self-contained algorithms of the DOLI repository, with proofs that hold for every
input, every interleaving or every run. `dafny verify dfyconfig.toml` checks the project.

- **Transaction wire form** (`WireBytes`, `TxWire`, `TxReader`, `TxHash`, `WireLayout`, `BlockScan`): the
  cursor reader and the encoder invert each other exactly; every byte of the formats is laid out by offset;
  the second, hand-rolled encoding behind the transaction and signing hashes is injective exactly up to a
  data length; the header-free block scan finds the first body and its drift gate is unreachable. BLAKE3 is
  a function parameter: nothing is assumed of it.
- **Slot planner** (`SlotSchedule`, `SlotOrder`, `DeadBranch`, `PlanSearch`): learned producer order,
  dead-branch plan, simulated chain and the pruned search, each with its termination argument.
- **Test nodes** (`TestNode`, `TestNodeRaces`): add, revert and heal as one class, and the same calls cut
  into their lock sections under every schedule.
- **Supply audit** (`SupplyAudit`): the burned amount recovered from two supply readings.
- **AMM pools** (`PoolMath`, `PoolTx`, `PoolLedger`): the integer mathematics, the CLI's four builders, the
  consensus conservation check, and runs of confirmed transactions.
- **Epoch rewards** (`EpochRewards`, `Sorting`): the tracker, its distribution and its dust.
- **Partition harness** (`Forwarder`, `Isolation`): the byte forwarder under every order of events and
  signals, and the wiring that leaves no uncut path.
- **Striped scan** (`StripedScan`): threads, cut-off, merge, exit code and printed ranges.
- **Swap bot** (`SwapBot`): poller, expiry sweep and order creation, interleaved at every await; no
  payment is paid twice, and each is handled.
- **Undo log** (`UndoLog`): moved caches, stopped jobs, the saved copy, recovery after a death between or
  inside operations.

Objects the source updates in place are classes whose methods equate the new state with a function of
the old one; the laws are lemmas about those functions, which say by offsets, memberships, counts and
inequalities what they are. Loops of the source are loops here.
`Arithmetic` holds the few facts on products, quotients and remainders the proofs name, `Wrappers` the
datatype for values that may be missing.

## Where the code and its documentation disagree

- `crates/core/src/transaction/output.rs` (comment at 735-747) presents the 0xFFFF length escape of an
  output's hash bytes as unambiguous. A length of exactly 65535 is written with the same two bytes:
  `TxHash.Collision` gives two transactions with one preimage, `TxHash.SelfDelimitingExact` and
  `TxHash.InjectiveUpToExact` say exactly when the form is safe.
- `choose_plan` announces the earliest boundary with a valid plan, but it keeps looking for a later one
  that survives a missed slot: `PlanSearch.ChoosePlan` states the order the code uses.
- The swap bot's limit of three pending orders per address is checked before an await and relied on after
  it: `SwapBot.PendingLimit` and `SwapBot.LimitTight` give the exact bound.
- The bot's fallback adds a three-decimal suffix, but payments are compared at two decimals: an order so
  made can be met by a payment below its base. `SwapBot.PaymentExact` says which orders can,
  `SwapBot.RunSolvent` that the bot never pays out more than its rate while no such order is paid, and
  `SwapBot.RunInsolvent` gives a run in which it does.
- A payment is recorded as processed before the balance is asked for: a restart in between leaves it open
  for good, neither paid nor refused, and nothing else does (`SwapBot.RunOpenExact`, `SwapBot.NoPaymentLost`).
- The pool commands add amount and fee in unsigned 64 bits, which wrap in a release build, and the amount
  parser accepts up to 2^64 - 1 units. `PoolTx.CreateUnderfunded` builds a pool that states 2^64 - 1 units
  from a wallet with one, `PoolTx.SwapUnpaid` builds a swap for nothing (only at the input
  `PoolTx.SwapNeedExact` names). The builders' contracts say for every wallet and amount exactly when what
  is built conserves; `PoolLedger.WrittenJudged` and `PoolLedger.CreateJudged` exactly when a node accepts
  it, which in these cases it does not, and `PoolLedger.RunBuildsConserve` what that means on a ledger
  within the DOLI supply.
- `revert_blocks` does not restore spent outputs: `TestNode.RevertUndoesExactly` and
  `TestNode.RevertRestoresExactly` say exactly when it nevertheless restores the UTXO map.
- `add_block` checks no parent for a block of slot 0, so a revert can leave the tip on a block nobody
  stored: `TestNodeRaces.TipExact` and `TestNodeRaces.AncestryExact` say exactly which calls can.
- `move_cache` renames the cache before it saves the log, `restore_cache` saves the log without the node
  before it puts the backup back, and `save_state` truncates state.json before it writes it. The recovery
  promised for a process that died does not give the cache back in these gaps: `UndoLog.DeathExact` says
  exactly when it does, `UndoLog.DeathTold` how to see it, `UndoLog.BytesKept` that the bytes are then still
  in the backup, `UndoLog.RecoveriesExact` the same of a recovery that dies itself. Scratch files may stay
  behind (`UndoLog.ScratchLeftExact`).
- `stop_launchd` stops the job before it saves the log: a death in between leaves a job down that no
  recovery starts (`UndoLog.JobsExact`).
- `check_epoch_boundary` subtracts the epoch's start from the height in unsigned 64 bits: a height more
  than one below it counts as nearly 2^64 blocks in a release build (`EpochRewards.ElapsedExact`).

## Model

| member | source | states |
|---|---|---|
| TxWire.TxLaw | scripts/gs010_txwire.py:216-242 | reading at a position accepts a transaction and stops after its encoding if and only if the transaction is admitted and its encoding stands there |
| TxWire.RoundTrip | scripts/gs010_txwire.py:216-242 | decoding an encoding followed by any bytes gives the transaction back and leaves those bytes |
| TxWire.Canonical | scripts/gs010_txwire.py:216-242 | whatever is accepted is well formed and re-encodes to exactly the bytes read, so the form is canonical |
| TxWire.PrefixFree | scripts/gs010_txwire.py:233-242 | two encodings with any bytes behind them are equal only if the transactions and the rests are |
| TxWire.InputLaw | scripts/gs010_txwire.py:130-158 | the same equivalence for an input: 32-byte hash, 64-byte signature, sighash 0 or 1, optional 32-byte key |
| TxWire.OutputLaw | scripts/gs010_txwire.py:171-189 | the same equivalence for an output: type at most 10, 32-byte owner, data of at most 1 MiB |
| TxWire.ManyLaw | scripts/gs010_txwire.py:225-229 | reading n elements is exact whenever reading one is |
| TxWire.VecLaw | scripts/gs010_txwire.py:222-230 | a counted vector is read back exactly, and only up to its limit |
| TxWire.KeyLaw | scripts/gs010_txwire.py:139-145 | the option tag admits 0 and 1 and nothing else |
| TxWire.ByteVecLaw | scripts/gs010_txwire.py:90-106 | a length-prefixed byte vector is read back exactly when its length is within the limit |
| TxWire.SizedLaw | scripts/gs010_txwire.py:82-88 | a fixed-size field is read back exactly when its length is the expected one |
| TxWire.U32Law | scripts/gs010_txwire.py:76-98 | a u32 is read as v exactly when its four little-endian bytes stand at the cursor |
| TxWire.U64Law | scripts/gs010_txwire.py:79-102 | the same for a u64 and eight bytes |
| WireBytes.UnpackPack | scripts/gs010_txwire.py:97-102 | unpacking packed bytes returns the integer, for every value that fits the width |
| WireBytes.PackUnpack | scripts/gs010_txwire.py:76-80 | every byte string is the packing of the integer it unpacks to, which fits the width |
| WireBytes.LittleEndian | scripts/gs010_txwire.py:75-102 | what two, four and eight packed bytes are worth, the first counting ones |
| TxReader.Reader.Take | scripts/gs010_txwire.py:66-71 | the cursor returns the next n bytes and moves past them, or rejects a short buffer |
| TxReader.Reader.SizedBytes | scripts/gs010_txwire.py:82-88 | the cursor method does what the reading function says, position included |
| TxReader.Reader.ByteVec | scripts/gs010_txwire.py:90-94 | the same, with the length limit |
| TxReader.Reader.Input | scripts/gs010_txwire.py:130-146 | the cursor method does what the reading function of the codec law says |
| TxReader.Reader.Output | scripts/gs010_txwire.py:171-180 | the same for outputs |
| TxReader.Reader.Tx | scripts/gs010_txwire.py:216-231 | the same for a whole transaction, with both element loops |
| TxReader.BodyLaw | scripts/gs010_txwire.py:289-300 | a block body (transactions, aggregate signature, bitfield) is read exactly when it is admitted and its encoding stands at the offset |
| WireLayout.TxLayout | scripts/gs010_txwire.py:233-242 | an encoded transaction stands at a position if and only if every field stands at its offset: version at 0, type at 4, counted inputs at 8, each behind the one before, then counted outputs and counted extra data |
| WireLayout.InputLayout | scripts/gs010_txwire.py:147-158 | an encoded input: counted hash at 0, index at 40, counted signature at 44, sighash fields at 116 and 120, key tag at 124 |
| WireLayout.OutputLayout | scripts/gs010_txwire.py:182-189 | an encoded output: type at 0, amount at 4, counted owner at 12, lock at 52, counted data at 60 |
| WireLayout.ReadLayout | scripts/gs010_txwire.py:216-231 | the reader accepts a transaction at a position if and only if it is admitted and its fields stand at those offsets |
| WireLayout.BodyLayout | scripts/gs010_txwire.py:289-300 | a block body: counted transactions, counted signature, counted bitfield |
| TxHash.HashPreimageExact | scripts/gs010_txwire.py:244-258 | with no pair of outputs whose data lengths clash, hash preimages (the bytes WireLayout.HashedBytes lays out) are equal if and only if version, type, outpoints, outputs and extra data are; signatures and keys never matter |
| TxHash.SigningPreimageExact | scripts/gs010_txwire.py:260-268 | signing preimages (WireLayout.SignedBytes) are equal if and only if everything but extra data is and the signed outpoint is the same |
| TxHash.SameCorePrefix | scripts/gs010_txwire.py:244-252 | signatures, keys, sighash fields and extra data do not enter the common prefix |
| WireLayout.HashedBytes | scripts/gs010_txwire.py:244-258 | byte for byte what the transaction hash is taken of: version at 0, type at 4, input count at 8, outpoint k at 12+36k, output count and outputs behind them, the counted extra data last, and nothing else |
| WireLayout.SignedBytes | scripts/gs010_txwire.py:260-268 | byte for byte the signing message: the same core and the signed outpoint; refused if and only if the sighash type is not 0 |
| WireLayout.HashLayout | scripts/gs010_txwire.py:191-203 | an output as it is hashed: type in one byte at 0, amount at 1, owner at 9, lock at 41, length header at 49, data behind it |
| TxHash.SelfDelimitingExact | scripts/gs010_txwire.py:191-203 | an output's hash bytes determine it, whatever follows, if and only if its data is shorter than 65535 bytes, or exactly that long with first four bytes that read as at most 65535 |
| TxHash.Collision | scripts/gs010_txwire.py:198-202 | two well-formed transactions with different outputs and one hash preimage: data of 65535 bytes against 65536 |
| TxHash.InjectiveUpToExact | scripts/gs010_txwire.py:191-258 | the hash preimage is injective on wire transactions with output data of at most n bytes if and only if n is at most 65535 |
| TxHash.ExtraCancel | scripts/gs010_txwire.py:198-202 | the length header with its data can be cut off uniquely unless one length is 65535 and the other greater |
| TxHash.WireTxHashable | scripts/gs010_txwire.py:216-252 | whatever the reader accepts can be hashed without a packing error |
| BlockScan.FindTxInBlock | scripts/gs010_txwire.py:274-315 | the scan returns a transaction if and only if it is the first with the wanted hash in the body at the first of the first 8192 offsets where any body fills the buffer, and its re-serialisation gate never fires |
| BlockScan.FoundExact | scripts/gs010_txwire.py:274-315 | the same of the value the scan is to return, for every buffer, hash and hash function |
| BlockScan.FirstBodyExact | scripts/gs010_txwire.py:286-302 | the body found is the one at the first offset of the window where any admitted body's encoding is exactly the rest of the buffer |
| BlockScan.FillsExact | scripts/gs010_txwire.py:289-300 | an offset is accepted if and only if an admitted body's encoding is the whole rest of the buffer, and that body is what was read |
| BlockScan.BodyUnique | scripts/gs010_txwire.py:274-315 | at most one body can stand at an offset |
| BlockScan.FoundBehindHeader | scripts/gs010_txwire.py:274-315 | a body behind a header shorter than the window is found unless another body stands at an earlier offset |
| BlockScan.BodyFrom | scripts/gs010_txwire.py:287-302 | one offset's attempt succeeds exactly when a body fills the buffer, with each transaction's span its encoding |
| BlockScan.FirstWithHashExact | scripts/gs010_txwire.py:303-315 | the transaction found in a body is the first whose hash is the wanted one, and none is found if and only if none has it |
| SlotSchedule.NextSlot | scripts/gauntlet-gs033/plan.py:66-72 | the search for the next slot with a wanted leader ends within one turn of the list at the first such slot |
| SlotSchedule.FindSlot | scripts/gauntlet-gs033/plan.py:70-72 | the loop finds that slot |
| SlotSchedule.LeadExact | scripts/gauntlet-gs033/plan.py:64 | entry i of a list leads slot i and every slot whole turns away |
| DeadBranch.PlanFromS | scripts/gauntlet-gs033/plan.py:61-76 | the loops compute the plan |
| DeadBranch.PlanExact | scripts/gauntlet-gs033/plan.py:61-76 | dead_len dead slots, each the next minority slot of the list without X, healed at the next one, within dead_len turns of that list; the canonical slots are exactly those of the range led outside the minority, in order |
| DeadBranch.OkPlanExact | scripts/gauntlet-gs033/plan.py:73-76 | a plan is ok if and only if the minority leads S, X leads S+1, and the canonical list starts there and is longer than the dead branch |
| DeadBranch.PlannableExact | scripts/gauntlet-gs033/plan.py:63-72 | the searches can end if and only if the order holds a minority node other than X |
| DeadBranch.WithoutInOrder | scripts/gauntlet-gs033/plan.py:63 | the dead list is the order with X left out, the others in their order |
| DeadBranch.CanonicalExact | scripts/gauntlet-gs033/plan.py:73 | the canonical list holds exactly the slots of the range led outside the minority, each once and in slot order |
| DeadBranch.DeadSlotsExact | scripts/gauntlet-gs033/plan.py:65-69 | consecutive dead slots have no minority slot of the dead list between them |
| DeadBranch.DeadSlotsBound | scripts/gauntlet-gs033/plan.py:65-69 | the k-th dead slot lies within k-1 turns of the dead list after S |
| DeadBranch.Simulate | scripts/gauntlet-gs033/plan.py:79-94 | the loops end when the order holds a node other than X; the boundary slot is the first at height B-1, and S the first slot after it that X does not lead |
| DeadBranch.ReachBoundary | scripts/gauntlet-gs033/plan.py:81-90 | the while loop stops at the first slot whose height is B-1, with the miss budget used as accounted |
| DeadBranch.SlotAccounting | scripts/gauntlet-gs033/plan.py:81-90 | slots elapsed are exactly blocks needed plus slots X let pass plus misses used |
| DeadBranch.FullSpeed | scripts/gauntlet-gs033/plan.py:108-112 | until X stops and without misses the height is h0 + (s - s0), which the plan search assumes |
| DeadBranch.DriftDelays | scripts/gauntlet-gs033/plan.py:79-94 | more misses never reach B-1 at an earlier slot |
| DeadBranch.ReachesUnique | scripts/gauntlet-gs033/plan.py:81-90 | the boundary slot is unique |
| DeadBranch.SimulationExact | scripts/gauntlet-gs033/plan.py:79-94 | a plan is the simulation's if and only if the chain reaches B-1 at its sT with that many misses, S is the first later slot X does not lead, and every entry of the plan from S is as stated, branch length included |
| DeadBranch.PlanUnique | scripts/gauntlet-gs033/plan.py:61-76 | there is one plan from a slot |
| DeadBranch.HeightCounts | scripts/gauntlet-gs033/plan.py:79-90 | the height at a slot is one block per slot since the tip, less the number of slots X lets pass and less as many of the others' as there are misses |
| PlanSearch.ChoosePlan | scripts/gauntlet-gs033/plan.py:97-122 | the pruned search returns the best by (robust, -B, -sx) of all sound choices, and nothing exactly when there is none: B one of the wanted number of epoch multiples from the last within reach on, X a candidate leading sx, X's last block between B-upper and B-lower, the simulation without a miss ok, robust exactly when the one with a miss is |
| PlanSearch.SoundExact | scripts/gauntlet-gs033/plan.py:97-122 | the cells the loops scan are exactly those sound choices |
| PlanSearch.TriedExact | scripts/gauntlet-gs033/plan.py:104-106 | the boundaries tried are the multiples of the epoch from the greatest one not above h0+lead+lower on, as many as wanted |
| PlanSearch.ScanStops | scripts/gauntlet-gs033/plan.py:109-119 | one candidate's loop keeps the best of the cells scanned so far |
| PlanSearch.PruneSafe | scripts/gauntlet-gs033/plan.py:120-121 | a robust choice after an epoch is the best over all epochs: the early stop loses nothing |
| PlanSearch.BestUnique | scripts/gauntlet-gs033/plan.py:117-119 | at most one choice is best, over all epochs and candidates |
| PlanSearch.StopHeight | scripts/gauntlet-gs033/plan.py:108-112 | X's stop height lies between B-upper and B-lower and is the simulated height; robust means that the plan simulated with one miss is ok |
| PlanSearch.BoundaryGrows | scripts/gauntlet-gs033/plan.py:104-106 | a later epoch has a later boundary |
| PlanSearch.EligibleExact | scripts/gauntlet-gs033/plan.py:102 | the candidates are the order's nodes outside the minority other than the donor |
| PlanSearch.CandidatesExact | scripts/gauntlet-gs033/plan.py:102 | a forced X is the only candidate |
| PlanSearch.UnforcedSearchable | scripts/gauntlet-gs033/plan.py:102-113 | with no forced X every simulation of the search terminates as soon as the order holds a minority node |
| SlotOrder.LearnOrder | scripts/gauntlet-gs033/plan.py:29-58 | an order is returned if and only if every block was served, every key is known and some order explains the blocks; the returned one does |
| SlotOrder.LearnFrom | scripts/gauntlet-gs033/plan.py:41-58 | each refusal is exact: unserved block, unknown key, and otherwise no order at all explains the blocks |
| SlotOrder.OrderExplains | scripts/gauntlet-gs033/plan.py:49-58 | a full residue map is a list without repetition, of exactly the observed producers, leading every scanned slot by its builder |
| SlotOrder.ExplanationUnique | scripts/gauntlet-gs033/plan.py:49-58 | at most one list explains the scanned blocks |
| SlotOrder.MapResidues | scripts/gauntlet-gs033/plan.py:50-55 | residue conflicts are reported only when no order explains the blocks |
| SlotOrder.EveryResidue | scripts/gauntlet-gs033/plan.py:56-57 | under any explanation every residue has a block, so an unmapped residue rules all orders out |
| SlotOrder.WindowInOneEpoch | scripts/gauntlet-gs033/plan.py:33-41 | the scanned heights are at least 1, at most n and all of one epoch |
| SlotOrder.WindowExact | scripts/gauntlet-gs033/plan.py:33-41 | scanned are exactly the last n heights of the tip's epoch when it has the wanted number of blocks, else, where allowed, the last n of the epoch before, else none |
| SlotOrder.FetchedExact | scripts/gauntlet-gs033/plan.py:42 | the blocks are the seed's for those heights, lowest first |
| TestNode.Node.AddBlock | testing/common/mod.rs:96-153 | the block is refused exactly for an unknown parent or a known hash and then nothing changes; else it is stored, the tip is it, the height its slot, and the UTXO map holds at every outpoint exactly what the block leaves there |
| TestNode.BlockLeaves | testing/common/mod.rs:122-149 | an outpoint is there after a block if and only if the last transaction to touch it creates and does not spend it, or none touches it and it was there; its entry is that output with the slot as height, coinbase exactly for the first transaction, and the epoch-reward flag, or unchanged |
| TestNode.Node.RevertBlocks | testing/common/mod.rs:156-194 | the blocks under the tip are taken off newest first and returned, tip and height are those below them and nothing their transactions created is left; an error exactly where one is not stored, with those before it taken off |
| TestNode.RevertedExact | testing/common/mod.rs:156-194 | the same of the state after a revert, as a value |
| TestNode.Node.UpdateUtxos | testing/common/mod.rs:125-149 | present afterwards is exactly what is not among the inputs and is an output of the transaction or was there, with the entry of the output or the old one |
| TestNode.Node.RemoveOutputs | testing/common/mod.rs:170-180 | exactly the transaction's own outpoints are removed |
| TestNode.RevertUndoesExactly | testing/common/mod.rs:96-194 | reverting a block restores the UTXO map if and only if the block touched no UTXO that was there before |
| TestNode.RevertAfterApply | testing/common/mod.rs:122-181 | after a revert what is left is the old map without everything the block created or spent |
| TestNode.RevertRestoresExactly | testing/common/mod.rs:96-194 | adding and reverting a whole branch restores tip and height, and the UTXO map if and only if the branch touched no older UTXO |
| TestNode.BranchAdmitted | testing/common/mod.rs:96-153 | a branch with fresh hashes is admitted block by block and stores exactly its blocks |
| TestNode.RevertBranch | testing/common/mod.rs:156-194 | reverting a stored branch returns to its root less everything the branch created |
| TestNode.HealConverges | testing/integration/partition_heal.rs:242-321 | two nodes of one view with disjoint fresh branches agree on tip, height and the whole UTXO map once one reverts its branch and adds the other's |
| TestNode.Heal | testing/integration/partition_heal.rs:242-321 | the revert-then-adopt loop ends in that state, and succeeds when every block is admitted |
| TestNodeRaces.RunSafe | testing/common/mod.rs:96-194 | with slot-0 blocks rooted, under every schedule of the lock sections the tip is stored or zero, every stored block has its parent stored, slot 0 included, and no block is dropped |
| TestNodeRaces.ConcurrentCallsSafe | testing/common/mod.rs:96-194 | the same from an empty node, for any set of concurrent calls |
| TestNodeRaces.RunParents | testing/common/mod.rs:96-194 | under every schedule, for any blocks whatever, every stored block with a non-zero slot keeps a stored parent or a zero one |
| TestNodeRaces.ConcurrentCallsParents | testing/common/mod.rs:96-194 | so it is from an empty node, for any set of concurrent calls on any blocks |
| TestNodeRaces.TipExact | testing/common/mod.rs:96-194 | calls keep the tip stored or zero under every schedule if and only if none of them takes a block off or every slot-0 block among them starts a chain or names itself as parent |
| TestNodeRaces.AncestryExact | testing/common/mod.rs:96-194 | they keep the parents of slot-0 blocks stored as well under every schedule if and only if those blocks are so rooted |
| TestNodeRaces.TipLost | testing/common/mod.rs:96-194 | otherwise an add and a revert run one after the other leave the tip on a parent nobody stored |
| TestNodeRaces.AddAlone | testing/common/mod.rs:96-153 | an add whose sections run back to back is the sequential add |
| TestNodeRaces.RevertAlone | testing/common/mod.rs:156-194 | a revert whose sections run back to back is the sequential revert |
| SupplyAudit.CmdRemoved | scripts/gauntlet-devnet.py:215-252 | the loops return the audit's verdict: subject missing, the unresolved inputs, or the supply difference plus issued minus the others' net |
| SupplyAudit.RemovedExact | scripts/gauntlet-devnet.py:215-252 | what the audit reports between the two supplies of a block that executes is exactly the subject's inputs minus its outputs |
| SupplyAudit.RefusedExact | scripts/gauntlet-devnet.py:224-251 | refused is exactly a block in which no transaction but a coinbase has the subject's hash, or one in which another has an input whose amount is neither stated nor indexed; exactly those inputs are listed |
| SupplyAudit.SubjectBurnExact | scripts/gauntlet-devnet.py:228-231 | where one transaction of the block is the subject, its burn is its input total less its outputs |
| SupplyAudit.MissingInOrder | scripts/gauntlet-devnet.py:224-245 | unresolved inputs are listed in block order |
| SupplyAudit.AuditExact | scripts/gauntlet-devnet.py:215-252 | with the two supplies read around a block that executes, the formula is exactly the subject's inputs minus its outputs, through same-block spends and mints |
| SupplyAudit.BlockSupply | scripts/gauntlet-devnet.py:215-252 | the supply falls by exactly what the block's transactions took in and did not pay out |
| SupplyAudit.NetBurnSplits | scripts/gauntlet-devnet.py:224-251 | the block's net burn is the subject's plus the others' minus what was issued |
| SupplyAudit.IndexFromBlocks | scripts/gauntlet-devnet.py:126-140 | an index filled from block files that tell true amounts resolves every input truly, also outputs of the same block |
| SupplyAudit.OutSum | scripts/gauntlet-devnet.py:114-123 | the sum of the outputs |
| SupplyAudit.InSum | scripts/gauntlet-devnet.py:234-245 | the sum of the resolvable inputs and the list of the others, in order |
| SupplyAudit.SupplyTake | scripts/gauntlet-devnet.py:215-252 | the supply does not depend on the order of summing |
| PoolMath.SwapOutputGreatest | crates/core/src/pool.rs:13-37 | the output is the greatest that keeps the product of the reserves, the input counted after its fee |
| PoolMath.SwapExact | crates/core/src/pool.rs:13-37 | a swap pays dy if and only if dy is that greatest output and positive, what the fee in ten-thousandths leaves of the input is positive, and the reserve stays within 64 bits; otherwise there is none |
| PoolMath.EffectiveExact | crates/core/src/pool.rs:22-26 | what is left after the fee is the greatest e with e*10000 at most dx*(10000-fee) |
| PoolMath.SwapKeepsProduct | crates/core/src/pool.rs:13-37 | a swap never lowers the product of the reserves and moves both by exactly the amounts |
| PoolMath.RoundTripNoProfit | crates/core/src/pool.rs:13-37 | swapping the proceeds straight back never returns more than went in |
| PoolMath.Isqrt | crates/core/src/pool.rs:124-135 | Newton's iteration ends at the integer square root |
| PoolMath.RootUnique | crates/core/src/pool.rs:124-135 | an integer has one integer square root |
| PoolMath.ComputeInitialLpShares | crates/core/src/pool.rs:41-43 | the first deposit's shares are the integer square root of the product, and fit 64 bits |
| PoolMath.InitialExact | crates/core/src/pool.rs:41-43 | the first shares are r if and only if r is that square root |
| PoolMath.MintFair | crates/core/src/pool.rs:47-64 | minted shares never outweigh the deposit on either side, 64-bit truncation included |
| PoolMath.MintExact | crates/core/src/pool.rs:47-64 | minted is the greatest number of shares the deposit is worth on both sides, less what lies above 64 bits; none is no mint |
| PoolMath.BurnFair | crates/core/src/pool.rs:68-80 | what a burn pays never outweighs the shares on either side |
| PoolMath.BurnExact | crates/core/src/pool.rs:68-80 | a burn pays exactly the greatest amounts within its part of both reserves, and is refused exactly for no shares or more than there are |
| PoolMath.ProRataExact | crates/core/src/pool.rs:68-80 | the payout is the greatest amount within the pro-rata share and never exceeds the reserve |
| PoolMath.MintNotDiluting | crates/core/src/pool.rs:47-64 | a mint lowers no share's claim on the product of the reserves |
| PoolMath.BurnNotDiluting | crates/core/src/pool.rs:68-80 | a burn lowers no remaining share's claim |
| PoolTx.Select | bins/cli/src/cmd_pool.rs:12-33 | the greedy loop returns the chosen coins and their wrapping total |
| PoolTx.ChosenExact | bins/cli/src/cmd_pool.rs:12-33 | the chosen coins are the only prefix that is the shortest whose running (wrapping) total reaches the requirement, or everything |
| PoolTx.ChangeExact | bins/cli/src/cmd_pool.rs:342-418 | what the source hands back as change is what the picked coins hold beyond the need, less 2^64 for every time they leave 64 bits more often than it; so all of it if and only if they are balanced |
| PoolTx.BalancedWhenSmall | bins/cli/src/cmd_pool.rs:12-33 | coins that sum up below 2^64 are balanced if and only if the need stays there too |
| PoolTx.CoversExact | bins/cli/src/cmd_pool.rs:12-33 | where nothing leaves 64 bits a need is covered if and only if the wallet has that much |
| PoolTx.CoinsExact | bins/cli/src/cmd_pool.rs:330-345 | picked from are the wallet's spendable DOLI, its coins of the pool's token, its shares of the pool, and no others |
| PoolTx.FitsBalanced | bins/cli/src/cmd_pool.rs:316-1335 | for a wallet whose sums stay below 2^64 every transaction is balanced, a DOLI swap and a deposit if and only if the amount with its fee stays below 2^64 |
| PoolTx.ChosenWorth | bins/cli/src/cmd_pool.rs:12-33 | the selection is worth its coins' true sum in its own asset and nothing in the others |
| PoolTx.BuildCreate | bins/cli/src/cmd_pool.rs:53-422 | built if and only if the amounts, fee rate, shares and (wrapping) coin totals allow it; the creator's shares and the locked minimum make up the total; DOLI in is DOLI out plus the fee if and only if the DOLI picked is balanced, tokens in equal tokens out if and only if the tokens are |
| PoolTx.CreateUnderfunded | bins/cli/src/cmd_pool.rs:316-422 | a pool stating 2^64-1 units of DOLI is built from a wallet that holds one, the requirement wrapping to one unit |
| PoolTx.BuildSwap | bins/cli/src/cmd_pool.rs:502-770 | built if and only if the pool has a price of at least the slippage bound and the coins cover input and fee; the outputs are the pool with its reserves moved and then the proceeds at the pool's price, fee included; it conserves every asset less the fee if and only if the coins picked are balanced |
| PoolTx.SwapDoliIn | bins/cli/src/cmd_pool.rs:595-770 | DOLI into tokens: built if and only if the coins cover amount and fee, every asset's excess stated exactly, conserving if and only if they are balanced |
| PoolTx.SwapTokensIn | bins/cli/src/cmd_pool.rs:595-770 | tokens into DOLI: built if and only if tokens and fee are covered, every asset's excess stated exactly, conserving if and only if both are balanced |
| PoolTx.BuildAdd | bins/cli/src/cmd_pool.rs:867-1049 | built if and only if the amounts yield shares and the coins cover them; conserving, with total shares raised by exactly the minted output, if and only if both kinds of coins are balanced and the enlarged pool stays within 64 bits |
| PoolTx.BuildRemove | bins/cli/src/cmd_pool.rs:1120-1335 | built if and only if both minimums are met and shares and fee are covered; conserving, with total shares lowered by exactly the burned ones, if and only if both kinds of coins are balanced |
| PoolTx.WrittenExact | bins/cli/src/cmd_pool.rs:502-1335 | a transaction the CLI writes for an action conserves if and only if its coins leave 64 bits exactly as often as the needs and the enlarged pool stays within them |
| PoolTx.SwapMoves | bins/cli/src/cmd_pool.rs:595-770 | a swap changes only the reserves, by the amount in and the amount out, and keeps their product |
| PoolTx.SwapNeedExact | bins/cli/src/cmd_pool.rs:595-680 | of the swaps a pool allows, one only needs 2^64 or more with its fee: 2^64-2 units into a reserve of one unit; its requirement wraps to nothing |
| PoolTx.SwapUnpaid | bins/cli/src/cmd_pool.rs:595-680 | there it is built for nothing from any wallet whose sums stay below 2^64, and does not conserve |
| PoolLedger.BuiltAccepted | crates/core/src/validation/amm.rs:37-331 | every swap, add and remove built for its action on the current pool passes the consensus conservation check with the fee as its whole surplus |
| PoolLedger.WrittenJudged | crates/core/src/validation/amm.rs:37-331 | whatever the CLI writes on the current pool the consensus check accepts, with the fee as its 64-bit surplus, if and only if its coins leave 64 bits at least as often as the needs (shares exactly as often) and a deposit's pool stays within them |
| PoolLedger.AcceptedExact | crates/core/src/validation/amm.rs:37-331 | the check accepts with a surplus if and only if no DOLI or token is created, no other token stands among the outputs, shares are booked, the surplus is what is over, and the kind's rule holds: a product not lowered, a burn within its part of each reserve, a mint within what the deposit is worth |
| PoolLedger.AcceptedSafe | crates/core/src/validation/amm.rs:37-331 | whoever wrote it, what the check accepts creates no DOLI and no tokens, moves the share count with the share outputs and, a swap leaving that count alone, dilutes no share |
| PoolLedger.SumsExact | crates/core/src/validation/amm.rs:82-130 | the node's three values of an output are those by which the CLI's transactions conserve |
| PoolLedger.FitsJudged | crates/core/src/validation/amm.rs:37-331 | from a wallet whose sums stay below 2^64 it is accepted if and only if it conserves |
| PoolLedger.CreateJudged | crates/core/src/validation/utxo.rs:791-852 | what pool create writes has its reserves backed if and only if its native coins sum up below 2^64 and both assets' coins leave 64 bits at least as often as the needs |
| PoolLedger.CreateFitsJudged | crates/core/src/validation/utxo.rs:791-852 | from a wallet whose sums stay below 2^64: if and only if the deposit with its fee does |
| PoolLedger.ConservingAccepted | crates/core/src/validation/amm.rs:37-174 | a conserving transaction that passes its kind's own check is accepted with the fee as surplus |
| PoolLedger.RemovePasses | crates/core/src/validation/amm.rs:194-275 | a withdrawal whose tokens are exact passes the pro-rata check, token outputs included |
| PoolLedger.ConfirmKeeps | bins/cli/src/cmd_pool.rs:502-1335 | one confirmed transaction keeps shares backed, loses exactly the fee, moves tokens and dilutes no share |
| PoolLedger.RunConserves | bins/cli/src/cmd_pool.rs:316-1335 | over every run total shares are the locked minimum plus all live share outputs, DOLI falls by exactly the fees, tokens are only moved |
| PoolLedger.AcceptedIsRun | crates/core/src/validation/amm.rs:37-331 | where DOLI and tokens stay below 2^64, every run of transactions the CLI writes and the consensus check accepts is a run of conserving ones, so the run results hold of it |
| PoolLedger.AllBurnedLeavesLocked | bins/cli/src/cmd_pool.rs:45-65 | over every run no share output is live if and only if total shares are the locked minimum |
| PoolLedger.RunNotDiluting | crates/core/src/pool.rs:13-80 | over every run a share's claim on the product of the reserves never shrinks |
| PoolLedger.CreateStarts | bins/cli/src/cmd_pool.rs:316-422 | a confirmed create starts such a run |
| PoolLedger.ReservesStay | crates/core/src/pool.rs:13-80 | while shares stay locked no action empties a reserve |
| PoolLedger.WalletFits | bins/cli/src/cmd_pool.rs:12-33 | a wallet of unspent outputs has sums below 2^64 wherever the ledger's DOLI and tokens do; its shares always have |
| PoolLedger.RunBuildsConserve | bins/cli/src/cmd_pool.rs:316-1335 | after every run from a ledger within the DOLI supply and 2^64 tokens, token swaps and withdrawals always conserve, DOLI swaps and deposits if and only if the amount with its fee stays below 2^64 |
| EpochRewards.Tracker.TrackBlock | testing/integration/staggered_validator_rewards.rs:48-55 | the producer's count rises by one and the pool by the block's reward, nothing else changes |
| EpochRewards.CountsExact | testing/integration/staggered_validator_rewards.rs:48-55 | over a sequence of tracked blocks a producer's count is the number of blocks it built |
| EpochRewards.TotalBlocksExact | testing/integration/staggered_validator_rewards.rs:67-68 | the total a distribution divides by is the number of blocks tracked |
| EpochRewards.Tracker.CheckEpochBoundary | testing/integration/staggered_validator_rewards.rs:59-102 | a distribution happens exactly when the elapsed blocks, as unsigned 64-bit arithmetic counts them, reach the epoch's length and there are producers; it shares out the whole pool and opens a fresh epoch |
| EpochRewards.ElapsedExact | testing/integration/staggered_validator_rewards.rs:63-66 | that count is the true one if and only if the height is not below the block before the epoch's first; below it is nearly 2^64 |
| EpochRewards.Distribute | testing/integration/staggered_validator_rewards.rs:76-90 | the closure's payouts are the computed shares in key order with the rest to the last; they sum to the pool without underflow, even where the product wraps at 64 bits |
| EpochRewards.DistributionUnique | testing/integration/staggered_validator_rewards.rs:64-90 | the payouts are determined by counts and pool |
| EpochRewards.FloorsBound | testing/integration/staggered_validator_rewards.rs:82-86 | the first n shares never exceed their exact part of the pool, and fall short of it by at most n units while the products computed for them fit 64 bits |
| EpochRewards.FloorSharesExact | testing/integration/staggered_validator_rewards.rs:80-86 | everyone but the last gets the floor of its proportional part if and only if no such product of pool and block count leaves 64 bits |
| EpochRewards.ShareExact | testing/integration/staggered_validator_rewards.rs:84-86 | a computed share never exceeds the exact part, and is its floor if and only if the product fits 64 bits |
| EpochRewards.ShareWraps | testing/integration/staggered_validator_rewards.rs:84-86 | whatever the product, the share is the floor of what 64 bits leave of it |
| EpochRewards.LastShare | testing/integration/staggered_validator_rewards.rs:80-86 | the last producer always gets at least its floor share, and at most n-1 units more while the products computed for the others fit 64 bits |
| EpochRewards.RewardsConserved | testing/integration/staggered_validator_rewards.rs:48-102 | over every run paid rewards plus the open pool are all the rewards put in |
| EpochRewards.OrderIrrelevant | testing/integration/staggered_validator_rewards.rs:48-55 | counts and pool do not depend on the order in which blocks were tracked |
| EpochRewards.PayoutsOrderIrrelevant | testing/integration/staggered_validator_rewards.rs:48-102 | neither do the payouts |
| Sorting.SortedKeysExact | testing/integration/staggered_validator_rewards.rs:70-72 | sorting lists every key once in ascending order |
| Sorting.SortedUnique | testing/integration/staggered_validator_rewards.rs:70-72 | the sorted list is the same whatever order the map is iterated in |
| Forwarder.RunSound | scripts/gauntlet-gs033/fwd.py:49-125 | over every run, signals included, bytes written on a pipe are a prefix of the bytes read, at most one chunk behind, and the link's counter is their number |
| Forwarder.HarnessSealed | scripts/gauntlet-gs033/fwd.py:98-125 | when no partition follows a heal, every step leaves the pipes of a link that is cut without a byte written |
| Forwarder.CutSafeExact | scripts/gauntlet-gs033/fwd.py:49-65 | a cut lets a held chunk through at the next wake-up if and only if it finds a pipe already woken with one in hand |
| Forwarder.StepSealed | scripts/gauntlet-gs033/fwd.py:49-125 | a sealed forwarder stays sealed and silent on its cut links by any step whose cut is safe |
| Forwarder.StepSound | scripts/gauntlet-gs033/fwd.py:49-125 | every step keeps the prefix, lag and counter invariant |
| Forwarder.UncutPasses | scripts/gauntlet-gs033/fwd.py:49-65 | on a link not cut a chunk that arrives is written whole, and the pipe reads on |
| Forwarder.CutHolds | scripts/gauntlet-gs033/fwd.py:49-65 | on a cut link a pipe at its loop head reads nothing, a chunk that arrives is held unwritten, and a waiting pipe stays until woken |
| Forwarder.HealReleases | scripts/gauntlet-gs033/fwd.py:116-121 | a heal opens every link, the chunk a pipe holds is written at its next wake-up, and a pipe held at its loop head reads on |
| Forwarder.EndCloses | scripts/gauntlet-gs033/fwd.py:49-73 | at the end of the stream a pipe closes for good |
| Forwarder.OpenFail | scripts/gauntlet-gs033/fwd.py:60-96 | a new connection adds two fresh pipes to its link, a failure closes one pipe and writes nothing |
| Forwarder.RunPartition | scripts/gauntlet-gs033/fwd.py:98-110 | the handler cuts exactly the links with one end in the minority |
| Isolation.NoPathAcross | scripts/gauntlet-gs033/inject.py:86-145 | with the minority's forwarders cut, whatever any node dials by its arguments leads, through any number of uncut links, to its own side only |
| Isolation.SidesConnected | scripts/gauntlet-gs033/inject.py:86-139 | with the same cut any two nodes of one side still reach each other: minority nodes directly, majority nodes by public ports, X through its own forwarder |
| Isolation.EveryLinkCut | scripts/gauntlet-gs033/inject.py:125-135 | every link given to a minority forwarder is cut by the minority, every link of X's by X alone |
| Isolation.MinorityArgv | scripts/gauntlet-gs033/inject.py:86-100 | the node's own arguments without bootstraps and with its internal P2P port, then its bootstraps and the closing options, in that order; it dials exactly the other minority nodes' internal ports and the forwarder ports of the majority but X; refused for more than five, or without a port option |
| Isolation.XIsolatedArgv | scripts/gauntlet-gs033/inject.py:112-119 | X's arguments behind its forwarder: its own without bootstraps and with its internal P2P port, then its bootstraps and the closing options; it dials exactly its forwarder's ports to the other majority nodes |
| Isolation.SetPortExact | scripts/gauntlet-gs033/inject.py:88 | the word behind the first port option, and no other, is replaced by the port |
| Isolation.SpawnFwd | scripts/gauntlet-gs033/inject.py:125-135 | the map list is the public port to the owner and one port for every node outside the minority |
| Isolation.MapsExact | scripts/gauntlet-gs033/inject.py:125-135 | the maps are exactly the owner's public port to its internal one and one port per other majority node |
| Isolation.StripOpt | scripts/gauntlet-gs033/inject.py:39-47 | the loop removes the option with its value |
| Isolation.StripRemoves | scripts/gauntlet-gs033/inject.py:39-47 | no occurrence of the option is left and nothing is added |
| Isolation.StripExact | scripts/gauntlet-gs033/inject.py:39-47 | the first occurrence goes with its value and everything before it stays in order, so all other arguments do, each occurrence in turn |
| Isolation.DialsExact | scripts/gauntlet-gs033/inject.py:97-98 | bootstrap options behind a list without any are dialled, each and no other |
| Isolation.BootArgsExact | scripts/gauntlet-gs033/inject.py:97-98 | one bootstrap option with its address for every port, in order |
| Isolation.BootsCount | scripts/gauntlet-gs033/inject.py:88-96 | a minority node gets a bootstrap for every node but itself and X, so more than seven nodes are refused |
| Isolation.FwdPortInjective | scripts/gauntlet-gs033/tn.py:103-108 | two links of at most ten nodes never share a forwarder port |
| Isolation.PortsTell | scripts/gauntlet-gs033/tn.py:103-108 | a forwarder port tells its owner and peer |
| Isolation.OnlyXForwards | scripts/gauntlet-gs033/inject.py:124-145 | once the minority is cut only X's forwarder carries anything |
| StripedScan.ScanSlice | scripts/gauntlet-gs024-scan.py:70-90 | the thread's loop lists its slice as specified, cut-off included |
| StripedScan.VerdictExact | scripts/gauntlet-gs024-scan.py:70-90 | missing, mismatched, unknown and present in terms of the two nodes' answers |
| StripedScan.ScanExact | scripts/gauntlet-gs024-scan.py:70-90 | each list of a slice holds exactly the heights of its kind, each once, those behind 20 unanswered ones in a row counting as errors |
| StripedScan.ScanAll | scripts/gauntlet-gs024-scan.py:118-125 | whatever order the threads end in, each list holds exactly the heights with that fate, each once |
| StripedScan.Check | scripts/gauntlet-gs024-scan.py:97-129 | the exit code is 2 on a usage error, 0 if and only if every height got a hash, the verifier's own when comparing, and 1 otherwise |
| StripedScan.FateExact | scripts/gauntlet-gs024-scan.py:70-90 | the cut-off hides no height: a height in no list got its hash, one reported missing or mismatched is |
| StripedScan.OrderIrrelevant | scripts/gauntlet-gs024-scan.py:91-94 | two reports of a scan list the same heights, whatever the merge order |
| StripedScan.StripeAt | scripts/gauntlet-gs024-scan.py:121 | the k-th element of stripe i is the one at i + k*n, and there are as many as such places |
| StripedScan.OfStripe | scripts/gauntlet-gs024-scan.py:121 | a height is in a stripe's list if and only if it is of that stripe and has that fate |
| StripedScan.MergeStripe | scripts/gauntlet-gs024-scan.py:91-94 | merging one more thread's list adds exactly its stripe's heights |
| StripedScan.Ranges | scripts/gauntlet-gs024-scan.py:24-31 | the in-place extension yields sorted runs, no two touching, covering exactly the set |
| StripedScan.RunsMaximal | scripts/gauntlet-gs024-scan.py:24-31 | every run lies in the set and neither neighbour does |
| StripedScan.RunsUnique | scripts/gauntlet-gs024-scan.py:24-31 | a set has one such list |
| SwapBot.RunSafe | testnet/doli-swap-bot/server.js:186-369 | every state reached by any interleaving of poller, sweep, order creation and clean restart satisfies the range, payout and order invariants |
| SwapBot.AtMostOnePayout | testnet/doli-swap-bot/server.js:225-279 | over every run a payment hash and an order each cause at most one payout attempt |
| SwapBot.NoPaymentLost | testnet/doli-swap-bot/server.js:186-279 | over every run each log of a finished range was handled and its hash decided exactly once, paid if and only if that decision was a payout attempt; unless a restart fell between match and balance, it is otherwise unmatched, short of balance, or being asked for now |
| SwapBot.EveryHashDecided | testnet/doli-swap-bot/server.js:210-257 | every hash of a finished range is decided |
| SwapBot.RunOpenExact | testnet/doli-swap-bot/server.js:225-279 | a matched payment is left open, neither paid nor refused, if and only if a restart fell between its match and the balance |
| SwapBot.FateExact | testnet/doli-swap-bot/server.js:225-257 | a log is repeated if and only if its hash was processed, unmatched if and only if no live pending order has its amount, and otherwise asks for the balance of an order that has |
| SwapBot.RunStatus | testnet/doli-swap-bot/server.js:225-293 | over every run an order is completed if and only if its payout ended ok, failed if and only if it ended otherwise, without liquidity if and only if its payment found the balance short; paid hashes stand with completed orders only |
| SwapBot.EligibleExact | testnet/doli-swap-bot/server.js:244-252 | a payment matches a pending order within its date whose amount is the payment's nearest cent, halves going up |
| SwapBot.RestartResumes | testnet/doli-swap-bot/server.js:168-179 | a restart resumes behind the saved marker, or ten blocks below the head, with the database as it was |
| SwapBot.PassFails | testnet/doli-swap-bot/server.js:186-223 | a failed pass leaves marker and database as they were |
| SwapBot.RunHandled | testnet/doli-swap-bot/server.js:186-279 | over every run the attempts are the payouts in order, each processed hash is decided once, and every log passed is handled |
| SwapBot.NeverPendingAgain | testnet/doli-swap-bot/server.js:225-293 | however a run goes on, an order that left pending never returns and a settled one never changes |
| SwapBot.BlocksOnce | testnet/doli-swap-bot/server.js:186-216 | a block lies in a finished range if and only if it is after the first marker and up to the last processed block, and then in one range only |
| SwapBot.RangesStep | testnet/doli-swap-bot/server.js:186-223 | every section keeps finished ranges contiguous, confirmed, at most 5000 blocks long, with every log's hash recorded |
| SwapBot.PayoutsStep | testnet/doli-swap-bot/server.js:225-293 | every section keeps payouts distinct and settled under the right hash, and moves orders only forward |
| SwapBot.OrdersStep | testnet/doli-swap-bot/server.js:320-369 | every section keeps orders' amounts above their base and two-decimal amounts of pending orders apart |
| SwapBot.PaymentCovers | testnet/doli-swap-bot/server.js:110-125 | a payment that matches a two-decimal order exceeds its base; one that matches a fallback order falls short of it by less than 4.5 thousandths |
| SwapBot.PaymentExact | testnet/doli-swap-bot/server.js:110-125 | every payment that matches an order is at least its base if and only if the order is covered: its amount has a third decimal, so nothing matches it, or lies half a cent or more above the base |
| SwapBot.CentsCovered | testnet/doli-swap-bot/server.js:110-120 | an order with a two-decimal amount is always covered |
| SwapBot.RunInsolvent | testnet/doli-swap-bot/server.js:110-279 | a run from a fresh start, two orders and one payment, in which a fallback order is paid by less than its base and more goes out than the rate times what came in |
| SwapBot.RunSolvent | testnet/doli-swap-bot/server.js:225-279 | while the orders paid are covered, no run pays out more than the rate times what distinct payments brought in |
| SwapBot.MatchUnique | testnet/doli-swap-bot/server.js:244-252 | of orders with two-decimal amounts a payment matches at most one |
| SwapBot.PendingLimit | testnet/doli-swap-bot/server.js:332-351 | an address has at most two more pending orders than it ever had requests waiting together, so three when they never overlap |
| SwapBot.LimitTight | testnet/doli-swap-bot/server.js:332-351 | that bound is met for every number of overlapping requests, so the limit of three is not kept when two overlap |
| SwapBot.GenerateExactAmount | testnet/doli-swap-bot/server.js:110-125 | the first free draw, and the fallback only when every draw is taken |
| SwapBot.FirstFree | testnet/doli-swap-bot/server.js:110-121 | the amount is the first of the draws that no pending order has |
| SwapBot.DrawExact | testnet/doli-swap-bot/server.js:112-114 | a draw is the two-decimal amount nearest to base and suffix, halves going up |
| SwapBot.FallbackExact | testnet/doli-swap-bot/server.js:122-124 | the fallback is the three-decimal amount nearest to base and suffix |
| SwapBot.PendingExact | testnet/doli-swap-bot/server.js:332-338 | the pending orders of an address are counted |
| SwapBot.ExactApart | testnet/doli-swap-bot/server.js:110-125 | a two-decimal amount is free among pending orders and every amount covers its base by half its own rounding unit |
| SwapBot.Bot.GotHead | testnet/doli-swap-bot/server.js:188-195 | the next range starts behind the marker and goes as far as the confirmations and 5000 blocks allow; without confirmed blocks the poller sleeps |
| SwapBot.Bot.NextLog | testnet/doli-swap-bot/server.js:210-257 | one log up to its await, matched to the oldest eligible order; the marker moves only after the last log |
| SwapBot.Bot.GotBalance | testnet/doli-swap-bot/server.js:260-269 | a payout attempt of the order's amount when the balance covers it, else the order is marked without liquidity |
| SwapBot.Bot.PaymentEnded | testnet/doli-swap-bot/server.js:268-278 | sent, the order is completed under the payment's hash; failed, it is marked failed and its hash unchanged; no other order changes |
| SwapBot.Bot.CleanupExpiredOrders | testnet/doli-swap-bot/server.js:285-293 | exactly the overdue pending orders expire |
| SwapBot.Bot.AskOrder | testnet/doli-swap-bot/server.js:320-340 | accepted exactly within the amount limits and under three pending orders |
| SwapBot.Bot.CreateOrder | testnet/doli-swap-bot/server.js:340-351 | when the balance covers it an order with the customer's amount, ten times it in DOLI and the drawn amount is appended, and else nothing |
| UndoLog.CacheComesBack | scripts/gauntlet-gs033/tn.py:266-298 | whatever is moved, written, stopped or restored after a node's first move, undoing the log gives it the cache it had before, or none if it had none |
| UndoLog.Harness.MoveCache | scripts/gauntlet-gs033/tn.py:266-281 | the first move backs the cache up and logs it, later ones set scratch caches aside; log and saved log agree, and between rename and save the state is the one DeathExact starts from |
| UndoLog.MovedExact | scripts/gauntlet-gs033/tn.py:266-281 | after a move the node has no cache: its bytes are the logged and saved backup, or later a scratch file of the run; nothing else changes |
| UndoLog.Harness.RestoreCache | scripts/gauntlet-gs033/tn.py:284-298 | one node's log entry, scratch files and cache are replaced by its backup, through the death points in their order |
| UndoLog.RestoredPlain | scripts/gauntlet-gs033/tn.py:284-298 | the cache is the backup again or gone, the backup and the run's scratch files of the node are gone, nothing else changes, and the saved log lacks the node |
| UndoLog.OfRunExact | scripts/gauntlet-gs033/tn.py:289-291 | the run's scratch files are those named by it and a dash |
| UndoLog.Harness.StopLaunchd | scripts/gauntlet-gs033/tn.py:230-246 | the job is stopped, logged once, and the log saved; between stop and save the state is a death point |
| UndoLog.Harness.StartLaunchd | scripts/gauntlet-gs033/tn.py:249-259 | a started job leaves the log, a busy one stays; between start and save the state is a death point |
| UndoLog.Harness.RestoreAll | scripts/gauntlet-gs033/tn.py:327-338 | in any order of nodes the whole log is undone, whatever scratch files lie about, no other file changes, and of the jobs the log names only busy ones stay stopped |
| UndoLog.Harness.ManualRestore | scripts/gauntlet-gs033/tn.py:342-363 | a new process undoes whatever log can be read back, also one saved inside a restore, and nothing when state.json was cut short |
| UndoLog.DeathLosesNothing | scripts/gauntlet-gs033/tn.py:180-187 | after a death between operations, whatever nodes write meanwhile, the loaded state is the state as if the process lived |
| UndoLog.RestoreEachExact | scripts/gauntlet-gs033/tn.py:335-336 | restored in any order from any log with its backups on disk, each node's files are what restoring it alone leaves and no others change |
| UndoLog.NoScratchLeft | scripts/gauntlet-gs033/tn.py:289-291 | an undone run leaves no scratch file of its own anywhere |
| UndoLog.RunKeeps | scripts/gauntlet-gs033/tn.py:230-298 | under every interleaving of operations and node writes the saved log equals the one in memory and every logged backup is on disk |
| UndoLog.BackupKeptRun | scripts/gauntlet-gs033/tn.py:266-298 | a node's backup stays as it was until the node is restored |
| UndoLog.DeathExact | scripts/gauntlet-gs033/tn.py:180-363 | at every point inside move_cache, restore_cache, stop_launchd, start_launchd and save_state at which the process may die, the recovery gives a node the cache it is owed if and only if the point leaves that node's log entry in place or its cache already right |
| UndoLog.RecoveryReaches | scripts/gauntlet-gs033/tn.py:284-363 | at every such point, restoring the nodes of the log found on disk, in any order, undoes that log: the recovery the death results speak of exists |
| UndoLog.FoundRestorable | scripts/gauntlet-gs033/tn.py:180-363 | unless state.json is torn the log read back after such a death is one the recovery works on |
| UndoLog.RecoveriesExact | scripts/gauntlet-gs033/tn.py:284-363 | however often the recovery itself dies and is taken up again, a node not yet restored gets its cache in the end unless a death hit its own restore; then its bytes are still in the backup and its cache is left alone |
| UndoLog.ScratchLeftExact | scripts/gauntlet-gs033/tn.py:284-363 | a scratch file of the run stays behind if and only if state.json was torn or its node's restore died before removing it |
| UndoLog.JobsExact | scripts/gauntlet-gs033/tn.py:230-259 | a job down at the point stays down if and only if it is busy, the log is torn, or it had just been stopped and was in no log yet |
| UndoLog.DeathTold | scripts/gauntlet-gs033/tn.py:180-363 | for a node that had a cache, state.json and its directory tell exactly whether the recovery will give it back: still logged, no backup there, or cache and backup alike |
| UndoLog.BytesKept | scripts/gauntlet-gs033/tn.py:266-298 | wherever the process dies, the bytes a node is owed are its cache again or still in its backup |
| UndoLog.NoStrayKept | scripts/gauntlet-gs033/tn.py:266-298 | every whole operation keeps backups with moved nodes only |
| UndoLog.BegunKeeps | scripts/gauntlet-gs033/tn.py:230-298 | over every run from directories without files of the run, only moved nodes hold a backup and the log stays valid |
| UndoLog.RunTold | scripts/gauntlet-gs033/tn.py:180-363 | so over every such run, whichever operation dies at which point, state.json and the directory tell whether the recovery gives the cache back |
| UndoLog.Harness.RemoveScratch | scripts/gauntlet-gs033/tn.py:288-291 | the run's scratch files of one node go one by one, passing the death points in between |

## Left out

- Hash functions, signatures, BLS and VDF: the hash is a parameter, the others do not occur.
- Integers that do not fit their field: `U32` and `U64` fields are typed, so `struct.error` on packing an oversized field is not modelled; oversized lengths and types are.
- The consensus types an output index above 10 would need; the reader refuses them as the source does.
- PlanSearch.ChoosePlan: `GS033_PLAN_EPOCHS` and the attestation bounds are parameters; a forced X that is the only minority node of the order makes the source loop forever and is excluded by `Searchable`, whose exact meaning is `DeadBranch.PlannableExact`.
- TestNode.HealConverges: the two nodes' branches spend nothing older than the split; the exact condition is in `RevertRestoresExactly`.
- The mempool of the test node, block validity beyond the parent check, and UTXO insert errors, which the source discards.
- SupplyAudit.CmdRemoved: JSON shapes, malformed files and the amount bounds raise `Bad` in the source and are not modelled; the subject is taken to stand once in the block.
- `cmd_forkcheck` of the same script, which would only add single-pass list checks.
- PoolLedger.RunBuildsConserve: that a token's unspent units stay below 2^64 is taken from the consensus rules, whose issuance field for them is 64 bits wide; that DOLI stays within its supply, from the supply constant. Neither is needed by the builders' own contracts.
- PoolTx.BuildSwap: the pool read over RPC is taken to be the pool input spent; covenants, witnesses, signing, prompts and broadcasting are not modelled, nor the TWAP update of the pool metadata.
- PoolLedger.VerifyAmm: u128 sums are unbounded integers. Of the node's other rules only the backing of a created pool is modelled (`PoolLedger.CreateBacked`), as it is from its activation height on.
- EpochRewards.Distribute: the product of pool and block count and the blocks elapsed are taken modulo 2^64, as a release build computes them (a debug build panics there); the sums of rewards and of blocks are unbounded naturals. The block reward per height is a parameter.
- Forwarder.HarnessSealed: drop mode, refused and aborted connections and the log are not modelled; a connection that fails loses what it still held, which is the one loss `Forwarder.RunSound` admits. The switch between hold and drop is fixed at start-up.
- Forwarder.StepSealed: it asks that a cut finds no woken pipe; `Forwarder.CutSafeExact` shows that this is exactly what is needed, `Forwarder.HarnessSealed` that the harness's order of signals gives it.
- Isolation.NoPathAcross: paths by command-line arguments only; peer exchange, peer caches and the launchd wiring of nodes not restarted are what `probes.py` watches at run time.
- Isolation.XIsolatedArgv: X's arguments before it is isolated (`x_follower_argv`), when it dials public ports without a forwarder, are not modelled.
- StripedScan.ScanAll: one connection's retries, timeouts and the HTTP exchange are the oracle's answer; a thread that dies of an unexpected exception is not modelled.
- SwapBot.RunSafe: database writes do not fail and the process does not die while a payment is being sent (either would leave a paid order pending); amounts are exact integers instead of floating point, dates are arbitrary sets of live and overdue orders, and a restart starts polling at once.
- The HTTP layer, rate limiting, the RATE and limit settings other than their defaults, and the copy under `testnetlinux/`.
- UndoLog.Harness.RestoreAll: processes are killed before it and nodes started by it write again after it; these writes are events of the next run. Foreign files whose name begins with the run's own scratch prefix are removed with the run's.
- UndoLog.Harness.StopLaunchd: which of the two ways a job is stopped, and waiting for it, are not modelled, and the job does stop; a refusal raised before the log is touched is its `refused` argument.
- Schedules that depend on wall-clock time: the cut, the heal and the waits of `inject.py`'s `run`.
