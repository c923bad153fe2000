# Memory system: replay, calibration and mailbox models

A Dafny model of the parts of this memory system that are programs rather than
wiring, with proofs of what they are for.

**Trace replay.** A trace is a list of 121-bit records: LOADs and STOREs in
program order, with addresses and values that may be missing, and RESOLVE
records that bring them later, out of order. `Trace` and `TraceCodec` define
records, the driver's encoder and the decoder. `Ledger` is the reference: every
operation in program order with what is known about it; memory is what the
longest fully known prefix writes. `Ring` is the state of the v2 program, a ring
of sixteen slots without a full test, and the proof of exactly when it follows
the ledger. `Schedule` shows that the interleaving of RESOLVEs across ids does
not matter. `MemTable` (heap-linked hash chains), `Dump` (flatten and sort) and
`ReplayV2` are the program itself, in place. `ReplayV1` is the older program
without a queue, and `Agreement` says exactly when the two end with the same
memory. `TraceBytes` and `ProgramOrder` spell out what the file, the reference and
both programs mean in bytes, record fields and plain numbers.

**DDR3 calibration.** `EyeSearch` and `Deskew` are the per-bit deskew of
`rw_mgr_mem_calibrate_vfifo_center` and of the DQ part of
`rw_mgr_mem_calibrate_writes_center`; one `Side` parameter selects the branches
in which they differ. `DmWindow` is the data-mask window search of the latter.
In these three the hardware test is an arbitrary function of the skew between
the pin and DQS. `DqsEnable` is
`rw_mgr_mem_calibrate_vfifo_find_dqs_en_phase`; there the read test is an
arbitrary stream of answers, so noise is included, and every read is tied to the
VFIFO step, phase and delay at which it was made (`DqsSpec` says in which order).
`DqsOutcome` shows that the answers determine verdict, VFIFO step and registers.
On steady hardware a read passes depending on the total delay alone; the delays at
which it passes are the eye. `DqsEye` says what window the search records, `DqsAim`
that the eye settles it, `DqsVerdict` exactly when the search succeeds, and
`DqsRoomy` that it centres. `DqsInFull` says what any search did in terms of its
reads and their total delays, `DqsTracking` what tracking measures. `DqsRun`,
`DqsNarrow`, `DqsLate` and `DqsThin` follow four runs
through to the end.

`CalibrateAll` is the group loop of `mem_calibrate` and `DelayLoop` the ROM delay loop. The branches are
those of `sequencer_defines.h`: Cyclone V, DDR3, full rate,
`SKIP_PTAP_0_DQS_EN_CAL=1`, `USE_DQS_TRACKING=1`,
`ENABLE_DQS_IN_CENTERING=1`, `ENABLE_DQS_OUT_CENTERING=0`,
`IO_SHIFT_DQS_EN_WHEN_SHIFT_DQS=0`, `READ_AFTER_WRITE_CALIBRATION=1`. Tap limits
and tap sizes are parameters.

**Mailbox.** `Mailbox` is the two-word command interface of `tclrpt.c` as a
state machine in which firmware and host interleave at single reads and writes.

`dafny verify dfyconfig.toml` checks everything.

## What turned out to be conditional

- The v2 ring follows program order if and only if at most fifteen operations
  are outstanding (`Ring.StepRefines`, `Ring.RingMatchesLedger`); sixteen look
  like none (`Ring.OverflowLosesStores`).
- v1 and v2 agree if and only if at every address the youngest store is the last
  to become complete in the trace (`Agreement.SameFinalMemory`); a two-store
  trace on which they differ is `Agreement.OvertakingDisagrees`.
- A group of which every bit has an eye can be rejected: exactly when the delay
  chains do not reach every eye from where the least sum of eye ends puts DQS
  (`Deskew.CentreGroup`). Witnesses are `Deskew.ReadSideRejects` and
  `Deskew.WriteSideRejects`.
- A data mask window is found but rejected exactly when the leftmost longest run
  begins beyond position 0, since only the DM delay is moved
  (`DmWindow.CentreMask`, witness `DmWindow.BeyondIsRejected`).
- On steady hardware the DQS enable search can fail although two VFIFO steps fail
  and settings pass: exactly when the middle of the window that the eye settles
  passes, at its phase and delay, in no VFIFO step (`DqsVerdict.SteadyVerdict`,
  `DqsAim.Aims`). A run on an eye of 300 ps that so fails is `DqsNarrow.Miss`. With
  passes in stretches of six phase taps it cannot (`DqsRoomy.RoomyVerdict`).
- The window recorded lies outside the eye exactly when step 2 needed no delay taps
  and the tap that step 4a tries first is in the same VFIFO step and fails
  (`DqsEye.WindowIsTheEye`, `DqsRoomy.AimIsTheEye`).
- The check for an empty window is never taken when step 2 needed no delay taps, and
  never on steady hardware (`DqsSpec.NeverEmpty`, `DqsSpec.EmptyWhenFailing`,
  `DqsVerdict.SteadyNotEmpty`).
- Step 6 of the DQS enable search programs a delay tap past the end of the chain
  for some window unless the chain spans a phase tap (`DqsSpec.FitsExactly`);
  in this build it does (31 taps of 25 ps against 312 ps).
- When the first working phase is tap 1, the step that says it restores the VFIFO
  and phase leaves the phase one tap too far (`DqsEnable.Phy.RefineBegin`), so
  `work_end` is then one phase tap less than the delay of the setting that is
  read, and the middle half a phase tap low (`DqsRoomy.RegistersAreCentred`). A run
  to which this happens is `DqsLate.RunLate`.
- The wait of `delay_for_n_mem_clocks` is long enough if and only if its rounding
  does not overflow (`DelayLoop.WaitsLongEnough`); at full rate it never does.
- The mailbox is safe if and only if WAIT is written before READY
  (`Mailbox.WaitMustComeFirst`), as the comment in the source says.

## Model

| member | source | states |
|---|---|---|
| `Trace.MemoryIsLastStore` | MemorySystem/mem-traces-v2/replay_trace.c:45-63 | performing operations one after the other leaves at an address exactly the value and access number of the last store to it, and no entry when there is none |
| `Ledger.LedgerInProgramOrder` | MemorySystem/mem-traces-v2/replay_trace.c:119-128 | access numbers are the positions of LOAD and STORE records in the trace, none reused or skipped |
| `Ledger.OldestOpen` | MemorySystem/mem-traces-v2/replay_trace.c:130-146 | a RESOLVE matches the oldest operation with its id that misses a field: nothing before the result matches |
| `Ledger.Ready` | MemorySystem/mem-traces-v2/replay_trace.c:73-84 | the retired operations are the longest prefix of program order in which nothing is missing |
| `Ledger.ResolveSkipsReady` | MemorySystem/mem-traces-v2/replay_trace.c:131-133 | starting the search at the head instead of at the first operation finds the same entry |
| `Ledger.StepKeepsReady` | MemorySystem/mem-traces-v2/replay_trace.c:119-148 | a record never un-retires an operation and never changes a retired one; an insertion behind an incomplete head retires nothing |
| `Ledger.ExtendRefines` | MemorySystem/mem-traces-v2/replay_trace.c:119-148 | over any further records nothing disappears, valid fields stay valid, and a complete entry never changes again |
| `Ledger.RetiredIsStable` | MemorySystem/mem-traces-v2/replay_trace.c:73-84 | the committed operations of a trace are a prefix, entry for entry, of those of every longer trace |
| `Ledger.LastWriterWins` | MemorySystem/mem-traces-v2/replay_trace.c:45-84 | at every point an address is in memory exactly when a committed store writes it, with the value and program-order number of the youngest one |
| `ProgramOrder.LedgerInFull` | MemorySystem/mem-traces-v2/replay_trace.c:92-93 | the reference starts with nothing and goes on record by record |
| `ProgramOrder.OperationIsEntered` | MemorySystem/mem-traces-v2/replay_trace.c:119-128 | a record with op 0 or 1 is entered last, field by field, with the next access number |
| `ProgramOrder.ResolveFillsTheOldest` | MemorySystem/mem-traces-v2/replay_trace.c:129-146 | a record with op 2 brings the address, the value or both, as its flags say, to the oldest operation with its id that misses one, and changes nothing else |
| `ProgramOrder.OthersChangeNothing` | MemorySystem/mem-traces-v2/replay_trace.c:119-148 | any other record, and one with op 2 that matches nothing, has no effect |
| `ProgramOrder.CommittedIsKnown` | MemorySystem/mem-traces-v2/replay_trace.c:73-84 | an operation is committed exactly when it and all before it have address and value |
| `ProgramOrder.MemoryInFull` | MemorySystem/mem-traces-v2/replay_trace.c:45-84 | an address holds a value and an access number exactly when the operation with that number is committed, is a store (op 1) of that value to that address, and no later committed one is a store there |
| `ProgramOrder.ReportInFull` | MemorySystem/mem-traces-v2/replay_trace.c:151-171 | the report lists exactly these stores by strictly increasing address |
| `ProgramOrder.RoomInFull` | MemorySystem/mem-traces-v2/replay_trace.c:34-36 | the queue never fills exactly when all operations but the last fifteen are always known |
| `ProgramOrder.V2Inserts` | MemorySystem/mem-traces-v2/replay_trace.c:119-128 | in any state, full or not: the slot at the tail takes every field of the record and the tail goes on modulo 16 |
| `ProgramOrder.V2Finds` | MemorySystem/mem-traces-v2/replay_trace.c:131-145 | in any state: the search stops at the first slot, going round, with the id and a field missing, or at the tail |
| `ProgramOrder.V2Commits` | MemorySystem/mem-traces-v2/replay_trace.c:73-84 | in any state: a head with both fields is performed if its op is 1, and the head goes on modulo 16 |
| `Schedule.ResolvesCommute` | MemorySystem/mem-traces-v2/replay_trace.c:129-148 | two RESOLVE records with different ids can be exchanged |
| `Schedule.ReorderedBlock` | MemorySystem/mem-traces-v2/replay_trace.c:129-148 | any reordering of a block of RESOLVE records that keeps each id's own order gives the same ledger |
| `Ring.SlotOfIsModulo` | MemorySystem/mem-traces-v2/replay_trace.c:128 | the slot of the n-th insertion is n modulo 16 |
| `Ring.Commit` | MemorySystem/mem-traces-v2/replay_trace.c:73-84 | in every state, overflowed or not, retirement stops only at an empty queue or an incomplete head |
| `Ring.Run` | MemorySystem/mem-traces-v2/replay_trace.c:102-149 | after every record of every trace the queue is empty or its head misses a field |
| `Ring.FindIsOldestOpen` | MemorySystem/mem-traces-v2/replay_trace.c:131-145 | the wrap-around search from the head finds the slot of the oldest incomplete operation with the id, or ends at the tail when there is none |
| `Ring.CommitRetiresReady` | MemorySystem/mem-traces-v2/replay_trace.c:73-84 | greedy retirement performs exactly the operations up to the first incomplete one, in program order |
| `Ring.InsertHolds` | MemorySystem/mem-traces-v2/replay_trace.c:119-128 | an insertion overwrites only a slot that is no longer needed, as long as fifteen slots suffice |
| `Ring.ResolveHolds` | MemorySystem/mem-traces-v2/replay_trace.c:129-146 | a RESOLVE fills the slot of the entry that the ledger resolves and no other |
| `Ring.WalkIsSuffix` | MemorySystem/mem-traces-v2/replay_trace.c:119-128 | walking the ring from head to tail meets the uncommitted operations in program order: the queue is a FIFO |
| `Ring.FollowsCounts` | MemorySystem/mem-traces-v2/replay_trace.c:34-39 | committed and queued operations are all those issued, and a queue of this ring never shows more than fifteen |
| `Ring.StepRepresents` | MemorySystem/mem-traces-v2/replay_trace.c:119-148 | one record keeps slots, indices, counter and memory in step with the ledger while at most fifteen operations are outstanding |
| `Ring.StepRefines` | MemorySystem/mem-traces-v2/replay_trace.c:119-148 | one record: memory is what the committed operations write, the queue is the rest in program order and every operation issued has its number, if and only if the ledger leaves at most fifteen operations outstanding; the bound is not part of the left side |
| `Ring.RingMatchesLedger` | MemorySystem/mem-traces-v2/replay_trace.c:34-36 | whole runs: this holds after every record if and only if the ledger never has more than fifteen operations outstanding |
| `Ring.ReorderedResolves` | MemorySystem/mem-traces-v2/replay_trace.c:73-84 | reordering a block of RESOLVE records across ids leaves the same slots, head, tail, counter and memory, although operations commit at other moments |
| `Ring.OverflowLosesStores` | MemorySystem/mem-traces-v2/replay_trace.c:74 | the missing full test matters: every store that misses its address, its value or both, issued sixteen times, makes the ring look empty and is lost, where program order commits it |
| `MemTable.PrependKeepsShape` | MemorySystem/mem-traces-v2/replay_trace.c:56-62 | putting an entry in front of its chain keeps every bucket's chain well formed, every address hashed to its bucket and no address listed twice |
| `MemTable.Table.Lookup` | MemorySystem/mem-traces-v2/replay_trace.c:46-55 | walking the chain of a bucket finds the entry of an address exactly when the table has one |
| `MemTable.Table.Update` | MemorySystem/mem-traces-v2/replay_trace.c:45-63 | one write changes the table, seen as a map, at that address only |
| `MemTable.Table.Overwrite` | MemorySystem/mem-traces-v2/replay_trace.c:49-53 | an existing entry is changed in place and no entry is added |
| `MemTable.Table.Prepend` | MemorySystem/mem-traces-v2/replay_trace.c:56-62 | a new address gets a new entry in front of its chain; the other chains stay and the entry count grows by one |
| `MemTable.Table.Link` | MemorySystem/mem-traces-v2/replay_trace.c:60-62 | the chain grows by exactly the new entry, in front; so do the map of entries, the entry count and the set of objects |
| `Dump.FlatListsBuckets` | MemorySystem/mem-traces-v2/replay_trace.c:155-161 | flattening the first n buckets lists each of their entries once and only them |
| `Dump.FlatFillsTheDump` | MemorySystem/mem-traces-v2/replay_trace.c:152-161 | total_modified_entries is the number of entries in all chains, so the array is filled exactly |
| `Dump.CopyChain` | MemorySystem/mem-traces-v2/replay_trace.c:156-160 | copying one chain appends its entries in chain order and leaves earlier positions alone |
| `Dump.Flatten` | MemorySystem/mem-traces-v2/replay_trace.c:153-161 | the array holds the chains of all buckets, in bucket order, with no position left over |
| `Dump.Rows` | MemorySystem/mem-traces-v2/replay_trace.c:169-171 | the rows read from the array list every address of the memory once, with its value and access number |
| `Dump.SortedDumpIsReport` | MemorySystem/mem-traces-v2/replay_trace.c:163 | any permutation sorted by compare_mem_addr lists the memory in strictly increasing address order |
| `Dump.ReportIsUnique` | MemorySystem/mem-traces-v2/replay_trace.c:151-171 | a memory has one such report, so an unstable sort makes no difference |
| `ReplayV2.Replay.constructor` | MemorySystem/mem-traces-v2/replay_trace.c:34-39 | static storage is the start state |
| `ReplayV2.Replay.CommitReadyOps` | MemorySystem/mem-traces-v2/replay_trace.c:73-84 | the loop in place computes the ring's commit |
| `ReplayV2.Replay.Retire` | MemorySystem/mem-traces-v2/replay_trace.c:75-79 | a completed head is performed and the head moves on one slot |
| `ReplayV2.Replay.InsertOp` | MemorySystem/mem-traces-v2/replay_trace.c:119-128 | queueing in place |
| `ReplayV2.Replay.ResolveOp` | MemorySystem/mem-traces-v2/replay_trace.c:129-146 | the search loop in place computes the ring's resolve |
| `ReplayV2.Replay.Process` | MemorySystem/mem-traces-v2/replay_trace.c:119-148 | one record: the array, the indices, the counter and the heap-linked table together make the ring's step |
| `ReplayV2.ReadTrace` | MemorySystem/mem-traces-v2/replay_trace.c:95-104 | records are read up to the end of the file or the limit; a limit that is not positive is none |
| `ReplayV2.ReplayTrace` | MemorySystem/mem-traces-v2/replay_trace.c:95-171 | from decoded records to unsorted rows: for every record sequence and limit the rows tabulate the memory of the ring's run |
| `ReplayV2.ReportIsArchitectural` | MemorySystem/mem-traces-v2/replay_trace.c:151-171 | the printed rows are the one report of the memory that program order defines, for every trace that never has sixteen operations outstanding |
| `ReplayV2.TraceOfInFull` | MemorySystem/mem-traces-v2/replay_trace.c:95-104 | the file has one record for every sixteen bytes; of these a positive limit below their number leaves the first `limit`, anything else all |
| `ReplayV2.RecordOfFile` | MemorySystem/mem-traces-v2/replay_trace.c:106-117 | record k replayed, from bytes 16k to 16k+15: address and value as sums of bytes times powers of 256, id, op and both flags, in integer arithmetic |
| `ReplayV2.ReplayFile` | MemorySystem/mem-traces-v2/replay_trace.c:95-171 | the whole program from the bytes of any file, with any limit and any correct sort, to the rows printed: strictly increasing addresses, the report of what the queue leaves in memory, and, when the queue never fills, a row for exactly every last committed store |
| `ReplayV1.LogExplainsMemory` | MemorySystem/aca-mem-traces/replay_trace.c:101-127 | memory is what the writes make of it, in the order in which they happen |
| `ProgramOrder.V1InFull` | MemorySystem/aca-mem-traces/replay_trace.c:23-35 | the older program starts with nothing pending and goes on record by record |
| `ProgramOrder.V1Takes` | MemorySystem/aca-mem-traces/replay_trace.c:101-113 | a record with op 0 or 1 takes its id with every field, whatever was pending there, and writes memory at once if it is a complete store |
| `ProgramOrder.V1Resolves` | MemorySystem/aca-mem-traces/replay_trace.c:114-127 | a record with op 2 brings its address if it has one and otherwise its value, even one not marked valid, and writes memory if what is pending is then a complete store |
| `ProgramOrder.V1Ignores` | MemorySystem/aca-mem-traces/replay_trace.c:101-128 | any other record has no effect |
| `ReplayV1.Replay.constructor` | MemorySystem/aca-mem-traces/replay_trace.c:23-35 | static storage is the start state |
| `ReplayV1.Replay.WriteIfComplete` | MemorySystem/aca-mem-traces/replay_trace.c:123-126 | a store with nothing missing is written, anything else is not |
| `ReplayV1.Replay.Place` | MemorySystem/aca-mem-traces/replay_trace.c:102-126 | the pending operation of an id is replaced and then written if complete |
| `ReplayV1.Replay.Process` | MemorySystem/aca-mem-traces/replay_trace.c:101-127 | one record, in place, computes the step of the pending-table machine; a RESOLVE with both flags brings its address only |
| `Agreement.V1Follows` | MemorySystem/aca-mem-traces/replay_trace.c:101-127 | on well-behaved traces the pending table holds exactly the open operations and the write log every completed store once |
| `Agreement.SameCell` | MemorySystem/aca-mem-traces/replay_trace.c:111-126 | one address: the two memories agree exactly when the last write logged for it is its youngest store |
| `Agreement.LogInCompletionOrder` | MemorySystem/aca-mem-traces/replay_trace.c:101-127 | v1 writes in the order in which stores become complete in the trace |
| `Agreement.LogOrderIsCompletionOrder` | MemorySystem/aca-mem-traces/replay_trace.c:101-127 | the last write of v1 to every address is its youngest store if and only if at every address the youngest store is the last to become complete in the trace |
| `Agreement.SameFinalMemory` | MemorySystem/aca-mem-traces/replay_trace.c:101-128 | v1 and v2 end with the same address to (value, access number) map if and only if at every address the youngest store is the last to become complete; a store is complete after the first record that leaves nothing missing in the ledger |
| `Agreement.InOrderAgrees` | MemorySystem/aca-mem-traces/replay_trace.c:101-128 | so they agree whenever stores to one address become complete in program order |
| `Agreement.OvertakingDisagrees` | MemorySystem/aca-mem-traces/replay_trace.c:114-126 | and disagree for every address and pair of values when an older store is completed after a younger one |
| `TraceCodec.BuildTrace` | MemorySystem/tb/fpga_manual.c:100-116 | the bytes of the two registers decode to op mod 8, id mod 16, the address mod 2^48, the whole value and both flags; the unused bits are zero |
| `TraceCodec.DecodeAddress` | MemorySystem/mem-traces-v2/replay_trace.c:107-108 | the byte loop assembles the 48-bit address |
| `TraceCodec.DecodeValue` | MemorySystem/mem-traces-v2/replay_trace.c:115-116 | the byte loop assembles the 64-bit value from bytes 7 to 14 |
| `TraceCodec.DecodeRecord` | MemorySystem/mem-traces-v2/replay_trace.c:106-117 | the decoder of both replay programs |
| `TraceBytes.FileInNumbers` | MemorySystem/mem-traces-v2/replay_trace.c:106-117 | every record of a file in integer arithmetic over its sixteen bytes, without shifts or masks |
| `TraceCodec.DecodeEncode` | MemorySystem/tb/fpga_manual.c:100-116 | for all inputs, decoding the sixteen little-endian bytes of build_trace gives op mod 8, id mod 16, the address mod 2^48, the whole value and both flags |
| `TraceCodec.DecodeOfEncode` | MemorySystem/mem-traces-v2/replay_trace.c:106-117 | every decoded record survives encoding and decoding |
| `TraceCodec.DecodeIsInjective` | MemorySystem/mem-traces-v2/replay_trace.c:106-117 | apart from bits 121 to 127, different bytes decode differently |
| `TraceCodec.EncodeDecode` | MemorySystem/tb/fpga_manual.c:100-116 | sixteen bytes are the encoding of their own decoding if and only if bits 121 to 127 are zero |
| `TraceCodec.FileRoundTrip` | MemorySystem/mem-traces-v2/replay_trace.c:102-117 | a file of encoded records reads back as those records, whatever partial record follows them |
| `TraceCodec.ReadRecords` | MemorySystem/mem-traces-v2/replay_trace.c:102-117 | reading record by record gives what the file means; a short tail is not read |
| `EyeSearch.Group.Test` | MemorySystem/transfer_quatus/hps_isw_handoff/soc_system_hps_0/sequencer.c:5145-5151 | the test tells for each bit whether it passes at its present skew |
| `EyeSearch.Group.ApplyDq` | MemorySystem/transfer_quatus/hps_isw_handoff/soc_system_hps_0/sequencer.c:5140 | one delay for every DQ pin of the group |
| `EyeSearch.LeftUpdate` | MemorySystem/transfer_quatus/hps_isw_handoff/soc_system_hps_0/sequencer.c:5159-5172 | a test of the first sweep keeps the last passing position and guesses the right edge of bits not seen yet |
| `EyeSearch.LeftStops` | MemorySystem/transfer_quatus/hps_isw_handoff/soc_system_hps_0/sequencer.c:5144-5157 | stopping early loses nothing: beyond a failing position above a passing one nothing passes |
| `EyeSearch.LeftSweep` | MemorySystem/transfer_quatus/hps_isw_handoff/soc_system_hps_0/sequencer.c:5132-5174 | after the first sweep, stopped early or not, every bit's edges are what all positions from 0 to the maximum would have given |
| `EyeSearch.BetweenSweeps` | MemorySystem/transfer_quatus/hps_isw_handoff/soc_system_hps_0/sequencer.c:5176-5200 | guessed right edges of bits that never passed are withdrawn; the sticky bits restart with the bits of which both edges (write side: the left edge) were seen |
| `EyeSearch.RightUpdate` | MemorySystem/transfer_quatus/hps_isw_handoff/soc_system_hps_0/sequencer.c:5232-5258 | a test of the second sweep updates each bit's edges by the four cases of the source |
| `EyeSearch.RightStepKnows` | MemorySystem/transfer_quatus/hps_isw_handoff/soc_system_hps_0/sequencer.c:5232-5258 | these four cases keep what is known of a bit, and the marginal value -1 is never recorded when the oracle answers the same twice |
| `EyeSearch.AllRightStop` | MemorySystem/transfer_quatus/hps_isw_handoff/soc_system_hps_0/sequencer.c:5216-5231 | stopping the second sweep early loses nothing, for either choice of sticky bits |
| `EyeSearch.MarkMarginal` | MemorySystem/transfer_quatus/hps_isw_handoff/soc_system_hps_0/sequencer.c:7351-7360 | the write side's marking of marginal bits when it stops at once |
| `EyeSearch.RightTest` | MemorySystem/transfer_quatus/hps_isw_handoff/soc_system_hps_0/sequencer.c:5206-5258 | one test of the second sweep and its updates keep what is known of every bit; when it ends the sweep, nothing is left to learn |
| `EyeSearch.RightSweep` | MemorySystem/transfer_quatus/hps_isw_handoff/soc_system_hps_0/sequencer.c:5202-5260 | after the second sweep, stopped early or not, every bit's edges are what all DQS delays would have given |
| `EyeSearch.EveryEdgeSeen` | MemorySystem/transfer_quatus/hps_isw_handoff/soc_system_hps_0/sequencer.c:5274-5298 | the final check fails exactly when some edge is still the illegal value |
| `EyeSearch.EdgesAreExact` | MemorySystem/transfer_quatus/hps_isw_handoff/soc_system_hps_0/sequencer.c:5132-5298 | a bit without a position that passes is one with an illegal edge; any other has the two ends of its eye |
| `EyeSearch.EyeInRegisters` | MemorySystem/transfer_quatus/hps_isw_handoff/soc_system_hps_0/sequencer.c:5132-5260 | a bit has an eye exactly when it passes with some DQ delay up to the maximum and some DQS delay from the start to the maximum, and the eye's ends are the extremes of their difference |
| `EyeSearch.SearchEdges` | MemorySystem/transfer_quatus/hps_isw_handoff/soc_system_hps_0/sequencer.c:5132-5298 | read and write side: the search rejects if and only if some bit passes with no DQ delay in 0..max and DQS delay in start..max, and otherwise returns for every bit the largest and the smallest difference of such delays at which it passes |
| `Deskew.TargetIsCentred` | MemorySystem/transfer_quatus/hps_isw_handoff/soc_system_hps_0/sequencer.c:5300-5355 | with C's truncating division and the rounding bias, a pin at its target has margins that differ by at most one, for all edges: by which sign follows from the parities of its own sum of edges and of the smallest |
| `Deskew.PositionIsTarget` | MemorySystem/transfer_quatus/hps_isw_handoff/soc_system_hps_0/sequencer.c:5320-5363 | clamping the DQS move alone never keeps a pin from its target, only a clamped DQ delay does |
| `Deskew.ReadReach` | MemorySystem/transfer_quatus/hps_isw_handoff/soc_system_hps_0/sequencer.c:5321-5365 | read side: a pin misses its eye exactly when the longest DQ delay does not reach the eye's bottom, and either DQS reaches zero or the narrowest pin needs no DQ delay |
| `Deskew.WriteReach` | MemorySystem/transfer_quatus/hps_isw_handoff/soc_system_hps_0/sequencer.c:7451-7478 | write side: a pin misses its eye exactly when its whole eye asks for a negative DQ delay |
| `Deskew.FindMin` | MemorySystem/transfer_quatus/hps_isw_handoff/soc_system_hps_0/sequencer.c:5300-5309 | the first bit with the smallest sum of edges |
| `Deskew.ShiftPin` | MemorySystem/transfer_quatus/hps_isw_handoff/soc_system_hps_0/sequencer.c:5359-5366 | one DQ delay, cut off at both ends of its chain |
| `Deskew.MoveDq` | MemorySystem/transfer_quatus/hps_isw_handoff/soc_system_hps_0/sequencer.c:5352-5379 | every DQ delay, and margins that are both non-negative exactly when no pin lies outside its edges |
| `Deskew.MoveDqs` | MemorySystem/transfer_quatus/hps_isw_handoff/soc_system_hps_0/sequencer.c:5311-5345 | DQS moves by half the smallest sum, kept in range, on the read side and not at all on the write side; the DQ shifts take up the rest |
| `Deskew.Centre` | MemorySystem/transfer_quatus/hps_isw_handoff/soc_system_hps_0/sequencer.c:5300-5443 | final DQS and DQ delays as functions of the edges, for the read side (DQS moves) and the write side (it stays); accepted exactly when no pin lies outside its edges |
| `Deskew.LeastMidIs` | MemorySystem/transfer_quatus/hps_isw_handoff/soc_system_hps_0/sequencer.c:5300-5309 | the smallest sum of an eye's two ends, which decides how far DQS moves |
| `Deskew.PlacedByEyes` | MemorySystem/transfer_quatus/hps_isw_handoff/soc_system_hps_0/sequencer.c:5300-5366 | with exact edges every register is a function of the eyes alone |
| `Deskew.PlacedInEyes` | MemorySystem/transfer_quatus/hps_isw_handoff/soc_system_hps_0/sequencer.c:5300-5443 | with these registers every pin is inside its eye and centred to within one tap unless its chain ended; all pins lie within their edges if and only if the chains reach every eye |
| `Deskew.NothingSpentNeedlessly` | MemorySystem/transfer_quatus/hps_isw_handoff/soc_system_hps_0/sequencer.c:5321-5365 | read side: DQS ends at delay zero or some pin needs no DQ delay |
| `Deskew.RegistersWithinLimits` | MemorySystem/transfer_quatus/hps_isw_handoff/soc_system_hps_0/sequencer.c:5320-5366 | every register follows the eyes without leaving its tap limits |
| `Deskew.RegistersInFull` | MemorySystem/transfer_quatus/hps_isw_handoff/soc_system_hps_0/sequencer.c:5300-5366 | the final registers in integer arithmetic over the eyes: the DQS move, its clamping, each DQ delay and its clamping, on both sides |
| `Deskew.Verdict` | MemorySystem/transfer_quatus/hps_isw_handoff/soc_system_hps_0/sequencer.c:5443 | what the two margins say about the eyes: accepted if and only if the chains reach every eye, and then every bit passes at its final position |
| `Deskew.CentreGroup` | MemorySystem/transfer_quatus/hps_isw_handoff/soc_system_hps_0/sequencer.c:5094-5443 | the whole routine, from the eyes known before it: with an eye for every bit each register has the value the eyes give, and the group is accepted if and only if the chains reach every eye from where the least sum of eye ends puts DQS; then every pin lies inside its own eye, passes, and is centred to within one tap unless its chain ended. With a bit without an eye it is rejected |
| `Deskew.ReadSideRejects` | MemorySystem/transfer_quatus/hps_isw_handoff/soc_system_hps_0/sequencer.c:5321-5443 | limits 31 and 31: bits that pass only at -20 and only at 31 both have an eye, DQS moves to 20, and the second is out of reach |
| `Deskew.WriteSideRejects` | MemorySystem/transfer_quatus/hps_isw_handoff/soc_system_hps_0/sequencer.c:7451-7478 | a bit that passes only at -1 has an eye that the write side cannot reach |
| `DmWindow.HitKeeps` | MemorySystem/transfer_quatus/hps_isw_handoff/soc_system_hps_0/sequencer.c:7663-7675 | a passing position extends the current window; the best one stays the leftmost longest so far |
| `DmWindow.MissKeeps` | MemorySystem/transfer_quatus/hps_isw_handoff/soc_system_hps_0/sequencer.c:7676-7680 | a failing position ends the current window |
| `DmWindow.HitAt` | MemorySystem/transfer_quatus/hps_isw_handoff/soc_system_hps_0/sequencer.c:7685-7717 | trying position 0 a second time changes nothing |
| `DmWindow.NothingLongerFollows` | MemorySystem/transfer_quatus/hps_isw_handoff/soc_system_hps_0/sequencer.c:7724-7727 | the early exit is right: no longer run can still come |
| `DmWindow.SweepDm` | MemorySystem/transfer_quatus/hps_isw_handoff/soc_system_hps_0/sequencer.c:7656-7693 | the down-sweep and the carry-over at delay 0 |
| `DmWindow.TryDqs` | MemorySystem/transfer_quatus/hps_isw_handoff/soc_system_hps_0/sequencer.c:7699-7723 | one step of the up-sweep |
| `DmWindow.SweepDqs` | MemorySystem/transfer_quatus/hps_isw_handoff/soc_system_hps_0/sequencer.c:7695-7730 | up-sweep with early exit: the best window of all positions |
| `DmWindow.LongestIsUnique` | MemorySystem/transfer_quatus/hps_isw_handoff/soc_system_hps_0/sequencer.c:7663-7680 | there is at most one leftmost longest run |
| `DmWindow.CanCentreIs` | MemorySystem/transfer_quatus/hps_isw_handoff/soc_system_hps_0/sequencer.c:7732-7767 | the window found decides whether the leftmost longest run begins at or before position 0 |
| `DmWindow.FoundInSkews` | MemorySystem/transfer_quatus/hps_isw_handoff/soc_system_hps_0/sequencer.c:7656-7730 | the window is the longest, and of several the first, run of passing skews from start - max to max, which are those that the registers can set |
| `DmWindow.CentreMask` | MemorySystem/transfer_quatus/hps_isw_handoff/soc_system_hps_0/sequencer.c:7645-7767 | for every oracle the window reported is the leftmost longest run of passing skews that the registers can set and win_best its length; dm_margin >= 0 if and only if that run exists and does not begin beyond position 0, and then the DM delay programmed lies inside it and passes; the delay is the middle, rounded down, unless that lies beyond position 0, and dm_margin its distance from the left edge |
| `DmWindow.BeyondIsRejected` | MemorySystem/transfer_quatus/hps_isw_handoff/soc_system_hps_0/sequencer.c:7732-7767 | a mask pin that passes only at position 1: its window is found and rejected |
| `DqsEnable.Phy.WritePhase` | MemorySystem/transfer_quatus/hps_isw_handoff/soc_system_hps_0/sequencer.c:4071-4075 | the run stays safe exactly when the phase written is in 1..max |
| `DqsEnable.Phy.WriteDelay` | MemorySystem/transfer_quatus/hps_isw_handoff/soc_system_hps_0/sequencer.c:4070 | the run stays safe exactly when the delay written is in 0..max |
| `DqsEnable.Phy.Incr` | MemorySystem/transfer_quatus/hps_isw_handoff/soc_system_hps_0/sequencer.c:3874-3905 | one VFIFO step on |
| `DqsEnable.Phy.Decr` | MemorySystem/transfer_quatus/hps_isw_handoff/soc_system_hps_0/sequencer.c:3922-3929 | one step back is VFIFO_SIZE - 1 steps on |
| `DqsEnable.Phy.Read` | MemorySystem/transfer_quatus/hps_isw_handoff/soc_system_hps_0/sequencer.c:4124 | one read test: the next answer of an arbitrary stream, at the VFIFO step, phase and delay that are set |
| `DqsEnable.Phy.DtapsPerPtap` | MemorySystem/transfer_quatus/hps_isw_handoff/soc_system_hps_0/sequencer.c:4079-4089 | one less than the delay taps that cover a phase tap |
| `DqsEnable.Phy.PushToFailing` | MemorySystem/transfer_quatus/hps_isw_handoff/soc_system_hps_0/sequencer.c:4120-4141 | stops at exactly the second failing answer, or fails after VFIFO_SIZE reads |
| `DqsSpec.SettingIndex` | MemorySystem/transfer_quatus/hps_isw_handoff/soc_system_hps_0/sequencer.c:4145-4181 | the n-th setting in the order of step 2 is phase tap, VFIFO step and delay tap of n in mixed radix |
| `DqsSpec.TapIndex` | MemorySystem/transfer_quatus/hps_isw_handoff/soc_system_hps_0/sequencer.c:4333-4371 | the n-th usable tap in the order of step 4a is n phase taps on, tap 0 of each VFIFO step not counted |
| `DqsEnable.Phy.FindWorking` | MemorySystem/transfer_quatus/hps_isw_handoff/soc_system_hps_0/sequencer.c:4145-4192 | the first passing setting in order of delay tap, VFIFO step and phase tap from 1 on; read k is made at the k-th setting of that order, every earlier one failed; work_bgn is its delay |
| `DqsEnable.Phy.TryVfifo` | MemorySystem/transfer_quatus/hps_isw_handoff/soc_system_hps_0/sequencer.c:4153-4181 | the middle loop of step 2 |
| `DqsEnable.Phy.TryPhases` | MemorySystem/transfer_quatus/hps_isw_handoff/soc_system_hps_0/sequencer.c:4154-4171 | the inner loop of step 2: tap 0 is skipped but its delay counted |
| `DqsEnable.Phy.RefineBegin` | MemorySystem/transfer_quatus/hps_isw_handoff/soc_system_hps_0/sequencer.c:4199-4318 | step 3a: the beginning moves to the first delay tap after backing off that passes, if one does before the phase tap is covered; everything is restored from tap 2 on, and lands one phase tap too far from tap 1 |
| `DqsEnable.Phy.EndPhases` | MemorySystem/transfer_quatus/hps_isw_handoff/soc_system_hps_0/sequencer.c:4334-4360 | the inner loop of step 4a: all answers pass but the last; a first one that fails moves the beginning, and only that |
| `DqsEnable.Phy.EndRound` | MemorySystem/transfer_quatus/hps_isw_handoff/soc_system_hps_0/sequencer.c:4333-4371 | one round of step 4a: work_end moves with the setting, across the turn to tap 0 of the next VFIFO step too |
| `DqsEnable.Phy.FindEnd` | MemorySystem/transfer_quatus/hps_isw_handoff/soc_system_hps_0/sequencer.c:4320-4377 | step 4a: k VFIFO steps and p phase taps on, work_end has grown by exactly their delay and the reads are exactly the usable settings passed; without a failing edge all rounds were read |
| `DqsEnable.Phy.BackOffEnd` | MemorySystem/transfer_quatus/hps_isw_handoff/soc_system_hps_0/sequencer.c:4379-4398 | step 5a: back one phase tap, past tap 0, with no subtraction below zero, going round the VFIFO when needed |
| `DqsEnable.Phy.FindFailingDtap` | MemorySystem/transfer_quatus/hps_isw_handoff/soc_system_hps_0/sequencer.c:4427-4441 | step 5: passes up to the failing tap or the end of the chain; work_end is the last passing one |
| `DqsEnable.Phy.SweepDelay` | MemorySystem/transfer_quatus/hps_isw_handoff/soc_system_hps_0/sequencer.c:4498-4527 | delay taps up to the first answer wanted, or to the end of the chain |
| `DqsEnable.Phy.MeasureDtaps` | MemorySystem/transfer_quatus/hps_isw_handoff/soc_system_hps_0/sequencer.c:4473-4547 | tracking: the measured taps per phase tap are all reads before a pass-to-fail edge, fails before the first pass included, when the chain has an edge, and the computed value otherwise; never above the maximum |
| `DqsEnable.Phy.FindPhaseEnd` | MemorySystem/transfer_quatus/hps_isw_handoff/soc_system_hps_0/sequencer.c:4320-4401 | steps 4a and 5a: the end of the window in phase taps, or all rounds passed |
| `DqsEnable.Phy.FindPhaseWindow` | MemorySystem/transfer_quatus/hps_isw_handoff/soc_system_hps_0/sequencer.c:4198-4401 | steps 3a to 5a: beginning and end of the window in phase taps as the answers determine them |
| `DqsEnable.Phy.FindEdges` | MemorySystem/transfer_quatus/hps_isw_handoff/soc_system_hps_0/sequencer.c:4196-4441 | steps 3 to 5: no subtraction goes below zero, and both edges are those of the window that the answers determine |
| `DqsEnable.Phy.FindWindow` | MemorySystem/transfer_quatus/hps_isw_handoff/soc_system_hps_0/sequencer.c:4145-4441 | steps 2 to 5: the window around the first setting that passes, or the reason why there is none |
| `DqsEnable.Phy.Start` | MemorySystem/transfer_quatus/hps_isw_handoff/soc_system_hps_0/sequencer.c:4070-4141 | steps 0 and 1: two fails found and the VFIFO at the second, or a round with at most one fail |
| `DqsEnable.Phy.SearchWindow` | MemorySystem/transfer_quatus/hps_isw_handoff/soc_system_hps_0/sequencer.c:4070-4441 | steps 0 to 5 on any stream of answers, and where each read was made |
| `DqsEnable.Phy.VfifoDelay` | MemorySystem/transfer_quatus/hps_isw_handoff/soc_system_hps_0/sequencer.c:4557 | one VFIFO step is all phase taps, tap 0 included |
| `DqsEnable.Phy.Reduce` | MemorySystem/transfer_quatus/hps_isw_handoff/soc_system_hps_0/sequencer.c:4559 | the middle modulo one VFIFO step, in 1..step |
| `DqsEnable.Phy.PickPhase` | MemorySystem/transfer_quatus/hps_isw_handoff/soc_system_hps_0/sequencer.c:4561-4563 | phase taps strictly below the target, at most one short of it |
| `DqsEnable.Phy.PickDelay` | MemorySystem/transfer_quatus/hps_isw_handoff/soc_system_hps_0/sequencer.c:4565 | delay taps for the rest: the first total not below the target, less than one tap above it, if the chain reaches; one past the end if and only if it does not |
| `DqsEnable.Phy.Place` | MemorySystem/transfer_quatus/hps_isw_handoff/soc_system_hps_0/sequencer.c:4561-4578 | phase and delay taps whose total lies in [m, m + one delay tap), but for the snap to phase 1, delay 0 when m is within one phase tap |
| `DqsEnable.Phy.Centre` | MemorySystem/transfer_quatus/hps_isw_handoff/soc_system_hps_0/sequencer.c:4549-4580 | step 6 for every window: the middle reduced by whole VFIFO steps is placed, and the delay programmed is legal if and only if the chain reaches it |
| `DqsEnable.Phy.PushToPassing` | MemorySystem/transfer_quatus/hps_isw_handoff/soc_system_hps_0/sequencer.c:4582-4598 | VFIFO steps up to the first passing read, once round at most |
| `DqsEnable.Phy.Settle` | MemorySystem/transfer_quatus/hps_isw_handoff/soc_system_hps_0/sequencer.c:4473-4598 | tracking, step 6 and the last push together |
| `DqsEnable.Phy.CentreWindow` | MemorySystem/transfer_quatus/hps_isw_handoff/soc_system_hps_0/sequencer.c:4463-4616 | what follows the window: a success or a failure that the answers explain, with the places of its reads |
| `DqsSpec.NeverEmpty` | MemorySystem/transfer_quatus/hps_isw_handoff/soc_system_hps_0/sequencer.c:4463-4469 | without delay taps work_end never falls below work_bgn, whatever the answers: the check is then never taken |
| `DqsSpec.EmptyWhenFailing` | MemorySystem/transfer_quatus/hps_isw_handoff/soc_system_hps_0/sequencer.c:4427-4469 | with delay taps it is taken exactly when the first setting fails on being read again |
| `DqsSpec.FitsExactly` | MemorySystem/transfer_quatus/hps_isw_handoff/soc_system_hps_0/sequencer.c:4565 | step 6 programs only legal delays for all targets if and only if the delay chain spans a phase tap |
| `DqsEnable.Phy.FindDqsEnPhase` | MemorySystem/transfer_quatus/hps_isw_handoff/soc_system_hps_0/sequencer.c:4043-4616 | for every stream of answers the run ends, programs only legal phases and delays and never subtracts below zero; success means the last event was a passing read at the final setting and the answers explain window, middle, VFIFO step, registers and measured taps; failure means they leave no window, an empty one, or no pass at its middle; every read, successful run or not, was made at the VFIFO step, phase and delay that the order of the steps says |
| `DqsInFull.OneLessInFull` | MemorySystem/transfer_quatus/hps_isw_handoff/soc_system_hps_0/sequencer.c:4079-4089 | the computed taps per phase tap are (phase tap - 1) divided by a delay tap, rounded down |
| `DqsInFull.ReducedInFull` | MemorySystem/transfer_quatus/hps_isw_handoff/soc_system_hps_0/sequencer.c:4559 | the reduced middle m is (mid - 1) modulo one VFIFO step, plus 1 |
| `DqsInFull.PlacedInFull` | MemorySystem/transfer_quatus/hps_isw_handoff/soc_system_hps_0/sequencer.c:4561-4578 | the phase is (m - 1) divided by a phase tap, rounded down, the delay the rest divided by a delay tap, rounded up; phase 1 and delay 0 within one phase tap |
| `DqsInFull.StartInFull` | MemorySystem/transfer_quatus/hps_isw_handoff/soc_system_hps_0/sequencer.c:4120-4141 | step 1 in terms of reads: phase tap 1 of one VFIFO step after the other, and exactly the last and one other fail |
| `DqsInFull.FirstInFull` | MemorySystem/transfer_quatus/hps_isw_handoff/soc_system_hps_0/sequencer.c:4145-4192 | step 2 in terms of reads: it goes on from the last of these, all fail but the last, and that is made at the first setting |
| `DqsInFull.WorkInFull` | MemorySystem/transfer_quatus/hps_isw_handoff/soc_system_hps_0/sequencer.c:4145-4192 | work_bgn is the total delay at which the first pass was read |
| `DqsInFull.BeginInFull` | MemorySystem/transfer_quatus/hps_isw_handoff/soc_system_hps_0/sequencer.c:4199-4318 | step 3a in terms of reads: one phase tap before, in delay taps from 0 on; the beginning recorded is the total delay of its pass, or else of the first setting |
| `DqsInFull.EndInFull` | MemorySystem/transfer_quatus/hps_isw_handoff/soc_system_hps_0/sequencer.c:4320-4441 | steps 4a to 5: the end recorded is the total delay of the last read of step 5 that passed, but for a round of the VFIFO and for the phase tap restored too far |
| `DqsInFull.DelayEndInFull` | MemorySystem/transfer_quatus/hps_isw_handoff/soc_system_hps_0/sequencer.c:4403-4441 | with delay taps the window is as long as the total delays of its first and last passing reads are apart |
| `DqsInFull.ExhaustedInFull` | MemorySystem/transfer_quatus/hps_isw_handoff/soc_system_hps_0/sequencer.c:4333-4377 | without an edge step 4a reads every usable tap after the one it starts from, up to VFIFO step VFIFO_SIZE counted from where step 2 started, and of one step more when it starts from the last tap of a step; only its very first read may fail |
| `DqsInFull.TrackingInFull` | MemorySystem/transfer_quatus/hps_isw_handoff/soc_system_hps_0/sequencer.c:4473-4547 | tracking in terms of reads: when it saw a pass and then a fail, the measure times a delay tap is the difference in total delay between its first read and the failing one; otherwise it read to the end of the chain and the measure is the computed one |
| `DqsInFull.PushInFull` | MemorySystem/transfer_quatus/hps_isw_handoff/soc_system_hps_0/sequencer.c:4582-4598 | the last push reads the final phase and delay in VFIFO steps, at most once round; all fail but for the last of a success, made at the final VFIFO step |
| `DqsTracking.TrackingMeasuresPhaseTap` | MemorySystem/transfer_quatus/hps_isw_handoff/soc_system_hps_0/sequencer.c:4473-4547 | steady hardware with wide gaps: when tracking saw an edge, its measure times a delay tap is the phase tap by which it backed off, two past tap 0, to within a delay tap |
| `DqsThin.RunThin` | MemorySystem/transfer_quatus/hps_isw_handoff/soc_system_hps_0/sequencer.c:4473-4547 | taps of this build, an eye of 100 ps: the first setting has four delay taps, tracking fails nine times before it passes, and measures 13 where the computed value is 12 |
| `DqsOutcome.WindowIsDetermined` | MemorySystem/transfer_quatus/hps_isw_handoff/soc_system_hps_0/sequencer.c:4196-4441 | the answers after the first passing setting leave one window |
| `DqsOutcome.FirstIsDetermined` | MemorySystem/transfer_quatus/hps_isw_handoff/soc_system_hps_0/sequencer.c:4145-4192 | and one first passing setting |
| `DqsOutcome.TrackingIsDetermined` | MemorySystem/transfer_quatus/hps_isw_handoff/soc_system_hps_0/sequencer.c:4473-4547 | and one measure of delay taps per phase tap |
| `DqsOutcome.PlaceIsDetermined` | MemorySystem/transfer_quatus/hps_isw_handoff/soc_system_hps_0/sequencer.c:4561-4580 | a middle has one phase and one delay |
| `DqsOutcome.RegistersAreDetermined` | MemorySystem/transfer_quatus/hps_isw_handoff/soc_system_hps_0/sequencer.c:4043-4616 | two successful runs on the same answers from the same VFIFO step made the same number of reads and end with the same measured taps, VFIFO step, phase and delay |
| `DqsOutcome.WindowExcludesNoWindow` | MemorySystem/transfer_quatus/hps_isw_handoff/soc_system_hps_0/sequencer.c:4120-4377 | answers that have a window give steps 1 to 5 no reason to give up |
| `DqsOutcome.VerdictIsDetermined` | MemorySystem/transfer_quatus/hps_isw_handoff/soc_system_hps_0/sequencer.c:4043-4616 | no stream of answers explains both a success and a failure, so the search succeeds if and only if the answers explain a success |
| `DqsOutcome.OutcomeIsDetermined` | MemorySystem/transfer_quatus/hps_isw_handoff/soc_system_hps_0/sequencer.c:4043-4616 | a search whose answers explain one success ends in exactly that success |
| `DqsOutcome.SuccessReads` | MemorySystem/transfer_quatus/hps_isw_handoff/soc_system_hps_0/sequencer.c:4043-4616 | and made each of its reads where that success says |
| `DqsOutcome.FailureIsDetermined` | MemorySystem/transfer_quatus/hps_isw_handoff/soc_system_hps_0/sequencer.c:4463-4616 | answers that explain a failure at the middle of a window leave no other failure, registers or number of reads |
| `DqsOutcome.FailureReads` | MemorySystem/transfer_quatus/hps_isw_handoff/soc_system_hps_0/sequencer.c:4043-4616 | nor other places of the reads |
| `DqsEye.FirstEdge` | MemorySystem/transfer_quatus/hps_isw_handoff/soc_system_hps_0/sequencer.c:4120-4192 | steady hardware: step 2 stops at a pass whose preceding setting failed, never at the setting it starts from |
| `DqsEye.BeginsAtEdge` | MemorySystem/transfer_quatus/hps_isw_handoff/soc_system_hps_0/sequencer.c:4199-4318 | step 3a: the beginning passes and less than a delay tap before it is a fail |
| `DqsEye.EndsAtEdge` | MemorySystem/transfer_quatus/hps_isw_handoff/soc_system_hps_0/sequencer.c:4320-4441 | steps 4a to 5: the end passes, everything between first setting and end passes, and a tap past the end is a fail |
| `DqsEye.EndsOutside` | MemorySystem/transfer_quatus/hps_isw_handoff/soc_system_hps_0/sequencer.c:4334-4441 | when the first tap of step 4a fails, step 5 starts and stays there, outside the eye |
| `DqsEye.DelayWindow` | MemorySystem/transfer_quatus/hps_isw_handoff/soc_system_hps_0/sequencer.c:4403-4441 | the same two edges when step 2 needed delay taps |
| `DqsEye.MovedIsNarrow` | MemorySystem/transfer_quatus/hps_isw_handoff/soc_system_hps_0/sequencer.c:4334-4360 | work_bgn is moved if and only if the usable tap after the first setting lies in the same VFIFO step and is outside the eye |
| `DqsEye.WindowIsTheEye` | MemorySystem/transfer_quatus/hps_isw_handoff/soc_system_hps_0/sequencer.c:4120-4441 | steady hardware: if the tap that step 4a tries first is in the same VFIFO step and fails, the window recorded is that one delay, outside the eye; otherwise all of it passes and a tap before and a tap after it there is a fail, counting a phase tap more when it begins at tap 1 |
| `DqsAim.AimIsDetermined` | MemorySystem/transfer_quatus/hps_isw_handoff/soc_system_hps_0/sequencer.c:4120-4560 | an eye alone settles where step 2 starts, the first setting, the window and its middle |
| `DqsAim.RunStartsAtEye` | MemorySystem/transfer_quatus/hps_isw_handoff/soc_system_hps_0/sequencer.c:4120-4192 | steady hardware: step 1 stops at the second failing VFIFO step, and step 2 at the first setting, in its order, whose delay is in the eye |
| `DqsAim.RunAims` | MemorySystem/transfer_quatus/hps_isw_handoff/soc_system_hps_0/sequencer.c:4120-4560 | every run on steady hardware that finds a window has the start, first setting, window and middle that the eye settles |
| `DqsVerdict.EndIsThere` | MemorySystem/transfer_quatus/hps_isw_handoff/soc_system_hps_0/sequencer.c:4320-4377 | step 4a always finds a failing edge: its extra round brings it back to the VFIFO step at which step 1 saw its second fail |
| `DqsVerdict.TapFailed` | MemorySystem/transfer_quatus/hps_isw_handoff/soc_system_hps_0/sequencer.c:4145-4192 | step 2 gives up only when every setting it may try, in any VFIFO step, is outside the eye |
| `DqsVerdict.HasAWindow` | MemorySystem/transfer_quatus/hps_isw_handoff/soc_system_hps_0/sequencer.c:4120-4441 | with two failing VFIFO steps and a setting that may be tried and passes, steps 1 to 5 find a window |
| `DqsVerdict.SteadyNotEmpty` | MemorySystem/transfer_quatus/hps_isw_handoff/soc_system_hps_0/sequencer.c:4463-4469 | on steady hardware the check for an empty window is never taken |
| `DqsVerdict.PushMisses` | MemorySystem/transfer_quatus/hps_isw_handoff/soc_system_hps_0/sequencer.c:4582-4598 | the last push fails only when the final phase and delay pass in no VFIFO step |
| `DqsVerdict.AimsNeed` | MemorySystem/transfer_quatus/hps_isw_handoff/soc_system_hps_0/sequencer.c:4120-4192 | an eye with an aim has two failing VFIFO steps and a setting that may be tried and passes |
| `DqsVerdict.AimHasWindow` | MemorySystem/transfer_quatus/hps_isw_handoff/soc_system_hps_0/sequencer.c:4120-4441 | and gives steps 1 to 5 no reason to give up |
| `DqsVerdict.SteadyVerdict` | MemorySystem/transfer_quatus/hps_isw_handoff/soc_system_hps_0/sequencer.c:4043-4616 | steady hardware, any eye that repeats with the VFIFO, any tap sizes: the search reports success if and only if the middle of the window that the eye settles passes, at the phase and delay for it, in some VFIFO step; it then ends at such a setting |
| `DqsVerdict.AimExists` | MemorySystem/transfer_quatus/hps_isw_handoff/soc_system_hps_0/sequencer.c:4120-4441 | the eye settles a window if and only if two VFIFO steps fail at phase tap 1 and some setting that step 2 may try passes; the run then has that window |
| `DqsRoomy.OpenMiddlePasses` | MemorySystem/transfer_quatus/hps_isw_handoff/soc_system_hps_0/sequencer.c:4549-4598 | some VFIFO step brings the middle of an open window back |
| `DqsRoomy.RoomyVerdict` | MemorySystem/transfer_quatus/hps_isw_handoff/soc_system_hps_0/sequencer.c:4043-4616 | corollary: when passes come in stretches of six phase taps and fails of four, the search succeeds if and only if two VFIFO steps fail and any setting passes, and its window is the eye to within a tap at either end |
| `DqsRoomy.AimIsTheEye` | MemorySystem/transfer_quatus/hps_isw_handoff/soc_system_hps_0/sequencer.c:4120-4441 | what is recorded for an eye, and whether it is missed, in terms of the eye's own start and first setting |
| `DqsRoomy.RegistersAreCentred` | MemorySystem/transfer_quatus/hps_isw_handoff/soc_system_hps_0/sequencer.c:4549-4580 | the final phase and delay lie in the middle of the open window, with margins that differ by at most two delay taps, or two phase taps for a middle within phase tap 0, but half a phase tap low when the first setting is at phase tap 1 |
| `DqsRun.Decide` | MemorySystem/transfer_quatus/hps_isw_handoff/soc_system_hps_0/sequencer.c:4043-4616 | the program itself: on any hardware whose reads turn out steady, with any eye, it succeeds if and only if the eye's middle passes somewhere, and ends in the eye |
| `DqsRun.EyeIsRoomy` | MemorySystem/transfer_quatus/hps_isw_handoff/soc_system_hps_0/sequencer.c:4043-4616 | an eye of 2800 ps is roomy at the tap sizes of this build |
| `DqsRun.Run` | MemorySystem/transfer_quatus/hps_isw_handoff/soc_system_hps_0/sequencer.c:4043-4616 | taps of this build: a run whose reads are those of that eye, read for read, takes 462 to 3245 ps for it and ends at VFIFO step 17, phase 5, delay 12 after 55 reads, with 12 delay taps measured |
| `DqsNarrow.SlitIsNarrow` | MemorySystem/transfer_quatus/hps_isw_handoff/soc_system_hps_0/sequencer.c:4334-4341 | an eye of 300 ps around phase tap 2 repeats, has wide gaps, two failing VFIFO steps and a passing setting, but lacks room |
| `DqsNarrow.Miss` | MemorySystem/transfer_quatus/hps_isw_handoff/soc_system_hps_0/sequencer.c:4043-4616 | a run whose reads are those of that eye fails: the tap after the first setting is outside, the window recorded is the single delay 936 ps, and its middle passes in no VFIFO step |
| `DqsLate.LateEyeIsRoomy` | MemorySystem/transfer_quatus/hps_isw_handoff/soc_system_hps_0/sequencer.c:4043-4616 | an eye of 2800 ps that opens 100 ps past a VFIFO step is roomy too |
| `DqsLate.RunLate` | MemorySystem/transfer_quatus/hps_isw_handoff/soc_system_hps_0/sequencer.c:4199-4318 | a run whose reads are those of that eye finds its first setting at phase tap 1; step 3a restores phase tap 2, and the end recorded is one phase tap below that of the eye |
| `Mailbox.DeviceKeepsInv` | MemorySystem/transfer_quatus/hps_isw_handoff/soc_system_hps_0/tclrpt.c:613-636 | every single read or write of the device moves the exchange from one phase to the next or leaves it |
| `Mailbox.HostKeepsInv` | MemorySystem/transfer_quatus/hps_isw_handoff/soc_system_hps_0/tclrpt.c:656-673 | so does every single read or write of the host |
| `Mailbox.ExactlyOnce` | MemorySystem/transfer_quatus/hps_isw_handoff/soc_system_hps_0/tclrpt.c:648-1023 | in every interleaving no command is overwritten, every command is handled once and answered once, in order; a legal one is answered with RESPONSE_READY and any other with ILLEGAL_COMMAND |
| `Mailbox.HandledSoon` | MemorySystem/transfer_quatus/hps_isw_handoff/soc_system_hps_0/tclrpt.c:656-1023 | an outstanding command is handled within three steps of the device, whatever the host does in between |
| `Mailbox.AnsweredSoon` | MemorySystem/transfer_quatus/hps_isw_handoff/soc_system_hps_0/tclrpt.c:648-1023 | after one more step of the device its answer is written, and the host has it or receives it when it next looks, whatever happened in between |
| `Mailbox.SwappedOrderOverwrites` | MemorySystem/transfer_quatus/hps_isw_handoff/soc_system_hps_0/tclrpt.c:615-621 | with READY written first, a host that issues between the two writes loses its command |
| `Mailbox.OverwrittenIsNeverAnswered` | MemorySystem/transfer_quatus/hps_isw_handoff/soc_system_hps_0/tclrpt.c:615-621 | after that both sides wait for ever: no later interleaving handles or answers anything |
| `Mailbox.WaitMustComeFirst` | MemorySystem/transfer_quatus/hps_isw_handoff/soc_system_hps_0/tclrpt.c:613-622 | no interleaving overwrites a command if and only if WAIT is written before READY |
| `DelayLoop.IdleLoop1` | MemorySystem/transfer_quatus/hps_isw_handoff/soc_system_hps_0/sequencer.c:2030-2067 | a loop tested before the decrement runs once more than its counter |
| `DelayLoop.IdleLoop2` | MemorySystem/transfer_quatus/hps_isw_handoff/soc_system_hps_0/sequencer.c:2049-2079 | the nested loop runs the product |
| `DelayLoop.Counters` | MemorySystem/transfer_quatus/hps_isw_handoff/soc_system_hps_0/sequencer.c:2030-2047 | the counters fit their 8, 8 and 16 bits and cover the clocks with bounded excess |
| `DelayLoop.LoopInFull` | MemorySystem/transfer_quatus/hps_isw_handoff/soc_system_hps_0/sequencer.c:2028 | the AFI clocks are the memory clocks over the ratio, rounded up |
| `DelayLoop.DelayForMemClocks` | MemorySystem/transfer_quatus/hps_isw_handoff/soc_system_hps_0/sequencer.c:2019-2088 | with the clocks over the ratio rounded up: exact up to 256, less than 256 steps too long up to 65536, less than 65536 above |
| `DelayLoop.WaitsLongEnough` | MemorySystem/transfer_quatus/hps_isw_handoff/soc_system_hps_0/sequencer.c:2028 | the wait covers the clocks asked for if and only if the rounding up does not overflow 32 bits |
| `CalibrateAll.AnyRun` | MemorySystem/transfer_quatus/hps_isw_handoff/soc_system_hps_0/sequencer.c:9226-9232 | a group is run exactly when one of its bits in the mask is clear |
| `CalibrateAll.ReadStage` | MemorySystem/transfer_quatus/hps_isw_handoff/soc_system_hps_0/sequencer.c:9239-9253 | a read stage fails exactly when some read group of the write group does |
| `CalibrateAll.WriteStage` | MemorySystem/transfer_quatus/hps_isw_handoff/soc_system_hps_0/sequencer.c:9275-9301 | the write stage fails exactly when some shadow register set that is not skipped does, sweeping or not |
| `CalibrateAll.CalibrateGroup` | MemorySystem/transfer_quatus/hps_isw_handoff/soc_system_hps_0/sequencer.c:9239-9322 | a group fails exactly when one of its three stages does |
| `CalibrateAll.CalibrateGroups` | MemorySystem/transfer_quatus/hps_isw_handoff/soc_system_hps_0/sequencer.c:9206-9403 | which groups are attempted: all that are not skipped when sweeping, else those up to the first that fails |
| `CalibrateAll.CalibratesInFull` | MemorySystem/transfer_quatus/hps_isw_handoff/soc_system_hps_0/sequencer.c:9206-9416 | the verdict in terms of the stages: all read groups of write groups with a clear bit pass both read stages, these pass the write stage in every register set not skipped, and the LFIFO passes if no bit is set |
| `CalibrateAll.AttemptedInFull` | MemorySystem/transfer_quatus/hps_isw_handoff/soc_system_hps_0/sequencer.c:9226-9403 | the groups attempted are those with a clear bit, in order |
| `CalibrateAll.MemCalibrate` | MemorySystem/transfer_quatus/hps_isw_handoff/soc_system_hps_0/sequencer.c:9206-9416 | success if and only if every group not skipped passes all stages and, when none is skipped, the LFIFO does: the same verdict with and without sweeping on |

## Left out

- Agreement.SameFinalMemory: for traces that reuse an id while its operation is open, or whose RESOLVE records carry both fields or none, nothing is said; the two programs then resolve different operations.
- Deskew.CentreGroup: needs a test that answers the same every time and passes on one interval of positions per bit; noise during deskew is not modelled. It needs that the axis reaches no further down, by DQS, than up, by DQ (both chains have 31 taps), because otherwise a true right edge could equal the value that marks an edge as not seen.
- Deskew.CentreGroup: `test_bgn` is 0 on the read side, where the registers are indexed with `p` in one place and `i` in another (sequencer.c lines 5359-5362), which are then the same. The write side is called with 0, 8, 16 and 24 (lines 9208 and 9287), but indexes pins within the group by `i` throughout (lines 1749-1757 and 7469-7478), so that the value makes no difference there.
- DqsEnable.Phy.FindDqsEnPhase: the `work_*` counters are unbounded above; that they never go below zero is proved. `max_working_cnt` only feeds a report.
- DqsEnable.Phy.RefineBegin: the branch for phase tap 0 is left out, since step 2 never ends there in this build.
- DqsVerdict.SteadyVerdict: reads repeat after a round of the VFIFO. On noisy hardware nothing is said about where the true window lies.
- DqsVerdict.SteadyVerdict: of several VFIFO steps at which the final setting passes the first one from the tracking position on is taken, which need not be the one in the middle of the window.
- DqsVerdict.AimExists: at least two phase taps (this build has 7).
- DqsEye.WindowIsTheEye: at least three phase taps, a delay tap no longer than a phase tap, and no stretch of fails shorter than four phase taps, since reads a phase tap or two apart do not see a shorter one. `DqsAim.EyeWindow` says what is recorded without this.
- DqsTracking.TrackingMeasuresPhaseTap: the delay chain spans at most four phase taps (in this build two and a half), and step 5 ended with a pass and a fail. `DqsInFull.TrackingInFull` needs neither.
- Mailbox.ExactlyOnce: this build does not contain the loop: it is compiled only under `#if !HPS_HW` (tclrpt.c line 638), and `sequencer_defines.h` line 86 sets `HPS_HW` to 1. The host keeps to the protocol: it issues only on READY, never WAIT, ACK or SET_UPDATE_PARAMETERS, and acknowledges only an answer. What a command does, and the parameter words, are one predicate that says which commands are legal.
- CalibrateAll.MemCalibrate: each stage's answer is fixed beforehand and does not depend on the other groups; the skip mask is a sequence of bits instead of a shifted word; one calibration round, write levelling not run.
- DelayLoop.DelayForMemClocks: counts executions of the innermost instruction; delay loops skipped for simulation are not modelled.
- The reading loop and the report of the older program, which are those of v2 again, are not repeated.
- C integer width of the access counter: access numbers are unbounded, the programs overflow after 2^31 operations.
- File opening, argument parsing, printing and memory allocation: a file is a sequence of bytes, allocation succeeds, the sort is a parameter, any function that gives a sorted permutation.
- Ranks and shadow registers: one of each, as in this build; register addresses, update strobes and the recovery after a failing write test.
- The variant of the read deskew that uses the write test (`use_read_test` = 0) differs only in how the bits are cut out of the test result.
- Figures of merit and all reporting to the debug interface: written, never read by the algorithms.
- The retry loop around the searches and `error_stage`, which records failures of attempts that are later repeated.
- Other memory protocols, quick calibration variants, write levelling, mode registers, guaranteed-read patterns and LFIFO search.
- RTL, boot and probe tools, cache-eviction and TLB test programs, matrix multiplication: hardware access or outside the replay and calibration logic.
