# Proved behaviour of the cheatcode recorder, cast and anvil

A Dafny model of the stateful and algorithmic core of foundry-zksync (and of one generator script
of forge-std), with proofs over all inputs, all runs and all interleavings.

| file | models |
|---|---|
| `StateDiff.dfy` | the hooks that record state diffs, and the cheatcodes that read the record |
| `StateDiffRecords.dfy` | what the records and the reported diff say, field by field |
| `StateDiffLog.dfy` | the record as one flat log; it is append-only |
| `StateDiffRuns.dfy` | the recorder next to an EVM storage with checkpoints; when the diff is exact |
| `StateDiffChronology.dfy` | the record is the run, in order, with the right reverted flags |
| `Rlp.dfy`, `RlpText.dfy` | the RLP converter on bytes, and `from-rlp` / `to-rlp` on text |
| `BlockProduction.dfy` | the node service and its block producer |
| `LogDelivery.dfy` | `filter_logs`, log subscriptions and polling log filters |
| `Nonces.dfy` | nonces of broadcast transactions and EIP-7702 authorizations |
| `BroadcastQueue.dfy` | which calls and creates are queued, with what |
| `NonceReplay.dfy` | what becomes of the queue on chain |
| `ChunkedLogs.dfy` | `cast logs` in concurrent chunks |
| `Bases.dfy` | multi-base parsing and printing, `to_base`, `to_fixed_point` |
| `GroupHeaders.dfy` | the generator of `Vm.sol` inserting group headers |
| `Deals.dfy`, `GasSnapshots.dfy` | `deal` and its rollback, gas snapshots |
| `Common.dfy` | options, results and a little sequence arithmetic |

Objects whose methods change them are classes, and every method is proved against a function of
the old state; the theorems are about those functions, over whole runs.

## What does not hold, and exactly when it does

- The state diff is wrong after a frame that was already open when recording began changes a slot
  or reverts it, and after a frame that halts rather than reverts (`ExactThroughout`; runs:
  `StartingFrameWriteIsMissed`, `HaltedFrameWriteIsKept`).
- `to-rlp` does not undo `from-rlp` on items nested deeper than the JSON reader allows
  (`ToRlpUndoesFromRlp`; items: `NestedTooDeep`).
- A log subscription answers Pending with notifications unread behind a block missing from storage
  (`PendingExactly`; channel: `LostBlockStopsPolling`).
- The count of an account's nonces breaks when, with authorizations of it pending, a broadcast of
  its own begins or ends or a create of its own is queued (`OrderlyThroughout`; run:
  `CreateBreaksCount`).
- Even where the counts are kept, a queue is not accepted on chain when something of an account
  comes after an authorization of it carried by another sender, for which the simulation does not
  move the account's nonce: a transaction is then rejected (`QueueReplaysIff`; run:
  `OvertakenCallIsRejected`) or an authorization not taken (`AcceptedIffNoneLate`,
  `RunAcceptedIff`; run: `CarriedTwiceIsNotTaken`).
- `to_base` and `to_fixed_point` change negative numbers below -2^255 when they print decimal, and
  `to_base` from a base to itself leaves a text that may be read in another base
  (`ToBaseKeepsWordIff`, `FixedPointIsFaithfulIff`; texts: `MinimumLessOneIsChanged`,
  `SameBaseIsMisread`). An upper-case binary prefix is detected as hexadecimal digits
  (`UpperBinaryIsMisread`).
- The chunked log query leaves out block `to`, although its documentation speaks of the entire
  range; the model follows the code (`FallbackAgreesIff`; node: `LastBlockIsMissed`).
- A gas snapshot is also charged for what its frame spent since an earlier snapshot, whose last
  mark is never reset (`SectionIsExactIff`; runs: `NextSectionCountsTheGap`).
- The `retain` of a gas snapshot stop drops records that merely share a group or a name; it is
  harmless only because there is never more than one record (`RetainIsExactIff`,
  `StopEndsActiveOnly`). A stop given only a group or only a name ignores it.
- The create hook's comment says that the old balance is updated at the create's end
  (`inspector.rs:818`); the code does not do so, and neither does the model.

## Model

| member | source | states |
|---|---|---|
| `StateDiffRuns.ExactThroughout` | foundry-zksync/crates/cheatcodes/src/evm.rs:1632-1708 | over every run of calls, creates, reverts, halts and accesses from the start of recording: the folded pair of a slot equals (value at the start, value now), or is absent with the value unchanged, at every moment if and only if every step is benign; benign shuts out a change by a frame that was open before recording, and a halt that undoes a change |
| `StateDiffRuns.DiffIsNetEffect` | foundry-zksync/crates/cheatcodes/src/evm.rs:1545-1712 | on runs where the starting frame stays open and writes nothing itself and no frame halts, for any nesting of reverts: the reported diff applied to the storage at the start gives the current storage, its old values are the starting ones, and a slot it does not mention is unchanged |
| `StateDiffRuns.StepExact` | foundry-zksync/crates/cheatcodes/src/inspector.rs:2203-2232 | one step keeps an exact diff exact precisely when it is benign, and keeps what lies below every open recorded frame in account with that frame's checkpoint |
| `StateDiffRuns.ExactUpTo` | foundry-zksync/crates/cheatcodes/src/inspector.rs:1692-1734 | exactness is carried along any prefix of a run in which each step is benign or is seen to end exact |
| `StateDiffRuns.StartingFrameWriteIsMissed` | foundry-zksync/crates/cheatcodes/src/inspector.rs:2537-2538 | a concrete run whose diff is wrong: the frame that started recording writes a slot itself and the write goes unrecorded |
| `StateDiffRuns.HaltedFrameWriteIsKept` | foundry-zksync/crates/cheatcodes/src/inspector.rs:1699 | a run whose diff is wrong: a called frame writes a slot and halts, the EVM undoes the write, and the record of it is not flagged |
| `StateDiffRuns.AccessLog` | foundry-zksync/crates/cheatcodes/src/inspector.rs:2532-2577 | a load or store adds itself to the storage log exactly while a frame entered since recording began is running |
| `StateDiffRuns.ExitSettlesOwnRecord` | foundry-zksync/crates/cheatcodes/src/inspector.rs:1709-1722 | the end of a recorded frame fills the post-call balance and nonce (and deployed code, for a create) of the record of that frame's own entry and of no other record; the end of a frame open before recording fills none |
| `StateDiffRuns.ShapeStep` | foundry-zksync/crates/cheatcodes/src/inspector.rs:906-955 | every step keeps the stack well shaped: one vector per open recorded frame, each led by the record of its frame's entry at the right depth, over at most one vector of leftovers |
| `StateDiffRuns.RunShape` | foundry-zksync/crates/cheatcodes/src/inspector.rs:1692-1734 | every run from the start of recording ends in a well-shaped stack, which is non-empty exactly when a frame was entered or an account accessed |
| `StateDiffRuns.AccountsFlagged` | foundry-zksync/crates/cheatcodes/src/evm.rs:1644 | a log accounts for a slot whether or not flagged entries are appended to it |
| `StateDiffRuns.StepExactExit` | foundry-zksync/crates/cheatcodes/src/inspector.rs:1699-1707 | when a frame ends, the diff stays exact if and only if the outcome is one the flags match: success, a revert, or a halt that leaves the slot alone |
| `StateDiffChronology.RecordIsChronicle` | foundry-zksync/crates/cheatcodes/src/inspector.rs:1281-1335 | at every moment of every run the record, Resume headers aside, is the run itself: each entered frame, EXT* access and self-destruct and each storage access of a recorded frame, once, in order, flagged reverted if and only if a non-root frame that contains it ended in a revert |
| `StateDiffChronology.StorageAccessesAreChronological` | foundry-zksync/crates/cheatcodes/src/evm.rs:1009-1021 | the reported storage accesses are the loads and stores of all frames entered since recording began, chronologically, each flagged if and only if an enclosing frame reverted |
| `StateDiffChronology.AlwaysTiles` | foundry-zksync/crates/cheatcodes/src/inspector.rs:1308-1334 | on every run the vectors on the stack tile the chronicle: the vector of each open frame holds what happened since its entry up to the next open frame's entry |
| `StateDiffChronology.ChronicleSnoc` | foundry-zksync/crates/cheatcodes/src/inspector.rs:1699-1707 | one more event raises the flags of exactly the events it undoes |
| `StateDiffChronology.FoldTiles` | foundry-zksync/crates/cheatcodes/src/inspector.rs:1727-1731 | merging a popped vector into the one below, or keeping it as the bottom, keeps the tiling |
| `StateDiffChronology.StepParts` | foundry-zksync/crates/cheatcodes/src/inspector.rs:2286-2290 | seen as a row of visible logs, a hook opens a part, extends the last part, or folds it into the part below, flagged if the frame reverted |
| `StateDiffChronology.UndoneSnoc` | foundry-zksync/crates/cheatcodes/src/inspector.rs:1697-1707 | an event is undone by a run if and only if it was undone before the last event or the last event undoes it |
| `StateDiffLog.AppendOnly` | foundry-zksync/crates/cheatcodes/src/inspector.rs:2121-2294 | over every sequence of hooks, balanced or not, everything logged at any earlier point is still there, in place, with nothing changed but reverted flags raised: nothing is dropped, duplicated or reordered |
| `StateDiffLog.HookAppends` | foundry-zksync/crates/cheatcodes/src/inspector.rs:906-955 | each single hook leaves the old log in place up to raised flags and appends exactly the entries of its own event |
| `StateDiffLog.FrameEndAppends` | foundry-zksync/crates/cheatcodes/src/inspector.rs:1692-1734 | popping, flagging, settling and merging a frame adds nothing to the log and only raises flags in it |
| `StateDiffLog.StackLogFrameEnds` | foundry-zksync/crates/cheatcodes/src/inspector.rs:1699-1731 | the log after a frame's end is the log below followed by the frame's log, flagged throughout if it reverted |
| `StateDiffLog.StorageLogIsInLog` | foundry-zksync/crates/cheatcodes/src/evm.rs:1013-1017 | the list of storage accesses is the restriction of the log to its storage entries |
| `StateDiff.SlotDiffIsFirstAndLast` | foundry-zksync/crates/cheatcodes/src/evm.rs:1653-1694 | a slot's pair joins the value that the first surviving write replaced to the value that the last surviving write left |
| `StateDiff.NoLiveWrite` | foundry-zksync/crates/cheatcodes/src/evm.rs:1644 | without a surviving write a slot has no pair |
| `StateDiffRecords.ReportedSlot` | foundry-zksync/crates/cheatcodes/src/evm.rs:1643-1695 | from any map that reports the records: a slot has a pair exactly when a write to it survived, and then the value the first such write replaced and the value the last one left |
| `StateDiffRecords.ReportedBalance` | foundry-zksync/crates/cheatcodes/src/evm.rs:1590-1609 | from any map that reports the records: an account has a balance pair exactly when a record changed its balance, and then the balance before the first such record and after the last |
| `StateDiffRecords.ReportedNonce` | foundry-zksync/crates/cheatcodes/src/evm.rs:1611-1630 | the same of nonces |
| `StateDiffRecords.BalanceDiffIsFirstAndLast` | foundry-zksync/crates/cheatcodes/src/evm.rs:1600-1608 | the fold keeps the first old balance and the last new one |
| `StateDiffRecords.NonceDiffIsFirstAndLast` | foundry-zksync/crates/cheatcodes/src/evm.rs:1621-1629 | the fold keeps the first old nonce and the last new one |
| `StateDiffRecords.CallIsRecorded` | foundry-zksync/crates/cheatcodes/src/inspector.rs:1281-1335 | a call to any but two addresses opens a vector with one record: accessor the caller, account the one whose code runs, kind, value, data, depth, chain, and the target as it was found |
| `StateDiffRecords.CheatcodesAreSkipped` | foundry-zksync/crates/cheatcodes/src/inspector.rs:1035-1062 | calls to the cheatcode and console addresses leave the record alone, at start and end (1675-1677) |
| `StateDiffRecords.CreateIsRecorded` | foundry-zksync/crates/cheatcodes/src/inspector.rs:807-829 | a create opens a vector with one record: accessor the creator, account the new contract, nonces 0 and 1, no balances |
| `StateDiffRecords.ExtIsRecorded` | foundry-zksync/crates/cheatcodes/src/inspector.rs:2235-2291 | an EXT* access appends a record, or starts the stack with it, in which nothing of the account changes |
| `StateDiffRecords.DestructIsRecorded` | foundry-zksync/crates/cheatcodes/src/inspector.rs:2124-2170 | a self-destruct appends a record in which the beneficiary gains the value, in 256 bits; on an empty stack nothing |
| `StateDiffRecords.AccessIsRecorded` | foundry-zksync/crates/cheatcodes/src/inspector.rs:2532-2577 | what an access says and where it goes: into the sole record of the vector, the Resume record that ends it, or a new Resume record that names the frame of the vector; nowhere if the frame that runs has no vector |
| `StateDiffRecords.FrameEndIsRecorded` | foundry-zksync/crates/cheatcodes/src/inspector.rs:1692-1734 | what a frame's end makes of each record of its vector, field by field, and where the vector goes |
| `StateDiffRecords.RootEndIsSkipped` | foundry-zksync/crates/cheatcodes/src/inspector.rs:1693-1694 | the end of the root frame is not recorded (for creates 907-908) |
| `StateDiff.Cheatcodes.StartStateDiffRecording` | foundry-zksync/crates/cheatcodes/src/evm.rs:894-902 | recording starts from an empty stack, whatever was recorded before |
| `StateDiff.Cheatcodes.OnCall` | foundry-zksync/crates/cheatcodes/src/inspector.rs:1281-1335 | the stack grows by a vector of the callee's record, unless recording is off or the target is the cheatcode or console address (1035-1062) |
| `StateDiff.Cheatcodes.OnCreate` | foundry-zksync/crates/cheatcodes/src/inspector.rs:807-829 | the stack grows by a vector of the create's record |
| `StateDiff.Cheatcodes.OnCallEnd` | foundry-zksync/crates/cheatcodes/src/inspector.rs:1673-1734 | the new stack after a call's end; unchanged for cheatcode and console calls |
| `StateDiff.Cheatcodes.OnCreateEnd` | foundry-zksync/crates/cheatcodes/src/inspector.rs:904-955 | the new stack after a create's end, deployed code included |
| `StateDiff.Cheatcodes.EndFrame` | foundry-zksync/crates/cheatcodes/src/inspector.rs:1692-1734 | pop, flag, settle and merge together take the stack to what the specification of a frame's end says, also for a root frame, an empty stack and an empty vector |
| `StateDiff.Cheatcodes.MarkReverted` | foundry-zksync/crates/cheatcodes/src/inspector.rs:1699-1707 | every record of the vector and every storage access in it is flagged, and nothing else changes |
| `StateDiff.Cheatcodes.OnSload` | foundry-zksync/crates/cheatcodes/src/inspector.rs:2172-2202 | a load is offered to the top vector with the present value on both sides |
| `StateDiff.Cheatcodes.OnSstore` | foundry-zksync/crates/cheatcodes/src/inspector.rs:2203-2233 | a store is offered to the top vector with the value it replaces and the value it leaves |
| `StateDiff.Cheatcodes.AppendStorageAccess` | foundry-zksync/crates/cheatcodes/src/inspector.rs:2532-2577 | only the top vector changes, by the rule for own record, open Resume record and new Resume record |
| `StateDiff.Cheatcodes.OnExt` | foundry-zksync/crates/cheatcodes/src/inspector.rs:2235-2291 | the access is appended to the top vector, or starts the stack |
| `StateDiff.Cheatcodes.OnSelfDestruct` | foundry-zksync/crates/cheatcodes/src/inspector.rs:2124-2170 | the beneficiary's record is appended to the top vector, if there is one |
| `StateDiff.Cheatcodes.StopAndReturnStateDiff` | foundry-zksync/crates/cheatcodes/src/evm.rs:1516-1525 | hands out the flattened record and goes on recording from empty |
| `StateDiff.Cheatcodes.GetStorageAccesses` | foundry-zksync/crates/cheatcodes/src/evm.rs:1009-1021 | the accesses of all records, vector by vector |
| `StateDiff.Cheatcodes.GetRecordedStateDiffs` | foundry-zksync/crates/cheatcodes/src/evm.rs:1545-1712 | for every account and slot at once, the map built by the loops holds a pair exactly when the specification has one, and the same pair; likewise balances and nonces |
| `StateDiff.Cheatcodes.AddRecord` | foundry-zksync/crates/cheatcodes/src/evm.rs:1584-1709 | one record, filtered or not, moves the map from reporting a prefix of the records to reporting it with that record |
| `StateDiff.Cheatcodes.AddStorage` | foundry-zksync/crates/cheatcodes/src/evm.rs:1643-1708 | the surviving writes of one record are merged without overwriting an initial value, and balances and nonces are left alone |
| `Rlp.DecodeEncode` | foundry-zksync/crates/cast/src/rlp_converter.rs:17-46 | for every nested item with 64-bit lengths and every trailing byte string, decoding the encoding followed by the trailer gives back the item and exactly the trailer |
| `Rlp.EncodeDecode` | foundry-zksync/crates/cast/src/rlp_converter.rs:26-46 | when decoding succeeds, the bytes consumed are the encoding of the item, so the children of every list exactly tile its payload and no other encoding is accepted |
| `Rlp.DecodesIffEncoded` | foundry-zksync/crates/cast/src/rlp_converter.rs:142-147 | decoding yields an item and a remainder if and only if the input is that item's encoding followed by that remainder |
| `Rlp.PrefixFree` | foundry-zksync/crates/cast/src/rlp_converter.rs:17-24 | the encoding is injective and prefix-free |
| `Rlp.Format` | foundry-zksync/crates/cast/src/rlp_converter.rs:17-24 | the four forms of Appendix B of the Yellow Paper, byte by byte |
| `Rlp.Dog` | foundry-zksync/crates/cast/src/rlp_converter.rs:117 | a string and the list of it, which the tests name |
| `Rlp.Empties` | foundry-zksync/crates/cast/src/rlp_converter.rs:115-116 | the empty ones the tests name |
| `Rlp.TruncatedIsTooShort` | foundry-zksync/crates/cast/src/rlp_converter.rs:28-31 | an encoding cut short anywhere is refused as too short |
| `Rlp.RefusedForms` | foundry-zksync/crates/cast/src/rlp_converter.rs:28 | the non-canonical forms and what each is refused as |
| `Rlp.DecodeAllEncodeAll` | foundry-zksync/crates/cast/src/rlp_converter.rs:36-38 | a list payload decodes to the items it was made of |
| `Rlp.EncodeAllDecodeAll` | foundry-zksync/crates/cast/src/rlp_converter.rs:33-39 | a payload that decodes is the concatenation of its items' encodings |
| `Rlp.HeaderRoundTrip` | foundry-zksync/crates/cast/src/rlp_converter.rs:28 | a header in front of a long enough payload is read back and leaves the payload (Appendix B of the Yellow Paper) |
| `Rlp.HeaderCanonical` | foundry-zksync/crates/cast/src/rlp_converter.rs:28 | a header that is accepted is the one the encoder writes for it |
| `Rlp.BigEndianRoundTrip` | foundry-zksync/crates/cast/src/rlp_converter.rs:20 | a length written big-endian reads back and has no leading zero |
| `Rlp.FromBigEndianRoundTrip` | foundry-zksync/crates/cast/src/rlp_converter.rs:28 | big-endian bytes without a leading zero are the ones written for their value |
| `Rlp.Encode` | foundry-zksync/crates/cast/src/rlp_converter.rs:17-24 | the encoding has the length that the list headers announce |
| `Rlp.DecodeHeader` | foundry-zksync/crates/cast/src/rlp_converter.rs:28-31 | a header never announces more than is left, and consumes at least a byte unless the byte is its own payload |
| `Rlp.Decode` | foundry-zksync/crates/cast/src/rlp_converter.rs:27-45 | success always consumes at least one byte, which makes the loop over a payload end |
| `Rlp.Buffer.DecodeItem` | foundry-zksync/crates/cast/src/rlp_converter.rs:27-45 | the loop that pushes items and the buffer it advances compute the specified item, remainder or error |
| `RlpText.ToRlpUndoesFromRlp` | foundry-zksync/crates/cast/src/lib.rs:1513-1543 | printing a decoded item and reading the text back gives the very bytes decoded, except that it fails exactly on items nested deeper than the JSON reader allows |
| `RlpText.ToRlpOfRender` | foundry-zksync/crates/cast/src/lib.rs:1538-1543 | encoding the text an item prints encodes the item, or fails, under the exact nesting condition |
| `RlpText.NestedTooDeep` | foundry-zksync/crates/cast/src/lib.rs:1539-1540 | for every limit of the reader, a printed item that is refused |
| `RlpText.ParseRender` | foundry-zksync/crates/cast/src/rlp_converter.rs:75-92 | printed text in front of any tail reads back as the item's value and leaves the tail, if and only if the nesting is within the reader's limit |
| `RlpText.ValueRoundTrip` | foundry-zksync/crates/cast/src/rlp_converter.rs:49-65 | the JSON value an item prints as converts back to the item |
| `RlpText.ItemOfValue` | foundry-zksync/crates/cast/src/rlp_converter.rs:49-65 | what every JSON value converts to or is refused as: null, booleans, numbers, texts, arrays and objects |
| `RlpText.ToRlpOfHex` | foundry-zksync/crates/cast/src/lib.rs:1538-1543 | hex text that is not JSON is encoded as one string |
| `RlpText.ToRlpOfText` | foundry-zksync/crates/cast/src/lib.rs:1539-1541 | text that is neither JSON nor hex is refused |
| `RlpText.ToRlpOfLiterals` | foundry-zksync/crates/cast/src/lib.rs:1538-1543 | null, true and false |
| `RlpText.FromRlpIs` | foundry-zksync/crates/cast/src/lib.rs:1513-1523 | what text is answered, and what each failure is |
| `RlpText.RenderIs` | foundry-zksync/crates/cast/src/rlp_converter.rs:75-92 | items are printed without spaces |
| `RlpText.HexIsLowerCase` | foundry-zksync/crates/cast/src/rlp_converter.rs:78 | two lower-case digits a byte |
| `RlpText.HexPairsIff` | foundry-zksync/crates/cast/src/rlp_converter.rs:58 | hex text is an even number of digits of either case |
| `RlpText.HexDecodeEncode` | foundry-zksync/crates/cast/src/rlp_converter.rs:58 | hex text with or without the 0x prefix decodes to the bytes it was made from |
| `RlpText.HexRoundTrip` | foundry-zksync/crates/cast/src/rlp_converter.rs:78 | hex digits in pairs decode to the bytes they were made from |
| `RlpText.RenderElementsSnoc` | foundry-zksync/crates/cast/src/rlp_converter.rs:82-87 | the separator rule of the printing loop agrees with the recursive text of a list |
| `RlpText.Formatter.Display` | foundry-zksync/crates/cast/src/rlp_converter.rs:73-93 | the printing loop appends exactly the text of the item |
| `BlockProduction.AlwaysConsistent` | foundry-zksync/crates/anvil/src/service.rs:103-163 | in every reachable state, whatever the interleaving of batches and polls: exactly one of idle backend and block in progress exists; mined, in-flight and queued batches together are the batches handed over, once each and in order; block numbers are consecutive |
| `BlockProduction.ReachableIsConsistent` | foundry-zksync/crates/anvil/src/service.rs:67-101 | whatever polls of the service lead to from a new service is reachable and consistent |
| `BlockProduction.PollsMineTheBacklog` | foundry-zksync/crates/anvil/src/service.rs:74-78 | polled while its tasks finish, the producer mines the waiting batches one block a poll, first in first out, and the rest stays waiting |
| `BlockProduction.PollMinesNext` | foundry-zksync/crates/anvil/src/service.rs:123-163 | one poll with a finished task mines exactly the batch at the front of what waits |
| `BlockProduction.MineOneMore` | foundry-zksync/crates/anvil/src/service.rs:123-151 | one more such poll moves one more batch from what waits to what is mined |
| `BlockProduction.BlockProducer.PollNext` | foundry-zksync/crates/anvil/src/service.rs:123-163 | one poll is one step of the machine; Pending means that a backlog waits only behind a block in progress whose task has been polled; an outcome means one batch fewer waits |
| `BlockProduction.NodeService.DriveProducer` | foundry-zksync/crates/anvil/src/service.rs:74-78 | drives the producer through reachable states until it is settled, and to an empty backlog if all tasks finish |
| `BlockProduction.NodeService.Feed` | foundry-zksync/crates/anvil/src/service.rs:80-82 | the batch goes to the back of the backlog |
| `BlockProduction.NodeService.PollOnce` | foundry-zksync/crates/anvil/src/service.rs:67-100 | the nested loops take in every batch of the miner and return in a reachable, settled state: a non-empty backlog implies a block being mined that will wake the service |
| `LogDelivery.AlwaysOk` | foundry-zksync/crates/anvil/src/pubsub.rs:31-62 | under every interleaving of arrivals, closing and polls, delivered and queued logs together are the logs of the notifications read so far; the filter has delivered its historic logs once and then those of the notifications it has read |
| `LogDelivery.FilterAndSubscriptionAgree` | foundry-zksync/crates/anvil/src/filter.rs:172-182 | a filter that has just been polled has delivered its historic logs followed by what the subscription has delivered, has queued, and has yet to read |
| `LogDelivery.PollKeeps` | foundry-zksync/crates/anvil/src/pubsub.rs:31-62 | a poll loses, repeats and reorders nothing; it ends the stream only when the channel is closed and everything has been read and delivered |
| `LogDelivery.PendingExactly` | foundry-zksync/crates/anvil/src/pubsub.rs:41-60 | with nothing queued: when a poll answers Pending or ends, for every channel; it answers Pending with notifications unread exactly behind a block missing from storage |
| `LogDelivery.LostBlockStopsPolling` | foundry-zksync/crates/anvil/src/pubsub.rs:41-60 | a subscription that answers Pending behind a lost block, with a notification unread that leads to logs |
| `LogDelivery.DrainKeeps` | foundry-zksync/crates/anvil/src/filter.rs:172-182 | a poll of the filter brings its deliveries up to everything that has arrived |
| `LogDelivery.FilterLogsIsSound` | foundry-zksync/crates/anvil/src/pubsub.rs:151-198 | each returned log passes all four tests of the filter, is of the block by hash, number and timestamp, and stands in the block-wide list at a position that its log index gives in 32 bits, under the receipt and transaction it names |
| `LogDelivery.AllLogsInOrder` | foundry-zksync/crates/anvil/src/pubsub.rs:179-195 | the block-wide list is the receipts' logs one after the other |
| `LogDelivery.NotificationLeadsTo` | foundry-zksync/crates/anvil/src/pubsub.rs:42-45 | a notification leads to the filtered logs of the block and receipts stored under its hash, and to none if either is missing |
| `LogDelivery.FilterLogsKeepsOrder` | foundry-zksync/crates/anvil/src/pubsub.rs:178-196 | returned logs stand at strictly increasing positions; their indices increase strictly when the list is within 32 bits |
| `LogDelivery.FilterLogsIsComplete` | foundry-zksync/crates/anvil/src/pubsub.rs:181-194 | every matching log of the block is returned, from its own position |
| `LogDelivery.FilteredIsMatching` | foundry-zksync/crates/anvil/src/pubsub.rs:181-194 | the returned logs correspond one to one to the matching positions |
| `LogDelivery.FilterLogs` | foundry-zksync/crates/anvil/src/pubsub.rs:151-198 | the loops over receipts compute the specified list, for any receipts not outnumbering the transactions, with the wrap-around of the counter |
| `LogDelivery.FilterReceipt` | foundry-zksync/crates/anvil/src/pubsub.rs:181-195 | the inner loop extends the result and the counter by one receipt, matching or not |
| `LogDelivery.LogsSubscription.Poll` | foundry-zksync/crates/anvil/src/pubsub.rs:31-62 | the loop over queue and channel computes the specified answer and state |
| `LogDelivery.LogsFilter.Poll` | foundry-zksync/crates/anvil/src/filter.rs:172-182 | hands out the historic logs once and then the logs of every unread notification, emptying the channel |
| `Nonces.OrderlyThroughout` | foundry-zksync/crates/cheatcodes/src/script.rs:163-220 | for every account, over every run of broadcasts begun, stopped and ended by a single call, of attach, sign, blob, call and create steps: the account's count is kept at every moment if and only if every step is benign; a step is not when, with authorizations of the account pending, a broadcast of its own begins or ends or a create of its own is queued |
| `Nonces.QueueIsConsecutive` | foundry-zksync/crates/cheatcodes/src/inspector.rs:1192-1263 | on runs benign to an account: its queued nonces, each followed by the nonces of its own authorizations carried, count up from its starting nonce without gap; so do its pending authorizations |
| `BroadcastQueue.QueueIsWhatQualified` | foundry-zksync/crates/cheatcodes/src/inspector.rs:1192-1263 | over every run, the queue grows by exactly the calls and creates that qualify, in order |
| `BroadcastQueue.CallIsQueuedIff` | foundry-zksync/crates/cheatcodes/src/inspector.rs:1192-1263 | a call is queued exactly when a broadcast is active, depth and caller are the broadcast's, it is not static, and there is no blob beside authorizations; it then goes from the origin to the target, at the origin's nonce, with all the pending work |
| `BroadcastQueue.OtherCallsChangeNothing` | foundry-zksync/crates/cheatcodes/src/inspector.rs:1203 | a static call, or one by another caller or at another depth, changes nothing; a static one is refused only under a broadcast for a single call (1264-1275) |
| `BroadcastQueue.ConflictLosesWork` | foundry-zksync/crates/cheatcodes/src/inspector.rs:1244-1255 | a blob beside authorizations: refused, not queued, and both lost |
| `BroadcastQueue.CreateIsQueuedIff` | foundry-zksync/crates/cheatcodes/src/inspector.rs:767-802 | a create is queued exactly when it is the broadcaster's at its depth, or at a deeper one once marked; the pending work stays |
| `BroadcastQueue.BeginIff` | foundry-zksync/crates/cheatcodes/src/script.rs:354-391 | a broadcast begins exactly when no prank and no broadcast is active, with the given origin, caller, depth and kind |
| `BroadcastQueue.EndIff` | foundry-zksync/crates/cheatcodes/src/script.rs:262-271 | a broadcast ends when stopped, or at the end of a call or create at its depth if it is for a single call (`inspector.rs:1557-1566`); nothing else changes |
| `BroadcastQueue.AttachIff` | foundry-zksync/crates/cheatcodes/src/script.rs:192-220 | an authorization is accepted exactly when it recovers and its nonce is the next one; it then delegates the code, or clears it for the zero address, and is kept last; a refusal says why and changes nothing |
| `BroadcastQueue.NextNonce` | foundry-zksync/crates/cheatcodes/src/script.rs:164-190 | one after the last pending one; else the account's nonce, and one more for the broadcasting account |
| `BroadcastQueue.SignedIs` | foundry-zksync/crates/cheatcodes/src/script.rs:122-161 | whose, for what, at which nonce and for which chain an authorization is signed |
| `Nonces.OneBroadcastIsBenign` | foundry-zksync/crates/cheatcodes/src/inspector.rs:1192-1263 | within one broadcast, without creates, every step is benign to every account |
| `Nonces.StepKeepsIff` | foundry-zksync/crates/cheatcodes/src/script.rs:163-220 | one step keeps the count of an account precisely when it is benign to it |
| `Nonces.SwitchKeepsIff` | foundry-zksync/crates/cheatcodes/src/script.rs:178-188 | beginning or ending a broadcast keeps the count of an account if and only if it is not its own or nothing of it is pending |
| `NonceReplay.QueueAcceptedIff` | foundry-zksync/crates/cheatcodes/src/strategy.rs:232-277 | for any queue, with any number of senders: every transaction is valid and every authorization taken if and only if, for every account, the nonces of its transactions and of its authorizations, whoever carries them, count up in queue order from its nonce; every account then ends past all of them |
| `NonceReplay.AcceptedIffTrail` | foundry-zksync/crates/cheatcodes/src/strategy.rs:259-272 | the same for one account of a queue whose transactions are valid |
| `NonceReplay.SendersReplay` | foundry-zksync/crates/cheatcodes/src/strategy.rs:232-241 | every transaction is valid if what is asked of every sender counts up |
| `NonceReplay.QueueReplaysIff` | foundry-zksync/crates/cheatcodes/src/strategy.rs:232-277 | on runs benign to every sender: every queued transaction is valid on chain if and only if none comes after a transaction of another sender that carries an authorization of its own sender |
| `NonceReplay.AcceptedIffNoneLate` | foundry-zksync/crates/cheatcodes/src/strategy.rs:259-272 | on runs benign to an account whose queue is valid: its authorizations are all taken if and only if nothing of the account comes after one of them carried by another sender, and it ends where the simulation left it if and only if nothing is so carried |
| `NonceReplay.RunAcceptedIff` | foundry-zksync/crates/cheatcodes/src/script.rs:163-220 | on runs benign to every account, with any number of broadcasts: the whole queue is accepted if and only if nothing of any account comes after an authorization of it carried by another sender |
| `NonceReplay.ChainIsAhead` | foundry-zksync/crates/cheatcodes/src/strategy.rs:259-272 | while transactions are valid the chain is never behind the simulation, and is ahead of it exactly for accounts with an authorization carried by another sender |
| `NonceReplay.TrailIffNoneLate` | foundry-zksync/crates/cheatcodes/src/script.rs:163-190 | what a benign run asks of an account counts up exactly when nothing of it comes late |
| `NonceReplay.LateByPosition` | foundry-zksync/crates/cheatcodes/src/strategy.rs:274-277 | coming late, by positions in the queue |
| `NonceReplay.QueueReplays` | foundry-zksync/crates/cheatcodes/src/strategy.rs:216-279 | a benign account that sent the whole queue: every transaction is valid, its authorizations are all taken, and it ends at its simulated nonce |
| `NonceReplay.OthersAcceptedIffCarriedOnce` | foundry-zksync/crates/cheatcodes/src/script.rs:164-190 | authorizations of an authority that sends none of a valid queue, whoever sends it, are all taken if and only if at most one transaction carries any |
| `Nonces.CreateKeepsIff` | foundry-zksync/crates/cheatcodes/src/inspector.rs:767-802 | a create keeps the count of an account if and only if it is not queued for the account or the account has no authorization pending |
| `NonceReplay.CreateBreaksCount` | foundry-zksync/crates/cheatcodes/src/inspector.rs:785-798 | for every nonce, a run with a create between an attached authorization and the call that carries it: the authorization is not taken on chain |
| `NonceReplay.CarriedTwiceIsNotTaken` | foundry-zksync/crates/cheatcodes/src/strategy.rs:259-272 | for every nonce, a run in which two calls carry an authorization of another account and one of the two is not taken on chain |
| `NonceReplay.OvertakenCallIsRejected` | foundry-zksync/crates/cheatcodes/src/strategy.rs:232-241 | for every nonce, a run benign to every account whose last call is rejected on chain: another account has carried an authorization of its sender before |
| `NonceReplay.AllTakenIff` | foundry-zksync/crates/cheatcodes/src/strategy.rs:260-272 | a list of authorizations is taken in full exactly when one authority's nonces count up from its account nonce |
| `NonceReplay.CarriersDecide` | foundry-zksync/crates/cheatcodes/src/strategy.rs:259-272 | for an account that sends none of a queue, nothing comes late if and only if at most one transaction carries its authorizations |
| `Nonces.LastOfNonces` | foundry-zksync/crates/cheatcodes/src/script.rs:170-177 | the search from the end finds the last of the authority's pending nonces, or nothing exactly when there is none |
| `Nonces.AttachKeeps` | foundry-zksync/crates/cheatcodes/src/script.rs:192-209 | an accepted authorization keeps the count of every authority; a refused one changes nothing that counts |
| `Nonces.Script.StartBroadcast` | foundry-zksync/crates/cheatcodes/src/script.rs:354-391 | refused exactly while a prank or a broadcast is active, and then nothing changes |
| `Nonces.Script.StopBroadcast` | foundry-zksync/crates/cheatcodes/src/script.rs:262-271 | the broadcast is over; refused exactly if there was none |
| `Nonces.Script.OnFrameEnd` | foundry-zksync/crates/cheatcodes/src/inspector.rs:1557-1566 | a single-call broadcast is over exactly when a call or create at its depth ends (for creates 860-870) |
| `Nonces.Script.DeployCode` | foundry-zksync/crates/cheatcodes/src/fs.rs:366-369 | only marks the active broadcast, if any |
| `Nonces.Script.AttachBlob` | foundry-zksync/crates/cheatcodes/src/script.rs:222-239 | only the blob is set; refused before Cancun |
| `Nonces.Script.WriteDelegation` | foundry-zksync/crates/cheatcodes/src/script.rs:192-220 | delegates the authority's code (or clears it for the zero address) exactly when the nonce is the expected one; a refusal changes nothing |
| `Nonces.Script.AttachDelegation` | foundry-zksync/crates/cheatcodes/src/script.rs:98-118 | an authorization is kept for the next transaction exactly when it was accepted |
| `Nonces.Script.SignDelegation` | foundry-zksync/crates/cheatcodes/src/script.rs:122-161 | the authorization carries the given or the next nonce, and is attached only on request |
| `Nonces.Script.OnCall` | foundry-zksync/crates/cheatcodes/src/inspector.rs:1192-1278 | the whole new state and the refusal, for static calls, blob conflicts and calls outside the broadcast as well |
| `Nonces.Script.BroadcastCall` | foundry-zksync/crates/cheatcodes/src/inspector.rs:1203-1263 | the pending work is taken, the call queued with it and the origin's nonce stepped; with both blob and delegations the work is lost and the call refused |
| `Nonces.Script.OnCreate` | foundry-zksync/crates/cheatcodes/src/inspector.rs:767-802 | the create is queued at the origin's nonce, with nothing attached, at the broadcast's depth or, once marked by `deployCode`, at any deeper one |
| `Nonces.Script.RecordCallTransaction` | foundry-zksync/crates/cheatcodes/src/strategy.rs:216-279 | the queued transaction carries the nonce from before the loop that steps it past the origin's own authorizations; with both blob and delegations nothing is recorded |
| `ChunkedLogs.GetLogsChunkedConcurrent` | foundry-zksync/crates/cast/src/lib.rs:904-967 | for every order of arrival and every set of failing queries: the logs of blocks from..to-1 in block order, minus only the blocks whose own retry failed after their chunk failed |
| `ChunkedLogs.GetLogsChunked` | foundry-zksync/crates/cast/src/lib.rs:887-898 | the whole-range answer if it succeeds, else the fallback |
| `ChunkedLogs.FallbackAgreesIff` | foundry-zksync/crates/cast/src/lib.rs:912-966 | the fallback agrees with the query it replaces if and only if neither block `to`, which the chunks leave out, nor any block lost by failing queries has logs |
| `ChunkedLogs.GatheredLacksIff` | foundry-zksync/crates/cast/src/lib.rs:937-948 | the chunks give all logs of their blocks if and only if no lost block has any |
| `ChunkedLogs.LastBlockIsMissed` | foundry-zksync/crates/cast/src/lib.rs:922-925 | a node with a log in every block, on which the fallback misses that of block `to` for every range and chunk size |
| `ChunkedLogs.ChunksTile` | foundry-zksync/crates/cast/src/lib.rs:921-925 | the chunks tile [from, to) without gap or overlap |
| `ChunkedLogs.CutRange` | foundry-zksync/crates/cast/src/lib.rs:922-925 | the k-th chunk starts k sizes into the range and is cut at its end, and the chunks reach the end |
| `ChunkedLogs.FetchChunk` | foundry-zksync/crates/cast/src/lib.rs:933-952 | a chunk's direct query, or its blocks one by one without the failing ones, gives the gathered logs of that chunk |
| `ChunkedLogs.FetchAll` | foundry-zksync/crates/cast/src/lib.rs:928-956 | each chunk yields its own gathered logs |
| `ChunkedLogs.MergeResults` | foundry-zksync/crates/cast/src/lib.rs:958-964 | the logs of the results in the order of their first blocks |
| `ChunkedLogs.SortRecovers` | foundry-zksync/crates/cast/src/lib.rs:959 | sorting recovers the chunk order from any order of arrival |
| `ChunkedLogs.SortedIsUnique` | foundry-zksync/crates/cast/src/lib.rs:959 | a sorted arrangement of results with distinct first blocks is unique |
| `ChunkedLogs.SortOk` | foundry-zksync/crates/cast/src/lib.rs:959 | the sort specification yields a sorted permutation |
| `ChunkedLogs.JoinedIsGathered` | foundry-zksync/crates/cast/src/lib.rs:961-964 | joining the chunks' results gathers the whole range |
| `ChunkedLogs.MergeInOrder` | foundry-zksync/crates/cast/src/lib.rs:958-966 | in whatever order the responses come, the merged logs are those of the range |
| `ChunkedLogs.NothingLost` | foundry-zksync/crates/cast/src/lib.rs:937-948 | if no single-block query fails, nothing is missing |
| `ChunkedLogs.LostIff` | foundry-zksync/crates/cast/src/lib.rs:935-948 | a block is lost exactly if the query of its chunk and its own both fail |
| `Bases.UnsignedRoundTrip` | foundry-zksync/crates/cast/src/base.rs:217-231 | every unsigned 256-bit number printed with its prefix in any base is detected and read back with the same value and base |
| `Bases.SignedRoundTrip` | foundry-zksync/crates/cast/src/base.rs:272-277 | every signed 256-bit number, the minimum included, is read back from signed decimal |
| `Bases.ParseShow` | foundry-zksync/crates/cast/src/base.rs:327-331 | what any number prints is read back as the stated number, with no exception |
| `Bases.ToBaseKeepsWordIff` | foundry-zksync/crates/cast/src/lib.rs:1573-1585 | for every text that parses: the result reads back as the same 256-bit word in the base asked for if and only if, for equal bases, that base is the one detected, and otherwise the input is non-negative, the output is not decimal, or the word is zero or at least 2^255 |
| `Bases.SameBaseIsMisread` | foundry-zksync/crates/cast/src/lib.rs:1576-1578 | hexadecimal 10 converted to hexadecimal is left as a text that reads as ten |
| `Bases.BelowMinimumIsChanged` | foundry-zksync/crates/cast/src/lib.rs:1580-1584 | every negative text of magnitude above 2^255 in another base is changed by conversion to decimal |
| `Bases.MinimumLessOneIsChanged` | foundry-zksync/crates/cast/src/base.rs:377-383 | both commands change -2^255 - 1 |
| `Bases.WordOfNegative` | foundry-zksync/crates/cast/src/base.rs:390-400 | that condition on the word of a negative input says its magnitude is at most 2^255 |
| `Bases.ToFixedPoint` | foundry-zksync/crates/cast/src/lib.rs:1266-1287 | for every pair of texts: the error of the one that does not parse, or a text with the value's sign, exactly the given number of digits after the point, and digits denoting the magnitude over that power of ten |
| `Bases.FixedPointOfTexts` | foundry-zksync/crates/cast/src/lib.rs:1266-1287 | for every value from -2^255 below 2^256 and every number of decimals, each printed in any base: the text denotes the value over that power of ten |
| `Bases.DecimalsAgree` | foundry-zksync/crates/cast/src/lib.rs:1275 | the number of decimals is what an unsigned text reads as; from 2^64 on it is refused |
| `Bases.DecimalsRoundTrip` | foundry-zksync/crates/cast/src/lib.rs:1275 | a number of decimals printed in any base is read back |
| `Bases.SignedDecimalsAreRefused` | foundry-zksync/crates/cast/src/base.rs:402-408 | a signed number of decimals is refused |
| `Bases.PrintFixedPoint` | foundry-zksync/crates/cast/src/lib.rs:1277-1286 | the same of a parsed number, in both branches |
| `Bases.FixedPointIsFaithfulIff` | foundry-zksync/crates/cast/src/lib.rs:1266-1287 | of a negative text of magnitude m, in any base, the text printed denotes -m over the power of ten if and only if m is at most 2^255 |
| `Bases.Pad` | foundry-zksync/crates/cast/src/lib.rs:1277-1279 | the padding branch denotes the same magnitude |
| `Bases.InsertedPoint` | foundry-zksync/crates/cast/src/lib.rs:1280-1283 | the inserting branch denotes the same magnitude |
| `Bases.ReadPrefixed` | foundry-zksync/crates/cast/src/base.rs:123-143 | prefixed digits of a 256-bit number are detected by their prefix, although the probe reads 64 bits only, and read back |
| `Bases.ReadInBase` | foundry-zksync/crates/cast/src/base.rs:327-331 | with the base given, digits are read with or without the prefix and with either sign |
| `Bases.PlusOf` | foundry-zksync/crates/cast/src/base.rs:483-489 | a plus sign is read over |
| `Bases.PlainHexIsDetected` | foundry-zksync/crates/cast/src/base.rs:145-154 | hexadecimal digits that cannot be decimal ones need no prefix |
| `Bases.TooLargeIsRefused` | foundry-zksync/crates/cast/src/base.rs:402-408 | what does not fit 256 bits is refused, in every base |
| `Bases.TextIsPlain` | foundry-zksync/crates/cast/src/base.rs:373-388 | digits are printed in lower case and without leading zeros |
| `Bases.UpperCasePrefix` | foundry-zksync/crates/cast/src/base.rs:403-406 | an upper-case prefix is read over when the base is given; octal and hexadecimal ones are not detected |
| `Bases.UpperBinaryIsMisread` | foundry-zksync/crates/cast/src/base.rs:145-154 | after an upper-case binary prefix, without a base, binary digits are read in base 16 |
| `Bases.ToBaseFailsIff` | foundry-zksync/crates/cast/src/lib.rs:1573-1585 | conversion fails exactly when it is needed and the text does not parse, with that error |
| `Bases.NegativeOf` | foundry-zksync/crates/cast/src/base.rs:390-400 | a minus sign in front of any unsigned text that parses yields the two's complement, in the same base |
| `Bases.DigitsRoundTrip` | foundry-zksync/crates/cast/src/base.rs:402-408 | the digits of a number denote the number |
| `Bases.LeadingZeros` | foundry-zksync/crates/cast/src/lib.rs:1279 | padding zeros do not change what a digit string denotes |
| `GroupHeaders.CheatList.PrefixWithGroupHeaders` | FundMe/lib/forge-std/scripts/vm.py:138-150 | the enumeration that inserts into its own list ends (fewer unseen groups, then fewer members left) and leaves the specified list |
| `GroupHeaders.ErasingHeadersRestores` | FundMe/lib/forge-std/scripts/vm.py:138-150 | erasing the headers gives back the original list |
| `GroupHeaders.OneHeaderPerGroup` | FundMe/lib/forge-std/scripts/vm.py:141-149 | each group gets exactly one header |
| `GroupHeaders.HeadersArePlaced` | FundMe/lib/forge-std/scripts/vm.py:146-149 | each header stands right before the first member of its group, and every member at or after its header |
| `GroupHeaders.SectionsAreContiguous` | FundMe/lib/forge-std/scripts/vm.py:47-54 | on sorted input, between two entries of a group stand only entries of that group |
| `GroupHeaders.HeadersKeepAscending` | FundMe/lib/forge-std/scripts/vm.py:138-150 | inserting the headers keeps groups ascending |
| `GroupHeaders.SortedAscends` | FundMe/lib/forge-std/scripts/vm.py:125-127 | a list sorted by the comparison has ascending groups |
| `GroupHeaders.CmpAntisymmetric` | FundMe/lib/forge-std/scripts/vm.py:125-134 | the comparison is antisymmetric, and zero exactly on equal keys |
| `GroupHeaders.CmpTransitive` | FundMe/lib/forge-std/scripts/vm.py:125-134 | the comparison is transitive, also through ties |
| `GroupHeaders.CmpIsLexicographic` | FundMe/lib/forge-std/scripts/vm.py:125-134 | group, status, safety and identifier decide, in this order |
| `GroupHeaders.StringLessIff` | FundMe/lib/forge-std/scripts/vm.py:127 | the first difference decides, or the length |
| `GroupHeaders.HeaderIs` | FundMe/lib/forge-std/scripts/vm.py:146-148 | a header is its member without a description, declared as the title of the group (153-158) |
| `GroupHeaders.StringLessTotal` | FundMe/lib/forge-std/scripts/vm.py:127 | exactly one of less, greater and equal holds of two strings |
| `GroupHeaders.StringLessTransitive` | FundMe/lib/forge-std/scripts/vm.py:127 | the string order is transitive |
| `Deals.RevertUndoesDeals` | foundry-zksync/crates/cheatcodes/src/inspector.rs:680-701 | after any run of deals and other balance changes, a top-level revert leaves each dealt account still in the journal with its balance from just before its first deal, and every other balance as it was |
| `Deals.RollBackRestoresFirst` | foundry-zksync/crates/cheatcodes/src/inspector.rs:696-700 | undoing the log from its end leaves each account what its first logged deal found, and adds or removes no account |
| `Deals.LogHasFirst` | foundry-zksync/crates/cheatcodes/src/evm.rs:605-615 | the first deal of an account logs the balance it found |
| `Deals.DealSets` | foundry-zksync/crates/cheatcodes/src/evm.rs:605-615 | a deal leaves the account with the new balance and every other as it was, and logs the balance found |
| `Deals.Journal.ApplyDeal` | foundry-zksync/crates/cheatcodes/src/evm.rs:605-615 | the balance is replaced and the one found is logged |
| `Deals.Journal.OnRevert` | foundry-zksync/crates/cheatcodes/src/inspector.rs:680-701 | the popping loop empties the log and restores the balances; nothing changes while a revert is expected or below the top level |
| `GasSnapshots.AlwaysConsistent` | foundry-zksync/crates/cheatcodes/src/evm.rs:1361-1435 | over every run of starts, stops and metering there is one record, that of the active snapshot, with recording on, or none with recording off |
| `GasSnapshots.StopEndsActiveOnly` | foundry-zksync/crates/cheatcodes/src/evm.rs:1387-1435 | a stop succeeds exactly on the active key, stores the metered value, clears the active snapshot and drops the stopped record and no other |
| `GasSnapshots.RetainIsExactIff` | foundry-zksync/crates/cheatcodes/src/evm.rs:1418-1421 | for arbitrary records, the retain keeps the records of other keys if and only if none of them shares the stopped group or name |
| `GasSnapshots.StartIff` | foundry-zksync/crates/cheatcodes/src/evm.rs:1361-1385 | refused exactly while a snapshot is active; else one empty record more |
| `GasSnapshots.StopMeans` | foundry-zksync/crates/cheatcodes/src/evm.rs:1392-1395 | the snapshot named in full, else the active one |
| `GasSnapshots.StopIs` | foundry-zksync/crates/cheatcodes/src/evm.rs:1397-1434 | of any state: found exactly if a record has the key; every record that shares group or name is gone |
| `GasSnapshots.ChargedIs` | foundry-zksync/crates/cheatcodes/src/inspector.rs:2009-2016 | the rise since the mark, saturating at 64 bits, at the running depth only |
| `GasSnapshots.GasMetering.Start` | foundry-zksync/crates/cheatcodes/src/evm.rs:1361-1385 | refused exactly while a snapshot is active; else one fresh record under the given or default group and name |
| `GasSnapshots.GasMetering.Stop` | foundry-zksync/crates/cheatcodes/src/evm.rs:1387-1435 | the stored value and the whole new state; an unknown key changes nothing |
| `GasSnapshots.FirstOfDepthIsCharged` | foundry-zksync/crates/cheatcodes/src/inspector.rs:2005-2024 | a metered step charges the first record of the running depth with what was spent since the mark (nothing if the mark is unset) and no other record, and moves the mark to what is spent now if there is such a record |
| `GasSnapshots.SectionIsCharged` | foundry-zksync/crates/cheatcodes/src/inspector.rs:2005-2024 | over a whole section, however other depths interleave and whichever frames of its own depth it meters: the record is charged every rise of what had been spent between metered steps of that depth, counting from the mark left before the section if that is set |
| `GasSnapshots.ChargeInOneFrame` | foundry-zksync/crates/cheatcodes/src/inspector.rs:2012-2020 | in one frame that is the last step less the mark left before, if that is set and below the first step, else less the first step with gas spent |
| `GasSnapshots.SectionIsExactIff` | foundry-zksync/crates/cheatcodes/src/evm.rs:1387-1435 | stopping stores the charge less the overhead; in one frame the charge is what the frame spent between the section's first and last step if and only if the mark left before is unset or not below the first step, and the first step has gas spent or the last has none |
| `GasSnapshots.NextSectionCountsTheGap` | foundry-zksync/crates/cheatcodes/src/inspector.rs:2012-2020 | the mark outlives a section: the next section of the same frame is also charged for all that was spent between the two |
| `GasSnapshots.GasMetering.Meter` | foundry-zksync/crates/cheatcodes/src/inspector.rs:2005-2024 | the loop over records, while recording, is one metered step of the machine, records and mark both |
| `GasSnapshots.GasMetering.MeterRecord` | foundry-zksync/crates/cheatcodes/src/inspector.rs:2009-2021 | a record of another depth is left alone; one of the running depth is charged unless the mark is unset, with saturation, and moves the mark |

## Left out

State diffs:
- Database failures and stack underflow in the opcode hooks, which make them skip an access or record zero values; account loads that fail in the call and end hooks are modelled as a missing account.
- An SSTORE recorded at its opcode and then refused by the interpreter (static call, out of gas): in a run every store takes place.
- Mocked calls, intercepted creates, failed broadcasts, handled `expectRevert` and `assumeNoRevert` push without popping or pop without pushing; the runs exclude them and only `AppendOnly` covers them.
- `is_revert` belongs to revm, which is not part of this model: an outcome is a success, a revert (flagged) or a halt (undone by the EVM, not flagged).
- What survives a revert in balance and nonce diffs: the fold ignores the reverted flag for them, so only the fold itself is proved.
- Labels, contract names, storage layouts, decoded slot values and text output of the diff; storage cleared by SELFDESTRUCT; `vm.store`; the zksync strategy's hooks.

RLP:
- The header coder belongs to `alloy_rlp` and is modelled from Appendix B of the Ethereum Yellow Paper, with every non-canonical form refused.
- Where the buffer stands after a decoding error, and the integer branch of `from_rlp`.
- JSON text beyond literals, arrays and strings without escapes (numbers, objects); numbers are modelled as values only. The reader's nesting limit is a parameter.

Anvil:
- Which logs match a filter's block range, hash, address and topics is a parameter; a block's hash is a field.
- A panicking mining task, the fee history task and the eviction and map of filters.
- The panic of a debug build when the 32-bit log counter overflows; the release build's wrap-around is modelled.
- Delivery in bounded time: a subscription that hits a missing block may sleep with notifications unread.

Nonces:
- `recover_authority` and signing are cryptography: an authorization's authority is a field.
- OrderlyThroughout: does not cover isolation, where the transaction itself spends the nonce, nor other effects on an account's nonce; a create is taken to spend one.
- Wallets that choose the origin of a broadcast, pranks beyond the refusal, gas limits and 64-bit nonce overflow.

Cast:
- Provider answers are parameters; the whole-range query for block tags that are not numbers is left out, and the chunk arithmetic is required not to overflow 64 bits.
- At most five requests in flight: any order of arrival is allowed instead, which includes the one the code has.
- Digit strings are read as ruint and the standard library read them; upper-case hexadecimal output is left out. A number of decimals that is no `usize` makes the code panic, which the model answers with an error of its own; the formatter's own limit on widths is left out.

Script and the rest:
- Cheatcodes without a group name and letters outside ASCII in a group title; a cheatcode that itself looks like a header is excluded from the erasing and counting lemmas.
- What the journal itself restores once the deals have been rolled back.
- Metering while an interpreter action is pending; gas paused, resumed or reset.
- SectionIsExactIff: only for sections that meter one frame at their depth. When that frame ends before the stop, later frames of the depth are charged to the record too, as SectionIsCharged says; no exactness is claimed for the sum.
- Pranks, expected calls and emits, mocks, wallets, file-system cheatcodes, RPC plumbing, Etherscan, benches and single-branch setters.
