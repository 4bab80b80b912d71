# reth-testing RPC equality model

This project models the core of the reth-testing tools. The tools compare
two Ethereum JSON-RPC nodes. Over a range of blocks they issue a catalog of
calls ("probes") to a local and a remote node. Each pair of answers is
classified as `Ok`, a diff, or an error on one side, and the outcomes are
printed as a report. An execution extension moves a node's chain forward one
block at a time before the comparison. A standalone tester first waits until
its first node is synced and close to the second node's tip.

Modules, following the program's structure:

- `Values` holds shared values: `Option`, `CallResult`, `u64`, and decimal rendering.
- `TestOutcome` holds `test_method` and `TestError` (`crates/tester-common/src/rpc/utils.rs`, `crates/tester-common/src/rpc/mod.rs`).
- `LineDiffReport` is the line-diff reporter of `crates/tester-common/src/rpc/utils.rs`. `reth-tester/src/equality.rs` carries an identical copy of it.
- `InclusionReport` is the inclusion reporter and `find_diffs` (`crates/tester-common/src/rpc/report.rs`).
- `ProbeCatalog` holds the per-block probe list. It covers block and receipt lookups in the local database, then the block-level, log and per-transaction probes.
- `BlockRunner` runs every block's probes against both nodes. It groups the outcomes by block in ascending order and holds the range probe.
- `LineDiffEquality` is `test_rpc_equality` of `reth-tester/src/equality.rs` (nine transaction probes) and `reth-tester/src/rpc/equality.rs` (ten). The two drivers differ only in the probe set, which is a parameter here.
- `TesterCommonEquality` covers the `RpcTester` builders and `test_rpc_equality` of `crates/tester-common/src/rpc/equality.rs`.
- `Readiness` is `wait_for_readiness` of `crates/rpc-tester/src/main.rs`.
- `ChainAdvance` is the chain-advance loop of `src/exex.rs`, shared by the other two extensions.
- `TesterCommonExex` is `crates/tester-common/src/exex.rs`: the same loop, then the choice of the tested range.
- `RethMain` is the loop of `src/main.rs`, which keeps no status record.

Modelling conventions:

- Remote and local answers are oracle functions from a probe to `CallResult` (`Endpoints`). JSON rendering is a function parameter. The library's line diff (`similar::TextDiff`) is a parameter returning tagged changes. The `assert_json_include` check is the `Inclusion` record: an inclusion predicate and the library's panic message.
- The local database is the `Provider` record. It has lookups by number for blocks, body indices and receipts. Each lookup is `Found`, `Absent` (`Ok(None)`) or `ProviderError`.
- Printed output is a sequence of printed chunks. `println!(x)` is `x + "\n"`.
- An error returned with `?` or a panic of `expect`/`assert_eq!` ends the run (`Run.Aborted`). Polling loops that never end in the source run over a finite sequence of observations. Running out of observations means "still waiting/running".
- `join_all` preserves order. Both nodes of a pair answer independently.

Where the code disagrees with itself or with its documentation, the code is followed:

- `crates/tester-common/src/rpc/mod.rs` declares `TestError` with `Diff { local, remote }`, `LocalErr` and `RemoteErr`. `crates/tester-common/src/rpc/report.rs` matches on `Diff { rpc1, rpc2 }`, `Rpc1Err` and `Rpc2Err`. The model maps the first shape onto the second field by field (`TesterCommonEquality.ToReport`).
- In `crates/tester-common/src/rpc/equality.rs` the `Result` of `report` is discarded (lines 89-95 and 192), so with that reporter a mismatch never fails the run. The model keeps this.
- `reth-tester/src/rpc/equality.rs` imports a reporter from a `utils` module that is not part of this model. It is modelled as the line-diff reporter, the one its sibling file uses.
- `RpcTester`'s `without_tracing` and `without_reth` store `true` (see Findings). No probe list reads either flag: the free functions that build the lists take no tester. So the flags change nothing in the model either.

## Model

| member | source | states |
|---|---|---|
| TestOutcome.TestMethod | crates/tester-common/src/rpc/utils.rs:50-82 | The name is returned unchanged. The outcome is `Ok` iff both calls succeed with equal values. Unequal successes give `Diff` with the local and remote values rendered. A local error gives `LocalErr` whatever the remote did. A local success with a remote error gives `RemoteErr`. |
| LineDiffReport.FailuresEmptyIff | crates/tester-common/src/rpc/utils.rs:13-18 | A title's failure list is empty iff every result of the title is `Ok`. |
| LineDiffReport.UnitPassIff | crates/tester-common/src/rpc/utils.rs:18-21 | A title prints exactly the pass line iff all its results are `Ok`. With any `Err` its output starts with the fail header. |
| LineDiffReport.FailureEntryOrder | crates/tester-common/src/rpc/utils.rs:13-23 | Failure entries keep the order of the results. A failing result at position i sits between the failures before it and those after it. |
| LineDiffReport.DiffText | crates/tester-common/src/rpc/utils.rs:26-37 | One printed chunk per change: `-` for delete, `+` for insert, a space for equal, then the change text. |
| LineDiffReport.UnitsTextAppend | crates/tester-common/src/rpc/utils.rs:12-44 | The report of concatenated title lists is the concatenation of their reports: every title is printed, in input order, with no early exit. |
| LineDiffReport.CollectFailures | crates/tester-common/src/rpc/utils.rs:13-16 | The collected failures are exactly the `Err` results with their names, in order. |
| LineDiffReport.PrintDiff | crates/tester-common/src/rpc/utils.rs:26-37 | The printed diff is the signed change list. |
| LineDiffReport.PrintFailures | crates/tester-common/src/rpc/utils.rs:22-41 | For each failure, the `Failure` line, then its diff or `## Local node error:` / `## Remote node error:` line. |
| LineDiffReport.PrintUnit | crates/tester-common/src/rpc/utils.rs:13-43 | A title prints its pass line, or its fail header followed by its failures. |
| LineDiffReport.Report | crates/tester-common/src/rpc/utils.rs:9-47 | The full output is the header, every title's text in order, then the footer. |
| InclusionReport.FindDiffs | crates/tester-common/src/rpc/report.rs:49-71 | `None` iff rpc2's value is included in rpc1's. Otherwise the message is the inclusion failure's text with every non-overlapping `actual`, left to right, replaced by `rpc1`. A returned message never contains `actual`. A message without `actual` is returned unchanged. |
| InclusionReport.RewriteFirstOccurrence | crates/tester-common/src/rpc/report.rs:62-68 | The first `actual` of a message becomes `rpc1`. The text before it is kept, and the rewrite goes on after it. |
| InclusionReport.RewriteRemovesActual | crates/tester-common/src/rpc/report.rs:62-68 | After replacing every `actual` by `rpc1` (left to right), no `actual` remains. |
| InclusionReport.ReplaceAbsentIsIdentity | crates/tester-common/src/rpc/report.rs:62-68 | Replacing a pattern that does not occur leaves the text unchanged. |
| InclusionReport.PassedTitleIff | crates/tester-common/src/rpc/report.rs:13-32 | `passed_title` ends true iff it started true and no entry failed. `Ok` never fails, an included diff never fails, and an rpc error always fails. |
| InclusionReport.PassLineIff | crates/tester-common/src/rpc/report.rs:35-37 | The pass line is printed iff the title recorded no failure. |
| InclusionReport.HeaderOnceBeforeFirstDiff | crates/tester-common/src/rpc/report.rs:18-27 | When a title has only diffs, the fail header is printed exactly once, before the first failing diff. The failing diffs follow it in order. |
| InclusionReport.ReportEntry | crates/tester-common/src/rpc/report.rs:15-32 | One result's printed lines and the new `passed_title`, as the reference step defines them. |
| InclusionReport.ReportTitle | crates/tester-common/src/rpc/report.rs:12-37 | A title's output, and a `passed_title` that is true iff no entry failed. |
| InclusionReport.Report | crates/tester-common/src/rpc/report.rs:8-47 | The output is header, titles, footer. The verdict is `Ok` iff every title passed; otherwise it is the error `Failed.`. |
| ProbeCatalog.BlockProbes | reth-tester/src/equality.rs:84-102 | Exactly the twelve block-level probes, in catalog order. `block_by_hash` and `block_by_number` ask for full transactions. The `_by_hash` probes take the block hash and the `_by_number` probes take its number. `block_receipts`, the balance changes and `trace_block` take the number as a block id. The last probe is `logs` over the single block. |
| ProbeCatalog.LogProbes | reth-tester/src/equality.rs:112-126 | An address-filtered `logs` probe iff the receipt has a log, using the first log's address. A topic-filtered one iff the last log has a topic, using that log's first topic. |
| ProbeCatalog.FixedTxProbes | reth-tester/src/equality.rs:128-140 | The fixed transaction probes in catalog order: nine, or ten ending with `debug_trace_transaction`. Index lookups use the transaction's index with the block's hash and number. The count and balance probes use the signer at the block. The raw, by-hash and receipt lookups take the transaction hash. The tenth probe traces that hash with the call tracer. |
| ProbeCatalog.TxsProbesDoneIff | reth-tester/src/equality.rs:105-110 | The transaction probes are built iff every receipt `first_tx_num + i` exists and every signer is recovered. |
| ProbeCatalog.BlockTestsDoneIff | reth-tester/src/equality.rs:74-110 | A block's probe list is built iff the block exists and carries the requested number, its body indices exist, and every receipt and signer exists. Anything missing aborts. |
| ProbeCatalog.BlockTestsShape | reth-tester/src/equality.rs:84-141 | A built list starts with the twelve block probes. Its length is twelve plus each transaction's fixed and log probes. A block without transactions has exactly twelve. |
| ProbeCatalog.TxProbesSegment | reth-tester/src/equality.rs:105-141 | Transaction i contributes, after the earlier transactions, the log probes of receipt `first_tx_num + i` and its fixed probes with index i. |
| ProbeCatalog.BuildTxTests | reth-tester/src/equality.rs:105-140 | The loop body for one transaction, proved equal to the reference probe list, including its abort cases. |
| ProbeCatalog.BuildTxsTests | reth-tester/src/equality.rs:105-141 | The transaction loop appends each transaction's probes, in body order, after the block-level ones. It stops at the first transaction that aborts, with that error. This equals the reference list. |
| ProbeCatalog.BuildBlockTests | reth-tester/src/equality.rs:70-141 | The imperative builder (block fetch, number check, body indices, then the transaction loop) equals the reference `BlockTests`. |
| ProbeCatalog.TenIsNinePlusTraces | crates/tester-common/src/rpc/equality.rs:149-187 | The ten-probe catalog builds the same blocks as the nine-probe one. Dropping its `debug_trace_transaction` probes gives the nine-probe list exactly. |
| ProbeCatalog.FixedTxProbesTrace | reth-tester/src/rpc/equality.rs:134-145 | The ten fixed probes are the nine with the trace probe dropped. |
| BlockRunner.RunProbes | reth-tester/src/equality.rs:142 | One outcome per probe, in probe order. Outcome i is exactly `test_method` of probe i over the two nodes' answers: its name, and its `Ok`, diff, local error or remote error. Each outcome is `Ok` iff both nodes answered that probe with the same value. |
| BlockRunner.BlockTitleInjective | reth-tester/src/equality.rs:145 | `Block Number n` titles of distinct blocks differ. |
| BlockRunner.BlockUnitsShape | reth-tester/src/equality.rs:68-145 | A completed run has one unit per block of the range, in ascending order. Each unit is titled `Block Number n` and holds that block's outcomes. |
| BlockRunner.BlockUnitsAborted | reth-tester/src/equality.rs:68-81 | The run aborts iff some block cannot be built, and then with the error of the lowest such block. |
| BlockRunner.BlockUnitsReference | reth-tester/src/rpc/equality.rs:70-150 | The run completes iff every block can be built, and then yields the directly defined list of titled units. |
| BlockRunner.CollectBlockUnits | reth-tester/src/equality.rs:59-146 | The loop that fills the `BTreeMap` and reads it back in key order equals the reference run. |
| BlockRunner.InKeyOrder | reth-tester/src/equality.rs:145 | Reading the result map by ascending key gives the titled units in block order. |
| BlockRunner.RangeProbe | reth-tester/src/equality.rs:50 | The range probe is `logs` over `start..=end` with no address or topic. |
| BlockRunner.RangeUnit | reth-tester/src/equality.rs:46-53 | The range unit is titled `start..=end` and holds exactly one outcome, that of the range `logs` probe. |
| LineDiffEquality.TestPerBlock | reth-tester/src/rpc/equality.rs:61-152 | Per-block testing equals its reference: an aborted run prints nothing, and a completed one prints the report of the block units. |
| LineDiffEquality.TestBlockRange | reth-tester/src/rpc/equality.rs:39-58 | The range test prints the report of the single range unit. |
| LineDiffEquality.TestRpcEquality | reth-tester/src/equality.rs:24-34 | Build the remote client, run the per-block test, then the range test; each stage's failure ends the run. |
| LineDiffEquality.SessionDoneIff | reth-tester/src/equality.rs:30-33 | A run completes iff the client is built and every block of the range is complete in the database. Mismatches never stop the run. An aborted run prints nothing. |
| LineDiffEquality.SessionOutput | reth-tester/src/equality.rs:31-32 | A completed run prints the per-block report (one unit per block, ascending) before the range report. |
| LineDiffEquality.BlockPassIff | reth-tester/src/equality.rs:152-158 | Block k gets the pass line iff both nodes answered each of its probes successfully with the same value. |
| TesterCommonEquality.New | crates/tester-common/src/rpc/equality.rs:42-45 | The source of truth is rpc1, and tracing and the reth namespace are on. |
| TesterCommonEquality.WithTruth | crates/tester-common/src/rpc/equality.rs:48-51 | Only the source of truth changes. |
| TesterCommonEquality.WithoutTracing | crates/tester-common/src/rpc/equality.rs:54-57 | As written: `use_tracing` ends true and nothing else changes. |
| TesterCommonEquality.WithoutReth | crates/tester-common/src/rpc/equality.rs:60-63 | As written: `use_reth` ends true and nothing else changes. |
| TesterCommonEquality.DisablersAreNoOps | crates/tester-common/src/rpc/equality.rs:53-63 | On a fresh tester both "disable" builders return the tester unchanged. |
| TesterCommonEquality.DisableTracing | crates/tester-common/src/rpc/equality.rs:53-57 | Corrected builder: tracing is off and nothing else changes. |
| TesterCommonEquality.DisableReth | crates/tester-common/src/rpc/equality.rs:59-63 | Corrected builder: the reth namespace is off and nothing else changes. |
| TesterCommonEquality.DisablersCommute | crates/tester-common/src/rpc/equality.rs:53-63 | The corrected builders commute, switch both flags off together, and are idempotent. |
| TesterCommonEquality.ToReport | crates/tester-common/src/rpc/mod.rs:6-10 | `Ok` stays `Ok`. `Diff` keeps both renderings. `LocalErr` becomes `Rpc1Err` and `RemoteErr` becomes `Rpc2Err`, each keeping its message. |
| TesterCommonEquality.ConvertUnits | crates/tester-common/src/rpc/equality.rs:192 | The units handed to the reporter are the converted block units, in order. |
| TesterCommonEquality.TestPerBlock | crates/tester-common/src/rpc/equality.rs:101-194 | Per-block testing with ten probes and the inclusion reporter equals its reference. The reporter's verdict is dropped. |
| TesterCommonEquality.TestBlockRange | crates/tester-common/src/rpc/equality.rs:79-98 | The range test prints the inclusion report of the single range unit. |
| TesterCommonEquality.TestRpcEquality | crates/tester-common/src/rpc/equality.rs:67-76 | Per-block testing runs, then range testing, equal to the reference session. |
| TesterCommonEquality.SessionDoneIff | crates/tester-common/src/rpc/equality.rs:67-76 | A run completes iff every block of the range is complete in the database, whatever the nodes answered. An aborted run prints nothing. |
| TesterCommonEquality.ProbeFailsIff | crates/tester-common/src/rpc/report.rs:15-31 | A probe fails its title iff the nodes neither agree nor both answer with rpc2's JSON included in rpc1's. |
| TesterCommonEquality.BlockPassIff | crates/tester-common/src/rpc/equality.rs:192 | Block k gets the pass line iff every one of its probes passes the inclusion check. |
| TesterCommonEquality.SessionOutput | crates/tester-common/src/rpc/equality.rs:73-74 | A completed run prints the per-block inclusion report before the range report. |
| Readiness.DefaultArgs | crates/rpc-tester/src/main.rs:22-37 | With only the two URLs given, 32 blocks are tested, and the reth namespace, tracing and all-transactions switches are off. |
| Readiness.AcceptsIff | crates/rpc-tester/src/main.rs:81 | `tip1 >= tip2 \|\| tip2 - tip1 <= 5` holds iff `tip2 <= tip1 + 5`. The short-circuit keeps the `u64` subtraction from underflowing. |
| Readiness.Wait | crates/rpc-tester/src/main.rs:60-89 | The two polling loops equal the reference readiness function. That covers RPC errors, tips beyond `u64`, re-reading both tips while not accepted, and the range or the subtraction overflow. |
| Readiness.SyncedIff | crates/rpc-tester/src/main.rs:71-74 | The sync loop ends synced iff some answer is `NotSyncing` and every earlier answer is `Syncing`. |
| Readiness.TipPhaseReady | crates/rpc-tester/src/main.rs:77-88 | A range comes from the first round that is not rejected. Every earlier round was read and rejected. The range ends at rpc2's tip and starts `num_blocks` below it. |
| Readiness.TipPhaseFromAccepted | crates/rpc-tester/src/main.rs:77-86 | Rejected rounds followed by an accepted one give that round's range `tip2 - num_blocks ..= tip2`. The subtraction fails iff `num_blocks > tip2`. |
| Readiness.ReadyOnlyWhenSynced | crates/rpc-tester/src/main.rs:70-85 | No range is returned unless rpc1 reported `NotSyncing` after only `Syncing` answers. A range spans `num_blocks + 1` blocks ending at a read rpc2 tip within five of rpc1's. |
| ChainAdvance.Advance | src/exex.rs:61-64 | The tip moves by exactly one iff it is behind the explorer's tip, and is unchanged otherwise. After an advance it is at most the explorer's tip. |
| ChainAdvance.Published | src/exex.rs:41-45 | Every iteration sets `in_memory_first = storage_tip + 1` and `tip = local_tip` and leaves `ready` and `initial_height` alone. |
| ChainAdvance.LoopFacts | src/exex.rs:35-91 | Wherever the loop ends, the tip lies between the initial height and `initial_height + max_blocks`. The loop stops only at the limit, `ready` becomes true only then, and the stopped status is published. |
| ChainAdvance.StartFacts | src/exex.rs:26-57 | From the start, the tip begins at the initial height, which is recorded in the status. The loop stops exactly at `initial_height + max_blocks`. |
| ChainAdvance.StatusIrrelevant | src/main.rs:39-79 | The loop's control flow never reads the status: runs from different status records end alike at the same tip. |
| ChainAdvance.RunLoop | src/exex.rs:35-91 | The imperative loop (checkpoint read, status writes, stop check, advance, explorer re-read) equals the reference loop. |
| ChainAdvance.Exex | src/exex.rs:16-92 | The start-up calls, each propagated with `?`, then the explorer's tip is read, the initial height recorded, and the loop run from it. Equal to its reference. |
| ChainAdvance.LaunchFacts | src/exex.rs:23-32 | A failing start-up call (auth handle, finalized block, explorer client, `last_block_number()`) ends the extension before the loop, with its error. Otherwise the loop's bounds hold from the initial height it read, and a stopped loop sits at `initial_height + max_blocks`. |
| TesterCommonExex.TestRange | crates/tester-common/src/exex.rs:67-75 | The tested range is `storage_tip - 2 ..= local_tip`. It exists iff `storage_tip >= 2`. |
| TesterCommonExex.RunExex | crates/tester-common/src/exex.rs:20-81 | The start-up, the loop, then, once stopped with a second node given, the client's `expect` and the range choice, in that order. Equal to its reference. |
| TesterCommonExex.TestedRange | crates/tester-common/src/exex.rs:27-75 | A failing start-up call ends the extension with its error. A range is chosen only after the loop stopped with a second node given and `ready` set. It ends at `initial_height + num_blocks`. Once stopped with a second node given, it panics iff the node has no HTTP client, and otherwise iff the persisted tip is below 2. |
| RethMain.RunExex | src/main.rs:22-80 | The status-free loop equals its reference. |
| RethMain.NoStatusSameTips | src/main.rs:28-55 | Dropping the status changes no outcome. A failing start-up call ends the run with its error. Otherwise the tip stays within `initial_height ..= initial_height + max_blocks`, and the loop returns only at the limit. |

## Left out

- HTTP/JSON-RPC transport, the Engine API calls (`newPayload`, `forkchoiceUpdated`, `FakeCl`, `advance_chain`) and the explorer client. Their results are observations (`CallResult`, `Poll`).
- Concurrency: `tokio::join!` and `join_all` are modelled as ordered, already available results. The `Arc<RwLock<TesterStatus>>` sharing and the `tester_status` endpoint are left out. The status is a plain record owned by the loop.
- serde rendering, decoded-type equality, `similar::TextDiff` and `assert_json_include` are parameters. The `"should json"` panic of a failing rendering is not modelled: rendering is total.
- Console styling, colours, logging, sleeps, and the panic-hook handling in `find_diffs`.
- Block hashing and signer recovery. The hash is a field of the block, and the signer is an optional field of the transaction.
- Node bootstrap and CLI parsing: the binaries' `main` functions, `TestArgs`, `etherscan_provider`, and the handle channels. Their failures before the loop are one combined start-up result, whose value is the initial height. The command-line record `Readiness.CliArgs` and its defaults are modelled by `Readiness.DefaultArgs`. Clap's parsing of the command line is not modelled.
- crates/rpc-tester/src/main.rs:51-55 calls `with_tracing`, `with_reth`, `with_all_txes` and `test_equality`, which `RpcTester` does not define. The model of that binary ends with the range `wait_for_readiness` returns.
- crates/tester-common/src/exex.rs:68-74 passes a URL where `test_rpc_equality` takes two clients. The model stops at the range choice; the comparison is the equality model. The endless sleep after it is left out.
- ExEx notifications and the `FinishedHeight` event are left out. A failure to send the event counts as the iteration's advance failure.
- The macro files; the probe name is the method identifier.
- TesterCommonExex.TestRange: the `storage_tip - 2` underflow is modelled as a debug build's panic (`RangeUnderflow`). A release build would wrap to a start near 2^64, and the per-block range would be empty.
- Readiness.Wait: the `tip2 - num_blocks` underflow is modelled as a debug build's panic (`SubtractOverflow`). A release build would wrap around.
- ChainAdvance.Loop: the `u64` additions `storage_tip + 1`, `local_tip + 1` and `initial_height + num_blocks` are unbounded here, so their overflow is not modelled. The same holds for `first_tx_num + index` in ProbeCatalog.TxProbes.

## Findings

| source | as written | input that shows it | evidently intended | confidence | as-written member | corrected member |
|---|---|---|---|---|---|---|
| crates/tester-common/src/rpc/equality.rs:53-63 | `without_tracing` and `without_reth` store `true` into the flag they are documented to disable | `RpcTester::new(a, b).without_tracing()`: `use_tracing` is still `true`, and the tester is unchanged | store `false`, disabling tracing calls and the reth namespace | high (not executed) | TesterCommonEquality.DisablersAreNoOps | TesterCommonEquality.DisablersCommute |
