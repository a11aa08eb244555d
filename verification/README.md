# Verified models of the `ai/scripts` algorithms

A Dafny 4.11 model of the algorithms in `ai/scripts` that carry state across
crashes, rewrite graphs, or decide by exact arithmetic, with proofs of what they
promise. `dafny verify dfyconfig.toml` checks everything.

* **Crash-restart journal** of the K150K extractor (`StagingLog`, `Journal`,
  `JournalSafety`, `JournalExact`, `JournalCoverage`, `JournalVerdict`, `JournalMark`,
  `JournalRows`, `JournalWitness`, `JournalTorn`, `Extractor`). The durable
  state is the checkpoint file, the JSONL staging file and the parquet. `Journal`
  is a state machine with one event per durable operation and a crash everywhere,
  possibly inside a staging append; `Extractor` is the imperative control flow,
  each method proved to be an execution of that machine. A staging file is a
  sequence of pieces: whole row objects, cut prefixes, and newlines.
* **SegmentSum splice** of the TransNet V2 export (`OnnxGraph`,
  `SegmentSumRewrite`, `SegmentSumMeaning`, `SegmentSumExact`): a node list with an
  environment semantics, 32-bit wrap-around included, and the rewrite of the first
  SegmentSum into five nodes.
* **PixelShuffle replacement** of the FastDVDnet export (`Shapes`, `Tensors`,
  `PixelShuffle`, `PixelShuffleMeaning`): reshape, permute, reshape over row-major
  storage; and the bounded worklist that applies it to a graph of mutable modules
  (`ModuleTree`, `ModuleWalk`, `ModuleSwap`).
* **NR calibration** (`RealSums`, `Calibration`, `CalibrationGate`,
  `CalibrationAcceptance`): least squares, Pearson's r, the two-sigma threshold and
  the write gate, over the reals.
* **Pareto frontier with tolerances** (`ParetoSweep`, `ParetoCover`, `ParetoRising`,
  `ParetoTime`, `ParetoExact`, `ParetoOrder`).
* **Corpus aggregation** (`CorpusRows`, `CorpusJudge`, `CorpusDedup`, `CorpusDeviation`,
  `CorpusOrder`, `OutputOrder`, `Aggregator`): scale conversion, cross-corpus dedup,
  what the order of the inputs can change, the written order, and the counters.
* **Complete-case filtering** (`CompleteCase`), **double-argsort ranks** (`Ranks`,
  `Spearman`) and **block IoU** (`SaliencyBlocks`,
  `SaliencyMean`, `SaliencyIou`).

Floats are reals; NaN and infinities are constructors or `None` where the code can
meet them. `math.sqrt` is a parameter, or a root given by its square, of which only
the defining equation is used. The order in which worker futures complete, the
outcome of every append and the place of every crash are arbitrary. The order
`argsort` gives to equal values is arbitrary too.

## Where the code and its documentation differ

* A run that exits complete need not have a row for every clip
  (`ai/scripts/extract_k150k_features.py:1769-1788`): the commit replaces the parquet
  by recovered and new rows only. `CompleteIsTotalExactlyWhen` gives the exact
  condition on the files the run finds, `CoveredExactlyWhen` the one on every single
  operation, and `RetryAfterFailureLosesRows` and `GrowingLimitLosesRows` two runs
  that fail it, although the staging file is described as preserving every
  checkpointed row (`ai/scripts/extract_k150k_features.py:939-946`).
* A crash inside a staging append is described as costing the final line
  (`ai/scripts/extract_k150k_features.py:958-962`). An object left without its newline
  swallows the next append as well. `LossBoundExactlyWhen` gives the sharp bound, and
  `OnePerTearExactlyWhen` when one lost clip per torn append is one.
* Agreement with SegmentSum needs ids that are not negative; see `AgreesExactlyWhen`.
* The degenerate branch is labelled "all NR scores identical"
  (`ai/scripts/calibrate_nr_threshold.py:325`), but its guard is an absolute
  threshold. A gate with a positive minimum correlation can therefore accept a fit
  of slope 0; see `AcceptedWithoutSlope`, and `GateIsSound` for the exact condition.
* The frontier's docstring describes the hull by strictly larger VMAF with ties
  decided by encode time (`ai/scripts/analyze_knob_sweep.py:232-236`). Because a tie is
  one within the tolerance, the VMAF of the hull may fall from one position to the
  next: `HullCanDecrease`, and `FrontierRisesExactlyWhen` for the exact condition.
* The aggregator is documented to keep the tightest row and to abort on a row that
  fails conversion (`ai/scripts/aggregate_corpora.py:88-95`,
  `ai/scripts/aggregate_corpora.py:149-153`). It keeps the tightest only among the
  rows it compares, so the order of the inputs can matter:
  `AlwaysTightestExactlyWhen` says when it does. It drops and counts a row that
  fails conversion. A row without a string `src_sha256` is called legitimate
  (`ai/scripts/aggregate_corpora.py:480-486`), but beside another kind of hash in the
  same corpus it makes the final sort raise: `NullHashBesideTextFails`. The label of a
  row is described as its `corpus`, then its `corpus_source`
  (`ai/scripts/aggregate_corpora.py:249-253`); the code reads them in the other order,
  as `DropsExactlyWhen` and `ConvertsExactlyWhen` state.
* The complete-case loop is written as a fixpoint iteration; it never needs more
  than one round of removals, and the set it keeps need not be maximal:
  `CanBeEnlargedExactlyWhen` says when it is not.

## Model

| member | source | states |
|---|---|---|
| StagingLog.LoadStagingRows | ai/scripts/extract_k150k_features.py:955-985 | reading back yields the rows of the lines that parse and counts the non-blank ones that do not |
| StagingLog.MalformedLinesAre | ai/scripts/extract_k150k_features.py:955-985 | the skipped lines are the non-blank ones that are not one whole object |
| StagingLog.AppendToCleanTail | ai/scripts/extract_k150k_features.py:949-952 | after a newline-terminated file an append is read back as one more row, whatever came before |
| StagingLog.AppendToTornTail | ai/scripts/extract_k150k_features.py:949-985 | after a torn tail an append spoils the torn line and the new row, and no row of an earlier line |
| StagingLog.LoadIsUnspoiledInOrder | ai/scripts/extract_k150k_features.py:955-985 | a reload recovers the fully written rows in order, without exactly the spoiled ones |
| StagingLog.WrittenIsLoadedOrSpoiled | ai/scripts/extract_k150k_features.py:949-985 | every fully written clip is either read back or on a spoiled line |
| StagingLog.DebtOfTear | ai/scripts/extract_k150k_features.py:949-985 | a cut prefix puts at most one row at risk, a whole object without its newline at most two |
| Journal.KeepLastIsLast | ai/scripts/extract_k150k_features.py:988-1002 | the parquet writer keeps exactly the last row of every clip |
| Journal.KeepLastDistinct | ai/scripts/extract_k150k_features.py:988-1002 | no clip is written to the parquet twice |
| JournalRows.KeepLastInOrder | ai/scripts/extract_k150k_features.py:988-1002 | and the rows kept stay in order |
| JournalRows.CommittedRowsAre | ai/scripts/extract_k150k_features.py:1727-1788 | after a run that ends complete or failed, the parquet holds the rows the run extracted and, of every other clip, the last readable row in the staging file it found; with no row at all it is as before |
| JournalRows.CompleteRowsAre | ai/scripts/extract_k150k_features.py:1727-1788 | after a complete run a row is in the parquet if and only if this run extracted it, or its clip was not pending and it is the last readable row of that clip in the staging file found |
| JournalRows.NoopRowsAre | ai/scripts/extract_k150k_features.py:1599-1606 | after a run with nothing pending it holds the last readable row of each staged clip, or is as before when nothing was staged |
| JournalRows.NoClipIsReadableTwice | ai/scripts/extract_k150k_features.py:1728-1737 | over any executions a clip recovered from the staging file is not appended again, so no clip is readable twice |
| JournalRows.RowsAreGenuine | ai/scripts/extract_k150k_features.py:949-1002 | every row in the parquet, or readable in the staging file, was extracted with these features by some run |
| JournalSafety.SaneAlways | ai/scripts/extract_k150k_features.py:1718-1788 | over every run sequence with a fixed clip list: nothing durable names an unknown clip, the parquet repeats none, and the row accounting of the open batch holds |
| JournalSafety.NoopVerdictSane | ai/scripts/extract_k150k_features.py:1609-1627 | comparing two cardinalities decides equality of the checkpoint and the parquet names |
| JournalSafety.NoopIsSound | ai/scripts/extract_k150k_features.py:1599-1648 | whenever a run reports complete-noop, the parquet, the checkpoint and the clip list name the same clips |
| JournalSafety.LedgerAlways | ai/scripts/extract_k150k_features.py:949-985 | what torn appends can ever cost, spoiled or still at risk, never exceeds the damage done so far |
| JournalSafety.LossIsBounded | ai/scripts/extract_k150k_features.py:949-985 | with no failing run reaching the unlink, at most one checkpointed clip is lost per cut prefix and two per object left without its newline |
| JournalSafety.CoverageIsSafe | ai/scripts/extract_k150k_features.py:1718-1788 | with whole-line appends and no failing run reaching the unlink, every reachable state has every checkpointed clip in the parquet or the staging file |
| JournalSafety.CompletionIsTotal | ai/scripts/extract_k150k_features.py:1769-1815 | over one clip list, when no run with a failed clip reached the unlink, a run that ends complete leaves the checkpoint equal to the clip list, no staging file, and a parquet of all clips up to the damage of torn appends |
| JournalExact.RowsAreAccounted | ai/scripts/extract_k150k_features.py:1725-1746 | rows = recovered + ok + checkpoint-append faults at every moment of a batch |
| JournalExact.RefusalMeansMarkFault | ai/scripts/extract_k150k_features.py:1769-1785 | a commit of nonempty rows is refused exactly when a checkpoint append faulted, and then changes nothing |
| JournalExact.StepCoverage | ai/scripts/extract_k150k_features.py:1769-1788 | with whole-line appends, one step loses coverage exactly when it replaces a parquet that alone holds a checkpointed clip |
| JournalExact.CoverageExactly | ai/scripts/extract_k150k_features.py:1718-1788 | with whole-line appends and any clip lists, an execution keeps coverage in every state if and only if every commit is safe in that sense |
| JournalCoverage.StepKeepsExactly | ai/scripts/extract_k150k_features.py:949-985 | torn appends included, one operation loses coverage exactly when it glues onto a line that alone holds a needed clip, checkpoints a clip that is not readable, replaces a parquet or drops a staging file still needed |
| JournalCoverage.CoveredExactlyWhen | ai/scripts/extract_k150k_features.py:1718-1788 | any execution at all is covered in every state if and only if each of its operations is safe in that sense |
| JournalMark.MarkKeepsExactlyWhen | ai/scripts/extract_k150k_features.py:1729-1743 | after any history, a run checkpoints a clip that has its row exactly when the parquet it found has it, or a recovered row stood on a closed line or nothing was appended since, or a row that was not recovered began a fresh line |
| JournalExact.DamageCountsTears | ai/scripts/extract_k150k_features.py:949-985 | the cost tally of the torn appends lies between one and two per torn append, and is one each exactly when no object is left without its newline |
| JournalTorn.CutsLoseOneEach | ai/scripts/extract_k150k_features.py:949-985 | when every torn append leaves a cut prefix, at most one checkpointed clip is lost per torn append |
| JournalTorn.LossIsAttained | ai/scripts/extract_k150k_features.py:949-985 | for all numbers of cut prefixes and of objects without newline, an otherwise careful execution loses exactly cuts + 2 wholes checkpointed clips |
| JournalTorn.LossBoundExactlyWhen | ai/scripts/extract_k150k_features.py:949-985 | a bound on the loss holds of all careful executions with those tears exactly when it is at least cuts + 2 wholes |
| JournalTorn.OnePerTearExactlyWhen | ai/scripts/extract_k150k_features.py:949-985 | one lost clip per torn append is a bound if and only if no append leaves a whole object without its newline |
| JournalTorn.TwoLostPerCrash | ai/scripts/extract_k150k_features.py:949-985 | for every k an execution with k crashes loses 2k checkpointed clips |
| JournalVerdict.CompleteWrites | ai/scripts/extract_k150k_features.py:1749-1788 | after any history, a run that ends complete has checkpointed its clips and left a parquet that names exactly the clips staged when it started and the pending ones |
| JournalVerdict.CompleteIsTotalExactlyWhen | ai/scripts/extract_k150k_features.py:1769-1815 | so the clips it has no row for are the checkpointed ones not readable in the staging file it found, and complete means total if and only if there are none |
| JournalVerdict.ResumingWithoutStagingLoses | ai/scripts/extract_k150k_features.py:1769-1788 | a complete run that found no staging file drops every clip checkpointed before it |
| JournalWitness.RetryAfterFailureLosesRows | ai/scripts/extract_k150k_features.py:1769-1788 | such a run is reached: a commit with a failed clip, then a successful retry that ends complete without the first row |
| JournalWitness.GrowingLimitLosesRows | ai/scripts/extract_k150k_features.py:1565-1573 | and so it is by two faultless runs with a growing --limit, noticed only by a later no-op run |
| Extractor.CompletionIsExecution | ai/scripts/extract_k150k_features.py:1729-1743 | handling one worker future is an execution of the journal protocol |
| Extractor.Files.AppendDone | ai/scripts/extract_k150k_features.py:928-931 | one checkpoint name is appended |
| Extractor.Files.AppendRowToStaging | ai/scripts/extract_k150k_features.py:949-952 | a whole line is appended, or the append raises and leaves its torn residue |
| Extractor.Files.WriteParquetFromRows | ai/scripts/extract_k150k_features.py:988-1002 | empty rows change nothing; otherwise the parquet is replaced by the last row of every clip |
| Extractor.Files.MakeExtractionPlan | ai/scripts/extract_k150k_features.py:1565-1573 | the pending clips are the enumerated ones without a checkpoint |
| Extractor.PendingKeepsOrder | ai/scripts/extract_k150k_features.py:1565-1573 | in the order of the enumeration |
| Extractor.Files.RecoverStagedRows | ai/scripts/extract_k150k_features.py:1599-1606 | staged rows replace the parquet before the staging file goes; the protocol agrees |
| Extractor.Files.VerifyNoopConsistency | ai/scripts/extract_k150k_features.py:1609-1627 | raises exactly when the checkpoint outnumbers the parquet rows |
| Extractor.Files.FinishNoop | ai/scripts/extract_k150k_features.py:1630-1648 | ends as refused or complete-noop, in the state the protocol reaches |
| Extractor.Files.CollectOne | ai/scripts/extract_k150k_features.py:1729-1743 | one future changes the files as the protocol says, and reports whether the clip succeeded |
| Extractor.Files.CollectExtractJobs | ai/scripts/extract_k150k_features.py:1718-1746 | for any completion order the loop is a protocol execution, the rows are the recovered ones followed by the new ones, the clips that succeeded are checkpointed, ok + fail counts every clip, and fail is 0 exactly when every clip succeeded |
| Extractor.Files.WriteBatchRows | ai/scripts/extract_k150k_features.py:1769-1788 | refuses exactly on mismatched bookkeeping and then changes nothing; otherwise rows replace the parquet and the staging file goes |
| Extractor.Files.RunPendingBatch | ai/scripts/extract_k150k_features.py:1749-1766 | the batch ends complete exactly when every clip succeeded and refused exactly when a checkpoint append faulted |
| Extractor.Files.Run | ai/scripts/extract_k150k_features.py:1818-1836 | one invocation from any reachable history is a protocol execution ending in these files with this status; a complete one wrote this run's row of every pending clip and the last staged row of every other staged clip, which is every clip exactly when the checkpointed ones were readable in the staging file; a failed one the same for the clips that succeeded; and the clips checkpointed are those that succeeded |
| Extractor.ExitStatusIsTrustworthy | ai/scripts/extract_k150k_features.py:1630-1648 | complete has a row for every clip if and only if the checkpointed clips were readable in the staging file the run found; complete-noop over one clip list always means parquet = checkpoint = clips |
| SegmentSumRewrite.FindSegmentSumNode | ai/scripts/export_transnet_v2.py:196-200 | finds the first SegmentSum, or none when there is none |
| SegmentSumRewrite.ReplaceSegmentSum | ai/scripts/export_transnet_v2.py:254-296 | no SegmentSum leaves the graph alone; otherwise it succeeds exactly when the segment count is the expected initializer, and then the first one is spliced |
| SegmentSumRewrite.FlatTotalIsSegmentTotal | ai/scripts/export_transnet_v2.py:216-228 | summing the flattened data by flattened ids is the row-by-row segment sum of the matrix |
| OnnxGraph.WrapIsCongruent | ai/scripts/export_transnet_v2.py:244-254 | 32-bit wrap-around yields the one 32-bit integer congruent to the sum |
| SegmentSumRewrite.ScatterTotals | ai/scripts/export_transnet_v2.py:244-254 | sequential 32-bit scatter-add into zeros leaves the wrapped total of every segment |
| SegmentSumRewrite.SplicedIsSegmentSum | ai/scripts/export_transnet_v2.py:203-251 | reshape, cast and scatter-add equal SegmentSum for ids in range |
| SegmentSumMeaning.SpliceKeepsOrder | ai/scripts/export_transnet_v2.py:286-298 | splicing five nodes for one keeps the graph topologically ordered with names assigned once |
| SegmentSumMeaning.RunApart | ai/scripts/export_transnet_v2.py:203-218 | nodes that avoid the reserved prefix run the same beside any reserved names |
| SegmentSumMeaning.RewritePreservesMeaning | ai/scripts/export_transnet_v2.py:254-298 | for every well-ordered graph avoiding the prefix, every feed and every kernel semantics, when the ids of the spliced SegmentSum lie in range, the spliced graph computes every original name to the same value |
| SegmentSumExact.ScatterSucceeds | ai/scripts/export_transnet_v2.py:244-254 | the scatter accepts exactly ids from -count to count - 1 |
| SegmentSumExact.AgreesExactlyWhen | ai/scripts/export_transnet_v2.py:203-251 | the splice agrees with SegmentSum on all data exactly when no id is negative, or some id is too large and both fail |
| SegmentSumExact.NegativeIdDisagrees | ai/scripts/export_transnet_v2.py:203-251 | every negative id has data on which the splice differs, since SegmentSum drops it and ScatterND wraps it |
| Calibration.FitIsUnbiased | ai/scripts/calibrate_nr_threshold.py:314-332 | the residuals of every fit, degenerate or not, sum to zero |
| Calibration.FitIsOptimal | ai/scripts/calibrate_nr_threshold.py:314-332 | a non-degenerate fit has the least sum of squares over all lines, with residuals orthogonal to x |
| Calibration.FitAgainstX | ai/scripts/calibrate_nr_threshold.py:323-331 | the residuals are orthogonal to x exactly up to the co-moment the degenerate branch ignores |
| Calibration.SseOfOtherLine | ai/scripts/calibrate_nr_threshold.py:314-332 | the sum of squares of any other line, expanded around a given one |
| Calibration.DegenerateIsOptimalIff | ai/scripts/calibrate_nr_threshold.py:324-327 | the degenerate branch is optimal exactly when x and y do not co-vary |
| Calibration.IdenticalScoresDoNotCoVary | ai/scripts/calibrate_nr_threshold.py:324-327 | identical scores take the degenerate branch and do not co-vary |
| CalibrationGate.PearsonIsNormalised | ai/scripts/calibrate_nr_threshold.py:346-357 | when defined, r lies in [-1, 1] and r^2 Sxx Syy = Sxy^2 |
| CalibrationAcceptance.PearsonIsDefinedExactlyWhen | ai/scripts/calibrate_nr_threshold.py:346-357 | r is defined exactly when there are two samples and the root s of Sxx Syy is at least 1e-12, and then r s = Sxy |
| CalibrationGate.SseOfFit | ai/scripts/calibrate_nr_threshold.py:314-332 | every fit, degenerate or not, leaves Syy minus slope times Sxy |
| CalibrationGate.SseIsUnexplained | ai/scripts/calibrate_nr_threshold.py:346-357 | a non-degenerate fit leaves (1 - r^2) Syy as its sum of squared residuals |
| CalibrationGate.GateIsSound | ai/scripts/calibrate_nr_threshold.py:360-377 | an accepted calibration has m <= r <= 1; it leaves at most (1 - m^2) Syy and has a positive slope exactly when its fit is not degenerate |
| CalibrationAcceptance.AcceptedExactlyWhen | ai/scripts/calibrate_nr_threshold.py:346-377 | samples pass if and only if there are two and the required number of them, s is at least 1e-12 and Sxy is at least the required correlation times s |
| CalibrationAcceptance.TooFewSamples | ai/scripts/calibrate_nr_threshold.py:809-833 | fewer than two samples give the identity line, the default threshold 8 and no acceptance |
| CalibrationAcceptance.SigmaOfOne | ai/scripts/calibrate_nr_threshold.py:809-833 | the sigma of one sample is the distance of its two scores |
| CalibrationAcceptance.OverrideIsUsed | ai/scripts/calibrate_nr_threshold.py:823-825 | an override replaces the threshold and nothing else |
| CalibrationAcceptance.WideScoresAreFitted | ai/scripts/calibrate_nr_threshold.py:323-331 | two NR scores a millionth or more apart suffice for the least-squares line |
| CalibrationAcceptance.SigmaIsResidualDeviation | ai/scripts/calibrate_nr_threshold.py:822 | (n - 1) sigma^2 is the residual sum of squares |
| CalibrationGate.AcceptedWithoutSlope | ai/scripts/calibrate_nr_threshold.py:324-327 | two samples with half spreads p and q are accepted with correlation 1 and slope 0 whenever 4p^2 is below 1e-12 and 2pq is not |
| CalibrationGate.NarrowSpreadsExist | ai/scripts/calibrate_nr_threshold.py:324-327 | an NR spread of 2e-7 over an FR spread of 40 is such a pair |
| CalibrationGate.DeltaIsTwoSigma | ai/scripts/calibrate_nr_threshold.py:809-833 | without an override the threshold is twice the uncentred sigma |
| CalibrationGate.FewResidualsExceed | ai/scripts/calibrate_nr_threshold.py:335-343 | four times the number of residuals beyond the threshold is at most n - 1 |
| ParetoSweep.ParetoFrontier | ai/scripts/analyze_knob_sweep.py:221-257 | the sweep with tail replacement computes the held rows of the slots |
| ParetoSweep.SortSorts | ai/scripts/analyze_knob_sweep.py:239-242 | the sort is a sorted permutation |
| ParetoTime.SortIsStable | ai/scripts/analyze_knob_sweep.py:239-242 | and rows with equal keys keep their order |
| ParetoSweep.SweepShape | ai/scripts/analyze_knob_sweep.py:243-257 | every slot stays within the tolerances of the row that opened it, and slots are in step |
| ParetoSweep.DriftIsProduct | ai/scripts/analyze_knob_sweep.py:251-256 | the bitrate slack of a slot is its number of replacements times the tolerance |
| ParetoCover.FrontierCovers | ai/scripts/analyze_knob_sweep.py:221-257 | every input row has a hull row within 2 tolerances of VMAF and k of bitrate, k the replacements of that slot |
| ParetoCover.BetterIsNotCheaper | ai/scripts/analyze_knob_sweep.py:221-257 | an input row beating a hull row by more than 2 tolerances costs at least as much bitrate |
| ParetoTime.HullIsFastest | ai/scripts/analyze_knob_sweep.py:221-257 | for all tolerances, no input row of the bitrate of a hull row and of at least its VMAF is faster |
| ParetoTime.HullOfTwo | ai/scripts/analyze_knob_sweep.py:243-257 | the hull of any two rows: both tolerances are inclusive, and a replacement must be strictly faster |
| ParetoCover.FrontierOrder | ai/scripts/analyze_knob_sweep.py:221-257 | hull bitrate never falls, VMAF falls by less than a tolerance, and rises over any two positions |
| ParetoCover.HullCanDecrease | ai/scripts/analyze_knob_sweep.py:251-256 | four rows whose hull VMAF falls from one position to the next |
| ParetoRising.VisitRisesExactlyWhen | ai/scripts/analyze_knob_sweep.py:244-256 | a row keeps a strictly rising hull rising exactly when it does not replace the tail while being no better than the row before it |
| ParetoRising.SweepAlwaysRisesExactlyWhen | ai/scripts/analyze_knob_sweep.py:243-257 | the hull rises strictly after every row of the sweep if and only if no such replacement happens |
| ParetoRising.FrontierRisesExactlyWhen | ai/scripts/analyze_knob_sweep.py:221-257 | the returned hull rises strictly if and only if no row opens a position while the last replacement has left the tail no better than the row before it, and the sweep does not end so |
| ParetoRising.FallNeedsReplacements | ai/scripts/analyze_knob_sweep.py:251-256 | where the final hull does not rise, both neighbouring positions were replaced |
| ParetoExact.NeverReplaces | ai/scripts/analyze_knob_sweep.py:251-256 | at zero tolerance the replacement branch is unreachable |
| ParetoExact.ExactHullIsOptimal | ai/scripts/analyze_knob_sweep.py:221-257 | at zero tolerance every hull row is non-dominated and fastest at its point |
| ParetoExact.ExactHullIsComplete | ai/scripts/analyze_knob_sweep.py:221-257 | and every non-dominated point has exactly one hull row |
| ParetoOrder.FrontierIsOrderFree | ai/scripts/analyze_knob_sweep.py:239-257 | the bitrate, VMAF and time of the hull do not depend on the input order |
| Shapes.UnravelOfRavel | ai/scripts/export_fastdvdnet_pre.py:149-151 | row-major positions determine their index |
| Shapes.RavelOfUnravel | ai/scripts/export_fastdvdnet_pre.py:149-151 | and indices their position |
| PixelShuffle.PermuteAt | ai/scripts/export_fastdvdnet_pre.py:150 | an element of the permuted copy is the element at the unpermuted index |
| PixelShuffleMeaning.ReturnsExactlyWhen | ai/scripts/export_fastdvdnet_pre.py:144-152 | the pass returns exactly on rank-4 tensors whose channels r^2 divides, or that are empty in another axis, and scales both axes |
| PixelShuffleMeaning.ShuffleMovesBlocks | ai/scripts/export_fastdvdnet_pre.py:144-152 | out[b, c, yr + i, xr + j] = in[b, c r^2 + ir + j, y, x] |
| PixelShuffleMeaning.TargetOfSource | ai/scripts/export_fastdvdnet_pre.py:144-152 | the index map has a left inverse |
| PixelShuffleMeaning.SourceOfTarget | ai/scripts/export_fastdvdnet_pre.py:144-152 | which is also its right inverse |
| PixelShuffleMeaning.OutputReadsSource | ai/scripts/export_fastdvdnet_pre.py:144-152 | every output element is one input element |
| PixelShuffleMeaning.InputReachesTarget | ai/scripts/export_fastdvdnet_pre.py:144-152 | every input element is one output element |
| ModuleWalk.VisitChildren | ai/scripts/export_fastdvdnet_pre.py:164-168 | one visit replaces the PixelShuffle children in place and pushes the others in order |
| ModuleWalk.VisitTop | ai/scripts/export_fastdvdnet_pre.py:163-168 | popping and visiting replaces below a module once, however often it is met, and leaves the rest linked as before |
| ModuleWalk.VisitPending | ai/scripts/export_fastdvdnet_pre.py:163-168 | a visit does one unit of the remaining work, be it the first of its module, a later one, or that of a replacement |
| ModuleWalk.ReplacePixelShuffle | ai/scripts/export_fastdvdnet_pre.py:155-171 | for every acyclic module graph, shared modules included: returns exactly when at most 9,999 pops empty the stack, and then the tree stands for the swapped tree over the same objects; on the error every module is done or untouched |
| ModuleWalk.SharingAddsPops | ai/scripts/export_fastdvdnet_pre.py:161-168 | the pops are never fewer than the modules of the tree that are not at or below a PixelShuffle |
| ModuleWalk.UnsharedPops | ai/scripts/export_fastdvdnet_pre.py:161-168 | and as many when no module object is registered twice |
| ModuleWalk.FinalPlan | ai/scripts/export_fastdvdnet_pre.py:155-171 | local replacements everywhere make up the swapped tree |
| ModuleSwap.SwapAt | ai/scripts/export_fastdvdnet_pre.py:155-171 | at every path a PixelShuffle strictly below the root became a Safe of the same factor, and nothing else changed |
| ModuleSwap.SwapIsIdempotent | ai/scripts/export_fastdvdnet_pre.py:155-171 | rewriting again changes nothing |
| ModuleSwap.VisitsCountsOthers | ai/scripts/export_fastdvdnet_pre.py:161-168 | with childless PixelShuffles the walk visits the root and every module that is not one |
| CorpusRows.ConvertedIsOnUnifiedScale | ai/scripts/aggregate_corpora.py:263-286 | a converted row carries its native rating mapped affinely onto 0-100, within the slack, under the label it was read or overridden with |
| CorpusRows.ConversionKeepsOrder | ai/scripts/aggregate_corpora.py:263-286 | conversion is strictly increasing within a corpus |
| CorpusJudge.DropsExactlyWhen | ai/scripts/aggregate_corpora.py:246-299 | a row stops the run exactly when it lacks a key, and is dropped for its corpus exactly when there is no override and neither corpus_source nor, in its absence, corpus is a known label |
| CorpusJudge.ConvertsExactlyWhen | ai/scripts/aggregate_corpora.py:182-326 | any other row converts exactly when its rating is a number within the slack of its scale and its cells are usable, to the row stated, and is otherwise dropped for its scale |
| CorpusDedup.RowsAreConserved | ai/scripts/aggregate_corpora.py:471-497 | rows = kept + cross-corpus duplicates + same-corpus repeats |
| CorpusDedup.KeptIsLeftmostTightest | ai/scripts/aggregate_corpora.py:345-365 | the kept row is the leftmost tightest of the rows of its key that were compared |
| CorpusDeviation.KeptReportsNoMore | ai/scripts/aggregate_corpora.py:345-365 | if the first row of some corpus reports a positive deviation v, the kept row reports a positive one of at most v |
| CorpusDeviation.SilentKeepsFirst | ai/scripts/aggregate_corpora.py:345-365 | if no row of a key reports a positive deviation, its first row is kept |
| CorpusDeviation.LeastReportIsKept | ai/scripts/aggregate_corpora.py:345-365 | if no corpus repeats the key and some row reports a positive deviation, the first row with the least one is kept |
| CorpusDeviation.HashIsKey | ai/scripts/aggregate_corpora.py:479-486 | rows with a hash share a key exactly when they share the hash |
| CorpusDeviation.NoHashKey | ai/scripts/aggregate_corpora.py:479-486 | rows without one share a key exactly when they share source file and corpus |
| CorpusDedup.KeptIsTightestExactlyWhen | ai/scripts/aggregate_corpora.py:471-497 | it is the tightest of all exactly when no skipped repeat is tighter than every compared row |
| CorpusDedup.KeptBeatsEveryFirst | ai/scripts/aggregate_corpora.py:345-365 | it is at least as tight as the first row of every corpus with that key |
| CorpusDedup.KeptIsLeftmostMinimum | ai/scripts/aggregate_corpora.py:345-365 | when no corpus repeats a key, it is the leftmost tightest row |
| CorpusDedup.KeptIsTightest | ai/scripts/aggregate_corpora.py:345-365 | when the rows of each corpus with a key agree on the uncertainty, the kept row is a tightest one |
| CorpusDedup.NoRepeatsAgree | ai/scripts/aggregate_corpora.py:490-494 | corpora without repeats meet that condition |
| CorpusDedup.RepeatCanBeTightest | ai/scripts/aggregate_corpora.py:490-494 | with a repeated corpus a tighter row can be discarded |
| CorpusDedup.OtherOrderIsTighter | ai/scripts/aggregate_corpora.py:490-494 | which the other order of the same two rows keeps |
| CorpusOrder.AlwaysTightestExactlyWhen | ai/scripts/aggregate_corpora.py:471-497 | every order of the rows of a key, repeated or not, keeps a tightest one if and only if no chain of ever tighter rows that are not tightest, each from another corpus than the one before, visits the corpus of every tightest row |
| CorpusOrder.OrderNeverMattersExactlyWhen | ai/scripts/aggregate_corpora.py:471-497 | the kept uncertainty is the same in every order if and only if there is no such chain |
| CorpusOrder.SoleCorpusEvadedExactlyWhen | ai/scripts/aggregate_corpora.py:490-494 | when one corpus has all the tightest rows, there is one exactly when that corpus also has a wider row of the key |
| CorpusOrder.UncertaintyIsOrderFree | ai/scripts/aggregate_corpora.py:471-497 | when the rows of each corpus agree, the kept uncertainty depends neither on the input order nor on repetitions |
| CorpusOrder.RepeatMakesOrderMatter | ai/scripts/aggregate_corpora.py:490-494 | two rows of one corpus have such a chain, so their order changes the kept uncertainty |
| Aggregator.EveryRowIsAccountedFor | ai/scripts/aggregate_corpora.py:428-497 | rows_in = rows_out + unknown corpus + bad scale + cross-corpus duplicates + repeats |
| Aggregator.Aggregation.AddConvertedRow | ai/scripts/aggregate_corpora.py:471-497 | one insertion extends the fold by one row and counts a cross-corpus duplicate |
| Aggregator.Aggregation.MergeRow | ai/scripts/aggregate_corpora.py:437-468 | one row adds its verdict to the run and stops it exactly when a required key is missing |
| Aggregator.Aggregation.MergeInput | ai/scripts/aggregate_corpora.py:428-468 | a shard adds the verdicts of all its rows |
| Aggregator.Aggregation.MergeShard | ai/scripts/aggregate_corpora.py:408-416 | an absent path counts as missing and changes nothing else; a present one is merged |
| OutputOrder.SortedKeys | ai/scripts/aggregate_corpora.py:513-516 | the kept keys once each, sorted by corpus, content hash and key, or an error exactly when two kept rows of one corpus have hashes that cannot be compared |
| OutputOrder.OrderMeans | ai/scripts/aggregate_corpora.py:513-516 | corpora come first, then hashes, then keys |
| OutputOrder.FirstDifferenceDecides | ai/scripts/aggregate_corpora.py:513-516 | and strings compare at their first difference, a prefix coming first |
| OutputOrder.NeighboursDecide | ai/scripts/aggregate_corpora.py:513-516 | when every comparison of a key with the next one succeeds in order, any two keys are comparable and in order |
| OutputOrder.ArrangedIsSortable | ai/scripts/aggregate_corpora.py:513-516 | so any sort that compares the neighbours of its result without an error proves the kept keys of one corpus comparable |
| OutputOrder.OrderIsUnique | ai/scripts/aggregate_corpora.py:511-516 | there is only one such order |
| OutputOrder.OutputIsDetermined | ai/scripts/aggregate_corpora.py:511-518 | so the written rows are the kept ones in an order that what was kept determines |
| Aggregator.Aggregation.WriteKeyedRows | ai/scripts/aggregate_corpora.py:500-522 | every kept row is written once, in that order; raises exactly when the sort does, and then writes nothing |
| Aggregator.NullHashBesideTextFails | ai/scripts/aggregate_corpora.py:480-516 | one row with a null hash beside one with a text, of one corpus: both are kept and nothing is written |
| Aggregator.Aggregate | ai/scripts/aggregate_corpora.py:373-425 | succeeds exactly when some input exists, every row has its keys and no two kept rows of one corpus have incomparable hashes; the seven counters are then the ones of the inputs and account for every row |
| CompleteCase.CompleteCaseFeatures | ai/scripts/feature_correlation.py:149-173 | the loop terminates with a closed form: one round of removals decides everything |
| CompleteCase.SecondRoundIsLast | ai/scripts/feature_correlation.py:154-172 | after one round nothing kept is constant, and rows remain if there were any |
| CompleteCase.RetainedGrows | ai/scripts/feature_correlation.py:155-161 | the retained rows never shrink between rounds |
| CompleteCase.CompleteCaseIsSound | ai/scripts/feature_correlation.py:149-173 | the rows are exactly the original ones finite on kept columns and target; kept columns vary on them; kept and skipped partition the input and keep its order |
| CompleteCase.RowsHaveNumbers | ai/scripts/feature_correlation.py:154-159 | the kept rows are those with a finite number in every kept column and the target, infinities and missing cells excluded |
| CompleteCase.NonNumericExactlyWhen | ai/scripts/feature_correlation.py:154-160 | the non-numeric error is raised exactly when a text stands in a row without missing cells, at once or after the removals |
| CompleteCase.KeptExactlyWhen | ai/scripts/feature_correlation.py:166-172 | a column is kept exactly when two rows finite on all columns differ in it |
| CompleteCase.RaisesExactlyWhen | ai/scripts/feature_correlation.py:162-173 | which inputs raise for lack of rows and which for lack of columns |
| CompleteCase.CanBeEnlargedExactlyWhen | ai/scripts/feature_correlation.py:166-172 | some larger set of features would have varied throughout if and only if a single skipped feature could rejoin the kept ones |
| CompleteCase.CouldRejoinMeans | ai/scripts/feature_correlation.py:155-166 | which is two rows finite on the kept features, the target and it, that differ in it |
| CompleteCase.SkippedMayVary | ai/scripts/feature_correlation.py:166-172 | such a frame, with no column constant beforehand: a skipped column varies on the rows finally kept |
| Ranks.RanksInvertOrder | ai/scripts/eval_multiseed_v3_v4.py:150-151 | the second argsort is the inverse permutation of the first |
| Ranks.RankBounds | ai/scripts/eval_multiseed_v3_v4.py:150-151 | a rank lies between the number of smaller and of no larger other values, ties in any order |
| Ranks.RankCountsSmaller | ai/scripts/eval_multiseed_v3_v4.py:150-151 | with distinct values a rank is the number of smaller ones |
| Ranks.TransformKeepsArgsorts | ai/scripts/eval_multiseed_v3_v4.py:150-151 | a strictly increasing transform has the same possible argsorts, ties included |
| Ranks.TransformKeepsRanks | ai/scripts/eval_multiseed_v3_v4.py:150-151 | and with distinct values the same ranks |
| Spearman.RankSums | ai/scripts/eval_multiseed_v3_v4.py:150-152 | every rank vector has the sums of 0, ..., n - 1 |
| Spearman.SpearmanFormula | ai/scripts/eval_multiseed_v3_v4.py:145-153 | the correlation of the ranks is 1 - 6 sum d^2 / (n (n^2 - 1)), and 1 exactly on equal ranks |
| Spearman.CoefficientIsInvariant | ai/scripts/eval_multiseed_v3_v4.py:145-153 | the coefficient is unchanged by a strictly increasing transform of distinct predictions |
| SaliencyBlocks.BlockedAt | ai/scripts/eval_saliency_per_mb.py:138-139 | element (p, i, q, j) of the reshaped crop is pixel (p s + i, q s + j) |
| SaliencyBlocks.BlockIsMeanOfPixels | ai/scripts/eval_saliency_per_mb.py:127-140 | a block is set exactly when the mean of its own pixels reaches the threshold |
| SaliencyMean.BlockFollowsPixels | ai/scripts/eval_saliency_per_mb.py:127-140 | a block is set exactly when its pixels add up to the threshold times their number; so it is when each reaches the threshold, and is not when none does |
| SaliencyMean.SumOfUniform | ai/scripts/eval_saliency_per_mb.py:138-140 | equal pixels add up to their value times their number |
| SaliencyMean.SumChanges | ai/scripts/eval_saliency_per_mb.py:138-140 | every pixel of a region counts once in its sum, and no other pixel does |
| SaliencyBlocks.PixelHasOneBlock | ai/scripts/eval_saliency_per_mb.py:138-139 | every cropped pixel lies in exactly one block |
| SaliencyBlocks.RefusesExactlyWhen | ai/scripts/eval_saliency_per_mb.py:129-137 | only bad arguments and a mask smaller than a block are refused |
| SaliencyIou.ScoreIsSound | ai/scripts/eval_saliency_per_mb.py:143-150 | block counts add up to intersection + union, the score is in [0, 1] and is 1 exactly on equal masks |
| SaliencyIou.ScoreCountsBlocks | ai/scripts/eval_saliency_per_mb.py:143-150 | intersection and union are the numbers of blocks set in both and in either, and the score is their ratio |
| SaliencyIou.MicroIouIsBetween | ai/scripts/eval_saliency_per_mb.py:214-217 | the pooled score lies between the least and the greatest score of the pairs with a union |
| SaliencyIou.MicroIouIsOneExactlyWhen | ai/scripts/eval_saliency_per_mb.py:214-217 | and is 1 exactly when every pair agrees |

## Left out

- Journal: fsync, power loss and anything below an atomic rename or unlink; a torn append happens in the staging file only, and checkpoint lines are whole and carry no surrounding blanks.
- Journal: preflight checks, MOS coverage and manifests, which stop a run before or after its durable operations.
- Journal: JSON text; a line is a row when it is exactly one whole object, as sections 2 and 4 of RFC 8259 make a prefix followed by an object no JSON text.
- Extractor: process pools; a worker yields a row or fails, and futures complete in any order.
- OnnxGraph: SegmentSum for rank-2 32-bit integer data with ids of the same shape, ids below zero dropped and ids at or above the count an error, as TensorFlow defines it; one-dimensional ConstantOfShape; ScatterND for rank-1 data; every other operator is an arbitrary function of its inputs.
- SegmentSumRewrite: the model checker call, the saved file and value_info.
- SegmentSumMeaning.RewritePreservesMeaning: the SegmentSum node has one output and every input name is nonempty; a graph the original cannot run is not compared.
- PixelShuffle: a negative upscale factor, which the reshape refuses.
- ModuleWalk.ReplacePixelShuffle: a module that contains itself, and one module object under two names of the same parent; a child's position stands for its name.
- Calibration: rounding, so thresholds of 1e-12 are compared exactly; the sweep that produces the samples and the model file update.
- ParetoSweep: stratification, regression detection against the bare encoder, and reports, which would add easy members.
- ParetoSweep: NaN scores.
- Aggregator: the temporary file and its rename.
- OutputOrder.SortedKeys: a `src_sha256` that is a list or a NaN; which pairs of those raise depends on the pairs the sort compares.
- Aggregator: reading JSONL; malformed JSON; payload columns are one text that either converts or makes the row fail.
- Aggregator: an integer column holding an infinity, whose OverflowError the driver does not catch.
- CompleteCase: data frames with repeated column names, text that reads as a number, and the earlier column selection, which is a plain partition.
- Ranks: training, folds and the other metrics.
- Ranks.TransformKeepsRanks: with equal values the ranks depend on the library's tie order, so only the set of possible argsorts is shown invariant.
- SaliencyBlocks: PGM and NPY reading, normalisation and the pairing of files; the macro average is a plain mean.
- Benchmarks, exporters, registries, fetch scripts, command lines and reports.
