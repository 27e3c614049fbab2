# Proofs about boundary analysis, fuzz feedback, shared outputs and evidence digests

This project models four parts of the repository in Dafny and proves what they promise. `dafny verify dfyconfig.toml`
checks all of it.

**Foreign-code analysis and verdicts** (`ForeignIr`, `IrText`, `ControlFlow`, `PathInfo`, `UseIndex`, `Dataflow`,
`FunctionFlow`, `Descent`, `Semantics`, `UseCompleteness`, `Invariants`, `Walks`, `Definiteness`, `CopyOrder`,
`Retention`, `RunPaths`, `Queries`, `Analyze`, `ForeignFacts`, `Compatibility`, `Joint`, `EndToEnd`, `Limits`). The analyzer reads a bounded form of LLVM and answers whether a
registration function keeps a callback, whether a clear function lets go of it, and whether it may be invoked later; the
verdict combines this with facts from the Rust side. The analyzer's loops (use index, spill cells, the joint fixpoint over
origins, slots and caller-owned pointers, the post-dominator sweeps, the three queries) are methods over a class and over
updated maps. Each is proved against a specification function or predicate. `Semantics` gives the instruction tree a
small-step meaning with registers, stack cells, an environment that owns all other memory and chooses branches and loaded
values, and symbolic argument tokens. The main results speak about every run: a NoRetain answer, a ClearsOnAllPaths answer
and a RetainOnEveryPath answer are each true of the runs they are about, and a compatible verdict rests on one of them. What
the analyzer exempts is not taken on trust: entries are named, debug markers and other notes to the compiler are spelled in
the semantics, and every judgement, label and verdict is characterised by conditions that do not mention the code that makes
it.

The run theorems rest on conditions that are stated in the lemmas:

- *Single assignment and placement* (`SsaForm`, `WellPlaced`): what LLVM guarantees of a function, including that only
  integers are address indices, so that a stack address never is one.
- *No alias as an address index* (`NoAliasIndex`): the use list records only the base of an address computation.
  `UseCompleteness.UseIndexCompleteIff` says exactly when a use list is complete, and `Limits.IndexUseIsMissed` shows a
  run in which the omission matters.
- *Token freedom* (`TokenFree`): the environment does not hand the token of the tracked argument to the function except
  through the operands of the instruction that executes; other arguments may come back at any time. The query skips the arguments of a call whose callee is the callback itself;
  `Limits.ReturnedArgumentIsMissed` shows why the condition is needed.
- *Order of copies* (`CopyOrder.Ordered`): on every walk from the entry to a use, each definition and each spill store of
  the copy chain comes before its use. Definitions that dominate their uses are not enough: a cell with a single store may be
  loaded on a path that goes around the store, and what is loaded is then the content of an unwritten cell.
  `Limits.ClearingNothing` and `Limits.RetainingNothing` are such functions, for which the analysis answers ClearsOnAllPaths
  and RetainOnEveryPath. `CopyOrder.ExactIffOrdered` proves that the order of copies is exactly the condition under which a
  use always finds the root's value, and the run theorems allow an unwritten content only where it fails.
- A clearing or retaining store is proved to run. No claim is made that the slot is null when the function returns, since
  the analyzer keeps the strongest store per slot, and none that a slot identity names one object.

**Fuzz feedback** (`FeedbackStates`, `FeedbackSnapshot`, `ObserverModel`, `ContractStateObserver`, `ObserverHistory`,
`ObserverLaws`, `ObserverOrder`, `ObserverRenaming`, `NoveltyFilter`). The observer and the snapshot are classes whose maps
are updated event by event. Their state is proved equal to what rescanning the whole trace would say, each recorded state is
characterised by the history that causes it, and order, accounting and renaming laws hold over all traces. The novelty
filter is shown to reward exactly new states, and its second rejection to be dead code.

**Shared output files** (`LockFile`, `CoverageReport`, `CoverageProtocol`, `FactShards`, `ShardProtocol`). The merge and
aggregation loops are methods; the protocols are step relations over any number of processes, with every interleaving,
lock timeouts and failures, and in any state an earlier build may have left. The results say what is in the files after any
number of steps, and that nobody is ever stuck.

**Evidence digests** (`Paths`, `RunTree`, `RunLayout`, `EvidenceStream`, `RunnerDigest`, `CuratorDigest`,
`DigestAgreement`, `EvidenceListing`, `DigestBinding`, `EvidenceForm`). The runner hashes a directory tree; the curator rebuilds the same bytes from sorted sets
of paths. Both are proved to list the same files in component order, the one case in which only the curator accepts a run
is identified exactly, the stream is written out literally, and two runs are shown to have the same stream exactly if they have
the same evidence up to file hashes. A character of a path stands
for one byte.

Three behaviours of the code shape the statements. Clearing is judged by the strongest store to a slot, so the claim is that
a clearing store runs, whatever is stored afterwards. A process whose first fact names no artifact publishes nothing, even if
later facts do (`ShardProtocol.UnlabelledFactsAreDropped`), so only processes with a shard are promised that their facts stay.
And two processes that publish under one name overwrite each other (`ShardProtocol.SharedNameLosesRecords`), so the promise is
made to a process whose name is its own, whatever the names of the others.

## Model

| member | source | states |
|---|---|---|
| `EndToEnd.NoRetainMeansNeverRetained` | crates/bw-foreign-ir/src/query.rs:287-300 | If the analysis of a module answers NoRetain, then in every run of the first function that has the register entry's name, with any loops and any environment that does not hand the tracked argument back by itself, the argument stays in its aliases and spill cells, is stored nowhere else, and is an argument of no call but of globals whose names begin with llvm.dbg., of the callback or of itself; a store to a cell not allocated yet, or a call through an unwritten callee, is allowed only where the order of copies fails; needs that no alias is an address index |
| `EndToEnd.ClearsMeansAlwaysCleared` | crates/bw-foreign-ir/src/query.rs:531-598 | If the analysis answers ClearsOnAllPaths, every returning run of the clear entry executes, for each slot the retention query found, a store resolved to that slot whose value is null or a matching argument; an unwritten content is stored only if the copy chain of the stored value is out of order |
| `EndToEnd.RetainOnEveryPathMeansRuns` | crates/bw-foreign-ir/src/query.rs:319-328 | If the analysis answers RetainOnEveryPath, every returning run of the register entry executes every recorded retention store, and the value stored is the recorded argument; an unwritten content is stored only if the copy chain is out of order |
| `EndToEnd.AnalysisNeverIncompatible` | crates/bw-foreign-ir/src/query.rs:287-342 | A behaviour fact made from an analysis never makes the verdict SupportedIncompatibility, for any module, role map, Rust fact and subject |
| `EndToEnd.CompatibleIsBackedByRuns` | crates/bw-model/src/compatibility.rs:643-736 | A compatible verdict on a subject whose separation the types permit implies that the register entry never retains in any run, or that there is a guard and the clear entry clears in every returning run, each as the row of that answer states |
| `EndToEnd.CompatibleExactlyIf` | crates/bw-model/src/compatibility.rs:541-640 | From the text of both sides to the verdict: compatible exactly if the types rule the separation out, or the keys join and either a guard exists and every retained slot has a clearing store on every path, or no use of a tracked argument retains it or escapes |
| `EndToEnd.NothingKnownNothingClaimed` | crates/bw-model/src/compatibility.rs:643-680 | If the register entry is not defined or belongs to another hand-off, the verdict is the one without a foreign fact: compatible if the types alone say so, otherwise open with a recorded assumption and without an obligation |
| `Analyze.Analyze` | crates/bw-foreign-ir/src/query.rs:235-342 | The whole analysis meets its specification for the first function of the register entry's name: each of retention, invocation, clearing and path verdict holds exactly when the traced uses, stores and loads of the module say so, and the site and boundary lists hold exactly the retaining stores, the calls through retained slots, the labelled store per slot, and the limits met; missing entries and out-of-range roles give the unresolved answers |
| `Analyze.AnalyzeClear` | crates/bw-foreign-ir/src/query.rs:467-598 | The clear verdict is ClearsOnAllPaths exactly if every slot has a clearing store on every returning path and MayLeaveSlotPopulated exactly if some slot is never written; each slot gets one site with the label that fits its stores and the text of the first store that says so, each partly written slot a boundary, and without a readable clear entry there is one boundary that says why |
| `Analyze.CollectEvidence` | crates/bw-foreign-ir/src/query.rs:503-536 | One pass over the stores keeps, for every slot, the strongest evidence any store to it gives, and only slots some store writes get an entry |
| `Analyze.StrongestClears` | crates/bw-foreign-ir/src/query.rs:599-610 | The strength order is right for clearing: the strongest evidence reaches rank three exactly if some store clears the slot on every path |
| `Analyze.StrongestFits` | crates/bw-foreign-ir/src/query.rs:503-536 | What each label means: null on every path if some unavoidable store writes null, otherwise an argument if one writes a matching argument, otherwise an unresolved value if any store is unavoidable, otherwise some paths; the text is that of the first store that says so |
| `Analyze.PartialBoundaries` | crates/bw-foreign-ir/src/query.rs:565-588 | A boundary is reported for exactly those slots whose strongest write happens on some paths only |
| `Analyze.FindSameSlotInvokes` | crates/bw-foreign-ir/src/query.rs:612-640 | The reported sites are exactly the calls, anywhere in the module, whose callee was loaded from a slot of interest |
| `Analyze.HasSynchronousInvoke` | crates/bw-foreign-ir/src/query.rs:642-648 | True exactly if the register entry calls a value that carries the callback parameter |
| `Analyze.TraceSubjects` | crates/bw-foreign-ir/src/query.rs:262-285 | Both subjects are traced: the escape flag is set exactly if some tracked argument escapes or is out of range, the sites are exactly the retaining stores, and the boundaries exactly the escaping uses and missing parameters |
| `Queries.TraceParam` | crates/bw-foreign-ir/src/query.rs:355-464 | Every use of every alias is judged once: the escape flag, the retention sites and the boundaries are exactly what the uses call for, whatever order the aliases come in |
| `Retention.JudgeUseExact` | crates/bw-foreign-ir/src/query.rs:376-460 | Every use is harmless, retaining or escaping for one reason, and exactly when: a store of the alias to a spill cell, to a resolved slot of the caller's, to a slot not proven the caller's, or elsewhere; loads, casts and comparisons; calls of the alias, of llvm.dbg. globals, of the callback with the alias; other calls; anything else |
| `ForeignIr.FindFunctionIff` | crates/bw-foreign-ir/src/ir.rs:208-210 | Looking a function up finds the first one with exactly that name, and nothing only if there is none |
| `Retention.NoRetainSound` | crates/bw-foreign-ir/src/query.rs:355-464 | For a parameter all of whose listed uses are quiet, and that is no address index, every reachable state keeps the argument in aliases and spill cells, and the next instruction passes it nowhere else; only this argument's token must not be handed back |
| `UseCompleteness.UseIndexCompleteIff` | crates/bw-foreign-ir/src/dataflow.rs:292-326 | The use list of a register holds every instruction for which, in some state, the register's value changes what the instruction may do or does, if and only if no instruction uses the register solely as an address index |
| `Semantics.MarkersAreIntrinsics` | crates/bw-foreign-ir/src/dataflow.rs:41-45 | The intrinsics the analysis lets a cell's address go to are exactly the calls the semantics, by name, gives no effect |
| `Limits.IndexUseIsMissed` | crates/bw-foreign-ir/src/dataflow.rs:312-326 | A concrete function and run in which an argument used as an address index ends up in a global although all its listed uses are quiet |
| `Limits.ReturnedArgumentIsMissed` | crates/bw-foreign-ir/src/query.rs:426-429 | A concrete function and run in which the callback itself hands its argument back and the result is stored, although all listed uses are quiet: why runs must be token free |
| `Limits.ClearingNothing` | crates/bw-foreign-ir/src/query.rs:503-536 | A concrete well-formed clear entry that fills a spill cell on one of two paths: whatever clear answer the analysis may give, it is ClearsOnAllPaths, and a returning run stores only the content of an unwritten cell to the slot |
| `Limits.RetainingNothing` | crates/bw-foreign-ir/src/query.rs:319-328 | Its twin for retention: the path verdict is RetainOnEveryPath, and a returning run stores only the content of an unwritten cell |
| `Limits.SkippingIsUnordered` | crates/bw-foreign-ir/src/dataflow.rs:360-402 | Both functions fail the order of copies, at the final store |
| `FunctionFlow.FunctionFlow.constructor` | crates/bw-foreign-ir/src/dataflow.rs:68-89 | Building the analysis of a function leaves exactly the fixpoint tables of the specification, with the use index and spill map of its instructions |
| `FunctionFlow.FunctionFlow.Solve` | crates/bw-foreign-ir/src/dataflow.rs:95-150 | The early-exit loop computes the tables after as many full sweeps as there are instructions plus one, wherever it stops |
| `FunctionFlow.FunctionFlow.Visit` | crates/bw-foreign-ir/src/dataflow.rs:99-144 | One visit changes the three tables as the specification does, and reports no change only if there was none |
| `Dataflow.AliasesExact` | crates/bw-foreign-ir/src/dataflow.rs:95-172 | For any single-assignment function, in any textual order and with loops, a register carries a parameter (or null) exactly if a chain of casts and loads of spill cells leads from it; the number of rounds always suffices |
| `Dataflow.ParamAliasesExact` | crates/bw-foreign-ir/src/dataflow.rs:260-268 | The aliases of parameter i after solving are exactly the names derivable from it |
| `Dataflow.DerivableIffChain` | crates/bw-foreign-ir/src/dataflow.rs:160-172 | Derivable names are exactly the ends of copy chains of any length |
| `Dataflow.SweepReaches` | crates/bw-foreign-ir/src/dataflow.rs:95-150 | One full sweep carries every root at least one copy further, never assigns a root that is not derivable, and loses none |
| `Dataflow.RootedCopies` | crates/bw-foreign-ir/src/dataflow.rs:160-172 | After solving, the result of an instruction has a root exactly if what it copies has that root |
| `Invariants.AliasHoldsArgument` | crates/bw-foreign-ir/src/dataflow.rs:260-268 | In every reachable state of every run, each alias of parameter i holds argument i or has not been written (Definiteness.ValueIffWritten says when) |
| `Invariants.RunHolds` | crates/bw-foreign-ir/src/dataflow.rs:360-402 | In every reachable state no spill cell's address has left its register, and every register and spill cell holds what its rooted origin says |
| `Definiteness.ValueIffWritten` | crates/bw-foreign-ir/src/dataflow.rs:95-172 | In every reachable state of every run, a value with a root holds exactly its root's value if and only if the walk taken so far has written it, following copies through registers and spill cells; otherwise it holds an unwritten content |
| `CopyOrder.ChainOrderedIff` | crates/bw-foreign-ir/src/dataflow.rs:160-172 | A use finds the end of a copy chain written on every walk to it, if and only if on all walks each definition and spill store of the chain comes before its use |
| `CopyOrder.ExactIffOrdered` | crates/bw-foreign-ir/src/dataflow.rs:95-172 | In all runs a use of a rooted value reads exactly the root's value, if and only if some copy chain of the value is in order |
| `Descent.TablesEqualDescent` | crates/bw-foreign-ir/src/dataflow.rs:95-220 | When operand chains are acyclic, the solved origins, slots and caller-owned marks of every name equal the plain recursive definition by descent, also when a provisional field slot was replaced by the nested path of a parent defined later in the text |
| `Descent.SolvedSatisfiesEquations` | crates/bw-foreign-ir/src/dataflow.rs:174-209 | When operand chains are acyclic, the solved tables satisfy all instruction equations at once: a nested field extends its parent's path |
| `Descent.OperandsEqualDescent` | crates/bw-foreign-ir/src/dataflow.rs:174-268 | For any operand, the origin, the slot and the caller-ownership the queries ask for are those of plain descent |
| `UseIndex.BuildUseIndex` | crates/bw-foreign-ir/src/dataflow.rs:292-302 | The index lists each instruction under a register once for each operand position that names it, and lists nothing else |
| `UseIndex.LocalsInTextExact` | crates/bw-foreign-ir/src/dataflow.rs:332-352 | The scan of uninterpreted instruction text finds exactly the maximal register names in it |
| `UseIndex.ScanLocals` | crates/bw-foreign-ir/src/dataflow.rs:332-352 | The character loop finds the registers of the specification, in order of appearance |
| `UseIndex.FindSpillAllocas` | crates/bw-foreign-ir/src/dataflow.rs:360-402 | The recognised spill cells are exactly the stack cells with one store to them whose address is otherwise only loaded from or passed to a debug marker, each with the value stored |
| `UseIndex.SpilledValue` | crates/bw-foreign-ir/src/dataflow.rs:372-399 | Scanning the uses of one cell finds its single store if and only if it is a spill cell |
| `PathInfo.ComputePathInfo` | crates/bw-foreign-ir/src/dataflow.rs:420-500 | For every control-flow graph, cyclic ones included: the blocks on every returning path are exactly those on all paths from the entry to a return (all blocks if the entry reaches no return, none if the function has no return), and the graph is incomplete exactly if some block ends in no understood terminator or an unknown target |
| `PathInfo.BuildGraph` | crates/bw-foreign-ir/src/dataflow.rs:421-462 | Successors are exactly the resolved branch targets and exits exactly the returning blocks; the flag says whether some block is not understood |
| `ControlFlow.BlocksReachingExit` | crates/bw-foreign-ir/src/dataflow.rs:502-523 | The worklist search ends and finds exactly the blocks from which an exit can be reached |
| `ControlFlow.PostDominators` | crates/bw-foreign-ir/src/dataflow.rs:463-495 | The capped sweeps always reach the fixpoint: a block is in another's set exactly if it lies on every path from there to an exit |
| `ControlFlow.AvoidingExact` | crates/bw-foreign-ir/src/dataflow.rs:463-495 | A block can avoid another on the way to an exit exactly if it can within as many edges as there are blocks |
| `RunPaths.ForcedBlockExecuted` | crates/bw-foreign-ir/src/dataflow.rs:404-418 | Every returning run executes every instruction of every block the path analysis calls unavoidable |
| `RunPaths.RetainOnEveryPathSound` | crates/bw-foreign-ir/src/query.rs:378-392 | A retention store in an unavoidable block happens in every returning run, with the recorded argument; with an unwritten content only if the copy chain is out of order |
| `RunPaths.ClearingStoreSound` | crates/bw-foreign-ir/src/query.rs:503-536 | A clearing store in an unavoidable block happens in every returning run, with null or a matching argument; with an unwritten content only if the copy chain is out of order |
| `RunPaths.RetainedExactlyIff` | crates/bw-foreign-ir/src/query.rs:378-392 | A reachable retention store stores exactly the recorded argument in every run, if and only if the order of copies holds at it |
| `RunPaths.ClearedExactlyIff` | crates/bw-foreign-ir/src/query.rs:503-536 | A reachable clearing store stores null or a matching argument in every run, if and only if the order of copies holds at it |
| `EndToEnd.AnalysisLeavesLateInvokeOpen` | crates/bw-model/src/compatibility.rs:685-698 | For facts from the analysis the obligation is to establish the late invocation, exactly when separation is possible and a found slot is invoked; the joint-trace obligation never arises |
| `Compatibility.JudgeFits` | crates/bw-model/src/compatibility.rs:541-736 | Everything in a verdict follows from the two facts: subject, hand-off, status, obligation, the grade (a defeated guard first, else the invoke evidence unless compatible), and the assumptions, each exactly when its cause holds and in order |
| `Compatibility.VerdictIsDetermined` | crates/bw-model/src/compatibility.rs:643-736 | These conditions leave no choice: whatever fits them is the verdict |
| `Joint.JoinHandOff` | crates/bw-model/src/joint.rs:136-185 | Joined exactly if no layer fails; otherwise every failing layer is listed once, in order, and nothing else; a join carries the slots and exactly one fitting verdict for the captured referent and one for the callback allocation |
| `Joint.AssembleRustContractFacts` | crates/bw-model/src/compatibility.rs:249-393 | One outcome for every registration some relevant fact mentions, each a function of the parts filed under it and of how often its symbol is bound |
| `Joint.AssembledIsStated` | crates/bw-model/src/compatibility.rs:363-390 | Every field of an assembled fact is what the last fact of its sort about that registration stated, or comes from the build |
| `Joint.HeldIffSaid` | crates/bw-model/src/compatibility.rs:265-307 | With at most one fact of each kind per registration, a registration has exactly the parts that facts state about it |
| `Joint.HeldIffSaidLast` | crates/bw-model/src/compatibility.rs:265-307 | For any facts, clashing ones included, a registration has exactly what the last fact of each sort states about it |
| `Joint.OutcomesTell` | crates/bw-model/src/compatibility.rs:332-393 | From the facts to the outcomes: one for each registration a fact mentions; it lists exactly the gaps the facts leave, each once and in order, or is assembled if they leave none, with every stating site as evidence, as often as it stated something |
| `Joint.AssemblyIgnoresOrder` | crates/bw-model/src/compatibility.rs:265-330 | With at most one fact of each kind per registration, permuting the facts changes no outcome |
| `Joint.TableIgnoresOrder` | crates/bw-model/src/compatibility.rs:265-330 | Under the same condition the filed parts depend only on which facts there are |
| `Joint.AssembledGeneration` | crates/bw-model/src/compatibility.rs:332-393 | An assembled hand-off never has an unresolved generation, and has the unique one exactly if its registration alone binds the symbol |
| `Joint.AssembledJoins` | crates/bw-model/src/joint.rs:136-170 | An assembled hand-off joins a foreign fact exactly if all five overlapping fields match and there are slots or no retention |
| `Joint.CountSites` | crates/bw-model/src/compatibility.rs:332-345 | Each symbol is counted once for every registration that binds it |
| `Joint.GapsIff` | crates/bw-model/src/compatibility.rs:346-375 | No gap is reported exactly if all parts are present and resolved |
| `IrText.SplitTopLevel` | crates/bw-foreign-ir/src/ir.rs:302-321 | The loop cuts at exactly the separators outside brackets and quotes |
| `IrText.PiecesJoin` | crates/bw-foreign-ir/src/ir.rs:302-321 | For every text and separator, joining the pieces gives the text back |
| `IrText.EveryPiece` | crates/bw-foreign-ir/src/ir.rs:298-321 | Every piece runs from one top-level separator to the next and has none inside: no cut falls inside brackets or quotes and none is missed |
| `IrText.StripComment` | crates/bw-foreign-ir/src/ir.rs:285-296 | What is kept is everything before the first semicolon outside quotes |
| `IrText.ParseFunction` | crates/bw-foreign-ir/src/ir.rs:355-383 | Instructions are numbered 0, 1, ... in text order, each stands in and knows the block of the last label before it, and blocks follow the labels |
| `DigestAgreement.DigestsAgree` | crates/bw-blind-curator/src/run_snapshot.rs:643-689 | Wherever the runner computes a digest, the curator accepts the run and feeds the hash the same bytes; the curator accepts more exactly when a plain file stands in place of the log directory |
| `DigestAgreement.PartsAgree` | crates/bw-blind-curator/src/run_snapshot.rs:565-583 | The runner hashes exactly if the curator does, its root check passes, and no evidence root lacks a directory above it; then the bytes are equal |
| `DigestAgreement.CuratorDigestOf` | crates/bw-blind-curator/src/run_snapshot.rs:57-100 | Collecting, checking the roots and hashing the flat sets gives the runner's digest whenever there is one, and no digest on special entries or backslashes; only a plain file `logs` lets the curator alone compute one |
| `DigestAgreement.LogsFileIsAccepted` | crates/bw-blind-runner/src/provenance.rs:397-412 | For every sensible layout, a run directory with the two required files and a plain file for the log directory is refused by the runner and digested by the curator |
| `RunLayout.EvidenceIsSensible` | crates/bw-blind-runner/src/provenance.rs:236-245 | The real names of evidence files and directories satisfy what the digest theorems ask of a layout |
| `DigestAgreement.TreeAgrees` | crates/bw-blind-curator/src/run_snapshot.rs:672-689 | For each root the present and absent tags agree and so do all bytes below, empty directories included |
| `DigestAgreement.CuratorListsTree` | crates/bw-blind-curator/src/run_snapshot.rs:696-747 | The prefix-range recursion over flat sorted sets lists the files of the tree in the walk order of the tree |
| `DigestAgreement.RunnerListsTree` | crates/bw-blind-runner/src/provenance.rs:422-467 | The runner's sorted recursive walk hashes the files of the tree in the same order |
| `CuratorDigest.ImmediateEvidenceChildren` | crates/bw-blind-curator/src/run_snapshot.rs:716-747 | For any path sets the children are the first components below the prefix, each a directory unless the file sets hold it as a path and no directory lies there |
| `CuratorDigest.VisitFile` | crates/bw-blind-curator/src/run_snapshot.rs:730-745 | Seeing the files in order and keeping the first kind of an entry gives the kind the whole set determines |
| `CuratorDigest.HashEvidenceTreeEntries` | crates/bw-blind-curator/src/run_snapshot.rs:696-714 | The recursion ends for any two path sets and never misses a file it wants to hash |
| `CuratorDigest.ChildHasLessRoom` | crates/bw-blind-curator/src/run_snapshot.rs:696-714 | Each recursive call has less room left up to the longest path |
| `CuratorDigest.RunnerEvidenceDigest` | crates/bw-blind-curator/src/run_snapshot.rs:643-655 | The digest is the hash of header, two required files and three trees, or a missing required file is reported |
| `CuratorDigest.EnsureEvidenceTreeRoots` | crates/bw-blind-curator/src/run_snapshot.rs:565-583 | Accepts exactly if no root is a file and no root holds files without being a listed directory |
| `RunnerDigest.RunnerEvidenceDigest` | crates/bw-blind-runner/src/provenance.rs:236-245 | The digest is the hash of header, two required regular files and three trees, and fails on any entry that is neither file nor directory |
| `RunnerDigest.HashEvidenceTreeEntries` | crates/bw-blind-runner/src/provenance.rs:422-467 | Entries are hashed in name order, each file once, directories recursively |
| `RunTree.Collector.Collect` | crates/bw-blind-curator/src/run_snapshot.rs:316-352 | The two sets gain exactly the paths of the files and directories below; special entries and backslashes are refused |
| `RunTree.LookupBelow` | crates/bw-blind-runner/src/provenance.rs:374-379 | Asking for a longer path continues where its front part ends, errors included |
| `EvidenceListing.ListsFilesAt` | crates/bw-blind-runner/src/provenance.rs:422-467 | The listing holds exactly the files below, with their contents |
| `EvidenceListing.SortedFilesAt` | crates/bw-blind-runner/src/provenance.rs:437-467 | The listing is strictly sorted component by component |
| `EvidenceListing.ListingIsUnique` | crates/bw-blind-curator/src/run_snapshot.rs:477-507 | Component order leaves no choice: a sorted list of the same files is the same list |
| `EvidenceListing.FlatOrderDiffers` | crates/bw-blind-curator/src/run_snapshot.rs:477-507 | Flat string order differs: a file `d.x` comes before what is inside directory `d` as strings and after it in the stream |
| `DigestBinding.StreamBindsEvidence` | crates/bw-blind-runner/src/provenance.rs:228-245 | For any layout, two runs with the same stream have the same presence of each tree, the same paths in it and the same file hashes |
| `EvidenceForm.RunnerStreamSpelled` | crates/bw-blind-runner/src/provenance.rs:236-245 | The runner hashes exactly this text: the header, then findings.jsonl and artifacts/observations.jsonl, then artifacts/witnesses, logs/children and traces, each file as F, path, zero byte and hash, each tree as T, path, zero byte and its files or absent; it does so exactly if both files are there and each tree is missing or a directory |
| `EvidenceForm.CuratorStreamSpelled` | crates/bw-blind-curator/src/run_snapshot.rs:643-697 | The curator hashes the same text of every clean run that has the two files |
| `EvidenceForm.CuratorAbsentIff` | crates/bw-blind-curator/src/run_snapshot.rs:672-689 | For any two path sets, the curator marks a root absent exactly if it is not listed as a directory and no file lies below it, and present otherwise |
| `EvidenceForm.BackslashReadsElsewhere` | crates/bw-blind-runner/src/provenance.rs:447-458 | A file whose name has a backslash is not hashed as itself: the runner hashes the file at the path with slashes in its place, and fails if there is none |
| `EvidenceForm.StreamIffEvidence` | crates/bw-blind-runner/src/provenance.rs:228-245 | Two runs have the same stream if and only if both files have the same hashes and each of the three trees is there in both or in neither, with the same files and hashes below it |
| `CoverageReport.MirCoverageReport.Merge` | compiler/bw-rustc/src/coverage.rs:74-84 | Each of the five lists becomes the sorted union of both reports' lists |
| `CoverageReport.MergedField` | compiler/bw-rustc/src/coverage.rs:143-152 | A merged list is sorted and holds exactly the entries of both |
| `CoverageReport.SortedHasNoDuplicates` | compiler/bw-rustc/src/coverage.rs:143-152 | A sorted list has no duplicates |
| `LockFile.Acquire` | compiler/bw-rustc/src/coverage.rs:176-190 | The lock is held from the first of 200 attempts that creates the file; another open error ends the waiting at once, and only 200 attempts that all find the file there time out |
| `CoverageProtocol.OutputDirectory.WriteMirCoverage` | compiler/bw-rustc/src/coverage.rs:86-102 | One process merges its report into the file exactly if directory, lock, existing report, write and rename all work; a timeout, an unreadable report and every other failure leave the file alone |
| `CoverageProtocol.AtMostOneActive` | compiler/bw-rustc/src/coverage.rs:91-102 | Under every interleaving at most one process is between taking and releasing the lock |
| `CoverageProtocol.QuietFileIsUnion` | compiler/bw-rustc/src/coverage.rs:86-102 | Under every interleaving with timeouts and failures, whenever nobody holds the lock the file holds exactly the initial entries and those of the processes that succeeded, in sorted lists once one succeeded |
| `CoverageProtocol.SuccessIsKept` | compiler/bw-rustc/src/coverage.rs:86-102 | Whatever a successful process reported stays in the file through every later step |
| `CoverageProtocol.TimeoutTakesAllAttempts` | compiler/bw-rustc/src/coverage.rs:179-189 | In every run a process has timed out exactly if it made 200 failed attempts, never makes more, and a waiting one has made as many as it counts |
| `CoverageProtocol.MissedMeansTaken` | compiler/bw-rustc/src/coverage.rs:179-189 | Each failed attempt in any run found the lock held by another process, and changed neither file nor lock |
| `CoverageProtocol.CanSucceed` | compiler/bw-rustc/src/coverage.rs:86-102 | Whenever the lock is free, a process that waits can go on to succeed by itself, whatever happened before |
| `CoverageProtocol.HolderCanStop` | compiler/bw-rustc/src/coverage.rs:193-197 | Whoever holds the lock can give it up in one step |
| `ShardProtocol.SuccessIsKept` | compiler/bw-rustc/src/domain.rs:2017-2041 | Under every interleaving, once a process whose shard name no other uses returned successfully, each of its records is in the records file and its shard in the manifest after every later step, whatever an earlier build had under the name and whatever names the others share |
| `ShardProtocol.SettledShardsAreFiled` | compiler/bw-rustc/src/domain.rs:2017-2041 | At any time after the first success, every shard all of whose publishers have succeeded, earlier shards nobody publishes among them, has all its present records in the records file and its entry in the manifest |
| `ShardProtocol.AllDoneIsUnion` | compiler/bw-rustc/src/domain.rs:2017-2041 | When all processes returned successfully, the records file holds exactly the records of the shards then on disk and the manifest describes exactly these |
| `ShardProtocol.AllDoneShards` | compiler/bw-rustc/src/domain.rs:2017-2041 | And these shards are the earlier ones and everybody's: a name nobody publishes keeps its earlier content, any other holds the facts of a process that publishes under it, and a process with a name of its own finds its facts there |
| `ShardProtocol.AtMostOneActive` | compiler/bw-rustc/src/domain.rs:2059-2075 | At no time do two processes aggregate, whatever their shard names |
| `ShardProtocol.ActKeepsInv` | compiler/bw-rustc/src/domain.rs:2082-2138 | Every step of every process keeps the invariant relating shards, gathered records, both files, what they were built from, and finished processes; no condition on names or on earlier shards |
| `ShardProtocol.ReadingGoesOn` | compiler/bw-rustc/src/domain.rs:2093-2121 | Reading the next shard succeeds exactly if the shards read so far and this one are well formed and no two of their records clash |
| `ShardProtocol.SharedNameLosesRecords` | compiler/bw-rustc/src/domain.rs:2024-2034 | If two processes publish under one name and all succeed, then all the records only the one or all those only the other was given are missing from the records file |
| `ShardProtocol.UnlabelledFactsAreDropped` | compiler/bw-rustc/src/domain.rs:2024-2034 | After any run, a record that only processes without an artifact in their first fact were given is in no shard and not in the records file, even if they succeeded |
| `ShardProtocol.CanSucceed` | compiler/bw-rustc/src/domain.rs:2017-2041 | Whenever the lock is free and the shards are well formed and do not clash, a process that waits can go on to succeed by itself, and leaves both files built from the shards as they are |
| `ShardProtocol.BlockedWaits` | compiler/bw-rustc/src/domain.rs:2059-2075 | While the lock is taken a waiting process can only count one more failed attempt, giving up after the 200th, or fail |
| `ShardProtocol.CanPublish` | compiler/bw-rustc/src/domain.rs:2024-2034 | A process at its start can publish at any time: its facts stand under its name at once if they are of one artifact, and it fails if they are mixed |
| `ShardProtocol.AnyoneCanFail` | compiler/bw-rustc/src/domain.rs:2017-2041 | A process can fail at any time until both files are replaced, so the results above hold with failures anywhere |
| `ShardProtocol.HolderCanStop` | compiler/bw-rustc/src/domain.rs:2076-2081 | Whoever holds the lock can give it up in one step |
| `FactShards.OutputDirectory.WriteStaticFacts` | compiler/bw-rustc/src/domain.rs:2017-2041 | Mixed identities are refused before anything is written; otherwise the shard is published even if the lock times out or cannot be opened; with the lock both files are rebuilt, or only the records file if the manifest cannot be replaced, or neither |
| `FactShards.OutputDirectory.AggregateStaticFactShards` | compiler/bw-rustc/src/domain.rs:2082-2138 | Both files are rebuilt from all shards exactly if all can be listed, read and gathered and both replaced; a failure to replace the manifest leaves the new records beside the old manifest |
| `FactShards.GatherIsUnion` | compiler/bw-rustc/src/domain.rs:2093-2121 | What is gathered is exactly every record of every shard under its key |
| `FactShards.ManifestIsExact` | compiler/bw-rustc/src/domain.rs:2122-2129 | The manifest names exactly the shards read, with artifact and record count |
| `FactShards.GatherFailsIff` | compiler/bw-rustc/src/domain.rs:2093-2121 | Gathering fails if and only if a shard is empty, unlabelled or mixed, or two different records share a key |
| `FactShards.OthersNeverClash` | compiler/bw-rustc/src/domain.rs:2107-2117 | Records of different builds or crates never share a key, as long as identifiers and builds hold no colon |
| `FactShards.ColonsClash` | compiler/bw-rustc/src/domain.rs:2107-2117 | With colons, two different records of one crate can share a key |
| `ContractStateObserver.Observer.Observe` | crates/bw-fuzz-observer/src/observer.rs:93-208 | One event changes the maps and records the feedback states exactly as the transition function says |
| `ContractStateObserver.Observer.EndBorrowedCaptures` | crates/bw-fuzz-observer/src/observer.rs:240-263 | All active borrows of the object end, and one state is recorded for each whose callback is retained |
| `ContractStateObserver.Observer.End` | crates/bw-fuzz-observer/src/observer.rs:215-238 | Ending an unknown object does nothing; ending an external owner releases its callbacks after the feedback is recorded |
| `ContractStateObserver.ObserveAll` | crates/bw-fuzz-observer/src/observer.rs:83-91 | A whole trace leaves the folded state and log |
| `ContractStateObserver.CaptureModes` | crates/bw-fuzz-observer/src/observer.rs:59-81 | Fails exactly if two facts speak about the same pair of sites, and otherwise maps every fact |
| `ContractStateObserver.LogIsRecorded` | crates/bw-fuzz-observer/src/observer.rs:83-91 | The snapshot's log is the recorded states, each with the context belonging to it |
| `ContractStateObserver.HitAt` | crates/bw-fuzz-observer/src/observer.rs:93-208 | Each state an event gives rise to is recorded in its turn, after all that earlier events gave rise to, with the record of that event and the context of the state |
| `ObserverHistory.RetainedAgrees` | crates/bw-fuzz-observer/src/observer.rs:278-282 | A callback counts as retained exactly if its last registration is followed by no unregistration and no end of its owner while that owner was last created as an external owner |
| `ObserverHistory.BorrowAgrees` | crates/bw-fuzz-observer/src/observer.rs:121-151 | A borrow is active or ended exactly as its last binding and the ends of its object since say |
| `ObserverHistory.CaptureAgrees` | crates/bw-fuzz-observer/src/observer.rs:240-263 | The capture map holds the mode of the last binding, and whether a borrow has ended since |
| `ObserverHistory.ObjectAgrees` | crates/bw-fuzz-observer/src/observer.rs:104-113 | An object has the kind of its last creation and the lifecycle its last end since then gives |
| `ObserverLaws.RecordedIffCaused` | crates/bw-fuzz-observer/src/observer.rs:93-208 | Each of the five states has been recorded exactly if some event, judged by the history before it, calls for it |
| `ObserverLaws.EmittedIffCaused` | crates/bw-fuzz-observer/src/observer.rs:93-208 | An event gives rise to exactly the states the history before it calls for |
| `ObserverLaws.EmittedExactly` | crates/bw-fuzz-observer/src/observer.rs:215-276 | What an event gives rise to, in order and number: one ended borrow for each the history says it ends, then the owner's state; any other state at most once |
| `ObserverOrder.StatesComeInOrder` | crates/bw-fuzz-observer/src/observer.rs:121-199 | If callbacks are registered at most once and captures bind only registered callbacks, InvokedAfterEnd comes after BorrowEndedRetained, and it, BorrowEndedRetained and ReleasedBeforeEnd come after BorrowedRetained |
| `ObserverOrder.OrderNeedsDiscipline` | crates/bw-fuzz-observer/src/observer.rs:114-120 | A concrete trace that registers a callback twice records InvokedAfterEnd without BorrowEndedRetained |
| `ObserverOrder.BorrowsAccounted` | crates/bw-fuzz-observer/src/observer.rs:240-263 | After any trace, ended borrows reported plus borrows still active are at most the borrowing captures bound |
| `ObserverRenaming.RenamingKeepsFeedback` | crates/bw-fuzz-observer/src/observer.rs:93-208 | Renaming instances apart changes neither which states are recorded nor their order |
| `FeedbackSnapshot.FeedbackStateSnapshot.Record` | crates/bw-fuzz-observer/src/snapshot.rs:91-118 | Recording keeps the fields equal to the summary of all recordings |
| `FeedbackSnapshot.SnapshotAccounts` | crates/bw-fuzz-observer/src/snapshot.rs:91-118 | Transition count, states and observations agree in number, at most five; counts add up to the recordings; the key joins by bars the names of the states, each once, in the order of their declaration |
| `FeedbackSnapshot.StatesAreHits` | crates/bw-fuzz-observer/src/snapshot.rs:91-118 | A state is in the snapshot exactly if some recording was of that state |
| `FeedbackSnapshot.ObservationTells` | crates/bw-fuzz-observer/src/snapshot.rs:91-118 | Each observation holds the first event and context of its state and how often it was recorded |
| `FeedbackSnapshot.ObservationsInOrder` | crates/bw-fuzz-observer/src/snapshot.rs:104-112 | Observations stand in the order of first recording |
| `FeedbackSnapshot.IndexIsInverse` | crates/bw-fuzz-observer/src/snapshot.rs:97-112 | The index finds every observation by its state |
| `FeedbackSnapshot.IndexFinds` | crates/bw-fuzz-observer/src/snapshot.rs:97-112 | What the index points at is the observation of that state |
| `FeedbackStates.KeyIsInjective` | crates/bw-fuzz-observer/src/libafl.rs:70-76 | Different sets of states have different keys |
| `FeedbackStates.KeyIsOrderedJoin` | crates/bw-fuzz-observer/src/libafl.rs:70-76 | A key is the join of the names of its states in the order of their declaration, and there is only one such list |
| `FeedbackStates.NameIsSnakeCase` | crates/bw-fuzz-observer/src/state.rs:4-24 | The name used in keys is the one serialisation gives the state: the words of its identifier in lower case, joined by underscores |
| `FeedbackStates.NamesDiffer` | crates/bw-fuzz-observer/src/state.rs:14-24 | Different states have different names |
| `NoveltyFilter.ContractStateFeedback.ObserveSnapshot` | crates/bw-fuzz-observer/src/libafl.rs:20-57 | The decision and the remembered states, keys and previous states are those of the decision function |
| `NoveltyFilter.InterestingIffNewState` | crates/bw-fuzz-observer/src/libafl.rs:20-57 | Over any sequence of snapshots, one is interesting exactly if it holds a state no earlier one held |
| `NoveltyFilter.KeyIsNew` | crates/bw-fuzz-observer/src/libafl.rs:49-57 | The rejection of a repeated key is dead code: a snapshot with a new state always has a key never handed out |
| `NoveltyFilter.PreviousIsLast` | crates/bw-fuzz-observer/src/libafl.rs:28-48 | The remembered previous states are those of the last snapshot, interesting or not |
| `NoveltyFilter.KeyTells` | crates/bw-fuzz-observer/src/libafl.rs:28-48 | The key of an interesting snapshot joins the states never held before, after an arrow from all states of the snapshot just before it, if that held any |
| `NoveltyFilter.KeyGivesAddedStates` | crates/bw-fuzz-observer/src/libafl.rs:34-46 | A key determines the new states it was made for, with and without a prefix of previous states |
| `NoveltyFilter.AtMostFive` | crates/bw-fuzz-observer/src/libafl.rs:20-57 | At most five decisions of any run are interesting, one for each key remembered |
| `NoveltyFilter.KeysAreDistinct` | crates/bw-fuzz-observer/src/libafl.rs:49-57 | No key is handed out twice |

## Left out

- Analyze.Analyze: the lists hold exactly the sites and boundaries they should, but their order and repetitions are not stated.
- Joint.AssembleRustContractFacts: outcomes are a map by registration, so the order of the list is not modelled; evidence identifiers are a multiset in place of a sorted list.
- EndToEnd.AnalysisNeverIncompatible: uses the behaviour fact without its prose evidence lines.
- CuratorDigest.RunnerEvidenceDigest: the hash itself is any function from bytes to bytes; DigestBinding.StreamBindsEvidence only assumes that hashes have one length.
- DigestAgreement.CuratorDigestOf: checksum verification and the other required files are not part of this model, so the listing stands for the files read.
- ContractStateObserver.Observer.EndBorrowedCaptures: captures are ended in any order, since all hits of one event are equal.
- ShardProtocol.SuccessIsKept: is about a process whose shard name no other process of the run uses; the name itself, built from the artifact identity, is a parameter.
- ShardProtocol.ActKeepsInv: what an earlier build left must be consistent with shards of names that are still there; deleting shards by hand is not modelled.
- CoverageReport.MirCoverageReport.Merge: an entry is one string in place of its fields in order; the schema version is omitted.
- Reading instructions from text: operands, opcodes and casts. The last word of a `bitcast` is its destination type; here the source of a cast is its value.
- The prose of slot descriptions, boundaries and verdict assumptions; assumptions are an enumeration.
- The order in which aliases and slots are visited, except where a result depends on it.
- Counter overflow, the schema string and deserialisation of snapshots, and `add_diagnostic_note` and `observe_primary_marker`, which do nothing.
- Directory entries that cannot be read while listing shards, which the source skips; partial files that a failed write leaves behind; which of several input errors is reported.
- File descriptors, symbolic links, changes during reading, permissions, non-UTF-8 names; every directory tree is finite and names hold no slash and no zero byte.
- Stale locks after a crash, failure to remove a lock file, and real time: waiting is a number of failed attempts.
- Construction of static facts, API path matching, configuration, child processes, containers, receipts, validators, rankings, and all JSON and TOML.
