# Verified models of tt-mlir's const-eval hoisting, affine maps, scheduler and worker protocol

This project models three parts of the repository in Dafny and proves what they are for.

**Const-eval hoisting** (`lib/Transforms/ConstEvalHoist.cpp`). An SSA function is a straight
line of ops over block arguments; an op's results are functions of its name, its attributes
and its operand values, and `load_cached` returns what the const-eval function it names
returns (`Ir.dfy`). The meaning of the ops is a parameter of every theorem, so the results
hold whatever the ops compute. The pass is modelled as a class over the module it rewrites:
the analysis with its path-compressing disjoint-set forest, the new and the grown const-eval
functions built op by op through value maps, the call put in front, uses redirected and ops
erased one at a time. The top result is `ConstEvalPass.ConstEvalHoistTransform.RunOnOperation`:
for every module in good order and every order in which the subgraphs come, every ordinary
function returns what it returned before, on all arguments; non-cacheable ops, shared ops and ops
written in place are left where they were, and unless the analysis fails, of the others exactly
those are gone that have results and are calls or use only const parameters, shared results and
results of ops that are gone; no const-eval function gains a non-cacheable op of a kind that none
had; the pass reports failure exactly when, in some ordinary function, an op that need not stay
and is a call or uses constants only has an untagged result in L1; and the result meets the
pass's own conditions again. A second run makes no function; it reports failure exactly when the
first one did, or when a value in L1 was hoisted out of a function that still uses it.
"In good order" (`ConstEvalModule.Sane`, `ConstEvalPass.Walkable`) means: definitions before
uses and unique ids; `load_cached` ops name existing const-eval functions of plain ops that
fit them, and what a call that may be hoisted names is called nowhere else; unless its analysis
fails, the calls in a function's forest take constants and parameters, and the first call of each
class, whose function grows, takes them by ascending argument number; the shared op
(`ttnn.get_device` is the only one) takes nothing and yields one value; new names fit: the
indices of the functions the pass will make, which `ConstEvalCount.Needed` counts, stay below the
end of the machine word, and no ordinary function carries one of exactly those names.

**Affine maps** (`include/ttmlir/AffineMapUtils.h`, `include/ttmlir/Utils.h`,
`lib/Transforms/CollapseParallelLoops.cpp`). The expression compiler and its register machine,
the coalescing factor with its in-place odometer, the reblocking, device and grid-collapse maps
as mixed-radix bijections, the enumerations of a box, factors, the backward use-def closure,
and the loop collapse.

**Two step machines**: the op scheduler (`lib/Scheduler/Scheduler.cpp`) and the parent/worker
queue protocol (`python/common/compile_and_run_utils.py`), over whole runs.

The files follow that division: `Ir`, `Rewrite`, `DisjointSets` and `ConstEval*` are the pass
(bottom up: `Subgraphs`, `Clone`, `Create`, `Dedup`, `Arguments`, `Grow`, `Origin`, `Build`,
`Replace`, `Analysis`, `Eligibility`, `Residency`, `Module`, `Hoist`, `Links`, `Analyzer`, `Count`,
`Leaving`, `Outcome`, `Failure`, `Chains`, `Rerun`, `Names`, `Pass`); `Arith`, `Shapes`, `Affine`,
`TwosComplement`, `CompiledAffineMap`, `Coalescing`, `Reblock`, `DeviceMaps`, `GridCollapse`,
`CollapseParallelLoops`, `Factors` and `UseDefChain` are the arithmetic; `Scheduler`,
`WorkerProtocol` and `WorkerCalls` are the machines; `Common` holds what several of them share.

Where the code does not do what its documentation says, the model follows the code and the
exact condition is proved:

- The coalescing factor is documented for `numGridDims == 0` with two worked examples, but
  `sample` never calls back for an empty shape, so the result is then the shard volume. The
  column-major example yields 8, not 1. A map meets the documented value exactly when there is a
  grid dimension or its whole shard is contiguous; all maps do exactly when there is a grid
  dimension or at most one element.
- The comments of the loop collapse announce the original iteration space. The divisors are
  taken from the front of the extents, so the collapsed index is decoded against the reversed
  extents; the nest is reproduced exactly when nothing runs or the extents read the same
  backwards.
- `run` does not check whose result it takes. A call's answer is its own exactly when nothing was
  pending at its submission: no result posted, no task executing, none queued. That holds on all
  runs, whenever workers die. If workers die only while executing, it is so for every call up to
  the first timeout on a live worker; one run shows how such a timeout leaves its late result for
  the next call, another how a worker that dies after posting does.
- Fresh const-eval names are computed from const-eval functions only. With room below the end of
  the machine word, the new names are free exactly when no ordinary function carries one of them;
  beyond it, the offset wraps.
- The pipelines run the pass several times. A `load_cached` has the types of the outputs it stands
  for, L1 included, but not the tag that let their ops pass, so the next analysis rejects it. The
  second analysis of a processed function fails exactly when a result in L1 of a hoisted op was
  returned or used by an op that stayed; a function returning a tagged op's result shows it.
- The pass description says that existing hoisting is first undone. The code grows existing
  const-eval functions instead, and that is what is modelled.
- Growing an existing function lines its arguments up with the inputs exactly when its old
  inputs are a subsequence of the new ones; the code does not check this, and two old inputs in
  descending order already leave more arguments than inputs.

## Model

| member | source | states |
|---|---|---|
| ConstEvalPass.ConstEvalHoistTransform.RunOnOperation | lib/Transforms/ConstEvalHoist.cpp:461-513 | after the pass every ordinary function returns what it returned, for every meaning of the ops and all arguments; the module stays in good order; the pass fails exactly when an analysis does, which is when an op that must not stay and is a call or uses constants only has an untagged result in L1; a function whose analysis fails is left alone; stated on the fields of ops and on which ids are left: ops that are non-cacheable, shared or written in place stay, and without failure exactly those others are gone that have results and are calls or use only const parameters, shared results and results of gone ops; no const-eval function gains a non-cacheable op of a kind that none had; the result meets the conditions of the pass again, under any listing of its functions; a second analysis of a function fails exactly when the first one did or a hoisted value in L1 is returned or used by what stayed |
| ConstEvalPass.ConstEvalHoistTransform.ProcessNext | lib/Transforms/ConstEvalHoist.cpp:498-508 | one function of the walk keeps all of the above, and leaves the new names of functions still to come free |
| ConstEvalPass.ConstEvalHoistTransform.ProcessFunction | lib/Transforms/ConstEvalHoist.cpp:527-564 | the module changes only if the analysis succeeds; then no ordinary function returns anything else, the other ordinary functions are the very same, exactly the const-eval ops with results are gone, no more names are used than there are classes without calls, and a second analysis finds only calls and fails exactly when a hoisted value in L1 is returned or used by what stayed |
| ConstEvalPass.ConstEvalHoistTransform.ProcessSubgraphs | lib/Transforms/ConstEvalHoist.cpp:551-562 | for any order of pairwise disjoint closed subgraphs: returned values kept, exactly the subgraphs' ops gone, and no name used but the next ones, one for each subgraph without calls |
| ConstEvalPass.ConstEvalHoistTransform.ProcessNextSubgraph | lib/Transforms/ConstEvalHoist.cpp:553-562 | hoisting one subgraph leaves every later one valid, and advances the name index only for a new function |
| ConstEvalPass.ConstEvalHoistTransform.HoistSubgraph | lib/Transforms/ConstEvalHoist.cpp:554-561 | a subgraph without calls goes to a new function of the given name, one with calls into an existing function |
| ConstEvalPass.ConstEvalHoistTransform.CreateConstEvalFunction | lib/Transforms/ConstEvalHoist.cpp:568-624 | the module gains one const-eval function that, for every meaning, computes the subgraph's outputs from its inputs, and the caller calls it in place of the ops |
| ConstEvalPass.ConstEvalHoistTransform.AddToExistingConstEvalFunction | lib/Transforms/ConstEvalHoist.cpp:626-723 | the first callee grows to compute the outputs, the other callees are erased, the caller calls the grown one in place of ops and calls |
| ConstEvalPass.EraseCallees | lib/Transforms/ConstEvalHoist.cpp:711-722 | exactly the other callees go |
| ConstEvalPass.CutOut | lib/Transforms/ConstEvalHoist.cpp:709-722 | replacing the ops and erasing the calls gives the carved function |
| ConstEvalPass.BetweenNext | lib/Transforms/ConstEvalHoist.cpp:551-562 | what is known between two subgraphs survives hoisting one of them |
| ConstEvalPass.NamesFreeExactlyWhen | lib/Transforms/ConstEvalHoist.cpp:496-508 | with room for the indices, the new names of a function are free in the module exactly when no ordinary function carries one of them |
| ConstEvalPass.CanRunAgain | lib/Transforms/ConstEvalHoist.cpp:496-513 | in the result no function needs a new name, and the calls a second analysis finds are ready to be hoisted |
| ConstEvalPass.FailsAgainExactlyWhen | lib/Transforms/ConstEvalHoist.cpp:231-257 | in the whole result, exactly those analyses fail that failed before or whose function had a hoisted value in L1 leave its subgraph |
| ConstEvalPass.ListedAreReady | lib/Transforms/ConstEvalHoist.cpp:527-551 | what a successful analysis lists can be hoisted: closed and disjoint subgraphs of eligible ops, first calls in order |
| ConstEvalPass.AllOutcomes | lib/Transforms/ConstEvalHoist.cpp:190-229 | for every ordinary function, told by fields and by which ids are left: what must stay is left, and without failure exactly what is free to go is gone |
| ConstEvalOutcome.OthersAreKept | lib/Transforms/ConstEvalHoist.cpp:198-211 | a non-cacheable op, a shared op, or an op with a result at an operand place that its user writes is never taken out |
| ConstEvalOutcome.RestIsTaken | lib/Transforms/ConstEvalHoist.cpp:213-229 | without failure, any other op with results is gone exactly when it is a `load_cached` or each operand is a const parameter, a shared result or a result of an op that is gone |
| ConstEvalFailure.FailsByFields | lib/Transforms/ConstEvalHoist.cpp:190-257 | given the ops that are calls or use only const parameters, shared results and results of such ops, none of them held back: the analysis fails exactly when one of them has an untagged result in L1 |
| ConstEvalFailure.MovableSetExists | lib/Transforms/ConstEvalHoist.cpp:190-229 | there are such ops for every well-formed function |
| ConstEvalPass.SomeFailsByFields | lib/Transforms/ConstEvalHoist.cpp:496-513 | the walk meets a failing analysis exactly when some ordinary function has such an op |
| ConstEvalOrigin.NewBodyWithin | lib/Transforms/ConstEvalHoist.cpp:614-618 | a new function holds no non-cacheable op but shared ones |
| ConstEvalOrigin.GrownBodyWithin | lib/Transforms/ConstEvalHoist.cpp:667-706 | a grown function holds no non-cacheable op but shared ones and those its callees held |
| ConstEvalModule.StepUncacheable | lib/Transforms/ConstEvalHoist.cpp:566-723 | so no step gives a const-eval function a non-cacheable op of a kind that none had |
| ConstEvalChains.SameSubgraphExactlyWhen | lib/Transforms/ConstEvalHoist.cpp:263-285 | two ops to be hoisted are in one subgraph exactly when a chain of uses among joined ops connects them |
| ConstEvalCount.ListedCount | lib/Transforms/ConstEvalHoist.cpp:551-558 | the new functions made for a function are as many as its classes of linked const-eval ops that hold no call |
| ConstEvalCount.ClassFirstInOrder | lib/Transforms/ConstEvalHoist.cpp:626-634 | the call whose function grows is the first one of its class in the block, so only that one's inputs must be in order |
| ConstEvalEligibility.StillEligible | lib/Transforms/ConstEvalHoist.cpp:41-60 | an op kept is written in place after cutting out whenever it was before |
| ConstEvalEligibility.KeepsEligible | lib/Transforms/ConstEvalHoist.cpp:41-60 | and only if it was before |
| ConstEvalEligibility.CallEligible | lib/Transforms/ConstEvalHoist.cpp:787-794 | the new call may be hoisted again: nothing writes its results in place |
| ConstEvalResidency.CallInL1 | lib/Transforms/ConstEvalHoist.cpp:725-789 | the new call is untagged in L1 exactly when some output is in L1 |
| ConstEvalResidency.HasL1CallNext | lib/Transforms/ConstEvalHoist.cpp:783-800 | after cutting out, a call that the analysis rejects is there exactly when one was there or the subgraph has an output in L1 |
| ConstEvalResidency.PendingNext | lib/Transforms/ConstEvalHoist.cpp:551-562 | the outputs in L1 of the other subgraphs stay exactly what they were |
| ConstEvalLeaving.PendingExactlyWhen | lib/Transforms/ConstEvalHoist.cpp:890-943 | some subgraph has an output in L1 exactly when some result in L1 of an op to be hoisted is returned or used by an op that stays |
| ConstEvalRerun.AnalyzedIsTame | lib/Transforms/ConstEvalHoist.cpp:125-181 | at first every candidate with results is a member of some subgraph, and every member is eligible and not untagged in L1 |
| ConstEvalRerun.AnalyzedIsSettling | lib/Transforms/ConstEvalHoist.cpp:231-257 | whether a second analysis will fail is decided before anything is cut out |
| ConstEvalRerun.CandidateBack | lib/Transforms/ConstEvalHoist.cpp:791-800 | cutting a subgraph out makes no kept op a candidate that was none before |
| ConstEvalRerun.TameNext | lib/Transforms/ConstEvalHoist.cpp:791-800 | cutting out one subgraph after the other leaves no candidate with results but members of later subgraphs and calls of constants in argument order, and only a call can be untagged in L1 |
| ConstEvalRerun.NewCallInOrder | lib/Transforms/ConstEvalHoist.cpp:783-789 | the new call takes its inputs in order, whatever the calls it replaces did |
| ConstEvalRerun.SettledNeedsNothing | lib/Transforms/ConstEvalHoist.cpp:527-564 | a second analysis of a processed function fails exactly when foreseen; in any case it finds only calls of constants in argument order, and no function is made |
| ConstEvalRerun.TaggedFailsAgain | lib/Transforms/ConstEvalHoist.cpp:249-257 | a function returning the result of its one tagged op in L1: the analysis accepts it, and rejects it once the op is cut out |
| ConstEvalPass.WalkStep | lib/Transforms/ConstEvalHoist.cpp:496-508 | new names given to one function are none of those another one will need |
| ConstEvalModule.StepSane | lib/Transforms/ConstEvalHoist.cpp:566-723 | creating or growing keeps the module in good order: well-formed functions, resolving calls, distinct callees |
| ConstEvalModule.StepPreserves | lib/Transforms/ConstEvalHoist.cpp:566-723 | when the callee computes the outputs, no ordinary function of the module returns anything else |
| ConstEvalModule.CallKept | lib/Transforms/ConstEvalHoist.cpp:711-722 | every call that stays names a function that was neither touched nor erased |
| ConstEvalModule.StepDistinct | lib/Transforms/ConstEvalHoist.cpp:783-789 | what a call that may be hoisted names is still called nowhere else |
| ConstEvalModule.CarvedIds | lib/Transforms/ConstEvalHoist.cpp:783-800 | the caller loses exactly the subgraph's ops and calls and gains the new call |
| ConstEvalHoist.CreateStep | lib/Transforms/ConstEvalHoist.cpp:566-624 | creating a function is such a step |
| ConstEvalHoist.CreateComputes | lib/Transforms/ConstEvalHoist.cpp:566-624 | and its function computes the outputs for every meaning and all data |
| ConstEvalHoist.GrowStep | lib/Transforms/ConstEvalHoist.cpp:626-723 | growing a function is such a step |
| ConstEvalHoist.GrowComputes | lib/Transforms/ConstEvalHoist.cpp:626-723 | and the grown function computes the outputs for every meaning and all data |
| ConstEvalHoist.FirstCalleeApart | lib/Transforms/ConstEvalHoist.cpp:692-702 | the function that grows is none of those inlined and erased |
| ConstEvalHoist.OthersStay | lib/Transforms/ConstEvalHoist.cpp:551-562 | every other subgraph is still a closed subgraph of the rewritten function |
| Rewrite.HoistPreserves | lib/Transforms/ConstEvalHoist.cpp:767-801 | replacing ops by a call that computes their outputs keeps the returned values |
| Rewrite.HoistedWellFormed | lib/Transforms/ConstEvalHoist.cpp:772-800 | with the call behind the leading calls, uses redirected and ops erased, every definition still precedes its uses |
| Rewrite.CallStandsLast | lib/Transforms/ConstEvalHoist.cpp:772-782 | if no call stood behind another op, none does afterwards, and the new call is the last of the calls |
| Rewrite.OrderedWithout | lib/Transforms/ConstEvalHoist.cpp:791-800 | redirecting and erasing keep definitions before uses |
| Rewrite.RedirectedTwice | lib/Transforms/ConstEvalHoist.cpp:791-794 | redirecting one output after the other is redirecting them all |
| Ir.SolutionReturns | lib/Transforms/ConstEvalHoist.cpp:863-888 | in definition-before-use order the op equations have one solution, which tells what a function returns |
| ConstEvalSubgraphs.OutputsOf | lib/Transforms/ConstEvalHoist.cpp:914-942 | the outputs are, each once, exactly the values of the subgraph used by other ops or returned |
| ConstEvalSubgraphs.BoundaryHoistable | lib/Transforms/ConstEvalHoist.cpp:890-943 | the boundary suffices: whatever is used once the ops are gone is an output, and every input is a block argument |
| ConstEvalSubgraphs.OtherSubgraphStays | lib/Transforms/ConstEvalHoist.cpp:791-800 | another subgraph keeps its ops, operands and closure |
| ConstEvalSubgraphs.SharedOpsStay | lib/Transforms/ConstEvalHoist.cpp:791-800 | so do the shared ops |
| ConstEvalSubgraphs.OnlyOrdered | lib/Transforms/ConstEvalHoist.cpp:808-811 | ops carved out in block order are in order behind what they use from outside |
| ConstEvalSubgraphs.BoundaryInOrder | lib/Transforms/ConstEvalHoist.cpp:914-941 | outputs are listed op by op, the subgraph's ops in block order and then the calls it replaces, each op's results from the first to the last |
| ConstEvalReplace.CollectSubgraphBoundary | lib/Transforms/ConstEvalHoist.cpp:890-943 | inputs and outputs are those of the specification whose meaning the lemmas above give |
| ConstEvalReplace.InputsSorted | lib/Transforms/ConstEvalHoist.cpp:899-906 | any ascending list of exactly the parameters is that list of inputs, however it was sorted |
| ConstEvalReplace.IsUsedOutside | lib/Transforms/ConstEvalHoist.cpp:917-923 | true exactly when an op outside the set or the return uses the value |
| ConstEvalReplace.FindCallPosition | lib/Transforms/ConstEvalHoist.cpp:776-782 | the call goes behind the leading calls |
| ConstEvalReplace.ReplaceUses | lib/Transforms/ConstEvalHoist.cpp:791-794 | every use of output i becomes a use of call result i, at once |
| ConstEvalReplace.MemberUnused | lib/Transforms/ConstEvalHoist.cpp:796-800 | in reverse order, no op to be erased has a use left |
| ConstEvalReplace.CallUnused | lib/Transforms/ConstEvalHoist.cpp:711-722 | once the ops are gone, no replaced `load_cached` has a use left |
| ConstEvalReplace.OutputsAreUsed | lib/Transforms/ConstEvalHoist.cpp:908-943 | every result of the new call is used or returned in the rewritten function |
| ConstEvalReplace.ReplaceOpsWithCall | lib/Transforms/ConstEvalHoist.cpp:767-801 | the loops together give the rewritten function of Rewrite, the call with the types of the outputs and no tag |
| ConstEvalReplace.EraseLoadCachedOps | lib/Transforms/ConstEvalHoist.cpp:711-722 | erasing the calls gives the function carved of ops and calls |
| ConstEvalClone.Builder.ProcessOp | lib/Transforms/ConstEvalHoist.cpp:863-888 | given that no operand is missing from the map, one clone under a fresh id with mapped operands; results already mapped stay |
| ConstEvalClone.Builder.ProcessOps | lib/Transforms/ConstEvalHoist.cpp:808-811 | ops in order behind the map's values can all be cloned, none meeting a missing operand |
| ConstEvalClone.Builder.CloneConstEvalFunctionBody | lib/Transforms/ConstEvalHoist.cpp:827-861 | the callee's body is inlined under a map of its own, and the call's results stand for its returned values |
| ConstEvalClone.CloneAllSound | lib/Transforms/ConstEvalHoist.cpp:863-888 | the block stays in order under unique ids and the map only names values defined there |
| ConstEvalClone.CloneAllAgrees | lib/Transforms/ConstEvalHoist.cpp:863-888 | clones compute what the originals compute |
| ConstEvalClone.InlineSound | lib/Transforms/ConstEvalHoist.cpp:827-861 | inlining keeps the block in order, and maps the results of the call |
| ConstEvalClone.InlineAgrees | lib/Transforms/ConstEvalHoist.cpp:827-861 | what is inlined gives for each result of the call the value the call gave |
| ConstEvalCreate.NewBodyInOrder | lib/Transforms/ConstEvalHoist.cpp:614-618 | shared ops, then the subgraph: no clone meets a missing operand |
| ConstEvalCreate.NewBodyLists | lib/Transforms/ConstEvalHoist.cpp:614-618 | the new function is made of one clone of each shared op and each op of the subgraph, in this order, and of nothing else |
| ConstEvalCreate.NewFunctionWellFormed | lib/Transforms/ConstEvalHoist.cpp:604-618 | the new function is well formed and every output is mapped |
| ConstEvalCreate.NewFunctionComputes | lib/Transforms/ConstEvalHoist.cpp:604-618 | called on the inputs it returns the outputs, for every meaning and all data |
| ConstEvalBuild.BuildNewFunction | lib/Transforms/ConstEvalHoist.cpp:587-618 | the loops build that new function, under fresh argument and op ids |
| ConstEvalBuild.BuildOwnPart | lib/Transforms/ConstEvalHoist.cpp:683-689 | shared ops go before the old body, which stays as it is |
| ConstEvalBuild.InlineOthers | lib/Transforms/ConstEvalHoist.cpp:690-702 | every other callee is inlined in turn, its inputs all mapped |
| ConstEvalBuild.OldInputsAreSubsequence | lib/Transforms/ConstEvalHoist.cpp:640-642 | sorted old inputs of a member call are a subsequence of the new inputs |
| ConstEvalBuild.BuildGrownFunction | lib/Transforms/ConstEvalHoist.cpp:644-706 | the loops build the grown function, arguments aligned with the inputs |
| ConstEvalArguments.InsertArguments | lib/Transforms/ConstEvalHoist.cpp:648-670 | argument i stands for input i at the end, and old arguments for old inputs, exactly when the old inputs are a subsequence of the new ones |
| ConstEvalArguments.SortedSubsequence | lib/Transforms/ConstEvalHoist.cpp:899-906 | sorted inputs of a smaller set are a subsequence of those of a larger one |
| ConstEvalArguments.DescendingInputsMisalign | lib/Transforms/ConstEvalHoist.cpp:654-670 | two old inputs in descending order are no subsequence of the sorted ones, so the loop misaligns |
| ConstEvalGrow.GrownInOrder | lib/Transforms/ConstEvalHoist.cpp:690-703 | no clone or inlined call of the grown body meets a missing operand |
| ConstEvalGrow.GrownWellFormed | lib/Transforms/ConstEvalHoist.cpp:626-706 | the grown function is well formed, before and after deduplication |
| ConstEvalGrow.OldBodyAgrees | lib/Transforms/ConstEvalHoist.cpp:672-678 | run where its arguments now stand, the old body gives what the call gave |
| ConstEvalGrow.GrownFunctionComputes | lib/Transforms/ConstEvalHoist.cpp:626-706 | the grown function returns for each output the value the op or the old call gave |
| ConstEvalDedup.DeduplicateSharedOps | lib/Transforms/ConstEvalHoist.cpp:321-369 | the walk redirects and erases as specified, erasing only what nothing uses |
| ConstEvalDedup.DeduplicatedReturns | lib/Transforms/ConstEvalHoist.cpp:321-369 | the function still returns the same values |
| ConstEvalDedup.DeduplicatedWellFormed | lib/Transforms/ConstEvalHoist.cpp:351-368 | definitions still precede uses |
| ConstEvalDedup.OneOfEach | lib/Transforms/ConstEvalHoist.cpp:343-349 | no two shared ops of the same name and attributes are left |
| ConstEvalDedup.OnlyDuplicatesGo | lib/Transforms/ConstEvalHoist.cpp:359-368 | every other op stays, and one of each shared kind |
| ConstEvalDedup.DuplicateUnused | lib/Transforms/ConstEvalHoist.cpp:365-368 | no duplicate has a use when it is erased |
| ConstEvalAnalysis.FoundIsFixpoint | lib/Transforms/ConstEvalHoist.cpp:184-286 | one forward pass finds a set of values that is a fixpoint of candidacy |
| ConstEvalAnalysis.FixpointUnique | lib/Transforms/ConstEvalHoist.cpp:184-286 | and the only one |
| ConstEvalAnalysis.VerdictStands | lib/Transforms/ConstEvalHoist.cpp:213-229 | judging an op against all values found, rather than those found so far, changes no verdict |
| ConstEvalAnalysis.FailsExactlyWhen | lib/Transforms/ConstEvalHoist.cpp:249-257 | the analysis fails exactly when a candidate, judged against the fixpoint, is untagged in L1 |
| ConstEvalLinks.SameRootExactlyWhenLinked | lib/Transforms/ConstEvalHoist.cpp:259-285 | values share a root exactly when a chain of joined groups links them |
| ConstEvalLinks.InitResults | lib/Transforms/ConstEvalHoist.cpp:259-261 | new results join no other class |
| ConstEvalLinks.UnionAll | lib/Transforms/ConstEvalHoist.cpp:279-285 | one group's values end in one class, and no unlinked values do |
| ConstEvalAnalyzer.IsResultWrittenInPlace | lib/Transforms/ConstEvalHoist.cpp:41-60 | true exactly when some user writes some result in place |
| ConstEvalAnalyzer.ResidesInL1 | lib/Transforms/ConstEvalHoist.cpp:231-247 | true exactly when some result is in L1 |
| ConstEvalAnalyzer.CollectGraphsToJoin | lib/Transforms/ConstEvalHoist.cpp:263-277 | operands that are neither block arguments nor shared, and all results |
| ConstEvalAnalyzer.JoinOp | lib/Transforms/ConstEvalHoist.cpp:259-286 | the forest knows one more op: values found and classes as linked |
| ConstEvalAnalyzer.AllOperandsConstEval | lib/Transforms/ConstEvalHoist.cpp:213-229 | true exactly when every operand is const, shared or in the forest |
| ConstEvalAnalyzer.ConstEvalAnalyze.constructor | lib/Transforms/ConstEvalHoist.cpp:117-121 | the finished analysis holds the fixpoint, its classes, the shared ops and the verdict |
| ConstEvalAnalyzer.ConstEvalAnalyze.ProcessOp | lib/Transforms/ConstEvalHoist.cpp:192-286 | one step of that, for each branch |
| ConstEvalAnalyzer.ConstEvalAnalyze.IsCandidate | lib/Transforms/ConstEvalHoist.cpp:204-229 | true exactly for an op that is not non-cacheable, not written in place, and a `load_cached` or a user of const operands only; this is candidacy as the fixpoint has it |
| ConstEvalAnalyzer.ConstEvalAnalyze.GetAnalysisResults | lib/Transforms/ConstEvalHoist.cpp:125-181 | lists one subgraph for each class, in any order, and the shared ops; path compression moves no root |
| ConstEvalAnalyzer.RecordMember | lib/Transforms/ConstEvalHoist.cpp:136-170 | an op goes to the subgraph of its root, which is numbered when first seen |
| ConstEvalAnalyzer.ArgumentsAreConst | lib/Transforms/ConstEvalHoist.cpp:151-169 | the assertions that only const block arguments occur hold |
| ConstEvalAnalyzer.ExactFixpoint | lib/Transforms/ConstEvalHoist.cpp:192-286 | without failure, a value is in the forest exactly when its op is eligible and is a `load_cached` or has only const-eval operands |
| ConstEvalAnalyzer.RootsTellLinks | lib/Transforms/ConstEvalHoist.cpp:263-285 | two values of the forest share a root exactly when a chain of joined ops links them |
| ConstEvalAnalyzer.ListedAreSeparate | lib/Transforms/ConstEvalHoist.cpp:125-181 | the subgraphs are operand-closed, in block order and mutually disjoint |
| ConstEvalAnalyzer.ListedHold | lib/Transforms/ConstEvalHoist.cpp:129-172 | together they hold exactly the ops with results in the forest |
| DisjointSets.ChainEndsInRoot | lib/Transforms/ConstEvalHoist.cpp:76-84 | every parent chain ends in the representative: `findRoot` terminates |
| DisjointSets.RootsDetermined | lib/Transforms/ConstEvalHoist.cpp:76-84 | the parent map alone determines the representatives |
| DisjointSets.MergedClasses | lib/Transforms/ConstEvalHoist.cpp:86-90 | a union merges exactly the two argument classes |
| DisjointSets.DisjointSetUnion.Init | lib/Transforms/ConstEvalHoist.cpp:68-72 | a new element is its own class |
| DisjointSets.DisjointSetUnion.FindRoot | lib/Transforms/ConstEvalHoist.cpp:76-84 | returns the representative; compression changes no element's |
| DisjointSets.DisjointSetUnion.UnionSets | lib/Transforms/ConstEvalHoist.cpp:86-90 | the classes of both arguments become one under the second's representative, all others stay |
| ConstEvalNames.LastOccurrence | lib/Transforms/ConstEvalHoist.cpp:434-437 | the last place the infix occurs at, if any |
| ConstEvalNames.DecimalRoundTrip | lib/Transforms/ConstEvalHoist.cpp:424-445 | printing an index and reading it back gives the index |
| ConstEvalNames.ParseConstruct | lib/Transforms/ConstEvalHoist.cpp:422-450 | parsing a constructed name gives back the name and index, even when the name holds the infix |
| ConstEvalNames.ConstructInjective | lib/Transforms/ConstEvalHoist.cpp:422-426 | different names or indices make different const-eval names |
| ConstEvalNames.MaxSubgraphIndices | lib/Transforms/ConstEvalHoist.cpp:463-494 | the largest index of every function that has existing const-eval functions, and of no other |
| ConstEvalNames.NewNameIsFresh | lib/Transforms/ConstEvalHoist.cpp:498-508 | with room below the word's end, no new name is that of an existing const-eval function |
| ConstEvalNames.NewNamesDiffer | lib/Transforms/ConstEvalHoist.cpp:551-558 | new names differ within and across functions |
| ConstEvalNames.NewNamesFreeExactlyWhen | lib/Transforms/ConstEvalHoist.cpp:498-508 | with room below the word's end, the next names are free exactly when no ordinary function carries one of the names above the largest index claimed |
| ConstEvalNames.OffsetIsFirstFree | lib/Transforms/ConstEvalHoist.cpp:486-503 | the recorded maximum plus one is the first index above all those that const-eval functions claim |
| ConstEvalNames.FreshExactlyWhen | lib/Transforms/ConstEvalHoist.cpp:501-503 | offsetting avoids the existing indices, whatever they are, exactly when the new ones fit the word |
| ConstEvalNames.OrdinaryNameCanCollide | lib/Transforms/ConstEvalHoist.cpp:467-494 | an ordinary function can already carry the name chosen |
| CompiledAffineMap.Compiler.constructor | include/ttmlir/AffineMapUtils.h:531-538 | one instruction for each distinct subexpression compiled; each register is written once, before it is read, and each memo entry names a register holding its expression |
| CompiledAffineMap.Compiler.CompileExpr | include/ttmlir/AffineMapUtils.h:631-707 | the returned register holds the expression; code only grows, by the subexpressions not yet compiled |
| CompiledAffineMap.Compiler.CompileBinary | include/ttmlir/AffineMapUtils.h:660-706 | the same for a binary expression, in either form |
| CompiledAffineMap.Compiler.EmitReduced | include/ttmlir/AffineMapUtils.h:665-682 | shift or mask in place of division by a power of two |
| CompiledAffineMap.Compiler.EmitInstruction | include/ttmlir/AffineMapUtils.h:620-629 | the next register is the next instruction's number |
| CompiledAffineMap.Compiler.Evaluate | include/ttmlir/AffineMapUtils.h:540-591 | results are the recursive value of each expression on the inputs, negatives included, and that value is the one given by inequalities: floor, ceiling and remainder for either sign of the divisor |
| CompiledAffineMap.RunProgram | include/ttmlir/AffineMapUtils.h:545-587 | every register holds the value of its expression after the run |
| CompiledAffineMap.StepIsRight | include/ttmlir/AffineMapUtils.h:547-586 | one instruction computes its expression from earlier registers |
| CompiledAffineMap.ReducedExactlyWhen | include/ttmlir/AffineMapUtils.h:664-690 | a constant divisor becomes a shift or a mask exactly when it is a power of two, by its exponent and its predecessor |
| Affine.ResultIsApply | include/ttmlir/AffineMapUtils.h:561-580 | each operation gives the one result allowed by inequalities: b*(q-1) < a <= b*q for a ceiling by a positive divisor, and the like for floors, remainders and negative divisors |
| Affine.EvalByInequalities | include/ttmlir/AffineMapUtils.h:540-591 | an expression with its dimensions given and no zero divisor has exactly one value by these inequalities, the one evaluation gives |
| CompiledAffineMap.CorrectedFloor | include/ttmlir/AffineMapUtils.h:560-572 | truncating division with the sign correction is floor division and its remainder, for any nonzero divisor |
| CompiledAffineMap.CorrectedCeil | include/ttmlir/AffineMapUtils.h:573-579 | and ceiling division |
| CompiledAffineMap.ReductionIsRight | include/ttmlir/AffineMapUtils.h:665-682 | shift and mask by a power of two are floordiv and mod on every 64-bit word |
| TwosComplement.ShiftIsFloorDivision | include/ttmlir/AffineMapUtils.h:580-582 | arithmetic shift of a two's complement word is floor division by the power of two |
| TwosComplement.MaskIsRemainder | include/ttmlir/AffineMapUtils.h:583-585 | masking is the Euclidean remainder |
| TwosComplement.PowerTest | include/ttmlir/AffineMapUtils.h:618-618 | the bit test holds exactly for powers of two, whose trailing zeros give the exponent |
| Affine.ComposeEval | include/ttmlir/AffineMapUtils.h:348-348 | composing maps composes their values |
| Coalescing.CalculateCoalescingFactor | include/ttmlir/AffineMapUtils.h:740-832 | what the loops compute, early exits included, over compiled code and the in-place odometer; with a grid dimension it is the divisor of the shard volume whose divisors are exactly the chunk sizes that lie together, told on the map alone |
| Coalescing.ScanShard | include/ttmlir/AffineMapUtils.h:777-828 | one shard's gcd of run lengths, despite the early break |
| Coalescing.VisitElement | include/ttmlir/AffineMapUtils.h:789-825 | an element is contiguous exactly when its address is the last one with the last result moved by the stride and all other results the same |
| Coalescing.AdvancePoint | include/ttmlir/AffineMapUtils.h:818-825 | the odometer moves to the next shard point and leaves the grid coordinates |
| Coalescing.ComputedAsDocumented | include/ttmlir/AffineMapUtils.h:716-729 | with at least one grid dimension the result is the gcd of the run lengths over all grid points |
| Coalescing.DocumentedIsExact | include/ttmlir/AffineMapUtils.h:716-729 | a divisor of the shard volume divides the factor exactly when cutting every shard into aligned chunks of that size leaves every chunk contiguous |
| Coalescing.DocumentedIsLargest | include/ttmlir/AffineMapUtils.h:717-719 | the factor itself is such a chunk size |
| Coalescing.ComputedByAddresses | include/ttmlir/AffineMapUtils.h:716-729 | with a grid dimension, a divisor d of the shard volume divides the result exactly when, at every grid point and for every two consecutive row-major points of one aligned d-chunk, all map results but the last are equal and the last differs by the stride |
| Coalescing.ComputedIsLargest | include/ttmlir/AffineMapUtils.h:717-719 | and the result is itself such a d |
| Coalescing.NoGridDims | include/ttmlir/AffineMapUtils.h:773-831 | without grid dimensions the result is the shard volume |
| Coalescing.ColumnMajorCounterexample | include/ttmlir/AffineMapUtils.h:736-739 | the documented column-major example yields 8 |
| Coalescing.DocumentationMetExactlyWhen | include/ttmlir/AffineMapUtils.h:716-743 | for each map, shape and stride, the documented value is met exactly when there is a grid dimension or the whole shard, if it has an element, is contiguous |
| Coalescing.EveryMapMetExactlyWhen | include/ttmlir/AffineMapUtils.h:716-743 | it is met for every map exactly when there is a grid dimension or at most one element |
| Shapes.CalculateStrides | include/ttmlir/Utils.h:68-78 | each stride is the element size times the volume of the dimensions behind |
| Shapes.Sample | include/ttmlir/Utils.h:81-94 | the points visited, none for an empty shape |
| Shapes.LinearIdToCoord | include/ttmlir/Utils.h:746-753 | repeated mod and div give the row-major coordinates |
| Shapes.Advance | include/ttmlir/AffineMapUtils.h:818-825 | the odometer in place holds the coordinates of the next flat index, wrapping at the end |
| Shapes.EnumerationsAgree | include/ttmlir/Utils.h:81-94 | i-th sampled point, coordinates of i and odometer after i steps are the same point, and no other point has flat index i |
| Shapes.EveryPointVisited | include/ttmlir/Utils.h:81-94 | every point of the box is visited, at its flat index |
| Shapes.CoordsAscend | include/ttmlir/Utils.h:746-753 | in lexicographic order |
| Factors.GetFactors | include/ttmlir/Utils.h:142-157 | exactly the positive divisors, sorted, entry k times its mirror image the absolute value, an entry repeated only for the root of a perfect square above 1; nothing for 0 |
| Factors.RootRepeated | include/ttmlir/Utils.h:149-156 | that root is indeed listed twice |
| UseDefChain.GetUseDefChain | include/ttmlir/Utils.h:690-715 | terminates with exactly the values reachable backwards, each once, for every finite graph |
| Reblock.CalculateReblockMap | include/ttmlir/AffineMapUtils.h:303-349 | the map built is the reblocking of the shapes, with the skipped size-1 dimensions and the omitted outermost mod |
| Reblock.BuildOutputToFlat | include/ttmlir/AffineMapUtils.h:317-330 | the expression is the ascending-stride flat index |
| Reblock.BuildFlatToInput | include/ttmlir/AffineMapUtils.h:332-346 | the terms decode a flat index in range |
| Reblock.StrideIterationOrder | include/ttmlir/Utils.h:252-260 | dimensions from the smallest stride to the largest, shard and grid interleaved |
| Reblock.ReblockKeepsPosition | include/ttmlir/AffineMapUtils.h:302-349 | reblocking lands in the input box and keeps the flat index |
| Reblock.ReblockRoundTrip | include/ttmlir/AffineMapUtils.h:302-349 | there and back is the identity |
| Reblock.ReblockBijective | include/ttmlir/AffineMapUtils.h:302-349 | each point of the input box is met by exactly one point of the output box |
| Reblock.ReblockThroughThird | include/ttmlir/AffineMapUtils.h:302-349 | reblocking through a third shape is reblocking directly |
| Reblock.ReblockMapsCompose | include/ttmlir/AffineMapUtils.h:348-348 | so are the composed maps themselves, and the identity when the shapes return |
| DeviceMaps.BuildDeviceToPhysicalMap | include/ttmlir/AffineMapUtils.h:424-444 | grid coordinate times shard size plus shard coordinate |
| DeviceMaps.BuildPhysicalToDeviceMap | include/ttmlir/AffineMapUtils.h:455-481 | shard number and place in the shard |
| DeviceMaps.PhysicalRoundTrip | include/ttmlir/AffineMapUtils.h:424-481 | physical to device and back is the identity |
| DeviceMaps.DeviceRoundTrip | include/ttmlir/AffineMapUtils.h:424-481 | device to physical and back is the identity on the device box |
| DeviceMaps.LandsInGridExactlyWhen | include/ttmlir/AffineMapUtils.h:455-481 | every physical point lands in the grid exactly when the grid divides the shape |
| DeviceMaps.CalculateReblockShapeForGrid | include/ttmlir/AffineMapUtils.h:353-369 | the new shape has the new grid and the same physical extents |
| DeviceMaps.CalculateReblockMapForGrid | include/ttmlir/AffineMapUtils.h:373-380 | on every point it equals device to physical under the new grid followed by physical to device under the old one |
| DeviceMaps.ReblockKeepsPhysical | include/ttmlir/AffineMapUtils.h:371-380 | every logical coordinate is kept |
| DeviceMaps.OldShards | include/ttmlir/AffineMapUtils.h:373-380 | the old shard sizes are those the old grid gives the physical shape, so the two maps named here are the builders' maps |
| DeviceMaps.PositionIsPhysical | include/ttmlir/AffineMapUtils.h:317-330 | the ascending-stride flat index of a device point is the row-major index of its physical point |
| GridCollapse.CreateNDGridCollapseMap | include/ttmlir/AffineMapUtils.h:492-523 | grid coordinates collapse through the row-major index, shard coordinates pass through, and only those dimensions are used |
| GridCollapse.InjectiveExactlyWhen | include/ttmlir/AffineMapUtils.h:492-523 | the map built, shard coordinates included, is one to one on the device box exactly when the grid volume is at most the physical grid's |
| GridCollapse.OntoExactlyWhen | include/ttmlir/AffineMapUtils.h:492-523 | it meets every physical grid point with all shard coordinates exactly when the grid volume is at least the physical grid's |
| GridCollapse.CollapseKeepsIndex | include/ttmlir/AffineMapUtils.h:485-523 | the physical point has the row-major index of the grid point, wrapped at the physical volume, and shard coordinates are kept |
| CollapseParallelLoops.MatchAndRewrite | lib/Transforms/CollapseParallelLoops.cpp:79-170 | succeeds exactly on nests of rank 4 and more whose dimensions from the third on start at 0, step by 1 and have constant ends; the new bounds and the decoded mapping |
| CollapseParallelLoops.CalculateProductOfRemainingDims | lib/Transforms/CollapseParallelLoops.cpp:67-74 | the product of the leading, not the trailing, extents |
| CollapseParallelLoops.Decompose | lib/Transforms/CollapseParallelLoops.cpp:135-157 | the quotient and remainder chain for each trailing dimension |
| CollapseParallelLoops.DecodingIsBijective | lib/Transforms/CollapseParallelLoops.cpp:138-161 | decoding maps the collapsed range one to one onto the box of the reversed extents |
| CollapseParallelLoops.NewNestRuns | lib/Transforms/CollapseParallelLoops.cpp:115-161 | the body runs for exactly the points of that box |
| CollapseParallelLoops.RunsOnce | lib/Transforms/CollapseParallelLoops.cpp:138-161 | each point once |
| CollapseParallelLoops.SameIterationsExactlyWhen | lib/Transforms/CollapseParallelLoops.cpp:127-161 | the original iterations are reproduced exactly when nothing runs or the extents read the same backwards |
| CollapseParallelLoops.ReversedCounterexample | lib/Transforms/CollapseParallelLoops.cpp:146-156 | a 2 by 3 nest loses an iteration |
| Scheduler.Scheduler.constructor | lib/Scheduler/Scheduler.cpp:35-61 | each schedulable op depends on exactly the schedulable ops whose results it uses |
| Scheduler.Scheduler.GetSchedulableOps | lib/Scheduler/Scheduler.cpp:68-130 | the list holds precisely the unscheduled ops whose dependencies are scheduled; if an op in it leaves some other op waiting for a further unscheduled one, so does every op before it; two ops of the same kind keep their block order |
| Scheduler.Scheduler.CanSchedule | lib/Scheduler/Scheduler.cpp:132-140 | true exactly when all dependencies are scheduled |
| Scheduler.Scheduler.HasBlocked | lib/Scheduler/Scheduler.cpp:85-113 | true exactly when scheduling the op leaves a successor blocked |
| Scheduler.Scheduler.StableSort | lib/Scheduler/Scheduler.cpp:119-127 | ops that leave another one waiting come first; two ops of the same kind keep their order |
| Scheduler.Scheduler.ScheduleOp | lib/Scheduler/Scheduler.cpp:142-146 | the op is scheduled last |
| Scheduler.Scheduler.HasUnscheduledOps | lib/Scheduler/Scheduler.cpp:156-158 | true exactly when some op of the function is not scheduled yet, as long as only ops of the function are scheduled and each is listed once |
| Scheduler.Scheduler.Snapshot | lib/Scheduler/Scheduler.cpp:148-150 | a fresh scheduler in the same state |
| Scheduler.PrioritizedPermutes | lib/Scheduler/Scheduler.cpp:119-127 | sorting loses and repeats nothing |
| Scheduler.PrioritizedInOrder | lib/Scheduler/Scheduler.cpp:117-127 | the same for the specification, told on dependencies and scheduled ops |
| Scheduler.ReadyInOrder | lib/Scheduler/Scheduler.cpp:68-130 | and for the ready ops of the whole block |
| Scheduler.BlockIsOrdered | lib/Scheduler/Scheduler.cpp:35-61 | in a definition-before-use block every dependency stands earlier |
| Scheduler.RunIsTopological | lib/Scheduler/Scheduler.cpp:68-158 | every run schedules each op at most once, after its dependencies |
| Scheduler.RunProgresses | lib/Scheduler/Scheduler.cpp:68-158 | an op is ready exactly while some op is unscheduled, and a run is complete exactly when it permutes the ops |
| Scheduler.StaysReady | lib/Scheduler/Scheduler.cpp:68-158 | a ready op stays ready until it is scheduled |
| Scheduler.FinishedRun | lib/Scheduler/Scheduler.cpp:35-61 | a finished run orders every use after its definition |
| Scheduler.RunToEnd | lib/Scheduler/Scheduler.cpp:142-158 | scheduling any ready op until none is unscheduled ends after one step per op |
| Scheduler.ScheduleAll | lib/Scheduler/Scheduler.cpp:35-158 | from any such block: a permutation of its schedulable ops that respects every use |
| WorkerProtocol.AnswersInOrder | python/common/compile_and_run_utils.py:192-228 | over all runs, results come back in submission order, never twice, and every one of them, the last included, is for a task submitted at or before its call |
| WorkerProtocol.OwnAnswerExactlyWhen | python/common/compile_and_run_utils.py:192-236 | over all runs, whenever workers die, a call's answer is its own exactly when nothing was pending at its submission |
| WorkerProtocol.AnswerIsOwn | python/common/compile_and_run_utils.py:192-236 | hence, if workers die only while executing and no earlier call timed out on a live worker, the answer is the current call's own |
| WorkerProtocol.RunOrderly | python/common/compile_and_run_utils.py:155-169 | the invariant behind the order, on every reachable state |
| WorkerProtocol.RunFaithful | python/common/compile_and_run_utils.py:155-169 | if workers die only while executing, then until a timeout on a live worker nothing is pending but the current call's own task, and all answers before it are own |
| WorkerProtocol.LateAnswerGoesToNextCall | python/common/compile_and_run_utils.py:208-212 | a run in which a timed-out worker's late result answers the next call |
| WorkerProtocol.DeathAfterPostMisleads | python/common/compile_and_run_utils.py:219-221 | a run in which a worker dies after posting and its result answers the next call |
| WorkerCalls.LoggedWhen | python/common/compile_and_run_utils.py:205-236 | over all runs: an answer is returned only under a live worker and discarded only without one; a call without an answer times out only under a live worker and crashes only without one |
| WorkerCalls.EndsWhen | python/common/compile_and_run_utils.py:205-236 | and a call that has an answer, or gave up, ends in that event and no other |
| WorkerCalls.NextEventOfGoneWorker | python/common/compile_and_run_utils.py:217-225 | over all runs: once the worker is gone while the parent holds an answer, the next event is that it is discarded; while it holds none, that the call crashed |
| WorkerCalls.OneEventPerCall | python/common/compile_and_run_utils.py:192-236 | over all runs: a submitted call has left exactly one event, unless it is still under way |
| WorkerCalls.TakenWhen | python/common/compile_and_run_utils.py:205-208 | a call gives up only while nothing is posted, and otherwise takes the oldest result |
| WorkerCalls.StartedWhen | python/common/compile_and_run_utils.py:199-203 | a call starts under a live worker, which is started only if there is none, and its task goes behind all others |
| WorkerCalls.ExecutedWhen | python/common/compile_and_run_utils.py:168-169 | a task executed ends with its result posted last, or with its worker |
| WorkerCalls.MessageTakenWhen | python/common/compile_and_run_utils.py:162-166 | an idle worker takes the oldest message and goes if it asks to exit |
| WorkerCalls.StoppedWhen | python/common/compile_and_run_utils.py:230-236 | stopping asks a live worker to exit and ends only once it is gone |

## Left out

- MLIR itself: builders, rewriters, locations, symbol tables, types and verification are replaced by small datatypes; replacing all uses and erasing an op are single edits of a function.
- Nested regions, several blocks and isolation scopes: one straight-line block per function, so the scope part of a shared op's signature is constant.
- Kernel functions, which the pass skips, and modules whose walk visits a function erased under the walk's own iterator.
- Shared ops with operands: the only shared op of the repository has none.
- Side effects of ops: an in-place write keeps an op out of const-eval as in the code, but is not part of an op's meaning.
- L1 usage accounting, the conv2d weight attribute and function types: they come from layouts defined elsewhere. Which results of an op reside in L1 and whether the op is tagged are fields of the op; that a call and its callee have the same result types is not part of this model beyond their number.
- `std::sort`, `std::stable_sort`, `std::gcd`, `std::sqrt` and hash map iteration: modelled by their results (a sorted list, a stable partition, the greatest common divisor, the exact integer root, any order).
- Simplification of affine expressions by MLIR's builders: expressions are kept as written, which has the same value.
- Machine-integer overflow, except that shift and mask are proved on 64-bit words and name indices wrap.
- The limits of 512 registers, 16 results and 16 dimensions are preconditions, as the code asserts them.
- CompiledAffineMap.Compiler.Evaluate: requires that every subexpression has a value in a 64-bit word, that no divisor is zero and that no quotient overflows, because anything else is undefined in the code.
- ConstEvalPass.ConstEvalHoistTransform.RunOnOperation: asks that new indices stay below the end of the machine word; indices that wrap and happen to be free are not covered.
- Real time and operating-system behaviour in the worker protocol beyond a worker being alive, dead or having posted; the error status inside a result.
- The map helpers, analyses and conversions of `AffineMapUtils.h` and `Utils.h` not listed above: single expressions or declarations only.
