# Fai: proofs about the compiler's analyses, transformations and kernels

Fai is a functional language with a compiler that deletes array bounds checks, skips loop
iterations, updates arrays in place, moves fields out of dying owners, inlines helpers and
synthesises property-test generators. Each of these rests on an argument about every run of
every program. This project states those arguments as Dafny models and proves them.

- **Bounds checks.** `Machine`, `DifferenceGraph`, `BoundsFacts`, `BoundsSearch`, `BoundsEngine`,
  `BoundsRuns`, `BoundsRecords`, `BoundsElision`: a difference-bound domain over zero, integer locals
  and array lengths. `DifferenceGraph` says what path weights mean over all integer assignments,
  independently of any search. `BoundsEngine` is the mutable fact engine with its relaxation
  loops, proved against `BoundsFacts`. `BoundsRuns` gives stores and shows that every operation keeps
  the facts true; `BoundsRecords` shows that it records no less than it means: the assignments
  admitted afterwards are exactly those admitted before that meet the operation.
  `BoundsElision` deletes checks from whole programs.
- **Loop analyses.** `Primitives`, `Core` and `CoreLoop` are the compiler's intermediate
  representation with a trapping evaluator and one iteration of a loop. `FixedPoint*` (skipping
  iterations once float state repeats), `Affine*` (equality with a loop-carried difference),
  `ArrayLoop*` (one buffer updated in place), `ArrayLayout*` (parameters that keep their
  layout) and `TakeFields*` (fields moved out before an owner dies) each hold the scan as the
  compiler runs it, a description of what it computes, and the theorem about every run of an
  accepted body. The `*Shape` modules (and `CollectExact` for fields) say when a scan answers: by the
  lexical shape of the loop, without the scan's tables and budget, in both directions.
- **Helper inlining.** `Calls` is whole programs with partial and over-saturated application and
  a call budget; `HelperInlin*` is the folding, its proof in both directions of termination,
  the rebuilding pass with its mutable counters, and (`HelperInliningCalls`) which calls are folded
  and which are left, from the definitions alone.
- **Generators.** `GeneratorTypes`, `GeneratorRanks`, `GeneratorRuns`, `GeneratorChoices`: reachability
  in the type graph, the least-fixpoint rank of a type, size-splitting generation, which ends for
  every size and seed, and what each draw chooses.
- **Kernels.** `Sorting`, `ListSortSum`, `QuickSort`, `TreeLookup`, `ExprEval`, with `Logarithm`, `Sets`
  and `Sequences`.
- **Release preparation.** `ReleasePreparation`: a journalled update of three files as steps that
  may be cut short and resumed.

Conventions. A 64-bit integer is `Machine.I64`; wrapping is written out. Operations whose result
does not matter (float arithmetic, allocation, foreign calls, random draws, file contents) are
uninterpreted functions passed as parameters, so a theorem holds for every interpretation.
Where an object has fields that its methods update, the model is a class whose methods are proved
against a function of the old state; the theorems are about that function.

Descriptions of a loop by its shape hold of bodies in which every local is bound once and used where
it is bound, as lowering produces them.

Three expectations fail. A list of more than 32 elements is sorted with wrapping subtraction as its
comparator, so it does not always come back ascending: `Sorting.WrappingDifferenceMisorders` gives
such a list. `Sorting.LongListsSortWhenDifferencesFit` is exact over all arrangements of a list at
once; a single arrangement may come back sorted without its condition
(`Sorting.ArrangementMaySortUnfitting`). Outside its tests the program only sorts permutations of
`0..n`, which meet the condition, so the failing list never arises there (`ListSortSum.PermutationFits`).
And a release asked for as "major", "minor" or "patch" is not resumed by asking for the same word
again, because the journal holds the version the word stood for
(`ReleasePreparation.RaisingIsNotResumed`): a run resumes a journal exactly when it names that
version. And folding does not leave every folded body free of calls that could be folded: when an
over-applied helper's body is the bare name of another helper, the surplus arguments make a new call
of it that stays (`HelperInliningCalls.SurplusCallIsLeft`). `HelperInliningCalls.EligibleLeft` says
exactly when that happens, and `NoneLeft` that it never does where no helper is a bare name.

## Model

| member | source | states |
|---|---|---|
| DifferenceGraph.DerivableIsEntailed | crates/fai-core/src/bounds.rs:220-249 | a path weight bounds `a - b` in every integer assignment of the edges, and without a negative cycle a bound is entailed exactly when some path derives it |
| DifferenceGraph.SatisfiableIffNoNegativeCycle | crates/fai-core/src/bounds.rs:220-249 | the constraints have an integer solution exactly when no cycle is negative |
| BoundsEngine.Bounds.Shortest | crates/fai-core/src/bounds.rs:220-249 | the relaxation loop ends, reports a path exactly when one exists, the weight is that of a real path even in a contradictory graph, and is the least one when no cycle is negative; saturation never happens |
| BoundsSearch.EdgesCapped | crates/fai-core/src/bounds.rs:32-37 | every reachable graph has at most `TERM_CAP` terms and its square of edges |
| BoundsSearch.WithinFits | crates/fai-core/src/bounds.rs:220-249 | every distance stays far inside 64 bits, so `saturating_add` is plain addition |
| BoundsSearch.AddEdgeWellFormed | crates/fai-core/src/bounds.rs:114-132 | recording an edge keeps the term budget, the weight cap and the poisoning rule |
| BoundsEngine.Bounds.AddEdge | crates/fai-core/src/bounds.rs:114-132 | the object ends in the state the pure description gives: clamped, tightened, refused or poisoned |
| BoundsEngine.Bounds.Intervals | crates/fai-core/src/bounds.rs:165-196 | the alternating narrowing passes end with every bound justified by a path from a machine limit, and as tight as any path when no cycle is negative |
| BoundsEngine.Bounds.IntegerInRange | crates/fai-core/src/bounds.rs:262-281 | true only when paths bound the value on both sides, and exactly then in a consistent state; literals decided exactly |
| BoundsEngine.Bounds.IndexInBounds | crates/fai-core/src/bounds.rs:302-320 | true only when both edges are derivable, exactly then in a consistent state |
| BoundsEngine.Bounds.TransferLet | crates/fai-core/src/bounds.rs:327-422 | the object ends in the state the pure description of the transfer functions gives |
| BoundsEngine.Bounds.TransferAddSub | crates/fai-core/src/bounds.rs:424-457 | sums and differences are recorded only when the intervals exclude wrapping |
| BoundsEngine.Bounds.Refine | crates/fai-core/src/bounds.rs:487-578 | the object ends in the state described for the branch that is taken, recorded comparisons and subtraction chains included |
| BoundsEngine.Bounds.SeedEntry | crates/fai-core/src/bounds.rs:582-590 | entry facts instantiated at the parameters |
| BoundsEngine.Bounds.TransferCall | crates/fai-core/src/bounds.rs:593-613 | result facts instantiated at the call, with the record kept for later projections |
| BoundsEngine.Bounds.TransferMany | crates/fai-core/src/bounds.rs:615-636 | result facts instantiated at several results |
| BoundsRuns.KnowsSound | crates/fai-core/src/bounds.rs:253-299 | every derived bound is true of every store the facts describe |
| BoundsRuns.IntervalSound | crates/fai-core/src/bounds.rs:165-196 | computed intervals contain the concrete value of every term |
| BoundsRuns.OffsetExact | crates/fai-core/src/bounds.rs:198-206 | a sum judged safe did not wrap |
| BoundsRuns.DifferenceExact | crates/fai-core/src/bounds.rs:208-218 | a difference judged safe did not wrap |
| BoundsRuns.IndexSound | crates/fai-core/src/bounds.rs:302-320 | a proved index satisfies `0 <= i < len` in the store |
| BoundsRuns.RangeSound | crates/fai-core/src/bounds.rs:262-281 | a proved range holds of the concrete value |
| BoundsRuns.TransferLetSound | crates/fai-core/src/bounds.rs:327-485 | binding a value of any analysed operation, wrapping included, keeps graph and side tables true of the store |
| BoundsRuns.PrimHasResult | crates/fai-core/src/bounds.rs:327-422 | a primitive yields a value exactly when its operands are well typed, in range and within an allocation, so no transfer is sound by vacuity, masks included |
| BoundsRuns.RefineSound | crates/fai-core/src/bounds.rs:487-578 | taking either branch keeps them true |
| BoundsRuns.AddEdgeSubSound | crates/fai-core/src/bounds.rs:561-578 | a later guard on a difference yields a true edge between its operands |
| BoundsRuns.SeedEntrySound | crates/fai-core/src/bounds.rs:582-590 | if the signature holds of the arguments its edges hold in the callee |
| BoundsRuns.TransferCallSound | crates/fai-core/src/bounds.rs:593-613 | if the result signature holds of the callee its edges hold in the caller |
| BoundsRuns.TransferManySound | crates/fai-core/src/bounds.rs:615-636 | the same for several results |
| BoundsRuns.TransferFieldSound | crates/fai-core/src/bounds.rs:638-651 | the deferred edges of a tuple field projected later hold |
| BoundsRecords.AddEdgePoisons | crates/fai-core/src/bounds.rs:114-132 | an edge poisons the facts exactly when it would be recorded and bring the terms over the cap |
| BoundsRecords.AddEdgeRecords | crates/fai-core/src/bounds.rs:114-132 | the assignments admitted after an edge are those admitted before that satisfy it, when it is within the weight cap |
| BoundsRecords.IntervalExact | crates/fai-core/src/bounds.rs:165-196 | an interval end is found exactly when every machine assignment the facts admit respects it; the least such is attained |
| BoundsRecords.DifferenceFitsExact | crates/fai-core/src/bounds.rs:208-218 | a difference is judged safe exactly when no two admitted machine values make it wrap |
| BoundsRecords.TransferLetRecords | crates/fai-core/src/bounds.rs:327-485 | binding a value leaves admitted exactly the assignments that meet what the operation means: constants, copies, safe sums, masks, remainders, lengths, capacity, repeat, push, same length, checked accesses, projected results |
| BoundsRecords.TransferLetNotes | crates/fai-core/src/bounds.rs:327-485 | a binding notes exactly the comparison, or the difference that cannot wrap, that the local stands for |
| BoundsRecords.RefineRecords | crates/fai-core/src/bounds.rs:487-578 | entering a branch leaves admitted exactly the assignments for which the comparison with its offsets has that outcome, and the same of a difference bounded against zero |
| BoundsRecords.SeedEntryRecords | crates/fai-core/src/bounds.rs:582-590 | an entry signature leaves admitted exactly the assignments that satisfy it at the parameters |
| BoundsRecords.TransferCallRecords | crates/fai-core/src/bounds.rs:593-613 | a call leaves admitted exactly the assignments that satisfy the whole-result edges, and keeps the signature when it speaks of fields |
| BoundsRecords.TransferManyRecords | crates/fai-core/src/bounds.rs:615-636 | the same for several results |
| BoundsRecords.TransferLetRoom | crates/fai-core/src/bounds.rs:327-485 | a binding never poisons while its terms fit the cap |
| BoundsRecords.TransferCallRoom | crates/fai-core/src/bounds.rs:593-613 | nor does a call |
| BoundsRecords.FreshCount | crates/fai-core/src/bounds.rs:367-384 | a repeat of a count known to be non-negative has exactly that length: what is known of the fresh length plays no part |
| BoundsRecords.RefineRoom | crates/fai-core/src/bounds.rs:487-578 | nor does a branch |
| BoundsRecords.GuardedAccess | crates/fai-core/src/bounds.rs:302-320 | inside `i >= 0` and `i < n` with `n` the length of the array, the index is known, whenever some assignment meets the guards |
| BoundsElision.ElisionPreservesRuns | crates/fai-codegen/src/emit.rs:4753-4758 | deleting every proved check leaves the set of runs of any nesting of bindings, calls and branches unchanged, and the final facts describe every final store |
| BoundsElision.CompiledBodyIsSafe | crates/fai-codegen/src/emit.rs:4753-4758 | a body compiled from an entry signature never accesses out of bounds |
| BoundsElision.Elide | crates/fai-codegen/src/emit.rs:4277-4285 | the walk with one mutable fact engine produces such an elided program |
| BoundsElision.GuardedReadIsElided | crates/fai-codegen/src/emit.rs:4277-4285 | in the guarded read of an array every elided program has dropped the check |
| FixedPointPlan.FindPlan | crates/fai-codegen/src/fixed_point.rs:31-98 | the planning loops compute the described plan, which `FixedPointShape.PlanExact` says exists exactly for a counted loop |
| FixedPointPlan.Scan.Visit | crates/fai-codegen/src/fixed_point.rs:124-189 | the mutable scan computes the specified walk, budget included |
| FixedPointShape.PlanExact | crates/fai-codegen/src/fixed_point.rs:31-98 | a plan is found exactly for a counted loop: at most ten integer or float parameters, an exit test of the counter against an integer parameter or a literal in either direction, clean steps, some back-edge, at most 256 nodes; its counter, bound, direction and float positions are those of the loop |
| FixedPointShape.WalkExact | crates/fai-codegen/src/fixed_point.rs:124-189 | the scan accepts exactly scalar code whose control and floats ignore the counter lexically, at one unit of budget a node |
| FixedPointShape.GuardExact | crates/fai-codegen/src/fixed_point.rs:48-76 | the terminal comparison is read off exactly when it stands for the exit test |
| FixedPointShape.HalvingLoopPlanned | crates/fai-codegen/src/fixed_point.rs:31-98 | the plainest such loop is planned in both directions with both kinds of bound |
| FixedPointSkip.Independent | crates/fai-codegen/src/fixed_point.rs:124-189 | two runs of a scanned term that differ where the scan allows trap, return and loop together and agree on everything marked independent |
| FixedPointSkip.BackSteps | crates/fai-codegen/src/fixed_point.rs:124-189 | every accepted back-edge steps the counter by one and keeps the unplanned parameters |
| FixedPointLoop.BackEdge | crates/fai-codegen/src/fixed_point.rs:31-98 | a back-edge is taken only short of the bound, so the counter never wraps, ascending or descending |
| FixedPointLoop.StableRun | crates/fai-codegen/src/emit.rs:8576-8599 | once the float bits repeat, the remaining iterations end at the bound with the state unchanged |
| FixedPointLoop.SkippingPreservesMeaning | crates/fai-codegen/src/emit.rs:8576-8599 | jumping the counter to the bound gives the result or trap of running every iteration, and both finish |
| AffinePlan.FindPredicates | crates/fai-codegen/src/affine_predicates.rs:91-174 | the worklist computes the described predicates, which `AffineShape.PredicatesExact` characterises |
| AffineShape.PredicatesExact | crates/fai-codegen/src/affine_predicates.rs:91-174 | every reported predicate qualifies, by what occurs in the body, and every one that qualifies is reported unless four are |
| AffineShape.StepsExact | crates/fai-codegen/src/affine_predicates.rs:126-137 | a parameter has a step exactly when there is a back-edge and each adds that constant to it |
| AffineShape.ScannableExact | crates/fai-codegen/src/affine_predicates.rs:91-122 | the walk completes exactly on bodies within 512 nodes, without inner loops, with every local bound once |
| AffineLoop.OffsetSound | crates/fai-codegen/src/affine_predicates.rs:61-88 | a known offset is the value of the term modulo 2^64 |
| AffineLoop.BackEdge | crates/fai-codegen/src/affine_predicates.rs:91-174 | every back-edge advances the counter by the common step and keeps the invariant |
| AffineLoop.PredicateMeaning | crates/fai-codegen/src/affine_predicates.rs:12-25 | the difference equals the counter exactly when the operand equals the maintained bound |
| AffineLoop.AdvanceBound | crates/fai-codegen/src/emit.rs:8605-8610 | advancing the bound keeps it invariant plus or minus counter modulo 2^64 |
| AffineLoop.RewriteSame | crates/fai-codegen/src/emit.rs:6172-6190 | replacing the comparison changes no evaluation |
| AffineLoop.RewritingPreservesRuns | crates/fai-codegen/src/emit.rs:8201-8224 | the whole loop with maintained bounds ends like the original, for any number of iterations |
| ArrayLoopPlan.FindPlan | crates/fai-codegen/src/array_loop.rs:28-56 | the planner computes the described plan, which `ArrayLoopShape.PlanExact` says exists exactly for an update loop |
| ArrayLoopPlan.Scan.Visit | crates/fai-codegen/src/array_loop.rs:81-143 | the mutable scan computes the specified walk |
| ArrayLoopShape.PlanExact | crates/fai-codegen/src/array_loop.rs:28-56 | a plan is found exactly when one parameter is an array of scalars and the rest scalars, the buffer is only measured, read, updated, passed back in its position or returned, some node updates it, and there are at most 256 nodes; its aliases are exactly the locals bound to the buffer |
| ArrayLoopShape.WalkExact | crates/fai-codegen/src/array_loop.rs:81-143 | the scan accepts exactly such uses, and ends knowing the locals bound to the buffer and whether anything is updated |
| ArrayLoopRuns.InPlace | crates/fai-codegen/src/array_loop.rs:81-143 | an accepted, ownership-linear term gives the same outcome when updates write the one buffer as when they copy |
| ArrayLoopRuns.UpdatingInPlacePreservesRuns | crates/fai-codegen/src/array_loop.rs:28-56 | the same scalars and final array for any number of iterations |
| TakeFields.FindGroup | crates/fai-codegen/src/take_fields.rs:7-33 | the cursor loop decides groups |
| TakeFields.GroupExact | crates/fai-codegen/src/take_fields.rs:7-33 | a group is one to eight distinct fields of one local read in a row and then its release |
| TakeFields.CollectFields | crates/fai-codegen/src/take_fields.rs:38-98 | the mutable scan collects the described fields, which `TakeFields.CollectExact` characterises |
| TakeFields.CollectExact | crates/fai-codegen/src/take_fields.rs:38-98 | a field is collected exactly when the function has fewer than 1024 nodes, reads it, and reads it nowhere but in groups |
| TakeFields.CollectedIsMarked | crates/fai-codegen/src/take_fields.rs:38-98 | a collected field is read nowhere but in groups |
| TakeFieldsRuns.ReleaseOrder | crates/fai-codegen/src/take_fields.rs:35-37 | releasing any pending references gives the same heap in any order |
| TakeFieldsRuns.OwnerReleased | crates/fai-codegen/src/emit.rs:3598-3606 | releasing an owner whose fields were moved out equals releasing it after retaining them |
| TakeFieldsEval.InGroup | crates/fai-codegen/src/take_fields.rs:7-33 | within a group no moved field is read again and the heaps meet at the release |
| TakeFieldsEval.TakingPreservesCounts | crates/fai-codegen/src/take_fields.rs:35-98 | moving out the collected fields leaves every outcome and every count as retaining them does |
| ArrayLayout.FindInvariant | crates/fai-codegen/src/array_layout.rs:9-20 | the scan computes the described parameters, which `ArrayLayoutShape.InvariantExact` characterises |
| ArrayLayout.Scan.Visit | crates/fai-codegen/src/array_layout.rs:43-100 | the mutable scan computes the specified walk, restoring origins across branches |
| ArrayLayoutShape.InvariantExact | crates/fai-codegen/src/array_layout.rs:9-20 | a parameter is kept exactly when there is a back-edge, every back-edge passes it a value of its own layout, and the body is well shaped and within the budget |
| ArrayLayoutRuns.OriginSound | crates/fai-codegen/src/array_layout.rs:32-41 | a recorded origin has the layout of the value |
| ArrayLayoutRuns.LayoutsKept | crates/fai-codegen/src/array_layout.rs:9-20 | across any number of iterations an invariant parameter keeps its incoming layout |
| HelperInlining.CalleeReachesLess | crates/fai-core/src/helper_inline.rs:52-69 | folding a callee outside every call cycle reaches strictly fewer definitions, so transitive folding ends |
| HelperInliningCalls.EligibleFolds | crates/fai-core/src/helper_inline.rs:65-99 | a call is foldable exactly when it saturates a small, closed, non-recursive single function of the file without evidence |
| HelperInliningCalls.FoldsExact | crates/fai-core/src/helper_inline.rs:111-137 | the pass changes a term exactly when it holds an eligible call |
| HelperInliningCalls.CallStays | crates/fai-core/src/helper_inline.rs:158-182 | a call by name stays one exactly when it is not eligible, and otherwise binds its arguments |
| HelperInliningCalls.CallsLeft | crates/fai-core/src/helper_inline.rs:143-264 | the calls in a folded term are exactly the ineligible ones, those the folded helpers leave, and surplus applications of bare-name helpers |
| HelperInliningCalls.ProgramCallsLeft | crates/fai-core/src/helper_inline.rs:111-137 | the same of every function of the folded program |
| HelperInliningCalls.EligibleLeft | crates/fai-core/src/helper_inline.rs:284-331 | an eligible call is left exactly when some over-applied helper reached by folding is its bare name |
| HelperInliningCalls.NoneLeft | crates/fai-core/src/helper_inline.rs:111-137 | without bare-name helpers no folded function of the file holds an eligible call, spliced code included |
| HelperInliningCalls.SurplusCallIsLeft | crates/fai-core/src/helper_inline.rs:305-321 | three one-line definitions that leave one |
| HelperInliningRuns.RemapCovers | crates/fai-core/src/inline.rs:507-518 | renaming gives every local its own fresh slot |
| HelperInliningRuns.RenameSame | crates/fai-core/src/inline.rs:534-647 | a renamed body evaluates alike under matching environments |
| HelperInliningRuns.EntryMatches | crates/fai-core/src/helper_inline.rs:284-305 | parameters meet their argument slots and no other local of the callee is captured |
| HelperInliningRuns.SimulatesChain | crates/fai-core/src/helper_inline.rs:323-328 | arguments bound in source order keep evaluation order and the first trap |
| HelperInliningRuns.FoldedCall | crates/fai-core/src/helper_inline.rs:277-331 | the spliced body, surplus arguments included, agrees with the call |
| HelperInliningRuns.FoldingPreservesCalls | crates/fai-core/src/helper_inline.rs:111-137 | every call of every program has the same value or first trap after folding, and ends exactly when it did |
| HelperInliningRuns.FoldingPreservesTerms | crates/fai-core/src/helper_inline.rs:143-264 | the same of every term in every environment |
| HelperInliner.Remapper.MapExpr | crates/fai-core/src/inline.rs:534-647 | the single renaming pass with a growing map is the final renaming |
| HelperInliner.Inliner.BuildInline | crates/fai-core/src/helper_inline.rs:284-331 | the loops build the specified term |
| HelperInliner.Inliner.InlineExpr | crates/fai-core/src/helper_inline.rs:143-264 | the rebuilding pass computes the described folding, slot counter and flag; `HelperInliningCalls` says which calls that folds |
| HelperInliner.UnchangedIsSame | crates/fai-core/src/helper_inline.rs:124-128 | an unset flag means an unchanged term |
| GeneratorTypes.CanReachExact | crates/fai-contracts/src/arb.rs:267-309 | the depth-first search says yes exactly when the target is reachable in the type graph |
| GeneratorTypes.TypeWalk.Visit | crates/fai-contracts/src/arb.rs:274-309 | the search with a mutable visited set computes the specified search |
| GeneratorRanks.ComputeRanks | crates/fai-contracts/src/arb.rs:858-886 | the relaxation ends with a settled ranking |
| GeneratorRanks.RanksFor | crates/fai-contracts/src/arb.rs:858-934 | ranking the types collected from the roots settles a closed set covering the roots |
| GeneratorRanks.RankExact | crates/fai-contracts/src/arb.rs:814-855 | a rank is the least depth of any finite value, and absent exactly when there is none |
| GeneratorRanks.OrderIrrelevant | crates/fai-contracts/src/arb.rs:858-886 | the result does not depend on the order of relaxation |
| GeneratorRanks.RankedHasBase | crates/fai-contracts/src/arb.rs:252-265 | every ranked type has a constructor of its own rank, which is also its minimal cost |
| GeneratorRuns.SplitShrinks | crates/fai-contracts/src/arb.rs:712-718 | a slice is smaller and not negative above the floor, and stays at the floor below it, truncating division included |
| GeneratorRuns.WrapsOnce | crates/fai-contracts/src/arb.rs:712-718 | sizes at the floor wrap at most once, and then generation is above the floor |
| GeneratorRuns.CtorFieldBelow | crates/fai-contracts/src/arb.rs:462-476 | every field of a chosen constructor is below its type in the termination measure |
| GeneratorRuns.Generate | crates/fai-contracts/src/arb.rs:465-546 | for every 64-bit size and every seed generation ends with a value of the type, although the least size wraps; `GeneratorChoices` says which |
| GeneratorRuns.GenerateField | crates/fai-contracts/src/arb.rs:230-237 | recursive sequences share their slice among the elements |
| GeneratorChoices.SplitExact | crates/fai-contracts/src/arb.rs:712-718 | a slice is exactly the size less one divided by the number of recursive fields, truncated |
| GeneratorChoices.ConstructorChosen | crates/fai-contracts/src/arb.rs:469-511 | the constructor is the allowed one whose number is the draw modulo their count (all above the floor, those of the own rank at it), with every field made at its own size |
| GeneratorChoices.EveryConstructor | crates/fai-contracts/src/arb.rs:469-511 | every allowed constructor is chosen by some draw |
| GeneratorChoices.PartsGenerated | std/testing/Test.fai:281-325 | tuples and records are made part by part, each at its own size |
| GeneratorChoices.OptionChosen | std/testing/Test.fai:328-336 | `None` exactly at the floor or when the draw is a multiple of four |
| GeneratorChoices.ResultChosen | std/testing/Test.fai:349-357 | an error exactly above the floor when the draw is a multiple of four |
| GeneratorChoices.LengthChosen | std/testing/Test.fai:236-240 | a sequence has as many elements as the draw modulo the size plus one, each made at the size |
| GeneratorChoices.EveryLength | std/testing/Test.fai:46-48 | every length from 0 to the size is chosen by some draw |
| GeneratorChoices.SharedLengthChosen | std/testing/Test.fai:252-256 | a recursive sequence has such a length, each element made at the size divided by the length plus one |
| Sorting.MergeWithBuffer | crates/fai-bench-workloads/src/sorting.rs:71-121 | whatever the second buffer held, the vector that comes back is the specified passes over the source |
| Sorting.MergeBlock | crates/fai-bench-workloads/src/sorting.rs:81-117 | the head-to-head loop and the two copying loops write the stable merge of two blocks |
| Sorting.MergeWithBufferSorts | crates/fai-bench-workloads/src/sorting.rs:71-121 | for every comparator that orders the elements the result is a sorted, stable permutation |
| Sorting.StableUnique | crates/fai-bench-workloads/src/sorting.rs:71-121 | there is only one sorted, stable rearrangement |
| Sorting.MergeSort | crates/fai-bench-workloads/src/sorting.rs:124-134 | ascending and a permutation |
| Sorting.SortList | crates/fai-bench-workloads/src/algorithms.rs:851-891 | the threshold and both paths; ascending and a permutation for short lists and whenever differences fit |
| Sorting.PathsAgree | crates/fai-bench-workloads/src/algorithms.rs:851-891 | linked runs and buffered merging agree when differences fit |
| Sorting.DifferenceOrders | crates/fai-bench-workloads/src/algorithms.rs:887-889 | wrapping subtraction compares two values rightly exactly when their difference fits |
| Sorting.LongListsSortWhenDifferencesFit | crates/fai-bench-workloads/src/algorithms.rs:884-889 | a long list is sorted in every arrangement exactly when all differences fit |
| Sorting.WrappingDifferenceMisorders | crates/fai-bench-workloads/src/algorithms.rs:884-889 | 33 elements that come back unsorted |
| Sorting.ArrangementMaySortUnfitting | crates/fai-bench-workloads/src/algorithms.rs:884-889 | one arrangement may come back sorted although its differences do not fit |
| ListSortSum.PermutationFits | crates/fai-bench-workloads/src/algorithms.rs:846-848 | the only input the program sorts meets the condition |
| ListSortSum.ListSortSum | crates/fai-bench-workloads/src/algorithms.rs:846-848 | the shuffled range sorts to itself on either path, so the checksum is n(n-1)(2n-1)/6 |
| QuickSort.Sort | crates/fai-bench-workloads/src/tail_components.rs:151-170 | the slice is sorted and only rearranged, and calls nest at most to the logarithm of its length plus one |
| QuickSort.QuickSort | crates/fai-bench-workloads/src/tail_components.rs:151-179 | sorted, a permutation, nested at most floor(log2 n) + 1 deep |
| Logarithm.Log2IsFloor | crates/fai-bench-workloads/src/tail_components.rs:151-170 | the bound is the floor of the binary logarithm |
| TreeLookup.BuiltTree | crates/fai-bench-workloads/src/tree_lookup.rs:28-64 | a built tree is a search tree, finds exactly the keys below its count with their values, and has height floor(log2 n) + 1 |
| TreeLookup.BinaryTree.InsertKeys | crates/fai-bench-workloads/src/tree_lookup.rs:37-45 | the search order holds after every insertion of the walk |
| TreeLookup.BinaryTree.Find | crates/fai-bench-workloads/src/tree_lookup.rs:52-64 | the cursor loop finds what the shape maps the key to |
| TreeLookup.RangeBuildsBalanced | crates/fai-bench-workloads/src/tree_lookup.rs:37-49 | insertion at the root, midpoint first, builds the balanced tree |
| TreeLookup.HeightIsLeast | crates/fai-bench-workloads/src/tree_lookup.rs:84-92 | no tree of as many nodes is lower |
| ExprEval.ParseExpr | crates/fai-bench-workloads/src/algorithms.rs:658-672 | the parsing loop computes the specified parse |
| ExprEval.ParsePrints | crates/fai-bench-workloads/src/algorithms.rs:635-672 | a successful parse prints back to the tokens it consumed, with no sum or difference beneath a product |
| ExprEval.PrintParses | crates/fai-bench-workloads/src/algorithms.rs:635-672 | printing a tree of the grammar and parsing gives it back |
| ExprEval.Eval | crates/fai-bench-workloads/src/algorithms.rs:675-713 | the stack machine ends, never underflows and equals the recursive wrapping value |
| ExprEval.EvalTokens | crates/fai-bench-workloads/src/algorithms.rs:717-723 | a token list evaluates to the value of its parse, and to 0 if it has none |
| ReleasePreparation.Tree.Prepare | scripts/release.py:196-251 | one run, cut short after any atomic step: when it resumes, refuses or raises, what stays untouched, that no file edited from outside is overwritten, and the safe states it keeps |
| ReleasePreparation.Runs | scripts/release.py:196-251 | after any number of runs cut short anywhere, no journal means all old or all new; the runs are refused exactly when the edits refuse the day of a run that finds nothing written, and otherwise finish, all new, exactly when one of them is long enough |
| ReleasePreparation.Releases | scripts/release.py:196-251 | releases one after the other, each cut short, resumed on other days and committed: the committed files are those of the completed releases, and the first that is not completed was refused or had no run long enough |
| ReleasePreparation.RaisingIsNotResumed | scripts/release.py:200-219 | rerunning the same word after a cut is refused every time, and naming the version completes the release |

## Left out

- BoundsEngine.Bounds.TransferLet: in a graph with a negative cycle the engine's own queries depend on the order of relaxation, so the new state is pinned down only for consistent results; no store satisfies a contradictory graph.
- BoundsEngine.Bounds.Refine: likewise pinned down only for consistent results.
- BoundsRecords.TransferLetRecords: which queries succeed is said of facts that some assignment of machine values meets together with the binding, as the store of a run always does.
- BoundsRecords.RefineRecords: says nothing of contradictory facts, and edges from a term to itself record nothing, whatever they say.
- GeneratorChoices.EveryConstructor: speaks of draws; that the seed generator yields every draw is not modelled.
- GeneratorRuns.Generate: ranks are taken to fit 32 bits, as they are stored, and types to have fewer than 2^31 parts.
- ListSortSum.ListSortSum: the checksum is exact; its overflow of 64 bits for millions of elements is not modelled.
- BoundsEngine.Bounds.TransferAddSub: pinned down only for consistent results, like the other transfer methods.
- TakeFieldsEval.TakingPreservesCounts: speaks of runs in which the retaining evaluation touches no freed cell, which ownership checking guarantees, and of heaps in which no cell refers to itself.
- ArrayLoopRuns.UpdatingInPlacePreservesRuns: ownership-linearity of the body is a hypothesis, stated as a checking function over the body; that reference counting produces such bodies is not proved.
- HelperInliningRuns.FoldingPreservesCalls: other modules' functions and constants are one uninterpreted function of their arguments.
- The fact engine's nested hash maps are one map from pairs of terms, and hash iteration order is any order.
- Inference of entry and result signatures (`crates/fai-rc/src/bounds_sig.rs`): signatures are inputs that hold of the actual arguments or results.
- Spread, several-result bindings and hole nodes of the intermediate representation, niche encodings and run-time-indexed fields; several-result bindings are covered for bounds facts only.
- Reference-count and tail-call nodes inside terms being inlined are rebuilt but have no meaning there, as that pass comes before them.
- How the recursive definitions of a file are found: any set that holds every definition on a cycle of same-file references.
- The search cut-off for types that never repeat, opaque-alias expansion, and the show and shrink functions of synthesised generators.
- Code generation itself: the meaning of emitted instructions is the semantics given here.
- `callback_plan.rs`, `scalar_select.rs`, `boolean.rs`, `data_cursor.rs`, `string_loop.rs` and `choices.rs`: the same scanner shape with weaker claims, or resting on passes not modelled here.
- Tree nodes are values rather than boxes; each box has one owner, so nothing can observe the difference.
- Text edits of a release (any function of version, day and files that may refuse), the branch and tag checks, and a temporary file left by a crash inside an atomic write.
- The command line, daemon, networking, packaging and benchmark tables.
