# Verification of the compiler's analyses and rewrites

A Dafny model of the parts of the CUDA-to-Metal compiler that must keep meaning, with proofs that they do.
`dafny verify dfyconfig.toml` checks everything. Compiler arithmetic is over unbounded integers or exact reals, as
`cpp/mvcc-llvm/symexec.h` assumes; the generator and the FP8 conversions are exact at the bit level.

| part | modules |
|---|---|
| Address recovery: affine fits of sampled address polynomials, Hermite normal form, coordinates, tensor dimensions and units, and the round trip of every sample | `LinearAlgebra`, `Hermite`, `Polynomials`, `MonomialOrder`, `AffineFit`, `Coordinates`, `CoordinateRank`, `TileIR`, `RoundTrip`, `AddressRecovery`, `ProgramRecovery` |
| If-conversion of pure regions, with poison | `SsaValues`, `PureRegion`, `IfConvert`, `IfConvertPass` |
| Guarded loads, guarded copies and skipped mma calls | `GuardedLoads`, `WarpMma`, `GuardedBranches` |
| Recurrences: what the classifier names, and when each right is granted | `RecurrenceExpr`, `Recurrence`, `Grants`, `TensorSums`, `Recognition`, `LinearTuple`, `OnlineSoftmax` |
| Emitted row-sum and online-softmax kernels, as threads of a block that interleave, shuffle per warp and meet at a barrier | `Powers`, `Reduction`, `LockstepKernel`, `ShortRow`, `RowSum`, `Softmax` |
| State-machine emission of irreducible control flow | `StateMachine` |
| The Philox generator of the cuRAND device API | `Philox`, `PhiloxKnown` |
| FP8 conversions (IEEE 754-2019 section 4.3.1 rounding) and warp match | `Fp8Rounding`, `Fp8`, `WarpMatch` |
| The schedule language, its search, the legality laws and the choice | `ScheduleText`, `Schedule`, `ScheduleParse`, `ScheduleSource`, `PhysText`, `ScheduleSearch`, `Legality`, `SourceLegality`, `EngineChoice`, `ChoiceExactly` |

Where the code does not have a property in full, the exact condition is proved instead:

- The softmax kernel is right exactly when at most 16 threads of the block have no element (or the row is empty);
  beyond that two idle lanes meet in the first shuffle round and the row becomes NaN (`Softmax.SoftmaxExactly`).
- Merging the copies of a diamond reads operands recorded before identical computations of the two arms were erased
  (`cpp/mvcc-llvm/msl_guarded.cpp:88`, `:143`, `:150-151`). Everything else is preserved, and so is the copy of the first
  arm; the copy of the second arm is preserved exactly when no operand it needs is computed by an instruction that
  repeats one of the first arm. The comment at line 137 calls such repetition the usual case
  (`GuardedBranches.ConvertDiamond`, `GuardedBranches.CopyLost`, `GuardedBranches.SharedAddressLost`).
- The reorder permission of a linear tuple with an exponential scale is given by the look of the scale alone. For the sum
  by itself reordering is harmless exactly when no iteration scales or every iteration leaves one common value alone
  (`LinearTuple.TupleReorderExactly`), which need not be so (`LinearTuple.ExponentialScaleMayNotReorder`); when the scale is exp(m_old - m_new) of a running
  maximum and the shift is weighted below the new maximum, the pair may always be reordered,
  under a predicate and from minus infinity too (`OnlineSoftmax.JointReorder`, `OnlineSoftmax.RowReorder`).
- Re-encoding a decoded FP8 code gives it back except for the E5M2 NaN codes 0x7d and 0x7e of either sign (the encoder
  knows one NaN, 0x7f), and for the infinities of E5M2 when saturating (`Fp8.ReEncodes`).
- The source schedule reads the physical axes of a coordinate from text (`cpp/mvcc-llvm/schedule.cpp:139`) that is written
  with the names of the axes (`cpp/mvcc-llvm/stir.cpp:76`). The names of whole simdgroup and lane indices, `sg` and
  `lane`, are not read: nothing is lost exactly when the coordinate moves along neither (`PhysText.PhysReadBack`).
- Legality is tested only after the search has cut its candidates to a window. The choice is the cheapest legal schedule
  within reach under all costs exactly when fewer than width - 1 illegal edits, or no legal one, lie within reach
  (`ChoiceExactly.CheapestExactly`); with the defaults, depth 3 and width 8, it can miss for every program that does not
  contract and has a legal source (`ChoiceExactly.NotWideEnough`, `ChoiceExactly.DefaultsMiss`).

The comment above `baseOf` (`cpp/mvcc-llvm/coords.cpp:62`) asks for one pointer with coefficient one. The code looks at no
coefficient, and the caller keeps the first pointer found when there is a second; the model follows the code.

## Model

| member | source | states |
|---|---|---|
| `ProgramRecovery.Recover` | cpp/mvcc-llvm/stir.cpp:145-209 | end to end, for every list of samples of any number of accesses, predicates and derived operands: one discovery over all fitted families, then tensor by tensor; no site fails the basis-change check, no stride term is skipped, nothing is left over, no sample mismatches; the verified count is the number of samples of exactly the access families that can be fitted and whose base names a tensor, and it is every sample of every access exactly when no access family with samples is outside that |
| `ProgramRecovery.SplitAll` | cpp/mvcc-llvm/coords.cpp:589-632 | the families of all sample lists, each list split on its own |
| `ProgramRecovery.SamplesKept` | cpp/mvcc-llvm/coords.cpp:589-600 | splitting loses and doubles no sample: the families of the accesses pool to the samples of the accesses |
| `ProgramRecovery.BaseOf` | cpp/mvcc-llvm/coords.cpp:63-78 | the base names a tensor exactly when a pointer is one of its terms of degree one, and it is the first such pointer |
| `ProgramRecovery.GroupByTensor` | cpp/mvcc-llvm/stir.cpp:83-104 | every fitted access whose base names a tensor is in the list of that tensor and in no other, each tensor is listed once and its accesses in order; the others are counted as unmapped |
| `ProgramRecovery.CheckTensor` | cpp/mvcc-llvm/stir.cpp:108-209 | all accesses of one tensor against its own dimensions: every sample verified |
| `AddressRecovery.CheckAccess` | cpp/mvcc-llvm/stir.cpp:147-208 | one access: every sample verified, no mismatch, no skipped term, no leftover |
| `AddressRecovery.FitExtended` | cpp/mvcc-llvm/coords.cpp:565-584 | succeeds exactly when the samples are well sampled, split with one common list of derived coefficients, and leave affine rests; the fit then holds at every point |
| `AddressRecovery.SplitDerived` | cpp/mvcc-llvm/coords.cpp:550-564 | splits a polynomial into a derived-free rest and one derived-free coefficient per derived quantity, exactly when no term has two derived factors |
| `AddressRecovery.SplitUnique` | cpp/mvcc-llvm/coords.cpp:550-564 | that split is unique, so comparing the coefficients of two samples is comparing their strides along the derived axes |
| `AddressRecovery.SeparateAll` | cpp/mvcc-llvm/coords.cpp:570-577 | refuses exactly when no common derived coefficients exist |
| `AffineFit.Fit` | cpp/mvcc-llvm/coords.cpp:268-305 | succeeds exactly on non-empty sample sets that are affine with polynomial coefficients and have, for each axis they vary on, two samples differing on it alone; the map returned reproduces every sample |
| `AffineFit.FindStrides` | cpp/mvcc-llvm/coords.cpp:274-295 | refuses only sample sets that are not both affine and well sampled |
| `AffineFit.PairGivesStride` | cpp/mvcc-llvm/coords.cpp:276-289 | in an affine set every isolating pair gives its axis the one stride of the map |
| `AffineFit.AxisDifference` | cpp/mvcc-llvm/coords.cpp:281 | two points that differ on one axis see only that axis: the difference of the values is the coordinate difference times the stride |
| `AffineFit.DivideExactly` | cpp/mvcc-llvm/coords.cpp:282-287 | division of a polynomial by an integer succeeds exactly when there is a polynomial quotient |
| `AffineFit.Elect` | cpp/mvcc-llvm/coords.cpp:322-334 | the stride elected for an axis is the most voted one-step difference, the smallest id winning ties |
| `AffineFit.SplitFamilies` | cpp/mvcc-llvm/coords.cpp:316-345 | one family exactly as given when the whole set fits or has at most one sample; otherwise the samples grouped by what the elected strides leave, in order of first appearance |
| `AffineFit.FamiliesPartition` | cpp/mvcc-llvm/coords.cpp:335-344 | the families partition the samples as a multiset, and each family is affine in its points |
| `Hermite.Hnf` | cpp/mvcc-llvm/coords.cpp:353-382 | for any integer matrix: terminates and leaves M = U * M0 with U invertible over the integers, positive strictly moving pivots, entries above a pivot in [0, pivot), and zero rows exactly from the returned rank on |
| `Hermite.ClearColumn` | cpp/mvcc-llvm/coords.cpp:366-374 | the inner loop ends (the smallest non-zero absolute value of the column strictly falls) with the column zero below the pivot row |
| `Hermite.SweepBelow` | cpp/mvcc-llvm/coords.cpp:371-372 | one Euclidean sweep: every entry below the pivot becomes a remainder strictly smaller than the pivot, the pivot row is untouched |
| `Hermite.PickPivot` | cpp/mvcc-llvm/coords.cpp:367-369 | the first row with the smallest non-zero absolute value of the column |
| `Hermite.ReduceAbove` | cpp/mvcc-llvm/coords.cpp:377-378 | floor division brings the entries above the new pivot into [0, pivot) and keeps the finished columns |
| `Hermite.Inverse` | cpp/mvcc-llvm/coords.cpp:384 | the returned matrix is the two-sided integer inverse exactly when there is one |
| `Hermite.HnfOfInvertible` | cpp/mvcc-llvm/coords.cpp:384 | the Hermite form of an invertible square matrix is the identity |
| `LinearAlgebra.ApplyIsMul` | cpp/mvcc-llvm/coords.cpp:357-363 | a row operation is the product by the operation applied to the identity, which is what accumulating it in U relies on |
| `LinearAlgebra.UndoApply` | cpp/mvcc-llvm/coords.cpp:357-363 | every row operation is undone by one of the same kind |
| `LinearAlgebra.MulAssoc` | cpp/mvcc-llvm/coords.cpp:353-384 | associativity of the matrix product over finite sums |
| `Coordinates.Discover` | cpp/mvcc-llvm/coords.cpp:632-684 | the coordinates are the rows of the one Hermite normal form of the stride matrix over its columns in order: strictly moving positive pivots, reduced entries above them, and as many rows as its rank, so every coordinate moves some site; they reproduce the stride of every fitted site along every physical axis (no site is given up), an axis is reported replicated exactly when no site moves along it, and a coordinate is an output exactly when it moves a store |
| `CoordinateRank.FewestCoordinates` | cpp/mvcc-llvm/coords.cpp:655-661 | no factorization of all fitted strides through integer combinations has fewer coordinates than the discovery returns |
| `CoordinateRank.NullVector` | cpp/mvcc-llvm/coords.cpp:655-661 | fewer columns than rows leave a non-zero combination of the rows that vanishes, which is why fewer coordinates cannot do |
| `Coordinates.BasisReproduces` | cpp/mvcc-llvm/coords.cpp:675-683 | stride[a] = sum over j of V[a][j] * coordStride[j], as polynomials |
| `Coordinates.Basis` | cpp/mvcc-llvm/coords.cpp:655-661 | V is the inverse of the accumulated transform, so V times the Hermite form is the stride matrix |
| `Coordinates.FillMatrix` | cpp/mvcc-llvm/coords.cpp:647-651 | row a, column (site, monomial) of the matrix is that monomial coefficient of the stride |
| `Coordinates.CoordStride` | cpp/mvcc-llvm/coords.cpp:667-672 | the stride along a coordinate has exactly the row entries of the site as its coefficients |
| `Coordinates.Columns` | cpp/mvcc-llvm/coords.cpp:641-646 | one column per fitted site and monomial of one of its strides, without repetition: by site, then by the first axis the monomial appears along, then in the order of monomials |
| `Coordinates.SiteOrder` | cpp/mvcc-llvm/coords.cpp:635-640 | the fitted sites, stores first, then predicates and derived operands, then loads |
| `Polynomials.DividesTest` | cpp/mvcc-llvm/stir.cpp:20-24 | the greedy pass over two sorted atom lists decides multiset inclusion |
| `Polynomials.Quotient` | cpp/mvcc-llvm/stir.cpp:25-29 | the atoms the pass leaves over are the cofactor, still sorted |
| `Polynomials.SortedUnique` | cpp/mvcc-llvm/stir.cpp:20-29 | a sorted atom list is determined by its multiset, so comparing lists compares monomials |
| `MonomialOrder.LexIs` | cpp/mvcc-llvm/stir.cpp:117-133 | monomials compare at the first difference of their atom lists, a list before what it begins |
| `TileIR.Gcd64` | cpp/mvcc-llvm/stir.cpp:30 | the loop returns the greatest common divisor of any two integers, zero and negatives included |
| `TileIR.Dimensions` | cpp/mvcc-llvm/stir.cpp:108-143 | the dimensions are the monomials of the strides and the constant one, degrees never rising, one degree in lexicographic order, the contiguous dimension last; the unit of each is the gcd of every coefficient that falls to it (the element size for the contiguous one when it divides) |
| `TileIR.StrideUnits` | cpp/mvcc-llvm/stir.cpp:111-116 | the gcd table after the strides accounts for exactly the stride coefficients |
| `TileIR.BaseUnits` | cpp/mvcc-llvm/stir.cpp:118-127 | each base term folds into the most specific monomial dividing it, each access width into the constant one |
| `TileIR.BestKey` | cpp/mvcc-llvm/stir.cpp:122-124 | the choice in map order finds the largest-degree divisor |
| `TileIR.DimOf` | cpp/mvcc-llvm/stir.cpp:153-158 | the choice while building index maps finds a dimension of the largest degree dividing the monomial, the contiguous one when there is none |
| `TileIR.KeyUnique` | cpp/mvcc-llvm/stir.cpp:117-158 | both choices agree: the largest divisor is unique among the monomials of one table |
| `TileIR.UnitDivides` | cpp/mvcc-llvm/stir.cpp:135-142 | a unit is positive and divides every coefficient of its dimension |
| `RoundTrip.IndexAccess` | cpp/mvcc-llvm/stir.cpp:147-172 | the index maps carry every stride and base coefficient; the branch that skips a term is never taken and nothing is left over |
| `RoundTrip.StrideCoefs` | cpp/mvcc-llvm/stir.cpp:160-165 | no stride term is skipped |
| `RoundTrip.BaseOffsets` | cpp/mvcc-llvm/stir.cpp:166-172 | no base term is left over, and the offsets times the units are the base terms of each dimension |
| `RoundTrip.DimPartsTotal` | cpp/mvcc-llvm/stir.cpp:190-194 | the dimensions together give back every base term and every stride term once |
| `RoundTrip.StridesViaCoords` | cpp/mvcc-llvm/stir.cpp:176-185 | moving along the physical axes is moving along the coordinates |
| `RoundTrip.AddressExact` | cpp/mvcc-llvm/stir.cpp:173-205 | the re-derived address equals the sampled one as a polynomial |
| `IfConvertPass.Collapse` | cpp/mvcc-llvm/msl_emitter.cpp:814-903 | collapses exactly the branches whose reached blocks are non-empty, within both limits, pure, dominated, entered from inside only and acyclic; on every run without undefined behaviour each block predicate is true on the path and false off it (never poison), every exit phi gets the value of the path, every other variable is unchanged, and only speculatable instructions move |
| `IfConvertPass.FindRegion` | cpp/mvcc-llvm/msl_emitter.cpp:826-838 | the work list finds the least set of blocks closed under successors up to the exit, and refuses exactly when that set breaks a guard |
| `IfConvertPass.Order` | cpp/mvcc-llvm/msl_emitter.cpp:840-849 | orders the region with every predecessor first, exactly when no set of its blocks forms a cycle |
| `IfConvertPass.OrderedAcyclic` | cpp/mvcc-llvm/msl_emitter.cpp:840-849 | an ordered region has no cycle |
| `IfConvertPass.SingleEntry` | cpp/mvcc-llvm/msl_emitter.cpp:837 | decides that every predecessor of a region block is the entry or in the region |
| `IfConvertPass.EmitPred` | cpp/mvcc-llvm/msl_emitter.cpp:873-874 | the chain of selects emitted for a block predicate |
| `IfConvertPass.EmitSelectChain` | cpp/mvcc-llvm/msl_emitter.cpp:866-870 | the chain of selects emitted for a phi |
| `IfConvertPass.EmitBlock` | cpp/mvcc-llvm/msl_emitter.cpp:871-883 | predicate, phis and instructions of a block, in order |
| `IfConvertPass.FindExitPreds` | cpp/mvcc-llvm/msl_emitter.cpp:885-887 | exactly the region blocks and the entry that branch to the exit |
| `IfConvertPass.Others` | cpp/mvcc-llvm/msl_emitter.cpp:892 | the exit phi keeps exactly the entries of the other predecessors |
| `IfConvert.CollapsePreserves` | cpp/mvcc-llvm/msl_emitter.cpp:851-898 | the straight-line code and the rewritten exit phis preserve every run that leaves through the exit: the exit phis, every variable the region does not define, and every variable of the region that is available at the block the run leaves from |
| `IfConvert.BlockFollows` | cpp/mvcc-llvm/msl_emitter.cpp:871-883 | emitting one more block keeps the simulation: done blocks on the path hold the values of the run |
| `IfConvert.PredComputed` | cpp/mvcc-llvm/msl_emitter.cpp:872-874 | the predicate of a block is not poison and is true exactly when the run visits it |
| `IfConvert.PhiComputed` | cpp/mvcc-llvm/msl_emitter.cpp:866-880 | a phi becomes the value of the edge the run took, though the other entries may be poison |
| `IfConvert.EdgeOffPath` | cpp/mvcc-llvm/msl_emitter.cpp:862-864 | an edge of an unvisited block is false even when its branch condition is poison |
| `IfConvert.EdgeOnPath` | cpp/mvcc-llvm/msl_emitter.cpp:856-865 | an edge of a visited block is true exactly when the run takes it |
| `IfConvert.OrChainValue` | cpp/mvcc-llvm/msl_emitter.cpp:873 | the select chain of the predecessor edges is their disjunction |
| `IfConvert.SelectChainValue` | cpp/mvcc-llvm/msl_emitter.cpp:866-870 | the select chain yields the entry whose condition holds, whatever the others hold |
| `IfConvert.VisitedFrom` | cpp/mvcc-llvm/msl_emitter.cpp:871-874 | a block is visited exactly when some predecessor goes to it |
| `IfConvert.PathDistinct` | cpp/mvcc-llvm/msl_emitter.cpp:839-849 | a run through the region visits no block twice |
| `IfConvert.RunsLeave` | cpp/mvcc-llvm/msl_emitter.cpp:839-849 | a run inside the region branches on poison, leaves, or can be continued, and is no longer than the region |
| `GuardedLoads.AnalyzeArm` | cpp/mvcc-llvm/msl_guarded.cpp:36-96 | accepts exactly the arms of at most 128 instructions with at most one copy, none of whose instructions can be noticed when it runs under the other guard: no store, call or foreign load, and no operation that can trap; it returns that copy |
| `GuardedLoads.AdmissibleExactly` | cpp/mvcc-llvm/msl_guarded.cpp:36-96 | the instructions admitted are exactly those that cause no event on any machine, whatever they read |
| `GuardedLoads.Hoist` | cpp/mvcc-llvm/msl_guarded.cpp:119-135 | the loads of the hoisted arm go through a select with the zero page, the copy is left out |
| `GuardedLoads.HoistTaken` | cpp/mvcc-llvm/msl_guarded.cpp:119-135 | when the arm is taken the straight-line code computes and loads what the arm did |
| `GuardedLoads.HoistSkipped` | cpp/mvcc-llvm/msl_guarded.cpp:119-135 | when the arm is skipped every one of its loads reads the zero page and nothing outside it changes |
| `GuardedLoads.CopyAtEnd` | cpp/mvcc-llvm/msl_guarded.cpp:70-90 | the one copy of an arm, its operands read at the end of the arm |
| `GuardedBranches.Cse` | cpp/mvcc-llvm/msl_guarded.cpp:138-146 | what the collapse of identical computations keeps and renames |
| `GuardedBranches.CseSound` | cpp/mvcc-llvm/msl_guarded.cpp:138-146 | the code without the repeated computations loads, copies and computes what it did |
| `GuardedBranches.MergedRuns` | cpp/mvcc-llvm/msl_guarded.cpp:148-160 | where the recorded operands still read what they read in the taken arm, the merged copy writes what the copy of that arm wrote, zeros included |
| `GuardedBranches.RepeatedIsCollapsed` | cpp/mvcc-llvm/msl_guarded.cpp:138-146 | what the collapse erases are exactly the computations of the second arm that repeat one of the first |
| `GuardedBranches.CopyLost` | cpp/mvcc-llvm/msl_guarded.cpp:137-160 | whenever the second arm computes an operand its copy needs by an instruction repeated from the first, there is a machine and a guard for which the converted code does not make that copy |
| `GuardedBranches.SharedAddressLost` | cpp/mvcc-llvm/msl_guarded.cpp:137-160 | a witness: both arms compute one shared address alike and each copies to it |
| `GuardedBranches.ConvertDiamond` | cpp/mvcc-llvm/msl_guarded.cpp:179-201 | converts exactly the admissible diamonds; for every guard and state the join phis, the loads, the effects and traps and everything outside the arms are preserved, the skipped arm reading only the zero page, and the copy of the first arm is made; the copy is preserved on all runs exactly when no operand the copy of the second arm needs is computed by an instruction repeated from the first |
| `GuardedBranches.ConvertTriangle` | cpp/mvcc-llvm/msl_guarded.cpp:202-250 | the same for one arm, and no accumulator chain is cut: a join phi selects exactly when its entries differ and no settled mma feeds it; join phis, loads, effects, traps and the rest preserved for every guard and state; a skipped mma whose operands are zeroed keeps its accumulator in exact arithmetic, without assumption for the mma of a whole warp with any fragment layout |
| `GuardedBranches.FindSettled` | cpp/mvcc-llvm/msl_guarded.cpp:215-231 | the calls whose results only feed the join phis that carry their own accumulators |
| `GuardedBranches.PartMatches` | cpp/mvcc-llvm/msl_guarded.cpp:217-230 | the walk over the users of one result decides that they are no instruction and at most one join phi, whose other entry is the own accumulator of the result |
| `GuardedBranches.ZeroOperands` | cpp/mvcc-llvm/msl_guarded.cpp:232-237 | the six multiplicand registers of the settled calls are replaced by selects with zero |
| `GuardedBranches.SettledValue` | cpp/mvcc-llvm/msl_guarded.cpp:212-214 | a skipped mma with zeroed registers returns its accumulator, wherever it stands in the arm |
| `WarpMma.WarpZeroKeeps` | cpp/mvcc-llvm/msl_guarded.cpp:212-214 | under a warp-uniform guard, with the multiplicand registers of all lanes zero, every lane of every accumulator is kept, whatever elements of whatever lanes the layout multiplies |
| `WarpMma.MmaLane` | cpp/mvcc-llvm/msl_guarded.cpp:212-214 | lane by lane the warp mma is the accumulator plus its sum of products over elements of all lanes |
| `WarpMma.ProductsAre` | cpp/mvcc-llvm/msl_guarded.cpp:212-214 | that sum is the sum over the pairs of the layout of the product of the two elements |
| `Recurrence.ClassifierSound` | cpp/mvcc-llvm/sig.cpp:317-418 | whenever the classifier names a fold, the next value is the phi combined with the contribution of the iteration |
| `Recurrence.GainFree` | cpp/mvcc-llvm/sig.cpp:317-418 | that contribution does not depend on the phi |
| `Recognition.ClassifiesExactly` | cpp/mvcc-llvm/sig.cpp:317-418 | every kind is named exactly when the update under all its guards has its form: the phi itself, an additive chain (of constants for an induction), an extremum, a bitwise operation, a selection or overwriting, a tuple with a sibling, or none of these; it is reported predicated exactly when there is a guard |
| `Recognition.TermsAre` | cpp/mvcc-llvm/sig.cpp:283-315 | the number of terms reported for a sum is what the links of its chain add |
| `Recognition.ChainExactly` | cpp/mvcc-llvm/sig.cpp:283-315 | the greedy walk finds an additive chain exactly when there is one of fewer than 4096 links, whichever operands carry the phi |
| `Recognition.CompareExactly` | cpp/mvcc-llvm/sig.cpp:330-350 | a compare and select is named maximum or minimum exactly when the selected arm is always the larger, or always the smaller |
| `RecurrenceExpr.AdditiveChain` | cpp/mvcc-llvm/sig.cpp:283-315 | the loop computes the recursive description of the walk |
| `RecurrenceExpr.PolyChain` | cpp/mvcc-llvm/sig.cpp:288-298 | one pass decides that exactly one monomial is the phi, with coefficient one, and the rest do not read it |
| `RecurrenceExpr.FreeEval` | cpp/mvcc-llvm/sig.cpp:234-250 | an expression that does not contain a symbol does not depend on it |
| `Recurrence.ChainSound` | cpp/mvcc-llvm/sig.cpp:283-315 | an additive chain is the phi plus its value from a zero phi |
| `Recurrence.CompareSound` | cpp/mvcc-llvm/sig.cpp:330-350 | the selected arm is the maximum or minimum of the phi and the other value |
| `Recurrence.BinarySound` | cpp/mvcc-llvm/sig.cpp:366-376 | the named intrinsics and bitwise operations combine the phi with a value free of it |
| `Recurrence.RunIsTotal` | cpp/mvcc-llvm/sig.cpp:44-54 | a run over any sequence of environments is the initial value combined with the total of the contributions |
| `Recurrence.PartitionPermitted` | cpp/mvcc-llvm/sig.cpp:44-54 | where partition is granted, folding the parts separately and merging gives the result of the run |
| `Recurrence.TreeCombinePermitted` | cpp/mvcc-llvm/sig.cpp:44-54 | where tree-combine is granted, merging along any tree gives the result of the run |
| `Recurrence.ReorderPermitted` | cpp/mvcc-llvm/sig.cpp:44-54 | where reorder is granted, every permutation of the iterations gives the same result |
| `Recurrence.DuplicatePermitted` | cpp/mvcc-llvm/sig.cpp:44-54 | where duplicate is granted, repeating iterations any number of times gives the same result |
| `Recurrence.PermittedFolds` | cpp/mvcc-llvm/sig.cpp:44-54 | what the classifier grants beyond tuples is what its algebra has: partition, reorder and tree-combine only to folds, duplicate only to the idempotent ones, inductions and permutations |
| `Grants.PartitionGranted` | cpp/mvcc-llvm/sig.cpp:44-54 | partition is granted to an algebra exactly when every run of every recurrence of that algebra is its initial value combined with the totals of any two parts |
| `Grants.TreeCombineGranted` | cpp/mvcc-llvm/sig.cpp:44-54 | tree-combine is granted exactly when every run is the contributions merged along any tree |
| `Grants.ReorderGranted` | cpp/mvcc-llvm/sig.cpp:44-54 | reorder is granted exactly when every run gives the same result for every permutation of its iterations |
| `Grants.DuplicateGranted` | cpp/mvcc-llvm/sig.cpp:44-54 | duplicate is granted exactly to inductions, which every copy recomputes, and to the algebras where running an iteration twice in a row never shows |
| `Grants.DuplicateExactly` | cpp/mvcc-llvm/sig.cpp:44-54 | among the folds that is exactly when combining a value with itself gives it back |
| `TensorSums.TensorSumGranted` | cpp/mvcc-llvm/sig.cpp:47 | a tensor sum has the rights of a sum: split or reordered, every lane of every accumulator ends with its start plus the same products |
| `TensorSums.RepeatsExactly` | cpp/mvcc-llvm/sig.cpp:47 | running an iteration of a tensor sum twice goes unnoticed in a lane exactly when its products add up to zero |
| `Recurrence.PermutationRepeats` | cpp/mvcc-llvm/sig.cpp:49 | duplicate for a permutation: running an iteration again at once changes nothing |
| `Recurrence.SumNotDuplicate` | cpp/mvcc-llvm/sig.cpp:47 | duplicate is rightly withheld from sums: a witness whose result changes |
| `Recurrence.PermutationNotReorder` | cpp/mvcc-llvm/sig.cpp:49 | reorder is rightly withheld from permutations: a witness whose result changes |
| `LinearTuple.TupleSound` | cpp/mvcc-llvm/sig.cpp:391-411 | a tuple granted partition or tree-combine is scale * phi + shift with both free of the phi |
| `LinearTuple.LinearSound` | cpp/mvcc-llvm/sig.cpp:395-402 | the syntactic linear form evaluates to that affine map |
| `LinearTuple.TupleTreeCombine` | cpp/mvcc-llvm/sig.cpp:403-404 | composing the affine maps of the iterations along any tree gives the run |
| `LinearTuple.TupleReorderExactly` | cpp/mvcc-llvm/sig.cpp:405-411 | reordering a linear tuple is harmless exactly when no iteration scales, or some value is left as it is by every iteration |
| `LinearTuple.CommutingMaps` | cpp/mvcc-llvm/sig.cpp:405-411 | affine maps commute pairwise exactly when none scales or all have a common fixed point |
| `LinearTuple.ExponentialScaleMayNotReorder` | cpp/mvcc-llvm/sig.cpp:410 | the reorder grant for an exponential scale is syntactic: a witness where it is given, the sibling never changes, and two orders differ |
| `OnlineSoftmax.JointReorder` | cpp/mvcc-llvm/sig.cpp:405-411 | for a maximum and a sum rescaled by exp(m_old - m_new), both recognized by the form of their next values, the grant is given and rightly so: the pair is the same for every order of the iterations |
| `OnlineSoftmax.GuardedReorder` | cpp/mvcc-llvm/sig.cpp:405-411 | the same when both updates are under one predicate, which the classifier then marks as predicated |
| `OnlineSoftmax.RowReorder` | cpp/mvcc-llvm/sig.cpp:405-411 | the same from minus infinity with the updates under a predicate: any order of the iterations of a row leaves the pair at its start or at the same values |
| `OnlineSoftmax.RowRunIs` | cpp/mvcc-llvm/sig.cpp:405-411 | starting from minus infinity is starting from any maximum below all scores with an empty sum |
| `OnlineSoftmax.PairGranted` | cpp/mvcc-llvm/sig.cpp:391-411 | that form is classified as a tuple with partition, reorder and tree-combine, and its maximum as reorderable |
| `OnlineSoftmax.JointRunIs` | cpp/mvcc-llvm/sig.cpp:405-411 | after any iterations the sum is the initial sum rescaled plus the sum of exp(x_i - m) * v_i under the final maximum m |
| `OnlineSoftmax.JointPartition` | cpp/mvcc-llvm/sig.cpp:403-404 | two parts folded on their own and rescaled to the larger maximum add up to the fold of the whole |
| `OnlineSoftmax.StepIs` | cpp/mvcc-llvm/sig.cpp:391-411 | one iteration read off the two expressions: m is the step of its own recurrence, l becomes exp(m_old - m) * l + exp(x - m) * v |
| `RowSum.RowSumCorrect` | cpp/mvcc-llvm/emit.cpp:423-475 | for every buffer, row and row length and every block of whole warps, at every point of every interleaved run nothing is written but the sum of x[row * K], ..., x[row * K + K - 1] at place row of the output; a finished run has written it; an unfinished one can step |
| `Softmax.SoftmaxCorrect` | cpp/mvcc-llvm/emit.cpp:735-824 | for every row leaving at most 16 threads without an element, everything ever written is exp(x_d - max) / sum exp(x_k - max) of the elements x[row * K + k] at place row * K + d, a finished run has written the row, and no run is stuck |
| `Softmax.SoftmaxExactly` | cpp/mvcc-llvm/emit.cpp:735-824 | a finished run has written the softmax of its row to its row of the output exactly when at most 16 threads had no element or the row is empty |
| `Softmax.ShortSoftmaxIsNaN` | cpp/mvcc-llvm/emit.cpp:761-783 | with more idle threads every value written is not a number |
| `Softmax.ScanIsMerge` | cpp/mvcc-llvm/emit.cpp:768-769 | scanning an element is merging the pair of that one element |
| `Softmax.EmptyMergeIsNaN` | cpp/mvcc-llvm/emit.cpp:777-783 | merging two empty pairs is not an empty pair but not-a-number |
| `Softmax.MergingLawful` | cpp/mvcc-llvm/emit.cpp:777-783 | merging (max, sum) pairs is associative and commutative with the empty pair as unit, two empty pairs excepted |
| `Softmax.FoldIsOnePass` | cpp/mvcc-llvm/emit.cpp:735-824 | the merged pair of a row is its maximum and its sum of exponentials |
| `Softmax.QuotientIsSoftmax` | cpp/mvcc-llvm/emit.cpp:813-817 | the final division gives the definition |
| `ShortRow.ShortRunPoisoned` | cpp/mvcc-llvm/emit.cpp:777-783 | two lanes without an element meet in the first round and their error reaches every output, in any kernel of this shape |
| `ShortRow.NextBad` | cpp/mvcc-llvm/emit.cpp:754-821 | every step of a run keeps the error |
| `LockstepKernel.NextInv` | cpp/mvcc-llvm/emit.cpp:442-472 | every step of threads, warps and barrier keeps the invariant of the kernel |
| `LockstepKernel.RunDelivers` | cpp/mvcc-llvm/emit.cpp:442-472 | at every point of every run each output written is the fold of the whole row, finished by the epilogue; a finished run has written them all |
| `LockstepKernel.BarrierInv` | cpp/mvcc-llvm/emit.cpp:462-467 | the barrier opens only when every partial is in threadgroup memory, so each is read after it was written |
| `LockstepKernel.WarpInv` | cpp/mvcc-llvm/emit.cpp:396-404 | a shuffle round of a whole warp halves the classes its lanes hold |
| `LockstepKernel.NextFalls` | cpp/mvcc-llvm/emit.cpp:442-472 | no run goes on for ever |
| `LockstepKernel.NeverStuck` | cpp/mvcc-llvm/emit.cpp:442-472 | no reachable state but a finished one is stuck: shuffles and barrier always have their lanes |
| `LockstepKernel.PartialsCover` | cpp/mvcc-llvm/emit.cpp:445-472 | the warp partials together are the whole row |
| `LockstepKernel.WholeWarpsTest` | cpp/mvcc-llvm/emit.cpp:423-430 | the emitter takes exactly the blocks of one or more whole warps |
| `Reduction.StridedCovers` | cpp/mvcc-llvm/emit.cpp:445-453 | the tid-strided loops partition the row |
| `Reduction.BlocksCover` | cpp/mvcc-llvm/emit.cpp:455-460 | folding the warps and then their partials is folding the threads |
| `Reduction.ButterflyFolds` | cpp/mvcc-llvm/emit.cpp:396-404 | the xor butterfly leaves the fold of all lanes in every lane, for any power of two of lanes |
| `Reduction.ExchangeRound` | cpp/mvcc-llvm/emit.cpp:399-402 | one round: every lane combines its class with the other half of the coarser class |
| `Reduction.FlipHalves` | cpp/mvcc-llvm/emit.cpp:400 | flipping a lane bit moves it to the other half of its class, inside the warp |
| `StateMachine.EmitBody` | cpp/mvcc-llvm/msl_emitter.cpp:2154-2183 | refuses exactly when a reachable block ends in an unsupported terminator; otherwise the emitted loop agrees with the SSA graph on every run of any length |
| `StateMachine.Simulation` | cpp/mvcc-llvm/msl_emitter.cpp:2154-2183 | after any number of steps: same block, same variables, same memory, and the loop returns on the turn the graph does |
| `StateMachine.EmitCase` | cpp/mvcc-llvm/msl_emitter.cpp:2161-2177 | the case of a block simulates one step of it |
| `StateMachine.EmitPhiCopies` | cpp/mvcc-llvm/msl_emitter.cpp:1993-2014 | the copies have the effect of the simultaneous assignment, and temporaries are used exactly when a source is a phi of the target |
| `StateMachine.PhiEnvSimultaneous` | cpp/mvcc-llvm/msl_emitter.cpp:1996 | that effect is the only environment in which every phi has the value its source had before, and nothing else changed |
| `StateMachine.DirectCopies` | cpp/mvcc-llvm/msl_emitter.cpp:2003 | without a source among the phis of the target the order of the copies does not show |
| `StateMachine.ThroughTemps` | cpp/mvcc-llvm/msl_emitter.cpp:2004-2013 | through temporaries any copies are simultaneous, swaps and self-loops included |
| `StateMachine.CondBrRuns` | cpp/mvcc-llvm/msl_emitter.cpp:2168-2172 | a conditional branch copies and sets the next block on the side taken |
| `StateMachine.BrRuns` | cpp/mvcc-llvm/msl_emitter.cpp:2166 | an unconditional branch copies and sets the next block |
| `Philox.State.Curand` | include/curand_kernel.h:121-134 | draws the word of the stream at the current position and moves to the next, keeping the lazily filled block valid |
| `Philox.State.Curand4` | include/curand_kernel.h:136-148 | draws the next four words and moves four on, on both paths |
| `Philox.State.Skipahead` | include/curand_kernel.h:85-96 | moves the position by n modulo the period for every 64-bit n; n = 0 changes nothing |
| `Philox.State.SkipaheadSequence` | include/curand_kernel.h:98-106 | moves by n subsequences of 2^66 outputs |
| `Philox.State.Init` | include/curand_kernel.h:108-119 | a generator starts at subsequence * 2^66 + offset of the stream of its seed |
| `Philox.State.Store` | include/curand_kernel.h:69-83 | the state represents exactly the given block and word |
| `Philox.Load` | include/curand_kernel.h:53-67 | the block and word of the next sample, with the borrow across the halves |
| `Philox.Advance` | include/curand_kernel.h:90-95 | the addition of n outputs with the carry across the 64-bit halves |
| `Philox.Bump` | include/curand_kernel.h:46-51 | the four-word increment is the successor modulo 2^128 |
| `Philox.Philox4x32_10` | include/curand_kernel.h:30-44 | ten rounds, round n under the key plus n times (0x9E3779B9, 0xBB67AE85) modulo 2^32 |
| `PhiloxKnown.KnownBlock` | include/curand_kernel.h:30-44 | the block of counter 0 under key 0 is 6627e8d5 e169c58d bc57ac4c 9b00dbd8 |
| `Philox.RoundProducts` | include/curand_kernel.h:30-38 | the words of a round come from the products 0xD2511F53 * x and 0xCD9E8D57 * z, high halves crossed over |
| `Philox.RoundInverse` | include/curand_kernel.h:32-39 | a round has a two-sided inverse |
| `Philox.BlockBijective` | include/curand_kernel.h:30-44 | for every key the block function is a permutation of the 2^128 counters |
| `Philox.SkipIsDrawing` | include/curand_kernel.h:85-134 | for every program of calls: skipping n and going on prints what drawing n, dropping them and going on prints |
| `Philox.SkipsAdd` | include/curand_kernel.h:85-96 | two skips print as one skip of the sum |
| `Philox.QuadIsFourOnes` | include/curand_kernel.h:136-148 | curand4 prints as four curand calls |
| `Philox.PositionDecides` | include/curand_kernel.h:53-83 | two valid states of one key at one position agree in everything a draw uses |
| `Philox.Run` | include/curand_kernel.h:85-148 | any sequence of calls prints what key and position alone determine |
| `Fp8.F2Fp8` | include/cuda_fp8.h:23-67 | both formats, every bit pattern: the nearest representable code with ties to even, the overflow code of the saturation mode beyond the largest finite one, NaN and infinities as specified |
| `Fp8.F2E4M3Sat` | include/cuda_fp8.h:96-108 | the branch-free form satisfies the specification of the saturating E4M3 encoder on every bit pattern |
| `Fp8.FastFormAgrees` | include/cuda_fp8.h:90-91 | so the two encoders agree bit for bit |
| `Fp8.EncodesUnique` | include/cuda_fp8.h:23-67 | there is exactly one correct code |
| `Fp8.Fp82F` | include/cuda_fp8.h:68-86 | the decoder returns the exact value and sign of every code |
| `Fp8.DecodesTo` | include/cuda_fp8.h:69-85 | in absolute terms: a finite code stands for its magnitude times 2^-9 in E4M3 and times 2^-16 in E5M2 |
| `Fp8.UnitsAre` | include/cuda_fp8.h:36-68 | those are the units encoder and decoder count in |
| `Fp8.OneDecodes` | include/cuda_fp8.h:69-85 | 0x38 is 1.0 in E4M3 and 0x3c is 1.0 in E5M2 |
| `Fp8.ReEncodes` | include/cuda_fp8.h:23-86 | encoding a decoded code gives it back exactly unless it is one of the E5M2 NaN codes 0x7d and 0x7e of either sign, which become 0x7f, or an E5M2 infinity under saturation, which becomes the largest finite code |
| `Fp8.NormalRounds` | include/cuda_fp8.h:55-57 | a normal result rounds to the code with its fields, a mantissa carry going to the exponent |
| `Fp8.SubnormalRounds` | include/cuda_fp8.h:43-53 | a subnormal result, up to the smallest normal |
| `Fp8.RoundField` | include/cuda_fp8.h:57 | the carry of the rounded mantissa into the exponent field |
| `Fp8Rounding.NormalNearest` | include/cuda_fp8.h:55-57 | rounding the significand to even gives the nearest code of the binade, for any number of mantissa bits |
| `Fp8Rounding.SubnormalNearest` | include/cuda_fp8.h:43-53 | the same below the smallest normal |
| `Fp8Rounding.NearestUnique` | include/cuda_fp8.h:22 | no number has two nearest codes under ties to even |
| `Fp8Rounding.ExactIsNearest` | include/cuda_fp8.h:68-86 | a representable number is its own rounding |
| `WarpMatch.MatchAny` | include/crt/sm_70_rt.hpp:6-16 | every lane of a non-empty mask ends with exactly the masked lanes holding its value, after one round per distinct value |
| `WarpMatch.OneRound` | include/crt/sm_70_rt.hpp:8-14 | a round removes exactly one class of equal values |
| `WarpMatch.MatchAny64` | include/crt/sm_70_rt.hpp:17-19 | intersecting the two halves gives the lanes with equal 64-bit values |
| `WarpMatch.MatchAll` | include/crt/sm_70_rt.hpp:20-24 | the predicate holds exactly when all masked lanes are equal, and the mask is returned exactly then |
| `ScheduleParse.PrintParse` | cpp/mvcc-llvm/schedule.cpp:301-412 | parsing the printed text of a printable schedule gives the schedule back |
| `ScheduleParse.CanonInjective` | cpp/mvcc-llvm/schedule.cpp:453-457 | so two printable schedules with one text are one schedule |
| `ScheduleParse.DumpSchedule` | cpp/mvcc-llvm/schedule.cpp:301-323 | the lines printed |
| `ScheduleParse.Parse` | cpp/mvcc-llvm/schedule.cpp:334-412 | the loop over characters and lines computes the line-by-line reading |
| `ScheduleParse.HeaderRead` | cpp/mvcc-llvm/schedule.cpp:340-352 | the header line gives kernel and reason back |
| `ScheduleParse.StageRead` | cpp/mvcc-llvm/schedule.cpp:353-367 | the stage line gives the engine, exchange, prefetch, predicate, scale and memory back |
| `ScheduleParse.FactorRead` | cpp/mvcc-llvm/schedule.cpp:369-381 | a factor line gives the factor back |
| `ScheduleParse.StorageRead` | cpp/mvcc-llvm/schedule.cpp:387-400 | a storage line gives the storage back |
| `ScheduleParse.OrderRead` | cpp/mvcc-llvm/schedule.cpp:382-386 | the order line gives the order back |
| `ScheduleParse.BindRoundTrip` | cpp/mvcc-llvm/schedule.cpp:54-68 | every binding reads back from its printed name |
| `ScheduleText.StoulOfDecimal` | cpp/mvcc-llvm/schedule.cpp:363-376 | a printed 32-bit number reads back |
| `ScheduleText.WordsOfJoined` | cpp/mvcc-llvm/schedule.cpp:356-358 | splitting at blanks undoes joining by single blanks |
| `ScheduleText.LinesOfUnlines` | cpp/mvcc-llvm/schedule.cpp:407-411 | splitting at newlines undoes ending each line by one |
| `ScheduleText.SplitLines` | cpp/mvcc-llvm/schedule.cpp:407-411 | the character loop computes the lines |
| `Schedule.CheckWellFormed` | cpp/mvcc-llvm/schedule.cpp:109-132 | accepts exactly the well-formed schedules |
| `Schedule.SplitSizes` | cpp/mvcc-llvm/schedule.cpp:109-132 | a factor may have any size, three, or a power of two |
| `Schedule.EditKeepsWellFormed` | cpp/mvcc-llvm/schedule.cpp:236-275 | each of the six search edits keeps a schedule well-formed and renames it |
| `Schedule.EditedFields` | cpp/mvcc-llvm/schedule.cpp:236-275 | which fields of a stage each edit changes and to what, and that no other changes; a simdgroup split rebinds every unrolled factor, or without one the first of time whose size is not one |
| `ScheduleSource.SourceSchedule` | cpp/mvcc-llvm/schedule.cpp:168-234 | the loops compute the source schedule factor by factor |
| `ScheduleSource.SourceWellFormed` | cpp/mvcc-llvm/schedule.cpp:168-234 | the source schedule of every program with distinct coordinate names is well-formed |
| `ScheduleSource.ParsePhys` | cpp/mvcc-llvm/schedule.cpp:139-151 | the physical axes of a coordinate text, each once, in order of first appearance |
| `PhysText.PhysReadBack` | cpp/mvcc-llvm/schedule.cpp:135-151 | writing the combination of physical axes of a coordinate and reading it back keeps, each once and in order, the thread bits, iterations and derived quantities it moves along; none is lost exactly when it moves along no whole simdgroup or lane index |
| `PhysText.PhysOfCoordinate` | cpp/mvcc-llvm/stir.cpp:72-78 | the text written for a coordinate |
| `PhysText.TermReads` | cpp/mvcc-llvm/schedule.cpp:139-151 | one term of the text reads back as its axis, whatever its coefficient |
| `PhysText.ToStringReads` | cpp/mvcc-llvm/stir.cpp:76 | a written coefficient is its digits after a minus sign for a negative one |
| `ScheduleSource.ProgramPermits` | cpp/mvcc-llvm/schedule.cpp:153-161 | a right is granted exactly when every data loop grants it |
| `ScheduleSearch.Candidates` | cpp/mvcc-llvm/schedule.cpp:459-496 | at any depth: between one and width entries, all within reach, well-formed, with their own cost and distinct texts, the source among them; every schedule within reach prints like one returned or like one no cheaper than everything returned but the source |
| `ScheduleSearch.Consider` | cpp/mvcc-llvm/schedule.cpp:462-468 | a schedule is kept exactly when it is well-formed and its text is new |
| `ScheduleSearch.Rank` | cpp/mvcc-llvm/schedule.cpp:483 | the ranking is a permutation in order of cost |
| `ScheduleSearch.NothingLost` | cpp/mvcc-llvm/schedule.cpp:459-496 | with a printable source no schedule is lost to another: each is returned or costs at least as much as everything returned but the source |
| `ScheduleSearch.EverythingReturned` | cpp/mvcc-llvm/schedule.cpp:484 | a window that is not full holds every schedule within reach |
| `ScheduleSearch.ConsideredWellFormed` | cpp/mvcc-llvm/schedule.cpp:471-482 | everything the search reaches is well-formed |
| `ScheduleSearch.SourcePrints` | cpp/mvcc-llvm/schedule.cpp:168-234 | word-like coordinate names and a kernel name without blanks make the source schedule printable |
| `Legality.Check` | cpp/mvcc-llvm/legality.cpp:48-165 | accepts exactly the schedules that are well-formed and keep every law; the recorded failures are exactly the broken laws with their stages, the discharged ones exactly the laws that hold |
| `Legality.Permits` | cpp/mvcc-llvm/legality.cpp:18-29 | a right is granted exactly when there is a data loop and every data loop grants it |
| `Legality.LastTells` | cpp/mvcc-llvm/legality.cpp:64-106 | testing only the last failure decides whether a law was broken, because entries come in the order of the laws |
| `Legality.CheckCoverage` | cpp/mvcc-llvm/legality.cpp:50-62 | a failure per coordinate without a non-replicate owner |
| `Legality.CheckPartialCombine` | cpp/mvcc-llvm/legality.cpp:75-90 | a failure per parallel reduction factor without permission, exchange or atomic algebra |
| `Legality.AtomicSplit` | cpp/mvcc-llvm/legality.cpp:75-90 | with an exchange by atomics a reduction coordinate may be bound to anything but unrolled, time or replicate exactly when partition is granted and some loop is a sum or bitwise fold |
| `Legality.CheckDependencyOrder` | cpp/mvcc-llvm/legality.cpp:92-106 | a failure per fusion target out of range or without a shared time factor |
| `Legality.CheckNumericalClass` | cpp/mvcc-llvm/legality.cpp:126-139 | a failure per tensor-op without contraction and per unrolled reduction without reorder |
| `Legality.TensorNeedsSum` | cpp/mvcc-llvm/legality.cpp:33-35 | without unrolled reductions a stage may use the tensor engine exactly when some loop sums, in a scalar or in tensors |
| `SourceLegality.SourceLegal` | cpp/mvcc-llvm/schedule.cpp:168-234 | the source schedule is legal exactly when nothing is unfitted, the numerical class is inherited or budgeted, reductions split over threads may be partitioned and unrolled reductions reordered |
| `SourceLegality.OutputsDoNotReduce` | cpp/mvcc-llvm/schedule.cpp:212-216 | the search calls a coordinate an output exactly when the laws do not call it a reduction |
| `EngineChoice.Pick` | cpp/mvcc-llvm/engine.cpp:104-122 | the choice is a legal candidate whenever there is one, of minimum cost, the source winning ties |
| `EngineChoice.Choose` | cpp/mvcc-llvm/engine.cpp:100-131 | over the candidates of the search: a candidate, legal exactly when one of them is, no dearer than any legal one, the source winning ties; with no legal candidate the source schedule is returned and is illegal |
| `EngineChoice.LegalSourceBounds` | cpp/mvcc-llvm/engine.cpp:100-131 | a legal source is never lost: the choice is then legal and costs no more |
| `ChoiceExactly.CheapestExactly` | cpp/mvcc-llvm/engine.cpp:100-131 | for a valid program with a printable source and any depth and width: under every cost model every choice is legal and no dearer than any legal schedule within reach, if there is one, exactly when the window is wider than the illegal edits within reach and the source together or no edit within reach is legal |
| `ChoiceExactly.NarrowMisses` | cpp/mvcc-llvm/engine.cpp:104-122 | in a narrower window there are costs under which a choice is made and no choice is the cheapest legal schedule |
| `ChoiceExactly.NotWideEnough` | cpp/mvcc-llvm/schedule.cpp:459-496 | up to eight candidates are too few, from two edits on, for every program that does not contract and has a legal source: seven tensor-op schedules are illegal and the zero-page edit is legal |
| `ChoiceExactly.DefaultsMiss` | cpp/mvcc-llvm/schedule.h:99 | a program and costs for which depth 3 and width 8 miss the cheapest legal schedule |

## Left out

- ProgramRecovery.Recover: takes the samples as given, already without duplicates; sampling, symbolic execution and the classing and folding of derived quantities are not part of this model. The families of one site stay in order of first appearance, where the code sorts them by their text; another order may lead to another basis, for which the same holds.
- Polynomials.Quotient: monomials are multisets of atoms elsewhere in the model; that the sorted lists of the compiler stand for them is proved here and in `Polynomials.DividesTest` and `Polynomials.SortedUnique`. Terms of a polynomial are visited in any order where the result does not depend on it.
- Hermite.Hnf: 64-bit overflow of the row operations is not modelled, as the compiler assumes there is none.
- IfConvertPass.Collapse: the dominance, dead-block and loop tests are an oracle whose answers are only assumed to be those of a dominator tree; repeating sweeps and deleting the cut-off blocks are left out. Replacing the uses of a phi is modelled as giving the phi's name the selected value, and constant folding by the instruction builder as the plain expression.
- GuardedBranches.ConvertDiamond: using an erased instruction, which in the code is undefined behaviour of the compiler itself, is modelled as reading a variable without a definition.
- GuardedBranches.ConvertTriangle: the sums of products of an mma are exact, and the sign of a negative zero is not modelled; machines other than the whole warp of `WarpMma.WarpWorld` are covered when their mma keeps the accumulator on zero registers.
- GuardedLoads.AnalyzeArm: parsing PTX text is left out; an instruction arrives already recognized.
- Recurrence.ClassifierSound: exact reals stand for floating point, so conversions keep the value and unordered comparisons read the exact order; the fallback that accepts any IR path to the phi (`irFeedsPhi`), vector parts, tensor accumulators and inline assembly are left out, as are `initIdentity` and the detail strings.
- Recognition.ClassifiesExactly: exact for the expression forms modelled; the forms `Recurrence.ClassifierSound` leaves out are left out here too.
- Recurrence.DuplicatePermitted: the duplicate right of inductions means replicated loop control and is not stated as a fold property; a permutation has `Recurrence.PermutationRepeats`.
- Grants.PartitionGranted: stated for folds, permutations and order-sensitive updates; the rights of tuples are those of `LinearTuple` and `OnlineSoftmax`, and what the classifier cannot name gets none (`Recurrence.PermittedFolds`).
- Grants.DuplicateGranted: as for `Recurrence.DuplicatePermitted`, inductions are exempted.
- Recurrence.ReorderPermitted: stated per recurrence with sibling phis as part of the environment; intersecting the rights of a loop's recurrences is left out because a permutation may read a sibling.
- OnlineSoftmax.JointReorder: the exponential is any function over the reals with exp(0) = 1 that turns sums into products; a start from minus infinity is `OnlineSoftmax.RowReorder`, where the first score replaces it and drops the old sum.
- LinearTuple.TupleReorderExactly: the values of sibling phis are fixed per iteration; the pair that changes together is `OnlineSoftmax.JointReorder`.
- LinearTuple.ExponentialScaleMayNotReorder: the exponential is a function with exp(1) = 2, not the one of a particular library.
- RowSum.RowSumCorrect: sums are over the reals, so rounding and the order of additions do not show; building the IR instructions is modelled by the kernel they form.
- Softmax.SoftmaxExactly: exponentials are powers of two over integer exponents, with the exponential of minus infinity zero; the divisor's rounding is not modelled.
- Softmax.SoftmaxCorrect: as for `Softmax.SoftmaxExactly`, exponentials are powers of two over integer exponents.
- StateMachine.EmitBody: the text of expressions and pointer address spaces are left out; a variable without a value reads as zero.
- Philox.State.Init: a null state pointer and the cached Box-Muller normal are left out, as are the uniform and normal distributions.
- WarpMatch.MatchAny: a shuffle and a ballot are taken to read all lanes of the mask at once.
- ScheduleParse.PrintParse: fields that are not printed (tensor tile sizes, fused stages, ring bytes) have their default values, names have no blanks and the kernel name is not empty; numbers read are plain decimals, signs and leading blanks accepted by the C++ library are not modelled.
- ScheduleParse.Parse: the number reader takes plain decimals; the signs and leading blanks the C++ library accepts are left out.
- ScheduleSearch.Candidates: the cost model is any function of the schedule; the floating-point cost formulas are left out, and the ranking may order equal costs in any way.
- Legality.Check: the wording of failures is left out; the graph-level laws are not modelled, since there the test of the last failure alone does not decide.
- EngineChoice.Choose: the schedule database and its residuals are left out, so no entry is preferred; planning the emission is left out.
- ChoiceExactly.CheapestExactly: costs are any real-valued function of the schedule, without the residuals of database entries.
- Structured emission, recovery of tensor kernels, staging elimination and wide vectors rest on analyses that are not part of this model.
- The remaining emitted kernels, the intrinsic and PTX lowering tables, Metal code, the host API and the Python tools would add shallow members only.
