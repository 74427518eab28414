# Concatenation, triangular masks and quantization helpers, in Dafny

This project models three pieces of an extension library for a tensor framework.

1. **Concatenation (`cat`).** `Cat.cpp` validates the inputs, plans the output shape and copies the inputs into the output. It uses either a fused batched kernel or a per-input fallback.
2. **Triangular masks.** `BatchLinearAlgebra.cpp` applies the `tril`/`triu` masks. It also holds the flag and shape logic around its SVD and LU calls.
3. **Quantization helpers.** `_utils.py` holds pure helpers for automatic quantization:
   - module-dict keys;
   - the hook-type decisions;
   - the edges between recorded op nodes.

Modules, one per file:

- `Results`: `Option`, `Result`, `Outcome`.
- `MixedRadix`: row-major digits, linear indices, strided offsets and contiguity, over `Quot`/`Rem`.
- `Tensors`: sizes, strides, flat storage, and the framework helpers used (`numel`, `is_contiguous`, `canUse32BitIndexMath`, `resize_`).
- `GridStride`: which indices a grid-stride worker visits.
- `CatLayout`: where `cat` puts element `i` of input `j` (its *placement*), and the predicate `Placed` that both copy paths establish.
- `CatIndex`: `CatArrIndexToOffset`.
- `CatKernel`: `CatArrayBatchedCopy`.
- `CatBatch`: `parallel_cat`.
- `CatPlan`: the shape checks and output shape of `cat`.
- `Cat`: the fallback copy, `impl::cat` and `_cat_out`.
- `Triangular`: the `tril`/`triu` kernel and entry points.
- `LinAlgShapes`: `jobz` and the `_lu_with_info` shapes.
- `QuantUtils`: the `_utils.py` helpers.

**Execution model.** Parallel kernels are modelled as sequential loops over their work-items. A kernel's output is a new storage sequence. The fused `cat` kernel stores every element exactly once when no two destinations collide, and `CatBatch` proves that they never collide for the launches `parallel_cat` makes.

**Path independence.** Both copy paths of `cat` are proved to produce `Placed(...)`. `CatLayout.PlacedUnique` shows that this determines the storage, so the fused kernel and the fallback yield the same output.

## Model

| member | source | states |
|---|---|---|
| CatIndex.IndexToOffset | csrc/aten/operators/Cat.cpp:33-58 | the offset is the sum of the output strides times the row-major digits of the index, taken over the output extents with the input's own extent at the concat dimension; for rank 1 it is the index times the only stride |
| CatIndex.SplitIndex | csrc/aten/operators/Cat.cpp:49-54 | one loop step yields the quotient and remainder of the remaining index by the current radix |
| CatIndex.MachineDivision | csrc/aten/operators/Cat.cpp:50-51 | the machine quotient and the remainder by subtraction are the digit arithmetic's quotient and remainder |
| CatIndex.Coordinates | csrc/aten/operators/Cat.cpp:45-57 | the coordinates are in range for every inner dimension and linearize back to the index |
| CatIndex.CurDimSize | csrc/aten/operators/Cat.cpp:49 | the radix at dimension `i` is the input's extent at the concat dimension and the output's elsewhere |
| CatIndex.RadicesOfInput | csrc/aten/operators/Cat.cpp:49 | for an input shaped like the output except along the concat dimension, the radices are the input's own shape |
| CatIndex.RemainingIsOffset | csrc/aten/operators/Cat.cpp:48-57 | what the loop has accumulated at the innermost dimension is the element's strided offset |
| GridStride.VisitsExactly | csrc/aten/operators/Cat.cpp:129-134 | a worker visits exactly the indices below the count that lie a whole number of strides after its start |
| GridStride.ExactlyOneWorker | csrc/aten/operators/Cat.cpp:127-134 | every index below the count is visited by exactly one worker, the one numbered by its residue modulo the stride |
| CatKernel.CopiedByVisitor | csrc/aten/operators/Cat.cpp:111-134 | work-item `tid` reaches element t iff t's residue modulo the number of work-items is `tid` |
| CatKernel.WorkItem | csrc/aten/operators/Cat.cpp:111-135 | a work-item numbered at or beyond the element count stores nothing; otherwise it copies its grid-stride share |
| CatKernel.CopyRow | csrc/aten/operators/Cat.cpp:111-135 | running the work-items of one descriptor completes that descriptor and moves on to the next |
| CatKernel.GridStrideLoop | csrc/aten/operators/Cat.cpp:127-135 | the loop copies elements tid, tid + stride, and so on below the count, each to the slice's data offset plus the element offset |
| CatKernel.StoreElement | csrc/aten/operators/Cat.cpp:129-134 | one iteration extends the copied elements by exactly the element stored, and the next index has the same residue |
| CatKernel.CatArrayBatchedCopy | csrc/aten/operators/Cat.cpp:89-140 | positions no element is stored at keep their contents; when destinations never collide, every element of every descriptor is at its destination |
| CatBatch.ExactlyOneBatch | csrc/aten/operators/Cat.cpp:171-182 | input j lies in the batch the loop starts at s iff s is j rounded down to a multiple of 1024, so every input is in exactly one batch |
| CatBatch.BatchOfInput | csrc/aten/operators/Cat.cpp:171 | the batch start covering an input is one of the starts the outer loop visits |
| CatBatch.StageBatch | csrc/aten/operators/Cat.cpp:180-193 | a batch has min(1024, n - i) descriptors; descriptor k records input i + k's storage, the sum of the concat extents of all earlier inputs, its concat extent and its element count; the running offset ends at the next batch's start |
| CatBatch.DestIsPlacement | csrc/aten/operators/Cat.cpp:123-132 | the kernel stores element t of a staged input at that element's placement in the output |
| CatBatch.LaunchSafe | csrc/aten/operators/Cat.cpp:129-132 | every store of a batch launch lands inside the output, and no two stores collide |
| CatBatch.LaunchStores | csrc/aten/operators/Cat.cpp:132 | after a launch, every element of the batch's inputs is at its placement |
| CatBatch.LaunchWrites | csrc/aten/operators/Cat.cpp:132 | every position a launch writes is the placement of an element of the batch |
| CatBatch.LaunchCopies | csrc/aten/operators/Cat.cpp:129-135 | a storage that holds every staged element at its destination and is unchanged elsewhere holds exactly the batch's inputs at their placements, and nothing else changed |
| CatBatch.CopyBatch | csrc/aten/operators/Cat.cpp:173-204 | staging and launching one batch copies that batch's inputs and carries the offset to the start of the next batch |
| CatBatch.BatchIteration | csrc/aten/operators/Cat.cpp:171-219 | for an output rank of 1 to 3, one outer iteration extends the placed inputs by the batch; any other rank launches nothing |
| CatBatch.ParallelCat | csrc/aten/operators/Cat.cpp:142-220 | `parallel_cat` leaves the output holding every input at its placement (the concatenation), or untouched when the rank selects no kernel |
| CatLayout.SliceStartMonotone | csrc/aten/operators/Cat.cpp:192 | the running offset never decreases from one input to the next |
| CatLayout.SliceOrder | csrc/aten/operators/Cat.cpp:187-192 | along the concat dimension, every position of a kept earlier input's slice lies before every position of a later input's slice |
| CatLayout.PlacementInside | csrc/aten/operators/Cat.cpp:130-132 | every placement is inside the output's shape, and its storage position is its row-major index there |
| CatLayout.PlacementInjective | csrc/aten/operators/Cat.cpp:130-132 | distinct elements of the concatenated inputs go to distinct output positions |
| CatLayout.PlacementDetermines | csrc/aten/operators/Cat.cpp:130-132 | an output coordinate names at most one kept input and element: equal placements mean the same input and element |
| CatLayout.PlacedUnique | csrc/aten/operators/Cat.cpp:324-345 | two results that both place every input and leave every other position alone are equal, so the two copy paths agree |
| CatLayout.PlacedExtend | csrc/aten/operators/Cat.cpp:337-344 | copying later inputs never overwrites an earlier input's placement |
| CatPlan.CheckShapeExceptDim | csrc/aten/operators/Cat.cpp:222-237 | the check passes iff the ranks agree and every extent except the concat one agrees; it fails with the rank error iff the ranks differ |
| CatPlan.ScanInputs | csrc/aten/operators/Cat.cpp:274-281 | `hasSkippedInput` is set iff some input is skipped; the remembered input is the last one not skipped, and there is none iff all are skipped |
| CatPlan.LastKeptUnique | csrc/aten/operators/Cat.cpp:274-281 | the input the scan remembers is unique: there is at most one last input that is not skipped |
| CatPlan.ConcatExtent | csrc/aten/operators/Cat.cpp:296-304 | the sum succeeds iff every kept input matches the reference shape and has the concat dimension; the sum is the total concat extent; each error names a kept input that shows it |
| CatPlan.OutputShape | csrc/aten/operators/Cat.cpp:306-312 | the output shape is the reference shape with the concat extent replaced by the sum |
| CatPlan.PlannedShapeFits | csrc/aten/operators/Cat.cpp:306-312 | the planned extent at the concat dimension is the sum of the inputs' extents there, and every kept input agrees with the planned shape elsewhere |
| CatPlan.PlanCat | csrc/aten/operators/Cat.cpp:274-312 | early return iff the last kept input is undefined or nothing is kept; the input-count check can never fail; a negative dimension is rejected iff something is kept; otherwise planning succeeds iff the kept inputs are consistent, with the summed shape |
| CatPlan.AllSameType | csrc/aten/operators/Cat.cpp:364-369 | `allSameType` holds iff every input has the output's element type |
| Cat.NarrowIsPlacement | csrc/aten/operators/Cat.cpp:340-342 | the narrow view at the running offset has the input's shape, and its i-th position is where the fused kernel puts element i |
| Cat.CopyElement | csrc/aten/operators/Cat.cpp:342 | one step of the copy stores the next element of the input at its placement, keeping the earlier ones |
| Cat.CopyInput | csrc/aten/operators/Cat.cpp:340-343 | copying into the narrow view places every element of the input and changes nothing else |
| Cat.FallbackStep | csrc/aten/operators/Cat.cpp:337-344 | one fallback iteration copies a kept input into its slice or passes over a skipped one, and the running offset becomes the start of the next input's slice |
| Cat.SkippedCopied | csrc/aten/operators/Cat.cpp:338-339 | an input `should_skip` passes over counts as copied: it has no elements to place |
| Cat.Fallback | csrc/aten/operators/Cat.cpp:335-345 | the fallback loop leaves the output holding every input at its placement |
| Cat.FirstOverlap | csrc/aten/operators/Cat.cpp:262-271 | the reported input is the first one overlapping the output, and there is none iff no input overlaps |
| Cat.FusedPathReady | csrc/aten/operators/Cat.cpp:324-327 | when the path condition holds, the fused kernel's preconditions hold |
| Cat.FusedConditionIgnoresData | csrc/aten/operators/Cat.cpp:324-327 | the path condition depends on the output's shape and strides, not its contents |
| Cat.ResizedCanFill | csrc/aten/operators/Cat.cpp:313 | after the resize to the planned shape the output can hold every kept input at its placement |
| Cat.CopyPlanned | csrc/aten/operators/Cat.cpp:313-345 | after the resize the output has the planned shape and contiguous strides, and holds the concatenation; the fused path is taken iff the path condition holds |
| Cat.CatImpl | csrc/aten/operators/Cat.cpp:239-346 | errors come in source order (cast, then first overlapping input, then internal overlap); the count check never fires; the result is untouched iff nothing is kept; otherwise success iff the dimension is non-negative and the kept inputs are consistent, and then the output is the concatenation |
| Cat.CatOut | csrc/aten/operators/Cat.cpp:350-379 | overlap errors first; oneDNN runs iff `cat_valid` holds and every input has the output's type; the fused kernel only ever runs with all types equal; on the `impl::cat` path, inputs that cannot be cast are rejected, the output is untouched iff nothing is kept, and otherwise the call succeeds iff the dimension is non-negative and the kept inputs are consistent, with the concatenation as the result |
| Triangular.MaskKernel | torch_ipex/csrc/gpu/aten/operators/BatchLinearAlgebra.cpp:44-57 | the grid-stride kernel leaves each of the first N positions holding the source element if the mask keeps it and zero otherwise, and the rest untouched; reading from the result itself (in place) gives the same result |
| Triangular.StrideOrderRowMajor | torch_ipex/csrc/gpu/aten/operators/BatchLinearAlgebra.cpp:48-50 | for a row-major matrix with more than one column, strides (C, 1), the written rule recovers row idx / C and column idx % C |
| Triangular.StrideOrderColumnMajor | torch_ipex/csrc/gpu/aten/operators/BatchLinearAlgebra.cpp:51-54 | for a column-major matrix, strides (1, R), the written rule recovers the true row and column |
| Triangular.ColumnVectorMisread | torch_ipex/csrc/gpu/aten/operators/BatchLinearAlgebra.cpp:48-54 | a contiguous 2 x 1 matrix has strides (1, 1); the written rule gives `tril(0)` = [5, 0] for [5, 7], and the corrected rule gives [5, 7] |
| Triangular.BatchedMatrixMisread | torch_ipex/csrc/gpu/aten/operators/BatchLinearAlgebra.cpp:85-104 | with the strides of dimensions 0 and 1 of a contiguous 2 x 2 x 2 tensor, `triu(1)` zeroes element (0, 0, 1), which lies on the superdiagonal; the corrected rule keeps it |
| Triangular.RulesAgreeOnMatrices | torch_ipex/csrc/gpu/aten/operators/BatchLinearAlgebra.cpp:48-54 | on a contiguous rank-2 matrix with more than one row and column, the written rule finds the same row and column as the corrected rule |
| Triangular.CorrectedRuleFindsCoordinates | torch_ipex/csrc/gpu/aten/operators/BatchLinearAlgebra.cpp:48-54 | for every contiguous tensor of rank at least 2, the corrected rule yields the element's coordinates along the last two dimensions |
| Triangular.MaskedContiguous | torch_ipex/csrc/gpu/aten/operators/BatchLinearAlgebra.cpp:56-57 | element i of the masked contiguous tensor is the element itself if its (row, column) is kept, zero otherwise |
| Triangular.TrilTriuComplement | torch_ipex/csrc/gpu/aten/operators/BatchLinearAlgebra.cpp:56 | `tril(k)` and `triu(k + 1)` keep complementary positions: at each one, exactly one keeps the source and the other stores zero |
| Triangular.TriuTrilTemplate | torch_ipex/csrc/gpu/aten/operators/BatchLinearAlgebra.cpp:74-108 | the template masks the first numel(self) storage positions of the result from self's storage and changes nothing else about the result |
| Triangular.TriuTrilOut | torch_ipex/csrc/gpu/aten/operators/BatchLinearAlgebra.cpp:111-134 | for a given row/column rule, the result gets self's shape (resized, with contiguous strides, only when the shapes differ); it is returned without any store when self is empty, and masked by that rule otherwise. `AsWrittenRule(self)` (strides 0 and 1, lines 91-92 and 101-102) is the code as written, and `CorrectedRule(self)` the intended version |
| Triangular.TrilInPlace | torch_ipex/csrc/gpu/aten/operators/BatchLinearAlgebra.cpp:122-124 | in-place `tril` under either rule keeps self's shape and strides and gives the mask of self into itself, the same as the out-of-place result under that rule |
| Triangular.TriuInPlace | torch_ipex/csrc/gpu/aten/operators/BatchLinearAlgebra.cpp:136-138 | in-place `triu` under either rule likewise equals the out-of-place mask of self under that rule |
| LinAlgShapes.Jobz | torch_ipex/csrc/gpu/aten/operators/BatchLinearAlgebra.cpp:297 | the letter is 'N' iff no vectors are computed, 'S' iff they are computed with `some`, and 'A' iff computed without it |
| LinAlgShapes.SvdJobs | torch_ipex/csrc/gpu/aten/operators/BatchLinearAlgebra.cpp:197-206 | U and VT get the same job: none iff the letter is 'N', the reduced set iff it is 'S', and all vectors for any other letter |
| LinAlgShapes.SvdJobsFollowFlags | torch_ipex/csrc/gpu/aten/operators/BatchLinearAlgebra.cpp:297 | the jobs reaching oneMKL request vectors iff `compute_uv` is set, and the reduced set iff `some` is set too; the letter round-trips |
| LinAlgShapes.JobLetterRoundTrip | torch_ipex/csrc/gpu/aten/operators/BatchLinearAlgebra.cpp:197-206 | every job is recovered from its letter |
| LinAlgShapes.LuWithInfoShapes | torch_ipex/csrc/gpu/aten/operators/BatchLinearAlgebra.cpp:256-267 | it fails iff pivoting is off, the rank is below 2, or the matrices are not square (in that order); the factors keep the input shape, the pivots drop the last dimension, and the infos drop the last two |
| QuantUtils.Replace | intel_extension_for_pytorch/ao/quantization/_utils.py:65 | same length; every `from` becomes `to`, and every other character is unchanged |
| QuantUtils.FqnKey | intel_extension_for_pytorch/ao/quantization/_utils.py:59-65 | the empty name becomes " "; otherwise the length is kept; the key never contains '.' |
| QuantUtils.FqnKeyRoundTrip | intel_extension_for_pytorch/ao/quantization/_utils.py:65 | turning ':' back into '.' recovers any non-empty name that has no ':' |
| QuantUtils.FqnKeyInjective | intel_extension_for_pytorch/ao/quantization/_utils.py:59-65 | names without ':' share a key only if they are equal, or are "" and " " |
| QuantUtils.FirstWithValue | intel_extension_for_pytorch/ao/quantization/_utils.py:67-86 | the position of the first declared name with a given value |
| QuantUtils.Member | intel_extension_for_pytorch/ao/quantization/_utils.py:67-86 | the member a name denotes is the first declared name with the same value, as Python's `Enum` resolves aliases |
| QuantUtils.NoneAliasesArgDequants | intel_extension_for_pytorch/ao/quantization/_utils.py:84-86 | `HookType.NONE` is the member `ARG_DEQUANTS`; the other three names are distinct members |
| QuantUtils.TorchFunctionHookType | intel_extension_for_pytorch/ao/quantization/_utils.py:88-106 | the answer is OP_HOOKS iff the parent has a quantization state that needs hooks for the op; otherwise it is ARG_DEQUANTS, because NONE is an alias of it |
| QuantUtils.ModuleHookType | intel_extension_for_pytorch/ao/quantization/_utils.py:108-138 | a cached answer is returned with the module unchanged; otherwise the precedence is OP_HOOKS, then MODULE_IO_HOOKS (the module has state and no op hooks), then ARG_DEQUANTS, and the answer is cached on the module |
| QuantUtils.ModuleHookTypeIdempotent | intel_extension_for_pytorch/ao/quantization/_utils.py:112-138 | a second call returns the first answer and leaves the module as the first call left it |
| QuantUtils.ModuleWithoutStateDecidesLikeFunction | intel_extension_for_pytorch/ao/quantization/_utils.py:88-138 | for a module with no state of its own and nothing cached, the module decision equals the decision for a function call under the same parent |
| QuantUtils.NodeInGivenOps | intel_extension_for_pytorch/ao/quantization/_utils.py:246-250 | true iff the node's op type is one of the given ops |
| QuantUtils.MatchInfos | intel_extension_for_pytorch/ao/quantization/_utils.py:237-243 | one edge to node n for each info of the current node found on n's matching side |
| QuantUtils.ConnectNode | intel_extension_for_pytorch/ao/quantization/_utils.py:229-243 | a parent node is unchanged; an op node gains its edges to every op node in node order |
| QuantUtils.ConnectNodes | intel_extension_for_pytorch/ao/quantization/_utils.py:229-244 | every node is connected as above, and the list keeps its length and order |
| QuantUtils.LinksCount | intel_extension_for_pytorch/ao/quantization/_utils.py:235-243 | node j occurs among the new edges exactly as many times as there are matching infos, and parent nodes never occur |
| QuantUtils.LinksOrdered | intel_extension_for_pytorch/ao/quantization/_utils.py:233-243 | the new edges are in node order |
| QuantUtils.HitsPositive | intel_extension_for_pytorch/ao/quantization/_utils.py:237-238 | a node is linked iff some info of the current node occurs on its matching side |
| QuantUtils.EdgesSymmetric | intel_extension_for_pytorch/ao/quantization/_utils.py:235-243 | for two op nodes, j is a predecessor of c iff c is a successor of j |

## Left out

- Memory formats: `cat` resizes with the first input's suggested memory format (Cat.cpp lines 292 and 313). The model always resizes to contiguous row-major strides, and channels-last layouts are not modelled.
- Cat.CatOut: requires a non-empty input list, because `_cat_out` reads `tensors[0]` (Cat.cpp line 364) without a check, so an empty list has no defined behaviour there.
- Integer widths: the kernels compute with `unsigned int`, `int32_t` or `int64_t`, and the model uses unbounded naturals. The fused path runs only when `canUse32BitIndexMath` holds, which keeps its values in range. The triangular kernel's 32-bit and 64-bit branches compute the same values. `_cat_out` takes an `int64_t` dimension and passes it to `impl::cat`'s `int` parameter (lines 350, 242 and 374), which narrows it; the model passes the dimension through unchanged, which differs only for dimensions outside the `int` range.
- Device execution:
  - the queue, work-group geometry and host-to-device copies of the descriptors (Cat.cpp lines 97-107 and 153-158, 174-194) are left out;
  - the number of workers is a parameter;
  - work-items run one after another.
- Framework collaborators:
  - `canCast`/`result_type`, `get_overlap_status` and `assert_no_internal_overlap` enter as their outcomes (parameters);
  - `is_contiguous`, `canUse32BitIndexMath` and `resize_` are modelled after the framework's definitions, which are not part of this model;
  - `squareCheckInputs` is modelled as "the last two extents are equal".
- oneDNN: `cat_valid`, `to_plain_if_needed` and `concat` are not modelled. The oneDNN path is only recorded as taken.
- `_cat` (Cat.cpp lines 381-385) allocates an empty output of the promoted type and calls `_cat_out`. It is not modelled.
- Element types: `copy_` in the fallback converts between element types. The model copies values unchanged, over one generic element type.
- Undefined inputs: an undefined tensor is modelled by a `defined` flag with its own sizes. `Cat.ValidInputs` gives kept undefined tensors contiguous strides, because the framework gives them no layout.
- Triangular entry points:
  - they require rank at least 2 and positive strides where the rule divides, which the rule's division needs;
  - the framework's rank check for `tril`/`triu` is not in the modelled file;
  - the kernel reads `self` and writes `result` at flat storage positions, and the model does the same.
- SVD and LU:
  - the oneMKL calls, scratchpad sizing and error checking are foreign library bindings (BatchLinearAlgebra.cpp lines 140-231, 279-285, 316-320);
  - so are the remaining tensor manipulation of `_svd_helper` and the batched column-major clone of `_lu_with_info`.
- Quantization utilities:
  - `cur_op_needs_hooks` is a call into the quantization state, and enters as the parameter `needsHooks`;
  - the module cache write becomes the returned updated module;
  - node creation with its scale/zero-point dictionaries (lines 204-228) is left out;
  - so are `sync_pool_input_output_scale_zp`, the observer settings, JSON save/load, the `attach_*` walks, the LSTM and module-call helpers, and `is_leaf`. All of them manipulate torch objects or do file I/O.
- Tensor infos are modelled as values compared by value, and a `None` entry is `Missing`. As in Python's `in`, a `None` on both sides counts as a match.

## Findings

| source | as written | input that shows it | evidently intended | confidence | as-written member | corrected member |
|---|---|---|---|---|---|---|
| torch_ipex/csrc/gpu/aten/operators/BatchLinearAlgebra.cpp:48-54 | with equal strides the `else` branch reads the index as column-major: row = (idx % stride1) / stride0, col = idx / stride1 | contiguous 2 x 1 matrix [[5], [7]], strides (1, 1), `tril(0)`: element (1, 0) is read as (0, 1) and zeroed, giving [5, 0] | row and column are the element's coordinates, so `tril(0)` returns [5, 7] | not executed; high for the arithmetic, medium that such inputs reach the kernel | Triangular.ColumnVectorMisread | Triangular.CorrectedRuleFindsCoordinates |
| torch_ipex/csrc/gpu/aten/operators/BatchLinearAlgebra.cpp:85-104 | the template passes the strides of dimensions 0 and 1, which for a batch of matrices are the batch and row strides | contiguous 2 x 2 x 2 tensor, strides (4, 2, 1), `triu(1)`: element (0, 0, 1) is read as matrix position (0, 0) and zeroed | the mask uses the last two dimensions, so (0, 0, 1), on the first superdiagonal, is kept | not executed; medium | Triangular.BatchedMatrixMisread | Triangular.TriuTrilOut |

The `tril`/`triu` entry points in the model (`Triangular.TriuTrilOut`, `TrilInPlace`, `TriuInPlace`) take the row/column rule as a parameter. With `Triangular.AsWrittenRule(self)` (strides of dimensions 0 and 1, read as lines 48-54 do) they model the code as written. With `Triangular.CorrectedRule(self)`, which reads the row and column along the last two dimensions, they model the intended behaviour. `Triangular.RulesAgreeOnMatrices` shows the two coincide on contiguous matrices with more than one row and column, and the two lemmas above show where they differ.
