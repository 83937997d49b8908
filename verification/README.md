# Exact logic of the torch-mojo backend, modelled in Dafny

The repository compiles ATen operators onto a smaller graph vocabulary and carries a set of tools around
it: a trace comparison, a GPU clock lock that edits a binary property list, an assembler selector and a
kernel diff. This project models the parts whose correctness is a matter of exact logic and proves what
each of them is for, over every input, every run or every reachable state.

* **Convolution** (`Sums`, `Tensors`, `Convolution`, `DataGradient`, `WeightGradient`, `ConvolutionBackward`,
  `LengthConvolution`). Tensors are real-valued functions on index boxes; `conv2d`, `fold`, `matmul`,
  `permute`, `reshape` and `concat` have their usual definitions. The data gradient (matrix product, fold
  into the padded image, crop) and the weight gradient (a convolution with batch and channel, stride and
  dilation exchanged) are proved adjoint to the forward mapping for every input, kernel, output gradient,
  stride, dilation, padding and group count, in two dimensions and in one; the pairing determines every cell.
* **Gather and scatter** (`IndexBoxes`, `GatherScatter`). Tensors of any rank, the coordinate tensor, the two
  `_nd` primitives; elementwise meaning, adjointness, conservation, and `index_add` as a special case.
* **bfloat16 rounding** (`BFloat16`). The integer trick on 32-bit patterns against roundTiesToEven of section
  4.3.1 of IEEE 754-2019, values counted in units of 2^-149 so that no real arithmetic is approximated. Its only
  caller passes finite numbers; for the formula itself the fate of every NaN pattern is described too.
* **Order statistics** (`Sorting`, `OrderStatistics`, `SearchSorted`). Two stable selections composed through
  gathers, median and nanmedian by rank, `searchsorted` as a count against binary search.
* **Index formulas** (`IndexFormulas`). Slices, diagonals, windows, triangles.
* **Traces** (`IdleGaps`, `RangeNesting`, `KernelAttribution`, `SetSums`, `ComparisonRows`,
  `ComparisonGroups`). The interval merge, the stack sweep that recovers nesting, the attribution of kernel time
  and the grouping of owners into rows.
* **Assembler selection** (`PtxasRules`, `PtxasEnvironment`). Acceptance, choice, advice, and the two-variable
  environment that child processes inherit, as a state machine over arbitrary runs.
* **Kernel diff** (`KernelDiff`). Canonical numbering of namesakes and the pairing of renamed kernels.
* **Property list** (`PlistReader`, `PlistPatch`, `PlistFraming`, `PlistWriter`, `PlistArchive`). A byte-level reader and
  the patch of one reference, with the framing proof that nothing else changes; a writer stated apart from the reader,
  the round trip through both, and the patch as an operation from written archives to written archives.

## Where the code and its promises part

Each promise below fails on the input of the named witness, and holds exactly under the condition given.

* The median comment promises the lowest index on tied numbers. `[5, 5, 5]` gives index 1 on every route
  (`TiedMedianIsNotLowest`). median keeps the promise exactly when the row holds a NaN or some entry with
  `(size - 1) / 2` strictly smaller ones in the row (`MedianIndexLowestExactly`), nanmedian exactly when the row
  holds no number or some number with `(numbers - 1) / 2` smaller ones (`NanMedianIndexLowestExactly`), the integer
  route exactly when some entry has `(size - 1) / 2` smaller ones (`IntegerIndexLowestExactly`).
* The count form of `searchsorted` is not always the binary search it stands for: on `[1, NaN, NaN]` a left search for 0
  ends past the NaNs (`NanTailSeparatesThem`). On a row with a NaN tail the two agree exactly when the insertion point
  is the end of the numbers, or the first midpoint at or past that point lies before the tail
  (`AgreeWithBinarySearch`); so on a row without NaN they always agree (`CountIsBinarySearch`).
* `build_rows` lists a key twice on one side when a group claims it there and the other side has it unclaimed, as the
  table does with `aten::mm` (`DoubleCountWitness`). A side's times add up exactly when the keys listed twice took no
  time (`TableAccounting`).
* The comparison promises to account for every kernel. A group without time on either side gets no row though its keys
  are claimed, so kernels of no duration can reach neither table (`HiddenKernelsWitness`). A side's kernel columns hold its
  kernels and once more those listed twice, less the kernels of the groups without time, and that loss is zero
  exactly when those groups have no kernels on the side (`TableCounts`).
* The pass flag of `deepest_ranges` promises to be true exactly inside the autograd engine's ranges. A range that starts
  as an autograd range ends inherits its flag (`TouchingSiblingIsMarked`). The flags of a thread are right exactly when
  everything that starts before an earlier backward range has ended, or as it ends, is in the backward pass
  (`MarksExactly`); strictly nested or separated ranges always are (`LaminarMarks`).
* `install_advice` can name an install that does not serve, for driver 10.2 with `sm_75`, for driver 14.0 with
  `sm_110` and for `sm_110` without a driver (`UnsoundAdvice`). An install advised for a driver is sound exactly when
  the driver's major is at least 11 and either has a wheel of its own or every architecture appeared before release
  13 (`AdviceSoundExactly`); without one exactly when every architecture appeared by 12.8 (`DriverlessAdvice`).
* `collect` loses a kernel exactly when a lone kernel is named like a numbered one (`Collect`), for example `k`,
  `k` and `k#1` (`HashedNamesCollide`).

## Model

| member | source | states |
|---|---|---|
| Convolution.ForwardGroup | torch_mojo_backend/aten_functions.py:2654-2687 | The NHWC/RSCF primitive between its permutes, restricted to one group's output channels, is the cross-correlation of that group's input channels with that group's filters over the zero-padded image |
| DataGradient.CorrelateIsMatMul | torch_mojo_backend/aten_functions.py:2734-2760 | Every forward output is a row of the reshaped weight matrix times a column of the patch matrix, through the div/mod reshapes |
| DataGradient.FoldThenCrop | torch_mojo_backend/aten_functions.py:2726-2739 | Folding into the padded image with zero padding and cropping places each column entry where folding with the border subtracted would |
| DataGradient.PlacementAdjoint | torch_mojo_backend/aten_functions.py:2761-2770 | Reading an image at a set of positions and adding values back at the same positions are adjoint, positions outside the image counting as zero |
| DataGradient.UngroupedAdjoint | torch_mojo_backend/aten_functions.py:2752-2778 | Any tensor holding the folded and cropped columns pairs with every input as the output gradient pairs with that input's convolution |
| ConvolutionBackward.GroupColumnsArePart | torch_mojo_backend/aten_functions.py:2753-2770 | The loop body applied to one split of weight and gradient gives that group's slice of the padded gradient |
| ConvolutionBackward.StackedPartsAdjoint | torch_mojo_backend/aten_functions.py:2771-2778 | Concatenating the group parts on the channel axis and cropping once is adjoint to the grouped forward mapping |
| ConvolutionBackward.Conv2dBackwardInput | torch_mojo_backend/aten_functions.py:2715-2778 | Raises exactly when the output channels do not split into more than one group; otherwise the result has the input's shape and `<conv(x, w), g> == <x, grad>` for every x of that shape |
| WeightGradient.ExchangedExtent | torch_mojo_backend/aten_functions.py:2794-2799 | The exchanged convolution is legal and its output is at least the kernel extent along each axis, so the crop never runs short |
| WeightGradient.TapsInside | torch_mojo_backend/aten_functions.py:2826-2838 | Every tap the crop keeps lies inside the padded image |
| WeightGradient.UngroupedWeightAdjoint | torch_mojo_backend/aten_functions.py:2792-2794 | A tensor holding the documented correlation sums pairs with every weight as the output gradient pairs with that weight's convolution |
| ConvolutionBackward.GroupWeightGradIsPart | torch_mojo_backend/aten_functions.py:2825-2838 | One group's exchanged, cropped and permuted convolution holds the correlation sums of that group's channels |
| ConvolutionBackward.Conv2dBackwardWeight | torch_mojo_backend/aten_functions.py:2781-2839 | Raises exactly when input or output channels do not split into more than one group; otherwise `<conv(x, v), g> == <v, grad>` for every weight v of the shape |
| ConvolutionBackward.AdjointsAgree | torch_mojo_backend/aten_functions.py:2715-2839 | Two gradients with the adjoint property agree in every cell, so the laws above fix the result completely |
| ConvolutionBackward.BiasAdjoint | torch_mojo_backend/aten_functions.py:2918-2923 | The forward mapping is affine in the bias and the gradient summed over batch and space is the adjoint of the bias broadcast |
| ConvolutionBackward.AtenConvolutionBackward | torch_mojo_backend/aten_functions.py:2843-2924 | Not implemented exactly for transposed calls or asymmetric padding; fails otherwise exactly when a requested gradient needs an uneven group split; each requested gradient, and no other, is returned and pairs with every input, weight or bias as the forward mapping demands |
| LengthConvolution.ForwardTurns | torch_mojo_backend/aten_functions.py:2610-2652 | The rank-3 forward mapping, which puts the length on H, equals cell by cell the rank-4 mapping with the length on W |
| LengthConvolution.AtenConvolutionBackward1 | torch_mojo_backend/aten_functions.py:2868-2890 | The rank-3 gradients, taken with the length on W and squeezed, are adjoint in input, weight and bias to the forward mapping that has it on H |
| GatherScatter.CoordsAreTargets | torch_mojo_backend/aten_functions.py:3516-3539 | For every rank the coordinate tensor holds at each position that position with the `dim` coordinate replaced by the index value |
| GatherScatter.GatherAt | torch_mojo_backend/aten_functions.py:3502-3513 | `out[i] == input[i with index[i] on axis dim]`, in the shape of the index |
| GatherScatter.FlatCoords | torch_mojo_backend/aten_functions.py:5476-5477 | Row u of the flattened coordinates is the target of the u-th position in row-major order |
| GatherScatter.ScatterAddAt | torch_mojo_backend/aten_functions.py:5462-5477 | The flattened scatter equals the loop `out[target] += src` over all positions, repeated targets included |
| GatherScatter.ScatterGatherPairing | torch_mojo_backend/aten_functions.py:5465-5468 | `<scatter_add(input, index, src), x> == <input, x> + <src, gather(x, index)>` |
| GatherScatter.ScatterGatherAdjoint | torch_mojo_backend/aten_functions.py:5465-5468 | Scattering into zeros is the adjoint of gathering, as the backward of gather must be |
| GatherScatter.ScatterConserves | torch_mojo_backend/aten_functions.py:5462-5477 | The total of the result is the total of the input plus the total of the source |
| GatherScatter.IndexAddLaws | torch_mojo_backend/aten_functions.py:3887-3904 | `index_add` adds, in pairing and in total, exactly alpha times the source through its broadcast one-dimensional index |
| GatherScatter.IndexAddAt | torch_mojo_backend/aten_functions.py:3887-3904 | Cell by cell: the input plus alpha times the sum of all source entries whose index value along `dim` sends them to the cell |
| BFloat16.BlockAffine | torch_mojo_backend/aten_functions.py:4664-4667 | Within a block of 2^16 patterns and up to the start of the next the magnitude is affine, across binade carries and subnormals |
| BFloat16.RoundsToNearestEven | torch_mojo_backend/aten_functions.py:4664-4667 | For every finite float32 the result is a bfloat16 (or infinity) of the same sign, no bfloat16 is nearer, and on a tie it is the even one |
| BFloat16.OverflowsExactly | torch_mojo_backend/aten_functions.py:4664-4667 | The result is infinite exactly from the overflow threshold of the standard on |
| BFloat16.RoundMonotone | torch_mojo_backend/aten_functions.py:4664-4667 | Rounding never reverses an order, infinities included |
| BFloat16.RoundFixesBFloats | torch_mojo_backend/aten_functions.py:4664-4667 | A pattern is fixed exactly when it is a bfloat16 |
| BFloat16.RoundTwice | torch_mojo_backend/aten_functions.py:4664-4667 | The result is a bfloat16 and rounding it again changes nothing |
| BFloat16.NaNSurvivesExactly | torch_mojo_backend/aten_functions.py:4664-4667 | Exactly which NaN patterns stay NaN |
| OrderStatistics.NanLastIsRowOrder | torch_mojo_backend/aten_functions.py:708-723 | The two stable passes compose to the one permutation ordered by (is-NaN, value, index), even where +inf values tie with the NaN key |
| OrderStatistics.RankOfEntry | torch_mojo_backend/aten_functions.py:633-658 | Entry m of a stable selection is the position with exactly m predecessors by (key, position) |
| OrderStatistics.IntegerRouteSameRank | torch_mojo_backend/aten_functions.py:740-741 | The k-th smallest route returns the entry of rank (size - 1) / 2 |
| OrderStatistics.MedianMeaning | torch_mojo_backend/aten_functions.py:726-758 | median gives NaN at its first position when the row has one, otherwise the entry of rank (size - 1) / 2 and its index |
| OrderStatistics.NanMedianMeaning | torch_mojo_backend/aten_functions.py:732-749 | nanmedian gives the entry of rank (numbers - 1) / 2 among the numbers, and NaN at index 0 for an all-NaN row |
| OrderStatistics.MedianExamples | torch_mojo_backend/aten_functions.py:729 | The lower middle of four values, with infinities at the ends, and of four integers |
| OrderStatistics.TiedMedianIsNotLowest | torch_mojo_backend/aten_functions.py:734 | On three equal numbers median, nanmedian and the integer route all return index 1, not the lowest |
| OrderStatistics.MedianIndexLowestExactly | torch_mojo_backend/aten_functions.py:734 | median's index is the lowest of its value exactly when the row holds a NaN or some entry with (size - 1) / 2 strictly smaller ones |
| OrderStatistics.NanMedianIndexLowestExactly | torch_mojo_backend/aten_functions.py:745-749 | nanmedian's index is the lowest of its value exactly when the row holds no number or some number with (numbers - 1) / 2 strictly smaller ones |
| OrderStatistics.IntegerIndexLowestExactly | torch_mojo_backend/aten_functions.py:740-741 | The integer route's index is the lowest of its value exactly when some entry has (size - 1) / 2 strictly smaller ones |
| SearchSorted.NumberValue | torch_mojo_backend/aten_functions.py:915-953 | On a nondecreasing numeric prefix with a NaN tail a number gets its insertion point in the prefix, and the full length exactly when that point is the prefix's end |
| SearchSorted.ImplInserts | torch_mojo_backend/aten_functions.py:923-953 | In the order of the values: before the left result every number is smaller and none after is, before the right result none is larger and every one after is; the full length when the point is the end of the numbers |
| SearchSorted.BisectInserts | torch_mojo_backend/aten_functions.py:930-933 | The binary search that serves as reference has the same two meanings on a nondecreasing numeric row |
| SearchSorted.TiesTellSides | torch_mojo_backend/aten_functions.py:923-928 | On [1, 2, 2, 3] the value 2 goes to 1 on the left and 3 on the right |
| SearchSorted.NanValue | torch_mojo_backend/aten_functions.py:929-936 | A NaN value always gets the full length |
| SearchSorted.CountIsBinarySearch | torch_mojo_backend/aten_functions.py:923-953 | Without NaN boundaries the masked count is the binary search, for every value and either side |
| SearchSorted.SplitUnique | torch_mojo_backend/aten_functions.py:923-928 | At most one position separates the advancing boundaries from the rest |
| SearchSorted.NanTailSeparatesThem | torch_mojo_backend/aten_functions.py:930-933 | A row where a plain binary search enters the NaN tail and the count does not |
| SearchSorted.AgreeWithBinarySearch | torch_mojo_backend/aten_functions.py:930-951 | On a NaN-tailed row, for every value and side, the count equals the whole row's binary search exactly when the insertion point is the end of the numbers or the first midpoint at or past it lies before the tail |
| IndexFormulas.TracedSliceBounds | torch_mojo_backend/aten_functions.py:191-213 | Succeeds exactly when the traced length is the length of the Python slice; then 0 <= start <= end <= size and stepping from start visits exactly the slice's positions |
| IndexFormulas.DiagonalEnumerates | torch_mojo_backend/aten_functions.py:2994-3009 | The gathered positions are exactly the in-range cells (r, r + offset), in row-major order |
| IndexFormulas.DiagonalInRange | torch_mojo_backend/aten_functions.py:2994-3009 | Every gathered position is in the plane and splits into its row and column |
| IndexFormulas.WindowsComplete | torch_mojo_backend/aten_functions.py:6038-6055 | Window w exists exactly when it fits completely, and all its indices are in bounds |
| IndexFormulas.TriIndices | torch_mojo_backend/aten_functions.py:6165-6188 | The two coordinate rows list exactly the triangle's cells in row-major order |
| IndexFormulas.TrianglesPartition | torch_mojo_backend/aten_functions.py:6165-6188 | The lower triangle at k and the upper one at k + 1 partition the grid |
| IdleGaps.Merge | current_bench/profile_nanogpt_train_aten.py:92-102 | From sorted nonempty intervals, merged intervals that are strictly separated and cover the same points, with the gaps between neighbours |
| IdleGaps.GpuIdleStats | current_bench/profile_nanogpt_train_aten.py:72-115 | Every reported figure in terms of the merged union: span, busy, idle as the sum of gaps, gap count one less than the intervals, the largest gap; all zero without activity |
| IdleGaps.KeptMeans | current_bench/profile_nanogpt_train_aten.py:73-79 | The intervals taken are exactly the GPU activities of positive length, as many as there are |
| IdleGaps.CountOverMeans | current_bench/profile_nanogpt_train_aten.py:113 | The long gaps counted are those of at least the limit |
| IdleGaps.BusyPlusGapsIsSpan | current_bench/profile_nanogpt_train_aten.py:104-114 | Covered length plus gaps is the distance from first start to last end |
| IdleGaps.BusyIsMeasure | current_bench/profile_nanogpt_train_aten.py:105 | Busy time is the measure of the union of the input intervals, taken by any subdivision through their endpoints |
| IdleGaps.MergedEndpoints | current_bench/profile_gpt2_generate_aten.py:111-153 | Merged endpoints are endpoints of input intervals |
| RangeNesting.ChainSurvives | current_bench/compare_nanogpt_train_kernels.py:207-211 | Everything enclosing the next range was on the stack after the previous one |
| RangeNesting.PushCompletes | current_bench/compare_nanogpt_train_kernels.py:210-214 | After the pops and the push the stack is exactly the enclosing chain, outermost first |
| RangeNesting.ChainFlag | current_bench/compare_nanogpt_train_kernels.py:212-213 | On nested ranges the flag says exactly whether the enclosing chain holds an autograd range, that is, whether the range is in the backward pass |
| RangeNesting.MarksExactly | current_bench/compare_nanogpt_train_kernels.py:187-213 | On any thread without negative durations, the flags say exactly which ranges are in the backward pass if and only if everything that starts before an earlier backward range has ended, or as it ends, is in that pass too |
| RangeNesting.TouchingMarksExactly | current_bench/compare_nanogpt_train_kernels.py:187-213 | When ranges are nested or touch in an endpoint, the flags are right exactly when whatever starts where a backward range ends is itself in the backward pass |
| RangeNesting.LaminarMarks | current_bench/compare_nanogpt_train_kernels.py:187-190 | On strictly nested or separated ranges the flags say exactly which ranges are in the backward pass |
| RangeNesting.TouchingSiblingIsMarked | current_bench/compare_nanogpt_train_kernels.py:210-213 | A sibling that starts as an autograd range ends is flagged without being in the backward pass |
| RangeNesting.SweepThread | current_bench/compare_nanogpt_train_kernels.py:202-215 | One thread, whatever its ranges: exactly its ids are written, others keep their entry, and each id holds its last range of the sweep with the flag of the nearest earlier range still open |
| RangeNesting.InnermostIsWritten | current_bench/compare_nanogpt_train_kernels.py:184-191 | An id shared by a nested chain maps to the innermost range and its flag |
| RangeNesting.DeepestRanges | current_bench/compare_nanogpt_train_kernels.py:184-216 | For every thread, each id that no thread of later first appearance uses maps to its innermost range there and that range's flag, which on nested ranges is its pass; so of threads sharing an id the last to appear wins. The keys are exactly the ids in use |
| RangeNesting.ThreadRangesMean | current_bench/compare_nanogpt_train_kernels.py:192-198 | A thread's ranges are exactly its CPU operations and annotations that carry an External id, with their start, end and name |
| RangeNesting.AutogradMeans | current_bench/compare_nanogpt_train_kernels.py:213 | A range is the engine's own exactly when its name begins with the engine's prefix |
| KernelAttribution.Charge | current_bench/compare_nanogpt_train_kernels.py:232-238 | One kernel changes exactly its owner's object, by its duration, one count and one entry of the per-name times |
| KernelAttribution.Attribute | current_bench/compare_nanogpt_train_kernels.py:219-239 | The result records for every owner exactly the time, count and per-name times of the kernels it owns, one object each, and the total |
| KernelAttribution.KernelTotalsMean | current_bench/compare_nanogpt_train_kernels.py:223-228 | Total time and count are the sum and the number of the events of category kernel |
| ComparisonRows.OwnerReadsBack | current_bench/compare_nanogpt_train_kernels.py:229-231 | The owner key of a kernel gives back its range's name and pass; an unowned kernel goes to the unattributed key |
| ComparisonRows.OwnersShared | current_bench/compare_nanogpt_train_kernels.py:231 | Two ranges share an owner key exactly when name and pass agree, or one name is the other with the tag |
| KernelAttribution.AttributionConserves | current_bench/compare_nanogpt_train_kernels.py:219-239 | Owner times sum to the total kernel time and owner counts to the number of kernels |
| KernelAttribution.NamesConserve | current_bench/compare_nanogpt_train_kernels.py:235-238 | Within an owner the per-name times sum to the owner's time |
| ComparisonRows.MatchingKeys | current_bench/compare_nanogpt_train_kernels.py:250-265 | The loop with its early continues finds exactly the keys whose base name and pass the group asks for |
| ComparisonRows.BackwardKeys | current_bench/compare_nanogpt_train_kernels.py:254-256 | A key is backward exactly when it is some name with the tag, and its base is that name |
| ComparisonRows.GroupClaims | current_bench/compare_nanogpt_train_kernels.py:250-265 | A group claims a range's kernels exactly when it asks for the range's name and for its pass or any |
| ComparisonRows.GroupTotal | current_bench/compare_nanogpt_train_kernels.py:268-269 | The sums over the keys do not depend on the order they are taken in |
| ComparisonRows.BuildRows | current_bench/compare_nanogpt_train_kernels.py:304-348 | One row for each group with time, in order, with that group's own times and counts on each side; then one row per unclaimed name in name order; the time column sums of both tables |
| ComparisonRows.ResidualRowsMean | current_bench/compare_nanogpt_train_kernels.py:332-345 | Each residual row carries its own name, both sides' times and counts, zero where the side lacks it, and their difference |
| ComparisonRows.GroupTimeCoversClaims | current_bench/compare_nanogpt_train_kernels.py:310-317 | Group rows account for every claimed key at least once, and exactly once when no name is asked for twice in a pass |
| ComparisonRows.SideAccounting | current_bench/compare_nanogpt_train_kernels.py:304-348 | A side's rows add up to at least its total; with disjoint groups the excess is exactly the time of keys claimed here and unclaimed there, and zero exactly when those took no time |
| ComparisonRows.KernelColumns | current_bench/compare_nanogpt_train_kernels.py:325-345 | The kernel columns of the two tables sum to the kernels of the groups with a row and of the residual names |
| ComparisonGroups.TableIsDisjoint | current_bench/compare_nanogpt_train_kernels.py:40-159 | The group table asks for no name twice in a pass, on either side |
| ComparisonGroups.TableAccounting | current_bench/compare_nanogpt_train_kernels.py:304-348 | With that table each side's rows add up to its total plus the time of the keys listed twice, and to the total exactly when those took no time |
| ComparisonGroups.DoubleCountWitness | current_bench/compare_nanogpt_train_kernels.py:310-334 | Two one-key traces for which the table lists the time of `aten::mm` twice |
| ComparisonGroups.TableCounts | current_bench/compare_nanogpt_train_kernels.py:304-348 | With that table each side's kernel columns hold its kernels plus those of the keys listed twice, less those of groups without time, a loss that is zero exactly when such groups have no kernels on that side |
| ComparisonGroups.HiddenKernelsWitness | current_bench/compare_nanogpt_train_kernels.py:315-318 | Three kernels of no duration that reach neither table |
| PtxasRules.NeedsMeaning | torch_mojo_backend/_ptxas.py:137-147 | A release targets every architecture exactly when it lies between the latest first release and the earliest last major |
| PtxasRules.FirstMaximum | torch_mojo_backend/_ptxas.py:515 | The first of the highest-ranked candidates |
| PtxasRules.Choose | torch_mojo_backend/_ptxas.py:492-515 | The choice and the rejected candidates with their reasons, in order |
| PtxasRules.ChoiceMeaning | torch_mojo_backend/_ptxas.py:465-515 | Nothing is chosen exactly when all are rejected; what is chosen is accepted, of maximal release, unknown releases only when no known one fits |
| PtxasRules.AcceptanceMeans | torch_mojo_backend/_ptxas.py:465-489 | A candidate is accepted exactly when its major is within the driver's and the tables or its help cover the needs, an empty list being no objection; without a version exactly when built in |
| PtxasRules.ReasonsMean | torch_mojo_backend/_ptxas.py:475-489 | Too new exactly above the driver's major; too old names exactly the targets that are missing |
| PtxasRules.AcceptedExample | torch_mojo_backend/_ptxas.py:475-489 | An assembler of the driver's own major that lists the `a` form is accepted, one that lists only the plain form or is a major newer is not |
| PtxasRules.NewestExample | torch_mojo_backend/_ptxas.py:515 | Of two patches of one release the newer is chosen, wherever it stands |
| PtxasRules.RefusalsExact | torch_mojo_backend/_ptxas.py:529-546 | "No release" is said exactly when no release targets the architectures on any driver, "update the driver" exactly when one does but none on this driver |
| PtxasRules.AdviceSoundExactly | torch_mojo_backend/_ptxas.py:547-549 | The advised project holds a release in the advised range and all such releases pass, exactly when the driver's major is at least 11 and has a wheel entry or every architecture appeared before release 13 |
| PtxasRules.AdviceIsAccepted | torch_mojo_backend/_ptxas.py:518-549 | A candidate of a release that a sound advice offers, whose help covers the needs, is accepted |
| PtxasRules.DroppedArchitectures | torch_mojo_backend/_ptxas.py:79-83 | An architecture that 13 dropped is sent to the 12 wheel even on a newer driver, and has no release in common with one that needs 13 |
| PtxasRules.OldDriverNote | torch_mojo_backend/_ptxas.py:550-555 | The note about an old driver is added exactly below major 12 |
| PtxasRules.UnsoundAdvice | torch_mojo_backend/_ptxas.py:518-556 | Three calls with advice that does not serve: an old driver, a driver newer than every wheel, no driver |
| PtxasRules.PastThePin | torch_mojo_backend/_ptxas.py:547-549 | An architecture that appeared after the pinned minor release is advised a range from its first release on |
| PtxasRules.DriverlessAdvice | torch_mojo_backend/_ptxas.py:522-524 | Without a driver the pinned wheel is advised; that is sound exactly when every architecture appeared by 12.8 |
| PtxasEnvironment.Process.ApplyDefault | torch_mojo_backend/_ptxas.py:642-665 | The whole environment after an import |
| PtxasEnvironment.ImportMeans | torch_mojo_backend/_ptxas.py:642-665 | A user's choice is untouched; without a driver the wheel's path is adopted if there is one; otherwise the best candidate within the driver's bound is in force and recorded, if there is one |
| PtxasEnvironment.ExplicitMeans | torch_mojo_backend/_ptxas.py:344-349 | A path counts as the user's exactly when it is set, not empty and not our own record |
| PtxasEnvironment.Process.CheckNow | torch_mojo_backend/_ptxas.py:700-747 | The outcome and the whole environment after a check at registration |
| PtxasEnvironment.OutcomesMean | torch_mojo_backend/_ptxas.py:700-747 | Nothing to pick exactly without driver or devices; otherwise kept or selected exactly when the setting, or else some candidate, is accepted, and warned or raised by the switch when not |
| PtxasEnvironment.SelectedExample | torch_mojo_backend/_ptxas.py:700-735 | The one assembler of the driver's own major that covers the GPU is selected |
| PtxasEnvironment.Process.Check | torch_mojo_backend/_ptxas.py:675-697 | The whole state after a check: unforced calls do nothing once one has passed or warned, and decide afresh after a refusal |
| PtxasEnvironment.UserChoiceStands | torch_mojo_backend/_ptxas.py:650-651 | Over any run of imports, checks and child processes a path of the user's own and the record beside it never change |
| PtxasEnvironment.NeverMistakenForUser | torch_mojo_backend/_ptxas.py:314-349 | Starting without a choice of the user's, `explicit_choice` finds none in any state of any run |
| PtxasEnvironment.CompletedCheck | torch_mojo_backend/_ptxas.py:700-747 | Anywhere in a run, a completed check leaves in force an accepted candidate of maximal release, or the user's own path, accepted and listed by discovery under it; a refusal changes nothing and repeats; without a setting it means every candidate is rejected |
| PtxasEnvironment.ChildReselects | torch_mojo_backend/_ptxas.py:327-334 | A child that inherits an automatic choice decides as from an empty environment and selects the same candidate |
| KernelDiff.Collect | scripts/compare_kernel_asm.py:426-451 | Every file becomes one kernel, namesakes numbered in sorted-body order, when no lone kernel is named like a numbered one; otherwise a kernel is lost |
| KernelDiff.PlainNamesApart | scripts/compare_kernel_asm.py:441-450 | Names without `#` never collide with numbered ones |
| KernelDiff.CollectedOrderFree | scripts/compare_kernel_asm.py:446-450 | The numbered kernels depend on the multiset of files only, not on their order |
| KernelDiff.ApartOrderFree | scripts/compare_kernel_asm.py:435-451 | Neither does the condition under which no kernel is lost |
| KernelDiff.HashedNamesCollide | scripts/compare_kernel_asm.py:449-450 | Three files for which no map can hold all numbered kernels |
| KernelDiff.CountRenamed | scripts/compare_kernel_asm.py:797-806 | The twin-popping loop counts, over all bodies, the smaller multiplicity among the leftovers, and the twins it pops are a one-to-one pairing of names with equal bodies of that size |
| KernelDiff.CompareVariant | scripts/compare_kernel_asm.py:783-809 | All counts of one variant: changed, renamed with a pairing that attains it, added, removed, also when a module exists on one side only |
| KernelDiff.RenamedIsMaximum | scripts/compare_kernel_asm.py:794-806 | No one-to-one pairing of leftover names with equal bodies is larger than the number renamed |
| KernelDiff.NothingReported | scripts/compare_kernel_asm.py:788-816 | The reported total is zero exactly when every shared name has the same body in both builds and the leftovers have equal multisets of bodies |
| KernelDiff.SameBuildReportsNothing | scripts/compare_kernel_asm.py:788-816 | A build reports nothing against itself |
| KernelDiff.SharedNamesSplit | scripts/compare_kernel_asm.py:788-793 | The shared names are those counted as changed and those with equal bodies |
| KernelDiff.NothingReportedSameBodies | scripts/compare_kernel_asm.py:788-816 | Then the two builds have equal multisets of bodies |
| KernelDiff.CompareBuilds | scripts/compare_kernel_asm.py:762-816 | The nested loops over modules and built variants sum exactly what each variant reports |
| KernelDiff.NothingReportedAnywhere | scripts/compare_kernel_asm.py:776-816 | The total is zero exactly when no variant reports anything, and then every built variant, one-sided ones included, has equal multisets of bodies |
| KernelDiff.SwappedBodiesAreReported | scripts/compare_kernel_asm.py:788-792 | Equal multisets of bodies alone do not give a zero total |
| PlistReader.FromToBytes | current_bench/apple_gpu_clock_lock.py:246-248 | Writing a number that fits and reading it back gives the number, for every width |
| PlistReader.InfoReadsExtent | current_bench/apple_gpu_clock_lock.py:87-154 | Parsing an object depends on no byte outside its extent, for every marker, length form and error |
| PlistWriter.ObjectReads | current_bench/apple_gpu_clock_lock.py:75-154 | Every written object, in every length form and reference size and at any offset, reads back as itself: booleans, signed and unsigned integers, ASCII and UTF-16 strings, uids, arrays, dictionaries with keys before values |
| PlistWriter.AsciiExactly | current_bench/apple_gpu_clock_lock.py:110-113 | Decoding ASCII succeeds exactly on the bytes the writer writes for the result |
| PlistWriter.Utf16Exactly | current_bench/apple_gpu_clock_lock.py:114-117 | Whatever UTF-16 decoding accepts is what the writer writes for the result, so lone surrogates and odd bytes are refused |
| PlistReader.ObjectErrors | current_bench/apple_gpu_clock_lock.py:87-154 | Reading past the end raises an index error, an unknown marker a value error, the kinds without a count never raise |
| PlistReader.ParseErrors | current_bench/apple_gpu_clock_lock.py:53-66 | A wrong header and a short file are told apart, everything else is parsed |
| PlistWriter.FileParses | current_bench/apple_gpu_clock_lock.py:53-73 | The constructor reads a written file's widths, count, top object and every offset |
| PlistWriter.FileObjects | current_bench/apple_gpu_clock_lock.py:87-154 | Every object of a written file reads as it was meant |
| PlistArchive.FileWellFormed | current_bench/apple_gpu_clock_lock.py:53-154 | Every written file is well formed in the sense the framing results assume |
| PlistArchive.Located | current_bench/apple_gpu_clock_lock.py:188-248 | In a written archive the searches find exactly the settings dictionary, its two arrays and slot, and the wrapper, as its objects say |
| PlistArchive.PatchWrites | current_bench/apple_gpu_clock_lock.py:229-262 | Patching the file of an archive gives exactly the file of the archive with that one reference repointed |
| PlistArchive.RepointedHoldsTarget | current_bench/apple_gpu_clock_lock.py:156-161 | In the repointed archive the setting's entry stands for the target |
| PlistPatch.FindDictWithKey | current_bench/apple_gpu_clock_lock.py:188-208 | The early-return scan finds the first matching dictionary, its arrays and its slot, or the first error on the way |
| PlistPatch.FindUidWrapperForInt | current_bench/apple_gpu_clock_lock.py:211-226 | The two scans find the first logical int and the first uid to it |
| PlistPatch.Patch | current_bench/apple_gpu_clock_lock.py:229-262 | The result or the exact error of every step, for every byte string |
| PlistPatch.SuccessReadsTarget | current_bench/apple_gpu_clock_lock.py:250-262 | For any bytes, a file that is returned reads back the target through the objects array of the source |
| PlistPatch.EqualsIntMeans | current_bench/apple_gpu_clock_lock.py:257 | The comparison with the target holds for that integer and for the booleans that equal it |
| PlistFraming.SameTable | current_bench/apple_gpu_clock_lock.py:53-73 | An overwrite clear of header, table and trailer leaves all the constructor reads unchanged |
| PlistFraming.RefsUpdated | current_bench/apple_gpu_clock_lock.py:245-248 | Overwriting a slot changes that reference and no other of the array |
| PlistFraming.OverwritePatches | current_bench/apple_gpu_clock_lock.py:245-251 | On a well-formed file the overwrite changes one element of one array object; every other object parses identically |
| PlistFraming.SearchStillFinds | current_bench/apple_gpu_clock_lock.py:251-255 | The search of the re-parse finds the same dictionary and slot |
| PlistFraming.PatchFrames | current_bench/apple_gpu_clock_lock.py:229-262 | Once the lookups succeed on a well-formed archive the patch succeeds, so neither verification error can be raised; length kept, bytes changed within one slot, all other objects unchanged |
| PlistFraming.PatchedFileReadsTarget | current_bench/apple_gpu_clock_lock.py:250-262 | The patched bytes, read from scratch, give the target value at the key |

## Left out

- Tensors: values are exact reals; rounding, dtypes, devices, layouts and symbolic dimensions are not modelled.
- Transposed convolution and a forward call with asymmetric padding; the validation of `output_mask` and of the input rank.
- GatherScatter.ScatterAddAt: source and index have one shape. ATen also allows a larger source; the flattened form needs equal counts, so such a call is outside the model.
- Order statistics and `searchsorted` are modelled on one row: `dim`, `keepdim`, transposes, shape and dtype errors, the sorter and the argument checks are not.
- PtxasRules.AdviceSoundExactly: which releases a wheel project holds is read off the table's comment, one major for each suffixed project and 13 or later for the renamed one.
- `_round_to_dtype` for dtypes other than bfloat16.
- IndexFormulas.TracedSliceBounds: the traced branches are taken at their concrete truth values, and the step is at least one.
- The reshape plumbing around `diagonal` and `unfold`; only the index formulas are modelled.
- `aten_tril`, `aten_triu`, `argmax`, `argmin` and general tensor indexing.
- Step scaling, the top-kernel column, ratio formatting, rendering and CSV output of the comparison.
- PtxasEnvironment.Process.CheckNow: driver, devices and candidates are inputs; finding them, the report text, tracing and warnings are not modelled. Architecture names are (number, suffix) pairs rather than strings.
- Build failures and empty variants of the kernel diff count as nothing; printing is not modelled, nor is the regular-expression stripping that precedes the pairing.
- PlistPatch.Patch: the byte buffer is a sequence the method reassigns, because slice assignment past the end of a Python bytearray changes its length; aliasing of the buffer is not captured.
- The template lookup and the cache around the patch.
