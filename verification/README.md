# BesTLA in Dafny

A model of the blocked-GEMM library BesTLA (`bestla/bestla`) with proofs that the tiled, threaded, packed and quantised
computation is the plain matrix formula. `dafny verify dfyconfig.toml` checks everything.

What is modelled, in the library's own terms:

* **Schedulers** split an M by N (by K) problem over T threads and choose the M, N and K blocks under a cache budget.
  `Scheduler2D.dfy` has the two-dimensional splitter, `GemmScheduler.dfy` the three GEMM schedulers with both of their
  blocking branches, `SchedulerChoice.dfy` in what sense their split and blocks are the best. Float formulas are read over exact rationals, casts as floors, and `size_t` subtraction wraps
  modulo 2^64; the proofs show where it does not, and for the memory blocking of `SchedulerBase` what it does if it wraps.
* **Weights** are packed into the padded, interleaved layout by any number of threads, sliced for the launcher, unpacked,
  and compressed to nibbles (`Layout.dfy`, `WeightPack.dfy`, `Int4.dfy`).
* **Kernels and launchers** are the loop nests over blocks, MTILE rows, K steps and the K tail, on scratch buffers, with
  "the first K step initialises, later ones accumulate" (`GemmKernel.dfy`, `GemmLauncher.dfy`, `KBlockLauncher.dfy`,
  `IntKBlockKernel.dfy`, `IntKBlockLauncher.dfy`). A lane of a kernel is modelled by the addresses it reads and the
  products it adds.
* **Whole runs**: `GemmRun.dfy` puts scheduler, packing, kernel and launcher together, and `KBlockRun.dfy` the two K-block
  schedulers with their launchers; `ThreadedRun.dfy` is the run that first quantises the activations, as a state machine
  whose threads interleave freely around a barrier, and `QuantisedRun.dfy` that run with the real quantiser and product.
  `BlockSums.dfy` computes the block sums that zero points are removed with, `ReducedRun.dfy` the runs that use them.
* **Quantisation** over the reals: block quantiser, zero-point removal, K-block scales and the splitting of a K block,
  double quantisation of scales, dequantisers that walk the blocks in three phases (`QuantizeU8.dfy`, `ZeroPoint.dfy`,
  `DoubleQuant.dfy`, `BlockWalk.dfy`, `TileWindow.dfy`), and the shuffling of K (`Shuffle.dfy`).
* **Storage**: weights serialised to bytes at an address, where the padding of every buffer depends on that address
  (`Storage.dfy`, `StoredWeight.dfy`).

GEMM elements are reals, which contain the integers; sizes and addresses are unbounded integers. Code that updates
arrays or fields is modelled by methods on arrays and by classes, each proved against a function or predicate about
which the lemmas then speak. `GemmCore.dfy` holds the compile-time parameters of a core, `Dot.dfy` the dot product all
results are stated with, `Utils.dfy` the arithmetic.

Where the code does not do what a general statement would say, the exact condition is proved instead:

* with an empty K, C is left as it was instead of being cleared: it is the product exactly when K is positive or it was
  zero before (`PackAndMultiply`);
* what `SchedulerBase` asserts after memory blocking holds from an L1 size on that is computed from the share, and fails
  in general when the C strip of the share is longer than L1 (`MemoryAssertsFrom`, `MemoryAsserts`, `StripTooLong`);
* the K block `SchedulerKBlock` chooses suits `LauncherKBlock` and its scratch buffers exactly for the sizes of
  `SplitUsableIff` and `DepthUsableIff`; a short K that is no KTILE multiple overruns tmpB (`UnalignedKOverruns`);
* the cache region behind tmpC overruns the stack buffer unless the address and all region sizes are multiples of 64
  (`CacheExtent`, `CacheOverrun`), and the regions of `LauncherKBlock` do unless they fit rounded up (`KRegionsFit`);
* `resize` of a float weight leaves shuffle indices it already has out of the announced size, which then is too small
  exactly when they do not fit into unused padding (`FloatSize`, `ResizeAfterShuffle`);
* the sums that follow a reordering of the activations are read with the wrong row stride unless lda is the padded K
  (`ReducePlace`);
* full-range int4 padding reads back as -8, so a K tail is zero only for clip codes (`PaddingCode`, `TailZeroIff`);
* the block sum of the u8 quantiser is off by one scale for a clamped code (`ReduceIsSum`), and an all-zero partial block
  divides by zero (`ScaleZero`);
* the tail of a double quantisation overwrites the stored mean (`DoubleQuant`).

A comment at `bestla/bestla/bestla_parallel.h:295-296` says that the K block of `SchedulerKBlock` is a multiple or a
factor of KBlock. The code takes a short K whole and rounds KBlock over the split down to KTILE, so it is neither in
general (`KBlockSplitNeither`, and exactly when in `PromiseKeptIff`); the model follows the code (`KBlockSplitFits`).

## Model

| member | source | states |
|---|---|---|
| GemmPipeline.PackAndMultiply | bestla/bestla/bestla_parallel.h:658-675 | pack B with one thread count, multiply with another: for all sizes, orders of threads and tile shapes, on caches that hold one minimal tile of the split the search settles on, C is exactly A times B, each element stored exactly once, and nothing else of the C array changes; with an empty K nothing is stored |
| GemmPipeline.GemmRun | bestla/bestla/bestla_parallel.h:658-675 | with packed B given: scheduler, per-thread rectangles and launcher together leave C equal to the product, each element written once |
| GemmPipeline.Multiply | bestla/bestla/bestla_parallel.h:658-675 | the same for a problem that is not empty and a buffer packed from B |
| GemmPipeline.RunThread | bestla/bestla/bestla_wrapper.h:53-71 | one thread with its own scratch memory turns exactly its rectangle of C into the product |
| GemmPipeline.ConfigOf | bestla/bestla/bestla_parallel.h:142-149 | the blocks a scheduler object ends with and the rectangle it hands out meet every condition the launcher relies on |
| GemmPipeline.RegionsFit | bestla/bestla/bestla_wrapper.h:53-63 | within the scheduler's budget, tmpB, tmpA and tmpC are 64-aligned, disjoint and inside the stack buffer at any base address |
| GemmPipeline.CacheExtent | bestla/bestla/bestla_wrapper.h:62-63 | the cache handed on behind them stays inside the buffer if and only if the buffer address and the three region sizes are multiples of 64 |
| GemmPipeline.CacheOverrun | bestla/bestla/bestla_wrapper.h:54-63 | with a buffer aligned to 16 bytes and not to 64 it always overruns |
| Scheduling.ExactCover | bestla/bestla/bestla_parallel.h:49-64 | every element of the problem lies in the rectangle of exactly one thread id, namely its owner, and that id is below the valid count |
| Scheduling.RectangleShape | bestla/bestla/bestla_parallel.h:49-64 | each rectangle given to a valid id is non-empty, step-aligned, inside the problem, and whole unless it touches the far edge |
| Scheduling.Disjoint | bestla/bestla/bestla_parallel.h:49-64 | two ids that are given the same element are the same id |
| Scheduling.ThreadBudget | bestla/bestla/bestla_parallel.h:90-106 | with p columns of threads and ceil(r*p/T) tile rows each, p*ceil(r/ceil(r*p/T)) never exceeds T |
| Scheduling.ScheduleTiles | bestla/bestla/bestla_parallel.h:90-109 | for every problem, step and thread count the grid is a tiling by whole steps on at most T threads |
| Scheduling.ThreadsUsed | bestla/bestla/bestla_parallel.h:90-106 | every tile has its own thread if there are no more tiles than threads, otherwise more than half of the threads work |
| Scheduling.FewestTiles | bestla/bestla/bestla_parallel.h:90-106 | a thread takes the fewest columns of tiles of which T threads take all tiles, or all columns, and then the fewest rows |
| Scheduling.RatioFields | bestla/bestla/bestla_parallel.h:94-104 | the float ratio formulas, read over exact rationals, give the integer grid |
| Scheduling.ColRatio | bestla/bestla/bestla_parallel.h:97-99 | the column ratio, capped at the column count, is the integer number of tile columns per thread |
| Scheduling.Scheduler2D.constructor | bestla/bestla/bestla_parallel.h:66-73 | the object's fields are the integer grid, hence a tiling |
| Scheduling.Scheduler2D.DoSchedule | bestla/bestla/bestla_parallel.h:90-106 | schedule leaves the fields of the integer grid |
| Scheduling.Scheduler2D.CalcValidThreads | bestla/bestla/bestla_parallel.h:107-109 | the valid count is rows of rectangles times rectangles per row |
| Scheduling.Scheduler2D.GetThreadProblem | bestla/bestla/bestla_parallel.h:49-64 | getIndex gives each id the rectangle the tiling lemmas speak of, and marks ids from the valid count on as idle |
| GemmScheduling.GemmScheduler.constructor | bestla/bestla/bestla_parallel.h:151-168 | after update the object holds the split the search settles on, a tiling on 1..T threads and the blocks of its branch; on Ready caches the blocks suit the launcher and the L2 use is within what update asserts, for every kind and branch; an empty problem gets no thread |
| GemmScheduling.GemmScheduler.DoSchedule | bestla/bestla/bestla_parallel.h:179-207 | the code ends with exactly that split, tiling, blocks and L2 use |
| GemmScheduling.BlocksHold | bestla/bestla/bestla_parallel.h:163-166 | the blocks fit the share, suit the launcher and keep the L2 budget that update asserts, for all three kinds and both branches |
| GemmScheduling.GemmScheduler.SearchSplit | bestla/bestla/bestla_parallel.h:183-199 | the loop finds the split of ChosenRows, which BestSplit shows to be the best |
| SchedulerChoices.BestSplit | bestla/bestla/bestla_parallel.h:183-199 | of all splits into i by T/i and T/i by i threads, i up to the square root of T, the one settled on has the highest score; it is one of them, and where scores tie the first |
| SchedulerChoices.ScoreIs | bestla/bestla/bestla_parallel.h:210-218 | the score is the share of the threads at work and, from density 16 on, 0.0016 times n*m/(n+m) for the rows and at most PREFERRED_N columns of a share |
| SchedulerChoices.ShareIsLeast | bestla/bestla/bestla_parallel.h:220-225 | on each axis a share is the least whole number of tiles of which ny, or nx, cover the problem |
| GemmScheduling.ScorePositive | bestla/bestla/bestla_parallel.h:210-218 | every score exceeds the starting score, so a split is always found |
| GemmScheduling.GemmScheduler.CalculateScore | bestla/bestla/bestla_parallel.h:210-218 | the score is the one the search is specified with |
| GemmScheduling.GemmScheduler.GenerateByCores | bestla/bestla/bestla_parallel.h:220-225 | a split ny by nx with ny*nx <= T gives a tiling on at least one and at most T threads |
| GemmScheduling.CoresGridTiles | bestla/bestla/bestla_parallel.h:220-225 | the same for the grid as a value, with each thread's share no larger than the padded problem |
| GemmScheduling.BlockMNFits | bestla/bestla/bestla_parallel.h:240-261 | compute blocking's M and N blocks are positive whole tiles within the share and leave room for KREF-deep operands |
| SchedulerChoices.SpreadIsEven | bestla/bestla/bestla_parallel.h:245-261 | a block is the one with which the share falls into the fewest blocks that fit, and no smaller block does with as few |
| SchedulerChoices.ComputeMN | bestla/bestla/bestla_parallel.h:240-261 | for SchedulerBase and SchedulerKBlockS: the fewest and most even M blocks for which the use that update asserts, KREF deep and PREFERRED_N wide, is within the budget, and then the N blocks likewise |
| SchedulerChoices.ChosenCompute | bestla/bestla/bestla_parallel.h:227-235 | so it is for the blocks of update whenever M*N exceeds sixteen times M+N |
| SchedulerChoices.DensityIff | bestla/bestla/bestla_parallel.h:227-235 | memory blocking is taken if and only if M*N is at most sixteen times M+N |
| GemmScheduling.BaseComputeFits | bestla/bestla/bestla_parallel.h:240-267 | SchedulerBase compute blocking: positive, tile-aligned blocks, K block a KTILE multiple within padded K, L2 use at most L2 less 32K |
| SchedulerChoices.BaseDeepest | bestla/bestla/bestla_parallel.h:262-267 | its K block is the deepest: a depth of whole KTILEs keeps the budget if and only if it is no deeper |
| GemmScheduling.GemmScheduler.BaseCacheBlockingCompute | bestla/bestla/bestla_parallel.h:240-267 | the size_t computation gives those blocks: no subtraction wraps |
| GemmScheduling.BaseMemoryFits | bestla/bestla/bestla_parallel.h:269-278 | SchedulerBase memory blocking fits L1, and its K block is positive if and only if the page-rounded B panel holds one KTILE by NTILE tile |
| SchedulerChoices.BaseMemoryMost | bestla/bestla/bestla_parallel.h:269-278 | it is the deepest in whole KTILEs within the panel of the deepest K that fits L1, cut to whole KB |
| GemmScheduling.MemoryAssertsFrom | bestla/bestla/bestla_parallel.h:269-278 | with the C strip inside L1, what update asserts holds if and only if L1 is at least MinL1: the strip and a page-rounded KTILE by NTILE panel with its operands |
| GemmScheduling.MemoryAsserts | bestla/bestla/bestla_parallel.h:269-278 | the same for every share, with size_t and int arithmetic as the machine does it: a longer strip passes only if the 32 bits left of the wrapped depth happen to be small and positive |
| GemmScheduling.BaseUpdateAsserts | bestla/bestla/bestla_parallel.h:163-166 | for a problem, thread count and L1: update's assertions after memory blocking hold if and only if that condition does for the share the search settles on |
| GemmScheduling.BaseMemoryExact | bestla/bestla/bestla_parallel.h:269-278 | if the strip fits L1 nothing wraps or is cut |
| GemmScheduling.StripTooLong | bestla/bestla/bestla_parallel.h:269-278 | the scheduler at a failing input: 176 x 16 on one thread and 32 KB of L1 gives a K block of 1227133509 and an L2 use beyond any L2 |
| GemmScheduling.GemmScheduler.BaseCacheBlockingMemory | bestla/bestla/bestla_parallel.h:269-278 | the code computes the blocks of the lemmas above, wrapped or not |
| GemmScheduling.KBlockSComputeFits | bestla/bestla/bestla_parallel.h:502-543 | SchedulerKBlockS compute blocking: positive blocks, K block a KTILE multiple that is within one K block or a multiple of it, L2 use with all scale, zero-point and sum bytes at most L2 less 32K |
| SchedulerChoices.KBlockSDeepest | bestla/bestla/bestla_parallel.h:528-542 | its K block is the deepest the launcher can use, through whichever formula: an admissible depth keeps the budget with all corrections if and only if it is no deeper |
| GemmScheduling.KBlockSRoom | bestla/bestla/bestla_parallel.h:503-537 | before rounding, the K block is at least KREF through either formula, and both divisions have room |
| GemmScheduling.RawKBudget | bestla/bestla/bestla_parallel.h:529-537 | both K formulas stay within the room; when the second is used one K block of corrections is in flight |
| GemmScheduling.FirstFormula | bestla/bestla/bestla_parallel.h:529-532 | the first formula: b2 rows and the corrections of ceil(b2/KBlock) blocks fit |
| GemmScheduling.SecondFormula | bestla/bestla/bestla_parallel.h:533-537 | the second formula is used only when a whole K block does not fit, and its result is within one K block |
| GemmScheduling.RawKRational | bestla/bestla/bestla_parallel.h:529-532 | the formula with the float divisor, over exact rationals, is integer floor division |
| GemmScheduling.GemmScheduler.KBlockSCacheBlockingCompute | bestla/bestla/bestla_parallel.h:502-543 | the size_t and float computation gives those blocks: nothing wraps |
| GemmScheduling.GemmScheduler.RawK | bestla/bestla/bestla_parallel.h:529-537 | the two rawk formulas compute the bounded value |
| GemmScheduling.KBlockSMemoryFits | bestla/bestla/bestla_parallel.h:545-579 | SchedulerKBlockS memory blocking: whole tiles, K block a positive KTILE multiple within one K block, L2 use at most L1, or twice L1 when KBlock is at most 32 and above the reference depth |
| SchedulerChoices.KBlockSMemoryMost | bestla/bestla/bestla_parallel.h:545-579 | the most whole tiles of columns that fit at the reference depth, or all columns with the deepest K that fits |
| GemmScheduling.KBlockSMemoryBudget | bestla/bestla/bestla_parallel.h:485-496 | the L2 assertion of update holds in that branch as well, corrections included, if L2 has room for that and one K block of corrections |
| GemmScheduling.GemmScheduler.KBlockSCacheBlockingMemory | bestla/bestla/bestla_parallel.h:545-579 | the size_t computation gives those blocks |
| GemmScheduling.SplitSearchStarts | bestla/bestla/bestla_parallel.h:403-411 | SchedulerKBlock's split search starts at one or more |
| GemmScheduling.DivisorBelowLargest | bestla/bestla/bestla_parallel.h:411-416 | the downward search stops at the largest divisor of KBlock not above its start |
| GemmScheduling.GemmScheduler.SplitK | bestla/bestla/bestla_parallel.h:403-419 | the search terminates and gives the K block of the lemma below |
| GemmScheduling.KBlockSplitFits | bestla/bestla/bestla_parallel.h:403-419 | the K block is K, or KBlock, or a KTILE multiple of at least KTILE within KBlock |
| SchedulerChoices.KBlockSplitMeans | bestla/bestla/bestla_parallel.h:403-419 | a short K whole, or KBlock, or KBlock in the most equal pieces of which at most sixteen make up K, rounded down to KTILE |
| GemmScheduling.KBlockSplitNeither | bestla/bestla/bestla_parallel.h:403-419 | two concrete problems whose K block is neither a multiple nor a factor of KBlock |
| KBlockPipeline.PromiseKeptIff | bestla/bestla/bestla_parallel.h:295-296 | the K block of compute blocking is a multiple or a factor of KBlock if and only if K and KBlock, or what rounding to KTILE drops, are commensurate |
| GemmScheduling.KBlockComputeFits | bestla/bestla/bestla_parallel.h:398-431 | SchedulerKBlock compute blocking: block shape and an L2 use, with two C blocks, within L2 |
| SchedulerChoices.KBlockComputeMN | bestla/bestla/bestla_parallel.h:420-431 | its M block is the fewest and most even one that fits beside PREFERRED_N columns or the whole share |
| GemmScheduling.GemmScheduler.KBlockCacheBlockingCompute | bestla/bestla/bestla_parallel.h:398-431 | the size_t computation gives those blocks |
| GemmScheduling.DivisorFromLeast | bestla/bestla/bestla_parallel.h:456-457 | the upward search stops at the least divisor of KBlock not below its start, hence within KBlock |
| GemmScheduling.ExactFactor | bestla/bestla/bestla_parallel.h:455-458 | block[2] times the divisor found is KBlock exactly, and block[2] is no larger than what fitted |
| GemmScheduling.GemmScheduler.SearchFactor | bestla/bestla/bestla_parallel.h:455-458 | the while loop terminates with that factor |
| GemmScheduling.KBlockMemoryFits | bestla/bestla/bestla_parallel.h:433-460 | SchedulerKBlock memory blocking: block shape, L1 kept with two C blocks, and a K block that divides KBlock when all columns fit |
| SchedulerChoices.KBlockMemoryMost | bestla/bestla/bestla_parallel.h:433-460 | the most whole tiles of columns that fit at the reference depth, or all columns and the deepest divisor of KBlock that fits |
| GemmScheduling.GemmScheduler.KBlockCacheBlockingMemory | bestla/bestla/bestla_parallel.h:433-460 | the size_t computation gives those blocks |
| GemmScheduling.GemmScheduler.FitColumns | bestla/bestla/bestla_parallel.h:441-454 | getMaxK rounded to KTILE is positive and fits |
| Layouts.Layout.IdxInjective | bestla/bestla/kernel_ref.h:44-55 | different elements have different places in the packed buffer |
| Layouts.Layout.IdxSurjective | bestla/bestla/kernel_ref.h:44-55 | every place of a KPad by NPad buffer stores an element: with injectivity, the index map is a bijection |
| Layouts.Layout.Address | bestla/bestla/kernel_ref.h:48-48 | the flat address the interleaving loops compute inside any tile-aligned slice is the place of the element |
| Layouts.Layout.PanelSplit | bestla/bestla/bestla_prologue_b.h:95-105 | a place is a column panel and an offset in it that does not depend on the padding |
| WeightPacking.PaddingInterleave | bestla/bestla/kernel_ref.h:40-57 | exactly the slice is overwritten: source elements at their places, zero for all padding |
| WeightPacking.RevertPaddingInterleave | bestla/bestla/kernel_ref.h:62-80 | the row-major window gets the packed elements; everything else in the target is untouched |
| WeightPacking.Memcpy2D | bestla/bestla/kernel_ref.h:765-786 | the row by col window is copied, each of its places stored to once and no other place |
| WeightPacking.PaddedAxis | bestla/bestla/bestla_prologue_b.h:84-85 | padding a thread's share to whole tiles gives the share of the padded matrix, without reaching into a neighbour |
| WeightPacking.PackThread | bestla/bestla/bestla_prologue_b.h:82-93 | one thread fills exactly its share of the padded matrix |
| WeightPacking.PackWeight | bestla/bestla/bestla_prologue_b.h:537-557 | for every thread count and order the buffer ends as the zero-padded packing of the matrix |
| WeightPacking.PackedUnique | bestla/bestla/bestla_prologue_b.h:537-557 | that packing is unique: thread counts and orders leave no trace |
| WeightPacking.GetWeight | bestla/bestla/bestla_prologue_b.h:818-828 | any tile-aligned slice comes out packed for the slice alone, element by element |
| WeightPacking.UnpackThread | bestla/bestla/bestla_prologue_b.h:210-230 | one thread writes the elements of its rectangle and nothing else |
| WeightPacking.UnpackWeight | bestla/bestla/bestla_prologue_b.h:210-230 | for every thread count and order the K by N window receives the packed elements and nothing else of the target changes |
| WeightPacking.PackThenUnpack | bestla/bestla/bestla_prologue_b.h:210-230 | packing with t1 threads and unpacking with t2 gives the matrix back, for all counts and orders |
| GemmKernel.Forward | bestla/bestla/bestla_gemm.h:1084-1125 | the kernel: every element of the m by n tile becomes its start value plus the products over K rounded up to whole KTILE steps; the rest of C is untouched |
| GemmKernel.KLoop | bestla/bestla/bestla_gemm.h:1127-1151 | the unrolled loop and the single steps, which test at their end, cover each KTILE step of the padded K once |
| GemmKernel.FmaStep | bestla/bestla/bestla_gemm.h:1153-1183 | one step adds KTILE products to each accumulator |
| GemmKernel.LaneAddress | bestla/bestla/bestla_gemm.h:1153-1183 | the byte a lane multiplies is the interleaved element (k, n) of the packed operand |
| GemmKernel.InitRegs | bestla/bestla/bestla_gemm.h:1185-1208 | accumulators start at zero or at the tile, as the init flag says |
| GemmKernel.WriteBack | bestla/bestla/bestla_gemm.h:1210-1222 | the strip is stored, later columns keep their start values |
| GemmLauncher.Run | bestla/bestla/bestla_wrapper.h:53-71 | the thread's rectangle of C becomes the product, each element written once, the rest of C untouched |
| GemmLauncher.RunBlock | bestla/bestla/bestla_wrapper.h:74-114 | one block of the rectangle, padding columns dropped |
| GemmLauncher.KBlocks | bestla/bestla/bestla_wrapper.h:78-111 | the K loop: on exit every cell of the block holds its whole product, the first step having initialised it |
| GemmLauncher.KStep | bestla/bestla/bestla_wrapper.h:79-110 | one K step moves every row group on by exactly the rows of that step |
| GemmLauncher.RowGroup | bestla/bestla/bestla_wrapper.h:87-110 | whole KTILE steps, then the K tail padded to one step |
| GemmLauncher.SliceParts | bestla/bestla/bestla_wrapper.h:91-109 | both kernel calls of a row group read the rows they should, with B zero on all padded rows |
| GemmLauncher.KTailSplit | bestla/bestla/bestla_wrapper.h:79-81 | what the two calls cover adds up to the padded K rows of the step |
| GemmLauncher.StepProduct | bestla/bestla/bestla_wrapper.h:96-108 | a kernel call continues the product of a cell by one step, whatever lies in the padding of A |
| GemmLauncher.WholeK | bestla/bestla/bestla_wrapper.h:78-111 | the padded rows of B add nothing to a product |
| GemmLauncher.GetActivation | bestla/bestla/bestla_prologue_a.h:43-59 | through the raw pointer or through a copy, the kernel sees the same part of A; padding of the copy is arbitrary |
| GemmLauncher.FetchWeight | bestla/bestla/bestla_wrapper.h:84-86 | the scratch copy of B holds the rows and columns of the block, zero where padded |
| GemmLauncher.Epilogue | bestla/bestla/bestla_epilogue.h:40-46 | the real rows and columns of the block go to C, each stored to once, as counted at the stores |
| KBlockLauncher.RunK | bestla/bestla/bestla_wrapper.h:150-176 | every element of the rectangle becomes the sum over K blocks of scale times block product, less zero points, which is the product with the dequantised weights; each written once, for K blocks shorter or longer than a K step, also when one step is all of an unaligned K and the scratch has room for its padded rows |
| KBlockPipeline.GemmRunKBlock | bestla/bestla/bestla_parallel.h:658-675 | SchedulerKBlock and LauncherKBlock together: whenever the K block of the branch taken suits the launcher (SuitsIff), a K that is no multiple of KBlock included, C becomes A times the dequantised weights, each element written once, in scratch buffers as large as the source makes them |
| KBlockPipeline.RunKThread | bestla/bestla/bestla_wrapper.h:150-176 | one thread with its own scratch of block[1] * block[2] and so on |
| KBlockPipeline.SplitUsableIff | bestla/bestla/bestla_parallel.h:403-419 | the K block of compute blocking suits the launcher and its tmpB if and only if a condition on K, KBlock and KTILE holds |
| KBlockPipeline.FactorLargest | bestla/bestla/bestla_parallel.h:455-458 | memory blocking takes the largest divisor of KBlock that fits |
| KBlockPipeline.FactorIsLargest | bestla/bestla/bestla_parallel.h:455-458 | the upward search for a cofactor leaves what a downward search for a divisor would find |
| KBlockPipeline.DepthUsableIff | bestla/bestla/bestla_parallel.h:451-459 | at the depth L1 leaves the K block of memory blocking suits the launcher if and only if, where KBlock fits, KTILE divides it, and where it does not, KBlock divides K and KTILE its largest divisor that fits |
| KBlockPipeline.FactorsUsableIff | bestla/bestla/bestla_parallel.h:451-459 | the same at every KTILE multiple from the least depth on that L1 leaves, as a condition on K, KBlock and KTILE alone |
| KBlockPipeline.AnyDepth | bestla/bestla/bestla_parallel.h:441-459 | sizes that meet it suit memory blocking on any L1 on which all columns fit |
| KBlockPipeline.SuitsIff | bestla/bestla/bestla_parallel.h:390-396 | the K block of the branch taken suits the launcher if and only if the condition of that branch holds |
| KBlockPipeline.UnalignedKOverruns | bestla/bestla/bestla_wrapper.h:153-160 | a short unaligned K is taken whole, and its padded rows do not fit tmpB: they reach into tmpA |
| KBlockPipeline.FiveHundred | bestla/bestla/bestla_parallel.h:406-407 | K = 500 with KTILE 32 is such a size |
| KBlockPipeline.KRegionsFit | bestla/bestla/bestla_wrapper.h:152-162 | the five regions are aligned and apart, and end inside the buffer if and only if L2 has room for them rounded up to 64 |
| KBlockPipeline.KRegionsUse | bestla/bestla/bestla_wrapper.h:152-160 | the four regions take exactly the L2 use SchedulerKBlock counts |
| KBlockPipeline.KRegionsOverrun | bestla/bestla/bestla_wrapper.h:152-162 | with all of L2 in use, which update allows, an unaligned buffer is overrun |
| KBlockLauncher.RunSmall | bestla/bestla/bestla_wrapper.h:179-229 | run_block leaves the whole dequantised product in the block |
| KBlockLauncher.RunPiece | bestla/bestla/bestla_wrapper.h:193-224 | one K block: its tile is initialised once, filled, and scaled once into the accumulator |
| KBlockLauncher.RunLarge | bestla/bestla/bestla_wrapper.h:231-281 | run_block_large leaves the whole dequantised product in the block |
| KBlockLauncher.LargeBlock | bestla/bestla/bestla_wrapper.h:238-277 | one long K block: cleared once, filled over several K steps, scaled once |
| KBlockLauncher.BlockTerm | bestla/bestla/kernel_ref.h:331-343 | the sum of dequantised weights of a block is scale times the code product less the zero point's share |
| KBlockLauncher.BlockAdvance | bestla/bestla/bestla_epilogue.h:121-137 | adding a scaled block product and removing the zero point extends the dequantised product by one K block |
| KBlockLauncher.BlockEpilogue | bestla/bestla/bestla_epilogue.h:121-137 | the block epilogue does that for every real column of the block |
| KBlockLauncher.AccumAlphaN | bestla/bestla/kernel_ref.h:1245-1258 | each cell takes alpha of its column times the source cell |
| KBlockLauncher.RemoveWeightBias | bestla/bestla/kernel_ref.h:1403-1412 | each cell loses zero point times scale of its column times the sum of its row |
| IntKBlockKernel.ForwardKBlock | bestla/bestla/bestla_gemm.h:2309-2353 | the kernel: every element of the tile becomes its start plus the scaled and corrected sum of each K block |
| IntKBlockKernel.KBlockLoop | bestla/bestla/bestla_gemm.h:2355-2395 | the loop over K blocks, which tests at its end, takes each block of the call once |
| IntKBlockKernel.SumBlock | bestla/bestla/bestla_gemm.h:2359-2386 | the integer accumulators are cleared and take exactly one K block |
| IntKBlockKernel.F32Accumulate | bestla/bestla/bestla_gemm.h:2438-2461 | scale of A times scale of B times the block sum is added |
| IntKBlockKernel.ZpCorrection | bestla/bestla/bestla_gemm.h:2463-2506 | zero point times scale times kscale times the block sum of B is subtracted, when there are zero points |
| IntKBlockLauncher.WholeProduct | bestla/bestla/bestla_gemm.h:2438-2506 | over a whole K block the corrected code product is the product of the dequantised matrices |
| IntKBlockLauncher.ValueStep | bestla/bestla/bestla_wrapper.h:431-472 | a piece of a K block adds its share: after any number of pieces the value is the scaled code product so far with exactly that share of the correction |
| IntKBlockLauncher.BlockEnd | bestla/bestla/bestla_wrapper.h:431-472 | when the pieces make up the block the shares sum to one and the value is the dequantised product |
| IntKBlockLauncher.WholeSums | bestla/bestla/bestla_wrapper.h:340-404 | a call on several whole K blocks moves the dequantised product on by those blocks |
| IntKBlockLauncher.PieceSum | bestla/bestla/bestla_wrapper.h:406-472 | a call on one piece of a K block moves the value on by that piece |
| IntKBlockLauncher.TileResult | bestla/bestla/bestla_wrapper.h:381-399 | after a kernel call the rows of its tile hold the next value and nothing else has changed |
| IntKBlockLauncher.FetchCells | bestla/bestla/bestla_prologue_b.h:635-662 | scales and sums come out packed for the slice, cell by cell |
| IntKBlockLauncher.GroupCaches | bestla/bestla/bestla_prologue_a.h:178-213 | the row group's scales and zero points are those of its rows and K blocks |
| IntKBlockLauncher.RunIntSmall | bestla/bestla/bestla_wrapper.h:340-404 | run_block: K steps of one or more whole K blocks leave the whole product |
| IntKBlockLauncher.RunIntLarge | bestla/bestla/bestla_wrapper.h:406-473 | run_largekblock: K steps shorter than a K block leave the whole product |
| IntKBlockLauncher.RunInt | bestla/bestla/bestla_wrapper.h:312-335 | both branches make the rectangle of C the sum over K blocks of sA*sB*sum (qA-zpA)*qB, each element written once |
| KBlockPipeline.GemmRunInt | bestla/bestla/bestla_parallel.h:658-675 | SchedulerKBlockS and LauncherIntKBlock together: if KTILE divides KBlock and KBlock divides K, C becomes the product of the dequantised matrices, each element written once |
| KBlockPipeline.IntRegionsFit | bestla/bestla/bestla_wrapper.h:340-363 | within the budget of SchedulerKBlockS all regions LauncherIntKBlock carves, the four for the corrections of one K step included, are 64-aligned, apart and inside the buffer at any address, with more than 31 KB left behind them; run_largekblock alike |
| BlockSums.Reduce | bestla/bestla/bestla_prologue_b.h:575-596 | for every thread count and order each sum is that of its K block, the last block ending with the matrix, and nothing else in the array of sums changes; the same for the activations |
| BlockSums.ReduceWeightThread | bestla/bestla/bestla_prologue_b.h:581-595 | a thread sums exactly the K blocks that start in its rectangle |
| BlockSums.RowReduceSum | bestla/bestla/kernel_ref.h:1364-1373 | the rows of one K block summed column by column |
| BlockSums.ColBlockReduceSum | bestla/bestla/kernel_ref.h:1376-1390 | the activations of a rectangle summed block by block |
| ReducedRuns.WeightSums | bestla/bestla/bestla_prologue_b.h:504-519 | the sums of the dequantised weights are what LauncherIntKBlock needs for the zero points of A |
| ReducedRuns.ActivationSums | bestla/bestla/bestla_prologue_a.h:262-271 | the sums of the activations are what LauncherKBlock needs for the zero points of B |
| ReducedRuns.ReduceAndRunInt | bestla/bestla/bestla_prologue_b.h:504-519 | sums on one grid of threads, GemmRun on another: C becomes the product of the dequantised matrices, no sum being assumed |
| ReducedRuns.ReduceAndRunKBlock | bestla/bestla/bestla_prologue_a.h:262-271 | the same with the sums of A and LauncherKBlock |
| ThreadedRun.RunInv | bestla/bestla/bestla_parallel.h:677-702 | the invariant holds in every reachable state of every interleaving |
| ThreadedRun.StepInv | bestla/bestla/bestla_parallel.h:677-702 | every step of any thread keeps it |
| ThreadedRun.GemmAfterQuantise | bestla/bestla/bestla_parallel.h:689-701 | in a reachable state, a thread in the GEMM phase implies every activation block is quantised with its final value |
| ThreadedRun.WritesDisjoint | bestla/bestla/bestla_parallel.h:689-701 | in each phase two threads never have the same cell to write, and a cell still to be written is not yet written |
| ThreadedRun.Progress | bestla/bestla/bestla_parallel.h:689-701 | no deadlock: while a thread is not done, some thread can step |
| ThreadedRun.StepCounts | bestla/bestla/bestla_parallel.h:689-701 | every step lowers the number of steps left by exactly one |
| ThreadedRun.EveryInterleaving | bestla/bestla/bestla_parallel.h:677-702 | every run that cannot be extended has all threads done and holds exactly what a single thread would compute |
| ThreadedRun.WholeBlocks | bestla/bestla/bestla_prologue_a.h:115-122 | an activation rectangle is whole K blocks: the owner of a block owns all its elements |
| ThreadedRun.SchedulersGivePlan | bestla/bestla/bestla_parallel.h:677-702 | the two schedulers the run uses give such a plan, for every size and thread count |
| QuantisedRun.EveryRunIsClose | bestla/bestla/bestla_parallel.h:677-702 | with the real quantiser and product: whatever the threads and the interleaving, every element ends as the product of the dequantised codes with the weights, off the exact product by at most half of a 255th of the range of each block times the weight, for any ranges that hold the blocks |
| QuantisedRun.LauncherProduct | bestla/bestla/bestla_wrapper.h:312-335 | that product is what LauncherIntKBlock promises on arrays that hold the table of blocks |
| QuantisedRun.ValuesAreSlice | bestla/bestla/bestla_prologue_a.h:133-146 | the values of a block are the slice the quantiser reads |
| QuantisedRun.DotError | bestla/bestla/kernel_ref.h:1071-1083 | errors of one operand bound the error of a product |
| Int4Weights.PackThenGet | bestla/bestla/bestla_prologue_b.h:427-447 | reorder, compress and read back any tile-aligned slice: at (k, n) exactly get_s8(convert(q)), for all thread counts and orders |
| Int4Weights.GetQ4Weight | bestla/bestla/bestla_prologue_b.h:830-847 | any tile-aligned slice comes out as the 8-bit values of its codes |
| Int4Weights.CompressWeight | bestla/bestla/bestla_prologue_b.h:559-572 | for every thread count and order every code of the packed buffer becomes its nibble |
| Int4Weights.PackQ4 | bestla/bestla/bestla_prologue_b.h:437-445 | reorder into the packed layout, then compress, each with its own threads |
| Int4Weights.CompressS8S4 | bestla/bestla/kernel_ref.h:156-167 | the codes of the window are converted in pairs, no other code changes |
| Int4Weights.DecompressStrip | bestla/bestla/kernel_ref.h:277-286 | one strip of the slice is decoded in place, no other element changes |
| Int4Weights.PairPlace | bestla/bestla/kernel_ref.h:163-163 | halving each term of the address separately gives the byte of the pair |
| Int4Weights.FullRangeCodes | bestla/bestla/bestla_utils.h:224-231 | codes 0..15 stored shifted by four read back as the code less 8 |
| Int4Weights.ClipCodes | bestla/bestla/bestla_utils.h:224-231 | clip codes read back as the nearest multiple of 16, ties away from zero, clamped to -128..112 |
| Int4Weights.PaddingCode | bestla/bestla/kernel_ref.h:198-210 | padding reads back as zero for clip codes but as -8 for full-range codes |
| Int4Weights.TailZeroIff | bestla/bestla/bestla_prologue_b.h:830-847 | the packed rows from K on are zero if and only if the codes are clip codes or K is a KTILE multiple |
| KBlockPipeline.Int4ZeroBelow | bestla/bestla/bestla_prologue_b.h:830-847 | so the launchers' requirement of a B that is zero below K holds exactly then |
| Int4Weights.Convert8IsGetS8 | bestla/bestla/kernel_ref.h:213-231 | the word-wide clip conversion gives each of eight codes what get_s8 gives |
| Int4Weights.CodesOfWord | bestla/bestla/kernel_ref.h:213-231 | code p of a buffer is nibble p of its bytes, the low one first: the word-wide conversion of four bytes gives eight codes in order |
| QuantizeU8.CodeError | bestla/bestla/kernel_ref.h:1071-1083 | every code is within half a step of its value, and is rounded value plus zero point unless clamped |
| QuantizeU8.CodeRange | bestla/bestla/kernel_ref.h:1072-1082 | zero point plus rounded value stays in 0..255 except at the one clamped place, where it is 256 |
| QuantizeU8.ClampedMeans | bestla/bestla/kernel_ref.h:1072-1082 | a code is clamped if and only if the minimum is half way between two steps and the value is the maximum |
| QuantizeU8.ScaleZero | bestla/bestla/kernel_ref.h:1088-1098 | the scale the code divides by is zero if and only if the block is partial and all zero |
| QuantizeU8.ScaleTight | bestla/bestla/kernel_ref.h:1064-1072 | 255 steps of the scale are no longer than any range that holds the block, zero and, in a whole block, the least positive float |
| QuantizeU8.ScaleAttained | bestla/bestla/kernel_ref.h:1064-1072 | and as long as one such range |
| QuantizeU8.ReduceIsSum | bestla/bestla/kernel_ref.h:1076-1086 | the stored sum is the sum of dequantised codes exactly when nothing was clamped; otherwise it is one scale too large per clamped code |
| QuantizeU8.QuantizeBlock | bestla/bestla/kernel_ref.h:1064-1086 | one block: scale, zero point, codes and sum are those of the definitions, other places untouched |
| QuantizeU8.QuantizeColBlock | bestla/bestla/kernel_ref.h:1058-1115 | a thread's rectangle: every block that starts in it is quantised, earlier blocks are kept |
| QuantizeU8.QuantizeActivation | bestla/bestla/bestla_prologue_a.h:156-164 | for every thread count and order every block of the matrix is quantised |
| QuantizeU8.RunsAgree | bestla/bestla/bestla_prologue_a.h:133-164 | two runs, whatever their threads, agree on every block whose scale is not zero |
| ZeroPoints.BothSides | bestla/bestla/kernel_ref.h:1414-1428 | over the reals, the scaled code product less both zero-point terms and their cross term is the product of the dequantised matrices |
| ZeroPoints.OneSided | bestla/bestla/kernel_ref.h:1392-1412 | the one-sided removals are the two-sided one with the other zero point zero |
| ZeroPoints.DequanS32Fp32 | bestla/bestla/kernel_ref.h:1284-1295 | the window becomes accumulator times column scale times row scale |
| ZeroPoints.RemoveActBias | bestla/bestla/kernel_ref.h:1392-1401 | each cell loses the activation's share |
| ZeroPoints.RemoveWeiBias | bestla/bestla/kernel_ref.h:1403-1412 | each cell loses the weight's share |
| ZeroPoints.RemoveBothBias | bestla/bestla/kernel_ref.h:1414-1428 | three subtractions per cell leave the two-sided form |
| ZeroPoints.BranchValue | bestla/bestla/bestla_epilogue.h:290-309 | whichever branch runs, its value is the product of the dequantised matrices |
| ZeroPoints.Forward | bestla/bestla/bestla_epilogue.h:283-310 | the window of C becomes the product of the dequantised matrices and nothing else of C changes |
| BlockWalks.DecompressReference | bestla/bestla/kernel_ref.h:331-343 | the reference writes (code - zero point) * scale with the correction row (k_offset + i) / kblock |
| BlockWalks.ReferenceCell | bestla/bestla/kernel_ref.h:331-343 | which for cell (i, j) is the code less zero point, times scale, of K block (k_offset + i) / kblock and column j / packRow |
| BlockWalks.SliceOfWhole | bestla/bestla/kernel_ref.h:331-343 | rows k0 on, dequantised on their own with offset k0, are those rows of the whole weight dequantised |
| BlockWalks.ForwardAvx512F | bestla/bestla/kernel_jit.h:257-286 | the three-phase walk leaves the same matrix as the reference, for every offset, row count and block length |
| BlockWalks.DecompressBit4PackRow1 | bestla/bestla/kernel_avx2.h:614-709 | the unrolled three-phase walk over 4-bit codes leaves the same matrix as the reference on the decoded codes |
| BlockWalks.HeadFits | bestla/bestla/kernel_jit.h:259-264 | the head lies in one block, and rows after it start on a block boundary |
| BlockWalks.OneBlockKPos | bestla/bestla/kernel_ref.h:334-334 | every row of a piece has the piece's correction row |
| Shuffling.SetShuffleIndices | bestla/bestla/bestla_prologue_b.h:326-345 | for every thread count and order the table is the same: each row sits at its group's start plus its rank in the group |
| Shuffling.FilledIsPermutation | bestla/bestla/bestla_prologue_b.h:326-345 | if every group fills its slots the table is a permutation of 0..K-1, groups together and stable inside |
| Shuffling.SlotInjective | bestla/bestla/bestla_prologue_b.h:337-340 | two rows never share a slot |
| Shuffling.SlotSurjective | bestla/bestla/bestla_prologue_b.h:337-340 | every slot is some row's slot |
| Shuffling.ShuffleActivation | bestla/bestla/kernel_ref.h:28-37 | cell (r, s) of the shuffled block is row m_offset + r, column indices[k_offset + s] of the source, and nothing else changes |
| Shuffling.Preprocess | bestla/bestla/bestla_prologue_a.h:345-353 | for every thread count and order element (i, s) of the reordered activations is element (i, indices[s]) of the activations, their padding is kept |
| Shuffling.ReorderedProduct | bestla/bestla/bestla_prologue_a.h:324-333 | products with them are the products with the activations if the rows of B are reordered by the same table |
| Shuffling.ShuffleAndReorder | bestla/bestla/bestla_prologue_b.h:326-345 | table and reordering, each on its own threads: the table is a permutation, and whatever B is, every product is what it was |
| Shuffling.ReducePlace | bestla/bestla/bestla_prologue_a.h:333-341 | the reduction that follows reads row i of a rectangle in the right place if and only if it is the first row or lda is the padded K |
| Shuffling.SumPermuted | bestla/bestla/kernel_ref.h:28-37 | a sum over a permutation is the sum over the range |
| Shuffling.ShuffledProduct | bestla/bestla/kernel_ref.h:28-37 | permuting the columns of A and the rows of B alike leaves every element of the product as it was |
| DoubleQuantisation.GetDq8Bnb | bestla/bestla/kernel_ref.h:1162-1182 | for every real value and any non-decreasing 256-entry table the search ends at an index that minimises the distance, both ends included, half way at the larger entry |
| DoubleQuantisation.RestoredBest | bestla/bestla/kernel_ref.h:1199-1207 | the value read back with the code found is no farther from the scale than with any other entry |
| DoubleQuantisation.DoubleQuant | bestla/bestla/kernel_ref.h:1184-1211 | every scale, the partial last block included, has a nearest code for its block maximum, whole blocks store that maximum; the stored mean survives if and only if there is no partial block or the two values written there agree |
| DoubleQuantisation.CalcScale | bestla/bestla/kernel_ref.h:1191-1207 | one block: the largest distance from the mean, and for every scale the nearest table entry |
| DoubleQuantisation.AbsMaxLeast | bestla/bestla/kernel_ref.h:1192-1197 | the block maximum is the least number, the least float at least, that no distance from the mean exceeds |
| DoubleQuantisation.LookedUp | bestla/bestla/kernel_ref.h:1199-1201 | the values looked up lie in -1..1, and one is an end unless all distances are below the least float |
| DoubleQuantisation.MeanBetween | bestla/bestla/kernel_ref.h:1186-1189 | the mean lies between the scales |
| DoubleQuantisation.SumAdds | bestla/bestla/kernel_ref.h:1186-1188 | sums of runs add up, and a run of one is its element, which determines the mean |
| WeightStorage.LERoundTrip | bestla/bestla/bestla_utils.h:473-484 | an integer that fits its width survives serialize and deserialize |
| WeightStorage.LittleEndian | bestla/bestla/bestla_utils.h:473-478 | byte i is the value over 256 to the i, modulo 256 |
| WeightStorage.WriteFields | bestla/bestla/bestla_utils.h:473-478 | exactly the bytes of the fields are written |
| WeightStorage.ReadField | bestla/bestla/bestla_utils.h:479-484 | a field is read back and the pointer moves to the next |
| WeightStorage.SerializeAligned | bestla/bestla/bestla_storage.h:85-95 | size, padding and data are laid out for the address; data already in place is not copied; nothing else is touched |
| WeightStorage.BufferLayout | bestla/bestla/bestla_storage.h:85-95 | in bytes: the size, the padding, and behind as much padding, on the next multiple of 64, the data |
| WeightStorage.DeserializeAligned | bestla/bestla/bestla_storage.h:96-109 | content is found again wherever the block now lies |
| WeightStorage.MapAligned | bestla/bestla/bestla_storage.h:96-109 | the buffer gets a place on a 64-byte boundary and only its head is written |
| WeightStorage.SerializeOptional | bestla/bestla/bestla_storage.h:131-136 | an absent buffer is one flag byte, a present one a flag and an aligned buffer |
| WeightStorage.SerializeAll | bestla/bestla/bestla_storage.h:786-791 | members written one after the other are all in place, and the object still has its content, even when part of it lies in the target block |
| WeightStorage.DeserializeAll | bestla/bestla/bestla_storage.h:793-798 | every member has its value again |
| WeightStorage.MapMembers | bestla/bestla/bestla_storage.h:779-784 | every member gets its place in its own room of the block |
| WeightStorage.EndBound | bestla/bestla/bestla_storage.h:78-84 | the bytes an object takes, plus one per aligned buffer, stay within its announced size, for every address |
| WeightStorage.BuffersApart | bestla/bestla/bestla_storage.h:85-95 | data of one member ends before the next member starts |
| WeightStorage.AssignedApart | bestla/bestla/bestla_storage.h:779-784 | after assign no two buffers overlap |
| WeightStorage.AssignedInside | bestla/bestla/bestla_storage.h:779-784 | after assign every buffer is 64-aligned inside the object |
| StoredWeights.StorageWeight.constructor | bestla/bestla/bestla_storage.h:699-701 | a new object carries the id of its class and no optional buffer |
| StoredWeights.StorageWeight.Resize | bestla/bestla/bestla_storage.h:703-724 | header fields and, in bits, buffer sizes for the shape: codes in the least number of bytes, scales, zero points and sums of whole bytes exactly, and zero points and sums that are wanted are there; the announced size counts every member, or all but the shuffle indices in the float class, and is kept at every address if and only if those, where not counted, find room |
| StoredWeights.StorageWeight.UpdateSize | bestla/bestla/bestla_storage.h:773-777 | the announced size is the sum of the members' sizes padded to 64 |
| StoredWeights.StorageWeight.EnableShuffle | bestla/bestla/bestla_storage.h:726-730 | the index buffer gets K integers and the announced size follows |
| StoredWeights.WithinSize | bestla/bestla/bestla_storage.h:85-95 | an object stays within a size at every address if and only if its layout with 63 bytes of padding before the first buffer does |
| StoredWeights.Extent | bestla/bestla/bestla_storage.h:85-95 | the address enters an object's length through that padding only |
| StoredWeights.FullSize | bestla/bestla/bestla_storage.h:773-777 | a size that counts every member is always enough |
| StoredWeights.FloatSize | bestla/bestla/bestla_storage.h:807-823 | the size resize of the float class announces, without the shuffle indices, is enough if and only if these are absent or fit, aligned, into the padding the other members leave unused |
| StoredWeights.SixteenRowsFit | bestla/bestla/bestla_storage.h:807-823 | it is no matter of absence alone: with some sizes the indices of 16 rows fit |
| StoredWeights.ShuffleOverruns | bestla/bestla/bestla_storage.h:807-823 | indices longer than all that padding make the object end beyond its size at every address |
| StoredWeights.StorageWeight.AnnounceSize | bestla/bestla/bestla_storage.h:807-823 | the end of resize: with the float class's recount the size is enough exactly then |
| StoredWeights.ResizeAfterShuffle | bestla/bestla/bestla_storage.h:807-823 | resize of a float weight that has its indices already, with K of 64 or more: beyond its size at every address, whatever the other sizes |
| StoredWeights.StorageWeight.Assign | bestla/bestla/bestla_storage.h:779-784 | buffers get disjoint, 64-aligned places within the announced size and only the object's bytes are written |
| StoredWeights.StorageWeight.Serialize | bestla/bestla/bestla_storage.h:786-791 | the block holds the weight, only bytes within the announced size change, and the object still is that weight |
| StoredWeights.WeightLayout | bestla/bestla/bestla_storage.h:786-791 | where every header field, the codes, the header of the corrections and the scales lie |
| StoredWeights.OptionalsLayout | bestla/bestla/bestla_storage.h:786-791 | where the optional buffers lie, in their order, each behind its flag |
| StoredWeights.StorageWeight.Deserialize | bestla/bestla/bestla_storage.h:793-798 | header fields and buffer contents come back from wherever the block lies |
| StoredWeights.AlignedAfterMove | bestla/bestla/bestla_storage.h:96-109 | after a move the data is 64-aligned if and only if the two addresses agree modulo 64 |
| StoredWeights.DeserialBuffer | bestla/bestla/bestla_storage.h:828-858 | the parser builds the class that was written, with all it held; a null pointer or an unknown id gives null |
| StoredWeights.SaveAndLoad | bestla/bestla/bestla_storage.h:828-858 | serialize at one address, move the bytes to another, parse: same class, same fields, same contents |
| Utils.UpdivBounds | bestla/bestla/bestla_utils.h:427-429 | updiv is the least r with r*b >= a |
| Utils.PadtoBounds | bestla/bestla/bestla_utils.h:486-487 | padto and padto_le are the nearest multiples above and below |
| Utils.UpdivUpdiv | bestla/bestla/bestla_parallel.h:220-225 | ceilings compose: rounding up in two steps is rounding up once |

## Left out

- Int32 accumulators do not overflow in the model, and vpdpbusds does not saturate: products and sums are exact.
- IEEE rounding, NaN, bf16, fp16, fp8 and fp4 encodings: scales and values are exact reals.
- Machine-code emission, register allocation and SIMD; the column tiling of the just-in-time dequantiser is one loop over columns.
- AMX tiles, CPU detection, core binding, allocation, timers, printing.
- How well the density and score heuristics predict speed; the split is proved to be the one of the best score, in float formulas read over exact rationals.
- GemmScheduling.GemmScheduler.constructor: needs caches on which the branch taken divides by positive numbers only; the source states no minimum and has no result below it. SchedulerKBlockS takes no empty problem, as its update asserts. The L2 use of a negative K block, which update rejects, is not modelled as a wrapped size_t.
- KBlockLauncher.RunK: needs K blocks and K steps of whole KTILEs unless one is all of K, and K steps of whole K blocks unless one is all of K, because the launcher addresses packed rows by whole KTILEs; the source has no result otherwise. Which sizes the scheduler gives it that way is the subject of SplitUsableIff and DepthUsableIff. An unaligned K in one step needs more scratch than the source reserves.
- IntKBlockLauncher.RunInt: needs KTILE to divide KBlock and KBlock to divide K, which its addressing of packed rows and scales assumes; weights are symmetric, as the kernel has no zero point for B.
- GemmPipeline.PackAndMultiply: runs the threads one after the other in any order; free interleaving is the subject of ThreadedRun, on the level of blocks and cells rather than of launcher code.
- ThreadedRun.EveryInterleaving: the barrier is the one of OMPThreading; the sync of StdThreading asserts false and is not modelled.
- QuantizeU8.QuantizeActivation: what a block with scale zero receives is left undetermined, as in the source; the NaN that arises there is not modelled.
- BlockWalks.DecompressBit4PackRow1: one NTILE of 24 or 48 columns and a KBlock divisible by 4, as its caller guarantees; the other pack rows are not modelled.
- StoredWeights.StorageWeight.Resize: enumerations and sizes are non-negative integers of their serialised width; the element type tables are parameters.
- StorageReduce and StorageQuantActivation: their deserialisation or size omits fields.
- Transposing, padding for other kernels, f4 and f8 weights, bf16 scales and sums, double-quantised scales on the read side.
- quantizeWeight and its scalar minima for asymmetric weights.
- ReducedRuns.ReduceAndRunInt: the dequantised matrix whose blocks are summed is given; unpacking is the subject of UnpackWeight, on packed values.
- CompInt8BlockEpilogue, AlphaBetaProcess, element-wise post-operations and other epilogues: they apply formulas already covered to other arrays.
- The launchers of other modules, the model code, scripts and Python bindings.
