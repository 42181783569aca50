# Layouts, indexing and data preparation, verified

This project models the layer of rocFFT that its tests, benchmarks and clients share: the code
under `shared/` that decides whether a strided multi-dimensional layout is legal, fills in default
layouts, splits index spaces among threads and devices and walks them, copies and reduces over
them, imposes Hermitian symmetry on half-spectra, and prints and parses problem descriptions.
Nearly all of it is integer arithmetic and in-place updates of buffers. The theorems hold for all
dimensions, lengths, strides, runs and interleavings, with two limits of the code itself kept as
such: the layout checker is described for offsets below 2^31, which it stores in an `int`, unless it
stops before that (at most one long axis, or the fast path), and buffer sizes are described where
they are a `size_t`.

`dafny verify dfyconfig.toml` checks the whole project.

## How it is organised

| files | part of the source |
|---|---|
| `Arith`, `Options`, `Layouts` | machine integers; boxes, offsets, ranks, collisions |
| `Odometer` | `shared/increment.h` |
| `Collisions`, `ArrayValidator`, `ValidatorTheorems` | `shared/array_validator.cpp` |
| `Spectra`, `HermitianOps`, `HermitianTheorems`, `HermitianValues`, `HermitianHost`, `HermitianDevice`, `HermitianPlanes` | the symmetrisers of `shared/data_gen_host.h` and `shared/data_gen_device.h` |
| `Partitions`, `Norms`, `NormValues`, `Hashes`, `HashValues`, `ColumnPartitions`, `Copies`, `Ptrdiff` | `shared/index_partition_omp.h`, the reductions and copies of `shared/fft_params.h` and `shared/fft_hash.h`, `shared/ptrdiff.h` |
| `DeviceGrids`, `LinearData` | launch grids, index decoding and linear data of `shared/data_gen_device.h` and `shared/data_gen_host.h` |
| `Problems`, `ProblemTheorems`, `Validity`, `ProblemFields`, `Distribution`, `Bricks`, `FftParams` | the class `fft_params` |
| `Strings`, `Tokens`, `TokenStreams`, `TokenTheorems`, `TokenExamples` | `token` and `from_token` |
| `Lengths` | `generate_lengths` of `shared/params_gen.h` |
| `WorkQueues` | `shared/work_queue.h` |

Operations that change state are methods (on arrays, on `SpectrumBuffer`, on the class
`FftParams`), each tied by its `ensures` to a function of the old state; what the source promises
is proved about that function. Two parts are concurrent and are modelled as state machines over
atomic steps: the device kernels (every load and every store is a step) and the work queue (every
lock, test, wait, notification and unlock is a step).

## What the code does not promise

The model follows the code where an obvious claim fails, and proves exactly when the claim holds.

* **Layout checker, four or more long axes.** Faces of two or more axes are never compared with each
  other: the vectors at `shared/array_validator.cpp:265-268` and `395-398` are filled with zeros
  before entries are pushed, so the cut-off of the first scan wraps and its set stays empty. Lengths
  (2,2,2,2) with strides (10,17,13,14) are accepted although 10 + 17 = 13 + 14
  (`FacePairsGoUnnoticed`). Moreover the cut-off of the axis-against-face test does not always wrap
  once a face has three axes: with lengths (7,7,4,8) and strides (1,17,16,18) it stops at 9 and hides
  the collision 17 = 1 + 16 (`CutoffHidesAxisCollision`). `VisibleIffSeen` says exactly what the
  checker sees, truncating cut-offs included: a pair of axes, or an axis that hits the rest of some
  face of four or more axes. `ExactIffSeenOrClear` derives when its verdict is right: it errs exactly
  when the checker sees nothing and one of these two defects is there, colliding faces of two or more
  axes or an axis collision past its cut-off; rejections always are right.
* **Tokens.** The printed word is `multigpu`, the parsed one `multiGPU`; and the section loop at
  `shared/fft_params.h:1007` never looks at the last word. The round trip is exact if and only if no
  GPU count is printed and the token does not end in the bare keyword of an empty section
  (`TokenRoundTrip`).
* **Column partitions.** `partition_colmajor` walked by `increment_rowmajor`, which rolls over to 0
  and not to the start of the piece, reaches every cell but repeats some as soon as there are
  several pieces and several rows (`CellsAreRepeated`). Maxima over such walks are exact
  (`WalkMaxIsExact`); sums are exact for all values only with one piece or one row
  (`SumsAreExactWhen`).
* **Empty kernel grids.** With Nx <= 2, or Ny <= 1 in 3D, the symmetriser's grid has no threads, and
  some buffer is not what the host leaves (`DeviceAgreesWhen`, `DeviceAgreesWhen2D`).
* **Device grid.** The flat index of a data-generation thread is exact for up to 4363141120 elements
  and misses some for every larger size (`GridServesAll`).
* **Partition count.** The comment at `shared/index_partition_omp.h:93-95` promises at least 2048
  iterations per piece. The bound at line 99 exceeds the number of whole chunks by one or two, and
  the pieces of 2D and 3D lengths are whole rows of the leftmost axis. `EnoughWorkWhen` states on the
  pieces themselves when the promise holds: with several pieces, when the rows per piece, rounded
  down, have 2048 cells. So 2047 iterations on 8 threads break it (`TooLittleWorkIsSplit`), lengths
  (5,1300) on 3 threads break it although there is work for three (`RowsAreNotDivided`), and (1,3000)
  on 8 threads keep it because one row makes one piece (`OneRowIsOnePiece`). In 1D the condition is
  one on the number of iterations and of threads (`EnoughWork1D`).
* **y-Nyquist line of the z-Nyquist plane.** The loop at `shared/data_gen_host.h:297-305` repeats the
  line along x instead; the plane loop that follows writes the line all the same.

## Model

| member | source | states |
|---|---|---|
| Odometer.IncrementVector | shared/increment.h:79-98 | one step of the vector odometer moves to the next rank of the box in which zero-length axes are pinned at 0, and reports the end exactly at the last rank, back at zeros |
| Odometer.IncrementBase | shared/increment.h:33-45 | one component advances while below its last value and otherwise rolls over to 0; no other component changes |
| Odometer.IncrementTuple | shared/increment.h:47-77 | the same step for scalars and tuples: next row-major rank, or zeros and `false` at the end |
| Collisions.PairCollidesIffLcm | shared/array_validator.cpp:28-36 | two axes share an offset exactly when both reach the least common multiple of their strides |
| Collisions.NestedHasNoClash | shared/array_validator.cpp:487-518 | strides that each leave room for the previous axis admit no two indices with the same offset |
| Collisions.ReorderKeepsCollisions | shared/array_validator.cpp:457-460 | sorting the axes by stride, with ties in any order, neither adds nor removes collisions |
| Collisions.ShortAxesIrrelevant | shared/array_validator.cpp:469-485 | leaving out axes of length 1 neither adds nor removes collisions |
| ArrayValidator.ValidLengthStride2dExact | shared/array_validator.cpp:28-36 | for axes longer than 1 with nonzero strides, the test answers whether the two axes share an offset |
| ArrayValidator.CutoffWraps | shared/array_validator.cpp:66-68 | when the offsets of a face exceed its number of cells, the unsigned cut-off wraps above every offset of the face and truncates nothing |
| ArrayValidator.ValidLengthStride1dMulti | shared/array_validator.cpp:38-128 | in 64-bit arithmetic with offsets narrowed to int, answers whether a step of the axis below the cut-off meets the rest |
| ArrayValidator.ValidLengthStrideMultiMulti | shared/array_validator.cpp:130-167 | answers whether the two faces share an offset past the wrapped cut-off |
| ArrayValidator.FacesNeverHit | shared/array_validator.cpp:259-281 | with zero-prefilled vectors the wrapped cut-off exceeds every offset, so two faces are never found to collide |
| ArrayValidator.ValidLengthStride3d | shared/array_validator.cpp:169-199 | false exactly when a pair of axes collides or an axis meets the opposite face below its cut-off |
| ArrayValidator.ValidLengthStride4d | shared/array_validator.cpp:201-323 | the same for four axes, pairs of faces adding nothing |
| ArrayValidator.ValidLengthStrideGeneral | shared/array_validator.cpp:325-455 | the recursion over faces ends and finds exactly the visible collisions |
| ArrayValidator.SortByStride | shared/array_validator.cpp:457-500 | the sorted axes are a permutation with ascending strides |
| ArrayValidator.HappyPath | shared/array_validator.cpp:487-518 | the early acceptance implies that no two indices collide, in every dimension |
| ArrayValidator.NestedIsCollisionFree | shared/array_validator.cpp:487-518 | the sorted-stride condition is sound whatever the original order of the axes |
| ArrayValidator.ArrayValid | shared/array_validator.cpp:462-549 | the verdict of the whole checker, through short axes, fast path and all dimensions, is exactly the collision predicate `Accepts` |
| ValidatorTheorems.RejectionIsJustified | shared/array_validator.cpp:462-549 | for any number of axes, a rejected layout has two distinct indices with the same offset |
| ValidatorTheorems.ExactUpToThreeLongAxes | shared/array_validator.cpp:462-549 | with at most three axes longer than 1, acceptance is equivalent to freedom from collisions |
| ValidatorTheorems.VisibleIffSeen | shared/array_validator.cpp:201-455 | for four or more axes, cut-offs of any kind, the recursion over faces finds exactly a colliding pair or an axis that hits the rest of some face of four or more axes |
| ValidatorTheorems.CollisionKinds | shared/array_validator.cpp:201-455 | a collision always leaves one axis against others, or two faces of two or more axes each, once the common part is taken away |
| ValidatorTheorems.ExactIffSeenOrClear | shared/array_validator.cpp:462-549 | with four or more long axes the verdict is right exactly when a long axis has stride zero, or the checker sees something, or neither do two faces of two or more axes collide nor does an axis meet the others past its cut-off |
| ValidatorTheorems.MissedWhen | shared/array_validator.cpp:201-455 | an unseen collision is one of two faces of two or more axes, or one of an axis with the others past its cut-off, and these are all |
| ValidatorTheorems.UntruncatedSeesAxisCollisions | shared/array_validator.cpp:201-455 | corollary where no cut-off truncates: the checker sees exactly the collisions that involve a single axis |
| ValidatorTheorems.ExactIffSingleAxisCollision | shared/array_validator.cpp:462-549 | corollary where no cut-off truncates: with four or more long axes the verdict is right exactly when some axis collides with others or no two faces of two or more axes do |
| ValidatorTheorems.AcceptedPairsAreClear | shared/array_validator.cpp:201-455 | an accepted layout of any dimension has no collision within a pair of axes |
| ValidatorTheorems.FacePairsGoUnnoticed | shared/array_validator.cpp:259-323 | a colliding four-dimensional layout that is accepted: two axes against two are not compared |
| ValidatorTheorems.CutoffHidesAxisCollision | shared/array_validator.cpp:66-75 | an accepted layout in which axis 1 meets the others at 17, a collision, while the first scan against that axis stops at the cut-off 9 |
| HermitianOps.HostOpsAreSymmetric | shared/data_gen_host.h:198-339 | the writes of the host loops, over all batches, are exactly those the symmetry of each stored site asks for |
| HermitianTheorems.SymmetricOpsAreRaceFree | shared/data_gen_host.h:198-339 | on separate sites no written place is a source, and writes to one place agree |
| HermitianTheorems.SymmetrisedEntry | shared/data_gen_host.h:198-339 | the value of every stored entry afterwards: real part, conjugate of its partner, or unchanged |
| HermitianTheorems.SymmetriserMakesHermitian | shared/data_gen_host.h:198-339 | every entry of the z = 0 plane and, for even Nz, of the z-Nyquist plane equals the conjugate of its stored partner, in every batch |
| HermitianTheorems.SymmetriserLeavesRest | shared/data_gen_host.h:198-339 | every other place of the buffer, padding included, keeps its value |
| HermitianTheorems.HermitianIffUnchanged | shared/data_gen_host.h:198-339 | a buffer is left as it is exactly when it was Hermitian already |
| HermitianTheorems.SymmetriserIsIdempotent | shared/data_gen_host.h:198-339 | a second run changes nothing |
| HermitianValues.PlanesAreConjugate | shared/data_gen_host.h:198-339 | written out: at z = 0 and at z = nz/2, real parts at (x, y) and at ((nx - x) mod nx, (ny - y) mod ny) are equal and imaginary parts opposite |
| HermitianValues.FixedEntryIsReal | shared/data_gen_host.h:207-243 | written out: entries that are their own mirror keep their real part and get the imaginary part 0 |
| HermitianValues.OtherEntries | shared/data_gen_host.h:244-330 | written out: of every other pair of mirrored entries, one half keeps its value and the other takes the conjugate |
| HermitianHost.SpectrumBuffer.SetImagZero | shared/data_gen_host.h:209-214 | one element becomes real in the interleaved or the planar store; all other contents stay |
| HermitianHost.SpectrumBuffer.SetConjugate | shared/data_gen_host.h:247-251 | one element becomes the conjugate of another in either store; all other contents stay |
| HermitianHost.Impose3D | shared/data_gen_host.h:198-504 | the loops, on interleaved and on planar buffers alike, leave the contents that the list of writes gives |
| Spectra.OrderIrrelevant | shared/data_gen_device.h:122-324 | race-free writes may be reordered, repeated and regrouped without changing the outcome |
| HermitianDevice.StepKeepsInvariant | shared/data_gen_device.h:42-61 | every single load or store of any thread keeps the invariant that leads all places to their final values |
| HermitianDevice.EveryInterleavingAgrees | shared/data_gen_device.h:122-324 | every finished interleaving of race-free threads leaves the sequential outcome |
| HermitianDevice.GridMakesHostWrites | shared/data_gen_device.h:862-887 | the threads of a 3D grid with at least one thread along x and y make exactly the host's writes |
| HermitianDevice.DeviceAgreesWithHost | shared/data_gen_device.h:217-324 | for Nx >= 3 and Ny >= 2, any interleaving of the 3D kernel leaves what the host loops leave |
| HermitianDevice.ScheduleFinishes | shared/data_gen_device.h:217-324 | every schedule of in-range threads can be continued until all are through, each effective step leaving less work |
| HermitianDevice.KernelFinishes | shared/data_gen_device.h:217-324 | any beginning of an execution of the 3D kernel can be completed |
| HermitianDevice.DeviceAgreesWhen | shared/data_gen_device.h:861-887 | kernel and host agree on all buffers exactly when there is no batch, or Nx >= 3 and Ny >= 2 |
| HermitianDevice.EmptyGrid | shared/data_gen_device.h:862-887 | the 3D grid is empty exactly when there is no batch, Nx <= 2 or Ny <= 1 |
| HermitianPlanes.HostLists2D | shared/data_gen_host.h:106-196 | the 2D loops make the writes of a 3D spectrum with one y entry, in the same order, hence all theorems on symmetrised spectra hold for them |
| HermitianPlanes.Impose2D | shared/data_gen_host.h:106-196 | the 2D loops leave the contents that their list of writes gives, on interleaved and planar buffers |
| HermitianPlanes.GridMakesHostWrites2D | shared/data_gen_device.h:862-887 | the threads of a 2D grid with a thread along x make exactly the host's writes |
| HermitianPlanes.DeviceAgreesWithHost2D | shared/data_gen_device.h:122-213 | for Nx >= 3, any interleaving of the 2D kernel leaves what the host loops leave, a Hermitian buffer |
| HermitianPlanes.DeviceAgreesWhen2D | shared/data_gen_device.h:861-887 | in 2D they agree on all buffers exactly when there is no batch or Nx >= 3 |
| Partitions.PartitionCount | shared/index_partition_omp.h:80-103 | the count n is determined: at most 8 and at most the processors (or 1), n > 1 only from 2048 (n - 1) - 1 iterations on, and n below both bounds only for fewer than 2048 n - 1 |
| Partitions.EnoughWorkWhen | shared/index_partition_omp.h:93-126 | with several pieces, each of them has 2048 iterations exactly when the rows per piece, rounded down, have 2048 cells; pieces are counted as they are made, by whole rows |
| Partitions.TooLittleWorkIsSplit | shared/index_partition_omp.h:93-126 | 2047 iterations on 8 threads make two pieces, below the 2048 promised per piece |
| Partitions.RowsAreNotDivided | shared/index_partition_omp.h:93-160 | lengths (5,1300) on 3 threads make three pieces, not all of 2048 iterations although 6500 would do for three |
| Partitions.OneRowIsOnePiece | shared/index_partition_omp.h:93-160 | lengths (1,3000) on 8 threads ask for two pieces and make one, which keeps the promise |
| Partitions.EnoughWork1D | shared/index_partition_omp.h:80-134 | in one dimension the promise holds exactly with at most one thread, fewer than 2047 iterations, or whole chunks for all threads |
| Partitions.PartitionRowmajor | shared/index_partition_omp.h:128-160 | the leftmost axis is split by the count of the whole length, and the pieces keep the promise exactly under that condition |
| Partitions.PartitionBase | shared/index_partition_omp.h:105-126 | non-empty pieces tile the range in order, all of the same size but the last |
| Norms.NormReal | shared/fft_params.h:3320-3359 | the partitioned do-while walks add every cell of every batch exactly once: exact square sum and maximum, whatever the number of pieces |
| Norms.NormComplex | shared/fft_params.h:3274-3318 | the same for the real and imaginary parts of complex cells |
| NormValues.RealSquareSum | shared/fft_params.h:3339-3355 | putting w for u in one cell of a layout without collisions changes the square sum by w w - u u |
| NormValues.ComplexSquareSum | shared/fft_params.h:3299-3312 | the same for complex cells, summed over both parts |
| NormValues.ZerosHaveNoSquares | shared/fft_params.h:3320-3359 | data of zeros have the square sum 0 |
| NormValues.LargestBounds | shared/fft_params.h:3299-3315 | no part of a cell exceeds the maximum in absolute value |
| NormValues.LargestIsMet | shared/fft_params.h:3299-3315 | the maximum is 0 or the absolute value of a part of some cell |
| Norms.IsContiguousRowmajor | shared/fft_params.h:3167-3183 | true exactly for the row-major strides of the box with batches a box apart, vectors of different sizes being compared from the back as far as the shorter goes |
| Norms.CollapsedPlace | shared/fft_params.h:3464-3471 | a contiguous batch lies at the offsets of one axis, in the order of its batches and ranks |
| Norms.CollapseKeepsNorms | shared/fft_params.h:3464-3471 | collapsing a contiguous batch to one axis keeps square sum and maximum, for real and complex cells |
| Hashes.HashReal | shared/fft_hash.h:146-184 | the partitioned sum of hash contributions modulo 2^64 is the sum over all cells, whatever the number of pieces; a cell's counter is one more than its index entries and batch offset added up, so cells on one diagonal share it |
| Hashes.HashPlanar | shared/fft_hash.h:186-227 | the two sums over the planes of real and imaginary parts |
| Hashes.HashInterleaved | shared/fft_hash.h:229-269 | the two sums over the parts of complex cells |
| Hashes.SameContentsSameHash | shared/fft_hash.h:146-269 | buffers of any two kinds whose parts agree on every cell have the same hash, so a planar buffer hashes like the interleaved one with its contents |
| HashValues.CounterOfCell | shared/fft_hash.h:174-175 | a cell's counter is one more than its offset under strides 1 within its batch |
| HashValues.HashChanges | shared/fft_hash.h:90-138 | putting w for u in one cell replaces u's contribution by w's, under that counter and the number of all cells, modulo 2^64 |
| HashValues.RealHashChanges | shared/fft_hash.h:146-184 | the same for real buffers, whose values are hashed as they are |
| HashValues.InterleavedHashesLikePlanar | shared/fft_hash.h:186-269 | an interleaved buffer has the hashes of the planar pair with its real and imaginary parts |
| HashValues.NothingHashesToZero | shared/fft_hash.h:140-145 | cells that contribute nothing leave the hash 0 |
| ColumnPartitions.WalkPiece | shared/fft_params.h:2668-2742 | the walk over a column piece visits all ranks of the cut box from the start of the piece on |
| ColumnPartitions.WalkVisits | shared/fft_params.h:2668-2742 | one such walk reaches exactly the cells of the cut box from there on, each once |
| ColumnPartitions.VisitsWhen | shared/fft_params.h:2212-2251 | past its first row a piece restarts every row at 0 |
| ColumnPartitions.EveryCellIsVisited | shared/fft_params.h:2212-2251 | no cell is missed |
| ColumnPartitions.CellsAreRepeated | shared/fft_params.h:2212-2251 | some cell is visited twice exactly when there are several pieces and several rows |
| ColumnPartitions.WalkMaxIsExact | shared/fft_params.h:2686-2732 | for any values, the maximum accumulated over the pieces is that of the box |
| ColumnPartitions.SumsAreExactWhen | shared/fft_params.h:2686-2732 | the sum accumulated over the pieces is that of the box for all values exactly with one piece or one row |
| Copies.CopyBuffers1to1 | shared/fft_params.h:2253-2289 | the target's logical contents become the source's, for any two layouts and any number of pieces; nothing outside the target layout changes |
| Copies.CopyBuffers2to1 | shared/fft_params.h:2291-2329 | the same from planar to interleaved, each plane at its own offset |
| Copies.CopyBuffers1to2 | shared/fft_params.h:2331-2369 | the same from interleaved to planar |
| Copies.CopiedCells | shared/fft_params.h:2253-2289 | written out: every cell of the target equals that of the source |
| Copies.CopiedParts | shared/fft_params.h:2331-2369 | written out: the planar targets hold the real and the imaginary parts |
| Copies.CopiedPairs | shared/fft_params.h:2291-2329 | written out: the interleaved target's parts are the planar sources |
| Copies.ThereAndBack | shared/fft_params.h:2291-2369 | interleaved to planar to interleaved is the identity on logical contents, for any three layouts |
| Ptrdiff.ComputePtrdiff | shared/ptrdiff.h:26-42 | in wrapping arithmetic, one past the farthest offset whenever that is a size_t |
| Ptrdiff.ReachIsExact | shared/ptrdiff.h:26-42 | a buffer holds every cell of a batched layout exactly when it is as large as that size plus the offset |
| DeviceGrids.GridServesAll | shared/data_gen_device.h:843-859 | in 32-bit arithmetic every flat index below the size has a thread exactly when the size is at most 4363141120, and then only one |
| DeviceGrids.FlatIsExact | shared/data_gen_device.h:681-682 | up to that size no product in the flat index wraps |
| DeviceGrids.MissedIsUnserved | shared/data_gen_device.h:843-859 | past that size a named flat index has no thread |
| DeviceGrids.AxisIdsAreExact | shared/data_gen_device.h:861-887 | with at most 2^32 indices along an axis, the 32-bit index arithmetic of the symmetriser's kernels gives the numbers below the rounded-up thread count, each to one thread |
| DeviceGrids.AxisServedWhen | shared/data_gen_device.h:234-236 | every index along an axis has a thread exactly when there are at most 2^32 of them |
| DeviceGrids.EncodeDecode | shared/data_gen_device.h:532-617 | encoding the decoded index and batch gives the flat index back |
| DeviceGrids.DecodeEncode | shared/data_gen_device.h:532-617 | decoding the flat index of an element gives its index and batch back |
| DeviceGrids.EncodeWritten | shared/data_gen_device.h:532-617 | in one, two and three dimensions the flat index is x + l y + l m z + l m n b |
| DeviceGrids.BatchBound | shared/data_gen_device.h:586-617 | the flat indices below the size are exactly those of the batches there are |
| LinearData.UnitOffset | shared/data_gen_host.h:34-53 | the offset of an index under unit strides is its flat index within a batch |
| LinearData.RampRange | shared/data_gen_host.h:547-582 | the generated values run from -0.5 to 0.5 |
| LinearData.RampStep | shared/data_gen_host.h:547-582 | neighbouring values differ by exactly 1 / (n - 1) |
| LinearData.RampOfCell | shared/data_gen_host.h:547-582 | a cell gets -0.5 plus its flat index in the batch over n - 1 |
| LinearData.GenerateLinear | shared/data_gen_host.h:547-582 | the partitioned host loops put the ramp value into every cell of every batch and change nothing else |
| LinearData.DeviceFillsLikeHost | shared/data_gen_device.h:671-700 | with two or more elements per batch, the threads of the grid, in any order, leave the buffer the host loops leave |
| FftParams.FftParams.SetIoTypes | shared/fft_params.h:1116-1154 | unset array types become the defaults of the transform type |
| FftParams.FftParams.ComputeStride | shared/fft_params.h:1222-1259 | the strides given for the faster axes are kept and the slower ones filled in from them, padding the last axis of in-place real data |
| FftParams.FftParams.SetDistances | shared/fft_params.h:1356-1423 | distances given are kept, others become the largest extent of an axis |
| FftParams.FftParams.ComputeSizes | shared/fft_params.h:1279-1299 | each buffer is sized by the reach of its layout plus its offset |
| FftParams.FftParams.Validate | shared/fft_params.h:1591-1602 | fills in types, strides, distances and sizes as `Validated` says, and fails exactly for descriptions with fields or several GPUs |
| FftParams.FftParams.ValidLengthStrideBatchDist | shared/fft_params.h:1426-1456 | the verdict of the layout checker on the layout with its batch axis |
| FftParams.FftParams.CheckIoTypes | shared/fft_params.h:1157-1215 | the array types fit together and, in place, agree for complex transforms |
| FftParams.FftParams.CheckInPlace | shared/fft_params.h:1464-1556 | in-place transforms have matching strides, distances, types and offsets, or unit last strides for real ones |
| FftParams.FftParams.Valid | shared/fft_params.h:1459-1588 | all checks together, a throw counting as invalid, equal the predicate `IsValid` |
| FftParams.FftParams.InverseFromForward | shared/fft_params.h:2022-2054 | a forward description is turned round, sizes and fields staying; any other is refused and changes nothing |
| Validity.ValidOutOfPlaceWhen | shared/fft_params.h:1459-1588 | out of place, a description is valid exactly when its offset vectors are long enough, its types are one of eight pairs, and both layouts have one stride per axis and put distinct cells of all batches in distinct places, but for the collisions among four or more long axes that the checker misses |
| Validity.ValidOutOfPlaceOfFewAxes | shared/fft_params.h:1459-1588 | with at most three axes longer than 1 per batched layout nothing is missed: the equivalence is with distinct places |
| Validity.DistinctWhen | shared/fft_params.h:1426-1456 | distinct cells of all batches are in distinct places exactly when the layout with its batch axis is free of collisions |
| Validity.LayoutOkWhen | shared/fft_params.h:1426-1456 | the layout check passes exactly for such layouts, for any number of axes |
| Validity.ValidInPlaceComplexWhen | shared/fft_params.h:1459-1588 | in place and complex, valid exactly with equal types, strides, offsets and, for several batches, distances, no output check, and layouts as above |
| Validity.InPlaceComplexCellsStay | shared/fft_params.h:1467-1545 | then every cell of every batch has the same place in input and output, in each buffer |
| Validity.SamePlacesWhen | shared/fft_params.h:1467-1520 | two layouts give all cells the same places exactly when offsets, strides of long axes and, for several batches, distances agree |
| Validity.ValidInPlaceRealWhen | shared/fft_params.h:1459-1588 | in place and real, valid exactly with unit last strides, a common start, one of six type pairs, no output check, and layouts as above |
| Validity.InPlaceRealRowsOverlay | shared/fft_params.h:1522-1560 | then real and complex data start at one address, and real elements 2j and 2j + 1 of the first row are where its j-th complex element is |
| ProblemFields.TypesFilledIn | shared/fft_params.h:1116-1154 | types given stay; the others are those of each transform type, written out |
| ProblemFields.OnlyLayoutIsFilledIn | shared/fft_params.h:1591-1602 | validate changes types, strides, distances and sizes only |
| ProblemFields.StoredLinesAreLeast | shared/fft_params.h:1071-1085 | the complex side of a real transform stores of each line the least number of entries that determine it; all other lengths are those given |
| ProblemFields.StridesFilledIn | shared/fft_params.h:1222-1277 | strides given are the last ones, and each slower stride is the next one times that axis's room, with half or padded last length |
| ProblemFields.DistancesFilledIn | shared/fft_params.h:1356-1423 | distances filled in are at least every axis's length times stride and equal one of them, with half or padded last length |
| ProblemFields.SizesAreExact | shared/fft_params.h:1279-1299 | after validate there is one size per buffer, two for planar data, and each is the least that holds all cells of all batches behind its offset |
| ProblemFields.InverseUndoes | shared/fft_params.h:2022-2054 | the scale factors multiply to 1, the inverse's input side is the forward's output side and conversely, precision, placement, batches and flags are kept, sizes, fields and GPU count untouched |
| ProblemTheorems.DefaultStridesAreContiguous | shared/fft_params.h:1222-1277 | strides filled in from nothing are those of the contiguous padded box |
| ProblemTheorems.DefaultDistanceIsProduct | shared/fft_params.h:1356-1423 | the distance filled in is the size of one contiguous padded batch |
| ProblemTheorems.DefaultsAreAccepted | shared/fft_params.h:1591-1602 | for every dimension, length, transform type and placement, both layouts filled in are accepted and free of collisions across batches |
| ProblemTheorems.ContiguousInDomain | shared/fft_params.h:1426-1456 | whenever the batch's size is a size_t, the 64-bit checker decides such a layout without wrapping |
| ProblemTheorems.DefaultsAreCheckable | shared/fft_params.h:1591-1602 | the checker decides both layouts filled in without wrapping, whenever the sizes of both batches are a size_t |
| ProblemTheorems.DefaultsAreValidWhen | shared/fft_params.h:1459-1602 | a problem filled in by validate is valid exactly when its types fit and, in place, its offsets and the output check do |
| ProblemTheorems.ValidateIsIdempotent | shared/fft_params.h:1591-1602 | validating twice is validating once, whatever was given in advance |
| ProblemTheorems.RealRowsOverlayComplexRows | shared/fft_params.h:1222-1310 | in place, outer strides and batch distance of real data are twice the complex ones |
| ProblemTheorems.OutputBufferHoldsRealInput | shared/fft_params.h:1279-1310 | the buffer sized from the interleaved output holds every real input element |
| ProblemTheorems.InverseKeepsVerdict | shared/fft_params.h:2022-2054 | the inverse description is valid exactly when the forward one is |
| ProblemTheorems.InverseSwapsSizes | shared/fft_params.h:2022-2054 | after validation the inverse's input and output sizes are the forward's output and input sizes |
| Distribution.PiecesAreExact | shared/fft_params.h:2106-2123 | every entry of an axis lies in exactly one of its pieces, also when there are more pieces than entries |
| Distribution.BrickStrides | shared/fft_params.h:2127-2138 | a brick's strides are the row-major ones of its own extents |
| Distribution.DistributeField | shared/fft_params.h:2075-2154 | grids of the wrong dimension are refused, unsplit ones add nothing, all others append one field of the grid's bricks |
| Distribution.BricksTileTheField | shared/fft_params.h:2075-2154 | for positive counts every coordinate of the batch-by-length box lies in exactly one brick |
| Distribution.BricksAreSound | shared/fft_params.h:2075-2154 | there are as many bricks as the grid's product, none leaves the field, each maps its cells one-to-one onto 0 .. volume - 1, and no two share rank and device |
| Bricks.OwnerOfBrick | shared/fft_params.h:2140-2152 | without MPI brick i has rank 0 and device i; with MPI rank i, and device i with at least as many local devices as bricks, device 0 otherwise |
| Bricks.OwnDevicesWhen | shared/fft_params.h:2140-2152 | no two bricks share a device exactly without MPI, with enough devices, or with at most one brick |
| Bricks.BrickSpans | shared/fft_params.h:2092-2124 | brick x_0 + g_0 (x_1 + g_1 (...)) is piece x_k of every axis k: size length / count, the last piece taking the rest |
| Bricks.EveryBrickSpans | shared/fft_params.h:2092-2124 | every brick is one of these |
| FftParams.FftParams.DistributeInput | shared/fft_params.h:2156-2164 | the input field is cut along batch and lengths, slowest first |
| FftParams.FftParams.DistributeOutput | shared/fft_params.h:2166-2174 | the output field is cut along batch and output lengths |
| Strings.StoullOfDecimal | shared/fft_params.h:916-922 | a printed size_t is read back |
| Strings.StoullOfSignedDecimal | shared/fft_params.h:971-973 | a printed int is read back, negative ones through the wrap-around of both conversions |
| Strings.StoullStops | shared/fft_params.h:916-922 | what follows the digits is ignored |
| Strings.StoullThrows | shared/fft_params.h:916-922 | numbers from 2^64 on, and texts that do not begin with a space, a sign or a digit, are refused |
| Strings.SplitJoin | shared/fft_params.h:903-914 | splitting a joined list of separator-free words gives the list back |
| TokenStreams.SplitToken | shared/fft_params.h:903-914 | the find-and-erase loop splits at the separators |
| TokenStreams.AppendBrickInfo | shared/fft_params.h:807-823 | a brick is appended word by word, its rank only when nonzero |
| TokenStreams.VectorParser | shared/fft_params.h:924-942 | takes a keyword and the longest run of numbers after it, or fails |
| TokenStreams.FieldParser | shared/fft_params.h:958-975 | takes all bricks that follow, or fails |
| TokenStreams.SectionParser | shared/fft_params.h:1007-1035 | takes one section by its keyword, or fails |
| FftParams.FftParams.PrintToken | shared/fft_params.h:726-898 | the string built is the joined word list of the description |
| FftParams.FftParams.ParseToken | shared/fft_params.h:901-1056 | the fields end up as the word-list parser says, and failure is reported exactly when it fails |
| TokenTheorems.TokenSplits | shared/fft_params.h:726-914 | a printed token splits into the words it was printed from |
| TokenTheorems.TakeSectionsOf | shared/fft_params.h:1007-1035 | the section loop takes all printed sections unless the last keyword is the last word |
| TokenTheorems.PrintedFromNormal | shared/fft_params.h:726-898 | printing depends on the printed fields only |
| TokenTheorems.ParsesToReread | shared/fft_params.h:901-1056 | parsing a printed token never fails |
| TokenTheorems.DanglingChangesToken | shared/fft_params.h:1007-1009 | a dangling keyword is lost: the reread description differs and prints differently |
| TokenTheorems.MultiGpuChangesToken | shared/fft_params.h:891-895 | a printed GPU count is lost: the reread description differs and prints differently |
| TokenTheorems.TokenRoundTrip | shared/fft_params.h:726-1056 | parsing into a fresh description restores every printed field, and prints the same token, exactly when no GPU count is printed and nothing dangles |
| TokenTheorems.TokenRoundTripOfFilled | shared/fft_params.h:726-1056 | in particular the round trip is exact for non-empty offset vectors and fields and at most one GPU |
| TokenExamples.CountIsRead | shared/fft_params.h:1051-1055 | a token of at most one GPU followed by `_multiGPU_` and a number parses into all printed fields and that count |
| TokenExamples.Vocabulary | shared/fft_params.h:726-898 | the words printed for types, fields, bricks with and without rank, and flags |
| TokenExamples.HeaderOfAnyWords | shared/fft_params.h:979-1003 | transform, precision and placement that any words of a header stand for |
| TokenExamples.TokenOfLine | clients/tests/accuracy_test_adhoc.cpp:342 | the whole text printed for a filled-in 1D forward transform in place, of any length, batch count and precision, in the form the tests give |
| Lengths.RankIsLexicographic | shared/increment.h:79-98 | the odometer's order is the lexicographic one |
| Lengths.Walk | shared/increment.h:79-98 | started at zeros, the vector odometer visits rank after rank of its box and stops |
| Lengths.WalkVisitsOnce | shared/increment.h:79-98 | such a walk visits every multi-index exactly once, in strictly ascending order |
| Lengths.Sort | shared/params_gen.h:90-91 | the sorted output is ascending and a permutation |
| Lengths.Unique | shared/params_gen.h:91-92 | erasing neighbours that are equal leaves the same elements, strictly ascending |
| Lengths.GenerateLengths | shared/params_gen.h:61-94 | the output is exactly the Cartesian product of the choice lists, strictly sorted |
| WorkQueues.StepKeepsMutex | shared/work_queue.h:26-49 | only the holder of the mutex is inside push or pop's critical section |
| WorkQueues.StepLosesNoWakeup | shared/work_queue.h:26-49 | a thread waits un-notified beside a non-empty queue only while a push is about to notify it |
| WorkQueues.StepConserves | shared/work_queue.h:26-49 | every item passed in is entering, queued, leaving or returned, as often as it was passed in |
| WorkQueues.EveryRunIsSafe | shared/work_queue.h:26-49 | in every interleaving, with spurious wake-ups, items popped followed by items queued equal the items pushed, and the other invariants hold |
| WorkQueues.EveryReachableStateIsSafe | shared/work_queue.h:26-49 | hence in every state reachable from the empty queue |
| WorkQueues.StuckOnlyWhenEmpty | shared/work_queue.h:26-49 | when no call can go on, the mutex is free, every open call is a pop, and the queue is empty |
| WorkQueues.NothingLostAtRest | shared/work_queue.h:26-49 | when all calls have returned, what was passed in is what came back and what is still queued |

## Left out

- ArrayValidator.ArrayValid: decides layouts whose offsets are below 2^31, or that take the fast path or have at most one long axis; for larger offsets the narrowing to int at shared/array_validator.cpp:102 is the code's own limit.
- ArrayValidator.ValidLengthStride1dMulti: offsets below 2^31, for the same reason.
- ArrayValidator.ValidLengthStride3d: offsets below 2^31, for the same reason.
- ArrayValidator.ValidLengthStrideGeneral: offsets below 2^31, for the same reason; std::next_permutation is modelled as for four axes.
- ArrayValidator.SortByStride: std::sort is modelled by an insertion sort; the theorems use only that its result is an ascending permutation.
- ArrayValidator.ValidLengthStride4d: offsets below 2^31, for the same reason; std::next_permutation is modelled as an enumeration of the axis splits it produces.
- FftParams.FftParams.Validate: sizes are proved where the reach of both layouts is a size_t; strides and distances are unbounded integers.
- FftParams.FftParams.Valid: the layouts given must be ones the checker decides; reading `.back()` of an empty stride vector or an absent offset, undefined in the source, counts as invalid.
- Validity.ValidOutOfPlaceWhen: positive lengths, at least one batch, and layouts the checker decides; so too for the in-place results.
- ProblemFields.SizesAreExact: positive lengths and at least one batch; of an empty layout the source computes a wrapped size.
- FftParams.FftParams.ValidLengthStrideBatchDist: the layouts the checker decides, as above.
- FftParams.FftParams.InverseFromForward: the forward scale factor is not zero; its reciprocal is an infinity in the source, and reals have none.
- FftParams.FftParams.ParseToken: reading past the last word, undefined in the source, counts as a failure; on failure nothing is said about the fields set so far.
- TokenTheorems.TokenRoundTrip: the scale factor survives only as "not 1", as in the source; numbers are those their C++ types can hold.
- Partitions.PartitionRowmajor: the pieces of the leftmost axis; a build without OpenMP always makes one piece.
- Hashes.HashReal: the contribution of one value is an arbitrary function of its counter, the largest counter and the value.
- Hashes.HashPlanar: the two sums are filled by two walks where the source fills both in one.
- Hashes.HashInterleaved: two walks, in the same way.
- Norms.NormReal: the square root at the end is left out, and arithmetic is exact.
- Norms.NormComplex: the same; the two parts of a cell are taken in an inner loop.
- Copies.CopyBuffers1to2: the two target planes are filled by two walks where the source fills both in one.
- ColumnPartitions.WalkMaxIsExact: the values that `distance` accumulates are an arbitrary function of the cell; its list of failures is left out.
- HermitianDevice.DeviceAgreesWhen: a launch with an empty grid, which the runtime refuses, counts as running no thread; thread numbers are exact, as they are in 32-bit arithmetic for up to 2^32 batches, x rows and y rows (DeviceGrids.AxisIdsAreExact).
- Lengths.GenerateLengths: choice lists are non-empty; reading from an empty one is undefined in the source.
- LinearData.DeviceFillsLikeHost: one store per thread, for any element type made from a real; a planar buffer is two such runs.
- HermitianDevice.DeviceAgreesWithHost: the machine runs on interleaved memory with separately stored components, which is also how the planar kernel accesses its two arrays.
- Floating-point rounding, square roots and half precision: values are reals.
- Random generators of the host and the device, and hashing of floating-point bits.
- The 1D symmetrisers, which make corner writes only.
- OpenMP parallel loops over pieces run in order; their disjointness is what makes the order irrelevant.
- Kernel launches, device properties, launch limits and buffer allocation.
- `str`, printing of buffers, FFTW plans, command-line parsing and the selection of tests by probability.
- std::mutex fairness: the work queue is proved safe and free of deadlock, not starvation-free.
