# Verified model of the NPU runtime core

This project models the five parts of the runtime where correctness depends on an argument rather than on reading one function, and proves what each of them is for.

**Device memory** (`memory_pool`, `memory_steps`, `memory_runs`, `memory_alignment`, `memory`). The best-fit allocator that serves requests from both ends of an address range, splits blocks, merges freed neighbours and tries to defragment. `DeviceMemory.Memory` follows the class step by step; the ordered map is a sequence in key order. The central fact is that a tiled map without free neighbours is determined by its live blocks: allocation followed by a free is therefore the identity, runs that leave the same blocks live leave the same memory, and the defragmentation pass changes nothing.

**Inference jobs** (`task_graph`, `job_protocol`, `job_proofs`, `job_theorems`, `job_progress`, `job_single_start`, `inference_job`). Completions of a task graph arrive in any order; each publishes tensors and counts under a lock, then test-and-sets successors and dispatches them. Each locked section is one step of a state machine whose handlers interleave freely, and a task is an unknown function of its inputs. `InferenceJobs.InferenceJob` is the object whose methods are those locked sections.

**Layout codec and transpose** (`cells`, `neon`, `xnn_x8`, `xnn_x32`, `xnn_transpose`, `format_codec`, `format_groups`, `format_transpose`, `format_aligned`, `format_inputs`). Row padding, channel-group interleaving, and transposition in place, out of place and with tiled SIMD kernels, on byte arrays. Vector loads may read past a row; the bytes found there are arbitrary.

**Host buffer pools** (`buffer_pool`, `buffer_lifecycle`, `buffer_theorems`, `buffer_deadlock`, `buffer_refinement`). The free lists, the buffers of a task, the request that holds them, and a state machine of any number of jobs taking and returning buffers.

**Sizing and output layout** (`memory_sizing`, `output_layout`). How many buffers fit in the smallest device, and the offsets of the outputs in the user's buffer, computed in four places.

`common` holds what several modules share.

Main results, in the order of the table: `MemoryRuns.RunKeepsInvariant`, `MemorySteps.AllocateThenFree`, `MemoryAlignment.AlignedExact`, `JobTheorems.EveryRunAgrees`, `JobProgress.EveryRunEnds`, `JobSingleStart.SingleStartExact`, `XnnTranspose.Transpose`, `XnnTranspose.ByteReadsInside`, `FormatTranspose.BidirectionalTranspose`, `FormatAligned.SendAndReceive`, `FormatInputs.SentInterleavedExact`, `BufferDeadlock.NeverStuckExact`, `BufferTheorems.AllComeBack`, `MemorySizing.CountExact`, `MemorySizing.UsageExact`, `OutputLayout.LayOut`, `OutputLayout.SetReturnOutputs`.

Where the code does not do what its comments promise, the code is modelled, a failing input is given and the exact condition is proved:

- a backward allocation of zero bytes, an allocation whose aligned size wraps, and freeing a free block (`MemorySteps.BackwardKeeps`, `AllocateKeeps`, `DeallocateKeeps`; inputs in `BackwardZeroOverwrites`, `WrappedAllocateLoses`, `FreeingFreeBreaks`);
- alignment of addresses in a memory of unaligned size (`MemoryAlignment.AlignedExact`, `UnalignedRun`);
- a single-input job on a graph with several heads (`JobSingleStart.SingleStartExact`, `SecondHeadStrands`);
- formatting in place (`FormatGroups.InPlaceFormattedRight`, `InPlaceFormattedLoses`);
- skipping the copy of a FORMATTED input (`FormatInputs.SentInterleavedExact`, `FormatGroups.SkipCopyDiffers`);
- a buffer count whose cost wraps around (`MemorySizing.CountExact`, `AdjustExact`, `WrapAcceptsTooMuch`);
- output memory that a PPU adds (`MemorySizing.UsageExact`, `PpuOutputNotCounted`).
- vector loads of the byte transpose past the matrix (`XnnTranspose.ByteReadsInside`, `ByteReadsPastEnd`);
- waiting for ever when start loops visit several heads (`BufferDeadlock.NeverStuckExact`, `DifferentFirstDeadlocks`).

The last point is about `startMultiInputJob`, whose start loop runs over an unordered map, so its order of visit is unspecified. For every model and every set of orders in which the start loops may visit the heads, jobs never get stuck, however many there are and however they interleave, if and only if all these orders begin with the same head. Maps with the same keys and the same number of buckets iterate alike, and a model with one head has only one order, so both meet the condition.

## Model

| member | source | states |
|---|---|---|
| `MemoryPool.CanonicalPool` | lib/memory.cpp:271-300 | a map that tiles its range without free neighbours is exactly its live blocks plus the maximal gaps between them |
| `MemoryPool.LiveDecidesBytes` | lib/memory.cpp:457-509 | maps with the same live blocks agree on which bytes are in use |
| `MemoryPool.TilesDisjoint` | lib/memory.cpp:24-31 | blocks of a tiling never overlap and stay in range |
| `MemorySteps.AllocateKeeps` | lib/memory.cpp:56-106 | a forward allocation keeps the invariant if and only if aligning its size does not wrap (or nothing is free); it fails if and only if every free block is smaller than the least multiple of the alignment that holds the request, one unit for a request for nothing |
| `MemorySteps.BackwardKeeps` | lib/memory.cpp:118-188 | a backward allocation keeps the invariant if and only if its size is positive and aligning it does not wrap (or nothing is free); it fails likewise |
| `MemorySteps.BackwardZeroOverwrites` | lib/memory.cpp:168-184 | a concrete memory on which a backward request for nothing wipes out a live block |
| `MemorySteps.WrappedAllocateLoses` | lib/memory.cpp:33-36 | a concrete request whose aligned size wraps to nothing and replaces the only free block |
| `MemorySteps.DeallocateKeeps` | lib/memory.cpp:239-251 | freeing keeps the invariant if and only if the address is not that of a free block |
| `MemorySteps.FreeingFreeBreaks` | lib/memory.cpp:243-247 | a concrete free of a free block, after which the used count has wrapped |
| `MemorySteps.SameLiveSameState` | lib/memory.cpp:271-300 | two valid memories with the same live blocks are equal, count included |
| `MemorySteps.AllFreedIsInitial` | lib/memory.cpp:24-31 | a valid memory without live block is the single free block it started as |
| `MemorySteps.MergeIsIdentity` | lib/memory.cpp:457-509 | whatever merging does to a valid memory, it leaves the map as it is |
| `MemorySteps.AllocateThenFree` | lib/memory.cpp:89-106 | an allocation from either end followed by freeing its result restores the exact map and count |
| `MemorySteps.TakenBlock` | lib/memory.cpp:168-188 | a successful allocation adds one live block at the address returned, of exactly the least aligned size that holds the request, at the front (backward: the back) of a smallest free block that holds it |
| `MemoryRuns.RunKeepsInvariant` | lib/memory.cpp:56-301 | after every operation of every run the blocks tile the memory, the count is the sum of live sizes, and the live blocks are what callers hold, each of exactly the least aligned size that holds what was asked for |
| `MemoryRuns.RunHandsOutDisjointBlocks` | lib/memory.cpp:56-188 | over every run, blocks held at the same time never overlap |
| `MemoryRuns.RunsConverge` | lib/memory.cpp:239-301 | runs that leave the same blocks live end in the same memory, in whatever order blocks were freed |
| `MemoryRuns.RunReturnsToStart` | lib/memory.cpp:239-301 | a run in which everything was given back ends in the initial memory |
| `MemoryAlignment.StepAligned` | lib/memory.cpp:56-301 | in a memory of aligned size every operation keeps live blocks aligned and hands out aligned addresses |
| `MemoryAlignment.UnalignedRun` | lib/memory.cpp:168-188 | in any memory of unaligned size that holds a block, the first backward allocation hands out an unaligned address |
| `MemoryAlignment.AlignedExact` | lib/memory.cpp:33-36 | every address handed out in every run is aligned if and only if the memory size is, or the memory is too small for any block |
| `DeviceMemory.Memory.constructor` | lib/memory.cpp:24-31 | a new memory is one free block, and valid if and only if its size is neither zero nor the largest 64-bit number |
| `DeviceMemory.Memory.FindBestFit` | lib/memory.cpp:38-54 | the smallest free block that fits, the lowest of equals, or none if nothing fits |
| `DeviceMemory.Memory.FindBestFitBackward` | lib/memory.cpp:127-139 | the smallest free block that fits, the highest of equals, or none if nothing fits |
| `DeviceMemory.Memory.Allocate` | lib/memory.cpp:56-106 | takes the front of the best-fitting block; -1 exactly when every free block is smaller than the least aligned size that holds the request, with or without the defragmentation attempt |
| `DeviceMemory.Memory.BackwardAllocate` | lib/memory.cpp:118-188 | takes the back of the best-fitting block; the invariant survives exactly for positive sizes whose alignment does not wrap |
| `DeviceMemory.Memory.Deallocate` | lib/memory.cpp:239-251 | removes the block from the live ones and leaves no free neighbours; an unknown address changes nothing |
| `DeviceMemory.Memory.MergeAdjacentNodes` | lib/memory.cpp:271-300 | the recursive merge ends with a tiled map without free neighbours and the same live blocks |
| `DeviceMemory.Memory.MergeAllAdjacentFreeBlocks` | lib/memory.cpp:457-509 | from any tiled map it terminates, keeps the use of every byte and leaves no two free neighbours |
| `DeviceMemory.Memory.TryDefragmentation` | lib/memory.cpp:409-430 | on a valid memory it changes nothing and only reports whether the largest free block suffices |
| `DeviceMemory.Memory.GetLargestFreeBlock` | lib/memory.cpp:442-455 | the size of the largest free block |
| `DeviceMemory.Memory.GetFragmentationInfo` | lib/memory.cpp:336-374 | the free total is size less used, the blocks counted are those not live, largest and smallest bound every free block and are attained, the ratio is the share outside the largest; all zero without a free block |
| `DeviceMemory.LargestDecides` | lib/memory.cpp:72-87 | a positive size fits somewhere if and only if the largest free block holds it |
| `DeviceMemory.FreePlusLive` | lib/memory.cpp:336-374 | free bytes and live bytes add up to the range |
| `TaskGraph.ResultSolves` | lib/inference_engine.cpp:2342-2408 | running the tasks one by one in order gives every output as its task's function of the values of the task's inputs, each in its declared position |
| `TaskGraph.SolutionUnique` | lib/inference_engine.cpp:2342-2408 | any assignment that satisfies every task agrees with the sequential evaluation |
| `TaskGraph.OrderIrrelevant` | lib/inference_engine.cpp:2342-2408 | two admissible orders give the same tensors |
| `TaskGraph.LinkSuccessors` | lib/inference_engine.cpp:2355-2375 | the successors of a task are the known tasks that read one of its outputs, each once |
| `TaskGraph.LinkTasks` | lib/inference_engine.cpp:2342-2375 | when the metadata lists each task's outputs with exactly the tasks that read them, the graph built has as successors of a task the tasks it feeds, which every job theorem assumes |
| `JobProofs.StepKeeps` | lib/inference_job.cpp:75-143 | every locked section of every handler keeps the invariant of the job |
| `JobProofs.RunKeeps` | lib/inference_job.cpp:852-983 | so does every interleaving of them |
| `JobTheorems.DispatchSafety` | lib/inference_job.cpp:95-143 | in every reachable state no task was dispatched twice, every request holds the final value of each of its inputs in its position, the count is the number of done tasks, and the callback fired at most once and only after all were done |
| `JobTheorems.TensorsNeverChange` | lib/inference_job.cpp:86-134 | a tensor that is present keeps its value in every later step |
| `JobTheorems.QuietMeansDone` | lib/inference_job.cpp:459-483 | when nothing is in flight and no handler runs, every task is done |
| `JobTheorems.EveryRunAgrees` | lib/inference_job.cpp:86-143 | every interleaving that runs out has the tensors of the sequential evaluation, dispatched every task once and called back exactly once |
| `JobProgress.StepWork` | lib/inference_job.cpp:852-983 | every step lowers the work left by exactly one |
| `JobProgress.SomeStep` | lib/inference_job.cpp:852-983 | unless the job is quiet some step is possible |
| `JobProgress.EveryRunEnds` | lib/inference_job.cpp:118-143 | every run ends, all complete runs have the same number of steps, and a run is complete exactly when it took that many |
| `JobProgress.InputsPresentMeansPending` | lib/inference_job.cpp:118-134 | an idle task whose inputs are all present has a readiness check to come |
| `JobSingleStart.SingleStartStrands` | lib/inference_job.cpp:284-394 | after a single-input start, a task other than the head that no task feeds is never dispatched |
| `JobSingleStart.OthersFedSingleHead` | lib/inference_job.cpp:284-394 | in an acyclic graph where every task but the head is fed, nothing feeds the head |
| `JobSingleStart.SingleStartExact` | lib/inference_job.cpp:364-394 | a single-input job whose activity ended finished every task if and only if every task but the head is fed |
| `JobSingleStart.SecondHeadStrands` | lib/inference_job.cpp:284-394 | on a sound graph of two tasks that read model inputs, the same or different ones, a single-input job never runs the second |
| `InferenceJobs.InferenceJob.constructor` | lib/inference_job.cpp:232-254 | a fresh job has every task idle and nothing done |
| `InferenceJobs.InferenceJob.PublishCompletion` | lib/inference_job.cpp:86-116 | every output is stored under its name and nothing else changes, the task is done and counted, and the answer says whether it was the last; a task unknown to the job is refused |
| `InferenceJobs.InferenceJob.CheckAndSetTaskReady` | lib/inference_job.cpp:852-899 | turns the task ready exactly when it is idle and no input is missing, and changes nothing else |
| `InferenceJobs.InferenceJob.ProcessReadyTask` | lib/inference_job.cpp:901-983 | a ready task with all inputs present becomes busy, its request holding the value of each input in its position; otherwise no request, and a ready task is idle again |
| `InferenceJobs.StorePublishes` | lib/inference_job.cpp:86-94 | storing outputs one by one is publishing the task's results |
| `Neon.NetworkTransposes` | lib/xnn_kernel.cpp:86-118 | four zip rounds on sixteen vectors transpose the 16 by 16 bytes |
| `TransposeX8.StoreColumns` | lib/xnn_kernel.cpp:120-175 | the conditional descending store walk writes exactly the first columns of the block, each with its vector |
| `TransposeX8.ResetLands` | lib/xnn_kernel.cpp:54-65 | the pointer resets land on the next column block |
| `TransposeX8.Kernel` | lib/xnn_kernel.cpp:39-185 | for every width and every height divisible by 16 the block is transposed and nothing else is written, whatever was read past the width; the farthest byte read is in the last row at the end of the last group of 16 columns |
| `TransposeX32.FullTile` | lib/xnn_kernel.cpp:191-329 | a 4 by 4 tile of words is transposed by the table lookups |
| `TransposeX32.Kernel` | lib/xnn_kernel.cpp:191-329 | for every width and height the block of 4-byte elements is transposed and nothing else is written; no load leaves the block when the width is a multiple of four |
| `XnnTranspose.TransposeMacro` | lib/xnn_kernel.cpp:351-442 | macro blocks, tiles and scalar remainders together transpose the matrix |
| `XnnTranspose.RegionByte` | lib/xnn_kernel.cpp:448-557 | in plain offsets, byte b of output element c*rows+r is byte b of input element r*cols+c |
| `XnnTranspose.Transpose` | lib/xnn_kernel.cpp:448-557 | for every number of rows and columns, element (c, r) of the output is element (r, c) of the input, and no other byte changes; 4-byte elements are never read past the matrix, and how far byte loads reach is exact |
| `XnnTranspose.ByteReadsInside` | lib/xnn_kernel.cpp:351-442 | the byte path reads inside the matrix if and only if there are fewer than 16 rows, or the rows left over make up for the columns read too far |
| `XnnTranspose.ByteReadsPastEnd` | lib/xnn_kernel.cpp:503-509 | a 16 by 17 matrix is read 15 bytes too far |
| `FormatCodec.AlignedColFacts` | lib/npu_format_handler.cpp:42-50 | the aligned width is the least multiple of the unit that holds a row, equal to it if and only if the unit divides it |
| `FormatCodec.EncodeAcceptsMeans` | lib/npu_format_handler.cpp:53-100 | what is accepted, in plain terms: positive widths, whole rows and room for rows of the least multiple of the unit |
| `FormatCodec.DecodeAcceptsMeans` | lib/npu_format_handler.cpp:309-360 | likewise for decoding, nothing being accepted as no rows |
| `FormatCodec.PaddedByte` | lib/npu_format_handler.cpp:104-143 | in plain offsets, byte j of row i of the padded rows is that of the input, or zero past the row |
| `FormatCodec.UnpaddedByte` | lib/npu_format_handler.cpp:363-409 | likewise for the unpadded rows |
| `FormatCodec.Encode` | lib/npu_format_handler.cpp:53-146 | accepts exactly positive widths, whole rows and enough room; every row is then padded with zeros, in place or not, and nothing past it changes |
| `FormatCodec.GatherRows` | lib/npu_format_handler.cpp:380-407 | collects the rows; the bounds check in the loop never fires |
| `FormatCodec.Decode` | lib/npu_format_handler.cpp:309-412 | the same for dropping the padding |
| `FormatCodec.UnpadPadded` | lib/npu_format_handler.cpp:309-412 | decoding what was encoded gives the bytes back |
| `FormatCodec.PaddedUnique` | lib/npu_format_handler.cpp:104-143 | the padded bytes are determined by the input, so the in-place and out-of-place paths agree |
| `FormatCodec.UnpaddedUnique` | lib/npu_format_handler.cpp:363-409 | the unpadded bytes are determined by the input, so decoding in place and out of place agree |
| `FormatGroups.PlaceInjective` | lib/npu_format_handler.cpp:278-302 | no two bytes of the interleaved layout share a place |
| `FormatGroups.FormattedByte` | lib/npu_format_handler.cpp:278-302 | in plain offsets, output byte g*row*unit+i*unit+k is input byte i*col+g*unit+k, or zero past the last channel |
| `FormatGroups.ChunkInside` | lib/npu_format_handler.cpp:254-262 | the chunks copied lie inside both buffers, so the bounds checks never fire |
| `FormatGroups.EncodeFormatted` | lib/npu_format_handler.cpp:182-305 | out of place, byte k of group g of row i lands at place (g, i, k) with zeros elsewhere; in place the result is all zeros |
| `FormatGroups.FormattedZero` | lib/npu_format_handler.cpp:182-305 | a formatted tensor is all zeros if and only if the tensor is |
| `FormatGroups.FormattedUnique` | lib/npu_format_handler.cpp:278-302 | the formatted bytes are determined by the input |
| `FormatGroups.InPlaceFormattedRight` | lib/npu_format_handler.cpp:228-240 | formatting in place is right if and only if the tensor is all zeros |
| `FormatGroups.InPlaceFormattedLoses` | lib/npu_format_handler.cpp:182-305 | the formatter run in place on one non-zero byte does not leave its formatted form |
| `FormatGroups.SkipCopyPadded` | lib/npu_format_handler.cpp:808-819 | a tensor the encoder accepts into a buffer of the tensor's own size is its own padded form, and the only one |
| `FormatGroups.FormatIdentityExact` | lib/npu_format_handler.cpp:278-302 | formatting leaves every tensor of a shape as it is if and only if the unit divides the channels and there is one group or one row |
| `FormatGroups.SkipCopyDiffers` | lib/npu_format_handler.cpp:278-302 | otherwise a tensor that formatting changes |
| `FormatTranspose.RegionUnique` | lib/npu_format_handler.cpp:433-485 | the transposed bytes are determined by the input, so all paths agree |
| `FormatTranspose.TransposeTwice` | lib/npu_format_handler.cpp:433-485 | transposing twice gives the matrix back |
| `FormatTranspose.SwapTranspose` | lib/npu_format_handler.cpp:675-706 | swapping across the diagonal transposes a square matrix in place |
| `FormatTranspose.SlotInTotal` | lib/npu_format_handler.cpp:730-741 | every element slot lies inside the bytes of the matrix, so the bounds checks of the transpose never fire |
| `FormatTranspose.TransposeThroughBuffer` | lib/npu_format_handler.cpp:712-751 | transposing into a temporary and copying back transposes any matrix in place |
| `FormatTranspose.TransposeInPlace` | lib/npu_format_handler.cpp:645-757 | transposes in place, square or not; invalid sizes change nothing |
| `FormatTranspose.NeonTranspose` | lib/npu_format_handler.cpp:593-642 | so does the accelerated path, from a copy when in place |
| `FormatTranspose.BidirectionalTranspose` | lib/npu_format_handler.cpp:433-485 | every combination of in place, square, element size and acceleration leaves the transposed matrix and the bytes after it unchanged |
| `FormatAligned.EncodeAligned` | lib/npu_format_handler.cpp:946-976 | accepted exactly when the padding is; the result is the padded rows of the transposed buffer, and for a tensor of the shape's size its channel-last form, padded |
| `FormatAligned.DecodeAligned` | lib/npu_format_handler.cpp:1102-1112 | the decode buffer holds the unpadded rows and the encoded buffer their transpose; for an encoded tensor of the shape that is its channel-first form |
| `FormatAligned.WidthMeans` | lib/npu_format_handler.cpp:955-972 | the rows of the aligned layout are as wide as the least multiple of the unit that holds the channels, in elements of four bytes for 32-bit floats and one byte otherwise |
| `FormatAligned.AlignedByte` | lib/npu_format_handler.cpp:946-976 | in plain offsets, each byte of an encoded tensor is the byte of the channel-first tensor it stands for, or zero past the channels |
| `FormatAligned.DecoderAccepts` | lib/npu_format_handler.cpp:309-362 | the decoder accepts what the encoder produced |
| `FormatAligned.AlignedRoundTrip` | lib/npu_format_handler.cpp:946-976 | decoding undoes encoding on every tensor |
| `FormatAligned.SendAndReceive` | lib/npu_format_handler.cpp:1102-1112 | encoding with transposition and decoding with transposition, with or without acceleration on either side, returns the tensor |
| `FormatAligned.SendAndReceivePlain` | lib/npu_format_handler.cpp:916-944 | so does the untransposed pair |
| `FormatInputs.EncodeInput` | lib/npu_format_handler.cpp:808-944 | per layout: rows of the whole tensor (PRE_FORMATTER), of width times channel bytes (PRE_IM2COL) or of the channels, four bytes each for floats (ALIGNED), each padded to the least multiple of the unit, whether the copy was skipped or not, and if the encoder refuses the buffer goes out as it was; for FORMATTED the tensor itself or its interleaved form, transposed in place if asked for; other layouts the tensor. The copy is skipped exactly for a single input of the declared size |
| `FormatInputs.SentInterleavedExact` | lib/npu_format_handler.cpp:861-882 | for FORMATTED, what the device reads is the interleaved tensor, for all tensors of a shape, if and only if the guard of the shortcut is false or formatting that shape changes nothing |
| `FormatInputs.SingleInterleavedExact` | lib/npu_format_handler.cpp:808-819 | for a single input declared with its interleaved size: if and only if the unit does not divide the channels, or there is one group, or one row |
| `BufferPool.ReturnTop` | lib/fixed_size_buffer.cpp:328-392 | returning the buffer just taken restores the free list, order included |
| `BufferPool.ReturnAllTops` | lib/task.cpp:779-839 | so for a whole set, and returning it twice changes nothing |
| `BufferPool.FixedSizeBuffer.constructor` | lib/fixed_size_buffer.cpp:52-90 | all buffers free |
| `BufferPool.FixedSizeBuffer.GetBuffer` | lib/fixed_size_buffer.cpp:328-354 | hands out the last free buffer, nothing for an empty pool, a failure when all are taken |
| `BufferPool.FixedSizeBuffer.ReleaseBuffer` | lib/fixed_size_buffer.cpp:356-392 | returns a buffer of this pool once; refuses a foreign one; a double release changes nothing |
| `BufferPool.FixedSizeBuffer.HasBuffer` | lib/fixed_size_buffer.cpp:394-398 | true exactly when the next `GetBuffer` has a buffer to hand out |
| `BufferPool.Task.constructor` | lib/task.cpp:566-588 | an NPU task has three full pools of one size, a CPU task one |
| `BufferPool.Task.AcquireAllBuffers` | lib/task.cpp:779-824 | one buffer of each pool, or none exactly when a pool is exhausted, in which case every free list is as before |
| `BufferPool.Task.ReleaseAllBuffers` | lib/task.cpp:827-839 | returns every buffer of the set to its pool; fails exactly when one does not belong, after returning those before it in reverse order |
| `BufferPool.Request.SetBufferSet` | lib/request.cpp:428-442 | holds the set and returns one held before |
| `BufferPool.Request.ReleaseBuffers` | lib/request.cpp:444-479 | returns the set held the first time only |
| `BufferPool.Request.EndWithoutSet` | lib/inference_job.cpp:686-749 | the buffers of a request without a set go back one by one, the output unless it lies in the user's buffer or a tail task's user passed one, and the reset that follows returns nothing again |
| `BufferPool.Request.Reset` | lib/request.cpp:309-339 | returns the set unless already released, and forgets the task |
| `BufferPool.Request.ReleaseIndividualBuffers` | lib/inference_job.cpp:686-749 | exactly those buffers are returned and the request counts as released |
| `BufferPool.Request.Life` | lib/device_pool/request_response_class.cpp:55-80 | from dispatch to reset, with or without an early release, the free lists end exactly as they began |
| `BufferLifecycle.StepKeeps` | lib/inference_job.cpp:751-828 | every take and return of every job keeps the shape of all jobs and conserves every pool |
| `BufferRefinement.KindsArePools` | lib/task.cpp:566-588 | the machine has one pool for each pool object of the task: three on the NPU, one on the CPU |
| `BufferRefinement.EquippedHoldsAll` | lib/task.cpp:779-824 | a request is equipped if and only if it holds a buffer of each of them |
| `BufferRefinement.AcquireNpu` | lib/task.cpp:779-824 | the take steps of an NPU request take what `AcquireAllBuffers` takes, leave the lists it leaves and touch nothing else |
| `BufferRefinement.AcquireCpu` | lib/task.cpp:779-824 | so do those of a CPU request |
| `BufferRefinement.AcquireNeedsAll` | lib/task.cpp:779-824 | the steps are possible only if none of the three lists is empty |
| `BufferRefinement.ReleaseNpu` | lib/task.cpp:827-839 | the return steps of an NPU request leave the lists `ReleaseAllBuffers` leaves |
| `BufferRefinement.ReleaseCpu` | lib/task.cpp:827-839 | so do those of a CPU request |
| `BufferLifecycle.CountMoreHolders` | lib/task.cpp:779-839 | if all holders of one pool hold another and some job holds only the other, it has more holders |
| `BufferTheorems.FreePlusHeld` | lib/fixed_size_buffer.cpp:328-392 | in every reachable state free plus held is the full duplicate-free pool, and no buffer is held twice or while free |
| `BufferTheorems.ReleaseIsGenuine` | lib/fixed_size_buffer.cpp:356-392 | a buffer returned belongs to the pool and is not free, so neither guard fires |
| `BufferTheorems.OnlyFirstWaits` | lib/task.cpp:566-583 | a request that holds a buffer of its task finds the remaining pools non-empty |
| `BufferTheorems.WaitBelowHead` | lib/inference_job.cpp:751-828 | with any number of heads, if all start loops visit the same one first, a request besides it that must wait waits for a job already returning its buffers, whose next step is possible |
| `BufferTheorems.NoDeadlock` | lib/inference_job.cpp:751-828 | then, unless every job has finished, some step is possible |
| `BufferDeadlock.DifferentFirstDeadlocks` | lib/inference_job.cpp:459-483 | for every model, two orders of visit with different first heads lead to a run that ends stuck, with as many jobs of each as a pool has buffers |
| `BufferDeadlock.NeverStuckExact` | lib/inference_job.cpp:459-483 | for every model and set of orders, no run of any number of jobs that visit in these orders gets stuck if and only if all orders begin with the same head |
| `BufferDeadlock.OppositeOrdersDeadlock` | lib/inference_job.cpp:459-483 | the smallest case: two heads, one buffer each, two jobs that visit them in opposite orders, and the state they get stuck in |
| `BufferTheorems.EveryRunEnds` | lib/inference_job.cpp:751-828 | no run is longer than the work at its start |
| `BufferTheorems.RunBalance` | lib/request.cpp:428-479 | over any run, held before plus taken equals held after plus returned, buffer by buffer |
| `BufferTheorems.AllComeBack` | lib/inference_job.cpp:803-828 | a run that can go no further has finished every job, returned every buffer exactly as often as it was taken and left every pool full |
| `MemorySizing.CalculateMaxBufferCount` | lib/inference_engine.cpp:2036-2068 | the greatest count up to the one asked for whose 64-bit cost fits; none exactly when that of one buffer does not fit |
| `MemorySizing.CountExact` | lib/inference_engine.cpp:2036-2068 | the count computed is the true greatest count that fits (none exactly when one buffer truly does not), for every memory size, if and only if the cost at the count asked for does not wrap |
| `MemorySizing.FitsBelow` | lib/inference_engine.cpp:2036-2068 | a count fits if and only if it is at most the true one |
| `MemorySizing.WrapAcceptsTooMuch` | lib/inference_engine.cpp:2042-2046 | a concrete cost that wraps: two buffers are granted where one fits |
| `MemorySizing.TotalCosts` | lib/inference_engine.cpp:1996-2031 | the running 64-bit totals are the true sums over the tasks that have a register map, wrapped once |
| `MemorySizing.TaskCosts` | lib/inference_engine.cpp:2013-2030 | what one task adds to the totals: its binaries, and per buffer its 32-bit input size rounded up to 64 and its 32-bit output size |
| `MemorySizing.AdjustBufferCount` | lib/inference_engine.cpp:1982-2034 | the count computed from the least memory of the selected devices and the wrapped totals |
| `MemorySizing.AdjustExact` | lib/inference_engine.cpp:1982-2068 | it is the greatest count at which all tasks fit in every device, for all sets of devices, if and only if the true total at the count asked for does not wrap |
| `MemorySizing.UsageIsCost` | lib/task_data.cpp:453-454 | the memory the tasks report is their cost, plus what a PPU adds to their outputs per buffer, less the PPU binaries |
| `MemorySizing.UsageExact` | lib/task_data.cpp:453-454 | when the cost does not wrap: at the greatest count that fits, the tasks together stay within every device, for all sets of 64-bit device memories, if and only if what PPUs add at the count asked for is no more than the PPU binaries |
| `MemorySizing.SizedModelFits` | lib/inference_engine.cpp:1982-2068 | without wrap-around the count chosen is the right one, and if no PPU enlarges an output, or under that condition, the memory of all tasks together is within every selected device and what each reports does not wrap |
| `MemorySizing.CostsNearTrue` | lib/inference_engine.cpp:2009-2031 | the cost of a model is its true size, with the inputs of each buffer of each task rounded up by less than 64 bytes |
| `MemorySizing.TrueSizesFit` | lib/inference_engine.cpp:1982-2068 | in true sizes, nothing rounded: at the count granted everything fits in every device, and a count refused does not fit with less than 64 spare bytes for each buffer of each task |
| `MemorySizing.NpuTasksAre` | lib/inference_engine.cpp:1998-2011 | the tasks counted are exactly those with a register map |
| `MemorySizing.PpuOutputNotCounted` | lib/task_data.cpp:420-430 | a PPU task without a binary, whose 128 KiB of added output make it exceed the device it was granted a buffer on |
| `OutputLayout.SearchesAgree` | lib/inference_engine.cpp:316-381 | first match, sum of matches and sum over tail tasks are one size when one tail task makes the tensor |
| `OutputLayout.OneTailMeans` | lib/inference_engine.cpp:316-381 | a tensor made by a tail task whose name no other tensor has is the one all searches find, with its size |
| `OutputLayout.FirstAllMeans` | lib/inference_engine.cpp:2442-2458 | the first producer is the task and output no earlier one precedes |
| `OutputLayout.SumsAdd` | lib/inference_engine.cpp:1546-1563 | the sums by name run over all tensors, for tail offsets over the first match of each tail task |
| `OutputLayout.SumInAdds` | lib/inference_engine.cpp:1546-1563 | within a task too |
| `OutputLayout.SumsOfOne` | lib/inference_engine.cpp:1546-1563 | and one tensor adds its size if it has the name, one tail task its first match |
| `OutputLayout.BuildRegistry` | lib/inference_engine.cpp:2417-2484 | the registry holds exactly the tensors the tasks name, each with the size of its first producer |
| `OutputLayout.CalculateTensorOffsets` | lib/inference_engine.cpp:2495-2530 | for distinct outputs each made by one tail task, the cached offsets are the prefix sums of the sizes |
| `OutputLayout.GetOutputsOffsets` | lib/inference_engine.cpp:1316-1337 | so are the offsets of `GetOutputs` |
| `OutputLayout.LayoutUnique` | lib/inference_engine.cpp:2495-2530 | such offsets are unique, so both are the same map |
| `OutputLayout.LayoutMeans` | lib/inference_engine.cpp:2495-2530 | the first output is at zero and each follows the one before it |
| `OutputLayout.GetOutputSize` | lib/inference_engine.cpp:1534-1566 | the last prefix sum; the size of the first PPU task if there is one; zero for dynamic shapes |
| `OutputLayout.TailOffset` | lib/inference_engine.cpp:324-376 | none exactly when the task makes no output; else the sizes before its first output, a repeated name standing where it stands last; for distinct outputs each made by one tail task, the least offset of an output of the task |
| `OutputLayout.LayOut` | lib/inference_engine.cpp:2417-2530 | registry, cached offsets, `GetOutputs` offsets, tail offsets and output size together: the two maps are equal, every tail offset is the least cached offset of its task's outputs, and the size is where the last output ends |
| `OutputLayout.SetReturnOutputs` | lib/inference_job.cpp:488-545 | the user's buffer is the outputs one after the other in order, those already in place included, and unchanged after them; the missing names are reported in order |
| `OutputLayout.CopyReturnOutputs` | lib/inference_job.cpp:511-522 | without a user buffer, copies of the outputs found, in order, one for each unless some are missing |
| `OutputLayout.SameBytesEitherWay` | lib/inference_job.cpp:488-545 | with and without a user buffer the same bytes are returned |

## Left out

- DeviceMemory.Memory.Allocate: addresses are not converted to signed 64-bit numbers; memories of size 0 or of the largest 64-bit number, which the constructor accepts and whose map is not valid, are not followed further.
- DeviceMemory.Memory.GetFragmentationInfo: the ratio is an exact real number, not a double.
- The special node status 2 and the overloads that translate device requests to sizes and addresses: thin forwarding.
- InferenceJobs.InferenceJob.ProcessReadyTask: a tensor with null data is the same as a missing one; building the request object and choosing its output buffer are not modelled.
- InferenceJobs.InferenceJob.CheckAndSetTaskReady: logging of missing inputs.
- JobProgress.EveryRunEnds: every dispatched request is assumed to complete at some time; errors of the device or of a CPU task are not modelled.
- Reuse of a job while the start loop of its previous life still runs: one life of a job is modelled.
- FormatCodec.Encode: 32-bit sizes are assumed not to wrap (`SizesFit`), since the copies would then leave the buffer; two buffers are the same or disjoint, and null pointers are not modelled; failure to allocate a temporary buffer is left out.
- FormatCodec.Decode: likewise (`DecodeFits`).
- FormatGroups.EncodeFormatted: likewise; the code does not check the room of the output, so the model requires it.
- FormatAligned.DecodeAligned: the pointer of the output tensor is redirected to the encoded buffer, which the model expresses by where the result is.
- XnnTranspose.Transpose: input and output do not overlap.
- The IPP transpose, VNPU memory and physical addresses: foreign calls.
- BufferPool.FixedSizeBuffer.GetBuffer: waiting with a timeout is an immediate failure in the class; in the state machine a request waits until a buffer is free. Destruction of a pool under waiting threads is left out.
- FormatInputs.EncodeInput: one input at a time; the loop over several inputs is left out.
- BufferTheorems.NoDeadlock: all start loops visit the same head first; a device's own load limit, which a request also waits for, is left out, as are requests whose output buffer is set before dispatch (device validation only).
- The job's list of requests is not a class here: its release loop is the `Release` step of the state machine, in dispatch order and with each set in reverse.
- MemorySizing.UsageIsCost: states the true sums; what is reported is wrapped at 64 bits, see `MemorySizing.SizedModelFits`.
- OutputLayout.SetReturnOutputs: an output already in the user's buffer is at its own offset.
- OutputLayout.LayOut: static models without PPU; the special layout of PPU models is not modelled.
- Per-batch signalling and user arguments, and the dynamic CPU thread controller: not modelled.
- NPU cache slices, ring buffer, statistics, version comparison: not modelled, easy members.
- Device drivers, firmware, shared memory, ONNX Runtime, model file parsers, command-line tools, bindings and reports: foreign code or input and output.
