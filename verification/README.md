# Verified model of the DLP GEMM front end

This project models the part of the library that moves and re-describes matrices around its GEMM kernels, and
proves that none of those steps changes what is computed. The kernels themselves are the mathematical GEMM here; the
subject is the index arithmetic, the operand rewriting, the scale tables, the column sums and the batch bookkeeping
that surround them.

`dafny verify dfyconfig.toml` checks the whole project.

## What is modelled

**The caller's terms** (`CallerTerms`, `BufferTerms`, `GroupedTerms`). What the entry points are proved to do is stated
twice: through the functions that model how the library decodes its arguments, and in the terms a caller has: the
characters it passes, dimensions as numbers, the address of an element, the fields of its metadata, the type it
declares. The second statement names none of those functions. What a buffer or C holds is said that way on the entry
points themselves; when they go ahead, and which fault gives which error, in the lemmas whose names end in `Iff`.

**Blocked reorder of B** (`Arith`, `Traces`, `ThreadRange`, `PanelLayout`, `BlockedLayout`, `PanelPack`,
`ReorderWalk`, `UnreorderWalk`, `Reorder`, `ColumnCopy`, `ReorderF32`). The layout is the general one of the layout
header: NR-wide chunks, a fringe, a zero-padded min_NR tail, k_factor rows interleaved, KC x NC panels. `Pos` is the
position a single-threaded traversal gives a cell; it is a bijection onto the size the query reports. A thread is a
method with the JC and PC loops of the source; it returns the trace of its writes, and the team theorems quantify over
every interleaving of the traces of a team, for any consecutive NR-aligned slices of the columns. The slices
`dlp_thread_task_range` computes are such slices.

**Operand rewriting** (`StridedGemm`, `GemmF32`, `GemmBf16`, `ReorderedGemm`). `Blas` states `C = alpha * op(A) *
op(B) + beta * C` in the caller's layout over reals, with nothing outside the m x n window of C touched. `Rewrite`,
`BatchRewrite` and `RewriteBf16` reassign dimensions, pointers, strides and tags branch by branch as the entry points
do; each is proved to hand the strided row-major kernel a call that leaves exactly the `Blas` result. Verdicts of code
that is not modelled (post-operations, block sizes, kernel handles) are parameters, taken where the source takes them.

**Symmetric-quantised GEMM** (`CallMetadata`, `ScaleTables`, `SymQuant`, `GroupedLayout`, `SymQuantGemm`,
`ReorderedQuant`, `ReorderedSums`). Scale tables are raw bytes; a decoder, left uninterpreted, turns two or four bytes
into a factor. The entry point translates the caller's metadata, and for column-major calls transposes both tables and
exchanges tables, lengths and granularity labels. The result is stated on the caller's own operands and tables. A
reordered B is read in the layout its group size and shape select, and that is the layout the grouped reorder leaves.
The kernels add 128 to A and take back the sums stored behind the weights; with the sums the reorder leaves, that is
the signed product.

**Single-column reorders with group sums** (`Words`, `Nibbles`, `ColumnSums`, `ColumnReorder`, `ColumnWords`,
`Int8Reorder`). Buffers are bytes; sums are little-endian int32 words updated in place, wrapping in two's complement.
Each method also reports, as a ghost result, whether any of its int32 operations had to wrap. `Laid` is the
finished buffer; the tuned, reference, grouped and four-bit loops are all proved to produce it. The panelled int8
reference reorder with its table of column sums is included.

**Wide grouped reorders** (`GroupedSums`, `GroupedTraces`, `GroupedPack`, `GroupedWalk`, `GroupedReorder`,
`GroupedTeam`, `GroupedS4`, `GroupedFused`, `CompactTeam`, `GroupedEntry`). B is packed strip by strip and, within a
strip, group by group; each packing call adds to the slots of its own vector of sums. The int8 worker, the portable
four-bit worker (widen, reorder, compress) and the fused one (pack a strip to scratch, compress it into place) are
methods with the source's loops, run by as many of the threads asked for as exist, and the two four-bit workers are
proved to leave the same bytes. A thread also returns the trace of all its writes, weights and sums, and the team
theorems quantify over every interleaving of them. The scratch is never overrun and the size queries report exactly
what is laid out.

**Batch loop** (`BatchStatus`). Groups with their arguments, flat arrays of matrix pointers, and metadata objects that
may be null or shared. Argument checks, group-size and matrix-pointer checks, refusals, the walk over the flat arrays
and both status protocols are modelled; verdicts on post-operations and on what lies between the refusals and the
dispatch are inputs of each group.

## What the code does not promise everywhere

Each of these is proved with the exact condition.

- *f32, n == 1, reordered B.* With row-major order, transposed A, `ldc == 1` and no post-operations, the second GEMV
  flip (classic/aocl_gemm_f32f32f32of32.c:439-458) makes the reordered vector the kernel's A with column stride
  `ldb`, although a reordered vector is contiguous; the loop it reaches packs A by stride without looking at A's tag
  (classic/frame/f32f32f32/dlp_gemm_f32f32f32.c:276-289). The result is right for all data exactly when B is
  transposed, or `ldb == 1`, or `k == 1` (`GemmF32.FlipIsRightIff`); on every other accepted call with alpha not 0 there
  are operands whose C is not the BLAS result (`GemmF32.FlipGivesWrongC`). The batch path has no flips and is right
  always.
- *Tuned and grouped reorders, short team.* The tuned f32 reorder and the grouped int8 and four-bit workers split the
  columns by the number of threads they asked for (classic/aocl_gemm_f32f32f32of32_utils.c:241-243,
  classic/frame/s8s8s32/dlp_gemm_reorder_s8.c:202-204, classic/frame/s8s8s32/dlp_gemm_reorder_s8s4.c:149-151), the
  reference by the number it got (classic/frame/gemm_utils/dlp_gemm_reorder_ref.c:196-197). When the runtime supplies
  fewer threads than asked, they still complete B from every memory exactly when the columns are whole panels and there
  are no more panels than threads (`Reorder.ShortTeamIff`, `GroupedTeam.ShortGroupTeamIff`,
  `CompactTeam.ShortFusedTeamIff`). The header's statement that the thread count does not change the bytes holds for
  teams that suffice.
- *Shared metadata in a batch.* Lazy tail-marking ends with the statuses of the eager pre-pass on every run exactly when
  no metadata object serves two groups (`BatchStatus.ProtocolsAgreeIff`).
- *Reorders of the AWQ matrix type.* The tuned f32 and int8 reorders refuse only matrix type A, their size queries
  everything but B (classic/aocl_gemm_f32f32f32of32_utils.c:60-69 and 165-171;
  classic/aocl_gemm_s8s8s32os32_utils.c:112-118 and 310-316), so for type W the query reports zero bytes for a call that
  fills the buffer. Of the calls a tuned f32 reorder accepts, its query turns away as unsupported exactly those
  (`ReorderF32.TunedNeedsQueryIff`); for one int8 column the two agree exactly for the other types on machines whose
  block sizes the query accepts (`Int8Reorder.TunedNeedsQueryIff`).
- *Scale factors narrower than what is moved.* Every type of the enumeration is accepted for a table
  (classic/frame/dlp_gemm_post_ops.c:65-92 and 316-325), and two bytes are moved for a bf16 factor, four for any other
  (classic/aocl_gemm_s8s8s32of32_sym_quant.c:284-286). What an accepted call moves lies in its tables exactly when they
  hold a factor of that size for every row and group, and every group and column (`SymQuantGemm.AcceptedReadsIff`); the
  declared length and the type's own size do not decide it. Tables of exactly the factors needed are read past for every
  type narrower than that, four-bit, one-byte and two-byte ones other than bf16, and for no other
  (`SymQuantGemm.ExactTablesIff`); such calls exist for every type, m, n and k (`SymQuantGemm.ExactTablesAccepted`).
- *int32 dot products.* The kernels accumulate the rows of a group, or of a K panel of a single group, in int32. Every
  int8 dot product of k rows stays within it exactly up to 131071 rows (`ReorderedSums.DotsFitIff`); a panel's result
  is exact up to there and wraps beyond (`ReorderedSums.BlockDotIs`).
- *Pointer check at the group index.* A batch checks the pointers at the group's index, which may belong to another
  group, before those of its own range. That can change the error a stopping group reports, never where the batch stops
  (`BatchStatus.StopIsFirstUncomputable`).
- *int32 column sums.* 128 times the sum of a group stays within int32 for every content exactly up to 131072 int8
  elements, or 2^21 four-bit ones (`ColumnSums.ScaledSumsFitIff`). The size checks allow longer columns.

## Model

| member | source | states |
|---|---|---|
| `PanelLayout.ChunkFacts` | classic/include/gemm_utils/dlp_gemm_reorder_layout.h:45-58 | The chunk of a column contains it, chunks are disjoint and together tile the padded width, the tail in a whole min_NR slot. |
| `PanelLayout.PanelCellOfPos` | classic/include/gemm_utils/dlp_gemm_reorder_layout.h:60-68 | Within a panel no two cells share a position, for every NR, min_NR and k_factor. |
| `PanelLayout.PosOfPanelCell` | classic/include/gemm_utils/dlp_gemm_reorder_layout.h:100-106 | Every position of the padded panel belongs to a cell. |
| `PanelLayout.SubPanel` | classic/include/gemm_utils/dlp_gemm_reorder_layout.h:260-268 | A packer that starts in the middle of a panel lays its columns out where the whole panel's layout has them, displaced by columns times padded height. |
| `PanelPack.NextChunk` | classic/include/gemm_utils/dlp_gemm_reorder_layout.h:121-155 | From a chunk of the panel the walk goes to the adjacent chunk, and stops exactly at the padded width. |
| `PanelPack.PackPanel` | classic/frame/gemm_utils/dlp_gemm_reorder_ref.c:63-103 | The writes made end with every padded cell of the panel at its position, matrix value or zero, and touch no other address. |
| `PanelPack.UnpackPanel` | classic/frame/gemm_utils/dlp_gemm_reorder_ref.c:105-141 | Every live cell goes back to its strided address; padding is not read and no other address is written. |
| `BlockedLayout.PanelWidthIs` | classic/include/gemm_utils/dlp_gemm_utils.h:181-201 | The width helper returns the padded width of the panel, last panel included. |
| `BlockedLayout.CellOfPos` | classic/aocl_gemm_f32f32f32of32_utils.c:253-310 | The whole-buffer layout is injective and stays within the reported size. |
| `BlockedLayout.PosOfCell` | classic/aocl_gemm_f32f32f32of32_utils.c:99-115 | With padding it is onto: every element of the buffer the size query asks for is the position of a cell. |
| `BlockedLayout.MidPanelStart` | classic/aocl_gemm_f32f32f32of32_utils.c:269-309 | The offset computed for a thread that starts inside a panel puts each cell exactly where the single-threaded layout has it. |
| `BlockedLayout.BlockMembership` | classic/aocl_gemm_f32f32f32of32_utils.c:304-309 | The region one packing call fills holds the cells of its block and of no other. |
| `BlockedLayout.BlockInBounds` | classic/aocl_gemm_f32f32f32of32_utils.c:304-309 | Every such region lies inside the reported size. |
| `ThreadRange.RangeIsSlice` | classic/include/threading/dlp_gemm_thread_utils.h:127-236 | Each thread's range starts on a block boundary and ends on one or at n. |
| `ThreadRange.RangesAreOrdered` | classic/include/threading/dlp_gemm_thread_utils.h:127-236 | The ranges of a full team are disjoint, adjacent and tile [0, n). |
| `ThreadRange.RangesAreBalanced` | classic/include/threading/dlp_gemm_thread_utils.h:127-236 | No two shares differ by more than one block, the larger ones come first, and an id outside the team gets an empty range. |
| `ThreadRange.TeamCoversIff` | classic/include/threading/dlp_gemm_thread_utils.h:138-148 | If only some of the ids exist, every column is covered exactly when none is missing or the missing ones own no block. |
| `ReorderWalk.ClipIsBlock` | classic/include/gemm_utils/dlp_gemm_utils.h:203-241 | After clipping, what a pass of the JC loop handles lies in one panel, and resetting jc before adding NC lands on the end of what was handled or past the slice. |
| `ReorderWalk.ReorderThread` | classic/aocl_gemm_f32f32f32of32_utils.c:253-313 | One thread's loops end; their clipped ranges tile its slice without overlap; the trace leaves exactly its own columns packed and writes nothing else. |
| `UnreorderWalk.UnreorderThread` | classic/frame/gemm_utils/dlp_gemm_reorder_ref.c:205-240 | The same walk read backwards restores exactly the thread's own columns. |
| `Reorder.TeamResult` | classic/aocl_gemm_f32f32f32of32_utils.c:237-314 | After any interleaving of a team's writes, each cell holds its value if some slice reaches its column and what it held before otherwise. |
| `Reorder.TaskSlicesSplit` | classic/include/threading/dlp_gemm_thread_utils.h:127-236 | The ranges the library gives the first threads of a team are consecutive NR-aligned slices, and those of a full team reach n. |
| `Reorder.AnyInterleavingReorders` | classic/aocl_gemm_f32f32f32of32_utils.c:237-314 | For any consecutive NR-aligned slices that reach n, any interleaving of the slices' writes leaves the reordered matrix, padding zeroed, and nothing beyond its size changed. |
| `Reorder.ShortTeamIff` | classic/aocl_gemm_f32f32f32of32_utils.c:238-254 | A team split by the requested count, of which only some threads exist, reorders B from every memory exactly under the condition stated above. |
| `Reorder.SameBytes` | classic/include/gemm_utils/dlp_gemm_reorder_layout.h:242-246 | Two completed reorders of one matrix agree on the whole buffer, whatever their thread counts and schedules. |
| `Reorder.ReorderB` | classic/frame/gemm_utils/dlp_gemm_reorder_ref.c:168-261 | The reference reorder leaves the reordered matrix for every requested thread count, zero and negative included. |
| `Reorder.UnreorderB` | classic/frame/gemm_utils/dlp_gemm_reorder_ref.c:263-280 | The reference un-reorder restores the window and leaves every address outside it alone. |
| `Reorder.AnyInterleavingUnreorders` | classic/frame/gemm_utils/dlp_gemm_reorder_ref.c:192-241 | So does any interleaving of the writes of any such slices. |
| `Reorder.RoundTrip` | classic/include/gemm_utils/dlp_gemm_reorder_layout.h:204-211 | Reorder then un-reorder restores every element, between any two stridings, for every k_factor and min_NR. |
| `ReorderF32.CheckedMulIff` | classic/include/gemm_utils/dlp_gemm_reorder_layout.h:169-181 | The guard rejects exactly the products that exceed the size type. |
| `ReorderF32.SizeBytesIff` | classic/include/gemm_utils/dlp_gemm_reorder_layout.h:183-202 | A size is reported exactly when no factor is out of range and rows * cols * element + extra fits, and is then that number, else 0. |
| `ReorderF32.ReorderCheckIff` | classic/include/aocl_dlp_gemm_check.h:61-199 | Every argument of a size query, a reorder and an un-reorder: the characters, dimensions and leading dimensions let through, and the error each other one gives. |
| `ReorderF32.ReferenceStatusIff` | classic/aocl_gemm_f32f32f32of32_utils.c:317-417 | When the reference reorder goes ahead, on the caller's arguments, and which refusal each fault gives. |
| `ReorderF32.OtherStatusesIff` | classic/aocl_gemm_f32f32f32of32_utils.c:130-192 | When the tuned reorder and the un-reorder go ahead and which refusal each fault gives, likewise. |
| `ReorderF32.SizeQueryIff` | classic/aocl_gemm_f32f32f32of32_utils.c:39-115 | When a size is reported, how many bytes it is, and that a refusal reports none. |
| `ReorderF32.SizeQueryIsLayout` | classic/aocl_gemm_f32f32f32of32_utils.c:94-115 | A successful query reports four bytes for each element the reorder lays out, a single column included, in well-formed panels. |
| `ReorderF32.TunedNeedsQueryIff` | classic/aocl_gemm_f32f32f32of32_utils.c:60-171 | Of the calls the tuned reorder accepts, the query turns away as unsupported exactly those of the AWQ matrix type. |
| `ColumnCopy.GatherColumn` | classic/aocl_gemm_f32f32f32of32_utils.c:193-204 | The n == 1 path copies the strided column in order and leaves the rest of the buffer. |
| `ReorderF32.ReorderReference` | classic/aocl_gemm_f32f32f32of32_utils.c:317-417 | Status for every argument and every verdict of the context update; on refusal the buffer is untouched; otherwise every element of op(B), by its address in the caller's memory, is at its position, every padded position is 0.0, and nothing else is touched. |
| `ReorderF32.AnyTeamLays` | classic/aocl_gemm_f32f32f32of32_utils.c:237-314 | The same buffer, element by address and padding 0.0, after any interleaving of any team's writes, for any consecutive slices that reach n. |
| `ReorderF32.UnreorderReference` | classic/aocl_gemm_f32f32f32of32_utils.c:419-509 | Status for every argument and every verdict of the context update; on success every element is back at its address in the caller's memory and nothing else is written. |
| `ReorderF32.F32RoundTrip` | classic/aocl_gemm_f32f32f32of32_utils.c:317-509 | Reorder then un-reorder restores B for all k, n, order, transposition and leading dimension, n == 1 included, and changes nothing outside the window. |
| `ReorderF32.FiveLoopReadsLayout` | classic/frame/f32f32f32/dlp_gemm_f32f32f32.c:498-508 | The loop that consumes a reordered B addresses the same cell of the same layout. |
| `StridedGemm.GemmCheckIff` | classic/include/aocl_dlp_gemm_check.h:199-286 | Every argument of a multiplication: what is let through, and the error each fault gives. |
| `StridedGemm.RefusedIff` | classic/aocl_gemm_f32f32f32of32.c:158-183 | Of calls with good arguments exactly those are refused whose A is tagged r or R, or whose B is in column-major order. |
| `StridedGemm.ResultIs` | classic/include/gemm_utils/dlp_gemm_utils.h:38-50 | A BLAS result for the B a pointer stands for is, address by address of C, the product with the strided operand under the tags n, N, p, P, and with the reordered buffer under r, R. |
| `StridedGemm.GemmedIs` | classic/aocl_gemm_f32f32f32of32.c:135-155 | The update by strides is, for each address of C, alpha times the dot product of its row and column plus beta times what was there, and no change outside m x n. |
| `StridedGemm.GemmedUnique` | classic/aocl_gemm_f32f32f32of32.c:135-155 | The stated result determines C entirely. |
| `StridedGemm.MeansBlas` | classic/aocl_gemm_f32f32f32of32.c:135-155 | A kernel call on the operands as stored, or on all three transposed and exchanged, leaves the BLAS result at the caller's addresses. |
| `StridedGemm.CallStrides` | classic/include/aocl_dlp_gemm_check.h:199-286 | Accepted leading dimensions keep the cells of C distinct, however the call walks them. |
| `StridedGemm.UpdateTile` | classic/aocl_gemm_f32f32f32of32.c:518-533 | The model of the kernel: each cell of the tile becomes alpha * dot + beta * its old value, and no other address changes. |
| `GemmF32.RewriteGemm` | classic/aocl_gemm_f32f32f32of32.c:226-327 | For m, n both not 1 every branch keeps the BLAS meaning; an operand whose column stride is not 1 is tagged for packing or reordered; in the induced-transpose branches neither needs packing. |
| `GemmF32.FlipMeans` | classic/aocl_gemm_f32f32f32of32.c:411-459 | Exchanging operands and transposing all three matrices keeps the meaning of a call, provided neither is read by the reordered layout. |
| `GemmF32.RewriteGemv` | classic/aocl_gemm_f32f32f32of32.c:339-460 | For m or n equal to 1 the swap and either flip keep the meaning, for the B the flip sees; an operand with a non-unit column stride is tagged for packing or reordered, except exactly where a flip makes a strided vector the kernel's A under a tag that asks for no packing. |
| `GemmF32.Rewrite` | classic/aocl_gemm_f32f32f32of32.c:138-460 | The two together, with their tags, for every accepted order, transposition, tag and post-operation state. |
| `GemmF32.Gemm` | classic/aocl_gemm_f32f32f32of32.c:117-533 | Status for every argument and every verdict of the preparation; a refused call leaves C; any other leaves, at each address of C, the product of the operands its characters describe: B by its strides under the tags n and p, by the layout under r, except on the flip named above, where it is read by stride. |
| `GemmF32.FlipIsRightIff` | classic/aocl_gemm_f32f32f32of32.c:436-458 | The flip with a reordered B gives the right dot products for all A and B exactly when B was transposed, had ldb 1, or k is 1. |
| `GemmF32.FlipGivesWrongC` | classic/aocl_gemm_f32f32f32of32.c:436-458 | On every accepted call that takes the flip outside that condition, with alpha not 0, there are A and B for which the C it leaves is not the BLAS result. |
| `GemmF32.BatchRewrite` | classic/aocl_batch_gemm_f32f32f32of32.c:155-257 | The swap-only rewriting keeps the BLAS meaning and tags every operand with a non-unit column stride. |
| `GemmF32.BatchGemmStatusIff` | classic/aocl_batch_gemm_f32f32f32of32.c:105-235 | When a matrix of a batch is computed, on its arguments, and what is reported otherwise: the verdict on post-operations before the refusals, the rest after them. |
| `GemmF32.BatchGemm` | classic/aocl_batch_gemm_f32f32f32of32.c:105-343 | One matrix of a batch: status for every argument and verdict in the order the source takes them, and at each address of C the product of the operands its characters describe, without exception. |
| `GemmF32.SingleAndBatchAgree` | classic/aocl_gemm_f32f32f32of32.c:226-460 | The single and batch paths leave the same C in exact arithmetic, reordered B included, except on the flip just named. |
| `GemmBf16.RewriteBf16` | classic/aocl_gemm_bf16bf16f32of32.c:127-289 | Tag rules, swap and flip keep the meaning; kernel B is never dispatched unpacked, and kernel A has unit column stride or is packed. |
| `GemmBf16.Bf16Gemm` | classic/aocl_gemm_bf16bf16f32of32.c:108-289 | Status for every argument and every verdict of the preparation, and at each address of C the product of the operands its characters describe, in exact arithmetic. |
| `ReorderedGemm.ReorderedRepresents` | classic/aocl_gemm_f32f32f32of32_utils.c:317-417 | A buffer the f32 reorder filled stands for op(B) when a GEMM is told it is reordered. |
| `ReorderedGemm.ReorderedGemmAgrees` | classic/aocl_gemm_f32f32f32of32.c:226-460 | Multiplying with the reordered buffer and with plain B leaves the same C. |
| `ScaleTables.TransposedAt` | classic/aocl_gemm_s8s8s32of32_sym_quant.c:45-57 | Element (c, r) of the result is element (r, c) of the source, byte for byte, for any element size. |
| `ScaleTables.TransposeTwice` | classic/aocl_gemm_s8s8s32of32_sym_quant.c:45-57 | Transposing back with the dimensions exchanged is the identity. |
| `ScaleTables.TransposeScale` | classic/aocl_gemm_s8s8s32of32_sym_quant.c:45-57 | The loop writes each byte of the table once, no other byte, and leaves the transpose. |
| `SymQuant.KernelDotIsQuantDot` | classic/frame/s8s8s32/dlp_gemm_s8s8s32_sym_quant.c:565-580 | Leading dimensions and group multipliers address, for all four granularity combinations, the factors the caller's tables mean. |
| `SymQuant.FactorsInTables` | classic/frame/s8s8s32/dlp_gemm_s8s8s32_sym_quant.c:565-580 | Every factor so addressed lies inside its table. |
| `SymQuant.InTablesIff` | classic/frame/s8s8s32/dlp_gemm_s8s8s32_sym_quant.c:565-580 | Every byte of every factor addressed lies in its table exactly when the tables are long enough for the product. |
| `SymQuant.SwapKeepsQuantDot` | classic/aocl_gemm_s8s8s32of32_sym_quant.c:260-349 | Exchanging operands, transposed tables and labels leaves the sum over groups of A factor, B factor and integer dot product unchanged, a short last group included. |
| `SymQuant.QuantDotIs` | classic/frame/dlp_gemm_post_ops.c:65-92 | The scaled sum is the one of the caller's own tables: each factor decoded from its own two or four bytes, f32, bf16, f16, s8, u8 and s32 as themselves, any other type as invalid. |
| `SymQuantGemm.Translate` | classic/frame/dlp_gemm_post_ops.c:184-339 | Status for every combination of metadata, types compared as declared; accepted tables that hold what is moved of them have a factor for every row, column and group. |
| `SymQuantGemm.TranslateStatusIff` | classic/frame/dlp_gemm_post_ops.c:184-339 | When scales are accepted, on the fields of the operands' metadata, and which error each fault gives. |
| `SymQuantGemm.ArgumentStatusIff` | classic/aocl_gemm_s8s8s32of32_sym_quant.c:101-250 | When the arguments before the scales are accepted, and which refusal each fault gives. |
| `SymQuantGemm.AcceptedIff` | classic/aocl_gemm_s8s8s32of32_sym_quant.c:101-433 | When the quantised GEMM goes ahead, on its arguments and the fields of the metadata. |
| `SymQuantGemm.AcceptedReadsIff` | classic/aocl_gemm_s8s8s32of32_sym_quant.c:284-322 | For an accepted call, every byte the kernel addresses and every byte the transpositions move lies in its table exactly when the tables hold the factors of m rows and n columns at the size they are moved at. |
| `SymQuantGemm.ExactTablesIff` | classic/frame/dlp_gemm_post_ops.c:65-92 | Accepted tables of exactly the factors needed, stored at their own size, hold what is moved of them exactly when the type is bf16 or one of 32 bits. |
| `SymQuantGemm.ExactTablesAccepted` | classic/frame/dlp_gemm_post_ops.c:184-339 | For every type, m, n and k there is an accepted call with such tables. |
| `SymQuantGemm.SwapForColumnMajor` | classic/aocl_gemm_s8s8s32of32_sym_quant.c:266-349 | The group post-op ends with transposed, exchanged, relabelled tables in buffers of their own and exchanged lengths; the caller's tables are not modified. |
| `SymQuantGemm.Prepare` | classic/aocl_gemm_s8s8s32of32_sym_quant.c:250-433 | Status; the kernel is given the caller's tables, or for column-major order the exchanged ones, and the granularities shown to the decision engine are those of the group post-op. |
| `SymQuantGemm.SymQuantCall` | classic/aocl_gemm_s8s8s32of32_sym_quant.c:133-206 | Operands in row-major kernel order; kernel B is never unpacked, kernel A has unit column stride or is packed. |
| `SymQuantGemm.SymQuantGemm` | classic/aocl_gemm_s8s8s32of32_sym_quant.c:101-500 | Status for every argument and verdict; on success each address of C holds alpha times the sum over groups of A factor, B factor and integer dot product plus beta C, the factors decoded from the caller's own bytes as the type declared for them, B by its strides or in the layout its group size selects; only C changes. |
| `ReorderedQuant.GroupedRepresents` | classic/frame/s8s8s32/dlp_gemm_s8s8s32_sym_quant.c:440-480 | A buffer the grouped reorder filled, tight or wide, stands for op(B) in a quantised GEMM of the same group size that is told it is reordered. |
| `ReorderedQuant.ReorderedQuantAgrees` | classic/frame/s8s8s32/dlp_gemm_s8s8s32_sym_quant.c:440-480 | The quantised GEMM on that buffer's weights and on plain B leave the same C, for every group size and both layouts. |
| `ReorderedSums.CompensatedIs` | classic/kernels/zen4/s8s8s32/dlp_gemm_6x64rowmajor_s8_grp_amd512vnni.c:419-465 | Adding 128 to A and subtracting 128 times the weights' sum leaves the signed dot product, in int32 arithmetic. |
| `ReorderedSums.SlotHeld` | classic/frame/s8s8s32/dlp_gemm_s8s8s32_sym_quant.c:842-862 | The word a kernel reads as a column's sum for a group or K panel is 128 times the sum of exactly the weights it multiplies, in either layout. |
| `ReorderedSums.BlockDotIs` | classic/kernels/zen4/s8s8s32/dlp_gemm_6x64rowmajor_s8_grp_amd512vnni.c:430-465 | From weights and sums it reads in a reordered buffer a kernel gets the signed dot product, wrapped to int32, and the product itself up to 131071 rows. |
| `ReorderedSums.DotsFitIff` | classic/kernels/zen4/s8s8s32/dlp_gemm_6x64rowmajor_s8_grp_amd512vnni.c:395-428 | int8 dot products of k rows all stay within int32 exactly up to 131071 rows. |
| `ReorderedSums.KernelSumIs` | classic/frame/s8s8s32/dlp_gemm_s8s8s32_sym_quant.c:665-900 | What the kernels add over groups, or over the K panels of a single group, is the sum the quantised GEMM is to add. |
| `ReorderedSums.ReorderedKernelAgrees` | classic/frame/s8s8s32/dlp_gemm_s8s8s32_sym_quant.c:842-862 | A kernel that reads weights and sums from a buffer the grouped reorder filled leaves the C the quantised GEMM leaves on plain B. |
| `Words.LoadStored` | classic/aocl_gemm_s8s8s32os32_utils.c:320-329 | A stored int32 reads back as the value wrapped to 32 bits. |
| `ColumnReorder.TunedColumn` | classic/aocl_gemm_s8s8s32os32_utils.c:318-331 | The running sum kept in the buffer ends as 128 times the column's sum behind the copied column; no operation wraps up to 131072 elements. |
| `ColumnReorder.ReferenceColumn` | classic/aocl_gemm_s8s8s32os32_utils.c:451-468 | The reference form, which copies the column first and sums into a local, leaves the same bytes. |
| `ColumnReorder.GroupedColumn` | classic/aocl_gemm_s8s8s32os32_utils.c:599-621 | One slot per group, each 128 times its group's sum; with one group the buffer is the ungrouped one; no operation wraps up to 131072 elements a group. |
| `ColumnReorder.NibbleColumn` | classic/aocl_gemm_s8s4s32os32_utils.c:268-290 | The four-bit loop leaves what the int8 loop leaves for the widened column, sums included; no operation wraps up to 2^21 elements a group. |
| `Nibbles.UnpackIsS4` | classic/aocl_gemm_s8s4s32os32_utils.c:277-281 | Shift, mask and sign extension give the element's signed four-bit value, low nibble first. |
| `ColumnReorder.S4IsS8OnWidened` | classic/aocl_gemm_s8s4s32os32_utils.c:260-265 | A four-bit and an int8 column with equal values reorder to equal bytes, whatever their strides. |
| `ColumnSums.LaidReads` | classic/include/gemm_utils/dlp_gemm_utils.h:77-87 | Reading the finished buffer gives back every weight and every group's scaled sum; the two regions are disjoint, and padding and everything past the size are as before. |
| `ColumnSums.SlotsAddUp` | classic/aocl_gemm_s8s8s32os32_utils.c:603-618 | The slots of a grouped buffer add up, in int32 arithmetic, to the single sum of the ungrouped one. |
| `ColumnSums.ScaledSumsFitIff` | classic/aocl_gemm_s8s8s32os32_utils.c:606-617 | Scaled sums of every column of a length fit int32 exactly up to 2^24 / bound elements. |
| `ColumnSums.PartialSumFits` | classic/aocl_gemm_s8s8s32os32_utils.c:606-617 | Below that length every intermediate sum fits, scaled or not. |
| `ColumnWords.WriteColumnSums` | classic/include/gemm_utils/dlp_gemm_utils.h:89-112 | One int32 for every padded column at the end of the panels, and no other byte changed. |
| `ColumnWords.SumsRead` | classic/include/gemm_utils/dlp_gemm_utils.h:102-111 | Each live column's slot reads as 128 times its sum, each padding column's as 0. |
| `GroupedEntry.ResolveGroupSize` | classic/aocl_gemm_s8s4s32os32_utils.c:43-90 | Success exactly when the metadata asks for a group size, and that size: each operand that carries metadata quantises and asks for it, 0 standing for k; in (0, k], k or a multiple of four; an absent operand never decides, and with neither it is k. |
| `GroupedEntry.GroupSizeIff` | classic/aocl_gemm_s8s4s32os32_utils.c:43-90 | That size is unique; absent metadata and operands that do not quantise each give their own error. |
| `GroupedEntry.ReorderAndGemmGroups` | classic/frame/dlp_gemm_post_ops.c:244-269 | Metadata the quantised GEMM accepts resolves to the same group size on the reorder side. |
| `GroupedLayout.AlignedKc` | classic/include/gemm_utils/dlp_gemm_utils.h:148-162 | The aligned KC is a whole number of groups: the largest not above KC, or one group when none fits. |
| `GroupedLayout.TightIff` | classic/aocl_gemm_s8s8s32os32_utils.c:595-600 | The gate of the tight layout is n == 1 and k a whole number of groups; its KC clause never decides. |
| `GroupedLayout.GroupedShapeValid` | classic/frame/s8s8s32/dlp_gemm_reorder_s8.c:144-168 | Panels are well-formed for every accepted group size, and no group of several straddles two K blocks. |
| `GroupedWalk.FringeStrips` | classic/frame/s8s8s32/dlp_gemm_reorder_s8.c:252-313 | What is left of a panel behind its NR-wide strips is cut into whole 16-column slots and at most one tail, each a chunk of the panel's layout. |
| `GroupedWalk.GroupCut` | classic/frame/s8s8s32/dlp_gemm_reorder_s8.c:230-300 | The groups of a K block cut it into consecutive, non-empty runs of rows; each run starts on a row group of four and lies within one vector of sums that exists. |
| `GroupedWalk.StripStep` | classic/frame/s8s8s32/dlp_gemm_reorder_s8.c:294-310 | Packing a group's rows at the offset of their first row extends the strip's layout by exactly those rows. |
| `GroupedSums.SumStep` | classic/frame/s8s8s32/dlp_gemm_reorder_s8.c:252-329 | Adding 128 times a run's row sums at its vector and columns turns the table of the rows done before into the table with the run included. |
| `GroupedSums.RowSumFits` | classic/kernels/zen4/s8s8s32/dlp_gemm_packb_s8_amd512vnni.c:155-260 | Sums of at most 131072 rows are held exactly, scaled or not. |
| `GroupedPack.PackKernel` | classic/kernels/zen4/s8s8s32/dlp_gemm_packb_s8_amd512vnni.c:98-118 | A packing call lays out its block, zero-padded, adds 128 times each column's sum to that column's slot in int32 arithmetic, and writes to nothing else. |
| `GroupedReorder.PackBlock` | classic/frame/s8s8s32/dlp_gemm_reorder_s8.c:227-329 | The strips and groups of a K block together lay out the block as one packing call would, and its sums reach their vectors. |
| `GroupedReorder.GroupedThread` | classic/frame/s8s8s32/dlp_gemm_reorder_s8.c:212-332 | One thread's loops end; its trace writes its own columns' cells and, from a cleared table, their whole sums, and no other column's, whatever the other columns hold meanwhile. |
| `GroupedReorder.GroupSumsRead` | classic/frame/s8s8s32/dlp_gemm_reorder_s8.c:171-196 | Each live column's slot of a vector reads as 128 times the column's sum over that vector's rows, each padding column's as 0. |
| `GroupedTeam.AnyInterleavingGroups` | classic/frame/s8s8s32/dlp_gemm_reorder_s8.c:198-333 | After any interleaving of a team's writes, for any consecutive NR-aligned slices, the cells and sums of the columns reached are there, every other cell is as it was and every other slot 0. |
| `GroupedTeam.ShortGroupTeamIff` | classic/frame/s8s8s32/dlp_gemm_reorder_s8.c:202-214 | A team split by the requested count, of which only some threads exist, completes the reorder from every memory exactly under the condition stated above. |
| `GroupedTeam.ReorderGrouped` | classic/frame/s8s8s32/dlp_gemm_reorder_s8.c:132-336 | For every group size, requested thread count and number of those threads that run, the buffer holds the columns reached, and the finished panels and sums when the threads suffice. |
| `GroupedTeam.SameGroupedBytes` | classic/frame/s8s8s32/dlp_gemm_reorder_s8.c:132-336 | Two finished grouped reorders of one matrix, from any two memories, agree on weights and sums. |
| `GroupedReorder.WideBytesFit` | classic/aocl_gemm_s8s8s32os32_utils.c:244-258 | The unchecked products of the size query cannot exceed the 64-bit size type for any accepted dimensions. |
| `GroupedS4.CompressKeeps` | classic/include/kernels/s8s8s32/dlp_gemm_packb_s8s4.h:75-93 | A weight of four significant bits is recovered from the byte it is compressed to, whatever shares it. |
| `GroupedS4.ReorderCompact` | classic/frame/s8s8s32/dlp_gemm_reorder_s8s4.c:331-398 | The portable four-bit worker leaves each weight of the columns reached as a nibble at its position of the int8 layout, padding zero, with the sums of the widened matrix behind; all of them when the threads suffice. |
| `GroupedFused.StripPlace` | classic/frame/s8s8s32/dlp_gemm_reorder_s8s4.c:126-139 | Every strip starts on a whole byte of the compact weights, ends within them, and fits the NR x KC scratch. |
| `GroupedFused.FusedStep` | classic/frame/s8s8s32/dlp_gemm_reorder_s8s4.c:190-317 | Packing a step's strips to the scratch and compressing it extends the compact buffer by exactly those columns of the K block and their sums. |
| `GroupedFused.ReorderFused` | classic/frame/s8s8s32/dlp_gemm_reorder_s8s4.c:71-330 | The fused worker leaves what the portable one is stated to leave, for every group size, requested thread count and number of threads that run, and no other byte of the weights changed. |
| `GroupedFused.FusedThread` | classic/frame/s8s8s32/dlp_gemm_reorder_s8s4.c:157-321 | One thread's loops end; its trace writes the bytes that hold its own columns' weights and their sums, and no other. |
| `CompactTeam.AnyInterleavingCompacts` | classic/frame/s8s8s32/dlp_gemm_reorder_s8s4.c:144-324 | The same of any interleaving of a team's writes to the compact buffer. |
| `CompactTeam.ShortFusedTeamIff` | classic/frame/s8s8s32/dlp_gemm_reorder_s8s4.c:149-165 | A short team completes the four-bit reorder from every memory exactly under that condition. |
| `GroupedFused.SameCompactBytes` | classic/frame/s8s8s32/dlp_gemm_reorder_s8s4.c:60-70 | Two finished four-bit reorders of one matrix, from any two memories, fused or portable, agree on weights and sums. |
| `GroupedTerms.WideInTerms` | classic/frame/s8s8s32/dlp_gemm_reorder_s8.c:132-336 | Finished int8 panels, element by element: its byte, 0 in padding, 128 times each column's sum over its vector's rows, and nothing else touched. |
| `GroupedTerms.CompactInTerms` | classic/frame/s8s8s32/dlp_gemm_reorder_s8s4.c:331-398 | Finished four-bit panels likewise, in half bytes. |
| `BufferTerms.LaidIs` | classic/include/gemm_utils/dlp_gemm_utils.h:77-87 | A finished single column likewise. |
| `GroupedEntry.QueryCoversReorder` | classic/aocl_gemm_s8s8s32os32_utils.c:544-586 | A grouped reorder is accepted exactly when its size query is and the leading dimension is valid, although they check in different orders. |
| `GroupedEntry.QueryAcceptsIff` | classic/aocl_gemm_s8s8s32os32_utils.c:170-215 | A grouped size query goes ahead exactly with good arguments, a matrix type other than A and metadata that asks for a group size. |
| `GroupedEntry.ReorderAcceptsIff` | classic/aocl_gemm_s8s8s32os32_utils.c:521-586 | A grouped reorder exactly then, given a leading dimension that is long enough. |
| `GroupedEntry.SymQuantSizeQuery` | classic/aocl_gemm_s8s8s32os32_utils.c:170-259 | Status, and in either layout exactly the bytes the reorder lays out, none of the arithmetic wrapping. |
| `GroupedEntry.S4SizeQuery` | classic/aocl_gemm_s8s4s32os32_utils.c:92-180 | The same of the four-bit query. |
| `GroupedEntry.ReorderSymQuant` | classic/aocl_gemm_s8s8s32os32_utils.c:521-638 | Status for every argument, on the fields of the metadata; the tight column when n is 1 and the groups are whole, panels otherwise: every element by its address, padding 0, each sum of its rows, nothing else touched, when the threads that run suffice, and the columns reached when not. |
| `GroupedEntry.ReorderS4` | classic/aocl_gemm_s8s4s32os32_utils.c:182-313 | The four-bit reorder likewise, two elements to a byte in panels. |
| `Int8Reorder.S8SizeIsLayout` | classic/aocl_gemm_s8s8s32os32_utils.c:130-168 | The ungrouped query reports exactly weights plus one sum, or panels plus one sum per padded column. |
| `Int8Reorder.S8StatusesIff` | classic/aocl_gemm_s8s8s32os32_utils.c:93-168 | When the int8 query, tuned reorder and reference entry points go ahead, on the caller's arguments, and which refusal each fault gives. |
| `Int8Reorder.S8SizeFits` | classic/aocl_gemm_s8s8s32os32_utils.c:130-168 | No good query with legal blocks is turned away: the checked products never overflow. |
| `Int8Reorder.ReorderS8Column` | classic/aocl_gemm_s8s8s32os32_utils.c:287-331 | Status, and the finished column element by address with its sum, for the single-column path of the tuned reorder. |
| `Int8Reorder.TunedNeedsQueryIff` | classic/aocl_gemm_s8s8s32os32_utils.c:115-137 | Query and tuned reorder agree on a single column exactly when the type is not AWQ and the block sizes are legal. |
| `Int8Reorder.ReorderS8Reference` | classic/aocl_gemm_s8s8s32os32_utils.c:406-519 | Status for every argument and every verdict of the context update; the buffer is the column with its sum, or the panels (k_factor 4, min_NR 16) with the table of sums behind them, every element by its address in the caller's memory, padding 0 and nothing else touched. |
| `Int8Reorder.UnreorderS8Reference` | classic/aocl_gemm_s8s8s32os32_utils.c:640-742 | Status for every argument and every verdict of the context update; every weight is back at its address in the caller's memory and nothing else is written. |
| `Int8Reorder.S8RoundTrip` | classic/aocl_gemm_s8s8s32os32_utils.c:406-742 | Reorder then un-reorder restores every int8 weight in both layouts, whatever sums are stored behind them. |
| `Int8Reorder.S8SumsRead` | classic/aocl_gemm_s8s8s32os32_utils.c:513-518 | After the panelled reorder each column's slot reads as 128 times its sum. |
| `BatchStatus.StopFrom` | classic/aocl_batch_gemm_f32f32f32of32.c:100-117 | Where a run stops: all groups before are good, the one there is not. |
| `BatchStatus.StopIsFirstUncomputable` | classic/include/aocl_dlp_gemm_check.h:371-488 | A run stops at its first group with a bad argument, size, count, verdict or missing matrix of its own range, an A tagged reordered, a B so tagged in column-major order or, under the int8 loop only, metadata in column-major order; the pointers checked at the group's index never decide where. |
| `BatchStatus.BatchCheckIff` | classic/include/aocl_dlp_gemm_check.h:371-463 | Every argument a batch checks of a group, and the error each fault gives, the pointers at the group's index included. |
| `BatchStatus.OutcomeIff` | classic/aocl_batch_gemm_s8s8s32os32.c:219-227 | What a group that passes the checks comes to: the reordered operands refused by either loop, the metadata in column-major order by the int8 loop alone. |
| `BatchStatus.PointerCheck` | classic/include/aocl_dlp_gemm_check.h:465-488 | Null exactly when some matrix of the group's range of the three flat arrays is missing. |
| `BatchStatus.EagerBatch` | classic/aocl_batch_gemm_f32f32f32of32.c:71-352 | For every argument of every group, a run stops at its first group that is not computable in the caller's terms, computes each matrix of the groups before it once and no other, and leaves each metadata object with the status the pre-pass protocol gives it, null and shared objects included. |
| `BatchStatus.MarkRemaining` | classic/aocl_batch_gemm_s8s8s32os32.c:39-49 | Exactly the objects that serve a group from the given one on become failed. |
| `BatchStatus.LazyBatch` | classic/aocl_batch_gemm_s8s8s32os32.c:137-413 | The same stop and accounting of matrices under lazy marking, with the checks of the int8 loop, and the status the lazy protocol gives each object. |
| `BatchStatus.ProtocolsAgreeIff` | classic/aocl_batch_gemm_s8s8s32os32.c:39-49 | The two protocols end with the same statuses on every run exactly when no metadata object serves two groups. |
| `BatchStatus.StatusOfGroup` | classic/aocl_batch_gemm_f32f32f32of32.c:91-117 | With distinct metadata: success for the groups computed, its own error for the one that stopped the run, failure behind it. |
| `BatchStatus.OneOwner` | classic/aocl_batch_gemm_f32f32f32of32.c:88-117 | Each matrix index belongs to exactly one group's contiguous range. |

## Left out

- GemmF32.Gemm: the GEMM loops, micro-kernels and generated code are the mathematical strided kernel; rounding is not modelled, values are reals; on the flip named above the B of the statement is the one the flip sees.
- SymQuantGemm.SymQuantGemm: C is stated before post-operations of a row-major call; the groups' dot products are exact integers here, where the kernels accumulate them in int32 (`ReorderedSums` says how far that is the same); failure of the transposition buffers' allocation is not modelled; tables must hold the bytes that are moved of them, which the library does not check; types outside the enumeration do not occur.
- ReorderedSums.KernelSumIs: stated for sums of up to 131071 rows, as far as int32 dot products are exact; beyond that `ReorderedSums.BlockDotIs` gives the wrapped value.
- ReorderedSums.ReorderedKernelAgrees: likewise.
- GroupedReorder.GroupedThread: wrap-around of sums of more than 131072 rows is two's complement; an update of a slot is its four byte writes, the read before it not being in the trace.
- GroupedFused.ReorderFused: the vector packers and converters are the scalar operations they stand for; each thread's part of the scratch pool is an array of its own; failed allocations are not modelled.
- GroupedS4.ReorderCompact: failed allocations are not modelled; under a short team nothing is said of the weights of columns not reached, which come from memory that was never written.
- GroupedEntry.ReorderSymQuant: whether an int32 operation wraps is reported for the tight column only.
- GroupedEntry.ReorderS4: likewise.
- Int8Reorder.ReorderS8Column: the tuned panels for n > 1 come from generated code and are not part of this model.
- ColumnReorder.TunedColumn: int32 overflow, undefined in the source language, is two's complement wrap-around here.
- BatchStatus.EagerBatch: the flat arrays must have an entry for each group index, which the argument check reads; a null metadata array, which ends the call at once, is not modelled; which argument was at fault is not part of the status.
- ReorderF32.ReorderReference: element copies move whole elements, so a byte size of the element type plays no part.
- Verdicts on post-operations, on the update of block sizes from metadata and hints, and on kernel generation are parameters; the code that reaches them is not modelled. Block sizes NR, NC and KC are parameters too, with NC a multiple of NR as the block-size tables have it.
- The instruction-set checks, logging, messages and environment selection are absent; the Zen 4 kernels are taken as built in.
- Null operand pointers of single calls, and address arithmetic beyond 64 bits, are not modelled.
- `dlp_thread_task_range` with the leftover at the low end, which no modelled caller asks for.
- Post-operation and GLU translation, thread ways, and the choice of the tiny-problem kernel.
- The GEMM of int8 by four-bit operands, the near-copies for other output and input types, and the column-major batch of the quantised GEMM.
- Benchmarks, element-wise utilities and presets.
