# Composable-Parallel-CL-lib in Dafny

This models the host side of a small OpenCL library that offers map, tree
reduction, prefix scan, transpose, inner product and outer product over
`array` buffers. For each primitive the library does three things:

- generates kernel source from a printf template;
- sizes an NDRange launch by rounding every extent up to the tile size;
- enqueues one kernel, or several for reduce and scan.

The model covers these parts:

- **Launch sizing and metadata** (`Launch`): `LOWEST_MULTIPLE_OF_TILE`,
  `ARRAY_SIZE`, `ARRAY_NUM_DIMS`, the `_TYPE_LIST` tables, the guarded tile
  size and the launch geometry each dispatcher builds.
- **Error names and checks** (`ClErrors`): the total `_cl_err_to_str`
  table and the `CHECK_CL` / `_check_cl` outcomes of both library versions.
- **Array buffers** (`Buffers`): a class holding a host `array<int>`, an
  abstract device sequence, shape, element width and type tag. Alloc,
  sync, clone and free update it in place. The older untyped `array` is a
  second class.
- **Kernel arguments** (`KernelArgs`): the four-slots-per-array layout of
  `set_kernel_args`.
- **Templates** (`Templates`, `KernelSources`): a format is a list of
  literal segments and typed slots. Every `get_*` fills the slots from its
  named roles, and the snprintf, asprintf and NULL-returning failure paths
  are modelled.
- **Kernel effects** (`MapKernel`, `ReduceKernel`, `ScanKernel`,
  `TransposeKernel`, `InnerProductKernel`, `OuterProductKernel`): each
  kernel is a sequential method over `array`/`array2` with the kernel's own
  bound guards.
  - Work-groups run one after another in ascending order.
  - Barrier-separated phases run in lockstep.
  - Operators are function parameters, with `Assoc`/`Comm` required only
    where a result depends on them (`Folds`).
- **Host schedules**: reduce's shrinking global-size loop and scan's
  doubling-stride loop, with the end results they produce.
- **`csvthis.py`** (`CsvThis`): the log-to-CSV transformer, with Python's
  `split`, `partition` and `strip` defined and specified.

Buffers are row-major. The kernel's `A[col + a1 * row]` is `A[row, col]`
of an `array2<int>` whose `Length1` is a1 and whose `Length0` is a2.

Two facts about the code shape the model:

- **Transpose round trip.** Transposing twice restores A only when A is
  square, because the launch grid is sized from B; see Findings.
- **Scan parity test.** In C, `!=` binds tighter than `&`, so
  `chunk & 1 != 0` in src/scan.c:65 parses as `chunk & (1 != 0)`, that is
  `chunk & 1`, which says the chunk is odd. With that test the
  propagation is correct wherever each item reads back its own write of
  `b`: such a row of `ScanKernel.Scan` ends in its inclusive scan. The `b`
  itself is shared by the work-group; see Findings.

## Model

| member | source | states |
|---|---|---|
| Launch.RoundUp | src/cl_utils.h:69-70 | the rounded size is a multiple of the tile, at least n and below n + tile, and equals n exactly when n is already a multiple |
| Launch.RoundUpIsLeast | src/cl_utils.h:69-70 | no multiple of the tile that is at least n lies below the rounded size |
| Launch.ArraySize | src/cl_utils.h:372 | the cell count is zero exactly when an extent is zero, and otherwise at least every extent |
| Launch.ArraySizeOverflowsInt | src/cl_utils.h:372 | a 65536 x 65536 x 1 array has 2^32 cells, more than INT_MAX |
| Launch.NumDims | src/cl_utils.h:377 | the number of extents above 1: between 0 and 3, 0 exactly for a 1x1x1 shape, 3 exactly when all three exceed 1 |
| Launch.ShapeOfExtents | src/cl_utils.h:358-367 | the given leading extents are kept, each missing one becomes 1, and the cell count is their product |
| Launch.SizeFromEnum | src/cl_utils.h:311-313 | a type tag maps to the positive sizeof of the same entry of the one type list |
| Launch.TypeStrFromEnum | src/cl_utils.h:316-318 | a type tag maps to the non-empty C name of the same entry of the type list |
| Launch.TypeToEnum | src/cl_utils.h:308 | a found tag names the given type; nothing is found exactly when no entry has that name |
| Launch.LookupName | src/cl_utils.h:308 | the scan from a tag on finds a later tag with that C name, and finds none exactly when no later entry has it |
| Launch.TypeTableRoundTrip | src/cl_utils.h:295-318 | name to tag to name round-trips for every tag; TYPE_UNKNOWN is "void", int is 4 bytes, double is 8 |
| Launch.NamesDistinct | src/cl_utils.h:239-247 | distinct tags have distinct C names |
| Launch.TiledLaunch | src/map.c:52-58 | the launch uses ARRAY_NUM_DIMS dimensions, a tile-sized local size, and a global size per dimension that is the tile multiple at or just above the extent |
| Launch.TiledLaunchCovers | src/map.c:52-58 | a dimension's extent is covered by the grid exactly when the dimension is launched or its extent is at most 1 |
| Launch.RowsReached | src/reduce.c:80-82 | the dispatchers reach all a2 rows when dimension 1 is launched and only row 0 otherwise, never more than a2 |
| Launch.RowsReachedCovered | src/scan.c:126-128 | a row below a2 counts as reached exactly when dimension 1 of the tiled launch has an item with its index |
| Launch.RowsReachedExamples | src/cl_utils.h:377 | a 2 x 32 matrix has both rows reached, a 1 x 20 column only row 0 |
| Launch.EnqueueStatus | src/map.c:56-58 | the enqueue succeeds exactly when 1 to 3 dimensions are launched and an explicit work-group size divides the global size in every launched dimension; otherwise it fails with CL_INVALID_WORK_DIMENSION for the dimension count, or else with CL_INVALID_WORK_GROUP_SIZE |
| Launch.TiledLaunchUniform | src/map.c:52-58 | the dispatchers' rounded-up global sizes are divided by the tile-sized work-group, so their enqueue is refused only for a 0-dimensional launch |
| Launch.SingleCellLaunchRefused | src/cl_utils.h:377 | a 1x1x1 array gets a 0-dimensional launch, which the enqueue refuses with -53 |
| Launch.ColumnLaunchMissesRows | src/cl_utils.h:377 | a 1x20 column launches one dimension of 16 items, so dimension 1 covers 1 row of 20 |
| Launch.CoveringDims | src/cl_utils.h:377 | the corrected dimension count is 1 to 3, leaves only extents of at most 1 unlaunched, and launches its last dimension only when that extent exceeds 1 |
| Launch.CoveringLaunch | src/cl_utils.h:377 | the corrected launch keeps the library's tile-sized local and rounded global sizes and changes only the dimension count |
| Launch.CoveringLaunchCovers | src/cl_utils.h:377 | the corrected launch is accepted for every shape and covers every extent |
| Launch.TiledLaunchAgrees | src/cl_utils.h:377 | when the extents above 1 are exactly the leading ones, the library's launch is already the covering one |
| Launch.TileConfig.constructor | src/cl_utils.c:35 | the tile size starts at TILE_SIZE, 16 |
| Launch.TileConfig.SetTileSize | src/cl_utils.c:36-43 | the tile size changes only for a positive request, so it stays at least 1 |
| ClErrors.ErrToStr | src/cl_utils.c:76-210 | the lookup is total: 0 gives "CL_SUCCESS", each listed code gives its own name, every other code gives "Unknown OpenCL Error", and no non-zero code is named CL_SUCCESS |
| ClErrors.LookupFinds | cl_utils.c:24-155 | the table scan (the same 63 codes in both versions) returns the name at a matching index, and returns the unknown text exactly when no index matches |
| ClErrors.NamesFacts | src/cl_utils.c:79-206 | the table has 63 names, starts with CL_SUCCESS, lists CL_SUCCESS only once and never contains the unknown text |
| ClErrors.CodesDistinct | src/cl_utils.c:79-206 | no code is listed twice |
| ClErrors.ListedIsTableCode | src/cl_utils.c:79-206 | a code is listed exactly when some table entry carries it |
| ClErrors.OnlyZeroIsSuccess | src/cl_utils.c:81-82 | no table entry for a non-zero code is named CL_SUCCESS |
| ClErrors.WorkDimensionName | src/cl_utils.c:167-168 | -53 is named CL_INVALID_WORK_DIMENSION |
| ClErrors.WorkGroupSizeName | src/cl_utils.c:169-170 | -54 is named CL_INVALID_WORK_GROUP_SIZE |
| ClErrors.BufferSizeName | src/cl_utils.c:183-184 | -61 is named CL_INVALID_BUFFER_SIZE |
| ClErrors.CheckCl | src/cl_utils.c:212-220 | handle_error is called exactly when err is not CL_SUCCESS, with CHECK_FORMAT and, as its values, the code, its name, the expression, the line and the file |
| ClErrors.CheckClLosesValues | src/cl_utils.c:29-33 | a failing check reaches the installed hook with the bare format string: the code, name, expression, line and file are dropped, so the call differs from the forwarding one |
| ClErrors.CheckClForwardsValues | src/cl_utils.c:212-220 | with handle_error forwarding its values, the hook receives the format with the code, its name, the expression, the line and the file |
| ClErrors.LegacyCheckCl | cl_utils.c:157-164 | the older check aborts exactly when err is not CL_SUCCESS, reports the same fields and never calls a handler |
| ClErrors.LegacyCheckClOne | cl_utils.h:39 | the one-argument CHECK_CL checks the expression's own value |
| ClErrors.LegacyCheckClTwo | cl_utils.h:40-42 | the two-argument CHECK_CL keeps the expression's value and checks the separate err code |
| Buffers.PassesHostPtrFlags | src/cl_utils.c:301-303 | the host block is handed to buffer creation for COPY_HOST_PTR or USE_HOST_PTR and not for READ_WRITE or WRITE_ONLY with ALLOC_HOST_PTR |
| Buffers.BufferStatus | src/cl_utils.c:304-307 | buffer creation succeeds exactly for a positive byte count and otherwise reports CL_INVALID_BUFFER_SIZE |
| Buffers.ClArray.Init | src/cl_utils.c:295-308 | a fresh array records the shape, width and type, sizes host and device to cells times width, passes the host block per the flags, gets a device buffer exactly when the byte count is positive, and starts that buffer as a copy of the host block only when the block is passed (otherwise with the given unspecified contents) |
| Buffers.AllocArray | src/cl_utils.c:281-311 | with memory, the array has the given dims and type, membsize equal to the type size, and host bytes equal to dim1*dim2*dim3*membsize; the buffer is created, and the status is Allocated, exactly when every extent is positive, otherwise CL_INVALID_BUFFER_SIZE is reported; without memory, "Memory allocation error" is reported |
| Buffers.ZeroBytes | src/cl_utils.c:304-306 | the device byte count, cells times a positive width, is zero exactly when an extent is zero |
| Buffers.AllocArrayOf | src/cl_utils.h:358-367 | ALLOC_ARRAY keeps the given extents, sets each missing one to 1, and tags the array with the named type |
| Buffers.ClArray.SyncToDevice | src/cl_utils.c:313-320 | the device holds the host contents, all Bytes() are copied from offset 0, the copy blocks exactly when no event is given, and nothing else changes |
| Buffers.ClArray.SyncFromDevice | src/cl_utils.c:322-329 | the host holds the device contents, all Bytes() are copied from offset 0, and the copy blocks exactly when no event is given |
| Buffers.ClArray.SyncRoundTrip | src/cl_utils.c:313-329 | syncing to the device and back leaves the host contents unchanged |
| Buffers.ClArray.Clone | src/cl_utils.c:331-366 | the clone is fresh with equal host contents, equal device contents, the same dims and membsize, and an unassigned type tag; its buffer creation is refused with CL_INVALID_BUFFER_SIZE exactly when it has zero bytes; a failed malloc reports the message with its newline |
| Buffers.ClArray.CopyInto | src/cl_utils.c:341 | the memcpy leaves the destination equal to the host contents |
| Buffers.CloneLosesType | src/cl_utils.c:347 | an int array's clone carries no type tag, while the corrected clone keeps int |
| Buffers.ClArray.CloneKeepingType | src/cl_utils.c:331-366 | the corrected clone is the same clone, with the same buffer status, and the source's type tag |
| Buffers.ClArray.Free | src/cl_utils.c:368-373 | both the host block and the device buffer are released, and nothing else changes |
| Buffers.LegacyArray.Init | cl_utils.c:177-199 | the older array records the dims, leaves membsize unset, sizes host total*width and device width*dim1*dim2*dim3, and gets a device buffer exactly when that count is positive |
| Buffers.LegacyAllocArray | cl_utils.c:177-199 | with memory, a fresh array has the given dims, no membsize, equal host and device byte counts, the host block passed per the flags, and a device buffer exactly when the byte count is positive (CL_INVALID_BUFFER_SIZE otherwise); without, the message is reported |
| Buffers.LegacyAllocArrayOf | cl_utils.h:60-71 | the older ALLOC_ARRAY passes sizeof(type), keeps the given extents and sets each missing one to 1 |
| Buffers.LegacyArray.Free | cl_utils.c:201-204 | only the host block is released; the device buffer stays live |
| KernelArgs.Layout | src/cl_utils.c:250-263 | n arrays take exactly 4n argument slots |
| KernelArgs.LayoutAt | src/cl_utils.c:250-263 | slot 4i+j is slot j of array i |
| KernelArgs.UnbindLayout | src/cl_utils.c:250-263 | the layout alternates three ints and a buffer, and reading it back gives the arrays in order |
| KernelArgs.SetKernelArgs | src/cl_utils.c:244-266 | array i is bound to indices 4i to 4i+3 as dim1, dim2, dim3 and device buffer, 4n slots in all; like the void C function, it returns no index |
| KernelArgs.StrideIndexFromVoid | src/scan.c:139 | SET_KERNEL_ARGS expands to a call of the void set_kernel_args, which yields no int for `idx` |
| KernelArgs.SetKernelArgsCounted | src/scan.c:52-53 | the corrected set_kernel_args returns the next index, 4n, which for the propagate kernel's one array is the index of its `stride` parameter |
| Templates.Kinds | src/map.c:25-33 | the kind list has one entry per argument, in order |
| Templates.Pieces | src/map.c:25-33 | k arguments and k+1 literals give 2k+1 alternating pieces |
| Templates.PiecesRoundTrip | src/map.c:25-33 | the values and literals of an instantiated template are exactly the arguments and segments given |
| Templates.PieceAt | src/map.c:25-33 | piece 2j is literal j and piece 2j+1 is argument j |
| Templates.Decimal | src/reduce.c:21 | a `%d` rendering is non-empty, has only digits for a non-negative value, and starts with '-' otherwise |
| Templates.DigitsRoundTrip | src/reduce.c:21 | reading back the printed digits gives the number |
| KernelSources.RoleKinds | src/map.c:5-9 | each role in a slot list has its kind, in order |
| KernelSources.RoleValue | src/map.c:5-9 | a role's value has the kind its slot expects |
| KernelSources.Fill | src/map.c:25-33 | one argument per role in the documented order, with the kinds of the role list |
| KernelSources.FillFits | src/map.c:25-33 | a role list that matches a template's slots gives arguments that fit it in count and kind |
| KernelSources.SizedPrint | src/map.c:25-37 | the snprintf path gives the formatted text exactly when malloc and printing succeed, and otherwise reports the allocation or the print failure |
| KernelSources.AllocPrint | src/outer_product.c:29-34 | the asprintf path gives the text exactly when printing succeeds, and otherwise reports the print failure |
| KernelSources.LegacyPrint | map.c:44-49 | the older path gives the text exactly when printing succeeds, and NULL otherwise |
| KernelSources.GetMap | src/map.c:22-40 | the map source is the map template with (dtype, dtype, op1), and each failure reports its own message |
| KernelSources.MapSlots | src/map.c:5-20 | the roles (A type, B type, OP1) fill the template, and OP1 is pasted just before "(A[idx])" |
| KernelSources.LegacyGetMap | map.c:39-51 | the older map source has the same slots filled with one dtype, and is NULL on a print failure |
| KernelSources.GetReduce1Step | src/reduce.c:48-61 | the reduce source is the template with (dtype, tile, dtype, op1), and a print failure is reported |
| KernelSources.ReduceSlots | src/reduce.c:5-46 | the roles (A type, tile size, A_tile type, OP1) fill the template with the tile in slot 2 and OP1 between the two tile cells |
| KernelSources.GetPartialScan | src/scan.c:73-93 | the partial-scan source fills (A type, tile, A_tile, a, b types, OP1), and each failure reports its own message |
| KernelSources.PartialScanSlots | src/scan.c:5-44 | the six documented roles fill the partial-scan template in order, with OP1 last |
| KernelSources.GetPropagateScan | src/scan.c:95-114 | the propagate source fills (A type, b type, a type, OP1), and each failure reports its own message |
| KernelSources.PropagateScanSlots | src/scan.c:46-71 | the four documented roles fill the propagate template in order |
| KernelSources.GetTranspose | src/transpose.c:38-58 | the transpose source fills (A type, B type, tile, A_tile type) from one dtype, and each failure reports its own message |
| KernelSources.TransposeSlots | src/transpose.c:5-36 | the four documented roles fill the transpose template in order |
| KernelSources.GetInnerProduct | src/inner_product.c:57-78 | the inner-product source fills (A, B, C types, tile, A_tile=A, B_tile=B, acc=C type, OP1, OP2), and each failure reports its own message |
| KernelSources.InnerProductSlots | src/inner_product.c:6-55 | the nine documented roles fill the template in order, and OP2 sits between the tile operands |
| KernelSources.InnerProductShape | src/inner_product.c:17-55 | the inner-product template is well formed and its slot kinds are those of the documented role list |
| KernelSources.InnerProductFill | src/inner_product.c:61-62 | the argument list passed to snprintf is (A, B, C types, tile, A_tile, B_tile, acc, OP1, OP2) |
| KernelSources.LegacyGetInnerProduct | inner_product.c:103-120 | the older source is the 17-slot template filled from its role list with one dtype, and is NULL on a print failure |
| KernelSources.LegacyInnerProductShape | inner_product.c:4-60 | the older template has 17 well-formed slots whose kinds match the documented role list |
| KernelSources.LegacyInnerProductWellFormed | inner_product.c:23-60 | the older template is well formed with 17 slots |
| KernelSources.LegacyInnerProductKinds | inner_product.c:4-22 | the older template's slot kinds match its documented role list |
| KernelSources.LegacyInnerProductFill | inner_product.c:108-112 | the literal argument list of the call is the role list filled with one dtype |
| KernelSources.LegacyInnerProductTiles | inner_product.c:108-112 | every tile-size slot gets TILE_SIZE, here 16 (the default src/cl_utils.h:50-51 gives it; the older cl_utils.h does not define it), not the runtime tile size |
| KernelSources.GetOuterProduct | src/outer_product.c:24-37 | the outer-product source fills C's dtype into all three type slots and then OP1; a print failure is reported |
| KernelSources.LegacyGetOuterProduct | outer_product.c:44-57 | the older source fills the same slots, and is NULL on a print failure |
| KernelSources.OuterProductSlots | src/outer_product.c:6-22 | the roles (A, B, C types, OP1) fill the template, and OP1 sits between A[row] and B[col] |
| Folds.FoldAppend | src/reduce.c:29-39 | an associative fold of a concatenation combines the folds of the two parts |
| Folds.FoldInterleave | src/reduce.c:29-39 | with associativity and commutativity, folding an interleaving combines the two folds |
| Folds.StridedSplit | src/reduce.c:29-35 | the stride-o cells from i split into the stride-2o cells from i and from i+o |
| Folds.StridedOne | src/reduce.c:29-35 | stride 1 from i to m is the contiguous slice |
| Folds.CombAppend | src/scan.c:32-34 | the scan's combination of a concatenation is OP1(later part, earlier part) |
| Folds.CombRepeat | src/reduce.c:29-39 | under +, the combination of n copies of v is n * v |
| MapKernel.MapItems | map.c:10-19 | each item idx below A's cell count sets B[idx] to op(A[idx]); no other cell changes, A is untouched unless it is B, and a one-dimensional launch may map in place |
| MapKernel.Map | src/map.c:42-67 | the launch is accepted exactly when B has an extent above 1; refused, B is unchanged; accepted, the first Reached cells of B are op(A) and the rest keep their values; in place only for a one-dimensional B |
| MapKernel.VectorMapReachesAll | src/map.c:52-58 | for a one-dimensional B the map reaches every cell of A |
| MapKernel.MatrixMapMissesCells | src/map.c:14 | a 20x20 array is mapped in only its first 32 of 400 cells |
| MapKernel.MatrixMapReplicas | src/map.c:52-58 | a 20x20 map also launches 32 work-items along dimension 1, so each reached cell is written by 32 work-items |
| MapKernel.MapAll | src/map.c:14-19 | the corrected one-dimensional map over all cells sets every cell of B below A's size to op(A) |
| ReduceKernel.GroupSizeBounds | src/reduce.c:80-86 | every group has 1 to L items and lies inside the global size |
| ReduceKernel.StepAt | src/reduce.c:31-36 | a tree level combines slot i with slot i+o only when the partner column is below a1 |
| ReduceKernel.TreeLevel | src/reduce.c:29-39 | one level in place equals the lockstep level, because slots below the offset read only slots above it |
| ReduceKernel.TreeCombine | src/reduce.c:29-39 | the in-place halving loop equals the tree of levels o, o/2, ..., 1 |
| ReduceKernel.TreeFolds | src/reduce.c:29-39 | with a power-of-two span and an associative, commutative op, the tree leaves in slot 0 the fold of the loaded cells below the bound |
| ReduceKernel.LoadGroupTile | src/reduce.c:24-26 | the fresh tile holds the group's cells of the row below the bound |
| ReduceKernel.LoadTileSlice | src/reduce.c:24-26 | the loaded slots below m are the row's cells from the group base |
| ReduceKernel.GroupFolds | src/reduce.c:24-44 | a power-of-two group writes the fold of its cells from g*L up to a1 or the group end |
| ReduceKernel.RunGroup | src/reduce.c:41-44 | only local item 0 writes, storing its group's value in A[row, group], and no other cell changes |
| ReduceKernel.RowPassMethod | src/reduce.c:5-46 | one pass over a row, groups in ascending order, writes each writing group's value to the group's own cell, because a group reads only cells no earlier group wrote |
| ReduceKernel.ReducePass | src/reduce.c:88-90 | one enqueue reduces each row below `rows` pass-wise and leaves the other rows unchanged |
| ReduceKernel.GroupCountShrinks | src/reduce.c:85-86 | with a tile of at least 2 and a size of at least 2, the global size strictly shrinks, so the loop ends |
| ReduceKernel.TileOneStalls | src/reduce.c:85-86 | with tile size 1, which the setter accepts, the division leaves the global size unchanged, so the loop never ends |
| ReduceKernel.Reduce | src/reduce.c:63-98 | each enqueue's status is computed; a refused pass changes nothing and the driver goes on; each row the launch reaches (Launch.RowsReached of the shape: all a2 when dimension 1 is launched, row 0 otherwise) becomes the driver's schedule applied to it, the other rows keep their cells, the number of enqueues is Launches of the rounded-up extent, and the status returned is the first refusal |
| ReduceKernel.PassAccepted | src/reduce.c:88-96 | a loop pass with work-groups of T is accepted exactly when some dimension is launched and T divides its global size; the final pass, with a NULL work-group size, exactly when some dimension is launched |
| ReduceKernel.ReduceAccepted | src/reduce.c:85-97 | all of the driver's enqueues are accepted exactly when some dimension is launched (or none is enqueued) and T divides every loop pass's global size; a refusal is -53 or -54 |
| ReduceKernel.SmallReduceAccepted | src/reduce.c:80-91 | an extent of at most T*T, with some dimension launched, is reduced with every enqueue accepted |
| ReduceKernel.ReduceRefused300 | src/reduce.c:80-91 | 300 columns with tile 16: the global size goes 304 then 19, and the second pass with work-groups of 16 is refused with CL_INVALID_WORK_GROUP_SIZE |
| ReduceKernel.LaunchesBound | src/reduce.c:85-97 | some enqueue happens exactly when the global size exceeds 1, and there are never more enqueues than items |
| ReduceKernel.OneTileOneLaunch | src/reduce.c:92-97 | an extent of one tile or less is reduced by the final enqueue alone |
| ReduceKernel.ReduceOneTile | src/reduce.c:92-97 | an extent of at most one tile, with a final work-group of the whole tile, leaves the fold of the row in cell 0 |
| ReduceKernel.FirstPassPartial | src/reduce.c:85-91 | the loop's one pass over 48 ones leaves 16 in each of the first three cells |
| ReduceKernel.FinalPassValue | src/reduce.c:92-97 | the final pass over three partials of 16 ends with 16 or 32 in cell 0, depending on the work-group size |
| ReduceKernel.FinalPassLosesPartials | src/reduce.c:85-97 | reducing 48 ones with tile 16 leaves 16 or 32 in cell 0, never the sum 48 |
| ReduceKernel.FoldChunks | src/reduce.c:85-86 | folding the chunk folds is folding the whole row |
| ReduceKernel.ChunkFoldsAt | src/reduce.c:24-44 | chunk gc is the fold of cells gc*T up to (gc+1)*T or the end |
| ReduceKernel.PassChunks | src/reduce.c:24-44 | a corrected pass bounded by the current length n leaves the chunk folds of the first n cells in the first ceil(n/T) cells |
| ReduceKernel.FixedScheduleFolds | src/reduce.c:85-97 | the corrected schedule leaves the fold of the first n cells in cell 0 |
| ReduceKernel.FixedReduce | src/reduce.c:63-98 | the corrected reduce has every enqueue accepted, and, on a power-of-two tile with an associative, commutative op, leaves the fold of each row the launch reaches (all a2 when dimension 1 is launched, row 0 otherwise) in its cell 0 and the other rows unchanged |
| ScanKernel.WholeBlock | src/scan.c:141 | a row no longer than one block is already its inclusive scan |
| ScanKernel.LevelCell | src/scan.c:28-37 | one level with offset o turns a combination of the last o cells into one of the last 2o cells |
| ScanKernel.LevelsScan | src/scan.c:28-37 | the levels 1, 2, 4, ... below the tile leave every loaded slot combined from the tile start up to itself |
| ScanKernel.ScanLevel | src/scan.c:30-35 | the descending in-place loop equals the lockstep level |
| ScanKernel.TileScan | src/scan.c:23-37 | slot i of a group's tile ends as the combination of the row's cells from the group base up to base+i |
| ScanKernel.PartialGroup | src/scan.c:23-43 | a group writes its scanned tile back to its own cells of the row below a1 and changes nothing else |
| ScanKernel.GroupScanCell | src/scan.c:40-43 | a group's written cell is the partial row's cell |
| ScanKernel.PartialScanRow | src/scan.c:13-44 | the partial kernel over a row gives the partial row, and the other rows keep their cells |
| ScanKernel.PartialRowBlocks | src/scan.c:13-44 | the partial row is the block-wise inclusive scan with blocks of one tile |
| ScanKernel.PartialCell | src/scan.c:13-44 | cell by cell, the partial row is the tile-block scan |
| ScanKernel.PartialLaunch | src/scan.c:132-134 | the first enqueue gives every row below `rows` its tile-block scan and leaves the other rows unchanged |
| ScanKernel.PropagateAt | src/scan.c:64-69 | a cell of an odd chunk past the first becomes OP1(itself, the last cell of the preceding chunk) |
| ScanKernel.SourceUnmoved | src/scan.c:65-68 | the cell an update reads is an earlier one that no update of the same launch writes |
| ScanKernel.PropagateScanRow | src/scan.c:52-71 | the propagate kernel over a row, column by column, sets each odd-chunk cell to OP1(itself, cell (c/s)*s-1 of the row whose write of the shared `b` it reads back), as the launch-wide propagation says, and leaves the other rows unchanged |
| ScanKernel.PropagateDoubles | src/scan.c:64-69 | after stride s, a row scanned in aligned blocks of s is scanned in aligned blocks of 2s |
| ScanKernel.PropagateCell | src/scan.c:64-69 | cell by cell, propagation over the s-block scan gives the 2s-block scan |
| ScanKernel.PropagateLaunch | src/scan.c:145-147 | one propagate enqueue turns the rows below `rows` into their shared propagation, each item reading the `b` written by the row `picks` names, and leaves the other rows unchanged |
| ScanKernel.OwnRowPropagate | src/scan.c:64-69 | a row whose items read back their own writes of `b` is propagated as on its own |
| ScanKernel.OwnRowPropagates | src/scan.c:141-148 | such a row goes through the stride loop as on its own |
| ScanKernel.OwnRowScan | src/scan.c:116-148 | such a row ends as the row-wise scan schedule of it |
| ScanKernel.PicksForcedOwn | src/scan.c:62 | with at most one row below `rows`, or work-groups one row high, every item reads back its own write |
| ScanKernel.SharedBRace | src/scan.c:62-69 | two rows of 32 in one 16 x 16 group, ones and twos, op +: if row 0's item at column 16 reads row 1's write of `b`, the cell ends at 33, while the inclusive scan has 17 |
| ScanKernel.PartialRepeat | src/scan.c:13-44 | on n copies of v under +, the partial kernel leaves at cell c v times its position in its tile plus one |
| ScanKernel.PropagateFrom | src/scan.c:141-148 | the stride loop turns the rows below `rows` into their shared propagations for strides s, 2s, ... below a1 and counts them |
| ScanKernel.PropagatesScan | src/scan.c:141-148 | propagating from stride s over an s-block scan gives the inclusive scan |
| ScanKernel.ScanRowInclusive | src/scan.c:116-148 | the whole schedule on a row is its inclusive scan for any associative op |
| ScanKernel.StrideCountBound | src/scan.c:141 | at most k strides run when a1 is at most 2^k times the first stride |
| ScanKernel.Scan | src/scan.c:116-148 | the rows the launch reaches (all a2 when dimension 1 is launched, row 0 otherwise) become the shared scan schedule of them; each one whose items read back their own writes of `b` becomes ScanRow of it and, under an associative op, its inclusive scan; the other rows keep their cells; the event count is 1 plus the number of strides, at most 31, which fits the BUFSIZE event buffer |
| ScanKernel.ScanPrivate | src/scan.c:62-69 | with `b` private to each item, every row the launch reaches (all a2 when dimension 1 is launched, row 0 otherwise) becomes ScanRow of it and, under an associative op, its inclusive scan; the other rows keep their cells |
| TransposeKernel.LoadBlock | src/transpose.c:23-26 | the fresh T x (T+1) tile holds A[g1*T+x, g0*T+y] wherever that cell exists |
| TransposeKernel.StoreBlock | src/transpose.c:29-35 | the group writes B[g0*T+lr, g1*T+lc] from tile[lc, lr] inside B and changes nothing else |
| TransposeKernel.TransposeGroup | src/transpose.c:11-36 | a work-group sets its transposed block of B to A's transposed cells and changes nothing else |
| TransposeKernel.TransposeItems | src/transpose.c:11-36 | over a width x height grid, B[i, j] becomes A[j, i] exactly when i < width and j < height |
| TransposeKernel.Transpose | src/transpose.c:60-85 | B[i, j] becomes A[j, i] exactly where the grid sized from B's shape reaches, and every other cell keeps its value |
| TransposeKernel.SquareTransposeComplete | src/transpose.c:70-74 | for a square matrix every cell is written |
| TransposeKernel.WideTransposeIncomplete | src/transpose.c:70-74 | a 2x40 matrix launches only 16 items along B's rows, so B's row 16 is never written |
| TransposeKernel.TransposeFromA | src/transpose.c:29-35 | the grid sized from A's shape makes B the transpose of A |
| TransposeKernel.Transposed | src/transpose.c:34 | the transpose of a w-column matrix has w rows, and row i, column j holds cell (j, i) |
| TransposeKernel.TransposeTwice | src/transpose.c:29-35 | transposing twice restores any rectangular matrix |
| InnerProductKernel.StepCount | src/inner_product.c:33 | the number of steps is a multiple of the tile, at least a1 and below a1 + tile |
| InnerProductKernel.TileContinues | src/inner_product.c:44-47 | running the k loop over a loaded tile continues the step-by-step accumulation |
| InnerProductKernel.LoadTiles | src/inner_product.c:35-41 | the tiles hold the A operand (zero outside row < a2, k < a1) and the B operand (zero outside k < b2, col < b1) |
| InnerProductKernel.AccumulateItem | src/inner_product.c:44-47 | one item's k loop leaves acc OP1 (a OP2 b) folded left to right over the tile |
| InnerProductKernel.AccumulateTile | src/inner_product.c:44-47 | the k loop runs for every item of the group over the same tiles |
| InnerProductKernel.KTile | src/inner_product.c:33-49 | one t iteration advances every accumulator by one tile of steps |
| InnerProductKernel.TileAdvances | src/inner_product.c:33-49 | a tile of steps on loaded tiles is the next tile of the accumulation |
| InnerProductKernel.TileSteps | src/inner_product.c:33 | ceil(a1/tile) k-tiles of tile steps each give StepCount steps |
| InnerProductKernel.GroupAccumulators | src/inner_product.c:31-49 | acc starts at 0 and ends, for each item of the group, at the accumulation over all StepCount steps |
| InnerProductKernel.InnerGroup | src/inner_product.c:51-54 | a group writes its accumulators to its cells of C and changes nothing else |
| InnerProductKernel.InnerItems | inner_product.c:23-60 | over a width x height grid, C[i, j] becomes the accumulation exactly inside the grid; with T = TILE_SIZE the older kernel has the same effect |
| InnerProductKernel.InnerProduct | src/inner_product.c:80-107 | with the grid sized from C, every cell of C becomes its accumulation over StepCount steps |
| InnerProductKernel.SumOfProducts | src/inner_product.c:31-47 | with "+" and "*", the accumulation is the sum of A[row, k] * B[k, col] up to min(n, a1) |
| InnerProductKernel.MatrixProduct | src/inner_product.c:31-54 | with "+", "*" and a1 = b2, each cell is the naive matrix product's cell |
| InnerProductKernel.ProductAccumulatorIsZero | src/inner_product.c:31 | acc starts at the literal 0 whatever OP1 is, so with "*" as OP1 every result is 0 |
| OuterProductKernel.OuterItems | outer_product.c:10-20 | over a width x height grid, C[r, c] becomes op(A[r], B[c]) inside the grid, and no other cell changes |
| OuterProductKernel.OuterProduct | src/outer_product.c:39-62 | the launch is accepted exactly when C has an extent above 1; refused, C is unchanged; accepted, the rows the grid reaches hold op(A[row], B[col]) |
| OuterProductKernel.OuterProductCoversMatrix | src/outer_product.c:56-61 | an accepted launch covers C's columns, and for a matrix C its rows too |
| OuterProductKernel.OuterProductCovering | src/outer_product.c:16-21 | with the corrected launch, every cell of C is op(A[row], B[col]) |
| CsvThis.IndexOfFirst | csvthis.py:13 | a found index is the first occurrence of the separator from the start position, and nothing found means no occurrence |
| CsvThis.SplitJoin | csvthis.py:10 | joining the pieces of a split with the separator gives back the string |
| CsvThis.SplitPartsFree | csvthis.py:14 | no piece of a split on one character contains that character |
| CsvThis.SplitAtFirst | csvthis.py:10 | a split is the text before the first separator followed by the split of the rest |
| CsvThis.JoinSplitFields | csvthis.py:15-20 | fields without spaces, joined with ", ", split back into the same fields |
| CsvThis.StripStartSpec | csvthis.py:19 | lstrip keeps a suffix and drops only whitespace, and the result does not start with whitespace |
| CsvThis.StripEndSpec | csvthis.py:19 | rstrip keeps a prefix and drops only whitespace, and the result does not end with whitespace |
| CsvThis.StripTrims | csvthis.py:19-20 | strip gives a slice with no whitespace at either end, and all it drops is whitespace |
| CsvThis.NonEmpty | csvthis.py:10 | the kept pieces are all non-empty |
| CsvThis.Fields | csvthis.py:13-20 | a piece that does not raise yields exactly five fields |
| CsvThis.RowOfGoodGroup | csvthis.py:13-20 | with four lines and a ':' on lines 3 and 4, the line is the first and last tokens of line 1, the file name up to its first "/", and the first tokens after the ':'s |
| CsvThis.RowOfBadGroup | csvthis.py:16-20 | too few lines, or a missing ':' on line 3 or 4, raises |
| CsvThis.RowHasFiveFields | csvthis.py:15-22 | each printed line splits on ", " into exactly its five fields when the directory has no spaces |
| CsvThis.PrintedStopsAtFirstFailure | csvthis.py:11-25 | printed line k is piece k's line, and output stops exactly at the first piece that raises, keeping what was printed |
| CsvThis.PrintedAt | csvthis.py:11-22 | the output from piece i is its line followed by the rest, or nothing if it raises |
| CsvThis.GroupLine | csvthis.py:12-22 | the loop body builds exactly the piece's line, or stops where the script raises |
| CsvThis.CsvLines | csvthis.py:7-25 | an unreadable file prints nothing; otherwise the printed lines are those of the non-empty "Running" pieces, up to the first failure |

## Left out

- OpenCL session and compilation (`setup_cl`, `TRY_COMPILE_KERNEL`, `clCreate*`, `clEnqueue*`, queue queries) are foreign calls. Compilation is not modelled. An enqueue is its effect on the buffers, plus the work-dimension check it performs.
- Events, profiling and the returned `time` values are device clocks and asynchronous handles, and are left out. So is scan's wait-list marker (src/scan.c:150-166).
- GPU concurrency is left out: real work-items interleave, while the model runs groups in ascending order and barrier phases in lockstep. The one exception is the propagate kernel's `__local b`, shared by the rows of a work-group: the parameter `picks` says which row's write each item reads back.
- The work-group size that the OpenCL implementation chooses for reduce's last launch (`NULL` local size) is the parameter `finalLocal`.
- ReduceKernel.Reduce: `finalLocal` ranges over every positive size, including ones no implementation picks because they do not divide the final global size; the ensures hold for each of them.
- Floating-point element types are left out; every element is `int`, and type names matter only as text in the generated source.
- The error handler's varargs, `longjmp` and custom handlers become a reported outcome: the Report is what `_check_cl` passes to `handle_error`, which does not pass it on to the hook (see Findings). Reduce's driver loop follows a handler that returns: a refused pass changes nothing and the loop goes on. Elsewhere the model does not follow execution past the report.
- Byte-exact kernel text is left out: the whitespace produced by the `RAW` macro and the space flag of `% s`/`% d`. The model keeps the segments, the slots and their order.
- `_VECTOR_TYPE_LIST`, `print_array`, the `log_*` functions, the drivers (bench, benchCLBlast, benchOpenACC, examples, main.c), animations.py, plots.py and the `src/*.h` headers other than src/cl_utils.h are not part of this model.
- File reading and `sys.argv` in csvthis.py are parameters: the contents are an `Option` (None when the file cannot be read) and the file name is a string.
- ReduceKernel.Reduce: the work-items of the padding rows, at or beyond a2 up to the rounded-up global size, are not modelled, because they load out of bounds without writing (src/reduce.c:24-26). `rows` is fixed to Launch.RowsReached of the shape.
- ReduceKernel.Reduce: requires a tile of at least 2. With tile 1 the driver loop never ends (see ReduceKernel.TileOneStalls).
- ScanKernel.Scan: the work-items of the padding rows, at or beyond a2, are not modelled, for the same reason (src/scan.c:23-25). `rows` is fixed to Launch.RowsReached of the shape.
- ScanKernel.Scan: requires a1 of at most 2^30, where the `int` stride cannot overflow.
- TransposeKernel.Transpose: requires B to have at least two extents above 1. Launches of fewer dimensions are not modelled.
- TransposeKernel.Transpose: requires A and B to be distinct arrays.
- InnerProductKernel.InnerProduct: requires C to have at least two extents above 1, because with a 1-D launch the kernel reads tile rows no item writes.
- InnerProductKernel.InnerProduct: requires C distinct from A and B.
- MapKernel.Map: requires A to have no more cells than B, since writes past B are undefined in the source.
- MapKernel.Map: a 1x1x1 B is modelled as the refused enqueue it is.
- OuterProductKernel.OuterProduct: requires C's extents to fit A and B, since the kernel reads A[row] and B[col] unchecked.
- Buffers.ClArray.Clone: the device-to-device copy and its event wait are modelled as the clone's device contents equalling the source's.
- The older inner-product call in main.c:47 is not modelled as a separate member; KernelSources.LegacyGetInnerProduct covers any dtype and operators.
- Buffers.AllocArrayOf: requires a type name from the type list, which `ALLOC_ARRAY`'s `TYPE_TO_ENUM` expects at compile time.
- ReduceKernel.RowPassMethod: runs the groups in ascending order. On a device, group k's write of its value to cell k (src/reduce.c:41-44) races with the load of cell k by group k / T of the same launch (src/reduce.c:24-26); the model's order makes that load see the old value.
- ReduceKernel.FixedReduce: keeps that race between the groups of one pass, since it still writes the partials into the buffer its groups read. A race-free version would write them to a separate buffer.
- ScanKernel.ScanLevel: runs a level in lockstep. In the kernel (src/scan.c:30-35) item i reads slot i - offset while item i - offset writes that slot in the same level, with no barrier between; the model gives the read the old value.
- ScanKernel.Scan: the enqueue statuses are not modelled. Its launches have rounded-up global sizes, so the only refusal is the 0-dimensional launch of a 1x1x1 array (Launch.SingleCellLaunchRefused).
- Launch.ArraySize: the cell count is unbounded; in the source it is a C `int` product (src/cl_utils.h:372), so it agrees only while the product is at most INT_MAX (Launch.ArraySizeOverflowsInt).
- Launch.RoundUp: unbounded; the source's `int` arithmetic (src/cl_utils.h:69-70) overflows once n + tile - 1 exceeds INT_MAX.
- Buffers.AllocArray: extents are unbounded. The source stores its `size_t` extents in `int` fields (src/cl_utils.c:295-297) and sizes the buffer with the `int` ARRAY_SIZE (src/cl_utils.c:306), but the host block with the `size_t` product (src/cl_utils.c:286, 289). These agree only while every extent and the cell count are at most INT_MAX; at 65536 x 65536 x 1 the `int` count overflows.
- Buffers.AllocArray: `mallocOk` is a parameter, so whether malloc of zero bytes gives NULL is the C library's choice.
- Launch.EnqueueStatus: the device's limits (CL_DEVICE_MAX_WORK_GROUP_SIZE, CL_DEVICE_MAX_WORK_ITEM_SIZES) are not modelled. The 3-D launches' work-group {T, T, T} has 4096 items at T = 16, above common limits, and such a device refuses it with CL_INVALID_WORK_GROUP_SIZE.
- Launch.EnqueueStatus: a zero global size is not refused. Only an array with a zero extent gives one, and its buffer creation has already failed (Buffers.BufferStatus).
- Buffers.ClArray.Clone: the device copy of a zero-byte clone, which has no buffer, would also fail; the model reports only the buffer creation's status. CL_MEM_USE_HOST_PTR aliasing of host and device memory is not modelled.
- TransposeKernel.Transpose: requires B to have exactly the transposed shape of A. The kernel indexes B by b1 alone (src/transpose.c:34), so other shapes of B are not modelled.
- MapKernel.Map: requires A and B to be distinct when B has two or more extents above 1. Every idx is then run by all the work-items along dimensions 1 and 2 (MapKernel.MatrixMapReplicas); in place they race, applying op anywhere from once to once per replica.
- ReduceKernel.Reduce: requires at most two launched dimensions. With a1, a2 and a3 all above 1, a third dimension is launched that the kernel never reads (src/reduce.c:13-20), and each of its work-groups reruns the in-place pass on the same rows; on a device these copies race.
- ReduceKernel.FixedReduce: requires at most two launched dimensions, for the same reason.
- ScanKernel.Scan: requires at most two launched dimensions (src/scan.c:15-19 reads only dimensions 0 and 1); a third would rerun the partial and propagate kernels on the same rows.
- ReduceKernel.RowPassMethod: the phases run in lockstep as if every work-item reached each barrier. In the source the barriers (src/reduce.c:27, 38) sit inside `if (col < a1)`, so in the last work-group of a row with a1 not a multiple of T the items past a1 never reach them, which OpenCL leaves undefined.
- ScanKernel.PartialScanRow: the same holds for the partial-scan kernel, whose barriers (src/scan.c:26, 36) sit inside `if (col < a1)`.

## Findings

| source | as written | input that shows it | evidently intended | confidence | as-written member | corrected member |
|---|---|---|---|---|---|---|
| src/reduce.c:85-97 | every pass binds a1 as the bound, and the final pass runs with an implementation-chosen work-group over the remaining size | 48 ones, tile 16: three partials of 16; the last pass leaves 16 or 32 | each pass bounded by the current length, until one partial remains (the corrected passes still write partials into the buffer they read; a race-free version writes them to a separate buffer) | not executed | ReduceKernel.FinalPassLosesPartials | ReduceKernel.FixedReduce |
| src/cl_utils.c:347 | `arr.type = arr.type` leaves the clone's type unset | cloning an int array | `clone.type = arr.type` | not executed | Buffers.CloneLosesType | Buffers.ClArray.CloneKeepingType |
| src/map.c:14 | only `get_global_id(0)` indexes, under a launch of ARRAY_NUM_DIMS(B) dimensions | a 20x20 array maps only 32 of 400 cells | a one-dimensional launch over all cells | not executed | MapKernel.MatrixMapMissesCells | MapKernel.MapAll |
| src/transpose.c:70-74 | the grid is sized from B's shape, while the guards and tile come from A | a 2x40 matrix into 40x2: B rows 16 and up are never written | the grid sized from A's shape | not executed | TransposeKernel.WideTransposeIncomplete | TransposeKernel.TransposeFromA |
| src/cl_utils.h:377 | ARRAY_NUM_DIMS counts extents above 1 and is passed as work_dim | a 1x1x1 array gives work_dim 0 and CL_INVALID_WORK_DIMENSION; a 1x20 column launches only dimension 0 | launch up to the last extent above 1, and at least one dimension | not executed | Launch.SingleCellLaunchRefused | Launch.CoveringLaunchCovers |
| src/scan.c:62-69 | `b` is `__local`, one variable per work-group, and every item of an odd chunk writes it and reads it back with no barrier, while a 16 x 16 work-group spans 16 rows | two rows of 32 in one group, ones and twos, op +: cell (0, 16) may read row 1's write and end at 33 instead of 17 | `b` private to each item | not executed | ScanKernel.SharedBRace | ScanKernel.ScanPrivate |
| src/reduce.c:85-91 | the loop passes keep work-groups of T while the global size is divided down, and the programs are built as OpenCL C 1.x (no build options, src/cl_utils.c:227), where the work-group size must divide the global size | 300 columns, tile 16: the second pass has global size 19 with work-groups of 16 and is refused with CL_INVALID_WORK_GROUP_SIZE | each pass's global size rounded up to the tile (a race-free version also writes the partials to a separate buffer) | not executed | ReduceKernel.ReduceRefused300 | ReduceKernel.FixedReduce |
| src/scan.c:139 | `int idx` is initialised from SET_KERNEL_ARGS, a call of the void set_kernel_args (src/cl_utils.c:244-245, src/cl_utils.h:211-227), so the file does not compile | any array A | idx = 4, the index of `stride` after a1, a2, a3 and A (src/scan.c:52-53) | not executed | KernelArgs.StrideIndexFromVoid | KernelArgs.SetKernelArgsCounted |
| src/cl_utils.c:29-33 | handle_error calls the installed hook with its format string alone; the values after it are never collected with va_start, and the one-argument call does not match the hook's declared type, which also takes a va_list (src/cl_utils.h:25) | any failing CHECK_CL: the hook gets "OpenCL error %d (%s) ..." without the code, name, expression, line or file | va_start over the values and pass the va_list to the hook with the format | not executed | ClErrors.CheckClLosesValues | ClErrors.CheckClForwardsValues |
