/** The kernel format strings and the functions that fill them. Each format is
    a template whose slots are listed, in order, by a role; a getter builds the
    argument list from its parameters, role by role, and formats it. Kernel
    text is kept with its whitespace collapsed. */
module KernelSources {
  import opened Templates
  import Launch

  /** What a slot of a format stands for. */
  datatype Role =
    | AType | BType | CType        // element type of the A, B or C argument
    | TileSizeSlot                 // the tile size, printed with %d
    | ATileType | BTileType        // element type of a local staging tile
    | AccType                      // type of the accumulator
    | VarAType | VarBType          // type of the operator's a and b variables
    | Op1 | Op2                    // operator text

  function RoleKind(r: Role): Kind
  {
    if r == TileSizeSlot then IntSlot else StrSlot
  }

  function RoleKinds(rs: seq<Role>): (ks: seq<Kind>)
    ensures |ks| == |rs|
    ensures forall i :: 0 <= i < |rs| ==> ks[i] == RoleKind(rs[i])
  {
    seq(|rs|, i requires 0 <= i < |rs| => RoleKind(rs[i]))
  }

  /** The values a getter has at hand for the roles. */
  datatype Config = Config(aType: string, bType: string, cType: string, tile: int,
                           aTile: string, bTile: string, acc: string,
                           varA: string, varB: string, op1: string, op2: string)

  function RoleValue(r: Role, c: Config): (a: Arg)
    ensures KindOf(a) == RoleKind(r)
  {
    match r
    case AType => Str(c.aType)
    case BType => Str(c.bType)
    case CType => Str(c.cType)
    case TileSizeSlot => Int(c.tile)
    case ATileType => Str(c.aTile)
    case BTileType => Str(c.bTile)
    case AccType => Str(c.acc)
    case VarAType => Str(c.varA)
    case VarBType => Str(c.varB)
    case Op1 => Str(c.op1)
    case Op2 => Str(c.op2)
  }

  /** The argument list that gives every role, in order, its value. */
  function Fill(rs: seq<Role>, c: Config): (args: seq<Arg>)
    ensures |args| == |rs|
    ensures forall i :: 0 <= i < |rs| ==> args[i] == RoleValue(rs[i], c)
    ensures Kinds(args) == RoleKinds(rs)
  {
    seq(|rs|, i requires 0 <= i < |rs| => RoleValue(rs[i], c))
  }

  /** A format whose slots are exactly the listed roles' kinds accepts the
      filled argument list. */
  lemma FillFits(t: Template, rs: seq<Role>, c: Config)
    requires WellFormed(t) && t.slots == RoleKinds(rs)
    ensures Fits(t, Fill(rs, c))
  {
  }

  /** How a getter of src/ ends: with the kernel text, or with the message
      handed to the error hook. */
  datatype Outcome = Source(text: string) | Reported(message: string)

  const ALLOC_MSG: string := "Failed to allocate memory for kernel string"
  const PRINT_MSG: string := "Failed to print to kernel string"

  /** The snprintf-sizing pattern: measure, allocate, print; each failure is
      reported with its own message. */
  function SizedPrint(t: Template, args: seq<Arg>, mallocOk: bool, printOk: bool): (r: Outcome)
    requires Fits(t, args)
    ensures r.Source? <==> mallocOk && printOk
    ensures r.Source? ==> r.text == Format(t, args)
    ensures !mallocOk ==> r == Reported(ALLOC_MSG)
    ensures mallocOk && !printOk ==> r == Reported(PRINT_MSG)
  {
    if !mallocOk then Reported(ALLOC_MSG)
    else if !printOk then Reported(PRINT_MSG)
    else Source(Format(t, args))
  }

  /** The asprintf pattern: one call, one failure message. */
  function AllocPrint(t: Template, args: seq<Arg>, printOk: bool): (r: Outcome)
    requires Fits(t, args)
    ensures r.Source? <==> printOk
    ensures r.Source? ==> r.text == Format(t, args)
    ensures !printOk ==> r == Reported(PRINT_MSG)
  {
    if printOk then Source(Format(t, args)) else Reported(PRINT_MSG)
  }

  /** The asprintf pattern of the older files: NULL on failure. */
  function LegacyPrint(t: Template, args: seq<Arg>, printOk: bool): (r: Launch.Option<string>)
    requires Fits(t, args)
    ensures r.Some? <==> printOk
    ensures r.Some? ==> r.value == Format(t, args)
  {
    if printOk then Launch.Some(Format(t, args)) else Launch.None
  }

  // ---------------------------------------------------------------- map

  /** _map_fmt: B[idx] = OP1 (A[idx]) for every idx below A's size. The older
      map.c carries the same text. */
  const MapFormat: Template := Template(
    [
      "__kernel void entry ( const int a1, const int a2, const int a3, __global const ",
      " * A, const int b1, const int b2, const int b3, __global ",
      " * B) { int idx = get_global_id (0); int total = a1 * a2 * a3; if (idx < total) { B[idx] = ",
      " (A[idx]); } }"
    ],
    [StrSlot, StrSlot, StrSlot])

  const MapRoles: seq<Role> := [AType, BType, Op1]

  function MapConfig(dtype: string, op1: string): Config
  {
    Config(dtype, dtype, "", 0, "", "", "", "", "", op1, "")
  }

  /** get_map: one type name serves as both A's and B's type. */
  function GetMap(dtype: string, op1: string, mallocOk: bool, printOk: bool): (r: Outcome)
    ensures r.Source? <==> mallocOk && printOk
    ensures r.Source? ==> r.text == Format(MapFormat, [Str(dtype), Str(dtype), Str(op1)])
    ensures !r.Source? ==> r.message == (if mallocOk then PRINT_MSG else ALLOC_MSG)
  {
    MapSlots(dtype, op1);
    SizedPrint(MapFormat, Fill(MapRoles, MapConfig(dtype, op1)), mallocOk, printOk)
  }

  /** The older _get_map: the same arguments, NULL on failure. */
  function LegacyGetMap(dtype: string, op1: string, printOk: bool): (r: Launch.Option<string>)
    ensures r.Some? <==> printOk
    ensures r.Some? ==> r.value == Format(MapFormat, [Str(dtype), Str(dtype), Str(op1)])
  {
    MapSlots(dtype, op1);
    LegacyPrint(MapFormat, Fill(MapRoles, MapConfig(dtype, op1)), printOk)
  }

  /** The map format's slots are the documented (A type, B type, OP1); the
      getter's arguments fill them in that order; the operator text lands
      directly before "(A[idx])", so it is applied to A's element as a unary
      function. */
  lemma MapSlots(dtype: string, op1: string)
    ensures WellFormed(MapFormat) && MapFormat.slots == RoleKinds(MapRoles)
    ensures Fill(MapRoles, MapConfig(dtype, op1)) == [Str(dtype), Str(dtype), Str(op1)]
    ensures Fits(MapFormat, [Str(dtype), Str(dtype), Str(op1)])
    ensures Instantiate(MapFormat, [Str(dtype), Str(dtype), Str(op1)])[5] == Value(Str(op1))
    ensures MapFormat.lits[3] == " (A[idx]); } }"
  {
    var args := [Str(dtype), Str(dtype), Str(op1)];
    assert Fill(MapRoles, MapConfig(dtype, op1)) == args;
    FillFits(MapFormat, MapRoles, MapConfig(dtype, op1));
    PieceAt(MapFormat.lits, args, 2);
  }

  // ---------------------------------------------------------------- reduce

  /** _reduce_1step_fmt: one pass of the tiled tree reduction. */
  const ReduceFormat: Template := Template(
    [
      "__kernel void entry ( const int a1, const int a2, const int a3, __global ",
      " * A) { int row = get_global_id (1); int col = get_global_id (0); int local_row = get_local_id (1); int local_col = get_local_id (0); int group_row = get_group_id (1); int group_col = get_group_id (0); const int tile_size = ",
      "; __local ",
      " A_tile[tile_size][tile_size]; if (col < a1) { A_tile[local_row][local_col] = A[col + a1 * row]; barrier (CLK_LOCAL_MEM_FENCE); for (int offset = get_local_size (0) / 2; offset > 0; offset >>= 1) { if (local_col < offset && (col + offset) < a1) { A_tile[local_row][local_col] = A_tile[local_row][local_col] ",
      " A_tile[local_row][local_col + offset]; } barrier (CLK_LOCAL_MEM_FENCE); } if (local_col == 0 && row < a2) { A[group_col + a1 * row] = A_tile[local_row][0]; } } }"
    ],
    [StrSlot, IntSlot, StrSlot, StrSlot])

  const ReduceRoles: seq<Role> := [AType, TileSizeSlot, ATileType, Op1]

  function ReduceConfig(dtype: string, tile: int, op1: string): Config
  {
    Config(dtype, "", "", tile, dtype, "", "", "", "", op1, "")
  }

  /** get_reduce_1step: the current tile size goes into the tile slot. */
  function GetReduce1Step(dtype: string, tile: int, op1: string, printOk: bool): (r: Outcome)
    ensures r.Source? <==> printOk
    ensures r.Source? ==> r.text == Format(ReduceFormat, [Str(dtype), Int(tile), Str(dtype), Str(op1)])
    ensures !printOk ==> r == Reported(PRINT_MSG)
  {
    ReduceSlots(dtype, tile, op1);
    AllocPrint(ReduceFormat, Fill(ReduceRoles, ReduceConfig(dtype, tile, op1)), printOk)
  }

  /** The reduce format's slots are (A type, TILE_SIZE, A_tile type, OP1);
      the operator text stands infix between the slot and its partner at
      offset. */
  lemma ReduceSlots(dtype: string, tile: int, op1: string)
    ensures WellFormed(ReduceFormat) && ReduceFormat.slots == RoleKinds(ReduceRoles)
    ensures Fill(ReduceRoles, ReduceConfig(dtype, tile, op1)) == [Str(dtype), Int(tile), Str(dtype), Str(op1)]
    ensures Fits(ReduceFormat, [Str(dtype), Int(tile), Str(dtype), Str(op1)])
    ensures Instantiate(ReduceFormat, [Str(dtype), Int(tile), Str(dtype), Str(op1)])[7] == Value(Str(op1))
    ensures Instantiate(ReduceFormat, [Str(dtype), Int(tile), Str(dtype), Str(op1)])[3] == Value(Int(tile))
  {
    var args := [Str(dtype), Int(tile), Str(dtype), Str(op1)];
    assert Fill(ReduceRoles, ReduceConfig(dtype, tile, op1)) == args;
    FillFits(ReduceFormat, ReduceRoles, ReduceConfig(dtype, tile, op1));
    PieceAt(ReduceFormat.lits, args, 3);
    PieceAt(ReduceFormat.lits, args, 1);
  }

  // ---------------------------------------------------------------- scan

  /** _partial_scan_fmt: the in-tile inclusive scan. The operator text is the
      whole right-hand side, over the variables a (the cell) and b (the cell
      offset to its left). */
  const PartialScanFormat: Template := Template(
    [
      "__kernel void entry ( const int a1, const int a2, const int a3, __global ",
      " * A) { int row = get_global_id (1); int col = get_global_id (0); int local_row = get_local_id (1); int local_col = get_local_id (0); const int tile_size = ",
      "; __local ",
      " A_tile[tile_size][tile_size]; if (col < a1) { A_tile[local_row][local_col] = A[col + a1 * row]; barrier (CLK_LOCAL_MEM_FENCE); for (int offset = 1; offset < tile_size; offset *= 2) { if (local_col >= offset) { ",
      " a = A_tile[local_row][local_col]; ",
      " b = A_tile[local_row][local_col - offset]; A_tile[local_row][local_col] = ",
      "; } barrier (CLK_LOCAL_MEM_FENCE); } } if (col < a1 && row < a2) { A[col + a1 * row] = A_tile[local_row][local_col]; } }"
    ],
    [StrSlot, IntSlot, StrSlot, StrSlot, StrSlot, StrSlot])

  const PartialScanRoles: seq<Role> := [AType, TileSizeSlot, ATileType, VarAType, VarBType, Op1]

  /** _propagate_scan_fmt: folds the last cell of the preceding even chunk into
      every cell of an odd chunk; stride is a fifth argument. */
  const PropagateScanFormat: Template := Template(
    [
      "__kernel void entry ( const int a1, const int a2, const int a3, __global ",
      " * A, int stride) { int row = get_global_id (1); int col = get_global_id (0); int local_row = get_local_id (1); int local_col = get_local_id (0); int group_row = get_group_id (1); int group_col = get_group_id (0); __local ",
      " b; int chunk = col / stride; if (col > stride - 1 && col < a1 && row < a2 && chunk & 1 != 0) { ",
      " a = A[col + a1 * row]; b = A[(col / stride) * stride - 1 + (a1 * row)]; A[col + a1 * row] = ",
      "; } }"
    ],
    [StrSlot, StrSlot, StrSlot, StrSlot])

  const PropagateScanRoles: seq<Role> := [AType, VarBType, VarAType, Op1]

  function ScanConfig(dtype: string, tile: int, op1: string): Config
  {
    Config(dtype, "", "", tile, dtype, "", "", dtype, dtype, op1, "")
  }

  /** get_partial_scan: one type name for A, the tile, a and b. */
  function GetPartialScan(dtype: string, tile: int, op1: string, mallocOk: bool, printOk: bool): (r: Outcome)
    ensures r.Source? <==> mallocOk && printOk
    ensures r.Source? ==> r.text == Format(PartialScanFormat,
      [Str(dtype), Int(tile), Str(dtype), Str(dtype), Str(dtype), Str(op1)])
    ensures !r.Source? ==> r.message == (if mallocOk then PRINT_MSG else ALLOC_MSG)
  {
    PartialScanSlots(dtype, tile, op1);
    SizedPrint(PartialScanFormat, Fill(PartialScanRoles, ScanConfig(dtype, tile, op1)), mallocOk, printOk)
  }

  /** get_propagate_scan: one type name for A, b and a. */
  function GetPropagateScan(dtype: string, op1: string, mallocOk: bool, printOk: bool): (r: Outcome)
    ensures r.Source? <==> mallocOk && printOk
    ensures r.Source? ==> r.text == Format(PropagateScanFormat, [Str(dtype), Str(dtype), Str(dtype), Str(op1)])
    ensures !r.Source? ==> r.message == (if mallocOk then PRINT_MSG else ALLOC_MSG)
  {
    PropagateScanSlots(dtype, op1);
    SizedPrint(PropagateScanFormat, Fill(PropagateScanRoles, ScanConfig(dtype, 0, op1)), mallocOk, printOk)
  }

  /** The partial-scan format's slots are the documented list and the
      getter's arguments follow it; the operator text is the whole expression
      assigned to the tile cell. */
  lemma PartialScanSlots(dtype: string, tile: int, op1: string)
    ensures WellFormed(PartialScanFormat) && PartialScanFormat.slots == RoleKinds(PartialScanRoles)
    ensures Fill(PartialScanRoles, ScanConfig(dtype, tile, op1)) ==
      [Str(dtype), Int(tile), Str(dtype), Str(dtype), Str(dtype), Str(op1)]
    ensures Fits(PartialScanFormat, [Str(dtype), Int(tile), Str(dtype), Str(dtype), Str(dtype), Str(op1)])
    ensures Instantiate(PartialScanFormat,
      [Str(dtype), Int(tile), Str(dtype), Str(dtype), Str(dtype), Str(op1)])[11] == Value(Str(op1))
  {
    var c := ScanConfig(dtype, tile, op1);
    var args := [Str(dtype), Int(tile), Str(dtype), Str(dtype), Str(dtype), Str(op1)];
    assert Fill(PartialScanRoles, c) == args;
    FillFits(PartialScanFormat, PartialScanRoles, c);
    PieceAt(PartialScanFormat.lits, args, 5);
  }

  /** The propagate-scan format's slots are the documented list and the
      getter's arguments follow it. */
  lemma PropagateScanSlots(dtype: string, op1: string)
    ensures WellFormed(PropagateScanFormat) && PropagateScanFormat.slots == RoleKinds(PropagateScanRoles)
    ensures Fill(PropagateScanRoles, ScanConfig(dtype, 0, op1)) == [Str(dtype), Str(dtype), Str(dtype), Str(op1)]
    ensures Fits(PropagateScanFormat, [Str(dtype), Str(dtype), Str(dtype), Str(op1)])
  {
    var c := ScanConfig(dtype, 0, op1);
    assert Fill(PropagateScanRoles, c) == [Str(dtype), Str(dtype), Str(dtype), Str(op1)];
    FillFits(PropagateScanFormat, PropagateScanRoles, c);
  }

  // ---------------------------------------------------------------- transpose

  /** _transpose_fmt: the tiled transpose through a padded local tile. */
  const TransposeFormat: Template := Template(
    [
      "__kernel void entry ( const int a1, const int a2, const int a3, __global const ",
      " * A, const int b1, const int b2, const int b3, __global ",
      " * B) { int row = get_global_id (1); int col = get_global_id (0); int local_row = get_local_id (1); int local_col = get_local_id (0); const int tile_size = ",
      "; __local ",
      " A_tile[tile_size][tile_size + 1]; if (col < a1 && row < a2) { A_tile[local_row][local_col] = A[row * a1 + col]; } barrier (CLK_LOCAL_MEM_FENCE); int transposed_col = get_group_id (1) * tile_size + local_col; int transposed_row = get_group_id (0) * tile_size + local_row; if (transposed_col < a2 && transposed_row < a1) { B[transposed_row * b1 + transposed_col] = A_tile[local_col][local_row]; } }"
    ],
    [StrSlot, StrSlot, IntSlot, StrSlot])

  const TransposeRoles: seq<Role> := [AType, BType, TileSizeSlot, ATileType]

  function TransposeConfig(dtype: string, tile: int): Config
  {
    Config(dtype, dtype, "", tile, dtype, "", "", "", "", "", "")
  }

  /** get_transpose: one type name (B's, at the call site) for every type slot. */
  function GetTranspose(dtype: string, tile: int, mallocOk: bool, printOk: bool): (r: Outcome)
    ensures r.Source? <==> mallocOk && printOk
    ensures r.Source? ==> r.text == Format(TransposeFormat, [Str(dtype), Str(dtype), Int(tile), Str(dtype)])
    ensures !r.Source? ==> r.message == (if mallocOk then PRINT_MSG else ALLOC_MSG)
  {
    TransposeSlots(dtype, tile);
    SizedPrint(TransposeFormat, Fill(TransposeRoles, TransposeConfig(dtype, tile)), mallocOk, printOk)
  }

  lemma TransposeSlots(dtype: string, tile: int)
    ensures WellFormed(TransposeFormat) && TransposeFormat.slots == RoleKinds(TransposeRoles)
    ensures Fill(TransposeRoles, TransposeConfig(dtype, tile)) == [Str(dtype), Str(dtype), Int(tile), Str(dtype)]
    ensures Fits(TransposeFormat, [Str(dtype), Str(dtype), Int(tile), Str(dtype)])
  {
    assert Fill(TransposeRoles, TransposeConfig(dtype, tile)) == [Str(dtype), Str(dtype), Int(tile), Str(dtype)];
    FillFits(TransposeFormat, TransposeRoles, TransposeConfig(dtype, tile));
  }

  // ---------------------------------------------------------------- inner product

  /** _inner_product_fmt: the tiled blocked product; acc starts at 0 and
      gathers acc OP1 (a OP2 b) over the k-tiles. */
  const InnerProductFormat: Template := Template(
    [
      "__kernel void entry ( const int a1, const int a2, const int a3, __global const ",
      " * A, const int b1, const int b2, const int b3, __global const ",
      " * B, const int c1, const int c2, const int c3, __global ",
      " * C) { int row = get_global_id (1); int col = get_global_id (0); int local_row = get_local_id (1); int local_col = get_local_id (0); const int tile_size = ",
      "; __local ",
      " A_tile[tile_size][tile_size]; __local ",
      " B_tile[tile_size][tile_size]; ",
      " acc = 0; for (int t = 0; t < (a1 + tile_size - 1) / tile_size; t++) { int tiled_col_A = t * tile_size + local_col; int tiled_row_B = t * tile_size + local_row; A_tile[local_row][local_col] = (row < a2 && tiled_col_A < a1) ? A[row * a1 + tiled_col_A] : 0; B_tile[local_row][local_col] = (tiled_row_B < b2 && col < b1) ? B[tiled_row_B * b1 + col] : 0; barrier (CLK_LOCAL_MEM_FENCE); for (int k = 0; k < tile_size; ++k) { acc = acc ",
      " (A_tile[local_row][k] ",
      " B_tile[k][local_col]); } barrier (CLK_LOCAL_MEM_FENCE); } if (row < c2 && col < c1) { C[row * c1 + col] = acc; } }"
    ],
    [StrSlot, StrSlot, StrSlot, IntSlot, StrSlot, StrSlot, StrSlot, StrSlot, StrSlot])

  const InnerProductRoles: seq<Role> := [AType, BType, CType, TileSizeSlot, ATileType, BTileType, AccType, Op1, Op2]

  function InnerProductConfig(atype: string, btype: string, ctype: string, tile: int, op1: string, op2: string): Config
  {
    Config(atype, btype, ctype, tile, atype, btype, ctype, "", "", op1, op2)
  }

  /** get_inner_product: the A tile takes A's type, the B tile B's, the
      accumulator C's. */
  function GetInnerProduct(atype: string, btype: string, ctype: string, tile: int, op1: string, op2: string,
                           mallocOk: bool, printOk: bool): (r: Outcome)
    ensures r.Source? <==> mallocOk && printOk
    ensures r.Source? ==> r.text == Format(InnerProductFormat,
      [Str(atype), Str(btype), Str(ctype), Int(tile), Str(atype), Str(btype), Str(ctype), Str(op1), Str(op2)])
    ensures !r.Source? ==> r.message == (if mallocOk then PRINT_MSG else ALLOC_MSG)
  {
    InnerProductSlots(atype, btype, ctype, tile, op1, op2);
    SizedPrint(InnerProductFormat, Fill(InnerProductRoles, InnerProductConfig(atype, btype, ctype, tile, op1, op2)),
      mallocOk, printOk)
  }

  /** The slots are the documented nine; OP1 joins acc to a parenthesised
      OP2 of the two tile cells. */
  lemma InnerProductSlots(atype: string, btype: string, ctype: string, tile: int, op1: string, op2: string)
    ensures WellFormed(InnerProductFormat) && InnerProductFormat.slots == RoleKinds(InnerProductRoles)
    ensures Fill(InnerProductRoles, InnerProductConfig(atype, btype, ctype, tile, op1, op2)) ==
      [Str(atype), Str(btype), Str(ctype), Int(tile), Str(atype), Str(btype), Str(ctype), Str(op1), Str(op2)]
    ensures Fits(InnerProductFormat,
      [Str(atype), Str(btype), Str(ctype), Int(tile), Str(atype), Str(btype), Str(ctype), Str(op1), Str(op2)])
    ensures InnerProductFormat.lits[8] == " (A_tile[local_row][k] "
  {
    var c := InnerProductConfig(atype, btype, ctype, tile, op1, op2);
    InnerProductShape();
    InnerProductFill(c);
    FillFits(InnerProductFormat, InnerProductRoles, c);
  }

  lemma InnerProductShape()
    ensures WellFormed(InnerProductFormat) && InnerProductFormat.slots == RoleKinds(InnerProductRoles)
  {
  }

  lemma InnerProductFill(c: Config)
    ensures Fill(InnerProductRoles, c) ==
      [Str(c.aType), Str(c.bType), Str(c.cType), Int(c.tile), Str(c.aTile), Str(c.bTile), Str(c.acc), Str(c.op1), Str(c.op2)]
  {
  }

  /** The older 17-slot format: every tile extent is its own %d slot. */
  const LegacyInnerProductFormat: Template := Template(
    [
      "__kernel void entry ( const int a1, const int a2, const int a3, __global const ",
      " * A, const int b1, const int b2, const int b3, __global const ",
      " * B, const int c1, const int c2, const int c3, __global ",
      " * C) { int row = get_global_id (1); int col = get_global_id (0); int local_row = get_local_id (1); int local_col = get_local_id (0); __local ",
      " A_tile[",
      "][",
      "]; __local ",
      " B_tile[",
      "][",
      "]; ",
      " acc = 0; for (int t = 0; t < (a1 + ",
      " - 1) / ",
      "; t++) { int tiled_col_A = t * ",
      " + local_col; int tiled_row_B = t * ",
      " + local_row; A_tile[local_row][local_col] = (row < a2 && tiled_col_A < a1) ? A[row * a1 + tiled_col_A] : 0; B_tile[local_row][local_col] = (tiled_row_B < b2 && col < b1) ? B[tiled_row_B * b1 + col] : 0; barrier (CLK_LOCAL_MEM_FENCE); for (int k = 0; k < ",
      "; ++k) { acc = acc ",
      " (A_tile[local_row][k] ",
      " B_tile[k][local_col]); } barrier (CLK_LOCAL_MEM_FENCE); } if (row < c2 && col < c1) { C[row * c1 + col] = acc; } }"
    ],
    [StrSlot, StrSlot, StrSlot, StrSlot, IntSlot, IntSlot, StrSlot, IntSlot, IntSlot, StrSlot, IntSlot, IntSlot, IntSlot, IntSlot, IntSlot, StrSlot, StrSlot])

  const LegacyInnerProductRoles: seq<Role> := [
    AType, BType, CType, ATileType, TileSizeSlot, TileSizeSlot, BTileType, TileSizeSlot, TileSizeSlot,
    AccType, TileSizeSlot, TileSizeSlot, TileSizeSlot, TileSizeSlot, TileSizeSlot, Op1, Op2]

  function LegacyInnerProductArgs(dtype: string, op1: string, op2: string): seq<Arg>
  {
    var d := Str(dtype);
    var n := Int(Launch.TILE_SIZE);
    [d, d, d, d, n, n, d, n, n, d, n, n, n, n, n, Str(op1), Str(op2)]
  }

  /** The older _get_inner_product: one type name for all six type slots and
      the compile-time TILE_SIZE, not the settable tile size, in all nine
      extent slots; NULL on failure. */
  function LegacyGetInnerProduct(dtype: string, op1: string, op2: string, printOk: bool): (r: Launch.Option<string>)
    ensures r.Some? <==> printOk
    ensures r.Some? ==> r.value == Format(LegacyInnerProductFormat,
      Fill(LegacyInnerProductRoles, LegacyInnerProductConfig(dtype, op1, op2)))
  {
    LegacyInnerProductShape();
    FillFits(LegacyInnerProductFormat, LegacyInnerProductRoles, LegacyInnerProductConfig(dtype, op1, op2));
    LegacyPrint(LegacyInnerProductFormat, Fill(LegacyInnerProductRoles, LegacyInnerProductConfig(dtype, op1, op2)), printOk)
  }

  /** The older format is well formed and its slots are the listed roles'. */
  lemma LegacyInnerProductShape()
    ensures WellFormed(LegacyInnerProductFormat)
    ensures |LegacyInnerProductFormat.slots| == 17
    ensures LegacyInnerProductFormat.slots == RoleKinds(LegacyInnerProductRoles)
  {
    LegacyInnerProductWellFormed();
    LegacyInnerProductKinds();
  }

  lemma LegacyInnerProductWellFormed()
    ensures WellFormed(LegacyInnerProductFormat) && |LegacyInnerProductFormat.slots| == 17
  {
  }

  lemma LegacyInnerProductKinds()
    ensures LegacyInnerProductFormat.slots == RoleKinds(LegacyInnerProductRoles)
  {
  }

  function LegacyInnerProductConfig(dtype: string, op1: string, op2: string): Config
  {
    Config(dtype, dtype, dtype, Launch.TILE_SIZE, dtype, dtype, dtype, "", "", op1, op2)
  }

  /** The older getter's literal argument list gives each role its value, with
      the compile-time tile size in every extent slot. */
  lemma LegacyInnerProductFill(dtype: string, op1: string, op2: string)
    ensures LegacyInnerProductArgs(dtype, op1, op2) ==
      Fill(LegacyInnerProductRoles, LegacyInnerProductConfig(dtype, op1, op2))
  {
  }

  /** Every extent slot of the older format receives 16. */
  lemma LegacyInnerProductTiles(dtype: string, op1: string, op2: string)
    ensures forall i :: 0 <= i < 17 && LegacyInnerProductRoles[i] == TileSizeSlot ==>
      LegacyInnerProductArgs(dtype, op1, op2)[i] == Int(16)
  {
    LegacyInnerProductFill(dtype, op1, op2);
  }

  // ---------------------------------------------------------------- outer product

  /** _outer_product_fmt: C[row * c1 + col] = A[row] OP1 B[col] inside C's
      bounds. The older outer_product.c carries the same text. */
  const OuterProductFormat: Template := Template(
    [
      "__kernel void entry ( const int a1, const int a2, const int a3, __global const ",
      " * A, const int b1, const int b2, const int b3, __global const ",
      " * B, const int c1, const int c2, const int c3, __global ",
      " * C) { int row = get_global_id (1); int col = get_global_id (0); if (col < c1 && row < c2) { C[row * c1 + col] = A[row] ",
      " B[col]; } }"
    ],
    [StrSlot, StrSlot, StrSlot, StrSlot])

  const OuterProductRoles: seq<Role> := [AType, BType, CType, Op1]

  function OuterProductConfig(dtype: string, op1: string): Config
  {
    Config(dtype, dtype, dtype, 0, "", "", "", "", "", op1, "")
  }

  /** get_outer_product: one type name (C's, at the call site) for all three
      arrays; a printing failure is reported. */
  function GetOuterProduct(dtype: string, op1: string, printOk: bool): (r: Outcome)
    ensures r.Source? <==> printOk
    ensures r.Source? ==> r.text == Format(OuterProductFormat, [Str(dtype), Str(dtype), Str(dtype), Str(op1)])
    ensures !printOk ==> r == Reported(PRINT_MSG)
  {
    OuterProductSlots(dtype, op1);
    AllocPrint(OuterProductFormat, Fill(OuterProductRoles, OuterProductConfig(dtype, op1)), printOk)
  }

  /** The older _get_outer_product: the same arguments, NULL on failure. */
  function LegacyGetOuterProduct(dtype: string, op1: string, printOk: bool): (r: Launch.Option<string>)
    ensures r.Some? <==> printOk
    ensures r.Some? ==> r.value == Format(OuterProductFormat, [Str(dtype), Str(dtype), Str(dtype), Str(op1)])
  {
    OuterProductSlots(dtype, op1);
    LegacyPrint(OuterProductFormat, Fill(OuterProductRoles, OuterProductConfig(dtype, op1)), printOk)
  }

  /** Three type slots and then the operator, which stands infix between
      A[row] and B[col]. */
  lemma OuterProductSlots(dtype: string, op1: string)
    ensures WellFormed(OuterProductFormat) && OuterProductFormat.slots == RoleKinds(OuterProductRoles)
    ensures Fill(OuterProductRoles, OuterProductConfig(dtype, op1)) == [Str(dtype), Str(dtype), Str(dtype), Str(op1)]
    ensures Fits(OuterProductFormat, [Str(dtype), Str(dtype), Str(dtype), Str(op1)])
    ensures Instantiate(OuterProductFormat, [Str(dtype), Str(dtype), Str(dtype), Str(op1)])[7] == Value(Str(op1))
    ensures OuterProductFormat.lits[4] == " B[col]; } }"
  {
    var args := [Str(dtype), Str(dtype), Str(dtype), Str(op1)];
    assert Fill(OuterProductRoles, OuterProductConfig(dtype, op1)) == args;
    FillFits(OuterProductFormat, OuterProductRoles, OuterProductConfig(dtype, op1));
    PieceAt(OuterProductFormat.lits, args, 3);
  }
}
