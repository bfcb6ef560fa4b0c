/** Launch sizing and array metadata: the arithmetic macros, the type tables
    and the tile-size setting of the library's utility header. */
module Launch {
  import ClErrors

  /** Compile-time default tile size (overridable with -DTILE_SIZE). */
  const TILE_SIZE: int := 16
  /** Compile-time default bound of the scan event buffer (overridable with -DBUFSIZE). */
  const BUFSIZE: int := 256
  /** Largest value of a C `int`. */
  const INT_MAX: int := 0x7fff_ffff

  /** LOWEST_MULTIPLE_OF_TILE(n) = ((n + T - 1) / T) * T, on non-negative operands,
      where C division truncates and so agrees with Dafny's. */
  function RoundUp(n: nat, tile: int): (r: nat)
    requires tile >= 1
    ensures r % tile == 0
    ensures n <= r < n + tile
    ensures r == n <==> n % tile == 0
  {
    RoundUpBounds(n, tile);
    ((n + tile - 1) / tile) * tile
  }

  lemma RoundUpBounds(n: nat, tile: int)
    requires tile >= 1
    ensures var r := ((n + tile - 1) / tile) * tile;
      r % tile == 0 && n <= r < n + tile && (r == n <==> n % tile == 0)
  {
    var q := (n + tile - 1) / tile;
    var m := (n + tile - 1) % tile;
    assert n + tile - 1 == q * tile + m;
    assert q * tile % tile == 0 by { MulMod(q, tile); }
    if n % tile == 0 {
      var k := n / tile;
      assert n == k * tile;
      assert n + tile - 1 == k * tile + (tile - 1);
      DivUnique(n + tile - 1, tile, k, tile - 1);
    }
  }

  lemma MulMod(q: int, tile: int)
    requires tile >= 1
    ensures q * tile % tile == 0
  {
    DivUnique(q * tile, tile, q, 0);
  }

  lemma DivUnique(x: int, tile: int, q: int, m: int)
    requires tile >= 1 && 0 <= m < tile && x == q * tile + m
    ensures x / tile == q && x % tile == m
  {
    var q', m' := x / tile, x % tile;
    var d := q - q';
    assert d * tile == m' - m by { MulSub(q, q', tile); }
    MulAtLeastOne(d, tile);
    MulAtLeastOne(-d, tile);
    assert (-d) * tile == -(d * tile);
  }

  lemma MulSub(a: int, b: int, c: int)
    ensures (a - b) * c == a * c - b * c
  {
  }

  /** k >= 1 makes k * t reach t. */
  lemma MulAtLeastOne(k: int, t: nat)
    ensures k >= 1 ==> k * t >= t
  {
    if k >= 1 {
      MulMonotone(k, t);
    }
  }

  lemma {:induction false} MulMonotone(k: nat, t: nat)
    requires k >= 1
    ensures k * t >= t
    decreases k
  {
    if k > 1 {
      MulMonotone(k - 1, t);
      assert k * t == (k - 1) * t + t;
    }
  }

  /** The rounded-up size is the least multiple of the tile not below n. */
  lemma RoundUpIsLeast(n: nat, tile: int, m: nat)
    requires tile >= 1 && m % tile == 0 && m >= n
    ensures RoundUp(n, tile) <= m
  {
    var r := RoundUp(n, tile);
    MultiplesApart(r, m, tile);
  }

  /** Two multiples of the tile that are less than a tile apart are equal or ordered by a tile. */
  lemma MultiplesApart(r: nat, m: nat, tile: int)
    requires tile >= 1 && r % tile == 0 && m % tile == 0
    ensures r > m ==> r >= m + tile
  {
    var km, kr := m / tile, r / tile;
    DivUnique(m, tile, km, 0);
    DivUnique(r, tile, kr, 0);
    assert (kr - km) * tile == r - m by { MulSub(kr, km, tile); }
    MulAtLeastOne(kr - km, tile);
    if r > m {
      assert kr - km >= 1 by {
        if kr - km <= 0 { MulNonPos(kr - km, tile); }
      }
    }
  }

  lemma MulNonPos(k: int, t: nat)
    requires k <= 0
    ensures k * t <= 0
  {
    MulAtLeastOne(-k, t);
    assert (-k) * t == -(k * t);
  }

  /** The three extents of an `array` (unused extents are 1). */
  datatype Shape = Shape(dim1: nat, dim2: nat, dim3: nat)

  function Dims(s: Shape): seq<nat> { [s.dim1, s.dim2, s.dim3] }

  /** ARRAY_SIZE(arr) = dim1 * dim2 * dim3. */
  function ArraySize(s: Shape): (n: nat)
    ensures s.dim1 >= 1 && s.dim2 >= 1 && s.dim3 >= 1 ==>
      n >= 1 && n >= s.dim1 && n >= s.dim2 && n >= s.dim3
    ensures n == 0 <==> (s.dim1 == 0 || s.dim2 == 0 || s.dim3 == 0)
  {
    SizeFacts(s);
    s.dim1 * s.dim2 * s.dim3
  }

  /** A 65536 x 65536 array has 2^32 cells, more than the C `int` that
      ARRAY_SIZE computes in can hold. */
  lemma ArraySizeOverflowsInt()
    ensures ArraySize(Shape(65536, 65536, 1)) == 0x1_0000_0000 > INT_MAX
  {
  }

  lemma SizeFacts(s: Shape)
    ensures s.dim1 >= 1 && s.dim2 >= 1 && s.dim3 >= 1 ==>
      s.dim1 * s.dim2 * s.dim3 >= s.dim1 && s.dim1 * s.dim2 * s.dim3 >= s.dim2 &&
      s.dim1 * s.dim2 * s.dim3 >= s.dim3
    ensures s.dim1 * s.dim2 * s.dim3 == 0 <==> (s.dim1 == 0 || s.dim2 == 0 || s.dim3 == 0)
  {
    var a, b, c := s.dim1, s.dim2, s.dim3;
    MulAtLeastOne(b, a);
    MulAtLeastOne(a, b);
    MulAtLeastOne(c, a * b);
    MulAtLeastOne(a * b, c);
    MulAtLeastOne(a, 1);
    MulAtLeastOne(a * b, 1);
  }

  /** ARRAY_NUM_DIMS(arr): how many extents exceed 1. */
  function NumDims(s: Shape): (k: nat)
    ensures k <= 3
    ensures k == 0 <==> (s.dim1 <= 1 && s.dim2 <= 1 && s.dim3 <= 1)
    ensures k == 3 <==> (s.dim1 > 1 && s.dim2 > 1 && s.dim3 > 1)
    ensures k == |set d | 0 <= d < 3 && Dims(s)[d] > 1|
  {
    DimSetSize(s);
    (if s.dim1 > 1 then 1 else 0) + (if s.dim2 > 1 then 1 else 0) + (if s.dim3 > 1 then 1 else 0)
  }

  lemma DimSetSize(s: Shape)
    ensures |set d | 0 <= d < 3 && Dims(s)[d] > 1| ==
      (if s.dim1 > 1 then 1 else 0) + (if s.dim2 > 1 then 1 else 0) + (if s.dim3 > 1 then 1 else 0)
  {
    var ds := set d | 0 <= d < 3 && Dims(s)[d] > 1;
    var s1: set<int> := if s.dim1 > 1 then {0} else {};
    var s2: set<int> := if s.dim2 > 1 then {1} else {};
    var s3: set<int> := if s.dim3 > 1 then {2} else {};
    assert ds == s1 + s2 + s3;
    assert s1 * s2 == {};
    assert |s1 + s2| == |s1| + |s2|;
    assert (s1 + s2) * s3 == {};
  }

  function Product(ext: seq<nat>): nat
  {
    if ext == [] then 1 else ext[0] * Product(ext[1..])
  }

  /** ALLOC_ARRAY(type, flags, ...) picks the one-, two- or three-extent form by
      the number of extents given; the missing extents become 1. */
  function ShapeOfExtents(ext: seq<nat>): (s: Shape)
    requires 1 <= |ext| <= 3
    ensures Dims(s)[..|ext|] == ext
    ensures forall d :: |ext| <= d < 3 ==> Dims(s)[d] == 1
    ensures ArraySize(s) == Product(ext)
  {
    if |ext| == 1 then
      assert Product(ext) == ext[0] * Product(ext[1..]) && ext[1..] == [];
      Shape(ext[0], 1, 1)
    else if |ext| == 2 then
      assert Product(ext) == ext[0] * Product(ext[1..]) && ext[1..] == [ext[1]];
      assert Product([ext[1]]) == ext[1] * Product([ext[1]][1..]) && [ext[1]][1..] == [];
      Shape(ext[0], ext[1], 1)
    else
      assert Product(ext) == ext[0] * Product(ext[1..]) && ext[1..] == [ext[1], ext[2]];
      assert Product([ext[1], ext[2]]) == ext[1] * Product([ext[2]]) by {
        assert [ext[1], ext[2]][1..] == [ext[2]];
      }
      assert Product([ext[2]]) == ext[2] * Product([ext[2]][1..]) && [ext[2]][1..] == [];
      assert ext[0] * (ext[1] * ext[2]) == ext[0] * ext[1] * ext[2];
      Shape(ext[0], ext[1], ext[2])
  }

  /** One row of the X-macro list _TYPE_LIST: the C type, its sizeof on an LP64
      platform (sizeof(void) is 1 under GNU C), and the enum constant's name. */
  datatype TypeEntry = TypeEntry(cName: string, size: nat, enumName: string)

  /** _TYPE_LIST, in order; the enum, the size table and the name table all
      come from it, so an enum value is an index into this one list. */
  const TypeList: seq<TypeEntry> := [
    TypeEntry("void", 1, "TYPE_UNKNOWN"),
    TypeEntry("float", 4, "TYPE_FLOAT"),
    TypeEntry("double", 8, "TYPE_DOUBLE"),
    TypeEntry("char", 1, "TYPE_CHAR"),
    TypeEntry("short", 2, "TYPE_SHORT"),
    TypeEntry("int", 4, "TYPE_INT"),
    TypeEntry("long", 8, "TYPE_LONG"),
    TypeEntry("bool", 1, "TYPE_BOOL")
  ]

  /** array_type: the enum produced from _TYPE_LIST. */
  type ArrayType = k: nat | k < 8

  const TYPE_UNKNOWN: ArrayType := 0
  const TYPE_FLOAT: ArrayType := 1
  const TYPE_DOUBLE: ArrayType := 2
  const TYPE_CHAR: ArrayType := 3
  const TYPE_SHORT: ArrayType := 4
  const TYPE_INT: ArrayType := 5
  const TYPE_LONG: ArrayType := 6
  const TYPE_BOOL: ArrayType := 7

  /** SIZE_FROM_ENUM(t): the sizeof of the t-th listed type. */
  function SizeFromEnum(t: ArrayType): (n: nat)
    ensures n >= 1
    ensures n == TypeList[t].size
  {
    TypeList[t].size
  }

  /** TYPE_STR_FROM_ENUM(t): the C name of the t-th listed type. */
  function TypeStrFromEnum(t: ArrayType): (name: string)
    ensures TypeList[t].cName == name
    ensures name != ""
  {
    TypeList[t].cName
  }

  /** TYPE_TO_ENUM(type): the enum constant for a listed C type name. */
  function TypeToEnum(name: string): (r: Option<ArrayType>)
    ensures r.Some? ==> TypeStrFromEnum(r.value) == name
    ensures r.None? <==> forall k: ArrayType :: TypeList[k].cName != name
  {
    LookupName(name, 0)
  }

  function LookupName(name: string, from: nat): (r: Option<ArrayType>)
    requires from <= 8
    ensures r.Some? ==> from <= r.value && TypeList[r.value].cName == name
    ensures r.None? <==> forall k: ArrayType :: from <= k ==> TypeList[k].cName != name
    decreases 8 - from
  {
    if from == 8 then None
    else if TypeList[from].cName == name then Some(from)
    else LookupName(name, from + 1)
  }

  datatype Option<T> = None | Some(value: T)

  /** The enum name of every tag matches its list entry, and a C type name
      maps back to its own tag. */
  lemma TypeTableRoundTrip(t: ArrayType)
    ensures TypeToEnum(TypeStrFromEnum(t)) == Some(t)
    ensures TypeStrFromEnum(TYPE_UNKNOWN) == "void" && TypeStrFromEnum(TYPE_INT) == "int"
    ensures SizeFromEnum(TYPE_INT) == 4 && SizeFromEnum(TYPE_DOUBLE) == 8
  {
    forall j: ArrayType, k: ArrayType | j != k ensures TypeList[j].cName != TypeList[k].cName {
      NamesDistinct(j, k);
    }
    var r := TypeToEnum(TypeStrFromEnum(t));
    assert r.Some?;
    assert TypeList[r.value].cName == TypeList[t].cName;
  }

  lemma NamesDistinct(j: ArrayType, k: ArrayType)
    requires j != k
    ensures TypeList[j].cName != TypeList[k].cName
  {
    var names := ["void", "float", "double", "char", "short", "int", "long", "bool"];
    assert forall i: ArrayType :: TypeList[i].cName == names[i];
    assert names[j][0] != names[k][0] || |names[j]| != |names[k]| || names[j] != names[k];
  }

  /** Row r of a buffer seen as the row-major matrix A with a1 = A.Length1
      columns: the cells A[col + a1 * row] of a kernel. */
  function RowOf(A: array2<int>, r: nat): (s: seq<int>)
    requires r < A.Length0
    reads A
    ensures |s| == A.Length1
  {
    seq(A.Length1, c requires 0 <= c < A.Length1 reads A => A[r, c])
  }

  /** The work-group and global sizes given to one NDRange enqueue: `workDim`
      dimensions are launched; `local` is None when the implementation chooses
      the work-group size (a NULL local-size argument). */
  datatype LaunchGeometry = LaunchGeometry(workDim: nat, global: seq<nat>, local: Option<seq<nat>>)

  /** The sizing every dispatcher uses: local = T in each dimension, global =
      each extent of the sizing array rounded up, ARRAY_NUM_DIMS dimensions. */
  function TiledLaunch(s: Shape, tile: int): (g: LaunchGeometry)
    requires tile >= 1
    ensures g.workDim == NumDims(s) && |g.global| == 3 && g.local == Some([tile, tile, tile])
    ensures forall d :: 0 <= d < 3 ==>
      g.global[d] % tile == 0 && Dims(s)[d] <= g.global[d] < Dims(s)[d] + tile
  {
    LaunchGeometry(NumDims(s),
      [RoundUp(s.dim1, tile), RoundUp(s.dim2, tile), RoundUp(s.dim3, tile)],
      Some([tile, tile, tile]))
  }

  /** The number of work-items along dimension d: the global size for a
      launched dimension, 1 (only id 0) for the others. */
  function Extent(g: LaunchGeometry, d: nat): nat
    requires |g.global| == 3 && d < 3
  {
    if d < g.workDim then g.global[d] else 1
  }

  /** A launch covers every index of dimension d of the sizing array exactly
      when that dimension is launched or has extent at most 1. */
  lemma TiledLaunchCovers(s: Shape, tile: int, d: nat)
    requires tile >= 1 && d < 3
    ensures var g := TiledLaunch(s, tile);
      Dims(s)[d] <= Extent(g, d) <==> (d < NumDims(s) || Dims(s)[d] <= 1)
  {
    var g := TiledLaunch(s, tile);
    if d >= NumDims(s) {
      assert Extent(g, d) == 1;
    }
  }

  /** The rows of an array that the dispatchers' tiled launch reaches: all a2
      rows when dimension 1 is launched, and otherwise row 0 alone, since
      get_global_id(1) is then 0. */
  function RowsReached(s: Shape): (n: nat)
    ensures n <= s.dim2
  {
    if NumDims(s) >= 2 then s.dim2 else if s.dim2 == 0 then 0 else 1
  }

  /** Row r of an array is reached exactly when dimension 1 of the tiled
      launch has an item with that index. */
  lemma RowsReachedCovered(s: Shape, tile: int, r: nat)
    requires tile >= 1 && r < s.dim2
    ensures r < RowsReached(s) <==> r < Extent(TiledLaunch(s, tile), 1)
  {
    assert Dims(s)[1] == s.dim2;
  }

  /** A 2 x 32 matrix has both rows reached; a 1 x 20 column, launched in
      dimension 0 alone, only row 0. */
  lemma RowsReachedExamples()
    ensures RowsReached(Shape(32, 2, 1)) == 2 && RowsReached(Shape(1, 20, 1)) == 1
  {
  }

  /** The programs are built with no options, so as OpenCL C 1.x, where an
      explicit work-group size must divide the global size in every launched
      dimension. A NULL local size lets the implementation choose one that
      does. */
  predicate Uniform(g: LaunchGeometry)
  {
    match g.local
    case None => true
    case Some(l) =>
      forall d :: 0 <= d < g.workDim && d < |g.global| ==>
        d < |l| && l[d] >= 1 && g.global[d] % l[d] == 0
  }

  /** The status clEnqueueNDRangeKernel gives a geometry: a work dimension
      outside 1..3 is refused with CL_INVALID_WORK_DIMENSION, and then a
      work-group size that does not divide the global size with
      CL_INVALID_WORK_GROUP_SIZE. */
  function EnqueueStatus(g: LaunchGeometry): (status: int)
    ensures status == ClErrors.CL_SUCCESS <==> 1 <= g.workDim <= 3 && Uniform(g)
    ensures !(1 <= g.workDim <= 3) ==> status == ClErrors.CL_INVALID_WORK_DIMENSION
    ensures 1 <= g.workDim <= 3 && !Uniform(g) ==> status == ClErrors.CL_INVALID_WORK_GROUP_SIZE
  {
    if !(1 <= g.workDim <= 3) then ClErrors.CL_INVALID_WORK_DIMENSION
    else if !Uniform(g) then ClErrors.CL_INVALID_WORK_GROUP_SIZE
    else ClErrors.CL_SUCCESS
  }

  /** The dispatchers' sizing rounds every extent up to a multiple of the
      tile, so its enqueue is refused only for the work dimension. */
  lemma TiledLaunchUniform(s: Shape, tile: int)
    requires tile >= 1
    ensures Uniform(TiledLaunch(s, tile))
    ensures EnqueueStatus(TiledLaunch(s, tile)) == ClErrors.CL_SUCCESS <==> NumDims(s) >= 1
  {
  }

  /** A 1 x 1 x 1 array gets a 0-dimensional launch, which the enqueue refuses. */
  lemma SingleCellLaunchRefused(tile: int)
    requires tile >= 1
    ensures TiledLaunch(Shape(1, 1, 1), tile).workDim == 0
    ensures EnqueueStatus(TiledLaunch(Shape(1, 1, 1), tile)) == ClErrors.CL_INVALID_WORK_DIMENSION
  {
  }

  /** A column of 20 cells, shape (1, 20, 1), counts one extent above 1 and so
      launches dimension 0 alone: one work-item row covers row 0 only. */
  lemma ColumnLaunchMissesRows()
    ensures var g := TiledLaunch(Shape(1, 20, 1), TILE_SIZE);
      g.workDim == 1 && Extent(g, 0) == 16 && Extent(g, 1) == 1 < 20
  {
    assert RoundUp(1, 16) == 16 by { DivUnique(1 + 16 - 1, 16, 1, 0); }
  }

  /** The number of dimensions to launch so that every extent is covered:
      through the last extent above 1, and at least one. */
  function CoveringDims(s: Shape): (k: nat)
    ensures 1 <= k <= 3
    ensures forall d :: k <= d < 3 ==> Dims(s)[d] <= 1
    ensures k > 1 ==> Dims(s)[k - 1] > 1
  {
    if s.dim3 > 1 then 3 else if s.dim2 > 1 then 2 else 1
  }

  /** The dispatchers' sizing with CoveringDims dimensions launched. */
  function CoveringLaunch(s: Shape, tile: int): (g: LaunchGeometry)
    requires tile >= 1
    ensures g.workDim == CoveringDims(s) && |g.global| == 3 && g.local == Some([tile, tile, tile])
    ensures g.global == TiledLaunch(s, tile).global
  {
    LaunchGeometry(CoveringDims(s), TiledLaunch(s, tile).global, Some([tile, tile, tile]))
  }

  /** The covering launch is always accepted and reaches every index of every
      extent. */
  lemma CoveringLaunchCovers(s: Shape, tile: int)
    requires tile >= 1
    ensures EnqueueStatus(CoveringLaunch(s, tile)) == ClErrors.CL_SUCCESS
    ensures forall d :: 0 <= d < 3 ==> Dims(s)[d] <= Extent(CoveringLaunch(s, tile), d)
  {
    var g := CoveringLaunch(s, tile);
    forall d | 0 <= d < 3 ensures Dims(s)[d] <= Extent(g, d) {
      if d >= g.workDim {
        assert Dims(s)[d] <= 1;
      } else {
        assert Extent(g, d) == TiledLaunch(s, tile).global[d];
      }
    }
  }

  /** Where the extents above 1 come first, which the library's own vectors
      (n, 1, 1) and matrices (n, m, 1) with n, m > 1 satisfy, both launches are
      the same. */
  lemma TiledLaunchAgrees(s: Shape, tile: int)
    requires tile >= 1 && s.dim1 > 1 && (s.dim3 > 1 ==> s.dim2 > 1)
    ensures TiledLaunch(s, tile) == CoveringLaunch(s, tile)
  {
  }

  /** The global tile size `_tile_size` and its guarded setter. */
  class TileConfig {
    var tileSize: int

    ghost predicate Valid()
      reads this
    {
      tileSize >= 1
    }

    /** `int _tile_size = TILE_SIZE;` */
    constructor ()
      ensures Valid() && tileSize == TILE_SIZE
    {
      tileSize := TILE_SIZE;
    }

    /** set_tile_size: a non-positive size is ignored. */
    method SetTileSize(size: int)
      requires Valid()
      modifies this
      ensures Valid()
      ensures tileSize == if size > 0 then size else old(tileSize)
    {
      if size > 0 {
        tileSize := size;
      }
    }
  }
}
