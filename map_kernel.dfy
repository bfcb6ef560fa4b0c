/** The map kernel of src/map.c (the older map.c has the same kernel text):
    work-item idx, taken from dimension 0 alone, sets B[idx] := op(A[idx])
    when idx is below A's cell count a1 * a2 * a3. */
module MapKernel {
  import opened Launch
  import ClErrors

  function Min(a: nat, b: nat): nat
  {
    if a <= b then a else b
  }

  /** The kernel over `items` work-items along dimension 0, in ascending
      order; each reads and writes only its own index, so for a
      one-dimensional launch B may be A itself. */
  method MapItems(A: array<int>, B: array<int>, total: nat, items: nat, op: int -> int)
    requires total <= A.Length && Min(items, total) <= B.Length
    modifies B
    ensures forall i :: 0 <= i < B.Length ==>
      B[i] == if i < Min(items, total) then op(old(A[i])) else old(B[i])
    ensures A != B ==> A[..] == old(A[..])
  {
    var idx := 0;
    while idx < items
      invariant 0 <= idx <= items
      invariant forall i :: idx <= i < A.Length ==> A[i] == old(A[i])
      invariant A != B ==> A[..] == old(A[..])
      invariant forall i :: 0 <= i < B.Length ==>
        B[i] == if i < Min(idx, total) then op(old(A[i])) else old(B[i])
    {
      if idx < total {
        B[idx] := op(A[idx]);
      }
      idx := idx + 1;
    }
  }

  /** The cells map reaches: the first Min(global size of dimension 0, A's
      cell count), the global size being 1 when no dimension is launched. */
  function Reached(sa: Shape, sb: Shape, tile: int): nat
    requires tile >= 1
  {
    Min(Extent(TiledLaunch(sb, tile), 0), ArraySize(sa))
  }

  /** map: sized from B, ARRAY_NUM_DIMS(B) dimensions launched. When the
      enqueue is refused the check reports it and nothing runs. With two or
      more dimensions launched, every index is run by the work-items of all
      rows of the grid (see MatrixMapReplicas); they all write the same value
      unless B is A, so mapping in place needs a one-dimensional launch. */
  method Map(sa: Shape, sb: Shape, A: array<int>, B: array<int>, tile: int, op: int -> int)
    returns (status: int)
    requires tile >= 1 && A.Length == ArraySize(sa) && B.Length == ArraySize(sb)
    requires ArraySize(sa) <= ArraySize(sb)
    requires NumDims(sb) >= 2 ==> A != B
    modifies B
    ensures status == ClErrors.CL_SUCCESS <==> NumDims(sb) >= 1
    ensures status != ClErrors.CL_SUCCESS ==> status == ClErrors.CL_INVALID_WORK_DIMENSION && B[..] == old(B[..])
    ensures status == ClErrors.CL_SUCCESS ==> forall i :: 0 <= i < B.Length ==>
      B[i] == if i < Reached(sa, sb, tile) then op(old(A[i])) else old(B[i])
    ensures A != B ==> A[..] == old(A[..])
  {
    var g := TiledLaunch(sb, tile);
    status := EnqueueStatus(g);
    if status == ClErrors.CL_SUCCESS {
      MapItems(A, B, ArraySize(sa), Extent(g, 0), op);
    }
  }

  /** For B with one extent above 1, its first, map reaches every cell of A. */
  lemma VectorMapReachesAll(sa: Shape, sb: Shape, tile: int)
    requires tile >= 1 && sb.dim1 > 1 && sb.dim2 == 1 && sb.dim3 == 1
    requires ArraySize(sa) <= ArraySize(sb)
    ensures Reached(sa, sb, tile) == ArraySize(sa)
  {
    assert ArraySize(sb) == sb.dim1;
  }

  /** A 20 x 20 matrix with tile 16 launches 32 work-items along dimension 0
      alone: cells 32 .. 399 keep their old values. */
  lemma MatrixMapMissesCells()
    ensures var s := Shape(20, 20, 1);
      ArraySize(s) == 400 && Reached(s, s, TILE_SIZE) == 32
  {
    var s := Shape(20, 20, 1);
    assert RoundUp(20, 16) == 32 by { DivUnique(20 + 16 - 1, 16, 2, 3); }
    assert NumDims(s) == 2;
  }

  /** A 20 x 20 map also launches 32 work-items along dimension 1: each cell
      it reaches is written by 32 work-items, all reading A[idx]. */
  lemma MatrixMapReplicas()
    ensures var g := TiledLaunch(Shape(20, 20, 1), TILE_SIZE);
      g.workDim == 2 && Extent(g, 0) == 32 && Extent(g, 1) == 32
  {
    assert RoundUp(20, 16) == 32 by { DivUnique(20 + 16 - 1, 16, 2, 3); }
    assert NumDims(Shape(20, 20, 1)) == 2;
  }

  /** The evidently intended map: a one-dimensional launch over all of A's
      cells, rounded up to the tile; every cell of A is mapped. */
  method MapAll(sa: Shape, sb: Shape, A: array<int>, B: array<int>, tile: int, op: int -> int)
    requires tile >= 1 && A.Length == ArraySize(sa) && B.Length == ArraySize(sb)
    requires ArraySize(sa) <= ArraySize(sb)
    modifies B
    ensures forall i :: 0 <= i < B.Length ==>
      B[i] == if i < A.Length then op(old(A[i])) else old(B[i])
    ensures A != B ==> A[..] == old(A[..])
  {
    var items := RoundUp(ArraySize(sa), tile);
    MapItems(A, B, ArraySize(sa), items, op);
  }
}
