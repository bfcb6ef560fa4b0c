/** The outer-product kernel of src/outer_product.c (the older outer_product.c
    has the same kernel text): work-item (row = id 1, col = id 0) sets
    C[row * c1 + col] := op(A[row], B[col]) inside C's bounds. C is the
    row-major matrix with c1 = C.Length1 columns and c2 = C.Length0 rows. */
module OuterProductKernel {
  import opened Launch
  import ClErrors

  /** The kernel over a width x height grid of work-items, row by row. */
  method OuterItems(A: array<int>, B: array<int>, C: array2<int>, width: nat, height: nat,
                    op: (int, int) -> int)
    requires C.Length0 <= A.Length && C.Length1 <= B.Length
    modifies C
    ensures forall r, c :: 0 <= r < C.Length0 && 0 <= c < C.Length1 ==>
      C[r, c] == if r < height && c < width then op(A[r], B[c]) else old(C[r, c])
  {
    var row := 0;
    while row < height
      invariant row <= height
      invariant forall r, c :: 0 <= r < C.Length0 && 0 <= c < C.Length1 ==>
        C[r, c] == if r < row && r < height && c < width then op(A[r], B[c]) else old(C[r, c])
    {
      var col := 0;
      while col < width
        invariant col <= width
        invariant forall r, c :: 0 <= r < C.Length0 && 0 <= c < C.Length1 ==>
          C[r, c] == if (r < row && c < width) || (r == row && c < col) then op(A[r], B[c]) else old(C[r, c])
      {
        if col < C.Length1 && row < C.Length0 {
          C[row, col] := op(A[row], B[col]);
        }
        col := col + 1;
      }
      row := row + 1;
    }
  }

  /** outer_product: sized from C, ARRAY_NUM_DIMS(C) dimensions launched. */
  method OuterProduct(sc: Shape, A: array<int>, B: array<int>, C: array2<int>, tile: int, op: (int, int) -> int)
    returns (status: int)
    requires tile >= 1 && sc.dim1 == C.Length1 && sc.dim2 == C.Length0
    requires C.Length0 <= A.Length && C.Length1 <= B.Length
    modifies C
    ensures status == ClErrors.CL_SUCCESS <==> NumDims(sc) >= 1
    ensures status != ClErrors.CL_SUCCESS ==> forall r, c :: 0 <= r < C.Length0 && 0 <= c < C.Length1 ==> C[r, c] == old(C[r, c])
    ensures status == ClErrors.CL_SUCCESS ==> forall r, c :: 0 <= r < C.Length0 && 0 <= c < C.Length1 ==>
      C[r, c] == if r < Extent(TiledLaunch(sc, tile), 1) then op(A[r], B[c]) else old(C[r, c])
  {
    var g := TiledLaunch(sc, tile);
    status := EnqueueStatus(g);
    if status == ClErrors.CL_SUCCESS {
      OuterItems(A, B, C, Extent(g, 0), Extent(g, 1), op);
    }
  }

  /** The grid of any accepted launch covers C's columns, and with a matrix C
      (c1, c2 > 1) its rows too: every cell becomes op(A[row], B[col]). */
  lemma OuterProductCoversMatrix(sc: Shape, tile: int)
    requires tile >= 1 && NumDims(sc) >= 1
    ensures sc.dim1 <= Extent(TiledLaunch(sc, tile), 0)
    ensures sc.dim1 > 1 && sc.dim2 > 1 ==> sc.dim2 <= Extent(TiledLaunch(sc, tile), 1)
  {
  }

  /** The evidently intended dispatch, with the covering launch: accepted for
      every shape, and every cell of C is written. */
  method OuterProductCovering(sc: Shape, A: array<int>, B: array<int>, C: array2<int>, tile: int,
                              op: (int, int) -> int)
    requires tile >= 1 && sc.dim1 == C.Length1 && sc.dim2 == C.Length0
    requires C.Length0 <= A.Length && C.Length1 <= B.Length
    modifies C
    ensures forall r, c :: 0 <= r < C.Length0 && 0 <= c < C.Length1 ==> C[r, c] == op(A[r], B[c])
  {
    var g := CoveringLaunch(sc, tile);
    CoveringLaunchCovers(sc, tile);
    assert Dims(sc)[0] <= Extent(g, 0) && Dims(sc)[1] <= Extent(g, 1);
    OuterItems(A, B, C, Extent(g, 0), Extent(g, 1), op);
  }
}
