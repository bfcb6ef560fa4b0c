/** The tiled transpose of src/transpose.c. A is the row-major a2 x a1 matrix
    (A.Length0 = a2 rows, A.Length1 = a1 columns) and B the b2 x b1 matrix it
    is transposed into. Each T x T work-group stages its block of A in a
    T x (T + 1) local tile, then writes the block transposed to the swapped
    group coordinates of B. */
module TransposeKernel {
  import opened Launch
  import ClErrors

  /** One work-group (g0, g1): item (lr, lc) loads A[g1*T + lr, g0*T + lc]
      into tile[lr, lc] when that cell exists; after the barrier it writes
      B[g0*T + lr, g1*T + lc] := tile[lc, lr] when that cell of B exists. */
  method TransposeGroup(A: array2<int>, B: array2<int>, g0: nat, g1: nat, T: nat)
    requires T >= 1 && B.Length0 == A.Length1 && B.Length1 == A.Length0 && A != B
    modifies B
    ensures forall i, j :: 0 <= i < B.Length0 && 0 <= j < B.Length1 ==>
      B[i, j] == if g0 * T <= i < g0 * T + T && g1 * T <= j < g1 * T + T then A[j, i] else old(B[i, j])
  {
    var tile := LoadBlock(A, g0, g1, T);
    StoreBlock(A, B, tile, g0, g1, T);
    forall i, j | 0 <= i < B.Length0 && 0 <= j < B.Length1 && g0 * T <= i < g0 * T + T && g1 * T <= j < g1 * T + T
      ensures tile[j - g1 * T, i - g0 * T] == A[j, i]
    {
      var x, y := j - g1 * T, i - g0 * T;
      assert g1 * T + x == j && g0 * T + y == i;
    }
  }

  /** The load phase: slot (x, y) of the fresh tile holds A[g1*T + x, g0*T + y]
      wherever that cell exists; the padding column T is left alone. */
  method LoadBlock(A: array2<int>, g0: nat, g1: nat, T: nat) returns (tile: array2<int>)
    requires T >= 1
    ensures fresh(tile) && tile.Length0 == T && tile.Length1 == T + 1
    ensures forall x, y :: 0 <= x < T && 0 <= y < T && g1 * T + x < A.Length0 && g0 * T + y < A.Length1 ==>
      tile[x, y] == A[g1 * T + x, g0 * T + y]
  {
    tile := new int[T, T + 1];
    var lr := 0;
    while lr < T
      invariant lr <= T
      invariant forall x, y :: 0 <= x < lr && 0 <= y < T && g1 * T + x < A.Length0 && g0 * T + y < A.Length1 ==>
        tile[x, y] == A[g1 * T + x, g0 * T + y]
      modifies tile
    {
      var lc := 0;
      while lc < T
        invariant lc <= T
        invariant forall x, y ::
          (0 <= x < T && 0 <= y < T && g1 * T + x < A.Length0 && g0 * T + y < A.Length1 && (x < lr || (x == lr && y < lc)))
          ==> tile[x, y] == A[g1 * T + x, g0 * T + y]
        modifies tile
      {
        var row, col := g1 * T + lr, g0 * T + lc;
        if col < A.Length1 && row < A.Length0 {
          tile[lr, lc] := A[row, col];
        }
        lc := lc + 1;
      }
      lr := lr + 1;
    }
  }

  /** The store phase: B[g0*T + lr, g1*T + lc] := tile[lc, lr] inside B. */
  method StoreBlock(A: array2<int>, B: array2<int>, tile: array2<int>, g0: nat, g1: nat, T: nat)
    requires T >= 1 && B.Length0 == A.Length1 && B.Length1 == A.Length0
    requires tile != B && tile.Length0 == T && tile.Length1 == T + 1
    requires forall x, y :: 0 <= x < T && 0 <= y < T && g1 * T + x < A.Length0 && g0 * T + y < A.Length1 ==>
      tile[x, y] == A[g1 * T + x, g0 * T + y]
    modifies B
    ensures forall i, j :: 0 <= i < B.Length0 && 0 <= j < B.Length1 ==>
      B[i, j] == if g0 * T <= i < g0 * T + T && g1 * T <= j < g1 * T + T then tile[j - g1 * T, i - g0 * T] else old(B[i, j])
  {
    var lr := 0;
    while lr < T
      invariant lr <= T
      invariant forall i, j :: 0 <= i < B.Length0 && 0 <= j < B.Length1 ==>
        B[i, j] == if g0 * T <= i < g0 * T + lr && g1 * T <= j < g1 * T + T then tile[j - g1 * T, i - g0 * T] else old(B[i, j])
    {
      var lc := 0;
      while lc < T
        invariant lc <= T
        invariant forall i, j :: 0 <= i < B.Length0 && 0 <= j < B.Length1 ==>
          B[i, j] == if (g0 * T <= i < g0 * T + lr && g1 * T <= j < g1 * T + T) ||
            (i == g0 * T + lr && g1 * T <= j < g1 * T + lc) then tile[j - g1 * T, i - g0 * T] else old(B[i, j])
      {
        var tcol, trow := g1 * T + lc, g0 * T + lr;
        if tcol < A.Length0 && trow < A.Length1 {
          B[trow, tcol] := tile[lc, lr];
        }
        lc := lc + 1;
      }
      lr := lr + 1;
    }
  }

  /** The kernel over a width x height grid of work-items (both multiples of
      T, both dimensions launched), group by group: cell (i, j) of B becomes
      A[j, i] exactly when i < width and j < height. */
  method TransposeItems(A: array2<int>, B: array2<int>, width: nat, height: nat, T: nat)
    requires T >= 1 && width % T == 0 && height % T == 0
    requires B.Length0 == A.Length1 && B.Length1 == A.Length0 && A != B
    modifies B
    ensures forall i, j :: 0 <= i < B.Length0 && 0 <= j < B.Length1 ==>
      B[i, j] == if i < width && j < height then A[j, i] else old(B[i, j])
  {
    var g0 := 0;
    while g0 * T < width
      invariant g0 * T <= width
      invariant forall i, j :: 0 <= i < B.Length0 && 0 <= j < B.Length1 ==>
        B[i, j] == if i < g0 * T && j < height then A[j, i] else old(B[i, j])
    {
      var g1 := 0;
      while g1 * T < height
        invariant g1 * T <= height
        invariant forall i, j :: 0 <= i < B.Length0 && 0 <= j < B.Length1 ==>
          B[i, j] == if (i < g0 * T && j < height) || (g0 * T <= i < g0 * T + T && j < g1 * T)
            then A[j, i] else old(B[i, j])
      {
        TransposeGroup(A, B, g0, g1, T);
        NextMultiple(g1, T, height);
        g1 := g1 + 1;
      }
      NextMultiple(g0, T, width);
      g0 := g0 + 1;
    }
  }

  /** Below a multiple n of T, the next group starts at most at n. */
  lemma NextMultiple(g: nat, T: nat, n: nat)
    requires T >= 1 && n % T == 0 && g * T < n
    ensures (g + 1) * T <= n
  {
    var q := n / T;
    assert n == q * T;
    MulStrict(g, q, T);
    MulLe(g + 1, q, T);
  }

  lemma MulStrict(a: nat, b: nat, T: nat)
    ensures a * T < b * T ==> a < b
  {
    if a >= b {
      MulLe(b, a, T);
    }
  }

  lemma MulLe(a: nat, b: nat, T: nat)
    requires a <= b
    ensures a * T <= b * T
  {
  }

  /** The cells transpose writes: row i and column j of B with i below the
      dimension-0 global size and j below the dimension-1 global size, both
      taken from B's shape. */
  predicate Written(sa: Shape, sb: Shape, tile: int, i: nat, j: nat)
    requires tile >= 1
  {
    i < sa.dim1 && j < sa.dim2 &&
    i < Extent(TiledLaunch(sb, tile), 0) && j < Extent(TiledLaunch(sb, tile), 1)
  }

  /** transpose: sized from B, ARRAY_NUM_DIMS(B) dimensions launched; the
      model takes launches of two or more dimensions. */
  method Transpose(sa: Shape, sb: Shape, A: array2<int>, B: array2<int>, tile: int)
    requires tile >= 1 && sa.dim1 == A.Length1 && sa.dim2 == A.Length0
    requires sb.dim1 == B.Length1 && sb.dim2 == B.Length0
    requires B.Length0 == A.Length1 && B.Length1 == A.Length0 && A != B
    requires NumDims(sb) >= 2
    modifies B
    ensures forall i, j :: 0 <= i < B.Length0 && 0 <= j < B.Length1 ==>
      B[i, j] == if Written(sa, sb, tile, i, j) then A[j, i] else old(B[i, j])
  {
    var g := TiledLaunch(sb, tile);
    assert EnqueueStatus(g) == ClErrors.CL_SUCCESS;
    TransposeItems(A, B, Extent(g, 0), Extent(g, 1), tile);
  }

  /** A square matrix is transposed in full. */
  lemma SquareTransposeComplete(sa: Shape, sb: Shape, tile: int, i: nat, j: nat)
    requires tile >= 1 && NumDims(sb) >= 2 && sa.dim1 == sa.dim2 == sb.dim1 == sb.dim2
    requires i < sa.dim1 && j < sa.dim2
    ensures Written(sa, sb, tile, i, j)
  {
  }

  /** A 2 x 40 matrix (a1 = 40, a2 = 2) into a 40 x 2 one: B's shape launches
      RoundUp(2) = 16 work-items along dimension 0, so rows 16 .. 39 of B are
      never written. */
  lemma WideTransposeIncomplete()
    ensures !Written(Shape(40, 2, 1), Shape(2, 40, 1), TILE_SIZE, 16, 0)
  {
    assert RoundUp(2, 16) == 16 by { DivUnique(2 + 16 - 1, 16, 1, 1); }
  }

  /** The evidently intended sizing: the grid from A's shape, where dimension 0
      runs along A's columns, which are B's rows; B is then A's transpose. */
  method TransposeFromA(sa: Shape, A: array2<int>, B: array2<int>, tile: int)
    requires tile >= 1 && sa.dim1 == A.Length1 && sa.dim2 == A.Length0
    requires B.Length0 == A.Length1 && B.Length1 == A.Length0 && A != B
    modifies B
    ensures Matrix(B) == Transposed(Matrix(A), A.Length1)
  {
    var width, height := RoundUp(sa.dim1, tile), RoundUp(sa.dim2, tile);
    TransposeItems(A, B, width, height, tile);
    assert Matrix(B) == Transposed(Matrix(A), A.Length1) by {
      forall i | 0 <= i < B.Length0 ensures Matrix(B)[i] == Transposed(Matrix(A), A.Length1)[i] { }
    }
  }

  /** A matrix as its rows. */
  function Matrix(M: array2<int>): (m: seq<seq<int>>)
    reads M
    ensures |m| == M.Length0 && forall i :: 0 <= i < |m| ==> |m[i]| == M.Length1
  {
    seq(M.Length0, i requires 0 <= i < M.Length0 reads M =>
      seq(M.Length1, j requires 0 <= j < M.Length1 reads M => M[i, j]))
  }

  predicate Rectangular(m: seq<seq<int>>, w: nat)
  {
    forall i :: 0 <= i < |m| ==> |m[i]| == w
  }

  /** The transpose of a matrix with w columns: w rows of |m| cells. */
  function Transposed(m: seq<seq<int>>, w: nat): (t: seq<seq<int>>)
    requires Rectangular(m, w)
    ensures |t| == w && Rectangular(t, |m|)
    ensures forall i, j :: 0 <= i < w && 0 <= j < |m| ==> t[i][j] == m[j][i]
  {
    seq(w, i requires 0 <= i < w => seq(|m|, j requires 0 <= j < |m| => m[j][i]))
  }

  /** Transposing twice restores any rectangular matrix. */
  lemma TransposeTwice(m: seq<seq<int>>, w: nat)
    requires Rectangular(m, w)
    ensures Transposed(Transposed(m, w), |m|) == m
  {
    var t := Transposed(Transposed(m, w), |m|);
    forall i | 0 <= i < |m| ensures t[i] == m[i] { }
  }
}
