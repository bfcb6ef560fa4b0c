/** The tiled inner product of src/inner_product.c (the older
    inner_product.c has the same kernel text, with the tile size fixed at
    compile time). A is the a2 x a1 matrix (A.Length0 = a2, A.Length1 = a1), B
    the b2 x b1 one and C the c2 x c1 one. Work-item (row = id 1, col = id 0)
    starts acc at 0 and, for each of the ceil(a1 / T) k-tiles, stages one T x T
    block of A and of B, then takes acc := op1(acc, op2(a, b)) over the tile's
    T steps; it stores acc into C[row, col] inside C. */
module InnerProductKernel {
  import opened Launch

  /** The A operand of step k in row `row`, zero outside A. */
  function AOperand(A: array2<int>, row: nat, k: nat): int
    reads A
  {
    if row < A.Length0 && k < A.Length1 then A[row, k] else 0
  }

  /** The B operand of step k in column `col`, zero outside B. */
  function BOperand(B: array2<int>, k: nat, col: nat): int
    reads B
  {
    if k < B.Length0 && col < B.Length1 then B[k, col] else 0
  }

  /** acc of work-item (row, col) after its first n steps. */
  function Acc(A: array2<int>, B: array2<int>, row: nat, col: nat, n: nat,
               op1: (int, int) -> int, op2: (int, int) -> int): int
    reads A, B
  {
    if n == 0 then 0
    else op1(Acc(A, B, row, col, n - 1, op1, op2), op2(AOperand(A, row, n - 1), BOperand(B, n - 1, col)))
  }

  /** The steps a work-item takes: T for each of the ceil(a1 / T) k-tiles. */
  function StepCount(a1: nat, T: nat): (n: nat)
    requires T >= 1
    ensures n % T == 0 && a1 <= n < a1 + T
  {
    RoundUp(a1, T)
  }

  /** The tile steps from acc0 for tile slot (x, y): acc := op1(acc,
      op2(At[x, k], Bt[k, y])) for k < n. */
  function TileAcc(At: array2<int>, Bt: array2<int>, acc0: int, x: nat, y: nat, n: nat,
                   op1: (int, int) -> int, op2: (int, int) -> int): int
    requires x < At.Length0 && n <= At.Length1 && n <= Bt.Length0 && y < Bt.Length1
    reads At, Bt
  {
    if n == 0 then acc0
    else op1(TileAcc(At, Bt, acc0, x, y, n - 1, op1, op2), op2(At[x, n - 1], Bt[n - 1, y]))
  }

  /** Tiles loaded for k-tile t continue the work-item's steps by T. */
  lemma {:induction false} TileContinues(A: array2<int>, B: array2<int>, At: array2<int>, Bt: array2<int>,
                                         row: nat, col: nat, x: nat, y: nat, t: nat, n: nat, T: nat,
                                         op1: (int, int) -> int, op2: (int, int) -> int)
    requires x < T && y < T && n <= T && At.Length0 == At.Length1 == Bt.Length0 == Bt.Length1 == T
    requires forall k :: 0 <= k < T ==> At[x, k] == AOperand(A, row, t * T + k)
    requires forall k :: 0 <= k < T ==> Bt[k, y] == BOperand(B, t * T + k, col)
    ensures TileAcc(At, Bt, Acc(A, B, row, col, t * T, op1, op2), x, y, n, op1, op2)
      == Acc(A, B, row, col, t * T + n, op1, op2)
    decreases n
  {
    if n > 0 {
      TileContinues(A, B, At, Bt, row, col, x, y, t, n - 1, T, op1, op2);
    }
  }

  /** The load phase of k-tile t in group (g0, g1): every item stages its A and
      B operand, zero outside the matrices. */
  method LoadTiles(A: array2<int>, B: array2<int>, At: array2<int>, Bt: array2<int>,
                   g0: nat, g1: nat, t: nat, T: nat)
    requires At.Length0 == At.Length1 == Bt.Length0 == Bt.Length1 == T && At != Bt
    requires At != A && At != B && Bt != A && Bt != B
    modifies At, Bt
    ensures forall x, y :: 0 <= x < T && 0 <= y < T ==>
      At[x, y] == AOperand(A, g1 * T + x, t * T + y) && Bt[x, y] == BOperand(B, t * T + x, g0 * T + y)
  {
    var lr := 0;
    while lr < T
      invariant lr <= T
      invariant forall x, y :: 0 <= x < lr && 0 <= y < T ==>
        At[x, y] == AOperand(A, g1 * T + x, t * T + y) && Bt[x, y] == BOperand(B, t * T + x, g0 * T + y)
    {
      var lc := 0;
      while lc < T
        invariant lc <= T
        invariant forall x, y :: 0 <= x < T && 0 <= y < T && (x < lr || (x == lr && y < lc)) ==>
          At[x, y] == AOperand(A, g1 * T + x, t * T + y) && Bt[x, y] == BOperand(B, t * T + x, g0 * T + y)
      {
        var row, col := g1 * T + lr, g0 * T + lc;
        var tiledColA, tiledRowB := t * T + lc, t * T + lr;
        At[lr, lc] := if row < A.Length0 && tiledColA < A.Length1 then A[row, tiledColA] else 0;
        Bt[lr, lc] := if tiledRowB < B.Length0 && col < B.Length1 then B[tiledRowB, col] else 0;
        lc := lc + 1;
      }
      lr := lr + 1;
    }
  }

  /** The k loop of one item over its staged tiles. */
  method AccumulateItem(acc: array2<int>, At: array2<int>, Bt: array2<int>, x: nat, y: nat, T: nat,
                        op1: (int, int) -> int, op2: (int, int) -> int)
    requires x < T && y < T && acc.Length0 == acc.Length1 == At.Length0 == At.Length1 == Bt.Length0 == Bt.Length1 == T
    requires acc != At && acc != Bt
    modifies acc
    ensures acc[x, y] == TileAcc(At, Bt, old(acc[x, y]), x, y, T, op1, op2)
    ensures forall i, j :: 0 <= i < T && 0 <= j < T && (i != x || j != y) ==> acc[i, j] == old(acc[i, j])
  {
    var k := 0;
    while k < T
      invariant k <= T
      invariant acc[x, y] == TileAcc(At, Bt, old(acc[x, y]), x, y, k, op1, op2)
      invariant forall i, j :: 0 <= i < T && 0 <= j < T && (i != x || j != y) ==> acc[i, j] == old(acc[i, j])
    {
      acc[x, y] := op1(acc[x, y], op2(At[x, k], Bt[k, y]));
      k := k + 1;
    }
  }

  /** Every item's k loop, after the barrier. */
  method AccumulateTile(acc: array2<int>, At: array2<int>, Bt: array2<int>, T: nat,
                        op1: (int, int) -> int, op2: (int, int) -> int)
    requires acc.Length0 == acc.Length1 == At.Length0 == At.Length1 == Bt.Length0 == Bt.Length1 == T
    requires acc != At && acc != Bt
    modifies acc
    ensures forall x, y :: 0 <= x < T && 0 <= y < T ==>
      acc[x, y] == TileAcc(At, Bt, old(acc[x, y]), x, y, T, op1, op2)
  {
    var lr := 0;
    while lr < T
      invariant lr <= T
      invariant forall x, y :: 0 <= x < T && 0 <= y < T ==>
        acc[x, y] == if x < lr then TileAcc(At, Bt, old(acc[x, y]), x, y, T, op1, op2) else old(acc[x, y])
    {
      var lc := 0;
      while lc < T
        invariant lc <= T
        invariant forall x, y :: 0 <= x < T && 0 <= y < T ==>
          acc[x, y] == if x < lr || (x == lr && y < lc) then TileAcc(At, Bt, old(acc[x, y]), x, y, T, op1, op2)
            else old(acc[x, y])
      {
        AccumulateItem(acc, At, Bt, lr, lc, T, op1, op2);
        lc := lc + 1;
      }
      lr := lr + 1;
    }
  }

  /** The k-tile loop of group (g0, g1): afterwards the accumulator of slot
      (x, y) holds the item's acc after all its steps. */
  method GroupAccumulators(A: array2<int>, B: array2<int>, g0: nat, g1: nat, T: nat,
                           op1: (int, int) -> int, op2: (int, int) -> int) returns (acc: array2<int>)
    requires T >= 1
    ensures fresh(acc) && acc.Length0 == T && acc.Length1 == T
    ensures forall x, y :: 0 <= x < T && 0 <= y < T ==>
      acc[x, y] == Acc(A, B, g1 * T + x, g0 * T + y, StepCount(A.Length1, T), op1, op2)
  {
    acc := new int[T, T]((x, y) => 0);
    var At := new int[T, T];
    var Bt := new int[T, T];
    var tiles := (A.Length1 + T - 1) / T;
    var t := 0;
    while t < tiles
      invariant t <= tiles
      invariant forall x, y :: 0 <= x < T && 0 <= y < T ==>
        acc[x, y] == SlotAcc(A, B, g0, g1, T, x, y, t * T, op1, op2)
    {
      KTile(A, B, acc, At, Bt, g0, g1, t, T, op1, op2);
      t := t + 1;
    }
    TileSteps(A.Length1, T, tiles);
  }

  /** One k-tile of the group: stage the tiles, barrier, every item's k loop;
      each slot's acc advances from t * T to (t + 1) * T steps. */
  method KTile(A: array2<int>, B: array2<int>, acc: array2<int>, At: array2<int>, Bt: array2<int>,
               g0: nat, g1: nat, t: nat, T: nat, op1: (int, int) -> int, op2: (int, int) -> int)
    requires acc.Length0 == acc.Length1 == At.Length0 == At.Length1 == Bt.Length0 == Bt.Length1 == T
    requires acc != At && acc != Bt && At != Bt
    requires acc != A && acc != B && At != A && At != B && Bt != A && Bt != B
    requires forall x, y :: 0 <= x < T && 0 <= y < T ==> acc[x, y] == SlotAcc(A, B, g0, g1, T, x, y, t * T, op1, op2)
    modifies acc, At, Bt
    ensures forall x, y :: 0 <= x < T && 0 <= y < T ==> acc[x, y] == SlotAcc(A, B, g0, g1, T, x, y, (t + 1) * T, op1, op2)
  {
    LoadTiles(A, B, At, Bt, g0, g1, t, T);
    TileAdvances(A, B, At, Bt, g0, g1, t, T, op1, op2);
    label staged:
    AccumulateTile(acc, At, Bt, T, op1, op2);
    forall x, y | 0 <= x < T && 0 <= y < T
      ensures acc[x, y] == SlotAcc(A, B, g0, g1, T, x, y, (t + 1) * T, op1, op2)
    {
      assert old@staged(acc[x, y]) == SlotAcc(A, B, g0, g1, T, x, y, t * T, op1, op2);
    }
  }

  /** acc of slot (x, y) of group (g0, g1) after n steps. */
  function SlotAcc(A: array2<int>, B: array2<int>, g0: nat, g1: nat, T: nat, x: nat, y: nat, n: nat,
                   op1: (int, int) -> int, op2: (int, int) -> int): int
    reads A, B
  {
    Acc(A, B, g1 * T + x, g0 * T + y, n, op1, op2)
  }

  /** Tiles staged for k-tile t advance every slot's acc from t * T steps to
      (t + 1) * T steps. */
  lemma TileAdvances(A: array2<int>, B: array2<int>, At: array2<int>, Bt: array2<int>,
                     g0: nat, g1: nat, t: nat, T: nat, op1: (int, int) -> int, op2: (int, int) -> int)
    requires At.Length0 == At.Length1 == Bt.Length0 == Bt.Length1 == T
    requires forall x, y :: 0 <= x < T && 0 <= y < T ==>
      At[x, y] == AOperand(A, g1 * T + x, t * T + y) && Bt[x, y] == BOperand(B, t * T + x, g0 * T + y)
    ensures forall x, y :: 0 <= x < T && 0 <= y < T ==>
      TileAcc(At, Bt, SlotAcc(A, B, g0, g1, T, x, y, t * T, op1, op2), x, y, T, op1, op2)
        == SlotAcc(A, B, g0, g1, T, x, y, (t + 1) * T, op1, op2)
  {
    assert (t + 1) * T == t * T + T;
    forall x, y | 0 <= x < T && 0 <= y < T
      ensures TileAcc(At, Bt, SlotAcc(A, B, g0, g1, T, x, y, t * T, op1, op2), x, y, T, op1, op2)
        == SlotAcc(A, B, g0, g1, T, x, y, t * T + T, op1, op2)
    {
      TileContinues(A, B, At, Bt, g1 * T + x, g0 * T + y, x, y, t, T, T, op1, op2);
    }
  }

  /** ceil(a1 / T) k-tiles of T steps each make StepCount(a1, T) steps. */
  lemma TileSteps(a1: nat, T: nat, tiles: nat)
    requires T >= 1 && tiles == (a1 + T - 1) / T
    ensures tiles * T == StepCount(a1, T)
  {
  }

  /** One work-group: run the k-tiles, then store the accumulators inside C. */
  method InnerGroup(A: array2<int>, B: array2<int>, C: array2<int>, g0: nat, g1: nat, T: nat,
                    op1: (int, int) -> int, op2: (int, int) -> int)
    requires T >= 1 && C != A && C != B
    modifies C
    ensures forall i, j :: 0 <= i < C.Length0 && 0 <= j < C.Length1 ==>
      C[i, j] == if g1 * T <= i < g1 * T + T && g0 * T <= j < g0 * T + T
        then Acc(A, B, i, j, StepCount(A.Length1, T), op1, op2) else old(C[i, j])
  {
    var acc := GroupAccumulators(A, B, g0, g1, T, op1, op2);
    var lr := 0;
    while lr < T
      invariant lr <= T
      invariant forall i, j :: 0 <= i < C.Length0 && 0 <= j < C.Length1 ==>
        C[i, j] == if g1 * T <= i < g1 * T + lr && g0 * T <= j < g0 * T + T
          then Acc(A, B, i, j, StepCount(A.Length1, T), op1, op2) else old(C[i, j])
      modifies C
    {
      var lc := 0;
      while lc < T
        invariant lc <= T
        invariant forall i, j :: 0 <= i < C.Length0 && 0 <= j < C.Length1 ==>
          C[i, j] == if (g1 * T <= i < g1 * T + lr && g0 * T <= j < g0 * T + T) ||
            (i == g1 * T + lr && g0 * T <= j < g0 * T + lc)
            then Acc(A, B, i, j, StepCount(A.Length1, T), op1, op2) else old(C[i, j])
        modifies C
      {
        var row, col := g1 * T + lr, g0 * T + lc;
        if row < C.Length0 && col < C.Length1 {
          C[row, col] := acc[lr, lc];
        }
        lc := lc + 1;
      }
      lr := lr + 1;
    }
  }

  /** The kernel over a width x height grid (multiples of T, both dimensions
      launched), group by group. */
  method InnerItems(A: array2<int>, B: array2<int>, C: array2<int>, width: nat, height: nat, T: nat,
                    op1: (int, int) -> int, op2: (int, int) -> int)
    requires T >= 1 && width % T == 0 && height % T == 0 && C != A && C != B
    modifies C
    ensures forall i, j :: 0 <= i < C.Length0 && 0 <= j < C.Length1 ==>
      C[i, j] == if i < height && j < width then Acc(A, B, i, j, StepCount(A.Length1, T), op1, op2) else old(C[i, j])
  {
    var g1 := 0;
    while g1 * T < height
      invariant g1 * T <= height
      invariant forall i, j :: 0 <= i < C.Length0 && 0 <= j < C.Length1 ==>
        C[i, j] == if i < g1 * T && j < width then Acc(A, B, i, j, StepCount(A.Length1, T), op1, op2) else old(C[i, j])
    {
      var g0 := 0;
      while g0 * T < width
        invariant g0 * T <= width
        invariant forall i, j :: 0 <= i < C.Length0 && 0 <= j < C.Length1 ==>
          C[i, j] == if (i < g1 * T && j < width) || (g1 * T <= i < g1 * T + T && j < g0 * T)
            then Acc(A, B, i, j, StepCount(A.Length1, T), op1, op2) else old(C[i, j])
      {
        InnerGroup(A, B, C, g0, g1, T, op1, op2);
        NextGroup(g0, T, width);
        g0 := g0 + 1;
      }
      NextGroup(g1, T, height);
      g1 := g1 + 1;
    }
  }

  lemma NextGroup(g: nat, T: nat, n: nat)
    requires T >= 1 && n % T == 0 && g * T < n
    ensures (g + 1) * T <= n
  {
    var q := n / T;
    assert n == q * T;
    assert g < q by {
      if g >= q {
        MulMonotoneBy(q, g, T);
      }
    }
    MulMonotoneBy(g + 1, q, T);
  }

  lemma MulMonotoneBy(a: nat, b: nat, T: nat)
    requires a <= b
    ensures a * T <= b * T
  {
  }

  /** inner_product: sized from C; with a matrix C every cell is written. The
      model takes launches of two or more dimensions. */
  method InnerProduct(sc: Shape, A: array2<int>, B: array2<int>, C: array2<int>, tile: int,
                      op1: (int, int) -> int, op2: (int, int) -> int)
    requires tile >= 1 && sc.dim1 == C.Length1 && sc.dim2 == C.Length0 && NumDims(sc) >= 2
    requires C != A && C != B
    modifies C
    ensures forall i, j :: 0 <= i < C.Length0 && 0 <= j < C.Length1 ==>
      C[i, j] == Acc(A, B, i, j, StepCount(A.Length1, tile), op1, op2)
  {
    var g := TiledLaunch(sc, tile);
    InnerItems(A, B, C, Extent(g, 0), Extent(g, 1), tile, op1, op2);
  }

  /** sum_{k < n} A[row, k] * B[k, col]: the naive matrix product's cell. */
  function ProductSum(A: array2<int>, B: array2<int>, row: nat, col: nat, n: nat): int
    requires row < A.Length0 && col < B.Length1 && n <= A.Length1 && n <= B.Length0
    reads A, B
  {
    if n == 0 then 0 else ProductSum(A, B, row, col, n - 1) + A[row, n - 1] * B[n - 1, col]
  }

  function Add(a: int, b: int): int { a + b }
  function Mul(a: int, b: int): int { a * b }

  /** With "+" and "*" and a1 = b2 every work-item computes its cell of the
      matrix product: the padded steps add 0 * 0. */
  lemma {:induction false} SumOfProducts(A: array2<int>, B: array2<int>, row: nat, col: nat, n: nat)
    requires A.Length1 == B.Length0 && row < A.Length0 && col < B.Length1
    ensures Acc(A, B, row, col, n, Add, Mul) == ProductSum(A, B, row, col, if n <= A.Length1 then n else A.Length1)
    decreases n
  {
    if n > 0 {
      SumOfProducts(A, B, row, col, n - 1);
    }
  }

  /** inner_product with "+", "*" and a matrix C within A's rows and B's
      columns: C becomes the matrix product A B. */
  lemma MatrixProduct(A: array2<int>, B: array2<int>, row: nat, col: nat, tile: int)
    requires tile >= 1 && A.Length1 == B.Length0 && row < A.Length0 && col < B.Length1
    ensures Acc(A, B, row, col, StepCount(A.Length1, tile), Add, Mul) == ProductSum(A, B, row, col, A.Length1)
  {
    SumOfProducts(A, B, row, col, StepCount(A.Length1, tile));
  }

  /** acc starts at the literal 0 whatever op1 is: with op1 = "*" every cell
      comes out 0. */
  lemma {:induction false} ProductAccumulatorIsZero(A: array2<int>, B: array2<int>, row: nat, col: nat, n: nat,
                                                    op2: (int, int) -> int)
    ensures Acc(A, B, row, col, n, Mul, op2) == 0
    decreases n
  {
    if n > 0 {
      ProductAccumulatorIsZero(A, B, row, col, n - 1, op2);
    }
  }
}
