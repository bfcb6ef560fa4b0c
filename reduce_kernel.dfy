/** The tiled tree reduction of src/reduce.c. Each pass launches work-groups
    of L items along a row; group gc loads its cells into a local tile, halves
    the tile by a tree of pairwise combinations, and its first item writes the
    group's value to cell gc of the row. The driver repeats the pass, dividing
    the global size by the tile size, until one group remains.

    The buffer of extents a1 x a2 (x a3) is the row-major matrix A with a1
    columns: the kernel's A[col + a1 * row] is A[row, col] here. Work-groups
    run one after another in ascending order inside a pass. */
module ReduceKernel {
  import opened Folds
  import opened Launch
  import ClErrors

  predicate IsPow2(n: nat)
    decreases n
  {
    n == 1 || (n >= 2 && n % 2 == 0 && IsPow2(n / 2))
  }

  /** ceil(g / L): the number of work-groups along a row. */
  function GroupCount(g: nat, L: nat): nat
    requires L >= 1
  {
    (g + L - 1) / L
  }

  /** The number of items in group gc; only the last group of a global size
      that L does not divide is smaller than L. */
  function GroupSize(g: nat, L: nat, gc: nat): nat
    requires L >= 1
  {
    if gc * L >= g then 0 else if g - gc * L < L then g - gc * L else L
  }

  lemma GroupSizeBounds(g: nat, L: nat, gc: nat)
    requires L >= 1 && gc < GroupCount(g, L)
    ensures 1 <= GroupSize(g, L, gc) <= L
    ensures gc * L + GroupSize(g, L, gc) <= g
  {
    var q := (g + L - 1) / L;
    assert q * L <= g + L - 1;
    MulMonotoneIn(gc + 1, q, L);
    assert (gc + 1) * L == gc * L + L;
  }

  lemma AtMostMultiple(a: nat, L: nat)
    requires L >= 1
    ensures a <= a * L
  {
    MulMonotoneIn(1, L, a);
  }

  lemma MulMonotoneIn(a: nat, b: nat, L: nat)
    requires a <= b
    ensures a * L <= b * L
  {
  }

  /** The tile a group loads: slot i holds cell base + i when that cell is
      inside the bound; the other slots are not written, and the tree never
      reads them (0 stands for their contents). */
  function LoadTile(row: seq<int>, base: nat, S: nat, bound: nat): (t: seq<int>)
    ensures |t| == S
  {
    seq(S, i requires 0 <= i < S => if base + i < bound && base + i < |row| then row[base + i] else 0)
  }

  /** One level of the tree: slot i takes slot i op slot i + o when i < o and
      the partner cell is inside the bound. */
  function Step(t: seq<int>, o: nat, lim: int, op: (int, int) -> int): (r: seq<int>)
    ensures |r| == |t|
  {
    seq(|t|, i requires 0 <= i < |t| =>
      if i < o && i + o < lim && i + o < |t| then op(t[i], t[i + o]) else t[i])
  }

  /** The levels with offsets o, o/2, ..., 1. */
  function Tree(t: seq<int>, o: nat, lim: int, op: (int, int) -> int): (r: seq<int>)
    ensures |r| == |t|
    decreases o
  {
    if o == 0 then t else Tree(Step(t, o, lim, op), o / 2, lim, op)
  }

  /** What group gc of a pass writes: the first tile slot after the tree,
      whose first offset is half the group's size. */
  function GroupValue(row: seq<int>, bound: nat, g: nat, L: nat, gc: nat, op: (int, int) -> int): int
    requires L >= 1 && gc < GroupCount(g, L)
  {
    GroupSizeBounds(g, L, gc);
    var S := GroupSize(g, L, gc);
    Tree(LoadTile(row, gc * L, S, bound), S / 2, bound - gc * L, op)[0]
  }

  /** A group writes only when its first item lies inside the bound. */
  predicate Writes(bound: nat, g: nat, L: nat, c: nat)
    requires L >= 1
  {
    c < GroupCount(g, L) && c * L < bound
  }

  /** One pass over a row: cell gc holds group gc's value, the other cells keep
      theirs. */
  function RowPass(row: seq<int>, bound: nat, g: nat, L: nat, op: (int, int) -> int): (r: seq<int>)
    requires L >= 1
    ensures |r| == |row|
  {
    seq(|row|, c requires 0 <= c < |row| =>
      if Writes(bound, g, L, c) then GroupValue(row, bound, g, L, c, op) else row[c])
  }

  function Span(o: nat): nat
  {
    if o == 0 then 1 else 2 * o
  }

  /** The tree keeps, at every level, slot i equal to the fold of the loaded
      cells i, i + span, i + 2 span, ...; at the last level (span 1) slot 0
      is the fold of all of them. The halving needs a power-of-two span. */
  lemma {:induction false} TreeFolds(t0: seq<int>, t: seq<int>, o: nat, lim: int, m: nat, op: (int, int) -> int)
    requires Assoc(op) && Comm(op)
    requires |t| == |t0| && 1 <= m <= |t0| && m == (if lim < |t0| then lim else |t0|)
    requires o == 0 || IsPow2(o)
    requires 2 * o <= |t|
    requires forall i :: 0 <= i < m && i < Span(o) ==> t[i] == Fold(Strided(t0, i, Span(o), m), op)
    ensures Tree(t, o, lim, op)[0] == Fold(t0[..m], op)
    decreases o
  {
    if o == 0 {
      StridedOne(t0, 0, m);
      assert t0[0..m] == t0[..m];
    } else {
      var next := Step(t, o, lim, op);
      assert Span(o / 2) == o;
      forall i | 0 <= i < m && i < o
        ensures next[i] == Fold(Strided(t0, i, o, m), op)
      {
        TreeSlot(t0, t, o, lim, m, op, i);
      }
      TreeFolds(t0, next, o / 2, lim, m, op);
    }
  }

  /** One slot through one tree level: the stride halves. */
  lemma TreeSlot(t0: seq<int>, t: seq<int>, o: nat, lim: int, m: nat, op: (int, int) -> int, i: nat)
    requires Assoc(op) && Comm(op) && o >= 1
    requires |t| == |t0| && 1 <= m <= |t0| && m == (if lim < |t0| then lim else |t0|)
    requires 2 * o <= |t| && i < m && i < o
    requires t[i] == Fold(Strided(t0, i, 2 * o, m), op)
    requires i + o < m ==> t[i + o] == Fold(Strided(t0, i + o, 2 * o, m), op)
    ensures Step(t, o, lim, op)[i] == Fold(Strided(t0, i, o, m), op)
  {
    var x := Strided(t0, i, 2 * o, m);
    var y := Strided(t0, i + o, 2 * o, m);
    StepAt(t, o, lim, op, i);
    StridedSplit(t0, i, o, m);
    if i + o < m {
      FoldInterleave(x, y, op);
    } else {
      InterleaveEmpty(x);
    }
  }

  /** Slot i of one level: combined with slot i + o when that lies below the
      bound and the tile. */
  lemma StepAt(t: seq<int>, o: nat, lim: int, op: (int, int) -> int, i: nat)
    requires i < o && i < |t|
    ensures Step(t, o, lim, op)[i] == if i + o < lim && i + o < |t| then op(t[i], t[i + o]) else t[i]
  {
  }

  /** A group of power-of-two size writes the fold of its cells inside the
      bound. */
  lemma GroupFolds(row: seq<int>, bound: nat, g: nat, L: nat, gc: nat, op: (int, int) -> int)
    requires Assoc(op) && Comm(op) && L >= 1 && bound <= |row|
    requires Writes(bound, g, L, gc) && IsPow2(GroupSize(g, L, gc))
    ensures var base := gc * L;
      var m := if bound - base < GroupSize(g, L, gc) then bound - base else GroupSize(g, L, gc);
      base + m <= |row| && m >= 1 &&
      GroupValue(row, bound, g, L, gc, op) == Fold(row[base..base + m], op)
  {
    GroupSizeBounds(g, L, gc);
    TileFolds(row, gc * L, GroupSize(g, L, gc), bound, op);
  }

  /** The tree over a power-of-two tile loaded from base leaves in slot 0 the
      fold of the cells from base up to the bound or the tile's end. */
  lemma TileFolds(row: seq<int>, base: nat, S: nat, bound: nat, op: (int, int) -> int)
    requires Assoc(op) && Comm(op) && IsPow2(S) && base < bound <= |row|
    ensures var m := if bound - base < S then bound - base else S;
      Tree(LoadTile(row, base, S, bound), S / 2, bound - base, op)[0] == Fold(row[base..base + m], op)
  {
    var t0 := LoadTile(row, base, S, bound);
    var m := if bound - base < S then bound - base else S;
    assert Span(S / 2) == S;
    forall i | 0 <= i < m && i < S
      ensures t0[i] == Fold(Strided(t0, i, S, m), op)
    {
      StridedSingle(t0, i, S, m, op);
    }
    TreeFolds(t0, t0, S / 2, bound - base, m, op);
    LoadTileSlice(row, base, S, bound, m);
  }

  /** With stride S past the end, the strided slice at i is slot i alone. */
  lemma StridedSingle(t: seq<int>, i: nat, S: nat, m: nat, op: (int, int) -> int)
    requires S >= 1 && i < m <= |t| && m <= S
    ensures Fold(Strided(t, i, S, m), op) == t[i]
  {
    assert Strided(t, i + S, S, m) == [];
    assert Strided(t, i, S, m) == [t[i]];
  }

  /** The loaded slots below m are the row's cells from base. */
  lemma LoadTileSlice(row: seq<int>, base: nat, S: nat, bound: nat, m: nat)
    requires m <= S && base + m <= bound && base + m <= |row|
    ensures LoadTile(row, base, S, bound)[..m] == row[base..base + m]
  {
  }

  // ---------------------------------------------------------------- the pass

  /** The tree over a tile in local memory, level by level. */
  method TreeCombine(tile: array<int>, lim: int, op: (int, int) -> int)
    modifies tile
    ensures tile[..] == Tree(old(tile[..]), tile.Length / 2, lim, op)
  {
    var offset: nat := tile.Length / 2;
    while offset > 0
      invariant 2 * offset <= tile.Length
      invariant Tree(tile[..], offset, lim, op) == Tree(old(tile[..]), tile.Length / 2, lim, op)
      decreases offset
    {
      TreeLevel(tile, offset, lim, op);
      offset := offset / 2;
    }
  }

  /** One level of the tree in place: slot i < offset combines with slot
      i + offset, which no slot of this level writes. */
  method TreeLevel(tile: array<int>, offset: nat, lim: int, op: (int, int) -> int)
    requires 2 * offset <= tile.Length
    modifies tile
    ensures tile[..] == Step(old(tile[..]), offset, lim, op)
  {
    ghost var before := tile[..];
    var i := 0;
    while i < offset
      invariant 0 <= i <= offset
      invariant forall j :: 0 <= j < tile.Length ==>
        tile[j] == (if j < i then Step(before, offset, lim, op)[j] else before[j])
    {
      if i + offset < lim {
        tile[i] := op(tile[i], tile[i + offset]);
      }
      i := i + 1;
    }
    assert tile[..] == Step(before, offset, lim, op);
  }

  /** A group's load of its tile slots from row r. */
  method LoadGroupTile(A: array2<int>, r: nat, base: nat, S: nat, bound: nat) returns (tile: array<int>)
    requires r < A.Length0 && bound <= A.Length1
    ensures fresh(tile)
    ensures tile[..] == LoadTile(RowOf(A, r), base, S, bound)
  {
    tile := new int[S];
    var i := 0;
    while i < S
      invariant 0 <= i <= S
      invariant forall j :: 0 <= j < i ==> tile[j] == LoadTile(RowOf(A, r), base, S, bound)[j]
    {
      if base + i < bound {
        tile[i] := A[r, base + i];
      } else {
        tile[i] := 0;
      }
      i := i + 1;
    }
    assert tile[..] == LoadTile(RowOf(A, r), base, S, bound);
  }

  /** Group gc of row r: load, combine, write A[r, gc]. */
  method RunGroup(A: array2<int>, r: nat, bound: nat, g: nat, L: nat, gc: nat, op: (int, int) -> int)
    requires r < A.Length0 && bound <= A.Length1 && L >= 1 && Writes(bound, g, L, gc)
    modifies A
    ensures gc < A.Length1 && A[r, gc] == GroupValue(old(RowOf(A, r)), bound, g, L, gc, op)
    ensures forall r', c :: 0 <= r' < A.Length0 && 0 <= c < A.Length1 && (r' != r || c != gc) ==>
      A[r', c] == old(A[r', c])
  {
    GroupSizeBounds(g, L, gc);
    var S := GroupSize(g, L, gc);
    var base := gc * L;
    ghost var t0 := LoadTile(RowOf(A, r), base, S, bound);
    ghost var value := Tree(t0, S / 2, bound - base, op)[0];
    assert value == GroupValue(RowOf(A, r), bound, g, L, gc, op);
    var tile := LoadGroupTile(A, r, base, S, bound);
    assert tile[..] == t0;
    TreeCombine(tile, bound - base, op);
    assert tile[..] == Tree(t0, S / 2, bound - base, op);
    assert tile[0] == value;
    AtMostMultiple(gc, L);
    A[r, gc] := tile[0];
  }

  /** One pass along row r: the groups in ascending order. A group's tile
      starts at or after its own cell, so it reads only cells no earlier group
      has written. */
  method RowPassMethod(A: array2<int>, r: nat, bound: nat, g: nat, L: nat, op: (int, int) -> int)
    requires r < A.Length0 && bound <= A.Length1 && L >= 1
    modifies A
    ensures RowOf(A, r) == RowPass(old(RowOf(A, r)), bound, g, L, op)
    ensures forall r', c :: 0 <= r' < A.Length0 && r' != r && 0 <= c < A.Length1 ==> A[r', c] == old(A[r', c])
  {
    ghost var row := RowOf(A, r);
    var gc := 0;
    var count := GroupCount(g, L);
    while gc < count
      invariant 0 <= gc <= count
      invariant forall r', c :: 0 <= r' < A.Length0 && r' != r && 0 <= c < A.Length1 ==> A[r', c] == old(A[r', c])
      invariant forall c :: 0 <= c < A.Length1 ==>
        A[r, c] == if c < gc && Writes(bound, g, L, c) then GroupValue(row, bound, g, L, c, op) else row[c]
    {
      if gc * L < bound {
        ghost var cur := RowOf(A, r);
        assert LoadTile(cur, gc * L, GroupSize(g, L, gc), bound) == LoadTile(row, gc * L, GroupSize(g, L, gc), bound) by {
          AtMostMultiple(gc, L);
          forall k | gc * L <= k < bound
            ensures cur[k] == row[k]
          {
          }
        }
        RunGroup(A, r, bound, g, L, gc, op);
      }
      gc := gc + 1;
    }
    assert RowOf(A, r) == RowPass(row, bound, g, L, op);
  }

  /** One enqueue of the kernel: the rows below `rows` are reduced pass-wise,
      the others keep their cells. */
  method ReducePass(A: array2<int>, rows: nat, bound: nat, g: nat, L: nat, op: (int, int) -> int)
    requires rows <= A.Length0 && bound <= A.Length1 && L >= 1
    modifies A
    ensures forall r :: 0 <= r < rows ==> RowOf(A, r) == RowPass(old(RowOf(A, r)), bound, g, L, op)
    ensures forall r, c :: rows <= r < A.Length0 && 0 <= c < A.Length1 ==> A[r, c] == old(A[r, c])
  {
    var r := 0;
    while r < rows
      invariant 0 <= r <= rows
      invariant forall r' :: 0 <= r' < r ==> RowOf(A, r') == RowPass(old(RowOf(A, r')), bound, g, L, op)
      invariant forall r', c :: r <= r' < A.Length0 && 0 <= c < A.Length1 ==> A[r', c] == old(A[r', c])
    {
      ghost var mid := A;
      forall r' | 0 <= r' < r ensures RowOf(A, r') == RowPass(old(RowOf(A, r')), bound, g, L, op) { }
      label before:
      RowPassMethod(A, r, bound, g, L, op);
      forall r' | 0 <= r' < r ensures RowOf(A, r') == old@before(RowOf(A, r')) {
        assert forall c :: 0 <= c < A.Length1 ==> A[r', c] == old@before(A[r', c]);
      }
      assert RowOf(A, r) == RowPass(old(RowOf(A, r)), bound, g, L, op) by {
        assert old@before(RowOf(A, r)) == old(RowOf(A, r));
      }
      r := r + 1;
    }
  }

  // ---------------------------------------------------------------- the driver

  /** With a tile of at least 2 the global size strictly shrinks. */
  lemma GroupCountShrinks(g: nat, T: nat)
    requires T >= 2 && g >= 2
    ensures GroupCount(g, T) < g
  {
    assert g + T - 1 < g * T by {
      assert (g - 1) * (T - 1) >= 1 by {
        MulMonotoneIn(1, g - 1, T - 1);
      }
    }
    assert GroupCount(g, T) * T <= g + T - 1;
    if GroupCount(g, T) >= g {
      MulMonotoneIn(g, GroupCount(g, T), T);
    }
  }

  /** With a tile size of 1 the driver's division leaves the global size as it
      was, so its loop never ends once the size exceeds 1. */
  lemma TileOneStalls(g: nat)
    ensures GroupCount(g, 1) == g
  {
  }

  /** The geometry of a reduce enqueue with global size g along dimension 0:
      ARRAY_NUM_DIMS(A) dimensions, the other extents rounded up to the tile. */
  function PassLaunch(s: Shape, g: nat, T: nat, local: Option<seq<nat>>): LaunchGeometry
    requires T >= 1
  {
    LaunchGeometry(NumDims(s), [g, RoundUp(s.dim2, T), RoundUp(s.dim3, T)], local)
  }

  /** A loop pass, with the explicit work-group size T, is accepted exactly when
      some dimension is launched and T divides g; the final pass, with a NULL
      work-group size, whenever some dimension is launched. */
  lemma PassAccepted(s: Shape, g: nat, T: nat)
    requires T >= 1
    ensures EnqueueStatus(PassLaunch(s, g, T, Some([T, T, T]))) == ClErrors.CL_SUCCESS <==> NumDims(s) >= 1 && g % T == 0
    ensures EnqueueStatus(PassLaunch(s, g, T, None)) == ClErrors.CL_SUCCESS <==> NumDims(s) >= 1
  {
    var l := PassLaunch(s, g, T, Some([T, T, T]));
    if NumDims(s) >= 1 && g % T == 0 {
      forall d | 0 <= d < l.workDim && d < |l.global|
        ensures d < 3 && [T, T, T][d] >= 1 && l.global[d] % [T, T, T][d] == 0
      {
      }
    }
    if NumDims(s) >= 1 && Uniform(l) {
      assert l.global[0] % [T, T, T][0] == 0;
    }
  }

  /** The status a run of checks reports first: the earlier one unless it
      succeeded. */
  function Then(first: int, rest: int): int
  {
    if first != ClErrors.CL_SUCCESS then first else rest
  }

  /** The driver's passes on one row: tile-size work-groups while the global
      size exceeds the tile, then one pass with the implementation-chosen
      work-group size `finalLocal` if more than one item remains. A pass whose
      enqueue is refused runs nothing; the driver goes on to the next global
      size (the check reports the refusal, and a handler that returns lets the
      loop continue). Every pass bounds its loads and pairings by the array's
      extent a1. */
  function Schedule(row: seq<int>, bound: nat, g: nat, T: nat, finalLocal: nat, s: Shape, op: (int, int) -> int): (r: seq<int>)
    requires T >= 2 && finalLocal >= 1
    ensures |r| == |row|
    decreases g
  {
    if g > T then
      GroupCountShrinks(g, T);
      var next := if EnqueueStatus(PassLaunch(s, g, T, Some([T, T, T]))) == ClErrors.CL_SUCCESS
        then RowPass(row, bound, g, T, op) else row;
      Schedule(next, bound, GroupCount(g, T), T, finalLocal, s, op)
    else if g > 1 && EnqueueStatus(PassLaunch(s, g, T, None)) == ClErrors.CL_SUCCESS then
      RowPass(row, bound, g, finalLocal, op)
    else row
  }

  /** The first refusal among the driver's enqueues from global size g, or
      CL_SUCCESS when every one is accepted. */
  function ReduceStatus(s: Shape, g: nat, T: nat): int
    requires T >= 2
    decreases g
  {
    if g > T then
      GroupCountShrinks(g, T);
      Then(EnqueueStatus(PassLaunch(s, g, T, Some([T, T, T]))), ReduceStatus(s, GroupCount(g, T), T))
    else if g > 1 then EnqueueStatus(PassLaunch(s, g, T, None))
    else ClErrors.CL_SUCCESS
  }

  /** Whether T divides every loop pass's global size from g. */
  predicate LoopUniform(g: nat, T: nat)
    requires T >= 2
    decreases g
  {
    g > T ==> g % T == 0 && (GroupCountShrinks(g, T); LoopUniform(GroupCount(g, T), T))
  }

  /** Every enqueue is accepted exactly when some dimension is launched (or no
      enqueue happens) and T divides every loop pass's global size; a refusal
      is CL_INVALID_WORK_DIMENSION or CL_INVALID_WORK_GROUP_SIZE. */
  lemma {:induction false} ReduceAccepted(s: Shape, g: nat, T: nat)
    requires T >= 2
    ensures ReduceStatus(s, g, T) == ClErrors.CL_SUCCESS <==> (g > 1 ==> NumDims(s) >= 1) && LoopUniform(g, T)
    ensures ReduceStatus(s, g, T) == ClErrors.CL_SUCCESS || ReduceStatus(s, g, T) == ClErrors.CL_INVALID_WORK_DIMENSION ||
      ReduceStatus(s, g, T) == ClErrors.CL_INVALID_WORK_GROUP_SIZE
    decreases g
  {
    PassAccepted(s, g, T);
    if g > T {
      GroupCountShrinks(g, T);
      ReduceAccepted(s, GroupCount(g, T), T);
      GroupCountPositive(g, T);
    }
  }

  /** reduce on one row of extent a1, the array shaped s: the schedule from
      the rounded-up extent. */
  function ReduceRow(row: seq<int>, s: Shape, T: nat, finalLocal: nat, op: (int, int) -> int): (r: seq<int>)
    requires T >= 2 && finalLocal >= 1
    ensures |r| == |row|
  {
    Schedule(row, |row|, RoundUp(|row|, T), T, finalLocal, s, op)
  }

  /** reduce: the passes of the driver loop, then the final pass, on an array
      shaped s (a1 = s.dim1, a2 = s.dim2); the launch reaches the first
      `rows` rows, all a2 when dimension 1 is launched and row 0 otherwise. Returns the number of enqueues and the first
      refusal among them. At most two dimensions are launched: a third, which
      the kernel never reads, would rerun every pass once per work-group
      along it. */
  method Reduce(A: array2<int>, s: Shape, rows: nat, T: nat, finalLocal: nat, op: (int, int) -> int) returns (launches: nat, status: int)
    requires rows <= A.Length0 && T >= 2 && finalLocal >= 1 && s.dim1 == A.Length1
    requires s.dim2 == A.Length0 && rows == RowsReached(s) && NumDims(s) <= 2
    modifies A
    ensures status == ReduceStatus(s, RoundUp(A.Length1, T), T)
    ensures forall r :: 0 <= r < rows ==> RowOf(A, r) == ReduceRow(old(RowOf(A, r)), s, T, finalLocal, op)
    ensures forall r, c :: rows <= r < A.Length0 && 0 <= c < A.Length1 ==> A[r, c] == old(A[r, c])
    ensures launches == Launches(RoundUp(A.Length1, T), T)
  {
    var a1 := A.Length1;
    var g: nat := RoundUp(a1, T);
    launches := 0;
    status := ClErrors.CL_SUCCESS;
    while g > T
      invariant forall r :: 0 <= r < rows ==>
        Schedule(RowOf(A, r), a1, g, T, finalLocal, s, op) == ReduceRow(old(RowOf(A, r)), s, T, finalLocal, op)
      invariant forall r, c :: rows <= r < A.Length0 && 0 <= c < A.Length1 ==> A[r, c] == old(A[r, c])
      invariant launches + Launches(g, T) == Launches(RoundUp(a1, T), T)
      invariant Then(status, ReduceStatus(s, g, T)) == ReduceStatus(s, RoundUp(a1, T), T)
      decreases g
    {
      var st := EnqueueStatus(PassLaunch(s, g, T, Some([T, T, T])));
      if st == ClErrors.CL_SUCCESS {
        ReducePass(A, rows, a1, g, T, op);
      }
      status := Then(status, st);
      launches := launches + 1;
      GroupCountShrinks(g, T);
      g := (g + T - 1) / T;
    }
    if g > 1 {
      var st := EnqueueStatus(PassLaunch(s, g, T, None));
      if st == ClErrors.CL_SUCCESS {
        ReducePass(A, rows, a1, g, finalLocal, op);
      }
      status := Then(status, st);
      launches := launches + 1;
    }
  }

  /** An extent of at most T * T cells, with some dimension launched, is
      reduced with every enqueue accepted: at most one loop pass runs, on the
      rounded-up extent. */
  lemma SmallReduceAccepted(s: Shape, T: nat)
    requires T >= 2 && s.dim1 <= T * T && NumDims(s) >= 1
    ensures ReduceStatus(s, RoundUp(s.dim1, T), T) == ClErrors.CL_SUCCESS
  {
    var g := RoundUp(s.dim1, T);
    if g > T {
      var k := g / T;
      assert g == k * T;
      TileCountBound(k, T, s.dim1);
      DivUnique(g + T - 1, T, k, T - 1);
      assert GroupCount(g, T) == k;
    }
    assert LoopUniform(g, T);
    ReduceAccepted(s, g, T);
  }

  /** k tiles of T fit below a1 + T with a1 at most T * T only when k <= T. */
  lemma TileCountBound(k: nat, T: nat, a1: nat)
    requires T >= 1 && a1 <= T * T && k * T < a1 + T
    ensures k <= T
  {
    if k > T {
      MulMonotoneIn(T + 1, k, T);
    }
  }

  /** 300 columns with the default tile size: the first pass runs 304
      work-items, the second with a global size of 19 and work-groups of 16,
      which the enqueue refuses. */
  lemma ReduceRefused300()
    ensures RoundUp(300, TILE_SIZE) == 304 && GroupCount(304, TILE_SIZE) == 19
    ensures ReduceStatus(Shape(300, 1, 1), RoundUp(300, TILE_SIZE), TILE_SIZE) == ClErrors.CL_INVALID_WORK_GROUP_SIZE
  {
    DivUnique(300 + 15, 16, 19, 11);
    DivUnique(304 + 15, 16, 19, 15);
    DivUnique(19 + 15, 16, 2, 2);
    PassAccepted(Shape(300, 1, 1), 304, 16);
    PassAccepted(Shape(300, 1, 1), 19, 16);
  }

  /** The number of enqueues the driver makes from global size g: one per
      loop pass, and the final one when more than one item is left. */
  function Launches(g: nat, T: nat): nat
    requires T >= 2
    decreases g
  {
    if g > T then
      GroupCountShrinks(g, T);
      1 + Launches(GroupCount(g, T), T)
    else if g > 1 then 1 else 0
  }

  /** Some enqueue happens exactly when the global size exceeds 1, and there
      are never more enqueues than work-items in the first pass. */
  lemma {:induction false} LaunchesBound(g: nat, T: nat)
    requires T >= 2
    ensures Launches(g, T) >= 1 <==> g > 1
    ensures Launches(g, T) <= g
    decreases g
  {
    if g > T {
      GroupCountShrinks(g, T);
      LaunchesBound(GroupCount(g, T), T);
    }
  }

  /** An extent of at most one tile is reduced by the final enqueue alone. */
  lemma OneTileOneLaunch(a1: nat, T: nat)
    requires T >= 2 && 1 <= a1 <= T
    ensures Launches(RoundUp(a1, T), T) == 1
  {
    OnlyMultipleBelowTwice(RoundUp(a1, T), T);
  }

  /** The only positive multiple of T below 2T is T. */
  lemma OnlyMultipleBelowTwice(r: nat, T: nat)
    requires T >= 1 && r % T == 0 && 1 <= r < 2 * T
    ensures r == T
  {
    var q := r / T;
    assert r == q * T;
    if q >= 2 {
      MulMonotoneIn(2, q, T);
    }
  }

  lemma GroupCountPositive(g: nat, L: nat)
    requires L >= 1 && g >= 1
    ensures GroupCount(g, L) >= 1
  {
    assert g + L - 1 >= L;
    DivAtLeastOne(g + L - 1, L);
  }

  lemma DivAtLeastOne(x: nat, L: nat)
    requires L >= 1 && x >= L
    ensures x / L >= 1
  {
  }

  /** An array of at most one tile, with the final pass given a work-group of
      the whole tile, is reduced to the fold of its row. */
  lemma ReduceOneTile(row: seq<int>, s: Shape, T: nat, finalLocal: nat, op: (int, int) -> int)
    requires Assoc(op) && Comm(op) && IsPow2(T) && T >= 2 && finalLocal >= T
    requires 1 <= |row| <= T && s.dim1 == |row|
    ensures ReduceRow(row, s, T, finalLocal, op)[0] == Fold(row, op)
  {
    var n := |row|;
    var g := RoundUp(n, T);
    OnlyMultipleBelowTwice(g, T);
    PassAccepted(s, g, T);
    if NumDims(s) == 0 {
      assert n == 1 && row[..1] == row;
      return;
    }
    assert ReduceRow(row, s, T, finalLocal, op) == RowPass(row, n, T, finalLocal, op);
    GroupCountPositive(T, finalLocal);
    assert Writes(n, T, finalLocal, 0);
    assert GroupSize(T, finalLocal, 0) == T;
    GroupFolds(row, n, T, finalLocal, 0, op);
    assert row[0..n] == row;
  }

  // ---------------------------------------------------------------- a final pass that loses partials

  lemma {:induction false} FoldOnes(n: nat)
    requires n >= 1
    ensures Fold(Repeat(n, 1), Add) == n
  {
    if n > 1 {
      assert Repeat(n, 1)[1..] == Repeat(n - 1, 1);
      FoldOnes(n - 1);
    }
  }

  lemma SixteenIsPow2()
    ensures IsPow2(16)
  {
    assert IsPow2(2);
    assert IsPow2(4);
    assert IsPow2(8);
  }

  /** The loop's one pass over 48 ones: three groups of 16, each writing 16. */
  lemma FirstPassPartial(c: nat)
    requires c < 3
    ensures RowPass(Repeat(48, 1), 48, 48, 16, Add)[c] == 16
  {
    AddAssocComm();
    SixteenIsPow2();
    assert GroupCount(48, 16) == 3;
    assert Writes(48, 48, 16, c);
    assert GroupSize(48, 16, c) == 16;
    GroupFolds(Repeat(48, 1), 48, 48, 16, c, Add);
    assert Repeat(48, 1)[c * 16..c * 16 + 16] == Repeat(16, 1);
    FoldOnes(16);
  }

  /** The final pass over three partials of 16 with a work-group of 1, 2 or
      (at least) 3 items. */
  lemma FinalPassValue(row1: seq<int>, finalLocal: nat)
    requires |row1| == 48 && row1[0] == 16 && row1[1] == 16 && row1[2] == 16 && finalLocal >= 1
    ensures RowPass(row1, 48, 3, finalLocal, Add)[0] == (if finalLocal == 1 then 16 else 32)
  {
    GroupCountPositive(3, finalLocal);
    assert Writes(48, 3, finalLocal, 0);
    var S := GroupSize(3, finalLocal, 0);
    var t0 := LoadTile(row1, 0, S, 48);
    assert RowPass(row1, 48, 3, finalLocal, Add)[0] == Tree(t0, S / 2, 48, Add)[0];
    if finalLocal == 1 {
      assert S == 1;
    } else {
      assert S == 2 || S == 3;
      assert t0[0] == 16 && t0[1] == 16;
      assert Step(t0, 1, 48, Add)[0] == 32;
      assert Tree(t0, S / 2, 48, Add) == Step(t0, 1, 48, Add);
    }
  }

  /** 48 ones with the default tile size: the loop's one pass leaves three
      partial sums of 16; the final pass runs over a global size of 3, so
      whatever work-group size the implementation picks, cell 0 ends with 16 or
      32, never 48. */
  lemma FinalPassLosesPartials(finalLocal: nat)
    requires finalLocal >= 1
    ensures var r := ReduceRow(Repeat(48, 1), Shape(48, 1, 1), TILE_SIZE, finalLocal, Add);
      (r[0] == 16 || r[0] == 32) && r[0] != Fold(Repeat(48, 1), Add)
  {
    FoldOnes(48);
    var row1 := RowPass(Repeat(48, 1), 48, 48, 16, Add);
    FirstPassPartial(0);
    FirstPassPartial(1);
    FirstPassPartial(2);
    assert RoundUp(48, 16) == 48;
    assert GroupCount(48, 16) == 3;
    PassAccepted(Shape(48, 1, 1), 48, 16);
    PassAccepted(Shape(48, 1, 1), 3, 16);
    assert ReduceRow(Repeat(48, 1), Shape(48, 1, 1), 16, finalLocal, Add) == RowPass(row1, 48, 3, finalLocal, Add);
    FinalPassValue(row1, finalLocal);
  }

  // ---------------------------------------------------------------- corrected schedule

  /** The folds of consecutive T-cell chunks of s, the last one possibly
      shorter. */
  function ChunkFolds(s: seq<int>, T: nat, op: (int, int) -> int): (r: seq<int>)
    requires |s| >= 1 && T >= 1
    ensures |r| >= 1
    decreases |s|
  {
    if |s| <= T then [Fold(s, op)] else [Fold(s[..T], op)] + ChunkFolds(s[T..], T, op)
  }

  /** Folding the chunk folds is folding the whole. */
  lemma {:induction false} FoldChunks(s: seq<int>, T: nat, op: (int, int) -> int)
    requires Assoc(op) && |s| >= 1 && T >= 1
    ensures Fold(ChunkFolds(s, T, op), op) == Fold(s, op)
    decreases |s|
  {
    if |s| > T {
      var rest := ChunkFolds(s[T..], T, op);
      FoldChunks(s[T..], T, op);
      assert ([Fold(s[..T], op)] + rest)[1..] == rest;
      FoldAppend(s[..T], s[T..], op);
      assert s[..T] + s[T..] == s;
    }
  }

  /** ceil((x + T) / T) is one more than ceil(x / T). */
  lemma GroupCountStep(x: nat, T: nat)
    requires T >= 1
    ensures GroupCount(x + T, T) == GroupCount(x, T) + 1
  {
    var y := x + T - 1;
    var q := y / T;
    assert y == q * T + y % T;
    assert y + T == (q + 1) * T + y % T;
    DivUnique(y + T, T, q + 1, y % T);
  }

  lemma GroupCountOne(n: nat, T: nat)
    requires T >= 1 && 1 <= n <= T
    ensures GroupCount(n, T) == 1
  {
    DivUnique(n + T - 1, T, 1, n - 1);
  }

  lemma {:induction false} ChunkFoldsLength(s: seq<int>, T: nat, op: (int, int) -> int)
    requires |s| >= 1 && T >= 1
    ensures |ChunkFolds(s, T, op)| == GroupCount(|s|, T)
    decreases |s|
  {
    if |s| <= T {
      GroupCountOne(|s|, T);
    } else {
      ChunkFoldsLength(s[T..], T, op);
      GroupCountStep(|s| - T, T);
    }
  }

  /** Chunk gc is the fold of cells gc T up to (gc + 1) T or the end. */
  lemma {:induction false} ChunkFoldsAt(s: seq<int>, T: nat, gc: nat, op: (int, int) -> int)
    requires |s| >= 1 && T >= 1 && gc < GroupCount(|s|, T)
    ensures gc * T < |s|
    ensures |ChunkFolds(s, T, op)| == GroupCount(|s|, T)
    ensures ChunkFolds(s, T, op)[gc] == Fold(s[gc * T..if gc * T + T < |s| then gc * T + T else |s|], op)
    decreases |s|
  {
    ChunkFoldsLength(s, T, op);
    if |s| <= T {
      GroupCountOne(|s|, T);
      assert s[0..|s|] == s;
    } else if gc == 0 {
      assert s[0..T] == s[..T];
    } else {
      GroupCountStep(|s| - T, T);
      ChunkFoldsAt(s[T..], T, gc - 1, op);
      ShiftBounds(|s|, T, gc);
      var lo := gc * T;
      ChunkFoldsLater(s, T, gc, op, lo, if lo + T < |s| then lo + T else |s|);
    }
  }

  /** Chunk gc >= 1 of s, cells lo .. hi, is chunk gc - 1 of s without its
      first T cells. */
  lemma ChunkFoldsLater(s: seq<int>, T: nat, gc: nat, op: (int, int) -> int, lo: nat, hi: nat)
    requires T >= 1 && |s| > T && gc >= 1 && T <= lo <= hi <= |s|
    requires gc - 1 < |ChunkFolds(s[T..], T, op)| && lo - T < hi - T
    requires ChunkFolds(s[T..], T, op)[gc - 1] == Fold(s[T..][lo - T..hi - T], op)
    ensures gc < |ChunkFolds(s, T, op)| && ChunkFolds(s, T, op)[gc] == Fold(s[lo..hi], op)
  {
    ChunkFoldsTail(s, T, gc, op);
    SliceShift(s, T, lo, hi);
  }

  /** The bounds of chunk gc - 1 of s[T..] are those of chunk gc of s, less T. */
  lemma ShiftBounds(n: nat, T: nat, gc: nat)
    requires T >= 1 && n > T && gc >= 1
    ensures (gc - 1) * T == gc * T - T && gc * T >= T
    ensures (if (gc - 1) * T + T < n - T then (gc - 1) * T + T else n - T) ==
      (if gc * T + T < n then gc * T + T else n) - T
  {
    TileShift(gc, T);
  }

  lemma ChunkFoldsTail(s: seq<int>, T: nat, gc: nat, op: (int, int) -> int)
    requires T >= 1 && |s| > T && 1 <= gc && gc - 1 < |ChunkFolds(s[T..], T, op)|
    ensures gc < |ChunkFolds(s, T, op)|
    ensures ChunkFolds(s, T, op)[gc] == ChunkFolds(s[T..], T, op)[gc - 1]
  {
  }

  lemma SliceShift(s: seq<int>, T: nat, lo: nat, hi: nat)
    requires T <= lo <= hi <= |s|
    ensures s[T..][lo - T..hi - T] == s[lo..hi]
  {
  }

  lemma TileShift(gc: nat, T: nat)
    requires gc >= 1
    ensures (gc - 1) * T + T == gc * T
  {
  }

  /** ceil(n / T) groups of T cover exactly the rounded-up extent. */
  lemma RoundUpGroups(n: nat, T: nat)
    requires T >= 1
    ensures RoundUp(n, T) == GroupCount(n, T) * T
    ensures GroupCount(RoundUp(n, T), T) == GroupCount(n, T)
  {
    var k := GroupCount(n, T);
    assert RoundUp(n, T) == k * T;
    DivUnique(k * T + T - 1, T, k, T - 1);
  }

  /** Group gc of a corrected pass writes chunk gc's fold. */
  lemma PassChunkAt(row: seq<int>, n: nat, T: nat, gc: nat, op: (int, int) -> int)
    requires Assoc(op) && Comm(op) && IsPow2(T) && T >= 1 && 1 <= n <= |row|
    requires gc < GroupCount(n, T)
    ensures gc < |row| && |ChunkFolds(row[..n], T, op)| == GroupCount(n, T)
    ensures RowPass(row, n, RoundUp(n, T), T, op)[gc] == ChunkFolds(row[..n], T, op)[gc]
  {
    FullGroup(n, T, gc);
    RowPassAt(row, n, RoundUp(n, T), T, gc, op);
    GroupValueFold(row, n, T, gc, op);
    ChunkValue(row, n, T, gc, op);
  }

  /** Group gc of a corrected pass folds its chunk of the first n cells. */
  lemma GroupValueFold(row: seq<int>, n: nat, T: nat, gc: nat, op: (int, int) -> int)
    requires Assoc(op) && Comm(op) && IsPow2(T) && T >= 1 && 1 <= n <= |row|
    requires gc < GroupCount(n, T)
    ensures gc * T < n && GroupCount(RoundUp(n, T), T) == GroupCount(n, T)
    ensures GroupValue(row, n, RoundUp(n, T), T, gc, op) ==
      Fold(row[gc * T..if gc * T + T < n then gc * T + T else n], op)
  {
    RoundUpGroups(n, T);
    FullGroup(n, T, gc);
    GroupFolds(row, n, RoundUp(n, T), T, gc, op);
    var base := gc * T;
    var m := if n - base < T then n - base else T;
    assert base + m == if base + T < n then base + T else n;
  }

  /** Chunk gc of the first n cells, read off the whole row. */
  lemma ChunkValue(row: seq<int>, n: nat, T: nat, gc: nat, op: (int, int) -> int)
    requires T >= 1 && 1 <= n <= |row| && gc < GroupCount(n, T)
    ensures gc * T < n && |ChunkFolds(row[..n], T, op)| == GroupCount(n, T)
    ensures ChunkFolds(row[..n], T, op)[gc] == Fold(row[gc * T..if gc * T + T < n then gc * T + T else n], op)
  {
    var s := row[..n];
    ChunkFoldsAt(s, T, gc, op);
    var lo := gc * T;
    var hi := if lo + T < n then lo + T else n;
    PrefixSlice(row, n, lo, hi);
  }

  lemma PrefixSlice(row: seq<int>, n: nat, lo: nat, hi: nat)
    requires lo <= hi <= n <= |row|
    ensures row[..n][lo..hi] == row[lo..hi]
  {
  }

  /** With the global size rounded up, group gc < ceil(n / T) is a full
      tile whose first item lies below n. */
  lemma FullGroup(n: nat, T: nat, gc: nat)
    requires T >= 1 && gc < GroupCount(n, T)
    ensures gc < n && Writes(n, RoundUp(n, T), T, gc) && GroupSize(RoundUp(n, T), T, gc) == T
  {
    var k := GroupCount(n, T);
    var g := RoundUp(n, T);
    RoundUpGroups(n, T);
    ChunkBase(n, T, gc);
    AtMostMultiple(gc, T);
    MulMonotoneIn(gc + 1, k, T);
    assert (gc + 1) * T == gc * T + T;
  }

  lemma ChunkBase(n: nat, T: nat, gc: nat)
    requires T >= 1 && gc < GroupCount(n, T)
    ensures gc * T < n
  {
    var k := GroupCount(n, T);
    assert (n + T - 1) / T == k;
    assert k * T <= n + T - 1;
    MulMonotoneIn(gc + 1, k, T);
    assert (gc + 1) * T == gc * T + T;
  }

  /** A writing group's cell after a pass. */
  lemma RowPassAt(row: seq<int>, bound: nat, g: nat, L: nat, gc: nat, op: (int, int) -> int)
    requires L >= 1 && gc < |row| && Writes(bound, g, L, gc)
    ensures RowPass(row, bound, g, L, op)[gc] == GroupValue(row, bound, g, L, gc, op)
  {
  }

  /** One corrected pass: every group is a full tile and its loads and
      pairings are bounded by the current length n, so the first
      ceil(n / T) cells become the chunk folds of the first n. */
  lemma PassChunks(row: seq<int>, n: nat, T: nat, op: (int, int) -> int)
    requires Assoc(op) && Comm(op) && IsPow2(T) && T >= 1 && 1 <= n <= |row|
    ensures GroupCount(n, T) <= n
    ensures RowPass(row, n, RoundUp(n, T), T, op)[..GroupCount(n, T)] == ChunkFolds(row[..n], T, op)
  {
    var k := GroupCount(n, T);
    ChunkFoldsLength(row[..n], T, op);
    GroupCountPositive(n, T);
    ChunkFoldsAt(row[..n], T, k - 1, op);
    AtMostMultiple(k - 1, T);
    forall gc | 0 <= gc < k
      ensures RowPass(row, n, RoundUp(n, T), T, op)[gc] == ChunkFolds(row[..n], T, op)[gc]
    {
      PassChunkAt(row, n, T, gc, op);
    }
  }

  /** The corrected driver: each pass is told the current length n, and the
      loop runs while more than one partial is left. */
  function FixedSchedule(row: seq<int>, n: nat, T: nat, op: (int, int) -> int): (r: seq<int>)
    requires T >= 2 && n <= |row|
    ensures |r| == |row|
    decreases n
  {
    if n <= 1 then row
    else
      GroupCountShrinks(n, T);
      FixedSchedule(RowPass(row, n, RoundUp(n, T), T, op), GroupCount(n, T), T, op)
  }

  /** The corrected driver leaves the fold of the first n cells in cell 0. */
  lemma {:induction false} FixedScheduleFolds(row: seq<int>, n: nat, T: nat, op: (int, int) -> int)
    requires Assoc(op) && Comm(op) && IsPow2(T) && T >= 2 && 1 <= n <= |row|
    ensures FixedSchedule(row, n, T, op)[0] == Fold(row[..n], op)
    decreases n
  {
    if n == 1 {
      assert row[..1] == [row[0]];
    } else {
      GroupCountShrinks(n, T);
      var k := GroupCount(n, T);
      var p := RowPass(row, n, RoundUp(n, T), T, op);
      PassChunks(row, n, T, op);
      FoldChunks(row[..n], T, op);
      ChunkFoldsAt(row[..n], T, 0, op);
      FixedScheduleFolds(p, k, T, op);
    }
  }

  /** The corrected reduce: the same kernel passes, bounded by the shrinking
      length instead of a1, each with full tile-size groups over the length
      rounded up, so T divides every global size and each enqueue is
      accepted. At most two dimensions are launched, as for reduce. */
  method FixedReduce(A: array2<int>, s: Shape, rows: nat, T: nat, op: (int, int) -> int) returns (status: int)
    requires rows <= A.Length0 && T >= 2 && s.dim1 == A.Length1
    requires s.dim2 == A.Length0 && rows == RowsReached(s) && NumDims(s) <= 2
    modifies A
    ensures status == ClErrors.CL_SUCCESS
    ensures forall r :: 0 <= r < rows ==> RowOf(A, r) == FixedSchedule(old(RowOf(A, r)), A.Length1, T, op)
    ensures Assoc(op) && Comm(op) && IsPow2(T) && A.Length1 >= 1 ==>
      forall r :: 0 <= r < rows ==> A[r, 0] == Fold(old(RowOf(A, r)), op)
    ensures forall r, c :: rows <= r < A.Length0 && 0 <= c < A.Length1 ==> A[r, c] == old(A[r, c])
  {
    var n: nat := A.Length1;
    status := ClErrors.CL_SUCCESS;
    while n > 1
      invariant n <= A.Length1 && status == ClErrors.CL_SUCCESS
      invariant forall r :: 0 <= r < rows ==>
        FixedSchedule(RowOf(A, r), n, T, op) == FixedSchedule(old(RowOf(A, r)), A.Length1, T, op)
      invariant forall r, c :: rows <= r < A.Length0 && 0 <= c < A.Length1 ==> A[r, c] == old(A[r, c])
      decreases n
    {
      var g := RoundUp(n, T);
      PassAccepted(s, g, T);
      status := EnqueueStatus(PassLaunch(s, g, T, Some([T, T, T])));
      ReducePass(A, rows, n, g, T, op);
      GroupCountShrinks(n, T);
      n := (n + T - 1) / T;
    }
    if Assoc(op) && Comm(op) && IsPow2(T) && A.Length1 >= 1 {
      forall r | 0 <= r < rows ensures A[r, 0] == Fold(old(RowOf(A, r)), op) {
        FixedScheduleFolds(old(RowOf(A, r)), A.Length1, T, op);
        assert old(RowOf(A, r))[..A.Length1] == old(RowOf(A, r));
      }
    }
  }
}
