/** The inclusive scan of src/scan.c: a partial-scan kernel makes every
    aligned block of T cells of a row prefix-combined, then a propagate kernel,
    launched with strides T, 2T, 4T, ... below a1, folds the last cell of each
    even chunk into the odd chunk after it, doubling the prefix-combined block
    each time.

    The buffer is the row-major matrix A with a1 = A.Length1 columns. The
    operator text combines a (the cell itself) and b (the cell to its left):
    op(a, b). */
module ScanKernel {
  import opened Folds
  import opened Launch

  // ---------------------------------------------------------------- specification

  /** Every aligned block of B cells prefix-combined: cell c holds the
      combination of its block's cells up to c. */
  function BlockScan(row: seq<int>, B: nat, op: (int, int) -> int): (r: seq<int>)
    requires B >= 1
    ensures |r| == |row|
  {
    seq(|row|, c requires 0 <= c < |row| => Comb(row[(c / B) * B..c + 1], op))
  }

  /** The inclusive scan: cell c holds the combination of cells 0..c. */
  function InclusiveScan(row: seq<int>, op: (int, int) -> int): (r: seq<int>)
    ensures |r| == |row|
  {
    seq(|row|, c requires 0 <= c < |row| => Comb(row[..c + 1], op))
  }

  lemma BlockStartBounds(c: nat, B: nat)
    requires B >= 1
    ensures (c / B) * B <= c < (c / B) * B + B
  {
  }

  /** One block spanning the whole row is the inclusive scan. */
  lemma WholeBlock(row: seq<int>, B: nat, op: (int, int) -> int)
    requires B >= 1 && |row| <= B
    ensures BlockScan(row, B, op) == InclusiveScan(row, op)
  {
    forall c | 0 <= c < |row| ensures BlockScan(row, B, op)[c] == InclusiveScan(row, op)[c] {
      DivUnique(c, B, 0, c);
      assert row[0..c + 1] == row[..c + 1];
    }
  }

  // ---------------------------------------------------------------- the partial scan

  /** One level of the in-tile scan with offset o, every slot reading before
      any slot writes: the loaded slots i >= o take op(slot i, slot i - o). */
  function ScanStep(t: seq<int>, o: nat, m: nat, op: (int, int) -> int): (r: seq<int>)
    ensures |r| == |t|
  {
    seq(|t|, i requires 0 <= i < |t| => if o <= i < m then op(t[i], t[i - o]) else t[i])
  }

  /** The levels with offsets o, 2o, 4o, ... below T. */
  function ScanLevels(t: seq<int>, o: nat, T: nat, m: nat, op: (int, int) -> int): (r: seq<int>)
    requires o >= 1
    ensures |r| == |t|
    decreases T - o
  {
    if o >= T then t else ScanLevels(ScanStep(t, o, m, op), 2 * o, T, m, op)
  }

  /** First cell of the window of width o ending at i. */
  function Lo(i: nat, o: nat): nat
  {
    if i + 1 >= o then i + 1 - o else 0
  }

  /** Before the level with offset o, loaded slot i combines the o-wide window
      of the loaded cells that ends at i; after the last level the window
      reaches slot 0. */
  lemma {:induction false} LevelsScan(t0: seq<int>, t: seq<int>, o: nat, T: nat, m: nat, op: (int, int) -> int)
    requires Assoc(op) && o >= 1 && |t| == |t0| && m <= |t0| && m <= T
    requires forall i :: 0 <= i < m ==> t[i] == Comb(t0[Lo(i, o)..i + 1], op)
    ensures forall i :: 0 <= i < m ==> ScanLevels(t, o, T, m, op)[i] == Comb(t0[..i + 1], op)
    decreases T - o
  {
    if o >= T {
      forall i | 0 <= i < m ensures t[i] == Comb(t0[..i + 1], op) {
        assert Lo(i, o) == 0;
        assert t0[0..i + 1] == t0[..i + 1];
      }
    } else {
      var next := ScanStep(t, o, m, op);
      forall i | 0 <= i < m ensures next[i] == Comb(t0[Lo(i, 2 * o)..i + 1], op) {
        LevelCell(t0, t, o, m, op, i);
      }
      LevelsScan(t0, next, 2 * o, T, m, op);
    }
  }

  /** One slot through one level: the window of width o doubles. */
  lemma LevelCell(t0: seq<int>, t: seq<int>, o: nat, m: nat, op: (int, int) -> int, i: nat)
    requires Assoc(op) && o >= 1 && |t| == |t0| && i < m <= |t0|
    requires t[i] == Comb(t0[Lo(i, o)..i + 1], op)
    requires o <= i ==> t[i - o] == Comb(t0[Lo(i - o, o)..i - o + 1], op)
    ensures ScanStep(t, o, m, op)[i] == Comb(t0[Lo(i, 2 * o)..i + 1], op)
  {
    if o <= i {
      var left := t0[Lo(i - o, o)..i - o + 1];
      var right := t0[Lo(i, o)..i + 1];
      assert Lo(i, o) == i - o + 1;
      assert Lo(i - o, o) == Lo(i, 2 * o);
      assert left + right == t0[Lo(i, 2 * o)..i + 1];
      CombAppend(left, right, op);
    } else {
      assert Lo(i, o) == 0 && Lo(i, 2 * o) == 0;
    }
  }

  /** The tile a group of the partial kernel loads: slot i holds cell base + i
      when it lies below a1 (the other slots are never read; 0 stands for
      them). */
  function ScanTile(row: seq<int>, base: nat, T: nat): (t: seq<int>)
    ensures |t| == T
  {
    seq(T, i requires 0 <= i < T => if base + i < |row| then row[base + i] else 0)
  }

  /** How many of a group's slots lie below a1. */
  function Loaded(n: nat, base: nat, T: nat): nat
  {
    if base >= n then 0 else if n - base < T then n - base else T
  }

  /** What the partial kernel leaves in a row: cell c holds its tile slot after
      the levels. */
  function PartialRow(row: seq<int>, T: nat, op: (int, int) -> int): (r: seq<int>)
    requires T >= 1
    ensures |r| == |row|
  {
    seq(|row|, c requires 0 <= c < |row| =>
      BlockStartBounds(c, T);
      var base := (c / T) * T;
      ScanLevels(ScanTile(row, base, T), 1, T, Loaded(|row|, base, T), op)[c - base])
  }

  /** The partial kernel prefix-combines every aligned block of T cells. */
  lemma PartialRowBlocks(row: seq<int>, T: nat, op: (int, int) -> int)
    requires Assoc(op) && T >= 1
    ensures PartialRow(row, T, op) == BlockScan(row, T, op)
  {
    forall c | 0 <= c < |row| ensures PartialRow(row, T, op)[c] == BlockScan(row, T, op)[c] {
      PartialCell(row, T, op, c);
    }
  }

  lemma PartialCell(row: seq<int>, T: nat, op: (int, int) -> int, c: nat)
    requires Assoc(op) && T >= 1 && c < |row|
    ensures PartialRow(row, T, op)[c] == BlockScan(row, T, op)[c]
  {
    BlockStartBounds(c, T);
    var base := (c / T) * T;
    assert PartialRow(row, T, op)[c] == GroupScan(row, base, T, op)[c - base];
    assert BlockScan(row, T, op)[c] == Comb(row[base..c + 1], op);
    TileScan(row, base, T, op, c - base);
  }

  /** Loaded slot i of a group's tile ends as the combination of the cells
      from the group's base up to base + i. */
  lemma TileScan(row: seq<int>, base: nat, T: nat, op: (int, int) -> int, i: nat)
    requires Assoc(op) && T >= 1 && i < T && base + i < |row|
    ensures GroupScan(row, base, T, op)[i] == Comb(row[base..base + i + 1], op)
  {
    var t0 := ScanTile(row, base, T);
    var m := Loaded(|row|, base, T);
    assert i < m;
    forall j | 0 <= j < m ensures t0[j] == Comb(t0[Lo(j, 1)..j + 1], op) {
      assert t0[j..j + 1] == [t0[j]];
    }
    LevelsScan(t0, t0, 1, T, m, op);
    assert t0[..i + 1] == row[base..base + i + 1];
  }

  /** One level in place: descending, so slot i - o is read before it is
      overwritten, as if all slots read first. */
  method ScanLevel(tile: array<int>, o: nat, m: nat, op: (int, int) -> int)
    requires m <= tile.Length
    modifies tile
    ensures tile[..] == ScanStep(old(tile[..]), o, m, op)
  {
    ghost var before := tile[..];
    var i := m;
    while i > o
      invariant o <= i <= m || (i == m && m < o)
      invariant forall j :: 0 <= j < tile.Length ==>
        tile[j] == (if j >= i then ScanStep(before, o, m, op)[j] else before[j])
      decreases i
    {
      i := i - 1;
      tile[i] := op(tile[i], tile[i - o]);
    }
    assert tile[..] == ScanStep(before, o, m, op);
  }

  /** What the group starting at base leaves in its tile. */
  function GroupScan(row: seq<int>, base: nat, T: nat, op: (int, int) -> int): (t: seq<int>)
    ensures |t| == T
  {
    ScanLevels(ScanTile(row, base, T), 1, T, Loaded(|row|, base, T), op)
  }

  /** A group reads only the cells from its base on. */
  lemma GroupScanFrom(row: seq<int>, cur: seq<int>, base: nat, T: nat, op: (int, int) -> int)
    requires |cur| == |row| && forall c :: base <= c < |row| ==> cur[c] == row[c]
    ensures GroupScan(cur, base, T, op) == GroupScan(row, base, T, op)
  {
    assert ScanTile(cur, base, T) == ScanTile(row, base, T);
  }

  /** The group whose block holds cell c is the one PartialRow reads it from. */
  lemma GroupScanCell(row: seq<int>, g: nat, T: nat, op: (int, int) -> int, c: nat)
    requires T >= 1 && g * T <= c < g * T + T && c < |row|
    ensures GroupScan(row, g * T, T, op)[c - g * T] == PartialRow(row, T, op)[c]
  {
    DivUnique(c, T, g, c - g * T);
  }

  /** The partial-scan kernel on one group: load the slots below a1, run the
      levels, write the slots back. */
  method PartialGroup(A: array2<int>, r: nat, base: nat, T: nat, op: (int, int) -> int)
    requires r < A.Length0 && T >= 1
    modifies A
    ensures forall c :: 0 <= c < A.Length1 ==>
      A[r, c] == if base <= c < base + T then GroupScan(old(RowOf(A, r)), base, T, op)[c - base] else old(A[r, c])
    ensures forall r', c :: 0 <= r' < A.Length0 && r' != r && 0 <= c < A.Length1 ==> A[r', c] == old(A[r', c])
  {
    ghost var row := RowOf(A, r);
    var m := Loaded(A.Length1, base, T);
    var tile := new int[T];
    var i := 0;
    while i < T
      invariant 0 <= i <= T
      invariant forall j :: 0 <= j < i ==> tile[j] == ScanTile(row, base, T)[j]
      modifies tile
    {
      if base + i < A.Length1 {
        tile[i] := A[r, base + i];
      } else {
        tile[i] := 0;
      }
      i := i + 1;
    }
    assert tile[..] == ScanTile(row, base, T);
    ghost var levels := GroupScan(row, base, T, op);
    var o := 1;
    while o < T
      invariant o >= 1
      invariant ScanLevels(tile[..], o, T, m, op) == levels
      modifies tile
      decreases T - o
    {
      ScanLevel(tile, o, m, op);
      o := 2 * o;
    }
    assert tile[..] == levels;
    i := 0;
    while i < m
      invariant 0 <= i <= m
      invariant forall r', c :: 0 <= r' < A.Length0 && r' != r && 0 <= c < A.Length1 ==> A[r', c] == old(A[r', c])
      invariant forall c :: 0 <= c < A.Length1 ==>
        A[r, c] == if base <= c < base + i then levels[c - base] else row[c]
      modifies A
    {
      A[r, base + i] := tile[i];
      i := i + 1;
    }
  }

  /** The partial-scan kernel on row r: its groups in ascending order, each on
      its own block. */
  method PartialScanRow(A: array2<int>, r: nat, T: nat, op: (int, int) -> int)
    requires r < A.Length0 && T >= 1
    modifies A
    ensures RowOf(A, r) == PartialRow(old(RowOf(A, r)), T, op)
    ensures forall r', c :: 0 <= r' < A.Length0 && r' != r && 0 <= c < A.Length1 ==> A[r', c] == old(A[r', c])
  {
    ghost var row := RowOf(A, r);
    ghost var result := PartialRow(row, T, op);
    var base := 0;
    ghost var g := 0;
    while base < A.Length1
      invariant base == g * T
      invariant forall r', c :: 0 <= r' < A.Length0 && r' != r && 0 <= c < A.Length1 ==> A[r', c] == old(A[r', c])
      invariant forall c :: 0 <= c < A.Length1 ==> A[r, c] == if c < base then result[c] else row[c]
      decreases A.Length1 - base
    {
      GroupScanFrom(row, RowOf(A, r), base, T, op);
      ghost var group := GroupScan(row, base, T, op);
      PartialGroup(A, r, base, T, op);
      forall c | base <= c < base + T && c < A.Length1 ensures group[c - base] == result[c] {
        GroupScanCell(row, g, T, op, c);
      }
      base := base + T;
      g := g + 1;
    }
    assert RowOf(A, r) == result;
  }

  // ---------------------------------------------------------------- the propagation

  /** The propagate kernel with stride s on one row: each cell of an odd chunk
      (chunk = col / s; the source's `chunk & 1 != 0` parses as `chunk & 1`)
      takes op(itself, last cell of the chunk before). */
  function PropagateRow(row: seq<int>, s: nat, op: (int, int) -> int): (r: seq<int>)
    requires s >= 1
    ensures |r| == |row|
  {
    seq(|row|, c requires 0 <= c < |row| =>
      if c > s - 1 && (c / s) % 2 == 1 then
        BlockStartBounds(c, s);
        op(row[c], row[(c / s) * s - 1])
      else row[c])
  }

  lemma ChunkArithmetic(c: nat, s: nat)
    requires s >= 1
    ensures (c / s) % 2 == 1 ==> (c / (2 * s)) * (2 * s) == (c / s) * s - s
    ensures (c / s) % 2 == 0 ==> (c / (2 * s)) * (2 * s) == (c / s) * s
    ensures (c / s) >= 1 ==> ((c / s) * s - 1) / s == c / s - 1
  {
    var k := c / s;
    var rem := c % s;
    assert c == k * s + rem;
    DoubleChunk(c, s, k, rem);
    if k >= 1 {
      PrevChunk(k, s);
    }
  }

  lemma DoubleChunk(c: nat, s: nat, k: nat, rem: nat)
    requires s >= 1 && rem < s && c == k * s + rem
    ensures k % 2 == 1 ==> (c / (2 * s)) * (2 * s) == k * s - s
    ensures k % 2 == 0 ==> (c / (2 * s)) * (2 * s) == k * s
  {
    var h := k / 2;
    var odd := k % 2;
    assert k == 2 * h + odd;
    assert k * s == h * (2 * s) + odd * s;
    if odd == 1 {
      DivUnique(c, 2 * s, h, s + rem);
    } else {
      DivUnique(c, 2 * s, h, rem);
    }
  }

  lemma PrevChunk(k: nat, s: nat)
    requires s >= 1 && k >= 1
    ensures (k * s - 1) / s == k - 1
  {
    assert k * s - 1 == (k - 1) * s + (s - 1);
    DivUnique(k * s - 1, s, k - 1, s - 1);
  }

  /** Propagating with stride s turns blocks of s into blocks of 2s. */
  lemma PropagateDoubles(row: seq<int>, s: nat, op: (int, int) -> int)
    requires Assoc(op) && s >= 1
    ensures PropagateRow(BlockScan(row, s, op), s, op) == BlockScan(row, 2 * s, op)
  {
    forall c | 0 <= c < |row| ensures PropagateRow(BlockScan(row, s, op), s, op)[c] == BlockScan(row, 2 * s, op)[c] {
      PropagateCell(row, s, op, c);
    }
  }

  lemma PropagateCell(row: seq<int>, s: nat, op: (int, int) -> int, c: nat)
    requires Assoc(op) && s >= 1 && c < |row|
    ensures PropagateRow(BlockScan(row, s, op), s, op)[c] == BlockScan(row, 2 * s, op)[c]
  {
    if c <= s - 1 {
      DivUnique(c, s, 0, c);
      DivUnique(c, 2 * s, 0, c);
    }
    if (c / s) % 2 == 1 {
      PropagateOddCell(row, s, op, c);
    } else {
      ChunkArithmetic(c, s);
    }
  }

  /** A cell of an odd chunk: its block of s joins the block before. */
  lemma PropagateOddCell(row: seq<int>, s: nat, op: (int, int) -> int, c: nat)
    requires Assoc(op) && s >= 1 && c < |row| && c > s - 1 && (c / s) % 2 == 1
    ensures PropagateRow(BlockScan(row, s, op), s, op)[c] == BlockScan(row, 2 * s, op)[c]
  {
    var base := (c / s) * s;
    OddCellParts(row, s, op, c, base);
    PropagateAt(BlockScan(row, s, op), s, op, c, base);
  }

  /** A cell of an odd chunk past the first takes op(itself, the cell before
      its chunk, which starts at base). */
  lemma PropagateAt(row: seq<int>, s: nat, op: (int, int) -> int, c: nat, base: nat)
    requires s >= 1 && c < |row| && c > s - 1 && (c / s) % 2 == 1 && base == (c / s) * s
    ensures 1 <= base <= c
    ensures PropagateRow(row, s, op)[c] == op(row[c], row[base - 1])
  {
    BlockStartBounds(c, s);
  }

  /** The three block-scan cells the odd-chunk step relates, base being the
      start of c's chunk. */
  lemma OddCellParts(row: seq<int>, s: nat, op: (int, int) -> int, c: nat, base: nat)
    requires Assoc(op) && s >= 1 && c < |row| && (c / s) % 2 == 1 && base == (c / s) * s
    ensures s <= base <= c
    ensures BlockScan(row, s, op)[c] == Comb(row[base..c + 1], op)
    ensures BlockScan(row, s, op)[base - 1] == Comb(row[base - s..base], op)
    ensures BlockScan(row, 2 * s, op)[c] == op(Comb(row[base..c + 1], op), Comb(row[base - s..base], op))
  {
    OddChunkStarts(c, s);
    BlockScanAt(row, s, op, c, base);
    BlockScanAt(row, s, op, base - 1, base - s);
    OddDoubleBlock(row, s, op, c, base);
  }

  lemma OddDoubleBlock(row: seq<int>, s: nat, op: (int, int) -> int, c: nat, base: nat)
    requires Assoc(op) && s >= 1 && c < |row| && (c / s) % 2 == 1 && base == (c / s) * s
    ensures s <= base <= c
    ensures BlockScan(row, 2 * s, op)[c] == op(Comb(row[base..c + 1], op), Comb(row[base - s..base], op))
  {
    OddChunkStarts(c, s);
    BlockScanAt(row, 2 * s, op, c, base - s);
    CombJoin(row, base - s, base, c + 1, op);
  }

  /** The block starts around a cell c of an odd chunk. */
  lemma OddChunkStarts(c: nat, s: nat)
    requires s >= 1 && (c / s) % 2 == 1
    ensures s <= (c / s) * s <= c
    ensures (((c / s) * s - 1) / s) * s == (c / s) * s - s
    ensures (c / (2 * s)) * (2 * s) == (c / s) * s - s
  {
    ChunkArithmetic(c, s);
    BlockStartBounds(c, s);
    PrevStart(c / s, s);
  }

  /** Two adjacent slices combine, the right one's combination first. */
  lemma CombJoin(row: seq<int>, lo: nat, mid: nat, hi: nat, op: (int, int) -> int)
    requires Assoc(op) && lo < mid < hi <= |row|
    ensures Comb(row[lo..hi], op) == op(Comb(row[mid..hi], op), Comb(row[lo..mid], op))
  {
    assert row[lo..mid] + row[mid..hi] == row[lo..hi];
    CombAppend(row[lo..mid], row[mid..hi], op);
  }

  lemma PrevStart(k: nat, s: nat)
    requires s >= 1 && k >= 1
    ensures k * s >= s && ((k * s - 1) / s) * s == k * s - s
  {
    PrevChunk(k, s);
    assert (k - 1) * s == k * s - s;
  }

  /** Cell c of a block scan, its block starting at `start`. */
  lemma BlockScanAt(row: seq<int>, B: nat, op: (int, int) -> int, c: nat, start: nat)
    requires B >= 1 && c < |row| && start == (c / B) * B
    ensures start <= c && BlockScan(row, B, op)[c] == Comb(row[start..c + 1], op)
  {
    BlockStartBounds(c, B);
  }

  /** The cell a propagated cell reads: the last of the chunk before, which
      lies in an even chunk and so is not written by the same launch. */
  lemma SourceUnmoved(c: nat, s: nat)
    requires s >= 1 && c > s - 1 && (c / s) % 2 == 1
    ensures 0 <= (c / s) * s - 1 < c && !Moved((c / s) * s - 1, s)
  {
    ChunkArithmetic(c, s);
    BlockStartBounds(c, s);
    var src := (c / s) * s - 1;
    assert (src / s) % 2 == 0;
  }

  // ---------------------------------------------------------------- the shared `b`

  /** Whether the propagate launch with stride s writes column c: c lies past
      the first chunk, in an odd one. */
  predicate Moved(c: nat, s: nat)
    requires s >= 1
  {
    c > s - 1 && (c / s) % 2 == 1
  }

  /** Every row of m has w cells. */
  predicate Rect(m: seq<seq<int>>, w: nat)
  {
    forall q :: 0 <= q < |m| ==> |m[q]| == w
  }

  /** The propagate kernel declares `b` in `__local` memory: one variable per
      work-group, which each item of an odd chunk writes (with the last cell
      of the chunk before, on its own row) and then reads back, with no
      barrier between. The oracle `picks(s, r, c)` names the row whose write
      the item at row r, column c reads back in the launch with stride s.
      Every writer in a group lies in the same T-column band and, the stride
      being a multiple of T, in the same chunk, so the value read is that
      row's cell (c / s) * s - 1. */
  ghost predicate PicksIn(picks: (nat, nat, nat) -> nat, rows: nat)
  {
    forall s: nat, r: nat, c: nat :: r < rows ==> picks(s, r, c) < rows
  }

  /** A work-group spans T rows, those r with the same r / T: the item reads
      a write by a reached row of its own group. */
  ghost predicate GroupPicks(picks: (nat, nat, nat) -> nat, rows: nat, T: nat)
    requires T >= 1
  {
    PicksIn(picks, rows) && forall s: nat, r: nat, c: nat :: r < rows ==> picks(s, r, c) / T == r / T
  }

  /** Every item of row r reads back its own row's write, in every launch. */
  ghost predicate OwnPicks(picks: (nat, nat, nat) -> nat, r: nat)
  {
    forall s: nat, c: nat :: picks(s, r, c) == r
  }

  /** The choice where every item reads its own write, as with a private `b`. */
  function OwnRow(s: nat, r: nat, c: nat): nat
  {
    r
  }

  /** The first `rows` rows of A. */
  function Rows(A: array2<int>, rows: nat): (m: seq<seq<int>>)
    requires rows <= A.Length0
    reads A
    ensures |m| == rows && Rect(m, A.Length1)
  {
    seq(rows, r requires 0 <= r < rows reads A => RowOf(A, r))
  }

  /** One propagate launch with stride s over the rows of m (w cells each). */
  function SharedPropagate(m: seq<seq<int>>, w: nat, s: nat, picks: (nat, nat, nat) -> nat, op: (int, int) -> int): (r: seq<seq<int>>)
    requires s >= 1 && Rect(m, w) && PicksIn(picks, |m|)
    ensures |r| == |m| && Rect(r, w)
  {
    seq(|m|, q requires 0 <= q < |m| =>
      seq(w, c requires 0 <= c < w =>
        if Moved(c, s) then
          BlockStartBounds(c, s);
          op(m[q][c], m[picks(s, q, c)][(c / s) * s - 1])
        else m[q][c]))
  }

  /** The propagate launches from stride s while s < w. */
  function SharedPropagates(m: seq<seq<int>>, w: nat, s: nat, picks: (nat, nat, nat) -> nat, op: (int, int) -> int): (r: seq<seq<int>>)
    requires s >= 1 && Rect(m, w) && PicksIn(picks, |m|)
    ensures |r| == |m| && Rect(r, w)
    decreases w - s
  {
    if s < w then SharedPropagates(SharedPropagate(m, w, s, picks, op), w, 2 * s, picks, op) else m
  }

  /** The partial kernel on every row of m. */
  function PartialRows(m: seq<seq<int>>, T: nat, op: (int, int) -> int): (r: seq<seq<int>>)
    requires T >= 1
    ensures |r| == |m|
  {
    seq(|m|, q requires 0 <= q < |m| => PartialRow(m[q], T, op))
  }

  /** scan on the rows of m: the partial kernel, then the propagations. */
  function SharedScan(m: seq<seq<int>>, w: nat, T: nat, picks: (nat, nat, nat) -> nat, op: (int, int) -> int): (r: seq<seq<int>>)
    requires T >= 1 && Rect(m, w) && PicksIn(picks, |m|)
    ensures |r| == |m| && Rect(r, w)
  {
    SharedPropagates(PartialRows(m, T, op), w, T, picks, op)
  }

  /** A row whose items read back their own writes is propagated as on its
      own. */
  lemma OwnRowPropagate(m: seq<seq<int>>, w: nat, s: nat, picks: (nat, nat, nat) -> nat, op: (int, int) -> int, q: nat)
    requires s >= 1 && Rect(m, w) && PicksIn(picks, |m|) && q < |m| && OwnPicks(picks, q)
    ensures SharedPropagate(m, w, s, picks, op)[q] == PropagateRow(m[q], s, op)
  {
    forall c | 0 <= c < w
      ensures SharedPropagate(m, w, s, picks, op)[q][c] == PropagateRow(m[q], s, op)[c]
    {
      assert picks(s, q, c) == q;
    }
  }

  lemma {:induction false} OwnRowPropagates(m: seq<seq<int>>, w: nat, s: nat, picks: (nat, nat, nat) -> nat, op: (int, int) -> int, q: nat)
    requires s >= 1 && Rect(m, w) && PicksIn(picks, |m|) && q < |m| && OwnPicks(picks, q)
    ensures SharedPropagates(m, w, s, picks, op)[q] == Propagates(m[q], s, op)
    decreases w - s
  {
    if s < w {
      OwnRowPropagate(m, w, s, picks, op, q);
      OwnRowPropagates(SharedPropagate(m, w, s, picks, op), w, 2 * s, picks, op, q);
    }
  }

  /** A row whose items read back their own writes ends as ScanRow of it. */
  lemma OwnRowScan(m: seq<seq<int>>, w: nat, T: nat, picks: (nat, nat, nat) -> nat, op: (int, int) -> int, q: nat)
    requires T >= 1 && Rect(m, w) && PicksIn(picks, |m|) && q < |m| && OwnPicks(picks, q)
    ensures SharedScan(m, w, T, picks, op)[q] == ScanRow(m[q], T, op)
  {
    OwnRowPropagates(PartialRows(m, T, op), w, T, picks, op, q);
  }

  /** With one reached row, or groups one row high (T = 1), every item reads
      back its own row's write. */
  lemma PicksForcedOwn(picks: (nat, nat, nat) -> nat, rows: nat, T: nat, q: nat)
    requires T >= 1 && GroupPicks(picks, rows, T) && (rows <= 1 || T == 1) && q < rows
    ensures OwnPicks(picks, q)
  {
    forall s: nat, c: nat
      ensures picks(s, q, c) == q
    {
      assert picks(s, q, c) < rows && picks(s, q, c) / T == q / T;
    }
  }

  /** The other row of a two-row group. */
  function OtherRow(s: nat, r: nat, c: nat): nat
  {
    if r == 0 then 1 else 0
  }

  /** Two rows of 32 cells in one 16 x 16 work-group, row 0 all ones and row 1
      all twos, op +: if the item at row 0, column 16 reads back row 1's write
      of `b` in the stride-16 launch (row 1's cell 15, which the partial
      kernel left at 32), it ends at 33 rather than the inclusive sum 17. */
  lemma SharedBRace()
    ensures GroupPicks(OtherRow, 2, 16)
    ensures SharedScan([Repeat(32, 1), Repeat(32, 2)], 32, 16, OtherRow, Add)[0][16] == 33
    ensures InclusiveScan(Repeat(32, 1), Add)[16] == 17
  {
    RaceValue([Repeat(32, 1), Repeat(32, 2)]);
    InclusiveOnes();
  }

  lemma RaceValue(m: seq<seq<int>>)
    requires m == [Repeat(32, 1), Repeat(32, 2)]
    ensures Rect(m, 32) && PicksIn(OtherRow, |m|)
    ensures SharedScan(m, 32, 16, OtherRow, Add)[0][16] == 33
  {
    var p := PartialRows(m, 16, Add);
    RacePartials(m);
    var q := SharedPropagate(p, 32, 16, OtherRow, Add);
    assert SharedScan(m, 32, 16, OtherRow, Add) == SharedPropagates(q, 32, 32, OtherRow, Add);
    assert q[0][16] == Add(p[0][16], p[1][15]);
  }

  /** On a row of n copies of v under +, the partial kernel leaves at cell c
      the sum of the cells of its tile up to c. */
  lemma PartialRepeat(n: nat, v: int, T: nat, c: nat)
    requires T >= 1 && c < n
    ensures (c / T) * T <= c
    ensures PartialRow(Repeat(n, v), T, Add)[c] == (c - (c / T) * T + 1) * v
  {
    AddAssocComm();
    var row := Repeat(n, v);
    var base := (c / T) * T;
    BlockScanAt(row, T, Add, c, base);
    PartialCell(row, T, Add, c);
    assert row[base..c + 1] == Repeat(c + 1 - base, v);
    CombRepeat(c + 1 - base, v);
  }

  /** The partial kernel's cells read in the race: 1 at row 0, column 16 (the
      first of its tile) and 32 at row 1, column 15 (the sum of its tile). */
  lemma RacePartials(m: seq<seq<int>>)
    requires m == [Repeat(32, 1), Repeat(32, 2)]
    ensures PartialRows(m, 16, Add)[0][16] == 1 && PartialRows(m, 16, Add)[1][15] == 32
  {
    PartialRepeat(32, 1, 16, 16);
    PartialRepeat(32, 2, 16, 15);
  }

  lemma InclusiveOnes()
    ensures InclusiveScan(Repeat(32, 1), Add)[16] == 17
  {
    assert Repeat(32, 1)[..17] == Repeat(17, 1);
    CombRepeat(17, 1);
  }

  /** One launch of the propagate kernel on row r, cell by cell, from the rows
      m0 the launch started with. The cell an item reads lies in an even chunk,
      which the launch does not write, so it still holds its m0 value. */
  method PropagateScanRow(A: array2<int>, r: nat, s: nat, op: (int, int) -> int, picks: (nat, nat, nat) -> nat, ghost m0: seq<seq<int>>)
    requires r < |m0| <= A.Length0 && s >= 1 && Rect(m0, A.Length1) && PicksIn(picks, |m0|)
    requires RowOf(A, r) == m0[r]
    requires forall q, c :: 0 <= q < |m0| && 0 <= c < A.Length1 && !Moved(c, s) ==> A[q, c] == m0[q][c]
    modifies A
    ensures RowOf(A, r) == SharedPropagate(m0, A.Length1, s, picks, op)[r]
    ensures forall r', c :: 0 <= r' < A.Length0 && r' != r && 0 <= c < A.Length1 ==> A[r', c] == old(A[r', c])
  {
    ghost var target := SharedPropagate(m0, A.Length1, s, picks, op)[r];
    var col := 0;
    while col < A.Length1
      invariant 0 <= col <= A.Length1
      invariant forall r', c :: 0 <= r' < A.Length0 && r' != r && 0 <= c < A.Length1 ==> A[r', c] == old(A[r', c])
      invariant forall c :: 0 <= c < A.Length1 ==> A[r, c] == if c < col then target[c] else m0[r][c]
    {
      var chunk := col / s;
      if col > s - 1 && chunk % 2 == 1 {
        SourceUnmoved(col, s);
        var src := chunk * s - 1;
        A[r, col] := op(A[r, col], A[picks(s, r, col), src]);
      }
      col := col + 1;
    }
    assert RowOf(A, r) == target;
  }

  // ---------------------------------------------------------------- the driver

  /** The propagate launches from stride s while s < a1. */
  function Propagates(row: seq<int>, s: nat, op: (int, int) -> int): (r: seq<int>)
    requires s >= 1
    ensures |r| == |row|
    decreases |row| - s
  {
    if s < |row| then Propagates(PropagateRow(row, s, op), 2 * s, op) else row
  }

  /** scan on one row: the partial kernel, then the propagations. */
  function ScanRow(row: seq<int>, T: nat, op: (int, int) -> int): (r: seq<int>)
    requires T >= 1
    ensures |r| == |row|
  {
    Propagates(PartialRow(row, T, op), T, op)
  }

  lemma {:induction false} PropagatesScan(row: seq<int>, cur: seq<int>, s: nat, op: (int, int) -> int)
    requires Assoc(op) && s >= 1 && |cur| == |row| && cur == BlockScan(row, s, op)
    ensures Propagates(cur, s, op) == InclusiveScan(row, op)
    decreases |row| - s
  {
    if s < |cur| {
      PropagateDoubles(row, s, op);
      PropagatesScan(row, PropagateRow(cur, s, op), 2 * s, op);
    } else {
      WholeBlock(row, s, op);
    }
  }

  /** With an associative operator, scan leaves every row's inclusive scan,
      for any tile size. */
  lemma ScanRowInclusive(row: seq<int>, T: nat, op: (int, int) -> int)
    requires Assoc(op) && T >= 1
    ensures ScanRow(row, T, op) == InclusiveScan(row, op)
  {
    PartialRowBlocks(row, T, op);
    PropagatesScan(row, PartialRow(row, T, op), T, op);
  }

  /** The number of propagate launches from stride s below n. */
  function StrideCount(s: nat, n: nat): nat
    requires s >= 1
    decreases n - s
  {
    if s < n then 1 + StrideCount(2 * s, n) else 0
  }

  function Pow2(k: nat): nat
  {
    if k == 0 then 1 else 2 * Pow2(k - 1)
  }

  lemma {:induction false} StrideCountBound(s: nat, n: nat, k: nat)
    requires s >= 1 && n <= Pow2(k) * s
    ensures StrideCount(s, n) <= k
    decreases k
  {
    if s < n {
      assert k != 0;
      assert Pow2(k) * s == Pow2(k - 1) * (2 * s);
      StrideCountBound(2 * s, n, k - 1);
    }
  }

  lemma {:induction false} Pow2Add(a: nat, b: nat)
    ensures Pow2(a + b) == Pow2(a) * Pow2(b)
    decreases a
  {
    if a > 0 {
      Pow2Add(a - 1, b);
    }
  }

  lemma Pow2Thirty()
    ensures Pow2(30) == MAX_SCAN_EXTENT
  {
    assert Pow2(5) == 32;
    Pow2Add(5, 5);
    Pow2Add(10, 10);
    Pow2Add(20, 10);
  }

  /** The largest row extent whose strides all stay inside int: 2^30. */
  const MAX_SCAN_EXTENT: nat := 0x4000_0000

  /** scan: the partial kernel, then one propagate launch per stride, each on
      the rows below `rows` (the rows the launch reaches: all a2 when
      dimension 1 is launched, row 0 otherwise), the items reading the shared `b` as
      `picks` says. A row whose items read back their own writes ends as its
      inclusive scan. Returns the number of events recorded in the fixed
      buffer of BUFSIZE events. The array is shaped s, with a1 = s.dim1 and
      a2 = s.dim2; at most two dimensions are launched, since a third, which
      the kernels never read, would rerun every launch once per work-group
      along it. */
  method Scan(A: array2<int>, s: Shape, rows: nat, T: nat, op: (int, int) -> int, picks: (nat, nat, nat) -> nat) returns (eventCount: nat)
    requires s.dim1 == A.Length1 && s.dim2 == A.Length0 && rows == RowsReached(s) && NumDims(s) <= 2
    requires rows <= A.Length0 && T >= 1 && A.Length1 <= MAX_SCAN_EXTENT && GroupPicks(picks, rows, T)
    modifies A
    ensures Rows(A, rows) == SharedScan(old(Rows(A, rows)), A.Length1, T, picks, op)
    ensures forall r :: 0 <= r < rows && OwnPicks(picks, r) ==> RowOf(A, r) == ScanRow(old(RowOf(A, r)), T, op)
    ensures Assoc(op) ==> forall r :: 0 <= r < rows && OwnPicks(picks, r) ==> RowOf(A, r) == InclusiveScan(old(RowOf(A, r)), op)
    ensures forall r, c :: rows <= r < A.Length0 && 0 <= c < A.Length1 ==> A[r, c] == old(A[r, c])
    ensures eventCount == 1 + StrideCount(T, A.Length1) && eventCount <= 31 < BUFSIZE
  {
    ghost var m0 := Rows(A, rows);
    PartialLaunch(A, rows, T, op);
    assert Rows(A, rows) == PartialRows(m0, T, op);
    var launches := PropagateFrom(A, rows, T, op, picks);
    eventCount := 1 + launches;
    Pow2Thirty();
    StrideCountBound(T, A.Length1, 30);
    forall r | 0 <= r < rows && OwnPicks(picks, r)
      ensures RowOf(A, r) == ScanRow(old(RowOf(A, r)), T, op)
    {
      OwnRowScan(m0, A.Length1, T, picks, op, r);
      assert RowOf(A, r) == Rows(A, rows)[r];
    }
    if Assoc(op) {
      forall r | 0 <= r < rows && OwnPicks(picks, r)
        ensures RowOf(A, r) == InclusiveScan(old(RowOf(A, r)), op)
      {
        ScanRowInclusive(old(RowOf(A, r)), T, op);
      }
    }
  }

  /** scan with `b` private to each item (a plain variable in the propagate
      kernel): every reached row ends as its inclusive scan under an
      associative operator. */
  method ScanPrivate(A: array2<int>, s: Shape, rows: nat, T: nat, op: (int, int) -> int) returns (eventCount: nat)
    requires s.dim1 == A.Length1 && s.dim2 == A.Length0 && rows == RowsReached(s) && NumDims(s) <= 2
    requires rows <= A.Length0 && T >= 1 && A.Length1 <= MAX_SCAN_EXTENT
    modifies A
    ensures forall r :: 0 <= r < rows ==> RowOf(A, r) == ScanRow(old(RowOf(A, r)), T, op)
    ensures Assoc(op) ==> forall r :: 0 <= r < rows ==> RowOf(A, r) == InclusiveScan(old(RowOf(A, r)), op)
    ensures forall r, c :: rows <= r < A.Length0 && 0 <= c < A.Length1 ==> A[r, c] == old(A[r, c])
    ensures eventCount == 1 + StrideCount(T, A.Length1) && eventCount <= 31 < BUFSIZE
  {
    assert forall r :: 0 <= r < rows ==> OwnPicks(OwnRow, r);
    eventCount := Scan(A, s, rows, T, op, OwnRow);
  }

  /** The propagate launches with strides s, 2s, 4s, ... below a1. */
  method PropagateFrom(A: array2<int>, rows: nat, s: nat, op: (int, int) -> int, picks: (nat, nat, nat) -> nat) returns (launches: nat)
    requires rows <= A.Length0 && s >= 1 && PicksIn(picks, rows)
    modifies A
    ensures Rows(A, rows) == SharedPropagates(old(Rows(A, rows)), A.Length1, s, picks, op)
    ensures forall r, c :: rows <= r < A.Length0 && 0 <= c < A.Length1 ==> A[r, c] == old(A[r, c])
    ensures launches == StrideCount(s, A.Length1)
  {
    ghost var goal := SharedPropagates(Rows(A, rows), A.Length1, s, picks, op);
    launches := 0;
    var stride := s;
    while stride < A.Length1
      invariant stride >= 1
      invariant SharedPropagates(Rows(A, rows), A.Length1, stride, picks, op) == goal
      invariant forall r, c :: rows <= r < A.Length0 && 0 <= c < A.Length1 ==> A[r, c] == old(A[r, c])
      invariant launches + StrideCount(stride, A.Length1) == StrideCount(s, A.Length1)
      decreases A.Length1 - stride
    {
      PropagateLaunch(A, rows, stride, op, picks);
      assert StrideCount(stride, A.Length1) == 1 + StrideCount(2 * stride, A.Length1);
      launches := launches + 1;
      stride := stride * 2;
    }
  }

  /** One partial-scan launch over the rows below `rows`. */
  method PartialLaunch(A: array2<int>, rows: nat, T: nat, op: (int, int) -> int)
    requires rows <= A.Length0 && T >= 1
    modifies A
    ensures forall r :: 0 <= r < rows ==> RowOf(A, r) == PartialRow(old(RowOf(A, r)), T, op)
    ensures forall r, c :: rows <= r < A.Length0 && 0 <= c < A.Length1 ==> A[r, c] == old(A[r, c])
  {
    var r := 0;
    while r < rows
      invariant 0 <= r <= rows
      invariant forall r' :: 0 <= r' < r ==> RowOf(A, r') == PartialRow(old(RowOf(A, r')), T, op)
      invariant forall r', c :: r <= r' < A.Length0 && 0 <= c < A.Length1 ==> A[r', c] == old(A[r', c])
    {
      label before:
      PartialScanRow(A, r, T, op);
      forall r' | 0 <= r' < r ensures RowOf(A, r') == old@before(RowOf(A, r')) { }
      assert old@before(RowOf(A, r)) == old(RowOf(A, r));
      r := r + 1;
    }
  }

  /** One propagate launch over the rows below `rows`. */
  method PropagateLaunch(A: array2<int>, rows: nat, s: nat, op: (int, int) -> int, picks: (nat, nat, nat) -> nat)
    requires rows <= A.Length0 && s >= 1 && PicksIn(picks, rows)
    modifies A
    ensures Rows(A, rows) == SharedPropagate(old(Rows(A, rows)), A.Length1, s, picks, op)
    ensures forall r, c :: rows <= r < A.Length0 && 0 <= c < A.Length1 ==> A[r, c] == old(A[r, c])
  {
    ghost var m0 := Rows(A, rows);
    ghost var target := SharedPropagate(m0, A.Length1, s, picks, op);
    var r := 0;
    while r < rows
      invariant 0 <= r <= rows
      invariant forall r' :: 0 <= r' < r ==> RowOf(A, r') == target[r']
      invariant forall r', c :: r <= r' < A.Length0 && 0 <= c < A.Length1 ==> A[r', c] == old(A[r', c])
    {
      forall q, c | 0 <= q < rows && 0 <= c < A.Length1 && !Moved(c, s)
        ensures A[q, c] == m0[q][c]
      {
        if q < r {
          assert A[q, c] == RowOf(A, q)[c];
        }
      }
      label before:
      PropagateScanRow(A, r, s, op, picks, m0);
      forall r' | 0 <= r' < r ensures RowOf(A, r') == old@before(RowOf(A, r')) { }
      r := r + 1;
    }
    assert Rows(A, rows) == target;
  }
}
