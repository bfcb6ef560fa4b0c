/** The combinations the kernels compute, stated on sequences. A kernel's
    operator is C text spliced into its source; here it is a binary function on
    the element values, with associativity and commutativity assumed only where
    a result depends on them. */
module Folds {

  ghost predicate Assoc(op: (int, int) -> int)
  {
    forall a, b, c :: op(op(a, b), c) == op(a, op(b, c))
  }

  ghost predicate Comm(op: (int, int) -> int)
  {
    forall a, b :: op(a, b) == op(b, a)
  }

  lemma AssocAt(op: (int, int) -> int, a: int, b: int, c: int)
    requires Assoc(op)
    ensures op(op(a, b), c) == op(a, op(b, c))
  {
  }

  lemma CommAt(op: (int, int) -> int, a: int, b: int)
    requires Comm(op)
    ensures op(a, b) == op(b, a)
  {
  }

  /** x0 op (x1 op (... op xn)): the value a reduction should leave. */
  function Fold(s: seq<int>, op: (int, int) -> int): int
    requires |s| >= 1
    decreases |s|
  {
    if |s| == 1 then s[0] else op(s[0], Fold(s[1..], op))
  }

  /** With an associative operator a fold splits at any point. */
  lemma {:induction false} FoldAppend(x: seq<int>, y: seq<int>, op: (int, int) -> int)
    requires Assoc(op) && |x| >= 1 && |y| >= 1
    ensures Fold(x + y, op) == op(Fold(x, op), Fold(y, op))
    decreases |x|
  {
    if |x| == 1 {
      assert (x + y)[1..] == y;
    } else {
      assert (x + y)[1..] == x[1..] + y;
      FoldAppend(x[1..], y, op);
      AssocAt(op, x[0], Fold(x[1..], op), Fold(y, op));
    }
  }

  /** x0, y0, x1, y1, ...: the order in which a halving tree step pairs the two
      halves of a strided sequence. */
  function Interleave(x: seq<int>, y: seq<int>): (r: seq<int>)
    ensures |r| == |x| + |y|
    decreases |x| + |y|
  {
    if x == [] then y else [x[0]] + Interleave(y, x[1..])
  }

  lemma InterleaveEmpty(y: seq<int>)
    ensures Interleave(y, []) == y
  {
    if y != [] {
      assert Interleave([], y[1..]) == y[1..];
    }
  }

  /** With an associative and commutative operator, folding an interleaving is
      folding each side and combining. */
  lemma {:induction false} FoldInterleave(x: seq<int>, y: seq<int>, op: (int, int) -> int)
    requires Assoc(op) && Comm(op) && |x| >= 1 && |y| >= 1
    ensures Fold(Interleave(x, y), op) == op(Fold(x, op), Fold(y, op))
    decreases |x| + |y|
  {
    var rest := x[1..];
    var r := Interleave(x, y);
    assert r == [x[0]] + Interleave(y, rest);
    assert r[1..] == Interleave(y, rest);
    if rest == [] {
      InterleaveEmpty(y);
    } else {
      FoldInterleave(y, rest, op);
      assert Fold(x, op) == op(x[0], Fold(rest, op));
      CommAt(op, Fold(y, op), Fold(rest, op));
      AssocAt(op, x[0], Fold(rest, op), Fold(y, op));
    }
  }

  /** t[i], t[i+o], t[i+2o], ... below m. */
  function Strided(t: seq<int>, i: nat, o: nat, m: nat): (r: seq<int>)
    requires o >= 1 && m <= |t|
    ensures i < m ==> |r| >= 1 && r[0] == t[i]
    ensures i >= m ==> r == []
    decreases m - i
  {
    if i >= m then [] else [t[i]] + Strided(t, i + o, o, m)
  }

  /** The stride-o run from i is the interleaving of the two stride-2o runs
      from i and from i+o. */
  lemma {:induction false} StridedSplit(t: seq<int>, i: nat, o: nat, m: nat)
    requires o >= 1 && m <= |t|
    ensures Strided(t, i, o, m) == Interleave(Strided(t, i, 2 * o, m), Strided(t, i + o, 2 * o, m))
    decreases m - i
  {
    if i < m {
      StridedSplit(t, i + o, o, m);
      assert Strided(t, i, 2 * o, m) == [t[i]] + Strided(t, i + 2 * o, 2 * o, m);
    }
  }

  /** The stride-1 run is a slice. */
  lemma {:induction false} StridedOne(t: seq<int>, i: nat, m: nat)
    requires i <= m <= |t|
    ensures Strided(t, i, 1, m) == t[i..m]
    decreases m - i
  {
    if i < m {
      StridedOne(t, i + 1, m);
    }
  }

  /** x_n op (x_{n-1} op (... op x0)): the value an inclusive scan cell should
      hold, with the newest element as the operator's left operand. */
  function Comb(s: seq<int>, op: (int, int) -> int): int
    requires |s| >= 1
    decreases |s|
  {
    if |s| == 1 then s[0] else op(s[|s| - 1], Comb(s[..|s| - 1], op))
  }

  /** With an associative operator the right part's combination goes on the
      left. */
  lemma {:induction false} CombAppend(x: seq<int>, y: seq<int>, op: (int, int) -> int)
    requires Assoc(op) && |x| >= 1 && |y| >= 1
    ensures Comb(x + y, op) == op(Comb(y, op), Comb(x, op))
    decreases |y|
  {
    var s := x + y;
    if |y| == 1 {
      assert s[..|s| - 1] == x;
    } else {
      var init := y[..|y| - 1];
      assert s[..|s| - 1] == x + init;
      CombAppend(x, init, op);
      assert y[..|y| - 1] == init;
      AssocAt(op, y[|y| - 1], Comb(init, op), Comb(x, op));
    }
  }
  // ---------------------------------------------------------------- the library's example operator

  /** Integer addition, the operator text "a + b". */
  const Add: (int, int) -> int := (a: int, b: int) => a + b

  lemma AddAssocComm()
    ensures Assoc(Add) && Comm(Add)
  {
  }

  /** n copies of v. */
  function Repeat(n: nat, v: int): (s: seq<int>)
    ensures |s| == n && forall i :: 0 <= i < n ==> s[i] == v
  {
    seq(n, i => v)
  }

  /** Adding up n copies of v gives n * v. */
  lemma {:induction false} CombRepeat(n: nat, v: int)
    requires n >= 1
    ensures Comb(Repeat(n, v), Add) == n * v
  {
    if n > 1 {
      assert Repeat(n, v)[..n - 1] == Repeat(n - 1, v);
      CombRepeat(n - 1, v);
    }
  }
}
