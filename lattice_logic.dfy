/**
  The pure helpers of the toroidal lattice (utils/latticeLogic.ts): coordinate
  wrapping, the four toroidal neighbours, grid construction, the uniformity
  ("annihilation") test and the coherence metric.
 */
module LatticeLogic {
  import opened Basics

  /** A cell holds +1 (POSITIVE) or -1 (NEGATIVE). */
  datatype CellState = Positive | Negative

  /** The numeric value of a cell state, as the enum stores it. */
  function Value(s: CellState): int
  {
    if s == Positive then 1 else -1
  }

  /** Multiplying a cell by -1. */
  function Negate(s: CellState): (r: CellState)
    ensures Value(r) == -Value(s)
    ensures r != s
  {
    if s == Positive then Negative else Positive
  }

  datatype Coordinate = Coordinate(row: int, col: int)

  /** Rows of cells; the lattice keeps it square. */
  type Grid = seq<seq<CellState>>

  predicate InRange(c: Coordinate, size: int)
  {
    0 <= c.row < size && 0 <= c.col < size
  }

  predicate IsSquare(g: Grid, n: nat)
  {
    |g| == n && forall i :: 0 <= i < n ==> |g[i]| == n
  }

  // ---------------------------------------------------------------------------
  // Arithmetic

  /** JavaScript's `%`, which truncates toward zero: the result has the sign of `a`. */
  function JsRem(a: int, b: int): (r: int)
    requires b > 0
    ensures -b < r < b
    ensures a >= 0 ==> r >= 0
    ensures a < 0 ==> r <= 0
  {
    if a >= 0 then a % b else -((-a) % b)
  }

  /** Adding the divisor to the truncated remainder and taking it again gives the floored remainder. */
  lemma TruncatedWrapIsMod(v: int, max: int)
    requires max > 0
    ensures JsRem(JsRem(v, max) + max, max) == v % max
  {
    var inner := JsRem(v, max);
    ModSplit(v, max);
    if v >= 0 {
      ModUnique(inner + max, max, 1, inner);
    } else {
      ModSplit(-v, max);
      var q := (-v) / max;
      if (-v) % max == 0 {
        ModUnique(v, max, -q, 0);
        ModUnique(max, max, 1, 0);
      } else {
        ModUnique(v, max, -q - 1, max - (-v) % max);
        ModUnique(inner + max, max, 0, max - (-v) % max);
      }
    }
  }

  /** wrapCoord: `(val % max + max) % max` with JavaScript's remainder. */
  function WrapCoord(v: int, max: int): (r: int)
    requires max > 0
    ensures 0 <= r < max
    ensures r == v % max
  {
    TruncatedWrapIsMod(v, max);
    JsRem(JsRem(v, max) + max, max)
  }

  /** wrapCoord is the identity on [0, max). */
  lemma WrapCoordIdentity(v: int, max: int)
    requires 0 <= v < max
    ensures WrapCoord(v, max) == v
  {
    ModUnique(v, max, 0, v);
  }

  /** wrapCoord is periodic with period max. */
  lemma WrapCoordPeriodic(v: int, k: int, max: int)
    requires max > 0
    ensures WrapCoord(v + k * max, max) == WrapCoord(v, max)
  {
    ModSplit(v, max);
    ModUnique(v + k * max, max, v / max + k, v % max);
  }

  /** The two edges the source documents: max wraps to 0 and -1 wraps to max - 1. */
  lemma WrapCoordEdges(max: int)
    requires max > 0
    ensures WrapCoord(max, max) == 0
    ensures WrapCoord(-1, max) == max - 1
  {
    ModUnique(max, max, 1, 0);
    ModUnique(-1, max, -1, max - 1);
  }

  /** One step down or up from an in-range value wraps only at the edges. */
  lemma WrapStep(v: int, max: int)
    requires 0 <= v < max
    ensures WrapCoord(v - 1, max) == if v == 0 then max - 1 else v - 1
    ensures WrapCoord(v + 1, max) == if v == max - 1 then 0 else v + 1
  {
    if v == 0 {
      ModUnique(v - 1, max, -1, max - 1);
    } else {
      ModUnique(v - 1, max, 0, v - 1);
    }
    if v == max - 1 {
      ModUnique(v + 1, max, 1, 0);
    } else {
      ModUnique(v + 1, max, 0, v + 1);
    }
  }

  // ---------------------------------------------------------------------------
  // Toroidal neighbours

  /** Two integers are equal modulo `size`. */
  predicate Congruent(a: int, b: int, size: int)
    requires size > 0
  {
    a % size == b % size
  }

  /**
    `b` is one step from `a` on the torus: same row and a column one apart
    modulo size, or same column and a row one apart modulo size.
   */
  predicate Adjacent(a: Coordinate, b: Coordinate, size: int)
    requires size > 0
  {
    || (b.row == a.row && (Congruent(b.col, a.col - 1, size) || Congruent(b.col, a.col + 1, size)))
    || (b.col == a.col && (Congruent(b.row, a.row - 1, size) || Congruent(b.row, a.row + 1, size)))
  }

  /** getNeighbors: Up, Down, Left, Right, each wrapped on the axis it moves along. */
  function Neighbors(c: Coordinate, size: int): (ns: seq<Coordinate>)
    requires size > 0
    ensures |ns| == 4
  {
    [ Coordinate(WrapCoord(c.row - 1, size), c.col),
      Coordinate(WrapCoord(c.row + 1, size), c.col),
      Coordinate(c.row, WrapCoord(c.col - 1, size)),
      Coordinate(c.row, WrapCoord(c.col + 1, size)) ]
  }

  /**
    For an in-range cell, the four neighbours are in range, adjacent to it, and
    come in the order Up (row - 1), Down (row + 1), Left (col - 1), Right (col + 1).
   */
  lemma NeighborsInOrder(c: Coordinate, size: int)
    requires size > 0 && InRange(c, size)
    ensures var ns := Neighbors(c, size);
      && (forall k :: 0 <= k < 4 ==> InRange(ns[k], size) && Adjacent(c, ns[k], size))
      && ns[0].col == c.col && Congruent(ns[0].row, c.row - 1, size)
      && ns[1].col == c.col && Congruent(ns[1].row, c.row + 1, size)
      && ns[2].row == c.row && Congruent(ns[2].col, c.col - 1, size)
      && ns[3].row == c.row && Congruent(ns[3].col, c.col + 1, size)
  {
    var ns := Neighbors(c, size);
    forall k | 0 <= k < 4
      ensures ns[k].row % size == ns[k].row && ns[k].col % size == ns[k].col
    {
      WrapCoordIdentity(ns[k].row, size);
      WrapCoordIdentity(ns[k].col, size);
    }
  }

  /** For an in-range cell, the four neighbours are in range. */
  lemma NeighborsInRange(c: Coordinate, size: int)
    requires size > 0 && InRange(c, size)
    ensures var ns := Neighbors(c, size); forall k :: 0 <= k < 4 ==> InRange(ns[k], size)
  {
  }

  /** Every in-range cell adjacent to `c` is among its four neighbours. */
  lemma NeighborsComplete(c: Coordinate, b: Coordinate, size: int)
    requires size > 0 && InRange(c, size) && InRange(b, size) && Adjacent(c, b, size)
    ensures b in Neighbors(c, size)
  {
    var ns := Neighbors(c, size);
    WrapCoordIdentity(b.row, size);
    WrapCoordIdentity(b.col, size);
    if b.row == c.row && Congruent(b.col, c.col - 1, size) {
      assert b == ns[2];
    } else if b.row == c.row && Congruent(b.col, c.col + 1, size) {
      assert b == ns[3];
    } else if Congruent(b.row, c.row - 1, size) {
      assert b == ns[0];
    } else {
      assert b == ns[1];
    }
  }

  /** On a lattice of side at least 3 the four neighbours are pairwise distinct. */
  lemma NeighborsDistinct(c: Coordinate, size: int)
    requires size >= 3 && InRange(c, size)
    ensures var ns := Neighbors(c, size);
      forall i, j :: 0 <= i < j < 4 ==> ns[i] != ns[j]
  {
    WrapStep(c.row, size);
    WrapStep(c.col, size);
  }

  /** One step Right: the column moves by one, wrapped. */
  function StepRight(c: Coordinate, size: int): Coordinate
    requires size > 0
  {
    Coordinate(c.row, WrapCoord(c.col + 1, size))
  }

  /** A step Right lands on the fourth of getNeighbors' results. */
  lemma StepRightIsNeighbor(c: Coordinate, size: int)
    requires size > 0
    ensures StepRight(c, size) == Neighbors(c, size)[3]
  {
  }

  /** The cell reached by stepping Right `k` times. */
  function WalkRight(c: Coordinate, size: int, k: nat): Coordinate
    requires size > 0
  {
    if k == 0 then c else StepRight(WalkRight(c, size, k - 1), size)
  }

  /** The floored remainder of a successor: one more, or 0 after size - 1. */
  lemma ModSucc(a: int, size: int)
    requires size > 0
    ensures (a + 1) % size == if a % size == size - 1 then 0 else a % size + 1
  {
    var p, q := a % size, a / size;
    ModSplit(a, size);
    if p == size - 1 {
      MulSucc(q, size);
      ModUnique(a + 1, size, q + 1, 0);
    } else {
      ModUnique(a + 1, size, q, p + 1);
    }
  }

  /** Stepping Right `k` times from an in-range cell moves its column by k modulo size. */
  lemma {:induction false} WalkRightAt(c: Coordinate, size: int, k: nat)
    requires size > 0 && InRange(c, size)
    ensures WalkRight(c, size, k) == Coordinate(c.row, (c.col + k) % size)
  {
    if k == 0 {
      ModUnique(c.col, size, 0, c.col);
    } else {
      WalkRightAt(c, size, k - 1);
      var a := c.col + k - 1;
      var p := a % size;
      WrapStep(p, size);
      ModSucc(a, size);
      assert WalkRight(c, size, k - 1) == Coordinate(c.row, p);
    }
  }

  /** Walking Right `size` times around the torus returns to the start. */
  lemma WalkRightReturns(c: Coordinate, size: int)
    requires size > 0 && InRange(c, size)
    ensures WalkRight(c, size, size) == c
  {
    WalkRightAt(c, size, size);
    ModUnique(c.col + size, size, 1, c.col);
  }

  // ---------------------------------------------------------------------------
  // Grids

  /** createGrid: `size` rows of `size` cells, all `initial` (POSITIVE by default). */
  function CreateGrid(size: nat, initial: CellState := Positive): (g: Grid)
    ensures IsSquare(g, size)
    ensures forall i, j :: 0 <= i < size && 0 <= j < size ==> g[i][j] == initial
  {
    seq(size, _ => seq(size, _ => initial))
  }

  /** The value `grid[0][0]` reads: absent when there is no first row or it is empty. */
  datatype FirstCell = Absent | Present(value: CellState)

  function FirstOf(g: Grid): FirstCell
  {
    if |g| > 0 && |g[0]| > 0 then Present(g[0][0]) else Absent
  }

  /** `row.every(cell => cell === first)`. */
  function RowEvery(row: seq<CellState>, first: FirstCell): (r: bool)
    ensures r <==> forall j :: 0 <= j < |row| ==> Present(row[j]) == first
  {
    if |row| == 0 then true
    else Present(row[0]) == first && RowEvery(row[1..], first)
  }

  /** `grid.every(row => row.every(...))`. */
  function GridEvery(g: Grid, first: FirstCell): (r: bool)
    ensures r <==> forall i, j :: 0 <= i < |g| && 0 <= j < |g[i]| ==> Present(g[i][j]) == first
  {
    if |g| == 0 then true
    else
      var rest := GridEvery(g[1..], first);
      assert forall i :: 1 <= i < |g| ==> g[i] == g[1..][i - 1];
      RowEvery(g[0], first) && rest
  }

  /**
    checkAnnihilation: true for the empty grid; otherwise every cell equals
    grid[0][0] (and when the first row is empty, that compares against
    undefined, which only a grid without cells passes).
   */
  function CheckAnnihilation(g: Grid): (r: bool)
    ensures r <==> forall i, j :: 0 <= i < |g| && 0 <= j < |g[i]| ==> Present(g[i][j]) == FirstOf(g)
    ensures |g| == 0 ==> r
  {
    if |g| == 0 then true else GridEvery(g, FirstOf(g))
  }

  /** On a non-empty square grid, annihilation is exactly "every cell equals grid[0][0]". */
  lemma AnnihilationIffUniform(g: Grid, n: nat)
    requires n > 0 && IsSquare(g, n)
    ensures CheckAnnihilation(g) <==> forall i, j :: 0 <= i < n && 0 <= j < n ==> g[i][j] == g[0][0]
  {
  }

  // ---------------------------------------------------------------------------
  // Coherence

  function RowSum(row: seq<CellState>): int
  {
    if |row| == 0 then 0 else Value(row[0]) + RowSum(row[1..])
  }

  /** The sum of all cell values, row by row (the nested loop's accumulator). */
  function GridSum(g: Grid): int
  {
    if |g| == 0 then 0 else RowSum(g[0]) + GridSum(g[1..])
  }

  function RowNegatives(row: seq<CellState>): nat
  {
    if |row| == 0 then 0 else (if row[0] == Negative then 1 else 0) + RowNegatives(row[1..])
  }

  /** The number of NEGATIVE cells. */
  function GridNegatives(g: Grid): nat
  {
    if |g| == 0 then 0 else RowNegatives(g[0]) + GridNegatives(g[1..])
  }

  lemma {:induction false} RowSumNegatives(row: seq<CellState>)
    ensures RowSum(row) == |row| - 2 * RowNegatives(row)
    ensures RowNegatives(row) <= |row|
    ensures RowNegatives(row) == 0 <==> forall j :: 0 <= j < |row| ==> row[j] == Positive
    ensures RowNegatives(row) == |row| <==> forall j :: 0 <= j < |row| ==> row[j] == Negative
  {
    if |row| > 0 {
      RowSumNegatives(row[1..]);
      assert forall j :: 1 <= j < |row| ==> row[j] == row[1..][j - 1];
    }
  }

  /** On a square n x n grid the sum is n*n minus twice the number of NEGATIVE cells. */
  lemma {:induction false} GridSumNegatives(g: Grid, n: nat)
    requires forall i :: 0 <= i < |g| ==> |g[i]| == n
    ensures GridSum(g) == |g| * n - 2 * GridNegatives(g)
    ensures GridNegatives(g) <= |g| * n
    ensures GridNegatives(g) == 0 <==> forall i, j :: 0 <= i < |g| && 0 <= j < n ==> g[i][j] == Positive
    ensures GridNegatives(g) == |g| * n <==> forall i, j :: 0 <= i < |g| && 0 <= j < n ==> g[i][j] == Negative
  {
    if |g| > 0 {
      GridSumNegatives(g[1..], n);
      RowSumNegatives(g[0]);
      assert forall i :: 1 <= i < |g| ==> g[i] == g[1..][i - 1];
      assert |g| * n == n + (|g| - 1) * n;
    }
  }

  /** calculateCoherence: the sum of all cells divided by size * size. */
  function Coherence(g: Grid): real
    requires |g| > 0 && IsSquare(g, |g|)
  {
    GridSum(g) as real / ((|g| * |g|) as real)
  }

  /** calculateCoherence's nested loop: it adds every cell of the square grid, then divides by size * size. */
  method CalculateCoherence(g: Grid) returns (coherence: real)
    requires |g| > 0 && IsSquare(g, |g|)
    ensures coherence == Coherence(g)
  {
    var sum := 0;
    var size := |g|;
    var r := 0;
    assert g[0..] == g;
    while r < size
      invariant 0 <= r <= size
      invariant sum + GridSum(g[r..]) == GridSum(g)
    {
      assert g[r..][1..] == g[r + 1..];
      var c := 0;
      assert g[r][0..] == g[r];
      while c < size
        invariant 0 <= c <= size
        invariant sum + RowSum(g[r][c..]) + GridSum(g[r + 1..]) == GridSum(g)
      {
        assert g[r][c..][1..] == g[r][c + 1..];
        sum := sum + Value(g[r][c]);
        c := c + 1;
      }
      r := r + 1;
    }
    coherence := sum as real / ((size * size) as real);
  }

  /** The facts about `s / n` that the coherence properties rest on. */
  lemma RealRatio(s: int, n: int)
    requires n > 0 && -n <= s <= n
    ensures -1.0 <= s as real / n as real <= 1.0
    ensures s as real / n as real == 1.0 <==> s == n
    ensures s as real / n as real == -1.0 <==> s == -n
    ensures s as real / n as real == 0.0 <==> s == 0
  {
    var t, r := s as real, n as real;
    QuotientSign(t, r);
    QuotientSign(t + r, r);
    QuotientSign(t - r, r);
    QuotientShift(t, r);
  }

  /** Dividing by a positive number keeps the sign. */
  lemma QuotientSign(a: real, r: real)
    requires r > 0.0
    ensures a / r < 0.0 <==> a < 0.0
    ensures a / r == 0.0 <==> a == 0.0
  {
    assert (a / r) * r == a;
    if a / r < 0.0 {
      assert (a / r) * r < 0.0 * r;
    } else {
      assert (a / r) * r >= 0.0 * r;
    }
  }

  /** Adding or taking away the divisor moves the quotient by one. */
  lemma QuotientShift(a: real, r: real)
    requires r > 0.0
    ensures (a + r) / r == a / r + 1.0
    ensures (a - r) / r == a / r - 1.0
  {
    assert (a / r + 1.0) * r == a + r == ((a + r) / r) * r;
    MulCancel(a / r + 1.0, (a + r) / r, r);
    assert (a / r - 1.0) * r == a - r == ((a - r) / r) * r;
    MulCancel(a / r - 1.0, (a - r) / r, r);
  }

  /** A positive factor can be cancelled. */
  lemma MulCancel(x: real, y: real, r: real)
    requires r > 0.0 && x * r == y * r
    ensures x == y
  {
    assert (x - y) * r == 0.0;
  }

  /** Coherence lies in [-1, 1]; it is 1 iff every cell is POSITIVE and -1 iff every cell is NEGATIVE. */
  lemma CoherenceBounds(g: Grid)
    requires |g| > 0 && IsSquare(g, |g|)
    ensures -1.0 <= Coherence(g) <= 1.0
    ensures Coherence(g) == 1.0 <==> forall i, j :: 0 <= i < |g| && 0 <= j < |g| ==> g[i][j] == Positive
    ensures Coherence(g) == -1.0 <==> forall i, j :: 0 <= i < |g| && 0 <= j < |g| ==> g[i][j] == Negative
  {
    var n := |g|;
    GridSumNegatives(g, n);
    var cells := n * n;
    assert cells > 0;
    RealRatio(GridSum(g), cells);
  }

  /** Coherence is 0 exactly when half of the cells are NEGATIVE. */
  lemma CoherenceZero(g: Grid)
    requires |g| > 0 && IsSquare(g, |g|)
    ensures Coherence(g) == 0.0 <==> 2 * GridNegatives(g) == |g| * |g|
  {
    var n := |g|;
    GridSumNegatives(g, n);
    var cells := n * n;
    assert cells > 0;
    RealRatio(GridSum(g), cells);
  }

  /** A freshly created grid has coherence 1 (POSITIVE) or -1 (NEGATIVE). */
  lemma CreatedGridCoherence(size: nat, initial: CellState)
    requires size > 0
    ensures Coherence(CreateGrid(size, initial)) == Value(initial) as real
    ensures CheckAnnihilation(CreateGrid(size, initial))
  {
    CoherenceBounds(CreateGrid(size, initial));
  }
}
