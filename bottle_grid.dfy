/**
  The flat-indexed nx × ny grid of the bottle mode (bottle-sim.ts): cell
  `y * nx + x` sits in column x and row y, rows counted from the top, and the
  grid does not wrap. `getNeighbors` lists the masked 4-neighbours of a cell.
 */
module BottleGrid {
  import opened Basics

  /** `idx` is a cell of an nx × ny grid. */
  predicate InGrid(idx: int, nx: nat, ny: nat)
  {
    0 <= idx < nx * ny
  }

  function Col(idx: int, nx: nat): int
    requires nx > 0
  {
    idx % nx
  }

  function Row(idx: int, nx: nat): int
    requires nx > 0
  {
    idx / nx
  }

  /** Column x and row y of the grid name the cell `y * nx + x`, and back. */
  lemma FlatIndex(x: int, y: int, nx: nat, ny: nat)
    requires 0 <= x < nx && 0 <= y < ny
    ensures InGrid(y * nx + x, nx, ny)
    ensures Col(y * nx + x, nx) == x && Row(y * nx + x, nx) == y
  {
    ModUnique(y * nx + x, nx, y, x);
    MulSucc(y, nx);
    MulMono(y + 1, ny, nx);
  }

  /** Every cell of the grid has a column and a row inside it. */
  lemma Coords(idx: int, nx: nat, ny: nat)
    requires InGrid(idx, nx, ny)
    ensures nx > 0 && ny > 0
    ensures 0 <= Col(idx, nx) < nx && 0 <= Row(idx, nx) < ny
    ensures idx == Row(idx, nx) * nx + Col(idx, nx)
  {
    if nx == 0 {
      assert false;
    }
    ModSplit(idx, nx);
  }

  /** Two cells are 4-adjacent: one step apart along one axis, without wrapping. */
  predicate GridAdjacent(a: int, b: int, nx: nat)
    requires nx > 0
  {
    var dx := Col(a, nx) - Col(b, nx);
    var dy := Row(a, nx) - Row(b, nx);
    (dx == 0 && (dy == 1 || dy == -1)) || (dy == 0 && (dx == 1 || dx == -1))
  }

  /** The cell at column x, row y, if it lies in the grid and is masked. */
  function Probe(x: int, y: int, nx: nat, ny: nat, mask: seq<bool>): seq<int>
    requires |mask| == nx * ny
  {
    if 0 <= x < nx && 0 <= y < ny then
      FlatIndex(x, y, nx, ny);
      if mask[y * nx + x] then [y * nx + x] else []
    else []
  }

  /** getNeighbors: the masked cells above, below, left and right of `idx`, in that order. */
  function MaskedNeighbors(idx: int, nx: nat, ny: nat, mask: seq<bool>): seq<int>
    requires InGrid(idx, nx, ny) && |mask| == nx * ny
  {
    Coords(idx, nx, ny);
    var x, y := Col(idx, nx), Row(idx, nx);
    Probe(x, y - 1, nx, ny, mask) + Probe(x, y + 1, nx, ny, mask)
      + Probe(x - 1, y, nx, ny, mask) + Probe(x + 1, y, nx, ny, mask)
  }

  /** Which side of `idx` the adjacent cell `n` lies on: 0 up, 1 down, 2 left, 3 right. */
  function Side(idx: int, n: int, nx: nat): int
    requires nx > 0
  {
    if Row(n, nx) < Row(idx, nx) then 0
    else if Row(n, nx) > Row(idx, nx) then 1
    else if Col(n, nx) < Col(idx, nx) then 2
    else 3
  }

  /** The side numbers of the cells of `ns` strictly increase. */
  predicate SidesIncreasing(idx: int, ns: seq<int>, nx: nat)
    requires nx > 0
  {
    forall i, j :: 0 <= i < j < |ns| ==> Side(idx, ns[i], nx) < Side(idx, ns[j], nx)
  }

  /**
    The probe one step from `idx` (up, down, left or right, as side `k`)
    holds at most one cell, in the grid, masked, adjacent and on side `k`.
   */
  lemma ProbeSound(idx: int, nx: nat, ny: nat, mask: seq<bool>, dx: int, dy: int, k: int)
    requires InGrid(idx, nx, ny) && |mask| == nx * ny
    requires (dx, dy, k) == (0, -1, 0) || (dx, dy, k) == (0, 1, 1) || (dx, dy, k) == (-1, 0, 2) || (dx, dy, k) == (1, 0, 3)
    ensures nx > 0
    ensures var p := Probe(Col(idx, nx) + dx, Row(idx, nx) + dy, nx, ny, mask);
      && |p| <= 1
      && (forall n :: n in p ==> Neighbor(idx, n, nx, ny, mask) && Side(idx, n, nx) == k)
  {
    Coords(idx, nx, ny);
    var x, y := Col(idx, nx) + dx, Row(idx, nx) + dy;
    if 0 <= x < nx && 0 <= y < ny {
      FlatIndex(x, y, nx, ny);
    }
  }

  /** `n` is a cell of the grid, masked and 4-adjacent to `idx`. */
  predicate Neighbor(idx: int, n: int, nx: nat, ny: nat, mask: seq<bool>)
    requires nx > 0 && |mask| == nx * ny
  {
    InGrid(n, nx, ny) && mask[n] && GridAdjacent(idx, n, nx)
  }

  /** Appending at most one neighbour of a later side keeps the sides increasing. */
  lemma AppendSide(idx: int, ns: seq<int>, p: seq<int>, nx: nat, ny: nat, mask: seq<bool>, k: int)
    requires nx > 0 && |mask| == nx * ny && SidesIncreasing(idx, ns, nx) && |p| <= 1
    requires forall n :: n in ns ==> Side(idx, n, nx) < k && Neighbor(idx, n, nx, ny, mask)
    requires forall n :: n in p ==> Side(idx, n, nx) == k && Neighbor(idx, n, nx, ny, mask)
    ensures SidesIncreasing(idx, ns + p, nx)
    ensures forall n :: n in ns + p ==> Side(idx, n, nx) <= k && Neighbor(idx, n, nx, ny, mask)
  {
    var t := ns + p;
    forall i, j | 0 <= i < j < |t|
      ensures Side(idx, t[i], nx) < Side(idx, t[j], nx)
    {
      assert t[i] in ns;
      if j >= |ns| {
        assert t[j] in p;
      }
    }
  }

  /**
    The neighbours are in the grid, masked and 4-adjacent to `idx`; there are
    at most four, listed up, down, left, right (so no index appears twice).
   */
  lemma MaskedNeighborsSound(idx: int, nx: nat, ny: nat, mask: seq<bool>)
    requires InGrid(idx, nx, ny) && |mask| == nx * ny
    ensures nx > 0
    ensures var ns := MaskedNeighbors(idx, nx, ny, mask);
      && |ns| <= 4
      && (forall n :: n in ns ==> Neighbor(idx, n, nx, ny, mask))
      && SidesIncreasing(idx, ns, nx)
  {
    ProbeSound(idx, nx, ny, mask, 0, -1, 0);
    ProbeSound(idx, nx, ny, mask, 0, 1, 1);
    ProbeSound(idx, nx, ny, mask, -1, 0, 2);
    ProbeSound(idx, nx, ny, mask, 1, 0, 3);
    var x, y := Col(idx, nx), Row(idx, nx);
    FourSides(idx, Probe(x, y - 1, nx, ny, mask), Probe(x, y + 1, nx, ny, mask),
              Probe(x - 1, y, nx, ny, mask), Probe(x + 1, y, nx, ny, mask), nx, ny, mask);
  }

  /** Four probes, one per side in order, make at most four neighbours with increasing sides. */
  lemma FourSides(idx: int, up: seq<int>, down: seq<int>, left: seq<int>, right: seq<int>,
                  nx: nat, ny: nat, mask: seq<bool>)
    requires nx > 0 && |mask| == nx * ny && |up| <= 1 && |down| <= 1 && |left| <= 1 && |right| <= 1
    requires forall n :: n in up ==> Neighbor(idx, n, nx, ny, mask) && Side(idx, n, nx) == 0
    requires forall n :: n in down ==> Neighbor(idx, n, nx, ny, mask) && Side(idx, n, nx) == 1
    requires forall n :: n in left ==> Neighbor(idx, n, nx, ny, mask) && Side(idx, n, nx) == 2
    requires forall n :: n in right ==> Neighbor(idx, n, nx, ny, mask) && Side(idx, n, nx) == 3
    ensures var ns := up + down + left + right;
      && |ns| <= 4
      && (forall n :: n in ns ==> Neighbor(idx, n, nx, ny, mask))
      && SidesIncreasing(idx, ns, nx)
  {
    AppendSide(idx, [], up, nx, ny, mask, 0);
    AppendSide(idx, up, down, nx, ny, mask, 1);
    AppendSide(idx, up + down, left, nx, ny, mask, 2);
    AppendSide(idx, up + down + left, right, nx, ny, mask, 3);
  }

  /** Every masked 4-adjacent cell of the grid is listed. */
  lemma MaskedNeighborsComplete(idx: int, n: int, nx: nat, ny: nat, mask: seq<bool>)
    requires InGrid(idx, nx, ny) && |mask| == nx * ny
    requires InGrid(n, nx, ny) && nx > 0 && mask[n] && GridAdjacent(idx, n, nx)
    ensures n in MaskedNeighbors(idx, nx, ny, mask)
  {
    Coords(idx, nx, ny);
    Coords(n, nx, ny);
    var x, y := Col(idx, nx), Row(idx, nx);
    var xn, yn := Col(n, nx), Row(n, nx);
    assert n == yn * nx + xn;
    if yn == y - 1 {
      assert n in Probe(x, y - 1, nx, ny, mask);
    } else if yn == y + 1 {
      assert n in Probe(x, y + 1, nx, ny, mask);
    } else if xn == x - 1 {
      assert n in Probe(x - 1, y, nx, ny, mask);
    } else {
      assert n in Probe(x + 1, y, nx, ny, mask);
    }
  }

  /** The neighbours, by position: each is an active cell of the grid. */
  lemma MaskedNeighborsActive(idx: int, nx: nat, ny: nat, mask: seq<bool>)
    requires InGrid(idx, nx, ny) && |mask| == nx * ny
    ensures var ns := MaskedNeighbors(idx, nx, ny, mask);
      forall j :: 0 <= j < |ns| ==> 0 <= ns[j] < |mask| && mask[ns[j]]
  {
    MaskedNeighborsSound(idx, nx, ny, mask);
    var ns := MaskedNeighbors(idx, nx, ny, mask);
    forall j | 0 <= j < |ns|
      ensures 0 <= ns[j] < |mask| && mask[ns[j]]
    {
      assert ns[j] in ns;
      assert Neighbor(idx, ns[j], nx, ny, mask);
    }
  }
}
