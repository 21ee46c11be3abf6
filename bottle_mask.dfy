/**
  Spawn-point and boundary selection over a given bottle mask
  (bottle-mask.ts: getSpawnPoints and getMaskBoundary). The mask is a flat
  nx × ny sequence; a cell is active when its entry is true.

  capVsBase scans columns top-down and bottom-up, leftVsRight scans rows
  left-to-right and right-to-left. Both are written once here over a "line":
  a column (`byRow == false`, positions are rows) or a row (`byRow == true`,
  positions are columns).
 */
module BottleMask {
  import opened BottleTypes
  import opened BottleGrid
  import opened Basics

  /** Column x, row y lies in the grid and is active in the mask. */
  predicate Masked(mask: seq<bool>, nx: nat, ny: nat, x: int, y: int)
    requires |mask| == nx * ny
  {
    0 <= x < nx && 0 <= y < ny && (FlatIndex(x, y, nx, ny); mask[y * nx + x])
  }

  /** Position `pos` of line `line` is an active cell. */
  predicate OnLine(mask: seq<bool>, nx: nat, ny: nat, byRow: bool, line: int, pos: int)
    requires |mask| == nx * ny
  {
    if byRow then Masked(mask, nx, ny, pos, line) else Masked(mask, nx, ny, line, pos)
  }

  /** The flat index of position `pos` on line `line`. */
  function CellOf(nx: nat, byRow: bool, line: int, pos: int): int
  {
    if byRow then line * nx + pos else pos * nx + line
  }

  function LineOf(e: int, nx: nat, byRow: bool): int
    requires nx > 0
  {
    if byRow then Row(e, nx) else Col(e, nx)
  }

  function PosOf(e: int, nx: nat, byRow: bool): int
    requires nx > 0
  {
    if byRow then Col(e, nx) else Row(e, nx)
  }

  /** How many cells a line has. */
  function LineLength(nx: nat, ny: nat, byRow: bool): nat
  {
    if byRow then nx else ny
  }

  /** How many lines there are. */
  function LineCount(nx: nat, ny: nat, byRow: bool): nat
  {
    if byRow then ny else nx
  }

  /** `e` is the first active cell of its line (topmost of a column, leftmost of a row). */
  predicate FirstOnLine(mask: seq<bool>, nx: nat, ny: nat, byRow: bool, e: int)
    requires |mask| == nx * ny
  {
    nx > 0 && InGrid(e, nx, ny) && mask[e]
    && forall p :: 0 <= p < PosOf(e, nx, byRow) ==> !OnLine(mask, nx, ny, byRow, LineOf(e, nx, byRow), p)
  }

  /** `e` is the last active cell of its line (bottommost of a column, rightmost of a row). */
  predicate LastOnLine(mask: seq<bool>, nx: nat, ny: nat, byRow: bool, e: int)
    requires |mask| == nx * ny
  {
    nx > 0 && InGrid(e, nx, ny) && mask[e]
    && forall p :: PosOf(e, nx, byRow) < p < LineLength(nx, ny, byRow) ==> !OnLine(mask, nx, ny, byRow, LineOf(e, nx, byRow), p)
  }

  /** The cells of `s` lie on strictly increasing lines. */
  predicate LinesIncrease(s: seq<int>, nx: nat, byRow: bool)
  {
    nx > 0 ==> forall i, j :: 0 <= i < j < |s| ==> LineOf(s[i], nx, byRow) < LineOf(s[j], nx, byRow)
  }

  /** Every line below `upto` that has an active cell has a cell in `s`. */
  ghost predicate CoversLines(mask: seq<bool>, nx: nat, ny: nat, byRow: bool, s: seq<int>, upto: int)
    requires |mask| == nx * ny
  {
    forall line, p :: 0 <= line < upto && OnLine(mask, nx, ny, byRow, line, p) ==>
      exists i :: 0 <= i < |s| && LineOf(s[i], nx, byRow) == line
  }

  /** Where on the grid position `pos` of line `line` sits. */
  lemma LineCell(nx: nat, ny: nat, byRow: bool, line: int, pos: int)
    requires 0 <= line < LineCount(nx, ny, byRow) && 0 <= pos < LineLength(nx, ny, byRow)
    ensures nx > 0 && InGrid(CellOf(nx, byRow, line, pos), nx, ny)
    ensures LineOf(CellOf(nx, byRow, line, pos), nx, byRow) == line
    ensures PosOf(CellOf(nx, byRow, line, pos), nx, byRow) == pos
  {
    if byRow {
      FlatIndex(pos, line, nx, ny);
    } else {
      FlatIndex(line, pos, nx, ny);
    }
  }

  /** The inner `for ... break` scan from the start of a line: its first active cell, if any. */
  method FirstActive(mask: seq<bool>, nx: nat, ny: nat, byRow: bool, line: int) returns (found: Option<int>)
    requires |mask| == nx * ny && 0 <= line < LineCount(nx, ny, byRow)
    ensures found.Some? ==> FirstOnLine(mask, nx, ny, byRow, found.value) && LineOf(found.value, nx, byRow) == line
    ensures found.None? ==> forall p :: !OnLine(mask, nx, ny, byRow, line, p)
  {
    var p := 0;
    while p < LineLength(nx, ny, byRow)
      invariant 0 <= p <= LineLength(nx, ny, byRow)
      invariant forall q :: 0 <= q < p ==> !OnLine(mask, nx, ny, byRow, line, q)
    {
      LineCell(nx, ny, byRow, line, p);
      var idx := CellOf(nx, byRow, line, p);
      if mask[idx] {
        return Some(idx);
      }
      p := p + 1;
    }
    return None;
  }

  /** The inner `for ... break` scan from the end of a line: its last active cell, if any. */
  method LastActive(mask: seq<bool>, nx: nat, ny: nat, byRow: bool, line: int) returns (found: Option<int>)
    requires |mask| == nx * ny && 0 <= line < LineCount(nx, ny, byRow)
    ensures found.Some? ==> LastOnLine(mask, nx, ny, byRow, found.value) && LineOf(found.value, nx, byRow) == line
    ensures found.None? ==> forall p :: !OnLine(mask, nx, ny, byRow, line, p)
  {
    var p := LineLength(nx, ny, byRow) - 1;
    while p >= 0
      invariant -1 <= p < LineLength(nx, ny, byRow)
      invariant forall q :: p < q < LineLength(nx, ny, byRow) ==> !OnLine(mask, nx, ny, byRow, line, q)
    {
      LineCell(nx, ny, byRow, line, p);
      var idx := CellOf(nx, byRow, line, p);
      if mask[idx] {
        return Some(idx);
      }
      p := p - 1;
    }
    return None;
  }

  function OptionToSeq(o: Option<int>): seq<int>
  {
    if o.Some? then [o.value] else []
  }

  /** Appending the scan result of line `line` keeps the per-line invariants, one line further. */
  lemma ScanStep(mask: seq<bool>, nx: nat, ny: nat, byRow: bool, s: seq<int>, line: int, found: Option<int>)
    requires |mask| == nx * ny && 0 <= line < LineCount(nx, ny, byRow) && nx > 0
    requires forall i :: 0 <= i < |s| ==> LineOf(s[i], nx, byRow) < line
    requires LinesIncrease(s, nx, byRow) && CoversLines(mask, nx, ny, byRow, s, line)
    requires found.Some? ==> LineOf(found.value, nx, byRow) == line
    requires found.None? ==> forall p :: !OnLine(mask, nx, ny, byRow, line, p)
    ensures var s' := s + OptionToSeq(found);
      && (forall i :: 0 <= i < |s'| ==> LineOf(s'[i], nx, byRow) < line + 1)
      && LinesIncrease(s', nx, byRow) && CoversLines(mask, nx, ny, byRow, s', line + 1)
  {
    var s' := s + OptionToSeq(found);
    forall l, p | 0 <= l < line + 1 && OnLine(mask, nx, ny, byRow, l, p)
      ensures exists i :: 0 <= i < |s'| && LineOf(s'[i], nx, byRow) == l
    {
      if l < line {
        var i :| 0 <= i < |s| && LineOf(s[i], nx, byRow) == l;
        assert s'[i] == s[i];
      } else {
        assert s'[|s|] == found.value;
      }
    }
  }

  /** Every cell of `s` is a cell of the grid and active. */
  predicate AllActive(mask: seq<bool>, nx: nat, ny: nat, s: seq<int>)
  {
    forall e :: e in s ==> InGrid(e, nx, ny) && 0 <= e < |mask| && mask[e]
  }

  /**
    capVsBase: spawnA holds the topmost and spawnB the bottommost active cell
    of each column that has one, one per column, columns left to right.
   */
  ghost predicate CapVsBaseSpawns(mask: seq<bool>, nx: nat, ny: nat, spawnA: seq<int>, spawnB: seq<int>)
    requires |mask| == nx * ny
  {
    && (forall i :: 0 <= i < |spawnA| ==> FirstOnLine(mask, nx, ny, false, spawnA[i]))
    && (forall i :: 0 <= i < |spawnB| ==> LastOnLine(mask, nx, ny, false, spawnB[i]))
    && LinesIncrease(spawnA, nx, false) && LinesIncrease(spawnB, nx, false)
    && CoversLines(mask, nx, ny, false, spawnA, nx) && CoversLines(mask, nx, ny, false, spawnB, nx)
  }

  /**
    leftVsRight: spawnB holds the leftmost and spawnA the rightmost active cell
    of each row that has one, one per row, rows top to bottom.
   */
  ghost predicate LeftVsRightSpawns(mask: seq<bool>, nx: nat, ny: nat, spawnA: seq<int>, spawnB: seq<int>)
    requires |mask| == nx * ny
  {
    && (forall i :: 0 <= i < |spawnB| ==> FirstOnLine(mask, nx, ny, true, spawnB[i]))
    && (forall i :: 0 <= i < |spawnA| ==> LastOnLine(mask, nx, ny, true, spawnA[i]))
    && LinesIncrease(spawnA, nx, true) && LinesIncrease(spawnB, nx, true)
    && CoversLines(mask, nx, ny, true, spawnA, ny) && CoversLines(mask, nx, ny, true, spawnB, ny)
  }

  /**
    capVsBase: for each column, left to right, spawnA receives its topmost and
    spawnB its bottommost active cell; a column with no active cell adds nothing.
   */
  method SpawnCapVsBase(mask: seq<bool>, nx: nat, ny: nat) returns (spawnA: seq<int>, spawnB: seq<int>)
    requires |mask| == nx * ny
    ensures AllActive(mask, nx, ny, spawnA) && AllActive(mask, nx, ny, spawnB)
    ensures CapVsBaseSpawns(mask, nx, ny, spawnA, spawnB)
  {
    spawnA, spawnB := [], [];
    var x := 0;
    while x < nx
      invariant 0 <= x <= nx
      invariant forall i :: 0 <= i < |spawnA| ==> FirstOnLine(mask, nx, ny, false, spawnA[i]) && Col(spawnA[i], nx) < x
      invariant forall i :: 0 <= i < |spawnB| ==> LastOnLine(mask, nx, ny, false, spawnB[i]) && Col(spawnB[i], nx) < x
      invariant LinesIncrease(spawnA, nx, false) && LinesIncrease(spawnB, nx, false)
      invariant CoversLines(mask, nx, ny, false, spawnA, x) && CoversLines(mask, nx, ny, false, spawnB, x)
    {
      var top := FirstActive(mask, nx, ny, false, x);
      ScanStep(mask, nx, ny, false, spawnA, x, top);
      spawnA := spawnA + OptionToSeq(top);
      var bottom := LastActive(mask, nx, ny, false, x);
      ScanStep(mask, nx, ny, false, spawnB, x, bottom);
      spawnB := spawnB + OptionToSeq(bottom);
      x := x + 1;
    }
  }

  /**
    leftVsRight: for each row, top to bottom, spawnB receives its leftmost and
    spawnA its rightmost active cell; a row with no active cell adds nothing.
   */
  method SpawnLeftVsRight(mask: seq<bool>, nx: nat, ny: nat) returns (spawnA: seq<int>, spawnB: seq<int>)
    requires |mask| == nx * ny
    ensures AllActive(mask, nx, ny, spawnA) && AllActive(mask, nx, ny, spawnB)
    ensures LeftVsRightSpawns(mask, nx, ny, spawnA, spawnB)
  {
    spawnA, spawnB := [], [];
    var y := 0;
    while y < ny
      invariant 0 <= y <= ny
      invariant forall i :: 0 <= i < |spawnB| ==> FirstOnLine(mask, nx, ny, true, spawnB[i]) && Row(spawnB[i], nx) < y
      invariant forall i :: 0 <= i < |spawnA| ==> LastOnLine(mask, nx, ny, true, spawnA[i]) && Row(spawnA[i], nx) < y
      invariant LinesIncrease(spawnA, nx, true) && LinesIncrease(spawnB, nx, true)
      invariant CoversLines(mask, nx, ny, true, spawnA, y) && CoversLines(mask, nx, ny, true, spawnB, y)
    {
      var left := FirstActive(mask, nx, ny, true, y);
      if nx > 0 {
        ScanStep(mask, nx, ny, true, spawnB, y, left);
      }
      spawnB := spawnB + OptionToSeq(left);
      var right := LastActive(mask, nx, ny, true, y);
      if nx > 0 {
        ScanStep(mask, nx, ny, true, spawnA, y, right);
      }
      spawnA := spawnA + OptionToSeq(right);
      y := y + 1;
    }
  }

  /** Cell `a` comes before cell `b` in column-major order. */
  predicate ColumnMajorBefore(a: int, b: int, nx: nat)
    requires nx > 0
  {
    Col(a, nx) < Col(b, nx) || (Col(a, nx) == Col(b, nx) && Row(a, nx) < Row(b, nx))
  }

  /** `s` lists cells in strictly increasing column-major order (so each at most once). */
  predicate ColumnMajorSorted(s: seq<int>, nx: nat)
  {
    nx > 0 ==> forall i, j :: 0 <= i < j < |s| ==> ColumnMajorBefore(s[i], s[j], nx)
  }

  /**
    The rows that neckVsBody draws from: spawnA takes rows above
    floor(0.2 * ny), spawnB rows from floor(0.5 * ny) down.
   */
  function NeckEnd(ny: nat): nat { ny / 5 }
  function BodyStart(ny: nat): nat { ny / 2 }

  /**
    neckVsBody: spawnA is every active cell above row NeckEnd and spawnB every
    active cell from row BodyStart down, each in column-major order; no cell
    is in both.
   */
  ghost predicate NeckVsBodySpawns(mask: seq<bool>, nx: nat, ny: nat, spawnA: seq<int>, spawnB: seq<int>)
    requires |mask| == nx * ny
  {
    && (forall e :: e in spawnA ==> nx > 0 && Row(e, nx) < NeckEnd(ny))
    && (forall e :: e in spawnB ==> nx > 0 && Row(e, nx) >= BodyStart(ny))
    && (forall x, y :: Masked(mask, nx, ny, x, y) && y < NeckEnd(ny) ==> y * nx + x in spawnA)
    && (forall x, y :: Masked(mask, nx, ny, x, y) && y >= BodyStart(ny) ==> y * nx + x in spawnB)
    && ColumnMajorSorted(spawnA, nx) && ColumnMajorSorted(spawnB, nx)
    && (forall e :: e in spawnA ==> e !in spawnB)
  }

  /**
    neckVsBody: every active cell in the rows above NeckEnd goes to spawnA and
    every active cell from BodyStart down to spawnB, column by column, top to
    bottom within a column.
   */
  method SpawnNeckVsBody(mask: seq<bool>, nx: nat, ny: nat) returns (spawnA: seq<int>, spawnB: seq<int>)
    requires |mask| == nx * ny
    ensures AllActive(mask, nx, ny, spawnA) && AllActive(mask, nx, ny, spawnB)
    ensures NeckVsBodySpawns(mask, nx, ny, spawnA, spawnB)
  {
    var neckY := ny / 5;
    var bodyY := ny / 2;
    spawnA, spawnB := [], [];
    var x := 0;
    while x < nx
      invariant 0 <= x <= nx
      invariant ColumnBand(mask, nx, ny, 0, neckY, x, spawnA)
      invariant ColumnBand(mask, nx, ny, bodyY, ny, x, spawnB)
    {
      spawnA := AppendColumnBand(mask, nx, ny, x, 0, neckY, spawnA);
      spawnB := AppendColumnBand(mask, nx, ny, x, bodyY, ny, spawnB);
      x := x + 1;
    }
  }

  /**
    `s` lists, in column-major order, exactly the active cells whose row lies
    in [lo, hi) and which come before column x, row y in column-major order.
   */
  ghost predicate BandBefore(mask: seq<bool>, nx: nat, ny: nat, lo: int, hi: int, x: int, y: int, s: seq<int>)
    requires |mask| == nx * ny
  {
    && (forall e :: e in s ==>
          nx > 0 && InGrid(e, nx, ny) && mask[e] && lo <= Row(e, nx) < hi
          && (Col(e, nx) < x || (Col(e, nx) == x && Row(e, nx) < y)))
    && (forall x', y' :: lo <= y' < hi && Masked(mask, nx, ny, x', y') && (x' < x || (x' == x && y' < y)) ==> y' * nx + x' in s)
    && ColumnMajorSorted(s, nx)
  }

  /** The band of the columns left of `upto`. */
  ghost predicate ColumnBand(mask: seq<bool>, nx: nat, ny: nat, lo: int, hi: int, upto: int, s: seq<int>)
    requires |mask| == nx * ny
  {
    BandBefore(mask, nx, ny, lo, hi, upto, lo, s)
  }

  /** One step of the inner loop: the cell at column x, row y is appended when it is active. */
  lemma BandStep(mask: seq<bool>, nx: nat, ny: nat, lo: int, hi: int, x: int, y: int, s: seq<int>)
    requires |mask| == nx * ny && 0 <= x < nx && lo <= y < hi <= ny && 0 <= lo
    requires BandBefore(mask, nx, ny, lo, hi, x, y, s)
    ensures var s' := s + (if Masked(mask, nx, ny, x, y) then [y * nx + x] else []);
      BandBefore(mask, nx, ny, lo, hi, x, y + 1, s')
  {
    FlatIndex(x, y, nx, ny);
  }

  /** Having passed row hi of column x is the same as starting column x + 1. */
  lemma BandNextColumn(mask: seq<bool>, nx: nat, ny: nat, lo: int, hi: int, x: int, s: seq<int>)
    requires |mask| == nx * ny && 0 <= lo <= hi
    requires BandBefore(mask, nx, ny, lo, hi, x, hi, s)
    ensures ColumnBand(mask, nx, ny, lo, hi, x + 1, s)
  {
  }

  /**
    One inner loop of neckVsBody: append the active cells of column `x` in
    rows [lo, hi), top to bottom.
   */
  method AppendColumnBand(mask: seq<bool>, nx: nat, ny: nat, x: int, lo: nat, hi: nat, s: seq<int>) returns (s': seq<int>)
    requires |mask| == nx * ny && 0 <= x < nx && lo <= hi <= ny
    requires ColumnBand(mask, nx, ny, lo, hi, x, s)
    ensures ColumnBand(mask, nx, ny, lo, hi, x + 1, s')
  {
    s' := s;
    var y := lo;
    while y < hi
      invariant lo <= y <= hi
      invariant BandBefore(mask, nx, ny, lo, hi, x, y, s')
    {
      BandStep(mask, nx, ny, lo, hi, x, y, s');
      FlatIndex(x, y, nx, ny);
      if mask[y * nx + x] {
        s' := s' + [y * nx + x];
      }
      y := y + 1;
    }
    BandNextColumn(mask, nx, ny, lo, hi, x, s');
  }

  /**
    The flat index at offset (dx, dy) from the cluster centre, column
    floor(nx / 2) and row floor(0.6 * ny). Only the flat index is checked
    later, so an offset past the left or right edge names a cell of a
    neighbouring row.
   */
  function ClusterCell(nx: nat, ny: nat, dx: int, dy: int): int
  {
    (ny * 3 / 5 + dy) * nx + (nx / 2 + dx)
  }

  /** The first `n` cells of offset row `dy` of the block, left to right. */
  function RowCandidates(nx: nat, ny: nat, dy: int, n: nat): (c: seq<int>)
    requires n <= 5
    ensures |c| == n
  {
    if n == 0 then [] else RowCandidates(nx, ny, dy, n - 1) + [ClusterCell(nx, ny, n - 3, dy)]
  }

  /** The first `rows` offset rows of the 5 × 5 block, top to bottom. */
  function ClusterCandidates(nx: nat, ny: nat, rows: nat): (c: seq<int>)
    requires rows <= 5
    ensures |c| == 5 * rows
  {
    if rows == 0 then [] else ClusterCandidates(nx, ny, rows - 1) + RowCandidates(nx, ny, rows - 3, 5)
  }

  /** The candidates that are flat indices of the mask and active there, in order. */
  function ActiveOf(mask: seq<bool>, cands: seq<int>): seq<int>
  {
    if cands == [] then []
    else
      var c := cands[|cands| - 1];
      ActiveOf(mask, cands[..|cands| - 1]) + (if 0 <= c < |mask| && mask[c] then [c] else [])
  }

  /**
    The filter keeps exactly the candidates that index an active cell, so it
    is no longer than the candidates.
   */
  lemma {:induction false} ActiveOfSound(mask: seq<bool>, cands: seq<int>)
    ensures var r := ActiveOf(mask, cands);
      && |r| <= |cands|
      && (forall e :: e in r ==> e in cands && 0 <= e < |mask| && mask[e])
      && (forall e :: e in cands && 0 <= e < |mask| && mask[e] ==> e in r)
  {
    if cands != [] {
      var init := cands[..|cands| - 1];
      ActiveOfSound(mask, init);
      assert cands == init + [cands[|cands| - 1]];
    }
  }

  /** Filtering one more candidate appends it when it is active. */
  lemma ActiveOfSnoc(mask: seq<bool>, cands: seq<int>, c: int)
    ensures ActiveOf(mask, cands + [c]) == ActiveOf(mask, cands) + (if 0 <= c < |mask| && mask[c] then [c] else [])
  {
    assert (cands + [c])[..|cands|] == cands;
  }

  /**
    The cluster of frozenStart and liquidStart: the active cells among the
    25 candidates, in the order of the two nested offset loops.
   */
  method CenterCluster(mask: seq<bool>, nx: nat, ny: nat) returns (cluster: seq<int>)
    requires |mask| == nx * ny
    ensures cluster == ActiveOf(mask, ClusterCandidates(nx, ny, 5))
    ensures AllActive(mask, nx, ny, cluster)
  {
    cluster := [];
    var dy := -2;
    while dy <= 2
      invariant -2 <= dy <= 3
      invariant cluster == ActiveOf(mask, ClusterCandidates(nx, ny, dy + 2))
    {
      cluster := ClusterRow(mask, nx, ny, dy, ClusterCandidates(nx, ny, dy + 2), cluster);
      assert ClusterCandidates(nx, ny, dy + 2) + RowCandidates(nx, ny, dy, 5) == ClusterCandidates(nx, ny, dy + 3);
      dy := dy + 1;
    }
    assert dy + 2 == 5;
    ActiveOfSound(mask, ClusterCandidates(nx, ny, 5));
  }

  /** One offset row of the cluster block: appends its active cells, left to right. */
  method ClusterRow(mask: seq<bool>, nx: nat, ny: nat, dy: int, ghost done: seq<int>, before: seq<int>)
    returns (cluster: seq<int>)
    requires |mask| == nx * ny && before == ActiveOf(mask, done)
    ensures cluster == ActiveOf(mask, done + RowCandidates(nx, ny, dy, 5))
  {
    var cx := nx / 2;
    var cy := ny * 3 / 5;
    cluster := before;
    assert done + RowCandidates(nx, ny, dy, 0) == done;
    var dx := -2;
    while dx <= 2
      invariant -2 <= dx <= 3
      invariant cluster == ActiveOf(mask, done + RowCandidates(nx, ny, dy, dx + 2))
    {
      var idx := (cy + dy) * nx + (cx + dx);
      assert idx == ClusterCell(nx, ny, dx, dy);
      assert done + RowCandidates(nx, ny, dy, dx + 3) == (done + RowCandidates(nx, ny, dy, dx + 2)) + [idx];
      ActiveOfSnoc(mask, done + RowCandidates(nx, ny, dy, dx + 2), idx);
      if idx >= 0 && idx < nx * ny && mask[idx] {
        cluster := cluster + [idx];
      }
      dx := dx + 1;
    }
    assert dx + 2 == 5;
  }

  /** custom: the centre cell (floor(nx / 2), floor(ny / 2)) for both fronts, when it is active. */
  method CenterPoint(mask: seq<bool>, nx: nat, ny: nat) returns (spawnA: seq<int>, spawnB: seq<int>)
    requires |mask| == nx * ny
    ensures spawnA == spawnB && AllActive(mask, nx, ny, spawnA)
    ensures Masked(mask, nx, ny, nx / 2, ny / 2) ==> spawnA == [(ny / 2) * nx + nx / 2]
    ensures !Masked(mask, nx, ny, nx / 2, ny / 2) ==> spawnA == []
  {
    var cx := nx / 2;
    var cy := ny / 2;
    var idx := cy * nx + cx;
    if nx > 0 && ny > 0 {
      FlatIndex(cx, cy, nx, ny);
    }
    // An index past the end of the mask reads as undefined, which is not 1.
    if idx < |mask| && mask[idx] {
      spawnA, spawnB := [idx], [idx];
    } else {
      spawnA, spawnB := [], [];
    }
  }

  /** What getSpawnPoints returns: both spawn lists and the optional fill regime. */
  datatype SpawnPoints = SpawnPoints(spawnA: seq<int>, spawnB: seq<int>, fillRegime: Option<Regime>)

  /** The fill regime of a preset: A for frozenStart, B for liquidStart, none otherwise. */
  function FillOf(spawn: SpawnPreset): Option<Regime>
  {
    match spawn
    case FrozenStart => Some(A)
    case LiquidStart => Some(B)
    case _ => None
  }

  /** getSpawnPoints: dispatch on the preset. */
  method GetSpawnPoints(spawn: SpawnPreset, mask: seq<bool>, nx: nat, ny: nat) returns (r: SpawnPoints)
    requires |mask| == nx * ny
    ensures AllActive(mask, nx, ny, r.spawnA) && AllActive(mask, nx, ny, r.spawnB)
    ensures r.fillRegime == FillOf(spawn)
    ensures r.fillRegime == Some(A) ==> r.spawnA == []
    ensures r.fillRegime == Some(B) ==> r.spawnB == []
    ensures spawn.CapVsBase? ==> CapVsBaseSpawns(mask, nx, ny, r.spawnA, r.spawnB)
    ensures spawn.LeftVsRight? ==> LeftVsRightSpawns(mask, nx, ny, r.spawnA, r.spawnB)
    ensures spawn.NeckVsBody? ==> NeckVsBodySpawns(mask, nx, ny, r.spawnA, r.spawnB)
    ensures spawn.FrozenStart? ==> r.spawnB == ActiveOf(mask, ClusterCandidates(nx, ny, 5))
    ensures spawn.LiquidStart? ==> r.spawnA == ActiveOf(mask, ClusterCandidates(nx, ny, 5))
    ensures spawn.Custom? ==>
      && r.spawnA == r.spawnB
      && (Masked(mask, nx, ny, nx / 2, ny / 2) ==> r.spawnA == [(ny / 2) * nx + nx / 2])
      && (!Masked(mask, nx, ny, nx / 2, ny / 2) ==> r.spawnA == [])
  {
    match spawn {
      case CapVsBase =>
        var a, b := SpawnCapVsBase(mask, nx, ny);
        r := SpawnPoints(a, b, None);
      case LeftVsRight =>
        var a, b := SpawnLeftVsRight(mask, nx, ny);
        r := SpawnPoints(a, b, None);
      case NeckVsBody =>
        var a, b := SpawnNeckVsBody(mask, nx, ny);
        r := SpawnPoints(a, b, None);
      case FrozenStart =>
        var b := CenterCluster(mask, nx, ny);
        r := SpawnPoints([], b, Some(A));
      case LiquidStart =>
        var a := CenterCluster(mask, nx, ny);
        r := SpawnPoints(a, [], Some(B));
      case Custom =>
        var a, b := CenterPoint(mask, nx, ny);
        r := SpawnPoints(a, b, None);
    }
  }

  /** An active cell with an off-grid or inactive 4-neighbour. */
  predicate BoundaryCell(mask: seq<bool>, nx: nat, ny: nat, x: int, y: int)
    requires |mask| == nx * ny
  {
    Masked(mask, nx, ny, x, y)
    && (!Masked(mask, nx, ny, x, y - 1) || !Masked(mask, nx, ny, x, y + 1)
        || !Masked(mask, nx, ny, x - 1, y) || !Masked(mask, nx, ny, x + 1, y))
  }

  /** The flat index `c` is a boundary cell. */
  predicate BoundaryIndex(mask: seq<bool>, nx: nat, ny: nat, c: int)
    requires |mask| == nx * ny
  {
    nx > 0 && InGrid(c, nx, ny) && BoundaryCell(mask, nx, ny, Col(c, nx), Row(c, nx))
  }

  /** `s` lists exactly the boundary cells with flat index below `limit`, in increasing order. */
  ghost predicate BoundaryBefore(mask: seq<bool>, nx: nat, ny: nat, limit: int, s: seq<int>)
    requires |mask| == nx * ny
  {
    && (forall i, j :: 0 <= i < j < |s| ==> s[i] < s[j])
    && (forall e :: e in s ==> e < limit && BoundaryIndex(mask, nx, ny, e))
    && (forall c :: 0 <= c < limit && BoundaryIndex(mask, nx, ny, c) ==> c in s)
  }

  /** One cell of the scan: the cell is appended when it is a boundary cell. */
  lemma BoundaryStep(mask: seq<bool>, nx: nat, ny: nat, c: int, s: seq<int>)
    requires |mask| == nx * ny && 0 <= c
    requires BoundaryBefore(mask, nx, ny, c, s)
    ensures BoundaryBefore(mask, nx, ny, c + 1, s + (if BoundaryIndex(mask, nx, ny, c) then [c] else []))
  {
    if BoundaryIndex(mask, nx, ny, c) {
      var s' := s + [c];
      forall i, j | 0 <= i < j < |s'|
        ensures s'[i] < s'[j]
      {
        if j == |s| {
          assert s'[i] in s;
        }
      }
    }
  }

  /**
    getMaskBoundary: exactly the boundary cells, each once, in increasing
    flat-index order.
   */
  method MaskBoundary(mask: seq<bool>, nx: nat, ny: nat) returns (boundary: seq<int>)
    requires |mask| == nx * ny
    ensures forall i, j :: 0 <= i < j < |boundary| ==> boundary[i] < boundary[j]
    ensures forall e :: e in boundary ==> BoundaryIndex(mask, nx, ny, e)
    ensures forall c :: BoundaryIndex(mask, nx, ny, c) ==> c in boundary
  {
    boundary := [];
    var y := 0;
    while y < ny
      invariant 0 <= y <= ny
      invariant BoundaryBefore(mask, nx, ny, y * nx, boundary)
    {
      boundary := ScanRow(mask, nx, ny, y, boundary);
      MulSucc(y, nx);
      y := y + 1;
    }
    assert ny * nx == nx * ny;
  }

  /** One row of getMaskBoundary: appends the boundary cells of row `y`, left to right. */
  method ScanRow(mask: seq<bool>, nx: nat, ny: nat, y: int, before: seq<int>) returns (boundary: seq<int>)
    requires |mask| == nx * ny && 0 <= y < ny
    requires BoundaryBefore(mask, nx, ny, y * nx, before)
    ensures BoundaryBefore(mask, nx, ny, y * nx + nx, boundary)
  {
    boundary := before;
    var base := y * nx;
    var x := 0;
    while x < nx
      invariant 0 <= x <= nx
      invariant BoundaryBefore(mask, nx, ny, base + x, boundary)
    {
      var idx := base + x;
      FlatIndex(x, y, nx, ny);
      BoundaryStep(mask, nx, ny, idx, boundary);
      if mask[idx] {
        var isEdge := BoundaryTest(mask, nx, ny, x, y);
        if isEdge {
          boundary := boundary + [idx];
        }
      }
      x := x + 1;
    }
  }

  /**
    The inner scan of getMaskBoundary over the four neighbour indices (-1 for
    one off the grid): true as soon as one is off-grid or inactive.
   */
  method BoundaryTest(mask: seq<bool>, nx: nat, ny: nat, x: int, y: int) returns (isEdge: bool)
    requires |mask| == nx * ny && 0 <= x < nx && 0 <= y < ny
    ensures isEdge <==> !Masked(mask, nx, ny, x, y - 1) || !Masked(mask, nx, ny, x, y + 1)
                        || !Masked(mask, nx, ny, x - 1, y) || !Masked(mask, nx, ny, x + 1, y)
  {
    if y > 0 { FlatIndex(x, y - 1, nx, ny); }
    if y < ny - 1 { FlatIndex(x, y + 1, nx, ny); }
    if x > 0 { FlatIndex(x - 1, y, nx, ny); }
    if x < nx - 1 { FlatIndex(x + 1, y, nx, ny); }
    var neighbors := [
      if y > 0 then (y - 1) * nx + x else -1,
      if y < ny - 1 then (y + 1) * nx + x else -1,
      if x > 0 then y * nx + (x - 1) else -1,
      if x < nx - 1 then y * nx + (x + 1) else -1
    ];
    ghost var present := [Masked(mask, nx, ny, x, y - 1), Masked(mask, nx, ny, x, y + 1),
                          Masked(mask, nx, ny, x - 1, y), Masked(mask, nx, ny, x + 1, y)];
    assert forall k :: 0 <= k < 4 ==> (present[k] <==> neighbors[k] != -1 && mask[neighbors[k]]);
    var k := 0;
    while k < 4
      invariant 0 <= k <= 4
      invariant forall k' :: 0 <= k' < k ==> present[k']
    {
      var nIdx := neighbors[k];
      if nIdx == -1 || !mask[nIdx] {
        return true;
      }
      k := k + 1;
    }
    assert present[0] && present[1] && present[2] && present[3];
    return false;
  }
}
