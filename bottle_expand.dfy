/**
  The front expansion of bottle-sim.ts (expandFront and the two repeated
  expansions of stepBottleSim), as functions over the cell buffers.

  One expandFront call snapshots the queue of one front, empties it, and
  visits every (frontier cell, masked neighbour) pair in order, left to right;
  each visit reads the buffers as the earlier visits of the same call left
  them. Randomness is an oracle: the k-th call of the generator returns
  `draws(k)`, and a sweep carries the cursor of the next call.
 */
module BottleExpand {
  import opened BottleTypes
  import opened BottleGrid
  import opened Basics

  /** The regime, strA and strB buffers, one entry per flat cell index. */
  datatype Cells = Cells(regime: seq<Regime>, strA: seq<real>, strB: seq<real>)

  predicate Sized(c: Cells, n: nat)
  {
    |c.regime| == n && |c.strA| == n && |c.strB| == n
  }

  /** The strength buffer of a front: strA for A, strB for B. */
  function Strength(c: Cells, front: Regime, i: int): real
    requires front != Unclaimed && Sized(c, |c.regime|) && 0 <= i < |c.regime|
  {
    if front == A then c.strA[i] else c.strB[i]
  }

  function SetStrength(c: Cells, front: Regime, i: int, v: real): (r: Cells)
    requires front != Unclaimed && Sized(c, |c.regime|) && 0 <= i < |c.regime|
    ensures Sized(r, |c.regime|) && r.regime == c.regime
  {
    if front == A then c.(strA := c.strA[i := v]) else c.(strB := c.strB[i := v])
  }

  /**
    Strength exclusivity: an A cell has no B strength, a B cell no A
    strength, an unclaimed cell neither.
   */
  predicate Exclusive(c: Cells)
    requires Sized(c, |c.regime|)
  {
    forall i :: 0 <= i < |c.regime| ==>
      && (c.regime[i] == A ==> c.strB[i] == 0.0)
      && (c.regime[i] == B ==> c.strA[i] == 0.0)
      && (c.regime[i] == Unclaimed ==> c.strA[i] == 0.0 && c.strB[i] == 0.0)
  }

  /** Inactive cells of the mask are unclaimed and hold no strength. */
  predicate Confined(c: Cells, mask: seq<bool>)
    requires Sized(c, |mask|)
  {
    forall i :: 0 <= i < |mask| && !mask[i] ==>
      c.regime[i] == Unclaimed && c.strA[i] == 0.0 && c.strB[i] == 0.0
  }

  /** The buffer invariant every bottle state keeps. */
  predicate Consistent(c: Cells, mask: seq<bool>)
  {
    Sized(c, |mask|) && Exclusive(c) && Confined(c, mask)
  }

  /** No claimed cell of `c` is unclaimed in `c'`. */
  predicate KeepsClaims(c: Cells, c': Cells)
  {
    |c'.regime| == |c.regime| &&
    forall i :: 0 <= i < |c.regime| && c.regime[i] != Unclaimed ==> c'.regime[i] != Unclaimed
  }

  /** `c` and `c'` agree at cell i. */
  predicate SameAt(c: Cells, c': Cells, i: int)
    requires Sized(c, |c.regime|) && Sized(c', |c.regime|) && 0 <= i < |c.regime|
  {
    c'.regime[i] == c.regime[i] && c'.strA[i] == c.strA[i] && c'.strB[i] == c.strB[i]
  }

  /** The buffers, the queue being refilled, and the cursor of the next draw. */
  datatype Sweep = Sweep(cells: Cells, queue: seq<int>, next: nat)

  /** A source strength scaled by a factor in [0.9, 1.1) from one draw, plus the bias times another. */
  function Propose(strength: real, d1: real, d2: real, bias: real): real
  {
    strength * (0.9 + d1 * 0.2) + bias * d2
  }

  /** The strength a front proposes for a neighbour of `src`, from the two draws at `pos`. */
  function Candidate(c: Cells, front: Regime, bias: real, src: int, draws: nat -> real, pos: nat): real
    requires front != Unclaimed && Sized(c, |c.regime|) && 0 <= src < |c.regime|
  {
    Propose(Strength(c, front, src), draws(pos), draws(pos + 1), bias)
  }

  /**
    One (frontier cell, neighbour) visit: draw the candidate strength; claim
    an unclaimed neighbour; take an opposing one only on a strictly greater
    candidate, zeroing its other strength; leave a same-regime one alone.
   */
  function Visit(s: Sweep, front: Regime, bias: real, src: int, n: int, draws: nat -> real): (r: Sweep)
    requires front != Unclaimed && Sized(s.cells, |s.cells.regime|)
    requires 0 <= src < |s.cells.regime| && 0 <= n < |s.cells.regime|
    ensures Sized(r.cells, |s.cells.regime|)
  {
    var c := s.cells;
    var newStr := Candidate(c, front, bias, src, draws, s.next);
    if c.regime[n] == Unclaimed then
      Sweep(SetStrength(c.(regime := c.regime[n := front]), front, n, newStr), s.queue + [n], s.next + 2)
    else if c.regime[n] != front && newStr > Strength(c, Opponent(front), n) then
      var claimed := SetStrength(c.(regime := c.regime[n := front]), front, n, newStr);
      Sweep(SetStrength(claimed, Opponent(front), n, 0.0), s.queue + [n], s.next + 2)
    else
      s.(next := s.next + 2)
  }

  /** The inner loop: visit the neighbours `ns[k..m]` of `src` in order. */
  function ScanNeighbors(s: Sweep, front: Regime, bias: real, src: int, ns: seq<int>, k: nat, m: nat,
                         draws: nat -> real): (r: Sweep)
    requires front != Unclaimed && Sized(s.cells, |s.cells.regime|) && 0 <= src < |s.cells.regime|
    requires k <= m <= |ns| && forall j :: 0 <= j < |ns| ==> 0 <= ns[j] < |s.cells.regime|
    ensures Sized(r.cells, |s.cells.regime|)
    decreases m - k
  {
    if k == m then s
    else ScanNeighbors(Visit(s, front, bias, src, ns[k], draws), front, bias, src, ns, k + 1, m, draws)
  }

  /** One pass of the outer loop: the frontier cell `src` against all its masked neighbours. */
  function ScanCell(s: Sweep, front: Regime, bias: real, src: int, nx: nat, ny: nat, mask: seq<bool>,
                    draws: nat -> real): (r: Sweep)
    requires front != Unclaimed && |mask| == nx * ny && Sized(s.cells, |mask|) && InGrid(src, nx, ny)
    ensures Sized(r.cells, |mask|)
  {
    var ns := MaskedNeighbors(src, nx, ny, mask);
    MaskedNeighborsActive(src, nx, ny, mask);
    ScanNeighbors(s, front, bias, src, ns, 0, |ns|, draws)
  }

  /** The outer loop: scan the frontier cells `frontier[i..n]` in order, each against all its neighbours. */
  function ScanFrontier(s: Sweep, front: Regime, bias: real, frontier: seq<int>, i: nat, n: nat,
                        nx: nat, ny: nat, mask: seq<bool>, draws: nat -> real): (r: Sweep)
    requires front != Unclaimed && |mask| == nx * ny && Sized(s.cells, |mask|)
    requires i <= n <= |frontier| && forall j :: 0 <= j < |frontier| ==> InGrid(frontier[j], nx, ny)
    ensures Sized(r.cells, |mask|)
    decreases n - i
  {
    if i == n then s
    else
      ScanFrontier(ScanCell(s, front, bias, frontier[i], nx, ny, mask, draws), front, bias, frontier, i + 1, n,
                   nx, ny, mask, draws)
  }

  /** expandFront: nothing on an empty queue, otherwise scan a snapshot into an emptied queue. */
  function ExpandFront(c: Cells, queue: seq<int>, front: Regime, bias: real,
                       nx: nat, ny: nat, mask: seq<bool>, draws: nat -> real, pos: nat): (r: Sweep)
    requires front != Unclaimed && |mask| == nx * ny && Sized(c, |mask|)
    requires forall j :: 0 <= j < |queue| ==> InGrid(queue[j], nx, ny)
    ensures Sized(r.cells, |mask|)
  {
    if |queue| == 0 then Sweep(c, queue, pos)
    else ScanFrontier(Sweep(c, [], pos), front, bias, queue, 0, |queue|, nx, ny, mask, draws)
  }

  /** Visiting the neighbours `ns[k..m + 1]` is visiting `ns[k..m]` and then `ns[m]`. */
  lemma {:induction false} ScanNeighborsSnoc(s: Sweep, front: Regime, bias: real, src: int, ns: seq<int>, k: nat, m: nat,
                                             draws: nat -> real)
    requires front != Unclaimed && Sized(s.cells, |s.cells.regime|) && 0 <= src < |s.cells.regime|
    requires k <= m < |ns| && forall j :: 0 <= j < |ns| ==> 0 <= ns[j] < |s.cells.regime|
    ensures ScanNeighbors(s, front, bias, src, ns, k, m + 1, draws)
         == Visit(ScanNeighbors(s, front, bias, src, ns, k, m, draws), front, bias, src, ns[m], draws)
    decreases m - k
  {
    if k < m {
      ScanNeighborsSnoc(Visit(s, front, bias, src, ns[k], draws), front, bias, src, ns, k + 1, m, draws);
    }
  }

  /** Scanning the frontier cells `frontier[i..n + 1]` is scanning `frontier[i..n]` and then `frontier[n]`. */
  lemma {:induction false} ScanFrontierSnoc(s: Sweep, front: Regime, bias: real, frontier: seq<int>, i: nat, n: nat,
                                            nx: nat, ny: nat, mask: seq<bool>, draws: nat -> real)
    requires front != Unclaimed && |mask| == nx * ny && Sized(s.cells, |mask|)
    requires i <= n < |frontier| && forall j :: 0 <= j < |frontier| ==> InGrid(frontier[j], nx, ny)
    ensures ScanFrontier(s, front, bias, frontier, i, n + 1, nx, ny, mask, draws)
         == ScanCell(ScanFrontier(s, front, bias, frontier, i, n, nx, ny, mask, draws), front, bias, frontier[n],
                     nx, ny, mask, draws)
    decreases n - i
  {
    if i < n {
      var t := ScanCell(s, front, bias, frontier[i], nx, ny, mask, draws);
      ScanFrontierSnoc(t, front, bias, frontier, i + 1, n, nx, ny, mask, draws);
    }
  }

  /** The queue being refilled: distinct active cells, each held by the front. */
  predicate QueueHolds(s: Sweep, front: Regime, mask: seq<bool>)
    requires Sized(s.cells, |mask|)
  {
    && (forall j :: 0 <= j < |s.queue| ==>
          0 <= s.queue[j] < |mask| && mask[s.queue[j]] && s.cells.regime[s.queue[j]] == front)
    && Distinct(s.queue)
  }

  /**
    The rule of one visit: an unclaimed neighbour is claimed with the
    candidate strength and queued; an opposing neighbour is taken, queued and
    its other strength zeroed exactly when the candidate is strictly greater
    (a tie keeps the incumbent); a neighbour the front already holds is left
    alone. Two draws are consumed whatever happens.
   */
  lemma VisitRule(s: Sweep, front: Regime, bias: real, src: int, n: int, draws: nat -> real)
    requires front != Unclaimed && Sized(s.cells, |s.cells.regime|)
    requires 0 <= src < |s.cells.regime| && 0 <= n < |s.cells.regime|
    ensures var r := Visit(s, front, bias, src, n, draws);
      var c := s.cells;
      var newStr := Candidate(c, front, bias, src, draws, s.next);
      && r.next == s.next + 2
      && (c.regime[n] == Unclaimed ==>
            r.cells.regime[n] == front && Strength(r.cells, front, n) == newStr
            && Strength(r.cells, Opponent(front), n) == Strength(c, Opponent(front), n)
            && r.queue == s.queue + [n])
      && (c.regime[n] == Opponent(front) ==>
            (r.cells.regime[n] == front <==> newStr > Strength(c, Opponent(front), n)))
      && (c.regime[n] == Opponent(front) && newStr > Strength(c, Opponent(front), n) ==>
            Strength(r.cells, front, n) == newStr && Strength(r.cells, Opponent(front), n) == 0.0
            && r.queue == s.queue + [n])
      && (c.regime[n] == Opponent(front) && newStr <= Strength(c, Opponent(front), n) ==>
            r.cells == c && r.queue == s.queue)
      && (c.regime[n] == front ==> r.cells == c && r.queue == s.queue)
      && (forall i :: 0 <= i < |c.regime| && i != n ==> SameAt(c, r.cells, i))
  {
  }

  /**
    A visit of an active neighbour keeps the buffers consistent, keeps every
    claim, and keeps the refilled queue distinct and held by the front.
   */
  lemma VisitKeeps(s: Sweep, front: Regime, bias: real, src: int, n: int, draws: nat -> real, mask: seq<bool>)
    requires front != Unclaimed && Consistent(s.cells, mask) && QueueHolds(s, front, mask)
    requires 0 <= src < |mask| && 0 <= n < |mask| && mask[n]
    ensures Grows(s, Visit(s, front, bias, src, n, draws), front, mask)
  {
    var r := Visit(s, front, bias, src, n, draws);
    VisitRule(s, front, bias, src, n, draws);
    if r.queue != s.queue {
      assert s.cells.regime[n] != front;
      assert n !in s.queue;
      forall i, j | 0 <= i < j < |r.queue|
        ensures r.queue[i] != r.queue[j]
      {
        if j == |s.queue| {
          assert r.queue[i] in s.queue;
        }
      }
    }
  }

  /** Claims kept twice are kept. */
  lemma KeepsClaimsTrans(c1: Cells, c2: Cells, c3: Cells)
    requires KeepsClaims(c1, c2) && KeepsClaims(c2, c3)
    ensures KeepsClaims(c1, c3)
  {
  }

  /**
    `r` extends `s`: consistent buffers, every claim of `s` kept, and a queue
    that only grew at its end and stays distinct and held by the front.
   */
  predicate Grows(s: Sweep, r: Sweep, front: Regime, mask: seq<bool>)
  {
    && Consistent(r.cells, mask) && KeepsClaims(s.cells, r.cells) && QueueHolds(r, front, mask)
    && |r.queue| >= |s.queue| && r.queue[..|s.queue|] == s.queue
  }

  lemma GrowsTrans(s: Sweep, t: Sweep, r: Sweep, front: Regime, mask: seq<bool>)
    requires Grows(s, t, front, mask) && Grows(t, r, front, mask)
    ensures Grows(s, r, front, mask)
  {
    KeepsClaimsTrans(s.cells, t.cells, r.cells);
    assert r.queue[..|s.queue|] == r.queue[..|t.queue|][..|s.queue|];
  }

  /**
    The inner loop keeps the buffers consistent and every claim, and only
    appends to the queue, which stays distinct and held by the front.
   */
  lemma {:induction false} ScanNeighborsKeeps(s: Sweep, front: Regime, bias: real, src: int, ns: seq<int>, k: nat, m: nat,
                                              draws: nat -> real, mask: seq<bool>)
    requires front != Unclaimed && Consistent(s.cells, mask) && QueueHolds(s, front, mask) && 0 <= src < |mask|
    requires k <= m <= |ns| && forall j :: 0 <= j < |ns| ==> 0 <= ns[j] < |mask| && mask[ns[j]]
    ensures Grows(s, ScanNeighbors(s, front, bias, src, ns, k, m, draws), front, mask)
    decreases m - k
  {
    if k < m {
      var v := Visit(s, front, bias, src, ns[k], draws);
      VisitKeeps(s, front, bias, src, ns[k], draws, mask);
      ScanNeighborsKeeps(v, front, bias, src, ns, k + 1, m, draws, mask);
      GrowsTrans(s, v, ScanNeighbors(v, front, bias, src, ns, k + 1, m, draws), front, mask);
    }
  }

  /** The inner loop consumes two draws per neighbour and changes no cell outside `ns[k..m]`. */
  lemma {:induction false} ScanNeighborsFrame(s: Sweep, front: Regime, bias: real, src: int, ns: seq<int>, k: nat, m: nat,
                                              draws: nat -> real)
    requires front != Unclaimed && Sized(s.cells, |s.cells.regime|) && 0 <= src < |s.cells.regime|
    requires k <= m <= |ns| && forall j :: 0 <= j < |ns| ==> 0 <= ns[j] < |s.cells.regime|
    ensures var r := ScanNeighbors(s, front, bias, src, ns, k, m, draws);
      && r.next == s.next + 2 * (m - k)
      && (forall i :: 0 <= i < |s.cells.regime| && i !in ns[k..m] ==> SameAt(s.cells, r.cells, i))
    decreases m - k
  {
    if k < m {
      var v := Visit(s, front, bias, src, ns[k], draws);
      VisitRule(s, front, bias, src, ns[k], draws);
      ScanNeighborsFrame(v, front, bias, src, ns, k + 1, m, draws);
      var r := ScanNeighbors(v, front, bias, src, ns, k + 1, m, draws);
      forall i | 0 <= i < |s.cells.regime| && i !in ns[k..m]
        ensures SameAt(s.cells, r.cells, i)
      {
        assert ns[k] in ns[k..m];
        assert i !in ns[k + 1..m] by {
          assert ns[k + 1..m] == ns[k..m][1..];
        }
      }
    }
  }

  /** How many (frontier cell, neighbour) pairs `frontier[i..n]` has. */
  function PairCount(frontier: seq<int>, i: nat, n: nat, nx: nat, ny: nat, mask: seq<bool>): nat
    requires |mask| == nx * ny && i <= n <= |frontier|
    requires forall j :: 0 <= j < |frontier| ==> InGrid(frontier[j], nx, ny)
    decreases n - i
  {
    if i == n then 0
    else |MaskedNeighbors(frontier[i], nx, ny, mask)| + PairCount(frontier, i + 1, n, nx, ny, mask)
  }

  /** Cell `c` is a masked neighbour of one of the frontier cells `frontier[i..n]`. */
  ghost predicate Reached(c: int, frontier: seq<int>, i: nat, n: nat, nx: nat, ny: nat, mask: seq<bool>)
    requires |mask| == nx * ny && n <= |frontier|
    requires forall j :: 0 <= j < |frontier| ==> InGrid(frontier[j], nx, ny)
  {
    exists j :: i <= j < n && c in MaskedNeighbors(frontier[j], nx, ny, mask)
  }

  /**
    The outer loop keeps the buffers consistent and every claim, and only
    appends to the queue, which stays distinct and held by the front.
   */
  lemma {:induction false} ScanFrontierKeeps(s: Sweep, front: Regime, bias: real, frontier: seq<int>, i: nat, n: nat,
                                             nx: nat, ny: nat, mask: seq<bool>, draws: nat -> real)
    requires front != Unclaimed && |mask| == nx * ny && Consistent(s.cells, mask) && QueueHolds(s, front, mask)
    requires i <= n <= |frontier| && forall j :: 0 <= j < |frontier| ==> InGrid(frontier[j], nx, ny)
    ensures Grows(s, ScanFrontier(s, front, bias, frontier, i, n, nx, ny, mask, draws), front, mask)
    decreases n - i
  {
    if i < n {
      var src := frontier[i];
      var ns := MaskedNeighbors(src, nx, ny, mask);
      MaskedNeighborsActive(src, nx, ny, mask);
      var t := ScanCell(s, front, bias, src, nx, ny, mask, draws);
      ScanNeighborsKeeps(s, front, bias, src, ns, 0, |ns|, draws, mask);
      ScanFrontierKeeps(t, front, bias, frontier, i + 1, n, nx, ny, mask, draws);
      GrowsTrans(s, t, ScanFrontier(t, front, bias, frontier, i + 1, n, nx, ny, mask, draws), front, mask);
    }
  }

  /**
    The outer loop consumes two draws per (frontier cell, neighbour) pair and
    changes only cells that neighbour one of the scanned frontier cells.
   */
  lemma {:induction false} ScanFrontierFrame(s: Sweep, front: Regime, bias: real, frontier: seq<int>, i: nat, n: nat,
                                             nx: nat, ny: nat, mask: seq<bool>, draws: nat -> real)
    requires front != Unclaimed && |mask| == nx * ny && Sized(s.cells, |mask|)
    requires i <= n <= |frontier| && forall j :: 0 <= j < |frontier| ==> InGrid(frontier[j], nx, ny)
    ensures var r := ScanFrontier(s, front, bias, frontier, i, n, nx, ny, mask, draws);
      && r.next == s.next + 2 * PairCount(frontier, i, n, nx, ny, mask)
      && (forall c :: 0 <= c < |mask| && !Reached(c, frontier, i, n, nx, ny, mask) ==> SameAt(s.cells, r.cells, c))
    decreases n - i
  {
    if i < n {
      var src := frontier[i];
      var ns := MaskedNeighbors(src, nx, ny, mask);
      MaskedNeighborsActive(src, nx, ny, mask);
      var t := ScanCell(s, front, bias, src, nx, ny, mask, draws);
      ScanNeighborsFrame(s, front, bias, src, ns, 0, |ns|, draws);
      ScanFrontierFrame(t, front, bias, frontier, i + 1, n, nx, ny, mask, draws);
      var r := ScanFrontier(t, front, bias, frontier, i + 1, n, nx, ny, mask, draws);
      forall c | 0 <= c < |mask| && !Reached(c, frontier, i, n, nx, ny, mask)
        ensures SameAt(s.cells, r.cells, c)
      {
        assert ns[0..|ns|] == ns;
        assert c !in ns;
        assert !Reached(c, frontier, i + 1, n, nx, ny, mask);
      }
    }
  }

  /**
    expandFront keeps the buffers consistent and every claim; afterwards the
    front's queue holds distinct active cells that all belong to the front;
    it consumes two draws per (frontier cell, neighbour) pair; and it changes
    only neighbours of the old frontier. On an empty queue it changes nothing.
   */
  lemma ExpandFrontKeeps(c: Cells, queue: seq<int>, front: Regime, bias: real,
                         nx: nat, ny: nat, mask: seq<bool>, draws: nat -> real, pos: nat)
    requires front != Unclaimed && |mask| == nx * ny && Consistent(c, mask)
    requires forall j :: 0 <= j < |queue| ==> InGrid(queue[j], nx, ny)
    ensures var r := ExpandFront(c, queue, front, bias, nx, ny, mask, draws, pos);
      && Consistent(r.cells, mask) && KeepsClaims(c, r.cells)
      && QueueHolds(r, front, mask)
      && r.next == pos + 2 * PairCount(queue, 0, |queue|, nx, ny, mask)
      && (forall i :: 0 <= i < |mask| && !Reached(i, queue, 0, |queue|, nx, ny, mask) ==> SameAt(c, r.cells, i))
      && (|queue| == 0 ==> r == Sweep(c, [], pos))
  {
    if |queue| > 0 {
      ScanFrontierKeeps(Sweep(c, [], pos), front, bias, queue, 0, |queue|, nx, ny, mask, draws);
      ScanFrontierFrame(Sweep(c, [], pos), front, bias, queue, 0, |queue|, nx, ny, mask, draws);
    }
  }

  /** What the state invariant needs of expandFront: consistent buffers and a queue of active cells. */
  lemma ExpandFrontSafe(c: Cells, queue: seq<int>, front: Regime, bias: real,
                        nx: nat, ny: nat, mask: seq<bool>, draws: nat -> real, pos: nat)
    requires front != Unclaimed && |mask| == nx * ny && Consistent(c, mask) && Queued(queue, mask)
    ensures var r := ExpandFront(c, queue, front, bias, nx, ny, mask, draws, pos);
      Consistent(r.cells, mask) && Queued(r.queue, mask)
  {
    ExpandFrontKeeps(c, queue, front, bias, nx, ny, mask, draws, pos);
  }

  /** The front expanded `times` times in a row, each from the queue the last one left. */
  function ExpandRepeat(s: Sweep, front: Regime, bias: real, times: nat,
                        nx: nat, ny: nat, mask: seq<bool>, draws: nat -> real): (r: Sweep)
    requires front != Unclaimed && |mask| == nx * ny && Consistent(s.cells, mask)
    requires forall j :: 0 <= j < |s.queue| ==> InGrid(s.queue[j], nx, ny)
    ensures Consistent(r.cells, mask)
    decreases times
  {
    if times == 0 then s
    else
      var e := ExpandFront(s.cells, s.queue, front, bias, nx, ny, mask, draws, s.next);
      ExpandFrontKeeps(s.cells, s.queue, front, bias, nx, ny, mask, draws, s.next);
      ExpandRepeat(e, front, bias, times - 1, nx, ny, mask, draws)
  }

  /** Expanding `k + 1` times is expanding `k` times and then once more. */
  lemma {:induction false} ExpandRepeatSnoc(s: Sweep, front: Regime, bias: real, k: nat,
                                            nx: nat, ny: nat, mask: seq<bool>, draws: nat -> real)
    requires front != Unclaimed && |mask| == nx * ny && Consistent(s.cells, mask) && Queued(s.queue, mask)
    requires Queued(ExpandRepeat(s, front, bias, k, nx, ny, mask, draws).queue, mask)
    ensures var r := ExpandRepeat(s, front, bias, k, nx, ny, mask, draws);
      ExpandRepeat(s, front, bias, k + 1, nx, ny, mask, draws)
      == ExpandFront(r.cells, r.queue, front, bias, nx, ny, mask, draws, r.next)
    decreases k
  {
    if k > 0 {
      var e := ExpandFront(s.cells, s.queue, front, bias, nx, ny, mask, draws, s.next);
      ExpandFrontKeeps(s.cells, s.queue, front, bias, nx, ny, mask, draws, s.next);
      ExpandRepeatSnoc(e, front, bias, k - 1, nx, ny, mask, draws);
    }
  }

  /** Expanding an empty front any number of times changes nothing and draws nothing. */
  lemma {:induction false} ExpandRepeatIdle(c: Cells, front: Regime, bias: real, times: nat,
                                            nx: nat, ny: nat, mask: seq<bool>, draws: nat -> real, pos: nat)
    requires front != Unclaimed && |mask| == nx * ny && Consistent(c, mask)
    ensures ExpandRepeat(Sweep(c, [], pos), front, bias, times, nx, ny, mask, draws) == Sweep(c, [], pos)
    decreases times
  {
    if times > 0 {
      ExpandRepeatIdle(c, front, bias, times - 1, nx, ny, mask, draws, pos);
    }
  }

  /** Repeated expansion keeps the buffers consistent and every claim. */
  lemma {:induction false} ExpandRepeatKeeps(s: Sweep, front: Regime, bias: real, times: nat,
                                             nx: nat, ny: nat, mask: seq<bool>, draws: nat -> real)
    requires front != Unclaimed && |mask| == nx * ny && Consistent(s.cells, mask)
    requires forall j :: 0 <= j < |s.queue| ==> InGrid(s.queue[j], nx, ny)
    ensures var r := ExpandRepeat(s, front, bias, times, nx, ny, mask, draws);
      KeepsClaims(s.cells, r.cells) && (times > 0 ==> QueueHolds(r, front, mask))
    decreases times
  {
    if times > 0 {
      var e := ExpandFront(s.cells, s.queue, front, bias, nx, ny, mask, draws, s.next);
      ExpandFrontKeeps(s.cells, s.queue, front, bias, nx, ny, mask, draws, s.next);
      var r := ExpandRepeat(e, front, bias, times - 1, nx, ny, mask, draws);
      assert ExpandRepeat(s, front, bias, times, nx, ny, mask, draws) == r;
      if times == 1 {
        assert r == e;
      } else {
        ExpandRepeatKeeps(e, front, bias, times - 1, nx, ny, mask, draws);
        KeepsClaimsTrans(s.cells, e.cells, r.cells);
      }
    }
  }

  /** Queue entries are active cells of the bottle. */
  predicate Queued(q: seq<int>, mask: seq<bool>)
  {
    forall j :: 0 <= j < |q| ==> 0 <= q[j] < |mask| && mask[q[j]]
  }

  /** The buffers, both queues and the draw cursor after the expansions of one step. */
  datatype Round = Round(cells: Cells, queueA: seq<int>, queueB: seq<int>, next: nat)

  /** The expansions of one stepBottleSim call: A `speedA` times, then B `speedB` times. */
  function Advance(c: Cells, queueA: seq<int>, queueB: seq<int>, p: BottleParams,
                   mask: seq<bool>, draws: nat -> real, pos: nat): Round
    requires |mask| == p.nx * p.ny && Consistent(c, mask) && Queued(queueA, mask) && Queued(queueB, mask)
  {
    var a := ExpandRepeat(Sweep(c, queueA, pos), A, p.biasA, p.speedA, p.nx, p.ny, mask, draws);
    var b := ExpandRepeat(Sweep(a.cells, queueB, a.next), B, p.biasB, p.speedB, p.nx, p.ny, mask, draws);
    Round(b.cells, a.queue, b.queue, b.next)
  }

  /** Repeated expansion from a queue of active cells leaves a queue of active cells. */
  lemma {:induction false} ExpandRepeatQueued(s: Sweep, front: Regime, bias: real, times: nat,
                                              nx: nat, ny: nat, mask: seq<bool>, draws: nat -> real)
    requires front != Unclaimed && |mask| == nx * ny && Consistent(s.cells, mask) && Queued(s.queue, mask)
    ensures Queued(ExpandRepeat(s, front, bias, times, nx, ny, mask, draws).queue, mask)
    decreases times
  {
    if times > 0 {
      var e := ExpandFront(s.cells, s.queue, front, bias, nx, ny, mask, draws, s.next);
      ExpandFrontKeeps(s.cells, s.queue, front, bias, nx, ny, mask, draws, s.next);
      ExpandRepeatQueued(e, front, bias, times - 1, nx, ny, mask, draws);
    }
  }

  /**
    One step's expansions keep the buffers consistent, never release a
    claimed cell, and leave both queues holding active cells.
   */
  lemma AdvanceKeeps(c: Cells, queueA: seq<int>, queueB: seq<int>, p: BottleParams,
                     mask: seq<bool>, draws: nat -> real, pos: nat)
    requires |mask| == p.nx * p.ny && Consistent(c, mask) && Queued(queueA, mask) && Queued(queueB, mask)
    ensures var r := Advance(c, queueA, queueB, p, mask, draws, pos);
      Consistent(r.cells, mask) && KeepsClaims(c, r.cells) && Queued(r.queueA, mask) && Queued(r.queueB, mask)
  {
    var a := ExpandRepeat(Sweep(c, queueA, pos), A, p.biasA, p.speedA, p.nx, p.ny, mask, draws);
    ExpandRepeatKeeps(Sweep(c, queueA, pos), A, p.biasA, p.speedA, p.nx, p.ny, mask, draws);
    ExpandRepeatQueued(Sweep(c, queueA, pos), A, p.biasA, p.speedA, p.nx, p.ny, mask, draws);
    var b := ExpandRepeat(Sweep(a.cells, queueB, a.next), B, p.biasB, p.speedB, p.nx, p.ny, mask, draws);
    ExpandRepeatKeeps(Sweep(a.cells, queueB, a.next), B, p.biasB, p.speedB, p.nx, p.ny, mask, draws);
    ExpandRepeatQueued(Sweep(a.cells, queueB, a.next), B, p.biasB, p.speedB, p.nx, p.ny, mask, draws);
    KeepsClaimsTrans(c, a.cells, b.cells);
  }

  /**
    isSimulationComplete means what it promises: with both queues empty a
    step changes no cell, leaves both queues empty and draws nothing.
   */
  lemma CompleteIsStable(c: Cells, p: BottleParams, mask: seq<bool>, draws: nat -> real, pos: nat)
    requires |mask| == p.nx * p.ny && Consistent(c, mask)
    ensures Advance(c, [], [], p, mask, draws, pos) == Round(c, [], [], pos)
  {
    ExpandRepeatIdle(c, A, p.biasA, p.speedA, p.nx, p.ny, mask, draws, pos);
    ExpandRepeatIdle(c, B, p.biasB, p.speedB, p.nx, p.ny, mask, draws, pos);
  }
}
