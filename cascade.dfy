/**
  The lattice cascade engine of App.tsx (handleReset, handleIgnite and
  stepSimulation): a FIFO queue of coordinates; each step dequeues the head,
  negates that cell, and enqueues every toroidal neighbour that still holds the
  head's pre-flip value and passes a random draw, unless it is already queued.

  Math.random is an oracle: the k-th call returns `draws(k)`, and a step
  starting at cursor `pos` returns the cursor after the draws it made.
 */
module Cascade {
  import opened Basics
  import opened LatticeLogic

  /** Every draw of the oracle lies in [0, 1), as Math.random promises. */
  ghost predicate UnitDraws(draws: nat -> real)
  {
    forall k :: 0.0 <= draws(k) < 1.0
  }

  /** `a` is `b` with some elements left out, the rest kept in order. */
  ghost predicate SubseqOf<T>(a: seq<T>, b: seq<T>)
    decreases |b|
  {
    if a == [] then true
    else if b == [] then false
    else (a[0] == b[0] && SubseqOf(a[1..], b[1..])) || SubseqOf(a, b[1..])
  }

  /** `c` indexes a cell of `g`. */
  predicate CellIn(c: Coordinate, g: Grid)
  {
    0 <= c.row < |g| && 0 <= c.col < |g[c.row]|
  }

  function CellAt(g: Grid, c: Coordinate): CellState
    requires CellIn(c, g)
  {
    g[c.row][c.col]
  }

  /** The copied grid with the cell at `c` multiplied by -1. */
  function Flip(g: Grid, c: Coordinate): (r: Grid)
    requires CellIn(c, g)
    ensures |r| == |g| && forall i :: 0 <= i < |g| ==> |r[i]| == |g[i]|
    ensures CellAt(r, c) == Negate(CellAt(g, c))
    ensures forall i, j :: 0 <= i < |g| && 0 <= j < |g[i]| && (i != c.row || j != c.col) ==> r[i][j] == g[i][j]
  {
    g[c.row := g[c.row][c.col := Negate(g[c.row][c.col])]]
  }

  /** The neighbours pushed by one step, and the draw cursor afterwards. */
  datatype Admission = Admission(added: seq<Coordinate>, next: nat)

  /**
    The forEach over the neighbours `ns[j..]`: a neighbour that holds `oldVal`
    in `g` consumes one draw, and is pushed when the draw exceeds `kEff` and it
    is neither in `rest` (the remaining queue) nor in `seen` (pushed earlier in
    this step).
   */
  function Admit(ns: seq<Coordinate>, j: nat, g: Grid, oldVal: CellState, kEff: real,
                 rest: seq<Coordinate>, seen: seq<Coordinate>, draws: nat -> real, pos: nat): Admission
    requires j <= |ns|
    requires forall k :: 0 <= k < |ns| ==> CellIn(ns[k], g)
    decreases |ns| - j
  {
    if j == |ns| then Admission([], pos)
    else
      var n := ns[j];
      if CellAt(g, n) == oldVal then
        if draws(pos) > kEff && n !in rest && n !in seen then
          var a := Admit(ns, j + 1, g, oldVal, kEff, rest, seen + [n], draws, pos + 1);
          Admission([n] + a.added, a.next)
        else
          Admit(ns, j + 1, g, oldVal, kEff, rest, seen, draws, pos + 1)
      else
        Admit(ns, j + 1, g, oldVal, kEff, rest, seen, draws, pos)
  }

  /** How many of `ns[j..]` hold `oldVal` in `g`: the number of draws a step makes. */
  function Matching(ns: seq<Coordinate>, j: nat, g: Grid, oldVal: CellState): nat
    requires j <= |ns|
    requires forall k :: 0 <= k < |ns| ==> CellIn(ns[k], g)
    decreases |ns| - j
  {
    if j == |ns| then 0
    else (if CellAt(g, ns[j]) == oldVal then 1 else 0) + Matching(ns, j + 1, g, oldVal)
  }

  /**
    What a step may push: neighbours, in their order, that hold the pre-flip
    value and are not queued already, each once; and one draw per neighbour
    holding the pre-flip value.
   */
  lemma {:induction false} AdmitSound(ns: seq<Coordinate>, j: nat, g: Grid, oldVal: CellState, kEff: real,
                                      rest: seq<Coordinate>, seen: seq<Coordinate>, draws: nat -> real, pos: nat)
    requires j <= |ns|
    requires forall k :: 0 <= k < |ns| ==> CellIn(ns[k], g)
    ensures var a := Admit(ns, j, g, oldVal, kEff, rest, seen, draws, pos);
      && SubseqOf(a.added, ns[j..])
      && Distinct(a.added)
      && (forall x :: x in a.added ==> x in ns[j..] && CellIn(x, g) && CellAt(g, x) == oldVal && x !in rest && x !in seen)
      && |a.added| <= |ns| - j
      && a.next == pos + Matching(ns, j, g, oldVal)
    decreases |ns| - j
  {
    if j < |ns| {
      var n := ns[j];
      assert ns[j..][1..] == ns[j + 1..];
      if CellAt(g, n) == oldVal {
        if draws(pos) > kEff && n !in rest && n !in seen {
          AdmitSound(ns, j + 1, g, oldVal, kEff, rest, seen + [n], draws, pos + 1);
          var a := Admit(ns, j + 1, g, oldVal, kEff, rest, seen + [n], draws, pos + 1);
          PushFresh(n, a.added, ns[j..], g, oldVal, rest, seen);
        } else {
          AdmitSound(ns, j + 1, g, oldVal, kEff, rest, seen, draws, pos + 1);
        }
      } else {
        AdmitSound(ns, j + 1, g, oldVal, kEff, rest, seen, draws, pos);
      }
    }
  }

  /** Pushing a fresh neighbour in front of what the later neighbours pushed keeps `AdmitSound`'s facts. */
  lemma PushFresh(n: Coordinate, added: seq<Coordinate>, from: seq<Coordinate>, g: Grid, oldVal: CellState,
                  rest: seq<Coordinate>, seen: seq<Coordinate>)
    requires |from| > 0 && from[0] == n && CellIn(n, g) && CellAt(g, n) == oldVal && n !in rest && n !in seen
    requires SubseqOf(added, from[1..]) && Distinct(added)
    requires forall x :: x in added ==> x in from[1..] && CellIn(x, g) && CellAt(g, x) == oldVal && x !in rest && x !in seen + [n]
    ensures SubseqOf([n] + added, from) && Distinct([n] + added)
    ensures forall x :: x in [n] + added ==> x in from && CellIn(x, g) && CellAt(g, x) == oldVal && x !in rest && x !in seen
  {
    assert ([n] + added)[1..] == added;
    assert forall i :: 1 <= i < |[n] + added| ==> ([n] + added)[i] == added[i - 1];
  }

  /**
    The forEach loop of stepSimulation over the neighbours of the head: it
    builds newInQueue exactly as `Admit` describes and returns the draw cursor.
   */
  method PushNeighbors(ns: seq<Coordinate>, g: Grid, oldVal: CellState, kEff: real,
                       rest: seq<Coordinate>, draws: nat -> real, pos: nat)
    returns (newInQueue: seq<Coordinate>, next: nat)
    requires forall k :: 0 <= k < |ns| ==> CellIn(ns[k], g)
    ensures Admission(newInQueue, next) == Admit(ns, 0, g, oldVal, kEff, rest, [], draws, pos)
  {
    newInQueue := [];
    next := pos;
    var j := 0;
    while j < |ns|
      invariant 0 <= j <= |ns|
      invariant newInQueue + Admit(ns, j, g, oldVal, kEff, rest, newInQueue, draws, next).added
                == Admit(ns, 0, g, oldVal, kEff, rest, [], draws, pos).added
      invariant Admit(ns, j, g, oldVal, kEff, rest, newInQueue, draws, next).next
                == Admit(ns, 0, g, oldVal, kEff, rest, [], draws, pos).next
    {
      var n := ns[j];
      if CellAt(g, n) == oldVal {
        var r := draws(next);
        next := next + 1;
        if r > kEff && n !in rest && n !in newInQueue {
          ghost var a := Admit(ns, j + 1, g, oldVal, kEff, rest, newInQueue + [n], draws, next);
          assert newInQueue + [n] + a.added == newInQueue + ([n] + a.added);
          newInQueue := newInQueue + [n];
        }
      }
      j := j + 1;
    }
  }

  /** How many of `ns[j..k]` hold `oldVal` in `g`: the draws made before neighbour `k` is reached. */
  function MatchingBefore(ns: seq<Coordinate>, j: nat, k: nat, g: Grid, oldVal: CellState): nat
    requires j <= k <= |ns|
    requires forall i :: 0 <= i < |ns| ==> CellIn(ns[i], g)
    decreases k - j
  {
    if j == k then 0
    else (if CellAt(g, ns[j]) == oldVal then 1 else 0) + MatchingBefore(ns, j + 1, k, g, oldVal)
  }

  /**
    Neighbour `k` holds `oldVal` and its own draw, the one at the cursor
    reached after the matching neighbours before it, exceeds `kEff`.
   */
  predicate Passes(ns: seq<Coordinate>, j: nat, k: nat, g: Grid, oldVal: CellState, kEff: real,
                   draws: nat -> real, pos: nat)
    requires j <= k < |ns|
    requires forall i :: 0 <= i < |ns| ==> CellIn(ns[i], g)
  {
    CellAt(g, ns[k]) == oldVal && draws(pos + MatchingBefore(ns, j, k, g, oldVal)) > kEff
  }

  /** Every pushed neighbour is one whose own draw exceeded `kEff`. */
  lemma {:induction false} AdmitPassed(ns: seq<Coordinate>, j: nat, g: Grid, oldVal: CellState, kEff: real,
                                       rest: seq<Coordinate>, seen: seq<Coordinate>, draws: nat -> real, pos: nat)
    requires j <= |ns|
    requires forall k :: 0 <= k < |ns| ==> CellIn(ns[k], g)
    ensures forall x :: x in Admit(ns, j, g, oldVal, kEff, rest, seen, draws, pos).added ==>
      exists k :: j <= k < |ns| && ns[k] == x && Passes(ns, j, k, g, oldVal, kEff, draws, pos)
    decreases |ns| - j
  {
    if j < |ns| {
      var n := ns[j];
      var seen', pos' := seen, pos;
      if CellAt(g, n) == oldVal {
        pos' := pos + 1;
        if draws(pos) > kEff && n !in rest && n !in seen {
          seen' := seen + [n];
          assert MatchingBefore(ns, j, j, g, oldVal) == 0;
        }
      }
      AdmitPassed(ns, j + 1, g, oldVal, kEff, rest, seen', draws, pos');
      var a := Admit(ns, j + 1, g, oldVal, kEff, rest, seen', draws, pos');
      forall x | x in a.added
        ensures exists k :: j <= k < |ns| && ns[k] == x && Passes(ns, j, k, g, oldVal, kEff, draws, pos)
      {
        var k :| j + 1 <= k < |ns| && ns[k] == x && Passes(ns, j + 1, k, g, oldVal, kEff, draws, pos');
        PassesEarlier(ns, j, k, g, oldVal, kEff, draws, pos, pos');
      }
    }
  }

  /** A neighbour that passes counted from `j + 1` passes counted from `j`, with the cursor moved back by `ns[j]`'s draw. */
  lemma PassesEarlier(ns: seq<Coordinate>, j: nat, k: nat, g: Grid, oldVal: CellState, kEff: real,
                      draws: nat -> real, pos: nat, pos': nat)
    requires j < k < |ns|
    requires forall i :: 0 <= i < |ns| ==> CellIn(ns[i], g)
    requires pos' == if CellAt(g, ns[j]) == oldVal then pos + 1 else pos
    requires Passes(ns, j + 1, k, g, oldVal, kEff, draws, pos')
    ensures Passes(ns, j, k, g, oldVal, kEff, draws, pos)
  {
  }

  /**
    Every neighbour whose own draw exceeds `kEff` ends up queued: in the
    remaining queue, pushed earlier in this step, or pushed now.
   */
  lemma {:induction false} AdmitComplete(ns: seq<Coordinate>, j: nat, g: Grid, oldVal: CellState, kEff: real,
                                         rest: seq<Coordinate>, seen: seq<Coordinate>, draws: nat -> real, pos: nat)
    requires j <= |ns|
    requires forall k :: 0 <= k < |ns| ==> CellIn(ns[k], g)
    ensures forall k :: j <= k < |ns| && Passes(ns, j, k, g, oldVal, kEff, draws, pos) ==>
      ns[k] in rest || ns[k] in seen || ns[k] in Admit(ns, j, g, oldVal, kEff, rest, seen, draws, pos).added
    decreases |ns| - j
  {
    if j < |ns| {
      var n := ns[j];
      var pos' := if CellAt(g, n) == oldVal then pos + 1 else pos;
      var seen' := if CellAt(g, n) == oldVal && draws(pos) > kEff && n !in rest && n !in seen then seen + [n] else seen;
      AdmitComplete(ns, j + 1, g, oldVal, kEff, rest, seen', draws, pos');
      forall k | j + 1 <= k < |ns|
        ensures MatchingBefore(ns, j, k, g, oldVal) == pos' - pos + MatchingBefore(ns, j + 1, k, g, oldVal)
      {
      }
      assert MatchingBefore(ns, j, j, g, oldVal) == 0;
    }
  }

  /** Below the threshold (kEff < 0) every draw passes, so every neighbour holding the pre-flip value ends up queued. */
  lemma AdmitAllSupercritical(ns: seq<Coordinate>, j: nat, g: Grid, oldVal: CellState, kEff: real,
                              rest: seq<Coordinate>, seen: seq<Coordinate>, draws: nat -> real, pos: nat)
    requires j <= |ns|
    requires forall k :: 0 <= k < |ns| ==> CellIn(ns[k], g)
    requires kEff < 0.0 && UnitDraws(draws)
    ensures var a := Admit(ns, j, g, oldVal, kEff, rest, seen, draws, pos);
      forall k :: j <= k < |ns| && CellAt(g, ns[k]) == oldVal ==> ns[k] in rest || ns[k] in seen || ns[k] in a.added
  {
    AdmitComplete(ns, j, g, oldVal, kEff, rest, seen, draws, pos);
    forall k | j <= k < |ns| && CellAt(g, ns[k]) == oldVal
      ensures Passes(ns, j, k, g, oldVal, kEff, draws, pos)
    {
      assert draws(pos + MatchingBefore(ns, j, k, g, oldVal)) >= 0.0;
    }
  }

  /** At or above 1 (kEff >= 1) no draw passes and nothing is pushed. */
  lemma {:induction false} AdmitNoneSubcritical(ns: seq<Coordinate>, j: nat, g: Grid, oldVal: CellState, kEff: real,
                                                rest: seq<Coordinate>, seen: seq<Coordinate>, draws: nat -> real, pos: nat)
    requires j <= |ns|
    requires forall k :: 0 <= k < |ns| ==> CellIn(ns[k], g)
    requires kEff >= 1.0 && UnitDraws(draws)
    ensures Admit(ns, j, g, oldVal, kEff, rest, seen, draws, pos).added == []
    decreases |ns| - j
  {
    if j < |ns| {
      assert draws(pos) < 1.0;
      if CellAt(g, ns[j]) == oldVal {
        AdmitNoneSubcritical(ns, j + 1, g, oldVal, kEff, rest, seen, draws, pos + 1);
      } else {
        AdmitNoneSubcritical(ns, j + 1, g, oldVal, kEff, rest, seen, draws, pos);
      }
    }
  }

  /** The grid, queue and draw cursor after one non-empty step. */
  datatype Outcome = Outcome(grid: Grid, queue: seq<Coordinate>, next: nat)

  /** One step on a non-empty queue: flip the head, then push the admitted neighbours after the rest. */
  function Advance(g: Grid, q: seq<Coordinate>, size: nat, kEff: real, draws: nat -> real, pos: nat): Outcome
    requires size > 0 && IsSquare(g, size)
    requires q != [] && InRange(q[0], size)
  {
    var head := q[0];
    var flipped := Flip(g, head);
    NeighborsInRange(head, size);
    var a := Admit(Neighbors(head, size), 0, flipped, CellAt(g, head), kEff, q[1..], [], draws, pos);
    Outcome(flipped, q[1..] + a.added, a.next)
  }

  /** A step negates exactly the head cell and leaves every other cell as it was. */
  lemma AdvanceGrid(g: Grid, q: seq<Coordinate>, size: nat, kEff: real, draws: nat -> real, pos: nat)
    requires size > 0 && IsSquare(g, size)
    requires q != [] && InRange(q[0], size)
    ensures var o := Advance(g, q, size, kEff, draws, pos);
      && IsSquare(o.grid, size)
      && CellAt(o.grid, q[0]) == Negate(CellAt(g, q[0]))
      && (forall i, j :: 0 <= i < size && 0 <= j < size && Coordinate(i, j) != q[0] ==> o.grid[i][j] == g[i][j])
  {
  }

  /**
    The neighbours a step pushes are distinct, in Up/Down/Left/Right order, not
    the head itself, in range, not in the remaining queue, and held the head's
    pre-flip value; the step draws once per neighbour that held it.
   */
  lemma AdvanceAdded(g: Grid, q: seq<Coordinate>, size: nat, kEff: real, draws: nat -> real, pos: nat)
    requires size > 0 && IsSquare(g, size)
    requires q != [] && InRange(q[0], size)
    ensures var o := Advance(g, q, size, kEff, draws, pos);
      var head := q[0];
      var added := o.queue[|q| - 1..];
      && o.queue == q[1..] + added
      && SubseqOf(added, Neighbors(head, size))
      && Distinct(added)
      && |added| <= 4
      && (forall x :: x in added ==> InRange(x, size) && x != head && x !in q[1..] && CellAt(g, x) == CellAt(g, head))
      && o.next == pos + Matching(Neighbors(head, size), 0, o.grid, CellAt(g, head))
  {
    var head := q[0];
    var ns := Neighbors(head, size);
    NeighborsInOrder(head, size);
    var flipped := Flip(g, head);
    AdmitSound(ns, 0, flipped, CellAt(g, head), kEff, q[1..], [], draws, pos);
    var a := Admit(ns, 0, flipped, CellAt(g, head), kEff, q[1..], [], draws, pos);
    assert ns[0..] == ns;
    var o := Advance(g, q, size, kEff, draws, pos);
    assert o.queue == q[1..] + a.added;
    assert o.queue[|q| - 1..] == a.added;
    forall x | x in a.added
      ensures InRange(x, size) && x != head && CellAt(g, x) == CellAt(g, head)
    {
      assert x in ns;
      assert CellAt(flipped, x) == CellAt(g, head);
    }
  }

  /**
    Neighbour `k` of the head still holds the head's pre-flip value after the
    flip, and its own draw (one per matching neighbour before it, from `pos`)
    exceeds `kEff`.
   */
  predicate NeighborPasses(g: Grid, q: seq<Coordinate>, size: nat, kEff: real, draws: nat -> real, pos: nat, k: nat)
    requires size > 0 && IsSquare(g, size)
    requires q != [] && InRange(q[0], size)
    requires k < 4
  {
    NeighborsInRange(q[0], size);
    Passes(Neighbors(q[0], size), 0, k, Flip(g, q[0]), CellAt(g, q[0]), kEff, draws, pos)
  }

  /**
    The draw rule of a step, both ways: every newly queued cell is a neighbour
    that passed its own draw, and every neighbour that passed its draw is queued afterwards (it was
    already waiting in the queue or is pushed now).
   */
  lemma AdvanceDraws(g: Grid, q: seq<Coordinate>, size: nat, kEff: real, draws: nat -> real, pos: nat)
    requires size > 0 && IsSquare(g, size)
    requires q != [] && InRange(q[0], size)
    ensures forall x :: x in Advance(g, q, size, kEff, draws, pos).queue && x !in q[1..] ==>
      exists k :: 0 <= k < 4 && Neighbors(q[0], size)[k] == x && NeighborPasses(g, q, size, kEff, draws, pos, k)
    ensures forall k :: 0 <= k < 4 && NeighborPasses(g, q, size, kEff, draws, pos, k) ==>
      Neighbors(q[0], size)[k] in Advance(g, q, size, kEff, draws, pos).queue
  {
    var head := q[0];
    var ns := Neighbors(head, size);
    NeighborsInRange(head, size);
    var flipped := Flip(g, head);
    AdmitPassed(ns, 0, flipped, CellAt(g, head), kEff, q[1..], [], draws, pos);
    AdmitComplete(ns, 0, flipped, CellAt(g, head), kEff, q[1..], [], draws, pos);
    var a := Admit(ns, 0, flipped, CellAt(g, head), kEff, q[1..], [], draws, pos);
    var o := Advance(g, q, size, kEff, draws, pos);
    assert o.queue == q[1..] + a.added;
  }

  /**
    FIFO order and the queue invariant: the new queue starts with the old tail,
    stays in range and duplicate-free, and is at most 3 longer than before.
   */
  lemma AdvanceQueue(g: Grid, q: seq<Coordinate>, size: nat, kEff: real, draws: nat -> real, pos: nat)
    requires size > 0 && IsSquare(g, size)
    requires q != [] && forall i :: 0 <= i < |q| ==> InRange(q[i], size)
    requires Distinct(q)
    ensures var o := Advance(g, q, size, kEff, draws, pos);
      && |q| - 1 <= |o.queue| <= |q| + 3
      && o.queue[..|q| - 1] == q[1..]
      && (forall i :: 0 <= i < |o.queue| ==> InRange(o.queue[i], size))
      && Distinct(o.queue)
  {
    AdvanceAdded(g, q, size, kEff, draws, pos);
    var o := Advance(g, q, size, kEff, draws, pos);
    var rest, added := q[1..], o.queue[|q| - 1..];
    assert o.queue == rest + added;
    forall i, j | 0 <= i < j < |o.queue|
      ensures o.queue[i] != o.queue[j]
    {
      if j < |rest| {
        assert o.queue[i] == q[i + 1] && o.queue[j] == q[j + 1];
      } else if i >= |rest| {
        assert o.queue[i] == added[i - |rest|] && o.queue[j] == added[j - |rest|];
      } else {
        assert o.queue[i] in rest;
        assert o.queue[j] in added;
      }
    }
    forall i | 0 <= i < |o.queue|
      ensures InRange(o.queue[i], size)
    {
      if i >= |rest| {
        assert o.queue[i] in added;
      }
    }
  }

  /** With kEff < 0 every neighbour still holding the head's pre-flip value is queued after the step. */
  lemma AdvanceSupercritical(g: Grid, q: seq<Coordinate>, size: nat, kEff: real, draws: nat -> real, pos: nat)
    requires size > 0 && IsSquare(g, size)
    requires q != [] && InRange(q[0], size)
    requires kEff < 0.0 && UnitDraws(draws)
    ensures var o := Advance(g, q, size, kEff, draws, pos);
      forall n :: n in Neighbors(q[0], size) && CellAt(o.grid, n) == CellAt(g, q[0]) ==> n in o.queue
  {
    var head := q[0];
    var ns := Neighbors(head, size);
    NeighborsInOrder(head, size);
    var flipped := Flip(g, head);
    AdmitAllSupercritical(ns, 0, flipped, CellAt(g, head), kEff, q[1..], [], draws, pos);
  }

  /** With kEff >= 1 the step only removes the head from the queue. */
  lemma AdvanceSubcritical(g: Grid, q: seq<Coordinate>, size: nat, kEff: real, draws: nat -> real, pos: nat)
    requires size > 0 && IsSquare(g, size)
    requires q != [] && InRange(q[0], size)
    requires kEff >= 1.0 && UnitDraws(draws)
    ensures Advance(g, q, size, kEff, draws, pos).queue == q[1..]
  {
    var head := q[0];
    NeighborsInOrder(head, size);
    AdmitNoneSubcritical(Neighbors(head, size), 0, Flip(g, head), CellAt(g, head), kEff, q[1..], [], draws, pos);
  }

  /**
    The cell work of one non-empty stepSimulation call: dequeue the head, negate
    it in a copy of the grid, and append the admitted neighbours to the rest of
    the queue. The result is `Advance`'s, and the queue stays in range and
    duplicate-free.
   */
  method AdvanceCells(g: Grid, q: seq<Coordinate>, size: nat, kEff: real, draws: nat -> real, pos: nat)
    returns (newGrid: Grid, newQueue: seq<Coordinate>, next: nat)
    requires size > 0 && IsSquare(g, size)
    requires q != [] && forall i :: 0 <= i < |q| ==> InRange(q[i], size)
    requires Distinct(q)
    ensures Outcome(newGrid, newQueue, next) == Advance(g, q, size, kEff, draws, pos)
    ensures IsSquare(newGrid, size)
    ensures forall i :: 0 <= i < |newQueue| ==> InRange(newQueue[i], size)
    ensures Distinct(newQueue)
  {
    var current := q[0];
    var remaining := q[1..];
    newGrid := Flip(g, current);
    var oldVal := CellAt(g, current);
    NeighborsInRange(current, size);
    var newInQueue;
    newInQueue, next := PushNeighbors(Neighbors(current, size), newGrid, oldVal, kEff, remaining, draws, pos);
    newQueue := remaining + newInQueue;
    AdvanceQueue(g, q, size, kEff, draws, pos);
    AdvanceGrid(g, q, size, kEff, draws, pos);
  }

  /** The state App keeps in its refs and React state, for one lattice configuration. */
  class Engine {
    /** config.gridSize: the side of the lattice. */
    const gridSize: nat
    /** config.thresholdK and config.propagationBias, read at every step. */
    var thresholdK: real
    var propagationBias: real

    var grid: Grid
    var queue: seq<Coordinate>
    /** stats.steps, stats.coherence, stats.activeSeams */
    var steps: nat
    var coherence: real
    var activeSeams: nat
    var isRunning: bool
    var annihilated: bool

    ghost predicate Valid()
      reads this
    {
      && gridSize > 0
      && IsSquare(grid, gridSize)
      && (forall i :: 0 <= i < |queue| ==> InRange(queue[i], gridSize))
      && Distinct(queue)
      && coherence == Coherence(grid)
    }

    /** The effective threshold a draw has to exceed. */
    function KEff(): real
      reads this
    {
      thresholdK - propagationBias
    }

    /** The initial React state: an all-POSITIVE grid, an empty queue, zero stats. */
    constructor (gridSize: nat, thresholdK: real, propagationBias: real)
      requires gridSize > 0
      ensures Valid()
      ensures this.gridSize == gridSize && this.thresholdK == thresholdK && this.propagationBias == propagationBias
      ensures grid == CreateGrid(gridSize) && queue == []
      ensures steps == 0 && coherence == 1.0 && activeSeams == 0
      ensures !isRunning && !annihilated
    {
      this.gridSize := gridSize;
      this.thresholdK := thresholdK;
      this.propagationBias := propagationBias;
      grid := CreateGrid(gridSize);
      queue := [];
      steps, coherence, activeSeams := 0, 1.0, 0;
      isRunning, annihilated := false, false;
      CreatedGridCoherence(gridSize, Positive);
    }

    /** handleReset: a fresh all-POSITIVE grid, an empty queue, zero stats with coherence 1. */
    method Reset()
      requires Valid()
      modifies this
      ensures Valid()
      ensures thresholdK == old(thresholdK) && propagationBias == old(propagationBias)
      ensures grid == CreateGrid(gridSize) && queue == []
      ensures steps == 0 && coherence == 1.0 && activeSeams == 0
      ensures !isRunning && !annihilated
    {
      isRunning := false;
      annihilated := false;
      grid := CreateGrid(gridSize);
      queue := [];
      steps, coherence, activeSeams := 0, 1.0, 0;
      CreatedGridCoherence(gridSize, Positive);
    }

    /** handleIgnite: reset, then queue the centre cell (floor(gridSize / 2) on both axes) and run. */
    method Ignite()
      requires Valid()
      modifies this
      ensures Valid()
      ensures thresholdK == old(thresholdK) && propagationBias == old(propagationBias)
      ensures grid == CreateGrid(gridSize)
      ensures queue == [Coordinate(gridSize / 2, gridSize / 2)]
      ensures steps == 0 && coherence == 1.0 && activeSeams == 0
      ensures isRunning && !annihilated
    {
      Reset();
      var center := gridSize / 2;
      queue := [Coordinate(center, center)];
      isRunning := true;
    }

    /**
      stepSimulation. On an empty queue: stop, and mark the run annihilated if
      the grid is uniform (nothing else changes). Otherwise advance the cascade
      by one cell, count the step, recompute coherence and report the queue
      length as the active seams.
     */
    method Step(draws: nat -> real, pos: nat) returns (next: nat)
      requires Valid()
      modifies this
      ensures Valid()
      ensures thresholdK == old(thresholdK) && propagationBias == old(propagationBias)
      ensures old(queue) == [] ==>
        && grid == old(grid) && queue == [] && next == pos
        && !isRunning && annihilated == (old(annihilated) || CheckAnnihilation(grid))
        && steps == old(steps) && coherence == old(coherence) && activeSeams == old(activeSeams)
      ensures old(queue) != [] ==>
        var o := Advance(old(grid), old(queue), gridSize, old(KEff()), draws, pos);
        && grid == o.grid && queue == o.queue && next == o.next
        && steps == old(steps) + 1 && coherence == Coherence(grid) && activeSeams == |queue|
        && isRunning == old(isRunning) && annihilated == old(annihilated)
    {
      if |queue| == 0 {
        isRunning := false;
        if CheckAnnihilation(grid) {
          annihilated := true;
        }
        return pos;
      }
      next := Propagate(draws, pos);
    }

    /** The non-empty branch of stepSimulation: one cell of the cascade, and the stats. */
    method Propagate(draws: nat -> real, pos: nat) returns (next: nat)
      requires Valid() && queue != []
      modifies this
      ensures Valid()
      ensures thresholdK == old(thresholdK) && propagationBias == old(propagationBias)
      ensures var o := Advance(old(grid), old(queue), gridSize, old(KEff()), draws, pos);
        && grid == o.grid && queue == o.queue && next == o.next
        && steps == old(steps) + 1 && coherence == Coherence(grid) && activeSeams == |queue|
        && isRunning == old(isRunning) && annihilated == old(annihilated)
    {
      var g, q;
      g, q, next := AdvanceCells(grid, queue, gridSize, KEff(), draws, pos);
      grid := g;
      queue := q;
      steps := steps + 1;
      coherence := CalculateCoherence(g);
      activeSeams := |queue|;
    }
  }
}
