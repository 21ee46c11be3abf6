/**
  The bottle state of bottle-sim.ts as an object whose buffers are updated in
  place: initBottleState, expandFront, computeConsensus,
  applyHysteresisSwitch, stepBottleSim, isSimulationComplete and
  getWinnerName. Every method is proved against the functions of
  BottleInit, BottleExpand and BottleConsensus; the generator passed to a
  step is a Mulberry32 object whose draws are the oracle those functions read.
 */
module BottleSim {
  import opened BottleTypes
  import opened BottleGrid
  import opened BottleMask
  import opened BottleExpand
  import opened BottleConsensus
  import opened BottleInit
  import opened Basics
  import opened Mulberry

  /** The bias of a front: biasA for A, biasB for B. */
  function Bias(p: BottleParams, front: Regime): real
  {
    if front == A then p.biasA else p.biasB
  }

  /** The active-cell count of initBottleState. */
  method CountActive(mask: seq<bool>) returns (activeCells: nat)
    ensures activeCells == CountMasked(mask, |mask|)
  {
    activeCells := 0;
    var i := 0;
    while i < |mask|
      invariant 0 <= i <= |mask| && activeCells == CountMasked(mask, i)
    {
      if mask[i] {
        activeCells := activeCells + 1;
      }
      i := i + 1;
    }
  }

  /** Array.prototype.indexOf: the first position of x in q, or -1. */
  method IndexOf(q: seq<int>, x: int) returns (i: int)
    ensures -1 <= i < |q|
    ensures i == -1 <==> x !in q
    ensures i >= 0 ==> q[i] == x && x !in q[..i]
  {
    i := 0;
    while i < |q|
      invariant 0 <= i <= |q| && x !in q[..i]
    {
      if q[i] == x {
        return;
      }
      assert q[..i + 1] == q[..i] + [q[i]];
      i := i + 1;
    }
    assert q[..i] == q;
    i := -1;
  }

  /**
    initBottleState: count the active cells and pick the spawn points of the
    preset on the mask, seed the buffers and queues with a generator created
    from `p.seed`, and compute the initial fractions.
   */
  method InitBottleState(p: BottleParams, mask: seq<bool>) returns (s: BottleState)
    requires |mask| == p.nx * p.ny
    ensures fresh(s) && fresh(s.regime) && fresh(s.strA) && fresh(s.strB)
    ensures s.Valid() && s.Settled() && s.mask == mask && s.step == 0 && s.switchFrame == -1
    ensures s.global == (if FillOf(p.spawn).Some? then FillOf(p.spawn).value else Unclaimed)
    ensures AllActive(mask, p.nx, p.ny, s.spawnA) && AllActive(mask, p.nx, p.ny, s.spawnB)
    ensures p.spawn.CapVsBase? ==> CapVsBaseSpawns(mask, p.nx, p.ny, s.spawnA, s.spawnB)
    ensures p.spawn.LeftVsRight? ==> LeftVsRightSpawns(mask, p.nx, p.ny, s.spawnA, s.spawnB)
    ensures p.spawn.NeckVsBody? ==> NeckVsBodySpawns(mask, p.nx, p.ny, s.spawnA, s.spawnB)
    ensures p.spawn.FrozenStart? ==> s.spawnA == [] && s.spawnB == ActiveOf(mask, ClusterCandidates(p.nx, p.ny, 5))
    ensures p.spawn.LiquidStart? ==> s.spawnB == [] && s.spawnA == ActiveOf(mask, ClusterCandidates(p.nx, p.ny, 5))
    ensures p.spawn.Custom? ==>
      && s.spawnA == s.spawnB
      && (Masked(mask, p.nx, p.ny, p.nx / 2, p.ny / 2) ==> s.spawnA == [(p.ny / 2) * p.nx + p.nx / 2])
      && (!Masked(mask, p.nx, p.ny, p.nx / 2, p.ny / 2) ==> s.spawnA == [])
    ensures var r := Initial(mask, FillOf(p.spawn), s.spawnA, s.spawnB, p.biasA, p.biasB, Draws(p.seed));
      s.Snapshot() == r.cells && s.queueA == r.queueA && s.queueB == r.queueB
  {
    var points := GetSpawnPoints(p.spawn, mask, p.nx, p.ny);
    s := new BottleState.Init(mask, points.fillRegime, points.spawnA, points.spawnB);
    var rng := new Mulberry32(p.seed);
    s.Build(points.fillRegime, points.spawnA, points.spawnB, p.biasA, p.biasB, rng);
    s.ComputeConsensus();
  }

  class BottleState {
    /** The Int8Array regime and the Float32Array strA and strB, one entry per cell. */
    const regime: array<Regime>
    const strA: array<real>
    const strB: array<real>
    /** The bottle mask (1 = inside the bottle). */
    const mask: seq<bool>
    /** The number of active cells of the mask. */
    const activeCells: nat
    /** The spawn points this state was seeded from. */
    ghost const spawnA: seq<int>
    ghost const spawnB: seq<int>
    var fracA: Ratio
    var fracB: Ratio
    var global: Regime
    var queueA: seq<int>
    var queueB: seq<int>
    var step: nat
    var switchFrame: int

    /** The three buffers as values. */
    function Snapshot(): Cells
      reads regime, strA, strB
    {
      Cells(regime[..], strA[..], strB[..])
    }

    /** The queue of a front. */
    function Queue(front: Regime): seq<int>
      reads this
    {
      if front == A then queueA else queueB
    }

    /** One entry per cell in each buffer, and two distinct strength buffers. */
    predicate Shaped()
    {
      regime.Length == |mask| && strA.Length == |mask| && strB.Length == |mask| && strA != strB
    }

    ghost predicate Valid()
      reads this, regime, strA, strB
    {
      && Shaped()
      && Consistent(Snapshot(), mask)
      && activeCells == CountMasked(mask, |mask|)
      && Queued(queueA, mask) && Queued(queueB, mask)
      && (switchFrame == -1 || 0 <= switchFrame <= step)
    }

    /** fracA and fracB are the claimed fractions of the current buffers. */
    ghost predicate Settled()
      requires Valid()
      reads this, regime, strA, strB
    {
      && fracA == Fraction(CountRegime(regime[..], mask, A, |mask|), activeCells)
      && fracB == Fraction(CountRegime(regime[..], mask, B, |mask|), activeCells)
    }

    /** The state built so far by initBottleState, and the draws made. */
    ghost function Built(rng: Mulberry32): Seeding
      reads this, regime, strA, strB, rng
    {
      Seeding(Snapshot(), queueA, queueB, rng.calls)
    }

    /**
      The state initBottleState starts from: the active-cell count, blank
      buffers (every cell unclaimed, both strengths 0), empty queues, NaN
      fractions, and the global regime at the fill regime, or unclaimed.
     */
    constructor Init(mask: seq<bool>, fill: Option<Regime>, spawnA: seq<int>, spawnB: seq<int>)
      ensures Shaped() && fresh(regime) && fresh(strA) && fresh(strB)
      ensures Snapshot() == Blank(|mask|) && queueA == [] && queueB == []
      ensures this.mask == mask && this.spawnA == spawnA && this.spawnB == spawnB
      ensures activeCells == CountMasked(mask, |mask|)
      ensures step == 0 && switchFrame == -1
      ensures global == (if fill.Some? then fill.value else Unclaimed)
    {
      var totalCells := |mask|;
      var active := CountActive(mask);
      this.mask := mask;
      activeCells := active;
      regime := new Regime[totalCells](_ => Unclaimed);
      strA := new real[totalCells](_ => 0.0);
      strB := new real[totalCells](_ => 0.0);
      this.spawnA, this.spawnB := spawnA, spawnB;
      queueA, queueB := [], [];
      fracA, fracB := NotANumber, NotANumber;
      global := if fill.Some? then fill.value else Unclaimed;
      step, switchFrame := 0, -1;
      new;
      assert Snapshot() == Blank(|mask|);
    }

    /**
      The buffers and queues of initBottleState, built on blank buffers: what
      `Initial` says, and the invariant of the state.
     */
    method Build(fill: Option<Regime>, spawnA: seq<int>, spawnB: seq<int>, biasA: real, biasB: real, rng: Mulberry32)
      requires Shaped() && Snapshot() == Blank(|mask|) && queueA == [] && queueB == []
      requires activeCells == CountMasked(mask, |mask|) && switchFrame == -1
      requires fill != Some(Unclaimed) && ActiveSpawns(spawnA, mask) && ActiveSpawns(spawnB, mask)
      requires fill == Some(A) ==> spawnA == []
      requires rng.Valid() && rng.calls == 0
      modifies this`queueA, this`queueB, regime, strA, strB, rng
      ensures Valid()
      ensures var r := Initial(mask, fill, spawnA, spawnB, biasA, biasB, rng.draws);
        Snapshot() == r.cells && queueA == r.queueA && queueB == r.queueB
      ensures Holds(queueA, Snapshot(), A, mask) && Holds(queueB, Snapshot(), B, mask)
      ensures fill == None ==> Distinct(queueA) && Distinct(queueB)
      ensures fill.Some? ==> forall j :: 0 <= j < |mask| && mask[j] ==> regime[j] != Unclaimed
    {
      Seed(fill, spawnA, spawnB, biasA, biasB, rng);
      InitialFacts(mask, fill, spawnA, spawnB, biasA, biasB, rng.draws);
      HoldsQueued(queueA, Snapshot(), A, mask);
      HoldsQueued(queueB, Snapshot(), B, mask);
    }

    /**
      The buffer-building part of initBottleState, from blank buffers and
      empty queues, with a generator nothing has been drawn from yet: the
      pre-fill when there is a fill regime, then the A and the B spawn points.
     */
    method Seed(fill: Option<Regime>, spawnA: seq<int>, spawnB: seq<int>, biasA: real, biasB: real, rng: Mulberry32)
      requires Shaped() && fill != Some(Unclaimed) && Spawns(spawnA, |mask|) && Spawns(spawnB, |mask|)
      requires Snapshot() == Blank(|mask|) && queueA == [] && queueB == []
      requires rng.Valid() && rng.calls == 0
      modifies this`queueA, this`queueB, regime, strA, strB, rng
      ensures Shaped()
      ensures var r := Initial(mask, fill, spawnA, spawnB, biasA, biasB, rng.draws);
        Snapshot() == r.cells && queueA == r.queueA && queueB == r.queueB
    {
      assert Built(rng) == Seeding(Blank(|mask|), [], [], 0);
      if fill.Some? {
        FillBottle(fill.value, rng);
      }
      SeedFrontA(spawnA, fill, biasA, rng);
      SeedFrontB(spawnB, fill, biasB, rng);
    }

    /** The pre-fill loop of initBottleState, as `FillFrom` says. */
    method FillBottle(fill: Regime, rng: Mulberry32)
      requires Shaped() && fill != Unclaimed && rng.Valid()
      modifies regime, strA, strB, rng
      ensures rng.Valid()
      ensures Built(rng) == FillFrom(old(Built(rng)), fill, mask, rng.draws, 0)
    {
      ghost var draws := rng.draws;
      ghost var goal := FillFrom(Built(rng), fill, mask, draws, 0);
      var i := 0;
      while i < |mask|
        invariant 0 <= i <= |mask| && rng.Valid()
        invariant FillFrom(Built(rng), fill, mask, draws, i) == goal
      {
        if mask[i] {
          FillCell(fill, i, rng);
        }
        i := i + 1;
      }
    }

    /** One cell of the pre-fill loop, as `FillOne` says. */
    method FillCell(fill: Regime, i: int, rng: Mulberry32)
      requires Shaped() && fill != Unclaimed && rng.Valid() && 0 <= i < |mask|
      modifies regime, strA, strB, rng
      ensures rng.Valid()
      ensures Built(rng) == FillOne(old(Built(rng)), fill, i, rng.draws)
    {
      regime[i] := fill;
      var d := rng.Next();
      if fill == A {
        strA[i] := 0.8 + d * 0.2;
      } else {
        strB[i] := 0.8 + d * 0.2;
      }
    }

    /** The A seeding loop of initBottleState, as `SeedA` says. */
    method SeedFrontA(spawn: seq<int>, fill: Option<Regime>, biasA: real, rng: Mulberry32)
      requires Shaped() && Spawns(spawn, |mask|) && rng.Valid()
      modifies this`queueA, this`queueB, regime, strA, strB, rng
      ensures Shaped() && rng.Valid()
      ensures Built(rng) == SeedA(old(Built(rng)), spawn, 0, fill, biasA, rng.draws)
    {
      ghost var draws := rng.draws;
      ghost var goal := SeedA(Built(rng), spawn, 0, fill, biasA, draws);
      var k := 0;
      while k < |spawn|
        invariant 0 <= k <= |spawn| && Shaped() && rng.Valid()
        invariant SeedA(Built(rng), spawn, k, fill, biasA, draws) == goal
      {
        assert spawn[k] in spawn;
        SeedCellA(spawn[k], fill, biasA, rng);
        k := k + 1;
      }
    }

    /** One iteration of the A seeding loop, as `SeedOneA` says. */
    method SeedCellA(idx: int, fill: Option<Regime>, biasA: real, rng: Mulberry32)
      requires Shaped() && 0 <= idx < |mask| && rng.Valid()
      modifies this`queueA, this`queueB, regime, strA, strB, rng
      ensures Shaped() && rng.Valid()
      ensures Built(rng) == SeedOneA(old(Built(rng)), idx, fill, biasA, rng.draws)
    {
      if regime[idx] == Unclaimed || fill == Some(B) {
        regime[idx] := A;
        var d := rng.Next();
        strA[idx] := 1.0 + biasA + d * 0.1;
        strB[idx] := 0.0;
        queueA := queueA + [idx];
      }
    }

    /** The B seeding loop of initBottleState, with its spawn conflict rule, as `SeedB` says. */
    method SeedFrontB(spawn: seq<int>, fill: Option<Regime>, biasB: real, rng: Mulberry32)
      requires Shaped() && Spawns(spawn, |mask|) && rng.Valid()
      modifies this`queueA, this`queueB, regime, strA, strB, rng
      ensures Shaped() && rng.Valid()
      ensures Built(rng) == SeedB(old(Built(rng)), spawn, 0, fill, biasB, rng.draws)
    {
      ghost var draws := rng.draws;
      ghost var goal := SeedB(Built(rng), spawn, 0, fill, biasB, draws);
      var k := 0;
      while k < |spawn|
        invariant 0 <= k <= |spawn| && Shaped() && rng.Valid()
        invariant SeedB(Built(rng), spawn, k, fill, biasB, draws) == goal
      {
        assert spawn[k] in spawn;
        SeedCellB(spawn[k], fill, biasB, rng);
        k := k + 1;
      }
    }

    /** One iteration of the B seeding loop, as `SeedOneB` says. */
    method SeedCellB(idx: int, fill: Option<Regime>, biasB: real, rng: Mulberry32)
      requires Shaped() && 0 <= idx < |mask| && rng.Valid()
      modifies this`queueA, this`queueB, regime, strA, strB, rng
      ensures Shaped() && rng.Valid()
      ensures Built(rng) == SeedOneB(old(Built(rng)), idx, fill, biasB, rng.draws)
    {
      if regime[idx] == Unclaimed || fill == Some(A) {
        var d := rng.Next();
        TakeCellB(idx, 1.0 + biasB + d * 0.1);
        queueB := queueB + [idx];
      } else if regime[idx] == A && fill == None {
        var d := rng.Next();
        var newStrB := 1.0 + biasB + d * 0.1;
        if newStrB > strA[idx] {
          TakeCellB(idx, newStrB);
          DropFromQueueA(idx);
          queueB := queueB + [idx];
        }
      }
    }

    /** The buffer writes of a B spawn point: B holds the cell with `str`, A's strength is cleared. */
    method TakeCellB(idx: int, str: real)
      requires Shaped() && 0 <= idx < |mask|
      modifies regime, strA, strB
      ensures Snapshot() == Cells(old(regime[..])[idx := B], old(strA[..])[idx := 0.0], old(strB[..])[idx := str])
    {
      regime[idx] := B;
      strB[idx] := str;
      strA[idx] := 0.0;
    }

    /** The splice that takes the first occurrence of `idx` out of the A queue, if any. */
    method DropFromQueueA(idx: int)
      modifies this`queueA
      ensures queueA == RemoveFirst(old(queueA), idx)
    {
      var aIdx := IndexOf(queueA, idx);
      if aIdx > -1 {
        RemoveFirstAt(queueA, idx, aIdx);
        queueA := queueA[..aIdx] + queueA[aIdx + 1..];
      } else {
        RemoveFirstAbsent(queueA, idx);
      }
    }

    /**
      One visit of expandFront's inner loop: draw the candidate strength of
      neighbour `n` of `src` and claim, take or skip it, as `Visit` says.
     */
    method VisitNeighbor(front: Regime, bias: real, src: int, n: int, rng: Mulberry32)
      requires Shaped() && front != Unclaimed && rng.Valid() && 0 <= src < |mask| && 0 <= n < |mask|
      modifies this`queueA, this`queueB, regime, strA, strB, rng
      ensures Shaped() && rng.Valid()
      ensures Sweep(Snapshot(), Queue(front), rng.calls)
           == Visit(old(Sweep(Snapshot(), Queue(front), rng.calls)), front, bias, src, n, rng.draws)
      ensures Queue(Opponent(front)) == old(Queue(Opponent(front)))
    {
      ghost var before := Sweep(Snapshot(), Queue(front), rng.calls);
      ghost var draws := rng.draws;
      var strength := if front == A then strA else strB;
      var otherStrength := if front == A then strB else strA;
      var currentRegime := regime[n];
      var d1 := rng.Next();
      var d2 := rng.Next();
      assert d1 == draws(before.next) && d2 == draws(before.next + 1);
      var srcStrength := strength[src];
      assert srcStrength == Strength(before.cells, front, src);
      var newStr := Propose(srcStrength, d1, d2, bias);
      assert newStr == Candidate(before.cells, front, bias, src, draws, before.next);
      ghost var after := Visit(before, front, bias, src, n, draws);
      if currentRegime == Unclaimed {
        regime[n] := front;
        strength[n] := newStr;
        if front == A { queueA := queueA + [n]; } else { queueB := queueB + [n]; }
        assert Snapshot() == after.cells;
      } else if currentRegime != front {
        assert otherStrength[n] == Strength(before.cells, Opponent(front), n);
        if newStr > otherStrength[n] {
          regime[n] := front;
          strength[n] := newStr;
          otherStrength[n] := 0.0;
          if front == A { queueA := queueA + [n]; } else { queueB := queueB + [n]; }
          assert Snapshot() == after.cells;
        }
      }
    }

    /**
      The inner loop of expandFront: visit the neighbours `ns` of `src` in
      order, two draws each, as `ScanNeighbors` says.
     */
    method VisitNeighbors(front: Regime, bias: real, src: int, ns: seq<int>, rng: Mulberry32)
      requires Shaped() && front != Unclaimed && rng.Valid() && 0 <= src < |mask|
      requires forall j :: 0 <= j < |ns| ==> 0 <= ns[j] < |mask|
      modifies this`queueA, this`queueB, regime, strA, strB, rng
      ensures Shaped() && rng.Valid()
      ensures Sweep(Snapshot(), Queue(front), rng.calls)
           == ScanNeighbors(old(Sweep(Snapshot(), Queue(front), rng.calls)), front, bias, src, ns, 0, |ns|, rng.draws)
      ensures Queue(Opponent(front)) == old(Queue(Opponent(front)))
    {
      ghost var start := Sweep(Snapshot(), Queue(front), rng.calls);
      var k := 0;
      while k < |ns|
        invariant 0 <= k <= |ns|
        invariant Shaped() && rng.Valid()
        invariant Sweep(Snapshot(), Queue(front), rng.calls) == ScanNeighbors(start, front, bias, src, ns, 0, k, rng.draws)
        invariant Queue(Opponent(front)) == old(Queue(Opponent(front)))
      {
        ScanNeighborsSnoc(start, front, bias, src, ns, 0, k, rng.draws);
        VisitNeighbor(front, bias, src, ns[k], rng);
        k := k + 1;
      }
    }

    /**
      The outer loop of expandFront: scan the frontier cells in order, each
      against its masked neighbours, as `ScanFrontier` says.
     */
    method ScanCells(p: BottleParams, front: Regime, bias: real, frontier: seq<int>, rng: Mulberry32)
      requires Shaped() && |mask| == p.nx * p.ny && front != Unclaimed && rng.Valid()
      requires forall j :: 0 <= j < |frontier| ==> InGrid(frontier[j], p.nx, p.ny)
      modifies this`queueA, this`queueB, regime, strA, strB, rng
      ensures Shaped() && rng.Valid()
      ensures Sweep(Snapshot(), Queue(front), rng.calls)
           == ScanFrontier(old(Sweep(Snapshot(), Queue(front), rng.calls)), front, bias, frontier, 0, |frontier|,
                           p.nx, p.ny, mask, rng.draws)
      ensures Queue(Opponent(front)) == old(Queue(Opponent(front)))
    {
      ghost var start := Sweep(Snapshot(), Queue(front), rng.calls);
      var i := 0;
      while i < |frontier|
        invariant 0 <= i <= |frontier|
        invariant Shaped() && rng.Valid()
        invariant Sweep(Snapshot(), Queue(front), rng.calls)
               == ScanFrontier(start, front, bias, frontier, 0, i, p.nx, p.ny, mask, rng.draws)
        invariant Queue(Opponent(front)) == old(Queue(Opponent(front)))
      {
        ScanCellAt(p, front, bias, frontier, i, start, rng);
        i := i + 1;
      }
    }

    /** One pass of the outer loop of expandFront: the frontier cell `frontier[i]` against its masked neighbours. */
    method ScanCellAt(p: BottleParams, front: Regime, bias: real, frontier: seq<int>, i: nat, ghost start: Sweep,
                    rng: Mulberry32)
      requires Shaped() && |mask| == p.nx * p.ny && front != Unclaimed && rng.Valid()
      requires i < |frontier| && forall j :: 0 <= j < |frontier| ==> InGrid(frontier[j], p.nx, p.ny)
      requires Sized(start.cells, |mask|)
      requires Sweep(Snapshot(), Queue(front), rng.calls)
            == ScanFrontier(start, front, bias, frontier, 0, i, p.nx, p.ny, mask, rng.draws)
      modifies this`queueA, this`queueB, regime, strA, strB, rng
      ensures Shaped() && rng.Valid()
      ensures Sweep(Snapshot(), Queue(front), rng.calls)
           == ScanFrontier(start, front, bias, frontier, 0, i + 1, p.nx, p.ny, mask, rng.draws)
      ensures Queue(Opponent(front)) == old(Queue(Opponent(front)))
    {
      var idx := frontier[i];
      var neighbors := MaskedNeighbors(idx, p.nx, p.ny, mask);
      MaskedNeighborsActive(idx, p.nx, p.ny, mask);
      ScanFrontierSnoc(start, front, bias, frontier, 0, i, p.nx, p.ny, mask, rng.draws);
      VisitNeighbors(front, bias, idx, neighbors, rng);
    }

    /**
      expandFront: on an empty queue nothing happens; otherwise the queue is
      snapshotted and emptied, and every (frontier cell, masked neighbour)
      pair is visited in order, as `BottleExpand.ExpandFront` says.
     */
    method ExpandFront(p: BottleParams, front: Regime, rng: Mulberry32)
      requires Valid() && |mask| == p.nx * p.ny && front != Unclaimed && rng.Valid()
      modifies this`queueA, this`queueB, regime, strA, strB, rng
      ensures Valid() && rng.Valid()
      ensures Sweep(Snapshot(), Queue(front), rng.calls)
           == BottleExpand.ExpandFront(old(Snapshot()), old(Queue(front)), front, Bias(p, front),
                                       p.nx, p.ny, mask, rng.draws, old(rng.calls))
      ensures Queue(Opponent(front)) == old(Queue(Opponent(front)))
    {
      var bias := Bias(p, front);
      var queue := if front == A then queueA else queueB;
      ghost var e := BottleExpand.ExpandFront(Snapshot(), queue, front, bias, p.nx, p.ny, mask, rng.draws, rng.calls);
      ExpandFrontSafe(Snapshot(), queue, front, bias, p.nx, p.ny, mask, rng.draws, rng.calls);
      if |queue| == 0 {
        return;
      }
      Refill(p, front, bias, rng);
      assert Snapshot() == e.cells && Queue(front) == e.queue;
    }

    /** The non-empty branch of expandFront: snapshot the queue, empty it, and scan the snapshot. */
    method Refill(p: BottleParams, front: Regime, bias: real, rng: Mulberry32)
      requires Shaped() && |mask| == p.nx * p.ny && front != Unclaimed && rng.Valid()
      requires forall j :: 0 <= j < |Queue(front)| ==> InGrid(Queue(front)[j], p.nx, p.ny)
      modifies this`queueA, this`queueB, regime, strA, strB, rng
      ensures Shaped() && rng.Valid()
      ensures Sweep(Snapshot(), Queue(front), rng.calls)
           == ScanFrontier(Sweep(old(Snapshot()), [], old(rng.calls)), front, bias, old(Queue(front)), 0,
                           |old(Queue(front))|, p.nx, p.ny, mask, rng.draws)
      ensures Queue(Opponent(front)) == old(Queue(Opponent(front)))
    {
      var currentFrontier := Queue(front);
      if front == A { queueA := []; } else { queueB := []; }
      ScanCells(p, front, bias, currentFrontier, rng);
    }

    /** The counting loop of computeConsensus and initBottleState: active A cells and active B cells. */
    method CountClaims() returns (countA: nat, countB: nat)
      requires regime.Length == |mask|
      ensures countA == CountRegime(regime[..], mask, A, |mask|)
      ensures countB == CountRegime(regime[..], mask, B, |mask|)
    {
      countA, countB := 0, 0;
      var i := 0;
      while i < regime.Length
        invariant 0 <= i <= regime.Length
        invariant countA == CountRegime(regime[..], mask, A, i)
        invariant countB == CountRegime(regime[..], mask, B, i)
      {
        if mask[i] {
          if regime[i] == A {
            countA := countA + 1;
          } else if regime[i] == B {
            countB := countB + 1;
          }
        }
        i := i + 1;
      }
    }

    /** computeConsensus: store the claimed fractions of the active cells (NaN when there are none). */
    method ComputeConsensus()
      requires Valid()
      modifies this
      ensures Valid() && Settled()
      ensures global == old(global) && queueA == old(queueA) && queueB == old(queueB)
      ensures step == old(step) && switchFrame == old(switchFrame)
    {
      var countA, countB := CountClaims();
      fracA := Fraction(countA, activeCells);
      fracB := Fraction(countB, activeCells);
    }

    /**
      applyHysteresisSwitch: move the global regime by the hysteresis rule,
      record the step of the first switch to a claimed regime, and report
      whether the regime changed.
     */
    method ApplyHysteresisSwitch(p: BottleParams) returns (changed: bool)
      requires Valid()
      modifies this
      ensures Valid()
      ensures global == NextGlobal(old(global), fracA, fracB, p.threshold, p.hysteresis)
      ensures switchFrame == NextSwitchFrame(old(global), global, old(switchFrame), step)
      ensures changed <==> old(global) != global
      ensures fracA == old(fracA) && fracB == old(fracB) && queueA == old(queueA) && queueB == old(queueB)
      ensures step == old(step)
    {
      var hi := p.threshold;
      var lo := Lower(p.threshold, p.hysteresis);
      var prevGlobal := global;
      if global != A && AtLeast(fracA, hi) {
        global := A;
      } else if global == A && Below(fracA, lo) {
        global := Unclaimed;
      }
      if global != B && AtLeast(fracB, hi) {
        global := B;
      } else if global == B && Below(fracB, lo) {
        global := Unclaimed;
      }
      changed := prevGlobal != global;
      if changed && global != Unclaimed && switchFrame == -1 {
        switchFrame := step;
      }
    }

    /** isSimulationComplete: both queues are empty. */
    predicate IsSimulationComplete()
      reads this
      ensures IsSimulationComplete() <==> |queueA| + |queueB| == 0
      ensures IsSimulationComplete() ==> forall c :: c !in queueA && c !in queueB
    {
      |queueA| == 0 && |queueB| == 0
    }

    /** getWinnerName: "Frozen" for A, "Liquid" for B, null while unclaimed. */
    function WinnerName(): (name: Option<string>)
      reads this
      ensures name == Some("Frozen") <==> global == A
      ensures name == Some("Liquid") <==> global == B
      ensures name == None <==> global == Unclaimed
    {
      if global == A then Some("Frozen")
      else if global == B then Some("Liquid")
      else
        assert global == Unclaimed;
        None
    }

    /** One of the two expansion loops of stepBottleSim: expand `front` `times` times, as `ExpandRepeat` says. */
    method ExpandTimes(p: BottleParams, front: Regime, times: nat, rng: Mulberry32)
      requires Valid() && |mask| == p.nx * p.ny && front != Unclaimed && rng.Valid()
      modifies this`queueA, this`queueB, regime, strA, strB, rng
      ensures Valid() && rng.Valid()
      ensures Sweep(Snapshot(), Queue(front), rng.calls)
           == ExpandRepeat(old(Sweep(Snapshot(), Queue(front), rng.calls)), front, Bias(p, front), times,
                           p.nx, p.ny, mask, rng.draws)
      ensures Queue(Opponent(front)) == old(Queue(Opponent(front)))
    {
      ghost var start := Sweep(Snapshot(), Queue(front), rng.calls);
      var done := 0;
      while done < times
        invariant done <= times && Valid() && rng.Valid()
        invariant Sweep(Snapshot(), Queue(front), rng.calls)
               == ExpandRepeat(start, front, Bias(p, front), done, p.nx, p.ny, mask, rng.draws)
        invariant Queue(Opponent(front)) == old(Queue(Opponent(front)))
      {
        ExpandRepeatSnoc(start, front, Bias(p, front), done, p.nx, p.ny, mask, rng.draws);
        ExpandFront(p, front, rng);
        done := done + 1;
      }
    }

    /**
      The expansion half of stepBottleSim: speedA passes of front A, then
      speedB passes of front B. Only the buffers, the queues and the generator move.
     */
    method Grow(p: BottleParams, rng: Mulberry32)
      requires Valid() && |mask| == p.nx * p.ny && rng.Valid()
      modifies this`queueA, this`queueB, regime, strA, strB, rng
      ensures Valid() && rng.Valid()
      ensures var r := Advance(old(Snapshot()), old(queueA), old(queueB), p, mask, rng.draws, old(rng.calls));
        Snapshot() == r.cells && queueA == r.queueA && queueB == r.queueB && rng.calls == r.next
      ensures CountRegime(old(regime[..]), mask, A, |mask|) + CountRegime(old(regime[..]), mask, B, |mask|)
           <= CountRegime(regime[..], mask, A, |mask|) + CountRegime(regime[..], mask, B, |mask|)
      ensures old(IsSimulationComplete()) ==> IsSimulationComplete() && Snapshot() == old(Snapshot()) && rng.calls == old(rng.calls)
    {
      ghost var draws := rng.draws;
      ghost var c0, calls0 := Snapshot(), rng.calls;
      ExpandTimes(p, A, p.speedA, rng);
      ExpandTimes(p, B, p.speedB, rng);
      AdvanceKeeps(c0, old(queueA), old(queueB), p, mask, draws, calls0);
      ClaimedMonotone(c0.regime, regime[..], mask, |mask|);
      if old(IsSimulationComplete()) {
        CompleteIsStable(c0, p, mask, draws, calls0);
      }
    }

    /**
      stepBottleSim: expand A `speedA` times and B `speedB` times (as
      `Advance` says), recompute the fractions, apply the hysteresis switch
      and count the step. Claimed cells stay claimed, so the claimed count
      never falls; on a complete state no cell changes and nothing is drawn.
     */
    method Step(p: BottleParams, rng: Mulberry32) returns (changed: bool, newGlobal: Regime)
      requires Valid() && |mask| == p.nx * p.ny && rng.Valid()
      modifies this, regime, strA, strB, rng
      ensures Valid() && Settled() && rng.Valid()
      ensures var r := Advance(old(Snapshot()), old(queueA), old(queueB), p, mask, rng.draws, old(rng.calls));
        Snapshot() == r.cells && queueA == r.queueA && queueB == r.queueB && rng.calls == r.next
      ensures global == NextGlobal(old(global), fracA, fracB, p.threshold, p.hysteresis)
      ensures switchFrame == NextSwitchFrame(old(global), global, old(switchFrame), old(step))
      ensures changed <==> old(global) != global
      ensures newGlobal == global
      ensures step == old(step) + 1 && (switchFrame == -1 || switchFrame < step)
      ensures CountRegime(old(regime[..]), mask, A, |mask|) + CountRegime(old(regime[..]), mask, B, |mask|)
           <= CountRegime(regime[..], mask, A, |mask|) + CountRegime(regime[..], mask, B, |mask|)
      ensures old(IsSimulationComplete()) ==> IsSimulationComplete() && Snapshot() == old(Snapshot()) && rng.calls == old(rng.calls)
    {
      Grow(p, rng);
      ComputeConsensus();
      changed := ApplyHysteresisSwitch(p);
      step := step + 1;
      newGlobal := global;
    }
  }
}
