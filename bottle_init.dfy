/**
  The initial state of bottle-sim.ts (initBottleState) as functions: the
  optional pre-fill of the whole bottle, the A seeding, then the B seeding
  with its spawn conflict rule. Randomness is an oracle as in BottleExpand:
  the k-th call of the state's own generator returns `draws(k)`.
 */
module BottleInit {
  import opened BottleTypes
  import opened BottleExpand
  import opened Basics

  /** The buffers of a fresh state: every cell unclaimed (-1) with both strengths 0. */
  function Blank(n: nat): (c: Cells)
    ensures Sized(c, n)
  {
    Cells(seq(n, _ => Unclaimed), seq(n, _ => 0.0), seq(n, _ => 0.0))
  }

  /** The buffers, both queues and the draw cursor while the state is built. */
  datatype Seeding = Seeding(cells: Cells, queueA: seq<int>, queueB: seq<int>, next: nat)

  /** One pre-filled cell: it takes the fill regime and a strength 0.8 + 0.2 * draw. */
  function FillOne(s: Seeding, fill: Regime, i: int, draws: nat -> real): (r: Seeding)
    requires fill != Unclaimed && Sized(s.cells, |s.cells.regime|) && 0 <= i < |s.cells.regime|
    ensures Sized(r.cells, |s.cells.regime|)
  {
    var c := s.cells;
    s.(cells := SetStrength(c.(regime := c.regime[i := fill]), fill, i, 0.8 + draws(s.next) * 0.2), next := s.next + 1)
  }

  /** The pre-fill loop from cell i on: every active cell is filled. */
  function FillFrom(s: Seeding, fill: Regime, mask: seq<bool>, draws: nat -> real, i: nat): (r: Seeding)
    requires fill != Unclaimed && Sized(s.cells, |mask|) && i <= |mask|
    ensures Sized(r.cells, |mask|)
    decreases |mask| - i
  {
    if i == |mask| then s
    else if mask[i] then FillFrom(FillOne(s, fill, i, draws), fill, mask, draws, i + 1)
    else FillFrom(s, fill, mask, draws, i + 1)
  }

  /** Spawn indices are cells of the buffers. */
  predicate Spawns(spawn: seq<int>, n: nat)
  {
    forall e :: e in spawn ==> 0 <= e < n
  }

  /** Spawn indices are active cells of the mask. */
  predicate ActiveSpawns(spawn: seq<int>, mask: seq<bool>)
  {
    forall e :: e in spawn ==> 0 <= e < |mask| && mask[e]
  }

  /**
    The A seeding loop from spawnA[k] on: a spawn cell that is unclaimed, or
    any spawn cell when the bottle was pre-filled with B, becomes A with
    strength 1 + biasA + 0.1 * draw and is queued.
   */
  function SeedA(s: Seeding, spawnA: seq<int>, k: nat, fill: Option<Regime>, biasA: real, draws: nat -> real): (r: Seeding)
    requires Sized(s.cells, |s.cells.regime|) && k <= |spawnA| && Spawns(spawnA, |s.cells.regime|)
    ensures Sized(r.cells, |s.cells.regime|)
    decreases |spawnA| - k
  {
    if k == |spawnA| then s
    else
      assert spawnA[k] in spawnA;
      SeedA(SeedOneA(s, spawnA[k], fill, biasA, draws), spawnA, k + 1, fill, biasA, draws)
  }

  /** One A spawn cell. */
  function SeedOneA(s: Seeding, idx: int, fill: Option<Regime>, biasA: real, draws: nat -> real): (r: Seeding)
    requires Sized(s.cells, |s.cells.regime|) && 0 <= idx < |s.cells.regime|
    ensures Sized(r.cells, |s.cells.regime|)
  {
    var c := s.cells;
    if c.regime[idx] == Unclaimed || fill == Some(B) then
      var c' := Cells(c.regime[idx := A], c.strA[idx := 1.0 + biasA + draws(s.next) * 0.1], c.strB[idx := 0.0]);
      Seeding(c', s.queueA + [idx], s.queueB, s.next + 1)
    else
      s
  }

  /** `q` without its first occurrence of `x` (indexOf, then splice when found). */
  function RemoveFirst(q: seq<int>, x: int): seq<int>
  {
    if |q| == 0 then []
    else if q[0] == x then q[1..]
    else [q[0]] + RemoveFirst(q[1..], x)
  }

  /**
    The B seeding loop from spawnB[k] on: a spawn cell that is unclaimed, or
    any spawn cell when the bottle was pre-filled with A, becomes B with
    strength 1 + biasB + 0.1 * draw and is queued. Without a fill, an A cell
    is disputed: one draw is made, and a strictly stronger B takes the cell,
    which leaves queueA (its first occurrence) and joins queueB.
   */
  function SeedB(s: Seeding, spawnB: seq<int>, k: nat, fill: Option<Regime>, biasB: real, draws: nat -> real): (r: Seeding)
    requires Sized(s.cells, |s.cells.regime|) && k <= |spawnB| && Spawns(spawnB, |s.cells.regime|)
    ensures Sized(r.cells, |s.cells.regime|)
    decreases |spawnB| - k
  {
    if k == |spawnB| then s
    else
      assert spawnB[k] in spawnB;
      SeedB(SeedOneB(s, spawnB[k], fill, biasB, draws), spawnB, k + 1, fill, biasB, draws)
  }

  /** One B spawn cell. */
  function SeedOneB(s: Seeding, idx: int, fill: Option<Regime>, biasB: real, draws: nat -> real): (r: Seeding)
    requires Sized(s.cells, |s.cells.regime|) && 0 <= idx < |s.cells.regime|
    ensures Sized(r.cells, |s.cells.regime|)
  {
    var c := s.cells;
    var newStrB := 1.0 + biasB + draws(s.next) * 0.1;
    var taken := Cells(c.regime[idx := B], c.strA[idx := 0.0], c.strB[idx := newStrB]);
    if c.regime[idx] == Unclaimed || fill == Some(A) then
      Seeding(taken, s.queueA, s.queueB + [idx], s.next + 1)
    else if c.regime[idx] == A && fill == None then
      if newStrB > c.strA[idx] then Seeding(taken, RemoveFirst(s.queueA, idx), s.queueB + [idx], s.next + 1)
      else s.(next := s.next + 1)
    else
      s
  }

  /** The buffers and queues initBottleState builds, and how many draws it makes. */
  function Initial(mask: seq<bool>, fill: Option<Regime>, spawnA: seq<int>, spawnB: seq<int>,
                   biasA: real, biasB: real, draws: nat -> real): (r: Seeding)
    requires fill != Some(Unclaimed) && Spawns(spawnA, |mask|) && Spawns(spawnB, |mask|)
    ensures Sized(r.cells, |mask|)
  {
    var s0 := Seeding(Blank(|mask|), [], [], 0);
    var s1 := if fill.Some? then FillFrom(s0, fill.value, mask, draws, 0) else s0;
    var s2 := SeedA(s1, spawnA, 0, fill, biasA, draws);
    SeedB(s2, spawnB, 0, fill, biasB, draws)
  }

  /** Every entry of `q` is an active cell whose regime is `g`. */
  predicate Holds(q: seq<int>, c: Cells, g: Regime, mask: seq<bool>)
    requires Sized(c, |mask|)
  {
    forall e :: e in q ==> 0 <= e < |mask| && mask[e] && c.regime[e] == g
  }

  /**
    RemoveFirst is the splice at the first occurrence: when q[i] is the first
    x in q, it drops exactly position i.
   */
  lemma {:induction false} RemoveFirstAt(q: seq<int>, x: int, i: nat)
    requires i < |q| && q[i] == x && x !in q[..i]
    ensures RemoveFirst(q, x) == q[..i] + q[i + 1..]
  {
    if i > 0 {
      assert q[1..][..i - 1] == q[1..i];
      assert q[1..i] == q[..i][1..];
      RemoveFirstAt(q[1..], x, i - 1);
      assert q[..i] == [q[0]] + q[1..][..i - 1];
      assert q[i + 1..] == q[1..][i..];
    }
  }

  /** When x does not occur, nothing is removed. */
  lemma {:induction false} RemoveFirstAbsent(q: seq<int>, x: int)
    requires x !in q
    ensures RemoveFirst(q, x) == q
  {
    if |q| > 0 {
      assert x !in q[1..];
      RemoveFirstAbsent(q[1..], x);
    }
  }

  /**
    RemoveFirst keeps only entries of q; on a queue without duplicates it
    removes every occurrence of x and keeps the queue free of duplicates.
   */
  lemma {:induction false} RemoveFirstFacts(q: seq<int>, x: int)
    ensures forall e :: e in RemoveFirst(q, x) ==> e in q
    ensures forall e :: e in q && e != x ==> e in RemoveFirst(q, x)
    ensures Distinct(q) ==> x !in RemoveFirst(q, x) && Distinct(RemoveFirst(q, x))
  {
    if |q| > 0 {
      RemoveFirstFacts(q[1..], x);
      if q[0] == x {
        if Distinct(q) {
          assert x !in q[1..] by {
            forall j | 0 <= j < |q[1..]|
              ensures q[1..][j] != x
            {
              assert q[0] != q[j + 1];
            }
          }
          DistinctTail(q);
        }
      } else {
        var r := RemoveFirst(q, x);
        assert r == [q[0]] + RemoveFirst(q[1..], x);
        forall e | e in q && e != x
          ensures e in r
        {
          if e != q[0] {
            assert e in q[1..];
          }
        }
        if Distinct(q) {
          DistinctTail(q);
          assert q[0] !in q[1..] by {
            forall j | 0 <= j < |q[1..]|
              ensures q[1..][j] != q[0]
            {
              assert q[0] != q[j + 1];
            }
          }
          forall i, j | 0 <= i < j < |r|
            ensures r[i] != r[j]
          {
            if i == 0 {
              assert r[j] in RemoveFirst(q[1..], x);
            }
          }
        }
      }
    }
  }

  /** The tail of a sequence without duplicates has none either. */
  lemma DistinctTail(q: seq<int>)
    requires |q| > 0 && Distinct(q)
    ensures Distinct(q[1..])
  {
    forall i, j | 0 <= i < j < |q[1..]|
      ensures q[1..][i] != q[1..][j]
    {
      assert q[i + 1] != q[j + 1];
    }
  }

  /**
    The pre-fill keeps the buffers consistent, keeps every claim, touches no
    queue, and gives every active cell from i on the fill regime.
   */
  lemma {:induction false} FillFromFacts(s: Seeding, fill: Regime, mask: seq<bool>, draws: nat -> real, i: nat)
    requires fill != Unclaimed && Consistent(s.cells, mask) && i <= |mask|
    requires forall j :: i <= j < |mask| ==> s.cells.regime[j] == Unclaimed && s.cells.strA[j] == 0.0 && s.cells.strB[j] == 0.0
    ensures var r := FillFrom(s, fill, mask, draws, i);
      && Consistent(r.cells, mask) && KeepsClaims(s.cells, r.cells)
      && r.queueA == s.queueA && r.queueB == s.queueB
      && (forall j :: i <= j < |mask| && mask[j] ==> r.cells.regime[j] == fill)
      && (forall j :: 0 <= j < i ==> r.cells.regime[j] == s.cells.regime[j])
    decreases |mask| - i
  {
    if i < |mask| {
      var t := if mask[i] then FillOne(s, fill, i, draws) else s;
      assert FillFrom(s, fill, mask, draws, i) == FillFrom(t, fill, mask, draws, i + 1);
      FillFromFacts(t, fill, mask, draws, i + 1);
    }
  }

  /**
    The A seeding keeps the buffers consistent and every claim, leaves queueB
    empty, and leaves in queueA only active A cells, without duplicates
    unless the bottle was pre-filled.
   */
  lemma {:induction false} SeedAFacts(s: Seeding, spawnA: seq<int>, k: nat, fill: Option<Regime>, biasA: real,
                                      draws: nat -> real, mask: seq<bool>)
    requires Consistent(s.cells, mask) && k <= |spawnA| && ActiveSpawns(spawnA, mask)
    requires s.queueB == [] && Holds(s.queueA, s.cells, A, mask)
    requires fill == None ==> Distinct(s.queueA)
    ensures var r := SeedA(s, spawnA, k, fill, biasA, draws);
      && Consistent(r.cells, mask) && KeepsClaims(s.cells, r.cells)
      && r.queueB == [] && Holds(r.queueA, r.cells, A, mask)
      && (fill == None ==> Distinct(r.queueA))
    decreases |spawnA| - k
  {
    if k < |spawnA| {
      var idx := spawnA[k];
      assert idx in spawnA;
      var t := SeedOneA(s, idx, fill, biasA, draws);
      if t != s && fill == None {
        assert idx !in s.queueA;
        AppendFresh(s.queueA, idx, true);
      }
      SeedAFacts(t, spawnA, k + 1, fill, biasA, draws, mask);
    }
  }

  /**
    The B seeding keeps the buffers consistent and every claim, and keeps
    queueA holding only active A cells and queueB only active B cells,
    each without duplicates unless the bottle was pre-filled.
   */
  lemma {:induction false} SeedBFacts(s: Seeding, spawnB: seq<int>, k: nat, fill: Option<Regime>, biasB: real,
                                      draws: nat -> real, mask: seq<bool>)
    requires Consistent(s.cells, mask) && k <= |spawnB| && ActiveSpawns(spawnB, mask)
    requires Holds(s.queueA, s.cells, A, mask) && Holds(s.queueB, s.cells, B, mask)
    requires fill == Some(A) ==> s.queueA == []
    requires fill == None ==> Distinct(s.queueA) && Distinct(s.queueB)
    ensures var r := SeedB(s, spawnB, k, fill, biasB, draws);
      && Consistent(r.cells, mask) && KeepsClaims(s.cells, r.cells)
      && Holds(r.queueA, r.cells, A, mask) && Holds(r.queueB, r.cells, B, mask)
      && (fill == None ==> Distinct(r.queueA) && Distinct(r.queueB))
    decreases |spawnB| - k
  {
    if k < |spawnB| {
      var idx := spawnB[k];
      assert idx in spawnB;
      var c := s.cells;
      var t := SeedOneB(s, idx, fill, biasB, draws);
      if c.regime[idx] == Unclaimed || fill == Some(A) {
        assert idx !in s.queueA;
        AppendFresh(s.queueB, idx, fill == None);
      } else if c.regime[idx] == A && fill == None && t.queueB != s.queueB {
        RemoveFirstFacts(s.queueA, idx);
        AppendFresh(s.queueB, idx, true);
      }
      SeedBFacts(t, spawnB, k + 1, fill, biasB, draws, mask);
    }
  }

  /** A queue whose entries all hold active cells of `g` is a queue of active cells. */
  lemma HoldsQueued(q: seq<int>, c: Cells, g: Regime, mask: seq<bool>)
    requires Sized(c, |mask|) && Holds(q, c, g, mask)
    ensures Queued(q, mask)
  {
    forall j | 0 <= j < |q|
      ensures 0 <= q[j] < |mask| && mask[q[j]]
    {
      assert q[j] in q;
    }
  }

  /** Appending an entry that is not yet there keeps a queue without duplicates. */
  lemma AppendFresh(q: seq<int>, x: int, check: bool)
    requires check ==> Distinct(q) && x !in q
    ensures check ==> Distinct(q + [x])
  {
    if check {
      forall i, j | 0 <= i < j < |q + [x]|
        ensures (q + [x])[i] != (q + [x])[j]
      {
        if j == |q| {
          assert (q + [x])[i] in q;
        }
      }
    }
  }

  /**
    The state initBottleState builds is consistent; queueA holds only active
    A cells and queueB only active B cells, neither with duplicates when no
    fill is used; and with a fill every active cell is claimed.
   */
  lemma InitialFacts(mask: seq<bool>, fill: Option<Regime>, spawnA: seq<int>, spawnB: seq<int>,
                     biasA: real, biasB: real, draws: nat -> real)
    requires fill != Some(Unclaimed) && ActiveSpawns(spawnA, mask) && ActiveSpawns(spawnB, mask)
    requires fill == Some(A) ==> spawnA == []
    ensures var r := Initial(mask, fill, spawnA, spawnB, biasA, biasB, draws);
      && Consistent(r.cells, mask)
      && Holds(r.queueA, r.cells, A, mask) && Holds(r.queueB, r.cells, B, mask)
      && (fill == None ==> Distinct(r.queueA) && Distinct(r.queueB))
      && (fill.Some? ==> forall j :: 0 <= j < |mask| && mask[j] ==> r.cells.regime[j] != Unclaimed)
  {
    var s0 := Seeding(Blank(|mask|), [], [], 0);
    var s1 := if fill.Some? then FillFrom(s0, fill.value, mask, draws, 0) else s0;
    if fill.Some? {
      FillFromFacts(s0, fill.value, mask, draws, 0);
    }
    SeedAFacts(s1, spawnA, 0, fill, biasA, draws, mask);
    var s2 := SeedA(s1, spawnA, 0, fill, biasA, draws);
    assert fill == Some(A) ==> s2 == s1;
    SeedBFacts(s2, spawnB, 0, fill, biasB, draws, mask);
    KeepsClaimsTrans(s1.cells, s2.cells, SeedB(s2, spawnB, 0, fill, biasB, draws).cells);
  }
}
