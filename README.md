# Seam-Lattice core in Dafny

This project models the two simulation engines of Seam-Lattice and proves properties of them.

**The lattice cascade.** It lives in `utils/latticeLogic.ts` and the engine part of `App.tsx`.
- The grid is an N × N torus of cells. Each cell holds +1 (POSITIVE) or -1 (NEGATIVE).
- Ignition queues the centre cell.
- Each step takes the head of a FIFO queue and negates that cell. It then queues each toroidal neighbour that:
  - still holds the head's old value;
  - wins a random draw against `thresholdK - propagationBias`;
  - is not already queued.
- When the queue is empty, the run stops. It is "annihilated" if the grid is uniform.
- Coherence is the mean cell value.

**The bottle mode.** It lives in `bottle-sim.ts` and `bottle-mask.ts`.
- Two regimes, A (Frozen) and B (Liquid), grow through the active cells of a mask.
- Growth starts from spawn points that one of six presets chooses.
- Each front expands from a snapshot of its queue. For every masked 4-neighbour of a frontier cell it proposes a strength from two random draws:
  - it claims an unclaimed neighbour;
  - it takes a cell of the other regime only with a strictly greater strength;
  - it leaves its own cells alone.
- A step expands A `speedA` times, then B `speedB` times.
- It then recomputes the claimed fractions of the active cells.
- It applies a hysteresis switch to the global regime. The band is `[max(0, threshold - hysteresis), threshold)`.
- `switchFrame` records the step of the first change to a claimed regime.
- Randomness comes from the seeded Mulberry32 generator.

**How the model is built.**
- Code that changes state in place becomes a `class`:
  - `Cascade.Engine` for the React state and refs of `App.tsx`;
  - `BottleSim.BottleState` over `array`s for the typed arrays;
  - `Mulberry.Mulberry32` for the generator closure.
- Every loop is a `method` with invariants.
- Each method is proved against a pure specification function:
  - `Cascade.Advance` for a cascade step;
  - `BottleExpand.ExpandFront`, `ExpandRepeat` and `Advance` for front expansion;
  - `BottleInit.Initial` for initialisation;
  - `BottleConsensus.NextGlobal` and `NextSwitchFrame` for the hysteresis switch.
  The lemmas state what those functions guarantee.
- Random draws are an oracle `draws: nat -> real`: call k returns `draws(k)`.
  - Every engine method returns or advances the cursor of draws it used.
  - The bottle engine draws from a real `Mulberry32` object, whose k-th value is `Mulberry.Draws(seed)(k)`.
  - The cascade draws from `Math.random`. It is left as an arbitrary oracle, with `Cascade.UnitDraws` saying that its values lie in [0, 1).
- `Mulberry.Mix` is the generator's mixing on `bv32`. It is exact 32-bit arithmetic, with the wrap-around of `Math.imul` and of the bitwise operators.
- Module layout follows the source:

  | module | models |
  |---|---|
  | `LatticeLogic` | `utils/latticeLogic.ts` |
  | `Cascade` | `App.tsx` |
  | `Mulberry` | `mulberry32` and `createRng` |
  | `BottleTypes` | the value types |
  | `BottleGrid` | masked `getNeighbors` |
  | `BottleExpand` | `expandFront` and `stepBottleSim`'s expansion loops |
  | `BottleConsensus` | `computeConsensus` and `applyHysteresisSwitch` |
  | `BottleInit` | `initBottleState` |
  | `BottleMask` | `getSpawnPoints` and `getMaskBoundary` |
  | `BottleSim` | the state object and its operations |

**Behaviour of the code that the model keeps:**
- Neighbours are pairwise distinct only on a lattice of side at least 3 (`NeighborsDistinct`). On sides 1 and 2, `getNeighbors` repeats cells.
- `switchFrame` is set by the first change to A or B while it is still unset. That includes a direct change from one regime to the other, not only a change from "none".
- A bottle without active cells is not rejected. Its fractions are NaN (`Ratio.NotANumber`), and NaN never moves the regime (`NotANumberHolds`).
- The ignition target, the grid parity and the mask are not validated.
- The two frontier queues are not kept disjoint. A cell taken over by one front can stay in the other's queue.
- Under the fill presets, a queue may hold a cell twice. Duplicate-freedom is proved only for the presets without a fill.

## Model

| member | source | states |
|---|---|---|
| LatticeLogic.Negate | App.tsx:104 | Multiplying a cell by -1 yields the other state, whose value is minus the old one. |
| LatticeLogic.JsRem | utils/latticeLogic.ts:15 | JavaScript's `%` for a positive divisor: strictly between -b and b, and never of the opposite sign to the dividend. |
| LatticeLogic.TruncatedWrapIsMod | utils/latticeLogic.ts:15 | For every integer, `(v % max + max) % max` with truncating `%` equals the floored remainder of v by max. |
| LatticeLogic.WrapCoord | utils/latticeLogic.ts:14-16 | wrapCoord always lands in [0, max) and is congruent to its argument modulo max. |
| LatticeLogic.WrapCoordIdentity | utils/latticeLogic.ts:14-16 | A coordinate already in range is left unchanged. |
| LatticeLogic.WrapCoordPeriodic | utils/latticeLogic.ts:14-16 | Adding any multiple of max to the argument does not change the wrapped coordinate. |
| LatticeLogic.WrapCoordEdges | utils/latticeLogic.ts:10-16 | The documented edges: max wraps to 0 and -1 wraps to max - 1. |
| LatticeLogic.WrapStep | utils/latticeLogic.ts:14-16 | One step down or up from an in-range value wraps only at the edges, to the opposite edge. |
| LatticeLogic.Neighbors | utils/latticeLogic.ts:21-29 | getNeighbors always returns exactly four coordinates, at every edge and corner. |
| LatticeLogic.NeighborsInOrder | utils/latticeLogic.ts:21-29 | The four results come in the order Up, Down, Left, Right. Each is in range and toroidally adjacent. Up and Down keep the column and move the row by -1 and +1 modulo size. Left and Right keep the row and move the column. |
| LatticeLogic.NeighborsInRange | utils/latticeLogic.ts:21-29 | The four neighbours of an in-range cell are in range. |
| LatticeLogic.NeighborsComplete | utils/latticeLogic.ts:21-29 | Every in-range cell adjacent on the torus is among the four neighbours. |
| LatticeLogic.NeighborsDistinct | utils/latticeLogic.ts:21-29 | On a lattice of side at least 3 the four neighbours are pairwise distinct. |
| LatticeLogic.StepRightIsNeighbor | utils/latticeLogic.ts:27 | The step that a walk to the right repeats is the Right neighbour of getNeighbors. |
| LatticeLogic.WalkRightAt | utils/latticeLogic.ts:27 | k Right steps from an in-range cell keep the row and move the column by k modulo size. |
| LatticeLogic.WalkRightReturns | utils/latticeLogic.ts:27 | size Right steps return to the start cell: the torus closes. |
| LatticeLogic.CreateGrid | utils/latticeLogic.ts:6-8 | createGrid is size rows of size cells, every cell equal to the initial state. |
| LatticeLogic.RowEvery | utils/latticeLogic.ts:37 | The inner `every` holds iff every cell of the row is strictly equal to the first value. |
| LatticeLogic.GridEvery | utils/latticeLogic.ts:37 | The outer `every` holds iff every cell of every row is strictly equal to the first value. |
| LatticeLogic.CheckAnnihilation | utils/latticeLogic.ts:34-38 | True iff every cell equals grid[0][0], which is undefined when the first row is empty. True for an empty grid. |
| LatticeLogic.AnnihilationIffUniform | utils/latticeLogic.ts:34-38 | On a non-empty square grid, annihilation holds exactly when every cell equals the top-left cell. |
| LatticeLogic.RowSumNegatives | utils/latticeLogic.ts:47-49 | A row's sum is its length minus twice its NEGATIVE cells. No NEGATIVE cells means all POSITIVE, and all NEGATIVE means the count equals the length. |
| LatticeLogic.GridSumNegatives | utils/latticeLogic.ts:46-50 | A grid's sum is its cell count minus twice its NEGATIVE cells. It takes the extreme values exactly on the uniform grids. |
| LatticeLogic.CalculateCoherence | utils/latticeLogic.ts:43-52 | The nested loop returns the sum of all cell values divided by size². |
| LatticeLogic.CoherenceBounds | utils/latticeLogic.ts:43-52 | Coherence lies in [-1, 1]. It is 1 iff every cell is POSITIVE and -1 iff every cell is NEGATIVE. |
| LatticeLogic.CoherenceZero | utils/latticeLogic.ts:43-52 | Coherence is 0 exactly when half of the cells are NEGATIVE. |
| LatticeLogic.CreatedGridCoherence | utils/latticeLogic.ts:6-8 | A freshly created grid is uniform, and its coherence is the value of its initial state (1 or -1). |
| Cascade.Flip | App.tsx:100-104 | The copied grid has the same shape, the head cell negated, and every other cell unchanged. |
| Cascade.AdmitSound | App.tsx:110-128 | The forEach pushes a subsequence of the neighbours, in order and without duplicates. Each pushed cell holds the pre-flip value and is neither in the remaining queue nor pushed earlier. Exactly one draw is used per neighbour holding the pre-flip value. |
| Cascade.AdmitPassed | App.tsx:110-125 | Every pushed neighbour is one that held the pre-flip value and whose own draw (the one at the cursor after the matching neighbours before it) exceeded thresholdK - propagationBias. |
| Cascade.AdmitComplete | App.tsx:110-125 | Every neighbour that held the pre-flip value and whose own draw exceeded the effective threshold ends up queued: already in the remaining queue, pushed earlier in the step, or pushed now. |
| Cascade.PushFresh | App.tsx:123-124 | Pushing a fresh matching neighbour before the later pushes keeps those guarantees. |
| Cascade.PushNeighbors | App.tsx:108-128 | The loop builds exactly the pushed list and draw cursor that `Admit` defines. |
| Cascade.AdmitAllSupercritical | App.tsx:114-125 | If the effective threshold is negative and draws lie in [0, 1), every draw passes, so every neighbour holding the pre-flip value ends up queued, remaining, or pushed. |
| Cascade.AdmitNoneSubcritical | App.tsx:117 | If the effective threshold is at least 1, no draw passes and nothing is pushed. |
| Cascade.AdvanceGrid | App.tsx:96-104 | A step negates exactly the head cell and keeps the grid square. |
| Cascade.AdvanceAdded | App.tsx:96-132 | The new queue is the remaining queue followed by the pushed cells. The pushed cells are an ordered, duplicate-free choice of at most four neighbours of the head. Each differs from the head, is not in the remaining queue, and held the head's old value. The cursor advances by the number of matching neighbours. |
| Cascade.AdvanceDraws | App.tsx:107-128 | The draw rule of a whole step, both ways: every newly queued cell is a neighbour of the head that still held the head's old value and passed its own draw, and every such neighbour is in the new queue. |
| Cascade.AdvanceQueue | App.tsx:96-132 | A duplicate-free in-range queue stays duplicate-free and in range. It loses its head and gains at most 3 net cells, with the rest kept in order at the front. |
| Cascade.AdvanceSupercritical | App.tsx:107-132 | If the effective threshold is negative, every neighbour still holding the head's old value is queued after the step. |
| Cascade.AdvanceSubcritical | App.tsx:117-132 | If the effective threshold is at least 1, the queue only loses its head. |
| Cascade.AdvanceCells | App.tsx:96-132 | The dequeue-flip-push code computes the step `Advance` defines. It keeps the grid square and the queue in range and duplicate-free. |
| Cascade.Engine.constructor | App.tsx:27-47 | The initial state: an all-POSITIVE grid, an empty queue, zero steps with coherence 1, not running and not annihilated. |
| Cascade.Engine.Reset | App.tsx:55-64 | handleReset: a fresh all-POSITIVE grid, an empty queue, zeroed stats with coherence 1, stopped and not annihilated. The configuration is unchanged. |
| Cascade.Engine.Ignite | App.tsx:67-77 | handleIgnite: the reset state with exactly the centre cell (floor(N/2), floor(N/2)) queued, and running. |
| Cascade.Engine.Step | App.tsx:80-143 | An empty queue stops the run and sets annihilated when the grid is uniform, with nothing else changed. Otherwise the grid and queue become `Advance`'s outcome. The step count rises by one, coherence is that of the new grid, and activeSeams is the new queue length. |
| Cascade.Engine.Propagate | App.tsx:96-141 | The non-empty branch: the new grid, queue and cursor are `Advance`'s. The stats are recomputed from them. Running and annihilated are untouched. |
| Mulberry.Mix | bottle-sim.ts:9-12 | The 32-bit mixing gives the values the JavaScript int32 arithmetic gives for the first states of mulberry32(0) and mulberry32(1) (1144304738 and 2693262067) and for the second state of mulberry32(0) (1416247). |
| Mulberry.Output | bottle-sim.ts:10-12 | Every value the generator returns lies in [0, 1). |
| Mulberry.Mulberry32.constructor | bottle-sim.ts:7-8 | A new generator has drawn nothing. Its k-th value will be `Draws(seed)(k)`. |
| Mulberry.Mulberry32.Next | bottle-sim.ts:8-13 | A call advances the captured seed by 0x6D2B79F5. It returns the value listed for this call number, which lies in [0, 1). |
| Mulberry.CreateRng | bottle-sim.ts:283-285 | createRng gives a fresh generator for the seed with nothing drawn. |
| Mulberry.SameSeedAgree | bottle-sim.ts:7-14 | Two generators created with the same seed return the same first n values. Those values are `Stream(seed, n)`. |
| BottleTypes.Opponent | bottle-sim.ts:165-168 | The regime a front fights is the other claimed regime. |
| BottleTypes.Fraction | bottle-sim.ts:216-217 | count / total is NaN exactly when total is 0. Otherwise it is a number in [0, 1] that scales total back to count. |
| BottleGrid.FlatIndex | bottle-sim.ts:126-127 | Column x and row y name the cell y·nx + x, and `%` and floor division recover them. |
| BottleGrid.Coords | bottle-sim.ts:126-127 | Every grid cell splits into an in-grid column and row that rebuild it. |
| BottleGrid.ProbeSound | bottle-sim.ts:130-149 | Each of the four guarded probes yields at most one cell. That cell is a masked, 4-adjacent grid cell on the probe's side. |
| BottleGrid.AppendSide | bottle-sim.ts:130-149 | Appending a later side's probe keeps the list in side order. |
| BottleGrid.FourSides | bottle-sim.ts:130-151 | The four probes together give at most four masked neighbours in side order. |
| BottleGrid.MaskedNeighborsSound | bottle-sim.ts:125-152 | getNeighbors returns at most four cells. Each is a masked grid cell one step away without wrapping, listed in the order up, down, left, right. |
| BottleGrid.MaskedNeighborsComplete | bottle-sim.ts:125-152 | Every masked grid cell 4-adjacent to the cell is returned. |
| BottleGrid.MaskedNeighborsActive | bottle-sim.ts:125-152 | Every returned index is an active cell of the mask. |
| BottleMask.LineCell | bottle-mask.ts:106-107 | Position p of column or row l is a grid cell whose line is l and whose position is p. |
| BottleMask.FirstActive | bottle-mask.ts:105-110 | The forward scan with break returns the first active cell of the line, or none when the line has no active cell. |
| BottleMask.LastActive | bottle-mask.ts:112-117 | The backward scan with break returns the last active cell of the line, or none when the line has no active cell. |
| BottleMask.ScanStep | bottle-mask.ts:103-118 | Appending one line's scan result keeps the cells on strictly increasing lines and covers that line too. |
| BottleMask.SpawnCapVsBase | bottle-mask.ts:101-120 | capVsBase gives A the topmost and B the bottommost active cell of every column that has one. Both are in column order and all are active. |
| BottleMask.SpawnLeftVsRight | bottle-mask.ts:122-141 | leftVsRight gives B the leftmost and A the rightmost active cell of every row that has one. Both are in row order. |
| BottleMask.BandStep | bottle-mask.ts:149-158 | One inner-loop cell is appended exactly when it is active. |
| BottleMask.BandNextColumn | bottle-mask.ts:148-159 | Finishing a column's band is starting the next column. |
| BottleMask.AppendColumnBand | bottle-mask.ts:148-159 | One column's inner loop appends exactly that column's active cells in the band, top to bottom. |
| BottleMask.SpawnNeckVsBody | bottle-mask.ts:143-161 | neckVsBody gives A exactly the active cells above row floor(ny/5) and B exactly those from row floor(ny/2) down. Both are in column-major order, and no cell is in both. |
| BottleMask.ActiveOfSound | bottle-mask.ts:170-173 | The index guard keeps exactly the candidates that are in-range, active flat indices. |
| BottleMask.ActiveOfSnoc | bottle-mask.ts:170-173 | One more candidate is appended exactly when it is an in-range active index. |
| BottleMask.ClusterRow | bottle-mask.ts:169-174 | One dy row of the cluster block appends its active candidates, left to right. |
| BottleMask.CenterCluster | bottle-mask.ts:163-177 | The frozenStart and liquidStart cluster is the active cells among the 25 flat indices (floor(3ny/5) + dy)·nx + floor(nx/2) + dx, for dx, dy in [-2, 2], in loop order. |
| BottleMask.CenterPoint | bottle-mask.ts:195-205 | custom gives both fronts the centre cell when it is active, and nothing otherwise. |
| BottleMask.GetSpawnPoints | bottle-mask.ts:91-209 | Per preset, the spawn lists are the ones above, all of them active cells. frozenStart fills with A and liquidStart with B, and the filled regime gets no spawns. The other presets have no fill. |
| BottleMask.BoundaryStep | bottle-mask.ts:217-237 | Scanning one more cell appends it exactly when it is a boundary cell. |
| BottleMask.ScanRow | bottle-mask.ts:218-236 | One row's scan appends exactly that row's boundary cells, left to right. |
| BottleMask.BoundaryTest | bottle-mask.ts:220-234 | A cell is an edge iff some 4-neighbour is off the grid or inactive. |
| BottleMask.MaskBoundary | bottle-mask.ts:214-240 | getMaskBoundary lists exactly the active cells with an off-grid or inactive 4-neighbour, in increasing order. |
| BottleExpand.VisitRule | bottle-sim.ts:180-196 | One neighbour visit uses two draws. An unclaimed cell is claimed with the proposed strength and queued. An opponent's cell is taken iff the proposal is strictly greater than its strength; then the loser's strength is zeroed and the cell queued, otherwise nothing changes. A cell the front already holds is left alone. No other cell changes. |
| BottleExpand.VisitKeeps | bottle-sim.ts:180-196 | A visit keeps the buffers consistent: strengths exclusive, inactive cells unclaimed. It never unclaims a cell. The queue only grows, and holds distinct active cells of the front. |
| BottleExpand.GrowsTrans | bottle-sim.ts:176-199 | Those growth guarantees compose across successive visits. |
| BottleExpand.ScanNeighborsSnoc | bottle-sim.ts:179-198 | Visiting one more neighbour is one more visit after the earlier ones. |
| BottleExpand.ScanNeighborsKeeps | bottle-sim.ts:179-198 | The inner loop keeps the growth guarantees. |
| BottleExpand.ScanNeighborsFrame | bottle-sim.ts:179-198 | The inner loop uses two draws per neighbour and changes no cell outside the neighbour list. |
| BottleExpand.ScanFrontierSnoc | bottle-sim.ts:176-199 | Scanning one more frontier cell is one more pass after the earlier ones. |
| BottleExpand.ScanFrontierKeeps | bottle-sim.ts:176-199 | The outer loop keeps the growth guarantees. |
| BottleExpand.ScanFrontierFrame | bottle-sim.ts:176-199 | The outer loop uses two draws per (frontier cell, neighbour) pair and changes only cells next to the frontier. |
| BottleExpand.ExpandFrontKeeps | bottle-sim.ts:157-200 | expandFront keeps the buffers consistent and every claim. It refills the queue with distinct active cells of the front and draws twice per pair. It changes only cells next to the old frontier, and an empty queue changes nothing. |
| BottleExpand.ExpandFrontSafe | bottle-sim.ts:157-200 | From a queue of active cells, expandFront leaves consistent buffers and a queue of active cells. |
| BottleExpand.ExpandRepeat | bottle-sim.ts:260-267 | Any number of expansions of a front, each from the queue the last one left, keeps the buffers consistent: strengths exclusive and inactive cells unclaimed. |
| BottleExpand.ExpandRepeatSnoc | bottle-sim.ts:260-267 | Expanding k + 1 times is expanding k times and then once more from where that left off. |
| BottleExpand.ExpandRepeatIdle | bottle-sim.ts:260-267 | Expanding an empty front any number of times changes nothing and draws nothing. |
| BottleExpand.ExpandRepeatKeeps | bottle-sim.ts:260-267 | Repeated expansion keeps every claim. After at least one pass, the queue holds distinct active cells of the front. |
| BottleExpand.ExpandRepeatQueued | bottle-sim.ts:260-267 | Repeated expansion from a queue of active cells leaves a queue of active cells. |
| BottleExpand.AdvanceKeeps | bottle-sim.ts:259-267 | A's speedA expansions followed by B's speedB expansions keep the buffers consistent, every claim, and both queues made of active cells. |
| BottleExpand.CompleteIsStable | bottle-sim.ts:260-267 | Once both queues are empty (isSimulationComplete), the expansion phase changes no cell and draws nothing. |
| BottleConsensus.CountRegime | bottle-sim.ts:209-214 | The count of cells of one regime never exceeds the count of active cells. |
| BottleConsensus.CountsBounded | bottle-sim.ts:209-214 | The A count and the B count together never exceed the active cells. |
| BottleConsensus.CountsFull | bottle-sim.ts:209-214 | When every active cell is claimed, the A and B counts make up all the active cells. |
| BottleConsensus.CountMonotone | bottle-sim.ts:209-214 | A regime's count cannot fall if no cell leaves that regime. |
| BottleConsensus.ClaimedMonotone | bottle-sim.ts:209-214 | If no cell is unclaimed, the claimed count (A plus B) cannot fall. |
| BottleConsensus.FractionsBounded | bottle-sim.ts:205-218 | Both fractions are NaN exactly when there are no active cells. Otherwise both lie in [0, 1] and add up to at most 1. |
| BottleConsensus.SharesBounded | bottle-sim.ts:216-217 | Two shares of one positive total whose counts fit in it add up to at most 1. |
| BottleConsensus.Lower | bottle-sim.ts:226 | The lower edge is max(0, threshold - hysteresis): non-negative, at least threshold - hysteresis, and one of the two. |
| BottleConsensus.BReachesThreshold | bottle-sim.ts:237-238 | A B fraction at or above the threshold makes the regime B, whatever A's fraction. |
| BottleConsensus.AReachesThreshold | bottle-sim.ts:230-241 | An A fraction at or above the threshold makes the regime A, unless B is at or above it too. |
| BottleConsensus.HysteresisBand | bottle-sim.ts:230-241 | With both fractions below the threshold, the regime only stays or is dropped. It is dropped exactly when its own fraction is below the lower edge. |
| BottleConsensus.NotANumberHolds | bottle-sim.ts:230-241 | NaN fractions (no active cells) never change the regime. |
| BottleConsensus.NegativeHysteresisDrops | bottle-sim.ts:226-241 | With a negative hysteresis the lower edge lies above the threshold. A B regime at 0.55 with threshold 0.5 and hysteresis -0.1 is dropped. |
| BottleConsensus.SwitchFrameOnce | bottle-sim.ts:243-246 | Once set, switchFrame never changes. While unset, it takes the step exactly when the regime changes to A or B. |
| BottleInit.RemoveFirstAt | bottle-sim.ts:87-88 | indexOf then splice removes exactly the first occurrence. |
| BottleInit.RemoveFirstAbsent | bottle-sim.ts:87-88 | When the cell is not queued, the queue is unchanged. |
| BottleInit.RemoveFirstFacts | bottle-sim.ts:87-88 | Removal drops only the given cell. From a duplicate-free queue it removes that cell completely and keeps the queue duplicate-free. |
| BottleInit.FillFromFacts | bottle-sim.ts:47-58 | The pre-fill gives every active cell the fill regime. It keeps the buffers consistent and the queues untouched. |
| BottleInit.SeedAFacts | bottle-sim.ts:61-69 | A seeding keeps the buffers consistent and every claim. The A queue holds active A cells, duplicate-free when there is no fill, and the B queue stays empty. |
| BottleInit.SeedBFacts | bottle-sim.ts:72-92 | B seeding, with its conflict rule, keeps the buffers consistent and every claim. Each queue holds active cells of its own regime, duplicate-free when there is no fill. |
| BottleInit.InitialFacts | bottle-sim.ts:46-92 | After initialisation the buffers are consistent and each queue holds active cells of its regime, duplicate-free without a fill. Under a fill, every active cell is claimed. |
| BottleSim.CountActive | bottle-sim.ts:26-30 | The loop counts exactly the active cells of the mask. |
| BottleSim.IndexOf | bottle-sim.ts:87 | indexOf returns -1 iff the cell is absent. Otherwise it returns the position of its first occurrence. |
| BottleSim.InitBottleState | bottle-sim.ts:19-120 | The new state is valid, settled (fractions match the buffers), at step 0 with switchFrame -1, and has the global regime the fill decides. Its spawn lists are those of `GetSpawnPoints` for every preset: capVsBase, leftVsRight and neckVsBody as described there; frozenStart and liquidStart give the filled regime no spawns and the other the active cells of the centre cluster; custom gives both the centre cell when it is active and nothing otherwise. Its buffers and queues are those `Initial` defines for the generator of the seed. |
| BottleSim.BottleState.Init | bottle-sim.ts:27-35 | Fresh buffers with every cell unclaimed at strength 0, empty queues, the active-cell count, step 0, switchFrame -1, and the initial global regime. |
| BottleSim.BottleState.Build | bottle-sim.ts:41-92 | The buffers and queues become `Initial`'s. Each queue holds active cells of its regime, duplicate-free without a fill. Under a fill, every active cell is claimed. |
| BottleSim.BottleState.Seed | bottle-sim.ts:46-92 | The pre-fill and the two seeding loops produce `Initial`'s buffers and queues. |
| BottleSim.BottleState.FillBottle | bottle-sim.ts:47-58 | The pre-fill loop produces `FillFrom`'s buffers with the draws it uses. |
| BottleSim.BottleState.FillCell | bottle-sim.ts:49-56 | One pre-fill cell, as `FillOne` defines it. |
| BottleSim.BottleState.SeedFrontA | bottle-sim.ts:61-69 | The A seeding loop produces `SeedA`'s buffers and queues. |
| BottleSim.BottleState.SeedCellA | bottle-sim.ts:62-68 | One A spawn point, as `SeedOneA` defines it. |
| BottleSim.BottleState.SeedFrontB | bottle-sim.ts:72-92 | The B seeding loop produces `SeedB`'s buffers and queues. |
| BottleSim.BottleState.SeedCellB | bottle-sim.ts:73-91 | One B spawn point with its conflict rule, as `SeedOneB` defines it. |
| BottleSim.BottleState.TakeCellB | bottle-sim.ts:83-85 | B takes the cell with the given strength, A's strength there becomes 0, and nothing else changes. |
| BottleSim.BottleState.DropFromQueueA | bottle-sim.ts:87-88 | The A queue loses the first occurrence of the cell, if any. |
| BottleSim.BottleState.VisitNeighbor | bottle-sim.ts:180-196 | One neighbour visit updates the buffers, the front's queue and the draw count as `Visit` defines. The other queue is untouched. |
| BottleSim.BottleState.VisitNeighbors | bottle-sim.ts:179-198 | The inner loop, as `ScanNeighbors` defines it. |
| BottleSim.BottleState.ScanCellAt | bottle-sim.ts:177-198 | One pass of the outer loop extends the scan by one frontier cell. |
| BottleSim.BottleState.ScanCells | bottle-sim.ts:176-199 | The outer loop, as `ScanFrontier` defines it. |
| BottleSim.BottleState.Refill | bottle-sim.ts:173-199 | The queue is snapshotted and emptied, and the snapshot is scanned into it. |
| BottleSim.BottleState.ExpandFront | bottle-sim.ts:157-200 | expandFront changes the state as `BottleExpand.ExpandFront` defines, which `ExpandFrontKeeps` describes. The state stays valid, and the other queue is untouched. |
| BottleSim.BottleState.CountClaims | bottle-sim.ts:209-214 | The loop counts the active A cells and the active B cells. |
| BottleSim.BottleState.ComputeConsensus | bottle-sim.ts:205-218 | The stored fractions become the claimed shares of the active cells (NaN when there are none). The regime, queues, step and switchFrame are unchanged. |
| BottleSim.BottleState.ApplyHysteresisSwitch | bottle-sim.ts:224-249 | The regime becomes `NextGlobal`'s and switchFrame `NextSwitchFrame`'s. The result reports exactly whether the regime changed. Fractions, queues and step are unchanged. |
| BottleSim.BottleState.IsSimulationComplete | bottle-sim.ts:290-293 | Complete exactly when the two fronts hold no cell between them; then no cell is waiting in either queue. `Step` and `CompleteIsStable` show a complete state is a fixed point. |
| BottleSim.BottleState.WinnerName | bottle-sim.ts:298-302 | "Frozen" exactly for A, "Liquid" exactly for B, and null exactly while unclaimed. |
| BottleSim.BottleState.ExpandTimes | bottle-sim.ts:260-262 | One expansion loop of stepBottleSim: `times` expansions of the front, as `ExpandRepeat` defines. |
| BottleSim.BottleState.Grow | bottle-sim.ts:259-267 | Both expansion loops give `Advance`'s buffers, queues and draw count. The claimed count does not fall. A complete state changes no cell and draws nothing. |
| BottleSim.BottleState.Step | bottle-sim.ts:254-278 | stepBottleSim follows `Advance` and then the switch rule, with fresh fractions. It reports whether the regime changed and the new regime, and advances the step. switchFrame stays unset or below the step. The claimed count never falls, and a complete state stays complete with no cell changed and nothing drawn. |

## Left out

- `generateBottleMask` (bottle-mask.ts:36-86) rasterises the bottle outline with floating-point geometry. The mask is an input (`seq<bool>`, 1 as true), and the other bottle operations are proved for every mask.
- Strengths are exact reals. The source stores them in a `Float32Array` and regimes in an `Int8Array`, so its strengths are rounded to single precision when stored. Comparisons of nearly equal strengths may come out differently.
- `BottleTypes.Fraction`, `BottleConsensus.Lower`, `BottleConsensus.NextGlobal` and `LatticeLogic.Coherence` compute with exact reals; the source uses doubles. The claimed fractions, the lower edge `threshold - hysteresis`, the effective threshold `thresholdK - propagationBias` and coherence are therefore exact. A comparison at a near-tie may come out differently from double arithmetic (threshold 0.8 and hysteresis 0.1 give the lower edge 0.7000000000000001 in doubles and exactly 0.7 here, so an A fraction of 7/10 drops A in the source and keeps it here).
- `floor(ny * 0.6)` and `floor(ny * 0.2)` are modelled as the exact floors `3 * ny / 5` and `ny / 5`. The rounding of the double products is not modelled.
- `Mulberry.Mulberry32.Next`: the captured seed is an unbounded integer. The source's seed is a double, which loses exactness past 2^53 (after about 2^22 draws from seed 0). A non-integer seed is not modelled.
- `Math.random` in the cascade is an oracle `draws`; its value distribution is not modelled.
- `LatticeLogic.Coherence` and `LatticeLogic.CalculateCoherence` require a non-empty square grid. For a 0 × 0 grid the source returns NaN (0 / 0); the engine never builds one, because its grid size is positive.
- `LatticeLogic.WrapCoord` requires max > 0. The source returns NaN for max 0.
- React state, effects, the animation interval, rendering, the controls and the configuration UI are not modelled. The configuration defaults `K_STAR = 1 / (2 ln 2)`, 11 and 0.25 are not modelled either: `Cascade.Engine` takes its size and thresholds as constructor arguments.
- Configuration changes while a run is going are not modelled. In the source, a new `thresholdK` or `propagationBias` applies from the next step, and a new `gridSize` wraps neighbours of the old grid at the new size. `Cascade.Engine` keeps its size and thresholds for the life of the object.
- `speedA` and `speedB` are naturals. A fractional speed in the source loops `ceil(speed)` times, and a negative one not at all.
- `initBottleState` draws from its own `mulberry32(seed)`, which `BottleSim.InitBottleState` models as `Mulberry.Draws(seed)`. The generator that steps use comes from the caller, so `BottleSim.BottleState.Step` takes it as a parameter.
- Duplicate-free queues under the fill presets are not claimed, because the source does not ensure them there (a spawn list may repeat a cell when nx < 5).
- `BottleSim.InitBottleState` states its buffers and queues through `Initial` and leaves the per-queue facts to `BottleInit.InitialFacts` and `BottleSim.BottleState.Build`.
- `Cascade.AdvanceSupercritical` is a one-step property. It is not claimed that a supercritical cascade reaches a uniform grid within a bounded number of steps. That is a probabilistic, whole-run property, and with an effective threshold of exactly 0 a draw of 0 still blocks a neighbour.
- Per-cell metadata (`CellMetadata`), the renderer, the animation helpers and the example presets are outside this core.
