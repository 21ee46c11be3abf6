/**
  The value types of the bottle mode (bottle-types.ts): the regime of a cell
  and of the whole bottle, the spawn presets and the simulation parameters.
 */
module BottleTypes {

  /** -1 (unclaimed), 0 (A, Frozen) or 1 (B, Liquid). */
  datatype Regime = Unclaimed | A | B

  /** The code the Int8Array stores for a regime. */
  function Code(r: Regime): int
  {
    match r
    case Unclaimed => -1
    case A => 0
    case B => 1
  }

  /** The regime a front of type `front` fights against. */
  function Opponent(front: Regime): (r: Regime)
    requires front != Unclaimed
    ensures r != Unclaimed && r != front
  {
    if front == A then B else A
  }

  datatype SpawnPreset = CapVsBase | LeftVsRight | NeckVsBody | FrozenStart | LiquidStart | Custom

  datatype BottleParams = BottleParams(
    nx: nat, ny: nat,
    threshold: real, hysteresis: real,
    biasA: real, biasB: real,
    speedA: nat, speedB: nat,
    seed: int,
    spawn: SpawnPreset)

  datatype Option<T> = None | Some(value: T)

  /**
    A JavaScript quotient `count / total` of two non-negative integers with
    `count <= total`: a number, or NaN when both are 0.
   */
  datatype Ratio = NotANumber | Num(value: real)

  function Fraction(count: nat, total: nat): (r: Ratio)
    requires count <= total
    ensures r == NotANumber <==> total == 0
    ensures r.Num? ==> 0.0 <= r.value <= 1.0
    ensures r.Num? ==> r.value * (total as real) == count as real
  {
    if total == 0 then NotANumber else Num(count as real / total as real)
  }

  /** `r >= x` as JavaScript evaluates it: false for NaN. */
  predicate AtLeast(r: Ratio, x: real)
  {
    r.Num? && r.value >= x
  }

  /** `r < x` as JavaScript evaluates it: false for NaN. */
  predicate Below(r: Ratio, x: real)
  {
    r.Num? && r.value < x
  }
}
