/**
  Consensus and hysteresis of bottle-sim.ts (computeConsensus and
  applyHysteresisSwitch) as functions: the claimed fractions of the active
  cells, and the rule that moves the global regime between A, B and
  unclaimed.
 */
module BottleConsensus {
  import opened BottleTypes

  /** The active cells among the first n cells. */
  function CountMasked(mask: seq<bool>, n: nat): (r: nat)
    requires n <= |mask|
    ensures r <= n
  {
    if n == 0 then 0 else CountMasked(mask, n - 1) + (if mask[n - 1] then 1 else 0)
  }

  /** The active cells among the first n cells whose regime is `r`; never more than the active cells. */
  function CountRegime(regime: seq<Regime>, mask: seq<bool>, g: Regime, n: nat): (r: nat)
    requires n <= |regime| == |mask|
    ensures r <= CountMasked(mask, n)
  {
    if n == 0 then 0
    else CountRegime(regime, mask, g, n - 1) + (if mask[n - 1] && regime[n - 1] == g then 1 else 0)
  }

  /** The A and B counts together never exceed the active cells. */
  lemma {:induction false} CountsBounded(regime: seq<Regime>, mask: seq<bool>, n: nat)
    requires n <= |regime| == |mask|
    ensures CountRegime(regime, mask, A, n) + CountRegime(regime, mask, B, n) <= CountMasked(mask, n)
  {
    if n > 0 {
      CountsBounded(regime, mask, n - 1);
    }
  }

  /** When every active cell is claimed, the A and B counts make up all the active cells. */
  lemma {:induction false} CountsFull(regime: seq<Regime>, mask: seq<bool>, n: nat)
    requires n <= |regime| == |mask|
    requires forall i :: 0 <= i < n && mask[i] ==> regime[i] != Unclaimed
    ensures CountRegime(regime, mask, A, n) + CountRegime(regime, mask, B, n) == CountMasked(mask, n)
  {
    if n > 0 {
      CountsFull(regime, mask, n - 1);
    }
  }

  /** A count can only grow when a cell turns into `g` and none leaves `g`. */
  lemma {:induction false} CountMonotone(regime: seq<Regime>, regime': seq<Regime>, mask: seq<bool>, g: Regime, n: nat)
    requires n <= |regime| == |mask| == |regime'|
    requires forall i :: 0 <= i < n && regime[i] == g ==> regime'[i] == g
    ensures CountRegime(regime, mask, g, n) <= CountRegime(regime', mask, g, n)
  {
    if n > 0 {
      CountMonotone(regime, regime', mask, g, n - 1);
    }
  }

  /** Cells that stay claimed keep the claimed count (A and B together) from falling. */
  lemma {:induction false} ClaimedMonotone(regime: seq<Regime>, regime': seq<Regime>, mask: seq<bool>, n: nat)
    requires n <= |regime| == |mask| == |regime'|
    requires forall i :: 0 <= i < n && regime[i] != Unclaimed ==> regime'[i] != Unclaimed
    ensures CountRegime(regime, mask, A, n) + CountRegime(regime, mask, B, n)
         <= CountRegime(regime', mask, A, n) + CountRegime(regime', mask, B, n)
  {
    if n > 0 {
      ClaimedMonotone(regime, regime', mask, n - 1);
    }
  }

  /**
    The two fractions computeConsensus stores: both NaN on a bottle with no
    active cell, otherwise numbers in [0, 1] that add up to at most 1.
   */
  lemma FractionsBounded(regime: seq<Regime>, mask: seq<bool>)
    requires |regime| == |mask|
    ensures var total := CountMasked(mask, |mask|);
      var fa := Fraction(CountRegime(regime, mask, A, |mask|), total);
      var fb := Fraction(CountRegime(regime, mask, B, |mask|), total);
      && (total == 0 <==> fa == NotANumber && fb == NotANumber)
      && (total > 0 ==> fa.Num? && fb.Num? && fa.value + fb.value <= 1.0)
  {
    CountsBounded(regime, mask, |mask|);
    SharesBounded(CountRegime(regime, mask, A, |mask|), CountRegime(regime, mask, B, |mask|), CountMasked(mask, |mask|));
  }

  /** Two shares of the same positive total whose counts fit in it add up to at most 1. */
  lemma SharesBounded(ca: nat, cb: nat, total: nat)
    requires ca + cb <= total
    ensures total > 0 ==> Fraction(ca, total).value + Fraction(cb, total).value <= 1.0
  {
    if total > 0 {
      var a, b, t := Fraction(ca, total).value, Fraction(cb, total).value, total as real;
      var u := a + b;
      assert u * t == (ca + cb) as real <= t;
      AtMostOne(u, t);
    }
  }

  /** A factor that scales a positive `t` to at most `t` is at most 1; `SharesBounded` calls it. */
  lemma AtMostOne(u: real, t: real)
    requires t > 0.0 && u * t <= t
    ensures u <= 1.0
  {
  }

  /** The lower edge of the hysteresis band: max(0, threshold - hysteresis). */
  function Lower(threshold: real, hysteresis: real): (lo: real)
    ensures lo >= 0.0
    ensures lo >= threshold - hysteresis
    ensures lo == 0.0 || lo == threshold - hysteresis
  {
    if threshold - hysteresis > 0.0 then threshold - hysteresis else 0.0
  }

  /**
    The global regime after applyHysteresisSwitch: first the A check (enter
    A at the threshold, leave A below the lower edge), then the B check on
    the result of the first.
   */
  function NextGlobal(global: Regime, fracA: Ratio, fracB: Ratio, threshold: real, hysteresis: real): Regime
  {
    var lo := Lower(threshold, hysteresis);
    var g1 :=
      if global != A && AtLeast(fracA, threshold) then A
      else if global == A && Below(fracA, lo) then Unclaimed
      else global;
    if g1 != B && AtLeast(fracB, threshold) then B
    else if g1 == B && Below(fracB, lo) then Unclaimed
    else g1
  }

  /** switchFrame records the step of the first change to a claimed regime, once. */
  function NextSwitchFrame(global: Regime, global': Regime, switchFrame: int, step: int): int
  {
    if global != global' && global' != Unclaimed && switchFrame == -1 then step else switchFrame
  }

  /** A B fraction at the threshold decides for B, whatever the A fraction. */
  lemma BReachesThreshold(global: Regime, fracA: Ratio, fracB: Ratio, threshold: real, hysteresis: real)
    requires hysteresis >= 0.0 && AtLeast(fracB, threshold) && fracB.value >= 0.0
    ensures NextGlobal(global, fracA, fracB, threshold, hysteresis) == B
  {
  }

  /** An A fraction at the threshold decides for A unless B is at the threshold too. */
  lemma AReachesThreshold(global: Regime, fracA: Ratio, fracB: Ratio, threshold: real, hysteresis: real)
    requires hysteresis >= 0.0 && AtLeast(fracA, threshold) && fracA.value >= 0.0 && !AtLeast(fracB, threshold)
    ensures NextGlobal(global, fracA, fracB, threshold, hysteresis) == A
  {
  }

  /**
    Below the threshold on both sides the regime only holds or is dropped, and
    it is dropped exactly when its own fraction is below the lower edge.
   */
  lemma HysteresisBand(global: Regime, fracA: Ratio, fracB: Ratio, threshold: real, hysteresis: real)
    requires !AtLeast(fracA, threshold) && !AtLeast(fracB, threshold)
    ensures var g := NextGlobal(global, fracA, fracB, threshold, hysteresis);
      var lo := Lower(threshold, hysteresis);
      && (g == global || g == Unclaimed)
      && (g == Unclaimed && global != Unclaimed <==>
            (global == A && Below(fracA, lo)) || (global == B && Below(fracB, lo)))
  {
  }

  /** Fractions that are NaN (a bottle without active cells) never move the regime. */
  lemma NotANumberHolds(global: Regime, threshold: real, hysteresis: real)
    ensures NextGlobal(global, NotANumber, NotANumber, threshold, hysteresis) == global
  {
  }

  /**
    With a negative hysteresis the lower edge lies above the threshold, so a
    B regime whose fraction sits between them is dropped in the same call
    that would keep it.
   */
  lemma NegativeHysteresisDrops()
    ensures NextGlobal(B, Num(0.0), Num(0.55), 0.5, -0.1) == Unclaimed
  {
    assert Lower(0.5, -0.1) == 0.6;
  }

  /**
    switchFrame is set at most once: once set it never changes, and while
    unset it takes the step exactly when the regime changes to A or B.
   */
  lemma SwitchFrameOnce(global: Regime, global': Regime, switchFrame: int, step: nat)
    ensures switchFrame != -1 ==> NextSwitchFrame(global, global', switchFrame, step) == switchFrame
    ensures switchFrame == -1 ==>
      && (NextSwitchFrame(global, global', switchFrame, step) == step <==> global != global' && global' != Unclaimed)
      && (NextSwitchFrame(global, global', switchFrame, step) == -1 <==> !(global != global' && global' != Unclaimed))
  {
  }
}
