/** Facts about integer multiplication and Euclidean division, and duplicate-free sequences. */
module Basics {

  /** No element of `s` occurs twice. */
  predicate Distinct<T(==)>(s: seq<T>)
  {
    forall i, j :: 0 <= i < j < |s| ==> s[i] != s[j]
  }

  /** A nonlinear step stated once so that `ModUnique` can call it for both signs of the quotient gap. */
  lemma MulAtLeast(d: int, m: int)
    requires d >= 1 && m > 0
    ensures d * m >= m
  {
  }

  /** Distributes one more row of width `m`; row-major bounds (bottle grid, lattice wrapping) call it. */
  lemma MulSucc(q: int, m: int)
    ensures (q + 1) * m == q * m + m
  {
  }

  /** Dafny's `%` is the unique remainder in [0, m) of a quotient-remainder split. */
  lemma ModUnique(a: int, m: int, q: int, r: int)
    requires m > 0 && 0 <= r < m && a == q * m + r
    ensures a % m == r && a / m == q
  {
    var q', r' := a / m, a % m;
    assert a == q' * m + r';
    var d := q - q';
    assert d * m == q * m - q' * m;
    assert d * m == r' - r;
    if d > 0 {
      MulAtLeast(d, m);
    } else if d < 0 {
      MulAtLeast(-d, m);
    }
  }

  /** The quotient-remainder split, called where the wrapping and row-major proofs need it as a fact in scope. */
  lemma ModSplit(a: int, m: int)
    requires m > 0
    ensures a == (a / m) * m + a % m && 0 <= a % m < m
  {
  }

  /** Monotonicity of multiplication; the row-major index bound of the bottle grid calls it. */
  lemma MulMono(a: int, b: int, m: int)
    requires a <= b && m >= 0
    ensures a * m <= b * m
  {
  }
}
