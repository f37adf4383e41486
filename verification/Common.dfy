/** What several modules share. */
module Common {

  datatype Option<+T> = None | Some(value: T)

  ghost predicate NoTwice<T>(xs: seq<T>) {
    forall i, j | 0 <= i < j < |xs| :: xs[i] != xs[j]
  }

  lemma NonNegativeFactor(a: real, b: real)
    requires a * b >= 0.0 && b > 0.0
    ensures a >= 0.0
  {
  }

  // ---- thresholds of the performance verdicts ----------------------------------------------------

  const GATE_BAR: real := 0.05
  const NOISY: real := 0.40

  function Larger(a: real, b: real): real { if a >= b then a else b }
}
