/** Sign facts about products of reals, stated once so that proofs about
    prices and returns can cite them instead of asking the solver for
    non-linear reasoning in a large context. */
module RealFacts {
  lemma MulPositive(x: real, y: real)
    requires x > 0.0 && y > 0.0
    ensures x * y > 0.0
  {
  }

  lemma MulNonNegative(x: real, y: real)
    requires x >= 0.0 && y >= 0.0
    ensures x * y >= 0.0
  {
  }
}
