/** An order fact about products that the solver needs to be told. */
module RealOrder {

  lemma ProductOrder(a: real, b: real, factor: real)
    requires factor > 0.0
    ensures a * factor <= b * factor ==> a <= b
  {
    if a > b {
      assert (a - b) * factor > 0.0;
      assert (a - b) * factor == a * factor - b * factor;
    }
  }
}
