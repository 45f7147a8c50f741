/** Facts about products, quotients and finite sets that several components use. */
module Basics {

  lemma MulMono(a: nat, b: nat, n: nat)
    requires a <= b
    ensures a * n <= b * n
  {
  }

  lemma DivBound(a: nat, n: nat, b: nat)
    requires n > 0 && a * n <= b
    ensures a <= b / n
  {
    var q := b / n;
    if q < a {
      assert (q + 1) * n <= a * n by { MulMono(q + 1, a, n); }
    }
  }

  lemma OneLess<T>(a: set<T>, x: T)
    requires x in a
    ensures |a - {x}| == |a| - 1
  {
  }

  lemma OneMore<T>(a: set<T>, x: T)
    requires x !in a
    ensures |a + {x}| == |a| + 1
  {
  }
}
