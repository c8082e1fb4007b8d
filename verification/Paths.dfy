/** Paths of dictionary keys. */
module Paths {

  /** Neither path contains the other. */
  predicate Apart(p: seq<string>, q: seq<string>) {
    !(p <= q) && !(q <= p)
  }

  lemma ApartBelow(p: seq<string>, q: seq<string>)
    requires p != [] && q != [] && Apart(p, q) && p[0] == q[0]
    ensures |p| > 1 && |q| > 1 && Apart(p[1..], q[1..])
  {
    assert p == [p[0]] + p[1..] && q == [q[0]] + q[1..];
  }
}
