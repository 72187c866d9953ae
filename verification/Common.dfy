/** Notions shared by the other modules. */
module Common {

  datatype Option<T> = None | Some(value: T)

  type Byte = b: int | 0 <= b < 256

  type Bytes = seq<Byte>

  // How many numbers w bytes can hold.
  function Pow256(w: nat): (p: nat)
    ensures p > 0
  {
    if w == 0 then 1 else 256 * Pow256(w - 1)
  }

  ghost predicate Unique<T(!new)>(xs: seq<T>) {
    forall i, j :: 0 <= i < j < |xs| ==> xs[i] != xs[j]
  }

  lemma SubsetSize<T>(a: set<T>, b: set<T>)
    requires a <= b
    ensures |a| <= |b| && (|a| == |b| ==> a == b)
  {
    assert b == a + (b - a);
  }

  // There is always an address that is not in use.
  lemma FreshAddress(used: set<nat>) returns (a: nat)
    ensures a !in used
  {
    var rest, bound: nat := used, 0;
    while rest != {}
      invariant rest <= used && forall q :: q in used ==> q in rest || q < bound
      decreases rest
    {
      var q :| q in rest;
      rest := rest - {q};
      bound := if q < bound then bound else q + 1;
    }
    a := bound;
  }
}
