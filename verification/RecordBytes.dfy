/** Numbers as little-endian bytes of a fixed width, unsigned and two's complement. */
module RecordBytes {
  import opened Common

  function Le(n: nat, w: nat): (b: Bytes)
    ensures |b| == w
  {
    if w == 0 then [] else [n % 256] + Le(n / 256, w - 1)
  }

  function OfLe(b: Bytes): (n: nat)
    ensures n < Pow256(|b|)
  {
    if b == [] then 0 else b[0] as int + 256 * OfLe(b[1..])
  }

  lemma {:induction false} LeRoundTrip(n: nat, w: nat)
    requires n < Pow256(w)
    ensures OfLe(Le(n, w)) == n
    decreases w
  {
    if w > 0 {
      var b := Le(n, w);
      assert b[1..] == Le(n / 256, w - 1);
      LeRoundTrip(n / 256, w - 1);
    }
  }

  lemma {:induction false} ZeroBytes(b: Bytes)
    requires forall i :: 0 <= i < |b| ==> b[i] == 0
    ensures OfLe(b) == 0
    decreases |b|
  {
    if b != [] {
      ZeroBytes(b[1..]);
    }
  }

  // Two's complement
  function ToWord(v: int, w: nat): (n: nat)
    requires w > 0 && -(Pow256(w) / 2) <= v < Pow256(w) / 2
    ensures n < Pow256(w)
  {
    if v >= 0 then v else v + Pow256(w)
  }

  function OfWord(n: nat, w: nat): int {
    if n < Pow256(w) / 2 then n else n - Pow256(w)
  }

  lemma {:induction false} WordRoundTrip(v: int, w: nat)
    requires w > 0 && -(Pow256(w) / 2) <= v < Pow256(w) / 2
    ensures OfWord(ToWord(v, w), w) == v
  {
    assert Pow256(w) == 256 * Pow256(w - 1);
  }

  lemma Powers()
    ensures Pow256(1) == 0x100 && Pow256(2) == 0x1_0000 && Pow256(4) == 0x1_0000_0000
    ensures Pow256(8) == 0x1_0000_0000_0000_0000
  {
    assert Pow256(3) == 0x100_0000;
    assert Pow256(5) == 0x100_0000_0000;
    assert Pow256(6) == 0x1_0000_0000_0000;
    assert Pow256(7) == 0x100_0000_0000_0000;
  }
}
