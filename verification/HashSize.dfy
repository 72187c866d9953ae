/** Rounding a table size up to a power of two in 64-bit words (xhash_next_pow2 of xhash.h). */
module HashSize {

  type Word = bv64

  const DEFAULT_SIZE: Word := 64
  const HALF: Word := 0x8000_0000_0000_0000

  // Every bit below the highest set one is set.
  function Smear(x: Word): Word {
    var a := x | (x >> 1);
    var b := a | (a >> 2);
    var c := b | (b >> 4);
    var d := c | (c >> 8);
    var e := d | (d >> 16);
    e | (e >> 32)
  }

  function NextPow2(size: Word): Word {
    if size == 0 then DEFAULT_SIZE else Smear(size - 1) + 1
  }

  predicate IsPow2(x: Word) {
    x != 0 && x & (x - 1) == 0
  }

  // All bits below the highest are set.
  predicate Mask(m: Word) {
    m | (m >> 1) == m
  }

  predicate Within(x: Word, m: Word) {
    x & !m == 0
  }

  // Smear gives the least mask with all bits of x.
  lemma SmearIsMask(x: Word)
    ensures Mask(Smear(x)) && Within(x, Smear(x))
  {
  }

  lemma SmearLeast(x: Word, m: Word)
    requires Mask(m) && Within(x, m)
    ensures Within(Smear(x), m)
  {
  }

  lemma MaskBits(m: Word)
    ensures Mask(m) <==> m & (m + 1) == 0
    ensures Mask(m) ==> Mask(m >> 1) && (m != 0 ==> !Within(m, m >> 1))
  {
  }

  // For masks, having the bits of x is being no smaller.
  lemma MaskCovers(x: Word, m: Word)
    requires Mask(m)
    ensures x <= m <==> Within(x, m)
  {
  }

  /** The result is a power of two not below the size exactly where there is one in a word, and then
      the least, except for size 0, which takes the default; above half the range the sum wraps round to 0. */
  lemma NextPow2Exact(size: Word)
    ensures size <= HALF <==> IsPow2(NextPow2(size)) && NextPow2(size) >= size
    ensures size > HALF ==> NextPow2(size) == 0
    ensures size == 0 ==> NextPow2(size) == 64
  {
    hide Smear, Mask, Within;
    if size == 0 {
      return;
    }
    var x, s := size - 1, Smear(size - 1);
    SmearIsMask(x);
    MaskBits(s);
    MaskCovers(x, s);
    MaskCovers(x, s >> 1);
    if size <= HALF {
      HalfMask();
      MaskCovers(x, HALF - 1);
      SmearLeast(x, HALF - 1);
      MaskCovers(s, HALF - 1);
    } else {
      TopMask(s);
    }
  }

  lemma HalfMask()
    ensures Mask(HALF - 1)
  {
  }

  lemma TopMask(m: Word)
    requires Mask(m) && m >= HALF
    ensures m + 1 == 0
  {
  }

  // Below a power of two are the words with bits below its bit.
  lemma BelowPow2(x: Word, q: Word)
    requires IsPow2(q)
    ensures Mask(q - 1) && (x < q <==> Within(x, q - 1))
  {
  }

  // r is at most q, and not 0.
  predicate UpTo(r: Word, q: Word) {
    r - 1 < q
  }

  function Pred(x: Word): Word {
    x - 1
  }

  /** No power of two lies between: one that is not below the size is not below the result. */
  lemma NextPow2Least(size: Word, q: Word)
    requires size != 0 && IsPow2(q) && UpTo(size, q)
    ensures UpTo(NextPow2(size), q)
  {
    hide Smear, IsPow2, UpTo, NextPow2, Pred;
    SmearUpTo(size, Pred(size), q);
    NextUpTo(size, Pred(size), q);
  }

  lemma SmearUpTo(size: Word, x: Word, q: Word)
    requires IsPow2(q) && UpTo(size, q) && x == Pred(size)
    ensures Smear(x) < q
  {
    hide Smear, Mask, Within, IsPow2;
    BelowPow2(x, q);
    SmearLeast(x, q - 1);
    BelowPow2(Smear(x), q);
  }

  lemma NextUpTo(size: Word, x: Word, q: Word)
    requires size != 0 && x == Pred(size) && Smear(x) < q
    ensures UpTo(NextPow2(size), q)
  {
    hide Smear;
  }
}
