/**
 Sequence numbers of the frame encryption (xframe_aead.c) over an ideal AEAD: opening succeeds exactly
 for what the peer has sealed under the same nonce.
 */
module FrameAead {
  import opened Common

  const TAG := 16
  const U64: nat := 0x1_0000_0000_0000_0000

  // ---------- big-endian numbers ----------

  function Be(n: nat, w: nat): (b: Bytes)
    ensures |b| == w
  {
    if w == 0 then [] else Be(n / 256, w - 1) + [n % 256]
  }

  function OfBe(b: Bytes): nat {
    if b == [] then 0 else OfBe(b[..|b|-1]) * 256 + b[|b|-1] as int
  }

  lemma {:induction false} BeRoundTrip(n: nat, w: nat)
    requires n < Pow256(w)
    ensures OfBe(Be(n, w)) == n
    decreases w
  {
    if w > 0 {
      assert Be(n, w)[..w-1] == Be(n / 256, w - 1);
      BeRoundTrip(n / 256, w - 1);
    }
  }

  lemma {:induction false} OfBeRoundTrip(b: Bytes)
    ensures OfBe(b) < Pow256(|b|) && Be(OfBe(b), |b|) == b
    decreases |b|
  {
    if b != [] {
      OfBeRoundTrip(b[..|b|-1]);
      assert b == b[..|b|-1] + [b[|b|-1]];
      assert OfBe(b) / 256 == OfBe(b[..|b|-1]) && OfBe(b) % 256 == b[|b|-1] as int;
    }
  }

  lemma Width8()
    ensures Pow256(8) == U64
  {
    assert Pow256(2) == 0x1_0000 && Pow256(3) == 0x100_0000 && Pow256(4) == 0x1_0000_0000;
    assert Pow256(5) == 0x100_0000_0000 && Pow256(6) == 0x1_0000_0000_0000 && Pow256(7) == 0x100_0000_0000_0000;
  }

  // Byte i of eight is the number shifted right by 56 - 8i.
  lemma {:induction false} BeAt(n: nat, w: nat, i: nat)
    requires i < w
    ensures Be(n, w)[i] as int == n / Pow256(w - 1 - i) % 256
    decreases w
  {
    if i < w - 1 {
      BeAt(n / 256, w - 1, i);
      DivDiv(n, Pow256(w - 2 - i));
    }
  }

  lemma DivDiv(n: nat, p: nat)
    requires p > 0
    ensures n / 256 / p == n / (256 * p)
  {
    var q, r := n / 256, n % 256;
    var a, b := q / p, q % p;
    assert n == 256 * (p * a + b) + r;
    assert n == (256 * p) * a + (256 * b + r);
    assert 256 * b + r < 256 * p;
    DivUnique(n, 256 * p, a, 256 * b + r);
  }

  lemma DivUnique(n: nat, d: nat, q: nat, r: nat)
    requires d > 0 && n == d * q + r && r < d
    ensures n / d == q
  {
    if n / d > q {
      Scale(q + 1, n / d, d);
    } else if n / d < q {
      Scale(n / d + 1, q, d);
    }
  }

  lemma Scale(a: nat, b: nat, d: nat)
    requires a <= b
    ensures d * a <= d * b
  {
    assert d * b == d * a + d * (b - a);
  }

  // seq_write_be
  method SeqWriteBe(p: array<Byte>, at: nat, n: nat)
    requires at + 8 <= p.Length && n < U64
    modifies p
    ensures p[..] == old(p[..at]) + Be(n, 8) + old(p[at+8..])
  {
    var i := 0;
    while i < 8
      invariant 0 <= i <= 8
      invariant forall k :: 0 <= k < p.Length && !(at <= k < at + i) ==> p[k] == old(p[k])
      invariant forall k :: 0 <= k < i ==> p[at+k] == Be(n, 8)[k]
    {
      BeAt(n, 8, i);
      p[at+i] := n / Pow256(7 - i) % 256;
      i := i + 1;
    }
    assert p[at..at+8] == Be(n, 8);
    assert p[..] == p[..at] + p[at..at+8] + p[at+8..];
  }

  // seq_read_be
  method SeqReadBe(b: Bytes) returns (v: nat)
    requires |b| >= 8
    ensures v == OfBe(b[..8]) && v < U64
  {
    v := 0;
    for i := 0 to 8
      invariant v == OfBe(b[..i])
    {
      assert b[..i+1][..i] == b[..i];
      v := v * 256 + b[i] as int;
    }
    OfBeRoundTrip(b[..8]);
    Width8();
  }

  // ---------- what has been sealed ----------

  // One successful encryption: nonce, plaintext, and ciphertext with its tag.
  datatype Sealed = Sealed(nonce: Bytes, plain: Bytes, body: Bytes)

  // build_nonce
  function Nonce(salt: Bytes, n: nat): (r: Bytes) {
    salt + Be(n, 8)
  }

  // The frame of the i-th encryption (from 0): sequence number i + 1.
  function FrameOf(log: seq<Sealed>, i: nat): Bytes
    requires i < |log|
  {
    Be(i + 1, 8) + log[i].body
  }

  /** The i-th encryption was made under sequence number i + 1, and there are fewer than 2^64. */
  ghost predicate Session(salt: Bytes, log: seq<Sealed>) {
    && |salt| == 4 && |log| < U64
    && forall i :: 0 <= i < |log| ==> log[i].nonce == Nonce(salt, i + 1) && |log[i].body| == |log[i].plain| + TAG
  }

  lemma NonceInjective(salt: Bytes, m: nat, n: nat)
    requires m < U64 && n < U64 && Nonce(salt, m) == Nonce(salt, n)
    ensures m == n
  {
    Width8();
    assert Nonce(salt, m)[|salt|..] == Be(m, 8) && Nonce(salt, n)[|salt|..] == Be(n, 8);
    BeRoundTrip(m, 8);
    BeRoundTrip(n, 8);
  }

  /** No nonce is ever used twice, over a whole session and past the exhaustion of the counter. */
  lemma NoncesUnique(salt: Bytes, log: seq<Sealed>, i: nat, j: nat)
    requires Session(salt, log) && i < j < |log|
    ensures log[i].nonce != log[j].nonce
  {
    if log[i].nonce == log[j].nonce {
      NonceInjective(salt, i + 1, j + 1);
    }
  }

  // The ideal AEAD: what opens is what was sealed under that nonce.
  ghost predicate Opens(log: seq<Sealed>, nonce: Bytes, body: Bytes, plain: Bytes) {
    exists i :: 0 <= i < |log| && log[i] == Sealed(nonce, plain, body)
  }

  class Sender {
    const salt: Bytes
    const seal: (Bytes, Bytes) -> Bytes     // ciphertext and tag, by nonce and plaintext
    var sendSeq: nat
    ghost var log: seq<Sealed>

    ghost predicate Valid()
      reads this
    {
      && Session(salt, log)
      && (forall n, p :: |seal(n, p)| == |p| + TAG)
      && sendSeq == (|log| + 1) % U64
    }

    constructor (prefix: Bytes, cipher: (Bytes, Bytes) -> Bytes)
      requires |prefix| == 4 && forall n, p :: |cipher(n, p)| == |p| + TAG
      ensures Valid() && log == [] && salt == prefix
    {
      salt, seal, sendSeq, log := prefix, cipher, 1, [];
    }

    // xframe_aead_encrypt; `ok` is whether memory and the cipher served.
    method Encrypt(plain: Bytes, ok: bool) returns (frame: Option<Bytes>)
      requires Valid()
      modifies this
      ensures Valid()
      ensures frame.Some? <==> ok && |old(log)| < U64 - 1
      ensures frame.None? ==> log == old(log)
      ensures frame.Some? ==>
                && log == old(log) + [Sealed(Nonce(salt, |old(log)| + 1), plain, seal(Nonce(salt, |old(log)| + 1), plain))]
                && frame.value == FrameOf(log, |old(log)|)
    {
      hide Session, Be, Nonce;
      SessionSize(salt, log);
      var n := sendSeq;
      if n == 0 {
        return None;
      }
      if !ok {
        return None;
      }
      var nonce := Nonce(salt, n);
      var body := seal(nonce, plain);
      var buf := new Byte[8 + |body|](i requires 0 <= i < 8 + |body| => if i < 8 then 0 else body[i - 8]);
      assert buf[8..] == body;
      SeqWriteBe(buf, 0, n);
      SessionSnoc(salt, log, Sealed(nonce, plain, body));
      log := log + [Sealed(nonce, plain, body)];
      sendSeq := (n + 1) % U64;
      frame := Some(buf[..]);
    }
  }

  lemma SessionSize(salt: Bytes, log: seq<Sealed>)
    requires Session(salt, log)
    ensures |log| < U64
  {
  }

  lemma SessionSnoc(salt: Bytes, log: seq<Sealed>, s: Sealed)
    requires Session(salt, log) && |log| < U64 - 1
    requires s.nonce == Nonce(salt, |log| + 1) && |s.body| == |s.plain| + TAG
    ensures Session(salt, log + [s])
    ensures FrameOf(log + [s], |log|) == Be(|log| + 1, 8) + s.body
  {
    hide Nonce, Be;
  }

  // The frame is the one of encryption i.
  ghost predicate Genuine(log: seq<Sealed>, frame: Bytes, i: nat) {
    i < |log| && frame == FrameOf(log, i)
  }

  // The accepted plaintexts are those of strictly increasing encryptions.
  ghost predicate InOrder(log: seq<Sealed>, accepted: seq<Bytes>, at: seq<nat>) {
    && |at| == |accepted|
    && (forall k :: 0 <= k < |at| ==> at[k] < |log| && log[at[k]].plain == accepted[k])
    && (forall j, k :: 0 <= j < k < |at| ==> at[j] < at[k])
  }

  class Receiver {
    const salt: Bytes
    var recvMax: nat
    var seenAny: bool
    ghost var accepted: seq<Bytes>
    ghost var at: seq<nat>                  // which encryption each accepted plaintext is of

    // Against all the peer has sealed so far.
    ghost predicate Valid(log: seq<Sealed>)
      reads this
    {
      && Session(salt, log) && InOrder(log, accepted, at)
      && recvMax == (if at == [] then 0 else at[|at|-1] + 1)
      && (seenAny <==> at != [])
    }

    constructor (prefix: Bytes)
      requires |prefix| == 4
      ensures Valid([]) && accepted == [] && salt == prefix
    {
      salt, recvMax, seenAny, accepted, at := prefix, 0, false, [], [];
    }

    // More may be sealed between two frames.
    lemma Later(log: seq<Sealed>, log': seq<Sealed>)
      requires Valid(log) && log <= log' && Session(salt, log')
      ensures Valid(log')
    {
    }

    /** xframe_aead_decrypt of any frame at all; `verdict` is what the AEAD makes of it, if it gets that
        far.  By now the peer has sealed `log`, `before` when the last frame came.  A frame is accepted
        exactly if it is a genuine one later than all accepted before. */
    method Decrypt(frame: Bytes, verdict: Option<Bytes>, ghost before: seq<Sealed>, ghost log: seq<Sealed>)
      returns (plain: Option<Bytes>)
      requires Valid(before) && before <= log && Session(salt, log)
      requires |frame| >= 8 + TAG ==>
                 var nonce := Nonce(salt, OfBe(frame[..8]));
                 && (verdict.Some? ==> Opens(log, nonce, frame[8..], verdict.value))
                 && (verdict.None? ==> forall p :: !Opens(log, nonce, frame[8..], p))
      modifies this
      ensures Valid(log)
      ensures plain.Some? <==> exists i: nat :: Genuine(log, frame, i) && i >= old(recvMax)
      ensures plain.Some? ==> at != [] && Genuine(log, frame, at[|at|-1])
      ensures plain.Some? ==> accepted == old(accepted) + [plain.value] && recvMax > old(recvMax)
      ensures plain.None? ==> accepted == old(accepted) && recvMax == old(recvMax)
    {
      hide Session, Opens, OfBe, Nonce, FrameOf, Genuine;
      Later(before, log);
      if |frame| < 8 + TAG {
        GenuineLong(salt, log, frame);
        return None;
      }
      var n := SeqReadBe(frame);
      GenuineSeq(salt, log, frame, n);
      if n == 0 {
        return None;
      }
      if seenAny && n <= recvMax {
        return None;
      }
      if verdict.None? {
        GenuineOpens(salt, log, frame, n);
        return None;
      }
      SealedAt(salt, log, frame, n, verdict.value);
      recvMax, seenAny := n, true;
      accepted, at := accepted + [verdict.value], at + [n - 1];
      return verdict;
    }
  }

  lemma GenuineLong(salt: Bytes, log: seq<Sealed>, frame: Bytes)
    requires Session(salt, log) && |frame| < 8 + TAG
    ensures forall i: nat :: !Genuine(log, frame, i)
  {
  }

  lemma FrameParts(log: seq<Sealed>, i: nat)
    requires i < |log| < U64
    ensures var f := FrameOf(log, i); |f| >= 8 && OfBe(f[..8]) == i + 1 && f[8..] == log[i].body
  {
    Width8();
    var f := FrameOf(log, i);
    assert f[..8] == Be(i + 1, 8);
    BeRoundTrip(i + 1, 8);
  }

  // A genuine frame has the number of its encryption.
  lemma GenuineSeq(salt: Bytes, log: seq<Sealed>, frame: Bytes, n: nat)
    requires Session(salt, log) && |frame| >= 8 && n == OfBe(frame[..8])
    ensures forall i: nat :: Genuine(log, frame, i) ==> i + 1 == n
  {
    forall i: nat | Genuine(log, frame, i) ensures i + 1 == n {
      FrameParts(log, i);
    }
  }

  lemma GenuineOpens(salt: Bytes, log: seq<Sealed>, frame: Bytes, n: nat)
    requires Session(salt, log) && |frame| >= 8 && n == OfBe(frame[..8])
    requires forall p :: !Opens(log, Nonce(salt, n), frame[8..], p)
    ensures forall i: nat :: !Genuine(log, frame, i)
  {
    forall i: nat | i < |log| ensures frame != FrameOf(log, i) {
      FrameParts(log, i);
      assert !Opens(log, Nonce(salt, n), frame[8..], log[i].plain);
    }
  }

  // What opens under number n is encryption n - 1, and the frame is its frame.
  lemma SealedAt(salt: Bytes, log: seq<Sealed>, frame: Bytes, n: nat, plain: Bytes)
    requires Session(salt, log) && |frame| >= 8 && n == OfBe(frame[..8]) && 0 < n
    requires Opens(log, Nonce(salt, n), frame[8..], plain)
    ensures n - 1 < |log| && log[n-1].plain == plain && Genuine(log, frame, n - 1)
  {
    hide Be, OfBe;
    var i :| 0 <= i < |log| && log[i] == Sealed(Nonce(salt, n), plain, frame[8..]);
    Width8();
    OfBeRoundTrip(frame[..8]);
    NonceInjective(salt, i + 1, n);
    assert frame == frame[..8] + frame[8..];
  }
}
