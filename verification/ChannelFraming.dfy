/**
 The packet framings of xchannel.c as a printer (xchannel_send_packet) and an incremental parser
 (process_input), and the theorem that ties them together over any chunking of the stream.
 */
module ChannelFraming {
  import opened Common

  const CR: Byte := 13
  const LF: Byte := 10

  datatype Frame = Len32 | Len16 | Crlf

  // ---------- numbers in headers ----------

  function WriteU32(v: nat): (r: Bytes)
    requires v < 0x1_0000_0000
    ensures |r| == 4
  {
    [v / 0x100_0000, v / 0x1_0000 % 256, v / 0x100 % 256, v % 256]
  }

  function ReadU32(p: Bytes): (v: nat)
    requires |p| >= 4
    ensures v < 0x1_0000_0000
  {
    p[0] as int * 0x100_0000 + p[1] as int * 0x1_0000 + p[2] as int * 0x100 + p[3] as int
  }

  function WriteU16(v: nat): (r: Bytes)
    requires v < 0x1_0000
    ensures |r| == 2
  {
    [v / 0x100, v % 256]
  }

  function ReadU16(p: Bytes): (v: nat)
    requires |p| >= 2
    ensures v < 0x1_0000
  {
    p[0] as int * 0x100 + p[1] as int
  }

  lemma U32RoundTrip(v: nat, tail: Bytes)
    requires v < 0x1_0000_0000
    ensures ReadU32(WriteU32(v) + tail) == v
  {
    var a, b, c := v / 0x100, v / 0x1_0000, v / 0x100_0000;
    assert v == 0x100 * a + v % 256;
    assert a == 0x100 * b + a % 256 && b == a / 256;
    assert b == 0x100 * c + b % 256 && c == b / 256;
  }

  // ---------- one packet ----------

  // find_crlf
  function FindCrlf(buf: Bytes): (r: Option<nat>)
    ensures r.Some? ==> r.value + 1 < |buf| && buf[r.value] == CR && buf[r.value+1] == LF
    ensures r.Some? ==> forall i :: 0 <= i < r.value ==> !(buf[i] == CR && buf[i+1] == LF)
    ensures r.None? ==> forall i :: 0 <= i < |buf| - 1 ==> !(buf[i] == CR && buf[i+1] == LF)
  {
    if |buf| < 2 then None
    else if buf[0] == CR && buf[1] == LF then Some(0)
    else
      var r := FindCrlf(buf[1..]);
      if r.Some? then Some(r.value + 1) else None
  }

  ghost predicate NoCrlf(p: Bytes) {
    forall i :: 0 <= i < |p| - 1 ==> !(p[i] == CR && p[i+1] == LF)
  }

  datatype Step = More | TooLarge | Packet(body: Bytes, used: nat)

  // One round of process_input.
  function ParseOne(f: Frame, max: nat, buf: Bytes): (r: Step)
    ensures r.Packet? ==> 0 < r.used <= |buf| && |r.body| < r.used
  {
    match f
    case Len32 =>
      if |buf| < 4 then More
      else
        var n := ReadU32(buf);
        if n > max then TooLarge else if |buf| < n + 4 then More else Packet(buf[4..4+n], n + 4)
    case Len16 =>
      if |buf| < 2 then More
      else
        var n := ReadU16(buf);
        if n > max then TooLarge else if |buf| < n + 2 then More else Packet(buf[2..2+n], n + 2)
    case Crlf =>
      var pos := FindCrlf(buf);
      if pos.None? then (if |buf| > max then TooLarge else More)
      else if pos.value > max then TooLarge
      else Packet(buf[..pos.value], pos.value + 2)
  }

  // What process_input makes of a buffer: packets delivered, bytes kept, and whether the channel
  // was closed with packet_too_large.
  datatype Parsed = Parsed(packets: seq<Bytes>, rest: Bytes, closed: bool)

  function Parse(f: Frame, max: nat, buf: Bytes): Parsed
    decreases |buf|
  {
    match ParseOne(f, max, buf)
    case More => Parsed([], buf, false)
    case TooLarge => Parsed([], buf, true)
    case Packet(body, used) =>
      var r := Parse(f, max, buf[used..]);
      r.(packets := [body] + r.packets)
  }

  // What xchannel_send_packet puts on the wire, or None where it refuses.
  function Encode(f: Frame, p: Bytes): Option<Bytes> {
    match f
    case Len32 => if |p| >= 0x1_0000_0000 then None else Some(WriteU32(|p|) + p)
    case Len16 => if |p| >= 0x1_0000 then None else Some(WriteU16(|p|) + p)
    case Crlf => Some(p + [CR, LF])
  }

  // The packets a receiver with limit `max` takes under every chunking.
  ghost predicate Legal(f: Frame, max: nat, p: Bytes) {
    match f
    case Len32 => |p| <= max && |p| < 0x1_0000_0000
    case Len16 => |p| <= max && |p| < 0x1_0000
    case Crlf => NoCrlf(p) && |p| < max
  }

  function Wire(f: Frame, p: Bytes): Bytes {
    var e := Encode(f, p);
    if e.Some? then e.value else []
  }

  function Stream(f: Frame, ps: seq<Bytes>): Bytes {
    if ps == [] then [] else Wire(f, ps[0]) + Stream(f, ps[1..])
  }

  /** What goes on the wire: a length prefix with its most significant byte first, or CRLF behind. */
  lemma HeaderBytes(f: Frame, p: Bytes)
    ensures f == Len32 ==>
              if |p| <= 0xFFFF_FFFF then
                exists h: Bytes :: |h| == 4 && Encode(f, p) == Some(h + p)
                                   && |p| == ((h[0] as int * 256 + h[1] as int) * 256 + h[2] as int) * 256 + h[3] as int
              else Encode(f, p) == None
    ensures f == Len16 ==>
              if |p| <= 0xFFFF then
                exists h: Bytes :: |h| == 2 && Encode(f, p) == Some(h + p) && |p| == h[0] as int * 256 + h[1] as int
              else Encode(f, p) == None
    ensures f == Crlf ==> Encode(f, p) == Some(p + [13, 10])
  {
    if f == Len32 && |p| <= 0xFFFF_FFFF {
      var h := WriteU32(|p|);
      U32RoundTrip(|p|, []);
      assert h + [] == h && |h| == 4 && Encode(f, p) == Some(h + p);
    }
    if f == Len16 && |p| <= 0xFFFF {
      var h := WriteU16(|p|);
      assert |h| == 2 && Encode(f, p) == Some(h + p);
    }
  }

  // ---------- a packet is recognised as soon as it is complete, and not before ----------

  lemma FindCrlfAt(buf: Bytes, k: nat)
    requires k + 1 < |buf| && buf[k] == CR && buf[k+1] == LF
    requires forall i :: 0 <= i < k ==> !(buf[i] == CR && buf[i+1] == LF)
    ensures FindCrlf(buf) == Some(k)
  {
  }

  lemma Complete(f: Frame, max: nat, p: Bytes, tail: Bytes)
    requires Legal(f, max, p)
    ensures |Wire(f, p)| > |p|
    ensures ParseOne(f, max, Wire(f, p) + tail) == Packet(p, |Wire(f, p)|)
  {
    var w := Wire(f, p);
    match f {
      case Len32 =>
        assert w + tail == WriteU32(|p|) + (p + tail);
        U32RoundTrip(|p|, p + tail);
        assert (w + tail)[4..4+|p|] == p;
      case Len16 =>
        assert w + tail == WriteU16(|p|) + (p + tail);
        assert (w + tail)[2..2+|p|] == p;
      case Crlf =>
        FindCrlfAt(w + tail, |p|);
        assert (w + tail)[..|p|] == p;
    }
  }

  lemma Incomplete(f: Frame, max: nat, p: Bytes, k: nat)
    requires Legal(f, max, p) && k < |Wire(f, p)|
    ensures ParseOne(f, max, Wire(f, p)[..k]) == More
  {
    var w := Wire(f, p);
    match f {
      case Len32 =>
        if k >= 4 {
          assert w[..k] == WriteU32(|p|) + p[..k-4];
          U32RoundTrip(|p|, p[..k-4]);
        }
      case Len16 =>
        if k >= 2 {
          assert w[..k] == WriteU16(|p|) + p[..k-2];
        }
      case Crlf =>
        assert forall i :: 0 <= i < k - 1 ==> !(w[i] == CR && w[i+1] == LF);
    }
  }

  // ---------- parsing in pieces ----------

  lemma PacketStays(f: Frame, max: nat, a: Bytes, b: Bytes)
    requires ParseOne(f, max, a).Packet?
    ensures ParseOne(f, max, a + b) == ParseOne(f, max, a)
  {
    var r := ParseOne(f, max, a);
    match f {
      case Len32 => assert (a + b)[4..r.used] == a[4..r.used];
      case Len16 => assert (a + b)[2..r.used] == a[2..r.used];
      case Crlf =>
        FindCrlfAt(a + b, FindCrlf(a).value);
        assert (a + b)[..FindCrlf(a).value] == a[..FindCrlf(a).value];
    }
  }

  /** The parser may be run after any piece of input: what it keeps, followed by the next piece, is
      parsed to the same packets as the whole. */
  lemma {:induction false} ParseIncremental(f: Frame, max: nat, a: Bytes, b: Bytes)
    requires !Parse(f, max, a).closed
    ensures var r := Parse(f, max, a); var r2 := Parse(f, max, r.rest + b);
            Parse(f, max, a + b) == r2.(packets := r.packets + r2.packets)
    decreases |a|
  {
    hide ParseOne;
    var s := ParseOne(f, max, a);
    var r := Parse(f, max, a);
    if s.Packet? {
      var tail := a[s.used..];
      PacketStays(f, max, a, b);
      assert (a + b)[s.used..] == tail + b;
      ParseIncremental(f, max, tail, b);
      var r2 := Parse(f, max, r.rest + b);
      var rt := Parse(f, max, tail);
      assert [s.body] + (rt.packets + r2.packets) == r.packets + r2.packets;
    } else {
      assert r == Parsed([], a, false);
      assert [] + Parse(f, max, a + b).packets == Parse(f, max, a + b).packets;
    }
  }

  // The state after a sequence of reads, each followed by process_input.
  function Feed(f: Frame, max: nat, chunks: seq<Bytes>): Parsed {
    if chunks == [] then Parsed([], [], false)
    else
      var before := Feed(f, max, chunks[..|chunks|-1]);
      if before.closed then before
      else
        var r := Parse(f, max, before.rest + chunks[|chunks|-1]);
        r.(packets := before.packets + r.packets)
  }

  function Flat(chunks: seq<Bytes>): Bytes {
    if chunks == [] then [] else Flat(chunks[..|chunks|-1]) + chunks[|chunks|-1]
  }

  ghost predicate AllLegal(f: Frame, max: nat, ps: seq<Bytes>) {
    forall i :: 0 <= i < |ps| ==> Legal(f, max, ps[i])
  }

  // Any prefix of a legal stream parses without complaint, to a prefix of the packets.
  lemma {:induction false} PrefixParses(f: Frame, max: nat, ps: seq<Bytes>, k: nat)
    requires AllLegal(f, max, ps) && k <= |Stream(f, ps)|
    ensures var r := Parse(f, max, Stream(f, ps)[..k]);
            && !r.closed && r.packets <= ps
            && (k == |Stream(f, ps)| ==> r.packets == ps && r.rest == [])
    decreases |ps|
  {
    hide ParseOne, Wire, Legal;
    var s := Stream(f, ps);
    if ps == [] {
      assert s[..k] == [];
      NothingParsed(f, max);
    } else {
      var w, rest := Wire(f, ps[0]), ps[1..];
      if k < |w| {
        assert s[..k] == w[..k];
        Incomplete(f, max, ps[0], k);
      } else {
        var k' := k - |w|;
        Complete(f, max, ps[0], Stream(f, rest)[..k']);
        assert s[..k] == w + Stream(f, rest)[..k'];
        assert s[..k][|w|..] == Stream(f, rest)[..k'];
        PrefixParses(f, max, rest, k');
        assert ps == [ps[0]] + rest;
      }
    }
  }

  lemma NothingParsed(f: Frame, max: nat)
    ensures Parse(f, max, []) == Parsed([], [], false)
  {
  }

  lemma {:induction false} FeedIsParse(f: Frame, max: nat, ps: seq<Bytes>, chunks: seq<Bytes>)
    requires AllLegal(f, max, ps) && Flat(chunks) <= Stream(f, ps)
    ensures Feed(f, max, chunks) == Parse(f, max, Flat(chunks)) && !Feed(f, max, chunks).closed
    decreases |chunks|
  {
    if chunks == [] {
      NothingParsed(f, max);
    } else {
      var init, c := chunks[..|chunks|-1], chunks[|chunks|-1];
      var s := Stream(f, ps);
      assert Flat(init) <= s by {
        assert Flat(init) == s[..|Flat(init)|];
      }
      FeedIsParse(f, max, ps, init);
      ParseIncremental(f, max, Flat(init), c);
      assert Flat(chunks) == s[..|Flat(chunks)|];
      PrefixParses(f, max, ps, |Flat(chunks)|);
    }
  }

  /** Framing round trip: however the bytes of a legal stream are split into reads, exactly the
      packets that were sent are delivered, in order, and nothing is left over. */
  lemma Delivery(f: Frame, max: nat, ps: seq<Bytes>, chunks: seq<Bytes>)
    requires AllLegal(f, max, ps) && Flat(chunks) == Stream(f, ps)
    ensures Feed(f, max, chunks) == Parsed(ps, [], false)
  {
    FeedIsParse(f, max, ps, chunks);
    assert Stream(f, ps)[..|Stream(f, ps)|] == Stream(f, ps);
    PrefixParses(f, max, ps, |Stream(f, ps)|);
  }

  ghost predicate AlwaysDelivered(f: Frame, max: nat, p: Bytes) {
    forall chunks :: Flat(chunks) == Wire(f, p) ==> Feed(f, max, chunks) == Parsed([p], [], false)
  }

  /** For line framing the limit is strict: a line without CRLF inside arrives under every chunking
      exactly when it is shorter than max_packet.  One of just that length is lost if a read ends
      between its CR and its LF. */
  lemma CrlfLimitIsStrict(max: nat, p: Bytes)
    requires NoCrlf(p)
    ensures AlwaysDelivered(Crlf, max, p) <==> |p| < max
  {
    if |p| < max {
      forall chunks | Flat(chunks) == Wire(Crlf, p)
        ensures Feed(Crlf, max, chunks) == Parsed([p], [], false)
      {
        assert Stream(Crlf, [p]) == Wire(Crlf, p) + Stream(Crlf, []);
        Delivery(Crlf, max, [p], chunks);
      }
    } else {
      var a := p + [CR];
      var chunks := [a, [LF]];
      var none: seq<Bytes> := [];
      assert chunks[..1] == [a] && [a][..0] == none;
      assert Flat(chunks) == Flat([a]) + [LF] && Flat([a]) == [] + a;
      assert Flat(chunks) == Wire(Crlf, p);
      NothingParsed(Crlf, max);
      assert [] + a == a;
      assert ParseOne(Crlf, max, a) == TooLarge;
      assert Feed(Crlf, max, [a]).closed;
      assert Feed(Crlf, max, chunks).closed;
    }
  }

  // A line in the buffer with its CRLF is delivered up to that length, and refused beyond it.
  lemma LineInBuffer(max: nat, p: Bytes, tail: Bytes)
    requires NoCrlf(p + [CR])
    ensures ParseOne(Crlf, max, p + [13, 10] + tail) == if |p| <= max then Packet(p, |p| + 2) else TooLarge
  {
    var w := p + [13, 10] + tail;
    var q := p + [CR];
    assert forall i :: 0 <= i < |q| ==> w[i] == q[i];
    FindCrlfAt(w, |p|);
    assert w[..|p|] == p;
  }

  /** For length-prefixed framing every packet the sender accepts and the receiver allows arrives,
      and only those do. */
  lemma LengthLimitIsExact(f: Frame, max: nat, p: Bytes)
    requires f == Len32 || f == Len16
    requires Encode(f, p).Some?
    ensures AlwaysDelivered(f, max, p) <==> |p| <= max
  {
    if |p| <= max {
      forall chunks | Flat(chunks) == Wire(f, p)
        ensures Feed(f, max, chunks) == Parsed([p], [], false)
      {
        assert Stream(f, [p]) == Wire(f, p) + Stream(f, []);
        Delivery(f, max, [p], chunks);
      }
    } else {
      var w := Wire(f, p);
      var chunks := [w];
      var none: seq<Bytes> := [];
      assert chunks[..0] == none;
      assert Flat(chunks) == [] + w == w;
      assert [] + w == w;
      if f == Len32 {
        U32RoundTrip(|p|, p);
      }
      assert ParseOne(f, max, w) == TooLarge;
      assert Feed(f, max, chunks).closed;
    }
  }
}
