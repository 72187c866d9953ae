/**
 The read side of a channel (xchannel.c, poll backend): recv into the input buffer, process_input,
 backpressure on READABLE and the reasons for which reading closes the channel.
 */
module ChannelInput {
  import opened Common
  import opened ChannelFraming
  import opened ChannelBuffer

  const READ_CHUNK := 8192

  datatype Reason = PacketTooLarge | OverConsume | ReadError | EndOfFile | OutOfMemory | ByApplication

  // One result of recv: at most n of the bytes that have arrived, EAGAIN, end of file or an error.
  datatype Recv = Got(n: nat) | Again | Eof | Failed

  // How the loop over recv ended.
  datatype Ending = Quiet | AtEof | AtError | NoMemory

  datatype Settings = Settings(frame: Frame, max: nat, limit: nat, eofCb: bool)

  // ---------- what one read event does, on values ----------

  // The read side: packets handed to packet_cb, bytes kept, whether READABLE is armed, whether
  // reading has ended, and the reason passed to close_cb.
  datatype Input = Input(delivered: seq<Bytes>, rest: Bytes, armed: bool, ended: bool, closed: Option<Reason>)

  function Close(s: Input, why: Reason): Input {
    if s.closed.Some? then s else s.(closed := Some(why), rest := [], armed := false, ended := true)
  }

  // process_input.  The application may close the channel inside the callback of the quit-th packet.
  function Handle(g: Settings, quit: Option<nat>, s: Input): Input {
    var p := Parse(g.frame, g.max, s.rest);
    if quit.Some? && 0 < quit.value <= |p.packets| then
      Close(s.(delivered := s.delivered + p.packets[..quit.value]), ByApplication)
    else
      var t := s.(delivered := s.delivered + p.packets, rest := p.rest);
      if p.closed then Close(t, PacketTooLarge) else t
  }

  predicate Over(g: Settings, s: Input) {
    g.limit > 0 && |s.rest| > g.limit
  }

  // The part of xchannel_read_event that follows the loop over recv.
  function Digest(g: Settings, quit: Option<nat>, s: Input): Input {
    var over := Over(g, s);
    var u := Handle(g, quit, if over then s.(armed := false) else s);
    if !over then u
    else if |u.delivered| == |s.delivered| then Close(u, OverConsume)
    else if u.closed.None? && !Over(g, u) then u.(armed := true)
    else u
  }

  function Finish(g: Settings, e: Ending, s: Input): Input {
    match e
    case AtError => Close(s, ReadError)
    case AtEof => if s.closed.Some? then s
                  else if g.eofCb then s.(ended := true, armed := false) else Close(s, EndOfFile)
    case _ => s
  }

  // One read event that received `c`.
  function AfterRead(g: Settings, quit: Option<nat>, s: Input, c: Bytes, e: Ending): Input {
    var t := s.(rest := s.rest + c);
    if e == NoMemory then Close(t, OutOfMemory) else Finish(g, e, Digest(g, quit, t))
  }

  // ---------- the loop over recv ----------

  // One read of the loop took the bytes numbered from .. to - 1 of those waiting: as many as recv would give,
  // a chunk of them at least, or all there are; and it was the first, or the limit was not passed yet.
  predicate OneRead(limit: nat, size: nat, waiting: nat, call: Recv, from: nat, to: nat) {
    && call.Got? && from < to <= waiting && to - from <= call.n
    && (to == waiting || to - from >= if call.n < 8192 then call.n else 8192)
    && (from > 0 && limit > 0 ==> size + from <= limit)
  }

  // The reads of one event, with `size` bytes buffered before; `at` is how far each of them got.
  ghost predicate Reads(limit: nat, size: nat, waiting: nat, calls: seq<Recv>, at: seq<nat>) {
    && 1 <= |at| <= 4 && at[0] == 0 && |at| - 1 <= |calls|
    && forall i :: 0 <= i < |at| - 1 ==> OneRead(limit, size, waiting, calls[i], at[i], at[i+1])
  }

  /** Why they ended: three reads, the limit passed, nothing there, the end of the stream, or an error. */
  ghost predicate Ends(limit: nat, size: nat, waiting: nat, calls: seq<Recv>, at: seq<nat>, e: Ending)
    requires |at| > 0
  {
    var k := |at| - 1;
    var full := k == 3 || (k > 0 && 0 < limit < size + at[k]);
    var call := if k < |calls| then calls[k] else Again;
    match e
    case Quiet => full || call == Again || (call.Got? && (call.n == 0 || at[k] == waiting))
    case AtEof => !full && call == Eof
    case AtError => !full && call == Failed
    case NoMemory => !full
  }

  // n bytes came in these reads, and this is how they ended.
  ghost predicate Received(limit: nat, size: nat, waiting: nat, calls: seq<Recv>, at: seq<nat>, n: int, e: Ending) {
    Reads(limit, size, waiting, calls, at) && at[|at|-1] == n && Ends(limit, size, waiting, calls, at, e)
  }

  lemma ReadsNone(limit: nat, size: nat, waiting: nat, calls: seq<Recv>)
    ensures Reads(limit, size, waiting, calls, [0])
  {
  }

  lemma OneMore(limit: nat, size: nat, waiting: nat, call: Recv, from: nat, to: nat)
    requires call.Got? && from < to <= waiting && to - from <= call.n
    requires to == waiting || to - from >= if call.n < 8192 then call.n else 8192
    requires from > 0 && limit > 0 ==> size + from <= limit
    ensures OneRead(limit, size, waiting, call, from, to)
  {
  }

  lemma ReadsMore(limit: nat, size: nat, waiting: nat, calls: seq<Recv>, at: seq<nat>, to: nat)
    requires Reads(limit, size, waiting, calls, at) && 1 <= |at| <= 3 && |at| <= |calls|
    requires OneRead(limit, size, waiting, calls[|at|-1], at[|at|-1], to)
    ensures Reads(limit, size, waiting, calls, at + [to])
  {
    hide OneRead;
    var at' := at + [to];
    forall i | 0 <= i < |at'| - 1 ensures OneRead(limit, size, waiting, calls[i], at'[i], at'[i+1]) {
      if i < |at| - 1 {
        assert OneRead(limit, size, waiting, calls[i], at[i], at[i+1]);
      }
    }
  }

  // ---------- the read side keeps up with the parser ----------

  // What has been delivered, against all bytes received so far.
  ghost predicate Tracks(g: Settings, s: Input, got: Bytes) {
    var p := Parse(g.frame, g.max, got);
    match s.closed
    case None => p == Parsed(s.delivered, s.rest, false)
    case Some(ByApplication) => s.delivered <= p.packets
    case Some(OutOfMemory) => s.delivered <= p.packets
    case Some(PacketTooLarge) => p.closed && s.delivered == p.packets
    case Some(_) => !p.closed && s.delivered == p.packets
  }

  // `got` parses to what was delivered before, then what the buffer still holds.
  ghost predicate Ahead(g: Settings, s: Input, got: Bytes) {
    var r := Parse(g.frame, g.max, s.rest);
    Parse(g.frame, g.max, got) == r.(packets := s.delivered + r.packets)
  }

  lemma DigestTracks(g: Settings, quit: Option<nat>, s: Input, got: Bytes)
    requires s.closed.None? && Ahead(g, s, got)
    ensures Tracks(g, Digest(g, quit, s), got) && Digest(g, quit, s).closed != Some(OutOfMemory)
  {
    hide Parse;
  }

  lemma FinishTracks(g: Settings, e: Ending, s: Input, got: Bytes)
    requires Tracks(g, s, got) && s.closed != Some(OutOfMemory)
    ensures Tracks(g, Finish(g, e, s), got)
  {
    hide Parse;
  }

  /** Whatever is read, what has been delivered is what the parser makes of everything received. */
  lemma AfterReadTracks(g: Settings, quit: Option<nat>, s: Input, got: Bytes, c: Bytes, e: Ending)
    requires s.closed.None? && Tracks(g, s, got)
    ensures Tracks(g, AfterRead(g, quit, s, c, e), got + c)
  {
    hide Parse, Digest, Finish;
    ParseIncremental(g.frame, g.max, got, c);
    var t := s.(rest := s.rest + c);
    if e != NoMemory {
      DigestTracks(g, quit, t, got + c);
      FinishTracks(g, e, Digest(g, quit, t), got + c);
    }
  }

  // The read side has closed for this reason.
  ghost predicate ClosedFor(r: Input, why: Reason) {
    r.closed == Some(why) && r.rest == [] && !r.armed && r.ended
  }

  /** What a read event makes of the bytes that came, in terms of what the buffer then parses to: the packets
      handed on, those up to the closing one if a callback closes; then the reason it closes for, or what is
      kept and whether READABLE stays armed. */
  lemma ReadGives(g: Settings, quit: Option<nat>, s: Input, c: Bytes, e: Ending)
    requires s.closed.None? && e != NoMemory
    ensures var r := AfterRead(g, quit, s, c, e);
            var p := Parse(g.frame, g.max, s.rest + c);
            var over := 0 < g.limit < |s.rest| + |c|;
            if quit.Some? && 0 < quit.value <= |p.packets| then
              r.delivered == s.delivered + p.packets[..quit.value] && ClosedFor(r, ByApplication)
            else
              && r.delivered == s.delivered + p.packets
              && if p.closed then ClosedFor(r, PacketTooLarge)
                 else if over && p.packets == [] then ClosedFor(r, OverConsume)
                 else if e == AtError then ClosedFor(r, ReadError)
                 else if e == AtEof && !g.eofCb then ClosedFor(r, EndOfFile)
                 else
                   && r.closed.None? && r.rest == p.rest && r.ended == (s.ended || e == AtEof)
                   && r.armed == (e == Quiet && if over then |p.rest| <= g.limit else s.armed)
  {
    hide Parse, Digest;
    DigestGives(g, quit, s.(rest := s.rest + c));
  }

  lemma DigestGives(g: Settings, quit: Option<nat>, s: Input)
    requires s.closed.None?
    ensures var r := Digest(g, quit, s);
            var p := Parse(g.frame, g.max, s.rest);
            var over := 0 < g.limit < |s.rest|;
            if quit.Some? && 0 < quit.value <= |p.packets| then
              r.delivered == s.delivered + p.packets[..quit.value] && ClosedFor(r, ByApplication)
            else
              && r.delivered == s.delivered + p.packets
              && if p.closed then ClosedFor(r, PacketTooLarge)
                 else if over && p.packets == [] then ClosedFor(r, OverConsume)
                 else r == Input(r.delivered, p.rest, if over then |p.rest| <= g.limit else s.armed, s.ended, None)
  {
    hide Parse;
  }

  /** Without room for what came nothing of it is handed on, and the channel closes. */
  lemma ReadWithoutRoom(g: Settings, quit: Option<nat>, s: Input, c: Bytes)
    requires s.closed.None?
    ensures var r := AfterRead(g, quit, s, c, NoMemory);
            r.delivered == s.delivered && ClosedFor(r, OutOfMemory)
  {
  }

  /** The end of the stream is reported, after everything received has been handed on. */
  lemma EndIsReported(g: Settings, quit: Option<nat>, s: Input, got: Bytes, c: Bytes)
    requires s.closed.None? && Tracks(g, s, got)
    ensures var r := AfterRead(g, quit, s, c, AtEof);
            && !r.armed && (r.closed.Some? || (g.eofCb && r.ended))
            && (r.closed == Some(EndOfFile) || r.closed.None? ==>
                  r.delivered == Parse(g.frame, g.max, got + c).packets)
  {
    hide Parse, Digest;
    AfterReadTracks(g, quit, s, got, c, AtEof);
    DigestTidy(g, quit, s.(rest := s.rest + c));
  }

  lemma DigestTidy(g: Settings, quit: Option<nat>, s: Input)
    requires s.closed.None?
    ensures var r := Digest(g, quit, s); r.closed.Some? ==> !r.armed && r.closed != Some(EndOfFile)
  {
    hide Parse;
  }

  // ---------- a legal stream never stalls ----------

  // The longest packet the receiver takes under every chunking.
  function Longest(g: Settings): (n: int) {
    match g.frame
    case Len32 => if g.max < 0x1_0000_0000 then g.max else 0xffff_ffff
    case Len16 => if g.max < 0x1_0000 then g.max else 0xffff
    case Crlf => g.max - 1
  }

  // The longest piece of a packet that is not yet a packet.
  function Partial(g: Settings): (n: int) {
    match g.frame
    case Len32 => Longest(g) + 3
    case Len16 => Longest(g) + 1
    case Crlf => Longest(g) + 1
  }

  lemma PartialBound(g: Settings, p: Bytes)
    requires Legal(g.frame, g.max, p)
    ensures |p| <= Longest(g) && |Wire(g.frame, p)| <= Partial(g) + 1
    ensures |p| == Longest(g) ==> |Wire(g.frame, p)| == Partial(g) + 1
  {
  }

  // What the parser keeps of a legal stream is a piece of one packet.
  lemma {:induction false} RestIsPartial(g: Settings, ps: seq<Bytes>, k: nat)
    requires g.max > 0 && AllLegal(g.frame, g.max, ps) && k <= |Stream(g.frame, ps)|
    ensures |Parse(g.frame, g.max, Stream(g.frame, ps)[..k]).rest| <= Partial(g)
    decreases |ps|
  {
    hide ParseOne, Wire, Legal;
    var f := g.frame;
    var s := Stream(f, ps);
    if ps == [] {
      assert s[..k] == [];
      NothingParsed(f, g.max);
    } else {
      var w, rest := Wire(f, ps[0]), ps[1..];
      PartialBound(g, ps[0]);
      if k < |w| {
        assert s[..k] == w[..k];
        Incomplete(f, g.max, ps[0], k);
      } else {
        var k' := k - |w|;
        Complete(f, g.max, ps[0], Stream(f, rest)[..k']);
        assert s[..k] == w + Stream(f, rest)[..k'];
        assert s[..k][|w|..] == Stream(f, rest)[..k'];
        RestIsPartial(g, rest, k');
      }
    }
  }

  // A sequence of read events without error, end of file or interference by the application.
  function Start(): Input {
    Input([], [], true, false, None)
  }

  function Run(g: Settings, chunks: seq<Bytes>): Input {
    if chunks == [] then Start()
    else
      var s := Run(g, chunks[..|chunks|-1]);
      if s.closed.Some? || !s.armed then s
      else AfterRead(g, None, s, chunks[|chunks|-1], Quiet)
  }

  /** While READABLE is off nothing is read, and nothing else turns it on again. */
  lemma {:induction false} UnarmedStays(g: Settings, chunks: seq<Bytes>, more: seq<Bytes>)
    requires !Run(g, chunks).armed
    ensures Run(g, chunks + more) == Run(g, chunks)
    decreases |more|
  {
    if more == [] {
      assert chunks + more == chunks;
    } else {
      var init := more[..|more|-1];
      assert (chunks + more)[..|chunks + more|-1] == chunks + init;
      UnarmedStays(g, chunks, init);
    }
  }

  ghost predicate Flowing(s: Input) {
    s.closed.None? && s.armed && !s.ended
  }

  predicate Roomy(g: Settings) {
    g.limit == 0 || g.limit >= Partial(g)
  }

  lemma LegalReadFlows(g: Settings, ps: seq<Bytes>, s: Input, got: Bytes, c: Bytes)
    requires g.max > 0 && Roomy(g)
    requires AllLegal(g.frame, g.max, ps) && got + c <= Stream(g.frame, ps)
    requires Flowing(s) && Tracks(g, s, got)
    ensures Flowing(AfterRead(g, None, s, c, Quiet))
  {
    hide Parse, Stream, AllLegal, Partial;
    var st, k := Stream(g.frame, ps), |got + c|;
    assert got + c == st[..k];
    PrefixParses(g.frame, g.max, ps, k);
    RestIsPartial(g, ps, k);
    ParseIncremental(g.frame, g.max, got, c);
    NothingTaken(g.frame, g.max, s.rest + c);
  }

  lemma NothingTaken(f: Frame, max: nat, buf: Bytes)
    ensures Parse(f, max, buf).packets == [] ==> Parse(f, max, buf).rest == buf
  {
  }

  lemma {:induction false} RunFlows(g: Settings, ps: seq<Bytes>, chunks: seq<Bytes>)
    requires g.max > 0 && Roomy(g)
    requires AllLegal(g.frame, g.max, ps) && Flat(chunks) <= Stream(g.frame, ps)
    ensures Flowing(Run(g, chunks)) && Tracks(g, Run(g, chunks), Flat(chunks))
    decreases |chunks|
  {
    hide Parse, AfterRead;
    if chunks == [] {
      NothingParsed(g.frame, g.max);
    } else {
      var before, c := chunks[..|chunks|-1], chunks[|chunks|-1];
      assert Flat(before) <= Stream(g.frame, ps) by {
        assert Flat(before) == Stream(g.frame, ps)[..|Flat(before)|];
      }
      RunFlows(g, ps, before);
      LegalReadFlows(g, ps, Run(g, before), Flat(before), c);
      AfterReadTracks(g, None, Run(g, before), Flat(before), c, Quiet);
    }
  }

  /** With room for a partial packet, a legal stream is delivered whole whatever reads it arrives in,
      the channel stays open and the next read is always armed. */
  lemma RunDelivers(g: Settings, ps: seq<Bytes>, chunks: seq<Bytes>)
    requires g.max > 0 && Roomy(g)
    requires AllLegal(g.frame, g.max, ps) && Flat(chunks) == Stream(g.frame, ps)
    ensures Run(g, chunks) == Input(ps, [], true, false, None)
  {
    hide Parse, Run;
    RunFlows(g, ps, chunks);
    assert Stream(g.frame, ps)[..|Stream(g.frame, ps)|] == Stream(g.frame, ps);
    PrefixParses(g.frame, g.max, ps, |Stream(g.frame, ps)|);
  }

  // The first k bytes of w, one per read event.
  function Singles(w: Bytes, k: nat): (r: seq<Bytes>)
    requires k <= |w|
    ensures |r| == k && Flat(r) == w[..k]
  {
    if k == 0 then []
    else
      var r := Singles(w, k - 1);
      assert (r + [[w[k-1]]])[..k-1] == r;
      r + [[w[k-1]]]
  }

  lemma {:induction false} TrickleFills(g: Settings, p: Bytes, k: nat)
    requires g.limit > 0 && Legal(g.frame, g.max, p) && k < |Wire(g.frame, p)| && k <= g.limit
    ensures Run(g, Singles(Wire(g.frame, p), k)) == Start().(rest := Wire(g.frame, p)[..k])
  {
    hide Legal, Wire, ParseOne;
    var w := Wire(g.frame, p);
    if k > 0 {
      TrickleFills(g, p, k - 1);
      var r := Singles(w, k);
      assert r[..k-1] == Singles(w, k - 1);
      assert w[..k-1] + [w[k-1]] == w[..k];
      Incomplete(g.frame, g.max, p, k);
    }
  }

  // A smaller limit closes the channel on a legal packet that trickles in.
  lemma TrickleStalls(g: Settings, p: Bytes)
    requires 0 < g.limit && Legal(g.frame, g.max, p) && g.limit + 1 < |Wire(g.frame, p)|
    ensures Run(g, Singles(Wire(g.frame, p), g.limit + 1)).closed == Some(OverConsume)
  {
    hide Legal, Wire, ParseOne;
    var w, k := Wire(g.frame, p), g.limit + 1;
    TrickleFills(g, p, g.limit);
    var r := Singles(w, k);
    assert r[..k-1] == Singles(w, k - 1);
    assert w[..k-1] + [w[k-1]] == w[..k];
    Incomplete(g.frame, g.max, p, k);
  }

  ghost predicate NeverStalls(g: Settings) {
    forall ps, chunks :: AllLegal(g.frame, g.max, ps) && Flat(chunks) <= Stream(g.frame, ps)
                         ==> Flowing(Run(g, chunks))
  }

  /** Exactly when legal input can never be closed for over-consumption or left unread: the input
      limit is off, or holds the longest piece of a packet (for LEN32, max_packet + 3 bytes). */
  lemma LimitIsExact(g: Settings)
    requires g.max > 0
    ensures NeverStalls(g) <==> Roomy(g)
  {
    if Roomy(g) {
      forall ps, chunks | AllLegal(g.frame, g.max, ps) && Flat(chunks) <= Stream(g.frame, ps)
        ensures Flowing(Run(g, chunks))
      {
        RunFlows(g, ps, chunks);
      }
    } else {
      var p: Bytes := seq(Longest(g), i => 0);
      assert Legal(g.frame, g.max, p);
      var w := Wire(g.frame, p);
      PartialBound(g, p);
      TrickleStalls(g, p);
      var ps, chunks := [p], Singles(w, g.limit + 1);
      assert Stream(g.frame, ps) == w + Stream(g.frame, []);
      assert Stream(g.frame, ps)[..g.limit + 1] == w[..g.limit + 1];
      assert Flat(chunks) <= Stream(g.frame, ps);
      assert AllLegal(g.frame, g.max, ps);
      assert !Flowing(Run(g, chunks));
    }
  }

  // ---------- the channel object ----------

  class Reader {
    const g: Settings
    const inb: Buffer
    var delivered: seq<Bytes>        // the arguments of packet_cb so far
    var armed: bool                  // READABLE is registered with the poll loop
    var readClosed: bool
    var closedBy: Option<Reason>
    var closeCalls: seq<Reason>      // the arguments of close_cb so far
    var pending: Bytes               // arrived in the socket, not yet received
    ghost var got: Bytes             // received so far
    ghost var sent: Bytes            // everything the peer's bytes have been so far

    ghost function View(): Input
      requires inb.Valid()
      reads this, inb, inb.data
    {
      Input(delivered, if closedBy.Some? then [] else inb.Contents(), armed, readClosed, closedBy)
    }

    // close_cb has been called once if the channel is closed, and never otherwise.
    ghost predicate Tidy()
      reads this, inb
    {
      && inb.Valid()
      && (closedBy.Some? ==> !armed && readClosed && closeCalls == [closedBy.value])
      && (closedBy.None? ==> closeCalls == [])
    }

    ghost predicate Valid()
      reads this, inb, inb.data
    {
      Tidy() && sent == got + pending && Tracks(g, View(), got)
    }

    constructor (settings: Settings)
      requires settings.max > 0
      ensures Valid() && g == settings && fresh(inb) && fresh(inb.data)
      ensures View() == Start() && sent == [] && got == []
    {
      g := settings;
      inb := new Buffer();
      delivered, armed, readClosed, closedBy, closeCalls := [], true, false, None, [];
      pending, got, sent := [], [], [];
      new;
      NothingParsed(g.frame, g.max);
    }

    // Bytes reach the socket.
    method Arrive(bytes: Bytes)
      requires Valid()
      modifies this`pending, this`sent
      ensures Valid() && sent == old(sent) + bytes && pending == old(pending) + bytes
    {
      pending, sent := pending + bytes, sent + bytes;
    }

    // xchannel_close
    method CloseWith(why: Reason)
      requires Tidy()
      modifies this`armed, this`readClosed, this`closedBy, this`closeCalls
      ensures Tidy() && View() == Close(old(View()), why)
      ensures closedBy == if old(closedBy).Some? then old(closedBy) else Some(why)
    {
      if closedBy.Some? {
        return;
      }
      closedBy, armed, readClosed := Some(why), false, true;
      closeCalls := closeCalls + [why];
    }

    // One round of process_input: what the front of the buffer holds.
    method Front() returns (s: Step)
      requires inb.Valid()
      ensures s == ParseOne(g.frame, g.max, inb.Contents())
    {
      match g.frame {
        case Len32 => s := FrontLen32();
        case Len16 => s := FrontLen16();
        case Crlf => s := FrontCrlf();
      }
    }

    method FrontLen32() returns (s: Step)
      requires inb.Valid() && g.frame == Len32
      ensures s == ParseOne(g.frame, g.max, inb.Contents())
    {
      var avail, data, off := inb.Size(), inb.data, inb.off;
      if avail < 4 {
        return More;
      }
      var n := ReadU32(data[off..off+4]);
      assert data[off..off+4] == inb.Contents()[..4];
      assert n == ReadU32(inb.Contents());
      if n > g.max {
        return TooLarge;
      }
      if avail < n + 4 {
        return More;
      }
      s := Packet(data[off+4..off+4+n], n + 4);
      assert data[off+4..off+4+n] == inb.Contents()[4..4+n];
    }

    method FrontLen16() returns (s: Step)
      requires inb.Valid() && g.frame == Len16
      ensures s == ParseOne(g.frame, g.max, inb.Contents())
    {
      var avail, data, off := inb.Size(), inb.data, inb.off;
      if avail < 2 {
        return More;
      }
      var n := ReadU16(data[off..off+2]);
      assert data[off..off+2] == inb.Contents()[..2];
      assert n == ReadU16(inb.Contents());
      if n > g.max {
        return TooLarge;
      }
      if avail < n + 2 {
        return More;
      }
      s := Packet(data[off+2..off+2+n], n + 2);
      assert data[off+2..off+2+n] == inb.Contents()[2..2+n];
    }

    method FrontCrlf() returns (s: Step)
      requires inb.Valid() && g.frame == Crlf
      ensures s == ParseOne(g.frame, g.max, inb.Contents())
    {
      var pos := ScanCrlf();
      if pos.None? {
        return if inb.Size() > g.max then TooLarge else More;
      }
      if pos.value > g.max {
        return TooLarge;
      }
      s := Packet(inb.data[inb.off..inb.off+pos.value], pos.value + 2);
      assert inb.data[inb.off..inb.off+pos.value] == inb.Contents()[..pos.value];
    }

    // find_crlf
    method ScanCrlf() returns (r: Option<nat>)
      requires inb.Valid()
      ensures r == FindCrlf(inb.Contents())
    {
      var n, i := inb.Size(), 0;
      ghost var c := inb.Contents();
      if n < 2 {
        return None;
      }
      while i <= n - 2
        invariant 0 <= i <= n - 1
        invariant forall j :: 0 <= j < i ==> !(c[j] == CR && c[j+1] == LF)
      {
        if inb.data[inb.off+i] == CR && inb.data[inb.off+i+1] == LF {
          FindCrlfAt(c, i);
          return Some(i);
        }
        i := i + 1;
      }
      return None;
    }

    // One round of process_input, which says whether there is another.
    method ProcessOne(quit: Option<nat>, rc: nat, ghost before: Input, ghost done: seq<Bytes>)
      returns (more: bool, ghost body: Bytes)
      requires Tidy() && rc == |done| && closedBy.None? && inb.Size() > 0
      requires View() == before.(delivered := before.delivered + done, rest := inb.Contents())
      requires Midway(g, quit, before, done, inb.Contents())
      modifies this`delivered, this`armed, this`readClosed, this`closedBy, this`closeCalls
      modifies inb`off, inb`len
      ensures Tidy()
      ensures more ==>
                && closedBy.None? && inb.len - inb.off < old(inb.len - inb.off)
                && View() == before.(delivered := before.delivered + (done + [body]), rest := inb.Contents())
                && Midway(g, quit, before, done + [body], inb.Contents())
      ensures !more ==> View() == Handle(g, quit, before)
      ensures !more && closedBy != Some(ByApplication) ==> delivered == old(delivered)
    {
      hide Parse, ParseOne, Handle, Close, Midway, Tracks;
      var s := Front();
      ghost var c := inb.Contents();
      MidwayStep(g, quit, before, done, c);
      body := [];
      match s {
        case More => more := false;
        case TooLarge =>
          CloseWith(PacketTooLarge);
          more := false;
        case Packet(packet, used) =>
          PacketFits(g.frame, g.max, c);
          body := packet;
          assert (before.delivered + done) + [body] == before.delivered + (done + [body]);
          delivered := delivered + [packet];
          more := quit != Some(rc + 1);
          if more {
            inb.Consume(used);
          } else {
            CloseWith(ByApplication);
          }
      }
    }

    // process_input
    method ProcessInput(quit: Option<nat>) returns (rc: nat)
      requires Tidy()
      modifies this`delivered, this`armed, this`readClosed, this`closedBy, this`closeCalls
      modifies inb`off, inb`len
      ensures Tidy()
      ensures View() == if old(closedBy).Some? then old(View()) else Handle(g, quit, old(View()))
      ensures old(closedBy).Some? ==> rc == 0
      ensures closedBy != Some(ByApplication) ==> rc == |delivered| - |old(delivered)|
    {
      hide Parse, ParseOne, Handle, Close, Midway, Tracks;
      rc := 0;
      if closedBy.Some? {
        return;
      }
      ghost var before, done := View(), [];
      MidwayStart(g, quit, before);
      while inb.Size() > 0
        invariant Tidy() && rc == |done| && closedBy.None?
        invariant View() == before.(delivered := before.delivered + done, rest := inb.Contents())
        invariant Midway(g, quit, before, done, inb.Contents())
        decreases inb.len - inb.off
      {
        var more, body := ProcessOne(quit, rc, before, done);
        if !more {
          return;
        }
        done := done + [body];
        rc := rc + 1;
      }
      MidwayEmpty(g, quit, before, done);
    }

    // recv into the space behind the buffered bytes: it returns at most `chunk` of the bytes that
    // have arrived, and EAGAIN when there are none.
    method Receive(call: Recv, chunk: nat) returns (r: Recv)
      requires inb.Valid() && chunk <= inb.data.Length - inb.len
      modifies this`pending, this`got, inb`len, inb.data
      ensures inb.Valid() && old(got) <= got && got + pending == old(got + pending)
      ensures inb.Contents() == old(inb.Contents()) + got[|old(got)|..]
      ensures |got| - |old(got)| == if r.Got? then r.n else 0
      ensures r.Got? ==> call.Got? && 0 < r.n <= chunk && (r.n == call.n || r.n == chunk || pending == [])
      ensures !call.Got? ==> r == call
      ensures call.Got? ==> (r.Got? && r.n <= call.n) || (r.Again? && (call.n == 0 || chunk == 0 || pending == []))
    {
      if !call.Got? {
        return call;
      }
      var room := if call.n < chunk then call.n else chunk;
      var n := if room < |pending| then room else |pending|;
      if n == 0 {
        return Again;
      }
      inb.Put(pending[..n]);
      got, pending := got + pending[..n], pending[n..];
      return Got(n);
    }

    // One turn of the loop over recv; None where the buffer cannot grow.
    method ReceiveMore(call: Recv) returns (r: Option<Recv>)
      requires Tidy() && closedBy.None?
      modifies this`pending, this`got, inb, inb.data
      ensures Tidy() && old(got) <= got && got + pending == old(got + pending)
      ensures View() == old(View()).(rest := old(inb.Contents()) + got[|old(got)|..])
      ensures inb.data == old(inb.data) || fresh(inb.data)
      ensures |inb.Contents()| <= |old(inb.Contents())| + INT_MAX
      ensures r.None? ==> got == old(got) && |inb.Contents()| + READ_CHUNK > (SIZE_MAX + 1) / 2
      ensures r.Some? && !call.Got? ==> r.value == call
      ensures r.Some? && call.Got? ==>
                if r.value.Got? then
                  && |old(got)| < |got| <= |old(got)| + call.n
                  && (pending == [] || |got| - |old(got)| >= if call.n < 8192 then call.n else 8192)
                else r.value.Again? && (call.n == 0 || pending == [])
      ensures r.Some? && !r.value.Got? ==> got == old(got)
    {
      hide Tracks;
      var ok := inb.Reserve(READ_CHUNK);
      if !ok {
        return None;
      }
      var space := inb.data.Length - inb.len;
      var n := Receive(call, if space > INT_MAX then INT_MAX else space);
      return Some(n);
    }

    // One turn of the loop over recv: None to go on, else how the loop ends.
    method ReadOnce(calls: seq<Recv>, retry: nat, ghost size: nat, ghost at0: seq<nat>)
      returns (e: Option<Ending>, ghost at: seq<nat>)
      requires Tidy() && closedBy.None? && retry < 3 && |at0| == retry + 1 && at0[0] == 0
      requires |inb.Contents()| == size + at0[retry] && (retry > 0 && g.limit > 0 ==> |inb.Contents()| <= g.limit)
      requires Reads(g.limit, size, at0[retry] + |pending|, calls, at0)
      modifies this`armed, this`readClosed, this`closedBy, this`closeCalls, this`pending, this`got
      modifies inb, inb.data
      ensures Tidy() && old(got) <= got && got + pending == old(got + pending)
      ensures var t := old(View()).(rest := old(inb.Contents()) + got[|old(got)|..]);
              View() == if e == Some(NoMemory) then Close(t, OutOfMemory) else t
      ensures |at| > 0 && at[|at|-1] + |pending| == at0[retry] + |old(pending)|
      ensures Reads(g.limit, size, at0[retry] + |old(pending)|, calls, at)
      ensures e.Some? ==> Received(g.limit, size, at0[retry] + |old(pending)|, calls, at,
                                   at0[retry] + |got| - |old(got)|, e.value)
      ensures e.None? ==> |at| == retry + 2 <= 3 && at[0] == 0 && (g.limit > 0 ==> |inb.Contents()| <= g.limit)
      ensures inb.data == old(inb.data) || fresh(inb.data)
      ensures |inb.Contents()| <= |old(inb.Contents())| + INT_MAX
      ensures e == Some(NoMemory) ==> |inb.Contents()| + READ_CHUNK > (SIZE_MAX + 1) / 2
    {
      hide Close, Tracks, OneRead, Reads;
      at := at0;
      var r := ReceiveMore(if retry < |calls| then calls[retry] else Again);
      match r {
        case None =>
          CloseWith(OutOfMemory);
          return Some(NoMemory), at;
        case Some(Got(_)) =>
          ghost var to := at0[retry] + (|got| - |old(got)|);
          OneMore(g.limit, size, to + |pending|, calls[retry], at0[retry], to);
          ReadsMore(g.limit, size, to + |pending|, calls, at0, to);
          at := at0 + [to];
          if g.limit > 0 && inb.Size() > g.limit {
            return Some(Quiet), at;
          }
          return if retry + 1 == 3 then Some(Quiet) else None, at;
        case Some(Again) => return Some(Quiet), at;
        case Some(Eof) => return Some(AtEof), at;
        case Some(Failed) => return Some(AtError), at;
      }
    }

    // The loop over recv of xchannel_read_event: at most three reads, fewer once the limit is passed.
    method Fill(calls: seq<Recv>) returns (e: Ending, ghost at: seq<nat>)
      requires Tidy() && closedBy.None?
      modifies this`armed, this`readClosed, this`closedBy, this`closeCalls, this`pending, this`got
      modifies inb, inb.data
      ensures Tidy() && old(got) <= got && got + pending == old(got + pending)
      ensures var t := old(View()).(rest := old(inb.Contents()) + got[|old(got)|..]);
              View() == if e == NoMemory then Close(t, OutOfMemory) else t
      ensures e == AtEof ==> !readClosed
      ensures var size, waiting := |old(inb.Contents())|, |old(pending)|;
              if old(readClosed) then e == Quiet && got == old(got)
              else Received(g.limit, size, waiting, calls, at, |got| - |old(got)|, e)
      ensures inb.data == old(inb.data) || fresh(inb.data)
      ensures |inb.Contents()| <= |old(inb.Contents())| + 3 * INT_MAX
      ensures e == NoMemory ==> |inb.Contents()| + READ_CHUNK > (SIZE_MAX + 1) / 2
    {
      hide Close, Tracks, OneRead, Reads, Received;
      ghost var v, c, before, size, waiting := View(), inb.Contents(), got, |inb.Contents()|, |pending|;
      e, at := Quiet, [0];
      ReadsNone(g.limit, size, waiting, calls);
      var retry := 0;
      while !readClosed
        invariant Tidy() && closedBy.None? && 0 <= retry < 3
        invariant before <= got && got + pending == before + old(pending)
        invariant View() == v.(rest := c + got[|before|..]) && |inb.Contents()| <= size + retry * INT_MAX
        invariant |at| == retry + 1 && at[0] == 0 && at[retry] == |got| - |before| && Reads(g.limit, size, waiting, calls, at)
        invariant retry > 0 && g.limit > 0 ==> |inb.Contents()| <= g.limit
        invariant old(readClosed) ==> got == before
        invariant inb.data == old(inb.data) || fresh(inb.data)
        decreases 3 - retry
      {
        ghost var held := got;
        var r;
        r, at := ReadOnce(calls, retry, size, at);
        Appended(c, before, held, got);
        if r.Some? {
          return r.value, at;
        }
        retry := retry + 1;
      }
    }

    // xchannel_read_eof
    method ReadEof()
      requires Tidy()
      modifies this`armed, this`readClosed, this`closedBy, this`closeCalls
      ensures Tidy()
      ensures old(!readClosed) || old(closedBy.Some?) ==> View() == Finish(g, AtEof, old(View()))
    {
      if closedBy.Some? || readClosed {
        return;
      }
      readClosed, armed := true, false;
      if !g.eofCb {
        CloseWith(EndOfFile);
      }
    }

    // process_input with the backpressure around it.
    method DigestInput(quit: Option<nat>)
      requires Tidy()
      modifies this`delivered, this`armed, this`readClosed, this`closedBy, this`closeCalls
      modifies inb`off, inb`len
      ensures Tidy()
      ensures View() == if old(closedBy).Some? then old(View()) else Digest(g, quit, old(View()))
      ensures closedBy.None? ==> readClosed == old(readClosed)
    {
      hide Parse;
      var over := closedBy.None? && g.limit > 0 && inb.Size() > g.limit;
      if over {
        armed := false;
      }
      var n := ProcessInput(quit);
      if n == 0 && over {
        CloseWith(OverConsume);
      }
      if over && closedBy.None? && inb.Size() <= g.limit {
        armed := true;
      }
    }

    // xchannel_read_event: AfterRead of what recv returned.
    method ReadEvent(calls: seq<Recv>, quit: Option<nat>) returns (e: Ending, ghost at: seq<nat>)
      requires Valid()
      modifies this, inb, inb.data
      ensures Valid() && sent == old(sent) && old(got) <= got
      ensures if old(closedBy).Some? then View() == old(View())
              else View() == AfterRead(g, quit, old(View()), got[|old(got)|..], e)
      ensures var size, waiting := |old(inb.Contents())|, |old(pending)|;
              if old(closedBy).Some? || old(readClosed) then got == old(got)
              else Received(g.limit, size, waiting, calls, at, |got| - |old(got)|, e)
      ensures e == NoMemory ==> |old(inb.Contents())| + 3 * INT_MAX + READ_CHUNK > (SIZE_MAX + 1) / 2
      ensures inb.data == old(inb.data) || fresh(inb.data)
    {
      hide Digest, Tracks, Received;
      at := [0];
      if closedBy.Some? {
        return Quiet, at;
      }
      e, at := Fill(calls);
      DigestInput(quit);
      if e == AtError {
        CloseWith(ReadError);
      } else if e == AtEof {
        ReadEof();
      }
      assert old(got) + got[|old(got)|..] == got;
      AfterReadTracks(g, quit, old(View()), old(got), got[|old(got)|..], e);
    }
  }

  lemma Appended(c: Bytes, a: Bytes, b: Bytes, d: Bytes)
    requires a <= b <= d
    ensures c + b[|a|..] + d[|b|..] == c + d[|a|..]
  {
    assert d[|a|..] == b[|a|..] + d[|b|..];
  }

  // Handle of `before`, when `done` has been delivered and `rest` is still buffered.
  ghost predicate Midway(g: Settings, quit: Option<nat>, before: Input, done: seq<Bytes>, rest: Bytes) {
    var p := Parse(g.frame, g.max, rest);
    && before.closed.None?
    && Parse(g.frame, g.max, before.rest) == p.(packets := done + p.packets)
    && (quit.Some? && quit.value > 0 ==> |done| < quit.value)
  }

  lemma MidwayStart(g: Settings, quit: Option<nat>, before: Input)
    requires before.closed.None?
    ensures Midway(g, quit, before, [], before.rest)
    ensures before == before.(delivered := before.delivered + [], rest := before.rest)
  {
    hide Parse;
    var p := Parse(g.frame, g.max, before.rest);
    assert [] + p.packets == p.packets && before.delivered + [] == before.delivered;
  }

  lemma PacketFits(f: Frame, max: nat, buf: Bytes)
    ensures var s := ParseOne(f, max, buf); s.Packet? ==> 0 < s.used <= |buf|
  {
  }

  lemma MidwayStep(g: Settings, quit: Option<nat>, before: Input, done: seq<Bytes>, rest: Bytes)
    requires Midway(g, quit, before, done, rest)
    ensures var now := before.(delivered := before.delivered + done, rest := rest);
            match ParseOne(g.frame, g.max, rest)
            case More => Handle(g, quit, before) == now
            case TooLarge => Handle(g, quit, before) == Close(now, PacketTooLarge)
            case Packet(body, used) =>
              if quit == Some(|done| + 1) then
                Handle(g, quit, before)
                == Close(now.(delivered := before.delivered + (done + [body])), ByApplication)
              else Midway(g, quit, before, done + [body], rest[used..])
  {
    hide ParseOne;
    var s := ParseOne(g.frame, g.max, rest);
    if s.Packet? {
      PacketFits(g.frame, g.max, rest);
      var p := Parse(g.frame, g.max, rest[s.used..]);
      assert done + ([s.body] + p.packets) == (done + [s.body]) + p.packets;
    } else {
      assert done + [] == done;
    }
  }

  lemma MidwayEmpty(g: Settings, quit: Option<nat>, before: Input, done: seq<Bytes>)
    requires Midway(g, quit, before, done, [])
    ensures Handle(g, quit, before) == before.(delivered := before.delivered + done, rest := [])
  {
    NothingParsed(g.frame, g.max);
    assert done + [] == done;
  }
}
