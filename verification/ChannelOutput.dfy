/**
 The write side of a channel (xchannel.c, poll backend): direct sends, the output queue, WRITABLE
 arming, connecting, and the two deferred closes.  What send and the poll registration return, and
 what the callbacks do, are inputs.  The functions say what each operation makes of the state, the
 class at the end does it in place.
 */
module ChannelOutput {
  import opened Common
  import opened ChannelFraming
  import opened ChannelBuffer

  // What send or writev did.
  datatype Sent = Took(n: nat) | Blocked | Broken

  // Flushed and HalfClosed are the reasons given by the two deferred closes.
  datatype Reason = WriteError | ConnectError | PollError | OutOfMemory | SocketError | EndOfFile
                  | ByApplication | Flushed | HalfClosed

  // Something the application does to the channel, possibly from inside a callback.
  datatype Act =
    | Send(a: Bytes, b: Bytes, now: Sent, poll: bool)
    | CloseFlush(net: seq<Sent>, poll: bool)
    | ShutFlush(net: seq<Sent>, poll: bool)
    | CloseNow

  datatype Event =
    | App(act: Act)
    | Writable(net: seq<Sent>)
    | Connected(ok: bool, acts: seq<Act>, net: seq<Sent>, poll: bool)
    | PeerEof(cb: Option<seq<Act>>)
    | SocketFailed

  // `queue` is the output buffer of an open channel, `wire` the bytes the kernel has taken,
  // `accepted` the concatenation of all accepted sends, `fin` whether SHUT_WR was issued.
  datatype Out = Out(connected: bool, connecting: bool, readClosed: bool, writeClosed: bool,
                     closing: bool, shutting: bool, armed: bool, closed: Option<Reason>,
                     queue: Bytes, wire: Bytes, accepted: Bytes, fin: bool)

  // ---------- what the operations do ----------

  function Start(connecting: bool): Out {
    Out(!connecting, connecting, false, false, false, false, connecting, None, [], [], [], false)
  }

  // has_pending_output
  predicate Waiting(o: Out) {
    o.connecting || o.queue != []
  }

  // close_internal
  function Close(o: Out, why: Reason): Out {
    if o.closed.Some? then o
    else Out(false, false, true, true, false, false, false, Some(why), [], o.wire, o.accepted, o.fin)
  }

  // arm_writable
  function Arm(o: Out, poll: bool): Out {
    if o.closed.Some? || !poll then Close(o, PollError) else o.(armed := true)
  }

  // finish_deferred_close
  function Deferred(o: Out): Out {
    if o.closed.Some? || Waiting(o) then o
    else if o.closing then Close(o, Flushed)
    else
      var t := if o.shutting then ShutWrite(o) else o;
      if t.readClosed && t.writeClosed then Close(t, HalfClosed) else t
  }

  // shutdown_write_now
  function ShutWrite(o: Out): Out {
    if o.writeClosed then o else o.(writeClosed := true, shutting := false, armed := false, fin := true)
  }

  // How many of `size` queued bytes the kernel takes before it blocks, and whether it fails.
  function Take(size: nat, net: seq<Sent>): (r: (nat, bool))
    ensures r.0 <= size && (r.1 ==> r.0 < size)
    decreases |net|
  {
    if size == 0 || net == [] then (0, false)
    else
      match net[0]
      case Blocked => (0, false)
      case Broken => (0, true)
      case Took(n) =>
        if n == 0 then (0, true)
        else
          var chunk := if size > INT_MAX then INT_MAX else size;
          var m := if n < chunk then n else chunk;
          var r := Take(size - m, net[1..]);
          (m + r.0, r.1)
  }

  function Taken(o: Out, n: nat): Out
    requires n <= |o.queue|
  {
    o.(wire := o.wire + o.queue[..n], queue := o.queue[n..])
  }

  // flush_output
  function Flush(o: Out, net: seq<Sent>): Out {
    if o.closed.Some? || o.connecting then o
    else
      var k := Take(|o.queue|, net);
      var t := Taken(o, k.0);
      if k.1 then Close(t, WriteError)
      else if t.queue != [] then t
      else Deferred(t.(armed := false))
  }

  // check_send_limit
  function Refusal(limit: nat, o: Out, a: Bytes, b: Bytes): (rc: int) {
    if o.closed.Some? || o.closing || o.writeClosed || o.shutting then -1
    else if limit > 0 && |o.queue| >= limit then -2
    else if |a| > SIZE_MAX - |b| then -1
    else 0
  }

  // queue_or_send_iov, where the buffer can grow
  function SendIt(limit: nat, o: Out, a: Bytes, b: Bytes, now: Sent, poll: bool): (r: (Out, int)) {
    var m := a + b;
    if m == [] then (o, 0)
    else if Refusal(limit, o, a, b) != 0 then (o, Refusal(limit, o, a, b))
    else if Waiting(o) || !o.connected then Enqueue(o, m, poll)
    else SendNow(o, m, now, poll)
  }

  // Anything in the queue must drain first.
  function Enqueue(o: Out, m: Bytes, poll: bool): (Out, int) {
    var t := o.(queue := o.queue + m, accepted := o.accepted + m);
    if o.queue != [] then (t, 0) else (Arm(t, poll), if poll then 0 else -1)
  }

  // The kernel has taken n bytes of m, the rest waits.
  function Offered(o: Out, m: Bytes, n: nat): Out
    requires n <= |m|
  {
    o.(wire := o.wire + m[..n], queue := m[n..], accepted := o.accepted + m)
  }

  function SendNow(o: Out, m: Bytes, now: Sent, poll: bool): (Out, int) {
    if now == Broken then (Close(o, WriteError), -1)
    else
      var n := if now == Blocked then 0 else if now.n < |m| then now.n else |m|;
      var t := Offered(o, m, n);
      if n == |m| then (t, 0) else (Arm(t, poll), if poll then 0 else -1)
  }

  // xchannel_close_after_flush
  function CloseLater(o: Out, net: seq<Sent>, poll: bool): Out {
    if o.closed.Some? then o
    else
      var t := Flush(o.(closing := true), net);
      if t.closed.None? && Waiting(t) then Arm(t, poll) else t
  }

  // xchannel_shutdown_write_after_flush
  function ShutLater(o: Out, net: seq<Sent>, poll: bool): Out {
    if o.closed.Some? || o.writeClosed then o
    else
      var t := Flush(o.(shutting := true), net);
      if t.closed.None? && t.shutting && Waiting(t) then Arm(t, poll) else t
  }

  function Perform(limit: nat, o: Out, act: Act): Out {
    match act
    case Send(a, b, now, poll) => SendIt(limit, o, a, b, now, poll).0
    case CloseFlush(net, poll) => CloseLater(o, net, poll)
    case ShutFlush(net, poll) => ShutLater(o, net, poll)
    case CloseNow => Close(o, ByApplication)
  }

  function PerformAll(limit: nat, o: Out, acts: seq<Act>): Out {
    if acts == [] then o else Perform(limit, PerformAll(limit, o, acts[..|acts|-1]), acts[|acts|-1])
  }

  // finish_connect.  The callback may send, so WRITABLE is settled only after it.
  function Connect(limit: nat, o: Out, ok: bool, acts: seq<Act>, net: seq<Sent>, poll: bool): Out {
    if o.closed.Some? || !o.connecting then o
    else if !ok then Close(o, ConnectError)
    else
      var t := PerformAll(limit, o.(connecting := false, connected := true, armed := false), acts);
      var u := Flush(t, net);
      if u.queue != [] then Arm(u, poll) else u
  }

  // xchannel_read_eof
  function ReadEof(limit: nat, o: Out, cb: Option<seq<Act>>): Out {
    if o.closed.Some? || o.readClosed then o
    else
      var t := o.(readClosed := true);
      if cb.None? then Close(t, EndOfFile) else Deferred(PerformAll(limit, t, cb.value))
  }

  function Handle(limit: nat, o: Out, e: Event): Out {
    match e
    case App(act) => Perform(limit, o, act)
    case Writable(net) => Flush(o, net)
    case Connected(ok, acts, net, poll) => Connect(limit, o, ok, acts, net, poll)
    case PeerEof(cb) => ReadEof(limit, o, cb)
    case SocketFailed => Close(o, SocketError)
  }

  function Run(limit: nat, o: Out, es: seq<Event>): Out {
    if es == [] then o else Handle(limit, Run(limit, o, es[..|es|-1]), es[|es|-1])
  }

  // ---------- invariants ----------

  /** Nothing is lost, reordered or doubled: the wire followed by the queue is what was accepted.
      The deferred closes, and SHUT_WR, come only after everything accepted is on the wire. */
  ghost predicate Good(o: Out) {
    && (o.fin ==> o.wire == o.accepted)
    && match o.closed
       case None =>
         && o.wire + o.queue == o.accepted
         && o.fin == o.writeClosed
         && (o.writeClosed ==> !Waiting(o) && !o.shutting)
         && (o.connected || o.connecting)
       case Some(why) =>
         && o.wire <= o.accepted
         && (why == Flushed || why == HalfClosed ==> o.wire == o.accepted)
         && (why == HalfClosed ==> o.fin)
         && o == Close(o.(closed := None), why)
  }

  /** WRITABLE is armed exactly while there is something to wait for, and no deferred close waits
      for nothing. */
  ghost predicate Calm(o: Out) {
    o.closed.None? ==> (o.armed <==> Waiting(o)) && (o.closing || o.shutting ==> Waiting(o))
  }

  // What holds between events.
  ghost predicate Settled(o: Out) {
    Calm(o) && (o.closed.None? ==> !(o.readClosed && o.writeClosed))
  }

  // Nothing already sent or accepted changes.
  ghost predicate Extends(o: Out, o': Out) {
    && o.wire <= o'.wire && o.accepted <= o'.accepted
    && (o.closed.Some? ==> o' == o)
    && (o'.connecting ==> o.connecting)
    && (o.closing ==> o'.accepted == o.accepted && (o'.closed.None? ==> o'.closing))
    && (o.fin ==> o'.fin && o'.wire == o.wire && o'.accepted == o.accepted)
  }

  lemma ExtendsTrans(a: Out, b: Out, c: Out)
    requires Extends(a, b) && Extends(b, c)
    ensures Extends(a, c)
  {
    PrefixTrans(a.wire, b.wire, c.wire);
    PrefixTrans(a.accepted, b.accepted, c.accepted);
  }

  lemma PrefixTrans(x: Bytes, y: Bytes, z: Bytes)
    requires x <= y && y <= z
    ensures x <= z
  {
    assert forall i :: 0 <= i < |x| ==> x[i] == y[i] == z[i];
  }

  // ---------- every operation keeps them ----------

  lemma ArmGood(o: Out, poll: bool)
    requires Good(o)
    ensures Good(Arm(o, poll)) && Extends(o, Arm(o, poll))
    ensures Waiting(o) ==> Settled(Arm(o, poll))
  {
  }

  lemma DeferredGood(o: Out)
    requires Good(o)
    ensures Good(Deferred(o)) && Extends(o, Deferred(o))
    ensures Calm(o) || (!Waiting(o) && !o.armed) ==> Settled(Deferred(o))
  {
  }

  lemma FlushGood(o: Out, net: seq<Sent>)
    requires Good(o)
    ensures Good(Flush(o, net)) && Extends(o, Flush(o, net))
    ensures Flush(o, net).queue == [] && !o.connecting ==> Settled(Flush(o, net))
    ensures Flush(o, net).closed.None? && Waiting(Flush(o, net)) ==> Flush(o, net).shutting == o.shutting
    ensures Settled(o) ==> Settled(Flush(o, net))
    ensures Calm(o) ==> Calm(Flush(o, net))
  {
    hide Take;
    if o.closed.None? && !o.connecting {
      var k := Take(|o.queue|, net);
      var t := Taken(o, k.0);
      assert t.wire + t.queue == o.wire + o.queue;
      if !k.1 && t.queue == [] {
        DeferredGood(t.(armed := false));
      }
    }
  }

  // A step that keeps Good keeps the rest as well.
  ghost predicate Keeps(o: Out, o': Out) {
    Good(o') && Extends(o, o') && (Calm(o) ==> Calm(o')) && (Settled(o) ==> Settled(o'))
  }

  lemma EnqueueGood(o: Out, m: Bytes, poll: bool)
    requires Good(o) && o.closed.None? && !o.writeClosed && !o.closing && m != []
    ensures Keeps(o, Enqueue(o, m, poll).0)
  {
    hide Arm;
    var t := o.(queue := o.queue + m, accepted := o.accepted + m);
    assert (o.wire + o.queue) + m == o.wire + (o.queue + m);
    if o.queue == [] {
      ArmGood(t, poll);
    }
  }

  lemma SendNowGood(o: Out, m: Bytes, now: Sent, poll: bool)
    requires Good(o) && o.closed.None? && !o.writeClosed && !o.closing && !Waiting(o)
    ensures Keeps(o, SendNow(o, m, now, poll).0)
  {
    hide Arm, Offered, Good, Extends, Settled, Calm;
    if now == Broken {
      CloseKeeps(o, WriteError);
    } else {
      var n := if now == Blocked then 0 else if now.n < |m| then now.n else |m|;
      OfferedGood(o, m, n);
      var t := Offered(o, m, n);
      if n < |m| {
        ArmGood(t, poll);
        ExtendsTrans(o, t, Arm(t, poll));
        SettledCalm(Arm(t, poll));
      }
    }
  }

  lemma SettledCalm(o: Out)
    ensures Settled(o) ==> Calm(o)
  {
  }

  lemma CloseKeeps(o: Out, why: Reason)
    requires Good(o) && why == WriteError
    ensures Keeps(o, Close(o, why))
  {
  }

  lemma OfferedGood(o: Out, m: Bytes, n: nat)
    requires Good(o) && o.closed.None? && !o.writeClosed && !o.closing && !Waiting(o) && n <= |m|
    ensures Good(Offered(o, m, n)) && Extends(o, Offered(o, m, n))
    ensures if n == |m| then Keeps(o, Offered(o, m, n)) else Waiting(Offered(o, m, n))
  {
    assert (o.wire + m[..n]) + m[n..] == o.wire + m;
  }

  lemma SendGood(limit: nat, o: Out, a: Bytes, b: Bytes, now: Sent, poll: bool)
    requires Good(o)
    ensures Keeps(o, SendIt(limit, o, a, b, now, poll).0)
  {
    hide Enqueue, SendNow;
    if a + b != [] && Refusal(limit, o, a, b) == 0 {
      if Waiting(o) || !o.connected {
        EnqueueGood(o, a + b, poll);
      } else {
        SendNowGood(o, a + b, now, poll);
      }
    }
  }

  lemma CloseLaterGood(o: Out, net: seq<Sent>, poll: bool)
    requires Good(o)
    ensures Keeps(o, CloseLater(o, net, poll))
  {
    hide Flush;
    if o.closed.None? {
      var t := o.(closing := true);
      FlushGood(t, net);
    }
  }

  lemma ShutLaterGood(o: Out, net: seq<Sent>, poll: bool)
    requires Good(o)
    ensures Keeps(o, ShutLater(o, net, poll))
  {
    hide Flush;
    if o.closed.None? && !o.writeClosed {
      FlushGood(o.(shutting := true), net);
    }
  }

  lemma PerformGood(limit: nat, o: Out, act: Act)
    requires Good(o)
    ensures Keeps(o, Perform(limit, o, act))
  {
    hide SendIt, CloseLater, ShutLater;
    match act {
      case Send(a, b, now, poll) => SendGood(limit, o, a, b, now, poll);
      case CloseFlush(net, poll) => CloseLaterGood(o, net, poll);
      case ShutFlush(net, poll) => ShutLaterGood(o, net, poll);
      case CloseNow =>
    }
  }

  lemma {:induction false} PerformAllGood(limit: nat, o: Out, acts: seq<Act>)
    requires Good(o)
    ensures Keeps(o, PerformAll(limit, o, acts))
    decreases |acts|
  {
    hide Perform;
    if acts != [] {
      PerformAllGood(limit, o, acts[..|acts|-1]);
      var t := PerformAll(limit, o, acts[..|acts|-1]);
      PerformGood(limit, t, acts[|acts|-1]);
      ExtendsTrans(o, t, Perform(limit, t, acts[|acts|-1]));
    }
  }

  lemma ConnectGood(limit: nat, o: Out, ok: bool, acts: seq<Act>, net: seq<Sent>, poll: bool)
    requires Good(o) && Settled(o)
    ensures var o' := Connect(limit, o, ok, acts, net, poll); Good(o') && Extends(o, o') && Settled(o')
  {
    hide PerformAll, Flush, Arm;
    if o.closed.None? && o.connecting && ok {
      var t := o.(connecting := false, connected := true, armed := false);
      PerformAllGood(limit, t, acts);
      var u := PerformAll(limit, t, acts);
      FlushGood(u, net);
      ArmGood(Flush(u, net), poll);
      ExtendsTrans(o, u, Flush(u, net));
      ExtendsTrans(o, Flush(u, net), Arm(Flush(u, net), poll));
    }
  }

  lemma ReadEofGood(limit: nat, o: Out, cb: Option<seq<Act>>)
    requires Good(o) && Settled(o)
    ensures var o' := ReadEof(limit, o, cb); Good(o') && Extends(o, o') && Settled(o')
  {
    hide PerformAll, Deferred;
    if o.closed.None? && !o.readClosed && cb.Some? {
      var t := o.(readClosed := true);
      PerformAllGood(limit, t, cb.value);
      var u := PerformAll(limit, t, cb.value);
      DeferredGood(u);
      ExtendsTrans(o, u, Deferred(u));
    }
  }

  lemma HandleGood(limit: nat, o: Out, e: Event)
    requires Good(o) && Settled(o)
    ensures var o' := Handle(limit, o, e); Good(o') && Extends(o, o') && Settled(o')
  {
    hide Perform, Flush, Connect, ReadEof;
    match e {
      case App(act) => PerformGood(limit, o, act);
      case Writable(net) => FlushGood(o, net);
      case Connected(ok, acts, net, poll) => ConnectGood(limit, o, ok, acts, net, poll);
      case PeerEof(cb) => ReadEofGood(limit, o, cb);
      case SocketFailed =>
    }
  }

  /** Over every run of events, from a connected or a connecting channel: conservation, arming and
      the meaning of the deferred closes hold between any two events, and nothing sent or accepted
      is ever taken back. */
  lemma {:induction false} RunGood(limit: nat, connecting: bool, es: seq<Event>, k: nat)
    requires k <= |es|
    ensures var o := Run(limit, Start(connecting), es); Good(o) && Settled(o)
    ensures Extends(Run(limit, Start(connecting), es[..k]), Run(limit, Start(connecting), es))
    decreases |es|
  {
    hide Handle;
    if k == |es| {
      assert es[..k] == es;
    }
    if es != [] {
      var init := es[..|es|-1];
      var j := if k < |es| then k else |init|;
      RunGood(limit, connecting, init, j);
      assert init[..j] == es[..j];
      var t := Run(limit, Start(connecting), init);
      HandleGood(limit, t, es[|es|-1]);
      if k < |es| {
        ExtendsTrans(Run(limit, Start(connecting), es[..k]), t, Handle(limit, t, es[|es|-1]));
      }
    }
  }

  // ---------- what a caller is told ----------

  // An open channel that takes sends at all.
  predicate Writing(o: Out) {
    o.closed.None? && !o.closing && !o.writeClosed && !o.shutting
  }

  /** A send that returns 0 has been accepted whole; one that is refused leaves everything as it was,
      or has closed the channel.  The backpressure code is returned exactly when the queue of an
      open, writable channel has reached its limit; below it a send is accepted unless the socket or
      the poll registration fails. */
  lemma SendAccepts(limit: nat, o: Out, a: Bytes, b: Bytes, now: Sent, poll: bool)
    requires Good(o) && a + b != []
    ensures var r := SendIt(limit, o, a, b, now, poll);
            && (r.1 == 0 ==> r.0.accepted == o.accepted + (a + b) && r.0.closed.None?)
            && (r.1 != 0 ==> r.0 == o || r.0.closed.Some?)
            && (r.1 == -2 <==> Writing(o) && 0 < limit <= |o.queue|)
            && (Writing(o) && (limit == 0 || |o.queue| < limit) && |a| + |b| <= SIZE_MAX && now != Broken && poll
                ==> r.1 == 0)
  {
  }

  /** Once a connected channel that is to close after flushing gets rid of its queue, it closes, with
      everything accepted on the wire; one that is to shut down its write half does that instead. */
  lemma DrainCompletes(o: Out, net: seq<Sent>)
    requires Good(o) && o.closed.None? && !o.connecting
    requires Take(|o.queue|, net) == (|o.queue|, false)
    ensures var o' := Flush(o, net);
            && o'.wire == o'.accepted == o.accepted
            && (o.closing ==> o'.closed == Some(Flushed))
            && (o.shutting ==> o'.closed.Some? || (o'.fin && !o'.armed))
  {
    hide Take;
    assert o.queue[..|o.queue|] == o.queue;
  }

  /** A deferred close or shutdown is carried out at once or kept, with WRITABLE armed for what it
      waits for. */
  lemma LaterIsKept(o: Out, net: seq<Sent>)
    requires Good(o) && o.closed.None?
    ensures var c := CloseLater(o, net, true); c.closed.Some? || (c.closing && Waiting(c) && c.armed)
    ensures var w := ShutLater(o, net, true); w.closed.Some? || w.fin || (w.shutting && Waiting(w) && w.armed)
  {
    hide Take;
    FlushGood(o.(closing := true), net);
    if !o.writeClosed {
      FlushGood(o.(shutting := true), net);
    }
  }

  // ---------- the channel object ----------

  class Writer {
    const limit: nat                 // out.max
    const outb: Buffer
    var connected: bool
    var connectPending: bool
    var readClosed: bool
    var writeClosed: bool
    var closeAfterFlush: bool
    var shutAfterFlush: bool
    var armed: bool                  // WRITABLE is registered with the poll loop
    var closedBy: Option<Reason>
    var bytesSent: nat
    var closeCalls: seq<Reason>      // the arguments of close_cb so far
    ghost var wire: Bytes
    ghost var accepted: Bytes
    ghost var fin: bool

    ghost function View(): Out
      requires outb.Valid()
      reads this, outb, outb.data
    {
      Out(connected, connectPending, readClosed, writeClosed, closeAfterFlush, shutAfterFlush, armed, closedBy,
          if closedBy.Some? then [] else outb.Contents(), wire, accepted, fin)
    }

    // bytes_sent is the length of the wire; close_cb is called once if the channel is closed, else never.
    ghost predicate Counted()
      reads this
    {
      bytesSent == |wire| && closeCalls == if closedBy.Some? then [closedBy.value] else []
    }

    ghost predicate Valid()
      reads this, outb, outb.data
    {
      outb.Valid() && Good(View()) && Counted()
    }

    constructor (max: nat, connecting: bool)
      ensures Valid() && limit == max && View() == Start(connecting)
      ensures fresh(outb) && fresh(outb.data)
    {
      limit := max;
      outb := new Buffer();
      connected, connectPending, readClosed, writeClosed := !connecting, connecting, false, false;
      closeAfterFlush, shutAfterFlush, armed, closedBy := false, false, connecting, None;
      bytesSent, closeCalls := 0, [];
      wire, accepted, fin := [], [], false;
    }

    // close_internal
    method CloseWith(why: Reason)
      requires outb.Valid() && Good(Close(View(), why)) && Counted()
      modifies this
      ensures Valid() && View() == Close(old(View()), why)
    {
      hide Good;
      if closedBy.None? {
        closedBy, connected, connectPending, readClosed, writeClosed := Some(why), false, false, true, true;
        closeAfterFlush, shutAfterFlush, armed := false, false, false;
        closeCalls := closeCalls + [why];
      }
    }

    // arm_writable
    method ArmWritable(poll: bool) returns (rc: int)
      requires Valid()
      modifies this
      ensures Valid() && View() == Arm(old(View()), poll)
      ensures rc == if old(closedBy).None? && poll then 0 else -1
      ensures closedBy == if old(closedBy).Some? then old(closedBy) else if poll then None else Some(PollError)
    {
      if closedBy.Some? || !poll {
        CloseWith(PollError);
        return -1;
      }
      armed := true;
      return 0;
    }

    // has_pending_output
    predicate HasPending()
      requires outb.Valid()
      reads this`connectPending, outb, outb.data
    {
      connectPending || outb.Size() > 0
    }

    // finish_deferred_close
    method FinishDeferred()
      requires Valid()
      modifies this
      ensures Valid() && View() == Deferred(old(View()))
    {
      hide Good;
      DeferredGood(View());
      if closedBy.Some? || HasPending() {
        return;
      }
      if closeAfterFlush {
        CloseWith(Flushed);
        return;
      }
      if shutAfterFlush && !writeClosed {
        writeClosed, shutAfterFlush, armed, fin := true, false, false, true;
      }
      if readClosed && writeClosed {
        CloseWith(HalfClosed);
      }
    }

    // A send that takes the first n queued bytes.
    method SendSome(n: nat)
      requires Valid() && closedBy.None? && n <= outb.Size()
      modifies this`wire, this`bytesSent, outb`off, outb`len
      ensures Valid() && View() == Taken(old(View()), n) && outb.Size() == old(outb.Size()) - n
    {
      hide Good;
      TakenGood(View(), n);
      wire, bytesSent := wire + outb.Contents()[..n], bytesSent + n;
      outb.Consume(n);
    }

    // The loop over send of flush_output: it ends with the queue empty, on EAGAIN or on an error.
    method SendQueued(net: seq<Sent>) returns (failed: bool)
      requires Valid() && closedBy.None? && !connectPending
      modifies this`wire, this`bytesSent, outb`off, outb`len
      ensures Valid()
      ensures var k := Take(|old(View()).queue|, net); failed == k.1 && View() == Taken(old(View()), k.0)
    {
      hide Good, Take, Taken;
      var left := net;
      ghost var o, n := View(), 0 as nat;
      TakenNone(o);
      while outb.Size() > 0
        invariant Valid()
        invariant 0 <= n <= |o.queue| && outb.Size() == |o.queue| - n && View() == Taken(o, n)
        invariant Take(|o.queue|, net) == Plus(n, Take(|o.queue| - n, left))
        decreases |left|
      {
        var remaining := outb.Size();
        TakeStep(remaining, left);
        var chunk := if remaining > INT_MAX then INT_MAX else remaining;
        if left == [] || left[0] == Blocked {
          return false;
        }
        if left[0] == Broken || left[0].n == 0 {
          return true;
        }
        var m := if left[0].n < chunk then left[0].n else chunk;
        TakenTwice(o, n, m);
        SendSome(m);
        n, left := n + m, left[1..];
      }
      TakeStep(0, left);
      return false;
    }

    // flush_output
    method FlushOutput(net: seq<Sent>)
      requires Valid()
      modifies this, outb`off, outb`len
      ensures Valid() && View() == Flush(old(View()), net)
    {
      hide Good, Take, Taken, Deferred, Close;
      if closedBy.Some? || connectPending {
        return;
      }
      var failed := SendQueued(net);
      if failed {
        CloseGood(View(), WriteError);
        CloseWith(WriteError);
        return;
      }
      if outb.Size() == 0 {
        DisarmGood(View());
        armed := false;
        FinishDeferred();
      }
    }

    // check_send_limit
    method CheckLimit(a: Bytes, b: Bytes) returns (rc: int)
      requires Valid()
      ensures rc == Refusal(limit, View(), a, b)
    {
      if closedBy.Some? || closeAfterFlush || writeClosed || shutAfterFlush {
        return -1;
      }
      if limit > 0 && outb.Size() >= limit {
        return -2;
      }
      return if |a| > SIZE_MAX - |b| then -1 else 0;
    }

    method AppendBoth(x: Bytes, y: Bytes) returns (ok: bool)
      requires outb.Valid()
      modifies outb, outb.data
      ensures outb.Valid() && (outb.data == old(outb.data) || fresh(outb.data))
      ensures ok ==> outb.Contents() == old(outb.Contents()) + (x + y)
      ensures !ok ==> |old(outb.Contents())| + |x| + |y| > (SIZE_MAX + 1) / 2
    {
      ok := outb.Append(x);
      if ok {
        ok := outb.Append(y);
        assert (old(outb.Contents()) + x) + y == old(outb.Contents()) + (x + y);
      }
    }

    // The kernel has taken `head`; x and y join the queue.
    method Admit(head: Bytes, x: Bytes, y: Bytes) returns (ok: bool)
      requires Valid() && closedBy.None? && !writeClosed && (head == [] || outb.Size() == 0)
      modifies this, outb, outb.data
      ensures Valid() && (outb.data == old(outb.data) || fresh(outb.data))
      ensures ok ==> View() == Admitted(old(View()), head, x + y)
      ensures !ok ==> closedBy == Some(OutOfMemory) && NoRoom(|old(View()).queue|, x, y)
    {
      hide Good;
      AdmittedGood(View(), head, x + y);
      bytesSent, wire, accepted := bytesSent + |head|, wire + head, accepted + (head + (x + y));
      ok := AppendBoth(x, y);
      if !ok {
        CloseWith(OutOfMemory);
      }
    }

    // The part of queue_or_send_iov for a channel with output waiting.
    method QueueBehind(a: Bytes, b: Bytes, poll: bool) returns (rc: int)
      requires Valid() && closedBy.None? && !writeClosed && a + b != []
      modifies this, outb, outb.data
      ensures Valid() && (outb.data == old(outb.data) || fresh(outb.data))
      ensures closedBy != Some(OutOfMemory) ==> (View(), rc) == Enqueue(old(View()), a + b, poll)
      ensures closedBy == Some(OutOfMemory) ==> rc == -1 && NoRoom(|old(View()).queue|, a, b)
    {
      hide Good, Arm;
      var queued := outb.Size();
      var ok := Admit([], a, b);
      if !ok {
        return -1;
      }
      AdmittedNoHead(old(View()), a + b);
      if queued > 0 {
        return 0;
      }
      rc := ArmWritable(poll);
    }

    // The kernel has taken `sent` bytes; the rest of either part joins the queue.
    method AdmitRest(a: Bytes, b: Bytes, sent: nat) returns (ok: bool)
      requires Valid() && closedBy.None? && !writeClosed && outb.Size() == 0 && sent <= |a| + |b|
      modifies this, outb, outb.data
      ensures Valid() && (outb.data == old(outb.data) || fresh(outb.data))
      ensures ok ==>
                var o, m := old(View()), a + b;
                View() == Offered(o, m, sent)
      ensures ok ==> closedBy.None?
      ensures !ok ==> closedBy == Some(OutOfMemory) && NoRoom(0, a, b)
    {
      hide Good;
      AdmittedRest(View(), a, b, sent);
      hide Admitted;
      if sent < |a| {
        ok := Admit(a[..sent], a[sent..], b);
      } else {
        ok := Admit(a + b[..sent - |a|], b[sent - |a|..], []);
      }
    }

    // The part of queue_or_send_iov for a connected channel with nothing waiting.
    method SendDirect(a: Bytes, b: Bytes, now: Sent, poll: bool) returns (rc: int)
      requires Valid() && closedBy.None? && !writeClosed && !Waiting(View()) && a + b != []
      modifies this, outb, outb.data
      ensures Valid() && (outb.data == old(outb.data) || fresh(outb.data))
      ensures closedBy != Some(OutOfMemory) ==> (View(), rc) == SendNow(old(View()), a + b, now, poll)
      ensures closedBy == Some(OutOfMemory) ==> rc == -1 && NoRoom(0, a, b)
    {
      hide Good, Arm, NoRoom, SendNow;
      ghost var o, m := View(), a + b;
      SendNowIs(o, m, now, poll);
      if now == Broken {
        CloseGood(o, WriteError);
        CloseWith(WriteError);
        return -1;
      }
      var total := |a| + |b|;
      var sent := if now == Blocked then 0 else if now.n < total then now.n else total;
      rc := SendRest(a, b, sent, poll);
    }

    // What it does once the kernel has answered.
    method SendRest(a: Bytes, b: Bytes, sent: nat, poll: bool) returns (rc: int)
      requires Valid() && closedBy.None? && !writeClosed && outb.Size() == 0 && sent <= |a| + |b|
      modifies this, outb, outb.data
      ensures Valid() && (outb.data == old(outb.data) || fresh(outb.data))
      ensures closedBy != Some(OutOfMemory) ==>
                var o, m := old(View()), a + b;
                var t := Offered(o, m, sent);
                (View(), rc) == if sent == |m| then (t, 0) else (Arm(t, poll), if poll then 0 else -1)
      ensures closedBy == Some(OutOfMemory) ==> rc == -1 && NoRoom(0, a, b)
    {
      hide Good, Arm, NoRoom, Offered;
      var ok := AdmitRest(a, b, sent);
      if !ok {
        return -1;
      }
      if sent >= |a| + |b| {
        return 0;
      }
      rc := ArmWritable(poll);
    }

    // queue_or_send_iov
    method SendIov(a: Bytes, b: Bytes, now: Sent, poll: bool) returns (rc: int)
      requires Valid()
      modifies this, outb, outb.data
      ensures Valid() && (outb.data == old(outb.data) || fresh(outb.data))
      ensures closedBy != Some(OutOfMemory) || old(closedBy).Some? ==>
                (View(), rc) == SendIt(limit, old(View()), a, b, now, poll)
      ensures closedBy == Some(OutOfMemory) && old(closedBy).None? ==>
                rc == -1 && NoRoom(|old(View()).queue|, a, b)
    {
      hide Good, Enqueue, SendNow;
      if a == [] && b == [] {
        return 0;
      }
      rc := CheckLimit(a, b);
      if rc != 0 {
        return;
      }
      if HasPending() || !connected {
        rc := QueueBehind(a, b, poll);
      } else {
        rc := SendDirect(a, b, now, poll);
      }
    }

    // xchannel_send_packet, without transforms
    method SendPacket(f: Frame, p: Bytes, now: Sent, poll: bool) returns (rc: int)
      requires Valid()
      modifies this, outb, outb.data
      ensures Valid() && (outb.data == old(outb.data) || fresh(outb.data))
      ensures rc == 0 ==> Encode(f, p).Some? && accepted == old(accepted) + Wire(f, p)
      ensures rc != 0 && closedBy.None? ==> View() == old(View())
      ensures Encode(f, p).None? ==> rc == -1 && View() == old(View())
    {
      hide Good, SendIt;
      if closedBy.Some? || Encode(f, p).None? {
        return -1;
      }
      match f {
        case Len32 =>
          SendAccepts(limit, View(), WriteU32(|p|), p, now, poll);
          rc := SendIov(WriteU32(|p|), p, now, poll);
        case Len16 =>
          SendAccepts(limit, View(), WriteU16(|p|), p, now, poll);
          rc := SendIov(WriteU16(|p|), p, now, poll);
        case Crlf =>
          SendAccepts(limit, View(), p, [CR, LF], now, poll);
          rc := SendIov(p, [CR, LF], now, poll);
      }
    }

    // xchannel_close_after_flush
    method CloseAfterFlush(net: seq<Sent>, poll: bool) returns (rc: int)
      requires Valid()
      modifies this, outb`off, outb`len
      ensures Valid() && View() == CloseLater(old(View()), net, poll)
      ensures rc == if old(closedBy).Some? || closedBy == Some(PollError) then -1 else 0
    {
      hide Good, Flush;
      if closedBy.Some? {
        return -1;
      }
      FlagGood(View());
      closeAfterFlush := true;
      FlushIdle(View(), net);
      FlushReason(View(), net);
      if !connectPending {
        FlushOutput(net);
      }
      if closedBy.None? && HasPending() {
        rc := ArmWritable(poll);
        return;
      }
      return 0;
    }

    // xchannel_shutdown_write_after_flush
    method ShutAfterFlush(net: seq<Sent>, poll: bool) returns (rc: int)
      requires Valid()
      modifies this, outb`off, outb`len
      ensures Valid() && View() == ShutLater(old(View()), net, poll)
      ensures rc == if closedBy.Some? then -1 else 0
    {
      hide Good, Flush;
      if closedBy.Some? {
        return -1;
      }
      if writeClosed {
        return 0;
      }
      FlagGood(View());
      shutAfterFlush := true;
      FlushIdle(View(), net);
      if !connectPending {
        FlushOutput(net);
      }
      if closedBy.None? && shutAfterFlush && HasPending() {
        var armedNow := ArmWritable(poll);
        if armedNow != 0 {
          return -1;
        }
      }
      return if closedBy.Some? then -1 else 0;
    }

    // Something the application does.
    method Do(act: Act)
      requires Valid()
      modifies this, outb, outb.data
      ensures Valid() && (outb.data == old(outb.data) || fresh(outb.data))
      ensures View() == Perform(limit, old(View()), act) || (old(closedBy).None? && closedBy == Some(OutOfMemory))
    {
      hide Good, SendIt, CloseLater, ShutLater, Close;
      match act {
        case Send(a, b, now, poll) =>
          var _ := SendIov(a, b, now, poll);
        case CloseFlush(net, poll) =>
          var _ := CloseAfterFlush(net, poll);
        case ShutFlush(net, poll) =>
          var _ := ShutAfterFlush(net, poll);
        case CloseNow =>
          CloseGood(View(), ByApplication);
          CloseWith(ByApplication);
      }
    }

    // The body of a callback.
    method DoAll(acts: seq<Act>)
      requires Valid()
      modifies this, outb, outb.data
      ensures Valid() && (outb.data == old(outb.data) || fresh(outb.data))
      ensures View() == PerformAll(limit, old(View()), acts) || closedBy == Some(OutOfMemory)
    {
      hide Good, Perform, PerformAll;
      var i := 0;
      PerformNone(limit, View());
      assert acts[..0] == [];
      while i < |acts|
        invariant 0 <= i <= |acts| && Valid() && (outb.data == old(outb.data) || fresh(outb.data))
        invariant View() == PerformAll(limit, old(View()), acts[..i]) || closedBy == Some(OutOfMemory)
      {
        assert acts[..i+1][..i] == acts[..i];
        PerformLast(limit, old(View()), acts[..i+1]);
        ClosedStays(limit, View(), acts[i]);
        Do(acts[i]);
        i := i + 1;
      }
      assert acts[..i] == acts;
    }

    // finish_connect.  `ok` is whether getsockopt reports no error and READABLE could be registered.
    method FinishConnect(ok: bool, acts: seq<Act>, net: seq<Sent>, poll: bool)
      requires Valid()
      modifies this, outb, outb.data
      ensures Valid() && (outb.data == old(outb.data) || fresh(outb.data))
      ensures View() == Connect(limit, old(View()), ok, acts, net, poll) || closedBy == Some(OutOfMemory)
    {
      hide Good, PerformAll, Flush;
      if closedBy.Some? || !connectPending {
        return;
      }
      if !ok {
        CloseGood(View(), ConnectError);
        CloseWith(ConnectError);
        return;
      }
      ConnectedGood(View());
      connectPending, connected, armed := false, true, false;
      DoAll(acts);
      FlushIdle(View(), net);
      FlushOutput(net);
      if closedBy.None? && outb.Size() > 0 {
        var _ := ArmWritable(poll);
      }
    }

    // xchannel_read_eof; None is a channel without eof_cb.
    method PeerClosed(cb: Option<seq<Act>>)
      requires Valid()
      modifies this, outb, outb.data
      ensures Valid() && (outb.data == old(outb.data) || fresh(outb.data))
      ensures View() == ReadEof(limit, old(View()), cb) || closedBy == Some(OutOfMemory)
    {
      hide Good, PerformAll;
      if closedBy.Some? || readClosed {
        return;
      }
      EofGood(View());
      readClosed := true;
      match cb {
        case None =>
          CloseGood(View(), EndOfFile);
          CloseWith(EndOfFile);
        case Some(acts) =>
          DoAll(acts);
          FinishDeferred();
      }
    }

    // One event of the poll loop, or one call of the application between events.
    method Dispatch(e: Event)
      requires Valid() && Settled(View())
      modifies this, outb, outb.data
      ensures Valid() && (outb.data == old(outb.data) || fresh(outb.data))
      ensures View() == Handle(limit, old(View()), e) || closedBy == Some(OutOfMemory)
      ensures Settled(View()) && (closedBy != Some(OutOfMemory) ==> Extends(old(View()), View()))
    {
      hide Good, Perform, Flush, Connect, ReadEof, Extends;
      HandleGood(limit, View(), e);
      match e {
        case App(act) => Do(act);
        case Writable(net) => FlushOutput(net);
        case Connected(ok, acts, net, poll) => FinishConnect(ok, acts, net, poll);
        case PeerEof(cb) => PeerClosed(cb);
        case SocketFailed =>
          CloseGood(View(), SocketError);
          CloseWith(SocketError);
      }
    }
  }

  lemma FlagGood(o: Out)
    requires Good(o) && o.closed.None?
    ensures Good(o.(closing := true)) && (!o.writeClosed ==> Good(o.(shutting := true)))
  {
  }

  lemma ConnectedGood(o: Out)
    requires Good(o) && o.closed.None? && o.connecting
    ensures Good(o.(connecting := false, connected := true, armed := false))
  {
  }

  lemma EofGood(o: Out)
    requires Good(o) && o.closed.None?
    ensures Good(o.(readClosed := true))
  {
  }

  lemma SendNowIs(o: Out, m: Bytes, now: Sent, poll: bool)
    ensures now == Broken ==> SendNow(o, m, now, poll) == (Close(o, WriteError), -1)
    ensures now != Broken ==>
              var n := if now == Blocked then 0 else if now.n < |m| then now.n else |m|;
              var t := Offered(o, m, n);
              SendNow(o, m, now, poll) == if n == |m| then (t, 0) else (Arm(t, poll), if poll then 0 else -1)
  {
  }

  lemma PerformNone(limit: nat, o: Out)
    ensures PerformAll(limit, o, []) == o
  {
  }

  lemma PerformLast(limit: nat, o: Out, acts: seq<Act>)
    requires acts != []
    ensures PerformAll(limit, o, acts) == Perform(limit, PerformAll(limit, o, acts[..|acts|-1]), acts[|acts|-1])
  {
  }

  lemma ClosedStays(limit: nat, o: Out, act: Act)
    requires Good(o)
    ensures o.closed.Some? ==> Perform(limit, o, act) == o
  {
    hide Perform;
    PerformGood(limit, o, act);
  }

  lemma FlushReason(o: Out, net: seq<Sent>)
    ensures o.closed.None? ==> Flush(o, net).closed != Some(PollError)
  {
  }

  lemma FlushIdle(o: Out, net: seq<Sent>)
    ensures o.closed.Some? || o.connecting ==> Flush(o, net) == o
  {
  }

  // A buffer of this size would not fit half the address range.
  ghost predicate NoRoom(queued: nat, a: Bytes, b: Bytes) {
    queued + |a| + |b| > (SIZE_MAX + 1) / 2
  }

  function Admitted(o: Out, head: Bytes, tail: Bytes): Out {
    o.(wire := o.wire + head, queue := o.queue + tail, accepted := o.accepted + (head + tail))
  }

  lemma AdmittedGood(o: Out, head: Bytes, tail: Bytes)
    requires Good(o) && o.closed.None? && !o.writeClosed && (head == [] || o.queue == [])
    ensures Good(Admitted(o, head, tail)) && Good(Close(Admitted(o, head, tail), OutOfMemory))
  {
    var t := Admitted(o, head, tail);
    assert t.wire + t.queue == t.accepted;
  }

  lemma AdmittedNoHead(o: Out, m: Bytes)
    ensures Admitted(o, [], m) == o.(queue := o.queue + m, accepted := o.accepted + m)
  {
    assert [] + m == m && o.wire + [] == o.wire;
  }

  lemma AdmittedRest(o: Out, a: Bytes, b: Bytes, n: nat)
    requires o.queue == [] && n <= |a| + |b|
    ensures var m := a + b;
            var t := Offered(o, m, n);
            && (n <= |a| ==> Admitted(o, a[..n], a[n..] + b) == t)
            && (n >= |a| ==> Admitted(o, a + b[..n - |a|], b[n - |a|..] + []) == t)
  {
    var m := a + b;
    assert m[..n] + m[n..] == m;
    if n <= |a| {
      assert a[..n] == m[..n] && a[n..] + b == m[n..];
    }
    if n >= |a| {
      assert a + b[..n - |a|] == m[..n] && b[n - |a|..] + [] == m[n..];
    }
    assert [] + m[n..] == m[n..];
  }

  function Plus(n: nat, r: (nat, bool)): (nat, bool) {
    (n + r.0, r.1)
  }

  lemma TakeStep(size: nat, net: seq<Sent>)
    ensures if size == 0 || net == [] || net[0] == Blocked then Take(size, net) == (0, false)
            else if net[0] == Broken || net[0].n == 0 then Take(size, net) == (0, true)
            else
              var chunk := if size > INT_MAX then INT_MAX else size;
              var m := if net[0].n < chunk then net[0].n else chunk;
              0 < m <= size && Take(size, net) == Plus(m, Take(size - m, net[1..]))
  {
  }

  lemma TakenNone(o: Out)
    ensures Taken(o, 0) == o
  {
    assert o.wire + o.queue[..0] == o.wire;
  }

  lemma TakenTwice(o: Out, n: nat, m: nat)
    requires n + m <= |o.queue|
    ensures |Taken(o, n).queue| == |o.queue| - n
    ensures Taken(Taken(o, n), m) == Taken(o, n + m)
  {
    assert o.queue[..n] + o.queue[n..][..m] == o.queue[..n+m];
    assert (o.wire + o.queue[..n]) + o.queue[n..][..m] == o.wire + o.queue[..n+m];
  }

  lemma TakenGood(o: Out, n: nat)
    requires Good(o) && n <= |o.queue|
    ensures Good(Taken(o, n))
  {
    assert (o.wire + o.queue[..n]) + o.queue[n..] == o.wire + o.queue;
    if o.writeClosed {
      assert o.wire + o.queue[..n] == o.wire;
    }
  }

  lemma CloseGood(o: Out, why: Reason)
    requires Good(o) && why != Flushed && why != HalfClosed
    ensures Good(Close(o, why))
  {
  }

  lemma DisarmGood(o: Out)
    requires Good(o) && !Waiting(o)
    ensures Good(o.(armed := false))
  {
  }
}
