/**
 What the events of a channel's write side do (xchannel.c), each told in terms of the state before and
 after it: the laws below determine every event.
 */
module ChannelEvents {
  import opened Common
  import opened ChannelFraming
  import opened ChannelBuffer
  import opened ChannelOutput

  // The channel has closed for this reason, with nothing more on the wire.
  ghost predicate ClosedFor(o: Out, o': Out, why: Reason) {
    && o'.closed == Some(why) && o'.queue == [] && !o'.armed && !o'.connecting && !o'.connected
    && o'.readClosed && o'.writeClosed && !o'.closing && !o'.shutting
    && o'.wire == o.wire && o'.accepted == o.accepted && o'.fin == o.fin
  }

  /** A new channel is open in both directions, and waits at most for its connect. */
  lemma StartsOpen(connecting: bool)
    ensures var o := Start(connecting);
            && Settled(o) && Good(o) && o.connecting == connecting && o.closed.None? && o.accepted == []
            && !o.readClosed && !o.writeClosed && !o.closing && !o.shutting
  {
  }

  /** No event does anything to a closed channel. */
  lemma ClosedIsDeaf(limit: nat, o: Out, e: Event)
    requires Good(o) && o.closed.Some?
    ensures Handle(limit, o, e) == o
  {
    if e.App? {
      PerformGood(limit, o, e.act);
    }
  }

  // ---------- the socket is writable ----------

  /** One answer of send: n bytes, as far as there are that many, go from the queue to the wire, and the
      rest of the answers are for the rest of the queue. */
  lemma WritableTakes(limit: nat, o: Out, n: nat, net: seq<Sent>)
    requires o.closed.None? && !o.connecting && o.queue != [] && n > 0
    ensures var size := if |o.queue| > 0x7fff_ffff then 0x7fff_ffff else |o.queue|;
            var m := if n < size then n else size;
            Handle(limit, o, Writable([Took(n)] + net))
            == Handle(limit, o.(wire := o.wire + o.queue[..m], queue := o.queue[m..]), Writable(net))
  {
    hide Deferred, Close, Take, Taken;
    var size := if |o.queue| > 0x7fff_ffff then 0x7fff_ffff else |o.queue|;
    var m := if n < size then n else size;
    var t := o.(wire := o.wire + o.queue[..m], queue := o.queue[m..]);
    TakeStep(|o.queue|, n, net);
    TakenTwice(o, m, Take(|t.queue|, net).0);
  }

  lemma TakeStep(size: nat, n: nat, net: seq<Sent>)
    requires size > 0 && n > 0
    ensures var most := if size > 0x7fff_ffff then 0x7fff_ffff else size;
            var m := if n < most then n else most;
            var r := Take(size - m, net);
            Take(size, [Took(n)] + net) == (m + r.0, r.1)
  {
    assert ([Took(n)] + net)[1..] == net;
  }

  lemma TakenTwice(o: Out, m: nat, k: nat)
    requires m + k <= |o.queue|
    ensures Taken(o.(wire := o.wire + o.queue[..m], queue := o.queue[m..]), k) == Taken(o, m + k)
  {
    assert o.queue[..m] + o.queue[m..][..k] == o.queue[..m+k] && o.queue[m..][k..] == o.queue[m+k..];
    assert (o.wire + o.queue[..m]) + o.queue[m..][..k] == o.wire + o.queue[..m+k];
  }

  /** Where send would block, the rest waits, WRITABLE stays armed, and nothing changes. */
  lemma WritableBlocks(limit: nat, o: Out, net: seq<Sent>)
    requires o.closed.None? && !o.connecting && o.queue != [] && (net == [] || net[0] == Blocked)
    ensures Handle(limit, o, Writable(net)) == o
  {
    assert o.wire + o.queue[..0] == o.wire && o.queue[0..] == o.queue;
  }

  /** Where send fails, the channel closes. */
  lemma WritableBreaks(limit: nat, o: Out, net: seq<Sent>)
    requires o.closed.None? && !o.connecting && o.queue != []
    requires net != [] && (net[0] == Broken || net[0] == Took(0))
    ensures ClosedFor(o, Handle(limit, o, Writable(net)), WriteError)
  {
    assert o.wire + o.queue[..0] == o.wire;
  }

  /** With the queue empty WRITABLE is disarmed, and a deferred close or shutdown is carried out. */
  lemma WritableDrained(limit: nat, o: Out, net: seq<Sent>)
    requires o.closed.None? && !o.connecting && o.queue == []
    ensures var o' := Handle(limit, o, Writable(net));
            && o'.wire == o.wire && o'.accepted == o.accepted && !o'.armed
            && (o.closing ==> ClosedFor(o, o', Flushed))
            && (!o.closing && !o.shutting && !(o.readClosed && o.writeClosed) ==> o' == o.(armed := false))
            && (!o.closing && o.shutting && !o.writeClosed ==> o'.fin && o'.writeClosed)
            && (!o.closing && o.shutting && !o.writeClosed && !o.readClosed ==>
                  o' == o.(writeClosed := true, shutting := false, armed := false, fin := true))
            && (!o.closing && o.readClosed && (o.shutting || o.writeClosed) ==> o'.closed == Some(HalfClosed))
  {
    assert o.wire + o.queue[..0] == o.wire && o.queue[0..] == o.queue;
  }

  function Sum(net: seq<nat>): nat {
    if net == [] then 0 else net[0] + Sum(net[1..])
  }

  function Answers(net: seq<nat>): (r: seq<Sent>)
    ensures |r| == |net| && forall i :: 0 <= i < |r| ==> r[i] == Took(net[i])
  {
    seq(|net|, i requires 0 <= i < |net| => Took(net[i]))
  }

  /** If the answers of send add up to the queue, everything accepted gets onto the wire, and a channel that
      was to close after flushing closes. */
  lemma {:induction false} WritableSendsAll(limit: nat, o: Out, net: seq<nat>)
    requires Ready(o) && |o.queue| <= 0x7fff_ffff
    requires (forall i :: 0 <= i < |net| ==> net[i] > 0) && Sum(net) >= |o.queue|
    ensures AllSent(o, Handle(limit, o, Writable(Answers(net))))
    decreases |net|
  {
    hide Handle, AllSent, Answers;
    if o.queue == [] {
      NothingLeft(limit, o, Answers(net));
    } else {
      var n := net[0];
      var m := if n < |o.queue| then n else |o.queue|;
      var t := o.(wire := o.wire + o.queue[..m], queue := o.queue[m..]);
      AnswersStep(net);
      WritableTakes(limit, o, n, Answers(net[1..]));
      NothingLost(o.wire, o.queue, m);
      WritableSendsAll(limit, t, net[1..]);
      AllSentSame(o, t, Handle(limit, o, Writable(Answers(net))));
    }
  }

  lemma NothingLost(wire: Bytes, queue: Bytes, m: nat)
    requires m <= |queue|
    ensures (wire + queue[..m]) + queue[m..] == wire + queue
  {
    assert queue[..m] + queue[m..] == queue;
  }

  lemma AnswersStep(net: seq<nat>)
    requires net != []
    ensures Answers(net) == [Took(net[0])] + Answers(net[1..])
  {
  }

  ghost predicate Ready(o: Out) {
    o.closed.None? && !o.connecting && o.wire + o.queue == o.accepted
  }

  ghost predicate AllSent(o: Out, o': Out) {
    && o'.wire == o'.accepted == o.accepted && o'.queue == [] && !o'.armed
    && (o.closing ==> o'.closed == Some(Flushed))
  }

  lemma AllSentSame(o: Out, t: Out, o': Out)
    requires AllSent(t, o') && t.accepted == o.accepted && t.closing == o.closing
    ensures AllSent(o, o')
  {
  }

  lemma NothingLeft(limit: nat, o: Out, net: seq<Sent>)
    requires Ready(o) && o.queue == []
    ensures AllSent(o, Handle(limit, o, Writable(net)))
  {
    assert o.wire + o.queue[..0] == o.wire;
  }

  // ---------- a connect ends ----------

  function AppEvents(acts: seq<Act>): (es: seq<Event>)
    ensures |es| == |acts| && forall i :: 0 <= i < |es| ==> es[i] == App(acts[i])
  {
    seq(|acts|, i requires 0 <= i < |acts| => App(acts[i]))
  }

  // What the application does in a callback is what it does outside of one.
  lemma {:induction false} PerformIsRun(limit: nat, o: Out, acts: seq<Act>)
    ensures PerformAll(limit, o, acts) == Run(limit, o, AppEvents(acts))
    decreases |acts|
  {
    hide Perform;
    if acts != [] {
      var init := acts[..|acts|-1];
      PerformIsRun(limit, o, init);
      assert AppEvents(acts)[..|acts|-1] == AppEvents(init);
    }
  }

  /** A connect that fails closes the channel. */
  lemma ConnectFails(limit: nat, o: Out, acts: seq<Act>, net: seq<Sent>, poll: bool)
    requires o.closed.None? && o.connecting
    ensures ClosedFor(o, Handle(limit, o, Connected(false, acts, net, poll)), ConnectError)
  {
  }

  // Something still queued has WRITABLE armed, or the channel closes because that fails.
  ghost predicate ArmedFor(o: Out, o': Out, poll: bool) {
    if o.closed.Some? || o.queue == [] then o' == o
    else if poll then o' == o.(armed := true)
    else ClosedFor(o, o', PollError)
  }

  /** A connect that succeeds runs the callback, with WRITABLE disarmed, then sends what is queued, and
      arms WRITABLE for the rest. */
  lemma ConnectSucceeds(limit: nat, o: Out, acts: seq<Act>, net: seq<Sent>, poll: bool)
    requires Good(o) && o.closed.None? && o.connecting
    ensures var t := Run(limit, o.(connecting := false, connected := true, armed := false), AppEvents(acts));
            ArmedFor(Handle(limit, t, Writable(net)), Handle(limit, o, Connected(true, acts, net, poll)), poll)
  {
    var s := o.(connecting := false, connected := true, armed := false);
    PerformIsRun(limit, s, acts);
    PerformAllGood(limit, s, acts);
    var t := PerformAll(limit, s, acts);
    FlushGood(t, net);
    var u := Flush(t, net);
    hide PerformAll, Run, Flush;
  }

  // ---------- the peer, the socket, the application ----------

  /** The end of the stream closes a channel without an eof callback; with one, the callback runs, and then
      a channel that has nothing to send and has shut down its side closes. */
  lemma PeerEnds(limit: nat, o: Out, cb: Option<seq<Act>>)
    requires o.closed.None? && !o.readClosed
    ensures cb.None? ==> ClosedFor(o, Handle(limit, o, PeerEof(cb)), EndOfFile)
    ensures cb.Some? ==>
              var t := Run(limit, o.(readClosed := true), AppEvents(cb.value));
              var o' := Handle(limit, o, PeerEof(cb));
              && (t.closed.Some? || t.connecting || t.queue != [] ==> o' == t)
              && (t.closed.None? && !t.connecting && t.queue == [] && t.closing ==> ClosedFor(t, o', Flushed))
              && (t.closed.None? && !t.connecting && t.queue == [] && !t.closing ==>
                    && (t.readClosed && (t.writeClosed || t.shutting) ==>
                          o'.closed == Some(HalfClosed) && o'.wire == t.wire)
                    && (!t.writeClosed && !t.shutting ==> o' == t))
  {
    if cb.Some? {
      PerformIsRun(limit, o.(readClosed := true), cb.value);
      hide PerformAll, Run;
    }
  }

  lemma SecondEof(limit: nat, o: Out, cb: Option<seq<Act>>)
    requires o.readClosed
    ensures Handle(limit, o, PeerEof(cb)) == o
  {
  }

  /** A failing socket closes the channel, and so does the application. */
  lemma Closes(limit: nat, o: Out)
    requires o.closed.None?
    ensures ClosedFor(o, Handle(limit, o, SocketFailed), SocketError)
    ensures ClosedFor(o, Handle(limit, o, App(CloseNow)), ByApplication)
  {
  }

  /** A send that is refused changes nothing, whatever the reason: the channel is closed, about to close,
      or has shut down its write side or is about to; its queue is full; or there are too many bytes.
      Sending nothing changes nothing either. */
  lemma SendRefused(limit: nat, o: Out, a: Bytes, b: Bytes, now: Sent, poll: bool)
    ensures a + b == [] ==> SendIt(limit, o, a, b, now, poll) == (o, 0)
    ensures a + b != [] && (o.closed.Some? || o.closing || o.writeClosed || o.shutting) ==>
              SendIt(limit, o, a, b, now, poll) == (o, -1)
    ensures a + b != [] && o.closed.None? && !o.closing && !o.writeClosed && !o.shutting && 0 < limit <= |o.queue| ==>
              SendIt(limit, o, a, b, now, poll) == (o, -2)
    ensures o.closed.None? && !o.closing && !o.writeClosed && !o.shutting && (limit == 0 || |o.queue| < limit)
            && |a| + |b| > 0xFFFF_FFFF_FFFF_FFFF ==>
              SendIt(limit, o, a, b, now, poll) == (o, -1)
    ensures Handle(limit, o, App(Send(a, b, now, poll))) == SendIt(limit, o, a, b, now, poll).0
  {
  }

  // Neither closed nor about to be, and with room for more.
  ghost predicate Open(limit: nat, o: Out, a: Bytes, b: Bytes) {
    && o.closed.None? && !o.closing && !o.writeClosed && !o.shutting
    && (limit == 0 || |o.queue| < limit) && |a| + |b| <= 0xFFFF_FFFF_FFFF_FFFF
  }

  /** A send behind queued output, or before the connect has ended, joins the queue; what is first in it
      has WRITABLE armed. */
  lemma SendQueues(limit: nat, o: Out, a: Bytes, b: Bytes, now: Sent, poll: bool)
    requires Open(limit, o, a, b) && a + b != [] && (o.connecting || o.queue != [] || !o.connected)
    ensures var (o', rc) := SendIt(limit, o, a, b, now, poll);
            var t := o.(queue := o.queue + (a + b), accepted := o.accepted + (a + b));
            if o.queue != [] then o' == t && rc == 0 else ArmedFor(t, o', poll) && rc == if poll then 0 else -1
  {
  }

  /** A send with nothing queued goes out at once, as far as the kernel takes it, and the rest is queued. */
  lemma SendGoesOut(limit: nat, o: Out, a: Bytes, b: Bytes, now: Sent, poll: bool)
    requires Open(limit, o, a, b) && a + b != [] && o.connected && !o.connecting && o.queue == []
    ensures var (o', rc) := SendIt(limit, o, a, b, now, poll);
            now == Broken ==> ClosedFor(o, o', WriteError) && rc == -1
    ensures var (o', rc) := SendIt(limit, o, a, b, now, poll);
            var m := a + b;
            var n := if now.Took? then (if now.n < |m| then now.n else |m|) else 0;
            now != Broken ==>
              && ArmedFor(o.(wire := o.wire + m[..n], queue := m[n..], accepted := o.accepted + m), o', poll)
              && rc == if n == |m| || poll then 0 else -1
  {
  }

  /** A deferred close marks the channel and sends what is queued; if something stays, WRITABLE is armed. */
  lemma CloseIsDeferred(limit: nat, o: Out, net: seq<Sent>, poll: bool)
    requires o.closed.None?
    ensures var o' := Handle(limit, o, App(CloseFlush(net, poll)));
            var t := Handle(limit, o.(closing := true), Writable(net));
            if t.closed.None? && t.connecting && !poll then ClosedFor(t, o', PollError)
            else if t.closed.None? && t.connecting then o' == t.(armed := true)
            else ArmedFor(t, o', poll)
  {
    hide Flush;
  }

  /** So does a deferred shutdown, unless the write side is shut down already. */
  lemma ShutIsDeferred(limit: nat, o: Out, net: seq<Sent>, poll: bool)
    requires Good(o) && o.closed.None?
    ensures var o' := Handle(limit, o, App(ShutFlush(net, poll)));
            var t := Handle(limit, o.(shutting := true), Writable(net));
            if o.writeClosed then o' == o
            else if t.closed.None? && t.connecting && t.shutting && !poll then ClosedFor(t, o', PollError)
            else if t.closed.None? && t.connecting && t.shutting then o' == t.(armed := true)
            else if t.closed.Some? || t.shutting then ArmedFor(t, o', poll)
            else o' == t
  {
    hide Flush;
  }
}
