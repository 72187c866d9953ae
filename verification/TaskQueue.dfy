/**
 Posting tasks to another thread: the default (mutex) queue of xthread.c with its node slab,
 the one-flag wakeup over a socketpair, and soft backpressure, at the grain of its critical
 sections and system calls.  Any number of posters, one consumer.
 */
module TaskQueue {
  import opened Common
  import opened Tasks

  datatype Poster =
    | Idle
    | Holding(node: Option<Addr>, reply: bool)   // between the two critical sections
    | Notifying(need: bool)                      // enqueued, about to call xthread_notify

  datatype Consumer =
    | Parked                                     // inside xpoll_poll
    | Draining                                   // notify_read_cb reading the pipe
    | Popping                                    // about to call xqueue_pop_all
    | Running(batch: seq<Task>, back: seq<Addr>) // walking the popped list

  datatype State = State(
    slab: set<Addr>, plain: set<Pid>, maxSize: nat, pipeCap: nat,
    freelist: seq<Addr>, queue: seq<Task>, pending: bool, unread: nat,
    posters: map<Pid, Poster>, consumer: Consumer,
    accepted: nat, finished: seq<(nat, Outcome)>)

  datatype Event =
    | Admit(p: Pid, reply: bool)
    | Reject(p: Pid)
    | OutOfMemory(p: Pid)
    | Enqueue(p: Pid, hasFunc: bool, deadline: nat)
    | Notify(p: Pid)
    | Readable
    | Timeout
    | Read(n: nat)
    | ReadEmpty
    | PopAll
    | RunOne(now: nat)
    | GiveBack

  ghost predicate Init(s: State) {
    && Unique(s.freelist) && (forall a :: a in s.freelist <==> a in s.slab)
    && s.queue == [] && !s.pending && s.unread == 0 && s.pipeCap >= 1
    && s.consumer == Parked && s.accepted == 0 && s.finished == []
    && (forall p :: p in s.posters ==> s.posters[p] == Idle)
  }

  // xqueue_freelist_return_locked for every node of the local batch, head first.
  function PushAll(freelist: seq<Addr>, back: seq<Addr>): (r: seq<Addr>)
    ensures |r| == |freelist| + |back|
    ensures forall a :: a in r <==> a in freelist || a in back
    decreases |back|
  {
    if back == [] then freelist
    else
      assert forall a :: a in back <==> a == back[0] || a in back[1..];
      PushAll([back[0]] + freelist, back[1..])
  }

  ghost predicate Next(s: State, e: Event, s': State) {
    match e
    case Admit(p, reply) =>
      && p in s.posters && s.posters[p] == Idle && (!reply ==> p in s.plain)
      && (reply || s.maxSize == 0 || |s.queue| < s.maxSize)
      && (if s.freelist == []
          then s' == s.(posters := s.posters[p := Holding(None, reply)])
          else s' == s.(posters := s.posters[p := Holding(Some(s.freelist[0]), reply)],
                        freelist := s.freelist[1..]))
    case Reject(p) =>
      p in s.posters && s.posters[p] == Idle && s.maxSize > 0 && |s.queue| >= s.maxSize && s' == s
    case OutOfMemory(p) =>
      && p in s.posters && s.posters[p].Holding? && s.posters[p].node == None
      && s' == s.(posters := s.posters[p := Idle])
    case Enqueue(p, hasFunc, deadline) =>
      && p in s.posters && s.posters[p].Holding?
      && var t := Task(s.accepted, s.posters[p].node, s.posters[p].reply, hasFunc, deadline);
      && s' == s.(queue := s.queue + [t], pending := true, accepted := s.accepted + 1,
                  posters := s.posters[p := Notifying(!s.pending)])
    case Notify(p) =>
      && p in s.posters && s.posters[p].Notifying?
      && s' == s.(posters := s.posters[p := Idle],
                  // a write into a full pipe fails with EAGAIN and is ignored
                  unread := if s.posters[p].need && s.unread < s.pipeCap then s.unread + 1 else s.unread)
    case Readable => s.consumer == Parked && s.unread > 0 && s' == s.(consumer := Draining)
    case Timeout => s.consumer == Parked && s' == s.(consumer := Popping)
    case Read(n) => s.consumer == Draining && 1 <= n <= s.unread && s' == s.(unread := s.unread - n)
    case ReadEmpty => s.consumer == Draining && s.unread == 0 && s' == s.(consumer := Popping)
    case PopAll =>
      s.consumer == Popping && s' == s.(consumer := Running(s.queue, []), queue := [], pending := false)
    case RunOne(now) =>
      && s.consumer.Running? && s.consumer.batch != []
      && var t := s.consumer.batch[0];
      && s' == s.(consumer := Running(s.consumer.batch[1..],
                                      if t.node.Some? then [t.node.value] + s.consumer.back else s.consumer.back),
                  finished := s.finished + [(t.ticket, OutcomeOf(PostOf(t), now))])
    case GiveBack =>
      && s.consumer.Running? && s.consumer.batch == []
      && s' == s.(consumer := Parked, freelist := PushAll(s.freelist, s.consumer.back))
  }

  // ---------- slab nodes ----------

  function PoolNodes(ts: seq<Task>): (r: seq<Addr>) {
    if ts == [] then []
    else (if ts[0].node.Some? then [ts[0].node.value] else []) + PoolNodes(ts[1..])
  }

  function Batch(c: Consumer): seq<Task> {
    if c.Running? then c.batch else []
  }

  function Back(c: Consumer): seq<Addr> {
    if c.Running? then c.back else []
  }

  // Every slab node that is not in a poster's hand.
  function Resting(s: State): seq<Addr> {
    s.freelist + PoolNodes(s.queue) + PoolNodes(Batch(s.consumer)) + Back(s.consumer)
  }

  ghost predicate InHand(s: State, p: Pid, a: Addr) {
    p in s.posters && s.posters[p].Holding? && s.posters[p].node == Some(a)
  }

  /** Each slab node has exactly one owner: freelist, queue, the consumer's batch, the consumer's
      return list, or the hand of one poster. */
  ghost predicate NodesOk(s: State) {
    && Unique(Resting(s))
    && (forall a :: a in Resting(s) ==> a in s.slab)
    && (forall p, a :: InHand(s, p, a) ==> a in s.slab && a !in Resting(s))
    && (forall p, q, a :: InHand(s, p, a) && InHand(s, q, a) ==> p == q)
    && (forall a :: a in s.slab ==> a in Resting(s) || exists p :: InHand(s, p, a))
  }

  // ---------- tickets ----------

  function History(s: State): seq<nat> {
    FinishedTickets(s.finished) + Tickets(Batch(s.consumer)) + Tickets(s.queue)
  }

  /** Accepted tasks finish in the order they were enqueued, each once: the tickets finished,
      being run and queued are 0, 1, 2, ... without gap or repetition. */
  ghost predicate TicketsOk(s: State) {
    |History(s)| == s.accepted && forall i :: 0 <= i < s.accepted ==> History(s)[i] == i
  }

  // ---------- backpressure ----------

  ghost function PlainHands(s: State): set<Pid> {
    set p | p in s.posters && s.posters[p].Holding? && !s.posters[p].reply
  }

  // How far a soft limit can be overshot: each poster but one may slip in behind the check.
  ghost function PlainBound(s: State): nat {
    if s.plain == {} then 0 else s.maxSize + |s.plain| - 1
  }

  ghost predicate LoadOk(s: State) {
    && PlainHands(s) <= s.plain
    && (s.maxSize > 0 ==> PlainCount(s.queue) + |PlainHands(s)| <= PlainBound(s))
  }

  // ---------- wakeup ----------

  ghost predicate WakeupComing(s: State) {
    || s.unread > 0
    || s.consumer == Draining || s.consumer == Popping
    || exists p :: p in s.posters && s.posters[p] == Notifying(true)
  }

  ghost predicate WakeOk(s: State) {
    && s.pipeCap >= 1
    && (s.queue != [] ==> s.pending)
    && (s.pending ==> WakeupComing(s))
  }

  ghost predicate Inv(s: State) {
    NodesOk(s) && TicketsOk(s) && LoadOk(s) && WakeOk(s)
  }

  lemma InitInv(s: State)
    requires Init(s)
    ensures Inv(s)
  {
    assert Resting(s) == s.freelist;
    assert PlainHands(s) == {};
  }

  // ---------- preservation, one concern at a time ----------

  lemma WakeKept(s: State, e: Event, s': State)
    requires WakeOk(s) && Next(s, e, s')
    ensures WakeOk(s')
  {
    if s.pending && s'.pending && exists q :: q in s.posters && s.posters[q] == Notifying(true) {
      var q :| q in s.posters && s.posters[q] == Notifying(true);
      assert e != Notify(q) ==> q in s'.posters && s'.posters[q] == Notifying(true);
    }
    if e.Enqueue? && !s.pending {
      assert s'.posters[e.p] == Notifying(true);
    }
  }

  lemma HistoryGrows(s: State, e: Event, s': State)
    requires Next(s, e, s') && e.Enqueue?
    ensures History(s') == History(s) + [s.accepted]
  {
  }

  lemma HistoryMoves(s: State, e: Event, s': State)
    requires Next(s, e, s') && (e.RunOne? || e.PopAll?)
    ensures History(s') == History(s)
  {
  }

  lemma TicketsKept(s: State, e: Event, s': State)
    requires TicketsOk(s) && Next(s, e, s')
    ensures TicketsOk(s')
  {
    match e {
      case Enqueue(_, _, _) => HistoryGrows(s, e, s');
      case RunOne(_) => HistoryMoves(s, e, s');
      case PopAll => HistoryMoves(s, e, s');
      case _ => assert History(s') == History(s);
    }
  }

  lemma LoadKept(s: State, e: Event, s': State)
    requires LoadOk(s) && Next(s, e, s')
    ensures LoadOk(s')
  {
    match e {
      case Admit(_, _) => LoadAdmit(s, e, s');
      case OutOfMemory(p) =>
        assert PlainHands(s') == PlainHands(s) - {p};
        SubsetSize(PlainHands(s'), PlainHands(s));
      case Enqueue(p, _, _) => LoadEnqueue(s, e, s');
      case PopAll =>
        assert PlainHands(s') == PlainHands(s);
        SubsetSize(PlainHands(s), s.plain);
      case _ => assert PlainHands(s') == PlainHands(s);
    }
  }

  lemma LoadAdmit(s: State, e: Event, s': State)
    requires LoadOk(s) && Next(s, e, s') && e.Admit?
    ensures LoadOk(s')
  {
    var h, h' := PlainHands(s), PlainHands(s');
    if e.reply {
      assert h' == h;
    } else {
      assert h' <= s.plain;
      hide PlainCount, PlainHands;
      SubsetSize(h', s.plain);
      assert e.p in s.plain && PlainCount(s.queue) <= |s.queue|;
    }
  }

  lemma LoadEnqueue(s: State, e: Event, s': State)
    requires LoadOk(s) && Next(s, e, s') && e.Enqueue?
    ensures LoadOk(s')
  {
    var t := s'.queue[|s.queue|];
    assert s'.queue == s.queue + [t];
    PlainCountConcat(s.queue, [t]);
    var h, h' := PlainHands(s), PlainHands(s');
    assert h' == h - {e.p};
    assert !t.reply <==> e.p in h;
  }

  // ---------- nodes ----------

  lemma {:induction false} PoolNodesConcat(a: seq<Task>, b: seq<Task>)
    ensures PoolNodes(a + b) == PoolNodes(a) + PoolNodes(b)
  {
    if a == [] {
      assert a + b == b;
    } else {
      assert (a + b)[1..] == a[1..] + b && (a + b)[0] == a[0];
      PoolNodesConcat(a[1..], b);
      var h := if a[0].node.Some? then [a[0].node.value] else [];
      assert h + (PoolNodes(a[1..]) + PoolNodes(b)) == h + PoolNodes(a[1..]) + PoolNodes(b);
    }
  }

  lemma UniqueByCount(xs: seq<Addr>)
    ensures Unique(xs) <==> forall a :: multiset(xs)[a] <= 1
    decreases |xs|
  {
    if xs != [] {
      var init, x := xs[..|xs|-1], xs[|xs|-1];
      assert xs == init + [x];
      assert multiset(xs) == multiset(init) + multiset{x};
      UniqueByCount(init);
      if Unique(xs) {
        assert Unique(init) && x !in init;
      } else if Unique(init) {
        assert x in init by {
          var i, j :| 0 <= i < j < |xs| && xs[i] == xs[j];
          assert j == |xs| - 1;
          assert init[i] == x;
        }
        assert multiset(xs)[x] >= 2;
      } else {
        var a :| multiset(init)[a] > 1;
        assert multiset(xs)[a] > 1;
      }
    }
  }

  lemma PushAllCount(freelist: seq<Addr>, back: seq<Addr>)
    ensures multiset(PushAll(freelist, back)) == multiset(freelist) + multiset(back)
    decreases |back|
  {
    if back != [] {
      PushAllCount([back[0]] + freelist, back[1..]);
      assert back == [back[0]] + back[1..];
    }
  }

  lemma Shuffled(xs: seq<Addr>, ys: seq<Addr>)
    requires Unique(xs) && multiset(ys) == multiset(xs)
    ensures Unique(ys) && forall a :: a in ys <==> a in xs
  {
    UniqueByCount(xs);
    UniqueByCount(ys);
    assert forall a :: a in xs <==> a in multiset(xs);
    assert forall a :: a in ys <==> a in multiset(ys);
  }

  lemma OneLess(xs: seq<Addr>, ys: seq<Addr>, n: Addr)
    requires Unique(xs) && multiset(xs) == multiset(ys) + multiset{n}
    ensures Unique(ys) && n !in ys && forall a :: a in xs <==> a in ys || a == n
  {
    UniqueByCount(xs);
    UniqueByCount(ys);
    assert forall a :: a in xs <==> a in multiset(xs);
    assert forall a :: a in ys <==> a in multiset(ys);
    assert multiset(xs)[n] == multiset(ys)[n] + 1;
    assert forall a :: multiset(ys)[a] <= multiset(xs)[a];
  }

  lemma OneMore(xs: seq<Addr>, ys: seq<Addr>, n: Addr)
    requires Unique(xs) && n !in xs && multiset(ys) == multiset(xs) + multiset{n}
    ensures Unique(ys) && forall a :: a in ys <==> a in xs || a == n
  {
    UniqueByCount(xs);
    UniqueByCount(ys);
    assert forall a :: a in xs <==> a in multiset(xs);
    assert forall a :: a in ys <==> a in multiset(ys);
  }

  // A step that leaves every hand as it is and only moves resting nodes about.
  lemma NodesMoved(s: State, s': State)
    requires NodesOk(s) && multiset(Resting(s')) == multiset(Resting(s)) && s'.slab == s.slab
    requires forall p, a :: InHand(s', p, a) <==> InHand(s, p, a)
    ensures NodesOk(s')
  {
    hide Resting, Unique, InHand;
    Shuffled(Resting(s), Resting(s'));
  }

  // A poster takes a resting node into its hand.
  lemma NodeTaken(s: State, s': State, p: Pid, n: Addr)
    requires NodesOk(s) && multiset(Resting(s)) == multiset(Resting(s')) + multiset{n} && s'.slab == s.slab
    requires forall q, a :: InHand(s', q, a) <==> InHand(s, q, a) || (q == p && a == n)
    ensures NodesOk(s')
  {
    hide Resting, Unique, InHand;
    OneLess(Resting(s), Resting(s'), n);
    assert InHand(s', p, n);
    forall a | a in s.slab && a !in Resting(s') && a != n
      ensures exists q :: InHand(s', q, a)
    {
      var q :| InHand(s, q, a);
      assert InHand(s', q, a);
    }
  }

  // A poster puts the node in its hand down.
  lemma NodePut(s: State, s': State, p: Pid, n: Addr)
    requires NodesOk(s) && multiset(Resting(s')) == multiset(Resting(s)) + multiset{n} && s'.slab == s.slab
    requires InHand(s, p, n)
    requires forall q, a :: InHand(s', q, a) <==> InHand(s, q, a) && q != p
    requires forall a :: InHand(s, p, a) ==> a == n
    ensures NodesOk(s')
  {
    hide Resting, Unique, InHand;
    OneMore(Resting(s), Resting(s'), n);
    forall a | a in s.slab && a !in Resting(s')
      ensures exists q :: InHand(s', q, a)
    {
      var q :| InHand(s, q, a);
      assert InHand(s', q, a);
    }
  }

  lemma RestingCount(s: State)
    ensures multiset(Resting(s)) == multiset(s.freelist) + multiset(PoolNodes(s.queue)) +
                                    multiset(PoolNodes(Batch(s.consumer))) + multiset(Back(s.consumer))
  {
  }

  lemma AdmitNodes(s: State, e: Event, s': State)
    requires NodesOk(s) && Next(s, e, s') && e.Admit?
    ensures NodesOk(s')
  {
    RestingCount(s);
    RestingCount(s');
    hide NodesOk, Resting, PoolNodes;
    if s.freelist == [] {
      NodesMoved(s, s');
    } else {
      assert s.freelist == [s.freelist[0]] + s.freelist[1..];
      NodeTaken(s, s', e.p, s.freelist[0]);
    }
  }

  lemma EnqueueCount(s: State, e: Event, s': State)
    requires Next(s, e, s') && e.Enqueue?
    ensures var held := s.posters[e.p].node;
            multiset(Resting(s')) == multiset(Resting(s)) + (if held.Some? then multiset{held.value} else multiset{})
  {
    var t := s'.queue[|s.queue|];
    assert s'.queue == s.queue + [t];
    PoolNodesConcat(s.queue, [t]);
    RestingCount(s);
    RestingCount(s');
    hide Resting;
  }

  lemma EnqueueNodes(s: State, e: Event, s': State)
    requires NodesOk(s) && Next(s, e, s') && e.Enqueue?
    ensures NodesOk(s')
  {
    hide NodesOk, Resting;
    EnqueueCount(s, e, s');
    var held := s.posters[e.p].node;
    if held.Some? {
      NodePut(s, s', e.p, held.value);
    } else {
      NodesMoved(s, s');
    }
  }

  lemma RunOneCount(s: State, e: Event, s': State)
    requires Next(s, e, s') && e.RunOne?
    ensures multiset(Resting(s')) == multiset(Resting(s))
  {
    RestingCount(s);
    RestingCount(s');
  }

  lemma PopGiveCount(s: State, e: Event, s': State)
    requires Next(s, e, s') && (e.PopAll? || e.GiveBack?)
    ensures multiset(Resting(s')) == multiset(Resting(s))
  {
    RestingCount(s);
    RestingCount(s');
    hide Resting;
    if e.GiveBack? {
      PushAllCount(s.freelist, s.consumer.back);
    }
  }

  lemma ConsumerNodes(s: State, e: Event, s': State)
    requires NodesOk(s) && Next(s, e, s') && (e.RunOne? || e.PopAll? || e.GiveBack?)
    ensures NodesOk(s')
  {
    hide NodesOk, Resting, PushAll;
    if e.RunOne? {
      RunOneCount(s, e, s');
    } else {
      PopGiveCount(s, e, s');
    }
    NodesMoved(s, s');
  }

  lemma QuietNodes(s: State, e: Event, s': State)
    requires NodesOk(s) && Next(s, e, s')
    requires !(e.Admit? || e.Enqueue? || e.RunOne? || e.PopAll? || e.GiveBack?)
    ensures NodesOk(s')
  {
    assert Resting(s') == Resting(s) by { hide PoolNodes; }
    hide NodesOk, Resting;
    NodesMoved(s, s');
  }

  lemma NodesKept(s: State, e: Event, s': State)
    requires NodesOk(s) && Next(s, e, s')
    ensures NodesOk(s')
  {
    hide NodesOk, Next;
    match e {
      case Admit(_, _) => AdmitNodes(s, e, s');
      case Enqueue(_, _, _) => EnqueueNodes(s, e, s');
      case RunOne(_) => ConsumerNodes(s, e, s');
      case PopAll => ConsumerNodes(s, e, s');
      case GiveBack => ConsumerNodes(s, e, s');
      case _ => QuietNodes(s, e, s');
    }
  }

  /** Every critical section, system call and callback boundary keeps all four invariants. */
  lemma StepInv(s: State, e: Event, s': State)
    requires Inv(s) && Next(s, e, s')
    ensures Inv(s')
  {
    hide NodesOk, TicketsOk, LoadOk, WakeOk, Next;
    NodesKept(s, e, s');
    TicketsKept(s, e, s');
    LoadKept(s, e, s');
    WakeKept(s, e, s');
  }

  // ---------- whole executions ----------

  ghost predicate Execution(ss: seq<State>, es: seq<Event>) {
    && |ss| == |es| + 1 && Init(ss[0])
    && (forall i :: 0 <= i < |es| ==> Next(ss[i], es[i], ss[i + 1]))
  }

  lemma {:induction false} ExecutionInv(ss: seq<State>, es: seq<Event>)
    requires Execution(ss, es)
    ensures Inv(ss[|es|])
    decreases |es|
  {
    hide Inv, Init, Next;
    if es == [] {
      InitInv(ss[0]);
    } else {
      var k := |es| - 1;
      ExecutionInv(ss[..|es|], es[..k]);
      StepInv(ss[k], es[k], ss[k + 1]);
    }
  }

  // ---------- what became of each task ----------

  function Live(s: State): seq<Task> {
    Batch(s.consumer) + s.queue
  }

  // The posts of an execution, and what the clock read for each task handled.
  function Posts(es: seq<Event>): seq<Post> {
    if es == [] then []
    else
      var init, e := es[..|es|-1], es[|es|-1];
      Posts(init) + (if e.Enqueue? then [Post(e.hasFunc, e.deadline)] else [])
  }

  function Clocks(es: seq<Event>): seq<nat> {
    if es == [] then []
    else
      var init, e := es[..|es|-1], es[|es|-1];
      Clocks(init) + (if e.RunOne? then [e.now] else [])
  }

  lemma ToldKept(s: State, e: Event, s': State, posts: seq<Post>, clocks: seq<nat>)
    requires TicketsOk(s) && Next(s, e, s') && |posts| == s.accepted && Told(Live(s), s.finished, posts, clocks)
    ensures Told(Live(s'), s'.finished, posts + (if e.Enqueue? then [Post(e.hasFunc, e.deadline)] else []),
                 clocks + (if e.RunOne? then [e.now] else []))
  {
    hide Told;
    assert posts + [] == posts && clocks + [] == clocks;
    if e.Enqueue? {
      var t := s'.queue[|s.queue|];
      assert Live(s') == Live(s) + [t];
      ToldPost(Live(s), s.finished, posts, clocks, t);
    } else if e.RunOne? {
      var t := s.consumer.batch[0];
      assert Live(s) == [t] + Live(s');
      assert History(s)[|s.finished|] == t.ticket;
      ToldHandled(t, Live(s'), s.finished, posts, clocks, e.now);
    } else {
      assert Live(s') == Live(s);
    }
  }

  lemma InitTold(s: State)
    requires Init(s)
    ensures s.accepted == 0 && Told(Live(s), s.finished, [], [])
  {
  }

  lemma AcceptedStep(s: State, e: Event, s': State)
    requires Next(s, e, s')
    ensures s'.accepted == s.accepted + (if e.Enqueue? then 1 else 0)
  {
  }

  lemma {:induction false} ExecutionTold(ss: seq<State>, es: seq<Event>)
    requires Execution(ss, es)
    ensures |Posts(es)| == ss[|es|].accepted && Told(Live(ss[|es|]), ss[|es|].finished, Posts(es), Clocks(es))
    decreases |es|
  {
    hide NodesOk, LoadOk, WakeOk, Told, Live, Init, Next;
    if es == [] {
      InitTold(ss[0]);
    } else {
      var k := |es| - 1;
      ExecutionTold(ss[..|es|], es[..k]);
      ExecutionInv(ss[..|es|], es[..k]);
      AcceptedStep(ss[k], es[k], ss[k + 1]);
      ToldKept(ss[k], es[k], ss[k + 1], Posts(es[..k]), Clocks(es[..k]));
    }
  }

  /** No lost wakeup: whenever the consumer sleeps in its poll and no poster is in the middle of
      a post, a non-empty queue has an unread byte in the pipe. */
  lemma NoLostWakeup(ss: seq<State>, es: seq<Event>)
    requires Execution(ss, es)
    ensures var s := ss[|es|];
            s.consumer == Parked && (forall p :: p in s.posters ==> s.posters[p] == Idle) && s.queue != [] ==>
              s.unread > 0
  {
    ExecutionInv(ss, es);
  }

  /** Each accepted task finishes at most once and in order, run if it has a function and was in time
      when its turn came, and dropped otherwise; and none is left behind when queue and batch are empty. */
  lemma EachTaskOnce(ss: seq<State>, es: seq<Event>)
    requires Execution(ss, es)
    ensures var s := ss[|es|];
            && |s.finished| == |Clocks(es)| <= s.accepted == |Posts(es)|
            && (forall i :: 0 <= i < |s.finished| ==>
                  var p := Posts(es)[i];
                  && s.finished[i].0 == i
                  && (s.finished[i].1 == Ran <==> p.hasFunc && (p.deadline == 0 || Clocks(es)[i] < p.deadline)))
            && (s.queue == [] && Batch(s.consumer) == [] ==> |s.finished| == s.accepted)
  {
    ExecutionInv(ss, es);
    ExecutionTold(ss, es);
    hide Posts, Clocks, Live;
    var s := ss[|es|];
    forall i | 0 <= i < |s.finished|
      ensures s.finished[i].0 == i
    {
      assert History(s)[i] == s.finished[i].0;
    }
  }

  /** With P posters of ordinary tasks the soft limit is overshot by at most P - 1. */
  lemma SoftLimit(ss: seq<State>, es: seq<Event>)
    requires Execution(ss, es) && ss[|es|].maxSize > 0 && ss[|es|].plain != {}
    ensures PlainCount(ss[|es|].queue) <= ss[|es|].maxSize + |ss[|es|].plain| - 1
  {
    ExecutionInv(ss, es);
  }

  /** When nothing is in flight the freelist holds the whole slab again. */
  lemma SlabComesBack(ss: seq<State>, es: seq<Event>)
    requires Execution(ss, es)
    ensures var s := ss[|es|];
            s.consumer == Parked && s.queue == [] && (forall p :: p in s.posters ==> s.posters[p] == Idle) ==>
              Unique(s.freelist) && forall a :: a in s.freelist <==> a in s.slab
  {
    ExecutionInv(ss, es);
    var s := ss[|es|];
    if s.consumer == Parked && s.queue == [] {
      assert Resting(s) == s.freelist;
    }
  }
}
