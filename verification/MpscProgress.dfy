/**
 The lock-free queue of xmpsc_queue.h gets somewhere: from every reachable state a producer left alone
 completes its push, and a consumer left alone pops everything that was pushed.
 */
module MpscProgress {
  import opened Common
  import opened MpscQueue

  ghost predicate Run(s: State, es: seq<Event>, s': State)
    decreases |es|
  {
    if es == [] then s' == s else exists m :: Next(s, es[0], m) && Run(m, es[1..], s')
  }

  lemma RunCons(s: State, e: Event, m: State, es: seq<Event>, s': State)
    requires Next(s, e, m) && Run(m, es, s')
    ensures Run(s, [e] + es, s')
  {
    assert ([e] + es)[1..] == es;
  }

  // ---------- producers ----------

  ghost predicate Alone(p: Pid, es: seq<Event>) {
    forall e :: e in es ==> (e.Load? || e.Write? || e.CasOk? || e.CasFail?) && e.p == p
  }

  // The node is on the shared list, and its producer is through.
  ghost predicate PushDone(s: State, p: Pid, n: Node, s': State) {
    && s'.producers == s.producers[p := Idle] && s'.pushed == s.pushed + [n]
    && s'.head == At(n) && n in s'.next && s'.next[n] == s.head
    && s'.popped == s.popped && s'.cache == s.cache && s'.consumer == s.consumer
  }

  lemma PushFromLinked(s: State, p: Pid) returns (es: seq<Event>, s': State)
    requires p in s.producers && s.producers[p].Linked? && s.head == s.producers[p].seen
    requires s.producers[p].n in s.next && s.next[s.producers[p].n] == s.head
    ensures Run(s, es, s') && Alone(p, es) && |es| == 1 && PushDone(s, p, s.producers[p].n, s')
  {
    var n := s.producers[p].n;
    s' := s.(producers := s.producers[p := Idle], head := At(n), pushed := s.pushed + [n]);
    es := [CasOk(p)];
    assert Next(s, CasOk(p), s') && Run(s', [], s');
    RunCons(s, CasOk(p), s', [], s');
    assert [CasOk(p)] + [] == es;
  }

  lemma PushFromHolding(s: State, p: Pid) returns (es: seq<Event>, s': State)
    requires p in s.producers && s.producers[p].Holding?
    ensures Run(s, es, s') && Alone(p, es) && |es| == 3 && PushDone(s, p, s.producers[p].n, s')
  {
    hide Run;
    var n := s.producers[p].n;
    var a := s.(producers := s.producers[p := Loaded(n, s.head)]);
    var b := a.(producers := a.producers[p := Linked(n, s.head)], next := a.next[n := s.head]);
    assert Next(s, Load(p), a) && Next(a, Write(p), b);
    var fs, t := PushFromLinked(b, p);
    RunCons(a, Write(p), b, fs, t);
    RunCons(s, Load(p), a, [Write(p)] + fs, t);
    es, s' := [Load(p)] + ([Write(p)] + fs), t;
  }

  /** A producer left alone completes its push in at most five accesses, wherever it stands; a
      compare-and-swap that fails costs it one more round and no more. */
  lemma PushCompletes(s: State, g: Shape, p: Pid) returns (es: seq<Event>, s': State)
    requires Inv(s, g) && p in s.producers && !s.producers[p].Idle?
    ensures Run(s, es, s') && Alone(p, es) && |es| <= 5 && PushDone(s, p, s.producers[p].n, s')
  {
    hide Run, Contents, Links, Unique;
    var n := s.producers[p].n;
    match s.producers[p] {
      case Holding(_) => es, s' := PushFromHolding(s, p);
      case Linked(_, seen) =>
        es, s' := PushAgain(s, p);
      case Loaded(_, seen) =>
        var b := s.(producers := s.producers[p := Linked(n, seen)], next := s.next[n := seen]);
        assert Next(s, Write(p), b);
        var fs, t := PushAgain(b, p);
        RunCons(s, Write(p), b, fs, t);
        es, s' := [Write(p)] + fs, t;
    }
  }

  lemma PushAgain(s: State, p: Pid) returns (es: seq<Event>, s': State)
    requires p in s.producers && s.producers[p].Linked?
    requires s.producers[p].n in s.next && s.next[s.producers[p].n] == s.producers[p].seen
    ensures Run(s, es, s') && Alone(p, es) && |es| <= 4 && PushDone(s, p, s.producers[p].n, s')
  {
    hide Run;
    var n := s.producers[p].n;
    if s.head == s.producers[p].seen {
      es, s' := PushFromLinked(s, p);
    } else {
      var a := s.(producers := s.producers[p := Holding(n)]);
      assert Next(s, CasFail(p), a);
      var fs, t := PushFromHolding(a, p);
      RunCons(s, CasFail(p), a, fs, t);
      es, s' := [CasFail(p)] + fs, t;
    }
  }

  /** An idle producer can push any node that is in no producer's hand and not in the queue. */
  lemma PushBegins(s: State, p: Pid, n: Node) returns (es: seq<Event>, s': State)
    requires p in s.producers && s.producers[p] == Idle && Reusable(s, n)
    ensures Run(s, [Begin(p, n)] + es, s') && Alone(p, es)
    ensures s'.producers == s.producers && s'.pushed == s.pushed + [n] && s'.head == At(n)
    ensures s'.popped == s.popped && s'.cache == s.cache && s'.consumer == s.consumer
  {
    hide Run;
    var a := s.(producers := s.producers[p := Holding(n)], next := s.next[n := Null]);
    assert Next(s, Begin(p, n), a);
    es, s' := PushFromHolding(a, p);
    RunCons(s, Begin(p, n), a, es, s');
    assert s'.producers == s.producers;
  }

  // ---------- the consumer ----------

  predicate Consumes(e: Event) {
    e.Exchange? || e.ReverseOne? || e.ReverseEnd? || e.TakeCached? || e.MoveCache? || e.Return?
  }

  predicate AtRest(s: State) {
    s.consumer == Ready && s.cache == Null && s.head == Null
  }

  // How far the consumer is from having popped everything.
  function Rank(s: State, g: Shape): nat {
    20 * |g.stack| + 10 * |g.todo| + 5 * (|g.done| + |g.fifo|)
    + match s.consumer
      case Ready => 3
      case Reversing(_, _) => 5
      case Got(_) => 2
      case Unlinked(_) => 4
  }

  // In every state but the last the consumer has a step, and it brings it nearer.
  lemma ConsumerStep(s: State, g: Shape) returns (e: Event, m: State, g': Shape)
    requires Inv(s, g) && !AtRest(s)
    ensures Consumes(e) && Next(s, e, m) && Inv(m, g') && Rank(m, g') < Rank(s, g)
    ensures m.pushed == s.pushed && m.producers == s.producers
  {
    hide Contents, Private, Unique, Rank;
    match s.consumer {
      case Ready =>
        if s.cache == Null {
          e, m := Exchange, s.(head := Null, consumer := Reversing(s.head, Null));
        } else {
          e, m := TakeCached, s.(consumer := Got(s.cache.node));
        }
      case Reversing(list, prev) =>
        if list == Null {
          e, m := ReverseEnd, s.(cache := prev, consumer := if prev.At? then Got(prev.node) else Ready);
        } else {
          e, m := ReverseOne, s.(next := s.next[list.node := prev], consumer := Reversing(s.next[list.node], list));
        }
      case Got(n) =>
        e, m := MoveCache, s.(cache := s.next[n], consumer := Unlinked(n));
      case Unlinked(n) =>
        e, m := Return, s.(next := s.next[n := Null], consumer := Ready, popped := s.popped + [n]);
    }
    g' := ConsumerShape(s, g, e, m);
  }

  lemma ConsumerShape(s: State, g: Shape, e: Event, m: State) returns (g': Shape)
    requires Inv(s, g) && Next(s, e, m) && Consumes(e) && (e.Exchange? ==> s.head != Null)
    ensures Inv(m, g') && Rank(m, g') < Rank(s, g)
  {
    hide Contents, Private, Unique;
    g' := g;
    match e {
      case Exchange =>
        ExchangeInv(s, g, m);
        g' := Shape([], g.fifo, g.stack, []);
      case ReverseOne =>
        ReverseOneInv(s, g, m);
        g' := g.(todo := g.todo[1..], done := [g.todo[0]] + g.done);
      case ReverseEnd =>
        ReverseEndInv(s, g, m);
        g' := Shape(g.stack, g.done, [], []);
      case TakeCached => TakeCachedInv(s, g, m);
      case MoveCache =>
        MoveCacheInv(s, g, m);
        g' := g.(fifo := g.fifo[1..]);
      case Return => ReturnInv(s, g, m);
    }
  }

  /** A consumer left alone pops, from any state the threads can reach, everything pushed so far. */
  lemma AllPopped(s: State, g: Shape) returns (es: seq<Event>, s': State)
    requires Inv(s, g)
    ensures Run(s, es, s') && forall e :: e in es ==> Consumes(e)
    ensures AtRest(s') && s'.popped == s'.pushed == s.pushed && s'.producers == s.producers
    decreases Rank(s, g)
  {
    hide Run, Next, Consumes, Rank;
    if AtRest(s) {
      AtRestIsEmpty(s, g);
      es, s' := [], s;
      RunNone(s);
    } else {
      var e, m, g' := ConsumerStep(s, g);
      var fs, t := AllPopped(m, g');
      RunCons(s, e, m, fs, t);
      es, s' := [e] + fs, t;
    }
  }

  lemma RunNone(s: State)
    ensures Run(s, [], s)
  {
  }

  lemma AtRestIsEmpty(s: State, g: Shape)
    requires Inv(s, g) && AtRest(s)
    ensures s.popped == s.pushed
  {
    assert g.stack == [] && g.fifo == [];
    assert Contents(s, g) == [];
  }

  /** Whatever the threads did before: everything pushed can be popped, in the order of the pushes. */
  lemma NothingIsStuck(ss: seq<State>, es: seq<Event>) returns (fs: seq<Event>, s': State)
    requires Execution(ss, es)
    ensures Run(ss[|es|], fs, s') && forall e :: e in fs ==> Consumes(e)
    ensures AtRest(s') && s'.popped == s'.pushed == ss[|es|].pushed
  {
    hide Run, Next, Inv;
    var g := ExecutionInv(ss, es);
    fs, s' := AllPopped(ss[|es|], g);
  }
}
