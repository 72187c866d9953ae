/**
 The lock-free multiple-producer single-consumer queue of xmpsc_queue.h, at the grain of its
 atomic accesses: producers load the head, write their node's link and compare-and-swap; the
 consumer exchanges the head for NULL, reverses the list it got link by link, and pops.
 */
module MpscQueue {
  import opened Common

  type Node = nat
  type Pid = nat

  datatype Ptr = Null | At(node: Node)

  // Where one producer stands inside xmpsc_push.
  datatype Producer =
    | Idle
    | Holding(n: Node)             // about to load the head (first try or retry)
    | Loaded(n: Node, seen: Ptr)    // old_head read
    | Linked(n: Node, seen: Ptr)    // n->next written, about to compare-and-swap

  // Where the consumer stands inside xmpsc_pop.
  datatype Consumer =
    | Ready
    | Reversing(list: Ptr, prev: Ptr)
    | Got(n: Node)                 // n == q->cache, not yet unlinked
    | Unlinked(n: Node)            // q->cache moved on, n->next not yet cleared

  // `pushed` and `popped` are histories: nodes in order of successful compare-and-swap,
  // and nodes in the order xmpsc_pop returned them.
  datatype State = State(head: Ptr, cache: Ptr, next: map<Node, Ptr>,
                         producers: map<Pid, Producer>, consumer: Consumer,
                         pushed: seq<Node>, popped: seq<Node>)

  predicate Holds(p: Producer, n: Node) {
    !p.Idle? && p.n == n
  }

  ghost predicate Init(s: State) {
    && s.head == Null && s.cache == Null && s.consumer == Ready
    && s.pushed == [] && s.popped == []
    && (forall p :: p in s.producers ==> s.producers[p] == Idle)
  }

  // A node may be pushed again once it has been popped; until then the queue owns it.
  ghost predicate Reusable(s: State, n: Node) {
    && (forall p :: p in s.producers ==> !Holds(s.producers[p], n))
    && (forall i :: |s.popped| <= i < |s.pushed| ==> s.pushed[i] != n)
  }

  datatype Event =
    | Begin(p: Pid, n: Node)
    | Load(p: Pid)
    | Write(p: Pid)
    | CasOk(p: Pid)
    | CasFail(p: Pid)
    | Exchange
    | ReverseOne
    | ReverseEnd
    | TakeCached
    | MoveCache
    | Return

  ghost predicate Next(s: State, e: Event, s': State) {
    match e
    case Begin(p, n) =>
      && p in s.producers && s.producers[p] == Idle && Reusable(s, n)
      && s' == s.(producers := s.producers[p := Holding(n)], next := s.next[n := Null])
    case Load(p) =>
      && p in s.producers && s.producers[p].Holding?
      && s' == s.(producers := s.producers[p := Loaded(s.producers[p].n, s.head)])
    case Write(p) =>
      && p in s.producers && s.producers[p].Loaded?
      && var Loaded(n, seen) := s.producers[p];
      && s' == s.(producers := s.producers[p := Linked(n, seen)], next := s.next[n := seen])
    case CasOk(p) =>
      && p in s.producers && s.producers[p].Linked? && s.head == s.producers[p].seen
      && var n := s.producers[p].n;
      && s' == s.(producers := s.producers[p := Idle], head := At(n), pushed := s.pushed + [n])
    case CasFail(p) =>
      && p in s.producers && s.producers[p].Linked? && s.head != s.producers[p].seen
      && s' == s.(producers := s.producers[p := Holding(s.producers[p].n)])
    case Exchange =>
      && s.consumer == Ready && s.cache == Null
      && s' == s.(head := Null, consumer := Reversing(s.head, Null))
    case ReverseOne =>
      && s.consumer.Reversing? && s.consumer.list.At?
      && var Reversing(list, prev) := s.consumer;
      && list.node in s.next
      && s' == s.(next := s.next[list.node := prev], consumer := Reversing(s.next[list.node], list))
    case ReverseEnd =>
      && s.consumer.Reversing? && s.consumer.list == Null
      && var prev := s.consumer.prev;
      && s' == s.(cache := prev, consumer := if prev.At? then Got(prev.node) else Ready)
    case TakeCached =>
      && s.consumer == Ready && s.cache.At?
      && s' == s.(consumer := Got(s.cache.node))
    case MoveCache =>
      && s.consumer.Got? && s.consumer.n in s.next
      && s' == s.(cache := s.next[s.consumer.n], consumer := Unlinked(s.consumer.n))
    case Return =>
      && s.consumer.Unlinked?
      && s' == s.(next := s.next[s.consumer.n := Null], consumer := Ready,
                  popped := s.popped + [s.consumer.n])
  }

  // ---------- what the links spell out ----------

  ghost predicate Chain(next: map<Node, Ptr>, p: Ptr, xs: seq<Node>)
    decreases |xs|
  {
    if xs == [] then p == Null
    else p == At(xs[0]) && xs[0] in next && Chain(next, next[xs[0]], xs[1..])
  }

  lemma {:induction false} ChainFrame(next: map<Node, Ptr>, p: Ptr, xs: seq<Node>, n: Node, v: Ptr)
    requires Chain(next, p, xs) && n !in xs
    ensures Chain(next[n := v], p, xs)
    decreases |xs|
  {
    if xs != [] {
      ChainFrame(next, next[xs[0]], xs[1..], n, v);
    }
  }

  function Reverse(xs: seq<Node>): (r: seq<Node>)
    ensures |r| == |xs|
    ensures forall x :: x in r <==> x in xs
  {
    if xs == [] then []
    else
      assert forall x :: x in xs <==> x == xs[0] || x in xs[1..];
      Reverse(xs[1..]) + [xs[0]]
  }

  // The lists the pointers stand for: the shared stack, the consumer's cache, and the two
  // halves of a reversal under way.
  datatype Shape = Shape(stack: seq<Node>, fifo: seq<Node>, todo: seq<Node>, done: seq<Node>)

  function Hand(c: Consumer): seq<Node> {
    if c.Unlinked? then [c.n] else []
  }

  // The queue as two lists, oldest first: what producers have pushed, and what the consumer has taken over.
  function Shared(g: Shape): seq<Node> {
    Reverse(g.stack)
  }

  function Cached(g: Shape): seq<Node> {
    g.fifo + (Reverse(g.todo) + g.done)
  }

  // Everything in the queue, oldest first.
  function Contents(s: State, g: Shape): seq<Node> {
    Hand(s.consumer) + g.fifo + (Reverse(g.todo) + g.done) + Reverse(g.stack)
  }

  ghost predicate Links(s: State, g: Shape) {
    && Chain(s.next, s.head, g.stack)
    && Chain(s.next, s.cache, g.fifo)
    && (match s.consumer
        case Ready => g.todo == [] && g.done == []
        case Reversing(list, prev) =>
          g.fifo == [] && Chain(s.next, list, g.todo) && Chain(s.next, prev, g.done)
        case Got(n) => g.todo == [] && g.done == [] && s.cache == At(n)
        case Unlinked(n) => g.todo == [] && g.done == [] && n in s.next)
  }

  ghost predicate Private(s: State, g: Shape) {
    && (forall p :: p in s.producers && !s.producers[p].Idle? ==>
          s.producers[p].n in s.next && s.producers[p].n !in Contents(s, g))
    && (forall p, q :: p in s.producers && q in s.producers && p != q && !s.producers[p].Idle? ==>
          !Holds(s.producers[q], s.producers[p].n))
    && (forall p :: p in s.producers && s.producers[p].Linked? ==>
          s.next[s.producers[p].n] == s.producers[p].seen)
  }

  /** The queue invariant: what has been popped, followed by what the pointers still hold, is the
      order in which the compare-and-swaps succeeded; and every node has one owner. */
  ghost predicate Inv(s: State, g: Shape) {
    && Links(s, g) && Unique(Contents(s, g)) && Private(s, g)
    && s.pushed == s.popped + Contents(s, g)
  }

  lemma InitInv(s: State)
    requires Init(s)
    ensures Inv(s, Shape([], [], [], []))
  {
  }

  lemma ReverseCons(x: Node, xs: seq<Node>)
    ensures Reverse([x] + xs) == Reverse(xs) + [x]
  {
    assert ([x] + xs)[1..] == xs;
  }

  lemma InContents(s: State, g: Shape, n: Node)
    ensures n in Contents(s, g) <==> n in Hand(s.consumer) || n in g.fifo || n in g.todo || n in g.done || n in g.stack
  {
  }

  // A reusable node is nowhere in the queue.
  lemma ReusableIsOut(s: State, g: Shape, n: Node)
    requires Inv(s, g) && Reusable(s, n)
    ensures n !in Contents(s, g)
  {
    var c := Contents(s, g);
    forall k | 0 <= k < |c|
      ensures c[k] != n
    {
      assert s.pushed[|s.popped| + k] == c[k];
    }
  }

  lemma BeginInv(s: State, g: Shape, p: Pid, n: Node, s': State)
    requires Inv(s, g) && Next(s, Begin(p, n), s')
    ensures Inv(s', g)
  {
    hide Reverse, Chain, Unique;
    ReusableIsOut(s, g, n);
    assert Contents(s', g) == Contents(s, g);
    PrivateWrite(s, g, n, Null);
  }

  // Writing the link of a node that is nowhere in the queue.
  lemma PrivateWrite(s: State, g: Shape, n: Node, v: Ptr)
    requires Links(s, g) && n !in Contents(s, g)
    ensures Links(s.(next := s.next[n := v]), g)
  {
    InContents(s, g, n);
    ChainFrame(s.next, s.head, g.stack, n, v);
    ChainFrame(s.next, s.cache, g.fifo, n, v);
    if s.consumer.Reversing? {
      ChainFrame(s.next, s.consumer.list, g.todo, n, v);
      ChainFrame(s.next, s.consumer.prev, g.done, n, v);
    }
  }

  lemma LoadInv(s: State, g: Shape, p: Pid, s': State)
    requires Inv(s, g) && (Next(s, Load(p), s') || Next(s, CasFail(p), s'))
    ensures Inv(s', g)
  {
    hide Reverse, Chain, Unique;
    assert Contents(s', g) == Contents(s, g);
  }

  lemma TakeCachedInv(s: State, g: Shape, s': State)
    requires Inv(s, g) && Next(s, TakeCached, s')
    ensures Inv(s', g)
  {
    hide Reverse, Chain, Unique;
    assert Contents(s', g) == Contents(s, g);
  }

  lemma WriteInv(s: State, g: Shape, p: Pid, s': State)
    requires Inv(s, g) && Next(s, Write(p), s')
    ensures Inv(s', g)
  {
    hide Reverse, Chain, Unique;
    assert Contents(s', g) == Contents(s, g);
    PrivateWrite(s, g, s.producers[p].n, s.producers[p].seen);
  }

  lemma UniqueSnoc(xs: seq<Node>, n: Node)
    requires Unique(xs) && n !in xs
    ensures Unique(xs + [n])
  {
  }

  // The swap is safe even if the head went away and came back in between: what counts is that
  // the node's link equals the head now.
  lemma CasOkInv(s: State, g: Shape, p: Pid, s': State)
    requires Inv(s, g) && Next(s, CasOk(p), s')
    ensures p in s.producers && s.producers[p].Linked?
    ensures Inv(s', g.(stack := [s.producers[p].n] + g.stack))
    ensures Reverse([s.producers[p].n] + g.stack) == Reverse(g.stack) + [s.producers[p].n]
  {
    hide Reverse, Unique;
    var n := s.producers[p].n;
    var g' := g.(stack := [n] + g.stack);
    ReverseCons(n, g.stack);
    assert g'.stack[1..] == g.stack;
    assert Contents(s', g') == Contents(s, g) + [n];
    UniqueSnoc(Contents(s, g), n);
    CasOkPrivate(s, g, p, s', g');
    hide Private, Contents;
    assert s.pushed + [n] == s.popped + (Contents(s, g) + [n]);
  }

  lemma CasOkPrivate(s: State, g: Shape, p: Pid, s': State, g': Shape)
    requires Private(s, g) && Next(s, CasOk(p), s') && Contents(s', g') == Contents(s, g) + [s.producers[p].n]
    ensures Private(s', g')
  {
    hide Contents;
  }

  lemma ExchangeInv(s: State, g: Shape, s': State)
    requires Inv(s, g) && Next(s, Exchange, s')
    ensures Inv(s', Shape([], g.fifo, g.stack, []))
    ensures g.fifo == [] && Cached(g) == [] && Cached(Shape([], g.fifo, g.stack, [])) == Shared(g)
  {
    assert g.fifo == [];
    assert Contents(s', Shape([], g.fifo, g.stack, [])) == Contents(s, g);
  }

  lemma ReverseOneInv(s: State, g: Shape, s': State)
    requires Inv(s, g) && Next(s, ReverseOne, s')
    ensures g.todo != [] && Inv(s', g.(todo := g.todo[1..], done := [g.todo[0]] + g.done))
    ensures Cached(g.(todo := g.todo[1..], done := [g.todo[0]] + g.done)) == Cached(g)
  {
    var x, rest := g.todo[0], g.todo[1..];
    var prev := s.consumer.prev;
    var g' := g.(todo := rest, done := [x] + g.done);
    assert Reverse(g.todo) == Reverse(rest) + [x];
    assert Reverse(rest) + [x] + g.done == Reverse(rest) + ([x] + g.done);
    assert Contents(s', g') == Contents(s, g);
    SplitUnique(s, g, x, rest);
    ChainFrame(s.next, s.head, g.stack, x, prev);
    ChainFrame(s.next, s.next[x], rest, x, prev);
    ChainFrame(s.next, prev, g.done, x, prev);
    assert g'.done[1..] == g.done;
  }

  // The head of the part still to be reversed occurs nowhere else.
  lemma SplitUnique(s: State, g: Shape, x: Node, rest: seq<Node>)
    requires Unique(Contents(s, g)) && g.todo == [x] + rest && Hand(s.consumer) == [] && g.fifo == []
    ensures x !in rest && x !in g.done && x !in g.stack && x in Contents(s, g)
  {
    ReverseCons(x, rest);
    var a, b := Reverse(rest), g.done + Reverse(g.stack);
    assert Contents(s, g) == a + [x] + b;
    var all := a + [x] + b;
    assert all[|a|] == x;
    forall y | y in a || y in b
      ensures y != x
    {
      if y in a {
        var i :| 0 <= i < |a| && a[i] == y;
        assert all[i] == y;
      } else {
        var i :| 0 <= i < |b| && b[i] == y;
        assert all[|a| + 1 + i] == y;
      }
    }
  }

  lemma ReverseEndInv(s: State, g: Shape, s': State)
    requires Inv(s, g) && Next(s, ReverseEnd, s')
    ensures Inv(s', Shape(g.stack, g.done, [], [])) && Cached(Shape(g.stack, g.done, [], [])) == Cached(g)
  {
    assert Contents(s', Shape(g.stack, g.done, [], [])) == Contents(s, g);
  }

  lemma MoveCacheInv(s: State, g: Shape, s': State)
    requires Inv(s, g) && Next(s, MoveCache, s')
    ensures g.fifo != [] && Inv(s', g.(fifo := g.fifo[1..]))
    ensures s.consumer.Got? && Cached(g) == [s.consumer.n] + Cached(g.(fifo := g.fifo[1..]))
  {
    assert g.fifo == [s.consumer.n] + g.fifo[1..];
    assert Contents(s', g.(fifo := g.fifo[1..])) == Contents(s, g);
  }

  lemma ReturnInv(s: State, g: Shape, s': State)
    requires Inv(s, g) && Next(s, Return, s')
    ensures Inv(s', g)
  {
    ReturnContents(s, g, s');
    hide Contents, Links, Private, Unique;
    var c' := Contents(s', g);
    UniqueTail(s.consumer.n, c');
    ReturnLinks(s, g, s');
    ReturnPrivate(s, g, s');
    assert s.popped + ([s.consumer.n] + c') == s.popped + [s.consumer.n] + c';
  }

  lemma UniqueTail(n: Node, xs: seq<Node>)
    requires Unique([n] + xs)
    ensures Unique(xs) && n !in xs
  {
    assert forall i :: 0 <= i < |xs| ==> ([n] + xs)[i + 1] == xs[i];
    assert ([n] + xs)[0] == n;
  }

  lemma ReturnContents(s: State, g: Shape, s': State)
    requires Links(s, g) && Next(s, Return, s')
    ensures Contents(s, g) == [s.consumer.n] + Contents(s', g)
  {
    hide Chain, Reverse;
  }

  lemma ReturnLinks(s: State, g: Shape, s': State)
    requires Links(s, g) && Next(s, Return, s') && s.consumer.n !in Contents(s', g)
    ensures Links(s', g)
  {
    hide Reverse, Chain;
    assert Contents(s.(consumer := Ready), g) == Contents(s', g);
    PrivateWrite(s.(consumer := Ready), g, s.consumer.n, Null);
  }

  lemma ReturnPrivate(s: State, g: Shape, s': State)
    requires Private(s, g) && Next(s, Return, s') && Contents(s, g) == [s.consumer.n] + Contents(s', g)
    ensures Private(s', g)
  {
    hide Contents;
    assert s.consumer.n in Contents(s, g);
  }

  // On the two lists, a compare-and-swap appends, the exchange hands over, and unlinking takes the oldest;
  // nothing else, the reversal included, has any effect.
  ghost predicate Moves(s: State, e: Event, shared: seq<Node>, cached: seq<Node>, shared': seq<Node>,
                        cached': seq<Node>) {
    match e
    case CasOk(p) => p in s.producers && s.producers[p].Linked? && shared' == shared + [s.producers[p].n] && cached' == cached
    case Exchange => cached == [] && shared' == [] && cached' == shared
    case MoveCache => s.consumer.Got? && shared' == shared && cached == [s.consumer.n] + cached'
    case _ => shared' == shared && cached' == cached
  }

  /** Every atomic access by any thread keeps the queue invariant, and on the two lists it is a push, a
      hand-over, a pop, or nothing. */
  lemma StepInv(s: State, g: Shape, e: Event, s': State) returns (g': Shape)
    requires Inv(s, g) && Next(s, e, s')
    ensures Inv(s', g') && Moves(s, e, Shared(g), Cached(g), Shared(g'), Cached(g'))
  {
    hide Inv, Next;
    g' := g;
    match e {
      case Begin(p, n) => BeginInv(s, g, p, n, s');
      case Load(p) => LoadInv(s, g, p, s');
      case Write(p) => WriteInv(s, g, p, s');
      case CasOk(p) =>
        CasOkInv(s, g, p, s');
        g' := g.(stack := [s.producers[p].n] + g.stack);
      case CasFail(p) => LoadInv(s, g, p, s');
      case Exchange =>
        ExchangeInv(s, g, s');
        g' := Shape([], g.fifo, g.stack, []);
      case ReverseOne =>
        ReverseOneInv(s, g, s');
        g' := g.(todo := g.todo[1..], done := [g.todo[0]] + g.done);
      case ReverseEnd =>
        ReverseEndInv(s, g, s');
        g' := Shape(g.stack, g.done, [], []);
      case TakeCached => TakeCachedInv(s, g, s');
      case MoveCache =>
        MoveCacheInv(s, g, s');
        g' := g.(fifo := g.fifo[1..]);
      case Return => ReturnInv(s, g, s');
    }
  }

  // ---------- whole executions ----------

  ghost predicate Execution(ss: seq<State>, es: seq<Event>) {
    && |ss| == |es| + 1 && Init(ss[0])
    && (forall i :: 0 <= i < |es| ==> Next(ss[i], es[i], ss[i + 1]))
  }

  lemma {:induction false} ExecutionInv(ss: seq<State>, es: seq<Event>) returns (g: Shape)
    requires Execution(ss, es)
    ensures Inv(ss[|es|], g)
    decreases |es|
  {
    hide Inv, Init, Next;
    if es == [] {
      InitInv(ss[0]);
      g := Shape([], [], [], []);
    } else {
      var k := |es| - 1;
      assert Next(ss[k], es[k], ss[k + 1]);
      var g0 := ExecutionInv(ss[..|es|], es[..k]);
      g := StepInv(ss[k], g0, es[k], ss[k + 1]);
    }
  }

  /** The queue is FIFO in compare-and-swap order, with nothing lost and nothing doubled, however
      the threads interleave and however soon popped nodes are pushed again: the pops are always a
      prefix of the pushes, and to the consumer the queue reads empty exactly when they are all of them. */
  lemma Fifo(ss: seq<State>, es: seq<Event>)
    requires Execution(ss, es)
    ensures var s := ss[|es|];
            && s.popped <= s.pushed
            && (s.consumer == Ready ==> (s.cache == Null && s.head == Null <==> s.popped == s.pushed))
  {
    var g := ExecutionInv(ss, es);
    var s := ss[|es|];
    if s.consumer == Ready {
      assert s.cache == Null && s.head == Null <==> g == Shape([], [], [], []);
      assert g == Shape([], [], [], []) <==> |Contents(s, g)| == 0;
    }
  }

  /** No popped-and-pushed-again node is ever handed out early: the node xmpsc_pop is about to
      return is the oldest one that was pushed and has not been returned. */
  lemma PopsOldest(ss: seq<State>, es: seq<Event>)
    requires Execution(ss, es)
    ensures var s := ss[|es|];
            s.consumer.Got? || s.consumer.Unlinked? ==>
              |s.popped| < |s.pushed| && s.pushed[|s.popped|] == s.consumer.n
  {
    var g := ExecutionInv(ss, es);
    var s := ss[|es|];
    if s.consumer.Got? || s.consumer.Unlinked? {
      assert Contents(s, g)[0] == s.consumer.n;
    }
  }
}
