/**
 Posting tasks in the lock-free build of xthread.c (XTHREAD_MPSCQ).  The push and the setting of
 the notify flag are two separate atomic operations here, so the wakeup argument differs from
 the one for the mutex queue.  The queue itself appears as two lists, oldest first: `shared` are the
 pushed nodes still behind the head, `cache` is the consumer's list.  MpscQueue.StepInv proves that the
 atomic accesses of the queue do to these two what Push, Exchange and Pop do here.
 */
module TaskMpsc {
  import opened Common
  import opened Tasks

  datatype Poster =
    | Idle
    | Admitted(reply: bool)                          // past the soft limit, task allocated
    | Counted(reply: bool)                           // pending_tasks incremented, push comes next
    | Pushed                                         // push done, flag exchange comes next
    | Notifying(need: bool)

  datatype Consumer =
    | Parked
    | Draining                                       // notify_read_cb reading the pipe
    | Clearing                                       // about to store 0 into notify_pending
    | Popping                                        // in the pop loop
    | Running(task: Task)                            // between a pop and the decrement

  datatype State = State(
    plain: set<Pid>, maxTasks: nat, pipeCap: nat,
    shared: seq<Task>, cache: seq<Task>, flag: bool, counter: int, unread: nat,
    posters: map<Pid, Poster>, consumer: Consumer,
    pushed: nat, finished: seq<(nat, Outcome)>)

  datatype Event =
    | Check(p: Pid, reply: bool)
    | Reject(p: Pid)
    | Count(p: Pid)
    | Push(p: Pid, hasFunc: bool, deadline: nat)
    | SetFlag(p: Pid)
    | Notify(p: Pid)
    | Readable
    | Timeout
    | Read(n: nat)
    | ReadEmpty
    | ClearFlag
    | Exchange
    | Pop
    | PopNothing
    | Finish(now: nat)

  ghost predicate Init(s: State) {
    && s.pipeCap >= 1 && s.shared == [] && s.cache == [] && !s.flag && s.counter == 0 && s.unread == 0
    && s.consumer == Parked && s.pushed == 0 && s.finished == []
    && (forall p :: p in s.posters ==> s.posters[p] == Idle)
  }

  ghost predicate Next(s: State, e: Event, s': State) {
    match e
    case Check(p, reply) =>
      && p in s.posters && s.posters[p] == Idle && (!reply ==> p in s.plain)
      && (reply || s.maxTasks == 0 || s.counter < s.maxTasks)
      && s' == s.(posters := s.posters[p := Admitted(reply)])
    case Reject(p) =>
      p in s.posters && s.posters[p] == Idle && s.maxTasks > 0 && s.counter >= s.maxTasks && s' == s
    case Count(p) =>
      && p in s.posters && s.posters[p].Admitted?
      && s' == s.(posters := s.posters[p := Counted(s.posters[p].reply)], counter := s.counter + 1)
    case Push(p, hasFunc, deadline) =>
      && p in s.posters && s.posters[p].Counted?
      && s' == s.(posters := s.posters[p := Pushed], pushed := s.pushed + 1,
                  shared := s.shared + [Task(s.pushed, None, s.posters[p].reply, hasFunc, deadline)])
    case SetFlag(p) =>
      && p in s.posters && s.posters[p] == Pushed
      && s' == s.(posters := s.posters[p := Notifying(!s.flag)], flag := true)
    case Notify(p) =>
      && p in s.posters && s.posters[p].Notifying?
      && s' == s.(posters := s.posters[p := Idle],
                  unread := if s.posters[p].need && s.unread < s.pipeCap then s.unread + 1 else s.unread)
    case Readable => s.consumer == Parked && s.unread > 0 && s' == s.(consumer := Draining)
    case Timeout => s.consumer == Parked && s' == s.(consumer := Clearing)
    case Read(n) => s.consumer == Draining && 1 <= n <= s.unread && s' == s.(unread := s.unread - n)
    case ReadEmpty => s.consumer == Draining && s.unread == 0 && s' == s.(consumer := Clearing)
    case ClearFlag => s.consumer == Clearing && s' == s.(consumer := Popping, flag := false)
    case Exchange =>
      s.consumer == Popping && s.cache == [] && s.shared != [] && s' == s.(cache := s.shared, shared := [])
    case Pop =>
      s.consumer == Popping && s.cache != [] && s' == s.(consumer := Running(s.cache[0]), cache := s.cache[1..])
    case PopNothing =>
      s.consumer == Popping && s.cache == [] && s.shared == [] && s' == s.(consumer := Parked)
    case Finish(now) =>
      && s.consumer.Running?
      && var t := s.consumer.task;
      && s' == s.(consumer := Popping, counter := s.counter - 1,
                  finished := s.finished + [(t.ticket, OutcomeOf(PostOf(t), now))])
  }

  // ---------- invariants ----------

  function InProgress(c: Consumer): seq<Task> {
    if c.Running? then [c.task] else []
  }

  // The tasks pushed and not yet finished, oldest first.
  function Unfinished(s: State): seq<Task> {
    InProgress(s.consumer) + s.cache + s.shared
  }

  function History(s: State): seq<nat> {
    FinishedTickets(s.finished) + Tickets(Unfinished(s))
  }

  // Tasks finish in push order, each once.
  ghost predicate TicketsOk(s: State) {
    |History(s)| == s.pushed && forall i :: 0 <= i < s.pushed ==> History(s)[i] == i
  }

  ghost predicate Somewhere(s: State, at: Poster) {
    exists p :: p in s.posters && s.posters[p] == at
  }

  // A sleeping consumer's non-empty queue is announced by the flag, or about to be; and a set
  // flag is followed by a byte in the pipe unless the consumer is about to clear it.
  ghost predicate WakeOk(s: State) {
    && s.pipeCap >= 1
    && (s.consumer == Parked && s.cache + s.shared != [] ==> s.flag || Somewhere(s, Pushed))
    && (s.consumer == Parked ==> s.cache == [])
    && (s.flag ==> s.unread > 0 || Somewhere(s, Notifying(true)) || s.consumer == Draining || s.consumer == Clearing)
    && ((s.consumer == Draining || s.consumer == Clearing) ==> s.cache == [])
  }

  ghost function CountedBy(s: State): set<Pid> {
    set p | p in s.posters && s.posters[p].Counted?
  }

  // pending_tasks never drifts: it is the number of tasks counted and not yet finished.
  ghost predicate CounterOk(s: State) {
    s.counter == |CountedBy(s)| + |InProgress(s.consumer)| + |s.cache| + |s.shared|
  }

  // Ordinary posters past the check.
  ghost function PlainHands(s: State): set<Pid> {
    set p | p in s.posters && (s.posters[p].Admitted? || s.posters[p].Counted?) && !s.posters[p].reply
  }

  // How far the soft limit can be overshot: each ordinary poster but one may slip in behind the check.
  ghost function PlainBound(s: State): nat {
    if s.plain == {} then 0 else s.maxTasks + |s.plain| - 1
  }

  ghost predicate LoadOk(s: State) {
    && PlainHands(s) <= s.plain
    && (s.maxTasks > 0 ==> PlainCount(Unfinished(s)) + |PlainHands(s)| <= PlainBound(s))
  }

  ghost predicate Inv(s: State) {
    TicketsOk(s) && WakeOk(s) && CounterOk(s) && LoadOk(s)
  }

  lemma InitInv(s: State)
    requires Init(s)
    ensures Inv(s)
  {
    assert CountedBy(s) == {} && PlainHands(s) == {} && Unfinished(s) == [];
  }

  lemma UnfinishedStep(s: State, e: Event, s': State)
    requires Next(s, e, s')
    ensures e.Push? ==> e.p in s.posters && s.posters[e.p].Counted?
    ensures e.Push? ==> Unfinished(s') == Unfinished(s) + [Task(s.pushed, None, s.posters[e.p].reply, e.hasFunc, e.deadline)]
    ensures e.Finish? ==> Unfinished(s) == [s.consumer.task] + Unfinished(s')
    ensures !e.Push? && !e.Finish? ==> Unfinished(s') == Unfinished(s)
  {
  }

  lemma TicketsKept(s: State, e: Event, s': State)
    requires TicketsOk(s) && Next(s, e, s')
    ensures TicketsOk(s')
  {
    HistoryStep(s, e, s');
    PushedStep(s, e, s');
    hide History, Next;
  }

  lemma HistoryStep(s: State, e: Event, s': State)
    requires Next(s, e, s')
    ensures History(s') == if e.Push? then History(s) + [s.pushed] else History(s)
  {
    UnfinishedStep(s, e, s');
    hide Unfinished;
    if e.Finish? {
      var t := s.consumer.task;
      assert Tickets([t] + Unfinished(s')) == [t.ticket] + Tickets(Unfinished(s'));
      assert FinishedTickets(s'.finished) == FinishedTickets(s.finished) + [t.ticket];
    }
  }

  lemma CountedByStep(s: State, e: Event, s': State)
    requires Next(s, e, s')
    ensures e.Count? ==> CountedBy(s') == CountedBy(s) + {e.p} && e.p !in CountedBy(s)
    ensures e.Push? ==> CountedBy(s') == CountedBy(s) - {e.p} && e.p in CountedBy(s)
    ensures !e.Count? && !e.Push? ==> CountedBy(s') == CountedBy(s)
  {
  }

  lemma CounterKept(s: State, e: Event, s': State)
    requires CounterOk(s) && Next(s, e, s')
    ensures CounterOk(s')
  {
    CountedByStep(s, e, s');
    hide CountedBy;
  }

  lemma PlainHandsStep(s: State, e: Event, s': State)
    requires Next(s, e, s') && PlainHands(s) <= s.plain
    ensures PlainHands(s') <= s'.plain == s.plain
    ensures e.Push? ==> e.p in s.posters && s.posters[e.p].Counted?
    ensures e.Push? ==> PlainHands(s') == (if s.posters[e.p].reply then PlainHands(s) else PlainHands(s) - {e.p})
                        && (!s.posters[e.p].reply ==> e.p in PlainHands(s))
    ensures e.Check? ==> if e.reply then PlainHands(s') == PlainHands(s) else e.p in s.plain
    ensures !e.Push? && !e.Check? ==> PlainHands(s') == PlainHands(s)
  {
    if e.Count? {
      assert PlainHands(s') == PlainHands(s);
    }
  }

  lemma LoadKept(s: State, e: Event, s': State)
    requires LoadOk(s) && CounterOk(s) && Next(s, e, s')
    ensures LoadOk(s')
  {
    UnfinishedStep(s, e, s');
    PlainHandsStep(s, e, s');
    hide PlainHands;
    if e.Push? {
      PlainCountConcat(Unfinished(s), [Task(s.pushed, None, s.posters[e.p].reply, e.hasFunc, e.deadline)]);
    } else if e.Finish? {
      PlainCountConcat([s.consumer.task], Unfinished(s'));
    } else if e.Check? && !e.reply {
      SubsetSize(PlainHands(s'), s.plain);
      assert PlainCount(Unfinished(s)) <= |Unfinished(s)| <= s.counter;
    }
  }

  // A poster other than the one that moved is still where it was.
  lemma StillThere(s: State, e: Event, s': State, at: Poster)
    requires Next(s, e, s') && Somewhere(s, at)
    requires (at == Pushed && !e.SetFlag?) || (at == Notifying(true) && !e.Notify?)
    ensures Somewhere(s', at)
  {
    var p :| p in s.posters && s.posters[p] == at;
    assert p in s'.posters && s'.posters[p] == at;
  }

  lemma WakeKept(s: State, e: Event, s': State)
    requires WakeOk(s) && Next(s, e, s')
    ensures WakeOk(s')
  {
    if Somewhere(s, Pushed) && !e.SetFlag? {
      StillThere(s, e, s', Pushed);
    }
    if Somewhere(s, Notifying(true)) {
      if e.Notify? {
        var p :| p in s.posters && s.posters[p] == Notifying(true);
        assert p != e.p ==> s'.posters[p] == Notifying(true);
      } else {
        StillThere(s, e, s', Notifying(true));
      }
    }
    if e.Push? {
      assert s'.posters[e.p] == Pushed;
    }
    if e.SetFlag? {
      assert s'.posters[e.p] == Notifying(!s.flag);
    }
  }

  /** Every atomic operation and system call keeps the invariants. */
  lemma StepInv(s: State, e: Event, s': State)
    requires Inv(s) && Next(s, e, s')
    ensures Inv(s')
  {
    hide TicketsOk, WakeOk, CounterOk, LoadOk, Next;
    TicketsKept(s, e, s');
    WakeKept(s, e, s');
    CounterKept(s, e, s');
    LoadKept(s, e, s');
  }

  ghost predicate Execution(ss: seq<State>, es: seq<Event>) {
    && |ss| == |es| + 1 && Init(ss[0])
    && (forall i :: 0 <= i < |es| ==> Next(ss[i], es[i], ss[i + 1]))
  }

  lemma {:induction false} ExecutionInv(ss: seq<State>, es: seq<Event>)
    requires Execution(ss, es)
    ensures Inv(ss[|es|])
    decreases |es|
  {
    hide Inv, Init, Next;
    if es == [] {
      InitInv(ss[0]);
    } else {
      var k := |es| - 1;
      ExecutionInv(ss[..|es|], es[..k]);
      StepInv(ss[k], es[k], ss[k + 1]);
    }
  }

  // The posts of an execution, and what the clock read for each task handled.
  function Posts(es: seq<Event>): seq<Post> {
    if es == [] then []
    else
      var init, e := es[..|es|-1], es[|es|-1];
      Posts(init) + (if e.Push? then [Post(e.hasFunc, e.deadline)] else [])
  }

  function Clocks(es: seq<Event>): seq<nat> {
    if es == [] then []
    else
      var init, e := es[..|es|-1], es[|es|-1];
      Clocks(init) + (if e.Finish? then [e.now] else [])
  }

  lemma ToldKept(s: State, e: Event, s': State, posts: seq<Post>, clocks: seq<nat>)
    requires TicketsOk(s) && Next(s, e, s') && |posts| == s.pushed && Told(Unfinished(s), s.finished, posts, clocks)
    ensures Told(Unfinished(s'), s'.finished, posts + (if e.Push? then [Post(e.hasFunc, e.deadline)] else []),
                 clocks + (if e.Finish? then [e.now] else []))
  {
    UnfinishedStep(s, e, s');
    hide Told, Unfinished;
    assert posts + [] == posts && clocks + [] == clocks;
    if e.Push? {
      ToldPost(Unfinished(s), s.finished, posts, clocks,
               Task(s.pushed, None, s.posters[e.p].reply, e.hasFunc, e.deadline));
    } else if e.Finish? {
      assert History(s)[|s.finished|] == s.consumer.task.ticket;
      ToldHandled(s.consumer.task, Unfinished(s'), s.finished, posts, clocks, e.now);
    }
  }

  lemma InitTold(s: State)
    requires Init(s)
    ensures s.pushed == 0 && Told(Unfinished(s), s.finished, [], [])
  {
  }

  lemma PushedStep(s: State, e: Event, s': State)
    requires Next(s, e, s')
    ensures s'.pushed == s.pushed + (if e.Push? then 1 else 0)
  {
  }

  lemma {:induction false} ExecutionTold(ss: seq<State>, es: seq<Event>)
    requires Execution(ss, es)
    ensures |Posts(es)| == ss[|es|].pushed && Told(Unfinished(ss[|es|]), ss[|es|].finished, Posts(es), Clocks(es))
    decreases |es|
  {
    hide LoadOk, CounterOk, WakeOk, Told, Unfinished, Init, Next;
    if es == [] {
      InitTold(ss[0]);
    } else {
      var k := |es| - 1;
      ExecutionTold(ss[..|es|], es[..k]);
      ExecutionInv(ss[..|es|], es[..k]);
      PushedStep(ss[k], es[k], ss[k + 1]);
      ToldKept(ss[k], es[k], ss[k + 1], Posts(es[..k]), Clocks(es[..k]));
    }
  }

  /** No lost wakeup in the lock-free build. */
  lemma NoLostWakeup(ss: seq<State>, es: seq<Event>)
    requires Execution(ss, es)
    ensures var s := ss[|es|];
            s.consumer == Parked && (forall p :: p in s.posters ==> s.posters[p] == Idle) && s.cache + s.shared != [] ==>
              s.unread > 0
  {
    ExecutionInv(ss, es);
  }

  /** Each pushed task finishes at most once and in push order, run if it has a function and was in time
      when its turn came, and dropped otherwise; and pending_tasks is exact when no
      poster is half-way. */
  lemma EachTaskOnce(ss: seq<State>, es: seq<Event>)
    requires Execution(ss, es)
    ensures var s := ss[|es|];
            && |s.finished| == |Clocks(es)| <= s.pushed == |Posts(es)|
            && (forall i :: 0 <= i < |s.finished| ==>
                  var p := Posts(es)[i];
                  && s.finished[i].0 == i
                  && (s.finished[i].1 == Ran <==> p.hasFunc && (p.deadline == 0 || Clocks(es)[i] < p.deadline)))
            && ((forall p :: p in s.posters ==> !s.posters[p].Counted?) ==> s.counter == s.pushed - |s.finished|)
  {
    ExecutionInv(ss, es);
    ExecutionTold(ss, es);
    hide Posts, Clocks;
    var s := ss[|es|];
    forall i | 0 <= i < |s.finished|
      ensures s.finished[i].0 == i
    {
      assert History(s)[i] == s.finished[i].0;
    }
    if forall p :: p in s.posters ==> !s.posters[p].Counted? {
      assert CountedBy(s) == {};
    }
  }

  /** With P posters of ordinary tasks the soft limit is overshot by at most P - 1 of them, the task that
      is running included. */
  lemma SoftLimit(ss: seq<State>, es: seq<Event>)
    requires Execution(ss, es) && ss[|es|].maxTasks > 0 && ss[|es|].plain != {}
    ensures PlainCount(Unfinished(ss[|es|])) <= ss[|es|].maxTasks + |ss[|es|].plain| - 1
  {
    ExecutionInv(ss, es);
  }
}
