/**
 Posting tasks gets somewhere (xthread.c, both builds): a post goes in unless the queue is at its limit, and
 the consumer, woken by the pipe alone and never by its timeout, finishes everything that was posted.
 */
module TaskProgress {
  import opened Common
  import opened Tasks
  import opened TaskQueue

  ghost predicate Run(s: State, es: seq<Event>, s': State)
    decreases |es|
  {
    if es == [] then s' == s else exists m :: Next(s, es[0], m) && Run(m, es[1..], s')
  }

  lemma RunNone(s: State)
    ensures Run(s, [], s)
  {
  }

  lemma RunCons(s: State, e: Event, m: State, es: seq<Event>, s': State)
    requires Next(s, e, m) && Run(m, es, s')
    ensures Run(s, [e] + es, s')
  {
    assert ([e] + es)[1..] == es;
  }

  // ---------- posting ----------

  /** A post is refused exactly if it is an ordinary one and the queue is at its limit. */
  lemma PostIsDecided(s: State, p: Pid, reply: bool)
    requires p in s.posters && s.posters[p] == Idle && (!reply ==> p in s.plain)
    ensures (exists m :: Next(s, Admit(p, reply), m)) <==> reply || s.maxSize == 0 || |s.queue| < s.maxSize
    ensures (exists m :: Next(s, Reject(p), m)) <==> s.maxSize > 0 && |s.queue| >= s.maxSize
    ensures forall m :: Next(s, Reject(p), m) ==> m == s
  {
    if reply || s.maxSize == 0 || |s.queue| < s.maxSize {
      var m := Admitted(s, p, reply);
    }
    if s.maxSize > 0 && |s.queue| >= s.maxSize {
      assert Next(s, Reject(p), s);
    }
  }

  lemma Admitted(s: State, p: Pid, reply: bool) returns (m: State)
    requires p in s.posters && s.posters[p] == Idle && (!reply ==> p in s.plain)
    requires reply || s.maxSize == 0 || |s.queue| < s.maxSize
    ensures Next(s, Admit(p, reply), m) && p in m.posters && m.posters[p].Holding? && m.posters[p].reply == reply
    ensures m == s.(posters := s.posters[p := m.posters[p]], freelist := m.freelist)
  {
    m := if s.freelist == []
         then s.(posters := s.posters[p := Holding(None, reply)])
         else s.(posters := s.posters[p := Holding(Some(s.freelist[0]), reply)], freelist := s.freelist[1..]);
  }

  /** A post that is not refused puts the task at the end of the queue, as posted, and leaves a byte in the
      pipe if no wakeup was pending. */
  lemma PostGoesIn(s: State, p: Pid, reply: bool, hasFunc: bool, deadline: nat) returns (es: seq<Event>, s': State)
    requires WakeOk(s) && p in s.posters && s.posters[p] == Idle && (!reply ==> p in s.plain)
    requires reply || s.maxSize == 0 || |s.queue| < s.maxSize
    ensures Run(s, es, s') && (forall e :: e in es ==> (e.Admit? || e.Enqueue? || e.Notify?) && e.p == p)
    ensures |s'.queue| == |s.queue| + 1 && s'.queue[..|s.queue|] == s.queue
    ensures var t := s'.queue[|s.queue|];
            t.ticket == s.accepted && t.reply == reply && t.hasFunc == hasFunc && t.deadline == deadline
    ensures s'.posters == s.posters && s'.accepted == s.accepted + 1 && s'.consumer == s.consumer
    ensures !s.pending ==> s'.unread > 0
  {
    hide Run;
    var a := Admitted(s, p, reply);
    var t := Task(s.accepted, a.posters[p].node, reply, hasFunc, deadline);
    var b := a.(queue := a.queue + [t], pending := true, accepted := a.accepted + 1,
                posters := a.posters[p := Notifying(!a.pending)]);
    assert Next(a, Enqueue(p, hasFunc, deadline), b);
    s' := b.(posters := b.posters[p := Idle],
             unread := if !a.pending && b.unread < b.pipeCap then b.unread + 1 else b.unread);
    assert Next(b, Notify(p), s');
    RunNone(s');
    RunCons(b, Notify(p), s', [], s');
    RunCons(a, Enqueue(p, hasFunc, deadline), b, [Notify(p)] + [], s');
    RunCons(s, Admit(p, reply), a, [Enqueue(p, hasFunc, deadline)] + ([Notify(p)] + []), s');
    es := [Admit(p, reply)] + ([Enqueue(p, hasFunc, deadline)] + ([Notify(p)] + []));
    assert s'.posters == s.posters;
  }

  // ---------- the consumer ----------

  // What the consumer does by itself; its timeout is not among it.
  predicate Consumes(e: Event) {
    e.Readable? || e.Read? || e.ReadEmpty? || e.PopAll? || e.RunOne? || e.GiveBack?
  }

  ghost predicate Quiet(s: State) {
    forall p :: p in s.posters ==> s.posters[p] == Idle
  }

  predicate AtRest(s: State) {
    s.consumer == Parked && s.queue == []
  }

  function Phase(s: State): nat {
    match s.consumer
    case Running(_, _) => if s.queue == [] then 2 else 6
    case Parked => if s.queue == [] then 1 else 5
    case Draining => 4
    case Popping => 3
  }

  ghost predicate Nearer(s: State, m: State) {
    || |m.queue| < |s.queue|
    || (|m.queue| == |s.queue| &&
        (|| Phase(m) < Phase(s)
         || (Phase(m) == Phase(s) && |Batch(m.consumer)| + m.unread < |Batch(s.consumer)| + s.unread)))
  }

  // In every state but the last the consumer has a step, and it brings it nearer.
  lemma ConsumerStep(s: State, now: nat) returns (e: Event, m: State)
    requires WakeOk(s) && Quiet(s) && !AtRest(s)
    ensures Consumes(e) && Next(s, e, m) && Nearer(s, m)
    ensures m.posters == s.posters && m.accepted == s.accepted
  {
    match s.consumer {
      case Parked =>
        e, m := Readable, s.(consumer := Draining);
      case Draining =>
        if s.unread > 0 {
          e, m := Read(s.unread), s.(unread := 0);
        } else {
          e, m := ReadEmpty, s.(consumer := Popping);
        }
      case Popping =>
        e, m := PopAll, s.(consumer := Running(s.queue, []), queue := [], pending := false);
      case Running(batch, back) =>
        if batch == [] {
          e, m := GiveBack, s.(consumer := Parked, freelist := PushAll(s.freelist, back));
        } else {
          var t := batch[0];
          e := RunOne(now);
          m := s.(consumer := Running(batch[1..], if t.node.Some? then [t.node.value] + back else back),
                  finished := s.finished + [(t.ticket, OutcomeOf(PostOf(t), now))]);
        }
    }
  }

  /** With no poster in the middle of a post the consumer gets, without its timeout, to where every task
      accepted is finished and it sleeps again. */
  lemma AllFinished(s: State, now: nat) returns (es: seq<Event>, s': State)
    requires Inv(s) && Quiet(s)
    ensures Run(s, es, s') && (forall e :: e in es ==> Consumes(e))
    ensures AtRest(s') && |s'.finished| == s'.accepted == s.accepted && s'.posters == s.posters
    decreases |s.queue|, Phase(s), |Batch(s.consumer)| + s.unread
  {
    hide Run, Next, Consumes, Phase, NodesOk, LoadOk, WakeOk, TicketsOk;
    if AtRest(s) {
      RunNone(s);
      NothingOpen(s);
      es, s' := [], s;
    } else {
      var e, m := ConsumerStep(s, now);
      StepInv(s, e, m);
      var fs, t := AllFinished(m, now);
      RunCons(s, e, m, fs, t);
      es, s' := [e] + fs, t;
    }
  }

  lemma NothingOpen(s: State)
    requires TicketsOk(s) && AtRest(s)
    ensures |s.finished| == s.accepted
  {
  }

  /** Whatever posters and consumer did before. */
  lemma NothingIsStuck(ss: seq<State>, es: seq<Event>, now: nat) returns (fs: seq<Event>, s': State)
    requires Execution(ss, es) && Quiet(ss[|es|])
    ensures Run(ss[|es|], fs, s') && (forall e :: e in fs ==> Consumes(e))
    ensures AtRest(s') && |s'.finished| == s'.accepted == ss[|es|].accepted
  {
    hide Run, Next, Inv;
    ExecutionInv(ss, es);
    fs, s' := AllFinished(ss[|es|], now);
  }
}
