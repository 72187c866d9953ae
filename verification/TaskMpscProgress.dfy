/**
 The same for the lock-free build of xthread.c: a post goes in unless the counter is at the limit, and the
 consumer, woken by the pipe alone, finishes everything that was posted.
 */
module TaskMpscProgress {
  import opened Common
  import opened Tasks
  import opened TaskMpsc

  ghost predicate Run(s: State, es: seq<Event>, s': State)
    decreases |es|
  {
    if es == [] then s' == s else exists m :: Next(s, es[0], m) && Run(m, es[1..], s')
  }

  lemma RunNone(s: State)
    ensures Run(s, [], s)
  {
  }

  lemma RunCons(s: State, e: Event, m: State, es: seq<Event>, s': State)
    requires Next(s, e, m) && Run(m, es, s')
    ensures Run(s, [e] + es, s')
  {
    assert ([e] + es)[1..] == es;
  }

  // ---------- posting ----------

  /** A post is refused exactly if it is an ordinary one and the counter is at the limit. */
  lemma PostIsDecided(s: State, p: Pid, reply: bool)
    requires p in s.posters && s.posters[p] == Idle && (!reply ==> p in s.plain)
    ensures (exists m :: Next(s, Check(p, reply), m)) <==> reply || s.maxTasks == 0 || s.counter < s.maxTasks
    ensures (exists m :: Next(s, Reject(p), m)) <==> s.maxTasks > 0 && s.counter >= s.maxTasks
    ensures forall m :: Next(s, Reject(p), m) ==> m == s
  {
    if reply || s.maxTasks == 0 || s.counter < s.maxTasks {
      assert Next(s, Check(p, reply), s.(posters := s.posters[p := Admitted(reply)]));
    }
    if s.maxTasks > 0 && s.counter >= s.maxTasks {
      assert Next(s, Reject(p), s);
    }
  }

  /** A post that is not refused puts the task on the shared list, as posted, counts it, and leaves a byte in
      the pipe if the flag was clear. */
  lemma PostGoesIn(s: State, p: Pid, reply: bool, hasFunc: bool, deadline: nat) returns (es: seq<Event>, s': State)
    requires WakeOk(s) && p in s.posters && s.posters[p] == Idle && (!reply ==> p in s.plain)
    requires reply || s.maxTasks == 0 || s.counter < s.maxTasks
    ensures Run(s, es, s')
    ensures forall e :: e in es ==> (e.Check? || e.Count? || e.Push? || e.SetFlag? || e.Notify?) && e.p == p
    ensures s'.shared == s.shared + [Task(s.pushed, None, reply, hasFunc, deadline)] && s'.cache == s.cache
    ensures s'.posters == s.posters && s'.pushed == s.pushed + 1 && s'.counter == s.counter + 1
    ensures s'.consumer == s.consumer && (!s.flag ==> s'.unread > 0)
  {
    hide Run;
    var t := Task(s.pushed, None, reply, hasFunc, deadline);
    var a := s.(posters := s.posters[p := Admitted(reply)]);
    var b := a.(posters := a.posters[p := Counted(reply)], counter := a.counter + 1);
    assert Next(s, Check(p, reply), a) && Next(a, Count(p), b);
    var c := b.(posters := b.posters[p := Pushed], pushed := b.pushed + 1, shared := b.shared + [t]);
    assert Next(b, Push(p, hasFunc, deadline), c);
    var fs, u := Announce(c, p);
    s' := u;
    RunCons(b, Push(p, hasFunc, deadline), c, fs, u);
    RunCons(a, Count(p), b, [Push(p, hasFunc, deadline)] + fs, u);
    RunCons(s, Check(p, reply), a, [Count(p)] + ([Push(p, hasFunc, deadline)] + fs), u);
    es := [Check(p, reply)] + ([Count(p)] + ([Push(p, hasFunc, deadline)] + fs));
    assert s'.posters == s.posters;
  }

  lemma Announce(s: State, p: Pid) returns (es: seq<Event>, s': State)
    requires p in s.posters && s.posters[p] == Pushed && s.pipeCap >= 1
    ensures Run(s, es, s') && (forall e :: e in es ==> (e.SetFlag? || e.Notify?) && e.p == p)
    ensures s' == s.(posters := s.posters[p := Idle], flag := true, unread := s'.unread)
    ensures !s.flag ==> s'.unread > 0
  {
    hide Run;
    var a := s.(posters := s.posters[p := Notifying(!s.flag)], flag := true);
    s' := a.(posters := a.posters[p := Idle],
             unread := if !s.flag && a.unread < a.pipeCap then a.unread + 1 else a.unread);
    assert Next(s, SetFlag(p), a) && Next(a, Notify(p), s');
    RunNone(s');
    RunCons(a, Notify(p), s', [], s');
    RunCons(s, SetFlag(p), a, [Notify(p)] + [], s');
    es := [SetFlag(p)] + ([Notify(p)] + []);
    assert s'.posters == s.posters[p := Idle];
  }

  // ---------- the consumer ----------

  // What the consumer does by itself; its timeout is not among it.
  predicate Consumes(e: Event) {
    || e.Readable? || e.Read? || e.ReadEmpty? || e.ClearFlag?
    || e.Exchange? || e.Pop? || e.PopNothing? || e.Finish?
  }

  ghost predicate Quiet(s: State) {
    forall p :: p in s.posters ==> s.posters[p] == Idle
  }

  predicate AtRest(s: State) {
    s.consumer == Parked && s.shared == [] && s.cache == []
  }

  function Phase(s: State): nat {
    match s.consumer
    case Parked => if s.shared == [] && s.cache == [] then 0 else 5
    case Draining => 4
    case Clearing => 3
    case Popping => 2
    case Running(_) => 1
  }

  ghost predicate Nearer(s: State, m: State) {
    || |Unfinished(m)| < |Unfinished(s)|
    || (|Unfinished(m)| == |Unfinished(s)| &&
        (Phase(m) < Phase(s) || (Phase(m) == Phase(s) && |m.shared| + m.unread < |s.shared| + s.unread)))
  }

  // In every state but the last the consumer has a step, and it brings it nearer.
  lemma ConsumerStep(s: State, now: nat) returns (e: Event, m: State)
    requires WakeOk(s) && Quiet(s) && !AtRest(s)
    ensures Consumes(e) && Next(s, e, m) && Nearer(s, m)
    ensures m.posters == s.posters && m.pushed == s.pushed
  {
    match s.consumer {
      case Parked =>
        e, m := Readable, s.(consumer := Draining);
      case Draining =>
        if s.unread > 0 {
          e, m := Read(s.unread), s.(unread := 0);
        } else {
          e, m := ReadEmpty, s.(consumer := Clearing);
        }
      case Clearing =>
        e, m := ClearFlag, s.(consumer := Popping, flag := false);
      case Popping =>
        if s.cache != [] {
          e, m := Pop, s.(consumer := Running(s.cache[0]), cache := s.cache[1..]);
        } else if s.shared != [] {
          e, m := Exchange, s.(cache := s.shared, shared := []);
        } else {
          e, m := PopNothing, s.(consumer := Parked);
        }
      case Running(t) =>
        e := Finish(now);
        m := s.(consumer := Popping, counter := s.counter - 1,
                finished := s.finished + [(t.ticket, OutcomeOf(PostOf(t), now))]);
    }
  }

  /** With no poster in the middle of a post the consumer gets, without its timeout, to where every task
      pushed is finished, the counter is back at 0, and it sleeps again. */
  lemma AllFinished(s: State, now: nat) returns (es: seq<Event>, s': State)
    requires Inv(s) && Quiet(s)
    ensures Run(s, es, s') && (forall e :: e in es ==> Consumes(e))
    ensures AtRest(s') && |s'.finished| == s'.pushed == s.pushed && s'.counter == 0 && s'.posters == s.posters
    decreases |Unfinished(s)|, Phase(s), |s.shared| + s.unread
  {
    hide Run, Next, Consumes, Phase, Unfinished, CounterOk, LoadOk, WakeOk, TicketsOk;
    if AtRest(s) {
      RunNone(s);
      NothingOpen(s);
      es, s' := [], s;
    } else {
      var e, m := ConsumerStep(s, now);
      StepInv(s, e, m);
      var fs, t := AllFinished(m, now);
      RunCons(s, e, m, fs, t);
      es, s' := [e] + fs, t;
    }
  }

  lemma NothingOpen(s: State)
    requires TicketsOk(s) && CounterOk(s) && AtRest(s) && Quiet(s)
    ensures |s.finished| == s.pushed && s.counter == 0
  {
    assert CountedBy(s) == {};
  }

  /** Whatever posters and consumer did before. */
  lemma NothingIsStuck(ss: seq<State>, es: seq<Event>, now: nat) returns (fs: seq<Event>, s': State)
    requires Execution(ss, es) && Quiet(ss[|es|])
    ensures Run(ss[|es|], fs, s') && (forall e :: e in fs ==> Consumes(e))
    ensures AtRest(s') && |s'.finished| == s'.pushed == ss[|es|].pushed
  {
    hide Run, Next, Inv;
    ExecutionInv(ss, es);
    fs, s' := AllFinished(ss[|es|], now);
  }
}
