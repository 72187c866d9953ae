/**
 The abstract timer queue that the wheel of xtimer.c must agree with: a finite map
 from handles to due times.  It knows nothing about levels, slots or cascading.
 */
module TimerSpec {

  type Handle = nat

  // `left` counts the callbacks still owed, `due` is the tick of the next one.
  datatype Timer = Timer(due: nat, interval: nat, left: nat)

  type Queue = map<Handle, Timer>

  datatype Event =
    | Created(h: Handle, timer: Timer)
    | Destroyed(h: Handle)
    | Fired(h: Handle, tick: nat)

  // An ordinary repeat comes back one interval later.  A repeat of interval 0 goes back
  // into the level-0 slot that was just detached, which comes round again 256 ticks later.
  function Period(interval: nat): (p: nat)
    ensures p >= 1
  {
    if interval == 0 then 256 else interval
  }

  function Rearmed(t: Timer): (r: Timer)
    requires t.left > 0
  {
    Timer(t.due + Period(t.interval), t.interval, t.left - 1)
  }

  // The queue after the timer `h` has fired once.
  function AfterFire(q: Queue, h: Handle): (r: Queue)
    requires h in q && q[h].left > 0
  {
    if q[h].left == 1 then q - {h} else q[h := Rearmed(q[h])]
  }

  // One observable step while the clock reads `now`.  A timer fires only when it is the
  // earliest one pending, exactly at its due tick, and only if that tick is before `now`.
  ghost predicate Step(now: nat, q: Queue, e: Event, q': Queue) {
    match e
    case Created(h, t) => h !in q && t.left >= 1 && t.due == now + t.interval && q' == q[h := t]
    case Destroyed(h) => q' == q - {h}
    case Fired(h, tick) =>
      && h in q && q[h].left > 0
      && q[h].due == tick < now
      && (forall o :: o in q ==> tick <= q[o].due)
      && q' == AfterFire(q, h)
  }

  ghost predicate Run(now: nat, q: Queue, es: seq<Event>, q': Queue)
    decreases |es|
  {
    if es == [] then q == q'
    else
      var init, e := es[..|es|-1], es[|es|-1];
      exists m: Queue :: Run(now, q, init, m) && Step(now, m, e, q')
  }

  lemma RunSnoc(now: nat, q: Queue, es: seq<Event>, m: Queue, e: Event, q': Queue)
    requires Run(now, q, es, m) && Step(now, m, e, q')
    ensures Run(now, q, es + [e], q')
  {
    assert (es + [e])[..|es + [e]| - 1] == es;
  }

  // All callbacks that became due before `now` have run.
  ghost predicate Drained(now: nat, q: Queue) {
    forall h :: h in q ==> now <= q[h].due
  }

  // ---------- what is asked for, and what comes of it ----------

  // What the client or a callback may ask for.
  datatype Action = Create(interval: int, repeat: int) | Destroy(h: Handle)

  // The timer that xtimer_create makes when the clock reads `now`.
  ghost predicate AskedFor(t: Timer, now: nat, interval: int, repeat: int) {
    && (interval >= 0 ==> t.due == now + interval && t.interval == interval)
    && (interval < 0 ==> t.due == now && t.interval == 0)
    && (repeat >= 1 ==> t.left == repeat)
    && (repeat == -1 ==> t.left == 0x7FFF_FFFF)
    && (repeat < -1 || repeat == 0 ==> t.left == 1)
  }

  // An interval that would take the clock past 2^63 - 1 is refused.
  ghost predicate Answered(now: nat, act: Action, es: seq<Event>) {
    match act
    case Create(interval, repeat) =>
      if now > 0x7FFF_FFFF_FFFF_FFFF || interval > 0x7FFF_FFFF_FFFF_FFFF - now then es == []
      else |es| == 1 && es[0].Created? && AskedFor(es[0].timer, now, interval, repeat)
    case Destroy(h) => es == [Destroyed(h)]
  }

  // Every request in turn.
  ghost predicate AllAnswered(now: nat, acts: seq<Action>, es: seq<Event>)
    decreases |acts|
  {
    if acts == [] then es == []
    else exists init: seq<Event>, fs: seq<Event> ::
      es == init + fs && AllAnswered(now, acts[..|acts|-1], init) && Answered(now, acts[|acts|-1], fs)
  }

  lemma AnsweredNone(now: nat)
    ensures AllAnswered(now, [], [])
  {
  }

  lemma AnsweredSnoc(now: nat, acts: seq<Action>, es: seq<Event>, act: Action, fs: seq<Event>)
    requires AllAnswered(now, acts, es) && Answered(now, act, fs)
    ensures AllAnswered(now, acts + [act], es + fs)
  {
    hide Answered;
    assert (acts + [act])[..|acts|] == acts;
  }

  // Callbacks number m to n - 1 of a poll: each fires, and then what it asks for is answered.
  ghost predicate Performed(now: nat, script: nat -> seq<Action>, m: nat, n: nat, es: seq<Event>)
    decreases n
  {
    if n <= m then n == m && es == []
    else exists init: seq<Event>, e: Event, fs: seq<Event> ::
      es == init + ([e] + fs) && Performed(now, script, m, n - 1, init) && Answering(now, script(n - 1), e, fs)
  }

  ghost predicate Answering(now: nat, acts: seq<Action>, e: Event, fs: seq<Event>) {
    e.Fired? && AllAnswered(now, acts, fs)
  }

  lemma PerformedNone(now: nat, script: nat -> seq<Action>, m: nat)
    ensures Performed(now, script, m, m, [])
  {
  }

  lemma PerformedSnoc(now: nat, script: nat -> seq<Action>, m: nat, n: nat, es: seq<Event>, e: Event, fs: seq<Event>)
    requires m <= n && Performed(now, script, m, n, es) && e.Fired? && AllAnswered(now, script(n), fs)
    ensures Performed(now, script, m, n + 1, es + ([e] + fs))
  {
    hide AllAnswered;
    assert Answering(now, script(n), e, fs);
  }

  lemma PerformedLast(now: nat, script: nat -> seq<Action>, m: nat, n: nat, es: seq<Event>)
    returns (init: seq<Event>, e: Event, fs: seq<Event>)
    requires m <= n && Performed(now, script, m, n, es)
    ensures m == n ==> es == []
    ensures m < n ==> es == init + ([e] + fs) && Performed(now, script, m, n - 1, init)
                      && e.Fired? && AllAnswered(now, script(n - 1), fs)
  {
    hide AllAnswered;
    init, e, fs := [], Destroyed(0), [];
    if m < n {
      init, e, fs :| es == init + ([e] + fs) && Performed(now, script, m, n - 1, init)
                     && Answering(now, script(n - 1), e, fs);
    }
  }

  lemma {:induction false} PerformedConcat(now: nat, script: nat -> seq<Action>, m: nat, k: nat, n: nat,
                                           es: seq<Event>, fs: seq<Event>)
    requires m <= k <= n && Performed(now, script, m, k, es) && Performed(now, script, k, n, fs)
    ensures Performed(now, script, m, n, es + fs)
    decreases n
  {
    hide Performed, AllAnswered;
    if n == k {
      var _, _, _ := PerformedLast(now, script, k, n, fs);
      assert es + fs == es;
    } else {
      var init, e, gs := PerformedLast(now, script, k, n, fs);
      PerformedConcat(now, script, m, k, n - 1, es, init);
      PerformedSnoc(now, script, m, n - 1, es + init, e, gs);
      assert (es + init) + ([e] + gs) == es + fs;
    }
  }

  // What the client asks for, and then a poll in which the callbacks do what `script` says.
  datatype Round = Round(acts: seq<Action>, now: nat, script: nat -> seq<Action>)

  // Round after round, from the clock `start` on.
  ghost predicate Played(start: nat, rounds: seq<Round>, hs: seq<Moment>)
    decreases |rounds|
  {
    if rounds == [] then hs == []
    else
      var init, r := rounds[..|rounds|-1], rounds[|rounds|-1];
      exists before: seq<Moment>, es: seq<Event>, fs: seq<Event>, n: nat ::
        && hs == before + Stamped(ClockAfter(start, init), es) + Stamped(r.now, fs)
        && Played(start, init, before) && AllAnswered(ClockAfter(start, init), r.acts, es)
        && Performed(r.now, r.script, 0, n, fs)
  }

  function ClockAfter(start: nat, rounds: seq<Round>): nat {
    if rounds == [] then start else rounds[|rounds|-1].now
  }

  lemma PlayedNone(start: nat)
    ensures Played(start, [], [])
  {
  }

  lemma PlayedSnoc(start: nat, rounds: seq<Round>, hs: seq<Moment>, r: Round, es: seq<Event>, fs: seq<Event>, n: nat)
    requires Played(start, rounds, hs) && AllAnswered(ClockAfter(start, rounds), r.acts, es)
    requires Performed(r.now, r.script, 0, n, fs)
    ensures Played(start, rounds + [r], hs + Stamped(ClockAfter(start, rounds), es) + Stamped(r.now, fs))
  {
    hide AllAnswered, Performed, Stamped;
    var all := rounds + [r];
    assert all[..|all|-1] == rounds && all[|all|-1] == r;
    var hs' := hs + Stamped(ClockAfter(start, rounds), es) + Stamped(r.now, fs);
    assert Played(start, all, hs') <==> exists before: seq<Moment>, es: seq<Event>, fs: seq<Event>, n: nat ::
        && hs' == before + Stamped(ClockAfter(start, rounds), es) + Stamped(r.now, fs)
        && Played(start, rounds, before) && AllAnswered(ClockAfter(start, rounds), r.acts, es)
        && Performed(r.now, r.script, 0, n, fs);
  }

  // ---------- many runs ----------

  // What happened, and what the clock read.
  datatype Moment = Moment(now: nat, event: Event)

  // A session: runs one after another, under a clock that does not go back.
  ghost predicate Trace(q: Queue, hs: seq<Moment>, q': Queue)
    decreases |hs|
  {
    if hs == [] then q == q'
    else
      var init, x := hs[..|hs|-1], hs[|hs|-1];
      && (init != [] ==> init[|init|-1].now <= x.now)
      && exists m: Queue :: Trace(q, init, m) && Step(x.now, m, x.event, q')
  }

  function Stamped(now: nat, es: seq<Event>): (hs: seq<Moment>)
    ensures |hs| == |es| && forall i :: 0 <= i < |hs| ==> hs[i] == Moment(now, es[i])
  {
    seq(|es|, i requires 0 <= i < |es| => Moment(now, es[i]))
  }

  /** A run makes the session so far longer. */
  lemma {:induction false} TraceAppend(q: Queue, hs: seq<Moment>, m: Queue, now: nat, es: seq<Event>, q': Queue)
    requires Trace(q, hs, m) && Run(now, m, es, q') && (hs != [] ==> hs[|hs|-1].now <= now)
    ensures Trace(q, hs + Stamped(now, es), q')
    decreases |es|
  {
    hide Trace, Step;
    if es == [] {
      assert hs + Stamped(now, es) == hs;
    } else {
      var init, e := es[..|es|-1], es[|es|-1];
      var k: Queue :| Run(now, m, init, k) && Step(now, k, e, q');
      hide Run;
      TraceAppend(q, hs, m, now, init, k);
      assert Stamped(now, es) == Stamped(now, init) + [Moment(now, e)];
      assert (hs + Stamped(now, init)) + [Moment(now, e)] == hs + Stamped(now, es);
      TraceSnoc(q, hs + Stamped(now, init), k, Moment(now, e), q');
    }
  }

  lemma TraceStart(q: Queue)
    ensures Trace(q, [], q)
  {
  }

  lemma TraceSnoc(q: Queue, hs: seq<Moment>, m: Queue, x: Moment, q': Queue)
    requires Trace(q, hs, m) && Step(x.now, m, x.event, q') && (hs != [] ==> hs[|hs|-1].now <= x.now)
    ensures Trace(q, hs + [x], q')
  {
    hide Step;
    assert (hs + [x])[..|hs + [x]| - 1] == hs;
  }

  // A step puts nothing before what was pending, and nothing new before the clock.
  lemma StepLater(now: nat, q: Queue, e: Event, q': Queue)
    requires Step(now, q, e, q')
    ensures forall h :: h in q' ==> q'[h].due >= now || (h in q && q'[h].due >= q[h].due)
    ensures e.Fired? ==> e.tick < now && e.h in q && forall o :: o in q ==> e.tick <= q[o].due
  {
  }

  predicate Fires(x: Moment, h: Handle) {
    x.event.Fired? && x.event.h == h
  }

  function FireCount(hs: seq<Moment>, h: Handle): (n: nat) {
    if hs == [] then 0 else FireCount(hs[..|hs|-1], h) + (if Fires(hs[|hs|-1], h) then 1 else 0)
  }

  ghost predicate Untouched(hs: seq<Moment>, h: Handle) {
    forall x :: x in hs ==> !(x.event.Created? && x.event.h == h) && !(x.event.Destroyed? && x.event.h == h)
  }

  // The tick of callback number c of a timer: c periods after the first.
  function TickOf(t: Timer, c: nat): nat {
    t.due + c * Period(t.interval)
  }

  ghost predicate OnTime(hs: seq<Moment>, h: Handle, t: Timer) {
    forall i :: 0 <= i < |hs| && Fires(hs[i], h) ==>
      hs[i].event.tick == TickOf(t, FireCount(hs[..i], h)) < hs[i].now
  }

  lemma OnTimeMore(hs: seq<Moment>, h: Handle, t: Timer)
    requires hs != [] && OnTime(hs[..|hs|-1], h, t)
    requires var init, x := hs[..|hs|-1], hs[|hs|-1];
             Fires(x, h) ==> x.event.tick == TickOf(t, FireCount(init, h)) < x.now
    ensures OnTime(hs, h, t)
  {
    hide FireCount;
    var init := hs[..|hs|-1];
    forall i | 0 <= i < |hs| && Fires(hs[i], h)
      ensures hs[i].event.tick == TickOf(t, FireCount(hs[..i], h)) < hs[i].now
    {
      if i < |init| {
        assert init[i] == hs[i] && init[..i] == hs[..i];
      } else {
        assert hs[..i] == init;
      }
    }
  }

  lemma TickStep(t: Timer, c: nat)
    ensures TickOf(t, c + 1) == TickOf(t, c) + Period(t.interval) && TickOf(t, 0) == t.due
  {
    MulStep(c, Period(t.interval));
  }

  lemma MulStep(k: int, p: int)
    ensures (k + 1) * p == k * p + p
  {
  }

  /** Where a timer that nobody touches stands at any point of a session, and when it fired. */
  lemma {:induction false} TraceTracks(q: Queue, hs: seq<Moment>, q': Queue, h: Handle)
    requires Trace(q, hs, q') && h in q && q[h].left > 0 && Untouched(hs, h)
    ensures var c, t := FireCount(hs, h), q[h];
            && c <= t.left
            && (h in q' <==> c < t.left)
            && (h in q' ==> q'[h] == Timer(TickOf(t, c), t.interval, t.left - c))
    ensures OnTime(hs, h, q[h])
    decreases |hs|
  {
    if hs == [] {
    } else {
      var init, x := hs[..|hs|-1], hs[|hs|-1];
      assert x in hs;
      assert forall y :: y in init ==> y in hs;
      var m: Queue :| Trace(q, init, m) && Step(x.now, m, x.event, q');
      hide OnTime, TickOf;
      TraceTracks(q, init, m, h);
      TickStep(q[h], FireCount(init, h));
      OnTimeMore(hs, h, q[h]);
    }
  }

  /** Catch-up is exact: when nothing is due before `now`, a timer nobody creates over or destroys has
      fired once for every due tick before it, up to its repeat count, whatever polls and requests
      there were: none is early, none is lost, none is doubled. */
  lemma CatchUpIsExact(now: nat, q: Queue, hs: seq<Moment>, q': Queue, h: Handle)
    requires Trace(q, hs, q') && Drained(now, q') && (hs != [] ==> hs[|hs|-1].now <= now)
    requires h in q && q[h].left > 0 && Untouched(hs, h)
    ensures OnTime(hs, h, q[h])
    ensures var c, t := FireCount(hs, h), q[h];
            && c <= t.left
            && (c > 0 ==> TickOf(t, c - 1) < now)
            && (c < t.left ==> now <= TickOf(t, c))
  {
    TraceTracks(q, hs, q', h);
    LastFiring(q, hs, q', h, now);
  }

  // When callback number c of a timer asked for at clock `at` is due.
  function AskedTick(at: nat, interval: int, c: nat): int {
    if interval > 0 then at + (c + 1) * interval else at + c * 256
  }

  /** Read from the request: a timer asked for at clock `at` fires at at + interval, at + 2 * interval, and so
      on (with interval 0 first at `at` and then every 256 ticks), as often as asked for. */
  lemma AskedIsServed(at: nat, interval: int, repeat: int, q0: Queue, h: Handle, t: Timer, q: Queue,
                      now: nat, hs: seq<Moment>, q': Queue)
    requires AskedFor(t, at, interval, repeat) && Step(at, q0, Created(h, t), q)
    requires Trace(q, hs, q') && Drained(now, q') && (hs != [] ==> hs[|hs|-1].now <= now) && Untouched(hs, h)
    ensures forall i :: 0 <= i < |hs| && Fires(hs[i], h) ==>
              var c := FireCount(hs[..i], h);
              hs[i].event.tick == AskedTick(at, interval, c)
    ensures var c := FireCount(hs, h);
            var owed := if repeat == -1 then 0x7FFF_FFFF else if repeat < 1 then 1 else repeat;
            && c <= owed && (c < owed ==> now <= AskedTick(at, interval, c))
            && (c > 0 ==> AskedTick(at, interval, c - 1) < now)
  {
    hide FireCount, Trace, Drained, Untouched, TickOf, OnTime, AskedFor, AskedTick;
    assert h in q && q[h] == t;
    AskedTicks(t, at, interval, repeat, 0);
    CatchUpIsExact(now, q, hs, q', h);
    forall i | 0 <= i < |hs| && Fires(hs[i], h)
      ensures hs[i].event.tick == AskedTick(at, interval, FireCount(hs[..i], h))
    {
      AskedFiring(t, at, interval, repeat, hs, h, i);
    }
    var c := FireCount(hs, h);
    AskedTicks(t, at, interval, repeat, c);
    if c > 0 {
      AskedTicks(t, at, interval, repeat, c - 1);
    }
  }

  lemma AskedFiring(t: Timer, at: nat, interval: int, repeat: int, hs: seq<Moment>, h: Handle, i: nat)
    requires AskedFor(t, at, interval, repeat) && OnTime(hs, h, t) && i < |hs| && Fires(hs[i], h)
    ensures hs[i].event.Fired? && hs[i].event.tick == AskedTick(at, interval, FireCount(hs[..i], h))
  {
    hide FireCount, TickOf, AskedFor, AskedTick;
    AskedTicks(t, at, interval, repeat, FireCount(hs[..i], h));
  }

  lemma AskedTicks(t: Timer, at: nat, interval: int, repeat: int, c: nat)
    requires AskedFor(t, at, interval, repeat)
    ensures TickOf(t, c) == AskedTick(at, interval, c)
    ensures t.left == if repeat == -1 then 0x7FFF_FFFF else if repeat < 1 then 1 else repeat
  {
    if interval > 0 {
      MulStep(c, interval);
    }
  }

  lemma {:induction false} LastFiring(q: Queue, hs: seq<Moment>, q': Queue, h: Handle, now: nat)
    requires Trace(q, hs, q') && h in q && OnTime(hs, h, q[h]) && (hs != [] ==> hs[|hs|-1].now <= now)
    ensures var c, t := FireCount(hs, h), q[h];
            c > 0 ==> TickOf(t, c - 1) < now
    decreases |hs|
  {
    if hs != [] {
      var init, x := hs[..|hs|-1], hs[|hs|-1];
      var m: Queue :| Trace(q, init, m) && Step(x.now, m, x.event, q');
      OnTimeLess(hs, h, q[h]);
      LastFiring(q, init, m, h, now);
    }
  }

  lemma OnTimeLess(hs: seq<Moment>, h: Handle, t: Timer)
    requires hs != [] && OnTime(hs, h, t)
    ensures OnTime(hs[..|hs|-1], h, t)
  {
    hide FireCount;
    var init := hs[..|hs|-1];
    forall i | 0 <= i < |init| && Fires(init[i], h)
      ensures init[i].event.tick == TickOf(t, FireCount(init[..i], h)) < init[i].now
    {
      assert hs[i] == init[i] && hs[..i] == init[..i];
    }
  }

  ghost predicate NonDecreasing(hs: seq<Moment>) {
    forall i, j :: 0 <= i < j < |hs| && hs[i].event.Fired? && hs[j].event.Fired? ==> hs[i].event.tick <= hs[j].event.tick
  }

  /** Callbacks run in the order of their due ticks, over the whole session.  Every tick that already
      fired bounds what is still pending from below, because a timer created later is never due before
      the clock. */
  lemma {:induction false} TraceOrdered(q: Queue, hs: seq<Moment>, q': Queue)
    requires Trace(q, hs, q')
    ensures NonDecreasing(hs)
    ensures forall i, h :: 0 <= i < |hs| && hs[i].event.Fired? && h in q' ==> hs[i].event.tick <= q'[h].due
    ensures forall i :: 0 <= i < |hs| ==> hs[i].now <= hs[|hs|-1].now
    ensures forall i :: 0 <= i < |hs| && hs[i].event.Fired? ==> hs[i].event.tick < hs[i].now
    decreases |hs|
  {
    if hs != [] {
      var init, x := hs[..|hs|-1], hs[|hs|-1];
      var m: Queue :| Trace(q, init, m) && Step(x.now, m, x.event, q');
      TraceOrdered(q, init, m);
      StepLater(x.now, m, x.event, q');
      hide Step, Trace;
      forall i | 0 <= i < |hs|
        ensures hs[i].now <= x.now
        ensures hs[i].event.Fired? ==> hs[i].event.tick < hs[i].now
        ensures hs[i].event.Fired? ==> forall h :: h in q' ==> hs[i].event.tick <= q'[h].due
        ensures hs[i].event.Fired? && x.event.Fired? ==> hs[i].event.tick <= x.event.tick
      {
        if i < |init| {
          assert hs[i] == init[i];
        }
      }
      forall i, j | 0 <= i < j < |hs| && hs[i].event.Fired? && hs[j].event.Fired?
        ensures hs[i].event.tick <= hs[j].event.tick
      {
        assert hs[i] == init[i];
        if j < |init| {
          assert hs[j] == init[j];
        }
      }
    }
  }
}
