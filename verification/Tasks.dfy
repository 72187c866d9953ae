/**
 Posted tasks (xthread.c), as both builds of the queue see them: what was posted, in which order tasks
 finish, and what became of each.
 */
module Tasks {
  import opened Common

  type Pid = nat
  type Addr = nat

  // `ticket` numbers the posts in the order they joined the queue; `node` is None for a task on the heap.
  datatype Task = Task(ticket: nat, node: Option<Addr>, reply: bool, hasFunc: bool, deadline: nat)

  datatype Outcome = Ran | Dropped

  // What the poster asked for.
  datatype Post = Post(hasFunc: bool, deadline: nat)

  // task_deadline_expired
  predicate Expired(deadline: nat, now: nat) {
    deadline != 0 && now >= deadline
  }

  // process_tasks calls the function of a task that has one and is in time.
  function OutcomeOf(p: Post, now: nat): Outcome {
    if p.hasFunc && !Expired(p.deadline, now) then Ran else Dropped
  }

  function PostOf(t: Task): Post {
    Post(t.hasFunc, t.deadline)
  }

  // ---------- in order, each once ----------

  function Tickets(ts: seq<Task>): (r: seq<nat>)
    ensures |r| == |ts|
    ensures forall i :: 0 <= i < |ts| ==> r[i] == ts[i].ticket
  {
    seq(|ts|, i requires 0 <= i < |ts| => ts[i].ticket)
  }

  function FinishedTickets(fs: seq<(nat, Outcome)>): (r: seq<nat>)
    ensures |r| == |fs|
    ensures forall i :: 0 <= i < |fs| ==> r[i] == fs[i].0
  {
    seq(|fs|, i requires 0 <= i < |fs| => fs[i].0)
  }

  // ---------- each as its poster meant it ----------

  // `live` are the tasks posted and not finished; `posts` are all posts, and `clocks` what the clock
  // read when each finished task was handled.
  ghost predicate Told(live: seq<Task>, finished: seq<(nat, Outcome)>, posts: seq<Post>, clocks: seq<nat>) {
    && |clocks| == |finished| <= |posts|
    && (forall t :: t in live ==> t.ticket < |posts| && posts[t.ticket] == PostOf(t))
    && (forall i :: 0 <= i < |finished| ==> finished[i].1 == OutcomeOf(posts[i], clocks[i]))
  }

  lemma ToldPost(live: seq<Task>, finished: seq<(nat, Outcome)>, posts: seq<Post>, clocks: seq<nat>, t: Task)
    requires Told(live, finished, posts, clocks) && t.ticket == |posts|
    ensures Told(live + [t], finished, posts + [PostOf(t)], clocks)
  {
  }

  lemma ToldHandled(t: Task, live: seq<Task>, finished: seq<(nat, Outcome)>, posts: seq<Post>, clocks: seq<nat>,
                    now: nat)
    requires Told([t] + live, finished, posts, clocks) && t.ticket == |finished|
    ensures Told(live, finished + [(t.ticket, OutcomeOf(PostOf(t), now))], posts, clocks + [now])
  {
    assert t in [t] + live && forall x :: x in live ==> x in [t] + live;
  }

  // ---------- backpressure ----------

  // Tasks that are no replies.
  function PlainCount(ts: seq<Task>): (n: nat)
    ensures n <= |ts|
  {
    if ts == [] then 0 else (if ts[0].reply then 0 else 1) + PlainCount(ts[1..])
  }

  /** It counts the positions that hold one. */
  lemma {:induction false} PlainCountIs(ts: seq<Task>)
    ensures PlainCount(ts) == |set i | 0 <= i < |ts| && !ts[i].reply|
    decreases |ts|
  {
    var all := set i | 0 <= i < |ts| && !ts[i].reply;
    if ts == [] {
      assert all == {};
    } else {
      var init, last := ts[..|ts|-1], |ts| - 1;
      var some := set i | 0 <= i < |init| && !init[i].reply;
      PlainCountIs(init);
      PlainCountConcat(init, [ts[last]]);
      assert ts == init + [ts[last]];
      assert all == if ts[last].reply then some else some + {last};
    }
  }

  lemma {:induction false} PlainCountConcat(a: seq<Task>, b: seq<Task>)
    ensures PlainCount(a + b) == PlainCount(a) + PlainCount(b)
  {
    if a == [] {
      assert a + b == b;
    } else {
      assert (a + b)[1..] == a[1..] + b;
      PlainCountConcat(a[1..], b);
    }
  }
}
