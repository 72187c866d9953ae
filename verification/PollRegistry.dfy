/**
 The registration table and the dispatch loop of xpoll.c (poll and WSAPoll backends): a compact
 array with swap-with-last deletion, walked in reverse while the callbacks add and delete
 registrations.
 */
module PollRegistry {
  import opened Common

  // The bits of an xpoll mask and of poll's events, as sets.
  datatype Flag = Readable | Writable | Error | Close
  datatype Bit = In | Out | RdHup | Hup | Err | Nval

  // The three callbacks of a registration.
  datatype Kind = OnWrite | OnRead | OnError

  // Addresses returned by malloc; a freed one may come back.
  type Ptr = nat
  type Proc = nat

  // struct pollfd, and xPoolFD.  A callback that is not set is absent from `procs`.
  datatype Slot = Slot(fd: int, events: set<Bit>, revents: set<Bit>)
  datatype Entry = Entry(fd: nat, mask: set<Flag>, idx: int, gen: nat, procs: map<Kind, Proc>, data: int)

  const CLEARED := Slot(-1, {}, {})

  datatype Registry = Registry(slots: seq<Slot>, fes: seq<Option<Ptr>>, nfds: nat, heap: map<Ptr, Entry>,
                       fdMap: map<nat, Ptr>, maxfd: int, nextGen: nat)

  // _pfd_sync
  function Events(mask: set<Flag>): set<Bit> {
    (if Readable in mask then {In} else {}) + (if Writable in mask then {Out} else {}) + {RdHup}
  }

  // ---------- the table ----------

  // Slot j and its entry point at each other.
  ghost predicate Linked(v: Registry, j: nat)
    requires j < |v.slots| == |v.fes|
  {
    && v.fes[j].Some? && v.fes[j].value in v.heap
    && var e := v.heap[v.fes[j].value];
       e.idx == j && v.slots[j].fd == e.fd && v.slots[j].events == Events(e.mask)
  }

  ghost predicate SlotsOk(v: Registry) {
    && v.nfds <= |v.slots| == |v.fes|
    && (forall j: nat :: j < v.nfds ==> Linked(v, j))
    && (forall j :: v.nfds <= j < |v.slots| ==> v.slots[j] == CLEARED && v.fes[j] == None)
  }

  // An entry is reached from its slot and from its descriptor.
  ghost predicate Rooted(v: Registry, p: Ptr)
    requires p in v.heap
  {
    var e := v.heap[p];
    && 0 <= e.idx < v.nfds <= |v.fes| && v.fes[e.idx] == Some(p)
    && e.fd in v.fdMap && v.fdMap[e.fd] == p
    && 0 < e.gen <= v.nextGen
  }

  ghost predicate HeapOk(v: Registry) {
    |v.slots| == |v.fes| && forall p :: p in v.heap ==> Rooted(v, p)
  }

  // No two registrations ever share a generation.
  ghost predicate GensOk(v: Registry) {
    forall p, q :: p in v.heap && q in v.heap && v.heap[p].gen == v.heap[q].gen ==> p == q
  }

  ghost predicate MapOk(v: Registry) {
    forall fd :: fd in v.fdMap ==> v.fdMap[fd] in v.heap && v.heap[v.fdMap[fd]].fd == fd
  }

  ghost predicate MaxOk(v: Registry) {
    && (forall fd :: fd in v.fdMap ==> fd <= v.maxfd)
    && (v.maxfd == -1 || (v.maxfd >= 0 && v.maxfd as nat in v.fdMap))
  }

  /** poll_fes, idx and fd_map are inverse to one another, the slots past nfds are clear, and maxfd is
      the greatest registered descriptor. */
  ghost predicate Inv(v: Registry) {
    Core(v) && MaxOk(v)
  }

  ghost predicate Core(v: Registry) {
    SlotsOk(v) && HeapOk(v) && GensOk(v) && MapOk(v)
  }

  // ---------- the operations ----------

  // xpoll_resize
  function Resized(v: Registry, size: nat): Registry
    requires size >= |v.slots| == |v.fes|
  {
    v.(slots := v.slots + seq(size - |v.slots|, _ => CLEARED), fes := v.fes + seq(size - |v.fes|, _ => None))
  }

  // _fe_create and the first part of the new branch of xpoll_add_event
  function Created(v: Registry, fd: nat, p: Ptr): Registry
    requires v.nfds < |v.slots| == |v.fes|
  {
    v.(slots := v.slots[v.nfds := v.slots[v.nfds].(fd := fd)], fes := v.fes[v.nfds := Some(p)],
       nfds := v.nfds + 1, nextGen := v.nextGen + 1,
       heap := v.heap[p := Entry(fd, {}, v.nfds, v.nextGen + 1, map[], 0)], fdMap := v.fdMap[fd := p])
  }

  // An entry with another mask, and its slot after _pfd_sync.
  function Edited(v: Registry, p: Ptr, mask: set<Flag>, procs: map<Kind, Proc>, data: int): Registry
    requires p in v.heap && 0 <= v.heap[p].idx < |v.slots|
  {
    var e := v.heap[p];
    v.(heap := v.heap[p := e.(mask := mask, procs := procs, data := data)],
       slots := v.slots[e.idx := v.slots[e.idx].(events := Events(mask))])
  }

  // The common tail of xpoll_add_event
  function Merged(v: Registry, p: Ptr, mask: set<Flag>, procs: map<Kind, Proc>, data: int): Registry
    requires p in v.heap && 0 <= v.heap[p].idx < |v.slots|
  {
    var e := v.heap[p];
    var t := Edited(v, p, e.mask + mask, e.procs + procs, data);
    t.(maxfd := if e.fd > v.maxfd then e.fd else v.maxfd)
  }

  // The part of xpoll_del_event that removes an entry, without maxfd
  function Removed(v: Registry, p: Ptr): Registry
    requires p in v.heap && 0 <= v.heap[p].idx < v.nfds <= |v.slots| == |v.fes|
  {
    var e, last := v.heap[p], v.nfds - 1;
    var heap := v.heap - {p};
    var moved := v.fes[last];
    v.(heap := if e.idx != last && moved.Some? && moved.value in heap
               then heap[moved.value := heap[moved.value].(idx := e.idx)] else heap,
       fdMap := v.fdMap - {e.fd},
       slots := v.slots[e.idx := v.slots[last]][last := CLEARED],
       fes := v.fes[e.idx := moved][last := None],
       nfds := last)
  }

  // The other part of xpoll_del_event
  function Reduced(v: Registry, p: Ptr, mask: set<Flag>): Registry
    requires p in v.heap && 0 <= v.heap[p].idx < |v.slots|
  {
    Edited(v, p, v.heap[p].mask - mask, v.heap[p].procs, v.heap[p].data)
  }

  // ---------- what any change of the table keeps ----------

  function Revents(v: Registry, p: Ptr): set<Bit>
    requires p in v.heap && 0 <= v.heap[p].idx < |v.slots|
  {
    v.slots[v.heap[p].idx].revents
  }

  // Registration p of v', against the table before.
  ghost predicate Descends(v: Registry, v': Registry, p: Ptr)
    requires HeapOk(v) && HeapOk(v') && p in v'.heap
  {
    var e' := v'.heap[p];
    if e'.gen > v.nextGen then Revents(v', p) == {}
    else
      && p in v.heap
      && var e := v.heap[p];
         && e'.gen == e.gen && e'.fd == e.fd && e'.idx <= e.idx
         && e.procs.Keys <= e'.procs.Keys
         && (e.mask != {} ==> e'.mask != {})
         && Revents(v', p) == Revents(v, p)
  }

  /** Whatever callbacks do: a registration that survives keeps its generation, its descriptor and its
      unread events, and only moves towards the front; a new one has no events. */
  ghost predicate Evolves(v: Registry, v': Registry)
    requires HeapOk(v) && HeapOk(v')
  {
    && v.nextGen <= v'.nextGen && |v.slots| <= |v'.slots|
    && forall p :: p in v'.heap ==> Descends(v, v', p)
  }

  lemma EvolvesTrans(a: Registry, b: Registry, c: Registry)
    requires HeapOk(a) && HeapOk(b) && HeapOk(c) && Evolves(a, b) && Evolves(b, c)
    ensures Evolves(a, c)
  {
    forall p | p in c.heap ensures Descends(a, c, p) {
      assert Descends(b, c, p);
      if c.heap[p].gen <= b.nextGen {
        assert Descends(a, b, p);
      }
    }
  }

  lemma ResizedInv(v: Registry, size: nat)
    requires Inv(v) && size >= |v.slots|
    ensures Inv(Resized(v, size)) && Evolves(v, Resized(v, size))
  {
    hide Events;
    var v' := Resized(v, size);
    assert SlotsOk(v') by {
      forall j: nat | j < v.nfds ensures Linked(v', j) {
        assert Linked(v, j);
      }
    }
    assert HeapOk(v') by {
      forall p | p in v'.heap ensures Rooted(v', p) {
        assert Rooted(v, p);
      }
    }
    forall p | p in v'.heap ensures Descends(v, v', p) {
      assert Rooted(v, p);
    }
  }

  // The entry of p may be given another mask and more callbacks, but not an empty mask.
  ghost predicate Editable(v: Registry, p: Ptr, mask: set<Flag>, procs: map<Kind, Proc>) {
    && p in v.heap && Rooted(v, p) && v.nfds <= |v.slots|
    && (v.heap[p].mask != {} ==> mask != {})
    && v.heap[p].procs.Keys <= procs.Keys
  }

  lemma EditedSlots(v: Registry, p: Ptr, mask: set<Flag>, procs: map<Kind, Proc>, data: int)
    requires SlotsOk(v) && Editable(v, p, mask, procs)
    ensures SlotsOk(Edited(v, p, mask, procs, data))
  {
    hide Events;
    var v' := Edited(v, p, mask, procs, data);
    forall j: nat | j < v.nfds ensures Linked(v', j) {
      assert Linked(v, j);
    }
  }

  lemma EditedHeap(v: Registry, p: Ptr, mask: set<Flag>, procs: map<Kind, Proc>, data: int)
    requires HeapOk(v) && Editable(v, p, mask, procs)
    ensures var v' := Edited(v, p, mask, procs, data); HeapOk(v') && Evolves(v, v')
  {
    hide Events;
    var v' := Edited(v, p, mask, procs, data);
    forall q | q in v'.heap ensures Rooted(v', q) {
      assert Rooted(v, q);
    }
    forall q | q in v'.heap ensures Descends(v, v', q) {
      assert Rooted(v, q);
    }
  }

  lemma EditedCore(v: Registry, p: Ptr, mask: set<Flag>, procs: map<Kind, Proc>, data: int)
    requires Core(v) && Editable(v, p, mask, procs)
    ensures var v' := Edited(v, p, mask, procs, data); Core(v') && Evolves(v, v')
  {
    hide SlotsOk, HeapOk, Evolves, Events;
    EditedSlots(v, p, mask, procs, data);
    EditedHeap(v, p, mask, procs, data);
  }

  // A free slot, address and descriptor.
  ghost predicate Creatable(v: Registry, fd: nat, p: Ptr) {
    v.nfds < |v.slots| == |v.fes| && p !in v.heap && fd !in v.fdMap
  }

  // Created, as if the slot had been synced.
  function Synced(v: Registry, fd: nat, p: Ptr): Registry
    requires v.nfds < |v.slots| == |v.fes|
  {
    Created(v, fd, p).(slots := v.slots[v.nfds := v.slots[v.nfds].(fd := fd, events := Events({}))])
  }

  lemma SyncedSlots(v: Registry, fd: nat, p: Ptr)
    requires SlotsOk(v) && Creatable(v, fd, p)
    ensures SlotsOk(Synced(v, fd, p))
  {
    hide Events;
    var v' := Synced(v, fd, p);
    forall j: nat | j < v'.nfds ensures Linked(v', j) {
      if j < v.nfds {
        assert Linked(v, j);
      }
    }
  }

  lemma SyncedHeap(v: Registry, fd: nat, p: Ptr)
    requires SlotsOk(v) && HeapOk(v) && Creatable(v, fd, p)
    ensures HeapOk(Synced(v, fd, p)) && Evolves(v, Synced(v, fd, p))
  {
    hide Events, Linked;
    var v' := Synced(v, fd, p);
    forall q | q in v'.heap ensures Rooted(v', q) {
      if q != p {
        assert Rooted(v, q);
      }
    }
    forall q | q in v'.heap ensures Descends(v, v', q) {
      if q != p {
        assert Rooted(v, q);
      }
    }
  }

  lemma SyncedCore(v: Registry, fd: nat, p: Ptr)
    requires Core(v) && Creatable(v, fd, p)
    ensures Core(Synced(v, fd, p)) && Evolves(v, Synced(v, fd, p))
  {
    hide SlotsOk, Evolves, Events;
    SyncedSlots(v, fd, p);
    SyncedHeap(v, fd, p);
    assert forall q :: q in v.heap ==> Rooted(v, q);
  }

  // maxfd plays no part in Core.
  lemma MaxCore(v: Registry, m: int)
    requires Core(v)
    ensures Core(v.(maxfd := m))
  {
    hide Events;
    var v' := v.(maxfd := m);
    forall j: nat | j < v.nfds ensures Linked(v', j) {
      assert Linked(v, j);
    }
    forall p | p in v.heap ensures Rooted(v', p) {
      assert Rooted(v, p);
    }
  }

  lemma MaxEvolves(u: Registry, v: Registry, m: int)
    requires Core(v) && Core(v.(maxfd := m)) && HeapOk(u) && Evolves(u, v)
    ensures Evolves(u, v.(maxfd := m))
  {
    hide SlotsOk, GensOk, MapOk, Events;
    forall p | p in v.heap ensures Descends(u, v.(maxfd := m), p) {
      assert Descends(u, v, p) && Rooted(v, p);
    }
  }

  // xpoll_add_event for a descriptor that is registered.
  lemma MergedInv(v: Registry, p: Ptr, mask: set<Flag>, procs: map<Kind, Proc>, data: int)
    requires Inv(v) && p in v.heap
    ensures Rooted(v, p) && v.nfds <= |v.slots|
    ensures var v' := Merged(v, p, mask, procs, data); Inv(v') && Evolves(v, v')
  {
    hide Events, Evolves, Linked, GensOk;
    assert Rooted(v, p);
    var e := v.heap[p];
    EditedCore(v, p, e.mask + mask, e.procs + procs, data);
    var t := Edited(v, p, e.mask + mask, e.procs + procs, data);
    var m := if e.fd > v.maxfd then e.fd else v.maxfd;
    MaxCore(t, m);
    MaxEvolves(v, t, m);
  }

  // xpoll_add_event for one that is not.
  lemma CreatedInv(v: Registry, fd: nat, p: Ptr, mask: set<Flag>, procs: map<Kind, Proc>, data: int)
    requires Inv(v) && Creatable(v, fd, p)
    ensures var v' := Merged(Created(v, fd, p), p, mask, procs, data); Inv(v') && Evolves(v, v')
  {
    hide SlotsOk, HeapOk, Evolves, Events, GensOk;
    SyncedCore(v, fd, p);
    var t := Synced(v, fd, p);
    assert map[] + procs == procs && {} + mask == mask;
    assert Rooted(t, p);
    EditedCore(t, p, mask, procs, data);
    var u := Edited(t, p, mask, procs, data);
    EvolvesTrans(v, t, u);
    var v' := Merged(Created(v, fd, p), p, mask, procs, data);
    MaxCore(u, v'.maxfd);
    MaxEvolves(v, u, v'.maxfd);
    assert v' == u.(maxfd := v'.maxfd);
  }

  lemma RemovedSlots(v: Registry, p: Ptr)
    requires SlotsOk(v) && HeapOk(v) && p in v.heap
    ensures Rooted(v, p) && SlotsOk(Removed(v, p))
  {
    hide Events;
    assert Rooted(v, p);
    var v', i, last := Removed(v, p), v.heap[p].idx, v.nfds - 1;
    assert Linked(v, last) && Linked(v, i);
    forall j: nat | j < v'.nfds ensures Linked(v', j) {
      assert Linked(v, j);
      assert v.fes[j].value != p || j == i;
    }
  }

  lemma RemovedHeap(v: Registry, p: Ptr)
    requires SlotsOk(v) && HeapOk(v) && MapOk(v) && p in v.heap
    ensures Rooted(v, p) && HeapOk(Removed(v, p))
  {
    hide Events;
    assert Rooted(v, p);
    var v', i, last := Removed(v, p), v.heap[p].idx, v.nfds - 1;
    assert Linked(v, last) && Linked(v, i);
    forall q | q in v'.heap ensures Rooted(v', q) {
      assert Rooted(v, q) && Linked(v, v.heap[q].idx);
    }
  }

  lemma RemovedEvolves(v: Registry, p: Ptr)
    requires SlotsOk(v) && HeapOk(v) && p in v.heap
    requires Rooted(v, p) && HeapOk(Removed(v, p))
    ensures Evolves(v, Removed(v, p))
  {
    hide Events;
    var v', i, last := Removed(v, p), v.heap[p].idx, v.nfds - 1;
    assert Linked(v, last) && Linked(v, i);
    forall q | q in v'.heap ensures Descends(v, v', q) {
      assert Rooted(v, q) && Linked(v, v.heap[q].idx) && Rooted(v', q);
    }
  }

  lemma RemovedCore(v: Registry, p: Ptr)
    requires Core(v) && p in v.heap
    ensures Rooted(v, p) && v.nfds <= |v.slots| == |v.fes|
    ensures Core(Removed(v, p)) && Evolves(v, Removed(v, p))
  {
    hide Events, SlotsOk, Evolves;
    RemovedSlots(v, p);
    RemovedHeap(v, p);
    RemovedEvolves(v, p);
    RemovedMap(v, p);
  }

  lemma RemovedMap(v: Registry, p: Ptr)
    requires SlotsOk(v) && HeapOk(v) && MapOk(v) && GensOk(v) && p in v.heap && Rooted(v, p)
    ensures MapOk(Removed(v, p)) && GensOk(Removed(v, p))
  {
    hide Events;
    var v' := Removed(v, p);
    assert Linked(v, v.nfds - 1);
    assert forall q :: q in v'.heap ==> q in v.heap && v'.heap[q].fd == v.heap[q].fd && v'.heap[q].gen == v.heap[q].gen;
    forall fd | fd in v'.fdMap ensures v'.fdMap[fd] in v'.heap {
      assert Rooted(v, v.fdMap[fd]);
    }
  }

  // ---------- one round of dispatch ----------

  // The mask xpoll_poll makes of revents.
  function MaskOf(r: set<Bit>): (m: set<Flag>) {
    (if In in r then {Readable} else {}) + (if Out in r then {Writable} else {})
    + (if (RdHup in r || Hup in r) && In !in r then {Close} else {})
    + (if Err in r || Nval in r then {Error, Close} else {})
  }

  predicate Reported(k: Kind, r: set<Bit>) {
    match k
    case OnWrite => Writable in MaskOf(r)
    case OnRead => Readable in MaskOf(r)
    case OnError => Error in MaskOf(r) || Close in MaskOf(r)
  }

  // The turn of one registration in a round: the events it was given and the callbacks made.
  datatype Turn = Turn(gen: nat, fd: nat, revents: set<Bit>, made: set<Kind>)

  // The callbacks of a turn, in order.
  datatype Call = Call(gen: nat, kind: Kind)

  function CallsOf(t: Turn): seq<Call> {
    (if OnWrite in t.made then [Call(t.gen, OnWrite)] else [])
    + (if OnRead in t.made then [Call(t.gen, OnRead)] else [])
    + (if OnError in t.made then [Call(t.gen, OnError)] else [])
  }

  function Tag(g: nat, k: Kind, made: set<Kind>): seq<Call> {
    if made == {} then [] else [Call(g, k)]
  }

  // The calls made so far in a turn, behind earlier ones.
  lemma CallsThree(before: seq<Call>, t: Turn, w: set<Kind>, r: set<Kind>, e: set<Kind>)
    requires (w == {} || w == {OnWrite}) && (r == {} || r == {OnRead}) && (e == {} || e == {OnError})
    ensures before + Tag(t.gen, OnWrite, w) == before + CallsOf(t.(made := w))
    ensures before + Tag(t.gen, OnWrite, w) + Tag(t.gen, OnRead, r) == before + CallsOf(t.(made := w + r))
    ensures before + Tag(t.gen, OnWrite, w) + Tag(t.gen, OnRead, r) + Tag(t.gen, OnError, e)
            == before + CallsOf(t.(made := w + r + e))
  {
    Regrouped(before, Tag(t.gen, OnWrite, w), Tag(t.gen, OnRead, r), Tag(t.gen, OnError, e));
    CallsOne(t, w, r, e);
  }

  lemma CallsOne(t: Turn, w: set<Kind>, r: set<Kind>, e: set<Kind>)
    requires (w == {} || w == {OnWrite}) && (r == {} || r == {OnRead}) && (e == {} || e == {OnError})
    ensures CallsOf(t.(made := w)) == Tag(t.gen, OnWrite, w)
    ensures CallsOf(t.(made := w + r)) == Tag(t.gen, OnWrite, w) + Tag(t.gen, OnRead, r)
    ensures CallsOf(t.(made := w + r + e))
            == Tag(t.gen, OnWrite, w) + Tag(t.gen, OnRead, r) + Tag(t.gen, OnError, e)
  {
  }

  function AllCalls(log: seq<Turn>): seq<Call> {
    if log == [] then [] else AllCalls(log[..|log|-1]) + CallsOf(log[|log|-1])
  }

  ghost predicate Had(log: seq<Turn>, g: nat) {
    exists k :: 0 <= k < |log| && log[k].gen == g
  }

  // A registration that was there when the round began, after the slots i.. have been visited.
  ghost predicate Carried(v0: Registry, v: Registry, i: int, log: seq<Turn>, p: Ptr)
    requires HeapOk(v0) && HeapOk(v) && p in v.heap
  {
    var e := v.heap[p];
    && p in v0.heap
    && var e0 := v0.heap[p];
       && e.gen == e0.gen && e.fd == e0.fd && e0.procs.Keys <= e.procs.Keys
       && (e0.mask != {} ==> e.mask != {})
       && (Had(log, e.gen) ==> Revents(v, p) == {})
       && (!Had(log, e.gen) ==> Revents(v, p) == Revents(v0, p))
       && (e.idx >= i ==> Revents(v, p) == {})
  }

  // A turn was given to a registration of v0 for events it had then; if that registration still
  // lives, every callback it had set for them has been made.
  ghost predicate Earned(v0: Registry, v: Registry, t: Turn)
    requires HeapOk(v0) && HeapOk(v)
  {
    && (exists p :: p in v0.heap && v0.heap[p].gen == t.gen && v0.heap[p].fd == t.fd
                    && Revents(v0, p) == t.revents && t.revents != {})
    && (forall k :: k in t.made ==> Reported(k, t.revents))
    && (forall p :: p in v0.heap && p in v.heap && v0.heap[p].gen == v.heap[p].gen == t.gen
                    && v0.heap[p].mask != {}
          ==> forall k :: k in v0.heap[p].procs && Reported(k, t.revents) ==> k in t.made)
  }

  ghost predicate Distinct(log: seq<Turn>) {
    forall a, b :: 0 <= a < b < |log| ==> log[a].gen != log[b].gen
  }

  ghost predicate RoundInv(v0: Registry, v: Registry, i: int, log: seq<Turn>) {
    && Inv(v0) && Inv(v) && v0.nextGen <= v.nextGen && Distinct(log)
    && (forall p :: p in v.heap ==>
          if v.heap[p].gen > v0.nextGen then Rooted(v, p) && Revents(v, p) == {} else Carried(v0, v, i, log, p))
    && (forall k :: 0 <= k < |log| ==> Earned(v0, v, log[k]))
  }

  /** Callbacks do not disturb the round, whatever they add or delete. */
  lemma RoundEvolves(v0: Registry, v: Registry, v': Registry, i: int, log: seq<Turn>)
    requires RoundInv(v0, v, i, log) && Inv(v') && Evolves(v, v')
    ensures RoundInv(v0, v', i, log)
  {
    hide Events, SlotsOk, MapOk, MaxOk, Reported, MaskOf;
    forall p | p in v'.heap
      ensures if v'.heap[p].gen > v0.nextGen then Rooted(v', p) && Revents(v', p) == {}
              else Carried(v0, v', i, log, p)
    {
      assert Descends(v, v', p) && Rooted(v', p);
    }
    forall k | 0 <= k < |log| ensures Earned(v0, v', log[k]) {
      assert Earned(v0, v, log[k]);
      forall p | p in v0.heap && p in v'.heap && v0.heap[p].gen == v'.heap[p].gen == log[k].gen
        ensures p in v.heap && v.heap[p].gen == log[k].gen
      {
        assert Descends(v, v', p) && Rooted(v0, p);
      }
    }
  }

  /** The promise of a round: a registration that was ready and is still there has had exactly one
      turn, with its events and all its callbacks; a turn is only ever given for events reported to
      that very registration; none is given to a registration made during the round. */
  ghost predicate RoundMeets(v0: Registry, v: Registry, log: seq<Turn>)
  {
    && Inv(v0) && Inv(v)
    && (forall p :: p in v0.heap && p in v.heap && v0.heap[p].gen == v.heap[p].gen && Revents(v0, p) != {} ==>
          exists k :: 0 <= k < |log| && log[k].gen == v.heap[p].gen)
    && Distinct(log)
    && (forall k :: 0 <= k < |log| ==> Earned(v0, v, log[k]) && log[k].gen <= v0.nextGen)
  }

  lemma RoundEnds(v0: Registry, v: Registry, log: seq<Turn>)
    requires RoundInv(v0, v, 0, log)
    ensures RoundMeets(v0, v, log)
  {
    hide Events, SlotsOk, MapOk, MaxOk, Reported, MaskOf;
    forall p | p in v0.heap && p in v.heap && v0.heap[p].gen == v.heap[p].gen && Revents(v0, p) != {}
      ensures Had(log, v.heap[p].gen)
    {
      assert Rooted(v, p) && Rooted(v0, p) && Carried(v0, v, 0, log, p);
    }
    forall k | 0 <= k < |log| ensures log[k].gen <= v0.nextGen {
      assert Earned(v0, v, log[k]);
      var p :| p in v0.heap && v0.heap[p].gen == log[k].gen;
      assert Rooted(v0, p);
    }
  }

  // ---------- the steps of a round ----------

  // What the kernel writes into the first slots.
  function Polled(v: Registry, ready: seq<set<Bit>>): Registry
    requires v.nfds <= |v.slots| && |ready| == v.nfds
  {
    v.(slots := seq(|v.slots|, j requires 0 <= j < |v.slots| =>
                      if j < v.nfds then v.slots[j].(revents := ready[j]) else v.slots[j]))
  }

  /** Each registration gets what the kernel reports for its slot, and nothing else changes. */
  lemma PolledReports(v: Registry, ready: seq<set<Bit>>)
    requires Inv(v) && |ready| == v.nfds
    ensures v.nfds <= |v.slots|
    ensures var v0 := Polled(v, ready);
            && v0.(slots := v.slots) == v && |v0.slots| == |v.slots|
            && (forall j :: 0 <= j < |v.slots| ==>
                  v0.slots[j].fd == v.slots[j].fd && v0.slots[j].events == v.slots[j].events)
            && forall p :: p in v.heap ==> 0 <= v.heap[p].idx < v.nfds && Revents(v0, p) == ready[v.heap[p].idx]
  {
    hide Events;
    forall p | p in v.heap ensures 0 <= v.heap[p].idx < v.nfds {
      assert Rooted(v, p);
    }
  }

  lemma PolledInv(v: Registry, ready: seq<set<Bit>>)
    requires Inv(v) && |ready| == v.nfds
    ensures var v0 := Polled(v, ready); RoundInv(v0, v0, v.nfds, [])
  {
    hide Events;
    var v0 := Polled(v, ready);
    forall j: nat | j < v.nfds ensures Linked(v0, j) {
      assert Linked(v, j);
    }
    forall p | p in v0.heap ensures Rooted(v0, p) {
      assert Rooted(v, p);
    }
    assert Inv(v0);
    forall p | p in v0.heap ensures Carried(v0, v0, v.nfds, [], p) {
      assert Rooted(v0, p);
    }
  }

  lemma RoundSkip(v0: Registry, v: Registry, i: nat, log: seq<Turn>)
    requires RoundInv(v0, v, i + 1, log) && i < |v.slots| && v.slots[i].revents == {}
    ensures RoundInv(v0, v, i, log)
  {
    hide Earned, Inv, SlotsOk, GensOk, MapOk, MaxOk;
    InvHeap(v0);
    InvHeap(v);
    forall p | p in v.heap && v.heap[p].gen <= v0.nextGen ensures Carried(v0, v, i, log, p) {
      assert Carried(v0, v, i + 1, log, p);
    }
  }

  lemma InvHeap(v: Registry)
    requires Inv(v)
    ensures HeapOk(v)
  {
  }

  // Slot i with its events taken.
  function Emptied(v: Registry, i: nat): Registry
    requires i < |v.slots|
  {
    v.(slots := v.slots[i := v.slots[i].(revents := {})])
  }

  lemma EmptiedInv(v: Registry, i: nat)
    requires Inv(v) && i < |v.slots|
    ensures Inv(Emptied(v, i))
  {
    hide Events;
    var v' := Emptied(v, i);
    forall j: nat | j < v.nfds ensures Linked(v', j) {
      assert Linked(v, j);
    }
    forall p | p in v.heap ensures Rooted(v', p) {
      assert Rooted(v, p);
    }
  }

  // A turn in which every callback is made.
  function FullTurn(g: nat, fd: nat, r: set<Bit>): Turn {
    Turn(g, fd, r, (if Reported(OnWrite, r) then {OnWrite} else {}) + (if Reported(OnRead, r) then {OnRead} else {})
                   + (if Reported(OnError, r) then {OnError} else {}))
  }

  // The turn of slot i is due.
  ghost predicate TurnDue(v0: Registry, v: Registry, i: nat, log: seq<Turn>) {
    && RoundInv(v0, v, i + 1, log) && i < |v.slots| && v.slots[i].revents != {}
    && i < v.nfds && Linked(v, i) && Inv(Emptied(v, i))
  }

  function Given(v: Registry, i: nat): Turn
    requires i < |v.slots| == |v.fes| && v.fes[i].Some? && v.fes[i].value in v.heap
  {
    var e := v.heap[v.fes[i].value];
    FullTurn(e.gen, e.fd, v.slots[i].revents)
  }

  lemma HadSnoc(log: seq<Turn>, t: Turn, g: nat)
    ensures Had(log + [t], g) <==> Had(log, g) || t.gen == g
  {
    var log' := log + [t];
    if Had(log, g) {
      var k :| 0 <= k < |log| && log[k].gen == g;
      assert log'[k].gen == g;
    }
    if t.gen == g {
      assert log'[|log|].gen == g;
    }
  }

  lemma TurnCarried(v0: Registry, v: Registry, i: nat, log: seq<Turn>, q: Ptr)
    requires TurnDue(v0, v, i, log) && q in v.heap && v.heap[q].gen <= v0.nextGen
    ensures Carried(v0, Emptied(v, i), i, log + [Given(v, i)], q)
  {
    hide Events, MapOk, MaxOk, Inv, Earned, FullTurn;
    InvHeap(v0);
    InvHeap(v);
    InvHeap(Emptied(v, i));
    assert Rooted(v, q) && Carried(v0, v, i + 1, log, q);
    GivenIs(v, i);
    HadSnoc(log, Given(v, i), v.heap[q].gen);
    if q != v.fes[i].value {
      InvGens(v, q, v.fes[i].value);
    }
  }

  lemma GivenIs(v: Registry, i: nat)
    requires i < |v.slots| == |v.fes| && Linked(v, i)
    ensures Given(v, i).gen == v.heap[v.fes[i].value].gen && Given(v, i).fd == v.heap[v.fes[i].value].fd
    ensures Given(v, i).revents == v.slots[i].revents
    ensures forall k :: k in Given(v, i).made <==> Reported(k, v.slots[i].revents)
  {
    hide Reported;
    forall k ensures k in Given(v, i).made <==> Reported(k, v.slots[i].revents) {
      match k {
        case OnWrite =>
        case OnRead =>
        case OnError =>
      }
    }
  }

  lemma InvGens(v: Registry, p: Ptr, q: Ptr)
    requires Inv(v) && p in v.heap && q in v.heap && p != q
    ensures v.heap[p].gen != v.heap[q].gen
  {
  }

  lemma TurnEarned(v0: Registry, v: Registry, i: nat, log: seq<Turn>)
    requires TurnDue(v0, v, i, log)
    ensures var p := v.fes[i].value; v.heap[p].gen <= v0.nextGen && !Had(log, v.heap[p].gen)
    ensures Earned(v0, Emptied(v, i), Given(v, i))
    ensures forall k :: 0 <= k < |log| ==> Earned(v0, Emptied(v, i), log[k])
  {
    hide Events, MapOk, MaxOk, Inv, FullTurn, Reported;
    InvHeap(v0);
    InvHeap(v);
    InvHeap(Emptied(v, i));
    var p := v.fes[i].value;
    assert Rooted(v, p) && Carried(v0, v, i + 1, log, p);
    GivenIs(v, i);
    assert v0.heap[p].gen == Given(v, i).gen;
    forall k | 0 <= k < |log| ensures Earned(v0, Emptied(v, i), log[k]) {
      assert Earned(v0, v, log[k]);
    }
  }

  lemma RoundTurn(v0: Registry, v: Registry, i: nat, log: seq<Turn>)
    requires RoundInv(v0, v, i + 1, log) && i < |v.slots| && v.slots[i].revents != {}
    ensures i < v.nfds && Linked(v, i)
    ensures RoundInv(v0, Emptied(v, i), i, log + [Given(v, i)])
  {
    hide Events, Carried, Earned, Reported, MapOk, MaxOk, GensOk;
    assert Linked(v, i);
    EmptiedInv(v, i);
    TurnEarned(v0, v, i, log);
    GivenIs(v, i);
    assert Distinct(log + [Given(v, i)]) by {
      forall a | 0 <= a < |log| ensures log[a].gen != Given(v, i).gen {
      }
    }
    forall q | q in v.heap && v.heap[q].gen <= v0.nextGen
      ensures Carried(v0, Emptied(v, i), i, log + [Given(v, i)], q)
    {
      TurnCarried(v0, v, i, log, q);
    }
    forall q | q in v.heap && v.heap[q].gen > v0.nextGen
      ensures Rooted(Emptied(v, i), q) && Revents(Emptied(v, i), q) == {}
    {
      assert Rooted(v, q);
    }
  }

  // The callbacks of a turn cover what its registration had set, unless it is gone.
  ghost predicate Covers(v0: Registry, v: Registry, t: Turn) {
    forall p :: p in v0.heap && p in v.heap && v0.heap[p].gen == v.heap[p].gen == t.gen && v0.heap[p].mask != {}
      ==> forall k :: k in v0.heap[p].procs && Reported(k, t.revents) ==> k in t.made
  }

  // A turn is entered in the log with the callbacks it really made.
  lemma RoundMade(v0: Registry, v: Registry, i: int, log: seq<Turn>, g: nat, fd: nat, r: set<Bit>, made: set<Kind>)
    requires RoundInv(v0, v, i, log + [FullTurn(g, fd, r)])
    requires forall k :: k in made ==> Reported(k, r)
    requires Covers(v0, v, Turn(g, fd, r, made))
    ensures RoundInv(v0, v, i, log + [Turn(g, fd, r, made)])
  {
    hide Events, Reported, Inv;
    InvHeap(v0);
    InvHeap(v);
    var a, b := log + [FullTurn(g, fd, r)], log + [Turn(g, fd, r, made)];
    assert Earned(v0, v, a[|log|]);
    assert Earned(v0, v, b[|log|]);
    forall k | 0 <= k < |log| ensures Earned(v0, v, b[k]) {
      assert a[k] == b[k];
    }
    forall h: nat ensures Had(a, h) <==> Had(b, h) {
      HadSnoc(log, FullTurn(g, fd, r), h);
      HadSnoc(log, Turn(g, fd, r, made), h);
    }
    forall x, y | 0 <= x < y < |b| ensures b[x].gen != b[y].gen {
      assert a[x].gen == b[x].gen && a[y].gen == b[y].gen;
    }
    forall p | p in v.heap && v.heap[p].gen <= v0.nextGen ensures Carried(v0, v, i, b, p) {
      assert Carried(v0, v, i, a, p);
    }
  }

  // ---------- the table a caller sees ----------

  datatype Reg = Reg(gen: nat, mask: set<Flag>, procs: map<Kind, Proc>, data: int)

  function RegOf(e: Entry): Reg {
    Reg(e.gen, e.mask, e.procs, e.data)
  }

  // The registration of a descriptor.
  ghost function Look(v: Registry, fd: nat): Option<Reg> {
    if fd in v.fdMap && v.fdMap[fd] in v.heap then Some(RegOf(v.heap[v.fdMap[fd]])) else None
  }

  // Registering an unknown descriptor gives it a new generation and touches no other.
  lemma CreatedLook(v: Registry, fd: nat, p: Ptr, mask: set<Flag>, procs: map<Kind, Proc>, data: int, d: nat)
    requires Inv(v) && Creatable(v, fd, p)
    ensures Look(Merged(Created(v, fd, p), p, mask, procs, data), d)
            == if d == fd then Some(Reg(v.nextGen + 1, mask, procs, data)) else Look(v, d)
  {
    hide Events, SlotsOk, HeapOk, GensOk;
    assert map[] + procs == procs && {} + mask == mask;
  }

  // Registering a known one keeps its generation and merges the rest.
  lemma MergedLook(v: Registry, fd: nat, mask: set<Flag>, procs: map<Kind, Proc>, data: int, d: nat)
    requires Inv(v) && fd in v.fdMap
    ensures Look(v, fd).Some? && v.fdMap[fd] in v.heap && Rooted(v, v.fdMap[fd]) && v.nfds <= |v.slots|
    ensures var r := Look(v, fd).value;
            Look(Merged(v, v.fdMap[fd], mask, procs, data), d)
            == if d == fd then Some(Reg(r.gen, r.mask + mask, r.procs + procs, data)) else Look(v, d)
  {
    hide Events, GensOk;
    assert Rooted(v, v.fdMap[fd]);
  }

  // Deleting part of a mask touches one descriptor.
  lemma ReducedLook(v: Registry, fd: nat, mask: set<Flag>, d: nat)
    requires Inv(v) && fd in v.fdMap
    ensures Look(v, fd).Some? && v.fdMap[fd] in v.heap && Rooted(v, v.fdMap[fd]) && v.nfds <= |v.slots|
    ensures var r := Look(v, fd).value;
            Look(Reduced(v, v.fdMap[fd], mask), d) == if d == fd then Some(r.(mask := r.mask - mask)) else Look(v, d)
  {
    hide Events, GensOk;
    assert Rooted(v, v.fdMap[fd]);
  }

  // Deleting the rest takes it out, although another entry moves to its slot.
  lemma RemovedLook(v: Registry, fd: nat, d: nat)
    requires Inv(v) && fd in v.fdMap
    ensures v.fdMap[fd] in v.heap && Rooted(v, v.fdMap[fd]) && v.nfds <= |v.slots| == |v.fes|
    ensures Look(Removed(v, v.fdMap[fd]), d) == if d == fd then None else Look(v, d)
  {
    hide Events, GensOk;
    assert Rooted(v, v.fdMap[fd]) && Linked(v, v.nfds - 1);
  }

  /** Seen from outside, an add merges into the registration of its descriptor, or makes one if malloc
      gives it memory, and touches no other descriptor. */
  lemma AddLook(v: Registry, a: Act, d: nat)
    requires a.Add? && Inv(v) && |v.slots| > 0
    ensures Look(AddTo(v, a), d)
            == if d != a.fd then Look(v, d)
               else if Look(v, d).Some? then
                 var r := Look(v, d).value; Some(Reg(r.gen, r.mask + a.mask, r.procs + a.procs, a.data))
               else if a.addr in v.heap then None
               else Some(Reg(v.nextGen + 1, a.mask, a.procs, a.data))
  {
    hide Events, Inv, Merged, Created, Roomy;
    if a.fd in v.fdMap {
      Known(v, a.fd);
      MergedLook(v, a.fd, a.mask, a.procs, a.data, d);
    } else {
      RoomyInv(v);
      RoomyLook(v, d);
      if a.addr !in v.heap {
        CreatedLook(Roomy(v), a.fd, a.addr, a.mask, a.procs, a.data, d);
      }
    }
  }

  lemma RoomyLook(v: Registry, d: nat)
    ensures Look(Roomy(v), d) == Look(v, d) && Roomy(v).nextGen == v.nextGen
    ensures Roomy(v).fdMap == v.fdMap && Roomy(v).heap == v.heap
  {
  }

  /** Seen from outside, a delete takes flags from one descriptor, and the descriptor itself with the last
      of them. */
  lemma DelLook(v: Registry, fd: nat, mask: set<Flag>, v': Registry, d: nat)
    requires Inv(v) && fd in v.fdMap && DelFrom(v, fd, mask, v')
    ensures Look(v, fd).Some?
    ensures var r := Look(v, fd).value;
            Look(v', d) == if d != fd then Look(v, d)
                           else if r.mask - mask == {} then None
                           else Some(Reg(r.gen, r.mask - mask, r.procs, r.data))
  {
    hide Events, Inv, Reduced, Removed;
    ReducedLook(v, fd, mask, d);
    RemovedLook(v, fd, d);
  }

  // ---------- what poll is asked ----------

  // The slot of a registration asks for input and output as its mask says, and always for hangups.
  ghost predicate Watched(v: Registry, p: Ptr)
    requires p in v.heap
  {
    var e := v.heap[p];
    && 0 <= e.idx < v.nfds <= |v.slots| && v.slots[e.idx].fd == e.fd
    && var bits := v.slots[e.idx].events;
    && (In in bits <==> Readable in e.mask) && (Out in bits <==> Writable in e.mask) && RdHup in bits
    && Err !in bits && Hup !in bits && Nval !in bits
  }

  lemma AllWatched(v: Registry)
    requires Inv(v)
    ensures forall p :: p in v.heap ==> Watched(v, p)
  {
    forall p | p in v.heap ensures Watched(v, p) {
      assert Rooted(v, p) && Linked(v, v.heap[p].idx);
    }
  }

  /** Which callbacks a set of reported bits asks for. */
  lemma ReportedBits(r: set<Bit>)
    ensures Reported(OnRead, r) <==> In in r
    ensures Reported(OnWrite, r) <==> Out in r
    ensures Reported(OnError, r) <==> Err in r || Nval in r || ((RdHup in r || Hup in r) && In !in r)
  {
  }

  // What one request, and then a callback with all its requests, makes of the table.
  ghost predicate Done(v: Registry, a: Act, v': Registry) {
    && Inv(v) && |v.slots| > 0
    && match a
       case Add(_, _, _, _, _) => v' == AddTo(v, a)
       case Del(fd, mask) => if fd in v.fdMap then DelFrom(v, fd, mask, v') else v' == v
  }

  ghost predicate AllDone(v: Registry, acts: seq<Act>, v': Registry)
    decreases |acts|
  {
    if acts == [] then v' == v
    else
      var init, last := acts[..|acts|-1], acts[|acts|-1];
      exists m: Registry :: AllDone(v, init, m) && Done(m, last, v')
  }

  lemma DoneNone(v: Registry)
    ensures AllDone(v, [], v)
  {
  }

  lemma DoneSnoc(v: Registry, acts: seq<Act>, m: Registry, a: Act, v': Registry)
    requires AllDone(v, acts, m) && Done(m, a, v')
    ensures AllDone(v, acts + [a], v')
  {
    hide Done;
    assert (acts + [a])[..|acts|] == acts;
  }

  // ---------- the loop object ----------

  // Something a callback does; `addr` is what malloc would return.
  datatype Act =
    | Add(fd: nat, mask: set<Flag>, procs: map<Kind, Proc>, data: int, addr: Ptr)
    | Del(fd: nat, mask: set<Flag>)

  // xpoll_add_event: the array doubles when it is full, and malloc fails where `addr` is in use.
  function Roomy(v: Registry): Registry {
    if v.nfds >= |v.slots| == |v.fes| then Resized(v, 2 * |v.slots|) else v
  }

  function AddTo(v: Registry, a: Act): Registry
    requires a.Add? && Inv(v) && |v.slots| > 0
  {
    if a.fd in v.fdMap then
      MergedInv(v, v.fdMap[a.fd], a.mask, a.procs, a.data);
      Merged(v, v.fdMap[a.fd], a.mask, a.procs, a.data)
    else if a.addr in v.heap then Roomy(v)
    else Merged(Created(Roomy(v), a.fd, a.addr), a.addr, a.mask, a.procs, a.data)
  }

  // maxfd after the removal of a descriptor: computed again if that was the greatest.
  ghost predicate MaxAfter(v: Registry, fd: nat, v': Registry) {
    if v.maxfd == fd then MaxOk(v') else v'.maxfd == v.maxfd
  }

  lemma DelInv(v: Registry, fd: nat, v': Registry)
    requires Inv(v) && fd in v.fdMap
    requires v.fdMap[fd] in v.heap && Rooted(v, v.fdMap[fd]) && v.nfds <= |v.slots| == |v.fes|
    requires v' == Removed(v, v.fdMap[fd]).(maxfd := v'.maxfd) && MaxAfter(v, fd, v')
    ensures Inv(v') && Evolves(v, v')
  {
    hide Events, Evolves, SlotsOk, GensOk, Linked;
    var t := Removed(v, v.fdMap[fd]);
    RemovedCore(v, v.fdMap[fd]);
    MaxCore(t, v'.maxfd);
    MaxEvolves(v, t, v'.maxfd);
  }

  class Loop {
    var pfds: array<Slot>
    var fes: array<Option<Ptr>>
    var nfds: nat
    var heap: map<Ptr, Entry>       // the live xPoolFD blocks
    var fdMap: map<nat, Ptr>
    var maxfd: int
    var nextGen: nat
    ghost var log: seq<Turn>         // the turns of the current round
    ghost var calls: seq<Call>       // the callbacks made in it

    ghost function View(): Registry
      reads this, pfds, fes
    {
      Registry(pfds[..], fes[..], nfds, heap, fdMap, maxfd, nextGen)
    }

    ghost predicate Valid()
      reads this, pfds, fes
    {
      pfds.Length > 0 && Inv(View())
    }

    constructor (size: nat)
      requires size > 0
      ensures Valid() && fresh(pfds) && fresh(fes) && fdMap == map[] && log == []
    {
      pfds := new Slot[size](_ => CLEARED);
      fes := new Option<Ptr>[size](_ => None);
      nfds, heap, fdMap, maxfd, nextGen, log, calls := 0, map[], map[], -1, 0, [], [];
    }

    // xpoll_resize
    method Resize(size: nat)
      requires Valid() && size >= pfds.Length
      modifies this`pfds, this`fes
      ensures Valid() && View() == Resized(old(View()), size)
      ensures fresh(pfds) && fresh(fes) && Evolves(old(View()), View())
    {
      var a, b := Copies(size);
      hide Inv, Evolves;
      ResizedInv(View(), size);
      pfds, fes := a, b;
    }

    method Copies(size: nat) returns (a: array<Slot>, b: array<Option<Ptr>>)
      requires size >= pfds.Length == fes.Length
      ensures fresh(a) && fresh(b)
      ensures a[..] == Resized(View(), size).slots && b[..] == Resized(View(), size).fes
    {
      a := new Slot[size](_ => CLEARED);
      b := new Option<Ptr>[size](_ => None);
      forall j | 0 <= j < pfds.Length {
        a[j] := pfds[j];
      }
      forall j | 0 <= j < fes.Length {
        b[j] := fes[j];
      }
    }

    // _maxfd_recalc: xhash_foreach visits every key, in some order.
    method RecalcMax()
      modifies this`maxfd
      ensures MaxOk(View())
      ensures View() == old(View()).(maxfd := maxfd)
    {
      var m: int, left := -1, fdMap.Keys;
      while left != {}
        invariant left <= fdMap.Keys
        invariant forall fd :: fd in fdMap && fd !in left ==> fd <= m
        invariant m == -1 || (m >= 0 && m as nat in fdMap)
        decreases left
      {
        var fd :| fd in left;
        if fd > m {
          m := fd;
        }
        left := left - {fd};
      }
      maxfd := m;
    }

    // _pfd_sync, for an entry that is given another mask
    method Edit(p: Ptr, mask: set<Flag>, procs: map<Kind, Proc>, data: int)
      requires p in heap && 0 <= heap[p].idx < pfds.Length
      modifies this`heap, pfds
      ensures View() == Edited(old(View()), p, mask, procs, data)
    {
      var e := heap[p];
      heap := heap[p := e.(mask := mask, procs := procs, data := data)];
      pfds[e.idx] := pfds[e.idx].(events := Events(mask));
    }

    // The new branch of xpoll_add_event
    method Create(fd: nat, p: Ptr)
      requires nfds < pfds.Length == fes.Length && p !in heap
      modifies this, pfds, fes
      ensures View() == Created(old(View()), fd, p)
      ensures pfds == old(pfds) && fes == old(fes) && log == old(log) && calls == old(calls)
    {
      nextGen := nextGen + 1;
      heap := heap[p := Entry(fd, {}, nfds, nextGen, map[], 0)];
      fdMap := fdMap[fd := p];
      pfds[nfds] := pfds[nfds].(fd := fd);
      fes[nfds] := Some(p);
      nfds := nfds + 1;
    }

    // The common tail of xpoll_add_event
    method Merge(p: Ptr, a: Act)
      requires a.Add? && p in heap && 0 <= heap[p].idx < pfds.Length
      modifies this`heap, this`maxfd, pfds
      ensures View() == Merged(old(View()), p, a.mask, a.procs, a.data)
    {
      var e := heap[p];
      Edit(p, e.mask + a.mask, e.procs + a.procs, a.data);
      if e.fd > maxfd {
        maxfd := e.fd;
      }
    }

    // xpoll_add_event
    method AddEvent(a: Act) returns (rc: int)
      requires a.Add? && Valid()
      modifies this, pfds, fes
      ensures Valid() && View() == AddTo(old(View()), a) && Onward(old(View()), View())
      ensures rc == if a.fd !in old(fdMap) && a.addr in old(heap) then -1 else 0
      ensures (pfds == old(pfds) && fes == old(fes)) || (fresh(pfds) && fresh(fes))
      ensures log == old(log) && calls == old(calls)
      ensures forall p :: p in heap ==> Watched(View(), p)
    {
      hide Events, Inv, Evolves, Merged, Watched;
      AddToInv(View(), a);
      AllWatched(AddTo(View(), a));
      if a.fd in fdMap {
        Known(View(), a.fd);
        var p := fdMap[a.fd];
        if a.mask <= heap[p].mask {
          MergedSame(View(), p, a.mask, a.procs, a.data);
          heap := heap[p := heap[p].(procs := heap[p].procs + a.procs, data := a.data)];
        } else {
          Merge(p, a);
        }
        return 0;
      }
      RoomyInv(View());
      if nfds >= pfds.Length {
        Resize(2 * pfds.Length);
      }
      if a.addr in heap {
        return -1;
      }
      Create(a.fd, a.addr);
      Merge(a.addr, a);
      return 0;
    }

    // The part of xpoll_del_event that compacts the arrays
    method Compact(idx: nat, last: nat)
      requires idx <= last < pfds.Length == fes.Length
      requires idx != last ==> fes[last].Some? && fes[last].value in heap
      modifies this`heap, pfds, fes
      ensures pfds[..] == old(pfds[..])[idx := old(pfds[last])][last := CLEARED]
      ensures fes[..] == old(fes[..])[idx := old(fes[last])][last := None]
      ensures heap == if idx != last
                      then var m := old(fes[last]).value; old(heap)[m := old(heap)[m].(idx := idx)]
                      else old(heap)
    {
      if idx != last {
        var moved := fes[last];
        pfds[idx] := pfds[last];
        fes[idx] := moved;
        heap := heap[moved.value := heap[moved.value].(idx := idx)];
      }
      pfds[last] := CLEARED;
      fes[last] := None;
    }

    // xpoll_del_event
    method DelEvent(fd: nat, mask: set<Flag>)
      requires Valid()
      modifies this`heap, this`fdMap, this`nfds, this`maxfd, pfds, fes
      ensures Valid() && Onward(old(View()), View())
      ensures fd !in old(fdMap) ==> View() == old(View())
      ensures fd in old(fdMap) ==> DelFrom(old(View()), fd, mask, View())
      ensures forall p :: p in heap ==> Watched(View(), p)
    {
      hide Events, Inv, Evolves, Edited, Watched;
      if fd !in fdMap {
        EvolvesRefl(View());
        AllWatched(View());
        return;
      }
      ghost var v := View();
      Known(v, fd);
      var p := fdMap[fd];
      var e := heap[p];
      if e.mask - mask != {} {
        ReducedInv(v, fd, mask);
        Edit(p, e.mask - mask, e.procs, e.data);
        AllWatched(View());
        return;
      }
      LastSlot(v, p);
      var last := nfds - 1;
      heap, fdMap := heap - {p}, fdMap - {fd};
      Compact(e.idx, last);
      nfds := last;
      assert View() == Removed(v, p);
      if maxfd == fd {
        RecalcMax();
      }
      DelInv(v, fd, View());
      AllWatched(View());
    }

    // The body of a callback.
    method RunActs(acts: seq<Act>)
      requires Valid()
      modifies this, pfds, fes
      ensures Valid() && Onward(old(View()), View()) && log == old(log) && calls == old(calls)
      ensures (pfds == old(pfds) && fes == old(fes)) || (fresh(pfds) && fresh(fes))
      ensures AllDone(old(View()), acts, View())
    {
      hide Inv, Evolves, AddTo, Onward, AllDone, DelFrom;
      OnwardRefl(View());
      DoneNone(View());
      var i := 0;
      assert acts[..0] == [];
      while i < |acts|
        invariant Valid() && Onward(old(View()), View()) && log == old(log) && calls == old(calls)
        invariant (pfds == old(pfds) && fes == old(fes)) || (fresh(pfds) && fresh(fes))
        invariant 0 <= i <= |acts| && AllDone(old(View()), acts[..i], View())
      {
        ghost var v := View();
        RunAct(acts[i]);
        OnwardTrans(old(View()), v, View());
        assert acts[..i+1] == acts[..i] + [acts[i]];
        DoneSnoc(old(View()), acts[..i], v, acts[i], View());
        i := i + 1;
      }
      assert acts[..i] == acts;
    }

    method RunAct(a: Act)
      requires Valid()
      modifies this, pfds, fes
      ensures Valid() && Onward(old(View()), View()) && log == old(log) && calls == old(calls)
      ensures (pfds == old(pfds) && fes == old(fes)) || (fresh(pfds) && fresh(fes))
      ensures Done(old(View()), a, View())
    {
      hide Inv, Evolves, AddTo, Onward, DelFrom;
      match a {
        case Add(_, _, _, _, _) => var _ := AddEvent(a);
        case Del(fd, mask) => DelEvent(fd, mask);
      }
    }

    // _fe_get_same
    method Same(fd: nat, p: Ptr, g: nat) returns (b: bool)
      requires Valid()
      ensures b <==> Lives(View(), fd, p, g)
    {
      hide SlotsOk, GensOk, MaxOk;
      if fd in fdMap {
        Known(View(), fd);
      }
      if p in heap {
        assert Rooted(View(), p);
      }
      return fd in fdMap && fdMap[fd] == p && heap[p].gen == g && heap[p].mask != {};
    }

    // One callback, made only for the live registration g and only if it has set it.
    method Invoke(k: Kind, p: Ptr, g: nat, acts: seq<Act>)
      requires Valid() && p in heap && heap[p].gen == g && k in heap[p].procs
      modifies this, pfds, fes
      ensures Valid() && Onward(old(View()), View()) && log == old(log) && calls == old(calls) + [Call(g, k)]
      ensures (pfds == old(pfds) && fes == old(fes)) || (fresh(pfds) && fresh(fes))
      ensures AllDone(old(View()), acts, View())
    {
      calls := calls + [Call(g, k)];
      hide Inv, AllDone, Onward;
      RunActs(acts);
    }

    // One callback of a turn, if its event was reported.
    method Callback(k: Kind, i: nat, p: Ptr, t: Turn, acts: seq<Act>, ghost v0: Registry, ghost all: seq<Turn>)
      returns (made: set<Kind>)
      requires Valid() && RoundInv(v0, View(), i, all) && Owns(v0, p, t)
      requires p in heap && heap[p].gen == t.gen
      modifies this, pfds, fes
      ensures Valid() && RoundInv(v0, View(), i, all) && log == old(log) && old(pfds.Length) <= pfds.Length
      ensures (pfds == old(pfds) && fes == old(fes)) || (fresh(pfds) && fresh(fes))
      ensures calls == old(calls) + Tag(t.gen, k, made)
      ensures made == {} || (made == {k} && Reported(k, t.revents))
      ensures if made == {} then View() == old(View()) else AllDone(old(View()), acts, View())
      ensures Reported(k, t.revents) && k in v0.heap[p].procs ==> made == {k}
    {
      hide Inv, Evolves, RoundInv, Reported, Onward, AllDone;
      ghost var v := View();
      KeysKept(v0, v, i, all, p, t);
      if Reported(k, t.revents) && k in heap[p].procs {
        Invoke(k, p, t.gen, acts);
        RoundOnward(v0, v, View(), i, all);
        return {k};
      }
      return {};
    }

    // The three callbacks of a turn, each after another look whether the registration is the same.
    method Callbacks(i: nat, p: Ptr, t: Turn, acts: (nat, Kind) -> seq<Act>, ghost v0: Registry, ghost all: seq<Turn>)
      returns (made: set<Kind>)
      requires Valid() && RoundInv(v0, View(), i, all) && Owns(v0, p, t)
      requires p in heap && heap[p].gen == t.gen
      modifies this, pfds, fes
      ensures Valid() && RoundInv(v0, View(), i, all) && log == old(log) && old(pfds.Length) <= pfds.Length
      ensures (pfds == old(pfds) && fes == old(fes)) || (fresh(pfds) && fresh(fes))
      ensures forall k :: k in made ==> Reported(k, t.revents)
      ensures calls == old(calls) + CallsOf(t.(made := made))
      ensures Covers(v0, View(), t.(made := made))
    {
      hide Inv, Reported, RoundInv, Covers, CallsOf, Tag;
      made := Callback(OnWrite, i, p, t, acts(i, OnWrite), v0, all);
      var w := made;
      CallsThree(old(calls), t, w, {}, {});
      var same := Same(t.fd, p, t.gen);
      if !same {
        GoneCovers(v0, View(), i, all, p, t.(made := made));
        return;
      }
      var r, e := ReadThenError(i, p, t, acts, v0, all, w);
      made := w + r + e;
      CallsThree(old(calls), t, w, r, e);
    }

    // What follows the write callback.
    method ReadThenError(i: nat, p: Ptr, t: Turn, acts: (nat, Kind) -> seq<Act>, ghost v0: Registry, ghost all: seq<Turn>,
                         ghost w: set<Kind>)
      returns (r: set<Kind>, e: set<Kind>)
      requires Valid() && RoundInv(v0, View(), i, all) && Owns(v0, p, t)
      requires p in heap && heap[p].gen == t.gen
      requires w <= {OnWrite} && (Reported(OnWrite, t.revents) && OnWrite in v0.heap[p].procs ==> w == {OnWrite})
      modifies this, pfds, fes
      ensures Valid() && RoundInv(v0, View(), i, all) && log == old(log) && old(pfds.Length) <= pfds.Length
      ensures (pfds == old(pfds) && fes == old(fes)) || (fresh(pfds) && fresh(fes))
      ensures (r == {} || (r == {OnRead} && Reported(OnRead, t.revents)))
              && (e == {} || (e == {OnError} && Reported(OnError, t.revents)))
      ensures calls == old(calls) + Tag(t.gen, OnRead, r) + Tag(t.gen, OnError, e)
      ensures Covers(v0, View(), t.(made := w + r + e))
    {
      hide Inv, Reported, RoundInv, Covers, Tag;
      r := Callback(OnRead, i, p, t, acts(i, OnRead), v0, all);
      e := {};
      NoTag(t.gen, OnError);
      var same := Same(t.fd, p, t.gen);
      if !same {
        GoneCovers(v0, View(), i, all, p, t.(made := w + r + e));
        return;
      }
      e := Callback(OnError, i, p, t, acts(i, OnError), v0, all);
      RoundHas(v0, View(), i, all);
      AllCovers(v0, View(), p, t.(made := w + r + e));
    }

    // One turn of the dispatch loop of xpoll_poll.
    method Dispatch(i: nat, acts: (nat, Kind) -> seq<Act>, ghost v0: Registry)
      requires Valid() && i < pfds.Length && RoundInv(v0, View(), i + 1, log) && pfds[i].revents != {}
      modifies this, pfds, fes
      ensures Valid() && RoundInv(v0, View(), i, log) && |log| == |old(log)| + 1
      ensures old(calls) == AllCalls(old(log)) ==> calls == AllCalls(log)
      ensures old(pfds.Length) <= pfds.Length
      ensures (pfds == old(pfds) && fes == old(fes)) || (fresh(pfds) && fresh(fes))
    {
      hide Inv, Reported, RoundInv, Covers, Given, FullTurn;
      ghost var v := View();
      RoundHas(v0, v, i + 1, log);
      RoundTurn(v0, v, i, log);
      ghost var all := log + [Given(v, i)];
      TurnOwner(v0, v, i, log);
      var revents := pfds[i].revents;
      pfds[i] := pfds[i].(revents := {});
      assert View() == Emptied(v, i);
      RoundHas(v0, View(), i, all);
      var p := fes[i].value;
      var t := Turn(heap[p].gen, heap[p].fd, revents, {});
      var made := Callbacks(i, p, t, acts, v0, all);
      RoundMade(v0, View(), i, log, t.gen, t.fd, revents, made);
      log := log + [t.(made := made)];
      assert log[..|log|-1] == old(log);
    }

    // xpoll_poll.  `ready` is what the kernel reports for each slot, None an error.
    method Poll(ready: Option<seq<set<Bit>>>, interrupted: bool, acts: (nat, Kind) -> seq<Act>) returns (rc: int)
      requires Valid() && (ready.Some? ==> |ready.value| == nfds)
      modifies this, pfds, fes
      ensures Valid()
      ensures (pfds == old(pfds) && fes == old(fes)) || (fresh(pfds) && fresh(fes))
      ensures ready.None? ==> View() == old(View()) && rc == if interrupted then 0 else -1
      ensures ready.Some? ==> RoundMeets(Polled(old(View()), ready.value), View(), log) && rc == |log|
      ensures calls == AllCalls(log)
    {
      hide Inv, RoundInv, RoundMeets, Polled;
      log, calls := [], [];
      if ready.None? {
        return if interrupted then 0 else -1;
      }
      ghost var v := View();
      var n := nfds;
      KernelWrites(ready.value);
      ghost var v0 := View();
      var i := n;
      rc := 0;
      while i > 0
        invariant 0 <= i <= pfds.Length && Valid() && RoundInv(v0, View(), i, log) && rc == |log| && calls == AllCalls(log)
        invariant (pfds == old(pfds) && fes == old(fes)) || (fresh(pfds) && fresh(fes))
      {
        i := i - 1;
        RoundHas(v0, View(), i + 1, log);
        if pfds[i].fd < 0 || pfds[i].revents == {} {
          ClearedSlot(View(), i);
          RoundSkip(v0, View(), i, log);
        } else {
          Dispatch(i, acts, v0);
          rc := rc + 1;
        }
      }
      RoundEnds(v0, View(), log);
    }

    // What poll leaves in the array.
    method KernelWrites(ready: seq<set<Bit>>)
      requires Valid() && |ready| == nfds
      modifies pfds
      ensures Valid() && nfds <= pfds.Length && View() == Polled(old(View()), ready)
      ensures RoundInv(View(), View(), nfds, [])
    {
      hide Inv, RoundInv;
      ghost var v := View();
      InvBounds(v);
      PolledInv(v, ready);
      forall j | 0 <= j < nfds {
        pfds[j] := pfds[j].(revents := ready[j]);
      }
      assert View().slots == Polled(v, ready).slots;
      assert View() == Polled(v, ready);
      RoundHas(View(), View(), nfds, []);
    }
  }

  lemma InvBounds(v: Registry)
    requires Inv(v)
    ensures v.nfds <= |v.slots| == |v.fes|
  {
  }

  lemma RoundHas(v0: Registry, v: Registry, i: int, log: seq<Turn>)
    requires RoundInv(v0, v, i, log)
    ensures Inv(v0) && Inv(v) && v.nfds <= |v.slots| == |v.fes|
  {
  }

  // A slot whose descriptor is negative is past the end and has no events.
  lemma ClearedSlot(v: Registry, i: nat)
    requires Inv(v) && i < |v.slots|
    ensures v.slots[i].fd < 0 ==> v.slots[i].revents == {}
  {
    if i < v.nfds {
      assert Linked(v, i);
    }
  }

  lemma TurnOwner(v0: Registry, v: Registry, i: nat, log: seq<Turn>)
    requires RoundInv(v0, v, i + 1, log) && i < |v.slots| && v.slots[i].revents != {}
    ensures i < v.nfds && |v.slots| == |v.fes| && Linked(v, i)
    ensures var p := v.fes[i].value; var e := v.heap[p];
            && Owns(v0, p, Turn(e.gen, e.fd, v.slots[i].revents, {}))
            && Given(v, i) == FullTurn(e.gen, e.fd, v.slots[i].revents)
  {
    hide Events, Earned, FullTurn, MapOk, MaxOk, GensOk;
    assert Linked(v, i);
    var p := v.fes[i].value;
    assert Rooted(v, p) && Carried(v0, v, i + 1, log, p);
  }

  // A turn that ends early ends because its registration is gone (or had an empty mask to begin with).
  lemma GoneCovers(v0: Registry, v: Registry, i: int, log: seq<Turn>, p: Ptr, t: Turn)
    requires RoundInv(v0, v, i, log) && Owns(v0, p, t) && !Lives(v, t.fd, p, t.gen)
    ensures Covers(v0, v, t)
  {
    hide Events, Earned, Reported, Inv;
    InvHeap(v0);
    InvHeap(v);
    forall q | q in v0.heap && q in v.heap && v0.heap[q].gen == v.heap[q].gen == t.gen ensures v0.heap[q].mask == {} {
      if q != p {
        InvGens(v0, p, q);
      }
      assert Carried(v0, v, i, log, q);
    }
  }

  lemma AllCovers(v0: Registry, v: Registry, p: Ptr, t: Turn)
    requires Inv(v0) && Owns(v0, p, t)
    requires OnWrite in v0.heap[p].procs && Reported(OnWrite, t.revents) ==> OnWrite in t.made
    requires OnRead in v0.heap[p].procs && Reported(OnRead, t.revents) ==> OnRead in t.made
    requires OnError in v0.heap[p].procs && Reported(OnError, t.revents) ==> OnError in t.made
    ensures Covers(v0, v, t)
  {
    hide Inv, Reported;
    forall k | k in v0.heap[p].procs && Reported(k, t.revents) ensures k in t.made {
      match k {
        case OnWrite =>
        case OnRead =>
        case OnError =>
      }
    }
    forall q | q in v0.heap && v0.heap[q].gen == t.gen ensures q == p {
      if q != p {
        InvGens(v0, p, q);
      }
    }
  }

  lemma NoTag(gen: nat, k: Kind)
    ensures Tag(gen, k, {}) == []
  {
  }

  lemma Regrouped(a: seq<Call>, x: seq<Call>, y: seq<Call>, z: seq<Call>)
    ensures a + x + y == a + (x + y) && a + x + y + z == a + (x + y + z)
  {
  }

  ghost predicate Onward(v: Registry, v': Registry) {
    Inv(v) && Inv(v') && Evolves(v, v')
  }

  lemma OnwardRefl(v: Registry)
    requires Inv(v)
    ensures Onward(v, v)
  {
    hide Inv, Evolves;
    EvolvesRefl(v);
  }

  lemma OnwardTrans(a: Registry, b: Registry, c: Registry)
    requires Onward(a, b) && Onward(b, c)
    ensures Onward(a, c)
  {
    hide Inv, Evolves;
    InvHeap(a);
    InvHeap(b);
    InvHeap(c);
    EvolvesTrans(a, b, c);
  }

  lemma RoundOnward(v0: Registry, v: Registry, v': Registry, i: int, log: seq<Turn>)
    requires RoundInv(v0, v, i, log) && Onward(v, v')
    ensures RoundInv(v0, v', i, log) && |v.slots| <= |v'.slots|
  {
    hide Inv, RoundInv;
    RoundEvolves(v0, v, v', i, log);
  }

  // The registration an expected generation belongs to is still there.
  ghost predicate Lives(v: Registry, fd: nat, p: Ptr, g: nat) {
    p in v.heap && v.heap[p].fd == fd && v.heap[p].gen == g && v.heap[p].mask != {}
  }

  // The registration of a turn, at the start of the round.
  ghost predicate Owns(v0: Registry, p: Ptr, t: Turn) {
    p in v0.heap && v0.heap[p].gen == t.gen && v0.heap[p].fd == t.fd && t.gen <= v0.nextGen
  }

  lemma KeysKept(v0: Registry, v: Registry, i: int, log: seq<Turn>, p: Ptr, t: Turn)
    requires RoundInv(v0, v, i, log) && Owns(v0, p, t) && p in v.heap && v.heap[p].gen == t.gen
    ensures v0.heap[p].procs.Keys <= v.heap[p].procs.Keys
    ensures forall k :: k in v0.heap[p].procs ==> k in v.heap[p].procs
  {
    hide Inv, Earned, Events;
    InvHeap(v0);
    InvHeap(v);
    assert Carried(v0, v, i, log, p);
    assert forall k :: k in v0.heap[p].procs ==> k in v0.heap[p].procs.Keys;
  }

  // xpoll_del_event of a registered descriptor.
  ghost predicate DelFrom(v: Registry, fd: nat, mask: set<Flag>, v': Registry)
    requires Inv(v) && fd in v.fdMap
  {
    Known(v, fd);
    var p := v.fdMap[fd];
    if v.heap[p].mask - mask != {} then v' == Reduced(v, p, mask)
    else v' == Removed(v, p).(maxfd := v'.maxfd) && MaxAfter(v, fd, v')
  }

  lemma EvolvesRefl(v: Registry)
    requires Inv(v)
    ensures Evolves(v, v)
  {
    hide Events, Linked;
    forall p | p in v.heap ensures Descends(v, v, p) {
      assert Rooted(v, p);
    }
  }

  lemma ReducedInv(v: Registry, fd: nat, mask: set<Flag>)
    requires Inv(v) && fd in v.fdMap
    requires v.fdMap[fd] in v.heap && Rooted(v, v.fdMap[fd]) && v.nfds <= |v.slots|
    requires v.heap[v.fdMap[fd]].mask - mask != {}
    ensures var v' := Reduced(v, v.fdMap[fd], mask); Inv(v') && Evolves(v, v')
  {
    hide Events, Evolves, Linked, GensOk;
    var p := v.fdMap[fd];
    var e := v.heap[p];
    EditedCore(v, p, e.mask - mask, e.procs, e.data);
  }

  // The last slot is in use, and belongs to another entry unless it is this one's.
  lemma LastSlot(v: Registry, p: Ptr)
    requires Inv(v) && p in v.heap
    ensures Rooted(v, p) && 0 < v.nfds <= |v.slots| == |v.fes|
    ensures v.heap[p].idx != v.nfds - 1 ==>
              v.fes[v.nfds - 1].Some? && v.fes[v.nfds - 1].value in v.heap && v.fes[v.nfds - 1].value != p
    ensures v.heap[p].idx == v.nfds - 1 ==> v.fes[v.nfds - 1] == Some(p)
  {
    hide Events;
    assert Rooted(v, p) && Linked(v, v.nfds - 1);
  }

  lemma RoomyInv(v: Registry)
    requires Inv(v) && |v.slots| > 0
    ensures var r := Roomy(v); Inv(r) && Evolves(v, r) && r.nfds < |r.slots| == |r.fes|
    ensures var r := Roomy(v); r.heap == v.heap && r.fdMap == v.fdMap
  {
    hide Events, Linked;
    if v.nfds >= |v.slots| {
      ResizedInv(v, 2 * |v.slots|);
    } else {
      assert forall p :: p in v.heap ==> Rooted(v, p);
    }
  }

  lemma AddToInv(v: Registry, a: Act)
    requires a.Add? && Inv(v) && |v.slots| > 0
    ensures Inv(AddTo(v, a)) && Evolves(v, AddTo(v, a))
  {
    hide Events, Inv, Evolves, Roomy, Merged;
    InvHeap(v);
    if a.fd in v.fdMap {
      Known(v, a.fd);
      MergedInv(v, v.fdMap[a.fd], a.mask, a.procs, a.data);
    } else {
      var r := Roomy(v);
      RoomyInv(v);
      if a.addr !in v.heap {
        var t := Merged(Created(r, a.fd, a.addr), a.addr, a.mask, a.procs, a.data);
        CreatedInv(r, a.fd, a.addr, a.mask, a.procs, a.data);
        InvHeap(r);
        InvHeap(t);
        EvolvesTrans(v, r, t);
      }
    }
  }

  lemma Known(v: Registry, fd: nat)
    requires Inv(v) && fd in v.fdMap
    ensures v.fdMap[fd] in v.heap && Rooted(v, v.fdMap[fd]) && v.nfds <= |v.slots| == |v.fes|
    ensures v.heap[v.fdMap[fd]].fd == fd
  {
    assert Rooted(v, v.fdMap[fd]);
  }

  // Where every requested flag is already set, nothing but the callbacks changes.
  lemma MergedSame(v: Registry, p: Ptr, mask: set<Flag>, procs: map<Kind, Proc>, data: int)
    requires Inv(v) && p in v.heap && mask <= v.heap[p].mask
    ensures Rooted(v, p) && v.nfds <= |v.slots|
    ensures var e := v.heap[p];
            Merged(v, p, mask, procs, data) == v.(heap := v.heap[p := e.(procs := e.procs + procs, data := data)])
  {
    hide Events;
    assert Rooted(v, p) && Linked(v, v.heap[p].idx);
    assert v.heap[p].mask + mask == v.heap[p].mask;
  }
}
