/**
 The hierarchical timing wheel of xtimer.c: 256 level-0 slots of one tick and four
 levels of 64 slots, cascading, segmented long timers, repeats, a node freelist, and
 callbacks that create and destroy timers while a poll is running.
 */
module TimerWheel {
  import opened Common
  import opened TimerSpec

  type Ptr = Handle

  datatype Status = Free | Pending | Running

  datatype Node = Node(expire: nat, interval: nat, repeatNum: nat, cancelled: bool,
                       inFreeList: bool, level: nat, slot: nat, status: Status)

  const WHEEL_MAX_DELTA: nat := 0x7FFF_FFFF
  const MAX_INTERVAL: int := 0x7FFF_FFFF_FFFF_FFFF
  const INT_MAX: nat := 0x7FFF_FFFF
  const SLOTS: nat := 512
  const PREALLOC: nat := 10000

  // ---------- slot arithmetic ----------

  datatype Place = Place(level: nat, slot: nat)

  function CalcSlot(jiffies: nat, expire: nat): (r: Place)
    ensures ValidPlace(r.level, r.slot)
  {
    var delta := if expire <= jiffies then 0 else expire - jiffies;
    var d := if delta > WHEEL_MAX_DELTA then WHEEL_MAX_DELTA else delta;
    if d < 256 then Place(0, (jiffies + d) % 256)
    else if d < 0x4000 then Place(1, (jiffies + d) / 256 % 64)
    else if d < 0x10_0000 then Place(2, (jiffies + d) / 0x4000 % 64)
    else if d < 0x400_0000 then Place(3, (jiffies + d) / 0x10_0000 % 64)
    else Place(4, (jiffies + d) / 0x400_0000 % 64)
  }

  predicate ValidPlace(level: nat, slot: nat) {
    level <= 4 && slot < (if level == 0 then 256 else 64)
  }

  // Position of a slot in the flat table that stands for tv1 .. tv5.
  function SlotIndex(level: nat, slot: nat): (i: nat)
    requires ValidPlace(level, slot)
    ensures i < SLOTS
  {
    if level == 0 then slot else 256 + 64 * (level - 1) + slot
  }

  // Ticks covered by one slot of a level.
  function Granule(level: nat): (g: nat)
    ensures g >= 1
  {
    if level == 0 then 1 else if level == 1 then 256 else if level == 2 then 0x4000
    else if level == 3 then 0x10_0000 else 0x400_0000
  }

  // Cascade number q of `level` hits `slot`, not before `from` and not after `due`.
  ghost predicate Reaches(q: nat, level: nat, slot: nat, from: nat, due: nat) {
    q % 64 == slot && from <= q * Granule(level) <= due
  }

  // The earliest tick at which a level may still be served: levels >= done have had their
  // turn in tick j (level 0 has its turn when its slot is detached).
  function Threshold(level: nat, j: nat, done: nat): nat {
    if level >= done then j + 1 else j
  }

  /** The placement invariant: a level-0 timer sits in the slot of its own due tick, less than one
      lap ahead; a timer in a coarser level is cascaded again, and no later than it is due. */
  ghost predicate Home(level: nat, slot: nat, due: nat, j: nat, done: nat) {
    var from := Threshold(level, j, done);
    if level == 0 then slot == due % 256 && from <= due <= from + 255
    else exists q: nat :: Reaches(q, level, slot, from, due)
  }

  // The tick at which a timer inserted now is served next.
  function ArmedFor(expire: nat, j: nat, done: nat): nat {
    if expire > j then expire else if done == 0 then j + 256 else j
  }

  // What xtimer_calc_slot must deliver for a timer inserted in tick j.
  ghost predicate GoodPlace(pl: Place, expire: nat, j: nat, done: nat) {
    && ValidPlace(pl.level, pl.slot)
    && Home(pl.level, pl.slot, ArmedFor(expire, j, done), j, done)
    && (expire <= j ==> pl.level == 0)
  }

  lemma CalcSlotCoarse(j: nat, expire: nat, done: nat)
    requires expire > j && CalcSlot(j, expire).level > 0
    ensures var pl := CalcSlot(j, expire); Home(pl.level, pl.slot, expire, j, done)
  {
    var pl := CalcSlot(j, expire);
    var delta := expire - j;
    var d := if delta > WHEEL_MAX_DELTA then WHEEL_MAX_DELTA else delta;
    var q := (j + d) / Granule(pl.level);
    assert Reaches(q, pl.level, pl.slot, Threshold(pl.level, j, done), expire);
  }

  lemma CalcSlotHome(j: nat, expire: nat, done: nat)
    ensures GoodPlace(CalcSlot(j, expire), expire, j, done)
  {
    if CalcSlot(j, expire).level > 0 {
      CalcSlotCoarse(j, expire, done);
    }
  }

  // The ticks at which a level cascades, and the slot it empties then.
  lemma NotThisSlot(level: nat, slot: nat, q: nat)
    requires 1 <= level <= 4 && q % 64 == slot
    ensures q * Granule(level) % Granule(level) == 0 && q * Granule(level) / Granule(level) % 64 == slot
  {
    if level == 1 {} else if level == 2 {} else if level == 3 {} else {}
  }

  // A level whose cascade is not scheduled at tick j has nothing to serve in it.
  lemma HomeSkipsLevel(level: nat, slot: nat, due: nat, j: nat)
    requires 1 <= level <= 4 && Home(level, slot, due, j, level + 1)
    requires j % Granule(level) != 0 || slot != j / Granule(level) % 64
    ensures Home(level, slot, due, j, level)
  {
    var q: nat :| Reaches(q, level, slot, j, due);
    assert q * Granule(level) != j by {
      NotThisSlot(level, slot, q);
    }
    assert Reaches(q, level, slot, Threshold(level, j, level), due);
  }

  lemma HomeOtherLevel(level: nat, slot: nat, due: nat, j: nat, done: nat)
    requires 1 <= done <= 5 && Home(level, slot, due, j, done) && level != done - 1
    ensures Home(level, slot, due, j, done - 1)
  {
    assert Threshold(level, j, done) == Threshold(level, j, done - 1);
  }

  lemma HomeNotEarlier(level: nat, slot: nat, due: nat, j: nat, done: nat)
    requires Home(level, slot, due, j, done)
    ensures Threshold(level, j, done) <= due
  {
  }

  // ---------- the invariant of the whole structure ----------

  // `temp` is a detached list still being walked, `hand` the node taken off it.
  datatype View = View(nodes: map<Ptr, Node>, due: map<Ptr, nat>, slots: seq<seq<Ptr>>,
                       free: seq<Ptr>, active: int, j: nat, done: nat,
                       temp: seq<Ptr>, hand: set<Ptr>)

  ghost predicate Placed(n: Node) {
    n.status == Pending && !n.cancelled && !n.inFreeList && ValidPlace(n.level, n.slot)
  }

  ghost predicate Slotted(v: View, p: Ptr)
    requires |v.slots| == SLOTS
  {
    p in v.nodes && Placed(v.nodes[p]) && p in v.slots[SlotIndex(v.nodes[p].level, v.nodes[p].slot)]
  }

  ghost predicate SlotsOk(v: View) {
    && |v.slots| == SLOTS
    && (forall i, p :: 0 <= i < SLOTS && p in v.slots[i] ==>
          p in v.nodes && Placed(v.nodes[p]) && SlotIndex(v.nodes[p].level, v.nodes[p].slot) == i)
    && (forall i :: 0 <= i < SLOTS ==> Unique(v.slots[i]))
  }

  // Every node is on exactly one of: a slot, the detached list, the hand, the freelist.
  ghost predicate OwnersOk(v: View)
    requires |v.slots| == SLOTS
  {
    && (forall p :: p in v.nodes && !v.nodes[p].inFreeList ==>
          p in v.due && v.nodes[p].repeatNum >= 1 && (Slotted(v, p) || p in v.temp || p in v.hand))
    && Unique(v.temp)
    && (forall p :: p in v.temp ==>
          p in v.nodes && !v.nodes[p].inFreeList && !Slotted(v, p) && p !in v.hand)
    && (forall p :: p in v.hand ==> p in v.nodes && !v.nodes[p].inFreeList && !Slotted(v, p))
    && Unique(v.free)
    && (forall p :: p in v.free <==> p in v.nodes && v.nodes[p].inFreeList)
  }

  ghost predicate HomesOk(v: View)
    requires |v.slots| == SLOTS
  {
    forall p :: Slotted(v, p) && p in v.due ==>
      var n := v.nodes[p];
      && Home(n.level, n.slot, v.due[p], v.j, v.done)
      && (n.expire == v.due[p] || (n.interval == 0 && n.level == 0 && n.expire <= v.due[p]))
  }

  ghost function Linked(nodes: map<Ptr, Node>, hand: set<Ptr>): set<Ptr> {
    set p | p in nodes && !nodes[p].inFreeList && p !in hand
  }

  ghost predicate Inv(v: View) {
    && SlotsOk(v) && OwnersOk(v) && HomesOk(v)
    && v.active == |Linked(v.nodes, v.hand)|
  }

  // The abstract queue.  The timer whose callback is running has already been rearmed there.
  ghost function Abs(nodes: map<Ptr, Node>, due: map<Ptr, nat>, firing: Option<Ptr>): Queue {
    map p | p in nodes && !nodes[p].inFreeList && !nodes[p].cancelled &&
            (firing == Some(p) ==> nodes[p].repeatNum > 1) ::
      AbsTimer(nodes[p], if p in due then due[p] else 0, firing == Some(p))
  }

  // A pool with nothing but free nodes.
  lemma AllFree(v: View)
    requires |v.slots| == SLOTS && forall k :: 0 <= k < SLOTS ==> v.slots[k] == []
    requires Unique(v.free) && (forall p :: p in v.free <==> p in v.nodes)
    requires forall p :: p in v.nodes ==> v.nodes[p].inFreeList
    requires v.active == 0 && v.temp == [] && v.hand == {}
    ensures Inv(v) && Abs(v.nodes, v.due, None) == map[]
  {
    assert Linked(v.nodes, {}) == {};
    assert forall p :: !Slotted(v, p);
  }

  ghost function AbsTimer(n: Node, due: nat, firing: bool): Timer {
    var t := Timer(due, n.interval, n.repeatNum);
    if firing && t.left > 0 then Rearmed(t) else t
  }

  function Without(s: seq<Ptr>, p: Ptr): (r: seq<Ptr>)
    ensures forall x :: x in r <==> x in s && x != p
    ensures Unique(s) ==> Unique(r)
  {
    if s == [] then []
    else
      assert forall x :: x in s <==> x == s[0] || x in s[1..];
      assert Unique(s) ==> Unique(s[1..]) && s[0] !in s[1..];
      if s[0] == p then Without(s[1..], p) else [s[0]] + Without(s[1..], p)
  }

  // ---------- steps of the structure ----------

  // A change that does not touch any node on a slot keeps the slot half of the invariant.
  lemma Frame(v: View, v': View)
    requires SlotsOk(v) && HomesOk(v)
    requires v'.slots == v.slots && v'.j == v.j && v'.done == v.done && v'.due == v.due
    requires forall q :: Slotted(v, q) ==> q in v'.nodes && v'.nodes[q] == v.nodes[q]
    ensures SlotsOk(v') && HomesOk(v')
    ensures forall q :: Slotted(v', q) <==> Slotted(v, q)
  {
    forall i, q | 0 <= i < SLOTS && q in v.slots[i]
      ensures Slotted(v, q)
    {
    }
  }

  // xtimer_insert: the node in hand goes to the head of its slot.
  ghost function InsertStep(v: View, p: Ptr, pl: Place): View
    requires SlotsOk(v) && p in v.nodes && ValidPlace(pl.level, pl.slot)
  {
    var n := v.nodes[p];
    var i := SlotIndex(pl.level, pl.slot);
    v.(nodes := v.nodes[p := n.(level := pl.level, slot := pl.slot, status := Pending)],
       slots := v.slots[i := [p] + v.slots[i]],
       due := v.due[p := ArmedFor(n.expire, v.j, v.done)],
       active := v.active + 1, hand := v.hand - {p})
  }

  lemma InsertSlots(v: View, p: Ptr, pl: Place)
    requires ValidPlace(pl.level, pl.slot) && SlotsOk(v) && OwnersOk(v) && p in v.hand && !v.nodes[p].cancelled
    ensures SlotsOk(InsertStep(v, p, pl))
    ensures forall q :: Slotted(InsertStep(v, p, pl), q) <==> Slotted(v, q) || q == p
  {
    assert p !in v.slots[SlotIndex(pl.level, pl.slot)];
  }

  lemma InsertHomes(v: View, p: Ptr, pl: Place)
    requires p in v.nodes && GoodPlace(pl, v.nodes[p].expire, v.j, v.done)
    requires ArmedFor(v.nodes[p].expire, v.j, v.done) == v.nodes[p].expire || v.nodes[p].interval == 0
    requires SlotsOk(v) && OwnersOk(v) && HomesOk(v) && p in v.hand && !v.nodes[p].cancelled
    ensures SlotsOk(InsertStep(v, p, pl)) && HomesOk(InsertStep(v, p, pl))
  {
    InsertSlots(v, p, pl);
  }

  lemma InsertOwners(v: View, p: Ptr, pl: Place)
    requires ValidPlace(pl.level, pl.slot) && SlotsOk(v) && OwnersOk(v) && p in v.hand && !v.nodes[p].cancelled
    ensures SlotsOk(InsertStep(v, p, pl)) && OwnersOk(InsertStep(v, p, pl))
  {
    InsertSlots(v, p, pl);
  }

  lemma InsertInv(v: View, p: Ptr, pl: Place)
    requires p in v.nodes && GoodPlace(pl, v.nodes[p].expire, v.j, v.done)
    requires ArmedFor(v.nodes[p].expire, v.j, v.done) == v.nodes[p].expire || v.nodes[p].interval == 0
    requires Inv(v) && p in v.hand && !v.nodes[p].cancelled
    ensures Inv(InsertStep(v, p, pl))
  {
    var v' := InsertStep(v, p, pl);
    InsertOwners(v, p, pl);
    InsertHomes(v, p, pl);
    assert !v.nodes[p].inFreeList;
    hide HomesOk, OwnersOk, Home;
    assert Linked(v'.nodes, v'.hand) == Linked(v.nodes, v.hand) + {p};
  }

  // Taking the head off a detached list.
  ghost function TakeStep(v: View): View
    requires |v.temp| > 0
  {
    v.(temp := v.temp[1..], hand := v.hand + {v.temp[0]}, active := v.active - 1)
  }

  lemma TakeOwners(v: View)
    requires SlotsOk(v) && OwnersOk(v) && |v.temp| > 0
    ensures OwnersOk(TakeStep(v))
    ensures v.temp[0] in v.nodes && !v.nodes[v.temp[0]].inFreeList && v.temp[0] !in v.hand
  {
    var v' := TakeStep(v);
    assert forall q :: q in v.temp <==> q == v.temp[0] || q in v.temp[1..];
    assert forall q :: Slotted(v', q) <==> Slotted(v, q);
  }

  lemma TakeInv(v: View)
    requires Inv(v) && |v.temp| > 0
    ensures Inv(TakeStep(v))
  {
    hide OwnersOk, Home;
    var v' := TakeStep(v);
    TakeOwners(v);
    Frame(v, v');
    assert Linked(v'.nodes, v'.hand) == Linked(v.nodes, v.hand) - {v.temp[0]};
  }

  // Emptying a slot onto a detached list; its level has then been served in this tick.
  ghost function DetachStep(v: View, level: nat, slot: nat): View
    requires SlotsOk(v) && ValidPlace(level, slot)
  {
    var i := SlotIndex(level, slot);
    v.(temp := v.slots[i], slots := v.slots[i := []], done := level)
  }

  lemma DetachSlots(v: View, level: nat, slot: nat)
    requires SlotsOk(v) && ValidPlace(level, slot)
    ensures SlotsOk(DetachStep(v, level, slot))
    ensures forall p :: p in v.slots[SlotIndex(level, slot)] ==>
              Slotted(v, p) && v.nodes[p].level == level && v.nodes[p].slot == slot
    ensures forall p :: Slotted(DetachStep(v, level, slot), p) <==>
                        Slotted(v, p) && !(v.nodes[p].level == level && v.nodes[p].slot == slot)
  {
  }

  lemma DetachHomes(v: View, level: nat, slot: nat)
    requires SlotsOk(v) && HomesOk(v) && ValidPlace(level, slot)
    requires 1 <= v.done <= 5 && level == v.done - 1
    requires slot == v.j / Granule(level) % (if level == 0 then 256 else 64)
    ensures HomesOk(DetachStep(v, level, slot))
  {
    var v' := DetachStep(v, level, slot);
    DetachSlots(v, level, slot);
    forall p | Slotted(v', p) && p in v'.due
      ensures Home(v.nodes[p].level, v.nodes[p].slot, v.due[p], v.j, level)
    {
      var n := v.nodes[p];
      if n.level != level {
        HomeOtherLevel(n.level, n.slot, v.due[p], v.j, v.done);
      } else if level > 0 {
        HomeSkipsLevel(n.level, n.slot, v.due[p], v.j);
      }
    }
  }

  lemma DetachInv(v: View, level: nat, slot: nat)
    requires Inv(v) && v.temp == [] && ValidPlace(level, slot)
    requires 1 <= v.done <= 5 && level == v.done - 1
    requires slot == v.j / Granule(level) % (if level == 0 then 256 else 64)
    ensures Inv(DetachStep(v, level, slot))
  {
    DetachSlots(v, level, slot);
    DetachHomes(v, level, slot);
  }

  // A level whose cascade is not due in this tick counts as served.
  lemma SkipInv(v: View)
    requires Inv(v) && 2 <= v.done <= 5 && v.j % Granule(v.done - 1) != 0
    ensures Inv(v.(done := v.done - 1))
  {
    var v' := v.(done := v.done - 1);
    assert forall p :: Slotted(v', p) <==> Slotted(v, p);
    forall p | Slotted(v', p) && p in v'.due
      ensures Home(v.nodes[p].level, v.nodes[p].slot, v.due[p], v.j, v.done - 1)
    {
      var n := v.nodes[p];
      if n.level != v.done - 1 {
        HomeOtherLevel(n.level, n.slot, v.due[p], v.j, v.done);
      } else {
        HomeSkipsLevel(n.level, n.slot, v.due[p], v.j);
      }
    }
  }

  // current_jiffies++: a fully served tick j is a fresh tick j + 1.
  lemma TickInv(v: View)
    requires Inv(v) && v.done == 0
    ensures Inv(v.(j := v.j + 1, done := 5))
  {
    var v' := v.(j := v.j + 1, done := 5);
    assert forall p :: Slotted(v', p) <==> Slotted(v, p);
    forall p | Slotted(v', p) && p in v'.due
      ensures Home(v.nodes[p].level, v.nodes[p].slot, v.due[p], v.j + 1, 5)
    {
      var n := v.nodes[p];
      assert Threshold(n.level, v.j, 0) == Threshold(n.level, v.j + 1, 5);
    }
  }

  lemma EditOwners(v: View, p: Ptr, n: Node)
    requires SlotsOk(v) && OwnersOk(v) && (p in v.temp || p in v.hand)
    requires n.status != Pending && !n.inFreeList && n.repeatNum >= 1
    ensures OwnersOk(v.(nodes := v.nodes[p := n]))
  {
    hide Unique;
    var v' := v.(nodes := v.nodes[p := n]);
    assert p in v.nodes && !v.nodes[p].inFreeList;
    assert forall q :: Slotted(v, q) ==> Slotted(v', q);
  }

  // A change to a node that is on no slot, and that keeps it out of the freelist.
  lemma EditInv(v: View, p: Ptr, n: Node)
    requires Inv(v) && (p in v.temp || p in v.hand)
    requires n.status != Pending && !n.inFreeList && n.repeatNum >= 1
    ensures Inv(v.(nodes := v.nodes[p := n]))
  {
    var v' := v.(nodes := v.nodes[p := n]);
    EditOwners(v, p, n);
    Frame(v, v');
    assert Linked(v'.nodes, v'.hand) == Linked(v.nodes, v.hand);
  }

  const POISONED: Node := Node(0, 0, 0, true, true, 0, 0, Free)

  // xtimer_node_release: the node in hand goes to the freelist, or back to the allocator.
  ghost function ReleaseStep(v: View, p: Ptr, kept: bool): View {
    if kept then v.(nodes := v.nodes[p := POISONED], free := [p] + v.free, hand := v.hand - {p})
    else v.(nodes := v.nodes - {p}, hand := v.hand - {p})
  }

  lemma ReleaseOwners(v: View, p: Ptr, kept: bool)
    requires SlotsOk(v) && OwnersOk(v) && p in v.hand
    ensures OwnersOk(ReleaseStep(v, p, kept))
    ensures p in v.nodes && !Slotted(v, p)
  {
    var v' := ReleaseStep(v, p, kept);
    assert forall q :: Slotted(v, q) ==> Slotted(v', q);
  }

  lemma ReleaseInv(v: View, p: Ptr, kept: bool)
    requires Inv(v) && p in v.hand
    ensures Inv(ReleaseStep(v, p, kept))
  {
    hide OwnersOk, Home;
    var v' := ReleaseStep(v, p, kept);
    ReleaseOwners(v, p, kept);
    Frame(v, v');
    assert Linked(v'.nodes, v'.hand) == Linked(v.nodes, v.hand);
  }

  // xtimer_remove on a node at rest in its slot.
  ghost function UnlinkStep(v: View, p: Ptr): View
    requires SlotsOk(v) && p in v.nodes && Placed(v.nodes[p])
  {
    var i := SlotIndex(v.nodes[p].level, v.nodes[p].slot);
    v.(slots := v.slots[i := Without(v.slots[i], p)], active := v.active - 1, hand := v.hand + {p})
  }

  lemma UnlinkInv(v: View, p: Ptr)
    requires Inv(v) && Slotted(v, p)
    ensures Inv(UnlinkStep(v, p))
  {
    assert p in Linked(v.nodes, v.hand);
    hide HomesOk, OwnersOk;
    var v' := UnlinkStep(v, p);
    UnlinkSlots(v, p);
    UnlinkOwners(v, p);
    UnlinkHomes(v, p);
    assert Linked(v'.nodes, v'.hand) == Linked(v.nodes, v.hand) - {p};
    hide Slotted, SlotsOk;
  }

  lemma UnlinkOwners(v: View, p: Ptr)
    requires SlotsOk(v) && OwnersOk(v) && Slotted(v, p)
    ensures OwnersOk(UnlinkStep(v, p))
  {
    UnlinkSlots(v, p);
    hide Slotted, SlotsOk, Unique;
  }

  lemma UnlinkHomes(v: View, p: Ptr)
    requires SlotsOk(v) && HomesOk(v) && Slotted(v, p)
    ensures HomesOk(UnlinkStep(v, p))
  {
    UnlinkSlots(v, p);
    hide Slotted, SlotsOk, Home;
  }

  lemma UnlinkSlots(v: View, p: Ptr)
    requires SlotsOk(v) && Slotted(v, p)
    ensures SlotsOk(UnlinkStep(v, p))
    ensures forall q :: Slotted(UnlinkStep(v, p), q) <==> Slotted(v, q) && q != p
  {
  }

  // xtimer_node_new: a node from the freelist, or a fresh address, comes into hand.
  ghost function AllocStep(v: View, p: Ptr, n: Node): View {
    v.(nodes := v.nodes[p := n], due := v.due[p := n.expire], hand := v.hand + {p},
       free := if v.free != [] then v.free[1..] else [])
  }

  lemma AllocOwners(v: View, p: Ptr, n: Node)
    requires SlotsOk(v) && OwnersOk(v) && !n.inFreeList && n.status == Free && n.repeatNum >= 1
    requires if v.free != [] then p == v.free[0] else p !in v.nodes
    ensures OwnersOk(AllocStep(v, p, n)) && !Slotted(v, p)
    ensures p in v.nodes ==> v.nodes[p].inFreeList
  {
    var v' := AllocStep(v, p, n);
    AllocFree(v, p, n);
    assert p in v.nodes ==> v.nodes[p].inFreeList;
    assert p !in v.temp && p !in v.hand && !Slotted(v, p);
    assert forall q :: Slotted(v', q) <==> Slotted(v, q);
    OwnersGain(v, v', p, n);
    hide OwnersOk;
  }

  lemma OwnersGain(v: View, v': View, p: Ptr, n: Node)
    requires |v.slots| == SLOTS && v'.slots == v.slots && OwnersOk(v) && !n.inFreeList && n.repeatNum >= 1
    requires p !in v.temp && p !in v.hand && (p in v.nodes ==> p in v.free)
    requires v'.nodes == v.nodes[p := n] && p in v'.due && (forall q :: q in v.due ==> q in v'.due)
    requires v'.temp == v.temp && v'.hand == v.hand + {p}
    requires Unique(v'.free) && forall q :: q in v'.free <==> q in v.free && q != p
    requires !Slotted(v', p) && forall q :: Slotted(v', q) <==> Slotted(v, q)
    ensures OwnersOk(v')
  {
    hide Slotted, Unique;
  }

  lemma AllocFree(v: View, p: Ptr, n: Node)
    requires Unique(v.free) && (v.free != [] ==> p == v.free[0])
    ensures var v' := AllocStep(v, p, n);
            Unique(v'.free) && forall q :: q in v'.free <==> q in v.free && q != p
  {
    var rest := AllocStep(v, p, n).free;
    assert v.free != [] ==> v.free == [p] + rest;
  }

  lemma AllocHomes(v: View, p: Ptr, n: Node)
    requires SlotsOk(v) && HomesOk(v) && !Slotted(v, p)
    ensures SlotsOk(AllocStep(v, p, n)) && HomesOk(AllocStep(v, p, n))
  {
    hide Home;
    var v' := AllocStep(v, p, n);
    Frame(v, v'.(due := v.due));
    assert forall q :: Slotted(v', q) <==> Slotted(v'.(due := v.due), q);
  }

  lemma AllocInv(v: View, p: Ptr, n: Node)
    requires Inv(v) && !n.inFreeList && n.status == Free && n.repeatNum >= 1
    requires if v.free != [] then p == v.free[0] else p !in v.nodes
    ensures Inv(AllocStep(v, p, n))
  {
    hide SlotsOk, OwnersOk, HomesOk;
    var v' := AllocStep(v, p, n);
    AllocOwners(v, p, n);
    AllocHomes(v, p, n);
    assert p !in Linked(v.nodes, v.hand);
    assert Linked(v'.nodes, v'.hand) == Linked(v.nodes, v.hand);
  }

  // Timers taken off a coarse slot: not yet overdue, and due when they say.
  ghost predicate TempArmed(v: View) {
    forall q :: q in v.temp ==>
      q in v.nodes && q in v.due && v.nodes[q].expire == v.due[q] >= v.j && !v.nodes[q].cancelled
  }

  lemma CascadeDetach(v: View, level: nat, slot: nat)
    requires Inv(v) && v.temp == [] && 1 <= level <= 4 && v.done == level + 1
    requires slot == v.j / Granule(level) % 64
    ensures Inv(DetachStep(v, level, slot)) && TempArmed(DetachStep(v, level, slot))
  {
    DetachInv(v, level, slot);
    DetachSlots(v, level, slot);
    forall q | q in v.slots[SlotIndex(level, slot)]
      ensures q in v.due && v.nodes[q].expire == v.due[q] >= v.j
    {
      assert Slotted(v, q);
      HomeNotEarlier(level, slot, v.due[q], v.j, v.done);
    }
  }

  lemma CascadeMoveAbs(v: View, pl: Place)
    requires ValidPlace(pl.level, pl.slot)
    requires |v.slots| == SLOTS && SlotsOk(v) && v.temp != [] && Unique(v.temp) && v.done >= 1 && TempArmed(v)
    ensures var v' := InsertStep(TakeStep(v), v.temp[0], pl);
            TempArmed(v') && Abs(v'.nodes, v'.due, None) == Abs(v.nodes, v.due, None)
  {
    var p := v.temp[0];
    var v' := InsertStep(TakeStep(v), p, pl);
    assert v'.due == v.due;
    assert forall q :: q in v.temp[1..] ==> q in v.temp && q != p;
    hide SlotsOk, Unique;
  }

  lemma CascadeMove(v: View, pl: Place)
    requires v.temp != [] && v.temp[0] in v.nodes && GoodPlace(pl, v.nodes[v.temp[0]].expire, v.j, v.done)
    requires Inv(v) && v.done >= 1 && TempArmed(v)
    ensures SlotsOk(TakeStep(v)) && Inv(InsertStep(TakeStep(v), v.temp[0], pl))
  {
    TakeInv(v);
    InsertInv(TakeStep(v), v.temp[0], pl);
  }

  // A timer on the detached list or in hand survives what a callback does, except that it may
  // become cancelled.
  ghost predicate Survives(v: View, v': View, q: Ptr) {
    && q in v.nodes && q in v'.nodes && q in v.due && q in v'.due && v'.due[q] == v.due[q]
    && v'.nodes[q] == v.nodes[q].(cancelled := v'.nodes[q].cancelled)
  }

  ghost predicate AllSurvive(v: View, v': View) {
    forall q :: q in v.temp || q in v.hand ==> Survives(v, v', q)
  }

  // xtimer_create as a whole: the new state and the step it is in the abstract queue.
  ghost function CreateStep(v: View, p: Ptr, n: Node, pl: Place): View
    requires SlotsOk(AllocStep(v, p, n)) && ValidPlace(pl.level, pl.slot)
  {
    InsertStep(AllocStep(v, p, n), p, pl)
  }

  lemma CreateInv(v: View, p: Ptr, n: Node, pl: Place)
    requires Inv(v) && !n.inFreeList && n.status == Free && n.repeatNum >= 1 && !n.cancelled
    requires if v.free != [] then p == v.free[0] else p !in v.nodes
    requires GoodPlace(pl, n.expire, v.j, v.done) && ArmedFor(n.expire, v.j, v.done) == n.expire
    ensures SlotsOk(AllocStep(v, p, n)) && Inv(CreateStep(v, p, n, pl))
  {
    hide SlotsOk, OwnersOk, HomesOk, Home, Linked;
    AllocInv(v, p, n);
    InsertInv(AllocStep(v, p, n), p, pl);
  }

  lemma CreateShape(v: View, p: Ptr, n: Node, pl: Place)
    requires SlotsOk(v) && OwnersOk(v) && ValidPlace(pl.level, pl.slot) && SlotsOk(AllocStep(v, p, n))
    requires ArmedFor(n.expire, v.j, v.done) == n.expire
    requires if v.free != [] then p == v.free[0] else p !in v.nodes
    ensures var v' := CreateStep(v, p, n, pl);
            && v'.nodes == v.nodes[p := n.(level := pl.level, slot := pl.slot, status := Pending)]
            && v'.due == v.due[p := n.expire] && v'.hand == v.hand && AllSurvive(v, v')
    ensures p in v.nodes ==> v.nodes[p].inFreeList
    ensures p !in v.hand
  {
    var v' := CreateStep(v, p, n, pl);
    assert v'.nodes == v.nodes[p := n.(level := pl.level, slot := pl.slot, status := Pending)];
    assert v'.due == v.due[p := n.expire];
    assert v'.hand == v.hand;
  }

  lemma AbsAdd(nodes: map<Ptr, Node>, due: map<Ptr, nat>, p: Ptr, n: Node, d: nat, firing: Option<Ptr>)
    requires p in nodes ==> nodes[p].inFreeList
    requires !n.inFreeList && !n.cancelled && firing != Some(p)
    ensures p !in Abs(nodes, due, firing)
    ensures Abs(nodes[p := n], due[p := d], firing) ==
            Abs(nodes, due, firing)[p := Timer(d, n.interval, n.repeatNum)]
  {
  }

  lemma CreateRefines(now: nat, v: View, v': View, p: Ptr, n: Node, firing: Option<Ptr>)
    requires p in v.nodes ==> v.nodes[p].inFreeList
    requires v'.nodes == v.nodes[p := n] && v'.due == v.due[p := n.expire] && firing != Some(p)
    requires n.expire == now + n.interval && !n.cancelled && !n.inFreeList && n.repeatNum >= 1
    ensures Step(now, Abs(v.nodes, v.due, firing),
                 Created(p, Timer(now + n.interval, n.interval, n.repeatNum)),
                 Abs(v'.nodes, v'.due, firing))
  {
    AbsAdd(v.nodes, v.due, p, n, n.expire, firing);
  }

  lemma CreateAll(now: nat, v: View, p: Ptr, n: Node, pl: Place, firing: Option<Ptr>)
    requires Inv(v) && (firing.Some? ==> firing.value in v.hand)
    requires if v.free != [] then p == v.free[0] else p !in v.nodes
    requires v.j < now || (v.done > 0 && v.j == now)
    requires n == Node(now + n.interval, n.interval, n.repeatNum, false, false, 0, 0, Free) && n.repeatNum >= 1
    requires GoodPlace(pl, n.expire, v.j, v.done)
    ensures SlotsOk(AllocStep(v, p, n))
    ensures var v' := CreateStep(v, p, n, pl);
            && v'.hand == v.hand && Inv(v') && AllSurvive(v, v')
            && Step(now, Abs(v.nodes, v.due, firing),
                    Created(p, Timer(now + n.interval, n.interval, n.repeatNum)),
                    Abs(v'.nodes, v'.due, firing))
  {
    hide SlotsOk, OwnersOk, HomesOk, AllSurvive, Step, Abs, Home, Linked;
    CreateInv(v, p, n, pl);
    CreateShape(v, p, n, pl);
    var v' := CreateStep(v, p, n, pl);
    CreateRefines(now, v, v', p, v'.nodes[p], firing);
  }

  ghost predicate CreatedAsAsked(now: nat, interval: int, repeat: int, q: Queue, h: Ptr, q': Queue) {
    exists t: Timer :: AskedFor(t, now, interval, repeat) && Step(now, q, Created(h, t), q')
  }

  // What xtimer_create promises: an overflowing interval changes nothing, any other one adds
  // exactly one timer, due `interval` after the clock the pool last read.
  ghost predicate CreateMeets(now: nat, interval: int, repeat: int, firing: Option<Ptr>,
                              v: View, r: Option<Ptr>, v': View) {
    && AllSurvive(v, v')
    && (r == None <==> now > 0x7FFF_FFFF_FFFF_FFFF || interval > 0x7FFF_FFFF_FFFF_FFFF - now)
    && (r == None ==> v' == v)
    && (r.Some? ==> CreatedAsAsked(now, interval, repeat, Abs(v.nodes, v.due, firing), r.value,
                                   Abs(v'.nodes, v'.due, firing)))
  }

  lemma NothingHappens(v: View)
    requires Inv(v)
    ensures AllSurvive(v, v)
  {
  }

  // While callbacks run, every detached timer is locked in state Running.
  ghost predicate Locked(v: View) {
    forall q :: q in v.temp || q in v.hand ==> q in v.nodes && v.nodes[q].status == Running
  }

  lemma AbsDrop(nodes: map<Ptr, Node>, due: map<Ptr, nat>, p: Ptr, nodes': map<Ptr, Node>, firing: Option<Ptr>)
    requires nodes' == nodes - {p} || (p in nodes' && nodes' == nodes[p := nodes'[p]])
    requires p in nodes' ==> nodes'[p].inFreeList || nodes'[p].cancelled
    ensures Abs(nodes', due, firing) == Abs(nodes, due, firing) - {p}
  {
  }

  // xtimer_destroy on a timer at rest: unlink, mark, release.
  ghost function DestroyStep(v: View, p: Ptr, kept: bool): View
    requires SlotsOk(v) && p in v.nodes && Placed(v.nodes[p])
  {
    var v1 := UnlinkStep(v, p);
    ReleaseStep(v1.(nodes := v1.nodes[p := v1.nodes[p].(cancelled := true, status := Free)]), p, kept)
  }

  lemma DestroyPendingInv(v: View, p: Ptr, kept: bool)
    requires Inv(v) && Slotted(v, p)
    ensures Inv(DestroyStep(v, p, kept))
  {
    var v1 := UnlinkStep(v, p);
    var n := v1.nodes[p].(cancelled := true, status := Free);
    UnlinkInv(v, p);
    assert v.nodes[p].repeatNum >= 1;
    hide SlotsOk, OwnersOk, HomesOk;
    EditInv(v1, p, n);
    ReleaseInv(v1.(nodes := v1.nodes[p := n]), p, kept);
  }

  lemma DestroyPendingRefines(now: nat, v: View, p: Ptr, kept: bool, firing: Option<Ptr>)
    requires SlotsOk(v) && OwnersOk(v) && Slotted(v, p)
    ensures var v' := DestroyStep(v, p, kept);
            v'.hand == v.hand && v'.temp == v.temp && AllSurvive(v, v') &&
            Step(now, Abs(v.nodes, v.due, firing), Destroyed(p), Abs(v'.nodes, v'.due, firing))
  {
    var v' := DestroyStep(v, p, kept);
    assert v'.nodes == if kept then v.nodes[p := POISONED] else v.nodes - {p};
    assert v'.hand == v.hand;
    AbsDrop(v.nodes, v.due, p, v'.nodes, firing);
  }

  lemma DestroyRunning(now: nat, v: View, p: Ptr, firing: Option<Ptr>)
    requires Inv(v) && p in v.nodes && (p in v.temp || p in v.hand) && v.nodes[p].status == Running
    ensures var v' := v.(nodes := v.nodes[p := v.nodes[p].(cancelled := true)]);
            Inv(v') && AllSurvive(v, v') &&
            Step(now, Abs(v.nodes, v.due, firing), Destroyed(p), Abs(v'.nodes, v'.due, firing))
  {
    var n := v.nodes[p].(cancelled := true);
    EditInv(v, p, n);
    AbsDrop(v.nodes, v.due, p, v.nodes[p := n], firing);
  }

  // xtimer_destroy removes that timer and no other, whatever state it is in.
  ghost predicate DestroyMeets(now: nat, p: Ptr, firing: Option<Ptr>, v: View, v': View) {
    && AllSurvive(v, v')
    && Step(now, Abs(v.nodes, v.due, firing), Destroyed(p), Abs(v'.nodes, v'.due, firing))
  }

  lemma DestroyNothing(now: nat, v: View, p: Ptr, firing: Option<Ptr>)
    requires Inv(v) && p in v.nodes && (v.nodes[p].inFreeList || v.nodes[p].cancelled)
    ensures DestroyMeets(now, p, firing, v, v)
  {
    AbsDrop(v.nodes, v.due, p, v.nodes, firing);
    NothingHappens(v);
  }

  lemma WhereIs(v: View, p: Ptr)
    requires Inv(v) && Locked(v) && p in v.nodes && !v.nodes[p].inFreeList
    ensures v.nodes[p].status == Pending ==> SlotsOk(v) && OwnersOk(v) && Slotted(v, p)
    ensures v.nodes[p].status != Pending ==> (p in v.temp || p in v.hand) && v.nodes[p].status == Running
  {
  }

  // ---------- firing ----------

  // The detached level-0 batch of tick j: every timer in it is due exactly now.
  ghost predicate BatchOk(v: View) {
    forall q :: q in v.temp ==>
      && q in v.nodes && q in v.due && v.due[q] == v.j
      && (v.nodes[q].expire == v.j || (v.nodes[q].interval == 0 && v.nodes[q].expire <= v.j))
  }

  lemma DueNow(slot: nat, due: nat, j: nat)
    requires Home(0, slot, due, j, 1) && slot == j % 256
    ensures due == j
  {
  }

  lemma BatchDetach(v: View, slot: nat)
    requires Inv(v) && v.temp == [] && v.done == 1 && slot == v.j % 256
    ensures Inv(DetachStep(v, 0, slot)) && BatchOk(DetachStep(v, 0, slot))
  {
    DetachInv(v, 0, slot);
    DetachSlots(v, 0, slot);
    hide Home;
    forall q | q in v.slots[SlotIndex(0, slot)]
      ensures q in v.nodes && q in v.due && v.due[q] == v.j
    {
      assert Slotted(v, q);
      DueNow(slot, v.due[q], v.j);
    }
  }

  lemma RepeatsLeft(v: View, p: Ptr)
    requires Inv(v) && p in v.temp
    ensures p in v.nodes && v.nodes[p].repeatNum >= 1 && !v.nodes[p].inFreeList
  {
  }

  lemma BatchMark(v: View, k: nat, p: Ptr)
    requires Inv(v) && BatchOk(v) && k < |v.temp| && p == v.temp[k]
    ensures var v' := v.(nodes := v.nodes[p := v.nodes[p].(status := Running)]);
            Inv(v') && BatchOk(v') && Abs(v'.nodes, v'.due, None) == Abs(v.nodes, v.due, None)
  {
    hide SlotsOk, OwnersOk, HomesOk, Linked, Abs, BatchOk;
    assert p in v.temp;
    RepeatsLeft(v, p);
    EditInv(v, p, v.nodes[p].(status := Running));
    StatusUnseen(v.nodes, v.due, p);
    StatusInBatch(v, p);
  }

  lemma StatusUnseen(nodes: map<Ptr, Node>, due: map<Ptr, nat>, p: Ptr)
    requires p in nodes
    ensures Abs(nodes[p := nodes[p].(status := Running)], due, None) == Abs(nodes, due, None)
  {
  }

  lemma StatusInBatch(v: View, p: Ptr)
    requires BatchOk(v) && p in v.nodes
    ensures BatchOk(v.(nodes := v.nodes[p := v.nodes[p].(status := Running)]))
  {
  }

  // Nothing pending is due before the tick being served.
  lemma NothingEarlier(v: View)
    requires Inv(v) && v.hand == {} && v.done <= 5 && (v.done == 0 ==> BatchOk(v)) && (v.done > 0 ==> v.temp == [])
    ensures forall q :: q in Abs(v.nodes, v.due, None) ==> v.j <= Abs(v.nodes, v.due, None)[q].due
  {
    forall q | q in v.nodes && !v.nodes[q].inFreeList
      ensures q in v.due && v.j <= v.due[q]
    {
      if q !in v.temp {
        assert Slotted(v, q);
        HomeNotEarlier(v.nodes[q].level, v.nodes[q].slot, v.due[q], v.j, v.done);
      }
    }
  }

  lemma AbsFire(nodes: map<Ptr, Node>, due: map<Ptr, nat>, p: Ptr)
    requires p in nodes && p in due && !nodes[p].inFreeList && !nodes[p].cancelled && nodes[p].repeatNum >= 1
    ensures p in Abs(nodes, due, None)
    ensures Abs(nodes, due, Some(p)) == AfterFire(Abs(nodes, due, None), p)
  {
  }

  // Calling the callback of the head of the batch is a legal Fired step.
  lemma FireRefines(now: nat, v: View, p: Ptr)
    requires Inv(v) && v.hand == {} && v.done == 0 && BatchOk(v) && v.j < now
    requires v.temp != [] && p == v.temp[0] && !v.nodes[p].cancelled
    ensures Step(now, Abs(v.nodes, v.due, None), Fired(p, v.j), Abs(v.nodes, v.due, Some(p)))
  {
    NothingEarlier(v);
    hide HomesOk;
    AbsFire(v.nodes, v.due, p);
  }

  // The state when a callback has returned, and what the rest of the round makes of it.
  ghost predicate FinishReady(v: View, p: Ptr) {
    && Inv(v) && v.done == 0 && v.hand == {p}
    && p in v.nodes && p in v.due && v.due[p] == v.j
    && v.nodes[p].status == Running && !v.nodes[p].inFreeList && v.nodes[p].repeatNum >= 1
    && (v.nodes[p].expire == v.j || (v.nodes[p].interval == 0 && v.nodes[p].expire <= v.j))
  }

  ghost predicate Finished(v: View, p: Ptr, v': View) {
    && Inv(v') && v'.hand == {}
    && Abs(v'.nodes, v'.due, None) == Abs(v.nodes, v.due, Some(p))
    && (forall q :: q in v.temp ==>
          q in v.nodes && q in v'.nodes && q in v.due && q in v'.due &&
          v'.nodes[q] == v.nodes[q] && v'.due[q] == v.due[q])
  }

  lemma AbsRelease(nodes: map<Ptr, Node>, due: map<Ptr, nat>, p: Ptr, nodes': map<Ptr, Node>)
    requires p in nodes && (nodes[p].cancelled || nodes[p].repeatNum == 1)
    requires nodes' == nodes[p := POISONED] || nodes' == nodes - {p}
    ensures Abs(nodes', due, None) == Abs(nodes, due, Some(p))
  {
  }

  lemma AbsRearm(nodes: map<Ptr, Node>, due: map<Ptr, nat>, p: Ptr, n: Node)
    requires p in nodes && p in due && !nodes[p].inFreeList && !nodes[p].cancelled && nodes[p].repeatNum > 1
    requires !n.inFreeList && !n.cancelled && n.interval == nodes[p].interval && n.repeatNum == nodes[p].repeatNum - 1
    ensures Abs(nodes[p := n], due[p := due[p] + Period(n.interval)], None) == Abs(nodes, due, Some(p))
  {
  }

  // A cancelled or exhausted timer leaves, without a trace in the abstract queue.
  lemma FinishRelease(v: View, p: Ptr, kept: bool)
    requires FinishReady(v, p) && (v.nodes[p].cancelled || v.nodes[p].repeatNum == 1)
    ensures Finished(v, p, ReleaseStep(v, p, kept))
  {
    hide Inv, Abs;
    TempIsElsewhere(v, p);
    ReleaseInv(v, p, kept);
    var v' := ReleaseStep(v, p, kept);
    assert v'.hand == {};
    assert v'.nodes == if kept then v.nodes[p := POISONED] else v.nodes - {p};
    AbsRelease(v.nodes, v.due, p, v'.nodes);
  }

  lemma TempIsElsewhere(v: View, p: Ptr)
    requires Inv(v) && p in v.hand
    ensures forall q :: q in v.temp ==> q != p && q in v.nodes && q in v.due
  {
  }

  ghost function Rearming(v: View, p: Ptr): View
    requires p in v.nodes && v.nodes[p].repeatNum >= 1
  {
    var n := v.nodes[p];
    v.(nodes := v.nodes[p := n.(repeatNum := n.repeatNum - 1, expire := n.expire + n.interval)])
  }

  lemma FinishEdit(v: View, p: Ptr)
    requires FinishReady(v, p) && v.nodes[p].repeatNum > 1
    ensures Inv(Rearming(v, p)) && SlotsOk(Rearming(v, p))
  {
    hide SlotsOk, OwnersOk, HomesOk, Linked;
    var n := v.nodes[p];
    EditInv(v, p, n.(repeatNum := n.repeatNum - 1, expire := n.expire + n.interval));
  }

  // A repeat comes back one period after the tick it fired in.
  lemma FinishRearm(v: View, p: Ptr, pl: Place)
    requires FinishReady(v, p) && !v.nodes[p].cancelled && v.nodes[p].repeatNum > 1
    requires SlotsOk(Rearming(v, p))
    requires GoodPlace(pl, v.nodes[p].expire + v.nodes[p].interval, v.j, 0)
    ensures Finished(v, p, InsertStep(Rearming(v, p), p, pl))
  {
    hide Inv, Abs, SlotsOk, Home;
    TempIsElsewhere(v, p);
    FinishEdit(v, p);
    var v1 := Rearming(v, p);
    InsertInv(v1, p, pl);
    var v' := InsertStep(v1, p, pl);
    assert v'.hand == {};
    assert v'.due == v.due[p := v.j + Period(v.nodes[p].interval)];
    assert v'.nodes == v.nodes[p := v'.nodes[p]];
    AbsRearm(v.nodes, v.due, p, v'.nodes[p]);
  }

  // Between two rounds of the inner loop.
  ghost predicate RoundReady(v: View) {
    Inv(v) && v.done == 0 && v.hand == {} && BatchOk(v) && Locked(v)
  }

  lemma RoundTake(v: View)
    requires RoundReady(v) && v.temp != []
    ensures var v1, p := TakeStep(v), v.temp[0];
            && Inv(v1) && Locked(v1) && BatchOk(v1) && FinishReady(v1.(hand := {p}), p)
  {
    var p := v.temp[0];
    TakeInv(v);
    assert p in v.temp && forall q :: q in v.temp[1..] ==> q in v.temp;
    assert p in v.nodes && !v.nodes[p].inFreeList && v.nodes[p].repeatNum >= 1;
    assert v.hand + {p} == {p};
  }

  lemma InvSlots(v: View)
    requires Inv(v)
    ensures SlotsOk(v)
  {
  }

  lemma AbsCancelled(nodes: map<Ptr, Node>, due: map<Ptr, nat>, p: Ptr)
    requires p in nodes && nodes[p].cancelled
    ensures Abs(nodes, due, Some(p)) == Abs(nodes, due, None)
  {
  }

  // The callback has returned: the node in hand is as it was, except perhaps cancelled.
  lemma RoundReturn(v1: View, v2: View, p: Ptr)
    requires FinishReady(v1, p) && Inv(v2) && AllSurvive(v1, v2)
    requires v2.temp == v1.temp && v2.hand == v1.hand && v2.j == v1.j && v2.done == v1.done
    ensures FinishReady(v2, p)
  {
    hide Inv;
  }

  lemma RoundEnd(v1: View, v2: View, p: Ptr, v3: View)
    requires BatchOk(v1) && Locked(v1) && AllSurvive(v1, v2) && Finished(v2, p, v3)
    requires v1.temp == v2.temp == v3.temp && v1.j == v2.j == v3.j && v3.done == 0
    ensures RoundReady(v3) && Abs(v3.nodes, v3.due, None) == Abs(v2.nodes, v2.due, Some(p))
  {
    hide Inv, Abs;
  }

  lemma RunOne(now: nat, q: Queue, e: Event, q': Queue)
    requires Step(now, q, e, q')
    ensures Run(now, q, [e], q')
  {
    RunSnoc(now, q, [], q, e, q');
    assert [] + [e] == [e];
  }

  lemma DestroyUnknown(now: nat, q: Queue, h: Handle)
    requires h !in q
    ensures Step(now, q, Destroyed(h), q)
  {
    assert q - {h} == q;
  }

  lemma RunEmpty(now: nat, q: Queue)
    ensures Run(now, q, [], q)
  {
  }

  lemma RunConcat(now: nat, q: Queue, es: seq<Event>, m: Queue, fs: seq<Event>, q': Queue)
    requires Run(now, q, es, m) && Run(now, m, fs, q')
    ensures Run(now, q, es + fs, q')
    decreases |fs|
  {
    if fs == [] {
      assert es + fs == es;
    } else {
      var init, e := fs[..|fs|-1], fs[|fs|-1];
      var k: Queue :| Run(now, m, init, k) && Step(now, k, e, q');
      RunConcat(now, q, es, m, init, k);
      RunSnoc(now, q, es + init, k, e, q');
      assert es + fs == es + init + [e];
    }
  }

  lemma SurvivesTrans(v: View, m: View, v': View)
    requires AllSurvive(v, m) && AllSurvive(m, v') && m.temp == v.temp && m.hand == v.hand
    ensures AllSurvive(v, v')
  {
  }

  lemma LockedSurvives(v: View, v': View)
    requires Locked(v) && AllSurvive(v, v') && v'.temp == v.temp && v'.hand == v.hand
    ensures Locked(v')
  {
  }

  // A tick in which a level cascades is one in which every finer level cascades.
  lemma FinerAlsoDue(j: nat, level: nat)
    requires 2 <= level <= 4
    ensures j % Granule(level) == 0 ==> j % Granule(level - 1) == 0
  {
    if level == 2 {
      if j % 0x4000 == 0 { Multiple256(j, 64 * (j / 0x4000)); }
    } else if level == 3 {
      if j % 0x10_0000 == 0 { Multiple4000(j, 64 * (j / 0x10_0000)); }
    } else {
      if j % 0x400_0000 == 0 { Multiple100000(j, 64 * (j / 0x400_0000)); }
    }
  }

  lemma Multiple256(j: nat, m: nat)
    requires j == 256 * m
    ensures j % 256 == 0
  {
  }

  lemma Multiple4000(j: nat, m: nat)
    requires j == 0x4000 * m
    ensures j % 0x4000 == 0
  {
  }

  lemma Multiple100000(j: nat, m: nat)
    requires j == 0x10_0000 * m
    ensures j % 0x10_0000 == 0
  {
  }

  lemma NextNotDue(j: nat, level: nat)
    requires 1 <= level <= 3 && j % Granule(level) == 0 && j / Granule(level) % 64 != 0
    ensures j % Granule(level + 1) != 0
  {
    if level == 1 {} else if level == 2 {} else {}
  }

  lemma SkipTo(v: View, lo: nat)
    requires Inv(v) && 1 <= lo <= v.done <= 5
    requires lo < v.done ==> v.j % Granule(lo) != 0
    ensures Inv(v.(done := lo))
    decreases v.done - lo
  {
    hide Inv;
    if lo + 1 < v.done {
      FinerAlsoDue(v.j, lo + 1);
      SkipTo(v, lo + 1);
    }
    if lo < v.done {
      SkipInv(v.(done := lo + 1));
    }
  }

  function ClampInterval(interval: int): nat {
    if interval < 0 then 0 else interval
  }

  function ClampRepeat(repeat: int): nat {
    if repeat == -1 then INT_MAX else if repeat < 1 then 1 else repeat
  }

  class TimerSet {
    var currentTime: nat
    var jiffies: nat
    var slots: seq<seq<Ptr>>
    var nodes: map<Ptr, Node>
    var free: seq<Ptr>
    var freeLimit: nat
    var active: int
    // The tick each linked timer is waiting for.  It is `expire`, except for a repeat of
    // interval 0, whose `expire` never moves.
    ghost var due: map<Ptr, nat>

    ghost function Look(done: nat, temp: seq<Ptr>, hand: set<Ptr>): View
      reads this
    {
      View(nodes, due, slots, free, active, jiffies, done, temp, hand)
    }

    ghost predicate Valid()
      reads this
    {
      Inv(Look(5, [], {})) && jiffies == currentTime
    }

    ghost function Contents(firing: Option<Ptr>): Queue
      reads this
    {
      Abs(nodes, due, firing)
    }

    constructor (now: nat, capacity: int)
      ensures Valid() && currentTime == now && Contents(None) == map[] && |free| == 10000
      ensures freeLimit == if capacity <= 5000 then 10000 else 2 * capacity
    {
      hide Abs, Inv;
      currentTime, jiffies := now, now;
      slots := seq(SLOTS, _ => []);
      var cap := if capacity < 16 then 16 else capacity;
      freeLimit := if cap * 2 < PREALLOC then PREALLOC else cap * 2;
      active := 0;
      nodes, free, due := map[], [], map[];
      new;
      var i := 0;
      while i < PREALLOC
        invariant |free| == i <= PREALLOC && Unique(free)
        invariant forall k :: 0 <= k < |free| ==> free[k] < i
        invariant forall p :: p in free <==> p in nodes
        invariant forall p :: p in nodes ==> nodes[p].inFreeList
        invariant |slots| == SLOTS && forall k :: 0 <= k < SLOTS ==> slots[k] == []
        invariant due == map[] && active == 0 && jiffies == currentTime == now
        invariant freeLimit == if capacity <= 5000 then 10000 else 2 * capacity
      {
        nodes := nodes[i := POISONED];
        free := [i] + free;
        i := i + 1;
      }
      AllFree(Look(5, [], {}));
    }

    // xtimer_node_alloc and xtimer_node_new
    method NewNode(n: Node, ghost done: nat, ghost temp: seq<Ptr>, ghost hand: set<Ptr>) returns (p: Ptr)
      modifies `free, `nodes, `due
      ensures if old(free) != [] then p == old(free)[0] else p !in old(nodes)
      ensures Look(done, temp, hand + {p}) == AllocStep(old(Look(done, temp, hand)), p, n)
    {
      if free != [] {
        p := free[0];
        free := free[1..];
      } else {
        ghost var unused := FreshAddress(nodes.Keys);
        p :| p !in nodes;
      }
      nodes := nodes[p := n];
      due := due[p := n.expire];
    }

    // The second half of xtimer_create: a node for the timer, linked into its slot.
    method Enlist(n: Node, ghost done: nat, ghost temp: seq<Ptr>, ghost hand: set<Ptr>, ghost firing: Option<Ptr>)
      returns (p: Ptr)
      requires Inv(Look(done, temp, hand)) && (firing.Some? ==> firing.value in hand)
      requires jiffies < currentTime || (done > 0 && jiffies == currentTime)
      requires n == Node(currentTime + n.interval, n.interval, n.repeatNum, false, false, 0, 0, Free) && n.repeatNum >= 1
      modifies `nodes, `slots, `active, `due, `free
      ensures Inv(Look(done, temp, hand)) && AllSurvive(old(Look(done, temp, hand)), Look(done, temp, hand))
      ensures Step(currentTime, old(Contents(firing)),
                   Created(p, Timer(n.expire, n.interval, n.repeatNum)), Contents(firing))
    {
      hide SlotsOk, OwnersOk, HomesOk, AllSurvive, Step, Abs, Home, Linked;
      ghost var v := Look(done, temp, hand);
      p := NewNode(n, done, temp, hand);
      AllocInv(v, p, n);
      var pl := Insert(p, done, temp, hand + {p});
      CreateAll(currentTime, v, p, n, pl, firing);
      assert Look(done, temp, hand) == CreateStep(v, p, n, pl);
    }

    // xtimer_create
    method Create(interval: int, repeat: int, ghost done: nat, ghost temp: seq<Ptr>, ghost hand: set<Ptr>,
                  ghost firing: Option<Ptr>)
      returns (r: Option<Ptr>)
      requires Inv(Look(done, temp, hand)) && (firing.Some? ==> firing.value in hand)
      requires jiffies < currentTime || (done > 0 && jiffies == currentTime)
      modifies `nodes, `slots, `active, `due, `free
      ensures Inv(Look(done, temp, hand))
      ensures CreateMeets(currentTime, interval, repeat, firing, old(Look(done, temp, hand)), r, Look(done, temp, hand))
    {
      hide Inv, AllSurvive, Step, Abs;
      var ms := ClampInterval(interval);
      if ms > MAX_INTERVAL - currentTime {
        r := None;
        NothingHappens(Look(done, temp, hand));
      } else {
        var n := Node(currentTime + ms, ms, ClampRepeat(repeat), false, false, 0, 0, Free);
        var p := Enlist(n, done, temp, hand, firing);
        r := Some(p);
        assert AskedFor(Timer(n.expire, n.interval, n.repeatNum), currentTime, interval, repeat);
      }
    }

    // xtimer_destroy
    method Destroy(p: Ptr, ghost done: nat, ghost temp: seq<Ptr>, ghost hand: set<Ptr>, ghost firing: Option<Ptr>)
      requires Inv(Look(done, temp, hand)) && Locked(Look(done, temp, hand)) && p in nodes
      modifies `nodes, `slots, `active, `free
      ensures Inv(Look(done, temp, hand))
      ensures DestroyMeets(currentTime, p, firing, old(Look(done, temp, hand)), Look(done, temp, hand))
    {
      hide SlotsOk, OwnersOk, HomesOk, AllSurvive, Step, Abs, Linked, Locked;
      ghost var v := Look(done, temp, hand);
      if nodes[p].inFreeList || nodes[p].cancelled {
        DestroyNothing(currentTime, v, p, firing);
        return;
      }
      WhereIs(v, p);
      nodes := nodes[p := nodes[p].(cancelled := true)];
      if nodes[p].status == Pending {
        var i := SlotIndex(nodes[p].level, nodes[p].slot);
        slots := slots[i := Without(slots[i], p)];
        nodes := nodes[p := nodes[p].(status := Free)];
        active := active - 1;
        var kept := Release(p, done, temp, hand + {p});
        DestroyPendingInv(v, p, kept);
        DestroyPendingRefines(currentTime, v, p, kept, firing);
        assert Look(done, temp, hand) == DestroyStep(v, p, kept);
      } else {
        DestroyRunning(currentTime, v, p, firing);
      }
    }

    // xtimer_insert
    method Insert(p: Ptr, ghost done: nat, ghost temp: seq<Ptr>, ghost hand: set<Ptr>) returns (pl: Place)
      requires SlotsOk(Look(done, temp, hand)) && p in nodes
      modifies `nodes, `slots, `active, `due
      ensures GoodPlace(pl, old(nodes[p].expire), jiffies, done)
      ensures Look(done, temp, hand - {p}) == InsertStep(old(Look(done, temp, hand)), p, pl)
    {
      pl := CalcSlot(jiffies, nodes[p].expire);
      CalcSlotHome(jiffies, nodes[p].expire, done);
      var i := SlotIndex(pl.level, pl.slot);
      slots := slots[i := [p] + slots[i]];
      due := due[p := ArmedFor(nodes[p].expire, jiffies, done)];
      nodes := nodes[p := nodes[p].(level := pl.level, slot := pl.slot, status := Pending)];
      active := active + 1;
    }

    // xtimer_node_release
    method Release(p: Ptr, ghost done: nat, ghost temp: seq<Ptr>, ghost hand: set<Ptr>) returns (kept: bool)
      requires p in nodes && !nodes[p].inFreeList
      modifies `nodes, `free
      ensures kept <==> |old(free)| < freeLimit
      ensures Look(done, temp, hand - {p}) == ReleaseStep(old(Look(done, temp, hand)), p, kept)
    {
      kept := |free| < freeLimit;
      if kept {
        nodes := nodes[p := POISONED];
        free := [p] + free;
      } else {
        nodes := nodes - {p};
      }
    }

    // xtimer_cascade
    method Cascade(level: nat, slot: nat)
      requires 1 <= level <= 4 && Inv(Look(level + 1, [], {}))
      requires slot == jiffies / Granule(level) % 64
      modifies `nodes, `slots, `active, `due
      ensures Inv(Look(level, [], {})) && Contents(None) == old(Contents(None))
    {
      ghost var v := Look(level + 1, [], {});
      var i := SlotIndex(level, slot);
      var temp := slots[i];
      slots := slots[i := []];
      CascadeDetach(v, level, slot);
      assert Look(level, temp, {}) == DetachStep(v, level, slot);
      while temp != []
        invariant Inv(Look(level, temp, {})) && TempArmed(Look(level, temp, {}))
        invariant Contents(None) == old(Contents(None))
        decreases |temp|
      {
        var p := temp[0];
        ghost var v0 := Look(level, temp, {});
        TakeInv(v0);
        temp := temp[1..];
        active := active - 1;
        assert Look(level, temp, {} + {p}) == TakeStep(v0);
        var pl := Insert(p, level, temp, {} + {p});
        CascadeMoveAbs(v0, pl);
        CascadeMove(v0, pl);
        assert {} + {p} - {p} == {};
      }
    }

    method RunAction(act: Action, ghost done: nat, ghost temp: seq<Ptr>, ghost hand: set<Ptr>, ghost firing: Option<Ptr>)
      returns (ghost es: seq<Event>)
      requires Inv(Look(done, temp, hand)) && Locked(Look(done, temp, hand))
      requires firing.Some? ==> firing.value in hand
      requires jiffies < currentTime || (done > 0 && jiffies == currentTime)
      modifies `nodes, `slots, `active, `due, `free
      ensures Inv(Look(done, temp, hand)) && AllSurvive(old(Look(done, temp, hand)), Look(done, temp, hand))
      ensures Run(currentTime, old(Contents(firing)), es, Contents(firing)) && Answered(currentTime, act, es)
    {
      hide Inv, AllSurvive, Step, Locked;
      ghost var q := Contents(firing);
      NothingHappens(Look(done, temp, hand));
      RunEmpty(currentTime, q);
      es := [];
      match act {
        case Create(interval, repeat) =>
          var r := Create(interval, repeat, done, temp, hand, firing);
          if r.Some? {
            ghost var t :| AskedFor(t, currentTime, interval, repeat) &&
                           Step(currentTime, q, Created(r.value, t), Contents(firing));
            es := [Created(r.value, t)];
            RunOne(currentTime, q, es[0], Contents(firing));
          }
        case Destroy(h) =>
          // A handle whose node has gone back to the allocator cannot be asked for.
          if h in nodes {
            Destroy(h, done, temp, hand, firing);
          } else {
            DestroyUnknown(currentTime, q, h);
          }
          es := [Destroyed(h)];
          RunOne(currentTime, q, es[0], Contents(firing));
      }
    }

    // The callback's and the client's requests, one after the other.
    method RunActions(acts: seq<Action>, ghost done: nat, ghost temp: seq<Ptr>, ghost hand: set<Ptr>,
                      ghost firing: Option<Ptr>)
      returns (ghost es: seq<Event>)
      requires Inv(Look(done, temp, hand)) && Locked(Look(done, temp, hand))
      requires firing.Some? ==> firing.value in hand
      requires jiffies < currentTime || (done > 0 && jiffies == currentTime)
      modifies `nodes, `slots, `active, `due, `free
      ensures Inv(Look(done, temp, hand)) && AllSurvive(old(Look(done, temp, hand)), Look(done, temp, hand))
      ensures Run(currentTime, old(Contents(firing)), es, Contents(firing)) && AllAnswered(currentTime, acts, es)
    {
      hide Inv, AllSurvive, Step, Abs, Locked, Run, Answered, AllAnswered;
      AnsweredNone(currentTime);
      assert acts[..0] == [];
      ghost var v, q0 := Look(done, temp, hand), Contents(firing);
      NothingHappens(v);
      es := [];
      RunEmpty(currentTime, q0);
      for k := 0 to |acts|
        invariant Inv(Look(done, temp, hand)) && Locked(Look(done, temp, hand))
        invariant AllSurvive(v, Look(done, temp, hand))
        invariant Run(currentTime, q0, es, Contents(firing)) && AllAnswered(currentTime, acts[..k], es)
      {
        assert acts[..k+1] == acts[..k] + [acts[k]];
        ghost var m, q := Look(done, temp, hand), Contents(firing);
        ghost var fs := RunAction(acts[k], done, temp, hand, firing);
        RunConcat(currentTime, q0, es, q, fs, Contents(firing));
        AnsweredSnoc(currentTime, acts[..k], es, acts[k], fs);
        es := es + fs;
        SurvivesTrans(v, m, Look(done, temp, hand));
        LockedSurvives(m, Look(done, temp, hand));
      }
      assert acts[..|acts|] == acts;
    }

    method Rearm(p: Ptr, ghost temp: seq<Ptr>)
      requires FinishReady(Look(0, temp, {p}), p) && !nodes[p].cancelled && nodes[p].repeatNum > 1
      modifies `nodes, `slots, `active, `due
      ensures Finished(old(Look(0, temp, {p})), p, Look(0, temp, {}))
    {
      hide Inv, Finished, InsertStep, SlotsOk, GoodPlace;
      ghost var v := Look(0, temp, {p});
      FinishEdit(v, p);
      nodes := nodes[p := nodes[p].(repeatNum := nodes[p].repeatNum - 1, expire := nodes[p].expire + nodes[p].interval)];
      assert Look(0, temp, {p}) == Rearming(v, p);
      var pl := Insert(p, 0, temp, {p});
      assert {p} - {p} == {};
      FinishRearm(v, p, pl);
    }

    // The end of one round of the inner loop: the fired node goes back into the wheel or away.
    method Finish(p: Ptr, ghost temp: seq<Ptr>)
      requires FinishReady(Look(0, temp, {p}), p)
      modifies `nodes, `slots, `active, `due, `free
      ensures Finished(old(Look(0, temp, {p})), p, Look(0, temp, {}))
    {
      hide Inv, Finished, ReleaseStep;
      ghost var v := Look(0, temp, {p});
      if nodes[p].cancelled || nodes[p].repeatNum == 1 {
        var kept := Release(p, 0, temp, {p});
        assert {p} - {p} == {};
        FinishRelease(v, p, kept);
      } else {
        Rearm(p, temp);
      }
    }

    // One round of the inner loop of xtimer_poll.
    method FireOne(temp: seq<Ptr>, acts: seq<Action>) returns (ran: bool, ghost es: seq<Event>)
      requires RoundReady(Look(0, temp, {})) && temp != [] && jiffies < currentTime
      modifies `nodes, `slots, `active, `due, `free
      ensures RoundReady(Look(0, temp[1..], {}))
      ensures Run(currentTime, old(Contents(None)), es, Contents(None))
      ensures ran == !old(nodes)[temp[0]].cancelled
      ensures if ran then es != [] && es[0] == Fired(temp[0], jiffies) && AllAnswered(currentTime, acts, es[1..])
              else es == []
    {
      hide Inv, Abs, Step, Run, Locked, AllSurvive, Finished;
      var p := temp[0];
      ghost var v0, q0 := Look(0, temp, {}), Contents(None);
      RoundTake(v0);
      active := active - 1;
      assert Look(0, temp[1..], {} + {p}) == TakeStep(v0);
      assert {} + {p} == {p};
      if !nodes[p].cancelled && nodes[p].expire > currentTime {
        // The re-insertion of a segmented timer half-way: no timer ever gets here.
        assert false;
      }
      ghost var v1 := Look(0, temp[1..], {p});
      es, ran := [], !nodes[p].cancelled;
      if !nodes[p].cancelled {
        FireRefines(currentTime, v0, p);
        RunOne(currentTime, q0, Fired(p, jiffies), Contents(Some(p)));
        ghost var q1 := Contents(Some(p));
        ghost var fs := RunActions(acts, 0, temp[1..], {p}, Some(p));
        RunConcat(currentTime, q0, [Fired(p, jiffies)], q1, fs, Contents(Some(p)));
        es := [Fired(p, jiffies)] + fs;
      } else {
        AbsCancelled(nodes, due, p);
        NothingHappens(v1);
        RunEmpty(currentTime, q0);
      }
      ghost var v2 := Look(0, temp[1..], {p});
      RoundReturn(v1, v2, p);
      Finish(p, temp[1..]);
      RoundEnd(v1, v2, p, Look(0, temp[1..], {}));
    }

    // The detached level-0 batch of one tick: lock every timer in it, then fire them in list order.
    method ServeBatch(slot: nat, script: nat -> seq<Action>, calls: nat) returns (ghost es: seq<Event>, calls': nat)
      requires Inv(Look(1, [], {})) && slot == jiffies % 256 && jiffies < currentTime
      modifies `nodes, `slots, `active, `due, `free
      ensures Inv(Look(0, [], {})) && Run(currentTime, old(Contents(None)), es, Contents(None))
      ensures calls <= calls' && Performed(currentTime, script, calls, calls', es)
    {
      hide Inv, Abs, Step, Run, AllAnswered, Performed;
      ghost var v, q0 := Look(1, [], {}), Contents(None);
      InvSlots(v);
      var temp := slots[slot];
      slots := slots[slot := []];
      BatchDetach(v, slot);
      assert Look(0, temp, {}) == DetachStep(v, 0, slot);
      LockBatch(temp);
      es, calls' := [], calls;
      RunEmpty(currentTime, q0);
      PerformedNone(currentTime, script, calls);
      while temp != []
        invariant RoundReady(Look(0, temp, {}))
        invariant Run(currentTime, q0, es, Contents(None))
        invariant calls <= calls' && Performed(currentTime, script, calls, calls', es)
        decreases |temp|
      {
        ghost var q := Contents(None);
        var ran;
        ghost var fs;
        ran, fs := FireOne(temp, script(calls'));
        RunConcat(currentTime, q0, es, q, fs, Contents(None));
        if ran {
          PerformedSnoc(currentTime, script, calls, calls', es, fs[0], fs[1..]);
          assert fs == [fs[0]] + fs[1..];
          calls' := calls' + 1;
        } else {
          assert es + fs == es;
        }
        es, temp := es + fs, temp[1..];
      }
    }

    method LockBatch(temp: seq<Ptr>)
      requires Inv(Look(0, temp, {})) && BatchOk(Look(0, temp, {}))
      modifies `nodes
      ensures RoundReady(Look(0, temp, {})) && Contents(None) == old(Contents(None))
    {
      hide Inv, Abs;
      for k := 0 to |temp|
        invariant Inv(Look(0, temp, {})) && BatchOk(Look(0, temp, {}))
        invariant Contents(None) == old(Contents(None))
        invariant forall i :: 0 <= i < k ==> temp[i] in nodes && nodes[temp[i]].status == Running
      {
        BatchMark(Look(0, temp, {}), k, temp[k]);
        assert temp[k] in temp;
        nodes := nodes[temp[k] := nodes[temp[k]].(status := Running)];
      }
    }

    // The cascades of one tick, coarsest level first.
    method CascadeDue()
      requires Inv(Look(5, [], {}))
      modifies `nodes, `slots, `active, `due
      ensures Inv(Look(1, [], {})) && Contents(None) == old(Contents(None))
    {
      hide Inv, Abs;
      ghost var j := jiffies;
      if jiffies % 256 == 0 {
        var idx1 := jiffies / 256 % 64;
        if idx1 == 0 {
          CascadeDue2();
        } else {
          NextNotDue(j, 1);
          SkipTo(Look(5, [], {}), 2);
        }
        Cascade(1, idx1);
      } else {
        SkipTo(Look(5, [], {}), 1);
      }
    }

    // The part of it that runs when the level-1 index is 0 as well.
    method CascadeDue2()
      requires Inv(Look(5, [], {})) && jiffies % 0x4000 == 0
      modifies `nodes, `slots, `active, `due
      ensures Inv(Look(2, [], {})) && Contents(None) == old(Contents(None))
    {
      hide Inv, Abs;
      ghost var j := jiffies;
      var idx2 := jiffies / 0x4000 % 64;
      if idx2 == 0 {
        var idx3 := jiffies / 0x10_0000 % 64;
        if idx3 == 0 {
          var idx4 := jiffies / 0x400_0000 % 64;
          Cascade(4, idx4);
        } else {
          NextNotDue(j, 3);
          SkipTo(Look(5, [], {}), 4);
        }
        Cascade(3, idx3);
      } else {
        NextNotDue(j, 2);
        SkipTo(Look(5, [], {}), 3);
      }
      Cascade(2, idx2);
    }

    /** xtimer_poll.  The run it performs is a run of the abstract queue that leaves nothing due
        before `now`.  `script` is whatever the callbacks ask for, by number of the callback; each of the n
        callbacks gets what it asks for. */
    method Poll(now: nat, script: nat -> seq<Action>) returns (n: nat, ghost es: seq<Event>)
      requires Valid()
      modifies this
      ensures now < old(jiffies) ==>
                es == [] && jiffies == currentTime == now && nodes == old(nodes) && slots == old(slots)
      ensures now >= old(jiffies) ==>
                && Valid() && currentTime == now
                && Run(now, old(Contents(None)), es, Contents(None)) && Drained(now, Contents(None))
      ensures Performed(now, script, 0, n, es)
    {
      hide Inv, Abs, Step, Run, Performed;
      currentTime := now;
      n, es := 0, [];
      PerformedNone(now, script, 0);
      if currentTime < jiffies {
        jiffies := currentTime;
        return;
      }
      ghost var q0 := Contents(None);
      RunEmpty(now, q0);
      while jiffies < currentTime
        invariant Inv(Look(5, [], {})) && jiffies <= currentTime == now
        invariant Run(now, q0, es, Contents(None)) && Performed(now, script, 0, n, es)
      {
        CascadeDue();
        ghost var q := Contents(None);
        ghost var fs, m;
        m := n;
        fs, n := ServeBatch(jiffies % 256, script, n);
        RunConcat(now, q0, es, q, fs, Contents(None));
        PerformedConcat(now, script, 0, m, n, es, fs);
        es := es + fs;
        TickInv(Look(0, [], {}));
        jiffies := jiffies + 1;
      }
      NothingEarlier(Look(5, [], {}));
    }

    // What the client asks for between two polls.
    method Client(acts: seq<Action>) returns (ghost es: seq<Event>)
      requires Valid()
      modifies `nodes, `slots, `active, `due, `free
      ensures Valid() && Run(currentTime, old(Contents(None)), es, Contents(None)) && AllAnswered(currentTime, acts, es)
    {
      es := RunActions(acts, 5, [], {}, None);
    }

    /** Any number of polls, each after whatever the client asks for since the one before: one session of
        the abstract queue, in which every request is answered as asked, with nothing left due before the
        clock. */
    method Session(rounds: seq<Round>) returns (ghost hs: seq<Moment>)
      requires Valid()
      requires rounds != [] ==> currentTime <= rounds[0].now
      requires forall i :: 0 < i < |rounds| ==> rounds[i-1].now <= rounds[i].now
      modifies this
      ensures Valid() && Trace(old(Contents(None)), hs, Contents(None))
      ensures hs != [] ==> hs[|hs|-1].now <= currentTime
      ensures Played(old(currentTime), rounds, hs)
      ensures rounds != [] ==> currentTime == rounds[|rounds|-1].now && Drained(currentTime, Contents(None))
    {
      hide Inv, Abs, Run, Trace, Drained, AllAnswered, Performed, Played;
      ghost var q0, start := Contents(None), currentTime;
      hs := [];
      TraceStart(q0);
      PlayedNone(start);
      assert rounds[..0] == [];
      for i := 0 to |rounds|
        invariant Valid() && Trace(q0, hs, Contents(None)) && (hs != [] ==> hs[|hs|-1].now <= currentTime)
        invariant currentTime == ClockAfter(start, rounds[..i]) && (i > 0 ==> currentTime == rounds[i-1].now)
        invariant Played(start, rounds[..i], hs)
        invariant i > 0 ==> Drained(currentTime, Contents(None))
      {
        ghost var m, before := Contents(None), currentTime;
        var next := rounds[i].now;
        assert before <= next && rounds[..i+1] == rounds[..i] + [rounds[i]];
        ghost var hs0 := hs;
        ghost var es := Client(rounds[i].acts);
        TraceAppend(q0, hs, m, before, es, Contents(None));
        hs := hs + Stamped(before, es);
        m := Contents(None);
        ghost var fs;
        var n;
        n, fs := Poll(next, rounds[i].script);
        TraceAppend(q0, hs, m, next, fs, Contents(None));
        PlayedSnoc(start, rounds[..i], hs0, rounds[i], es, fs, n);
        hs := hs + Stamped(next, fs);
      }
      assert rounds[..|rounds|] == rounds;
    }
  }
}
