/**
 The intrusive circular lists of xtimer.c: each slot is a sentinel, each node carries its two links.
 Relinking neighbours in place does to all lists at once what the wheel's sequences say.
 */
module TimerList {
  import opened Common

  type Addr = nat

  // The link fields of all sentinels and nodes; `owner` says in which list each of them is.
  datatype Links = Links(next: map<Addr, Addr>, prev: map<Addr, Addr>, owner: map<Addr, Addr>)

  // The cycle through a sentinel and its nodes.
  function Cycle(h: Addr, xs: seq<Addr>): (c: seq<Addr>)
    ensures |c| == |xs| + 1
  {
    [h] + xs
  }

  // The positions after and before i in a cycle of n.
  function Succ(n: nat, i: nat): (j: nat)
    requires i < n
    ensures j < n
  {
    if i + 1 == n then 0 else i + 1
  }

  function Pred(n: nat, i: nat): (j: nat)
    requires i < n
    ensures j < n
  {
    if i == 0 then n - 1 else i - 1
  }

  // Member i knows its list and its two neighbours.
  ghost predicate Seated(s: Links, h: Addr, c: seq<Addr>, i: nat)
    requires i < |c|
  {
    && c[i] in s.owner && s.owner[c[i]] == h
    && c[i] in s.next && s.next[c[i]] == c[Succ(|c|, i)]
    && c[i] in s.prev && s.prev[c[i]] == c[Pred(|c|, i)]
  }

  // The links run round the cycle in both directions.
  ghost predicate Ring(s: Links, h: Addr, c: seq<Addr>) {
    Unique(c) && forall i: nat :: i < |c| ==> Seated(s, h, c, i)
  }

  ghost predicate Inv(s: Links, lists: map<Addr, seq<Addr>>) {
    forall h :: h in lists ==> Ring(s, h, Cycle(h, lists[h]))
  }

  // ---------- the link operations ----------

  // xtimer_init_list of a sentinel that is in no list
  function Initialised(s: Links, h: Addr): Links {
    Links(s.next[h := h], s.prev[h := h], s.owner[h := h])
  }

  // xtimer_add_head
  function AddedHead(s: Links, h: Addr, n: Addr): Links
    requires h in s.next
  {
    var f := s.next[h];
    Links(s.next[n := f][h := n], s.prev[n := h][f := n], s.owner[n := h])
  }

  // xtimer_remove
  function Removed(s: Links, n: Addr): Links
    requires n in s.next && n in s.prev
  {
    Links(s.next[s.prev[n] := s.next[n]], s.prev[s.next[n] := s.prev[n]], s.owner - {n})
  }

  // A whole list moved to another sentinel, as xtimer_cascade and xtimer_poll do.
  ghost function Spliced(s: Links, h: Addr, t: Addr): Links
    requires h in s.next && h in s.prev
  {
    var f, l := s.next[h], s.prev[h];
    Links(s.next[t := f][l := t][h := h], s.prev[t := l][f := t][h := h],
          map a | a in s.owner.Keys + {t} :: if a == t || (a != h && s.owner[a] == h) then t else s.owner[a])
  }

  // ---------- one ring ----------

  lemma RingFrame(s: Links, s': Links, h: Addr, c: seq<Addr>)
    requires Ring(s, h, c)
    requires forall a :: a in s.owner && s.owner[a] == h ==> Kept(s, s', a)
    ensures Ring(s', h, c)
  {
    forall i: nat | i < |c| ensures Seated(s', h, c, i) {
      assert Seated(s, h, c, i);
    }
  }

  // The fields of an address are as they were.
  ghost predicate Kept(s: Links, s': Links, a: Addr) {
    && (a in s.owner ==> a in s'.owner && s'.owner[a] == s.owner[a])
    && (a in s.next ==> a in s'.next && s'.next[a] == s.next[a])
    && (a in s.prev ==> a in s'.prev && s'.prev[a] == s.prev[a])
  }

  // d is c with n behind its first element.
  ghost predicate Grown(c: seq<Addr>, d: seq<Addr>, n: Addr) {
    && |c| > 0 && |d| == |c| + 1 && d[0] == c[0] && d[1] == n
    && forall i :: 2 <= i < |d| ==> d[i] == c[i-1]
  }

  lemma AddSeat(s: Links, h: Addr, c: seq<Addr>, d: seq<Addr>, n: Addr, i: nat)
    requires Ring(s, h, c) && Grown(c, d, n) && n !in s.owner && c[0] == h && i < |d|
    ensures h in s.next && Seated(AddedHead(s, h, n), h, d, i)
  {
    var m := if i < 2 then 0 else i - 1;
    assert Seated(s, h, c, 0) && Seated(s, h, c, m) && Seated(s, h, c, Succ(|c|, 0));
    if 2 <= i {
      assert c[m] != c[0] && (m > 1 ==> c[m] != c[1]);
    }
  }

  lemma GrownNoDup(c: seq<Addr>, d: seq<Addr>, n: Addr)
    requires Grown(c, d, n) && Unique(c) && n !in c
    ensures Unique(d)
  {
  }

  lemma AddRing(s: Links, h: Addr, xs: seq<Addr>, n: Addr)
    requires Ring(s, h, Cycle(h, xs)) && n !in s.owner
    ensures h in s.next && Ring(AddedHead(s, h, n), h, Cycle(h, [n] + xs))
  {
    hide Seated;
    var c, d := Cycle(h, xs), Cycle(h, [n] + xs);
    Owned(s, h, c, n);
    GrownNoDup(c, d, n);
    AddSeat(s, h, c, d, n, 0);
    forall i: nat | i < |d| ensures Seated(AddedHead(s, h, n), h, d, i) {
      AddSeat(s, h, c, d, n, i);
    }
  }

  lemma Owned(s: Links, h: Addr, c: seq<Addr>, n: Addr)
    requires Ring(s, h, c) && n !in s.owner
    ensures n !in c
  {
    forall i: nat | i < |c| ensures c[i] != n {
      assert Seated(s, h, c, i);
    }
  }

  // d is c without element k, which is not the first.
  ghost predicate Shrunk(c: seq<Addr>, d: seq<Addr>, k: nat) {
    0 < k < |c| && |d| == |c| - 1 && forall i :: 0 <= i < |d| ==> d[i] == c[if i < k then i else i + 1]
  }

  lemma RemoveSeat(s: Links, h: Addr, c: seq<Addr>, d: seq<Addr>, k: nat, i: nat)
    requires Ring(s, h, c) && Shrunk(c, d, k) && i < |d|
    ensures c[k] in s.next && c[k] in s.prev && Seated(Removed(s, c[k]), h, d, i)
  {
    var m := if i < k then i else i + 1;
    assert Seated(s, h, c, k) && Seated(s, h, c, m);
    assert c[m] != c[k];
    assert c[m] == c[Pred(|c|, k)] ==> m == Pred(|c|, k);
    assert c[m] == c[Succ(|c|, k)] ==> m == Succ(|c|, k);
  }

  lemma RemoveRing(s: Links, h: Addr, xs: seq<Addr>, k: nat)
    requires Ring(s, h, Cycle(h, xs)) && k < |xs|
    ensures xs[k] in s.next && xs[k] in s.prev
    ensures Ring(Removed(s, xs[k]), h, Cycle(h, xs[..k] + xs[k+1..]))
  {
    hide Seated;
    var c, d := Cycle(h, xs), Cycle(h, xs[..k] + xs[k+1..]);
    assert c[k+1] == xs[k] && Shrunk(c, d, k + 1);
    RemoveSeat(s, h, c, d, k + 1, 0);
    forall i: nat | i < |d| ensures Seated(Removed(s, xs[k]), h, d, i) {
      RemoveSeat(s, h, c, d, k + 1, i);
    }
  }

  lemma SpliceSeat(s: Links, h: Addr, c: seq<Addr>, d: seq<Addr>, t: Addr, i: nat)
    requires Ring(s, h, c) && |d| == |c| > 1 && c[0] == h && d[0] == t && t !in s.owner && i < |c|
    requires forall j :: 0 < j < |c| ==> d[j] == c[j]
    ensures h in s.next && h in s.prev && Seated(Spliced(s, h, t), t, d, i)
  {
    var n := |c|;
    assert Seated(s, h, c, 0) && Seated(s, h, c, i);
    assert Seated(s, h, c, 1) && Seated(s, h, c, n - 1);
    assert s.next[h] == c[1] && s.prev[h] == c[n-1] && c[1] != t && c[n-1] != t && c[1] != h && c[n-1] != h;
    assert c[i] != t && (i > 0 ==> c[i] != c[0]);
    assert c[i] == c[1] ==> i == 1;
    assert c[i] == c[n-1] ==> i == n - 1;
    if Succ(n, i) > 0 {
      assert d[Succ(n, i)] == c[Succ(n, i)];
    }
    if Pred(n, i) > 0 {
      assert d[Pred(n, i)] == c[Pred(n, i)];
    }
  }

  lemma SpliceRing(s: Links, h: Addr, xs: seq<Addr>, t: Addr)
    requires Ring(s, h, Cycle(h, xs)) && xs != [] && t !in s.owner
    ensures h in s.next && h in s.prev
    ensures Ring(Spliced(s, h, t), t, Cycle(t, xs)) && Ring(Spliced(s, h, t), h, Cycle(h, []))
  {
    hide Seated;
    var c, d := Cycle(h, xs), Cycle(t, xs);
    Owned(s, h, c, t);
    SpliceSeat(s, h, c, d, t, 0);
    forall i: nat | i < |d| ensures Seated(Spliced(s, h, t), t, d, i) {
      SpliceSeat(s, h, c, d, t, i);
    }
    SentinelAlone(s, h, c, t);
  }

  lemma SentinelAlone(s: Links, h: Addr, c: seq<Addr>, t: Addr)
    requires Ring(s, h, c) && |c| > 0 && c[0] == h && t !in s.owner
    ensures h in s.next && h in s.prev && Ring(Spliced(s, h, t), h, Cycle(h, []))
  {
    assert Seated(s, h, c, 0);
    assert Seated(s, h, c, Succ(|c|, 0)) && Seated(s, h, c, Pred(|c|, 0));
  }

  // ---------- all rings ----------

  // An address owned by another list than h is none of those a change of h touches.
  lemma Elsewhere(s: Links, h: Addr, c: seq<Addr>, a: Addr, i: nat)
    requires Ring(s, h, c) && i < |c| && a in s.owner && s.owner[a] != h
    ensures c[i] != a && c[Succ(|c|, i)] != a && c[Pred(|c|, i)] != a
    ensures c[i] in s.next && s.next[c[i]] != a && c[i] in s.prev && s.prev[c[i]] != a
  {
    assert Seated(s, h, c, i) && Seated(s, h, c, Succ(|c|, i)) && Seated(s, h, c, Pred(|c|, i));
  }

  lemma InitInv(s: Links, lists: map<Addr, seq<Addr>>, h: Addr)
    requires Inv(s, lists) && h !in s.owner
    ensures Inv(Initialised(s, h), lists[h := []])
  {
    hide Seated, Unique;
    forall g | g in lists ensures Ring(Initialised(s, h), g, Cycle(g, lists[g])) && g != h {
      Owned(s, g, Cycle(g, lists[g]), h);
      RingFrame(s, Initialised(s, h), g, Cycle(g, lists[g]));
    }
    AloneRing(s, h);
  }

  lemma AloneRing(s: Links, h: Addr)
    ensures Ring(Initialised(s, h), h, Cycle(h, []))
  {
  }

  lemma AddInv(s: Links, lists: map<Addr, seq<Addr>>, h: Addr, n: Addr)
    requires Inv(s, lists) && h in lists && n !in s.owner
    ensures h in s.next && Inv(AddedHead(s, h, n), lists[h := [n] + lists[h]])
  {
    hide Seated, Unique, Ring, Succ, Pred;
    AddRing(s, h, lists[h], n);
    forall g | g in lists && g != h ensures Ring(AddedHead(s, h, n), g, Cycle(g, lists[g])) {
      forall a | a in s.owner && s.owner[a] == g ensures Kept(s, AddedHead(s, h, n), a) {
        Elsewhere(s, h, Cycle(h, lists[h]), a, 0);
      }
      RingFrame(s, AddedHead(s, h, n), g, Cycle(g, lists[g]));
    }
  }

  lemma RemoveInv(s: Links, lists: map<Addr, seq<Addr>>, h: Addr, k: nat)
    requires Inv(s, lists) && h in lists && k < |lists[h]|
    ensures var n := lists[h][k];
            && n in s.next && n in s.prev
            && Inv(Removed(s, n), lists[h := lists[h][..k] + lists[h][k+1..]])
  {
    hide Seated, Unique, Ring, Succ, Pred;
    var n, c := lists[h][k], Cycle(h, lists[h]);
    assert c[k+1] == n;
    RemoveRing(s, h, lists[h], k);
    forall g | g in lists && g != h ensures Ring(Removed(s, n), g, Cycle(g, lists[g])) {
      forall a | a in s.owner && s.owner[a] == g ensures Kept(s, Removed(s, n), a) {
        Elsewhere(s, h, c, a, k + 1);
      }
      RingFrame(s, Removed(s, n), g, Cycle(g, lists[g]));
    }
  }

  lemma SpliceInv(s: Links, lists: map<Addr, seq<Addr>>, h: Addr, t: Addr)
    requires Inv(s, lists) && h in lists && lists[h] != [] && t !in s.owner
    ensures h in s.next && h in s.prev && t !in lists
    ensures Inv(Spliced(s, h, t), lists[t := lists[h]][h := []])
  {
    hide Seated, Unique, Ring, Succ, Pred;
    SpliceRing(s, h, lists[h], t);
    forall g | g in lists ensures g != t {
      Owned(s, g, Cycle(g, lists[g]), t);
      assert Cycle(g, lists[g])[0] == g;
    }
    forall g | g in lists && g != h ensures Ring(Spliced(s, h, t), g, Cycle(g, lists[g])) {
      forall a | a in s.owner && s.owner[a] == g ensures Kept(s, Spliced(s, h, t), a) {
        Elsewhere(s, h, Cycle(h, lists[h]), a, 0);
      }
      RingFrame(s, Spliced(s, h, t), g, Cycle(g, lists[g]));
    }
  }

  // What the links of a sentinel say.
  lemma HeadLinks(s: Links, lists: map<Addr, seq<Addr>>, h: Addr)
    requires Inv(s, lists) && h in lists
    ensures h in s.next && h in s.prev && s.next[h] in s.prev && s.prev[h] in s.next
    ensures s.next[h] == (if lists[h] == [] then h else lists[h][0])
    ensures lists[h] != [] ==> s.next[h] != h && s.prev[h] != h
  {
    var c := Cycle(h, lists[h]);
    assert Seated(s, h, c, 0) && Seated(s, h, c, Succ(|c|, 0)) && Seated(s, h, c, Pred(|c|, 0));
  }

  // What those of a first node say.
  lemma NodeLinks(s: Links, lists: map<Addr, seq<Addr>>, h: Addr)
    requires Inv(s, lists) && h in lists && lists[h] != []
    ensures var n := lists[h][0];
            n in s.next && s.next[n] == (if |lists[h]| > 1 then lists[h][1] else h) && n in s.owner
    ensures |lists[h]| > 1 ==> lists[h][1] != h
  {
    var c := Cycle(h, lists[h]);
    assert Seated(s, h, c, 1) && c[0] != c[1] && (|c| > 2 ==> c[2] != c[0]);
  }

  // A node is neither of its neighbours.
  lemma RemoveApart(s: Links, lists: map<Addr, seq<Addr>>, h: Addr, k: nat)
    requires Inv(s, lists) && h in lists && k < |lists[h]|
    ensures var n := lists[h][k]; n in s.next && n in s.prev && s.next[n] != n && s.prev[n] != n
  {
    var c := Cycle(h, lists[h]);
    assert Seated(s, h, c, k + 1) && c[k+1] == lists[h][k];
    assert c[k+1] != c[Succ(|c|, k + 1)] && c[k+1] != c[Pred(|c|, k + 1)];
  }

  // ---------- the lists of a wheel ----------

  // Nodes put in front of the lists they belong to, one after another.
  function PlaceAll(lists: map<Addr, seq<Addr>>, xs: seq<Addr>, place: Addr -> Addr): map<Addr, seq<Addr>> {
    if xs == [] then lists
    else
      var m, n := PlaceAll(lists, xs[..|xs|-1], place), xs[|xs|-1];
      if place(n) in m then m[place(n) := [n] + m[place(n)]] else m
  }

  lemma {:induction false} PlacedKeys(lists: map<Addr, seq<Addr>>, xs: seq<Addr>, place: Addr -> Addr)
    ensures PlaceAll(lists, xs, place).Keys == lists.Keys
    decreases |xs|
  {
    if xs != [] {
      PlacedKeys(lists, xs[..|xs|-1], place);
    }
  }

  // A list that nothing is placed in stays.
  lemma {:induction false} PlacedElsewhere(lists: map<Addr, seq<Addr>>, xs: seq<Addr>, place: Addr -> Addr, t: Addr)
    requires t in lists && forall n :: n in xs ==> place(n) != t
    ensures t in PlaceAll(lists, xs, place) && PlaceAll(lists, xs, place)[t] == lists[t]
    decreases |xs|
  {
    if xs != [] {
      PlacedElsewhere(lists, xs[..|xs|-1], place, t);
    }
  }

  class Lists {
    var next: map<Addr, Addr>
    var prev: map<Addr, Addr>
    ghost var owner: map<Addr, Addr>
    ghost var lists: map<Addr, seq<Addr>>

    ghost function View(): Links
      reads this
    {
      Links(next, prev, owner)
    }

    ghost predicate Valid()
      reads this
    {
      Inv(View(), lists)
    }

    constructor ()
      ensures Valid() && lists == map[] && owner == map[]
    {
      next, prev, owner, lists := map[], map[], map[], map[];
    }

    // xtimer_init_list
    method InitList(h: Addr)
      requires Valid() && h !in owner
      modifies this
      ensures Valid() && lists == old(lists)[h := []] && owner == old(owner)[h := h]
    {
      InitInv(View(), lists, h);
      next, prev := next[h := h], prev[h := h];
      owner, lists := owner[h := h], lists[h := []];
    }

    // xtimer_add_head
    method AddHead(h: Addr, n: Addr)
      requires Valid() && h in lists && n !in owner
      modifies this
      ensures Valid() && lists == old(lists)[h := [n] + old(lists)[h]] && owner == old(owner)[n := h]
    {
      hide Inv;
      ghost var s := View();
      AddInv(s, lists, h, n);
      var f := next[h];
      next := next[n := f];
      prev := prev[n := h];
      prev := prev[f := n];
      next := next[h := n];
      owner, lists := owner[n := h], lists[h := [n] + lists[h]];
      assert View() == AddedHead(s, h, n);
    }

    // xtimer_remove: it needs no more than the node.
    method Remove(n: Addr, ghost h: Addr, ghost k: nat)
      requires Valid() && h in lists && k < |lists[h]| && lists[h][k] == n
      modifies this
      ensures Valid() && lists == old(lists)[h := old(lists)[h][..k] + old(lists)[h][k+1..]]
      ensures owner == old(owner) - {n}
    {
      hide Inv;
      ghost var s := View();
      RemoveInv(s, lists, h, k);
      RemoveApart(s, lists, h, k);
      next := next[prev[n] := next[n]];
      prev := prev[next[n] := prev[n]];
      owner, lists := owner - {n}, lists[h := lists[h][..k] + lists[h][k+1..]];
      assert View() == Removed(s, n);
    }

    // xtimer_list_empty
    method IsEmpty(h: Addr) returns (b: bool)
      requires Valid() && h in lists
      ensures b == (lists[h] == [])
    {
      HeadLinks(View(), lists, h);
      return next[h] == h;
    }

    // The list of a slot handed over to a temporary sentinel.
    method Splice(h: Addr, t: Addr)
      requires Valid() && h in lists && lists[h] != [] && t !in owner
      modifies this
      ensures Valid() && lists == old(lists)[t := old(lists)[h]][h := []]
    {
      hide Inv, Spliced;
      ghost var s := View();
      SpliceInv(s, lists, h, t);
      HeadLinks(s, lists, h);
      SplicedIs(s, h, t);
      var f, l := next[h], prev[h];
      next, prev := next[t := f], prev[t := l];
      prev, next := prev[f := t], next[l := t];
      next, prev := next[h := h], prev[h := h];
      lists := lists[t := lists[h]][h := []];
      owner := Spliced(s, h, t).owner;
    }

    // The first node of a temporary list goes to the list it belongs to now.
    method MoveOne(t: Addr, node: Addr, to: Addr) returns (following: Addr)
      requires Valid() && t in lists && lists[t] != [] && node == lists[t][0] && to in lists && to != t
      modifies this
      ensures Valid() && lists == old(lists)[t := old(lists)[t][1..]][to := [node] + old(lists)[to]]
      ensures following == if |old(lists)[t]| > 1 then old(lists)[t][1] else t
    {
      hide Inv;
      NodeLinks(View(), lists, t);
      following := next[node];
      assert lists[t][..0] + lists[t][1..] == lists[t][1..];
      Remove(node, t, 0);
      AddHead(to, node);
    }

    // The walk over the temporary list in xtimer_cascade: each node is taken out and put into the list
    // it belongs to now.
    method Drain(t: Addr, place: Addr -> Addr)
      requires Valid() && t in lists
      requires forall n :: n in lists[t] ==> place(n) in lists && place(n) != t
      modifies this
      ensures Valid() && lists == PlaceAll(old(lists), old(lists)[t], place)[t := []]
    {
      hide Inv, PlaceAll;
      ghost var all, xs, k := lists, lists[t], 0;
      HeadLinks(View(), lists, t);
      var node := next[t];
      WalkStart(all, t, place);
      while node != t
        invariant Valid() && 0 <= k <= |xs| && Walked(all, t, xs, k, place, lists)
        invariant node == if k < |xs| then xs[k] else t
        decreases |xs| - k
      {
        WalkStep(all, t, xs, k, place, lists);
        node := MoveOne(t, node, place(node));
        k := k + 1;
      }
      WalkEnd(View(), all, t, xs, k, place, lists);
    }
  }

  // The first k nodes of the list of t have been placed.
  ghost predicate Walked(all: map<Addr, seq<Addr>>, t: Addr, xs: seq<Addr>, k: nat, place: Addr -> Addr,
                         lists: map<Addr, seq<Addr>>)
  {
    && k <= |xs| && t in all && all[t] == xs
    && (forall n :: n in xs ==> place(n) in all && place(n) != t)
    && lists == PlaceAll(all, xs[..k], place)[t := xs[k..]]
  }

  lemma WalkStart(all: map<Addr, seq<Addr>>, t: Addr, place: Addr -> Addr)
    requires t in all && forall n :: n in all[t] ==> place(n) in all && place(n) != t
    ensures Walked(all, t, all[t], 0, place, all)
  {
    assert all[t][..0] == [] && all[t][0..] == all[t];
  }

  lemma WalkStep(all: map<Addr, seq<Addr>>, t: Addr, xs: seq<Addr>, k: nat, place: Addr -> Addr,
                 lists: map<Addr, seq<Addr>>)
    requires Walked(all, t, xs, k, place, lists) && k < |xs|
    ensures t in lists && lists[t] != [] && lists[t][0] == xs[k] && place(xs[k]) in lists && place(xs[k]) != t
    ensures |lists[t]| == |xs| - k && (k + 1 < |xs| ==> lists[t][1] == xs[k+1])
    ensures Walked(all, t, xs, k + 1, place, lists[t := lists[t][1..]][place(xs[k]) := [xs[k]] + lists[place(xs[k])]])
  {
    PlacedKeys(all, xs[..k], place);
    assert xs[..k+1][..k] == xs[..k] && xs[k..][1..] == xs[k+1..];
    assert xs[k] in xs;
  }

  lemma WalkEnd(s: Links, all: map<Addr, seq<Addr>>, t: Addr, xs: seq<Addr>, k: nat, place: Addr -> Addr,
                lists: map<Addr, seq<Addr>>)
    requires Walked(all, t, xs, k, place, lists) && Inv(s, lists) && (k < |xs| ==> xs[k] == t)
    ensures lists == PlaceAll(all, xs, place)[t := []]
  {
    HeadLinks(s, lists, t);
    assert k == |xs| && xs[..k] == xs && xs[k..] == [];
  }

  lemma SplicedIs(s: Links, h: Addr, t: Addr)
    requires h in s.next && h in s.prev
    ensures var f, l := s.next[h], s.prev[h];
            && Spliced(s, h, t).next == s.next[t := f][l := t][h := h]
            && Spliced(s, h, t).prev == s.prev[t := l][f := t][h := h]
  {
  }
}
