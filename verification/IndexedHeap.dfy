/**
 The indexed min-heap of xheapmin.h (default comparator): an array of node pointers in heap order, each
 node holding its own position, so that any node can be removed or given another key.
 */
module IndexedHeap {
  import opened Common

  // Addresses of nodes; `key` and `index` are their fields.
  type Ptr = nat

  const NONE: int := -1

  datatype Heap = Heap(data: seq<Ptr>, key: map<Ptr, nat>, index: map<Ptr, int>)

  function Parent(i: nat): (p: nat)
    requires i > 0
    ensures p < i && (i == 2 * p + 1 || i == 2 * p + 2)
  {
    (i - 1) / 2
  }

  // data[n.heap_index] == n for every member
  ghost predicate Linked(h: Heap) {
    forall i :: 0 <= i < |h.data| ==> h.data[i] in h.key && h.data[i] in h.index && h.index[h.data[i]] == i
  }

  function K(h: Heap, i: nat): nat
    requires i < |h.data| && h.data[i] in h.key
  {
    h.key[h.data[i]]
  }

  ghost predicate Le(h: Heap, i: nat, j: nat) {
    i < |h.data| && j < |h.data| && h.data[i] in h.key && h.data[j] in h.key && K(h, i) <= K(h, j)
  }

  ghost predicate Ordered(h: Heap) {
    forall j: nat :: 0 < j < |h.data| ==> Le(h, Parent(j), j)
  }

  // Heap order among all positions but i, across i as well.
  ghost predicate Around(h: Heap, i: nat) {
    && (forall j: nat :: 0 < j < |h.data| && j != i && Parent(j) != i ==> Le(h, Parent(j), j))
    && (i > 0 ==> forall j: nat :: 0 < j < |h.data| && Parent(j) == i ==> Le(h, Parent(i), j))
  }

  ghost predicate Above(h: Heap, i: nat) {
    i > 0 ==> Le(h, Parent(i), i)
  }

  ghost predicate Below(h: Heap, i: nat) {
    forall j: nat :: 0 < j < |h.data| && Parent(j) == i ==> Le(h, i, j)
  }

  ghost function Members(h: Heap): set<Ptr> {
    set p | p in h.data
  }

  // swap_nodes
  function Swap(h: Heap, i: nat, j: nat): Heap
    requires i < |h.data| && j < |h.data|
  {
    Heap(h.data[i := h.data[j]][j := h.data[i]], h.key, h.index[h.data[j] := i][h.data[i] := j])
  }

  lemma SwapLinked(h: Heap, i: nat, j: nat)
    requires Linked(h) && i < |h.data| && j < |h.data| && i != j
    ensures Linked(Swap(h, i, j)) && Members(Swap(h, i, j)) == Members(h)
  {
    var h' := Swap(h, i, j);
    forall p | p in h.data ensures p in h'.data {
      var k :| 0 <= k < |h.data| && h.data[k] == p;
      assert h'.data[if k == i then j else if k == j then i else k] == p;
    }
    forall p | p in h'.data ensures p in h.data {
    }
  }

  lemma OrderedHere(h: Heap, i: nat)
    requires Around(h, i) && Above(h, i) && Below(h, i)
    ensures Ordered(h)
  {
  }

  // A node smaller than its parent changes places with it.
  lemma UpStep(h: Heap, i: nat)
    requires Linked(h) && 0 < i < |h.data| && Around(h, i) && !Above(h, i)
    ensures var h' := Swap(h, Parent(i), i); Around(h', Parent(i)) && Below(h', Parent(i))
  {
    var p, h' := Parent(i), Swap(h, Parent(i), i);
    forall j: nat | 0 < j < |h.data| && j != p && Parent(j) != p ensures Le(h', Parent(j), j) {
      if Parent(j) == i {
        assert Le(h, p, j);
      } else {
        assert Le(h, Parent(j), j);
      }
    }
    forall j: nat | 0 < j < |h.data| && Parent(j) == p ensures Le(h', p, j) && (p > 0 ==> Le(h', Parent(p), j)) {
      if j != i {
        assert Le(h, p, j);
      }
      if p > 0 {
        assert Le(h, Parent(p), p);
      }
    }
  }

  // A node greater than a child changes places with the lesser one.
  lemma DownStep(h: Heap, i: nat, c: nat)
    requires Linked(h) && i < |h.data| && Around(h, i) && Above(h, i)
    requires 0 < c < |h.data| && Parent(c) == i && K(h, c) < K(h, i)
    requires forall j: nat :: 0 < j < |h.data| && Parent(j) == i ==> Le(h, c, j)
    ensures var h' := Swap(h, i, c); Around(h', c) && Above(h', c)
  {
    var h' := Swap(h, i, c);
    forall j: nat | 0 < j < |h.data| && j != c && Parent(j) != c ensures Le(h', Parent(j), j) {
      if j == i {
        assert Le(h, Parent(i), c);
      } else if Parent(j) == i {
        assert Le(h, c, j);
      } else {
        assert Le(h, Parent(j), j);
      }
    }
    forall j: nat | 0 < j < |h.data| && Parent(j) == c ensures Le(h', i, j) {
      assert Le(h, c, j);
    }
  }

  /** The root has the least key. */
  lemma {:induction false} RootLeast(h: Heap, i: nat)
    requires Ordered(h) && i < |h.data| && h.data[0] in h.key
    ensures Le(h, 0, i)
    decreases i
  {
    if i > 0 {
      assert Le(h, Parent(i), i);
      RootLeast(h, Parent(i));
    }
  }

  // ---------- the operations' effect on the tree ----------

  // A node appended at the end.
  function Appended(h: Heap, p: Ptr): Heap {
    Heap(h.data + [p], h.key, h.index[p := |h.data|])
  }

  lemma AppendedFits(h: Heap, p: Ptr)
    requires Linked(h) && Ordered(h) && p !in h.data && p in h.key
    ensures var h' := Appended(h, p); Linked(h') && Around(h', |h.data|) && Below(h', |h.data|)
    ensures Members(Appended(h, p)) == Members(h) + {p}
  {
    var h' := Appended(h, p);
    forall j: nat | 0 < j < |h'.data| && j != |h.data| ensures Le(h', Parent(j), j) {
      assert Le(h, Parent(j), j);
    }
    forall q | q in Members(h) + {p} ensures q in h'.data {
      if q == p {
        assert h'.data[|h.data|] == p;
      } else {
        var k :| 0 <= k < |h.data| && h.data[k] == q;
        assert h'.data[k] == q;
      }
    }
  }

  // The last node put in the place of node i, which is gone.
  function Replaced(h: Heap, i: nat): Heap
    requires i < |h.data|
  {
    var last := |h.data| - 1;
    Heap(h.data[i := h.data[last]][..last], h.key, h.index[h.data[last] := i])
  }

  lemma ReplacedFits(h: Heap, i: nat)
    requires Linked(h) && Ordered(h) && i < |h.data|
    ensures var h' := Replaced(h, i);
            && Linked(h') && Members(h') == Members(h) - {h.data[i]}
            && (i < |h'.data| ==> Around(h', i)) && (i == |h'.data| ==> Ordered(h'))
  {
    var h', last := Replaced(h, i), |h.data| - 1;
    assert h.data[i] != h.data[last] || i == last;
    forall j: nat | 0 < j < last ensures Le(h, Parent(j), j) {
    }
    if 0 < i < last {
      forall j: nat | 0 < j < last && Parent(j) == i ensures Le(h', Parent(i), j) {
        assert Le(h, Parent(i), i) && Le(h, i, j);
      }
    }
    forall p | p in Members(h) - {h.data[i]} ensures p in h'.data {
      var k :| 0 <= k < |h.data| && h.data[k] == p;
      assert h'.data[if k == last then i else k] == p;
    }
    forall p | p in h'.data ensures p in h.data && p != h.data[i] {
      var k :| 0 <= k < |h'.data| && h'.data[k] == p;
      assert h.index[h.data[if k == i then last else k]] == if k == i then last else k;
    }
  }

  // Another key for node i.
  function Rekeyed(h: Heap, i: nat, k: nat): Heap
    requires i < |h.data|
  {
    h.(key := h.key[h.data[i] := k])
  }

  lemma RekeyedFits(h: Heap, i: nat, k: nat)
    requires Linked(h) && Ordered(h) && i < |h.data|
    ensures var h' := Rekeyed(h, i, k);
            && Linked(h') && Around(h', i)
            && (k <= K(h, i) ==> Below(h', i)) && (k >= K(h, i) ==> Above(h', i))
  {
    var h' := Rekeyed(h, i, k);
    forall j: nat | 0 <= j < |h.data| && j != i ensures h.data[j] != h.data[i] && h'.key[h.data[j]] == K(h, j) {
      assert h.index[h.data[j]] == j;
    }
    forall j: nat | 0 < j < |h.data| && j != i && Parent(j) != i ensures Le(h', Parent(j), j) {
      assert Le(h, Parent(j), j);
    }
    if i > 0 {
      assert Le(h, Parent(i), i);
    }
    forall j: nat | 0 < j < |h.data| && Parent(j) == i
      ensures (i > 0 ==> Le(h', Parent(i), j)) && (k <= K(h, i) ==> Le(h', i, j))
    {
      assert Le(h, i, j);
    }
  }

  // ---------- the heap object ----------

  class MinHeap {
    var slots: array<Ptr>                // data, with room for capacity nodes
    var size: nat
    var key: map<Ptr, nat>
    var index: map<Ptr, int>

    ghost function View(): Heap
      requires size <= slots.Length
      reads this, slots
    {
      Heap(slots[..size], key, index)
    }

    ghost predicate Valid()
      reads this, slots
    {
      0 < slots.Length && size <= slots.Length && Linked(View()) && Ordered(View())
    }

    // xheapmin_create, over nodes that exist already
    constructor (capacity: nat, keys: map<Ptr, nat>)
      requires capacity > 0
      ensures Valid() && fresh(slots) && slots.Length == capacity && Members(View()) == {} && key == keys
    {
      slots := new Ptr[capacity](_ => 0);
      size, key, index := 0, keys, map[];
    }

    method SwapNodes(i: nat, j: nat)
      requires size <= slots.Length && i < size && j < size && i != j && Linked(View())
      modifies this`index, slots
      ensures View() == Swap(old(View()), i, j) && Linked(View()) && Members(View()) == Members(old(View()))
    {
      hide Linked, Members;
      SwapLinked(View(), i, j);
      slots[i], slots[j] := slots[j], slots[i];
      index := index[slots[i] := i][slots[j] := j];
      assert slots[..size] == Swap(old(View()), i, j).data;
    }

    // heapify_up
    method HeapifyUp(start: nat)
      requires size <= slots.Length && start < size && Linked(View()) && Around(View(), start)
      modifies this`index, slots
      ensures Linked(View()) && Members(View()) == Members(old(View()))
      ensures (View() == old(View()) && Above(View(), start))
              || (Ordered(View()) && old(slots[start]) in index && index[old(slots[start])] != start)
      ensures Below(old(View()), start) ==> Ordered(View())
    {
      hide Members, Around, Above, Below, Ordered;
      var i := start;
      ghost var x := slots[start];
      while i > 0
        invariant 0 <= i <= start && Linked(View()) && Members(View()) == Members(old(View()))
        invariant Around(View(), i) && slots[i] == x
        invariant if i == start then View() == old(View()) else Below(View(), i)
        decreases i
      {
        var p := Parent(i);
        if key[slots[p]] <= key[slots[i]] {
          break;
        }
        NotAbove(View(), i);
        UpStep(View(), i);
        SwapNodes(p, i);
        i := p;
      }
      IsAbove(View(), i);
      assert x in index && index[x] == i;
      if i != start || Below(old(View()), start) {
        OrderedHere(View(), i);
      }
    }

    // heapify_down
    method HeapifyDown(start: nat)
      requires size <= slots.Length && start < size && Linked(View()) && Around(View(), start) && Above(View(), start)
      modifies this`index, slots
      ensures Linked(View()) && Members(View()) == Members(old(View())) && Ordered(View())
    {
      hide Members, Around, Above, Below, Ordered;
      var i := start;
      while true
        invariant i < size && Linked(View()) && Members(View()) == Members(old(View()))
        invariant Around(View(), i) && Above(View(), i)
        decreases size - i
      {
        var smallest := Smallest(i);
        if smallest == i {
          break;
        }
        DownStep(View(), i, smallest);
        SwapNodes(i, smallest);
        i := smallest;
      }
      OrderedHere(View(), i);
    }

    // The choice of heapify_down: the node itself, or its lesser child if that is less.
    method Smallest(i: nat) returns (s: nat)
      requires size <= slots.Length && i < size && Linked(View())
      ensures s < size && (s == i ==> Below(View(), i))
      ensures s != i ==> s > 0 && Parent(s) == i && K(View(), s) < K(View(), i)
      ensures s != i ==> forall j: nat :: 0 < j < size && Parent(j) == i ==> Le(View(), s, j)
    {
      var left, right := 2 * i + 1, 2 * i + 2;
      s := i;
      if left < size && key[slots[left]] < key[slots[s]] {
        s := left;
      }
      if right < size && key[slots[right]] < key[slots[s]] {
        s := right;
      }
    }

    // xheapmin_insert of a node that is not in the heap
    method Insert(p: Ptr)
      requires Valid() && p in key && p !in Members(View())
      modifies this`slots, this`size, this`index, slots
      ensures Valid() && Members(View()) == old(Members(View())) + {p}
      ensures if old(size) < old(slots.Length) then slots == old(slots)
              else fresh(slots) && slots.Length == 2 * old(slots.Length)
    {
      hide Linked, Members, Ordered, Around, Below, Above;
      ghost var h := View();
      NotMember(h, p);
      AppendedFits(h, p);
      if size >= slots.Length {
        var bigger := new Ptr[2 * slots.Length](_ => 0);
        forall i | 0 <= i < size {
          bigger[i] := slots[i];
        }
        slots := bigger;
        assert slots[..size] == h.data;
      }
      slots[size] := p;
      index := index[p := size];
      size := size + 1;
      assert slots[..size] == h.data + [p];
      HeapifyUp(size - 1);
    }

    // xheapmin_remove
    method Remove(i: int) returns (r: Option<Ptr>)
      requires Valid()
      modifies this`size, this`index, slots
      ensures Valid() && (r.None? <==> !(0 <= i < old(size)))
      ensures r.None? ==> View() == old(View())
      ensures r.Some? ==> r.value == old(slots[i]) && Members(View()) == old(Members(View())) - {r.value}
      ensures r.Some? ==> r.value in index && index[r.value] == NONE
    {
      if i < 0 || i >= size {
        return None;
      }
      hide Members, Ordered, Around, Below, Above;
      ghost var h := View();
      var removed := slots[i];
      ReplacedFits(h, i);
      NotThere(h, i);
      slots[i] := slots[size-1];
      index := index[slots[i] := i];
      size := size - 1;
      assert slots[..size] == Replaced(h, i).data;
      if i < size {
        Settle(i);
      }
      GoneFits(View(), removed);
      index := index[removed := NONE];
      return Some(removed);
    }

    // The sifting of xheapmin_remove: up, and down if the node has not moved.
    method Settle(i: nat)
      requires size <= slots.Length && i < size && Linked(View()) && Around(View(), i)
      modifies this`index, slots
      ensures Linked(View()) && Ordered(View()) && Members(View()) == Members(old(View()))
    {
      hide Members, Ordered, Around, Below, Above;
      var replaced := slots[i];
      assert replaced in index;
      HeapifyUp(i);
      if index[replaced] == i {
        HeapifyDown(i);
      }
    }

    // xheapmin_extract
    method Extract() returns (r: Option<Ptr>)
      requires Valid()
      modifies this`size, this`index, slots
      ensures Valid() && Extracted(Members(old(View())), r, Members(View()), key)
    {
      hide Members, Ordered;
      RootMinimal(View());
      r := Remove(0);
    }

    // xheapmin_peek
    method Peek() returns (r: Option<Ptr>)
      requires Valid()
      ensures r.None? <==> Members(View()) == {}
      ensures r.Some? ==> r.value in Members(View()) && r.value in key
      ensures r.Some? ==> forall q :: q in Members(View()) ==> q in key && key[r.value] <= key[q]
    {
      RootMinimal(View());
      return if size > 0 then Some(slots[0]) else None;
    }

    // xheapmin_check: right for any node, whatever its index field says.
    method Check(p: Ptr) returns (b: bool)
      requires Valid() && p in index
      ensures b == (p in Members(View()))
      ensures b ==> 0 <= index[p] < size && slots[index[p]] == p
    {
      var i := index[p];
      return 0 <= i < size && slots[i] == p;
    }

    // xheapmin_refresh
    method Refresh(p: Ptr, k: nat)
      requires Valid() && p in index && p in key
      modifies this`key, this`index, slots
      ensures Valid() && Members(View()) == Members(old(View()))
      ensures key == if p in Members(old(View())) then old(key)[p := k] else old(key)
    {
      hide Members, Ordered, Around, Below, Above;
      var member := Check(p);
      if !member {
        return;
      }
      ghost var h := View();
      var i, before := index[p] as nat, key[p];
      RekeyedFits(h, i, k);
      RekeyedMembers(h, i, k);
      key := key[p := k];
      assert View() == Rekeyed(h, i, k);
      if k < before {
        HeapifyUp(i);
      } else if k > before {
        HeapifyDown(i);
      } else {
        OrderedHere(View(), i);
      }
    }

    /** Extracting again and again gives every node once, in ascending order of keys. */
    method Drain() returns (out: seq<Ptr>)
      requires Valid()
      modifies this`size, this`index, slots
      ensures Valid() && Members(View()) == {}
      ensures (set p | p in out) == Members(old(View()))
      ensures forall i, j :: 0 <= i < j < |out| ==> out[i] != out[j]
      ensures forall p :: p in out ==> p in key
      ensures forall i, j :: 0 <= i < j < |out| ==> key[out[i]] <= key[out[j]]
    {
      hide Linked, Ordered, Members, Collected, Extracted;
      out := [];
      ghost var all := Members(View());
      var r := Extract();
      KeysThere(all, r, Members(View()), key);
      CollectStart(all, r, Members(View()), key);
      while r.Some?
        invariant Valid() && Collected(all, out, r, Members(View()), key)
        decreases Members(View()), r.Some?
      {
        ghost var before, left, n := out, Members(View()), r.value;
        out := out + [r.value];
        r := Extract();
        ExtractShrinks(left, r, Members(View()), key);
        CollectStep(all, before, n, left, r, Members(View()), key);
      }
      CollectEnd(all, out, Members(View()), key);
    }
  }

  lemma ExtractShrinks(before: set<Ptr>, r: Option<Ptr>, after: set<Ptr>, key: map<Ptr, nat>)
    requires Extracted(before, r, after, key)
    ensures r.Some? ==> after < before
    ensures r.None? ==> after == before
  {
  }

  lemma KeysThere(before: set<Ptr>, r: Option<Ptr>, after: set<Ptr>, key: map<Ptr, nat>)
    requires Extracted(before, r, after, key)
    ensures forall p :: p in before ==> p in key
  {
  }

  lemma CollectStart(all: set<Ptr>, r: Option<Ptr>, left: set<Ptr>, key: map<Ptr, nat>)
    requires Extracted(all, r, left, key) && forall p :: p in all ==> p in key
    ensures Collected(all, [], r, left, key)
  {
  }

  lemma CollectStep(all: set<Ptr>, out: seq<Ptr>, n: Ptr, left: set<Ptr>, r: Option<Ptr>, left': set<Ptr>,
                    key: map<Ptr, nat>)
    requires Collected(all, out, Some(n), left, key) && Extracted(left, r, left', key)
    ensures Collected(all, out + [n], r, left', key)
  {
    var o := out + [n];
    assert (set p | p in o) == (set p | p in out) + {n};
    forall i, j | 0 <= i < j < |o| ensures o[i] != o[j] && key[o[i]] <= key[o[j]] {
      assert o[i] in out;
      if j == |out| {
        assert n in all && n !in out;
      }
    }
  }

  lemma CollectEnd(all: set<Ptr>, out: seq<Ptr>, left: set<Ptr>, key: map<Ptr, nat>)
    requires Collected(all, out, None, left, key)
    ensures left == {} && (set p | p in out) == all && forall p :: p in out ==> p in key
    ensures forall i, j :: 0 <= i < j < |out| ==> out[i] != out[j]
    ensures forall i, j :: 0 <= i < j < |out| ==> out[i] in key && out[j] in key && key[out[i]] <= key[out[j]]
  {
  }

  // What one extraction takes from `before`: a node with the least key, or none if there is none.
  ghost predicate Extracted(before: set<Ptr>, r: Option<Ptr>, after: set<Ptr>, key: map<Ptr, nat>) {
    match r
    case None => before == after == {}
    case Some(n) =>
      n in before && n in key && after == before - {n} && forall q :: q in before ==> q in key && key[n] <= key[q]
  }

  // `out` and `next` are what has been taken of `all`, in order; `left` is the rest.
  ghost predicate Collected(all: set<Ptr>, out: seq<Ptr>, next: Option<Ptr>, left: set<Ptr>, key: map<Ptr, nat>) {
    var got := (set p | p in out) + (if next.Some? then {next.value} else {});
    && got + left == all && got !! left
    && (next.Some? ==> next.value !in out) && (next.None? ==> left == {})
    && (forall p :: p in all ==> p in key)
    && (forall p :: p in out ==> p in all)
    && (forall i, j :: 0 <= i < j < |out| ==> out[i] != out[j])
    && (forall i, j :: 0 <= i < j < |out| ==> key[out[i]] <= key[out[j]])
    && (forall p, q :: p in out && q in all && q !in out ==> key[p] <= key[q])
    && (forall q :: next.Some? && q in left ==> key[next.value] <= key[q])
  }

  lemma NotThere(h: Heap, i: nat)
    requires Linked(h) && i < |h.data|
    ensures h.data[i] in Members(h) && h.data[i] !in Replaced(h, i).data
  {
    var h', last := Replaced(h, i), |h.data| - 1;
    forall k | 0 <= k < |h'.data| ensures h'.data[k] != h.data[i] {
      var from := if k == i then last else k;
      assert h'.data[k] == h.data[from] && h.index[h.data[from]] == from && from != i;
    }
  }

  // The index field of a node that is not in the heap does not matter.
  lemma GoneFits(h: Heap, p: Ptr)
    requires Linked(h) && Ordered(h) && p !in Members(h)
    ensures var h' := h.(index := h.index[p := NONE]); Linked(h') && Ordered(h') && Members(h') == Members(h)
  {
    var h' := h.(index := h.index[p := NONE]);
    forall j: nat | 0 < j < |h.data| ensures Le(h', Parent(j), j) {
      assert Le(h, Parent(j), j);
    }
    forall j | 0 <= j < |h.data| ensures h.data[j] != p {
      assert h.data[j] in Members(h);
    }
  }

  lemma RekeyedMembers(h: Heap, i: nat, k: nat)
    requires i < |h.data|
    ensures Members(Rekeyed(h, i, k)) == Members(h)
  {
  }

  lemma RootMinimal(h: Heap)
    requires Linked(h) && Ordered(h)
    ensures Members(h) == {} <==> h.data == []
    ensures h.data != [] ==>
              && h.data[0] in Members(h) && h.data[0] in h.key
              && forall q :: q in Members(h) ==> q in h.key && h.key[h.data[0]] <= h.key[q]
  {
    if h.data != [] {
      assert h.data[0] in Members(h);
      forall q | q in Members(h) ensures q in h.key && h.key[h.data[0]] <= h.key[q] {
        var i :| 0 <= i < |h.data| && h.data[i] == q;
        RootLeast(h, i);
      }
    }
  }

  lemma NotMember(h: Heap, p: Ptr)
    requires p !in Members(h)
    ensures p !in h.data
  {
  }

  lemma NotAbove(h: Heap, i: nat)
    requires Linked(h) && 0 < i < |h.data| && K(h, Parent(i)) > K(h, i)
    ensures !Above(h, i)
  {
  }

  lemma IsAbove(h: Heap, i: nat)
    requires Linked(h) && i < |h.data| && (i > 0 ==> K(h, Parent(i)) <= K(h, i))
    ensures Above(h, i)
  {
  }
}
