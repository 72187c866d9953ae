/**
 The hash table of xhash.h with integer keys: chains of nodes, the active-bucket index, doubling, and
 iteration whose callback may change or remove the key it is given.
 */
module HashTable {
  import opened Common
  import opened HashActive

  type Ptr = nat
  type Value = int

  const NULL: Value := 0

  datatype Node = Node(key: int, value: Value, next: Option<Ptr>)

  // `chains` lists the nodes of each bucket.
  datatype Table = Table(buckets: seq<Option<Ptr>>, heap: map<Ptr, Node>, chains: seq<seq<Ptr>>)

  // ---------- the invariant ----------

  function After(c: seq<Ptr>, k: nat): Option<Ptr>
    requires k <= |c|
  {
    if k < |c| then Some(c[k]) else None
  }

  function Before(c: seq<Ptr>, k: nat): Option<Ptr>
    requires k <= |c|
  {
    if k > 0 then Some(c[k-1]) else None
  }

  // From `head` the next pointers run through the nodes of `c`.
  ghost predicate Chain(heap: map<Ptr, Node>, head: Option<Ptr>, c: seq<Ptr>) {
    head == After(c, 0) && forall k :: 0 <= k < |c| ==> c[k] in heap && heap[c[k]].next == After(c, k + 1)
  }

  function Bucket(h: int -> nat, size: nat, key: int): (b: nat)
    requires size > 0
    ensures b < size
  {
    h(key) % size
  }

  // A node is in the chain of its key.
  ghost predicate Located(h: int -> nat, t: Table, p: Ptr)
    requires |t.chains| > 0 && p in t.heap
  {
    p in t.chains[Bucket(h, |t.chains|, t.heap[p].key)]
  }

  // A chain holds nodes of its own bucket, each once.
  ghost predicate House(h: int -> nat, size: nat, heap: map<Ptr, Node>, head: Option<Ptr>, c: seq<Ptr>, b: nat)
    requires size > 0
  {
    && Chain(heap, head, c) && Unique(c)
    && forall k :: 0 <= k < |c| ==> c[k] in heap && Bucket(h, size, heap[c[k]].key) == b
  }

  ghost predicate Housed(h: int -> nat, t: Table, b: nat)
    requires b < |t.chains| == |t.buckets|
  {
    House(h, |t.chains|, t.heap, t.buckets[b], t.chains[b], b)
  }

  ghost predicate KeysOk(heap: map<Ptr, Node>) {
    forall p, q :: p in heap && q in heap && heap[p].key == heap[q].key ==> p == q
  }

  ghost predicate Inv(h: int -> nat, t: Table) {
    && |t.chains| == |t.buckets| > 0
    && (forall b: nat :: b < |t.chains| ==> Housed(h, t, b))
    && (forall p :: p in t.heap ==> Located(h, t, p))
    && KeysOk(t.heap)
  }

  // ---------- the map it stands for ----------

  ghost predicate Holds(t: Table, key: int, value: Value) {
    exists p :: p in t.heap && t.heap[p].key == key && t.heap[p].value == value
  }

  // `m` is the contents of the table.
  ghost predicate Means(t: Table, m: map<int, Value>) {
    && (forall p :: p in t.heap ==> t.heap[p].key in m && m[t.heap[p].key] == t.heap[p].value)
    && (forall key :: key in m ==> Holds(t, key, m[key]))
  }

  // ---------- the operations ----------

  // A node goes to the front of its chain.
  function Pushed(t: Table, b: nat, p: Ptr, key: int, value: Value): Table
    requires b < |t.buckets| == |t.chains|
  {
    Table(t.buckets[b := Some(p)], t.heap[p := Node(key, value, t.buckets[b])], t.chains[b := [p] + t.chains[b]])
  }

  function Stored(t: Table, p: Ptr, value: Value): Table
    requires p in t.heap
  {
    t.(heap := t.heap[p := t.heap[p].(value := value)])
  }

  // Node k of chain b is taken out.
  function Cut(t: Table, b: nat, k: nat): Table
    requires b < |t.buckets| == |t.chains| && k < |t.chains[b]|
    requires t.chains[b][k] in t.heap && (k > 0 ==> t.chains[b][k-1] in t.heap)
  {
    var c, p := t.chains[b], t.chains[b][k];
    var next := t.heap[p].next;
    Table(if k == 0 then t.buckets[b := next] else t.buckets,
          (if k == 0 then t.heap else t.heap[c[k-1] := t.heap[c[k-1]].(next := next)]) - {p},
          t.chains[b := c[..k] + c[k+1..]])
  }

  // ---------- chains ----------

  lemma ChainFrame(a: map<Ptr, Node>, b: map<Ptr, Node>, head: Option<Ptr>, c: seq<Ptr>)
    requires Chain(a, head, c)
    requires forall k :: 0 <= k < |c| ==> c[k] in b && (c[k] in a ==> b[c[k]].next == a[c[k]].next)
    ensures Chain(b, head, c)
  {
  }

  // Pointing node k-1 past node k cuts it out.
  lemma ChainCut(heap: map<Ptr, Node>, head: Option<Ptr>, c: seq<Ptr>, k: nat)
    requires Chain(heap, head, c) && k < |c| && Unique(c)
    ensures c[k] in heap && (k > 0 ==> c[k-1] in heap)
    ensures var next := heap[c[k]].next;
            var heap' := (if k == 0 then heap else heap[c[k-1] := heap[c[k-1]].(next := next)]) - {c[k]};
            Chain(heap', if k == 0 then next else head, c[..k] + c[k+1..])
  {
    if k == 0 {
      ChainCutHead(heap, head, c);
      assert c[..0] + c[1..] == c[1..];
    } else {
      ChainCutInner(heap, head, c, k);
    }
  }

  lemma ChainCutHead(heap: map<Ptr, Node>, head: Option<Ptr>, c: seq<Ptr>)
    requires Chain(heap, head, c) && c != [] && Unique(c)
    ensures c[0] in heap && Chain(heap - {c[0]}, heap[c[0]].next, c[1..])
  {
    var d := c[1..];
    forall j | 0 <= j < |d| ensures d[j] in heap && d[j] != c[0] && heap[d[j]].next == After(d, j + 1) {
      assert d[j] == c[j+1];
    }
  }

  lemma ChainCutInner(heap: map<Ptr, Node>, head: Option<Ptr>, c: seq<Ptr>, k: nat)
    requires Chain(heap, head, c) && 0 < k < |c| && Unique(c)
    ensures c[k] in heap && c[k-1] in heap
    ensures Chain(heap[c[k-1] := heap[c[k-1]].(next := heap[c[k]].next)] - {c[k]}, head, c[..k] + c[k+1..])
  {
    var d := c[..k] + c[k+1..];
    var heap' := heap[c[k-1] := heap[c[k-1]].(next := heap[c[k]].next)] - {c[k]};
    forall j | 0 <= j < |d| ensures d[j] in heap' && heap'[d[j]].next == After(d, j + 1) {
      var o := if j < k then j else j + 1;
      assert d[j] == c[o] && c[o] != c[k];
      assert j != k - 1 ==> c[o] != c[k-1];
    }
  }

  // ---------- every operation keeps the invariant ----------

  ghost predicate Pushable(h: int -> nat, t: Table, p: Ptr, key: int) {
    && Inv(h, t) && p !in t.heap
    && forall q :: q in t.heap ==> t.heap[q].key != key
  }

  // A chain is not disturbed by changes to other nodes.
  lemma HouseFrame(h: int -> nat, size: nat, a: map<Ptr, Node>, b: map<Ptr, Node>, head: Option<Ptr>, c: seq<Ptr>,
                   n: nat)
    requires size > 0 && House(h, size, a, head, c, n)
    requires forall p :: p in a && Bucket(h, size, a[p].key) == n ==> p in b && b[p].(value := a[p].value) == a[p]
    ensures House(h, size, b, head, c, n)
  {
    hide Bucket;
  }

  lemma HousePush(h: int -> nat, size: nat, heap: map<Ptr, Node>, head: Option<Ptr>, c: seq<Ptr>, n: nat,
                  p: Ptr, node: Node)
    requires size > 0 && House(h, size, heap, head, c, n)
    requires p !in heap && node.next == head && Bucket(h, size, node.key) == n
    ensures House(h, size, heap[p := node], Some(p), [p] + c, n)
  {
    ChainFrame(heap, heap[p := node], head, c);
    ChainCons(heap[p := node], p, c);
    hide Bucket, Chain;
    var d := [p] + c;
    assert forall k :: 0 < k < |d| ==> d[k] == c[k-1];
  }

  lemma ChainCons(heap: map<Ptr, Node>, p: Ptr, c: seq<Ptr>)
    requires p in heap && Chain(heap, heap[p].next, c)
    ensures Chain(heap, Some(p), [p] + c)
  {
  }

  lemma HouseCut(h: int -> nat, size: nat, heap: map<Ptr, Node>, head: Option<Ptr>, c: seq<Ptr>, n: nat, k: nat)
    requires size > 0 && House(h, size, heap, head, c, n) && k < |c|
    ensures c[k] in heap && (k > 0 ==> c[k-1] in heap)
    ensures var next := heap[c[k]].next;
            var heap' := (if k == 0 then heap else heap[c[k-1] := heap[c[k-1]].(next := next)]) - {c[k]};
            House(h, size, heap', if k == 0 then next else head, c[..k] + c[k+1..], n)
  {
    hide Bucket, Chain;
    ChainCut(heap, head, c, k);
    var d := c[..k] + c[k+1..];
    assert forall j :: 0 <= j < |d| ==> d[j] == c[if j < k then j else j + 1];
  }

  lemma PushableHas(h: int -> nat, t: Table, p: Ptr, key: int)
    requires Pushable(h, t, p, key)
    ensures Inv(h, t) && |t.chains| == |t.buckets| > 0 && p !in t.heap
    ensures forall q :: q in t.heap ==> t.heap[q].key != key
  {
  }

  lemma PushedHoused(h: int -> nat, t: Table, p: Ptr, key: int, value: Value, b: nat)
    requires Pushable(h, t, p, key) && b < |t.chains|
    ensures Housed(h, Pushed(t, Bucket(h, |t.chains|, key), p, key, value), b)
  {
    hide Bucket, House;
    var home := Bucket(h, |t.chains|, key);
    var t' := Pushed(t, home, p, key, value);
    assert Housed(h, t, b);
    if b != home {
      HouseFrame(h, |t.chains|, t.heap, t'.heap, t.buckets[b], t.chains[b], b);
    } else {
      HousePush(h, |t.chains|, t.heap, t.buckets[b], t.chains[b], b, p, t'.heap[p]);
    }
  }

  lemma PushedInv(h: int -> nat, t: Table, p: Ptr, key: int, value: Value)
    requires Pushable(h, t, p, key)
    ensures Inv(h, Pushed(t, Bucket(h, |t.chains|, key), p, key, value))
  {
    hide Bucket, Housed;
    var home := Bucket(h, |t.chains|, key);
    var t' := Pushed(t, home, p, key, value);
    forall b: nat | b < |t.chains| ensures Housed(h, t', b) {
      PushedHoused(h, t, p, key, value, b);
    }
    forall q | q in t'.heap ensures Located(h, t', q) {
      if q == p {
        assert t'.chains[home][0] == p;
      } else {
        assert Located(h, t, q);
        var b := Bucket(h, |t.chains|, t.heap[q].key);
        var k :| 0 <= k < |t.chains[b]| && t.chains[b][k] == q;
        assert t'.chains[b][if b == home then k + 1 else k] == q;
      }
    }
  }

  lemma StoredInv(h: int -> nat, t: Table, p: Ptr, value: Value)
    requires Inv(h, t) && p in t.heap
    ensures Inv(h, Stored(t, p, value))
  {
    hide Bucket;
    var t' := Stored(t, p, value);
    forall b: nat | b < |t.chains| ensures Housed(h, t', b) {
      assert Housed(h, t, b);
    }
    forall q | q in t'.heap ensures Located(h, t', q) {
      assert Located(h, t, q);
    }
  }

  ghost predicate Cuttable(h: int -> nat, t: Table, b: nat, k: nat) {
    && Inv(h, t) && b < |t.chains| && k < |t.chains[b]|
    && t.chains[b][k] in t.heap && (k > 0 ==> t.chains[b][k-1] in t.heap)
  }

  lemma CutHoused(h: int -> nat, t: Table, b: nat, k: nat, a: nat)
    requires Cuttable(h, t, b, k) && a < |t.chains|
    ensures Housed(h, Cut(t, b, k), a)
  {
    hide Bucket, House, Unique;
    var t' := Cut(t, b, k);
    assert Housed(h, t, a) && Housed(h, t, b);
    if a == b {
      HouseCut(h, |t.chains|, t.heap, t.buckets[b], t.chains[b], b, k);
    } else {
      CutApart(h, t, b, k);
      HouseFrame(h, |t.chains|, t.heap, t'.heap, t.buckets[a], t.chains[a], a);
    }
  }

  // A cut changes nodes of its own bucket only.
  lemma CutApart(h: int -> nat, t: Table, b: nat, k: nat)
    requires Cuttable(h, t, b, k)
    ensures forall p :: p in t.heap && Bucket(h, |t.chains|, t.heap[p].key) != b ==>
              p in Cut(t, b, k).heap && Cut(t, b, k).heap[p] == t.heap[p]
  {
    hide Bucket, Chain, Unique;
    assert Housed(h, t, b);
  }

  lemma CutInv(h: int -> nat, t: Table, b: nat, k: nat)
    requires Cuttable(h, t, b, k)
    ensures Inv(h, Cut(t, b, k))
  {
    hide Bucket;
    var t', c := Cut(t, b, k), t.chains[b];
    forall a: nat | a < |t.chains| ensures Housed(h, t', a) {
      CutHoused(h, t, b, k, a);
    }
    forall q | q in t'.heap ensures Located(h, t', q) {
      assert Located(h, t, q);
      var a := Bucket(h, |t.chains|, t.heap[q].key);
      if a == b {
        var j :| 0 <= j < |c| && c[j] == q;
        assert t'.chains[b][if j < k then j else j - 1] == q;
      }
    }
  }

  // ---------- and means a map ----------

  // A key is there exactly if some node has it.
  lemma MeansKey(t: Table, m: map<int, Value>, key: int)
    requires Means(t, m)
    ensures key in m ==> exists p :: p in t.heap && t.heap[p].key == key && t.heap[p].value == m[key]
  {
    if key in m {
      assert Holds(t, key, m[key]);
    }
  }

  // A node that is new, or given another value, adds its key and value to the map.
  lemma WrittenMeans(t: Table, t': Table, p: Ptr, m: map<int, Value>)
    requires Means(t, m) && p in t'.heap && t'.heap == t.heap[p := t'.heap[p]]
    requires p in t.heap ==> t.heap[p].key == t'.heap[p].key && KeysOk(t.heap)
    requires p !in t.heap ==> forall q :: q in t.heap ==> t.heap[q].key != t'.heap[p].key
    ensures p in t.heap <==> t'.heap[p].key in m
    ensures Means(t', m[t'.heap[p].key := t'.heap[p].value])
  {
    var key, m' := t'.heap[p].key, m[t'.heap[p].key := t'.heap[p].value];
    MeansKey(t, m, key);
    forall k | k in m' ensures Holds(t', k, m'[k]) {
      if k != key {
        assert Holds(t, k, m[k]);
        var q :| q in t.heap && t.heap[q].key == k && t.heap[q].value == m[k];
        assert t'.heap[q] == t.heap[q];
      }
    }
  }

  lemma CutMeans(h: int -> nat, t: Table, b: nat, k: nat, m: map<int, Value>)
    requires Cuttable(h, t, b, k) && Means(t, m)
    ensures Means(Cut(t, b, k), m - {t.heap[t.chains[b][k]].key})
    ensures |Cut(t, b, k).heap| == |t.heap| - 1
  {
    CutKeeps(h, t, b, k);
    var p, t' := t.chains[b][k], Cut(t, b, k);
    hide Cut, Inv, Means;
    WithoutMeans(t, t', p, m);
    assert t.heap.Keys == t'.heap.Keys + {p};
  }

  lemma WithoutMeans(t: Table, t': Table, p: Ptr, m: map<int, Value>)
    requires Means(t, m) && KeysOk(t.heap) && p in t.heap && t'.heap.Keys == t.heap.Keys - {p}
    requires forall q :: q in t'.heap ==> t'.heap[q].key == t.heap[q].key && t'.heap[q].value == t.heap[q].value
    ensures Means(t', m - {t.heap[p].key})
  {
    var key := t.heap[p].key;
    forall j | j in m && j != key ensures Holds(t', j, m[j]) {
      assert Holds(t, j, m[j]);
      var q :| q in t.heap && t.heap[q].key == j && t.heap[q].value == m[j];
      assert q in t'.heap && t'.heap[q].value == m[j];
    }
  }

  // Cutting one node leaves the keys and values of all others.
  lemma CutKeeps(h: int -> nat, t: Table, b: nat, k: nat)
    requires Cuttable(h, t, b, k)
    ensures var p, t' := t.chains[b][k], Cut(t, b, k);
            && KeysOk(t.heap)
            && t'.heap.Keys == t.heap.Keys - {p}
            && forall q :: q in t'.heap ==> t'.heap[q].key == t.heap[q].key && t'.heap[q].value == t.heap[q].value
  {
    hide Bucket, Chain;
    assert Housed(h, t, b);
  }

  // ---------- the table object ----------

  class Hash {
    const h: int -> nat
    var buckets: array<Option<Ptr>>
    var heap: map<Ptr, Node>               // the live nodes
    var active: Active
    var count: nat
    ghost var chains: seq<seq<Ptr>>
    ghost var contents: map<int, Value>    // the map the table stands for

    ghost function View(): Table
      reads this, buckets
    {
      Table(buckets[..], heap, chains)
    }

    ghost function Repr(): set<object>
      reads this, active
    {
      {this, buckets, active, active.indices, active.pos}
    }

    // The index lists the non-empty buckets.
    ghost predicate Indexed()
      reads this`buckets, this`active, buckets, active, active.indices, active.pos
    {
      && active.Valid() && active.pos.Length == buckets.Length
      && forall b :: b in active.Members() <==> 0 <= b < buckets.Length && buckets[b] != None
    }

    ghost predicate Valid()
      reads this, buckets, active, active.indices, active.pos
    {
      && Inv(h, View()) && Indexed()
      && count == |heap| && Means(View(), contents)
    }

    // xhash_create, of a size already rounded up
    constructor (hash: int -> nat, size: nat)
      requires size > 0
      ensures Valid() && fresh(Repr() - {this}) && h == hash && contents == map[] && buckets.Length == size
    {
      h := hash;
      buckets := new Option<Ptr>[size](_ => None);
      active := new Active(size);
      heap, count, chains, contents := map[], 0, seq(size, _ => []), map[];
    }

    // The walk along a chain of set, get and remove: a node, and the one that points to it.
    method Find(key: int) returns (r: Option<Ptr>, prev: Option<Ptr>, ghost k: nat)
      requires Inv(h, View())
      ensures r.Some? ==> r.value in heap && heap[r.value].key == key
      ensures r.Some? ==> At(Bucket(h, buckets.Length, key), k, r.value, prev)
      ensures r.None? ==> forall p :: p in heap ==> heap[p].key != key
    {
      hide Bucket, KeysOk;
      var b := Bucket(h, buckets.Length, key);
      ghost var c := chains[b];
      assert Housed(h, View(), b);
      var n := buckets[b];
      prev, k := None, 0;
      while n.Some?
        invariant k <= |c| && n == After(c, k) && prev == Before(c, k)
        invariant forall j :: 0 <= j < k ==> heap[c[j]].key != key
        decreases |c| - k
      {
        if heap[n.value].key == key {
          return n, prev, k;
        }
        prev := n;
        n := heap[n.value].next;
        k := k + 1;
      }
      forall p | p in heap ensures heap[p].key != key {
        assert Located(h, View(), p);
      }
      return None, prev, k;
    }

    // Node p is number k of chain b, after prev.
    ghost predicate At(b: nat, k: nat, p: Ptr, prev: Option<Ptr>)
      reads this`chains
    {
      b < |chains| && k < |chains[b]| && chains[b][k] == p && prev == Before(chains[b], k)
    }

    // xhash_get_int
    method Get(key: int) returns (v: Value)
      requires Valid()
      ensures v == if key in contents then contents[key] else NULL
    {
      hide Inv;
      var p, _, _ := Find(key);
      MeansKey(View(), contents, key);
      return if p.Some? then heap[p.value].value else NULL;
    }

    // The rest of xhash_set_int for a key that is there
    method Overwrite(p: Ptr, value: Value)
      requires Valid() && p in heap
      modifies this`heap, this`contents
      ensures Valid() && contents == old(contents)[old(heap[p].key) := value] && View() == Stored(old(View()), p, value)
    {
      hide Housed, Located, Bucket;
      StoredInv(h, View(), p, value);
      WrittenMeans(View(), Stored(View(), p, value), p, contents);
      contents := contents[heap[p].key := value];
      heap := heap[p := heap[p].(value := value)];
    }

    // A new head for a chain; its bucket is listed if it was empty.
    method Fill(b: nat, p: Ptr)
      requires Indexed() && b < buckets.Length
      modifies buckets, active, active.indices, active.pos
      ensures Indexed() && buckets == old(buckets) && active == old(active)
      ensures buckets[..] == old(buckets[..])[b := Some(p)]
    {
      if buckets[b] == None {
        active.Add(b);
      }
      buckets[b] := Some(p);
    }

    // Another head for a non-empty chain; its bucket is no longer listed if there is none.
    method Drain(b: nat, next: Option<Ptr>)
      requires Indexed() && b < buckets.Length && buckets[b] != None
      modifies buckets, active, active.indices, active.pos
      ensures Indexed() && buckets == old(buckets) && active == old(active)
      ensures buckets[..] == old(buckets[..])[b := next]
      ensures next.Some? ==> active.pos[..] == old(active.pos[..]) && active.count == old(active.count)
      ensures next.None? ==> active.count == old(active.count) - 1
      ensures next.None? ==> Swapped(old(active.pos[..]), active.pos[..], b, old(active.count) - 1)
    {
      buckets[b] := next;
      if next == None {
        active.Remove(b);
      }
    }

    // The rest of xhash_set_int for a new key, before the growth
    method Insert(key: int, value: Value, p: Ptr)
      requires Valid() && Pushable(h, View(), p, key)
      modifies this, buckets, active, active.indices, active.pos
      ensures Valid() && buckets == old(buckets) && active == old(active)
      ensures contents == old(contents)[key := value] && key !in old(contents)
      ensures count == old(count) + 1
    {
      hide Inv, Means, Bucket, KeysOk, Indexed;
      PushableHas(h, View(), p, key);
      var b := Bucket(h, buckets.Length, key);
      ghost var t' := Pushed(View(), b, p, key, value);
      PushedInv(h, View(), p, key, value);
      WrittenMeans(View(), t', p, contents);
      heap := heap[p := Node(key, value, buckets[b])];
      Fill(b, p);
      count := count + 1;
      chains, contents := t'.chains, contents[key := value];
      assert View() == t';
    }

    // The rest of xhash_remove_int for a key that is there
    method Detach(p: Ptr, prev: Option<Ptr>, ghost k: nat)
      requires Valid() && p in heap && At(Bucket(h, buckets.Length, heap[p].key), k, p, prev)
      modifies this, buckets, active, active.indices, active.pos
      ensures Valid() && buckets == old(buckets) && active == old(active)
      ensures Cuttable(h, old(View()), Bucket(h, buckets.Length, old(heap[p].key)), k)
      ensures View() == Cut(old(View()), Bucket(h, buckets.Length, old(heap[p].key)), k)
      ensures contents == old(contents) - {old(heap[p].key)}
      ensures IndexAfter(old(active.pos[..]), old(active.count), active.pos[..], active.count,
                         Bucket(h, buckets.Length, old(heap[p].key)), buckets[..])
    {
      hide Inv, Means, Bucket, KeysOk, Indexed, House;
      var b := Bucket(h, buckets.Length, heap[p].key);
      ghost var t := View();
      AtCuttable(h, t, b, k);
      CutInv(h, t, b, k);
      CutMeans(h, t, b, k, contents);
      var next := heap[p].next;
      contents := contents - {heap[p].key};
      match prev {
        case None =>
          heap := heap - {p};
          Drain(b, next);
        case Some(q) =>
          heap := heap[q := heap[q].(next := next)] - {p};
      }
      count := count - 1;
      chains := Cut(t, b, k).chains;
      assert View() == Cut(t, b, k);
    }

    // xhash_remove_int
    method Remove(key: int) returns (ok: bool, ghost k: nat)
      requires Valid()
      modifies this, buckets, active, active.indices, active.pos
      ensures Valid() && buckets == old(buckets) && active == old(active)
      ensures ok == (key in old(contents)) && contents == old(contents) - {key}
      ensures !ok ==> View() == old(View())
      ensures ok ==> CutFor(h, old(View()), key, k, View())
      ensures ok ==> IndexAfter(old(active.pos[..]), old(active.count), active.pos[..], active.count,
                                Bucket(h, buckets.Length, key), buckets[..])
    {
      hide Inv, Means, Bucket, Indexed, Cut, Cuttable;
      InvHas(h, View());
      var p, prev;
      p, prev, k := Find(key);
      MeansKey(View(), contents, key);
      if p.None? {
        return false, k;
      }
      MeansHas(View(), contents, p.value);
      Detach(p.value, prev, k);
      return true, k;
    }

    // xhash_set_int for a key that is there
    method Put(key: int, value: Value) returns (ok: bool, ghost p: Ptr)
      requires Valid() && key in contents
      modifies this`heap, this`contents
      ensures Valid() && ok && contents == old(contents)[key := value]
      ensures p in old(heap) && old(heap[p].key) == key && View() == Stored(old(View()), p, value)
    {
      hide Inv, Means, Bucket, Indexed, Stored;
      var r, _, _ := Find(key);
      MeansKey(View(), contents, key);
      Overwrite(r.value, value);
      return true, r.value;
    }

    // xhash_resize to a size already rounded up: the nodes move one by one to the front of their new
    // chains.
    method Resize(size: nat) returns (ok: bool)
      requires Valid() && size > 0
      modifies this
      ensures Valid() && contents == old(contents) && ((buckets == old(buckets) && active == old(active)) || fresh(Repr() - {this}))
      ensures ok == (size != old(buckets.Length)) && buckets.Length == size && count == old(count)
    {
      hide Inv, Means, Inverse, Listed;
      if size == buckets.Length {
        return false;
      }
      var nb := MoveAll(size);
      ghost var t := Table(nb[..], heap, chains);
      var index := IndexAll(nb);
      buckets, active := nb, index;
      assert View() == t;
      return true;
    }

    // The migration loop of xhash_resize
    method MoveAll(size: nat) returns (nb: array<Option<Ptr>>)
      requires Valid() && size > 0
      modifies this`heap, this`chains
      ensures fresh(nb) && nb.Length == size
      ensures var t := Table(nb[..], heap, chains); Inv(h, t) && Means(t, contents)
      ensures |heap| == |old(heap)|
    {
      hide Inv, Means, Bucket, KeysOk, Pushed, Moving, Passing, Passed, House;
      ghost var t0, pos, seen: set<int> := View(), active.pos[..], {};
      InvHas(h, t0);
      nb := new Option<Ptr>[size](_ => None);
      ghost var nt := Table(nb[..], map[], seq(size, _ => []));
      IndexView();
      MoveStart(h, t0, active.indices[..], pos, active.count, nt);
      var i := 0;
      while i < active.count
        invariant 0 <= i <= active.count && nb[..] == nt.buckets && nb.Length == size
        invariant Moving(h, t0, nt, heap, seen) && Passed(h, t0, pos, i, seen)
      {
        var idx := active.indices[i];
        var n := buckets[idx];
        ghost var j := 0;
        HeadIs(h, t0, idx);
        EnterChain(h, t0, pos, i, idx, seen);
        while n.Some?
          invariant nb[..] == nt.buckets && nb.Length == size
          invariant Moving(h, t0, nt, heap, seen) && Passing(h, t0, pos, i, idx, j, seen)
          invariant idx < |t0.chains| && j <= |t0.chains[idx]| && n == After(t0.chains[idx], j)
          decreases |t0.chains[idx]| - j
        {
          var p := n.value;
          StepChain(h, t0, pos, i, idx, j, seen);
          MoveStep(h, t0, nt, heap, seen, p);
          var node := heap[p];
          var ni := Bucket(h, size, node.key);
          heap := heap[p := node.(next := nb[ni])];
          nb[ni] := Some(p);
          PushedBuckets(nt, ni, p, node.key, node.value);
          nt := Pushed(nt, ni, p, node.key, node.value);
          n, j, seen := node.next, j + 1, seen + {node.key};
        }
        LeaveChain(h, t0, active.indices[..], pos, active.count, i, idx, seen);
        i := i + 1;
      }
      AllPassed(h, t0, active.indices[..], pos, active.count, seen);
      MoveEnd(h, t0, nt, heap, seen, contents);
      chains := nt.chains;
      assert Table(nb[..], heap, chains) == nt;
    }

    // The active index of a new bucket array
    method IndexAll(nb: array<Option<Ptr>>) returns (a: Active)
      ensures fresh(a) && fresh(a.indices) && fresh(a.pos) && a.Valid() && a.pos.Length == nb.Length
      ensures forall b :: b in a.Members() <==> 0 <= b < nb.Length && nb[b] != None
    {
      a := new Active(nb.Length);
      for i := 0 to nb.Length
        invariant fresh(a) && fresh(a.indices) && fresh(a.pos) && a.Valid() && a.pos.Length == nb.Length
        invariant forall b :: b in a.Members() <==> 0 <= b < i && nb[b] != None
      {
        if nb[i] != None {
          a.Add(i);
        }
      }
    }

    lemma IndexView()
      requires Indexed()
      ensures Index(View(), active.indices[..], active.pos[..], active.count)
    {
      forall b | 0 <= b < buckets.Length ensures active.pos[b] >= 0 <==> buckets[b] != None {
        assert b in active.Members() <==> active.pos[b] >= 0;
      }
    }

    // The part of xhash_set_int for a new key.  The table doubles when it is full.
    method Add(key: int, value: Value, addr: Ptr)
      requires Valid() && Pushable(h, View(), addr, key)
      modifies this, buckets, active, active.indices, active.pos
      ensures Valid() && contents == old(contents)[key := value]
      ensures (buckets == old(buckets) && active == old(active)) || fresh(Repr() - {this})
      ensures count == old(count) + 1
      ensures buckets.Length == if count < old(buckets.Length) then old(buckets.Length) else 2 * old(buckets.Length)
    {
      hide Inv, Means, Bucket, Indexed, House, Pushable;
      Insert(key, value, addr);
      if count >= buckets.Length {
        InvHas(h, View());
        var _ := Resize(buckets.Length * 2);
      }
    }

    // xhash_set_int; malloc fails where `addr` is in use.
    method Set(key: int, value: Value, addr: Ptr) returns (ok: bool)
      requires Valid()
      modifies this, buckets, active, active.indices, active.pos
      ensures Valid() && ok == (key in old(contents) || addr !in old(heap))
      ensures contents == if ok then old(contents)[key := value] else old(contents)
      ensures (buckets == old(buckets) && active == old(active)) || fresh(Repr() - {this})
      ensures count == old(count) + (if ok && key !in old(contents) then 1 else 0)
      ensures buckets.Length == if count == old(count) || count < old(buckets.Length) then old(buckets.Length)
                                else 2 * old(buckets.Length)
      ensures old(count) < old(buckets.Length) ==> count < buckets.Length
    {
      hide Inv, Means, Bucket, Indexed, House;
      MeansKey(View(), contents, key);
      var p, _, _ := Find(key);
      if p.Some? {
        MeansHas(View(), contents, p.value);
        Overwrite(p.value, value);
        return true;
      }
      if addr in heap {
        return false;
      }
      Add(key, value, addr);
      return true;
    }

    // What a callback of xhash_foreach does to the key it is given.
    method Apply(e: Effect, key: int, ghost i: nat, ghost b: nat, ghost j: nat, ghost seen: set<int>)
      requires Valid() && Walking(i, b, j, seen) && b < |chains| == active.pos.Length
      requires active.pos[b] == i && j < |chains[b]|
      requires chains[b][j] in heap && heap[chains[b][j]].key == key
      modifies this, buckets, active, active.indices, active.pos
      ensures Valid() && buckets == old(buckets) && active == old(active) && key in old(contents)
      ensures contents == Effected(old(contents), key, e)
      ensures b < |chains| == active.pos.Length && (if e == Drop then j else j + 1) <= |chains[b]|
      ensures Walking(i, b, if e == Drop then j else j + 1, seen + {key})
      ensures After(chains[b], if e == Drop then j else j + 1) == old(After(chains[b], j + 1))
      ensures |chains[b]| - (if e == Drop then j else j + 1) < old(|chains[b]|) - j
      ensures if chains[b] != [] then active.pos[b] == i && active.count == old(active.count)
              else active.pos[b] == -1 && active.count == old(active.count) - 1
    {
      hide Inv, Means, Bucket, Passing, Cut, Stored, IndexAfter, House, Indexed, Cuttable;
      ghost var t, list, pos := View(), active.indices[..], active.pos[..];
      IndexView();
      MeansHas(t, contents, chains[b][j]);
      NodeAt(h, t, b, j);
      StepChain(h, t, pos, i, b, j, seen);
      match e {
        case Keep =>
        case Store(v) =>
          var _, p := Put(key, v);
          StoreWalk(h, t, pos, i, b, j + 1, seen + {key}, p, v);
        case Drop =>
          var _, k := Remove(key);
          CutOnly(h, t, b, j, k, key, View());
          CutShape(h, t, b, j);
          CutWalk(h, t, list, pos, old(active.count), active.pos[..], active.count, i, b, j, seen);
      }
    }

    ghost predicate Walking(i: int, b: nat, j: nat, seen: set<int>)
      reads this, buckets, active, active.pos
    {
      Passing(h, View(), active.pos[..], i, b, j, seen)
    }

    // The visits so far, and what they made of `m`.
    ghost predicate Logs(m: map<int, Value>, cb: Callback, log: seq<(int, Value)>)
      reads this
    {
      Logged(m, log) && contents == Changed(m, cb, KeysOf(log))
    }

    // The walk along one chain of xhash_foreach
    method Walk(cb: Callback, i: nat, idx: nat, ghost m: map<int, Value>, ghost before: seq<(int, Value)>)
      returns (go: bool, ghost log: seq<(int, Value)>)
      requires Valid() && idx < |chains| == active.pos.Length && active.pos[idx] == i && chains[idx] != []
      requires Logs(m, cb, before) && AllGo(cb, before)
      requires Passed(h, View(), active.pos[..], i, KeysOf(before))
      modifies this, buckets, active, active.indices, active.pos
      ensures Valid() && buckets == old(buckets) && active == old(active) && Logs(m, cb, log)
      ensures if go then AllGo(cb, log) else Stopped(cb, log)
      ensures go ==> idx < |chains| == active.pos.Length && Walking(i, idx, |chains[idx]|, KeysOf(log))
      ensures go ==> if chains[idx] != [] then active.pos[idx] == i && active.count == old(active.count)
                     else active.pos[idx] == -1 && active.count == old(active.count) - 1
    {
      hide Inv, Means, Bucket, Passing, Passed, House, Changed, Logged, KeysOf, Indexed;
      log := before;
      InvHas(h, View());
      var n := buckets[idx];
      ghost var j := 0;
      HeadIs(h, View(), idx);
      EnterChain(h, View(), active.pos[..], i, idx, KeysOf(log));
      while n.Some?
        invariant Valid() && buckets == old(buckets) && active == old(active) && Logs(m, cb, log) && AllGo(cb, log)
        invariant idx < |chains| == active.pos.Length && j <= |chains[idx]| && n == After(chains[idx], j)
        invariant Walking(i, idx, j, KeysOf(log))
        invariant if chains[idx] != [] then active.pos[idx] == i && active.count == old(active.count)
                  else active.pos[idx] == -1 && active.count == old(active.count) - 1
        decreases |chains[idx]| - j
      {
        NodeAt(h, View(), idx, j);
        var next, key, value := heap[n.value].next, heap[n.value].key, heap[n.value].value;
        StepChain(h, View(), active.pos[..], i, idx, j, KeysOf(log));
        MeansHas(View(), contents, n.value);
        LogStep(m, cb, log, key, value);
        var r := cb(key, value);
        Apply(r.0, key, i, idx, j, KeysOf(log));
        log := log + [(key, value)];
        j := if r.0 == Drop then j else j + 1;
        if !r.1 {
          return false, log;
        }
        n := next;
      }
      return true, log;
    }

    // One bucket of xhash_foreach.  Its position is left only if it has not been given to another.
    method WalkBucket(cb: Callback, i: nat, ghost m: map<int, Value>, ghost before: seq<(int, Value)>)
      returns (go: bool, next: nat, ghost log: seq<(int, Value)>)
      requires Valid() && i < active.count && Logs(m, cb, before) && AllGo(cb, before)
      requires Passed(h, View(), active.pos[..], i, KeysOf(before))
      modifies this, buckets, active, active.indices, active.pos
      ensures Valid() && buckets == old(buckets) && active == old(active) && Logs(m, cb, log)
      ensures if go then AllGo(cb, log) else Stopped(cb, log)
      ensures go ==> Passed(h, View(), active.pos[..], next, KeysOf(log))
      ensures go ==> next <= active.count && active.count - next < old(active.count) - i
    {
      hide Inv, Means, Bucket, Passing, Passed, House, Logs, KeysOf, AllGo, Stopped;
      var idx := active.indices[i];
      IndexView();
      InvHas(h, View());
      HeadIs(h, View(), idx);
      go, log := Walk(cb, i, idx, m, before);
      next := i;
      if go {
        IndexView();
        LeaveChain(h, View(), active.indices[..], active.pos[..], active.count, i, idx, KeysOf(log));
        if i < active.count && active.indices[i] == idx {
          next := i + 1;
        }
      }
    }

    // xhash_foreach.  Every key is visited once, with the value it had, even if the callback removes
    // or changes the key it is given; the walk ends early when a callback says so.
    method Foreach(cb: Callback) returns (all: bool, ghost log: seq<(int, Value)>)
      requires Valid()
      modifies this, buckets, active, active.indices, active.pos
      ensures Valid() && buckets == old(buckets) && active == old(active)
      ensures Logged(old(contents), log) && contents == Changed(old(contents), cb, KeysOf(log))
      ensures if all then AllGo(cb, log) && KeysOf(log) == old(contents).Keys else Stopped(cb, log)
    {
      hide Inv, Means, Bucket, Passing, Passed, House, Changed, Logged, KeysOf, Indexed;
      ghost var m := contents;
      log := [];
      LogStart(m, cb);
      IndexView();
      WalkStart(h, View(), active.indices[..], active.pos[..], active.count);
      var i := 0;
      while i < active.count
        invariant Valid() && buckets == old(buckets) && active == old(active) && 0 <= i <= active.count
        invariant Logs(m, cb, log) && AllGo(cb, log)
        invariant Passed(h, View(), active.pos[..], i, KeysOf(log))
        decreases active.count - i
      {
        var go;
        go, i, log := WalkBucket(cb, i, m, log);
        if !go {
          return false, log;
        }
      }
      IndexView();
      AllPassed(h, View(), active.indices[..], active.pos[..], active.count, KeysOf(log));
      LogEnd(View(), m, cb, log, contents);
      return true, log;
    }
  }

  // A callback of xhash_foreach: what it does, and whether the walk goes on.
  type Callback = (int, Value) -> (Effect, bool)

  ghost predicate AllGo(cb: Callback, log: seq<(int, Value)>) {
    forall k :: 0 <= k < |log| ==> cb(log[k].0, log[k].1).1
  }

  // Only the last visit ended the walk.
  ghost predicate Stopped(cb: Callback, log: seq<(int, Value)>) {
    log != [] && AllGo(cb, log[..|log|-1]) && !cb(log[|log|-1].0, log[|log|-1].1).1
  }

  // What a callback does to the key it is given.
  datatype Effect = Keep | Store(value: Value) | Drop

  function Effected(m: map<int, Value>, key: int, e: Effect): map<int, Value> {
    match e
    case Keep => m
    case Store(v) => m[key := v]
    case Drop => m - {key}
  }

  // The map after the callbacks for the keys in `seen`.
  ghost function Changed(m: map<int, Value>, cb: Callback, seen: set<int>): map<int, Value> {
    map key | key in m && !(key in seen && cb(key, m[key]).0 == Drop) ::
      if key in seen && cb(key, m[key]).0.Store? then cb(key, m[key]).0.value else m[key]
  }

  ghost function KeysOf(log: seq<(int, Value)>): set<int> {
    set k | 0 <= k < |log| :: log[k].0
  }

  // A log of visits: each key once, with its value.
  ghost predicate Logged(m: map<int, Value>, log: seq<(int, Value)>) {
    && (forall k :: 0 <= k < |log| ==> log[k].0 in m && log[k].1 == m[log[k].0])
    && (forall a, b :: 0 <= a < b < |log| ==> log[a].0 != log[b].0)
  }

  lemma LogStart(m: map<int, Value>, cb: Callback)
    ensures Logged(m, []) && Changed(m, cb, KeysOf([])) == m
  {
  }

  lemma LogStep(m: map<int, Value>, cb: Callback, log: seq<(int, Value)>, key: int, value: Value)
    requires Logged(m, log) && key !in KeysOf(log)
    requires var c := Changed(m, cb, KeysOf(log)); key in c && c[key] == value
    ensures var log' := log + [(key, value)];
            && Logged(m, log') && KeysOf(log') == KeysOf(log) + {key}
            && Changed(m, cb, KeysOf(log')) == Effected(Changed(m, cb, KeysOf(log)), key, cb(key, value).0)
  {
    var log' := log + [(key, value)];
    forall k | 0 <= k < |log| ensures log[k].0 in KeysOf(log) && log'[k] == log[k] {
    }
    assert log'[|log|].0 == key;
    assert KeysOf(log') == KeysOf(log) + {key} by {
      forall x | x in KeysOf(log) + {key} ensures x in KeysOf(log') {
        if x in KeysOf(log) {
          var k :| 0 <= k < |log| && log[k].0 == x;
          assert log'[k].0 == x;
        }
      }
    }
  }

  lemma LogEnd(t: Table, m: map<int, Value>, cb: Callback, log: seq<(int, Value)>, now: map<int, Value>)
    requires Logged(m, log) && now == Changed(m, cb, KeysOf(log)) && Means(t, now)
    requires forall p :: p in t.heap ==> t.heap[p].key in KeysOf(log)
    ensures KeysOf(log) == m.Keys
  {
    forall key | key in m ensures key in KeysOf(log) {
      if key in now {
        MeansKey(t, now, key);
      }
    }
  }

  lemma WalkStart(h: int -> nat, t: Table, list: seq<int>, pos: seq<int>, count: nat)
    requires Inv(h, t) && Index(t, list, pos, count)
    ensures Passed(h, t, pos, 0, KeysOf([]))
  {
    hide Bucket;
    forall p | p in t.heap ensures pos[Bucket(h, |t.chains|, t.heap[p].key)] >= 0 {
      assert Located(h, t, p) && Housed(h, t, Bucket(h, |t.chains|, t.heap[p].key));
    }
  }

  lemma StoreWalk(h: int -> nat, t: Table, pos: seq<int>, i: nat, b: nat, j: nat, seen: set<int>, p: Ptr, value: Value)
    requires Passing(h, t, pos, i, b, j, seen) && p in t.heap
    ensures Passing(h, Stored(t, p, value), pos, i, b, j, seen)
  {
    hide Bucket;
  }

  // The node with the key of node j is node j.
  lemma CutOnly(h: int -> nat, t: Table, b: nat, j: nat, k: nat, key: int, t': Table)
    requires Inv(h, t) && b < |t.chains| && j < |t.chains[b]|
    requires t.chains[b][j] in t.heap && t.heap[t.chains[b][j]].key == key && CutFor(h, t, key, k, t')
    ensures Cuttable(h, t, b, j) && b < |t.buckets| == |t.chains| && t' == Cut(t, b, j)
  {
    hide Bucket;
    assert Housed(h, t, b);
    NodeAt(h, t, b, j);
    NodeAt(h, t, b, k);
  }

  lemma CutShape(h: int -> nat, t: Table, b: nat, j: nat)
    requires Cuttable(h, t, b, j) && b < |t.buckets| == |t.chains|
    ensures |Cut(t, b, j).chains| == |t.chains| && |Cut(t, b, j).chains[b]| == |t.chains[b]| - 1
  {
  }

  // Removing the node just visited leaves the walk where it was.
  lemma CutWalk(h: int -> nat, t: Table, list: seq<int>, pos: seq<int>, n: nat, pos': seq<int>, n': nat,
                i: nat, b: nat, j: nat, seen: set<int>)
    requires Cuttable(h, t, b, j) && b < |t.buckets| == |t.chains| && Index(t, list, pos, n)
    requires Passing(h, t, pos, i, b, j, seen) && pos[b] == i
    requires IndexAfter(pos, n, pos', n', b, Cut(t, b, j).buckets)
    ensures var t' := Cut(t, b, j);
            && Passing(h, t', pos', i, b, j, seen + {t.heap[t.chains[b][j]].key})
            && After(t'.chains[b], j) == After(t.chains[b], j + 1)
            && if t'.chains[b] != [] then pos'[b] == i && n' == n else pos'[b] == -1 && n' == n - 1
  {
    hide Bucket, Inv, Housed, House, Passing;
    var t', c := Cut(t, b, j), t.chains[b];
    CutInv(h, t, b, j);
    HeadIs(h, t', b);
    assert t'.chains[b][..j] == c[..j];
    CutPassing(h, t, list, pos, n, pos', n', i, b, j, seen);
  }

  lemma CutPassing(h: int -> nat, t: Table, list: seq<int>, pos: seq<int>, n: nat, pos': seq<int>, n': nat,
                   i: nat, b: nat, j: nat, seen: set<int>)
    requires Cuttable(h, t, b, j) && b < |t.buckets| == |t.chains| && Index(t, list, pos, n)
    requires Passing(h, t, pos, i, b, j, seen) && pos[b] == i
    requires IndexAfter(pos, n, pos', n', b, Cut(t, b, j).buckets)
    ensures Passing(h, Cut(t, b, j), pos', i, b, j, seen + {t.heap[t.chains[b][j]].key})
  {
    hide Inv, Housed, House, Bucket, Inverse;
    var p, c, t' := t.chains[b][j], t.chains[b], Cut(t, b, j);
    NodeAt(h, t, b, j);
    CutKeeps(h, t, b, j);
    CutInv(h, t, b, j);
    assert t'.chains[b][..j] == c[..j];
    forall q | q in t'.heap
      ensures var x := Bucket(h, |t.chains|, t.heap[q].key);
              t.heap[q].key in seen + {t.heap[p].key} <==> pos'[x] < i || (x == b && q in c[..j])
    {
      BucketUsed(h, t', q);
      SwapKeeps(list, pos, n, pos', n', t'.buckets, i, b, Bucket(h, |t.chains|, t.heap[q].key));
    }
  }

  lemma BucketUsed(h: int -> nat, t: Table, p: Ptr)
    requires Inv(h, t) && p in t.heap
    ensures |t.chains| == |t.buckets| > 0 && t.buckets[Bucket(h, |t.chains|, t.heap[p].key)].Some?
  {
    hide Bucket;
    assert Located(h, t, p) && Housed(h, t, Bucket(h, |t.chains|, t.heap[p].key));
  }

  // A bucket that is still in use is before position i exactly if it was.
  lemma SwapKeeps(list: seq<int>, pos: seq<int>, n: nat, pos': seq<int>, n': nat, heads: seq<Option<Ptr>>,
                  i: nat, b: nat, x: nat)
    requires Inverse(list, pos, n) && |pos| == |heads| && b < |pos| && x < |pos| && pos[b] == i
    requires IndexAfter(pos, n, pos', n', b, heads) && heads[x].Some?
    ensures x < |pos'| && (pos'[x] < i <==> pos[x] < i)
  {
  }

  // ---------- walks over all chains ----------

  // The buckets at positions below i have been passed: `seen` holds exactly their keys.
  ghost predicate Passed(h: int -> nat, t: Table, pos: seq<int>, i: int, seen: set<int>) {
    && |pos| == |t.chains| > 0
    && forall p :: p in t.heap ==>
         (t.heap[p].key in seen <==> pos[Bucket(h, |t.chains|, t.heap[p].key)] < i)
  }

  // And so have the first j nodes of bucket b.
  ghost predicate Passing(h: int -> nat, t: Table, pos: seq<int>, i: int, b: nat, j: nat, seen: set<int>) {
    && |pos| == |t.chains| > 0 && b < |t.chains| && j <= |t.chains[b]|
    && forall p :: p in t.heap ==>
         var x := Bucket(h, |t.chains|, t.heap[p].key);
         t.heap[p].key in seen <==> pos[x] < i || (x == b && p in t.chains[b][..j])
  }

  // The active index, on values.
  ghost predicate Index(t: Table, list: seq<int>, pos: seq<int>, count: nat) {
    && Inverse(list, pos, count) && |pos| == |t.buckets|
    && forall b :: 0 <= b < |pos| ==> (pos[b] >= 0 <==> t.buckets[b] != None)
  }

  lemma EnterChain(h: int -> nat, t: Table, pos: seq<int>, i: nat, b: nat, seen: set<int>)
    requires Passed(h, t, pos, i, seen) && b < |t.chains|
    ensures Passing(h, t, pos, i, b, 0, seen)
  {
    hide Bucket;
  }

  lemma HeadIs(h: int -> nat, t: Table, b: nat)
    requires Inv(h, t) && b < |t.chains|
    ensures |t.chains| == |t.buckets| && t.buckets[b] == After(t.chains[b], 0)
  {
    assert Housed(h, t, b);
  }

  lemma InvHas(h: int -> nat, t: Table)
    requires Inv(h, t)
    ensures |t.chains| == |t.buckets| > 0
  {
  }

  lemma PushedBuckets(t: Table, b: nat, p: Ptr, key: int, value: Value)
    requires b < |t.buckets| == |t.chains|
    ensures Pushed(t, b, p, key, value).buckets == t.buckets[b := Some(p)]
  {
  }

  // Node j of chain b: no other node has its key.
  lemma NodeAt(h: int -> nat, t: Table, b: nat, j: nat)
    requires Inv(h, t) && b < |t.chains| && j < |t.chains[b]|
    ensures var c := t.chains[b]; var p := c[j];
            && p in t.heap && t.heap[p].next == After(c, j + 1)
            && Bucket(h, |t.chains|, t.heap[p].key) == b && p !in c[..j]
            && forall q :: q in t.heap && t.heap[q].key == t.heap[p].key ==> q == p
  {
    hide Bucket;
    assert Housed(h, t, b);
  }

  lemma StepChain(h: int -> nat, t: Table, pos: seq<int>, i: nat, b: nat, j: nat, seen: set<int>)
    requires Inv(h, t) && Passing(h, t, pos, i, b, j, seen) && pos[b] >= i && j < |t.chains[b]|
    ensures var p := t.chains[b][j];
            && p in t.heap && t.heap[p].key !in seen && t.heap[p].next == After(t.chains[b], j + 1)
            && Passing(h, t, pos, i, b, j + 1, seen + {t.heap[p].key})
  {
    hide Bucket, Inv;
    NodeAt(h, t, b, j);
    var c := t.chains[b];
    assert c[..j+1] == c[..j] + [c[j]];
  }

  lemma LeaveChain(h: int -> nat, t: Table, list: seq<int>, pos: seq<int>, count: nat, i: nat, b: nat, seen: set<int>)
    requires Inv(h, t) && Index(t, list, pos, count) && b < |t.chains|
    requires Passing(h, t, pos, i, b, |t.chains[b]|, seen)
    ensures pos[b] == i ==> Passed(h, t, pos, i + 1, seen)
    ensures t.chains[b] == [] ==> Passed(h, t, pos, i, seen)
  {
    forall p | p in t.heap
      ensures p in t.chains[b] <==> Bucket(h, |t.chains|, t.heap[p].key) == b
    {
      InItsChain(h, t, b, p);
    }
    HeadIs(h, t, b);
    hide Bucket, Inv;
    assert t.chains[b][..|t.chains[b]|] == t.chains[b];
    assert forall x :: 0 <= x < |pos| && x != b && pos[b] == i ==> pos[x] != i;
  }

  lemma InItsChain(h: int -> nat, t: Table, b: nat, p: Ptr)
    requires Inv(h, t) && b < |t.chains| && p in t.heap
    ensures p in t.chains[b] <==> Bucket(h, |t.chains|, t.heap[p].key) == b
  {
    hide Bucket, KeysOk, Chain, Unique;
    assert Located(h, t, p) && Housed(h, t, b);
  }

  // When all positions have been passed, every key has been seen.
  lemma AllPassed(h: int -> nat, t: Table, list: seq<int>, pos: seq<int>, count: nat, seen: set<int>)
    requires Inv(h, t) && Index(t, list, pos, count) && Passed(h, t, pos, count, seen)
    ensures forall p :: p in t.heap ==> t.heap[p].key in seen
  {
    hide Bucket;
    forall p | p in t.heap ensures t.heap[p].key in seen {
      assert Located(h, t, p);
      assert Housed(h, t, Bucket(h, |t.chains|, t.heap[p].key));
    }
  }

  // ---------- the migration of a resize ----------

  // Nodes whose key is in `seen` are linked into the new table, the others as they were.
  ghost predicate Moving(h: int -> nat, t: Table, nt: Table, heap: map<Ptr, Node>, seen: set<int>) {
    && Inv(h, nt) && KeysOk(t.heap) && heap.Keys == t.heap.Keys && nt.heap.Keys <= t.heap.Keys
    && forall p :: p in t.heap ==>
         && (p in nt.heap <==> t.heap[p].key in seen)
         && heap[p] == (if p in nt.heap then nt.heap[p] else t.heap[p])
         && heap[p].(next := None) == t.heap[p].(next := None)
  }

  lemma MoveStart(h: int -> nat, t: Table, list: seq<int>, pos: seq<int>, count: nat, nt: Table)
    requires Inv(h, t) && Index(t, list, pos, count)
    requires nt.heap == map[] && |nt.chains| == |nt.buckets| > 0
    requires forall b :: 0 <= b < |nt.chains| ==> nt.chains[b] == [] && nt.buckets[b] == None
    ensures Moving(h, t, nt, t.heap, {}) && Passed(h, t, pos, 0, {})
  {
    hide Bucket;
    forall p | p in t.heap ensures pos[Bucket(h, |t.chains|, t.heap[p].key)] >= 0 {
      assert Located(h, t, p) && Housed(h, t, Bucket(h, |t.chains|, t.heap[p].key));
    }
  }

  lemma MoveStep(h: int -> nat, t: Table, nt: Table, heap: map<Ptr, Node>, seen: set<int>, p: Ptr)
    requires Moving(h, t, nt, heap, seen) && p in t.heap && t.heap[p].key !in seen
    ensures p in heap && heap[p] == t.heap[p] && |nt.chains| == |nt.buckets| > 0
    ensures var key := t.heap[p].key;
            var b := Bucket(h, |nt.chains|, key);
            Moving(h, t, Pushed(nt, b, p, key, t.heap[p].value), heap[p := heap[p].(next := nt.buckets[b])], seen + {key})
  {
    hide Bucket, Housed, Located;
    var key := t.heap[p].key;
    PushedInv(h, nt, p, key, t.heap[p].value);
  }

  lemma MoveEnd(h: int -> nat, t: Table, nt: Table, heap: map<Ptr, Node>, seen: set<int>, m: map<int, Value>)
    requires Moving(h, t, nt, heap, seen) && Means(t, m)
    requires forall p :: p in t.heap ==> t.heap[p].key in seen
    ensures Inv(h, nt) && nt.heap == heap && |heap| == |t.heap| && Means(nt, m)
  {
    hide Inv, KeysOk;
    assert |heap| == |heap.Keys| && |t.heap| == |t.heap.Keys|;
    forall key | key in m ensures Holds(nt, key, m[key]) {
      assert Holds(t, key, m[key]);
      var p :| p in t.heap && t.heap[p].key == key && t.heap[p].value == m[key];
      assert nt.heap[p].key == key;
    }
  }

  // A node with this key has been cut out.
  ghost predicate CutFor(h: int -> nat, t: Table, key: int, k: nat, t': Table) {
    && |t.chains| > 0
    && var b := Bucket(h, |t.chains|, key);
       Cuttable(h, t, b, k) && |t.buckets| == |t.chains| && t.heap[t.chains[b][k]].key == key && t' == Cut(t, b, k)
  }

  lemma MeansHas(t: Table, m: map<int, Value>, p: Ptr)
    requires Means(t, m) && p in t.heap
    ensures t.heap[p].key in m && m[t.heap[p].key] == t.heap[p].value
  {
  }

  // The first node of a chain is the head of its bucket; the others have a node before them.
  lemma AtCuttable(h: int -> nat, t: Table, b: nat, k: nat)
    requires Inv(h, t) && b < |t.chains| && k < |t.chains[b]|
    ensures Cuttable(h, t, b, k) && b < |t.buckets| == |t.chains|
    ensures t.buckets[b] == Some(t.chains[b][0])
  {
    assert Housed(h, t, b);
  }

  // How the active index changes when a node of bucket b has gone.
  ghost predicate IndexAfter(a: seq<int>, n: nat, a': seq<int>, n': nat, b: nat, heads: seq<Option<Ptr>>) {
    b < |heads| &&
    if heads[b].Some? then a' == a && n' == n else n' == n - 1 && Swapped(a, a', b, n - 1)
  }

  // The bucket at the last position has taken the position of b.
  ghost predicate Swapped(a: seq<int>, a': seq<int>, b: nat, last: int) {
    && b < |a| == |a'| && a'[b] == -1
    && forall x :: 0 <= x < |a| && x != b ==> a'[x] == if a[x] == last then a[b] else a[x]
  }
}
