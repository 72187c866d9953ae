/**
 One shard of xshared.c at the level of its pointers: bucket chains through `hnext`, the LRU
 list through `prev` and `next`, a byte counter and lazy expiry.  Each operation is proved to do
 to the recency-ordered list of module SharedSpec what its specification there says.
 */
module SharedShard {
  import opened Common
  import opened SharedSpec

  type Addr = nat

  datatype Ptr = Null | At(a: Addr)

  // The part of an entry that is not a link.
  datatype Info = Info(hash: nat, item: Item)

  // ---------- linked lists as sequences ----------

  function PtrAt(xs: seq<Addr>, i: int): Ptr {
    if 0 <= i < |xs| then At(xs[i]) else Null
  }

  // Following `next` from `p` spells out xs.
  ghost predicate Links(next: map<Addr, Ptr>, p: Ptr, xs: seq<Addr>) {
    p == PtrAt(xs, 0) && forall i {:trigger next[xs[i]]} {:trigger xs[i] in next} :: 0 <= i < |xs| ==> xs[i] in next && next[xs[i]] == PtrAt(xs, i + 1)
  }

  // Following `prev` from `p` spells out xs from its end.
  ghost predicate BackLinks(prev: map<Addr, Ptr>, p: Ptr, xs: seq<Addr>) {
    p == PtrAt(xs, |xs| - 1) && forall i {:trigger prev[xs[i]]} {:trigger xs[i] in prev} :: 0 <= i < |xs| ==> xs[i] in prev && prev[xs[i]] == PtrAt(xs, i - 1)
  }

  // Forwards from the head and backwards from the tail, the same list.
  ghost predicate Dll(prev: map<Addr, Ptr>, next: map<Addr, Ptr>, head: Ptr, tail: Ptr, xs: seq<Addr>) {
    Unique(xs) && Links(next, head, xs) && BackLinks(prev, tail, xs)
  }

  lemma DllUnique(prev: map<Addr, Ptr>, next: map<Addr, Ptr>, head: Ptr, tail: Ptr, xs: seq<Addr>)
    requires Dll(prev, next, head, tail, xs)
    ensures Unique(xs)
  {
  }

  lemma DllEnds(prev: map<Addr, Ptr>, next: map<Addr, Ptr>, head: Ptr, tail: Ptr, xs: seq<Addr>)
    requires Dll(prev, next, head, tail, xs)
    ensures head == PtrAt(xs, 0) && tail == PtrAt(xs, |xs| - 1)
  {
  }

  lemma RemoveAtIn(xs: seq<Addr>, k: nat)
    requires Unique(xs) && k < |xs|
    ensures Unique(RemoveAt(xs, k))
    ensures forall x :: x in RemoveAt(xs, k) <==> x in xs && x != xs[k]
  {
    var r := RemoveAt(xs, k);
    forall x | x in xs && x != xs[k]
      ensures x in r
    {
      var i :| 0 <= i < |xs| && xs[i] == x;
      assert r[if i < k then i else i - 1] == x;
    }
  }

  lemma LinksStart(next: map<Addr, Ptr>, p: Ptr, xs: seq<Addr>)
    requires Links(next, p, xs)
    ensures p == PtrAt(xs, 0)
  {
  }

  lemma LinksStep(next: map<Addr, Ptr>, p: Ptr, xs: seq<Addr>, i: nat)
    requires Links(next, p, xs) && i < |xs|
    ensures xs[i] in next && next[xs[i]] == PtrAt(xs, i + 1)
  {
  }

  lemma LinksFrame(next: map<Addr, Ptr>, p: Ptr, xs: seq<Addr>, a: Addr, v: Ptr)
    requires Links(next, p, xs) && a !in xs
    ensures Links(next[a := v], p, xs)
  {
  }

  // Taking element k out of a chain: its predecessor, or the head, is pointed past it.
  lemma LinksRemove(next: map<Addr, Ptr>, p: Ptr, xs: seq<Addr>, k: nat)
    requires Unique(xs) && Links(next, p, xs) && k < |xs|
    ensures var r := RemoveAt(xs, k);
            if k == 0 then Links(next, next[xs[0]], r) else Links(next[xs[k-1] := next[xs[k]]], p, r)
  {
    var r := RemoveAt(xs, k);
    assert forall i :: 0 <= i < |r| ==> r[i] == xs[if i < k then i else i + 1];
  }

  lemma BackLinksRemove(prev: map<Addr, Ptr>, p: Ptr, xs: seq<Addr>, k: nat)
    requires Unique(xs) && BackLinks(prev, p, xs) && k < |xs|
    ensures var r := RemoveAt(xs, k);
            if k == |xs| - 1 then BackLinks(prev, prev[xs[k]], r) else BackLinks(prev[xs[k+1] := prev[xs[k]]], p, r)
  {
    if k == |xs| - 1 {
      assert RemoveAt(xs, k) == xs[..k];
    } else {
      BackLinksRemoveInner(prev, p, xs, k);
    }
  }

  lemma BackLinksRemoveInner(prev: map<Addr, Ptr>, p: Ptr, xs: seq<Addr>, k: nat)
    requires Unique(xs) && BackLinks(prev, p, xs) && k < |xs| - 1
    ensures BackLinks(prev[xs[k+1] := prev[xs[k]]], p, RemoveAt(xs, k))
  {
    var r := RemoveAt(xs, k);
    var prev' := prev[xs[k+1] := prev[xs[k]]];
    forall i | 0 <= i < |r|
      ensures r[i] in prev' && prev'[r[i]] == PtrAt(r, i - 1)
    {
      var j := if i < k then i else i + 1;
      RemoveAtIndex(xs, k, i);
      if i > 0 {
        RemoveAtIndex(xs, k, i - 1);
      }
      hide RemoveAt;
      assert j != k + 1 ==> xs[j] != xs[k+1];
    }
    RemoveAtIndex(xs, k, |r| - 1);
  }

  lemma LinksPush(next: map<Addr, Ptr>, p: Ptr, xs: seq<Addr>, e: Addr)
    requires Links(next, p, xs) && e !in xs
    ensures Links(next[e := p], At(e), [e] + xs)
  {
  }

  lemma BackLinksPush(prev: map<Addr, Ptr>, p: Ptr, xs: seq<Addr>, e: Addr)
    requires Unique(xs) && BackLinks(prev, p, xs) && e !in xs
    ensures if xs == [] then BackLinks(prev[e := Null], At(e), [e] + xs)
            else BackLinks(prev[e := Null][xs[0] := At(e)], p, [e] + xs)
  {
    var ys := [e] + xs;
    var prev' := if xs == [] then prev[e := Null] else prev[e := Null][xs[0] := At(e)];
    forall i | 0 <= i < |ys|
      ensures ys[i] in prev' && prev'[ys[i]] == PtrAt(ys, i - 1)
    {
      if i > 1 {
        assert ys[i] == xs[i-1] && ys[i-1] == xs[i-2] && xs[i-1] != xs[0];
      }
    }
  }

  lemma UniquePush(xs: seq<Addr>, e: Addr)
    requires Unique(xs) && e !in xs
    ensures Unique([e] + xs)
  {
  }

  lemma BackLinksFrame(prev: map<Addr, Ptr>, p: Ptr, xs: seq<Addr>, a: Addr, v: Ptr)
    requires BackLinks(prev, p, xs) && a !in xs
    ensures BackLinks(prev[a := v], p, xs)
  {
  }

  // ---------- the entries as items ----------

  function Items(info: map<Addr, Info>, order: seq<Addr>): (r: seq<Item>)
    requires forall a :: a in order ==> a in info
    ensures |r| == |order| && forall i :: 0 <= i < |r| ==> r[i] == info[order[i]].item
  {
    seq(|order|, i requires 0 <= i < |order| => info[order[i]].item)
  }

  ghost predicate IsPow2(n: nat)
    decreases n
  {
    n == 1 || (n > 1 && n % 2 == 0 && IsPow2(n / 2))
  }

  ghost predicate BucketOk(info: map<Addr, Info>, hnext: map<Addr, Ptr>, p: Ptr, chain: seq<Addr>, b: nat, nb: nat)
    requires nb > 0
  {
    && Links(hnext, p, chain) && Unique(chain)
    && forall a :: a in chain ==> a in info && info[a].hash % nb == b
  }

  ghost predicate BucketsOk(info: map<Addr, Info>, hnext: map<Addr, Ptr>, buckets: seq<Ptr>, chains: seq<seq<Addr>>) {
    && |buckets| == |chains| > 0
    && (forall b :: 0 <= b < |chains| ==> BucketOk(info, hnext, buckets[b], chains[b], b, |chains|))
    && (forall a :: a in info ==> a in chains[info[a].hash % |chains|])
  }

  ghost predicate EntriesOk(info: map<Addr, Info>, order: seq<Addr>, hash: Bytes -> nat) {
    && (forall a :: a in order <==> a in info)
    && (forall a :: a in info ==> info[a].hash == hash(info[a].item.key))
    && UniqueKeys(Items(info, order))
  }

  lemma BucketsRemove(info: map<Addr, Info>, hnext: map<Addr, Ptr>, buckets: seq<Ptr>, chains: seq<seq<Addr>>,
                      b: nat, i: nat)
    requires BucketsOk(info, hnext, buckets, chains) && b < |chains| && i < |chains[b]|
    ensures var chain, e := chains[b], chains[b][i];
            e in hnext && e in info &&
            BucketsOk(info - {e},
                      if i == 0 then hnext else hnext[chain[i-1] := hnext[e]],
                      if i == 0 then buckets[b := hnext[e]] else buckets,
                      chains[b := RemoveAt(chain, i)])
  {
    var chain, e, nb := chains[b], chains[b][i], |chains|;
    var hnext' := if i == 0 then hnext else hnext[chain[i-1] := hnext[e]];
    var buckets' := if i == 0 then buckets[b := hnext[e]] else buckets;
    BucketRemove(info, hnext, buckets[b], chain, b, nb, i);
    forall c | 0 <= c < nb && c != b
      ensures BucketOk(info - {e}, hnext', buckets[c], chains[c], c, nb)
    {
      BucketKeep(info, hnext, buckets, chains, b, i, c);
    }
    forall a | a in info && a != e
      ensures a in chains[b := RemoveAt(chain, i)][info[a].hash % nb]
    {
      RemoveAtIn(chain, i);
    }
  }

  lemma BucketsOkIn(info: map<Addr, Info>, hnext: map<Addr, Ptr>, buckets: seq<Ptr>, chains: seq<seq<Addr>>,
                    b: nat, i: nat)
    requires BucketsOk(info, hnext, buckets, chains) && b < |chains| && i < |chains[b]|
    ensures |buckets| == |chains| && chains[b][i] in info && chains[b][i] in hnext
  {
    assert BucketOk(info, hnext, buckets[b], chains[b], b, |chains|);
  }

  lemma BucketRemove(info: map<Addr, Info>, hnext: map<Addr, Ptr>, p: Ptr, chain: seq<Addr>, b: nat, nb: nat, i: nat)
    requires nb > 0 && BucketOk(info, hnext, p, chain, b, nb) && i < |chain|
    ensures var e := chain[i];
            e in hnext && e in info &&
            BucketOk(info - {e}, if i == 0 then hnext else hnext[chain[i-1] := hnext[e]],
                     if i == 0 then hnext[e] else p, RemoveAt(chain, i), b, nb)
  {
    RemoveAtIn(chain, i);
    LinksRemove(hnext, p, chain, i);
    hide Links;
  }

  lemma BucketKeep(info: map<Addr, Info>, hnext: map<Addr, Ptr>, buckets: seq<Ptr>, chains: seq<seq<Addr>>,
                   b: nat, i: nat, c: nat)
    requires BucketsOk(info, hnext, buckets, chains) && b < |chains| && i < |chains[b]| && c < |chains| && c != b
    ensures var chain, e := chains[b], chains[b][i];
            e in hnext && BucketOk(info - {e}, if i == 0 then hnext else hnext[chain[i-1] := hnext[e]],
                                   buckets[c], chains[c], c, |chains|)
  {
    var chain, e := chains[b], chains[b][i];
    assert BucketOk(info, hnext, buckets[b], chain, b, |chains|);
    assert BucketOk(info, hnext, buckets[c], chains[c], c, |chains|);
    assert e in chain && e !in chains[c];
    if i > 0 {
      assert chain[i-1] in chain && chain[i-1] !in chains[c];
      LinksFrame(hnext, buckets[c], chains[c], chain[i-1], hnext[e]);
    }
  }

  lemma EntriesRemove(info: map<Addr, Info>, order: seq<Addr>, hash: Bytes -> nat, k: nat)
    requires EntriesOk(info, order, hash) && Unique(order) && k < |order|
    ensures var r := RemoveAt(order, k);
            && EntriesOk(info - {order[k]}, r, hash)
            && Items(info - {order[k]}, r) == RemoveAt(Items(info, order), k)
  {
    var r := RemoveAt(order, k);
    RemoveAtIn(order, k);
    RemoveAtMembers(Items(info, order), k);
    ItemsRemove(info, order, k);
    hide Items, UniqueKeys, Unique, RemoveAt;
  }

  lemma ItemsRemove(info: map<Addr, Info>, order: seq<Addr>, k: nat)
    requires Unique(order) && k < |order| && forall a :: a in order ==> a in info
    ensures forall a :: a in RemoveAt(order, k) ==> a in info - {order[k]}
    ensures Items(info - {order[k]}, RemoveAt(order, k)) == RemoveAt(Items(info, order), k)
  {
    var r := RemoveAt(order, k);
    RemoveAtIn(order, k);
    var items' := Items(info - {order[k]}, r);
    forall i | 0 <= i < |r|
      ensures items'[i] == RemoveAt(Items(info, order), k)[i]
    {
      RemoveAtIndex(order, k, i);
      RemoveAtIndex(Items(info, order), k, i);
    }
  }

  // Everything of a shard but its LRU links.
  datatype Table = Table(info: map<Addr, Info>, hnext: map<Addr, Ptr>, buckets: seq<Ptr>, count: int, used: int,
                         order: seq<Addr>, chains: seq<seq<Addr>>)

  ghost predicate TableOk(t: Table, hash: Bytes -> nat, budget: nat) {
    && BucketsOk(t.info, t.hnext, t.buckets, t.chains) && IsPow2(|t.buckets|)
    && EntriesOk(t.info, t.order, hash)
    && t.count == |t.order| && t.used == Total(Items(t.info, t.order)) && t.used <= budget
  }

  // entry_drop for entry i of chain b, which is number k of the LRU list.
  ghost function DropStep(t: Table, b: nat, i: nat, k: nat): Table
    requires b < |t.chains| == |t.buckets| && i < |t.chains[b]| && k < |t.order|
    requires t.chains[b][i] in t.hnext && t.chains[b][i] in t.info
  {
    var chain, e := t.chains[b], t.chains[b][i];
    Table(t.info - {e},
          if i == 0 then t.hnext else t.hnext[chain[i-1] := t.hnext[e]],
          if i == 0 then t.buckets[b := t.hnext[e]] else t.buckets,
          t.count - 1, t.used - Size(t.info[e].item),
          RemoveAt(t.order, k), t.chains[b := RemoveAt(chain, i)])
  }

  ghost predicate Dropped(t: Table, b: nat, i: nat, k: nat, t': Table) {
    && b < |t.chains| == |t.buckets| && i < |t.chains[b]| && k < |t.order|
    && t.chains[b][i] in t.hnext && t.chains[b][i] in t.info
    && t' == DropStep(t, b, i, k)
  }

  lemma DropInv(t: Table, hash: Bytes -> nat, budget: nat, b: nat, i: nat, k: nat)
    requires TableOk(t, hash, budget) && Unique(t.order)
    requires b < |t.chains| && i < |t.chains[b]| && k < |t.order| && t.order[k] == t.chains[b][i]
    ensures |t.buckets| == |t.chains| && t.chains[b][i] in t.hnext && t.chains[b][i] in t.info
    ensures var t' := DropStep(t, b, i, k);
            && TableOk(t', hash, budget)
            && Items(t'.info, t'.order) == RemoveAt(Items(t.info, t.order), k)
  {
    assert forall a :: a in t.order ==> a in t.info;
    hide BucketsOk, EntriesOk, Unique, Total, IsPow2, Links, BackLinks, UniqueKeys;
    BucketsOkIn(t.info, t.hnext, t.buckets, t.chains, b, i);
    BucketsRemove(t.info, t.hnext, t.buckets, t.chains, b, i);
    EntriesRemove(t.info, t.order, hash, k);
    TotalRemove(Items(t.info, t.order), k);
  }

  lemma ItemsIn(t: Table, hash: Bytes -> nat, budget: nat)
    requires TableOk(t, hash, budget)
    ensures forall a :: a in t.order <==> a in t.info
  {
  }

  // Where an entry sits in the table.
  lemma EntryAt(t: Table, hash: Bytes -> nat, budget: nat, e: Addr)
    requires TableOk(t, hash, budget) && e in t.info
    ensures |t.buckets| == |t.chains| > 0 && e in t.order
    ensures var b := t.info[e].hash % |t.buckets|;
            e in t.chains[b] && ChainAt(t, b)
  {
    assert BucketOk(t.info, t.hnext, t.buckets[t.info[e].hash % |t.chains|], t.chains[t.info[e].hash % |t.chains|],
                    t.info[e].hash % |t.chains|, |t.chains|);
  }

  ghost predicate ChainAt(t: Table, b: nat) {
    && b < |t.chains| == |t.buckets|
    && Links(t.hnext, t.buckets[b], t.chains[b])
    && forall a :: a in t.chains[b] ==> a in t.info
  }

  lemma ChainOf(t: Table, hash: Bytes -> nat, budget: nat, b: nat)
    requires TableOk(t, hash, budget) && b < |t.buckets|
    ensures ChainAt(t, b)
  {
    assert BucketOk(t.info, t.hnext, t.buckets[b], t.chains[b], b, |t.chains|);
  }

  lemma HashIs(t: Table, hash: Bytes -> nat, budget: nat, e: Addr)
    requires TableOk(t, hash, budget) && e in t.info
    ensures t.info[e].hash == hash(t.info[e].item.key)
  {
  }

  lemma BucketCount(t: Table, hash: Bytes -> nat, budget: nat)
    requires TableOk(t, hash, budget)
    ensures |t.buckets| == |t.chains| > 0
  {
  }

  // An entry with the key is the item that Find finds.
  lemma FoundAt(t: Table, hash: Bytes -> nat, budget: nat, e: Addr) returns (k: nat)
    requires TableOk(t, hash, budget) && e in t.info
    ensures k < |t.order| && t.order[k] == e && (forall a :: a in t.order ==> a in t.info)
    ensures Items(t.info, t.order)[k] == t.info[e].item
    ensures Find(Items(t.info, t.order), t.info[e].item.key) == Some(k)
  {
    k :| 0 <= k < |t.order| && t.order[k] == e;
    FindAt(Items(t.info, t.order), k);
  }

  ghost predicate NoKey(info: map<Addr, Info>, chain: seq<Addr>, key: Bytes) {
    forall a :: a in chain && a in info ==> info[a].item.key != key
  }

  lemma NoKeySnoc(info: map<Addr, Info>, chain: seq<Addr>, i: nat, key: Bytes)
    requires i < |chain| && chain[i] in info && NoKey(info, chain[..i], key) && info[chain[i]].item.key != key
    ensures NoKey(info, chain[..i+1], key)
  {
    assert chain[..i+1] == chain[..i] + [chain[i]];
  }

  // A key absent from its chain is absent from the shard.
  lemma NotInChain(t: Table, hash: Bytes -> nat, budget: nat, key: Bytes)
    requires TableOk(t, hash, budget) && |t.chains| > 0
    requires NoKey(t.info, t.chains[hash(key) % |t.chains|], key)
    ensures forall a :: a in t.order ==> a in t.info
    ensures Find(Items(t.info, t.order), key) == None
  {
    forall a | a in t.info
      ensures t.info[a].item.key != key
    {
      assert a in t.chains[t.info[a].hash % |t.chains|];
    }
  }

  // A lookup does to the list what SharedSpec.Lookup does; a hit leaves the shard as it is.
  ghost predicate LookupMeets(t: Table, key: Bytes, now: int, r: Option<Addr>, k: nat, t': Table) {
    && (forall a :: a in t.order ==> a in t.info) && (forall a :: a in t'.order ==> a in t'.info)
    && var (rest, f) := Lookup(Items(t.info, t.order), key, now);
    && Items(t'.info, t'.order) == rest
    && (f.Some? <==> r.Some?)
    && (r.Some? ==> t' == t && f == Some(k) && k < |t.order| && t.order[k] == r.value && r.value in t.info)
  }

  lemma LookupReaps(t: Table, key: Bytes, now: int, k: nat, t': Table)
    requires (forall a :: a in t.order ==> a in t.info) && (forall a :: a in t'.order ==> a in t'.info)
    requires k < |t.order| && Find(Items(t.info, t.order), key) == Some(k) && Dead(Items(t.info, t.order)[k], now)
    requires Items(t'.info, t'.order) == RemoveAt(Items(t.info, t.order), k)
    ensures LookupMeets(t, key, now, None, k, t')
  {
  }

  lemma LookupFinds(t: Table, key: Bytes, now: int, k: nat)
    requires (forall a :: a in t.order ==> a in t.info)
    requires k < |t.order| && Find(Items(t.info, t.order), key) == Some(k) && !Dead(Items(t.info, t.order)[k], now)
    ensures LookupMeets(t, key, now, Some(t.order[k]), k, t)
  {
  }

  lemma LookupMisses(t: Table, key: Bytes, now: int)
    requires (forall a :: a in t.order ==> a in t.info) && Find(Items(t.info, t.order), key) == None
    ensures LookupMeets(t, key, now, None, 0, t)
  {
  }

  // ---------- growing the bucket array ----------

  // Rehashing has emptied the first i old chains and the first k entries of chain i.
  datatype Grow = Grow(info: map<Addr, Info>, hnext: map<Addr, Ptr>, nbuf: seq<Ptr>, made: seq<seq<Addr>>,
                       chains: seq<seq<Addr>>, i: nat, k: nat)

  // What the old chains keep telling, whatever happens to the links.
  ghost predicate OldChains(info: map<Addr, Info>, chains: seq<seq<Addr>>) {
    && |chains| > 0
    && (forall c :: 0 <= c < |chains| ==> Unique(chains[c]))
    && (forall c, a :: 0 <= c < |chains| && a in chains[c] ==> a in info && info[a].hash % |chains| == c)
    && (forall a :: a in info ==> a in chains[info[a].hash % |chains|])
  }

  ghost predicate Moved(g: Grow, a: Addr)
    requires |g.chains| > 0
  {
    && a in g.info && g.i <= |g.chains| && (g.i < |g.chains| ==> g.k <= |g.chains[g.i]|)
    && (g.info[a].hash % |g.chains| < g.i || (g.i < |g.chains| && a in g.chains[g.i][..g.k]))
  }

  ghost predicate GrowOk(g: Grow) {
    && OldChains(g.info, g.chains) && g.i <= |g.chains| && (g.i < |g.chains| ==> g.k <= |g.chains[g.i]|)
    && |g.nbuf| == |g.made| == 2 * |g.chains|
    && (forall c :: 0 <= c < |g.made| ==> BucketOk(g.info, g.hnext, g.nbuf[c], g.made[c], c, |g.made|))
    && (forall c, a :: 0 <= c < |g.made| && a in g.made[c] ==> Moved(g, a))
    && (forall a :: Moved(g, a) ==> a in g.made[g.info[a].hash % |g.made|])
  }

  // The chains not reached yet are still linked as they were.
  ghost predicate Ahead(hnext: map<Addr, Ptr>, buckets: seq<Ptr>, chains: seq<seq<Addr>>, from: nat) {
    |buckets| == |chains| && forall c :: from <= c < |chains| ==> Links(hnext, buckets[c], chains[c])
  }

  ghost function GrowStep(g: Grow, e: Addr): Grow
    requires e in g.info && |g.nbuf| == |g.made| > 0
  {
    var b := g.info[e].hash % |g.made|;
    g.(hnext := g.hnext[e := g.nbuf[b]], nbuf := g.nbuf[b := At(e)],
       made := g.made[b := [e] + g.made[b]], k := g.k + 1)
  }

  lemma GrowMove(g: Grow)
    requires GrowOk(g) && g.i < |g.chains| && g.k < |g.chains[g.i]|
    ensures g.chains[g.i][g.k] in g.info && GrowOk(GrowStep(g, g.chains[g.i][g.k]))
  {
    hide BucketOk, Unique;
    var e := g.chains[g.i][g.k];
    MoveOnly(g, e);
    MoveBuckets(g, e);
  }

  // Nothing else moves.
  lemma MoveOnly(g: Grow, e: Addr)
    requires GrowOk(g) && g.i < |g.chains| && g.k < |g.chains[g.i]| && e == g.chains[g.i][g.k]
    ensures e in g.info && !Moved(g, e)
    ensures forall a :: Moved(GrowStep(g, e), a) <==> Moved(g, a) || a == e
  {
    hide BucketOk;
    var chain := g.chains[g.i];
    assert Unique(chain);
    assert chain[..g.k+1] == chain[..g.k] + [e];
  }

  lemma MoveBuckets(g: Grow, e: Addr)
    requires GrowOk(g) && e in g.info && !Moved(g, e)
    ensures var g' := GrowStep(g, e);
            forall c :: 0 <= c < |g.made| ==>
              BucketOk(g.info, g'.hnext, g'.nbuf[c], g'.made[c], c, |g.made|)
  {
    var g' := GrowStep(g, e);
    var b := g.info[e].hash % |g.made|;
    forall c | 0 <= c < |g.made|
      ensures BucketOk(g.info, g'.hnext, g'.nbuf[c], g'.made[c], c, |g.made|)
    {
      hide Links, Unique, Moved, OldChains;
      assert BucketOk(g.info, g.hnext, g.nbuf[c], g.made[c], c, |g.made|);
      assert e !in g.made[c];
      if c == b {
        LinksPush(g.hnext, g.nbuf[c], g.made[c], e);
        UniquePush(g.made[c], e);
      } else {
        LinksFrame(g.hnext, g.nbuf[c], g.made[c], e, g.nbuf[b]);
      }
    }
  }

  // The walk of the old chain survives the rewriting of the link just left behind.
  lemma GrowWalk(hnext: map<Addr, Ptr>, p: Ptr, chain: seq<Addr>, k: nat, v: Ptr)
    requires Unique(chain) && k < |chain| && Links(hnext, p, chain[k..])
    ensures chain[k] in hnext && Links(hnext[chain[k] := v], hnext[chain[k]], chain[k+1..])
  {
    assert chain[k..] == [chain[k]] + chain[k+1..];
    LinksTail(hnext, p, chain[k], chain[k+1..], v);
  }

  lemma LinksTail(next: map<Addr, Ptr>, p: Ptr, x: Addr, xs: seq<Addr>, v: Ptr)
    requires Links(next, p, [x] + xs) && x !in xs
    ensures x in next && Links(next[x := v], next[x], xs)
  {
    assert ([x] + xs)[0] == x;
    forall i | 0 <= i < |xs|
      ensures xs[i] in next && next[xs[i]] == PtrAt(xs, i + 1)
    {
      assert ([x] + xs)[i + 1] == xs[i];
    }
  }

  lemma AheadKept(info: map<Addr, Info>, hnext: map<Addr, Ptr>, buckets: seq<Ptr>, chains: seq<seq<Addr>>,
                  i: nat, e: Addr, v: Ptr)
    requires OldChains(info, chains) && Ahead(hnext, buckets, chains, i + 1) && i < |chains| && e in chains[i]
    ensures Ahead(hnext[e := v], buckets, chains, i + 1)
  {
    assert info[e].hash % |chains| == i;
    forall c | i + 1 <= c < |chains|
      ensures Links(hnext[e := v], buckets[c], chains[c])
    {
      assert e !in chains[c];
      LinksFrame(hnext, buckets[c], chains[c], e, v);
    }
  }

  lemma GrowNext(g: Grow)
    requires GrowOk(g) && g.i < |g.chains| && g.k == |g.chains[g.i]|
    ensures GrowOk(g.(i := g.i + 1, k := 0))
  {
    var g' := g.(i := g.i + 1, k := 0);
    var chain := g.chains[g.i];
    assert chain[..g.k] == chain;
    assert forall a :: Moved(g', a) <==> Moved(g, a);
  }

  lemma GrowDone(g: Grow)
    requires GrowOk(g) && g.i == |g.chains|
    ensures BucketsOk(g.info, g.hnext, g.nbuf, g.made)
  {
    assert forall a :: a in g.info ==> Moved(g, a);
  }

  lemma GrowStart(t: Table, hash: Bytes -> nat, budget: nat)
    requires TableOk(t, hash, budget)
    ensures var n := |t.buckets|;
            && n == |t.chains| > 0
            && GrowOk(Grow(t.info, t.hnext, seq(2 * n, _ => Null), seq(2 * n, _ => []), t.chains, 0, 0))
            && Ahead(t.hnext, t.buckets, t.chains, 0)
  {
    TableChains(t, hash, budget);
    hide TableOk, OldChains, Links;
  }

  lemma TableChains(t: Table, hash: Bytes -> nat, budget: nat)
    requires TableOk(t, hash, budget)
    ensures |t.buckets| == |t.chains| > 0 && OldChains(t.info, t.chains) && Ahead(t.hnext, t.buckets, t.chains, 0)
  {
    forall c | 0 <= c < |t.chains|
      ensures Links(t.hnext, t.buckets[c], t.chains[c]) && Unique(t.chains[c])
      ensures forall a :: a in t.chains[c] ==> a in t.info && t.info[a].hash % |t.chains| == c
    {
      assert BucketOk(t.info, t.hnext, t.buckets[c], t.chains[c], c, |t.chains|);
    }
  }

  lemma GrowTable(t: Table, hash: Bytes -> nat, budget: nat, g: Grow)
    requires TableOk(t, hash, budget) && GrowOk(g) && g.i == |g.chains| && g.info == t.info
    requires |t.buckets| == |g.chains|
    ensures TableOk(t.(hnext := g.hnext, buckets := g.nbuf, chains := g.made), hash, budget)
  {
    hide GrowOk, BucketsOk, EntriesOk;
    GrowDone(g);
    GrowSizes(g);
  }

  lemma AheadHead(hnext: map<Addr, Ptr>, buckets: seq<Ptr>, chains: seq<seq<Addr>>, i: nat)
    requires Ahead(hnext, buckets, chains, i) && i < |chains|
    ensures Links(hnext, buckets[i], chains[i][0..]) && buckets[i] == PtrAt(chains[i], 0)
    ensures Ahead(hnext, buckets, chains, i + 1)
  {
    assert chains[i][0..] == chains[i];
  }

  lemma GrowFacts(g: Grow, i: nat)
    requires GrowOk(g) && i < |g.chains|
    ensures |g.nbuf| == |g.made| == 2 * |g.chains| && OldChains(g.info, g.chains) && Unique(g.chains[i])
    ensures forall a :: a in g.chains[i] ==> a in g.info
  {
  }

  lemma GrowSizes(g: Grow)
    requires GrowOk(g)
    ensures |g.nbuf| == |g.made| == 2 * |g.chains|
  {
  }

  // ---------- a new entry ----------

  ghost function InsertStep(t: Table, e: Addr, h: nat, item: Item): Table
    requires |t.buckets| == |t.chains| > 0
  {
    var b := h % |t.buckets|;
    Table(t.info[e := Info(h, item)], t.hnext[e := t.buckets[b]], t.buckets[b := At(e)],
          t.count + 1, t.used + Size(item), [e] + t.order, t.chains[b := [e] + t.chains[b]])
  }

  lemma InsertBuckets(t: Table, hash: Bytes -> nat, budget: nat, e: Addr, h: nat, item: Item)
    requires TableOk(t, hash, budget) && e !in t.info
    ensures |t.buckets| == |t.chains| > 0
    ensures var t' := InsertStep(t, e, h, item); BucketsOk(t'.info, t'.hnext, t'.buckets, t'.chains)
  {
    var t' := InsertStep(t, e, h, item);
    var b, nb := h % |t.buckets|, |t.buckets|;
    forall c | 0 <= c < nb
      ensures BucketOk(t'.info, t'.hnext, t'.buckets[c], t'.chains[c], c, nb)
    {
      assert BucketOk(t.info, t.hnext, t.buckets[c], t.chains[c], c, nb);
      assert e !in t.chains[c];
      if c == b {
        LinksPush(t.hnext, t.buckets[c], t.chains[c], e);
        UniquePush(t.chains[c], e);
      } else {
        LinksFrame(t.hnext, t.buckets[c], t.chains[c], e, t.buckets[b]);
      }
    }
  }

  lemma InsertItems(info: map<Addr, Info>, order: seq<Addr>, e: Addr, i: Info)
    requires (forall a :: a in order ==> a in info) && e !in info
    ensures Items(info[e := i], [e] + order) == [i.item] + Items(info, order)
  {
  }

  lemma InsertEntries(info: map<Addr, Info>, order: seq<Addr>, hash: Bytes -> nat, e: Addr, item: Item)
    requires EntriesOk(info, order, hash) && e !in info && Clean(Items(info, order), item.key)
    ensures EntriesOk(info[e := Info(hash(item.key), item)], [e] + order, hash)
  {
    hide UniqueKeys, Clean, Items;
    var info' := info[e := Info(hash(item.key), item)];
    InsertItems(info, order, e, Info(hash(item.key), item));
    ConsUnique(item, Items(info, order), Items(info, order));
    forall a
      ensures a in [e] + order <==> a in info'
    {
      assert a in [e] + order <==> a == e || a in order;
    }
  }

  lemma InsertInv(t: Table, hash: Bytes -> nat, budget: nat, e: Addr, item: Item)
    requires TableOk(t, hash, budget) && e !in t.info
    requires (forall a :: a in t.order ==> a in t.info) && Clean(Items(t.info, t.order), item.key)
    requires t.used + Size(item) <= budget
    ensures |t.buckets| == |t.chains| > 0
    ensures var t' := InsertStep(t, e, hash(item.key), item);
            TableOk(t', hash, budget) && Items(t'.info, t'.order) == [item] + Items(t.info, t.order)
  {
    InsertBuckets(t, hash, budget, e, hash(item.key), item);
    InsertEntries(t.info, t.order, hash, e, item);
    InsertItems(t.info, t.order, e, Info(hash(item.key), item));
    TotalCons(item, Items(t.info, t.order));
    hide BucketsOk, EntriesOk, Items, Total, Clean, Size;
  }

  // ---------- one entry's value or lifetime in place ----------

  lemma EditInv(t: Table, hash: Bytes -> nat, budget: nat, e: Addr, k: nat, item: Item)
    requires TableOk(t, hash, budget) && k < |t.order| && t.order[k] == e && e in t.info && Unique(t.order)
    requires item.key == t.info[e].item.key && Size(item) == Size(t.info[e].item)
    ensures forall a :: a in t.order ==> a in t.info
    ensures var t' := t.(info := t.info[e := t.info[e].(item := item)]);
            TableOk(t', hash, budget) && Items(t'.info, t'.order) == Items(t.info, t.order)[k := item]
  {
    hide BucketsOk, Items, Total, UniqueKeys, Size, Unique, IsPow2;
    var t' := t.(info := t.info[e := t.info[e].(item := item)]);
    ItemsEdit(t.info, t.order, k, item);
    ReplaceUnique(Items(t.info, t.order), k, item);
    TotalReplace(Items(t.info, t.order), k, item);
    EditBuckets(t, hash, budget, e, item);
  }

  lemma ItemsEdit(info: map<Addr, Info>, order: seq<Addr>, k: nat, item: Item)
    requires Unique(order) && k < |order| && forall a :: a in order ==> a in info
    ensures Items(info[order[k] := info[order[k]].(item := item)], order) == Items(info, order)[k := item]
  {
  }

  lemma EditBuckets(t: Table, hash: Bytes -> nat, budget: nat, e: Addr, item: Item)
    requires TableOk(t, hash, budget) && e in t.info
    ensures BucketsOk(t.info[e := t.info[e].(item := item)], t.hnext, t.buckets, t.chains)
  {
    forall c | 0 <= c < |t.chains|
      ensures BucketOk(t.info[e := t.info[e].(item := item)], t.hnext, t.buckets[c], t.chains[c], c, |t.chains|)
    {
      assert BucketOk(t.info, t.hnext, t.buckets[c], t.chains[c], c, |t.chains|);
    }
  }

  // Moving an entry to the front of the LRU order.
  lemma TouchInv(t: Table, hash: Bytes -> nat, budget: nat, k: nat)
    requires TableOk(t, hash, budget) && k < |t.order| && Unique(t.order)
    ensures (forall a :: a in t.order ==> a in t.info) && forall a :: a in ToFront(t.order, k) ==> a in t.info
    ensures var t' := t.(order := ToFront(t.order, k));
            TableOk(t', hash, budget) && Items(t'.info, t'.order) == ToFront(Items(t.info, t.order), k)
  {
    var o := ToFront(t.order, k);
    RemoveAtIn(t.order, k);
    assert forall a :: a in o <==> a in t.order;
    var items := Items(t.info, t.order);
    TouchItems(t.info, t.order, k);
    RemoveAtMembers(items, k);
    TotalToFront(items, k);
    ToFrontUnique(items, k);
    hide BucketsOk, Items, Total, UniqueKeys, ToFront;
  }

  lemma TouchItems(info: map<Addr, Info>, order: seq<Addr>, k: nat)
    requires (forall a :: a in order ==> a in info) && k < |order|
    ensures forall a :: a in ToFront(order, k) ==> a in info
    ensures Items(info, ToFront(order, k)) == ToFront(Items(info, order), k)
  {
    forall a | a in ToFront(order, k)
      ensures a in info
    {
    }
    forall i | 0 < i < |order|
      ensures Items(info, ToFront(order, k))[i] == ToFront(Items(info, order), k)[i]
    {
      RemoveAtIndex(order, k, i - 1);
      RemoveAtIndex(Items(info, order), k, i - 1);
    }
  }

  // ---------- eviction ----------

  // While room is being made, what the list will shrink to is already decided.
  ghost predicate RoomTodo(t: Table, room: int, m: Table) {
    && (forall a :: a in t.order ==> a in t.info) && (forall a :: a in m.order ==> a in m.info)
    && Fit(Items(m.info, m.order), room) == Fit(Items(t.info, t.order), room)
  }

  ghost predicate RoomMeets(t: Table, room: int, t': Table) {
    && (forall a :: a in t.order ==> a in t.info) && (forall a :: a in t'.order ==> a in t'.info)
    && Items(t'.info, t'.order) == Fit(Items(t.info, t.order), room)
  }

  lemma RoomStart(t: Table, hash: Bytes -> nat, budget: nat, room: int)
    requires TableOk(t, hash, budget)
    ensures RoomTodo(t, room, t)
  {
    hide Fit, BucketsOk;
  }

  lemma TailEntry(t: Table, hash: Bytes -> nat, budget: nat, tail: Ptr)
    requires TableOk(t, hash, budget) && tail == PtrAt(t.order, |t.order| - 1) && tail.At?
    ensures |t.order| > 0 && tail.a == t.order[|t.order|-1] && tail.a in t.info
  {
  }

  lemma RoomStep(t: Table, room: int, m: Table, m': Table, hash: Bytes -> nat, budget: nat)
    requires RoomTodo(t, room, m) && TableOk(m, hash, budget) && |m.order| > 0 && m.used > room
    requires (forall a :: a in m.order ==> a in m.info) && (forall a :: a in m'.order ==> a in m'.info)
    requires Items(m'.info, m'.order) == RemoveAt(Items(m.info, m.order), |m.order| - 1)
    ensures RoomTodo(t, room, m') && |m'.order| < |m.order|
  {
    hide BucketsOk, EntriesOk, IsPow2;
    var items := Items(m.info, m.order);
    assert RemoveAt(items, |items| - 1) == items[..|items|-1];
    assert |Items(m'.info, m'.order)| == |m'.order|;
  }

  lemma RoomEnd(t: Table, room: int, m: Table, hash: Bytes -> nat, budget: nat)
    requires RoomTodo(t, room, m) && TableOk(m, hash, budget) && (m.used <= room || m.order == [])
    ensures RoomMeets(t, room, m)
  {
  }

  // ---------- a new entry, seen from outside ----------

  ghost predicate InsertMeets(t: Table, item: Item, t': Table) {
    && (forall a :: a in t.order ==> a in t.info) && (forall a :: a in t'.order ==> a in t'.info)
    && Items(t'.info, t'.order) == [item] + Items(t.info, t.order)
  }

  lemma InsertedIs(t: Table, e: Addr, h: nat, item: Item, hash: Bytes -> nat, budget: nat)
    requires (forall a :: a in t.order ==> a in t.info) && e !in t.info && |t.buckets| == |t.chains| > 0
    ensures InsertMeets(t, item, InsertStep(t, e, h, item))
  {
    InsertItems(t.info, t.order, e, Info(h, item));
  }

  lemma InsertGrown(t: Table, item: Item, m: Table, t': Table)
    requires InsertMeets(t, item, m) && t'.info == m.info && t'.order == m.order
    ensures InsertMeets(t, item, t')
  {
  }

  lemma FitClean(items: seq<Item>, key: Bytes, room: int)
    requires Clean(items, key)
    ensures Clean(Fit(items, room), key)
  {
    assert Fit(items, room) <= items;
    hide Fit;
  }

  lemma RoomMade(t: Table, room: int, m: Table, key: Bytes)
    requires (forall a :: a in t.order ==> a in t.info)
    requires RoomMeets(t, room, m) && Clean(Items(t.info, t.order), key) && room >= 0
    ensures forall a :: a in m.order ==> a in m.info
    ensures Clean(Items(m.info, m.order), key) && Total(Items(m.info, m.order)) <= room
  {
    hide Clean, Fit, Total;
    FitClean(Items(t.info, t.order), key, room);
    FitIsTight(Items(t.info, t.order), room);
  }

  lemma PutIs(t: Table, budget: nat, item: Item, m: Table, t': Table)
    requires RoomMeets(t, budget - Size(item), m) && InsertMeets(m, item, t')
    ensures (forall a :: a in t.order ==> a in t.info) && (forall a :: a in t'.order ==> a in t'.info)
    ensures Items(t'.info, t'.order) == SharedSpec.Put(Items(t.info, t.order), budget, item)
  {
  }

  lemma CountIs(t: Table, hash: Bytes -> nat, budget: nat)
    requires TableOk(t, hash, budget)
    ensures t.count == |t.order| && |t.buckets| > 0
  {
  }

  lemma UsedIs(t: Table, hash: Bytes -> nat, budget: nat)
    requires TableOk(t, hash, budget)
    ensures forall a :: a in t.order ==> a in t.info
    ensures t.used == Total(Items(t.info, t.order))
  {
  }

  lemma KeysUnique(t: Table, hash: Bytes -> nat, budget: nat)
    requires TableOk(t, hash, budget)
    ensures forall a :: a in t.order ==> a in t.info
    ensures Legal(Items(t.info, t.order), budget)
  {
  }

  lemma SetIs(items: seq<Item>, budget: nat, item: Item, now: int, mode: Mode)
    requires Size(item) <= budget
    ensures var (rest, f) := Lookup(items, item.key, now);
            !(f.Some? && mode == ModeAdd) && !(f.None? && mode == ModeReplace) ==>
              SharedSpec.Set(items, budget, item, now, mode) == (Ok, SharedSpec.Put(Others(rest, f), budget, item))
  {
  }

  // ---------- sweeping ----------

  // b is a with some dead items taken out, one at a time, and everything else as it was.
  ghost predicate ReapedFrom(a: seq<Item>, b: seq<Item>, now: int)
    decreases |a|
  {
    a == b || exists k: nat :: k < |a| && Dead(a[k], now) && ReapedFrom(RemoveAt(a, k), b, now)
  }

  lemma {:induction false} ReapedOne(a: seq<Item>, b: seq<Item>, k: nat, now: int)
    requires ReapedFrom(a, b, now) && k < |b| && Dead(b[k], now)
    ensures ReapedFrom(a, RemoveAt(b, k), now)
    decreases |a|
  {
    if a == b {
      assert ReapedFrom(RemoveAt(a, k), RemoveAt(b, k), now);
    } else {
      var j: nat :| j < |a| && Dead(a[j], now) && ReapedFrom(RemoveAt(a, j), b, now);
      ReapedOne(RemoveAt(a, j), b, k, now);
    }
  }

  lemma {:induction false} ReapedTrans(a: seq<Item>, b: seq<Item>, c: seq<Item>, now: int)
    requires ReapedFrom(a, b, now) && ReapedFrom(b, c, now)
    ensures ReapedFrom(a, c, now)
    decreases |b|
  {
    if b != c {
      var j: nat :| j < |b| && Dead(b[j], now) && ReapedFrom(RemoveAt(b, j), c, now);
      ReapedOne(a, b, j, now);
      ReapedTrans(a, RemoveAt(b, j), c, now);
    }
  }

  /** Reaping is invisible: no caller, now or later, sees a difference. */
  lemma {:induction false} ReapedLive(a: seq<Item>, b: seq<Item>, now: int, later: int)
    requires ReapedFrom(a, b, now) && UniqueKeys(a) && now <= later
    ensures UniqueKeys(b) && Live(b, later) == Live(a, later)
    decreases |a|
  {
    if a != b {
      var k: nat :| k < |a| && Dead(a[k], now) && ReapedFrom(RemoveAt(a, k), b, now);
      RemoveAtMembers(a, k);
      LiveAfterRemove(a, k, later);
      LiveAt(a, later, k);
      ReapedLive(RemoveAt(a, k), b, now, later);
    }
  }

  // The chains only lose entries, and the entries that stay are what they were.
  ghost predicate Shrunk(t: Table, t': Table) {
    |t'.chains| == |t.chains| && forall c :: 0 <= c < |t.chains| ==> ShrunkChain(t, t', c)
  }

  ghost predicate ShrunkChain(t: Table, t': Table, c: nat)
    requires c < |t.chains| == |t'.chains|
  {
    && |t'.chains[c]| <= |t.chains[c]|
    && forall a :: a in t'.chains[c] ==> a in t.chains[c] && a in t.info && a in t'.info && t'.info[a] == t.info[a]
  }

  // What every operation but an insertion does to the chains: they lose entries, and where an entry
  // that stays has a new deadline, it is later than `start` or none at all.
  ghost predicate Eased(t: Table, t': Table, start: int) {
    && |t'.chains| == |t.chains| && |t'.buckets| == |t.buckets|
    && forall c :: 0 <= c < |t.chains| ==> EasedChain(t, t', c, start)
  }

  ghost predicate EasedChain(t: Table, t': Table, c: nat, start: int)
    requires c < |t.chains| == |t'.chains|
  {
    && |t'.chains[c]| <= |t.chains[c]|
    && forall a :: a in t'.chains[c] ==>
         a in t.chains[c] && a in t.info && a in t'.info && Deferred(t.info[a].item, t'.info[a].item, start)
  }

  predicate Deferred(i: Item, i': Item, start: int) {
    i'.expire == i.expire || i'.expire == 0 || i'.expire > start
  }

  lemma ShrunkEases(t: Table, t': Table, start: int)
    requires Shrunk(t, t') && |t'.buckets| == |t.buckets|
    ensures Eased(t, t', start)
  {
    forall c | 0 <= c < |t.chains|
      ensures EasedChain(t, t', c, start)
    {
      assert ShrunkChain(t, t', c);
    }
  }

  lemma EasedTrans(t: Table, m: Table, t': Table, start: int)
    requires Eased(t, m, start) && Eased(m, t', start)
    ensures Eased(t, t', start)
  {
    forall c | 0 <= c < |t.chains|
      ensures EasedChain(t, t', c, start)
    {
      assert EasedChain(t, m, c, start) && EasedChain(m, t', c, start);
    }
  }

  lemma EasedEarlier(t: Table, t': Table, now: int, start: int)
    requires Eased(t, t', now) && start <= now
    ensures Eased(t, t', start)
  {
    forall c | 0 <= c < |t.chains|
      ensures EasedChain(t, t', c, start)
    {
      assert EasedChain(t, t', c, now);
    }
  }

  lemma EasedClean(t: Table, t': Table, c: nat, start: int)
    requires Eased(t, t', start) && c < |t.chains| && CleanChain(t, c, start)
    ensures CleanChain(t', c, start) && |t'.chains[c]| <= |t.chains[c]|
  {
    assert EasedChain(t, t', c, start);
  }

  // A new order of recency is none of the chains' business, and neither is a later deadline.
  lemma EditEases(t: Table, hash: Bytes -> nat, budget: nat, order: seq<Addr>, start: int)
    requires TableOk(t, hash, budget)
    ensures Eased(t, t.(order := order), start)
    ensures forall e, item :: e in t.info && Deferred(t.info[e].item, item, start) ==>
              Eased(t, t.(info := t.info[e := t.info[e].(item := item)]), start)
  {
    ShrunkRefl(t, hash, budget);
    forall c | 0 <= c < |t.chains|
      ensures EasedChain(t, t.(order := order), c, start)
    {
      assert ShrunkChain(t, t, c);
    }
  }

  ghost predicate CleanChain(t: Table, c: nat, now: int)
    requires c < |t.chains|
  {
    forall a :: a in t.chains[c] && a in t.info ==> !Dead(t.info[a].item, now)
  }

  lemma ShrunkTrans(t: Table, m: Table, t': Table)
    requires Shrunk(t, m) && Shrunk(m, t')
    ensures Shrunk(t, t')
  {
    forall c | 0 <= c < |t.chains|
      ensures ShrunkChain(t, t', c)
    {
      assert ShrunkChain(t, m, c) && ShrunkChain(m, t', c);
    }
  }

  lemma ShrunkClean(t: Table, t': Table, c: nat, now: int)
    requires Shrunk(t, t') && c < |t.chains| && CleanChain(t, c, now)
    ensures CleanChain(t', c, now)
  {
    assert ShrunkChain(t, t', c);
  }

  lemma ShrunkRefl(t: Table, hash: Bytes -> nat, budget: nat)
    requires TableOk(t, hash, budget)
    ensures Shrunk(t, t)
  {
    forall c | 0 <= c < |t.chains|
      ensures ShrunkChain(t, t, c)
    {
      assert BucketOk(t.info, t.hnext, t.buckets[c], t.chains[c], c, |t.chains|);
    }
  }

  lemma DropShrinks(t: Table, hash: Bytes -> nat, budget: nat, b: nat, i: nat, k: nat, t': Table)
    requires TableOk(t, hash, budget) && TableOk(t', hash, budget) && Dropped(t, b, i, k, t')
    ensures Shrunk(t, t') && |t'.buckets| == |t.buckets|
  {
    hide TableOk, Links, Items;
    ShrunkRefl(t, hash, budget);
    ShrunkRefl(t', hash, budget);
    SeenUnique(t, hash, budget, b);
    RemoveAtIn(t.chains[b], i);
    assert |RemoveAt(t.chains[b], i)| < |t.chains[b]|;
    hide Unique, RemoveAt;
    forall c | 0 <= c < |t.chains|
      ensures ShrunkChain(t, t', c)
    {
      assert ShrunkChain(t, t, c) && ShrunkChain(t', t', c);
    }
  }

  // The first i entries of chain b have been seen to be alive.
  ghost predicate SeenAlive(t: Table, b: nat, i: nat, now: int) {
    && b < |t.chains| && i <= |t.chains[b]|
    && forall j :: 0 <= j < i ==> t.chains[b][j] in t.info && !Dead(t.info[t.chains[b][j]].item, now)
  }

  lemma ReapedRefl(a: seq<Item>, now: int)
    ensures ReapedFrom(a, a, now)
  {
  }

  lemma SeenUnique(t: Table, hash: Bytes -> nat, budget: nat, b: nat)
    requires TableOk(t, hash, budget) && b < |t.chains|
    ensures ChainAt(t, b) && Unique(t.chains[b])
  {
    assert BucketOk(t.info, t.hnext, t.buckets[b], t.chains[b], b, |t.chains|);
  }

  lemma SeenNext(t: Table, b: nat, i: nat, now: int)
    requires SeenAlive(t, b, i, now) && i < |t.chains[b]| && t.chains[b][i] in t.info && !Dead(t.info[t.chains[b][i]].item, now)
    ensures SeenAlive(t, b, i + 1, now)
  {
  }

  lemma SeenDrop(t: Table, b: nat, i: nat, k: nat, now: int, t': Table)
    requires SeenAlive(t, b, i, now) && Dropped(t, b, i, k, t') && Unique(t.chains[b])
    ensures SeenAlive(t', b, i, now) && |t'.chains[b]| == |t.chains[b]| - 1
  {
  }

  lemma SeenAll(t: Table, b: nat, now: int)
    requires b < |t.chains| && SeenAlive(t, b, |t.chains[b]|, now)
    ensures CleanChain(t, b, now)
  {
  }

  // What any stretch of a sweep does to a shard.
  ghost predicate SweptFrom(t: Table, t': Table, now: int) {
    && (forall a :: a in t.order ==> a in t.info) && (forall a :: a in t'.order ==> a in t'.info)
    && ReapedFrom(Items(t.info, t.order), Items(t'.info, t'.order), now)
    && Shrunk(t, t') && |t'.buckets| == |t.buckets|
  }

  lemma SweptRefl(t: Table, hash: Bytes -> nat, budget: nat, now: int)
    requires TableOk(t, hash, budget)
    ensures SweptFrom(t, t, now)
  {
    ShrunkRefl(t, hash, budget);
  }

  lemma SweptTrans(t: Table, m: Table, t': Table, now: int)
    requires SweptFrom(t, m, now) && SweptFrom(m, t', now)
    ensures SweptFrom(t, t', now)
  {
    hide Shrunk, ReapedFrom;
    ReapedTrans(Items(t.info, t.order), Items(m.info, m.order), Items(t'.info, t'.order), now);
    ShrunkTrans(t, m, t');
  }

  lemma SweptClean(t: Table, t': Table, c: nat, now: int)
    requires SweptFrom(t, t', now) && c < |t.chains| && CleanChain(t, c, now)
    ensures c < |t'.chains| && CleanChain(t', c, now)
  {
    ShrunkClean(t, t', c, now);
  }

  lemma SweptOne(t: Table, t': Table, now: int, hash: Bytes -> nat, budget: nat)
    requires TableOk(t, hash, budget) && TableOk(t', hash, budget) && Shrunk(t, t') && |t'.buckets| == |t.buckets|
    requires (forall a :: a in t.order ==> a in t.info) && (forall a :: a in t'.order ==> a in t'.info) ==>
               ReapedFrom(Items(t.info, t.order), Items(t'.info, t'.order), now)
    ensures SweptFrom(t, t', now)
  {
    hide Shrunk, ReapedFrom, Items, BucketsOk;
  }

  lemma SweptSizes(t: Table, t': Table, now: int)
    requires SweptFrom(t, t', now)
    ensures |t'.buckets| == |t.buckets| && |t'.chains| == |t.chains|
  {
  }

  lemma SeenUnique'(t: Table, hash: Bytes -> nat, budget: nat, b: nat, now: int)
    requires TableOk(t, hash, budget) && b < |t.buckets|
    ensures b < |t.chains| && ChainAt(t, b) && SeenAlive(t, b, 0, now) && t.buckets[b] == PtrAt(t.chains[b], 0)
  {
    SeenUnique(t, hash, budget, b);
    LinksStart(t.hnext, t.buckets[b], t.chains[b]);
  }

  lemma PtrBounds(xs: seq<Addr>, i: int)
    ensures PtrAt(xs, i).At? <==> 0 <= i < |xs|
    ensures 0 <= i < |xs| ==> PtrAt(xs, i) == At(xs[i])
    ensures PtrAt(xs, -1) == Null
  {
  }

  lemma ChainEntry(t: Table, b: nat, i: nat)
    requires ChainAt(t, b) && b < |t.chains| && i < |t.chains[b]|
    ensures t.chains[b][i] in t.info && t.chains[b][i] in t.hnext && t.hnext[t.chains[b][i]] == PtrAt(t.chains[b], i + 1)
  {
  }

  // Buckets lo .. hi - 1 hold nothing that was dead at `now`.
  ghost predicate CleanRange(t: Table, lo: nat, hi: nat, now: int) {
    hi <= |t.chains| && forall c :: lo <= c < hi ==> CleanChain(t, c, now)
  }

  lemma CleanNone(t: Table, lo: nat, now: int)
    requires lo <= |t.chains|
    ensures CleanRange(t, lo, lo, now)
  {
  }

  lemma CleanExtend(t: Table, lo: nat, hi: nat, now: int)
    requires CleanRange(t, lo, hi, now) && hi < |t.chains| && CleanChain(t, hi, now)
    ensures CleanRange(t, lo, hi + 1, now)
  {
  }

  lemma CleanRangeKept(t: Table, t': Table, lo: nat, hi: nat, now: int)
    requires SweptFrom(t, t', now) && CleanRange(t, lo, hi, now)
    ensures CleanRange(t', lo, hi, now)
  {
    forall c | lo <= c < hi
      ensures CleanChain(t', c, now)
    {
      SweptClean(t, t', c, now);
    }
  }

  // Not more entries than buckets.
  predicate Roomy(t: Table) {
    |t.order| <= |t.buckets|
  }

  class Shard {
    const hash: Bytes -> nat
    const budget: nat
    var info: map<Addr, Info>
    var hnext: map<Addr, Ptr>
    var prev: map<Addr, Ptr>
    var next: map<Addr, Ptr>
    var buckets: seq<Ptr>
    var head: Ptr
    var tail: Ptr
    var count: int
    var used: int
    var evicted: nat
    var expired: nat
    ghost var order: seq<Addr>
    ghost var chains: seq<seq<Addr>>

    /** Buckets, LRU list forwards and backwards, and the counters all describe one set of entries
        with unique keys, within the byte budget. */
    ghost predicate Valid()
      reads this
    {
      Dll(prev, next, head, tail, order) && TableOk(Look(), hash, budget)
    }

    ghost function Look(): Table
      reads this
    {
      Table(info, hnext, buckets, count, used, order, chains)
    }

    // The list of module SharedSpec.
    ghost function Contents(): seq<Item>
      reads this
      requires Valid()
    {
      Items(info, order)
    }

    constructor (hash: Bytes -> nat, budget: nat)
      ensures Valid() && Contents() == [] && this.hash == hash && this.budget == budget
      ensures |buckets| == 16 && evicted == 0 && expired == 0
    {
      this.hash, this.budget := hash, budget;
      info, hnext, prev, next := map[], map[], map[], map[];
      buckets, chains := seq(16, _ => Null), seq(16, _ => []);
      head, tail, order := Null, Null, [];
      count, used, evicted, expired := 0, 0, 0, 0;
      new;
      assert IsPow2(2) && IsPow2(4) && IsPow2(8) && IsPow2(16);
    }

    // lru_unlink
    method LruUnlink(e: Addr, ghost k: nat)
      requires Dll(prev, next, head, tail, order) && k < |order| && order[k] == e
      modifies `prev, `next, `head, `tail, `order
      ensures Dll(prev, next, head, tail, order) && order == RemoveAt(old(order), k)
      ensures e in prev && prev[e] == Null && e in next && next[e] == Null
    {
      RemoveAtIn(order, k);
      LinksRemove(next, head, order, k);
      BackLinksRemove(prev, tail, order, k);
      ghost var r := RemoveAt(order, k);
      var p, n := prev[e], next[e];
      if p.At? {
        next := next[p.a := n];
      } else {
        head := n;
      }
      if n.At? {
        prev := prev[n.a := p];
      } else {
        tail := p;
      }
      hide Links, BackLinks, Unique;
      LinksFrame(next, head, r, e, Null);
      BackLinksFrame(prev, tail, r, e, Null);
      prev := prev[e := Null];
      next := next[e := Null];
      order := RemoveAt(order, k);
    }

    // lru_push_front
    method LruPushFront(e: Addr)
      requires Dll(prev, next, head, tail, order) && e !in order
      modifies `prev, `next, `head, `tail, `order
      ensures Dll(prev, next, head, tail, order) && order == [e] + old(order)
    {
      LinksPush(next, head, order, e);
      BackLinksPush(prev, tail, order, e);
      UniquePush(order, e);
      hide Links, BackLinks, Unique;
      prev := prev[e := Null];
      next := next[e := head];
      if head.At? {
        prev := prev[head.a := At(e)];
      } else {
        tail := At(e);
      }
      head := At(e);
      order := [e] + order;
    }

    // lru_touch
    method LruTouch(e: Addr, ghost k: nat)
      requires Dll(prev, next, head, tail, order) && k < |order| && order[k] == e
      modifies `prev, `next, `head, `tail, `order
      ensures Dll(prev, next, head, tail, order) && order == ToFront(old(order), k)
    {
      if head == At(e) {
        assert k == 0;
        assert order == ToFront(order, 0);
        return;
      }
      RemoveAtIn(order, k);
      LruUnlink(e, k);
      LruPushFront(e);
    }

    // The store through `pp` that takes entry i out of chain b.
    method BypassInChain(b: nat, pre: Ptr, e: Addr, ghost i: nat)
      requires b < |chains| == |buckets| && i < |chains[b]| && chains[b][i] == e && e in hnext
      requires pre == PtrAt(chains[b], i - 1)
      modifies `hnext, `buckets
      ensures hnext == if i == 0 then old(hnext) else old(hnext)[chains[b][i-1] := old(hnext[e])]
      ensures buckets == if i == 0 then old(buckets)[b := old(hnext[e])] else old(buckets)
    {
      if pre.At? {
        hnext := hnext[pre.a := hnext[e]];
      } else {
        buckets := buckets[b := hnext[e]];
      }
    }

    // Unlinks entry e, number i of chain b and number k of the LRU list, and frees it.  `pre` is
    // the entry whose hnext points at e, or Null when the bucket itself does.
    method DropAt(b: nat, pre: Ptr, e: Addr, ghost i: nat, ghost k: nat)
      requires Valid() && b < |chains| && i < |chains[b]| && chains[b][i] == e
      requires pre == PtrAt(chains[b], i - 1) && k < |order| && order[k] == e
      modifies `info, `hnext, `prev, `next, `buckets, `head, `tail, `count, `used, `order, `chains
      ensures Valid() && Dropped(old(Look()), b, i, k, Look())
    {
      hide TableOk, Dll, Items;
      ghost var t := Look();
      DllUnique(prev, next, head, tail, order);
      DropInv(t, hash, budget, b, i, k);
      BypassInChain(b, pre, e, i);
      chains := chains[b := RemoveAt(chains[b], i)];
      LruUnlink(e, k);
      used := used - Size(info[e].item);
      count := count - 1;
      info := info - {e};
    }

    // entry_drop, with the walk of bucket_remove
    method EntryDrop(e: Addr, ghost k: nat)
      requires Valid() && e in info && k < |order| && order[k] == e
      modifies `info, `hnext, `prev, `next, `buckets, `head, `tail, `count, `used, `order, `chains
      ensures Valid() && k < |old(Contents())| && Contents() == RemoveAt(old(Contents()), k)
      ensures Shrunk(old(Look()), Look()) && |buckets| == |old(buckets)| && |order| == |old(order)| - 1
    {
      hide TableOk, Dll, Links, Shrunk;
      ghost var t := Look();
      EntryAt(t, hash, budget, e);
      DllUnique(prev, next, head, tail, order);
      ItemsIn(t, hash, budget);
      var b := info[e].hash % |buckets|;
      var cur, pre := buckets[b], Null;
      ghost var chain, i := chains[b], 0;
      LinksStart(hnext, cur, chain);
      while cur != At(e)
        invariant i < |chain| && cur == PtrAt(chain, i) && pre == PtrAt(chain, i - 1)
        invariant e in chain[i..] && Valid() && Look() == t && ChainAt(t, b)
        decreases |chain| - i
      {
        LinksStep(hnext, buckets[b], chain, i);
        pre := cur;
        cur := hnext[cur.a];
        i := i + 1;
      }
      DropInv(t, hash, budget, b, i, k);
      DropAt(b, pre, e, i, k);
      DropShrinks(t, hash, budget, b, i, k, Look());
      ItemsIn(Look(), hash, budget);
    }

    // The search loop of shard_lookup.
    method SearchChain(h: nat, key: Bytes) returns (r: Option<Addr>)
      requires Valid() && h == hash(key)
      ensures r.Some? ==> r.value in info && info[r.value].item.key == key
      ensures r.None? ==> |chains| > 0 && NoKey(info, chains[h % |chains|], key)
    {
      hide TableOk, Dll, Links;
      BucketCount(Look(), hash, budget);
      var b := h % |buckets|;
      ChainOf(Look(), hash, budget, b);
      var cur := buckets[b];
      ghost var chain, i := chains[b], 0;
      LinksStart(hnext, cur, chain);
      while cur.At? && !(info[cur.a].hash == h && info[cur.a].item.key == key)
        invariant 0 <= i <= |chain| && cur == PtrAt(chain, i)
        invariant NoKey(info, chain[..i], key)
        decreases |chain| - i
      {
        HashIs(Look(), hash, budget, cur.a);
        LinksStep(hnext, buckets[b], chain, i);
        NoKeySnoc(info, chain, i, key);
        cur := hnext[cur.a];
        i := i + 1;
      }
      assert cur == Null ==> chain[..i] == chain;
      r := if cur.At? then Some(cur.a) else None;
    }

    // shard_lookup: the live entry for a key, if any; an expired one is reaped on the way.
    method ShardLookup(key: Bytes, now: int) returns (r: Option<Addr>, ghost k: nat)
      requires Valid()
      modifies `info, `hnext, `prev, `next, `buckets, `head, `tail, `count, `used, `expired, `order, `chains
      ensures Valid() && LookupMeets(old(Look()), key, now, r, k, Look())
      ensures Eased(old(Look()), Look(), now)
      ensures expired + |order| == old(expired + |order|) && expired >= old(expired) && |buckets| == |old(buckets)|
    {
      hide TableOk, Dll, LookupMeets, Shrunk, Eased;
      ghost var t := Look();
      EditEases(t, hash, budget, order, now);
      r := SearchChain(hash(key), key);
      k := 0;
      if r.None? {
        NotInChain(t, hash, budget, key);
        LookupMisses(t, key, now);
      } else {
        k := FoundAt(t, hash, budget, r.value);
        if Dead(info[r.value].item, now) {
          expired := expired + 1;
          EntryDrop(r.value, k);
          ItemsIn(t, hash, budget);
          ItemsIn(Look(), hash, budget);
          ShrunkEases(t, Look(), now);
          LookupReaps(t, key, now, k, Look());
          r := None;
        } else {
          LookupFinds(t, key, now, k);
        }
      }
    }

    // shard_maybe_grow
    method MaybeGrow()
      requires Valid()
      modifies `hnext, `buckets, `chains
      ensures Valid()
      ensures |buckets| == if count <= |old(buckets)| then |old(buckets)| else 2 * |old(buckets)|
    {
      hide TableOk, Dll, GrowOk, OldChains, Ahead, Links, BucketsOk;
      if count <= |buckets| {
        return;
      }
      ghost var t := Look();
      GrowStart(t, hash, budget);
      var nbuf := seq(2 * |buckets|, _ => Null);
      ghost var g := Grow(info, hnext, nbuf, seq(2 * |buckets|, _ => []), chains, 0, 0);
      for i := 0 to |buckets|
        invariant GrowOk(g) && g.info == info && g.hnext == hnext && g.nbuf == nbuf && g.chains == chains
        invariant g.i == i && g.k == 0 && |nbuf| == 2 * |buckets|
        invariant |buckets| == |chains| && Ahead(hnext, buckets, chains, i)
        invariant Look() == t.(hnext := hnext) && Dll(prev, next, head, tail, order)
      {
        g, nbuf := MoveChain(i, g, nbuf);
        GrowNext(g);
        g := g.(i := i + 1, k := 0);
      }
      GrowTable(t, hash, budget, g);
      buckets := nbuf;
      chains := g.made;
    }

    // The inner loop of it: one old chain, entry by entry.
    method MoveChain(i: nat, ghost g0: Grow, nbuf0: seq<Ptr>) returns (ghost g: Grow, nbuf: seq<Ptr>)
      requires GrowOk(g0) && g0.info == info && g0.hnext == hnext && g0.nbuf == nbuf0 && g0.chains == chains
      requires i < |buckets| == |chains| && g0.i == i && g0.k == 0 && Ahead(hnext, buckets, chains, i)
      modifies `hnext
      ensures GrowOk(g) && g.info == info && g.hnext == hnext && g.nbuf == nbuf && g.chains == chains
      ensures g.i == i && g.k == |chains[i]| && Ahead(hnext, buckets, chains, i + 1) && |nbuf| == |nbuf0|
    {
      hide GrowOk, OldChains, Links, Ahead;
      g, nbuf := g0, nbuf0;
      var cur := buckets[i];
      AheadHead(hnext, buckets, chains, i);
      GrowFacts(g, i);
      while cur.At?
        invariant GrowOk(g) && g.info == info && g.hnext == hnext && g.nbuf == nbuf && g.chains == chains && g.i == i
        invariant g.k <= |chains[i]| && Links(hnext, cur, chains[i][g.k..]) && cur == PtrAt(chains[i], g.k)
        invariant Ahead(hnext, buckets, chains, i + 1) && |nbuf| == |nbuf0|
        decreases |chains[i]| - g.k
      {
        var e := cur.a;
        GrowFacts(g, i);
        GrowMove(g);
        GrowWalk(hnext, cur, chains[i], g.k, nbuf[info[e].hash % |nbuf|]);
        AheadKept(info, hnext, buckets, chains, i, e, nbuf[info[e].hash % |nbuf|]);
        var nx := hnext[e];
        LinksStart(hnext[e := nbuf[info[e].hash % |nbuf|]], nx, chains[i][g.k+1..]);
        var b := info[e].hash % |nbuf|;
        hnext := hnext[e := nbuf[b]];
        nbuf := nbuf[b := At(e)];
        g := GrowStep(g, e);
        cur := nx;
      }
    }

    // evict_tail, as often as it takes
    method MakeRoom(need: nat)
      requires Valid()
      modifies `info, `hnext, `prev, `next, `buckets, `head, `tail, `count, `used, `evicted, `order, `chains
      ensures Valid() && RoomMeets(old(Look()), budget - need, Look())
      ensures evicted + |order| == old(evicted + |order|) && evicted >= old(evicted) && |buckets| == |old(buckets)|
    {
      hide TableOk, Dll, RoomMeets, RoomTodo;
      ghost var t := Look();
      DllEnds(prev, next, head, tail, order);
      RoomStart(t, hash, budget, budget - need);
      while used + need > budget && tail.At?
        invariant Valid() && RoomTodo(t, budget - need, Look())
        invariant evicted + |order| == old(evicted + |order|) && evicted >= old(evicted) && |buckets| == |old(buckets)|
        decreases |order|
      {
        ghost var m := Look();
        DllEnds(prev, next, head, tail, order);
        TailEntry(m, hash, budget, tail);
        ItemsIn(m, hash, budget);
        evicted := evicted + 1;
        EntryDrop(tail.a, |order| - 1);
        ItemsIn(Look(), hash, budget);
        RoomStep(t, budget - need, m, Look(), hash, budget);
      }
      DllEnds(prev, next, head, tail, order);
      RoomEnd(t, budget - need, Look(), hash, budget);
    }

    // The part of do_set and xshared_incr that makes the new entry.
    method Insert(item: Item)
      requires Valid() && Clean(Contents(), item.key)
      requires used + Size(item) <= budget
      modifies `info, `hnext, `prev, `next, `buckets, `head, `tail, `count, `used, `order, `chains
      ensures Valid() && InsertMeets(old(Look()), item, Look())
      ensures |order| == |old(order)| + 1 && (Roomy(old(Look())) ==> Roomy(Look()))
    {
      hide TableOk, Dll, Clean, Items, Size, InsertMeets;
      ghost var t := Look();
      ghost var unused := FreshAddress(info.Keys);
      var e: Addr :| e !in info;
      var h := hash(item.key);
      ItemsIn(t, hash, budget);
      InsertInv(t, hash, budget, e, item);
      info := info[e := Info(h, item)];
      BucketInsert(e);
      LruPushFront(e);
      used := used + Size(item);
      count := count + 1;
      assert Look() == InsertStep(t, e, h, item);
      InsertedIs(t, e, h, item, hash, budget);
      ghost var t' := Look();
      CountIs(t', hash, budget);
      MaybeGrow();
      InsertGrown(t, item, t', Look());
    }

    // bucket_insert
    method BucketInsert(e: Addr)
      requires e in info && |buckets| == |chains| > 0
      modifies `hnext, `buckets, `chains
      ensures var b := info[e].hash % |old(buckets)|;
              && hnext == old(hnext)[e := old(buckets)[b]] && buckets == old(buckets)[b := At(e)]
              && chains == old(chains)[b := [e] + old(chains)[b]]
    {
      var b := info[e].hash % |buckets|;
      hnext := hnext[e := buckets[b]];
      buckets := buckets[b := At(e)];
      chains := chains[b := [e] + chains[b]];
    }

    method Put(item: Item)
      requires Valid() && Clean(Contents(), item.key) && Size(item) <= budget
      modifies `info, `hnext, `prev, `next, `buckets, `head, `tail, `count, `used, `evicted, `order, `chains
      ensures Valid() && Contents() == SharedSpec.Put(old(Contents()), budget, item)
      ensures evicted + |order| == old(evicted + |order|) + 1 && (Roomy(old(Look())) ==> Roomy(Look()))
    {
      hide TableOk, Dll, Clean, Fit, Total, Size, RoomMeets, InsertMeets, Items;
      ghost var t := Look();
      ItemsIn(t, hash, budget);
      MakeRoom(Size(item));
      ghost var m := Look();
      RoomMade(t, budget - Size(item), m, item.key);
      UsedIs(m, hash, budget);
      Insert(item);
      PutIs(t, budget, item, m, Look());
    }

    /** xshared_set, xshared_add and xshared_replace */
    method Set(key: Bytes, value: Value, ttl: int, now: int, mode: Mode) returns (st: Status)
      requires Valid()
      modifies this
      ensures Valid()
      ensures (st, Contents()) ==
              SharedSpec.Set(old(Contents()), budget, Item(key, value, Deadline(ttl, now)), now, mode)
      ensures st == TooBig ==> expired == old(expired) && evicted == old(evicted)
      ensures var (rest, f) := Lookup(old(Contents()), key, now);
              st != TooBig ==>
                && expired == old(expired) + |old(Contents())| - |rest|
                && evicted + expired + |Contents()|
                   == old(evicted + expired + |Contents()|) + (if st == Ok && f.None? then 1 else 0)
      ensures Roomy(old(Look())) ==> Roomy(Look())
    {
      hide TableOk, Dll, Clean, Fit, Lookup, Size, SharedSpec.Put;
      var item := Item(key, value, Deadline(ttl, now));
      ghost var items := Contents();
      if Size(item) > budget {
        return TooBig;
      }
      KeysUnique(Look(), hash, budget);
      var r, k := ShardLookup(key, now);
      ghost var rest, f := Contents(), Lookup(items, key, now).1;
      LookupExact(items, key, now);
      if r.Some? {
        if mode == ModeAdd {
          return Exists;
        }
        EntryDrop(r.value, k);
      } else if mode == ModeReplace {
        return NotFound;
      }
      OthersClean(rest, key, f);
      assert Contents() == Others(rest, f);
      Put(item);
      SetIs(items, budget, item, now, mode);
      st := Ok;
    }

    // xshared_get
    method Get(key: Bytes, now: int) returns (v: Option<Value>)
      requires Valid()
      modifies this
      ensures Valid() && (v, Contents()) == SharedSpec.Get(old(Contents()), key, now)
      ensures expired + |Contents()| == old(expired + |Contents()|) && evicted == old(evicted)
      ensures Eased(old(Look()), Look(), now)
    {
      hide TableOk, Dll, Lookup, ToFront, Eased;
      var r, k := ShardLookup(key, now);
      if r.None? {
        return None;
      }
      ghost var t := Look();
      EditEases(t, hash, budget, ToFront(order, k), now);
      DllUnique(prev, next, head, tail, order);
      TouchInv(t, hash, budget, k);
      LruTouch(r.value, k);
      v := Some(info[r.value].item.value);
    }

    // xshared_delete
    method Delete(key: Bytes, now: int) returns (st: Status)
      requires Valid()
      modifies this
      ensures Valid() && (st, Contents()) == SharedSpec.Delete(old(Contents()), key, now)
      ensures expired + |Contents()| + (if st == Ok then 1 else 0) == old(expired + |Contents()|)
      ensures evicted == old(evicted)
      ensures Eased(old(Look()), Look(), now)
    {
      hide TableOk, Dll, Lookup, Shrunk, Eased;
      var r, k := ShardLookup(key, now);
      if r.None? {
        return NotFound;
      }
      EntryDrop(r.value, k);
      ShrunkEases(old(Look()), Look(), now);
      st := Ok;
    }

    // The store into an entry's value or expiry.
    method Edit(e: Addr, ghost k: nat, item: Item)
      requires Valid() && k < |order| && order[k] == e && e in info
      requires item.key == info[e].item.key && Size(item) == Size(info[e].item)
      modifies `info
      ensures Valid() && k < |old(Contents())| && Contents() == old(Contents())[k := item]
      ensures Look() == old(Look()).(info := old(info)[e := old(info[e]).(item := item)])
    {
      hide TableOk, Dll, Size;
      DllUnique(prev, next, head, tail, order);
      EditInv(Look(), hash, budget, e, k, item);
      info := info[e := info[e].(item := item)];
    }

    // xshared_expire
    method Expire(key: Bytes, ttl: int, now: int) returns (st: Status)
      requires Valid()
      modifies this
      ensures Valid() && (st, Contents()) == SharedSpec.Expire(old(Contents()), key, ttl, now)
      ensures expired + |Contents()| == old(expired + |Contents()|) && evicted == old(evicted)
      ensures Eased(old(Look()), Look(), now)
    {
      hide TableOk, Dll, Lookup, Eased;
      var r, k := ShardLookup(key, now);
      if r.None? {
        return NotFound;
      }
      EditEases(Look(), hash, budget, order, now);
      Edit(r.value, k, info[r.value].item.(expire := Deadline(ttl, now)));
      st := Ok;
    }

    // xshared_ttl: -1 for a persistent item, else the time left.
    method Ttl(key: Bytes, now: int) returns (left: Option<int>)
      requires Valid()
      modifies this
      ensures Valid() && Contents() == Lookup(old(Contents()), key, now).0
      ensures left.Some? <==> Lookup(old(Contents()), key, now).1.Some?
      ensures left.Some? ==>
                var it := old(Contents())[Lookup(old(Contents()), key, now).1.value];
                left.value == (if it.expire == 0 then -1 else it.expire - now) && (left.value == -1 || left.value > 0)
      ensures expired + |Contents()| == old(expired + |Contents()|) && evicted == old(evicted)
      ensures Eased(old(Look()), Look(), now)
    {
      hide TableOk, Dll, Eased;
      var r, k := ShardLookup(key, now);
      if r.None? {
        return None;
      }
      var x := info[r.value].item.expire;
      left := Some(if x == 0 then -1 else x - now);
    }

    // xshared_incr on a live entry
    method Bump(e: Addr, ghost k: nat, delta: real, ghost now: int) returns (st: Status, sum: real)
      requires Valid() && k < |order| && order[k] == e && e in info
      modifies `info, `prev, `next, `head, `tail, `order
      ensures Valid() && k < |old(Contents())| && (st, Contents()) == SharedSpec.Bump(old(Contents()), k, delta)
      ensures st == Ok ==> |Contents()| > 0 && Contents()[0].value == Num(sum)
      ensures Eased(old(Look()), Look(), now) && |order| == |old(order)|
    {
      hide TableOk, Dll, Eased;
      sum := 0.0;
      ItemsIn(Look(), hash, budget);
      EditEases(Look(), hash, budget, order, now);
      if !info[e].item.value.Num? {
        return NotNum, 0.0;
      }
      ghost var it := info[e].item;
      Edit(e, k, Added(info[e].item, delta));
      ghost var t := Look();
      EditEases(t, hash, budget, ToFront(order, k), now);
      EasedTrans(old(Look()), t, t.(order := ToFront(order, k)), now);
      DllUnique(prev, next, head, tail, order);
      TouchInv(t, hash, budget, k);
      sum := info[e].item.value.num;
      LruTouch(e, k);
      st := Ok;
    }

    // xshared_incr, which hands the new number back
    method Incr(key: Bytes, delta: real, init: real, ttl: int, now: int) returns (st: Status, sum: real)
      requires Valid()
      modifies this
      ensures Valid() && (st, Contents()) == SharedSpec.Incr(old(Contents()), budget, key, delta, init, ttl, now)
      ensures st == Ok ==> |Contents()| > 0 && Contents()[0].value == Num(sum)
      ensures var l := Live(old(Contents()), now);
              if key in l then st == Ok <==> l[key].value.Num? else st == Ok <==> HEADER + |key| <= budget
      ensures var l := Live(old(Contents()), now);
              st == Ok ==> sum == (if key in l && l[key].value.Num? then l[key].value.num else init) + delta
      ensures Lookup(old(Contents()), key, now).1.Some? ==> Eased(old(Look()), Look(), now)
      ensures var (rest, f) := Lookup(old(Contents()), key, now);
              && expired == old(expired) + |old(Contents())| - |rest|
              && evicted + expired + |Contents()|
                 == old(evicted + expired + |Contents()|) + (if st == Ok && f.None? then 1 else 0)
      ensures Roomy(old(Look())) ==> Roomy(Look())
    {
      hide TableOk, Dll, Lookup, ToFront, SharedSpec.Bump, Fit, Size, Clean, Eased, Live;
      sum := 0.0;
      ghost var items := Contents();
      KeysUnique(Look(), hash, budget);
      IncrSum(items, budget, key, delta, init, ttl, now);
      var r, k := ShardLookup(key, now);
      LookupExact(items, key, now);
      if r.Some? {
        st, sum := Bump(r.value, k, delta, now);
        return;
      }
      var item := Item(key, Num(init + delta), Deadline(ttl, now));
      if Size(item) > budget {
        return TooBig, 0.0;
      }
      OthersClean(Contents(), key, None);
      Put(item);
      st, sum := Ok, init + delta;
    }

    // One step of the inner loop of sweep_expired on an expired entry.
    method SweepDrop(b: nat, pre: Ptr, e: Addr, ghost i: nat, now: int)
      requires Valid() && b < |chains| && SeenAlive(Look(), b, i, now) && i < |chains[b]| && chains[b][i] == e
      requires pre == PtrAt(chains[b], i - 1) && e in info && Dead(info[e].item, now)
      modifies this
      ensures Valid() && ReapedFrom(old(Contents()), Contents(), now)
      ensures Shrunk(old(Look()), Look()) && |buckets| == |old(buckets)|
      ensures SeenAlive(Look(), b, i, now) && |chains[b]| == |old(chains)[b]| - 1
      ensures |order| == |old(order)| - 1 && expired == old(expired) + 1 && evicted == old(evicted)
      ensures i <= |chains[b]| && ChainAt(Look(), b) && old(e in hnext && hnext[e] == PtrAt(chains[b], i + 1))
      ensures PtrAt(chains[b], i) == old(PtrAt(chains[b], i + 1)) && PtrAt(chains[b], i - 1) == pre
    {
      hide TableOk, Dll, SeenAlive, Shrunk, ReapedFrom;
      ghost var t := Look();
      ghost var k := FoundAt(t, hash, budget, e);
      assert b < |chains|;
      SeenUnique(t, hash, budget, b);
      DllUnique(prev, next, head, tail, order);
      ReapedRefl(Contents(), now);
      ReapedOne(Contents(), Contents(), k, now);
      LinksStep(hnext, buckets[b], chains[b], i);
      DropInv(t, hash, budget, b, i, k);
      DropAt(b, pre, e, i, k);
      expired := expired + 1;
      DropShrinks(t, hash, budget, b, i, k, Look());
      ChainOf(Look(), hash, budget, b);
      SeenDrop(t, b, i, k, now, Look());
    }

    // sweep_expired in one bucket: of the entries scanned, `kept` are alive and lead the chain now.
    method SweepBucket(b: nat, scanned0: nat, limit: nat, now: int)
      returns (scanned: nat, reaped: nat, paused: bool, ghost kept: nat)
      requires Valid() && b < |buckets| && (limit == 0 || scanned0 < limit)
      modifies this
      ensures Valid() && SweptFrom(old(Look()), Look(), now)
      ensures b < |chains| && (!paused ==> CleanChain(Look(), b, now))
      ensures b < |old(chains)| && scanned <= scanned0 + |old(chains)[b]|
      ensures if paused then limit > 0 && scanned == limit else limit == 0 || scanned < limit
      ensures SeenAlive(Look(), b, kept, now) && scanned == scanned0 + kept + reaped
      ensures reaped == |old(order)| - |order| == expired - old(expired) && evicted == old(evicted)
    {
      hide TableOk, Dll, SeenAlive, SweptFrom, CleanChain, ChainAt, PtrAt;
      ghost var t := Look();
      scanned, reaped, paused, kept := scanned0, 0, false, 0;
      SweptRefl(t, hash, budget, now);
      SeenUnique'(t, hash, budget, b, now);
      var cur, pre := buckets[b], Null;
      ghost var i := 0;
      PtrBounds(chains[b], 0);
      while cur.At?
        invariant Valid() && SweptFrom(t, Look(), now) && b < |chains| && b < |buckets|
        invariant SeenAlive(Look(), b, i, now) && ChainAt(Look(), b) && i <= |chains[b]|
        invariant cur == PtrAt(chains[b], i) && pre == PtrAt(chains[b], i - 1) && (cur.At? <==> i < |chains[b]|)
        invariant scanned + |chains[b]| - i == scanned0 + |t.chains[b]|
        invariant kept == i && scanned == scanned0 + kept + reaped && reaped == |t.order| - |order|
        invariant reaped == expired - old(expired) && evicted == old(evicted) && (limit == 0 || scanned < limit)
        decreases |chains[b]| - i
      {
        ghost var m := Look();
        PtrBounds(chains[b], i);
        ChainEntry(m, b, i);
        scanned := scanned + 1;
        var e := cur.a;
        if Dead(info[e].item, now) {
          cur := hnext[e];
          SweepDrop(b, pre, e, i, now);
          reaped := reaped + 1;
          SweptOne(m, Look(), now, hash, budget);
          SweptTrans(t, m, Look(), now);
        } else {
          SeenNext(m, b, i, now);
          pre, cur := cur, hnext[e];
          i := i + 1;
          kept := i;
        }
        PtrBounds(chains[b], i);
        if limit > 0 && scanned >= limit {
          paused := true;
          return;
        }
      }
      SeenAll(Look(), b, now);
    }

    /** sweep_expired in one shard, from the saved bucket on: only expired entries go, every bucket
        passed is left clean, and a pause before the end means the budget of scans is used up.  The
        first `kept` entries of the bucket it pauses in are alive. */
    method SweepShard(from: nat, scanned0: nat, limit: nat, now: int)
      returns (bi: nat, scanned: nat, reaped: nat, paused: bool, ghost kept: nat)
      requires Valid() && (limit == 0 || scanned0 < limit)
      modifies this
      ensures Valid() && SweptFrom(old(Look()), Look(), now)
      ensures var lo := if from >= |old(buckets)| then 0 else from;
              && lo <= bi <= |buckets| && CleanRange(Look(), lo, bi, now)
              && (!paused ==> bi == |buckets|)
              && (paused ==> bi < |buckets| && limit > 0)
              && (paused && lo < |old(chains)| && scanned0 + |old(chains)[lo]| < limit ==> bi > lo)
      ensures paused ==> SeenAlive(Look(), bi, kept, now)
      ensures reaped == |old(order)| - |order| == expired - old(expired) && evicted == old(evicted)
      ensures if paused then scanned == limit else limit == 0 || scanned < limit
      ensures scanned >= scanned0 + reaped
    {
      hide TableOk, Dll, SweptFrom, CleanChain, CleanRange, SeenAlive;
      ghost var t := Look();
      BucketCount(t, hash, budget);
      SweptRefl(t, hash, budget, now);
      kept := 0;
      bi, scanned, reaped, paused := if from >= |buckets| then 0 else from, scanned0, 0, false;
      ghost var lo := bi;
      CleanNone(t, lo, now);
      while bi < |buckets|
        invariant Valid() && SweptFrom(t, Look(), now)
        invariant |buckets| == |t.buckets| && lo <= bi <= |buckets| && CleanRange(Look(), lo, bi, now)
        invariant bi == lo ==> scanned == scanned0 && Look() == t
        invariant !paused && reaped == |t.order| - |order| == expired - old(expired) && evicted == old(evicted)
        invariant (limit == 0 || scanned < limit) && scanned >= scanned0 + reaped
        decreases |t.buckets| - bi
      {
        ghost var m := Look();
        var n;
        scanned, n, paused, kept := SweepBucket(bi, scanned, limit, now);
        reaped := reaped + n;
        SweptTrans(t, m, Look(), now);
        SweptSizes(t, Look(), now);
        CleanRangeKept(m, Look(), lo, bi, now);
        if paused {
          return;
        }
        CleanExtend(Look(), lo, bi, now);
        bi := bi + 1;
      }
    }
  }
}
