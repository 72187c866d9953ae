/**
 The recency order of a shard (xshared.c): what each operation makes of the order of the other items.
 `Without` says it without reference to how an item is found.
 */
module SharedRecency {
  import opened Common
  import opened SharedSpec

  // The other items, in their order.
  function Without(items: seq<Item>, key: Bytes): seq<Item> {
    if items == [] then []
    else
      var init := Without(items[..|items|-1], key);
      if items[|items|-1].key == key then init else init + [items[|items|-1]]
  }

  lemma {:induction false} WithoutNone(items: seq<Item>, key: Bytes)
    requires forall i :: 0 <= i < |items| ==> items[i].key != key
    ensures Without(items, key) == items
    decreases |items|
  {
    if items != [] {
      WithoutNone(items[..|items|-1], key);
    }
  }

  lemma {:induction false} WithoutAt(items: seq<Item>, k: nat)
    requires UniqueKeys(items) && k < |items|
    ensures Without(items, items[k].key) == RemoveAt(items, k)
    decreases |items|
  {
    var init := items[..|items|-1];
    if k == |items| - 1 {
      WithoutNone(init, items[k].key);
      assert items[k+1..] == [];
    } else {
      WithoutAt(init, k);
      assert RemoveAt(init, k) + [items[|items|-1]] == RemoveAt(items, k);
    }
  }

  // A lookup touches the item of its key only.
  lemma LookupOthers(items: seq<Item>, key: Bytes, now: int)
    requires UniqueKeys(items)
    ensures var (rest, f) := Lookup(items, key, now);
            && (f.None? ==> rest == Without(items, key) && key !in Live(items, now))
            && (f.Some? ==> rest == items && RemoveAt(rest, f.value) == Without(items, key)
                            && key in Live(items, now) && Live(items, now)[key] == rest[f.value])
  {
    LookupLive(items, key, now, now);
    var g := Find(items, key);
    if g.Some? {
      WithoutAt(items, g.value);
    } else {
      WithoutNone(items, key);
    }
  }

  // `r` is the new item in front of as many of the others, most recent first, as the budget allows.
  ghost predicate PutInFront(others: seq<Item>, budget: nat, item: Item, r: seq<Item>) {
    && |r| > 0 && r[0] == item && r[1..] <= others
    && (|r| <= |others| ==> Size(item) + Total(others[..|r|]) > budget)
  }

  lemma PutIsInFront(others: seq<Item>, budget: nat, item: Item)
    ensures PutInFront(others, budget, item, [item] + Fit(others, budget - Size(item)))
  {
    var fit := Fit(others, budget - Size(item));
    FitIsTight(others, budget - Size(item));
    assert ([item] + fit)[1..] == fit;
  }

  /** set, add and replace put the item in front and keep the order of the others; only the least
      recently used go, and no more of them than needed.  Where they fail, at most an expired item of
      that key goes. */
  lemma SetOrder(items: seq<Item>, budget: nat, item: Item, now: int, mode: Mode)
    requires UniqueKeys(items)
    ensures var (st, r) := Set(items, budget, item, now, mode);
            var others := Without(items, item.key);
            if st == Ok then PutInFront(others, budget, item, r)
            else if st == NotFound then r == others
            else r == items
  {
    hide Find, Live, Total, Fit, Without;
    LookupOthers(items, item.key, now);
    PutIsInFront(Without(items, item.key), budget, item);
  }

  /** A read moves a live item to the front of the others. */
  lemma GetOrder(items: seq<Item>, key: Bytes, now: int)
    requires UniqueKeys(items)
    ensures var (v, r) := Get(items, key, now);
            var others := Without(items, key);
            if key in Live(items, now) then r == [Live(items, now)[key]] + others else r == others
  {
    hide Find, Live, Without;
    LookupOthers(items, key, now);
  }

  /** A delete leaves the others, whether the item was live, expired or not there. */
  lemma DeleteOrder(items: seq<Item>, key: Bytes, now: int)
    requires UniqueKeys(items)
    ensures Delete(items, key, now).1 == Without(items, key)
  {
    hide Find, Live, Without;
    LookupOthers(items, key, now);
  }

  /** An increment moves the number to the front, or puts the new one there as a set does. */
  lemma IncrOrder(items: seq<Item>, budget: nat, key: Bytes, delta: real, init: real, ttl: int, now: int)
    requires UniqueKeys(items)
    ensures var (st, r) := Incr(items, budget, key, delta, init, ttl, now);
            var others := Without(items, key);
            if key in Live(items, now) then
              var it := Live(items, now)[key];
              if it.value.Num? then st == Ok && r == [Item(key, Num(it.value.num + delta), it.expire)] + others
              else st == NotNum && r == items
            else if st == Ok then PutInFront(others, budget, Item(key, Num(init + delta), Deadline(ttl, now)), r)
            else r == others
  {
    hide Find, Live, Total, Fit, Without, Size;
    LookupOthers(items, key, now);
    var (rest, f) := Lookup(items, key, now);
    if f.Some? {
      assert RemoveAt(rest[f.value := Added(rest[f.value], delta)], f.value) == RemoveAt(rest, f.value);
    } else {
      PutIsInFront(rest, budget, Item(key, Num(init + delta), Deadline(ttl, now)));
    }
  }

  /** A new deadline leaves the order alone. */
  lemma ExpireOrder(items: seq<Item>, key: Bytes, ttl: int, now: int)
    requires UniqueKeys(items)
    ensures var (st, r) := Expire(items, key, ttl, now);
            if st == Ok then
              |r| == |items| && forall i :: 0 <= i < |r| ==>
                r[i] == if items[i].key == key then items[i].(expire := Deadline(ttl, now)) else items[i]
            else r == Without(items, key)
  {
    hide Live, Without;
    LookupOthers(items, key, now);
  }
}
