/**
 What a shard of xshared.c is for its callers: a list of items, most recently used first, with
 unique keys and a byte budget.
 */
module SharedSpec {
  import opened Common

  datatype Value = Num(num: real) | Bool(b: bool) | Str(s: Bytes)

  // `expire` is 0 for a persistent item, else the clock value from which it is dead.
  datatype Item = Item(key: Bytes, value: Value, expire: int)

  datatype Status = Ok | NotFound | Exists | TooBig | NotNum

  datatype Mode = ModeSet | ModeAdd | ModeReplace

  const HEADER: nat := 64

  function Size(i: Item): nat {
    HEADER + |i.key| + (if i.value.Str? then |i.value.s| else 0)
  }

  predicate Dead(i: Item, now: int) {
    i.expire != 0 && i.expire <= now
  }

  function Deadline(ttl: int, now: int): int {
    if ttl > 0 then now + ttl else 0
  }

  function Total(items: seq<Item>): (n: nat) {
    if items == [] then 0 else Total(items[..|items|-1]) + Size(items[|items|-1])
  }

  ghost predicate UniqueKeys(items: seq<Item>) {
    forall i, j :: 0 <= i < j < |items| ==> items[i].key != items[j].key
  }

  ghost predicate Legal(items: seq<Item>, budget: nat) {
    UniqueKeys(items) && Total(items) <= budget
  }

  function Find(items: seq<Item>, key: Bytes): (r: Option<nat>)
    ensures r.Some? ==> r.value < |items| && items[r.value].key == key
    ensures r.None? ==> forall i :: 0 <= i < |items| ==> items[i].key != key
  {
    if items == [] then None
    else if items[|items|-1].key == key then Some(|items|-1)
    else Find(items[..|items|-1], key)
  }

  function RemoveAt<T>(xs: seq<T>, k: nat): (r: seq<T>)
    requires k < |xs|
    ensures |r| == |xs| - 1
  {
    xs[..k] + xs[k+1..]
  }

  lemma RemoveAtIndex<T>(xs: seq<T>, k: nat, i: nat)
    requires k < |xs| && i < |xs| - 1
    ensures RemoveAt(xs, k)[i] == xs[if i < k then i else i + 1]
  {
  }

  function ToFront<T>(xs: seq<T>, k: nat): (r: seq<T>)
    requires k < |xs|
    ensures |r| == |xs|
  {
    [xs[k]] + RemoveAt(xs, k)
  }

  // What is left when the least recently used items go until `room` bytes suffice.
  function Fit(items: seq<Item>, room: int): (r: seq<Item>)
    ensures r <= items
    decreases |items|
  {
    if items != [] && Total(items) > room then Fit(items[..|items|-1], room) else items
  }

  // The list after a lookup at time `now`, and where the live item is.
  function Lookup(items: seq<Item>, key: Bytes, now: int): (r: (seq<Item>, Option<nat>))
    ensures r.1.Some? ==> r.0 == items && r.1.value < |items| && items[r.1.value].key == key
                          && !Dead(items[r.1.value], now)
  {
    var f := Find(items, key);
    if f.Some? && Dead(items[f.value], now) then (RemoveAt(items, f.value), None) else (items, f)
  }

  function Set(items: seq<Item>, budget: nat, item: Item, now: int, mode: Mode): (Status, seq<Item>) {
    if Size(item) > budget then (TooBig, items)
    else
      var (rest, f) := Lookup(items, item.key, now);
      if f.Some? && mode == ModeAdd then (Exists, rest)
      else if f.None? && mode == ModeReplace then (NotFound, rest)
      else
        var others := if f.Some? then RemoveAt(rest, f.value) else rest;
        (Ok, [item] + Fit(others, budget - Size(item)))
  }

  function Get(items: seq<Item>, key: Bytes, now: int): (Option<Value>, seq<Item>) {
    var (rest, f) := Lookup(items, key, now);
    if f.None? then (None, rest) else (Some(rest[f.value].value), ToFront(rest, f.value))
  }

  function Delete(items: seq<Item>, key: Bytes, now: int): (Status, seq<Item>) {
    var (rest, f) := Lookup(items, key, now);
    if f.None? then (NotFound, rest) else (Ok, RemoveAt(rest, f.value))
  }

  function Bump(items: seq<Item>, k: nat, delta: real): (Status, seq<Item>)
    requires k < |items|
  {
    if !items[k].value.Num? then (NotNum, items)
    else (Ok, ToFront(items[k := Added(items[k], delta)], k))
  }

  function Added(it: Item, delta: real): Item {
    if it.value.Num? then it.(value := Num(it.value.num + delta)) else it
  }

  function Incr(items: seq<Item>, budget: nat, key: Bytes, delta: real, init: real, ttl: int, now: int):
    (Status, seq<Item>)
  {
    var (rest, f) := Lookup(items, key, now);
    if f.Some? then Bump(rest, f.value, delta)
    else
      var item := Item(key, Num(init + delta), Deadline(ttl, now));
      if Size(item) > budget then (TooBig, rest)
      else (Ok, [item] + Fit(rest, budget - Size(item)))
  }

  function Expire(items: seq<Item>, key: Bytes, ttl: int, now: int): (Status, seq<Item>) {
    var (rest, f) := Lookup(items, key, now);
    if f.None? then (NotFound, rest)
    else (Ok, rest[f.value := rest[f.value].(expire := Deadline(ttl, now))])
  }

  // ---------- what a caller can see ----------

  // The live items as a map.
  ghost function Live(items: seq<Item>, now: int): map<Bytes, Item> {
    map k | k in KeySet(items) && Find(items, k).Some? && !Dead(items[Find(items, k).value], now) ::
      items[Find(items, k).value]
  }

  ghost function KeySet(items: seq<Item>): set<Bytes> {
    set i | 0 <= i < |items| :: items[i].key
  }

  lemma {:induction false} FindAt(items: seq<Item>, i: nat)
    requires UniqueKeys(items) && i < |items|
    ensures Find(items, items[i].key) == Some(i)
    decreases |items|
  {
    if i < |items| - 1 {
      FindAt(items[..|items|-1], i);
    }
  }

  lemma LiveAt(items: seq<Item>, now: int, i: nat)
    requires UniqueKeys(items) && i < |items|
    ensures items[i].key in Live(items, now) <==> !Dead(items[i], now)
    ensures items[i].key in Live(items, now) ==> Live(items, now)[items[i].key] == items[i]
  {
    FindAt(items, i);
    assert items[i].key in KeySet(items);
  }

  lemma LiveWhere(items: seq<Item>, now: int, k: Bytes) returns (i: nat)
    requires UniqueKeys(items) && k in Live(items, now)
    ensures i < |items| && items[i].key == k && !Dead(items[i], now) && Live(items, now)[k] == items[i]
  {
    i := Find(items, k).value;
  }

  lemma TotalSnoc(items: seq<Item>, x: Item)
    ensures Total(items + [x]) == Total(items) + Size(x)
  {
    assert (items + [x])[..|items|] == items;
  }

  lemma {:induction false} TotalRemove(items: seq<Item>, k: nat)
    requires k < |items|
    ensures Total(items) == Total(RemoveAt(items, k)) + Size(items[k])
    decreases |items|
  {
    var init, last := items[..|items|-1], items[|items|-1];
    if k == |items| - 1 {
      assert RemoveAt(items, k) == init;
    } else {
      TotalRemove(init, k);
      assert RemoveAt(items, k) == RemoveAt(init, k) + [last];
      TotalSnoc(RemoveAt(init, k), last);
    }
  }

  lemma TotalCons(x: Item, items: seq<Item>)
    ensures Total([x] + items) == Size(x) + Total(items)
  {
    assert RemoveAt([x] + items, 0) == items;
    TotalRemove([x] + items, 0);
  }

  function KeyBytes(items: seq<Item>): nat {
    if items == [] then 0 else |items[0].key| + KeyBytes(items[1..])
  }

  function TextBytes(items: seq<Item>): nat {
    if items == [] then 0
    else (if items[0].value.Str? then |items[0].value.s| else 0) + TextBytes(items[1..])
  }

  /** What the budget limits: the keys, the strings, and 64 bytes for each entry. */
  lemma {:induction false} TotalCounts(items: seq<Item>)
    ensures Total(items) == 64 * |items| + KeyBytes(items) + TextBytes(items)
    decreases |items|
  {
    if items != [] {
      assert items == [items[0]] + items[1..];
      TotalCons(items[0], items[1..]);
      TotalCounts(items[1..]);
    }
  }

  lemma RemoveAtMembers(items: seq<Item>, k: nat)
    requires UniqueKeys(items) && k < |items|
    ensures UniqueKeys(RemoveAt(items, k))
    ensures forall i :: 0 <= i < |RemoveAt(items, k)| ==> RemoveAt(items, k)[i].key != items[k].key
  {
  }

  /** Making room drops the shortest tail that suffices: the result fits if anything does, and
      one item more would not have fitted. */
  lemma {:induction false} FitIsTight(items: seq<Item>, room: int)
    ensures var r := Fit(items, room);
            && (room >= 0 ==> Total(r) <= room)
            && (|r| < |items| ==> Total(items[..|r|+1]) > room)
    decreases |items|
  {
    if items != [] && Total(items) > room {
      var init := items[..|items|-1];
      FitIsTight(init, room);
      var r := Fit(init, room);
      if |r| < |init| {
        assert init[..|r|+1] == items[..|r|+1];
      } else {
        assert items[..|r|+1] == items;
      }
    }
  }

  lemma LookupLegal(items: seq<Item>, budget: nat, key: Bytes, now: int)
    requires Legal(items, budget)
    ensures Legal(Lookup(items, key, now).0, budget)
  {
    var f := Find(items, key);
    if f.Some? && Dead(items[f.value], now) {
      TotalRemove(items, f.value);
    }
  }

  // After the lookup the key occurs at the index found and nowhere else.
  lemma LookupExact(items: seq<Item>, key: Bytes, now: int)
    requires UniqueKeys(items)
    ensures var (rest, f) := Lookup(items, key, now);
            && UniqueKeys(rest)
            && (f.None? ==> forall i :: 0 <= i < |rest| ==> rest[i].key != key)
  {
    var f := Find(items, key);
    if f.Some? && Dead(items[f.value], now) {
      RemoveAtMembers(items, f.value);
    }
  }

  /** Set, add and replace keep keys unique and the budget respected, and say what became visible:
      on success the new item, and otherwise only old items, each unchanged; on failure nothing
      changes that a caller could see. */
  lemma SetMeaning(items: seq<Item>, budget: nat, item: Item, now: int, mode: Mode)
    requires Legal(items, budget)
    ensures var (st, r) := Set(items, budget, item, now, mode);
            var live := Live(items, now);
            var size := 64 + |item.key| + (if item.value.Str? then |item.value.s| else 0);
            && Legal(r, budget)
            && (st == TooBig <==> size > budget)
            && (st == Exists <==> size <= budget && item.key in live && mode == ModeAdd)
            && (st == NotFound <==> size <= budget && item.key !in live && mode == ModeReplace)
            && (st == Ok ==> |r| > 0 && r[0] == item && NothingNew(items, r, item.key, now))
            && (st != Ok ==> Live(r, now) == live)
  {
    LookupExact(items, item.key, now);
    LookupLegal(items, budget, item.key, now);
    LookupLive(items, item.key, now, now);
    var (rest, f) := Lookup(items, item.key, now);
    hide UniqueKeys, Total, Live, Find, Lookup, Fit, NothingNew, Clean;
    if Set(items, budget, item, now, mode).0 == Ok {
      OthersClean(rest, item.key, f);
      PutLegal(Others(rest, f), budget, item);
      PutNothingNew(rest, budget, item, f, now);
      NothingNewSame(items, rest, Set(items, budget, item, now, mode).1, item.key, now);
    }
  }

  // Apart from `key`, what is visible in `r` was visible in `items`, and unchanged.
  ghost predicate NothingNew(items: seq<Item>, r: seq<Item>, key: Bytes, now: int) {
    forall k :: k != key && k in Live(r, now) ==> k in Live(items, now) && Live(items, now)[k] == Live(r, now)[k]
  }

  lemma NothingNewSame(items: seq<Item>, rest: seq<Item>, r: seq<Item>, key: Bytes, now: int)
    requires Live(items, now) == Live(rest, now) && NothingNew(rest, r, key, now)
    ensures NothingNew(items, r, key, now)
  {
  }

  // The second half of a successful set: the replaced item is out; make room, go to the front.
  function Put(others: seq<Item>, budget: nat, item: Item): seq<Item> {
    [item] + Fit(others, budget - Size(item))
  }

  ghost predicate Clean(others: seq<Item>, key: Bytes) {
    UniqueKeys(others) && forall i :: 0 <= i < |others| ==> others[i].key != key
  }

  lemma PutLegal(others: seq<Item>, budget: nat, item: Item)
    requires Clean(others, item.key) && Size(item) <= budget
    ensures Legal(Put(others, budget, item), budget)
  {
    hide UniqueKeys, Clean, Total, Size, Fit;
    var r := Fit(others, budget - Size(item));
    ConsUnique(item, others, r);
    FitIsTight(others, budget - Size(item));
    TotalCons(item, r);
  }

  lemma ConsUnique(item: Item, others: seq<Item>, r: seq<Item>)
    requires Clean(others, item.key) && r <= others
    ensures UniqueKeys([item] + r)
  {
  }

  function Others(rest: seq<Item>, f: Option<nat>): seq<Item>
    requires f.Some? ==> f.value < |rest|
  {
    if f.Some? then RemoveAt(rest, f.value) else rest
  }

  lemma OthersClean(rest: seq<Item>, key: Bytes, f: Option<nat>)
    requires UniqueKeys(rest)
    requires if f.Some? then f.value < |rest| && rest[f.value].key == key
             else forall i :: 0 <= i < |rest| ==> rest[i].key != key
    ensures Clean(Others(rest, f), key)
  {
    if f.Some? {
      RemoveAtMembers(rest, f.value);
    }
  }

  lemma PutPrefix(others: seq<Item>, budget: nat, item: Item)
    ensures var r := Put(others, budget, item);
            |r| > 0 && r[0] == item && forall i :: 0 < i < |r| ==> i - 1 < |others| && r[i] == others[i-1]
  {
    hide Fit;
    var r, fit := Put(others, budget, item), Fit(others, budget - Size(item));
    forall i | 0 < i < |r|
      ensures i - 1 < |others| && r[i] == others[i-1]
    {
      assert r[i] == fit[i-1] && fit == others[..|fit|];
    }
  }

  lemma PutNothingNew(rest: seq<Item>, budget: nat, item: Item, f: Option<nat>, now: int)
    requires UniqueKeys(rest) && (f.Some? ==> f.value < |rest|)
    requires Clean(Others(rest, f), item.key) && Size(item) <= budget
    ensures NothingNew(rest, Put(Others(rest, f), budget, item), item.key, now)
  {
    hide Live, Put, Fit, Total, Size, Clean, UniqueKeys;
    var others := Others(rest, f);
    var r := Put(others, budget, item);
    PutLegal(others, budget, item);
    PutPrefix(others, budget, item);
    assert r[0].key == item.key;
    forall k | k != item.key && k in Live(r, now)
      ensures k in Live(rest, now) && Live(rest, now)[k] == Live(r, now)[k]
    {
      var i := LiveWhere(r, now, k);
      assert r[i] == others[i - 1];
      SurvivorLive(rest, others, f, i - 1, now);
    }
  }

  lemma SurvivorLive(rest: seq<Item>, others: seq<Item>, f: Option<nat>, i: nat, now: int)
    requires UniqueKeys(rest) && (f.Some? ==> f.value < |rest|)
    requires others == (if f.Some? then RemoveAt(rest, f.value) else rest)
    requires i < |others| && !Dead(others[i], now)
    ensures others[i].key in Live(rest, now) && Live(rest, now)[others[i].key] == others[i]
  {
    var j := if f.Some? && i >= f.value then i + 1 else i;
    assert others[i] == rest[j];
    LiveAt(rest, now, j);
  }

  /** A lookup is invisible: reaping an expired item changes nothing for any caller at this time
      or later, and the item found is live. */
  lemma LookupLive(items: seq<Item>, key: Bytes, now: int, later: int)
    requires UniqueKeys(items) && now <= later
    ensures var (rest, f) := Lookup(items, key, now);
            && Live(rest, later) == Live(items, later)
            && (f.Some? <==> key in Live(items, now))
            && (f.Some? ==> Live(items, now)[key] == rest[f.value])
  {
    var (rest, f) := Lookup(items, key, now);
    var g := Find(items, key);
    if g.Some? {
      LiveAt(items, now, g.value);
    }
    if rest != items {
      RemoveAtMembers(items, g.value);
      LiveAfterRemove(items, g.value, later);
    }
  }

  lemma RemoveOther(items: seq<Item>, k: nat, now: int, x: Bytes)
    requires k < |items| && UniqueKeys(items) && UniqueKeys(RemoveAt(items, k))
    ensures x in Live(RemoveAt(items, k), now) <==> x in Live(items, now) && x != items[k].key
    ensures x in Live(RemoveAt(items, k), now) && x in Live(items, now) ==>
              Live(RemoveAt(items, k), now)[x] == Live(items, now)[x]
  {
    hide Live;
    var r := RemoveAt(items, k);
    if x in Live(r, now) {
      var i := LiveWhere(r, now, x);
      var j := if i < k then i else i + 1;
      assert r[i] == items[j];
      LiveAt(items, now, j);
    }
    if x in Live(items, now) && x != items[k].key {
      var j := LiveWhere(items, now, x);
      var i := if j < k then j else j - 1;
      assert r[i] == items[j];
      LiveAt(r, now, i);
    }
  }

  lemma LiveAfterRemove(items: seq<Item>, k: nat, now: int)
    requires UniqueKeys(items) && k < |items|
    ensures Live(RemoveAt(items, k), now) == Live(items, now) - {items[k].key}
  {
    RemoveAtMembers(items, k);
    hide Live, UniqueKeys, RemoveAt;
    forall x
      ensures x in Live(RemoveAt(items, k), now) <==> x in Live(items, now) && x != items[k].key
      ensures x in Live(RemoveAt(items, k), now) && x in Live(items, now) ==>
                Live(RemoveAt(items, k), now)[x] == Live(items, now)[x]
    {
      RemoveOther(items, k, now, x);
    }
  }

  lemma ToFrontUnique(items: seq<Item>, k: nat)
    requires UniqueKeys(items) && k < |items|
    ensures UniqueKeys(ToFront(items, k))
  {
    RemoveAtMembers(items, k);
  }

  lemma LiveToFront(items: seq<Item>, k: nat, now: int)
    requires UniqueKeys(items) && k < |items|
    ensures UniqueKeys(ToFront(items, k)) && Live(ToFront(items, k), now) == Live(items, now)
  {
    var r := ToFront(items, k);
    ToFrontUnique(items, k);
    hide Live, UniqueKeys, ToFront;
    forall x
      ensures x in Live(r, now) <==> x in Live(items, now)
      ensures x in Live(items, now) ==> Live(r, now)[x] == Live(items, now)[x]
    {
      if x in Live(r, now) {
        ToFrontOld(items, k, now, x);
      }
      if x in Live(items, now) {
        ToFrontKept(items, k, now, x);
      }
    }
  }

  lemma ToFrontOld(items: seq<Item>, k: nat, now: int, x: Bytes)
    requires UniqueKeys(items) && k < |items| && UniqueKeys(ToFront(items, k)) && x in Live(ToFront(items, k), now)
    ensures x in Live(items, now)
  {
    var r := ToFront(items, k);
    hide Live, UniqueKeys;
    var i := LiveWhere(r, now, x);
    var j := if i == 0 then k else if i - 1 < k then i - 1 else i;
    assert r[i] == items[j];
    LiveAt(items, now, j);
  }

  lemma ToFrontKept(items: seq<Item>, k: nat, now: int, x: Bytes)
    requires UniqueKeys(items) && k < |items| && UniqueKeys(ToFront(items, k)) && x in Live(items, now)
    ensures x in Live(ToFront(items, k), now) && Live(ToFront(items, k), now)[x] == Live(items, now)[x]
  {
    var r := ToFront(items, k);
    hide Live, UniqueKeys;
    var j := LiveWhere(items, now, x);
    var i := if j == k then 0 else if j < k then j + 1 else j;
    assert r[i] == items[j];
    LiveAt(r, now, i);
  }

  lemma ReplaceOther(items: seq<Item>, k: nat, it: Item, now: int, x: Bytes)
    requires k < |items| && UniqueKeys(items) && UniqueKeys(items[k := it]) && it.key == items[k].key && x != it.key
    ensures x in Live(items[k := it], now) <==> x in Live(items, now)
    ensures x in Live(items, now) ==> Live(items[k := it], now)[x] == Live(items, now)[x]
  {
    hide Live;
    if x in Live(items, now) {
      var i := LiveWhere(items, now, x);
      LiveAt(items[k := it], now, i);
    }
    if x in Live(items[k := it], now) {
      var i := LiveWhere(items[k := it], now, x);
      LiveAt(items, now, i);
    }
  }

  lemma ReplaceUnique(items: seq<Item>, k: nat, it: Item)
    requires k < |items| && UniqueKeys(items) && it.key == items[k].key
    ensures UniqueKeys(items[k := it])
  {
  }

  lemma ReplaceOthers(items: seq<Item>, k: nat, it: Item, now: int)
    requires k < |items| && UniqueKeys(items) && UniqueKeys(items[k := it]) && it.key == items[k].key
    ensures Live(items[k := it], now) - {it.key} == Live(items, now) - {it.key}
  {
    hide Live, UniqueKeys;
    forall x | x != it.key
      ensures x in Live(items[k := it], now) <==> x in Live(items, now)
      ensures x in Live(items, now) ==> Live(items[k := it], now)[x] == Live(items, now)[x]
    {
      ReplaceOther(items, k, it, now, x);
    }
  }

  lemma LiveReplace(items: seq<Item>, k: nat, it: Item, now: int)
    requires UniqueKeys(items) && k < |items| && it.key == items[k].key
    ensures UniqueKeys(items[k := it])
    ensures Live(items[k := it], now) ==
            if Dead(it, now) then Live(items, now) - {it.key} else Live(items, now)[it.key := it]
  {
    ReplaceUnique(items, k, it);
    hide Live, UniqueKeys, Dead;
    LiveAt(items[k := it], now, k);
    ReplaceOthers(items, k, it, now);
    SameElsewhere(Live(items[k := it], now), Live(items, now), it.key);
  }

  // A map is known from its value at one key and from the rest.
  lemma SameElsewhere(m: map<Bytes, Item>, m0: map<Bytes, Item>, k: Bytes)
    requires m - {k} == m0 - {k}
    ensures m == if k in m then m0[k := m[k]] else m0 - {k}
  {
    forall x | x != k
      ensures x in m <==> x in m0
      ensures x in m ==> m[x] == m0[x]
    {
      assert x in m <==> x in m - {k};
      assert x in m0 <==> x in m0 - {k};
    }
  }

  lemma TotalToFront(items: seq<Item>, k: nat)
    requires k < |items|
    ensures Total(ToFront(items, k)) == Total(items)
  {
    TotalRemove(items, k);
    TotalCons(items[k], RemoveAt(items, k));
  }

  lemma TotalReplace(items: seq<Item>, k: nat, it: Item)
    requires k < |items| && Size(it) == Size(items[k])
    ensures Total(items[k := it]) == Total(items)
  {
    TotalRemove(items, k);
    TotalRemove(items[k := it], k);
    assert RemoveAt(items[k := it], k) == RemoveAt(items, k);
  }

  /** A get returns exactly the live value; it moves the item to the front, which no caller can
      tell now or later. */
  lemma GetMeaning(items: seq<Item>, budget: nat, key: Bytes, now: int, later: int)
    requires Legal(items, budget) && now <= later
    ensures var (v, r) := Get(items, key, now);
            && Legal(r, budget) && Live(r, later) == Live(items, later)
            && (v.Some? <==> key in Live(items, now))
            && (v.Some? ==> Live(items, now)[key].value == v.value && r[0].key == key)
  {
    LookupLegal(items, budget, key, now);
    LookupLive(items, key, now, later);
    var (rest, f) := Lookup(items, key, now);
    hide Live, Total, Find, Lookup;
    if f.Some? {
      LiveToFront(rest, f.value, later);
      TotalToFront(rest, f.value);
    }
  }

  /** A delete succeeds exactly on a live key, and takes that key and nothing else out of sight. */
  lemma DeleteMeaning(items: seq<Item>, budget: nat, key: Bytes, now: int, later: int)
    requires Legal(items, budget) && now <= later
    ensures var (st, r) := Delete(items, key, now);
            && Legal(r, budget)
            && (st == Ok <==> key in Live(items, now)) && (st == Ok || st == NotFound)
            && Live(r, later) == (if st == Ok then Live(items, later) - {key} else Live(items, later))
  {
    LookupLegal(items, budget, key, now);
    LookupLive(items, key, now, later);
    var (rest, f) := Lookup(items, key, now);
    hide Live, Total, Find, Lookup;
    if f.Some? {
      RemoveAtMembers(rest, f.value);
      TotalRemove(rest, f.value);
      LiveAfterRemove(rest, f.value, later);
    }
  }

  /** A new lifetime takes effect exactly: the item is seen until its deadline and not after. */
  lemma ExpireMeaning(items: seq<Item>, budget: nat, key: Bytes, ttl: int, now: int, later: int)
    requires Legal(items, budget) && 0 <= now <= later
    ensures var (st, r) := Expire(items, key, ttl, now);
            && Legal(r, budget)
            && (st == Ok <==> key in Live(items, now)) && (st == Ok || st == NotFound)
            && (st == NotFound ==> Live(r, later) == Live(items, later))
            && (st == Ok ==> Live(r, later) - {key} == Live(items, later) - {key}
                             && (key in Live(r, later) <==> ttl <= 0 || later < now + ttl)
                             && (key in Live(r, later) ==> Live(r, later)[key].value == Live(items, now)[key].value))
  {
    hide Live, Total, Find, Lookup, UniqueKeys;
    LookupLegal(items, budget, key, now);
    LookupLive(items, key, now, later);
    LookupLive(items, key, now, now);
    var (rest, f) := Lookup(items, key, now);
    if f.Some? {
      var it := rest[f.value].(expire := Deadline(ttl, now));
      LiveReplace(rest, f.value, it, later);
      TotalReplace(rest, f.value, it);
    }
  }

  /** An increment of a live number adds in place, of another live value it fails, and in
      both cases nothing else changes. */
  lemma IncrFoundMeaning(items: seq<Item>, budget: nat, key: Bytes, delta: real, init: real, ttl: int, now: int)
    requires Legal(items, budget) && key in Live(items, now)
    ensures var (st, r) := Incr(items, budget, key, delta, init, ttl, now);
            var it := Live(items, now)[key];
            && Legal(r, budget)
            && (it.value.Num? ==>
                  && st == Ok && |r| > 0 && r[0] == Item(key, Num(it.value.num + delta), it.expire)
                  && Live(r, now) == Live(items, now)[key := Item(key, Num(it.value.num + delta), it.expire)])
            && (!it.value.Num? ==> st == NotNum && Live(r, now) == Live(items, now))
  {
    LookupLegal(items, budget, key, now);
    LookupLive(items, key, now, now);
    var (rest, f) := Lookup(items, key, now);
    assert Incr(items, budget, key, delta, init, ttl, now) == Bump(rest, f.value, delta);
    hide Live, Find, Lookup, Fit, Legal, Size, Bump, Incr;
    BumpMeaning(rest, budget, f.value, delta, now);
  }

  lemma BumpMeaning(rest: seq<Item>, budget: nat, k: nat, delta: real, now: int)
    requires Legal(rest, budget) && k < |rest| && !Dead(rest[k], now)
    ensures var (st, r) := Bump(rest, k, delta);
            && Legal(r, budget)
            && (rest[k].value.Num? ==>
                  var it := Item(rest[k].key, Num(rest[k].value.num + delta), rest[k].expire);
                  st == Ok && |r| > 0 && r[0] == it && Live(r, now) == Live(rest, now)[it.key := it])
            && (!rest[k].value.Num? ==> st == NotNum && Live(r, now) == Live(rest, now))
  {
    LiveAt(rest, now, k);
    if rest[k].value.Num? {
      var it := Added(rest[k], delta);
      assert Size(it) == Size(rest[k]);
      hide Live, Total, Size;
      LiveReplace(rest, k, it, now);
      TotalReplace(rest, k, it);
      LiveToFront(rest[k := it], k, now);
      TotalToFront(rest[k := it], k);
    }
  }

  /** An increment of an absent key creates the number, making room like a set. */
  lemma IncrCreatesMeaning(items: seq<Item>, budget: nat, key: Bytes, delta: real, init: real, ttl: int, now: int)
    requires Legal(items, budget) && key !in Live(items, now)
    ensures var (st, r) := Incr(items, budget, key, delta, init, ttl, now);
            && Legal(r, budget)
            && st == (if 64 + |key| > budget then TooBig else Ok)
            && (st == TooBig ==> Live(r, now) == Live(items, now))
            && (st == Ok ==> |r| > 0 && r[0] == Item(key, Num(init + delta), Deadline(ttl, now))
                             && NothingNew(items, r, key, now))
  {
    LookupExact(items, key, now);
    LookupLegal(items, budget, key, now);
    LookupLive(items, key, now, now);
    var (rest, f) := Lookup(items, key, now);
    var item := Item(key, Num(init + delta), Deadline(ttl, now));
    hide UniqueKeys, Total, Live, Find, Lookup, Fit, NothingNew, Clean;
    if Size(item) <= budget {
      OthersClean(rest, key, None);
      PutLegal(rest, budget, item);
      PutNothingNew(rest, budget, item, None, now);
      NothingNewSame(items, rest, Put(rest, budget, item), key, now);
    }
  }

  // What an increment hands back.
  lemma IncrSum(items: seq<Item>, budget: nat, key: Bytes, delta: real, init: real, ttl: int, now: int)
    requires Legal(items, budget)
    ensures var (st, r) := Incr(items, budget, key, delta, init, ttl, now);
            var l := Live(items, now);
            && (if key in l then st == Ok <==> l[key].value.Num? else st == Ok <==> 64 + |key| <= budget)
            && (st == Ok ==> |r| > 0 &&
                             r[0].value == Num((if key in l && l[key].value.Num? then l[key].value.num else init) + delta))
  {
    hide Live, Incr, Legal, NothingNew;
    if key in Live(items, now) {
      IncrFoundMeaning(items, budget, key, delta, init, ttl, now);
    } else {
      IncrCreatesMeaning(items, budget, key, delta, init, ttl, now);
    }
  }
}
