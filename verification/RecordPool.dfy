/**
 The record pool of xrecord.c: slots handed out from a stack, found by id through a one-entry cache,
 read and written field by field in one byte array that doubles when it is full.
 */
module RecordPool {
  import opened Common
  import opened RecordBytes
  import opened RecordLayout
  import opened RecordStore

  // ---------- whole records ----------

  ghost function Rec(sc: Schema, cap: nat, fl: Floats, st: Store, k: nat): (r: seq<Value>)
    requires Proper(sc) && Sized(sc, cap, st) && k < cap
    ensures |r| == |sc.fields|
  {
    seq(|sc.fields|, i requires 0 <= i < |sc.fields| => Read(sc, cap, fl, st, k, i))
  }

  function ZeroRec(sc: Schema): seq<Value> {
    seq(|sc.fields|, i requires 0 <= i < |sc.fields| => ZeroOf(sc.fields[i].kind))
  }

  lemma WrittenRecs(sc: Schema, cap: nat, fl: Floats, st: Store, st': Store, k: nat, i: nat, l: nat)
    requires Written(sc, cap, st, st', k, i) && l < cap
    ensures Rec(sc, cap, fl, st', l)
            == if l == k then Rec(sc, cap, fl, st, l)[i := Read(sc, cap, fl, st', k, i)] else Rec(sc, cap, fl, st, l)
  {
    hide Proper, Read, Same, TextOk, Separate;
    forall j: nat | j < |sc.fields| && (l != k || j != i)
      ensures Read(sc, cap, fl, st', l, j) == Read(sc, cap, fl, st, l, j)
    {
      WrittenOthers(sc, cap, fl, st, st', k, i, l, j);
    }
  }

  // ---------- growth ----------

  ghost function Extended(sc: Schema, cap: nat, st: Store): (r: Store)
    requires Sized(sc, cap, st)
    ensures Sized(sc, 2 * cap, r)
  {
    assert 2 * cap * sc.elem == cap * sc.elem + cap * sc.elem;
    st.(mem := st.mem + Zeros(cap * sc.elem))
  }

  lemma ExtendedCell(sc: Schema, cap: nat, st: Store, k: nat, i: nat)
    requires Proper(sc) && Sized(sc, cap, st) && InPool(sc, 2 * cap, k, i)
    ensures Cell(sc, 2 * cap, Extended(sc, cap, st), k, i)
            == if k < cap then Cell(sc, cap, st, k, i) else Zeros(Size(sc.fields[i].kind))
  {
    hide Proper, Size;
    var st' := Extended(sc, cap, st);
    FieldAt(sc, 2 * cap, k, i);
    if k < cap {
      FieldAt(sc, cap, k, i);
    } else {
      Multiples(cap, k, sc.elem);
      var c := Cell(sc, 2 * cap, st', k, i);
      assert forall x :: cap * sc.elem <= x < |st'.mem| ==> st'.mem[x] == 0;
      assert forall x :: 0 <= x < |c| ==> c[x] == 0;
    }
  }

  /** Doubling keeps every record, and the new slots own nothing. */
  lemma ExtendedSound(sc: Schema, cap: nat, fl: Floats, st: Store)
    requires Sound(sc, cap, st)
    ensures Sound(sc, 2 * cap, Extended(sc, cap, st))
    ensures forall k: nat :: k < cap ==> Rec(sc, 2 * cap, fl, Extended(sc, cap, st), k) == Rec(sc, cap, fl, st, k)
  {
    hide Proper, Cell, Extended, Decode;
    var st' := Extended(sc, cap, st);
    ExtendedHeap(sc, cap, st);
    forall k: nat, i: nat | IsText(sc, 2 * cap, k, i)
      ensures TextOk(sc, 2 * cap, st', k, i)
      ensures k >= cap ==> BlockOf(sc, 2 * cap, st', k, i) == 0
      ensures k < cap ==> BlockOf(sc, 2 * cap, st', k, i) == BlockOf(sc, cap, st, k, i)
    {
      ExtendedCell(sc, cap, st, k, i);
      if k < cap {
        assert TextOk(sc, cap, st, k, i);
      } else {
        ZeroText();
      }
    }
    forall k: nat, i: nat, l: nat, j: nat | IsText(sc, 2 * cap, k, i) && IsText(sc, 2 * cap, l, j)
      ensures Separate(sc, 2 * cap, st', k, i, l, j)
    {
      if k < cap && l < cap {
        assert Separate(sc, cap, st, k, i, l, j);
      } else if k < cap {
        assert TextOk(sc, cap, st, k, i);
      }
    }
    forall k: nat | k < cap ensures Rec(sc, 2 * cap, fl, st', k) == Rec(sc, cap, fl, st, k) {
      forall i: nat | i < |sc.fields| ensures Read(sc, 2 * cap, fl, st', k, i) == Read(sc, cap, fl, st, k, i) {
        ExtendedCell(sc, cap, st, k, i);
      }
    }
  }

  lemma ExtendedHeap(sc: Schema, cap: nat, st: Store)
    requires Sized(sc, cap, st)
    ensures Extended(sc, cap, st).heap == st.heap
  {
  }

  lemma ZeroText()
    ensures PtrOf(Zeros(16)) == 0 && LenOf(Zeros(16)) == 0
  {
    var z := Zeros(16);
    ZeroBytes(z[..8]);
    ZeroBytes(z[8..12]);
  }

  // ---------- slots ----------

  ghost predicate Bound(ids: map<int, nat>, s: nat) {
    exists id :: id in ids && ids[id] == s
  }

  /** Every slot is either on the free stack, once, or bound to one id. */
  ghost predicate SlotsOk(free: seq<nat>, ids: map<int, nat>, cap: nat) {
    && (forall i :: 0 <= i < |free| ==> free[i] < cap && !Bound(ids, free[i]))
    && (forall i, j :: 0 <= i < j < |free| ==> free[i] != free[j])
    && (forall a, b :: a in ids && b in ids && ids[a] == ids[b] ==> a == b)
    && (forall id :: id in ids ==> ids[id] < cap)
    && (forall s: nat :: s < cap ==> s in free || Bound(ids, s))
  }

  lemma BindSlots(free: seq<nat>, ids: map<int, nat>, cap: nat, id: int)
    requires SlotsOk(free, ids, cap) && free != [] && id !in ids
    ensures SlotsOk(free[..|free|-1], ids[id := free[|free|-1]], cap)
  {
    var f', s := free[..|free|-1], free[|free|-1];
    var ids' := ids[id := s];
    assert ids'[id] == s;
    forall t: nat | t < cap ensures t in f' || Bound(ids', t) {
      if t != s {
        if t in free {
          var i :| 0 <= i < |free| && free[i] == t;
          assert f'[i] == t;
        } else {
          var a :| a in ids && ids[a] == t;
          assert ids'[a] == t;
        }
      }
    }
    forall i, a | 0 <= i < |f'| && a in ids' ensures ids'[a] != f'[i] {
      assert f'[i] == free[i] && !Bound(ids, free[i]);
    }
  }

  lemma UnbindSlots(free: seq<nat>, ids: map<int, nat>, cap: nat, id: int)
    requires SlotsOk(free, ids, cap) && id in ids
    ensures SlotsOk(free + [ids[id]], ids - {id}, cap)
  {
    var f', ids' := free + [ids[id]], ids - {id};
    forall t: nat | t < cap ensures t in f' || Bound(ids', t) {
      if t in free {
        var i :| 0 <= i < |free| && free[i] == t;
        assert f'[i] == t;
      } else {
        var a :| a in ids && ids[a] == t;
        if a == id {
          assert f'[|free|] == t;
        } else {
          assert ids'[a] == t;
        }
      }
    }
    forall i | 0 <= i < |f'| ensures !Bound(ids', f'[i]) {
      if i < |free| {
        assert !Bound(ids, free[i]);
      }
    }
    assert Bound(ids, ids[id]);
  }

  // The free stack after growth: the new slots in ascending order.
  lemma GrowSlots(ids: map<int, nat>, cap: nat, free: seq<nat>)
    requires SlotsOk([], ids, cap) && |free| == cap
    requires forall i :: 0 <= i < cap ==> free[i] == cap + i
    ensures SlotsOk(free, ids, 2 * cap)
  {
    forall t: nat | t < 2 * cap ensures t in free || Bound(ids, t) {
      if t < cap {
        assert t in [] || Bound(ids, t);
      } else {
        assert free[t - cap] == t;
      }
    }
  }

  // ---------- the pool object ----------

  function FindIndex(fs: seq<Field>, name: string): (r: Option<nat>)
    ensures r.Some? ==> r.value < |fs| && fs[r.value].name == name
    ensures r.None? ==> forall i :: 0 <= i < |fs| ==> fs[i].name != name
  {
    if fs == [] then None
    else
      var r := FindIndex(fs[..|fs|-1], name);
      if r.Some? then r else if fs[|fs|-1].name == name then Some(|fs| - 1) else None
  }

  // The contents of a pool, record by record.
  ghost predicate Means(sc: Schema, cap: nat, fl: Floats, st: Store, ids: map<int, nat>, m: map<int, seq<Value>>) {
    && Proper(sc) && Sized(sc, cap, st)
    && m.Keys == ids.Keys
    && forall id :: id in ids ==> ids[id] < cap && m[id] == Rec(sc, cap, fl, st, ids[id])
  }

  class Pool {
    const sc: Schema
    const fl: Floats
    var mem: array<Byte>
    var heap: map<Ptr, Bytes>            // the blocks of the string fields
    var capacity: nat
    var freeStack: array<nat>
    var freeTop: nat
    var ids: map<int, nat>               // id_to_slot
    var cachedId: int
    var cachedSlot: nat
    var cacheValid: bool
    ghost var contents: map<int, seq<Value>>

    ghost function St(): Store
      reads this`mem, this`heap, mem
    {
      Store(mem[..], heap)
    }

    ghost predicate MemOk()
      reads this`mem, this`heap, this`capacity, this`ids, this`contents, mem
    {
      capacity > 0 && Sound(sc, capacity, St()) && Means(sc, capacity, fl, St(), ids, contents)
    }

    ghost predicate StackOk()
      reads this`capacity, this`freeStack, this`freeTop, this`ids, freeStack
    {
      freeTop <= freeStack.Length == capacity && SlotsOk(freeStack[..freeTop], ids, capacity)
    }

    // The cache agrees with the hash.
    ghost predicate CacheOk()
      reads this`ids, this`cachedId, this`cachedSlot, this`cacheValid
    {
      cacheValid ==> cachedId in ids && ids[cachedId] == cachedSlot
    }

    ghost predicate Valid()
      reads this, mem, freeStack
    {
      FloatsOk(fl) && MemOk() && StackOk() && CacheOk()
    }

    // xrecord_pool_create
    constructor (schema: Schema, floats: Floats, size: nat)
      requires Proper(schema) && FloatsOk(floats) && size > 0
      ensures Valid() && contents == map[] && capacity == size && sc == schema && fl == floats
      ensures fresh(mem) && fresh(freeStack)
    {
      sc, fl, capacity := schema, floats, size;
      mem := new Byte[size * schema.elem](_ => 0);
      freeStack := new nat[size](i requires 0 <= i < size => size - 1 - i);
      freeTop, ids, heap, contents := size, map[], map[], map[];
      cachedId, cachedSlot, cacheValid := 0, 0, false;
      new;
      FreshSound(sc, capacity, St());
      FreshSlots(freeStack[..], size);
      assert freeStack[..freeTop] == freeStack[..];
    }

    // lookup_slot
    method Lookup(id: int) returns (r: Option<nat>)
      requires CacheOk()
      modifies this`cachedId, this`cachedSlot, this`cacheValid
      ensures CacheOk() && r == if id in ids then Some(ids[id]) else None
      ensures r.Some? ==> cacheValid && cachedId == id
    {
      if cacheValid && cachedId == id {
        return Some(cachedSlot);
      }
      if id !in ids {
        return None;
      }
      cachedId, cachedSlot, cacheValid := id, ids[id], true;
      return Some(cachedSlot);
    }

    // find_field
    method FindField(name: string) returns (r: Option<nat>)
      ensures r == FindIndex(sc.fields, name)
    {
      for i := 0 to |sc.fields|
        invariant FindIndex(sc.fields[..i], name) == None
      {
        assert sc.fields[..i+1][..i] == sc.fields[..i];
        if sc.fields[i].name == name {
          FindFirst(sc.fields, name, i);
          return Some(i);
        }
      }
      assert sc.fields[..|sc.fields|] == sc.fields;
      return None;
    }

    // Bytes stored at offset d of a field.
    method WriteField(k: nat, i: nat, d: nat, b: Bytes)
      requires Proper(sc) && Sized(sc, capacity, St()) && InPool(sc, capacity, k, i)
      requires d + |b| <= Size(sc.fields[i].kind)
      modifies mem
      ensures St() == PokeField(sc, capacity, old(St()), k, i, d, b)
    {
      hide Proper, Size;
      FieldAt(sc, capacity, k, i);
      var at := At(sc, k, i).0 + d;
      forall x | 0 <= x < |b| {
        mem[at + x] := b[x];
      }
      assert mem[..] == Poke(old(mem[..]), at, b);
    }

    // The realloc and memset of grow_pool
    method GrowMem()
      requires MemOk()
      modifies this`mem, this`capacity
      ensures MemOk() && capacity == 2 * old(capacity) && fresh(mem)
    {
      hide Sound, Rec, Proper, Extended, Means;
      ghost var st, cap := St(), capacity;
      MeansSized(sc, cap, fl, st, ids, contents);
      ExtendedSound(sc, cap, fl, st);
      ExtendedMeans(sc, cap, fl, st, ids, contents);
      SizedLength(sc, cap, st);
      ExtendedHeap(sc, cap, st);
      var block := new Byte[2 * capacity * sc.elem](_ => 0);
      forall x | 0 <= x < mem.Length {
        block[x] := mem[x];
      }
      assert block[..] == Extended(sc, cap, st).mem;
      mem, capacity := block, 2 * capacity;
    }

    // grow_pool
    method Grow()
      requires Valid() && freeTop == 0
      modifies this`mem, this`capacity, this`freeStack, this`freeTop
      ensures Valid() && freeTop > 0 && capacity == 2 * old(capacity)
      ensures fresh(mem) && fresh(freeStack)
    {
      hide MemOk;
      var cap := capacity;
      PositiveCapacity();
      assert freeStack[..0] == [];
      GrowMem();
      var stack := new nat[capacity](_ => 0);
      forall i | 0 <= i < cap {
        stack[i] := cap + i;
      }
      GrowSlots(ids, cap, stack[..cap]);
      freeStack, freeTop := stack, cap;
    }

    lemma PositiveCapacity()
      requires MemOk()
      ensures capacity > 0
    {
    }

    // The switch over the fields in xrecord_bind
    method ClearSlot(k: nat)
      requires FloatsOk(fl) && Sound(sc, capacity, St()) && k < capacity
      modifies mem
      ensures Sound(sc, capacity, St()) && Rec(sc, capacity, fl, St(), k) == ZeroRec(sc)
      ensures forall l: nat :: l < capacity && l != k ==>
                Rec(sc, capacity, fl, St(), l) == Rec(sc, capacity, fl, old(St()), l)
    {
      hide Sound, Rec, Proper, Size;
      ghost var st := St();
      SoundIs(sc, capacity, st);
      var i := 0;
      while i < |sc.fields|
        invariant 0 <= i <= |sc.fields| && Sound(sc, capacity, St()) && SoundHas(sc, capacity, St())
        invariant forall j :: 0 <= j < i ==> Rec(sc, capacity, fl, St(), k)[j] == ZeroOf(sc.fields[j].kind)
        invariant forall l: nat :: l < capacity && l != k ==> Rec(sc, capacity, fl, St(), l) == Rec(sc, capacity, fl, st, l)
      {
        ghost var before := St();
        var z := ZeroPart(sc.fields[i].kind);
        WriteField(k, i, z.0, Zeros(z.1));
        ClearedStep(sc, capacity, fl, before, k, i);
        i := i + 1;
      }
    }

    // The last part of xrecord_bind: a cleared slot becomes the record of a new id.
    method Install(id: int, slot: nat)
      requires FloatsOk(fl) && capacity > 0 && Sound(sc, capacity, St()) && CacheOk() && StackOk()
      requires id !in ids && freeTop > 0 && freeStack[freeTop-1] == slot
      requires Means(sc, capacity, fl, St(), ids, contents) && Rec(sc, capacity, fl, St(), slot) == ZeroRec(sc)
      modifies this`ids, this`freeTop, this`cachedId, this`cachedSlot, this`cacheValid, this`contents
      ensures Valid() && contents == old(contents)[id := ZeroRec(sc)]
      ensures cacheValid && cachedId == id
    {
      hide Sound, Rec, Proper, SlotsOk;
      BindSlots(freeStack[..freeTop], ids, capacity, id);
      FreeSlot(freeStack[..freeTop], ids, capacity, freeTop - 1);
      ids := ids[id := slot];
      freeTop := freeTop - 1;
      assert freeStack[..freeTop] == old(freeStack[..freeTop])[..freeTop];
      cachedId, cachedSlot, cacheValid := id, slot, true;
      contents := contents[id := ZeroRec(sc)];
    }

    // xrecord_bind
    method Bind(id: int) returns (r: Status)
      requires Valid()
      modifies this, mem, freeStack
      ensures Valid() && r == if id in old(contents) then Exists else Ok
      ensures contents == if r == Ok then old(contents)[id := ZeroRec(sc)] else old(contents)
      ensures (mem == old(mem) && freeStack == old(freeStack)) || (fresh(mem) && fresh(freeStack))
      ensures capacity == old(capacity) || (capacity == 2 * old(capacity) && old(freeTop) == 0)
    {
      hide Sound, Rec, Proper, SlotsOk, Means;
      MeansSized(sc, capacity, fl, St(), ids, contents);
      if id in ids {
        return Exists;
      }
      if freeTop == 0 {
        Grow();
      }
      var slot := freeStack[freeTop-1];
      FreeSlot(freeStack[..freeTop], ids, capacity, freeTop - 1);
      ghost var st := St();
      ClearSlot(slot);
      SoundIs(sc, capacity, St());
      MeansOthers(sc, capacity, fl, st, St(), ids, contents, slot);
      Install(id, slot);
      return Ok;
    }

    // The slot of an id goes back on the free stack.
    method Release(id: int, slot: nat)
      requires StackOk() && id in ids && ids[id] == slot
      modifies this`ids, this`freeTop, freeStack
      ensures StackOk() && ids == old(ids) - {id}
    {
      hide SlotsOk;
      StackRoom(freeStack[..freeTop], ids, capacity, id);
      UnbindSlots(freeStack[..freeTop], ids, capacity, id);
      ids := ids - {id};
      freeStack[freeTop] := slot;
      freeTop := freeTop + 1;
      assert freeStack[..freeTop] == old(freeStack[..freeTop]) + [slot];
    }

    // xrecord_unbind
    method Unbind(id: int) returns (r: Status)
      requires Valid()
      modifies this`ids, this`freeTop, this`cachedId, this`cachedSlot, this`cacheValid, this`contents, freeStack
      ensures Valid() && r == if id in old(contents) then Ok else NotFound
      ensures contents == old(contents) - {id}
    {
      hide Sound, SlotsOk, Means, StackOk;
      MeansSized(sc, capacity, fl, St(), ids, contents);
      MeansRemoved(sc, capacity, fl, St(), ids, contents, id);
      var slot := Lookup(id);
      if slot.None? {
        return NotFound;
      }
      Release(id, slot.value);
      if cacheValid && cachedId == id {
        cacheValid := false;
      }
      contents := contents - {id};
      return Ok;
    }

    // xrecord_has
    method Has(id: int) returns (b: bool)
      requires Valid()
      modifies this`cachedId, this`cachedSlot, this`cacheValid
      ensures Valid() && b == (id in contents)
    {
      hide Sound, Rec, Proper, SlotsOk;
      var slot := Lookup(id);
      return slot.Some?;
    }

    // xrecord_get
    method Get(id: int, name: string) returns (r: Status, v: Value)
      requires Valid()
      modifies this`cachedId, this`cachedSlot, this`cacheValid
      ensures Valid()
      ensures r == if id !in contents then NotFound else if FindIndex(sc.fields, name).None? then NoField else Ok
      ensures r == Ok ==> FindIndex(sc.fields, name).value < |contents[id]|
                          && v == contents[id][FindIndex(sc.fields, name).value]
    {
      hide Sound, Proper, SlotsOk, Size;
      v := Flag(false);
      var slot := Lookup(id);
      if slot.None? {
        return NotFound, v;
      }
      var f := FindField(name);
      if f.None? {
        return NoField, v;
      }
      var k, i := slot.value, f.value;
      assert Sized(sc, capacity, St());
      FieldAt(sc, capacity, k, i);
      var at, end := At(sc, k, i).0, At(sc, k, i).1;
      v := Decode(fl, sc.fields[i].kind, mem[at..end], heap);
      assert mem[at..end] == Cell(sc, capacity, St(), k, i);
      return Ok, v;
    }

    // Field i of slot k has been written: the invariant, and what became of the records.
    ghost predicate Wrote(st: Store, k: nat, i: nat, v: Value)
      reads this`mem, this`heap, this`capacity, mem
    {
      Written(sc, capacity, st, St(), k, i) && Sized(sc, capacity, St()) && Read(sc, capacity, fl, St(), k, i) == v
    }

    // The string case of xrecord_set.  realloc returns `alloc`, or the old block if there is none.
    method SetText(k: nat, i: nat, data: Bytes, alloc: Option<Ptr>) returns (ok: bool)
      requires Sound(sc, capacity, St()) && IsText(sc, capacity, k, i)
      modifies this`heap, mem
      ensures ok ==> Wrote(old(St()), k, i, Stored(fl, Str, Text(data)))
      ensures !ok ==> St() == old(St()) && (alloc.None? || !(0 < alloc.value < U64) || alloc.value in heap)
      ensures data == [] ==> ok && heap == old(heap)
    {
      hide Proper, Written, Stored;
      ghost var st := St();
      if |data| > 0 {
        FieldAt(sc, capacity, k, i);
        var at := At(sc, k, i).0;
        var p := PtrOf(mem[at..at + 16]);
        assert mem[at..at + 16] == Cell(sc, capacity, st, k, i);
        Powers();
        assert TextOk(sc, capacity, st, k, i);
        var np := if alloc.Some? && 0 < alloc.value < U64 && alloc.value !in heap then alloc.value else p;
        if np == 0 {
          return false;
        }
        TextWritten(sc, capacity, fl, st, k, i, np, data);
        heap := (heap - {p})[np := data];
        WriteField(k, i, 0, Le(np, 8));
        WriteField(k, i, 8, Le(|data| % U32, 4));
      } else {
        TextCleared(sc, capacity, fl, st, k, i);
        EmptyStored(fl);
        assert Le(0, 4) == Zeros(4);
        WriteField(k, i, 8, Le(0, 4));
      }
      return true;
    }

    // The switch of xrecord_set
    method SetField(k: nat, i: nat, v: Value, alloc: Option<Ptr>) returns (r: Status)
      requires FloatsOk(fl) && Sound(sc, capacity, St()) && InPool(sc, capacity, k, i)
      requires Defined(sc.fields[i].kind, v)
      modifies this`heap, mem
      ensures r == SetStatus(fl, sc.fields[i].kind, v)
              || (r == NoMem && sc.fields[i].kind == Str && v.Text? && v.s != [])
      ensures r == NoMem ==> alloc.None? || !(0 < alloc.value < U64) || alloc.value in heap
      ensures if r == Ok then Wrote(old(St()), k, i, Stored(fl, sc.fields[i].kind, v)) else St() == old(St())
    {
      hide Proper, Written, Stored, Encode, Decode, Read;
      var kind := sc.fields[i].kind;
      r := SetStatus(fl, kind, v);
      if r != Ok {
        return;
      }
      if kind == Str {
        var ok := SetText(k, i, v.s, alloc);
        return if ok then Ok else NoMem;
      }
      var b := Encode(fl, kind, v);
      FixedWritten(sc, capacity, fl, St(), k, i, b);
      EncodeDecode(fl, kind, v, heap);
      WriteField(k, i, 0, b);
    }

    // xrecord_set
    method Set(id: int, name: string, v: Value, alloc: Option<Ptr>) returns (r: Status)
      requires Valid()
      requires var f := FindIndex(sc.fields, name); id in contents && f.Some? ==> Defined(sc.fields[f.value].kind, v)
      modifies this`heap, this`cachedId, this`cachedSlot, this`cacheValid, this`contents, mem
      ensures Valid()
      ensures var f := FindIndex(sc.fields, name);
              if id !in old(contents) then r == NotFound
              else if f.None? then r == NoField
              else r == SetStatus(fl, sc.fields[f.value].kind, v) || (r == NoMem && v.Text? && v.s != [])
      ensures r != Ok ==> contents == old(contents)
      ensures r == Ok ==>
                var i := FindIndex(sc.fields, name).value;
                && i < |old(contents)[id]|
                && contents == old(contents)[id := old(contents)[id][i := Stored(fl, sc.fields[i].kind, v)]]
      ensures r == NoMem ==> alloc.None? || !(0 < alloc.value < U64) || alloc.value in old(heap)
    {
      hide Sound, Proper, SlotsOk, Written, Stored, SetStatus, Read, Size, Means, Rec;
      MeansAt(sc, capacity, fl, St(), ids, contents, id);
      var slot := Lookup(id);
      if slot.None? {
        return NotFound;
      }
      var f := FindField(name);
      if f.None? {
        return NoField;
      }
      ghost var st := St();
      var k, i := slot.value, f.value;
      r := SetField(k, i, v, alloc);
      if r == Ok {
        var nv := Stored(fl, sc.fields[i].kind, v);
        WrittenSound(sc, capacity, st, St(), k, i);
        OneId(freeStack[..freeTop], ids, capacity);
        WrittenMeans(sc, capacity, fl, st, St(), ids, contents, id, i);
        contents := contents[id := contents[id][i := nv]];
      }
    }
  }

  ghost predicate SoundHas(sc: Schema, cap: nat, st: Store) {
    Proper(sc) && Sized(sc, cap, st)
  }

  lemma SoundIs(sc: Schema, cap: nat, st: Store)
    requires Sound(sc, cap, st)
    ensures SoundHas(sc, cap, st)
  {
  }

  lemma SizedLength(sc: Schema, cap: nat, st: Store)
    requires Sized(sc, cap, st)
    ensures |st.mem| + cap * sc.elem == 2 * cap * sc.elem
    ensures |Extended(sc, cap, st).mem| == 2 * cap * sc.elem
    ensures forall x :: 0 <= x < 2 * cap * sc.elem ==>
              Extended(sc, cap, st).mem[x] == if x < |st.mem| then st.mem[x] else 0
  {
  }

  lemma MeansSized(sc: Schema, cap: nat, fl: Floats, st: Store, ids: map<int, nat>, m: map<int, seq<Value>>)
    requires Means(sc, cap, fl, st, ids, m)
    ensures Proper(sc) && Sized(sc, cap, st) && m.Keys == ids.Keys
  {
  }

  lemma ExtendedMeans(sc: Schema, cap: nat, fl: Floats, st: Store, ids: map<int, nat>, m: map<int, seq<Value>>)
    requires Sound(sc, cap, st) && Means(sc, cap, fl, st, ids, m)
    ensures Means(sc, 2 * cap, fl, Extended(sc, cap, st), ids, m)
  {
    hide Sound, Rec, Extended;
    ExtendedSound(sc, cap, fl, st);
  }

  lemma ClearedStep(sc: Schema, cap: nat, fl: Floats, st: Store, k: nat, i: nat)
    requires FloatsOk(fl)
    requires Sound(sc, cap, st) && SoundHas(sc, cap, st) && InPool(sc, cap, k, i)
    ensures var st' := Cleared(sc, cap, st, k, i);
            && Sound(sc, cap, st') && SoundHas(sc, cap, st')
            && Rec(sc, cap, fl, st', k) == Rec(sc, cap, fl, st, k)[i := ZeroOf(sc.fields[i].kind)]
            && forall l: nat :: l < cap && l != k ==> Rec(sc, cap, fl, st', l) == Rec(sc, cap, fl, st, l)
  {
    hide Sound, Rec, Cleared, Written, Proper;
    ClearedWritten(sc, cap, fl, st, k, i);
    var st' := Cleared(sc, cap, st, k, i);
    WrittenSound(sc, cap, st, st', k, i);
    forall l: nat | l < cap
      ensures Rec(sc, cap, fl, st', l)
              == if l == k then Rec(sc, cap, fl, st, l)[i := Read(sc, cap, fl, st', k, i)] else Rec(sc, cap, fl, st, l)
    {
      WrittenRecs(sc, cap, fl, st, st', k, i, l);
    }
  }

  lemma OneId(free: seq<nat>, ids: map<int, nat>, cap: nat)
    requires SlotsOk(free, ids, cap)
    ensures forall a, b :: a in ids && b in ids && ids[a] == ids[b] ==> a == b
  {
  }

  lemma FreeSlot(free: seq<nat>, ids: map<int, nat>, cap: nat, i: nat)
    requires SlotsOk(free, ids, cap) && i < |free|
    ensures free[i] < cap && forall id :: id in ids ==> ids[id] != free[i] && ids[id] < cap
  {
    assert !Bound(ids, free[i]);
  }

  lemma {:induction false} DistinctSize(free: seq<nat>)
    requires forall i, j :: 0 <= i < j < |free| ==> free[i] != free[j]
    ensures |(set i | 0 <= i < |free| :: free[i])| == |free|
    decreases |free|
  {
    var s := set i | 0 <= i < |free| :: free[i];
    if free != [] {
      var f' := free[..|free|-1];
      DistinctSize(f');
      var s' := set i | 0 <= i < |f'| :: f'[i];
      assert s == s' + {free[|free|-1]} by {
        forall x | x in s ensures x in s' + {free[|free|-1]} {
          var i :| 0 <= i < |free| && free[i] == x;
          assert i < |f'| ==> f'[i] == x;
        }
        forall x | x in s' ensures x in s {
          var i :| 0 <= i < |f'| && f'[i] == x;
          assert free[i] == x;
        }
      }
    }
  }

  // While a slot is bound the free stack is not full.
  lemma StackRoom(free: seq<nat>, ids: map<int, nat>, cap: nat, id: int)
    requires SlotsOk(free, ids, cap) && id in ids
    ensures |free| < cap && ids[id] < cap
  {
    DistinctSize(free);
    var s: set<int> := set i | 0 <= i < |free| :: free[i];
    assert Bound(ids, ids[id]);
    SubsetSize(s + {ids[id]}, Range(0, cap));
  }

  lemma MeansAt(sc: Schema, cap: nat, fl: Floats, st: Store, ids: map<int, nat>, m: map<int, seq<Value>>, id: int)
    requires Means(sc, cap, fl, st, ids, m)
    ensures Proper(sc) && Sized(sc, cap, st) && m.Keys == ids.Keys
    ensures id in ids ==> ids[id] < cap && |m[id]| == |sc.fields|
  {
    hide Proper;
  }

  lemma MeansRemoved(sc: Schema, cap: nat, fl: Floats, st: Store, ids: map<int, nat>, m: map<int, seq<Value>>, id: int)
    requires Means(sc, cap, fl, st, ids, m)
    ensures Means(sc, cap, fl, st, ids - {id}, m - {id}) && (id !in m ==> m - {id} == m)
  {
    hide Rec;
  }

  // A change confined to a slot that is not bound leaves the contents.
  lemma MeansOthers(sc: Schema, cap: nat, fl: Floats, st: Store, st': Store, ids: map<int, nat>,
                    m: map<int, seq<Value>>, slot: nat)
    requires Means(sc, cap, fl, st, ids, m) && Sized(sc, cap, st')
    requires forall id :: id in ids ==> ids[id] != slot
    requires forall l: nat :: l < cap && l != slot ==> Rec(sc, cap, fl, st', l) == Rec(sc, cap, fl, st, l)
    ensures Means(sc, cap, fl, st', ids, m)
  {
    hide Rec;
  }

  lemma EmptyStored(fl: Floats)
    ensures Stored(fl, Str, Text([])) == Text([])
  {
  }

  lemma RecLength(sc: Schema, cap: nat, fl: Floats, st: Store, k: nat)
    requires Proper(sc) && Sized(sc, cap, st) && k < cap
    ensures |Rec(sc, cap, fl, st, k)| == |sc.fields|
  {
  }

  lemma WrittenMeans(sc: Schema, cap: nat, fl: Floats, st: Store, st': Store, ids: map<int, nat>,
                     m: map<int, seq<Value>>, id: int, i: nat)
    requires Means(sc, cap, fl, st, ids, m) && id in ids && Written(sc, cap, st, st', ids[id], i)
    requires forall a, b :: a in ids && b in ids && ids[a] == ids[b] ==> a == b
    ensures i < |m[id]| && Sized(sc, cap, st') && InPool(sc, cap, ids[id], i)
    ensures Means(sc, cap, fl, st', ids, m[id := m[id][i := Read(sc, cap, fl, st', ids[id], i)]])
  {
    hide Sound, Proper, Rec, Read, TextOk, Same;
    RecLength(sc, cap, fl, st, ids[id]);
    forall a | a in ids
      ensures Rec(sc, cap, fl, st', ids[a])
              == if a == id then m[id][i := Read(sc, cap, fl, st', ids[id], i)] else m[a]
    {
      WrittenRecs(sc, cap, fl, st, st', ids[id], i, ids[a]);
    }
  }

  lemma {:induction false} FindFirst(fs: seq<Field>, name: string, i: nat)
    requires i < |fs| && fs[i].name == name && FindIndex(fs[..i], name) == None
    ensures FindIndex(fs, name) == Some(i)
    decreases |fs|
  {
    if i < |fs| - 1 {
      assert fs[..|fs|-1][..i] == fs[..i];
      FindFirst(fs[..|fs|-1], name, i);
    }
  }

  lemma FreshSlots(free: seq<nat>, cap: nat)
    requires |free| == cap && forall i :: 0 <= i < cap ==> free[i] == cap - 1 - i
    ensures SlotsOk(free, map[], cap)
  {
    forall t: nat | t < cap ensures t in free {
      assert free[cap - 1 - t] == t;
    }
  }

  lemma FreshSound(sc: Schema, cap: nat, st: Store)
    requires Proper(sc) && Sized(sc, cap, st) && st.heap == map[] && forall x :: 0 <= x < |st.mem| ==> st.mem[x] == 0
    ensures Sound(sc, cap, st)
  {
    hide Proper, At, PtrOf, LenOf;
    forall k: nat, i: nat | IsText(sc, cap, k, i)
      ensures BlockOf(sc, cap, st, k, i) == 0 && TextOk(sc, cap, st, k, i)
    {
      FieldAt(sc, cap, k, i);
      assert Cell(sc, cap, st, k, i) == Zeros(16);
      ZeroText();
    }
  }
}
