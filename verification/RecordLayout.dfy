/**
 The record layout of xrecord.c: a stable sort of the fields by descending alignment, then packing at
 aligned offsets.  No layout of the same fields is smaller.
 */
module RecordLayout {
  import opened Common

  datatype FieldType = Int | Int8 | Int16 | Int32 | Float | Bool | Str

  datatype Field = Field(name: string, kind: FieldType, offset: nat)

  // field_type_size; a string is a pointer, a 32-bit length and 4 bytes of tail padding.
  function Size(t: FieldType): (n: nat)
    ensures n > 0
  {
    match t
    case Int8 => 1
    case Int16 => 2
    case Int32 => 4
    case Int => 8
    case Float => 4
    case Bool => 1
    case Str => 16
  }

  // A size is a multiple of its alignment.
  lemma SizeAligned(t: FieldType)
    ensures Size(t) % Align(t) == 0
  {
  }

  predicate IsAlign(a: nat) {
    a == 1 || a == 2 || a == 4 || a == 8
  }

  // field_type_align
  function Align(t: FieldType): (a: nat)
    ensures IsAlign(a)
  {
    match t
    case Int8 => 1
    case Int16 => 2
    case Int32 => 4
    case Int => 8
    case Float => 4
    case Bool => 1
    case Str => 8
  }

  // align_up, for the alignments there are.
  function AlignUp(v: nat, a: nat): (r: nat)
    requires IsAlign(a)
    ensures r % a == 0 && v <= r < v + a
  {
    if a == 1 then v
    else if a == 2 then NextEven(v); (v + 1) / 2 * 2
    else if a == 4 then NextFour(v); (v + 3) / 4 * 4
    else NextEight(v); (v + 7) / 8 * 8
  }

  lemma NextEven(v: nat)
    ensures var r := (v + 1) / 2 * 2; r % 2 == 0 && v <= r < v + 2
  {
  }

  lemma NextFour(v: nat)
    ensures var r := (v + 3) / 4 * 4; r % 4 == 0 && v <= r < v + 4
  {
  }

  lemma NextEight(v: nat)
    ensures var r := (v + 7) / 8 * 8; r % 8 == 0 && v <= r < v + 8
  {
  }

  // The source rounds with a mask, which gives the next multiple as well.
  lemma AlignUpBits(v: bv64, a: bv64)
    requires a == 1 || a == 2 || a == 4 || a == 8
    requires v <= 0xffff_ffff_ffff_fff0
    ensures var r := (v + (a - 1)) & !(a - 1); r & (a - 1) == 0 && v <= r && r - v < a
  {
  }

  // It is the least such multiple.
  lemma AlignUpLeast(v: nat, a: nat, m: nat)
    requires IsAlign(a) && m % a == 0 && m >= v
    ensures AlignUp(v, a) <= m
  {
    var r := AlignUp(v, a);
    hide AlignUp, IsAlign;
    assert r == r / a * a && m == m / a * a;
    if r / a > m / a {
      NextMultiple(m / a, r / a, a);
    } else {
      Multiples(r / a, m / a, a);
    }
  }

  lemma Multiples(p: nat, q: nat, a: nat)
    requires p <= q
    ensures p * a <= q * a
  {
  }

  lemma {:induction false} NextMultiple(p: nat, q: nat, a: nat)
    requires p < q
    ensures p * a + a <= q * a
    decreases q
  {
    if p + 1 < q {
      NextMultiple(p, q - 1, a);
      assert (q - 1) * a + a == q * a;
    } else {
      assert q == p + 1;
    }
  }

  // ---------- the sort ----------

  ghost predicate Descending(s: seq<Field>) {
    forall i, j :: 0 <= i < j < |s| ==> Align(s[i].kind) >= Align(s[j].kind)
  }

  // The fields of one alignment, in order.
  function OfAlign(s: seq<Field>, a: nat): seq<Field> {
    if s == [] then []
    else
      var init := OfAlign(s[..|s|-1], a);
      if Align(s[|s|-1].kind) == a then init + [s[|s|-1]] else init
  }

  lemma {:induction false} OfAlignConcat(s: seq<Field>, t: seq<Field>, a: nat)
    ensures OfAlign(s + t, a) == OfAlign(s, a) + OfAlign(t, a)
    decreases |t|
  {
    if t == [] {
      assert s + t == s;
    } else {
      var t' := t[..|t|-1];
      assert (s + t)[..|s + t|-1] == s + t';
      OfAlignConcat(s, t', a);
    }
  }

  // A field with an alignment above all of t is absent from t's sublists.
  lemma {:induction false} OfAlignNone(t: seq<Field>, a: nat)
    requires forall i :: 0 <= i < |t| ==> Align(t[i].kind) < a
    ensures OfAlign(t, a) == []
    decreases |t|
  {
    if t != [] {
      OfAlignNone(t[..|t|-1], a);
    }
  }

  // A field inserted into a sorted list, behind those of its alignment.
  function Place(s: seq<Field>, f: Field): (r: seq<Field>)
    ensures |r| == |s| + 1
  {
    if s == [] || Align(s[|s|-1].kind) >= Align(f.kind) then s + [f]
    else Place(s[..|s|-1], f) + [s[|s|-1]]
  }

  function Sorted(s: seq<Field>): (r: seq<Field>)
    ensures |r| == |s|
  {
    if s == [] then [] else Place(Sorted(s[..|s|-1]), s[|s|-1])
  }

  function Inserted(s: seq<Field>, f: Field, k: nat): seq<Field>
    requires k <= |s|
  {
    s[..k] + [f] + s[k..]
  }

  lemma InsertedMultiset(init: seq<Field>, t: seq<Field>, f: Field, k: nat)
    requires k <= |t| && multiset(init) == multiset(t)
    ensures multiset(init + [f]) == multiset(Inserted(t, f, k))
  {
    assert t == t[..k] + t[k..];
  }

  lemma InsertedIs(r: seq<Field>, s: seq<Field>, f: Field, k: nat)
    requires k <= |s| && |r| == |s| + 1 && r[k] == f
    requires forall m :: 0 <= m < k ==> r[m] == s[m]
    requires forall m :: k < m < |r| ==> r[m] == s[m-1]
    ensures r == Inserted(s, f, k)
  {
  }

  lemma InsertedLast(s: seq<Field>, f: Field, k: nat)
    requires k < |s|
    ensures Inserted(s, f, k) == Inserted(s[..|s|-1], f, k) + [s[|s|-1]]
  {
  }

  // The place is found from the end: behind the last field of no smaller alignment.
  lemma {:induction false} PlaceAt(s: seq<Field>, f: Field, k: nat)
    requires k <= |s| && (k > 0 ==> Align(s[k-1].kind) >= Align(f.kind))
    requires forall i :: k <= i < |s| ==> Align(s[i].kind) < Align(f.kind)
    ensures Place(s, f) == Inserted(s, f, k)
    decreases |s|
  {
    hide Align, Inserted;
    if k == |s| {
      InsertedIs(s + [f], s, f, k);
    } else {
      var s' := s[..|s|-1];
      PlaceAt(s', f, k);
      InsertedLast(s, f, k);
    }
  }

  lemma {:induction false} PlaceOf(s: seq<Field>, f: Field) returns (k: nat)
    requires Descending(s)
    ensures k <= |s|
    ensures forall i :: 0 <= i < k ==> Align(s[i].kind) >= Align(f.kind)
    ensures forall i :: k <= i < |s| ==> Align(s[i].kind) < Align(f.kind)
    decreases |s|
  {
    hide Align;
    if s == [] || Align(s[|s|-1].kind) >= Align(f.kind) {
      k := |s|;
    } else {
      k := PlaceOf(s[..|s|-1], f);
    }
  }

  // The same fields, those of equal alignment in the same order.
  ghost predicate StableReorder(s: seq<Field>, t: seq<Field>) {
    multiset(s) == multiset(t) && forall a: nat :: OfAlign(s, a) == OfAlign(t, a)
  }

  // One round of the sort: where the last field goes.
  lemma SortedStep(s: seq<Field>) returns (k: nat)
    requires s != [] && Descending(Sorted(s[..|s|-1]))
    ensures var t, f := Sorted(s[..|s|-1]), s[|s|-1];
            && k <= |t| && Sorted(s) == Inserted(t, f, k)
            && (forall i :: 0 <= i < k ==> Align(t[i].kind) >= Align(f.kind))
            && (forall i :: k <= i < |t| ==> Align(t[i].kind) < Align(f.kind))
  {
    hide Align, Inserted, Place;
    var t, f := Sorted(s[..|s|-1]), s[|s|-1];
    k := PlaceOf(t, f);
    assert k > 0 ==> Align(t[k-1].kind) >= Align(f.kind);
    PlaceAt(t, f, k);
  }

  lemma {:induction false} SortedDescending(s: seq<Field>)
    ensures Descending(Sorted(s))
    decreases |s|
  {
    hide Align, Inserted;
    if s != [] {
      SortedDescending(s[..|s|-1]);
      var k := SortedStep(s);
      PlacedDescending(Sorted(s[..|s|-1]), s[|s|-1], k);
    }
  }

  lemma {:induction false} SortedMultiset(s: seq<Field>)
    ensures multiset(Sorted(s)) == multiset(s)
    decreases |s|
  {
    hide Align, Inserted, Descending, Place;
    if s != [] {
      var init, f := s[..|s|-1], s[|s|-1];
      SortedMultiset(init);
      SortedDescending(init);
      var k := SortedStep(s);
      InsertedMultiset(init, Sorted(init), f, k);
      assert s == init + [f];
    }
  }

  lemma {:induction false} SortedOfAlign(s: seq<Field>, a: nat)
    ensures OfAlign(Sorted(s), a) == OfAlign(s, a)
    decreases |s|
  {
    hide Align, Inserted, Descending, Place, OfAlign;
    if s != [] {
      var init, f := s[..|s|-1], s[|s|-1];
      SortedOfAlign(init, a);
      SortedDescending(init);
      var k := SortedStep(s);
      PlacedStable(init, Sorted(init), f, k, a);
      assert s == init + [f];
    }
  }

  /** The sort is what its name says: descending, a permutation, and stable. */
  lemma SortedIsStable(s: seq<Field>)
    ensures Descending(Sorted(s)) && StableReorder(s, Sorted(s))
  {
    hide Sorted, OfAlign, Descending;
    SortedDescending(s);
    SortedMultiset(s);
    forall a: nat ensures OfAlign(s, a) == OfAlign(Sorted(s), a) {
      SortedOfAlign(s, a);
    }
  }

  lemma PlacedDescending(t: seq<Field>, f: Field, k: nat)
    requires Descending(t) && k <= |t|
    requires forall i :: 0 <= i < k ==> Align(t[i].kind) >= Align(f.kind)
    requires forall i :: k <= i < |t| ==> Align(t[i].kind) < Align(f.kind)
    ensures Descending(Inserted(t, f, k))
  {
    hide Align;
    var r := t[..k] + [f] + t[k..];
    assert forall i :: 0 <= i < |r| ==> r[i] == if i < k then t[i] else if i == k then f else t[i-1];
  }

  lemma PlacedStable(init: seq<Field>, t: seq<Field>, f: Field, k: nat, a: nat)
    requires k <= |t| && OfAlign(init, a) == OfAlign(t, a)
    requires forall i :: k <= i < |t| ==> Align(t[i].kind) < Align(f.kind)
    ensures OfAlign(init + [f], a) == OfAlign(Inserted(t, f, k), a)
  {
    hide Align;
    var x, y := OfAlign(t[..k], a), OfAlign(t[k..], a);
    assert t == t[..k] + t[k..];
    OfAlignConcat(t[..k], t[k..], a);
    OfAlignConcat(t[..k] + [f], t[k..], a);
    OfAlignConcat(t[..k], [f], a);
    OfAlignConcat(init, [f], a);
    assert [f][..0] == [];
    if a == Align(f.kind) {
      OfAlignNone(t[k..], a);
      assert y == [] && x + y == x;
    } else {
      assert OfAlign([f], a) == [] && x + y + [] == x + [] + y;
    }
  }

  // The insertion sort of xrecord_schema_create
  method SortFields(a: array<Field>)
    modifies a
    ensures a[..] == Sorted(old(a[..]))
  {
    ghost var s := a[..];
    if a.Length == 0 {
      return;
    }
    var i := 1;
    assert s[..1] == [s[0]] && s[..0] == [];
    while i < a.Length
      invariant 1 <= i <= a.Length
      invariant a[..i] == Sorted(s[..i]) && forall m :: i <= m < a.Length ==> a[m] == s[m]
    {
      ghost var t := a[..i];
      assert a[i] == s[i];
      InsertAt(a, i);
      assert s[..i+1][..i] == s[..i] && a[..i+1] == Place(t, s[i]);
      i := i + 1;
    }
    assert a[..] == a[..i] && s[..i] == s;
  }

  // One round: field i goes back to its place among those before it.
  method InsertAt(a: array<Field>, i: nat)
    requires i < a.Length
    modifies a
    ensures a[..i+1] == Place(old(a[..i]), old(a[i]))
    ensures forall m :: i < m < a.Length ==> a[m] == old(a[m])
  {
    hide Align, Place, Inserted;
    ghost var s := a[..i];
    var key := a[i];
    var j := i - 1;
    while j >= 0 && Align(a[j].kind) < Align(key.kind)
      invariant -1 <= j < i
      invariant forall m :: 0 <= m <= j ==> a[m] == s[m]
      invariant forall m :: j + 2 <= m <= i ==> a[m] == s[m-1]
      invariant forall m :: j < m < i ==> Align(s[m].kind) < Align(key.kind)
      invariant forall m :: i < m < a.Length ==> a[m] == old(a[m])
    {
      a[j+1] := a[j];
      j := j - 1;
    }
    a[j+1] := key;
    PlaceAt(s, key, j + 1);
    InsertedIs(a[..i+1], s, key, j + 1);
  }

  // ---------- the packing ----------

  // Where packing the fields in this order ends.
  function End(fs: seq<Field>): nat {
    if fs == [] then 0
    else
      var f := fs[|fs|-1].kind;
      AlignUp(End(fs[..|fs|-1]), Align(f)) + Size(f)
  }

  function OffsetOf(fs: seq<Field>, i: nat): nat
    requires i < |fs|
  {
    AlignUp(End(fs[..i]), Align(fs[i].kind))
  }

  function MaxAlign(fs: seq<Field>): (a: nat)
    ensures IsAlign(a)
  {
    if fs == [] then 1
    else
      var m, a := MaxAlign(fs[..|fs|-1]), Align(fs[|fs|-1].kind);
      if a > m then a else m
  }

  function Sum(fs: seq<Field>): nat {
    if fs == [] then 0 else Sum(fs[..|fs|-1]) + Size(fs[|fs|-1].kind)
  }

  function Laid(fs: seq<Field>): (r: seq<Field>)
    ensures |r| == |fs|
  {
    seq(|fs|, i requires 0 <= i < |fs| => fs[i].(offset := OffsetOf(fs, i)))
  }

  datatype Schema = Schema(fields: seq<Field>, elem: nat)

  function SchemaOf(fs: seq<Field>): Schema {
    var t := Sorted(fs);
    Schema(Laid(t), AlignUp(End(t), MaxAlign(t)))
  }

  // ---------- no padding, no overlap ----------

  lemma Halves8(m: nat)
    requires m % 8 == 0
    ensures m % 4 == 0
  {
    assert m == 8 * (m / 8);
    Fourfold(2 * (m / 8));
  }

  lemma Even(k: int)
    ensures (2 * k) % 2 == 0
  {
  }

  lemma Fourfold(k: int)
    ensures (4 * k) % 4 == 0
  {
  }

  lemma Halves4(m: nat)
    requires m % 4 == 0
    ensures m % 2 == 0
  {
    assert m == 4 * (m / 4);
    Even(2 * (m / 4));
  }

  // A smaller alignment divides a greater one.
  lemma AlignDivides(m: nat, a: nat, b: nat)
    requires IsAlign(a) && IsAlign(b) && a <= b && m % b == 0
    ensures m % a == 0
  {
    if a < b {
      if b == 8 {
        Halves8(m);
      }
      if a < 4 && b >= 4 {
        Halves4(m);
      }
    }
  }

  // In descending order every field starts where the one before it ends.
  lemma {:induction false} EndIsSum(fs: seq<Field>, a: nat)
    requires Descending(fs) && IsAlign(a) && forall i :: 0 <= i < |fs| ==> a <= Align(fs[i].kind)
    ensures End(fs) == Sum(fs) && End(fs) % a == 0
    decreases |fs|
  {
    hide Align, Size, AlignUp;
    if fs != [] {
      var f := fs[|fs|-1].kind;
      EndIsSum(fs[..|fs|-1], Align(f));
      AlignExact(End(fs[..|fs|-1]), Align(f));
      AlignDivides(End(fs[..|fs|-1]), a, Align(f));
      SizeAligned(f);
      AlignDivides(Size(f), a, Align(f));
      AddDivides(End(fs[..|fs|-1]), Size(f), a);
    }
  }

  lemma AlignExact(v: nat, a: nat)
    requires IsAlign(a) && v % a == 0
    ensures AlignUp(v, a) == v
  {
  }

  lemma AddDivides(m: nat, n: nat, a: nat)
    requires IsAlign(a) && m % a == 0 && n % a == 0
    ensures (m + n) % a == 0
  {
  }

  /** Packing widest first leaves no gap: field i starts at the sum of the sizes before it. */
  lemma NoPadding(fs: seq<Field>, i: nat)
    requires i < |fs|
    ensures Laid(Sorted(fs))[i].offset == Sum(Sorted(fs)[..i])
  {
    hide Sorted, Align, AlignUp;
    var t := Sorted(fs);
    SortedDescending(fs);
    EndIsSum(t[..i], Align(t[i].kind));
    AlignExact(End(t[..i]), Align(t[i].kind));
  }

  lemma {:induction false} SumMonotone(fs: seq<Field>, i: nat, j: nat)
    requires i < j <= |fs|
    ensures Sum(fs[..i]) + Size(fs[i].kind) <= Sum(fs[..j])
    decreases j
  {
    hide Size;
    assert fs[..j][..j-1] == fs[..j-1];
    if i < j - 1 {
      SumMonotone(fs, i, j - 1);
    }
  }

  lemma {:induction false} MaxAlignCovers(fs: seq<Field>, i: nat)
    requires i < |fs|
    ensures Align(fs[i].kind) <= MaxAlign(fs)
    decreases |fs|
  {
    hide Align;
    if i < |fs| - 1 {
      MaxAlignCovers(fs[..|fs|-1], i);
    }
  }

  // The bytes of field i in slot k of a pool.
  function At(sc: Schema, k: nat, i: nat): (int, int)
    requires i < |sc.fields|
  {
    var start := k * sc.elem + sc.fields[i].offset;
    (start, start + Size(sc.fields[i].kind))
  }

  predicate Apart(a: (int, int), b: (int, int)) {
    a.1 <= b.0 || b.1 <= a.0
  }

  lemma FieldFits(fs: seq<Field>, i: nat)
    requires i < |fs|
    ensures var sc := SchemaOf(fs); sc.fields[i].offset + Size(sc.fields[i].kind) <= sc.elem
  {
    hide Align, Size, AlignUp, OffsetOf;
    var t := Sorted(fs);
    NoPadding(fs, i);
    SumMonotone(t, i, |t|);
    assert t[..|t|] == t;
    SortedDescending(fs);
    EndIsSum(t, 1);
  }

  lemma {:induction false} ScaleDivides(k: nat, m: nat, n: nat, a: nat)
    requires IsAlign(a) && m % a == 0 && n % a == 0
    ensures (k * m + n) % a == 0
    decreases k
  {
    hide IsAlign;
    if k > 0 {
      ScaleDivides(k - 1, m, n, a);
      AddDivides((k - 1) * m + n, m, a);
      assert (k - 1) * m + n + m == k * m + n;
    }
  }

  /** Every field of every slot is aligned. */
  lemma SlotsAligned(fs: seq<Field>, k: nat, i: nat)
    requires i < |fs|
    ensures var sc := SchemaOf(fs); At(sc, k, i).0 % Align(sc.fields[i].kind) == 0
  {
    hide Align, Size, AlignUp, Sorted;
    var t, sc := Sorted(fs), SchemaOf(fs);
    var a := Align(t[i].kind);
    MaxAlignCovers(t, i);
    AlignDivides(sc.elem, a, MaxAlign(t));
    ScaleDivides(k, sc.elem, sc.fields[i].offset, a);
  }

  lemma RowsApart(k: nat, l: nat, n: nat, m: nat, elem: nat)
    requires k < l && n <= elem
    ensures k * elem + n <= l * elem + m
  {
    NextMultiple(k, l, elem);
  }

  /** No two fields of the pool share a byte. */
  lemma SlotsApart(fs: seq<Field>, k: nat, i: nat, l: nat, j: nat)
    requires i < |fs| && j < |fs| && (k != l || i != j)
    ensures var sc := SchemaOf(fs); Apart(At(sc, k, i), At(sc, l, j))
  {
    hide Align, Size, AlignUp, Sorted, OffsetOf;
    var sc, t := SchemaOf(fs), Sorted(fs);
    FieldFits(fs, i);
    FieldFits(fs, j);
    if k < l {
      RowsApart(k, l, sc.fields[i].offset + Size(sc.fields[i].kind), sc.fields[j].offset, sc.elem);
    } else if l < k {
      RowsApart(l, k, sc.fields[j].offset + Size(sc.fields[j].kind), sc.fields[i].offset, sc.elem);
    } else {
      NoPadding(fs, i);
      NoPadding(fs, j);
      if i < j {
        SumMonotone(t, i, j);
      } else {
        SumMonotone(t, j, i);
      }
    }
  }

  // ---------- the least size ----------

  // Any layout at all: fields within n bytes, apart, and aligned in every slot of an array.
  ghost predicate Fits(fs: seq<Field>, offs: seq<nat>, n: nat) {
    && |offs| == |fs|
    && (forall i :: 0 <= i < |fs| ==> offs[i] + Size(fs[i].kind) <= n)
    && (forall i, j :: 0 <= i < j < |fs| ==>
          Apart((offs[i], offs[i] + Size(fs[i].kind)), (offs[j], offs[j] + Size(fs[j].kind))))
    && (forall i :: 0 <= i < |fs| ==> n % Align(fs[i].kind) == 0)
  }

  function Range(a: int, b: int): (s: set<int>)
    requires a <= b
    ensures forall x :: x in s <==> a <= x < b
    ensures |s| == b - a
    decreases b - a
  {
    if a == b then {} else Range(a, b - 1) + {b - 1}
  }

  // The bytes that the first fields of a layout take.
  lemma {:induction false} Covered(fs: seq<Field>, offs: seq<nat>, n: nat, k: nat) returns (s: set<int>)
    requires Fits(fs, offs, n) && k <= |fs|
    ensures |s| == Sum(fs[..k]) && s <= Range(0, n)
    ensures forall i :: k <= i < |fs| ==> s !! Range(offs[i], offs[i] + Size(fs[i].kind))
    decreases k
  {
    hide Align, Size;
    if k == 0 {
      s := {};
    } else {
      var s' := Covered(fs, offs, n, k - 1);
      var new_ := Range(offs[k-1], offs[k-1] + Size(fs[k-1].kind));
      s := s' + new_;
      assert fs[..k][..k-1] == fs[..k-1];
      forall i | k <= i < |fs| ensures s !! Range(offs[i], offs[i] + Size(fs[i].kind)) {
        assert Apart((offs[k-1], offs[k-1] + Size(fs[k-1].kind)), (offs[i], offs[i] + Size(fs[i].kind)));
      }
    }
  }

  lemma {:induction false} SumPlace(s: seq<Field>, f: Field)
    ensures Sum(Place(s, f)) == Sum(s) + Size(f.kind)
    decreases |s|
  {
    hide Align, Size;
    if s == [] || Align(s[|s|-1].kind) >= Align(f.kind) {
      assert (s + [f])[..|s|] == s;
    } else {
      SumPlace(s[..|s|-1], f);
      var p := Place(s[..|s|-1], f);
      assert (p + [s[|s|-1]])[..|p|] == p;
    }
  }

  lemma {:induction false} MaxPlace(s: seq<Field>, f: Field)
    ensures MaxAlign(Place(s, f)) == if Align(f.kind) > MaxAlign(s) then Align(f.kind) else MaxAlign(s)
    decreases |s|
  {
    hide Align, Size;
    if s == [] || Align(s[|s|-1].kind) >= Align(f.kind) {
      assert (s + [f])[..|s|] == s;
    } else {
      MaxPlace(s[..|s|-1], f);
      var p := Place(s[..|s|-1], f);
      assert (p + [s[|s|-1]])[..|p|] == p;
    }
  }

  lemma {:induction false} SumSorted(s: seq<Field>)
    ensures Sum(Sorted(s)) == Sum(s) && MaxAlign(Sorted(s)) == MaxAlign(s)
    decreases |s|
  {
    hide Align, Size, Place;
    if s != [] {
      SumSorted(s[..|s|-1]);
      SumPlace(Sorted(s[..|s|-1]), s[|s|-1]);
      MaxPlace(Sorted(s[..|s|-1]), s[|s|-1]);
    }
  }

  // The greatest alignment is one of them.
  lemma {:induction false} MaxAlignDivides(fs: seq<Field>, n: nat)
    requires forall i :: 0 <= i < |fs| ==> n % Align(fs[i].kind) == 0
    ensures n % MaxAlign(fs) == 0
    decreases |fs|
  {
    hide Align;
    if fs != [] {
      MaxAlignDivides(fs[..|fs|-1], n);
    }
  }

  /** elem_size is the least possible: every layout of the same fields, in any order and with any gaps,
      takes at least as many bytes a slot. */
  lemma ElemIsLeast(fs: seq<Field>, offs: seq<nat>, n: nat)
    requires Fits(fs, offs, n)
    ensures SchemaOf(fs).elem <= n
  {
    hide Align, Size, AlignUp, Sorted;
    var s := Covered(fs, offs, n, |fs|);
    assert fs[..|fs|] == fs;
    SubsetSize(s, Range(0, n));
    SumSorted(fs);
    SortedDescending(fs);
    EndIsSum(Sorted(fs), 1);
    MaxAlignDivides(fs, n);
    AlignUpLeast(Sum(fs), MaxAlign(fs), n);
  }

  // ---------- xrecord_schema_create ----------

  method SchemaCreate(fs: seq<Field>) returns (r: Option<Schema>)
    ensures r.None? <==> || fs == [] || (exists i: nat :: i < |fs| && fs[i].name == "")
                         || (exists i: nat, j: nat :: i < j < |fs| && fs[i].name == fs[j].name)
    ensures r.Some? ==> r.value == SchemaOf(fs)
  {
    hide Sorted, OffsetOf, MaxAlign;
    if fs == [] {
      return None;
    }
    for i := 0 to |fs|
      invariant forall k: nat :: k < i ==> fs[k].name != ""
      invariant forall k: nat, j: nat :: k < i && k < j < |fs| ==> fs[k].name != fs[j].name
    {
      if fs[i].name == "" {
        return None;
      }
      for j := i + 1 to |fs|
        invariant forall k: nat :: i < k < j ==> fs[i].name != fs[k].name
      {
        if fs[i].name == fs[j].name {
          return None;
        }
      }
    }
    var a := new Field[|fs|](i requires 0 <= i < |fs| => fs[i]);
    assert a[..] == fs;
    SortFields(a);
    var elem := AssignOffsets(a);
    return Some(Schema(a[..], elem));
  }

  lemma PackNone(t: seq<Field>)
    ensures End(t[..0]) == 0 && MaxAlign(t[..0]) == 1
  {
  }

  lemma PackStep(t: seq<Field>, i: nat)
    requires i < |t|
    ensures OffsetOf(t, i) == AlignUp(End(t[..i]), Align(t[i].kind))
    ensures End(t[..i+1]) == OffsetOf(t, i) + Size(t[i].kind)
    ensures var m, a := MaxAlign(t[..i]), Align(t[i].kind); MaxAlign(t[..i+1]) == if a > m then a else m
  {
    hide Align, Size, AlignUp;
    assert t[..i+1][..i] == t[..i];
  }

  // The packing loop
  method AssignOffsets(a: array<Field>) returns (elem: nat)
    modifies a
    ensures a[..] == Laid(old(a[..])) && elem == AlignUp(End(old(a[..])), MaxAlign(old(a[..])))
  {
    hide Align, Size, AlignUp, End, MaxAlign, OffsetOf;
    ghost var t := a[..];
    var offset, maxAlign := 0, 1;
    PackNone(t);
    var i := 0;
    while i < a.Length
      invariant 0 <= i <= a.Length && IsAlign(maxAlign)
      invariant offset == End(t[..i]) && maxAlign == MaxAlign(t[..i])
      invariant forall k :: 0 <= k < i ==> a[k] == t[k].(offset := OffsetOf(t, k))
      invariant forall k :: i <= k < a.Length ==> a[k] == t[k]
    {
      PackStep(t, i);
      var align := Align(a[i].kind);
      if align > maxAlign {
        maxAlign := align;
      }
      offset := AlignUp(offset, align);
      a[i] := a[i].(offset := offset);
      offset := offset + Size(a[i].kind);
      i := i + 1;
    }
    assert t[..i] == t;
    elem := AlignUp(offset, maxAlign);
  }
}
