/**
 The memory of a record pool (xrecord.c): one byte array of slots, and the heap blocks its string
 fields own.  Reads and writes of one field, and what they leave alone.
 */
module RecordStore {
  import opened Common
  import opened RecordBytes
  import opened RecordLayout

  type Ptr = nat

  const U32: nat := 0x1_0000_0000
  const U64: nat := 0x1_0000_0000_0000_0000

  // A double, as far as the pool looks into it.
  datatype Number = Whole(n: int) | Fraction(code: int) | NotANumber | Infinite(negative: bool)

  datatype Value = Num(x: Number) | Flag(b: bool) | Text(s: Bytes)

  // Conversions between double and float: None where the magnitude is too great.
  datatype Floats = Floats(narrow: Number -> Option<nat>, widen: nat -> Number)

  datatype Store = Store(mem: Bytes, heap: map<Ptr, Bytes>)

  // ---------- fields of slots ----------

  predicate InPool(sc: Schema, cap: nat, k: nat, i: nat) {
    k < cap && i < |sc.fields|
  }

  // The fields lie within a slot, apart from each other.
  ghost predicate Proper(sc: Schema) {
    && (forall i :: 0 <= i < |sc.fields| ==> At(sc, 0, i).1 <= sc.elem)
    && (forall i, j :: 0 <= i < j < |sc.fields| ==> Apart(At(sc, 0, i), At(sc, 0, j)))
  }

  // xrecord_schema_create makes no other schemas.
  lemma CreatedIsProper(fs: seq<Field>)
    ensures Proper(SchemaOf(fs))
  {
    var sc := SchemaOf(fs);
    assert |sc.fields| == |fs|;
    hide SchemaOf, Size;
    forall i | 0 <= i < |sc.fields|
      ensures At(sc, 0, i).1 <= sc.elem
    {
      FieldFits(fs, i);
    }
    forall i, j | 0 <= i < j < |sc.fields|
      ensures Apart(At(sc, 0, i), At(sc, 0, j))
    {
      SlotsApart(fs, 0, i, 0, j);
    }
  }

  ghost predicate Sized(sc: Schema, cap: nat, st: Store) {
    |st.mem| == cap * sc.elem
  }

  // Every field lies within the pool, and apart from every other.
  lemma FieldAt(sc: Schema, cap: nat, k: nat, i: nat)
    requires Proper(sc) && InPool(sc, cap, k, i)
    ensures 0 <= At(sc, k, i).0 <= At(sc, k, i).1 <= cap * sc.elem
    ensures At(sc, k, i).1 - At(sc, k, i).0 == Size(sc.fields[i].kind)
  {
    hide Size;
    assert At(sc, 0, i).1 <= sc.elem;
    Multiples(k + 1, cap, sc.elem);
    assert (k + 1) * sc.elem == k * sc.elem + sc.elem;
  }

  lemma FieldsApart(sc: Schema, k: nat, i: nat, l: nat, j: nat)
    requires Proper(sc) && i < |sc.fields| && j < |sc.fields| && (k != l || i != j)
    ensures Apart(At(sc, k, i), At(sc, l, j))
  {
    hide Size;
    if k == l {
      assert Apart(At(sc, 0, if i < j then i else j), At(sc, 0, if i < j then j else i));
    } else {
      assert At(sc, 0, i).1 <= sc.elem && At(sc, 0, j).1 <= sc.elem;
      if k < l {
        RowsApart(k, l, At(sc, 0, i).1, sc.fields[j].offset, sc.elem);
      } else {
        RowsApart(l, k, At(sc, 0, j).1, sc.fields[i].offset, sc.elem);
      }
    }
  }

  // The bytes of a field.
  ghost function Cell(sc: Schema, cap: nat, st: Store, k: nat, i: nat): (c: Bytes)
    requires Proper(sc) && Sized(sc, cap, st) && InPool(sc, cap, k, i)
    ensures |c| == Size(sc.fields[i].kind)
  {
    FieldAt(sc, cap, k, i);
    st.mem[At(sc, k, i).0..At(sc, k, i).1]
  }

  // Bytes written at an address.
  function Poke(mem: Bytes, at: nat, b: Bytes): (r: Bytes)
    requires at + |b| <= |mem|
    ensures |r| == |mem|
  {
    mem[..at] + b + mem[at + |b|..]
  }

  lemma PokeInside(mem: Bytes, lo: nat, hi: nat, d: nat, b: Bytes)
    requires lo + d + |b| <= hi <= |mem|
    ensures var c := mem[lo..hi]; Poke(mem, lo + d, b)[lo..hi] == c[..d] + b + c[d + |b|..]
  {
  }

  lemma PokeApart(mem: Bytes, at: nat, b: Bytes, lo: nat, hi: nat)
    requires at + |b| <= |mem| && lo <= hi <= |mem| && (hi <= at || at + |b| <= lo)
    ensures Poke(mem, at, b)[lo..hi] == mem[lo..hi]
  {
  }

  lemma ApartMeans(a: (int, int), b: (int, int))
    requires Apart(a, b)
    ensures a.1 <= b.0 || b.1 <= a.0
  {
  }

  // Bytes written at offset d of a field.
  ghost function PokeField(sc: Schema, cap: nat, st: Store, k: nat, i: nat, d: nat, b: Bytes): (r: Store)
    requires Proper(sc) && Sized(sc, cap, st) && InPool(sc, cap, k, i) && d + |b| <= Size(sc.fields[i].kind)
    ensures Sized(sc, cap, r) && r.heap == st.heap
  {
    FieldAt(sc, cap, k, i);
    st.(mem := Poke(st.mem, At(sc, k, i).0 + d, b))
  }

  /** A write to one field changes that field as told, and no other field of any slot. */
  lemma PokedCell(sc: Schema, cap: nat, st: Store, k: nat, i: nat, d: nat, b: Bytes, l: nat, j: nat)
    requires Proper(sc) && Sized(sc, cap, st) && InPool(sc, cap, k, i) && d + |b| <= Size(sc.fields[i].kind)
    requires InPool(sc, cap, l, j)
    ensures var c := Cell(sc, cap, st, l, j);
            Cell(sc, cap, PokeField(sc, cap, st, k, i, d, b), l, j)
            == if l == k && j == i then c[..d] + b + c[d + |b|..] else c
  {
    hide Size, At, Poke, Proper, Apart;
    FieldAt(sc, cap, k, i);
    FieldAt(sc, cap, l, j);
    var a, z := At(sc, l, j).0, At(sc, l, j).1;
    if l == k && j == i {
      PokeInside(st.mem, a, z, d, b);
    } else {
      FieldsApart(sc, k, i, l, j);
      ApartMeans(At(sc, k, i), At(sc, l, j));
      PokeApart(st.mem, At(sc, k, i).0 + d, b, a, z);
    }
  }

  // ---------- the value of a field ----------

  // The pointer and the length in the bytes of a string field.
  function PtrOf(c: Bytes): (p: nat) {
    if |c| < 8 then 0 else OfLe(c[..8])
  }

  function LenOf(c: Bytes): (n: nat) {
    if |c| < 12 then 0 else OfLe(c[8..12])
  }

  // What xrecord_get makes of the bytes of a field.
  function Decode(fl: Floats, kind: FieldType, c: Bytes, heap: map<Ptr, Bytes>): Value
    requires |c| == Size(kind)
  {
    match kind
    case Int8 => Num(Whole(OfWord(OfLe(c), 1)))
    case Int16 => Num(Whole(OfWord(OfLe(c), 2)))
    case Int32 => Num(Whole(OfWord(OfLe(c), 4)))
    case Int => Num(Whole(OfWord(OfLe(c), 8)))
    case Float => Num(fl.widen(OfLe(c)))
    case Bool => Flag(c[0] != 0)
    case Str =>
      var p, n := PtrOf(c), LenOf(c);
      Text(if n == 0 || p !in heap || n > |heap[p]| then [] else heap[p][..n])
  }

  ghost function Read(sc: Schema, cap: nat, fl: Floats, st: Store, k: nat, i: nat): Value
    requires Proper(sc) && Sized(sc, cap, st) && InPool(sc, cap, k, i)
  {
    Decode(fl, sc.fields[i].kind, Cell(sc, cap, st, k, i), st.heap)
  }

  // ---------- string fields own their blocks ----------

  ghost predicate IsText(sc: Schema, cap: nat, k: nat, i: nat) {
    InPool(sc, cap, k, i) && sc.fields[i].kind == Str
  }

  ghost function BlockOf(sc: Schema, cap: nat, st: Store, k: nat, i: nat): Ptr
    requires Proper(sc) && Sized(sc, cap, st) && IsText(sc, cap, k, i)
  {
    PtrOf(Cell(sc, cap, st, k, i))
  }

  // No block and no length, or a block at least that long.
  ghost predicate TextOk(sc: Schema, cap: nat, st: Store, k: nat, i: nat)
    requires Proper(sc) && Sized(sc, cap, st) && IsText(sc, cap, k, i)
  {
    var c := Cell(sc, cap, st, k, i);
    if PtrOf(c) == 0 then LenOf(c) == 0 else PtrOf(c) in st.heap && LenOf(c) <= |st.heap[PtrOf(c)]|
  }

  // Two string fields with a block have different ones.
  ghost predicate Separate(sc: Schema, cap: nat, st: Store, k: nat, i: nat, l: nat, j: nat)
    requires Proper(sc) && Sized(sc, cap, st) && IsText(sc, cap, k, i) && IsText(sc, cap, l, j)
  {
    (k == l && i == j) || BlockOf(sc, cap, st, k, i) == 0 || BlockOf(sc, cap, st, k, i) != BlockOf(sc, cap, st, l, j)
  }

  ghost predicate Sound(sc: Schema, cap: nat, st: Store) {
    && Proper(sc) && Sized(sc, cap, st) && 0 !in st.heap
    && (forall k: nat, i: nat :: IsText(sc, cap, k, i) ==> TextOk(sc, cap, st, k, i))
    && (forall k: nat, i: nat, l: nat, j: nat :: IsText(sc, cap, k, i) && IsText(sc, cap, l, j) ==>
          Separate(sc, cap, st, k, i, l, j))
  }

  // Field (l, j) is as before, with its block.
  ghost predicate Same(sc: Schema, cap: nat, st: Store, st': Store, l: nat, j: nat)
    requires Proper(sc) && Sized(sc, cap, st) && Sized(sc, cap, st') && InPool(sc, cap, l, j)
  {
    && Cell(sc, cap, st', l, j) == Cell(sc, cap, st, l, j)
    && (sc.fields[j].kind == Str ==>
          var p := BlockOf(sc, cap, st, l, j); p in st.heap ==> p in st'.heap && st'.heap[p] == st.heap[p])
  }

  // Field (k, i) was written, and the block it owns now is its own.
  ghost predicate Written(sc: Schema, cap: nat, st: Store, st': Store, k: nat, i: nat) {
    && Sound(sc, cap, st) && Sized(sc, cap, st') && InPool(sc, cap, k, i) && 0 !in st'.heap
    && (forall l: nat, j: nat :: InPool(sc, cap, l, j) && (l != k || j != i) ==> Same(sc, cap, st, st', l, j))
    && (sc.fields[i].kind == Str ==>
          && TextOk(sc, cap, st', k, i)
          && var p := BlockOf(sc, cap, st', k, i); p == 0 || p == BlockOf(sc, cap, st, k, i) || p !in st.heap)
  }

  lemma WrittenSound(sc: Schema, cap: nat, st: Store, st': Store, k: nat, i: nat)
    requires Written(sc, cap, st, st', k, i)
    ensures Sound(sc, cap, st')
  {
    hide Proper, Sized, Cell;
    forall l: nat, j: nat | IsText(sc, cap, l, j) ensures TextOk(sc, cap, st', l, j) {
      assert TextOk(sc, cap, st, l, j);
      if l != k || j != i {
        assert Same(sc, cap, st, st', l, j);
      }
    }
    forall a: nat, b: nat, l: nat, j: nat | IsText(sc, cap, a, b) && IsText(sc, cap, l, j)
      ensures Separate(sc, cap, st', a, b, l, j)
    {
      assert Separate(sc, cap, st, a, b, l, j) && TextOk(sc, cap, st, a, b) && TextOk(sc, cap, st, l, j);
      if a != k || b != i {
        assert Same(sc, cap, st, st', a, b);
      }
      if l != k || j != i {
        assert Same(sc, cap, st, st', l, j);
      }
    }
  }

  /** Writing one field of one slot changes what is read from no other. */
  lemma WrittenOthers(sc: Schema, cap: nat, fl: Floats, st: Store, st': Store, k: nat, i: nat, l: nat, j: nat)
    requires Written(sc, cap, st, st', k, i) && InPool(sc, cap, l, j) && (l != k || j != i)
    ensures Read(sc, cap, fl, st', l, j) == Read(sc, cap, fl, st, l, j)
  {
    hide Proper, Sized, Cell;
    assert Same(sc, cap, st, st', l, j);
    if sc.fields[j].kind == Str {
      assert TextOk(sc, cap, st, l, j);
    }
  }

  // A poke into the field keeps its block and the heap.
  lemma PokedOthers(sc: Schema, cap: nat, st: Store, k: nat, i: nat, d: nat, b: Bytes)
    requires Proper(sc) && Sized(sc, cap, st) && InPool(sc, cap, k, i) && d + |b| <= Size(sc.fields[i].kind)
    ensures var st' := PokeField(sc, cap, st, k, i, d, b);
            forall l: nat, j: nat :: InPool(sc, cap, l, j) && (l != k || j != i) ==> Same(sc, cap, st, st', l, j)
  {
    hide Proper, Sized, Cell, PokeField;
    forall l: nat, j: nat | InPool(sc, cap, l, j) && (l != k || j != i)
      ensures Same(sc, cap, st, PokeField(sc, cap, st, k, i, d, b), l, j)
    {
      PokedCell(sc, cap, st, k, i, d, b, l, j);
    }
  }

  // ---------- xrecord_set on one field ----------

  datatype Status = Ok | NotFound | Exists | NoField | TypeMismatch | OutOfRange | NoMem

  // The range check of the integer kinds (coerce_int).
  function Coerce(x: Number, w: nat): (r: Status)
    requires w > 0
  {
    match x
    case NotANumber => TypeMismatch
    case Fraction(_) => TypeMismatch
    case Infinite(_) => OutOfRange
    case Whole(n) => if -(Pow256(w) / 2) <= n < Pow256(w) / 2 then Ok else OutOfRange
  }

  function Width(kind: FieldType): (w: nat)
    ensures kind != Str && kind != Bool ==> w == Size(kind)
  {
    match kind
    case Int8 => 1
    case Int16 => 2
    case Int32 => 4
    case Int => 8
    case Float => 4
    case Bool => 1
    case Str => 16
  }

  function SetStatus(fl: Floats, kind: FieldType, v: Value): Status {
    match kind
    case Str => if v.Text? then Ok else TypeMismatch
    case Bool => if v.Flag? then Ok else TypeMismatch
    case Float =>
      if !v.Num? || v.x.NotANumber? || v.x.Infinite? then TypeMismatch
      else if fl.narrow(v.x).None? then OutOfRange
      else Ok
    case Int =>
      if !v.Num? || v.x.NotANumber? || v.x.Fraction? then TypeMismatch else Ok
    case _ => if v.Num? then Coerce(v.x, Width(kind)) else TypeMismatch
  }

  /** What each kind of field accepts, and why it refuses the rest: nothing is truncated or clamped. */
  lemma SetAccepts(fl: Floats, kind: FieldType, v: Value)
    ensures var st := SetStatus(fl, kind, v);
            && st in {Ok, TypeMismatch, OutOfRange}
            && (kind == Str ==> (st == Ok <==> v.Text?) && st != OutOfRange)
            && (kind == Bool ==> (st == Ok <==> v.Flag?) && st != OutOfRange)
            && (kind != Str && kind != Bool && !v.Num? ==> st == TypeMismatch)
            && (v.Num? && (v.x.NotANumber? || (v.x.Fraction? && kind != Float)) ==> st == TypeMismatch)
            && (v.Num? && kind == Float && v.x.Infinite? ==> st == TypeMismatch)
            && (v.Num? && kind == Float && !v.x.NotANumber? && !v.x.Infinite? ==>
                  st == if fl.narrow(v.x).Some? then Ok else OutOfRange)
            && (v.Num? && kind == Int8 && v.x.Whole? ==> st == if -0x80 <= v.x.n <= 0x7F then Ok else OutOfRange)
            && (v.Num? && kind == Int16 && v.x.Whole? ==>
                  st == if -0x8000 <= v.x.n <= 0x7FFF then Ok else OutOfRange)
            && (v.Num? && kind == Int32 && v.x.Whole? ==>
                  st == if -0x8000_0000 <= v.x.n <= 0x7FFF_FFFF then Ok else OutOfRange)
            && (v.Num? && (kind == Int8 || kind == Int16 || kind == Int32) && v.x.Infinite? ==> st == OutOfRange)
            && (v.Num? && kind == Int && (v.x.Whole? || v.x.Infinite?) ==> st == Ok)
    ensures kind != Int || !v.Num? || !(v.x.Infinite? || v.x.Whole?) ==> Defined(kind, v)
    ensures kind == Int && v.Num? && v.x.Infinite? ==> !Defined(kind, v)
    ensures kind == Int && v.Num? && v.x.Whole? ==>
              (Defined(kind, v) <==> -0x8000_0000_0000_0000 <= v.x.n <= 0x7FFF_FFFF_FFFF_FFFF)
  {
    Powers();
  }

  // C leaves the conversion of a double outside the range of int64_t undefined.
  predicate Defined(kind: FieldType, v: Value) {
    kind == Int && v.Num? ==>
      match v.x
      case Infinite(_) => false
      case Whole(n) => -(Pow256(8) / 2) <= n < Pow256(8) / 2
      case _ => true
  }

  // What a field holds after a successful set: a float is rounded, a length is cut to 32 bits.
  function Stored(fl: Floats, kind: FieldType, v: Value): Value {
    match v
    case Num(x) =>
      if kind == Float && fl.narrow(x).Some? then Num(fl.widen(fl.narrow(x).value)) else v
    case Flag(_) => v
    case Text(s) => Text(s[..|s| % U32])
  }

  // A float has 32 bits, and all zero they are the number 0.
  ghost predicate FloatsOk(fl: Floats) {
    fl.widen(0) == Whole(0) && forall x :: fl.narrow(x).Some? ==> fl.narrow(x).value < U32
  }

  // The bytes of a number or a flag.
  function Encode(fl: Floats, kind: FieldType, v: Value): (b: Bytes)
    requires kind != Str && SetStatus(fl, kind, v) == Ok && Defined(kind, v)
    ensures |b| == Size(kind)
  {
    match v
    case Flag(f) => [if f then 1 else 0]
    case Num(x) =>
      if kind == Float then Le(fl.narrow(x).value, 4) else Le(ToWord(x.n, Width(kind)), Width(kind))
  }

  lemma EncodeDecode(fl: Floats, kind: FieldType, v: Value, heap: map<Ptr, Bytes>)
    requires FloatsOk(fl) && kind != Str && SetStatus(fl, kind, v) == Ok && Defined(kind, v)
    ensures Decode(fl, kind, Encode(fl, kind, v), heap) == Stored(fl, kind, v)
    ensures v.Flag? ==> Encode(fl, kind, v) == [if v.b then 1 else 0]
  {
    Powers();
    if v.Num? {
      if kind == Float {
        LeRoundTrip(fl.narrow(v.x).value, 4);
      } else {
        var w := Width(kind);
        WordRoundTrip(v.x.n, w);
        LeRoundTrip(ToWord(v.x.n, w), w);
      }
    }
  }

  lemma FixedWritten(sc: Schema, cap: nat, fl: Floats, st: Store, k: nat, i: nat, b: Bytes)
    requires Sound(sc, cap, st) && InPool(sc, cap, k, i) && sc.fields[i].kind != Str
    requires |b| == Size(sc.fields[i].kind)
    ensures var st' := PokeField(sc, cap, st, k, i, 0, b);
            Written(sc, cap, st, st', k, i) && Read(sc, cap, fl, st', k, i) == Decode(fl, sc.fields[i].kind, b, st.heap)
  {
    hide Proper, Sized, Cell, PokeField, Size;
    PokedOthers(sc, cap, st, k, i, 0, b);
    PokedCell(sc, cap, st, k, i, 0, b, k, i);
    var c := Cell(sc, cap, st, k, i);
    assert c[..0] + b + c[|b|..] == b;
  }

  // A string emptied: the length is 0, the block is kept for the next one.
  lemma TextCleared(sc: Schema, cap: nat, fl: Floats, st: Store, k: nat, i: nat)
    requires Sound(sc, cap, st) && IsText(sc, cap, k, i)
    ensures var st' := PokeField(sc, cap, st, k, i, 8, Zeros(4));
            Written(sc, cap, st, st', k, i) && Read(sc, cap, fl, st', k, i) == Text([])
  {
    hide Proper, Sized, Cell, PokeField;
    var b := Zeros(4);
    PokedOthers(sc, cap, st, k, i, 8, b);
    PokedCell(sc, cap, st, k, i, 8, b, k, i);
    var c := Cell(sc, cap, st, k, i);
    var d := c[..8] + b + c[12..];
    assert d[..8] == c[..8] && d[8..12] == b;
    ZeroBytes(b);
    assert TextOk(sc, cap, st, k, i);
  }

  // A string set: realloc gives a block np, the bytes are copied, pointer and length are stored.
  ghost function PutText(sc: Schema, cap: nat, st: Store, k: nat, i: nat, np: Ptr, data: Bytes): (r: Store)
    requires Proper(sc) && Sized(sc, cap, st) && IsText(sc, cap, k, i)
    ensures Sized(sc, cap, r)
  {
    var st1 := Store(st.mem, (st.heap - {BlockOf(sc, cap, st, k, i)})[np := data]);
    var st2 := PokeField(sc, cap, st1, k, i, 0, Le(np, 8));
    PokeField(sc, cap, st2, k, i, 8, Le(|data| % U32, 4))
  }

  lemma TextWritten(sc: Schema, cap: nat, fl: Floats, st: Store, k: nat, i: nat, np: Ptr, data: Bytes)
    requires Sound(sc, cap, st) && IsText(sc, cap, k, i)
    requires 0 < np < U64 && np !in st.heap - {BlockOf(sc, cap, st, k, i)}
    ensures var st' := PutText(sc, cap, st, k, i, np, data);
            Written(sc, cap, st, st', k, i) && Read(sc, cap, fl, st', k, i) == Stored(fl, Str, Text(data))
  {
    hide Proper, PokeField;
    var p, n := BlockOf(sc, cap, st, k, i), |data| % U32;
    var st1 := Store(st.mem, (st.heap - {p})[np := data]);
    var st2 := PokeField(sc, cap, st1, k, i, 0, Le(np, 8));
    var st' := PokeField(sc, cap, st2, k, i, 8, Le(n, 4));
    PutTextCell(sc, cap, st, k, i, np, data);
    forall l: nat, j: nat | InPool(sc, cap, l, j) && (l != k || j != i) ensures Same(sc, cap, st, st', l, j) {
      PokedCell(sc, cap, st1, k, i, 0, Le(np, 8), l, j);
      PokedCell(sc, cap, st2, k, i, 8, Le(n, 4), l, j);
      if IsText(sc, cap, l, j) {
        assert Separate(sc, cap, st, k, i, l, j);
      }
    }
  }

  lemma PutTextCell(sc: Schema, cap: nat, st: Store, k: nat, i: nat, np: Ptr, data: Bytes)
    requires Proper(sc) && Sized(sc, cap, st) && IsText(sc, cap, k, i) && 0 < np < U64
    ensures var st' := PutText(sc, cap, st, k, i, np, data);
            var c := Cell(sc, cap, st', k, i);
            PtrOf(c) == np && LenOf(c) == |data| % U32
  {
    hide Proper, PokeField;
    var p, n := BlockOf(sc, cap, st, k, i), |data| % U32;
    var st1 := Store(st.mem, (st.heap - {p})[np := data]);
    var st2 := PokeField(sc, cap, st1, k, i, 0, Le(np, 8));
    PokedCell(sc, cap, st1, k, i, 0, Le(np, 8), k, i);
    PokedCell(sc, cap, st2, k, i, 8, Le(n, 4), k, i);
    var c1 := Cell(sc, cap, st1, k, i);
    var c2 := c1[..0] + Le(np, 8) + c1[8..];
    var c3 := c2[..8] + Le(n, 4) + c2[12..];
    assert c3[..8] == Le(np, 8) && c3[8..12] == Le(n, 4);
    Powers();
    LeRoundTrip(np, 8);
    LeRoundTrip(n, 4);
  }

  /** A string is read back as it was given exactly if its length fits the 32 bits it is stored in. */
  lemma TextIsExact(sc: Schema, cap: nat, fl: Floats, st: Store, k: nat, i: nat, np: Ptr, data: Bytes)
    requires Sound(sc, cap, st) && IsText(sc, cap, k, i)
    requires 0 < np < U64 && np !in st.heap - {BlockOf(sc, cap, st, k, i)}
    ensures Read(sc, cap, fl, PutText(sc, cap, st, k, i, np, data), k, i) == Text(data) <==> |data| < U32
  {
    hide Proper, PutText, Read, BlockOf;
    TextWritten(sc, cap, fl, st, k, i, np, data);
  }

  // ---------- a slot emptied ----------

  function ZeroOf(kind: FieldType): Value {
    match kind
    case Str => Text([])
    case Bool => Flag(false)
    case _ => Num(Whole(0))
  }

  function Zeros(n: nat): (b: Bytes)
    ensures |b| == n && forall i :: 0 <= i < n ==> b[i] == 0
  {
    seq(n, _ => 0)
  }

  // The part of a field that is zeroed: of a string only the length.
  function ZeroPart(kind: FieldType): (r: (nat, nat))
    ensures r.0 + r.1 <= Size(kind)
  {
    if kind == Str then (8, 4) else (0, Size(kind))
  }

  ghost function Cleared(sc: Schema, cap: nat, st: Store, k: nat, i: nat): (r: Store)
    requires Proper(sc) && Sized(sc, cap, st) && InPool(sc, cap, k, i)
    ensures Sized(sc, cap, r)
  {
    var z := ZeroPart(sc.fields[i].kind);
    PokeField(sc, cap, st, k, i, z.0, Zeros(z.1))
  }

  lemma ZeroDecodes(fl: Floats, kind: FieldType, heap: map<Ptr, Bytes>)
    requires FloatsOk(fl)
    ensures Decode(fl, kind, Zeros(Size(kind)), heap) == ZeroOf(kind)
  {
    var c := Zeros(Size(kind));
    ZeroBytes(c);
    Powers();
    if kind == Str {
      ZeroBytes(c[8..12]);
    }
  }

  lemma ClearedWritten(sc: Schema, cap: nat, fl: Floats, st: Store, k: nat, i: nat)
    requires FloatsOk(fl)
    requires Sound(sc, cap, st) && InPool(sc, cap, k, i)
    ensures var st' := Cleared(sc, cap, st, k, i);
            Written(sc, cap, st, st', k, i) && Read(sc, cap, fl, st', k, i) == ZeroOf(sc.fields[i].kind)
  {
    hide Proper, Sized, Cell, PokeField, Size, Decode, Written;
    if sc.fields[i].kind == Str {
      TextCleared(sc, cap, fl, st, k, i);
    } else {
      FixedWritten(sc, cap, fl, st, k, i, Zeros(Size(sc.fields[i].kind)));
      ZeroDecodes(fl, sc.fields[i].kind, st.heap);
    }
  }
}
