/**
 Sizes, alignments and field offsets (compiler/llvm_layout.py), and the entry layout of a map
 (compiler/llvm_map.py).  Sizes exist because the structs have been ordered: see StructRecursion.
 */
module StructLayout {
  import opened Prelude
  import opened TypeRefs
  import opened StructRecursion

  datatype Env = Env(structs: Structs, enums: set<string>, ifaces: set<string>)

  function AlignTo(value: nat, alignment: nat): nat
    requires alignment > 0
  {
    (value + alignment - 1) / alignment * alignment
  }

  /** The least multiple of the alignment that is not below the value. */
  lemma AlignToUp(value: nat, alignment: nat)
    requires alignment > 0
    ensures var r := AlignTo(value, alignment); value <= r < value + alignment && r % alignment == 0
  {
    var q := (value + alignment - 1) / alignment;
    assert q * alignment % alignment == 0 by { Multiple(q, alignment); }
  }

  lemma Multiple(q: nat, n: nat)
    requires n > 0
    ensures q * n % n == 0
  {
    var d, r := q * n / n, q * n % n;
    assert q * n == n * d + r;
    assert n * (q - d) == r;
    if q - d >= 1 {
      Scaled(n, q - d, 1);
    } else if q - d <= -1 {
      Scaled(n, -1, q - d);
    }
  }

  // ----- sizes and alignments ---------------------------------------------------------------------------------

  /** The built-in sizes; None for types that are not built in. */
  function BasicSize(key: string): Option<nat> {
    if key in {"i8", "u8", "bool"} then Some(1)
    else if key in {"i16", "u16"} then Some(2)
    else if key in {"i32", "u32", "f32", "rune"} then Some(4)
    else if key in {"i64", "u64", "f64"} then Some(8)
    else None
  }

  /** sizeof_type before it comes to structs: an answer, a refusal, or nothing yet. */
  datatype Shape = Sized(size: nat, align: nat) | Unsized | Unaligned(size: nat) | Fields(types: seq<TypeRef>)

  /** The branches of sizeof_type and alignof_type, which test the same conditions in the same order. */
  function ShapeOf(t: TypeRef, env: Env): Shape {
    var key := Format(t);
    if key == "void" then Unsized
    else if BasicSize(key).Some? then Sized(BasicSize(key).value, BasicSize(key).value)
    else if key in env.enums then Sized(4, 4)
    else if key == "str" then Sized(16, 8)
    else if key == "error" || key == "nc_map" || IsMap(t) then Sized(40, 8)
    else if key == "raw" then Unaligned(8)
    else if t.Pointer? then Sized(8, 8)
    else if t.Fn? || key in env.ifaces then Sized(16, 8)
    else if t.Slice? then Sized(24, 8)
    else if t.Array? then Sized(8, 8)
    else if key in env.structs then Fields(env.structs[key])
    else Unsized
  }

  function Max(a: nat, b: nat): nat {
    if a >= b then a else b
  }

  function AlignOf(t: TypeRef, env: Env, ghost order: seq<string>): (r: Option<nat>)
    requires Sizeable(env.structs, order)
    ensures r.Some? ==> r.value in {1, 2, 4, 8}
    decreases Rank(t, env.structs, order), 1
  {
    match ShapeOf(t, env)
    case Sized(_, align) => Some(align)
    case Unsized => None
    case Unaligned(_) => None
    case Fields(types) =>
      FieldsBelow(t, env.structs, order);
      MaxAlign(types, |types|, env, order, Rank(t, env.structs, order))
  }

  /** max(aligns, default=1) over the first n fields. */
  function MaxAlign(types: seq<TypeRef>, n: nat, env: Env, ghost order: seq<string>, ghost bound: nat): (r: Option<nat>)
    requires Sizeable(env.structs, order) && n <= |types|
    requires forall t :: t in types ==> Rank(t, env.structs, order) < bound
    ensures r.Some? ==> r.value in {1, 2, 4, 8}
    decreases bound, 0, n
  {
    if n == 0 then Some(1)
    else
      var before, last := MaxAlign(types, n - 1, env, order, bound), AlignOf(types[n - 1], env, order);
      if before.Some? && last.Some? then Some(Max(before.value, last.value)) else None
  }

  function SizeOf(t: TypeRef, env: Env, ghost order: seq<string>): Option<nat>
    requires Sizeable(env.structs, order)
    decreases Rank(t, env.structs, order), 1
  {
    match ShapeOf(t, env)
    case Sized(size, _) => Some(size)
    case Unsized => None
    case Unaligned(size) => Some(size)
    case Fields(types) =>
      FieldsBelow(t, env.structs, order);
      SizeOfFields(types, env, order, Rank(t, env.structs, order))
  }

  function SizeOfFields(types: seq<TypeRef>, env: Env, ghost order: seq<string>, ghost bound: nat): Option<nat>
    requires Sizeable(env.structs, order)
    requires forall t :: t in types ==> Rank(t, env.structs, order) < bound
    decreases bound, 0, |types| + 1
  {
    var end, align := EndOf(types, |types|, env, order, bound), MaxAlign(types, |types|, env, order, bound);
    if end.Some? && align.Some? then Some(AlignTo(end.value, align.value)) else None
  }

  /** Where the first n fields end. */
  function EndOf(types: seq<TypeRef>, n: nat, env: Env, ghost order: seq<string>, ghost bound: nat): Option<nat>
    requires Sizeable(env.structs, order) && n <= |types|
    requires forall t :: t in types ==> Rank(t, env.structs, order) < bound
    decreases bound, 0, n
  {
    if n == 0 then Some(0)
    else
      var before, align, size := EndOf(types, n - 1, env, order, bound), AlignOf(types[n - 1], env, order),
          SizeOf(types[n - 1], env, order);
      if before.Some? && align.Some? && size.Some? then Some(AlignTo(before.value, align.value) + size.value) else None
  }

  /** The loop of sizeof_fields: running offset and running maximum. */
  method SizeofFields(types: seq<TypeRef>, env: Env, ghost order: seq<string>, ghost bound: nat)
    returns (size: Option<nat>)
    requires Sizeable(env.structs, order)
    requires forall t :: t in types ==> Rank(t, env.structs, order) < bound
    ensures size == SizeOfFields(types, env, order, bound)
  {
    hide Sizeable, Rank, AlignTo, AlignOf, SizeOf;
    var offset, maxAlign := 0, 1;
    for i := 0 to |types|
      invariant EndOf(types, i, env, order, bound) == Some(offset)
      invariant MaxAlign(types, i, env, order, bound) == Some(maxAlign)
    {
      var align, fieldSize := AlignOf(types[i], env, order), SizeOf(types[i], env, order);
      if align.None? || fieldSize.None? {
        NoPrefix(types, i + 1, env, order, bound, |types|);
        return None;
      }
      maxAlign := Max(maxAlign, align.value);
      offset := AlignTo(offset, align.value);
      offset := offset + fieldSize.value;
    }
    size := Some(AlignTo(offset, maxAlign));
  }

  /** A struct without a size for some leading fields has no size. */
  lemma {:induction false} NoPrefix(types: seq<TypeRef>, i: nat, env: Env, order: seq<string>, bound: nat, n: nat)
    requires Sizeable(env.structs, order) && i <= n <= |types|
    requires forall t :: t in types ==> Rank(t, env.structs, order) < bound
    ensures EndOf(types, n, env, order, bound).Some? ==> EndOf(types, i, env, order, bound).Some?
    ensures MaxAlign(types, n, env, order, bound).Some? ==> MaxAlign(types, i, env, order, bound).Some?
    decreases n
  {
    if i < n {
      NoPrefix(types, i, env, order, bound, n - 1);
    }
  }

  // ----- what the layout promises ---------------------------------------------------------------------------

  predicate Alignment(a: nat) {
    a in {1, 2, 4, 8}
  }

  /** The offset of field i. */
  function OffsetOf(types: seq<TypeRef>, env: Env, ghost order: seq<string>, ghost bound: nat, i: nat): Option<nat>
    requires Sizeable(env.structs, order) && i < |types|
    requires forall t :: t in types ==> Rank(t, env.structs, order) < bound
  {
    var before, align := EndOf(types, i, env, order, bound), AlignOf(types[i], env, order);
    if before.Some? && align.Some? then Some(AlignTo(before.value, align.value)) else None
  }

  lemma {:induction false} EndGrows(types: seq<TypeRef>, i: nat, env: Env, order: seq<string>, bound: nat, n: nat)
    requires Sizeable(env.structs, order) && i <= n <= |types|
    requires forall t :: t in types ==> Rank(t, env.structs, order) < bound
    requires EndOf(types, n, env, order, bound).Some? && MaxAlign(types, n, env, order, bound).Some?
    ensures EndOf(types, i, env, order, bound).Some? && EndOf(types, i, env, order, bound).value <= EndOf(types, n, env,
        order, bound).value
    ensures MaxAlign(types, i, env, order, bound).Some?
    ensures MaxAlign(types, i, env, order, bound).value <= MaxAlign(types, n, env, order, bound).value
    decreases n
  {
    hide Sizeable, Rank, AlignTo, AlignOf, SizeOf;
    if i < n {
      AlignToUp(EndOf(types, n - 1, env, order, bound).value, AlignOf(types[n - 1], env, order).value);
      EndGrows(types, i, env, order, bound, n - 1);
    }
  }

  /** A smaller alignment divides a larger one. */
  lemma AlignmentsDivide(a: nat, b: nat, n: nat)
    requires Alignment(a) && Alignment(b) && a <= b && n % b == 0
    ensures n % a == 0 && b % a == 0
  {
    var c := if a == b then 1 else if 2 * a == b then 2 else if 4 * a == b then 4 else 8;
    assert b == c * a;
    Multiple(c, a);
    var m := n / b;
    assert n == m * b;
    Regroup(m, c, a);
    Multiple(m * c, a);
  }

  /**
   In a struct that has a size every field has an offset, aligned for its type; fields lie one after
   the other inside the struct; and the size is a multiple of the struct's alignment, so in an array of
   such structs every field of every element is aligned.
   */
  lemma FieldsLaidOut(types: seq<TypeRef>, env: Env, order: seq<string>, bound: nat, i: nat)
    requires Sizeable(env.structs, order) && i < |types|
    requires forall t :: t in types ==> Rank(t, env.structs, order) < bound
    requires SizeOfFields(types, env, order, bound).Some?
    ensures OffsetOf(types, env, order, bound, i).Some? && SizeOf(types[i], env, order).Some? &&
        AlignOf(types[i], env, order).Some?
    ensures Placed(OffsetOf(types, env, order, bound, i).value, SizeOf(types[i], env, order).value,
        AlignOf(types[i], env, order).value,
                   SizeOfFields(types, env, order, bound).value, MaxAlign(types, |types|, env, order, bound).value)
    ensures i + 1 < |types| ==> OffsetOf(types, env, order, bound, i + 1).Some?
    ensures i + 1 < |types| ==> OffsetOf(types, env, order, bound, i).value + SizeOf(types[i], env, order).value
                                <= OffsetOf(types, env, order, bound, i + 1).value
  {
    hide AlignOf, SizeOf, Sizeable, Rank, AlignTo, Placed;
    EndGrows(types, i + 1, env, order, bound, |types|);
    if i + 1 < |types| {
      EndGrows(types, i + 2, env, order, bound, |types|);
      AlignToUp(EndOf(types, i + 1, env, order, bound).value, AlignOf(types[i + 1], env, order).value);
    }
    FieldPlaced(EndOf(types, i, env, order, bound).value, AlignOf(types[i], env, order).value,
        SizeOf(types[i], env, order).value,
                EndOf(types, |types|, env, order, bound).value, MaxAlign(types, |types|, env, order, bound).value);
  }

  /** A field of a struct of size `whole` and alignment `strict`, alone and in every element of an array. */
  ghost predicate Placed(offset: nat, size: nat, align: nat, whole: nat, strict: nat) {
    && Alignment(align) && Alignment(strict) && align <= strict
    && offset % align == 0 && offset + size <= whole && strict % align == 0 && whole % strict == 0
    && forall k: nat :: (k * whole + offset) % align == 0
  }

  /** The arithmetic behind it: a field placed after `before`, in a struct whose last field ends at `last`. */
  lemma FieldPlaced(before: nat, align: nat, size: nat, last: nat, strict: nat)
    requires Alignment(align) && Alignment(strict) && align <= strict && AlignTo(before, align) + size <= last
    ensures Placed(AlignTo(before, align), size, align, AlignTo(last, strict), strict)
  {
    hide AlignTo;
    AlignToUp(before, align);
    AlignToUp(last, strict);
    var offset, whole := AlignTo(before, align), AlignTo(last, strict);
    AlignmentsDivide(align, strict, whole);
    forall k: nat
      ensures (k * whole + offset) % align == 0
    {
      ElementAligned(k, whole, offset, align);
    }
  }

  lemma ElementAligned(k: nat, whole: nat, offset: nat, align: nat)
    requires Alignment(align) && whole % align == 0 && offset % align == 0
    ensures (k * whole + offset) % align == 0
  {
    var w := whole / align;
    assert whole == w * align;
    Regroup(k, w, align);
    Multiple(k * w, align);
    SumAligned(k * whole, offset, align);
  }

  lemma Regroup(a: nat, b: nat, c: nat)
    ensures a * (b * c) == (a * b) * c
  {
  }

  lemma SumAligned(a: nat, b: nat, align: nat)
    requires Alignment(align) && a % align == 0 && b % align == 0
    ensures (a + b) % align == 0
  {
    var x, y := a / align, b / align;
    assert a == x * align && b == y * align;
    assert a + b == (x + y) * align;
    Multiple(x + y, align);
  }

  /** Every size is a multiple of its alignment. */
  lemma SizeIsAligned(t: TypeRef, env: Env, order: seq<string>)
    requires Sizeable(env.structs, order)
    requires SizeOf(t, env, order).Some? && AlignOf(t, env, order).Some?
    ensures SizeOf(t, env, order).value % AlignOf(t, env, order).value == 0
  {
    match ShapeOf(t, env)
    case Fields(types) =>
      FieldsBelow(t, env.structs, order);
      var bound := Rank(t, env.structs, order);
      AlignToUp(EndOf(types, |types|, env, order, bound).value, MaxAlign(types, |types|, env, order, bound).value);
    case _ =>
  }

  // ----- the layout LLVM gives the emitted types ------------------------------------------------------------

  /** Types of the emitted code; what a pointer points to does not matter here. */
  datatype LlvmType = Int(bits: nat) | Float | Double | Ptr | Struct(fields: seq<LlvmType>)

  const LLVM_STR := Struct([Ptr, Int(64)])
  const LLVM_SLICE := Struct([Ptr, Int(64), Int(64)])
  const LLVM_ERROR := Struct([LLVM_STR, LLVM_SLICE])
  const LLVM_MAP := Struct([Ptr, Ptr, Int(64), Int(64), Int(64)])
  const LLVM_PAIR := Struct([Ptr, Ptr])

  const INTEGERS := map["bool" := 1, "i8" := 8, "u8" := 8, "i16" := 16, "u16" := 16, "i32" := 32, "u32" := 32,
                        "rune" := 32, "i64" := 64, "u64" := 64]

  /** llvm_type */
  function LlvmOf(t: TypeRef, env: Env, ghost order: seq<string>): Option<LlvmType>
    requires Sizeable(env.structs, order)
    decreases Rank(t, env.structs, order), 1
  {
    var key := Format(t);
    if key == "void" then None
    else if key in INTEGERS then Some(Int(INTEGERS[key]))
    else if key == "f32" then Some(Float)
    else if key == "f64" then Some(Double)
    else if key == "str" then Some(LLVM_STR)
    else if key == "error" then Some(LLVM_ERROR)
    else if key == "nc_map" || IsMap(t) then Some(LLVM_MAP)
    else if key in env.ifaces then Some(LLVM_PAIR)
    else if key == "raw" then Some(Ptr)
    else if t.Fn? then Some(LLVM_PAIR)
    else if t.Pointer? then Some(Ptr)
    else if key in env.enums then Some(Int(32))
    else if key in env.structs then
      FieldsBelow(t, env.structs, order);
      var fields := LlvmOfEach(env.structs[key], env, order, Rank(t, env.structs, order));
      if fields.Some? then Some(Struct(fields.value)) else None
    else if t.Slice? then Some(LLVM_SLICE)
    else if t.Array? then Some(Ptr)
    else None
  }

  function LlvmOfEach(types: seq<TypeRef>, env: Env, ghost order: seq<string>, ghost bound: nat): Option<seq<LlvmType>>
    requires Sizeable(env.structs, order)
    requires forall t :: t in types ==> Rank(t, env.structs, order) < bound
    decreases bound, 0, |types|
  {
    if types == [] then Some([])
    else
      var front, last := LlvmOfEach(types[..|types| - 1], env, order, bound), LlvmOf(types[|types| - 1], env, order);
      if front.Some? && last.Some? then Some(front.value + [last.value]) else None
  }

  /** Whole bytes of an integer; every scalar is aligned to its size. */
  function AbiAlign(l: LlvmType): (a: nat)
    ensures a >= 1
  {
    match l
    case Int(bits) => Max((bits + 7) / 8, 1)
    case Float => 4
    case Double => 8
    case Ptr => 8
    case Struct(fields) => AbiAlignAll(fields)
  }

  function AbiAlignAll(fields: seq<LlvmType>): (a: nat)
    ensures a >= 1
  {
    if fields == [] then 1 else Max(AbiAlign(fields[0]), AbiAlignAll(fields[1..]))
  }

  function AbiSize(l: LlvmType): nat {
    match l
    case Int(bits) => Max((bits + 7) / 8, 1)
    case Float => 4
    case Double => 8
    case Ptr => 8
    case Struct(fields) => AlignTo(AbiEnd(fields, 0), AbiAlignAll(fields))
  }

  /** Each field goes to the next multiple of its alignment. */
  function AbiEnd(fields: seq<LlvmType>, offset: nat): nat {
    if fields == [] then offset
    else AbiEnd(fields[1..], AlignTo(offset, AbiAlign(fields[0])) + AbiSize(fields[0]))
  }

  lemma {:induction false} AbiOneMore(fields: seq<LlvmType>, l: LlvmType, offset: nat)
    ensures AbiEnd(fields + [l], offset) == AlignTo(AbiEnd(fields, offset), AbiAlign(l)) + AbiSize(l)
    ensures AbiAlignAll(fields + [l]) == Max(AbiAlignAll(fields), AbiAlign(l))
    decreases |fields|
  {
    hide AlignTo, AbiAlign, AbiSize;
    if fields == [] {
      assert [l][1..] == [] && fields + [l] == [l];
    } else {
      assert (fields + [l])[1..] == fields[1..] + [l];
      AbiOneMore(fields[1..], l, AlignTo(offset, AbiAlign(fields[0])) + AbiSize(fields[0]));
    }
  }

  /** Declared names are names, differ from the built-in ones, and each is declared as one thing. */
  ghost predicate Declared(env: Env) {
    && (forall name :: name in env.enums || name in env.ifaces || name in env.structs ==>
          Plain(name) && name !in INTEGERS && name !in {"void", "f32", "f64", "str", "error", "nc_map", "raw"})
    && env.enums !! env.ifaces && env.enums !! env.structs.Keys && env.ifaces !! env.structs.Keys
  }

  /** The computed size and alignment are those of the type that is emitted. */
  lemma {:induction false} SizesAreAbi(t: TypeRef, env: Env, order: seq<string>)
    requires Sizeable(env.structs, order) && Declared(env)
    requires SizeOf(t, env, order).Some? && AlignOf(t, env, order).Some?
    ensures var l := LlvmOf(t, env, order);
            && l.Some? && AbiSize(l.value) == SizeOf(t, env, order).value
            && AbiAlign(l.value) == AlignOf(t, env, order).value
    decreases Rank(t, env.structs, order), 1
  {
    hide ShapeOf, Declared, LlvmOf, LlvmOfEach, AlignTo, Sizeable, Rank, AbiSize, AbiAlign, EndOf, MaxAlign, Format;
    if ShapeOf(t, env).Fields? {
      StructEmitted(t, env, order);
      var types, bound := env.structs[Format(t)], Rank(t, env.structs, order);
      StructSized(t, env, order);
      FieldsAreAbi(types, |types|, env, order, bound);
      assert types[..|types|] == types;
      SizeOfStruct(LlvmOf(t, env, order).value.fields);
    } else {
      BuiltInEmitted(t, env, order);
      BuiltInAbi();
    }
  }

  lemma StructEmitted(t: TypeRef, env: Env, order: seq<string>)
    requires Sizeable(env.structs, order) && Declared(env) && ShapeOf(t, env).Fields?
    ensures Format(t) in env.structs && ShapeOf(t, env).types == env.structs[Format(t)]
    ensures forall f :: f in env.structs[Format(t)] ==> Rank(f, env.structs, order) < Rank(t, env.structs, order)
    ensures var fields := LlvmOfEach(env.structs[Format(t)], env, order, Rank(t, env.structs, order));
            LlvmOf(t, env, order) == if fields.Some? then Some(Struct(fields.value)) else None
  {
    FieldsBelow(t, env.structs, order);
    PlainIsNamed(t);
    hide LlvmOfEach, Sizeable, Rank, Format;
  }

  lemma StructSized(t: TypeRef, env: Env, order: seq<string>)
    requires Sizeable(env.structs, order) && ShapeOf(t, env).Fields? && Format(t) in env.structs
    requires ShapeOf(t, env).types == env.structs[Format(t)]
    requires forall f :: f in env.structs[Format(t)] ==> Rank(f, env.structs, order) < Rank(t, env.structs, order)
    ensures var types, bound := env.structs[Format(t)], Rank(t, env.structs, order);
            && AlignOf(t, env, order) == MaxAlign(types, |types|, env, order, bound)
            && SizeOf(t, env, order) == SizeOfFields(types, env, order, bound)
  {
    hide ShapeOf, Sizeable, Rank, Format;
  }

  /** Everything but structs: what is emitted, by the size and alignment that are computed. */
  lemma BuiltInEmitted(t: TypeRef, env: Env, order: seq<string>)
    requires Sizeable(env.structs, order) && Declared(env) && ShapeOf(t, env).Sized?
    ensures var l := LlvmOf(t, env, order);
            l.Some? &&
            match ShapeOf(t, env)
            case Sized(size, align) =>
              || (size == align && l.value == Int(8 * size)) || (size == align == 1 && l.value == Int(1))
              || (size == align == 4 && l.value == Float) || (size == align == 8 && l.value in {Double, Ptr})
              || (size == 16 && align == 8 && l.value in {LLVM_STR, LLVM_PAIR})
              || (size == 24 && align == 8 && l.value == LLVM_SLICE)
              || (size == 40 && align == 8 && l.value in {LLVM_ERROR, LLVM_MAP})
  {
    PlainIsNamed(t);
    hide LlvmOfEach, Sizeable, Rank, Format, Plain;
  }

  lemma {:induction false} Words(fields: seq<LlvmType>, offset: nat)
    requires offset % 8 == 0 && forall f :: f in fields ==> f == Ptr || f == Int(64)
    ensures AbiEnd(fields, offset) == offset + 8 * |fields|
    ensures AbiAlignAll(fields) == if fields == [] then 1 else 8
    decreases |fields|
  {
    if fields != [] {
      assert fields[0] in fields && AbiAlign(fields[0]) == AbiSize(fields[0]) == 8;
      assert forall f :: f in fields[1..] ==> f in fields;
      assert AlignTo(offset, 8) == offset;
      Words(fields[1..], offset + 8);
    }
  }

  lemma WordsAbi(fields: seq<LlvmType>)
    requires fields != [] && forall f :: f in fields ==> f == Ptr || f == Int(64)
    ensures AbiSize(Struct(fields)) == 8 * |fields| && AbiAlign(Struct(fields)) == 8
  {
    Words(fields, 0);
  }

  lemma NoFields()
    ensures AbiEnd([], 0) == 0 && AbiAlignAll([]) == 1
  {
  }

  lemma StaysAligned(n: nat)
    ensures n % 8 == 0 ==> AlignTo(n, 8) == n
  {
  }

  /** A struct of two structs of words. */
  lemma TwoParts(a: LlvmType, b: LlvmType)
    requires AbiAlign(a) == AbiAlign(b) == 8 && AbiSize(a) % 8 == 0 && AbiSize(b) % 8 == 0
    ensures AbiSize(Struct([a, b])) == AbiSize(a) + AbiSize(b) && AbiAlign(Struct([a, b])) == 8
  {
    hide AbiSize, AbiAlign, AbiEnd, AbiAlignAll, AlignTo;
    NoFields();
    AbiOneMore([], a, 0);
    AbiOneMore([a], b, 0);
    assert [] + [a] == [a] && [a] + [b] == [a, b];
    StaysAligned(0);
    StaysAligned(AbiSize(a));
    StaysAligned(AbiSize(a) + AbiSize(b));
    SizeOfStruct([a, b]);
  }

  lemma SizeOfStruct(fields: seq<LlvmType>)
    ensures AbiSize(Struct(fields)) == AlignTo(AbiEnd(fields, 0), AbiAlignAll(fields))
    ensures AbiAlign(Struct(fields)) == AbiAlignAll(fields)
  {
  }

  lemma ScalarsAbi()
    ensures forall n: nat :: n >= 1 ==> AbiSize(Int(8 * n)) == AbiAlign(Int(8 * n)) == n
    ensures AbiSize(Int(1)) == AbiAlign(Int(1)) == 1
    ensures AbiSize(Float) == AbiAlign(Float) == 4
    ensures AbiSize(Double) == AbiAlign(Double) == AbiSize(Ptr) == AbiAlign(Ptr) == 8
  {
  }

  lemma BuiltInAbi()
    ensures AbiSize(LLVM_STR) == 16 && AbiAlign(LLVM_STR) == 8
    ensures AbiSize(LLVM_SLICE) == 24 && AbiAlign(LLVM_SLICE) == 8
    ensures AbiSize(LLVM_ERROR) == 40 && AbiAlign(LLVM_ERROR) == 8
    ensures AbiSize(LLVM_MAP) == 40 && AbiAlign(LLVM_MAP) == 8
    ensures AbiSize(LLVM_PAIR) == 16 && AbiAlign(LLVM_PAIR) == 8
    ensures forall n: nat :: n >= 1 ==> AbiSize(Int(8 * n)) == AbiAlign(Int(8 * n)) == n
    ensures AbiSize(Int(1)) == AbiAlign(Int(1)) == 1
    ensures AbiSize(Float) == AbiAlign(Float) == 4
    ensures AbiSize(Double) == AbiAlign(Double) == AbiSize(Ptr) == AbiAlign(Ptr) == 8
  {
    hide AbiSize, AbiAlign;
    ScalarsAbi();
    WordsAbi([Ptr, Int(64)]);
    WordsAbi([Ptr, Int(64), Int(64)]);
    WordsAbi([Ptr, Ptr, Int(64), Int(64), Int(64)]);
    WordsAbi([Ptr, Ptr]);
    TwoParts(LLVM_STR, LLVM_SLICE);
  }

  lemma {:induction false} FieldsAreAbi(types: seq<TypeRef>, n: nat, env: Env, order: seq<string>, bound: nat)
    requires Sizeable(env.structs, order) && Declared(env) && n <= |types|
    requires forall t :: t in types ==> Rank(t, env.structs, order) < bound
    requires EndOf(types, n, env, order, bound).Some? && MaxAlign(types, n, env, order, bound).Some?
    ensures var fields := LlvmOfEach(types[..n], env, order, bound);
            && fields.Some? && AbiEnd(fields.value, 0) == EndOf(types, n, env, order, bound).value
            && AbiAlignAll(fields.value) == MaxAlign(types, n, env, order, bound).value
    decreases bound, 0, n
  {
    hide AbiSize, AbiAlign, AlignTo, AlignOf, SizeOf, LlvmOf, Sizeable, Rank, Declared;
    if n > 0 {
      FieldsAreAbi(types, n - 1, env, order, bound);
      SizesAreAbi(types[n - 1], env, order);
      assert types[..n][..n - 1] == types[..n - 1] && types[n - 1] in types;
      AbiOneMore(LlvmOfEach(types[..n - 1], env, order, bound).value, LlvmOf(types[n - 1], env, order).value, 0);
    }
  }

  // ----- map entries ------------------------------------------------------------------------------------------

  /** The descriptor's offsets: key, value and state of an entry, and the entry's size. */
  datatype EntryLayout = EntryLayout(keyOffset: nat, valueOffset: nat, stateOffset: nat, entrySize: nat)

  function MapEntry(keySize: nat, keyAlign: nat, valueSize: nat, valueAlign: nat): EntryLayout
    requires Alignment(keyAlign) && Alignment(valueAlign)
  {
    var valueOffset := AlignTo(0 + keySize, valueAlign);
    var stateOffset := AlignTo(valueOffset + valueSize, 4);
    EntryLayout(0, valueOffset, stateOffset, AlignTo(stateOffset + 4, Max(Max(8, keyAlign), Max(valueAlign, 4))))
  }

  /** The three parts of an entry that starts at an 8-aligned address are aligned and lie one after the other. */
  ghost predicate EntryPlaced(e: EntryLayout, at: nat, keySize: nat, keyAlign: nat, valueSize: nat, valueAlign: nat)
    requires keyAlign > 0 && valueAlign > 0
  {
    && (at + e.keyOffset) % keyAlign == 0 && (at + e.valueOffset) % valueAlign == 0 && (at + e.stateOffset) % 4 == 0
    && e.keyOffset + keySize <= e.valueOffset && e.valueOffset + valueSize <= e.stateOffset &&
        e.stateOffset + 4 <= e.entrySize
  }

  lemma EntryAt(keySize: nat, keyAlign: nat, valueSize: nat, valueAlign: nat, at: nat)
    requires Alignment(keyAlign) && Alignment(valueAlign) && at % 8 == 0
    ensures EntryPlaced(MapEntry(keySize, keyAlign, valueSize, valueAlign), at, keySize, keyAlign, valueSize,
        valueAlign)
    ensures MapEntry(keySize, keyAlign, valueSize, valueAlign).entrySize % 8 == 0
  {
    hide AlignTo;
    var e := MapEntry(keySize, keyAlign, valueSize, valueAlign);
    AlignToUp(keySize, valueAlign);
    AlignToUp(e.valueOffset + valueSize, 4);
    AlignToUp(e.stateOffset + 4, 8);
    AlignmentsDivide(keyAlign, 8, at);
    AlignmentsDivide(valueAlign, 8, at);
    AlignmentsDivide(4, 8, at);
    SumAligned(at, e.valueOffset, valueAlign);
    SumAligned(at, e.stateOffset, 4);
  }

  /** Where entry i of the table starts. */
  function EntryAddress(base: nat, i: nat, size: nat): nat {
    Products(i, size);
    i * size + base
  }

  lemma Products(i: nat, size: nat)
    ensures i * size >= 0
  {
  }

  lemma NextEntry(base: nat, size: nat, i: nat, j: nat)
    requires i < j
    ensures EntryAddress(base, i, size) + size <= EntryAddress(base, j, size)
  {
    Scaled(size, j, i + 1);
  }

  /** At any index of a table whose base is 8-aligned the parts of an entry are in place, and entries do not overlap. */
  lemma EntriesLaidOut(keySize: nat, keyAlign: nat, valueSize: nat, valueAlign: nat, base: nat, i: nat, j: nat)
    requires Alignment(keyAlign) && Alignment(valueAlign) && base % 8 == 0 && i < j
    ensures var e := MapEntry(keySize, keyAlign, valueSize, valueAlign);
            && EntryAddress(base, 0, e.entrySize) == base
            && EntryPlaced(e, EntryAddress(base, i, e.entrySize), keySize, keyAlign, valueSize, valueAlign)
            && EntryAddress(base, i, e.entrySize) + e.entrySize <= EntryAddress(base, j, e.entrySize)
  {
    var e := MapEntry(keySize, keyAlign, valueSize, valueAlign);
    EntryAt(keySize, keyAlign, valueSize, valueAlign, 0);
    ElementAligned(i, e.entrySize, base, 8);
    hide MapEntry, EntryPlaced;
    NextEntry(base, e.entrySize, i, j);
    EntryAt(keySize, keyAlign, valueSize, valueAlign, EntryAddress(base, i, e.entrySize));
  }
}
