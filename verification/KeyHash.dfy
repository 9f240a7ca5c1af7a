/**
 The hash and equality functions generated for map keys (compiler/llvm_map.py): they treat keys by what
 they stand for, strings by their bytes, and that is what the runtime map needs of them.
 */
module KeyHash {
  import opened Prelude
  import opened TypeRefs
  import StructRecursion
  import TypeRules
  import RuntimeMap

  /** Key types the generator can handle. */
  datatype KeyType = WordKey | StringKey | RecordKey(fields: seq<KeyType>)

  /** A loaded key: a word (zero-extended), a string's address and length, or the fields of a struct. */
  datatype KeyValue = Word(bits: bv64) | Str(address: nat, length: nat) | Record(fields: seq<KeyValue>)

  type Memory = nat -> bv8

  predicate HasType(v: KeyValue, t: KeyType) {
    match t
    case WordKey => v.Word?
    case StringKey => v.Str?
    case RecordKey(types) => v.Record? && AllHaveType(v.fields, types)
  }

  predicate AllHaveType(vs: seq<KeyValue>, ts: seq<KeyType>) {
    |vs| == |ts| && (ts == [] || (HasType(vs[0], ts[0]) && AllHaveType(vs[1..], ts[1..])))
  }

  // ----- what a key stands for ------------------------------------------------------------------------------

  datatype Meaning = Bits(bits: bv64) | Text(bytes: seq<bv8>) | Tuple(parts: seq<Meaning>)

  function Bytes(mem: Memory, address: nat, length: nat): (bs: seq<bv8>)
    ensures |bs| == length && forall i :: 0 <= i < length ==> bs[i] == mem(address + i)
  {
    seq(length, i requires 0 <= i < length => mem(address + i))
  }

  function Meant(v: KeyValue, mem: Memory): Meaning {
    match v
    case Word(bits) => Bits(bits)
    case Str(address, length) => Text(Bytes(mem, address, length))
    case Record(fields) => Tuple(AllMeant(fields, mem))
  }

  function AllMeant(vs: seq<KeyValue>, mem: Memory): (ms: seq<Meaning>)
    ensures |ms| == |vs|
  {
    if vs == [] then [] else [Meant(vs[0], mem)] + AllMeant(vs[1..], mem)
  }

  // ----- the generated hash -----------------------------------------------------------------------------------

  const OFFSET: bv64 := 14695981039346656037

  /** emit_map_hash_mix: xor, then multiply with the FNV prime modulo 2^64. */
  function Mix(h: bv64, value: bv64): bv64 {
    (h ^ value) * 1099511628211
  }

  function HashBytes(bytes: seq<bv8>, h: bv64): bv64 {
    if bytes == [] then h else HashBytes(bytes[1..], Mix(h, bytes[0] as bv64))
  }

  /** The emitted loop over a string's bytes. */
  method HashString(mem: Memory, address: nat, length: nat, start: bv64) returns (h: bv64)
    ensures h == HashBytes(Bytes(mem, address, length), start)
  {
    ghost var bytes := Bytes(mem, address, length);
    h := start;
    var idx := 0;
    while idx < length
      invariant 0 <= idx <= length && HashBytes(bytes, start) == HashBytes(bytes[idx..], h)
    {
      assert bytes[idx..][0] == bytes[idx] && bytes[idx..][1..] == bytes[idx + 1..];
      h := Mix(h, mem(address + idx) as bv64);
      idx := idx + 1;
    }
  }

  /** emit_map_hash_value */
  function Hash(v: KeyValue, t: KeyType, mem: Memory, h: bv64): bv64
    requires HasType(v, t)
    decreases t, 0
  {
    match t
    case WordKey => Mix(h, v.bits)
    case StringKey => HashBytes(Bytes(mem, v.address, v.length), h)
    case RecordKey(types) => HashFields(v.fields, types, mem, h)
  }

  function HashFields(vs: seq<KeyValue>, ts: seq<KeyType>, mem: Memory, h: bv64): bv64
    requires AllHaveType(vs, ts)
    decreases ts, 1
  {
    if ts == [] then h else HashFields(vs[1..], ts[1..], mem, Hash(vs[0], ts[0], mem, h))
  }

  // ----- what the hash tells apart ------------------------------------------------------------------------------

  /** Times what the prime needs to make 1 modulo 2^64. */
  function Unscaled(x: bv64): bv64 {
    x * 14886173955864302971
  }

  lemma ScaledBack(x: bv64)
    ensures Unscaled(x * 1099511628211) == x
  {
  }

  lemma MixIs(h: bv64, value: bv64)
    ensures Mix(h, value) == (h ^ value) * 1099511628211
  {
  }

  lemma MixUndone(h: bv64, value: bv64)
    ensures Unscaled(Mix(h, value)) == h ^ value
  {
    hide Unscaled, Mix;
    MixIs(h, value);
    ScaledBack(h ^ value);
  }

  lemma XorUndone(h: bv64, value: bv64)
    ensures (h ^ value) ^ value == h && (h ^ value) ^ h == value
  {
  }

  /** Mixing loses nothing: two states, or two words mixed into one state, stay apart. */
  lemma MixTellsApart(h1: bv64, v1: bv64, h2: bv64, v2: bv64)
    ensures v1 == v2 && h1 != h2 ==> Mix(h1, v1) != Mix(h2, v2)
    ensures h1 == h2 && v1 != v2 ==> Mix(h1, v1) != Mix(h2, v2)
  {
    hide Mix, Unscaled;
    MixUndone(h1, v1);
    MixUndone(h2, v2);
    XorUndone(h1, v1);
    XorUndone(h2, v2);
  }

  lemma {:induction false} BytesKeepApart(bytes: seq<bv8>, h1: bv64, h2: bv64)
    requires h1 != h2
    ensures HashBytes(bytes, h1) != HashBytes(bytes, h2)
  {
    if bytes != [] {
      MixTellsApart(h1, bytes[0] as bv64, h2, bytes[0] as bv64);
      hide Mix;
      BytesKeepApart(bytes[1..], Mix(h1, bytes[0] as bv64), Mix(h2, bytes[0] as bv64));
    }
  }

  lemma WidenedApart(x: bv8, y: bv8)
    requires x != y
    ensures x as bv64 != y as bv64
  {
  }

  /** Two texts that differ in one byte hash differently. */
  lemma {:induction false} OneByteTells(before: seq<bv8>, x: bv8, y: bv8, after: seq<bv8>, h: bv64)
    requires x != y
    ensures HashBytes(before + [x] + after, h) != HashBytes(before + [y] + after, h)
    decreases |before|
  {
    hide Mix;
    if before == [] {
      assert (before + [x] + after)[1..] == after && (before + [y] + after)[1..] == after;
      WidenedApart(x, y);
      MixTellsApart(h, x as bv64, h, y as bv64);
      BytesKeepApart(after, Mix(h, x as bv64), Mix(h, y as bv64));
    } else {
      assert (before + [x] + after)[1..] == before[1..] + [x] + after;
      assert (before + [y] + after)[1..] == before[1..] + [y] + after;
      OneByteTells(before[1..], x, y, after, Mix(h, before[0] as bv64));
    }
  }

  /** Whatever the key, hashing it from different states gives different states. */
  lemma {:induction false} HashKeepsApart(v: KeyValue, t: KeyType, mem: Memory, h1: bv64, h2: bv64)
    requires HasType(v, t) && h1 != h2
    ensures Hash(v, t, mem, h1) != Hash(v, t, mem, h2)
    decreases t, 0
  {
    match t
    case WordKey => MixTellsApart(h1, v.bits, h2, v.bits);
    case StringKey => BytesKeepApart(Bytes(mem, v.address, v.length), h1, h2);
    case RecordKey(types) => HashFieldsKeepApart(v.fields, types, mem, h1, h2);
  }

  lemma {:induction false} HashFieldsKeepApart(vs: seq<KeyValue>, ts: seq<KeyType>, mem: Memory, h1: bv64, h2: bv64)
    requires AllHaveType(vs, ts) && h1 != h2
    ensures HashFields(vs, ts, mem, h1) != HashFields(vs, ts, mem, h2)
    decreases ts, 1
  {
    if ts != [] {
      HashKeepsApart(vs[0], ts[0], mem, h1, h2);
      HashFieldsKeepApart(vs[1..], ts[1..], mem, Hash(vs[0], ts[0], mem, h1), Hash(vs[0], ts[0], mem, h2));
    }
  }

  /** Two structs that differ in one word hash differently. */
  lemma {:induction false} OneFieldTells(xs: seq<KeyValue>, ys: seq<KeyValue>, ts: seq<KeyType>, mem: Memory,
                                         h: bv64, k: nat)
    requires AllHaveType(xs, ts) && AllHaveType(ys, ts) && k < |ts|
    requires forall i :: 0 <= i < |ts| && i != k ==> xs[i] == ys[i]
    requires ts[k].WordKey? && HasType(xs[k], ts[k]) && HasType(ys[k], ts[k]) && xs[k] != ys[k]
    ensures HashFields(xs, ts, mem, h) != HashFields(ys, ts, mem, h)
    decreases k
  {
    if k == 0 {
      assert xs[1..] == ys[1..];
      MixTellsApart(h, xs[0].bits, h, ys[0].bits);
      hide Mix;
      HashFieldsKeepApart(xs[1..], ts[1..], mem, Mix(h, xs[0].bits), Mix(h, ys[0].bits));
    } else {
      OneFieldTells(xs[1..], ys[1..], ts[1..], mem, Hash(xs[0], ts[0], mem, h), k - 1);
    }
  }

  // ----- the generated equality ---------------------------------------------------------------------------------

  /** memcmp(a, b, n) == 0 */
  predicate SameBytes(mem: Memory, a: nat, b: nat, n: nat)
    decreases n
  {
    n == 0 || (mem(a) == mem(b) && SameBytes(mem, a + 1, b + 1, n - 1))
  }

  /** __nc_str_eq */
  predicate StringEq(mem: Memory, a: KeyValue, b: KeyValue)
    requires a.Str? && b.Str?
  {
    if a.length != b.length then false
    else if a.length == 0 then true
    else SameBytes(mem, a.address, b.address, a.length)
  }

  /** emit_map_eq_value */
  predicate Eq(a: KeyValue, b: KeyValue, t: KeyType, mem: Memory)
    requires HasType(a, t) && HasType(b, t)
    decreases t, 0
  {
    match t
    case WordKey => a.bits == b.bits
    case StringKey => StringEq(mem, a, b)
    case RecordKey(types) => EqFields(a.fields, b.fields, types, mem)
  }

  /** All comparisons are computed; their results are and-ed. */
  predicate EqFields(xs: seq<KeyValue>, ys: seq<KeyValue>, ts: seq<KeyType>, mem: Memory)
    requires AllHaveType(xs, ts) && AllHaveType(ys, ts)
    decreases ts, 1
  {
    ts == [] || (Eq(xs[0], ys[0], ts[0], mem) && EqFields(xs[1..], ys[1..], ts[1..], mem))
  }

  // ----- both respect the meaning ---------------------------------------------------------------------------------

  lemma {:induction false} SameBytesExact(mem: Memory, a: nat, b: nat, n: nat)
    ensures SameBytes(mem, a, b, n) <==> Bytes(mem, a, n) == Bytes(mem, b, n)
    decreases n
  {
    if n > 0 {
      SameBytesExact(mem, a + 1, b + 1, n - 1);
      var x, y, xs, ys := Bytes(mem, a, n), Bytes(mem, b, n), Bytes(mem, a + 1, n - 1), Bytes(mem, b + 1, n - 1);
      assert x[1..] == xs && y[1..] == ys;
      assert x == [mem(a)] + xs && y == [mem(b)] + ys;
    }
  }

  /** Generated equality is equality of what the keys stand for. */
  lemma {:induction false} EqExact(a: KeyValue, b: KeyValue, t: KeyType, mem: Memory)
    requires HasType(a, t) && HasType(b, t)
    ensures Eq(a, b, t, mem) <==> Meant(a, mem) == Meant(b, mem)
    decreases t, 0
  {
    match t
    case WordKey =>
    case StringKey => SameBytesExact(mem, a.address, b.address, a.length);
    case RecordKey(types) => EqFieldsExact(a.fields, b.fields, types, mem);
  }

  lemma {:induction false} EqFieldsExact(xs: seq<KeyValue>, ys: seq<KeyValue>, ts: seq<KeyType>, mem: Memory)
    requires AllHaveType(xs, ts) && AllHaveType(ys, ts)
    ensures EqFields(xs, ys, ts, mem) <==> AllMeant(xs, mem) == AllMeant(ys, mem)
    decreases ts, 1
  {
    if ts != [] {
      EqExact(xs[0], ys[0], ts[0], mem);
      EqFieldsExact(xs[1..], ys[1..], ts[1..], mem);
      assert AllMeant(xs, mem)[0] == Meant(xs[0], mem) && AllMeant(xs, mem)[1..] == AllMeant(xs[1..], mem);
      assert AllMeant(ys, mem)[0] == Meant(ys[0], mem) && AllMeant(ys, mem)[1..] == AllMeant(ys[1..], mem);
    }
  }

  /** Keys that stand for the same value have the same hash, whatever was mixed in before. */
  lemma {:induction false} HashExact(a: KeyValue, b: KeyValue, t: KeyType, mem: Memory, h: bv64)
    requires HasType(a, t) && HasType(b, t) && Meant(a, mem) == Meant(b, mem)
    ensures Hash(a, t, mem, h) == Hash(b, t, mem, h)
    decreases t, 0
  {
    match t
    case WordKey =>
    case StringKey =>
    case RecordKey(types) => HashFieldsExact(a.fields, b.fields, types, mem, h);
  }

  lemma {:induction false} HashFieldsExact(xs: seq<KeyValue>, ys: seq<KeyValue>, ts: seq<KeyType>, mem: Memory, h: bv64)
    requires AllHaveType(xs, ts) && AllHaveType(ys, ts) && AllMeant(xs, mem) == AllMeant(ys, mem)
    ensures HashFields(xs, ts, mem, h) == HashFields(ys, ts, mem, h)
    decreases ts, 1
  {
    if ts != [] {
      assert AllMeant(xs, mem)[0] == Meant(xs[0], mem) && AllMeant(xs, mem)[1..] == AllMeant(xs[1..], mem);
      assert AllMeant(ys, mem)[0] == Meant(ys[0], mem) && AllMeant(ys, mem)[1..] == AllMeant(ys[1..], mem);
      HashExact(xs[0], ys[0], ts[0], mem, h);
      HashFieldsExact(xs[1..], ys[1..], ts[1..], mem, Hash(xs[0], ts[0], mem, h));
    }
  }

  // ----- the runtime map's assumption --------------------------------------------------------------------------------

  /** What the map sees of a key: its meaning if it has the key type. */
  datatype View = Stands(meaning: Meaning) | Alien(value: KeyValue)

  function ViewOf(t: KeyType, mem: Memory): KeyValue -> View {
    (v: KeyValue) => if HasType(v, t) then Stands(Meant(v, mem)) else Alien(v)
  }

  function HashOf(t: KeyType, mem: Memory): KeyValue -> nat {
    (v: KeyValue) => if HasType(v, t) then Hash(v, t, mem, OFFSET) as nat else 0
  }

  function EqOf(t: KeyType, mem: Memory): (KeyValue, KeyValue) -> bool {
    (a: KeyValue, b: KeyValue) => if HasType(a, t) && HasType(b, t) then Eq(a, b, t, mem) else a == b
  }

  lemma NumbersApart(x: bv64, y: bv64)
    requires x as nat == y as nat
    ensures x == y
  {
    assert x as nat as bv64 == x;
  }

  lemma HashesApart(a: KeyValue, b: KeyValue, t: KeyType, mem: Memory)
    requires HasType(a, t) && HasType(b, t) && Hash(a, t, mem, OFFSET) != Hash(b, t, mem, OFFSET)
    ensures HashOf(t, mem)(a) != HashOf(t, mem)(b)
  {
    hide Hash;
    if HashOf(t, mem)(a) == HashOf(t, mem)(b) {
      NumbersApart(Hash(a, t, mem, OFFSET), Hash(b, t, mem, OFFSET));
    }
  }

  /** The hash of the empty string is the offset basis of 64-bit FNV-1a. */
  lemma EmptyHash(address: nat, mem: Memory)
    ensures HashOf(StringKey, mem)(Str(address, 0)) == 14695981039346656037
  {
  }

  /** As the map sees it: different words hash differently. */
  lemma WordsHashApart(x: bv64, y: bv64, mem: Memory)
    requires x != y
    ensures HashOf(WordKey, mem)(Word(x)) != HashOf(WordKey, mem)(Word(y))
  {
    MixTellsApart(OFFSET, x, OFFSET, y);
    hide Mix, HashOf;
    HashesApart(Word(x), Word(y), WordKey, mem);
  }

  /** And so do strings that differ in one byte, wherever they are stored. */
  lemma StringsHashApart(a: KeyValue, b: KeyValue, mem: Memory, before: seq<bv8>, x: bv8, y: bv8, after: seq<bv8>)
    requires a.Str? && b.Str? && x != y
    requires Bytes(mem, a.address, a.length) == before + [x] + after
    requires Bytes(mem, b.address, b.length) == before + [y] + after
    ensures HashOf(StringKey, mem)(a) != HashOf(StringKey, mem)(b)
  {
    OneByteTells(before, x, y, after, OFFSET);
    hide Mix, HashOf, HashBytes;
    HashesApart(a, b, StringKey, mem);
  }

  /** The generated descriptor meets the assumption under which the runtime map refines a mathematical map. */
  lemma DescriptorMeetsAssumption(t: KeyType, mem: Memory)
    ensures RuntimeMap.DescriptorOk(HashOf(t, mem), EqOf(t, mem), ViewOf(t, mem))
  {
    forall a, b
      ensures EqOf(t, mem)(a, b) <==> ViewOf(t, mem)(a) == ViewOf(t, mem)(b)
      ensures EqOf(t, mem)(a, b) ==> HashOf(t, mem)(a) == HashOf(t, mem)(b)
    {
      if HasType(a, t) && HasType(b, t) {
        EqExact(a, b, t, mem);
        if Meant(a, mem) == Meant(b, mem) {
          HashExact(a, b, t, mem, OFFSET);
        }
      }
    }
  }

  // ----- which types have a generated descriptor ---------------------------------------------------------------------

  function StructsIn(scope: TypeRules.Scope): StructRecursion.Structs {
    map name | name in scope.symbols && scope.symbols[name].StructSymbol? ::
        TypeRules.FieldTypes(scope.symbols[name].fields)
  }

  /** Integers, booleans, runes and enums. */
  predicate IsNumber(t: TypeRef, scope: TypeRules.Scope) {
    var key := Format(t);
    || (key in TypeRules.NUMERIC && key !in TypeRules.FLOATS) || key == "bool" || key == "rune"
    || (key in scope.symbols && scope.symbols[key].EnumSymbol?)
  }

  /**
   The generator's case analysis; None is its "cannot hash map key" error.  `text` says that the type
   arrives as a string, as the key type of a map does; the field types of a struct arrive as parsed
   types, and only a string is looked at for a leading `*` or `?*`.
   */
  function KeyTypeOf(t: TypeRef, text: bool, scope: TypeRules.Scope, ghost order: seq<string>): Option<KeyType>
    requires StructRecursion.Sizeable(StructsIn(scope), order)
    decreases StructRecursion.Rank(t, StructsIn(scope), order), 1
  {
    var structs := StructsIn(scope);
    if Format(t) == "str" then Some(StringKey)
    else if Format(t) in structs then
      StructRecursion.FieldsBelow(t, structs, order);
      var fields := KeyTypesOf(structs[Format(t)], scope, order, StructRecursion.Rank(t, structs, order));
      if fields.Some? then Some(RecordKey(fields.value)) else None
    else if text && t.Pointer? then Some(WordKey)
    else if IsNumber(t, scope) then Some(WordKey)
    else None
  }

  function KeyTypesOf(ts: seq<TypeRef>, scope: TypeRules.Scope, ghost order: seq<string>,
                      ghost bound: nat): Option<seq<KeyType>>
    requires StructRecursion.Sizeable(StructsIn(scope), order)
    requires forall t :: t in ts ==> StructRecursion.Rank(t, StructsIn(scope), order) < bound
    decreases bound, 0, |ts|
  {
    if ts == [] then Some([])
    else
      var first, rest := KeyTypeOf(ts[0], false, scope, order), KeyTypesOf(ts[1..], scope, order, bound);
      if first.Some? && rest.Some? then Some([first.value] + rest.value) else None
  }

  /** Names mean one thing: structs and enums have plain names that are not those of built-in types or interfaces. */
  ghost predicate Unambiguous(scope: TypeRules.Scope) {
    forall name :: name in scope.symbols && !scope.symbols[name].OtherSymbol? ==>
      Plain(name) && name !in TypeRules.NUMERIC && name !in TypeRules.BASIC && name != "error" && name !in scope.ifaces
  }

  /** A pointer is reached from `t` through struct fields, `t` itself included. */
  ghost predicate PointerAt(scope: TypeRules.Scope, t: TypeRef) {
    exists path: seq<TypeRef> ::
        TypeRules.Chain(TypeRules.HashCheck, scope, path) && path[0] == t && path[|path| - 1].Pointer?
  }

  /** A pointer is a field of `t`, or a field inside one. */
  ghost predicate PointerInside(scope: TypeRules.Scope, t: TypeRef) {
    exists path: seq<TypeRef> ::
        TypeRules.Chain(TypeRules.HashCheck, scope, path) && |path| > 1 && path[0] == t && path[|path| - 1].Pointer?
  }

  /** A key type has a generated hash exactly when the checker accepts it and no pointer is inside one of its fields. */
  lemma AcceptedKeysGenerated(t: TypeRef, scope: TypeRules.Scope, order: seq<string>)
    requires StructRecursion.Sizeable(StructsIn(scope), order) && Unambiguous(scope)
    ensures KeyTypeOf(t, true, scope, order).Some?
            <==> !TypeRules.Forbidden(TypeRules.HashCheck, scope, t) && !PointerInside(scope, t)
  {
    var structs := StructsIn(scope);
    if Format(t) in structs {
      StructRecursion.FieldsBelow(t, structs, order);
      FieldsGenerated(structs[Format(t)], scope, order, StructRecursion.Rank(t, structs, order));
      ForbiddenInside(scope, t);
      PointerInFields(scope, t);
    } else {
      ForbiddenHere(scope, t);
      PointerHere(scope, t);
    }
  }

  /** For a field it is stricter: not even a pointer itself. */
  lemma {:induction false} FieldGenerated(t: TypeRef, scope: TypeRules.Scope, order: seq<string>)
    requires StructRecursion.Sizeable(StructsIn(scope), order) && Unambiguous(scope)
    ensures KeyTypeOf(t, false, scope, order).Some?
            <==> !TypeRules.Forbidden(TypeRules.HashCheck, scope, t) && !PointerAt(scope, t)
    decreases StructRecursion.Rank(t, StructsIn(scope), order), 1
  {
    var structs := StructsIn(scope);
    if Format(t) in structs {
      StructRecursion.FieldsBelow(t, structs, order);
      FieldsGenerated(structs[Format(t)], scope, order, StructRecursion.Rank(t, structs, order));
      ForbiddenInside(scope, t);
      PointerInFields(scope, t);
    } else {
      ForbiddenHere(scope, t);
      PointerHere(scope, t);
      PointerIsNoNumber(scope, t);
    }
  }

  lemma {:induction false} FieldsGenerated(ts: seq<TypeRef>, scope: TypeRules.Scope, order: seq<string>, bound: nat)
    requires StructRecursion.Sizeable(StructsIn(scope), order) && Unambiguous(scope)
    requires forall t :: t in ts ==> StructRecursion.Rank(t, StructsIn(scope), order) < bound
    ensures KeyTypesOf(ts, scope, order, bound).Some?
            <==> forall t :: t in ts ==> !TypeRules.Forbidden(TypeRules.HashCheck, scope, t) && !PointerAt(scope, t)
    decreases bound, 0, |ts|
  {
    if ts != [] {
      FieldGenerated(ts[0], scope, order);
      FieldsGenerated(ts[1..], scope, order, bound);
      assert forall t :: t in ts <==> t == ts[0] || t in ts[1..];
    }
  }

  /** What is inside a struct is at one of its fields. */
  lemma PointerInFields(scope: TypeRules.Scope, t: TypeRef)
    requires Unambiguous(scope) && Format(t) in StructsIn(scope)
    ensures PointerInside(scope, t) <==> exists f :: f in StructsIn(scope)[Format(t)] && PointerAt(scope, f)
    ensures PointerAt(scope, t) <==> PointerInside(scope, t)
  {
    StructRuled(scope, t);
    PlainIsNamed(t);
    hide TypeRules.Rule, TypeRules.Chain, StructsIn;
    if PointerAt(scope, t) {
      var path: seq<TypeRef> :| TypeRules.Chain(TypeRules.HashCheck, scope, path) && path[0] == t &&
          path[|path| - 1].Pointer?;
      assert |path| > 1;
      PointerBelow(scope, path);
    }
    forall f | f in StructsIn(scope)[Format(t)] && PointerAt(scope, f)
      ensures PointerInside(scope, t)
    {
      PointerAbove(scope, t, f);
    }
  }

  lemma PointerBelow(scope: TypeRules.Scope, path: seq<TypeRef>)
    requires TypeRules.Chain(TypeRules.HashCheck, scope, path) && |path| > 1 && path[|path| - 1].Pointer?
    ensures TypeRules.PartOf(TypeRules.HashCheck, scope, path[0], path[1]) && PointerAt(scope, path[1])
  {
    hide TypeRules.Rule;
    var rest := path[1..];
    assert TypeRules.Chain(TypeRules.HashCheck, scope, rest) && rest[|rest| - 1] == path[|path| - 1];
  }

  lemma PointerAbove(scope: TypeRules.Scope, t: TypeRef, f: TypeRef)
    requires TypeRules.PartOf(TypeRules.HashCheck, scope, t, f) && PointerAt(scope, f)
    ensures PointerInside(scope, t)
  {
    hide TypeRules.Rule;
    var path: seq<TypeRef> :| TypeRules.Chain(TypeRules.HashCheck, scope, path) && path[0] == f &&
        path[|path| - 1].Pointer?;
    var longer := [t] + path;
    assert longer[1..] == path && longer[|longer| - 1] == path[|path| - 1];
    assert TypeRules.Chain(TypeRules.HashCheck, scope, longer);
  }

  lemma PointerHere(scope: TypeRules.Scope, t: TypeRef)
    requires Unambiguous(scope) && Format(t) !in StructsIn(scope)
    ensures !PointerInside(scope, t) && (PointerAt(scope, t) <==> t.Pointer?)
  {
    RuledHere(scope, t);
    hide TypeRules.HashRuling;
    assert !TypeRules.Rule(TypeRules.HashCheck, t, scope).Descend?;
    if t.Pointer? {
      assert TypeRules.Chain(TypeRules.HashCheck, scope, [t]);
    }
  }

  lemma PointerIsNoNumber(scope: TypeRules.Scope, t: TypeRef)
    requires Unambiguous(scope)
    ensures t.Pointer? ==> !IsNumber(t, scope) && Format(t) != "str"
  {
    PlainIsNamed(t);
  }

  /** A struct is forbidden exactly when one of its fields is. */
  lemma ForbiddenInside(scope: TypeRules.Scope, t: TypeRef)
    requires Unambiguous(scope) && Format(t) in StructsIn(scope)
    ensures TypeRules.Forbidden(TypeRules.HashCheck, scope, t)
            <==> exists f :: f in StructsIn(scope)[Format(t)] && TypeRules.Forbidden(TypeRules.HashCheck, scope, f)
  {
    StructRuled(scope, t);
    hide TypeRules.Rule;
    var parts := StructsIn(scope)[Format(t)];
    if TypeRules.Forbidden(TypeRules.HashCheck, scope, t) {
      var path :| TypeRules.Chain(TypeRules.HashCheck, scope, path) && path[0] == t
                  && TypeRules.Rule(TypeRules.HashCheck, path[|path| - 1], scope).Reject?;
      PartForbidden(scope, path);
    }
    forall f | f in parts && TypeRules.Forbidden(TypeRules.HashCheck, scope, f)
      ensures TypeRules.Forbidden(TypeRules.HashCheck, scope, t)
    {
      WholeForbidden(scope, t, f);
    }
  }

  lemma StructRuled(scope: TypeRules.Scope, t: TypeRef)
    requires Unambiguous(scope) && Format(t) in StructsIn(scope)
    ensures TypeRules.Rule(TypeRules.HashCheck, t, scope) == TypeRules.Descend(StructsIn(scope)[Format(t)])
  {
    PlainIsNamed(t);
  }

  lemma PartForbidden(scope: TypeRules.Scope, path: seq<TypeRef>)
    requires TypeRules.Chain(TypeRules.HashCheck, scope, path) &&
        TypeRules.Rule(TypeRules.HashCheck, path[0], scope).Descend?
    requires TypeRules.Rule(TypeRules.HashCheck, path[|path| - 1], scope).Reject?
    ensures exists f ::
        f in TypeRules.Rule(TypeRules.HashCheck, path[0], scope).parts &&
            TypeRules.Forbidden(TypeRules.HashCheck, scope, f)
  {
    hide TypeRules.Rule;
    var rest := path[1..];
    assert rest != [] && rest[|rest| - 1] == path[|path| - 1];
    assert TypeRules.Forbidden(TypeRules.HashCheck, scope, path[1]);
  }

  lemma WholeForbidden(scope: TypeRules.Scope, t: TypeRef, f: TypeRef)
    requires TypeRules.PartOf(TypeRules.HashCheck, scope, t, f) && TypeRules.Forbidden(TypeRules.HashCheck, scope, f)
    ensures TypeRules.Forbidden(TypeRules.HashCheck, scope, t)
  {
    hide TypeRules.Rule;
    var path :| TypeRules.Chain(TypeRules.HashCheck, scope, path) && path[0] == f
                && TypeRules.Rule(TypeRules.HashCheck, path[|path| - 1], scope).Reject?;
    TypeRules.RejectedInside(TypeRules.HashCheck, scope, t, f, path[|path| - 1]);
  }

  /** Any other type is forbidden exactly when it is neither a string nor a word. */
  lemma ForbiddenHere(scope: TypeRules.Scope, t: TypeRef)
    requires Unambiguous(scope) && Format(t) !in StructsIn(scope)
    ensures TypeRules.Forbidden(TypeRules.HashCheck, scope, t) <==>
        !(Format(t) == "str" || t.Pointer? || IsNumber(t, scope))
  {
    RuledHere(scope, t);
    hide TypeRules.HashRuling, IsNumber;
    if TypeRules.Forbidden(TypeRules.HashCheck, scope, t) {
      var path :| TypeRules.Chain(TypeRules.HashCheck, scope, path) && path[0] == t
                  && TypeRules.Rule(TypeRules.HashCheck, path[|path| - 1], scope).Reject?;
      assert |path| == 1;
    }
    if TypeRules.Rule(TypeRules.HashCheck, t, scope).Reject? {
      TypeRules.RejectedHere(TypeRules.HashCheck, scope, t);
    }
  }

  lemma RuledHere(scope: TypeRules.Scope, t: TypeRef)
    requires Unambiguous(scope) && Format(t) !in StructsIn(scope)
    ensures TypeRules.HashRuling(t, scope).Reject? <==> !(Format(t) == "str" || t.Pointer? || IsNumber(t, scope))
    ensures !TypeRules.HashRuling(t, scope).Descend?
  {
    PlainIsNamed(t);
  }

  // ----- a key the checker accepts and the generator does not --------------------------------------------------------

  const NODE_POINTER := Pointer(Named("Node"), false)

  /** struct Node { }; struct K { p: *Node } */
  const WITH_POINTER := TypeRules.Scope(
    map["Node" := TypeRules.StructSymbol([]), "K" := TypeRules.StructSymbol([("p", NODE_POINTER)])], {})

  /** map[K, i32] passes the check and stops the generator. */
  lemma PointerFieldRefused(order: seq<string>)
    requires StructRecursion.Sizeable(StructsIn(WITH_POINTER), order)
    ensures !TypeRules.Forbidden(TypeRules.HashCheck, WITH_POINTER, Named("K"))
    ensures KeyTypeOf(Named("K"), true, WITH_POINTER, order) == None
    ensures KeyTypeOf(NODE_POINTER, true, WITH_POINTER, order) == Some(WordKey)
  {
    WithPointerStructs();
    WithPointerUnambiguous();
    PlainIsNamed(NODE_POINTER);
    hide StructsIn, Unambiguous, Format, TypeRules.Chain, TypeRules.Rule, IsNumber;
    ForbiddenHere(WITH_POINTER, NODE_POINTER);
    PointerHere(WITH_POINTER, NODE_POINTER);
    AcceptedKeysGenerated(NODE_POINTER, WITH_POINTER, order);
    KeyOfStruct(order);
  }

  lemma WithPointerStructs()
    ensures StructsIn(WITH_POINTER).Keys == {"Node", "K"} && StructsIn(WITH_POINTER)["K"] == [NODE_POINTER]
    ensures Format(NODE_POINTER) !in StructsIn(WITH_POINTER)
  {
    hide Format;
    assert TypeRules.FieldTypes([("p", NODE_POINTER)]) == [NODE_POINTER];
    PlainIsNamed(NODE_POINTER);
  }

  lemma WithPointerUnambiguous()
    ensures Unambiguous(WITH_POINTER)
  {
    assert Plain("Node") && Plain("K");
  }

  lemma KeyOfStruct(order: seq<string>)
    requires StructRecursion.Sizeable(StructsIn(WITH_POINTER), order) && Unambiguous(WITH_POINTER)
    requires "K" in StructsIn(WITH_POINTER) && StructsIn(WITH_POINTER)["K"] == [NODE_POINTER]
    requires !TypeRules.Forbidden(TypeRules.HashCheck, WITH_POINTER, NODE_POINTER) &&
        PointerAt(WITH_POINTER, NODE_POINTER)
    ensures !TypeRules.Forbidden(TypeRules.HashCheck, WITH_POINTER, Named("K"))
    ensures KeyTypeOf(Named("K"), true, WITH_POINTER, order) == None
  {
    assert Format(Named("K")) == "K";
    hide StructsIn, Unambiguous, Format, TypeRules.Chain, TypeRules.Rule, IsNumber;
    ForbiddenInside(WITH_POINTER, Named("K"));
    PointerInFields(WITH_POINTER, Named("K"));
    AcceptedKeysGenerated(Named("K"), WITH_POINTER, order);
  }
}
