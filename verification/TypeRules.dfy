/**
 Which types may be hashed, compared and zero-initialised (compiler/type_rules.py): depth-first walks
 that share one set of visited type keys, over struct graphs that may be cyclic.
 */
module TypeRules {
  import opened Prelude
  import opened TypeRefs
  import TypeRoundTrip

  datatype Symbol = EnumSymbol | StructSymbol(fields: seq<(string, TypeRef)>) | OtherSymbol

  /** Named types in scope, and the names of interfaces. */
  datatype Scope = Scope(symbols: map<string, Symbol>, ifaces: set<string>)

  datatype Check = HashCheck | EqCheck | ZeroCheck

  /** What a check says about one type before looking inside it. */
  datatype Ruling = Reject | Accept | Descend(parts: seq<TypeRef>)

  const FLOATS := {"f32", "f64"}
  const NUMERIC := {"i8", "i16", "i32", "i64", "u8", "u16", "u32", "u64", "f32", "f64"}
  const BASIC := {"bool", "str", "rune"}

  function Key(t: TypeRef): string { Format(t) }

  function FieldTypes(fields: seq<(string, TypeRef)>): (ts: seq<TypeRef>)
    ensures |ts| == |fields| && forall i :: 0 <= i < |ts| ==> ts[i] == fields[i].1
  {
    seq(|fields|, i requires 0 <= i < |fields| => fields[i].1)
  }

  /** The last part of all three checks: the symbol table decides. */
  function BySymbol(key: string, scope: Scope): Ruling {
    if key !in scope.symbols then Reject
    else match scope.symbols[key]
      case EnumSymbol => Accept
      case StructSymbol(fields) => Descend(FieldTypes(fields))
      case OtherSymbol => Reject
  }

  function HashRuling(t: TypeRef, scope: Scope): Ruling {
    var key := Key(t);
    if key in FLOATS then Reject
    else if key in NUMERIC || key in BASIC then Accept
    else if key == "error" then Reject
    else if t.Pointer? then Accept
    else if IsMap(t) || t.Slice? || t.Array? || t.Fn? || key in scope.ifaces then Reject
    else BySymbol(key, scope)
  }

  function EqRuling(t: TypeRef, scope: Scope): Ruling {
    var key := Key(t);
    if key in NUMERIC || key in BASIC then Accept
    else if key == "error" then Reject
    else if t.Pointer? then Accept
    else if IsMap(t) || t.Slice? || t.Array? || t.Fn? || key in scope.ifaces then Reject
    else BySymbol(key, scope)
  }

  function ZeroRuling(t: TypeRef, scope: Scope): Ruling {
    var key := Key(t);
    if key == "void" then Reject
    else if key in NUMERIC || key in BASIC then Accept
    else if t.Pointer? then if t.nullable then Accept else Reject
    else if IsMap(t) || t.Slice? then Accept
    else if t.Array? then Descend([t.elem])
    else if t.Fn? || key in scope.ifaces then Accept
    else BySymbol(key, scope)
  }

  function Rule(check: Check, t: TypeRef, scope: Scope): Ruling {
    match check
    case HashCheck => HashRuling(t, scope)
    case EqCheck => EqRuling(t, scope)
    case ZeroCheck => ZeroRuling(t, scope)
  }

  // ----- reachability -----------------------------------------------------------------------------------

  ghost predicate PartOf(check: Check, scope: Scope, t: TypeRef, part: TypeRef) {
    Rule(check, t, scope).Descend? && part in Rule(check, t, scope).parts
  }

  /** A chain of types, each a part of the one before. */
  ghost predicate Chain(check: Check, scope: Scope, path: seq<TypeRef>) {
    path != [] && (|path| > 1 ==> PartOf(check, scope, path[0], path[1]) && Chain(check, scope, path[1..]))
  }

  /** A type the check forbids can be reached through struct fields (and, for zero, array elements). */
  ghost predicate Forbidden(check: Check, scope: Scope, t: TypeRef) {
    exists path :: Chain(check, scope, path) && path[0] == t && Rule(check, path[|path| - 1], scope).Reject?
  }

  ghost predicate CleanScope(scope: Scope) {
    forall name :: name in scope.symbols && scope.symbols[name].StructSymbol? ==>
      forall i :: 0 <= i < |scope.symbols[name].fields| ==> Clean(scope.symbols[name].fields[i].1)
  }

  lemma PartsClean(check: Check, t: TypeRef, scope: Scope)
    requires Clean(t) && CleanScope(scope) && Rule(check, t, scope).Descend?
    ensures forall p :: p in Rule(check, t, scope).parts ==> Clean(p)
  {
  }

  /** The key decides: types with equal keys are ruled alike, up to the keys of their parts. */
  ghost predicate Alike(r1: Ruling, r2: Ruling) {
    && (r1.Reject? <==> r2.Reject?) && (r1.Accept? <==> r2.Accept?)
    && (r1.Descend? ==> |r1.parts| == |r2.parts| && forall i :: 0 <= i < |r1.parts| ==>
        Key(r1.parts[i]) == Key(r2.parts[i]))
  }

  lemma KeyDecides(check: Check, a: TypeRef, b: TypeRef, scope: Scope)
    requires Clean(a) && Clean(b) && Key(a) == Key(b)
    ensures Alike(Rule(check, a, scope), Rule(check, b, scope))
  {
    TypeRoundTrip.SameTypeIsEquality(a, b);
    SameShape(a, b);
  }

  /** What equal keys say about the outermost constructor. */
  lemma SameShape(a: TypeRef, b: TypeRef)
    requires Clean(a) && Clean(b) && TypeRoundTrip.Canon(a) == TypeRoundTrip.Canon(b)
    ensures (a.Pointer? <==> b.Pointer?) && (a.Slice? <==> b.Slice?) && (a.Array? <==> b.Array?) && (a.Fn? <==> b.Fn?)
    ensures a.Pointer? ==> a.nullable == b.nullable
    ensures a.Array? ==> Key(a.elem) == Key(b.elem)
    ensures IsMap(a) <==> IsMap(b)
  {
    if a.Generic? {
      TypeRoundTrip.CanonListText(a.args);
      TypeRoundTrip.CanonListText(b.args);
    }
    if a.Array? {
      TypeRoundTrip.CanonText(a);
      TypeRoundTrip.CanonText(b);
      SameElement(a, b);
    }
  }

  lemma SameElement(a: TypeRef, b: TypeRef)
    requires a.Array? && b.Array? && Clean(a) && Clean(b) && TypeRoundTrip.Canon(a) == TypeRoundTrip.Canon(b)
    ensures Key(a.elem) == Key(b.elem)
  {
    assert SpineFlags(a) == SpineFlags(a.elem) && SpineFlags(b) == SpineFlags(b.elem);
    TypeRoundTrip.CanonText(a.elem);
    TypeRoundTrip.CanonText(b.elem);
    assert TypeRoundTrip.Canon(a).elem == TypeRoundTrip.Canon(a.elem);
    assert TypeRoundTrip.Canon(b).elem == TypeRoundTrip.Canon(b.elem);
  }

  // ----- the walk -----------------------------------------------------------------------------------------

  /** Keys that cannot be left by looking at parts. */
  ghost predicate Closed(check: Check, scope: Scope, universe: set<string>) {
    forall t: TypeRef :: Clean(t) && Key(t) in universe && Rule(check, t, scope).Descend? ==>
      forall p :: p in Rule(check, t, scope).parts ==> Key(p) in universe
  }

  /** Not forbidden itself, and all its parts have been visited. */
  ghost predicate Settled(check: Check, scope: Scope, t: TypeRef, seen: set<string>) {
    var r := Rule(check, t, scope);
    !r.Reject? && (r.Descend? ==> forall p :: p in r.parts ==> Key(p) in seen)
  }

  /** Everything visited between two moments is settled at the later one. */
  ghost predicate Processed(check: Check, scope: Scope, before: set<string>, seen: set<string>) {
    forall t: TypeRef :: Clean(t) && Key(t) in seen && Key(t) !in before ==> Settled(check, scope, t, seen)
  }

  ghost predicate LeadsToRejected(check: Check, scope: Scope, t: TypeRef, bad: TypeRef) {
    Rule(check, bad, scope).Reject? && exists path ::
        Chain(check, scope, path) && path[0] == t && path[|path| - 1] == bad
  }

  lemma ProcessedThen(check: Check, scope: Scope, s0: set<string>, s1: set<string>, s2: set<string>)
    requires Processed(check, scope, s0, s1) && Processed(check, scope, s1, s2) && s1 <= s2
    ensures Processed(check, scope, s0, s2)
  {
    forall t: TypeRef | Clean(t) && Key(t) in s2 && Key(t) !in s0
      ensures Settled(check, scope, t, s2)
    {
      if Key(t) in s1 {
        assert Settled(check, scope, t, s1);
      }
    }
  }

  /** The type the walk is at is settled once its parts are visited, and so is every type with its key. */
  lemma NodeProcessed(check: Check, scope: Scope, t: TypeRef, before: set<string>, seen: set<string>)
    requires Clean(t) && Settled(check, scope, t, seen) && Processed(check, scope, before + {Key(t)}, seen)
    ensures Processed(check, scope, before, seen)
  {
    forall x: TypeRef | Clean(x) && Key(x) in seen && Key(x) !in before
      ensures Settled(check, scope, x, seen)
    {
      if Key(x) == Key(t) {
        KeyDecides(check, x, t, scope);
      }
    }
  }

  lemma RejectedHere(check: Check, scope: Scope, t: TypeRef)
    requires Rule(check, t, scope).Reject?
    ensures LeadsToRejected(check, scope, t, t)
  {
    assert Chain(check, scope, [t]);
  }

  lemma RejectedInside(check: Check, scope: Scope, t: TypeRef, part: TypeRef, bad: TypeRef)
    requires LeadsToRejected(check, scope, part, bad) && PartOf(check, scope, t, part)
    ensures LeadsToRejected(check, scope, t, bad)
  {
    hide PartOf, Rule;
    var path :| Chain(check, scope, path) && path[0] == part && path[|path| - 1] == bad;
    var longer := [t] + path;
    assert longer[1..] == path && longer[|longer| - 1] == bad;
    assert Chain(check, scope, longer);
  }

  class Walker {
    const check: Check
    const scope: Scope
    var seen: set<string>

    constructor (check: Check, scope: Scope)
      ensures this.check == check && this.scope == scope && seen == {}
    {
      this.check := check;
      this.scope := scope;
      seen := {};
    }

    /** hash_comparable_error_type, comparable_error_type and zero_value_error_type. */
    method ErrorType(t: TypeRef, ghost universe: set<string>) returns (err: Option<TypeRef>)
      requires Clean(t) && CleanScope(scope) && Closed(check, scope, universe)
      requires Key(t) in universe && seen <= universe
      modifies this`seen
      ensures old(seen) <= seen <= universe
      ensures err.None? ==> Key(t) in seen && Processed(check, scope, old(seen), seen)
      ensures err.Some? ==> LeadsToRejected(check, scope, t, err.value)
      decreases |universe - seen|
    {
      hide Processed, LeadsToRejected, Rule, Closed, Key;
      if Key(t) in seen {
        NothingNew(check, scope, seen);
        return None;
      }
      ghost var before := seen;
      seen := seen + {Key(t)};
      assert universe - seen < universe - before && |universe - seen| < |universe - before| by {
        assert universe - seen == universe - before - {Key(t)};
      }
      var ruling := Rule(check, t, scope);
      if ruling.Reject? {
        RejectedHere(check, scope, t);
        return Some(t);
      }
      ghost var entered := seen;
      NothingNew(check, scope, seen);
      if ruling.Descend? {
        PartsClean(check, t, scope);
        PartsInside(check, scope, t, universe);
        var i := 0;
        while i < |ruling.parts|
          invariant 0 <= i <= |ruling.parts| && entered <= seen <= universe
          invariant Processed(check, scope, entered, seen)
          invariant forall j :: 0 <= j < i ==> Key(ruling.parts[j]) in seen
        {
          ghost var at := seen;
          Shrinks(universe, entered, seen);
          err := ErrorType(ruling.parts[i], universe);
          if err.Some? {
            RejectedInside(check, scope, t, ruling.parts[i], err.value);
            return;
          }
          ProcessedThen(check, scope, entered, at, seen);
          i := i + 1;
        }
      }
      NodeProcessed(check, scope, t, before, seen);
      err := None;
    }
  }

  lemma PartsInside(check: Check, scope: Scope, t: TypeRef, universe: set<string>)
    requires Closed(check, scope, universe) && Clean(t) && Key(t) in universe && Rule(check, t, scope).Descend?
    ensures forall p :: p in Rule(check, t, scope).parts ==> Key(p) in universe
  {
  }

  lemma NothingNew(check: Check, scope: Scope, seen: set<string>)
    ensures Processed(check, scope, seen, seen)
  {
  }

  lemma Shrinks(universe: set<string>, a: set<string>, b: set<string>)
    requires a <= b <= universe
    ensures |universe - b| <= |universe - a|
  {
    assert universe - a == (universe - b) + (b - a);
  }

  // ----- a finite universe ------------------------------------------------------------------------------------

  function Subkeys(t: TypeRef): set<string> {
    {Key(t)} + if t.Array? then Subkeys(t.elem) else {}
  }

  function FieldKeys(fields: seq<(string, TypeRef)>): set<string> {
    if fields == [] then {} else Subkeys(fields[0].1) + FieldKeys(fields[1..])
  }

  function ScopeKeys(scope: Scope): set<string> {
    set name, k | name in scope.symbols && scope.symbols[name].StructSymbol? &&
        k in FieldKeys(scope.symbols[name].fields) :: k
  }

  lemma {:induction false} FieldKeyed(fields: seq<(string, TypeRef)>, i: nat)
    requires i < |fields|
    ensures Subkeys(fields[i].1) <= FieldKeys(fields)
  {
    if i > 0 {
      FieldKeyed(fields[1..], i - 1);
    }
  }

  lemma {:induction false} ElementKeyed(t: TypeRef, x: TypeRef)
    requires Clean(t) && Clean(x) && x.Array? && Key(x) in Subkeys(t)
    ensures Key(x.elem) in Subkeys(t)
  {
    if Key(x) == Key(t) {
      TypeRoundTrip.SameTypeIsEquality(x, t);
      SameShape(x, t);
    } else {
      ElementKeyed(t.elem, x);
    }
  }

  lemma {:induction false} FieldElementKeyed(fields: seq<(string, TypeRef)>, x: TypeRef)
    requires (forall i :: 0 <= i < |fields| ==> Clean(fields[i].1)) && Clean(x) && x.Array? &&
        Key(x) in FieldKeys(fields)
    ensures Key(x.elem) in FieldKeys(fields)
  {
    if Key(x) in Subkeys(fields[0].1) {
      ElementKeyed(fields[0].1, x);
    } else {
      FieldElementKeyed(fields[1..], x);
    }
  }

  lemma UniverseClosed(check: Check, scope: Scope, t: TypeRef)
    requires Clean(t) && CleanScope(scope)
    ensures Closed(check, scope, Subkeys(t) + ScopeKeys(scope))
  {
    var u := Subkeys(t) + ScopeKeys(scope);
    forall x: TypeRef | Clean(x) && Key(x) in u && Rule(check, x, scope).Descend?
      ensures forall p :: p in Rule(check, x, scope).parts ==> Key(p) in u
    {
      PartsKeyed(check, scope, t, x);
    }
  }

  lemma PartsKeyed(check: Check, scope: Scope, t: TypeRef, x: TypeRef)
    requires Clean(t) && CleanScope(scope) && Clean(x) && Rule(check, x, scope).Descend?
    requires Key(x) in Subkeys(t) + ScopeKeys(scope)
    ensures forall p :: p in Rule(check, x, scope).parts ==> Key(p) in Subkeys(t) + ScopeKeys(scope)
  {
    if check == ZeroCheck && x.Array? {
      if Key(x) in Subkeys(t) {
        ElementKeyed(t, x);
      } else {
        var name :| name in scope.symbols && scope.symbols[name].StructSymbol? &&
            Key(x) in FieldKeys(scope.symbols[name].fields);
        FieldElementKeyed(scope.symbols[name].fields, x);
      }
    } else {
      var fields := scope.symbols[Key(x)].fields;
      forall p | p in FieldTypes(fields)
        ensures Key(p) in ScopeKeys(scope)
      {
        var i :| 0 <= i < |fields| && fields[i].1 == p;
        FieldKeyed(fields, i);
        assert Key(p) in Subkeys(p);
      }
    }
  }

  // ----- the results -------------------------------------------------------------------------------------------

  /** A chain that starts at a settled key stays among settled keys. */
  lemma {:induction false} ChainSettled(check: Check, scope: Scope, path: seq<TypeRef>, seen: set<string>)
    requires CleanScope(scope) && Chain(check, scope, path) && Clean(path[0]) && Key(path[0]) in seen
    requires Processed(check, scope, {}, seen)
    ensures !Rule(check, path[|path| - 1], scope).Reject?
    decreases |path|
  {
    hide Rule;
    assert Settled(check, scope, path[0], seen);
    if |path| > 1 {
      PartsClean(check, path[0], scope);
      ChainSettled(check, scope, path[1..], seen);
    }
  }

  // ----- what the checks are for ----------------------------------------------------------------------------------

  /** Integers of 8 to 64 bits with and without sign, and the two floats. */
  predicate IsInteger(name: string) {
    name != "" && (name[0] == 'i' || name[0] == 'u') && name[1..] in {"8", "16", "32", "64"}
  }

  predicate IsFloat(name: string) {
    name != "" && name[0] == 'f' && name[1..] in {"32", "64"}
  }

  /** All-zero memory is a value of the type, as far as `depth` levels of it show. */
  predicate ZeroIsValue(t: TypeRef, scope: Scope, depth: nat)
    decreases depth, 1
  {
    depth == 0 ||
    match t
    case Pointer(_, nullable) => nullable
    case Slice(_) => true
    case Fn(_, _, _) => true
    case Array(_, elem) => ZeroIsValue(elem, scope, depth - 1)
    case Generic(base, args) => (base == Named("map") && |args| == 2) || ZeroIsDeclared(Format(t), scope, depth)
    case Named(name) =>
      || IsInteger(name) || IsFloat(name) || name == "bool" || name == "str" || name == "rune"
      || (name != "void" && ZeroIsDeclared(name, scope, depth))
  }

  /** Of the nil interface, the first variant of an enum, or a struct of which every field has it. */
  predicate ZeroIsDeclared(name: string, scope: Scope, depth: nat)
    requires depth > 0
    decreases depth, 0
  {
    name in scope.ifaces ||
    (name in scope.symbols &&
     match scope.symbols[name]
     case EnumSymbol => true
     case StructSymbol(fields) => forall f :: f in fields ==> ZeroIsValue(f.1, scope, depth - 1)
     case OtherSymbol => false)
  }

  /** Values of the type compare by `==`, as far as `depth` levels show; `floats` says whether floats count. */
  predicate HasEquality(t: TypeRef, scope: Scope, floats: bool, depth: nat)
    decreases depth, 1
  {
    depth == 0 ||
    match t
    case Pointer(_, _) => true
    case Slice(_) => false
    case Array(_, _) => false
    case Fn(_, _, _) => false
    case Generic(base, args) =>
      !(base == Named("map") && |args| == 2) && EqualityDeclared(Format(t), scope, floats, depth)
    case Named(name) =>
      if IsFloat(name) then floats
      else
        || IsInteger(name) || name == "bool" || name == "str" || name == "rune"
        || (name != "error" && EqualityDeclared(name, scope, floats, depth))
  }

  predicate EqualityDeclared(name: string, scope: Scope, floats: bool, depth: nat)
    requires depth > 0
    decreases depth, 0
  {
    name !in scope.ifaces && name in scope.symbols &&
    match scope.symbols[name]
    case EnumSymbol => true
    case StructSymbol(fields) => forall f :: f in fields ==> HasEquality(f.1, scope, floats, depth - 1)
    case OtherSymbol => false
  }

  predicate Supports(check: Check, t: TypeRef, scope: Scope, depth: nat) {
    match check
    case ZeroCheck => ZeroIsValue(t, scope, depth)
    case EqCheck => HasEquality(t, scope, true, depth)
    case HashCheck => HasEquality(t, scope, false, depth)
  }

  lemma HeadAndTail(name: string, head: char, tail: string)
    ensures name == [head] + tail <==> name != "" && name[0] == head && name[1..] == tail
  {
  }

  lemma NumericNames(name: string)
    ensures IsFloat(name) <==> name in FLOATS
    ensures IsInteger(name) || IsFloat(name) <==> name in NUMERIC
    ensures !(IsInteger(name) && IsFloat(name))
  {
    forall head, tail
      ensures name == [head] + tail <==> name != "" && name[0] == head && name[1..] == tail
    {
      HeadAndTail(name, head, tail);
    }
    assert ['f'] + "32" == "f32" && ['f'] + "64" == "f64";
    assert ['i'] + "8" == "i8" && ['i'] + "16" == "i16" && ['i'] + "32" == "i32" && ['i'] + "64" == "i64";
    assert ['u'] + "8" == "u8" && ['u'] + "16" == "u16" && ['u'] + "32" == "u32" && ['u'] + "64" == "u64";
  }

  lemma KnownArePlain(name: string)
    requires name in NUMERIC || name in BASIC || name == "void" || name == "error"
    ensures Plain(name)
  {
  }

  /** The names the checks know belong to no other constructor. */
  lemma KnownAreNamed(t: TypeRef)
    ensures Key(t) in NUMERIC || Key(t) in BASIC || Key(t) == "void" || Key(t) == "error" ==> t.Named?
  {
    if Key(t) in NUMERIC || Key(t) in BASIC || Key(t) == "void" || Key(t) == "error" {
      KnownArePlain(Key(t));
      PlainIsNamed(t);
    }
  }

  lemma FieldsAlike(check: Check, fields: seq<(string, TypeRef)>, scope: Scope, depth: nat)
    ensures (forall p :: p in FieldTypes(fields) ==> Supports(check, p, scope, depth))
            <==> forall f :: f in fields ==> Supports(check, f.1, scope, depth)
  {
    hide Supports;
    forall i | 0 <= i < |fields|
      ensures FieldTypes(fields)[i] in FieldTypes(fields) && fields[i] in fields
    {
    }
  }

  /** One level: what the check says about a type is what it means. */
  ghost predicate RuledRight(check: Check, t: TypeRef, scope: Scope, depth: nat)
    requires depth > 0
  {
    match Rule(check, t, scope)
    case Reject => !Supports(check, t, scope, depth)
    case Accept => Supports(check, t, scope, depth)
    case Descend(parts) =>
      Supports(check, t, scope, depth) <==> forall p :: p in parts ==> Supports(check, p, scope, depth - 1)
  }

  lemma OneLevel(check: Check, t: TypeRef, scope: Scope, depth: nat)
    requires depth > 0
    ensures RuledRight(check, t, scope, depth)
  {
    if check.ZeroCheck? {
      ZeroRuledRightly(t, scope, depth);
    } else {
      EqualityRuledRightly(check, t, scope, depth);
    }
  }

  lemma ZeroSymbolRight(name: string, scope: Scope, depth: nat)
    requires depth > 0
    ensures name in scope.ifaces ==> ZeroIsDeclared(name, scope, depth)
    ensures name in scope.ifaces ||
            match BySymbol(name, scope)
            case Reject => !ZeroIsDeclared(name, scope, depth)
            case Accept => ZeroIsDeclared(name, scope, depth)
            case Descend(parts) =>
              (ZeroIsDeclared(name, scope, depth) <==>
                 forall p :: p in parts ==> Supports(ZeroCheck, p, scope, depth - 1))
  {
    if name in scope.symbols && scope.symbols[name].StructSymbol? {
      FieldsAlike(ZeroCheck, scope.symbols[name].fields, scope, depth - 1);
    }
  }

  lemma ZeroRuledRightly(t: TypeRef, scope: Scope, depth: nat)
    requires depth > 0
    ensures RuledRight(ZeroCheck, t, scope, depth)
  {
    KnownAreNamed(t);
    NumericNames(Key(t));
    ZeroSymbolRight(Key(t), scope, depth);
    hide IsInteger, IsFloat, BySymbol;
    if t.Array? {
      assert Rule(ZeroCheck, t, scope) == Descend([t.elem]) && t.elem in [t.elem];
      assert Supports(ZeroCheck, t, scope, depth) == Supports(ZeroCheck, t.elem, scope, depth - 1);
    }
  }

  lemma EqualitySymbolRight(check: Check, name: string, scope: Scope, depth: nat)
    requires depth > 0 && !check.ZeroCheck?
    ensures name in scope.ifaces ==> !EqualityDeclared(name, scope, check.EqCheck?, depth)
    ensures name in scope.ifaces ||
            match BySymbol(name, scope)
            case Reject => !EqualityDeclared(name, scope, check.EqCheck?, depth)
            case Accept => EqualityDeclared(name, scope, check.EqCheck?, depth)
            case Descend(parts) =>
              (EqualityDeclared(name, scope, check.EqCheck?, depth) <==>
                 forall p :: p in parts ==> Supports(check, p, scope, depth - 1))
  {
    if name in scope.symbols && scope.symbols[name].StructSymbol? {
      FieldsAlike(check, scope.symbols[name].fields, scope, depth - 1);
    }
  }

  lemma EqualityRuledRightly(check: Check, t: TypeRef, scope: Scope, depth: nat)
    requires depth > 0 && !check.ZeroCheck?
    ensures RuledRight(check, t, scope, depth)
  {
    KnownAreNamed(t);
    NumericNames(Key(t));
    EqualitySymbolRight(check, Key(t), scope, depth);
    hide IsInteger, IsFloat, BySymbol;
  }

  /** Types that the check forbids lack what it is for, and no others do. */
  lemma ForbiddenExactly(check: Check, scope: Scope, t: TypeRef)
    ensures !Forbidden(check, scope, t) <==> forall depth: nat :: Supports(check, t, scope, depth)
  {
    hide Rule, Supports;
    if Forbidden(check, scope, t) {
      var path :| Chain(check, scope, path) && path[0] == t && Rule(check, path[|path| - 1], scope).Reject?;
      RejectedLacks(check, scope, path);
    }
    forall depth: nat | !Forbidden(check, scope, t)
      ensures Supports(check, t, scope, depth)
    {
      if !Supports(check, t, scope, depth) {
        LackingRejected(check, scope, t, depth);
      }
    }
  }

  lemma {:induction false} RejectedLacks(check: Check, scope: Scope, path: seq<TypeRef>)
    requires Chain(check, scope, path) && Rule(check, path[|path| - 1], scope).Reject?
    ensures !Supports(check, path[0], scope, |path|)
    decreases |path|
  {
    OneLevel(check, path[0], scope, |path|);
    hide Rule, Supports;
    if |path| > 1 {
      RejectedLacks(check, scope, path[1..]);
    }
  }

  lemma {:induction false} LackingRejected(check: Check, scope: Scope, t: TypeRef, depth: nat)
    requires !Supports(check, t, scope, depth)
    ensures Forbidden(check, scope, t)
    decreases depth
  {
    assert depth > 0;
    OneLevel(check, t, scope, depth);
    hide Rule, Supports;
    if Rule(check, t, scope).Reject? {
      RejectedHere(check, scope, t);
    } else {
      var p :| p in Rule(check, t, scope).parts && !Supports(check, p, scope, depth - 1);
      LackingRejected(check, scope, p, depth - 1);
      var path :| Chain(check, scope, path) && path[0] == p && Rule(check, path[|path| - 1], scope).Reject?;
      RejectedInside(check, scope, t, p, path[|path| - 1]);
    }
  }

  /** Every number has a zero and compares, floats too; only floats cannot be hashed. */
  lemma NumbersSupported(name: string, scope: Scope)
    requires IsInteger(name) || IsFloat(name)
    ensures !Forbidden(ZeroCheck, scope, Named(name)) && !Forbidden(EqCheck, scope, Named(name))
    ensures Forbidden(HashCheck, scope, Named(name)) <==> IsFloat(name)
  {
    NumericNames(name);
    ForbiddenExactly(ZeroCheck, scope, Named(name));
    ForbiddenExactly(EqCheck, scope, Named(name));
    ForbiddenExactly(HashCheck, scope, Named(name));
    assert Supports(HashCheck, Named(name), scope, 1) <==> !IsFloat(name);
  }

  /** The check returns nothing exactly when no forbidden type can be reached; else it names one that can. */
  method Examine(check: Check, scope: Scope, t: TypeRef) returns (err: Option<TypeRef>)
    requires Clean(t) && CleanScope(scope)
    ensures err.None? <==> forall depth: nat :: Supports(check, t, scope, depth)
    ensures err.None? <==> !Forbidden(check, scope, t)
    ensures err.Some? ==> LeadsToRejected(check, scope, t, err.value)
  {
    var walker := new Walker(check, scope);
    UniverseClosed(check, scope, t);
    ForbiddenExactly(check, scope, t);
    err := walker.ErrorType(t, Subkeys(t) + ScopeKeys(scope));
    if err.Some? {
      assert Forbidden(check, scope, t);
    } else if Forbidden(check, scope, t) {
      ghost var path :| Chain(check, scope, path) && path[0] == t && Rule(check, path[|path| - 1], scope).Reject?;
      ChainSettled(check, scope, path, walker.seen);
      assert false;
    }
  }

  /** Whatever may be a map key may be compared, and the only difference is floats. */
  lemma HashImpliesEq(scope: Scope, t: TypeRef)
    ensures Forbidden(EqCheck, scope, t) ==> Forbidden(HashCheck, scope, t)
    ensures Forbidden(HashCheck, scope, t) ==>
      Forbidden(EqCheck, scope, t)
      || exists path :: Chain(EqCheck, scope, path) && path[0] == t && Key(path[|path| - 1]) in FLOATS
  {
    if Forbidden(EqCheck, scope, t) {
      var path :| Chain(EqCheck, scope, path) && path[0] == t && Rule(EqCheck, path[|path| - 1], scope).Reject?;
      SameChains(scope, path);
    }
    if Forbidden(HashCheck, scope, t) {
      var path :| Chain(HashCheck, scope, path) && path[0] == t && Rule(HashCheck, path[|path| - 1], scope).Reject?;
      SameChains(scope, path);
    }
  }

  lemma {:induction false} SameChains(scope: Scope, path: seq<TypeRef>)
    ensures Chain(HashCheck, scope, path) <==> Chain(EqCheck, scope, path)
    decreases |path|
  {
    hide Rule;
    if |path| > 1 {
      SameDescent(scope, path[0]);
      SameChains(scope, path[1..]);
    }
  }

  lemma SameDescent(scope: Scope, t: TypeRef)
    ensures Rule(HashCheck, t, scope).Descend? <==> Rule(EqCheck, t, scope).Descend?
    ensures Rule(HashCheck, t, scope).Descend? ==> Rule(HashCheck, t, scope) == Rule(EqCheck, t, scope)
    ensures Key(t) !in FLOATS ==> Rule(HashCheck, t, scope) == Rule(EqCheck, t, scope)
  {
  }
}
