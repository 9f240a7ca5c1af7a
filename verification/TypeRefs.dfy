/**
 Type references of the front end (compiler/type_ref.py) and their canonical printed form, the
 string that serves as a type's identity.
 */
module TypeRefs {

  datatype TypeRef =
    | Named(name: string)
    | Pointer(inner: TypeRef, nullable: bool)
    | Slice(elem: TypeRef)
    | Array(length: int, elem: TypeRef)
    | Fn(params: seq<TypeRef>, ret: TypeRef, fallible: bool)
    | Generic(base: TypeRef, args: seq<TypeRef>)

  /** Decimal digits of a length, as Python prints them. */
  function Digits(n: nat): string {
    if n < 10 then [('0' as int + n) as char] else Digits(n / 10) + [('0' as int + n % 10) as char]
  }

  function Decimal(n: int): string {
    if n >= 0 then Digits(n) else "-" + Digits(-n)
  }

  function StarText(nullable: bool): string {
    if nullable then "?*" else "*"
  }

  function Format(r: TypeRef): string {
    match r
    case Named(name) => name
    case Pointer(inner, nullable) => StarText(nullable) + Format(inner)
    case Slice(elem) => "[]" + Format(elem)
    case Array(length, elem) => "[" + Decimal(length) + "]" + Format(elem)
    case Fn(params, ret, fallible) =>
      "fn(" + FormatList(params) + ")->" + Format(ret) + if fallible then " err" else ""
    case Generic(base, args) => Format(base) + "[" + FormatList(args) + "]"
  }

  /** Comma-separated, without spaces. */
  function FormatList(rs: seq<TypeRef>): string {
    if rs == [] then ""
    else if |rs| == 1 then Format(rs[0])
    else Format(rs[0]) + "," + FormatList(rs[1..])
  }

  // ----- the right spine ------------------------------------------------------------------------

  /** The printed form without the ` err` suffixes of the functions on the right spine. */
  function Core(r: TypeRef): string {
    match r
    case Named(name) => name
    case Pointer(inner, nullable) => StarText(nullable) + Core(inner)
    case Slice(elem) => "[]" + Core(elem)
    case Array(length, elem) => "[" + Decimal(length) + "]" + Core(elem)
    case Fn(params, ret, _) => "fn(" + FormatList(params) + ")->" + Core(ret)
    case Generic(base, args) => Format(base) + "[" + FormatList(args) + "]"
  }

  /** The `err` flags met on the way from the root to the end of the type, outermost first. */
  function SpineFlags(r: TypeRef): seq<bool> {
    match r
    case Named(_) => []
    case Pointer(inner, _) => SpineFlags(inner)
    case Slice(elem) => SpineFlags(elem)
    case Array(_, elem) => SpineFlags(elem)
    case Fn(_, ret, fallible) => [fallible] + SpineFlags(ret)
    case Generic(_, _) => []
  }

  function CountTrue(flags: seq<bool>): (k: nat)
    ensures k <= |flags|
  {
    if flags == [] then 0 else (if flags[0] then 1 else 0) + CountTrue(flags[1..])
  }

  function ErrText(k: nat): string {
    if k == 0 then "" else " err" + ErrText(k - 1)
  }

  lemma {:induction false} ErrTextLast(k: nat)
    requires k > 0
    ensures ErrText(k) == ErrText(k - 1) + " err"
  {
    if k > 1 {
      ErrTextLast(k - 1);
    }
  }

  lemma Assoc(a: string, b: string, c: string)
    ensures a + (b + c) == (a + b) + c
  {
  }

  /** All suffixes gather at the end, so the text keeps only their number. */
  lemma {:induction false} FormatIsCore(r: TypeRef)
    ensures Format(r) == Core(r) + ErrText(CountTrue(SpineFlags(r)))
  {
    var errs := ErrText(CountTrue(SpineFlags(r)));
    match r
    case Named(_) =>
    case Pointer(inner, nullable) =>
      FormatIsCore(inner);
      Assoc(StarText(nullable), Core(inner), errs);
    case Slice(elem) =>
      FormatIsCore(elem);
      Assoc("[]", Core(elem), errs);
    case Array(length, elem) =>
      FormatIsCore(elem);
      Assoc("[" + Decimal(length) + "]", Core(elem), errs);
    case Fn(params, ret, fallible) =>
      FormatIsCore(ret);
      assert SpineFlags(r)[1..] == SpineFlags(ret);
      var head, inside := "fn(" + FormatList(params) + ")->", ErrText(CountTrue(SpineFlags(ret)));
      Assoc(head, Core(ret), inside);
      if fallible {
        ErrTextLast(CountTrue(SpineFlags(r)));
        Assoc(head + Core(ret), inside, " err");
      }
    case Generic(_, _) =>
  }

  // ----- types whose text is unambiguous apart from the flags --------------------------------------

  predicate IsSpace(c: char) {
    var n := c as int;
    || 9 <= n <= 13 || 28 <= n <= 32 || n == 0x85 || n == 0xA0 || n == 0x1680 || 0x2000 <= n <= 0x200A
    || n == 0x2028 || n == 0x2029 || n == 0x202F || n == 0x205F || n == 0x3000
  }

  predicate PlainChar(c: char) {
    !IsSpace(c) && c != '[' && c != ']' && c != '(' && c != ')' && c != ',' && c != '*' && c != '?'
  }

  predicate Plain(s: string) {
    forall i :: 0 <= i < |s| ==> PlainChar(s[i])
  }

  /** Names are non-empty and free of type punctuation; only named types are instantiated. */
  predicate Clean(r: TypeRef) {
    match r
    case Named(name) => name != "" && Plain(name)
    case Pointer(inner, _) => Clean(inner)
    case Slice(elem) => Clean(elem)
    case Array(_, elem) => Clean(elem)
    case Fn(params, ret, _) => (forall p :: p in params ==> Clean(p)) && Clean(ret)
    case Generic(base, args) => base.Named? && Clean(base) && forall a :: a in args ==> Clean(a)
  }

  /** Only named types print without punctuation. */
  lemma PlainIsNamed(t: TypeRef)
    ensures Plain(Format(t)) ==> t.Named?
    ensures t.Pointer? ==> Format(t)[0] == '*' || Format(t)[0] == '?'
  {
    var s := Format(t);
    match t
    case Named(_) =>
    case Pointer(_, _) => assert !PlainChar(s[0]);
    case Slice(_) => assert !PlainChar(s[0]);
    case Array(_, _) => assert !PlainChar(s[0]);
    case Fn(_, _, _) => assert s[2] == '(' && !PlainChar(s[2]);
    case Generic(_, _) => assert s[|s| - 1] == ']' && !PlainChar(s[|s| - 1]);
  }

  /** The built-in two-argument map type. */
  predicate IsMap(t: TypeRef) {
    t.Generic? && t.base.Named? && t.base.name == "map" && |t.args| == 2
  }
}
