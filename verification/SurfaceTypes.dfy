/**
 Types as diagnostics print them and programs write them.  Lexing and parsing the user form gives
 back the type with the `err` flags of each right spine moved to its innermost functions, so the
 round trip holds exactly for types whose flags already are that way.
 */
module SurfaceTypes {
  import opened Prelude
  import opened TypeRefs
  import opened TypeTokens

  function FormatUser(r: TypeRef): string {
    match r
    case Named(name) => name
    case Pointer(inner, nullable) => StarText(nullable) + FormatUser(inner)
    case Slice(elem) => "[]" + FormatUser(elem)
    case Array(length, elem) => "[" + Decimal(length) + "]" + FormatUser(elem)
    case Fn(params, ret, fallible) =>
      "fun(" + FormatUserList(params, ", ") + ") " + FormatUser(ret) + if fallible then " err" else ""
    case Generic(base, args) => FormatUser(base) + "[" + FormatUserList(args, ",") + "]"
  }

  function FormatUserList(rs: seq<TypeRef>, sep: string): string {
    if rs == [] then ""
    else if |rs| == 1 then FormatUser(rs[0])
    else FormatUser(rs[0]) + sep + FormatUserList(rs[1..], sep)
  }

  // ----- names a program can write -----------------------------------------------------------------

  predicate Digit(c: char) {
    '0' <= c <= '9'
  }

  predicate Letter(c: char) {
    'a' <= c <= 'z' || 'A' <= c <= 'Z' || c == '_'
  }

  predicate WordChar(c: char) {
    Letter(c) || Digit(c)
  }

  const KEYWORDS := {"let", "if", "else", "fun", "ret", "err", "try", "struct", "iface", "enum", "match", "for", "in",
                     "break", "new", "defer", "nil", "import", "extern", "spawn", "type", "true", "false"}

  predicate Word(w: string) {
    w != "" && Letter(w[0]) && (forall i :: 0 <= i < |w| ==> WordChar(w[i])) && w !in KEYWORDS
  }

  /** The position of the first dot, or the length. */
  function DotAt(s: string): (i: nat)
    ensures i <= |s| && (i < |s| ==> s[i] == '.')
  {
    if s == "" || s[0] == '.' then 0 else 1 + DotAt(s[1..])
  }

  predicate SurfaceName(name: string) {
    var i := DotAt(name);
    Word(name[..i]) && (i < |name| ==> Word(name[i + 1..]))
  }

  predicate Surface(r: TypeRef) {
    match r
    case Named(name) => SurfaceName(name)
    case Pointer(inner, _) => Surface(inner)
    case Slice(elem) => Surface(elem)
    case Array(length, elem) => length >= 0 && Surface(elem)
    case Fn(params, ret, _) => (forall p :: p in params ==> Surface(p)) && Surface(ret)
    case Generic(base, args) => base.Named? && Surface(base) && forall a :: a in args ==> Surface(a)
  }

  // ----- tokens of a printed type -------------------------------------------------------------------

  function NameTokens(name: string): seq<Token> {
    var i := DotAt(name);
    if i == |name| then [Ident(name)] else [Ident(name[..i]), Dot, Ident(name[i + 1..])]
  }

  function StarTokens(nullable: bool): seq<Token> {
    if nullable then [Question, Star] else [Star]
  }

  function Tokens(r: TypeRef): seq<Token> {
    match r
    case Named(name) => NameTokens(name)
    case Pointer(inner, nullable) => StarTokens(nullable) + Tokens(inner)
    case Slice(elem) => [LBracket, RBracket] + Tokens(elem)
    case Array(length, elem) => [LBracket, Integer(if length >= 0 then length else 0, None), RBracket] + Tokens(elem)
    case Fn(params, ret, fallible) => [Fun, LParen] + TokenList(params) + [RParen] + Tokens(ret) + if fallible
        then [Err] else []
    case Generic(base, args) => Tokens(base) + [LBracket] + TokenList(args) + [RBracket]
  }

  function TokenList(rs: seq<TypeRef>): seq<Token> {
    if rs == [] then []
    else if |rs| == 1 then Tokens(rs[0])
    else Tokens(rs[0]) + [Comma] + TokenList(rs[1..])
  }

  /** Without the suffixes of the right spine. */
  function TokenCore(r: TypeRef): seq<Token> {
    match r
    case Named(name) => NameTokens(name)
    case Pointer(inner, nullable) => StarTokens(nullable) + TokenCore(inner)
    case Slice(elem) => [LBracket, RBracket] + TokenCore(elem)
    case Array(length, elem) => [LBracket, Integer(if length >= 0 then length else 0, None), RBracket] + TokenCore(elem)
    case Fn(params, ret, _) => [Fun, LParen] + TokenList(params) + [RParen] + TokenCore(ret)
    case Generic(base, args) => Tokens(base) + [LBracket] + TokenList(args) + [RBracket]
  }

  function Errs(k: nat): seq<Token> {
    if k == 0 then [] else [Err] + Errs(k - 1)
  }

  lemma {:induction false} ErrsLast(k: nat)
    requires k > 0
    ensures Errs(k) == Errs(k - 1) + [Err]
  {
    if k > 1 {
      ErrsLast(k - 1);
    }
  }

  lemma Joined(a: seq<Token>, b: seq<Token>, c: seq<Token>)
    ensures a + (b + c) == (a + b) + c
  {
  }

  lemma {:induction false} TokensAreCore(r: TypeRef)
    ensures Tokens(r) == TokenCore(r) + Errs(CountTrue(SpineFlags(r)))
  {
    var errs := Errs(CountTrue(SpineFlags(r)));
    match r
    case Named(_) =>
    case Pointer(inner, nullable) =>
      TokensAreCore(inner);
      Joined(StarTokens(nullable), TokenCore(inner), errs);
    case Slice(elem) =>
      TokensAreCore(elem);
      Joined([LBracket, RBracket], TokenCore(elem), errs);
    case Array(length, elem) =>
      TokensAreCore(elem);
      Joined([LBracket, Integer(if length >= 0 then length else 0, None), RBracket], TokenCore(elem), errs);
    case Fn(params, ret, fallible) =>
      TokensAreCore(ret);
      assert SpineFlags(r)[1..] == SpineFlags(ret);
      var head, inside := [Fun, LParen] + TokenList(params) + [RParen], Errs(CountTrue(SpineFlags(ret)));
      Joined(head, TokenCore(ret), inside);
      if fallible {
        ErrsLast(CountTrue(SpineFlags(r)));
        Joined(head + TokenCore(ret), inside, [Err]);
      }
    case Generic(_, _) =>
  }

  // ----- the type the parser reads back ----------------------------------------------------------------

  /** The last k functions of the right spine are fallible, the others not; the same inside. */
  function GiveLast(r: TypeRef, k: nat): TypeRef
    decreases r, 0
  {
    match r
    case Named(_) => r
    case Pointer(inner, nullable) => Pointer(GiveLast(inner, k), nullable)
    case Slice(elem) => Slice(GiveLast(elem, k))
    case Array(length, elem) => Array(length, GiveLast(elem, k))
    case Fn(params, ret, _) =>
      var m := |SpineFlags(ret)|;
      Fn(SettleList(params), GiveLast(ret, if k > m then m else k), k > m)
    case Generic(base, args) => Generic(base, SettleList(args))
  }

  function Settle(r: TypeRef): TypeRef
    decreases r, 1
  {
    GiveLast(r, CountTrue(SpineFlags(r)))
  }

  function SettleList(rs: seq<TypeRef>): seq<TypeRef> {
    if rs == [] then [] else [Settle(rs[0])] + SettleList(rs[1..])
  }

  /** What may follow: no qualification, no arguments, and no `err` unless every function has one. */
  predicate Follow(rest: seq<Token>, full: bool) {
    rest == [] || (rest[0] != Dot && rest[0] != LBracket && (rest[0] == Err ==> full))
  }

  lemma PointerStep(nullable: bool, tail: seq<Token>)
    ensures ReadType(StarTokens(nullable) + tail) == WithInner(ReadType(tail), nullable)
  {
    var ts := StarTokens(nullable) + tail;
    assert ts[|StarTokens(nullable)|..] == tail;
  }

  lemma SliceStep(tail: seq<Token>)
    ensures ReadType([LBracket, RBracket] + tail) == if ReadType(tail).Read?
        then Read(Slice(ReadType(tail).ref), ReadType(tail).rest) else Rejected
  {
    var ts := [LBracket, RBracket] + tail;
    assert ts[1..] == [RBracket] + tail && ts[1..][1..] == tail;
  }

  lemma ArrayStep(n: nat, tail: seq<Token>)
    ensures ReadType([LBracket, Integer(n, None), RBracket] + tail)
         == if ReadType(tail).Read? then Read(Array(n, ReadType(tail).ref), ReadType(tail).rest) else Rejected
  {
    var ts := [LBracket, Integer(n, None), RBracket] + tail;
    assert ts[1..] == [Integer(n, None), RBracket] + tail && ts[1..][2..] == tail && ts[1..][1..][0] == RBracket;
  }

  lemma FnStep(tail: seq<Token>)
    ensures ReadType([Fun, LParen] + tail) == ReadFn(tail)
  {
    var ts := [Fun, LParen] + tail;
    assert ts[1..] == [LParen] + tail && ts[2..] == tail;
  }

  lemma {:induction false} ReadTokens(r: TypeRef, k: nat, rest: seq<Token>)
    requires Surface(r) && k <= |SpineFlags(r)| && Follow(rest, k == |SpineFlags(r)|)
    ensures ReadType(TokenCore(r) + Errs(k) + rest) == Read(GiveLast(r, k), rest)
    decreases r, 1
  {
    hide ReadType, Tokens, TokenList, SurfaceName, NameTokens, StarTokens;
    var ts := TokenCore(r) + Errs(k) + rest;
    match r
    case Named(name) =>
      assert ts == NameTokens(name) + rest;
      ReadName(name, rest);
    case Pointer(inner, nullable) =>
      ReadTokens(inner, k, rest);
      PointerStep(nullable, TokenCore(inner) + Errs(k) + rest);
      assert ts == StarTokens(nullable) + (TokenCore(inner) + Errs(k) + rest);
    case Slice(elem) =>
      ReadTokens(elem, k, rest);
      SliceStep(TokenCore(elem) + Errs(k) + rest);
      assert ts == [LBracket, RBracket] + (TokenCore(elem) + Errs(k) + rest);
    case Array(length, elem) =>
      ReadTokens(elem, k, rest);
      ArrayStep(length, TokenCore(elem) + Errs(k) + rest);
      assert ts == [LBracket, Integer(length, None), RBracket] + (TokenCore(elem) + Errs(k) + rest);
    case Fn(params, ret, fallible) =>
      ReadFnTokens(r, k, rest);
    case Generic(base, args) =>
      TokensOfName(base.name);
      assert ts == NameTokens(base.name) + [LBracket] + TokenList(args) + [RBracket] + rest;
      ReadGeneric(base.name, args, rest);
  }

  lemma TokensOfName(name: string)
    ensures Tokens(Named(name)) == NameTokens(name)
  {
  }

  lemma ReadName(name: string, more: seq<Token>)
    requires !Starts(more, Dot)
    ensures ReadType(NameTokens(name) + more) == ReadArguments(name, more)
  {
    hide ReadArguments, ReadFn, ReadSequence;
    var i, ts := DotAt(name), NameTokens(name) + more;
    if i == |name| {
      assert ts[0] == Ident(name) && ts[1..] == more;
    } else {
      assert ts[0] == Ident(name[..i]) && ts[1..] == [Dot, Ident(name[i + 1..])] + more;
      assert ts[1..][1] == Ident(name[i + 1..]) && ts[1..][2..] == more;
      assert name == name[..i] + "." + name[i + 1..];
      assert ReadNominal(name[..i], ts[1..]) == ReadArguments(name, more);
    }
  }

  /** The innermost functions take the suffixes; what is left belongs to the outermost one. */
  lemma FnTokens(r: TypeRef, k: nat, rest: seq<Token>)
    requires r.Fn? && k <= |SpineFlags(r)|
    ensures var m := |SpineFlags(r.ret)|;
            var inside, after := if k > m then m else k, if k > m then [Err] + rest else rest;
            var tail := TokenCore(r.ret) + Errs(inside) + after;
            TokenCore(r) + Errs(k) + rest == [Fun, LParen] + (TokenList(r.params) + [RParen] + tail)
  {
    hide TokenList;
    var m := |SpineFlags(r.ret)|;
    var head, core := [Fun, LParen] + TokenList(r.params) + [RParen], TokenCore(r.ret);
    if k > m {
      ErrsLast(k);
      Joined(head + core + Errs(m), [Err], rest);
      Joined(head + core, Errs(m), [Err]);
    }
    var inside, after := if k > m then m else k, if k > m then [Err] + rest else rest;
    Joined(head, core, Errs(inside));
    Joined(head, core + Errs(inside), after);
    Joined([Fun, LParen], TokenList(r.params) + [RParen], core + Errs(inside) + after);
    Joined([Fun, LParen], TokenList(r.params), [RParen]);
  }

  lemma {:induction false} ReadFnTokens(r: TypeRef, k: nat, rest: seq<Token>)
    requires r.Fn? && Surface(r) && k <= |SpineFlags(r)| && Follow(rest, k == |SpineFlags(r)|)
    ensures ReadType(TokenCore(r) + Errs(k) + rest) == Read(GiveLast(r, k), rest)
    decreases r, 0
  {
    hide ReadType, ReadTypes, TokenList, SettleList, SurfaceName, TokenCore, Errs;
    var params, ret := r.params, r.ret;
    var m := |SpineFlags(ret)|;
    var inside, after := if k > m then m else k, if k > m then [Err] + rest else rest;
    var tail := TokenCore(ret) + Errs(inside) + after;
    FnTokens(r, k, rest);
    FnStep(TokenList(params) + [RParen] + tail);
    ReadListTokens(params, RParen, tail);
    assert ([RParen] + tail)[1..] == tail;
    ReadTokens(ret, inside, after);
    assert k > m ==> after[1..] == rest;
  }

  lemma {:induction false} ReadGeneric(name: string, args: seq<TypeRef>, rest: seq<Token>)
    requires forall a :: a in args ==> Surface(a)
    ensures ReadType(NameTokens(name) + [LBracket] + TokenList(args) + [RBracket] + rest)
         == Read(Generic(Named(name), SettleList(args)), rest)
    decreases args, 2
  {
    hide ReadTypes, TokenList, SettleList, NameTokens, ReadType, Surface;
    var more := TokenList(args) + [RBracket] + rest;
    assert NameTokens(name) + [LBracket] + TokenList(args) + [RBracket] + rest == NameTokens(name) +
        ([LBracket] + more);
    ReadName(name, [LBracket] + more);
    ReadListTokens(args, RBracket, rest);
    assert ([LBracket] + more)[1..] == more && ([RBracket] + rest)[1..] == rest;
  }

  lemma {:induction false} FirstToken(r: TypeRef)
    ensures Tokens(r) != [] && Tokens(r)[0] != RParen && Tokens(r)[0] != RBracket
  {
    if r.Generic? {
      FirstToken(r.base);
    }
  }

  lemma {:induction false} ReadListTokens(rs: seq<TypeRef>, end: Token, rest: seq<Token>)
    requires (forall r :: r in rs ==> Surface(r)) && (end == RParen || end == RBracket)
    ensures ReadTypes(TokenList(rs) + [end] + rest, end) == ReadList(SettleList(rs), [end] + rest)
    decreases rs, 1
  {
    if rs == [] {
      assert TokenList(rs) + [end] + rest == [end] + rest;
    } else {
      FirstToken(rs[0]);
      ReadItemTokens(rs, end, rest);
    }
  }

  lemma FirstOfList(rs: seq<TypeRef>)
    requires rs != []
    ensures TokenList(rs) != [] && TokenList(rs)[0] != RParen && TokenList(rs)[0] != RBracket
  {
    FirstToken(rs[0]);
  }

  /** The first item of a list and what the loop does after it. */
  lemma FirstItem(rs: seq<TypeRef>, end: Token, rest: seq<Token>)
    requires |rs| > 1
    ensures var more := TokenList(rs[1..]) + [end] + rest; var k := CountTrue(SpineFlags(rs[0]));
            TokenList(rs) + [end] + rest == TokenCore(rs[0]) + Errs(k) + ([Comma] + more) &&
                ([Comma] + more)[1..] == more
  {
    hide Tokens, TokenCore, Errs;
    TokensAreCore(rs[0]);
    Regroup(Tokens(rs[0]), TokenList(rs[1..]), [end], rest);
  }

  lemma Regroup(a: seq<Token>, list: seq<Token>, end: seq<Token>, rest: seq<Token>)
    ensures a + [Comma] + list + end + rest == a + ([Comma] + (list + end + rest))
    ensures ([Comma] + (list + end + rest))[1..] == list + end + rest
  {
  }

  lemma {:induction false} ReadItemTokens(rs: seq<TypeRef>, end: Token, rest: seq<Token>)
    requires rs != [] && (forall r :: r in rs ==> Surface(r)) && (end == RParen || end == RBracket)
    ensures ReadItems(TokenList(rs) + [end] + rest, end) == ReadList(SettleList(rs), [end] + rest)
    decreases rs, 0
  {
    hide ReadType, ReadItems, Tokens, TokenCore, Errs, Surface;
    var ts := TokenList(rs) + [end] + rest;
    var k := CountTrue(SpineFlags(rs[0]));
    ItemUnfold(ts, end);
    if |rs| == 1 {
      TokensAreCore(rs[0]);
      assert ts == TokenCore(rs[0]) + Errs(k) + ([end] + rest);
      ReadTokens(rs[0], k, [end] + rest);
    } else {
      hide TokenList;
      var more := TokenList(rs[1..]) + [end] + rest;
      FirstItem(rs, end, rest);
      ReadTokens(rs[0], k, [Comma] + more);
      FirstOfList(rs[1..]);
      assert more[0] == TokenList(rs[1..])[0];
      ReadItemTokens(rs[1..], end, rest);
    }
  }

  /** A comma behind the last item changes nothing. */
  lemma {:induction false} TrailingComma(rs: seq<TypeRef>, end: Token, rest: seq<Token>)
    requires rs != [] && (forall r :: r in rs ==> Surface(r)) && (end == RParen || end == RBracket)
    ensures ReadTypes(TokenList(rs) + [Comma, end] + rest, end) == ReadTypes(TokenList(rs) + [end] + rest, end)
  {
    FirstOfList(rs);
    ItemsThenComma(rs, end, rest);
    ReadItemTokens(rs, end, rest);
    hide ReadItems, TokenList;
    assert (TokenList(rs) + [Comma, end] + rest)[0] == TokenList(rs)[0] == (TokenList(rs) + [end] + rest)[0];
  }

  lemma {:induction false} ItemsThenComma(rs: seq<TypeRef>, end: Token, rest: seq<Token>)
    requires rs != [] && (forall r :: r in rs ==> Surface(r)) && (end == RParen || end == RBracket)
    ensures ReadItems(TokenList(rs) + [Comma, end] + rest, end) == ReadList(SettleList(rs), [end] + rest)
    decreases rs
  {
    hide ReadType, ReadItems, Tokens, TokenCore, Errs, Surface;
    var ts := TokenList(rs) + [Comma, end] + rest;
    var k := CountTrue(SpineFlags(rs[0]));
    ItemUnfold(ts, end);
    TokensAreCore(rs[0]);
    if |rs| == 1 {
      var after := [Comma, end] + rest;
      assert ts == TokenCore(rs[0]) + Errs(k) + after && after[1..] == [end] + rest;
      ReadTokens(rs[0], k, after);
    } else {
      var more := TokenList(rs[1..]) + [Comma, end] + rest;
      FirstOfList(rs[1..]);
      hide TokenList;
      RegroupComma(Tokens(rs[0]), TokenList(rs[1..]), end, rest);
      assert ts == TokenCore(rs[0]) + Errs(k) + ([Comma] + more) && ([Comma] + more)[1..] == more;
      ReadTokens(rs[0], k, [Comma] + more);
      ItemsThenComma(rs[1..], end, rest);
      assert more[0] == TokenList(rs[1..])[0];
    }
  }

  lemma RegroupComma(a: seq<Token>, list: seq<Token>, end: Token, rest: seq<Token>)
    ensures a + [Comma] + list + [Comma, end] + rest == a + ([Comma] + (list + [Comma, end] + rest))
    ensures ([Comma] + (list + [Comma, end] + rest))[1..] == list + [Comma, end] + rest
  {
  }

  lemma ItemUnfold(ts: seq<Token>, end: Token)
    ensures var first := ReadType(ts);
            ReadItems(ts, end) ==
            if first.Rejected? then ListRejected
            else if !Starts(first.rest, Comma) then ReadList([first.ref], first.rest)
            else if Starts(first.rest[1..], end) then ReadList([first.ref], first.rest[1..])
            else Prepend([first.ref], ReadItems(first.rest[1..], end))
  {
  }

  // ----- exactly which types survive --------------------------------------------------------------------

  ghost predicate FalsesFirst(flags: seq<bool>) {
    forall i, j :: 0 <= i < j < |flags| && flags[i] ==> flags[j]
  }

  /** On every right spine the fallible functions come last. */
  ghost predicate SurfaceFlagged(r: TypeRef)
    decreases r, 1
  {
    FalsesFirst(SpineFlags(r)) && SurfaceInside(r)
  }

  ghost predicate SurfaceInside(r: TypeRef)
    decreases r, 0
  {
    match r
    case Named(_) => true
    case Pointer(inner, _) => SurfaceInside(inner)
    case Slice(elem) => SurfaceInside(elem)
    case Array(_, elem) => SurfaceInside(elem)
    case Fn(params, ret, _) => (forall p :: p in params ==> SurfaceFlagged(p)) && SurfaceInside(ret)
    case Generic(_, args) => forall a :: a in args ==> SurfaceFlagged(a)
  }

  /** The flags of a spine on which exactly the last k functions are fallible. */
  ghost predicate LastOnly(flags: seq<bool>, k: nat) {
    forall i :: 0 <= i < |flags| ==> (flags[i] <==> i >= |flags| - k)
  }

  lemma {:induction false} LastOnlyCount(flags: seq<bool>, k: nat)
    requires k <= |flags| && LastOnly(flags, k)
    ensures CountTrue(flags) == k && FalsesFirst(flags)
  {
    if flags != [] {
      assert forall i :: 0 <= i < |flags| - 1 ==> flags[1..][i] == flags[i + 1];
      LastOnlyCount(flags[1..], if k == |flags| then k - 1 else k);
    }
  }

  lemma {:induction false} FalsesFirstIsLast(flags: seq<bool>)
    ensures FalsesFirst(flags) <==> LastOnly(flags, CountTrue(flags))
  {
    if FalsesFirst(flags) {
      if flags != [] {
        assert forall i :: 0 <= i < |flags| - 1 ==> flags[1..][i] == flags[i + 1];
        FalsesFirstIsLast(flags[1..]);
        if flags[0] {
          AllTrue(flags);
        }
      }
    } else if LastOnly(flags, CountTrue(flags)) {
      LastOnlyCount(flags, CountTrue(flags));
    }
  }

  lemma {:induction false} AllTrue(flags: seq<bool>)
    requires forall i :: 0 <= i < |flags| ==> flags[i]
    ensures CountTrue(flags) == |flags|
  {
    if flags != [] {
      AllTrue(flags[1..]);
    }
  }

  lemma {:induction false} GiveLastFixed(r: TypeRef, k: nat)
    requires k <= |SpineFlags(r)|
    ensures GiveLast(r, k) == r <==> SurfaceInside(r) && LastOnly(SpineFlags(r), k)
    decreases r, 0
  {
    match r
    case Named(_) =>
    case Pointer(inner, _) => GiveLastFixed(inner, k);
    case Slice(elem) => GiveLastFixed(elem, k);
    case Array(_, elem) => GiveLastFixed(elem, k);
    case Fn(params, ret, fallible) =>
      var m := |SpineFlags(ret)|;
      SettleListFixed(params);
      GiveLastFixed(ret, if k > m then m else k);
      LastOnlySplit(fallible, SpineFlags(ret), k);
    case Generic(_, args) => SettleListFixed(args);
  }

  lemma LastOnlySplit(first: bool, flags: seq<bool>, k: nat)
    requires k <= |flags| + 1
    ensures LastOnly([first] + flags, k) <==>
        (first <==> k > |flags|) && LastOnly(flags, if k > |flags| then |flags| else k)
  {
    var all := [first] + flags;
    assert forall i :: 0 <= i < |flags| ==> flags[i] == all[i + 1];
    assert all[0] == first;
  }

  lemma {:induction false} SettleListFixed(rs: seq<TypeRef>)
    ensures SettleList(rs) == rs <==> forall r :: r in rs ==> SurfaceFlagged(r)
    decreases rs
  {
    if rs != [] {
      GiveLastFixed(rs[0], CountTrue(SpineFlags(rs[0])));
      FalsesFirstIsLast(SpineFlags(rs[0]));
      assert Settle(rs[0]) == rs[0] <==> SurfaceFlagged(rs[0]);
      SettleListFixed(rs[1..]);
      assert rs == [rs[0]] + rs[1..];
      assert SettleList(rs)[0] == Settle(rs[0]) && SettleList(rs)[1..] == SettleList(rs[1..]);
      if SettleList(rs) == rs {
        forall r | r in rs
          ensures SurfaceFlagged(r)
        {
          assert r == rs[0] || r in rs[1..];
        }
      }
    }
  }

  lemma SettleFixed(r: TypeRef)
    ensures Settle(r) == r <==> SurfaceFlagged(r)
  {
    GiveLastFixed(r, CountTrue(SpineFlags(r)));
    FalsesFirstIsLast(SpineFlags(r));
  }

  /** The parser's answer on a printed type, whatever follows it. */
  lemma TokenRoundTrip(r: TypeRef, rest: seq<Token>)
    requires Surface(r) && (rest != [] ==> rest[0] != Err && rest[0] != Dot && rest[0] != LBracket)
    ensures ReadType(Tokens(r) + rest) == Read(Settle(r), rest)
    ensures ReadType(Tokens(r) + rest) == Read(r, rest) <==> SurfaceFlagged(r)
  {
    TokensAreCore(r);
    ReadTokens(r, CountTrue(SpineFlags(r)), rest);
    SettleFixed(r);
  }
}
