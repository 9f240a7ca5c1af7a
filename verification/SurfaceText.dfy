/**
 From characters to types: the part of the lexer (compiler/lexer.py) that a written type exercises,
 and the round trip through it.  Lex answers None for text whose tokens no type contains.
 */
module SurfaceText {
  import opened Prelude
  import opened TypeRefs
  import opened TypeTokens
  import opened SurfaceTypes

  predicate Blank(c: char) {
    c == ' ' || c == '\t' || c == '\n' || c == '\r'
  }

  /** Length of the longest prefix of word characters. */
  function WordRun(s: string): (n: nat)
    ensures n <= |s|
  {
    if s != "" && WordChar(s[0]) then 1 + WordRun(s[1..]) else 0
  }

  function DigitRun(s: string): (n: nat)
    ensures n <= |s|
  {
    if s != "" && Digit(s[0]) then 1 + DigitRun(s[1..]) else 0
  }

  function DigitsValue(s: string, acc: nat): nat
    requires forall i :: 0 <= i < |s| ==> Digit(s[i])
  {
    if s == "" then acc else assert Digit(s[0]); DigitsValue(s[1..], 10 * acc + (s[0] as int - '0' as int))
  }

  lemma {:induction false} DigitRunDigits(s: string)
    ensures forall i :: 0 <= i < DigitRun(s) ==> Digit(s[i])
  {
    if s != "" && Digit(s[0]) {
      DigitRunDigits(s[1..]);
    }
  }

  const SUFFIXES := {"i8", "i16", "i32", "i64", "u8", "u16", "u32", "u64"}

  function WordToken(w: string): Token {
    if w == "fun" then Fun else if w == "err" then Err else if w in KEYWORDS then Other(w) else Ident(w)
  }

  /** Single-character symbols; `next` is the rest of the text. */
  function SymbolToken(c: char, next: string): Option<Token> {
    if c == '(' then Some(LParen) else if c == ')' then Some(RParen)
    else if c == '[' then Some(LBracket) else if c == ']' then Some(RBracket)
    else if c == ',' then Some(Comma)
    else if c == '?' then if next != "" && next[0] == '?' then None else Some(Question)
    else if c == '*' then if next != "" && next[0] == '=' then None else Some(Star)
    else if c == '.' then if next != "" && next[0] == '.' then None else Some(Dot)
    else None
  }

  function Before(t: Token, ts: Option<seq<Token>>): Option<seq<Token>> {
    if ts.Some? then Some([t] + ts.value) else None
  }

  function Lex(s: string): Option<seq<Token>>
    decreases |s|
  {
    if s == "" then Some([Eof])
    else if Blank(s[0]) then Lex(s[1..])
    else if Digit(s[0]) then
      var n := DigitRun(s);
      DigitRunDigits(s);
      var value, rest := DigitsValue(s[..n], 0), s[n..];
      if rest != "" && rest[0] == '.' && !(|rest| > 1 && rest[1] == '.') then None
      else
        var m := WordRun(rest);
        if m == 0 then Before(Integer(value, None), Lex(rest))
        else if rest[..m] in SUFFIXES then Before(Integer(value, Some(rest[..m])), Lex(rest[m..]))
        else None
    else if Letter(s[0]) then
      var n := WordRun(s);
      Before(WordToken(s[..n]), Lex(s[n..]))
    else
      var t := SymbolToken(s[0], s[1..]);
      if t.Some? then Before(t.value, Lex(s[1..])) else None
  }

  // ----- lexing printed types ---------------------------------------------------------------------------

  function Ahead(ts: seq<Token>, more: Option<seq<Token>>): Option<seq<Token>> {
    if more.Some? then Some(ts + more.value) else None
  }

  lemma AheadThen(a: seq<Token>, b: seq<Token>, more: Option<seq<Token>>)
    ensures Ahead(a, Ahead(b, more)) == Ahead(a + b, more)
  {
    if more.Some? {
      assert a + (b + more.value) == (a + b) + more.value;
    }
  }

  /** A word ends here. */
  predicate Apart(tail: string) {
    tail == "" || !WordChar(tail[0])
  }

  lemma {:induction false} RunOver(w: string, tail: string)
    requires (forall i :: 0 <= i < |w| ==> WordChar(w[i])) && Apart(tail)
    ensures WordRun(w + tail) == |w|
  {
    if w == "" {
      assert w + tail == tail;
    } else {
      assert (w + tail)[1..] == w[1..] + tail;
      RunOver(w[1..], tail);
    }
  }

  lemma LexWord(w: string, tail: string)
    requires w != "" && Letter(w[0]) && (forall i :: 0 <= i < |w| ==> WordChar(w[i])) && Apart(tail)
    ensures Lex(w + tail) == Ahead([WordToken(w)], Lex(tail))
  {
    RunOver(w, tail);
    var s := w + tail;
    assert s[0] == w[0] && s[..|w|] == w && s[|w|..] == tail;
  }

  lemma LexSymbol(c: char, tail: string)
    requires SymbolToken(c, tail).Some?
    ensures Lex([c] + tail) == Ahead([SymbolToken(c, tail).value], Lex(tail))
  {
    assert ([c] + tail)[1..] == tail;
  }

  lemma LexIdent(w: string, tail: string)
    requires Word(w) && Apart(tail)
    ensures Lex(w + tail) == Ahead([Ident(w)], Lex(tail))
  {
    hide Lex;
    LexWord(w, tail);
  }

  lemma LexQualified(first: string, second: string, tail: string)
    requires Word(first) && Word(second) && Apart(tail)
    ensures Lex(first + ("." + (second + tail))) == Ahead([Ident(first), Dot, Ident(second)], Lex(tail))
  {
    hide Lex;
    LexIdent(first, "." + (second + tail));
    assert (second + tail)[0] == second[0];
    LexDot(second + tail);
    LexIdent(second, tail);
    hide Word;
    AheadThen([Dot], [Ident(second)], Lex(tail));
    AheadThen([Ident(first)], [Dot, Ident(second)], Lex(tail));
    assert [Dot] + [Ident(second)] == [Dot, Ident(second)];
    assert [Ident(first)] + [Dot, Ident(second)] == [Ident(first), Dot, Ident(second)];
  }

  lemma CutAt(s: string, i: nat)
    requires i < |s|
    ensures s == s[..i] + ([s[i]] + s[i + 1..])
  {
  }

  lemma AtDot(name: string, tail: string)
    requires DotAt(name) < |name|
    ensures name + tail == name[..DotAt(name)] + ("." + (name[DotAt(name) + 1..] + tail))
  {
    hide DotAt;
    var i := DotAt(name);
    CutAt(name, i);
    Assoc(name[..i], [name[i]] + name[i + 1..], tail);
    Assoc([name[i]], name[i + 1..], tail);
    assert [name[i]] == ".";
  }

  lemma LexName(name: string, tail: string)
    requires SurfaceName(name) && Apart(tail)
    ensures Lex(name + tail) == Ahead(NameTokens(name), Lex(tail))
  {
    hide Lex, Word, DotAt;
    var i := DotAt(name);
    if i == |name| {
      assert name[..i] == name;
      LexIdent(name, tail);
    } else {
      AtDot(name, tail);
      LexQualified(name[..i], name[i + 1..], tail);
    }
  }

  lemma LexDot(tail: string)
    requires tail != "" && Letter(tail[0])
    ensures Lex("." + tail) == Ahead([Dot], Lex(tail))
  {
    hide Lex;
    LexSymbol('.', tail);
  }

  lemma LexOneStar(tail: string)
    requires tail != "" && tail[0] != '='
    ensures Lex("*" + tail) == Ahead([Star], Lex(tail))
  {
    hide Lex;
    LexSymbol('*', tail);
  }

  lemma LexQuestion(tail: string)
    requires tail != "" && tail[0] != '?'
    ensures Lex("?" + tail) == Ahead([Question], Lex(tail))
  {
    hide Lex;
    LexSymbol('?', tail);
  }

  lemma LexStar(nullable: bool, tail: string)
    requires tail != "" && tail[0] != '='
    ensures Lex(StarText(nullable) + tail) == Ahead(StarTokens(nullable), Lex(tail))
  {
    hide Lex;
    LexOneStar(tail);
    if nullable {
      LexQuestion("*" + tail);
      assert "?*" + tail == "?" + ("*" + tail);
      assert [Question] + [Star] == [Question, Star];
      AheadThen([Question], [Star], Lex(tail));
    }
  }

  lemma {:induction false} DigitsBack(n: nat, rest: string)
    requires forall i :: 0 <= i < |rest| ==> Digit(rest[i])
    ensures forall i :: 0 <= i < |Digits(n) + rest| ==> Digit((Digits(n) + rest)[i])
    ensures Digits(n) != "" && DigitsValue(Digits(n) + rest, 0) == DigitsValue(rest, n)
    decreases n
  {
    var d := [('0' as int + n % 10) as char];
    assert (d + rest)[1..] == rest;
    if n >= 10 {
      assert Digits(n) + rest == Digits(n / 10) + (d + rest);
      DigitsBack(n / 10, d + rest);
    }
  }

  lemma {:induction false} DigitsOver(w: string, tail: string)
    requires (forall i :: 0 <= i < |w| ==> Digit(w[i])) && (tail == "" || !Digit(tail[0]))
    ensures DigitRun(w + tail) == |w|
  {
    if w == "" {
      assert w + tail == tail;
    } else {
      assert (w + tail)[1..] == w[1..] + tail;
      DigitsOver(w[1..], tail);
    }
  }

  /** `[n]` and `[]`. */
  lemma LexLength(n: nat, tail: string)
    ensures Lex("[" + Digits(n) + "]" + tail) == Ahead([LBracket, Integer(n, None), RBracket], Lex(tail))
  {
    var w, rest := Digits(n), "]" + tail;
    DigitsBack(n, "");
    assert w + "" == w;
    DigitsOver(w, rest);
    var s := w + rest;
    assert s[0] == w[0] && s[..|w|] == w && s[|w|..] == rest;
    assert Lex(s) == Before(Integer(n, None), Lex(rest));
    assert "[" + w + "]" + tail == ['['] + s && rest == [']'] + tail;
    LexSymbol('[', s);
    LexSymbol(']', tail);
    AheadThen([Integer(n, None)], [RBracket], Lex(tail));
    AheadThen([LBracket], [Integer(n, None), RBracket], Lex(tail));
    assert [Integer(n, None)] + [RBracket] == [Integer(n, None), RBracket];
    assert [LBracket] + [Integer(n, None), RBracket] == [LBracket, Integer(n, None), RBracket];
  }

  lemma {:induction false} UserStart(r: TypeRef)
    requires Surface(r)
    ensures FormatUser(r) != "" && FormatUser(r)[0] != '='
  {
    if r.Generic? {
      UserStart(r.base);
    }
  }

  lemma LexBlank(tail: string)
    ensures Lex(" " + tail) == Lex(tail)
  {
    assert (" " + tail)[1..] == tail;
  }

  /** Lexing a printed type in front of anything that does not continue its last word. */
  lemma {:induction false} LexType(r: TypeRef, tail: string)
    requires Surface(r) && Apart(tail)
    ensures Lex(FormatUser(r) + tail) == Ahead(Tokens(r), Lex(tail))
    decreases r, 1
  {
    hide Lex, SurfaceName, NameTokens, StarTokens, Digits;
    match r
    case Named(name) => LexName(name, tail);
    case Pointer(inner, nullable) =>
      UserStart(inner);
      Assoc(StarText(nullable), FormatUser(inner), tail);
      assert (FormatUser(inner) + tail)[0] == FormatUser(inner)[0];
      LexStar(nullable, FormatUser(inner) + tail);
      LexType(inner, tail);
      AheadThen(StarTokens(nullable), Tokens(inner), Lex(tail));
    case Slice(elem) =>
      Assoc("[]", FormatUser(elem), tail);
      LexPair(FormatUser(elem) + tail);
      LexType(elem, tail);
      AheadThen([LBracket, RBracket], Tokens(elem), Lex(tail));
    case Array(length, elem) =>
      Assoc("[" + Digits(length) + "]", FormatUser(elem), tail);
      LexLength(length, FormatUser(elem) + tail);
      LexType(elem, tail);
      AheadThen([LBracket, Integer(length, None), RBracket], Tokens(elem), Lex(tail));
    case Fn(params, ret, fallible) => LexFn(r, tail);
    case Generic(base, args) => LexGeneric(r, tail);
  }

  lemma LexPair(tail: string)
    ensures Lex("[]" + tail) == Ahead([LBracket, RBracket], Lex(tail))
  {
    hide Lex;
    assert "[]" + tail == ['['] + ([']'] + tail);
    LexSymbol('[', [']'] + tail);
    LexSymbol(']', tail);
    AheadThen([LBracket], [RBracket], Lex(tail));
    assert [LBracket] + [RBracket] == [LBracket, RBracket];
  }

  lemma {:induction false} LexGeneric(r: TypeRef, tail: string)
    requires r.Generic? && Surface(r)
    ensures Lex(FormatUser(r) + tail) == Ahead(Tokens(r), Lex(tail))
    decreases r, 0
  {
    hide Lex, SurfaceName, NameTokens, Surface, FormatUserList, TokenList;
    NameOfBase(r);
    var name, list, ts := r.base.name, FormatUserList(r.args, ","), TokenList(r.args);
    var s1, s2 := [']'] + tail, list + ([']'] + tail);
    assert FormatUser(r) + tail == name + (['['] + s2);
    LexName(name, ['['] + s2);
    LexSymbol('[', s2);
    LexList(r.args, ",", s1);
    LexSymbol(']', tail);
    AheadThen(ts, [RBracket], Lex(tail));
    AheadThen([LBracket], ts + [RBracket], Lex(tail));
    AheadThen(NameTokens(name), [LBracket] + (ts + [RBracket]), Lex(tail));
    assert Tokens(r) == NameTokens(name) + ([LBracket] + (ts + [RBracket]));
  }

  lemma NameOfBase(r: TypeRef)
    requires r.Generic? && Surface(r)
    ensures r.base.Named? && SurfaceName(r.base.name) && Tokens(r.base) == NameTokens(r.base.name) &&
        forall a :: a in r.args ==> Surface(a)
  {
  }

  lemma LexErr(fallible: bool, tail: string)
    requires Apart(tail)
    ensures Lex((if fallible then " err" else "") + tail) == Ahead(if fallible then [Err] else [], Lex(tail))
  {
    hide Lex;
    if fallible {
      assert " err" + tail == " " + ("err" + tail);
      LexBlank("err" + tail);
      LexWord("err", tail);
    } else {
      assert "" + tail == tail;
      assert Lex(tail).Some? ==> [] + Lex(tail).value == Lex(tail).value;
    }
  }

  lemma {:induction false} LexFn(r: TypeRef, tail: string)
    requires r.Fn? && Surface(r) && Apart(tail)
    ensures Lex(FormatUser(r) + tail) == Ahead(Tokens(r), Lex(tail))
    decreases r, 0
  {
    hide Lex, SurfaceName, FormatUserList, TokenList;
    var list, ts, ret, suffix := FormatUserList(r.params, ", "), TokenList(r.params), FormatUser(r.ret),
        if r.fallible then " err" else "";
    var errs := if r.fallible then [Err] else [];
    var s3 := ret + (suffix + tail);
    var s2 := [')'] + (" " + s3);
    var s1 := ['('] + (list + s2);
    FnUserText(list, ret, suffix, tail);
    LexErr(r.fallible, tail);
    LexType(r.ret, suffix + tail);
    AheadThen(Tokens(r.ret), errs, Lex(tail));
    LexBlank(s3);
    LexSymbol(')', " " + s3);
    AheadThen([RParen], Tokens(r.ret) + errs, Lex(tail));
    LexList(r.params, ", ", s2);
    AheadThen(ts, [RParen] + (Tokens(r.ret) + errs), Lex(tail));
    LexSymbol('(', list + s2);
    AheadThen([LParen], ts + ([RParen] + (Tokens(r.ret) + errs)), Lex(tail));
    LexFun(s1);
    AheadThen([Fun], [LParen] + (ts + ([RParen] + (Tokens(r.ret) + errs))), Lex(tail));
    assert Tokens(r) == [Fun] + ([LParen] + (ts + ([RParen] + (Tokens(r.ret) + errs))));
  }

  lemma LexFun(tail: string)
    requires Apart(tail)
    ensures Lex("fun" + tail) == Ahead([Fun], Lex(tail))
  {
    hide Lex;
    LexWord("fun", tail);
  }

  lemma FnUserText(list: string, ret: string, suffix: string, tail: string)
    ensures "fun(" + list + ") " + ret + suffix + tail == "fun" +
        (['('] + (list + ([')'] + (" " + (ret + (suffix + tail))))))
  {
  }

  lemma {:induction false} LexList(rs: seq<TypeRef>, sep: string, tail: string)
    requires (forall r :: r in rs ==> Surface(r)) && Apart(tail) && (sep == "," || sep == ", ")
    ensures Lex(FormatUserList(rs, sep) + tail) == Ahead(TokenList(rs), Lex(tail))
    decreases rs
  {
    hide Lex, Surface, FormatUser, Tokens;
    if rs == [] {
      assert "" + tail == tail;
      assert Lex(tail).Some? ==> [] + Lex(tail).value == Lex(tail).value;
    } else if |rs| == 1 {
      LexType(rs[0], tail);
    } else {
      var first, more := FormatUser(rs[0]), FormatUserList(rs[1..], sep);
      LexList(rs[1..], sep, tail);
      LexSeparator(sep, more + tail);
      LexType(rs[0], sep + (more + tail));
      assert first + sep + more + tail == first + (sep + (more + tail));
      AheadThen([Comma], TokenList(rs[1..]), Lex(tail));
      AheadThen(Tokens(rs[0]), [Comma] + TokenList(rs[1..]), Lex(tail));
      assert TokenList(rs) == Tokens(rs[0]) + ([Comma] + TokenList(rs[1..]));
    }
  }

  lemma LexSeparator(sep: string, tail: string)
    requires sep == "," || sep == ", "
    ensures Lex(sep + tail) == Ahead([Comma], Lex(tail)) && Apart(sep + tail)
  {
    hide Lex;
    if sep == "," {
      LexSymbol(',', tail);
    } else {
      assert sep + tail == [','] + (" " + tail);
      LexSymbol(',', " " + tail);
      LexBlank(tail);
    }
  }

  // ----- the theorem ------------------------------------------------------------------------------------

  /** Written out, lexed and parsed again, a type comes back exactly if its flags are well placed. */
  lemma SurfaceRoundTrip(r: TypeRef)
    requires Surface(r)
    ensures Lex(FormatUser(r)) == Some(Tokens(r) + [Eof])
    ensures ReadType(Tokens(r) + [Eof]) == Read(Settle(r), [Eof])
    ensures ReadType(Tokens(r) + [Eof]) == Read(r, [Eof]) <==> SurfaceFlagged(r)
  {
    LexType(r, "");
    assert FormatUser(r) + "" == FormatUser(r);
    TokenRoundTrip(r, [Eof]);
  }
}
