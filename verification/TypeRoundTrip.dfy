/**
 Parsing a printed type gives back the type with the ` err` flags of each right spine moved to its
 outermost functions.  So the round trip holds exactly for types whose flags already are that way,
 and two types have the same key exactly when they agree after that move.
 */
module TypeRoundTrip {
  import opened Prelude
  import opened TypeRefs
  import opened TypeStrings

  // ----- how the scanners pass over printed types -----------------------------------------------

  /** The bracket depth after `w`, or None if the group at depth 1 closes inside `w`. */
  function Level(w: string, depth: int, open: char, close: char): Option<int> {
    if w == [] then Some(depth)
    else if w[0] == close && w[0] != open && depth == 1 then None
    else Level(w[1..], Moved(depth, w[0], open, close), open, close)
  }

  function Shift(i: Option<nat>, n: nat): Option<nat> {
    if i.Some? then Some(i.value + n) else None
  }

  lemma {:induction false} ClosingSkips(w: string, rest: string, depth: int, open: char, close: char)
    requires Level(w, depth, open, close).Some?
    ensures Closing(w + rest, depth, open, close) == Shift(Closing(rest, Level(w, depth, open, close).value, open,
        close), |w|)
  {
    if w == [] {
      assert w + rest == rest;
    } else {
      assert (w + rest)[1..] == w[1..] + rest;
      ClosingSkips(w[1..], rest, Moved(depth, w[0], open, close), open, close);
    }
  }

  lemma {:induction false} LevelThen(a: string, b: string, depth: int, depth1: int, open: char, close: char)
    requires Level(a, depth, open, close) == Some(depth1)
    ensures Level(a + b, depth, open, close) == Level(b, depth1, open, close)
  {
    if a == [] {
      assert a + b == b;
    } else {
      assert (a + b)[1..] == a[1..] + b;
      LevelThen(a[1..], b, Moved(depth, a[0], open, close), depth1, open, close);
    }
  }

  /** The depths after `w`, or None if a top-level comma is met. */
  function Skim(w: string, square: int, paren: int): Option<(int, int)> {
    if w == [] then Some((square, paren))
    else if w[0] == ',' && square == 0 && paren == 0 then None
    else Skim(w[1..], Moved(square, w[0], '[', ']'), Moved(paren, w[0], '(', ')'))
  }

  lemma {:induction false} SplitSkims(w: string, rest: string, square: int, paren: int, piece: string)
    requires Skim(w, square, paren).Some?
    ensures var (q, p) := Skim(w, square, paren).value;
            Split(w + rest, ',', square, paren, piece) == Split(rest, ',', q, p, piece + w)
  {
    if w == [] {
      assert w + rest == rest && piece + w == piece;
    } else {
      assert (w + rest)[1..] == w[1..] + rest && piece + [w[0]] + w[1..] == piece + w;
      SplitSkims(w[1..], rest, Moved(square, w[0], '[', ']'), Moved(paren, w[0], '(', ')'), piece + [w[0]]);
    }
  }

  lemma {:induction false} SkimThen(a: string, b: string, square: int, paren: int, square1: int, paren1: int)
    requires Skim(a, square, paren) == Some((square1, paren1))
    ensures Skim(a + b, square, paren) == Skim(b, square1, paren1)
  {
    if a == [] {
      assert a + b == b;
    } else {
      assert (a + b)[1..] == a[1..] + b;
      SkimThen(a[1..], b, Moved(square, a[0], '[', ']'), Moved(paren, a[0], '(', ')'), square1, paren1);
    }
  }

  /** No brackets and no commas. */
  predicate Quiet(w: string) {
    forall i :: 0 <= i < |w| ==> !Bracket(w[i]) && w[i] != ','
  }

  lemma {:induction false} QuietPassed(w: string, depth: int, square: int, paren: int)
    requires Quiet(w)
    ensures Level(w, depth, '(', ')') == Level(w, depth, '[', ']') == Some(depth)
    ensures Skim(w, square, paren) == Some((square, paren))
  {
    if w != [] {
      QuietPassed(w[1..], depth, square, paren);
    }
  }

  lemma {:induction false} DigitsPlain(n: nat)
    ensures Digits(n) != "" && forall i :: 0 <= i < |Digits(n)| ==> IsDigit(Digits(n)[i])
  {
    if n >= 10 {
      DigitsPlain(n / 10);
    }
  }

  lemma DecimalPlain(n: int)
    ensures Plain(Decimal(n)) && Decimal(n) != ""
  {
    DigitsPlain(if n >= 0 then n else -n);
  }

  predicate BracketPair(open: char, close: char) {
    (open == '(' && close == ')') || (open == '[' && close == ']')
  }

  /** Inside a group a printed type never closes it and leaves the depth as it was. */
  lemma {:induction false} FormatLevel(r: TypeRef, depth: int, open: char, close: char)
    requires Clean(r) && depth >= 1 && BracketPair(open, close)
    ensures Level(Format(r), depth, open, close) == Some(depth)
    decreases r
  {
    hide Level;
    match r
    case Named(name) => QuietPassed(name, depth, 0, 0);
    case Pointer(inner, nullable) =>
      QuietPassed(StarText(nullable), depth, 0, 0);
      LevelThen(StarText(nullable), Format(inner), depth, depth, open, close);
      FormatLevel(inner, depth, open, close);
    case Slice(elem) =>
      Pair(depth, open, close);
      LevelThen("[]", Format(elem), depth, depth, open, close);
      FormatLevel(elem, depth, open, close);
    case Array(length, elem) =>
      LengthLevel(length, depth, open, close);
      LevelThen("[" + Decimal(length) + "]", Format(elem), depth, depth, open, close);
      FormatLevel(elem, depth, open, close);
    case Fn(params, ret, fallible) =>
      GroupLevel("fn", '(', ')', params, depth, open, close);
      assert "fn" + ['('] + FormatList(params) + [')'] + "->" == "fn(" + FormatList(params) + ")->";
      QuietPassed("->", depth, 0, 0);
      LevelThen("fn" + ['('] + FormatList(params) + [')'], "->", depth, depth, open, close);
      LevelThen("fn(" + FormatList(params) + ")->", Format(ret), depth, depth, open, close);
      FormatLevel(ret, depth, open, close);
      LevelThen("fn(" + FormatList(params) + ")->" + Format(ret), if fallible then " err"
          else "", depth, depth, open, close);
      QuietPassed(if fallible then " err" else "", depth, 0, 0);
    case Generic(base, args) =>
      GroupLevel(base.name, '[', ']', args, depth, open, close);
      assert base.name + ['['] + FormatList(args) + [']'] == Format(r);
  }

  lemma Pair(depth: int, open: char, close: char)
    requires depth >= 1 && BracketPair(open, close)
    ensures Level("[]", depth, open, close) == Some(depth)
  {
    assert "[]"[1..] == "]" && "]"[1..] == "";
    assert Level("]", Moved(depth, '[', open, close), open, close) == Some(depth);
  }

  lemma LengthLevel(n: int, depth: int, open: char, close: char)
    requires depth >= 1 && BracketPair(open, close)
    ensures Level("[" + Decimal(n) + "]", depth, open, close) == Some(depth)
  {
    DecimalPlain(n);
    var inside := Moved(depth, '[', open, close);
    assert Level("[", depth, open, close) == Some(inside);
    QuietPassed(Decimal(n), inside, 0, 0);
    LevelThen("[", Decimal(n), depth, inside, open, close);
    LevelThen("[" + Decimal(n), "]", depth, inside, open, close);
  }

  /** A quiet prefix and a bracketed list. */
  lemma {:induction false} GroupLevel(prefix: string, o: char, c: char, rs: seq<TypeRef>, depth: int, open: char,
                                      close: char)
    requires Quiet(prefix) && (forall r :: r in rs ==> Clean(r)) && depth >= 1 && BracketPair(open, close) &&
        BracketPair(o, c)
    ensures Level(prefix + [o] + FormatList(rs) + [c], depth, open, close) == Some(depth)
    decreases rs, 1
  {
    QuietPassed(prefix, depth, 0, 0);
    var inside := Moved(depth, o, open, close);
    LevelThen(prefix, [o], depth, depth, open, close);
    ListLevel(rs, inside, open, close);
    LevelThen(prefix + [o], FormatList(rs), depth, inside, open, close);
    LevelThen(prefix + [o] + FormatList(rs), [c], depth, inside, open, close);
  }

  lemma {:induction false} ListLevel(rs: seq<TypeRef>, depth: int, open: char, close: char)
    requires (forall r :: r in rs ==> Clean(r)) && depth >= 1 && BracketPair(open, close)
    ensures Level(FormatList(rs), depth, open, close) == Some(depth)
    decreases rs, 0
  {
    if rs != [] {
      FormatLevel(rs[0], depth, open, close);
      if |rs| > 1 {
        ListLevel(rs[1..], depth, open, close);
        QuietCommaLevel(depth, open, close);
        LevelThen(Format(rs[0]), ",", depth, depth, open, close);
        LevelThen(Format(rs[0]) + ",", FormatList(rs[1..]), depth, depth, open, close);
      }
    }
  }

  lemma QuietCommaLevel(depth: int, open: char, close: char)
    requires BracketPair(open, close)
    ensures Level(",", depth, open, close) == Some(depth)
  {
    assert ","[1..] == "";
  }

  /** No comma of a printed type is outside its brackets. */
  lemma {:induction false} FormatSkims(r: TypeRef, square: int, paren: int)
    requires Clean(r) && square >= 0 && paren >= 0
    ensures Skim(Format(r), square, paren) == Some((square, paren))
    decreases r
  {
    hide Skim;
    match r
    case Named(name) => QuietPassed(name, 1, square, paren);
    case Pointer(inner, nullable) =>
      QuietPassed(StarText(nullable), 1, square, paren);
      SkimThen(StarText(nullable), Format(inner), square, paren, square, paren);
      FormatSkims(inner, square, paren);
    case Slice(elem) =>
      LengthSkims("", square, paren);
      assert "[" + "" + "]" == "[]";
      SkimThen("[]", Format(elem), square, paren, square, paren);
      FormatSkims(elem, square, paren);
    case Array(length, elem) =>
      DecimalPlain(length);
      LengthSkims(Decimal(length), square, paren);
      SkimThen("[" + Decimal(length) + "]", Format(elem), square, paren, square, paren);
      FormatSkims(elem, square, paren);
    case Fn(params, ret, fallible) =>
      GroupSkims("fn", '(', ')', params, square, paren);
      assert "fn" + ['('] + FormatList(params) + [')'] + "->" == "fn(" + FormatList(params) + ")->";
      QuietPassed("->", 1, square, paren);
      SkimThen("fn" + ['('] + FormatList(params) + [')'], "->", square, paren, square, paren);
      SkimThen("fn(" + FormatList(params) + ")->", Format(ret), square, paren, square, paren);
      FormatSkims(ret, square, paren);
      SkimThen("fn(" + FormatList(params) + ")->" + Format(ret), if fallible then " err"
          else "", square, paren, square, paren);
      QuietPassed(if fallible then " err" else "", 1, square, paren);
    case Generic(base, args) =>
      GroupSkims(base.name, '[', ']', args, square, paren);
      assert base.name + ['['] + FormatList(args) + [']'] == Format(r);
  }

  lemma OneSkims(c: char, square: int, paren: int)
    requires c != ',' || square != 0 || paren != 0
    ensures Skim([c], square, paren) == Some((Moved(square, c, '[', ']'), Moved(paren, c, '(', ')')))
  {
  }

  lemma LengthSkims(w: string, square: int, paren: int)
    requires Quiet(w)
    ensures Skim("[" + w + "]", square, paren) == Some((square, paren))
  {
    hide Skim;
    OneSkims('[', square, paren);
    QuietPassed(w, 1, square + 1, paren);
    SkimThen("[", w, square, paren, square + 1, paren);
    OneSkims(']', square + 1, paren);
    SkimThen("[" + w, "]", square, paren, square + 1, paren);
  }

  lemma {:induction false} GroupSkims(prefix: string, o: char, c: char, rs: seq<TypeRef>, square: int, paren: int)
    requires Quiet(prefix) && (forall r :: r in rs ==> Clean(r)) && square >= 0 && paren >= 0 && BracketPair(o, c)
    ensures Skim(prefix + [o] + FormatList(rs) + [c], square, paren) == Some((square, paren))
    decreases rs, 1
  {
    hide Skim;
    QuietPassed(prefix, 1, square, paren);
    var square1, paren1 := Moved(square, o, '[', ']'), Moved(paren, o, '(', ')');
    OneSkims(o, square, paren);
    SkimThen(prefix, [o], square, paren, square, paren);
    ListSkims(rs, square1, paren1);
    SkimThen(prefix + [o], FormatList(rs), square, paren, square1, paren1);
    OneSkims(c, square1, paren1);
    SkimThen(prefix + [o] + FormatList(rs), [c], square, paren, square1, paren1);
  }

  lemma {:induction false} ListSkims(rs: seq<TypeRef>, square: int, paren: int)
    requires (forall r :: r in rs ==> Clean(r)) && square >= 0 && paren >= 0 && square + paren >= 1
    ensures Skim(FormatList(rs), square, paren) == Some((square, paren))
    decreases rs, 0
  {
    if rs != [] {
      FormatSkims(rs[0], square, paren);
      if |rs| > 1 {
        ListSkims(rs[1..], square, paren);
        OneSkims(',', square, paren);
        SkimThen(Format(rs[0]), ",", square, paren, square, paren);
        SkimThen(Format(rs[0]) + ",", FormatList(rs[1..]), square, paren, square, paren);
      }
    }
  }

  // ----- lengths ------------------------------------------------------------------------------------

  lemma {:induction false} NumberOfDigits(n: nat, rest: string, afterDigit: bool)
    ensures Number(Digits(n) + rest, 0, afterDigit) == Number(rest, n, true)
    decreases n
  {
    var d := [('0' as int + n % 10) as char];
    if n < 10 {
      assert (d + rest)[1..] == rest;
    } else {
      assert Digits(n) + rest == Digits(n / 10) + (d + rest);
      NumberOfDigits(n / 10, d + rest, afterDigit);
      assert (d + rest)[1..] == rest;
    }
  }

  lemma IntegerOfDecimal(n: int)
    ensures Integer(Decimal(n)) == Some(n)
  {
    DecimalPlain(n);
    StripNothing(Decimal(n));
    var m := if n >= 0 then n else -n;
    NumberOfDigits(m, "", false);
    DigitsPlain(m);
    assert Digits(m) + "" == Digits(m);
    if n < 0 {
      assert Decimal(n)[1..] == Digits(m);
    }
  }

  /** A plus sign is allowed, and an underscore between two digits means nothing. */
  lemma IntegerForms(n: nat, rest: string)
    ensures Integer("+" + Digits(n)) == Some(n as int)
    ensures Number(Digits(n) + "_" + rest, 0, false) == Number(rest, n, false)
  {
    var plus := "+" + Digits(n);
    DigitsPlain(n);
    assert plus[|plus| - 1] == Digits(n)[|Digits(n)| - 1];
    StripNothing(plus);
    assert plus[1..] == Digits(n) && Digits(n) + "" == Digits(n);
    NumberOfDigits(n, "", false);
    NumberOfDigits(n, "_" + rest, false);
    assert Digits(n) + "_" + rest == Digits(n) + ("_" + rest) && ("_" + rest)[1..] == rest;
  }

  // ----- ends of printed types ------------------------------------------------------------------------

  lemma StripNothing(s: string)
    requires s == "" || Tight(s)
    ensures Strip(s) == s
  {
  }

  function Text(r: TypeRef, k: nat): string {
    Core(r) + ErrText(k)
  }

  lemma {:induction false} CoreTight(r: TypeRef)
    requires Clean(r)
    ensures Tight(Core(r))
  {
    hide IsSpace, PlainChar;
    match r
    case Named(_) => PlainTight(r.name);
    case Pointer(inner, _) => CoreTight(inner); PunctuationVisible();
    case Slice(elem) => CoreTight(elem); PunctuationVisible();
    case Array(_, elem) => CoreTight(elem); PunctuationVisible();
    case Fn(_, ret, _) => CoreTight(ret); PunctuationVisible();
    case Generic(base, _) => CoreTight(base); PunctuationVisible();
  }

  lemma PlainTight(name: string)
    requires name != "" && Plain(name)
    ensures Tight(name)
  {
    assert PlainChar(name[0]) && PlainChar(name[|name| - 1]);
  }

  lemma PunctuationVisible()
    ensures !IsSpace('?') && !IsSpace('*') && !IsSpace('[') && !IsSpace(']') && !IsSpace('f') && !IsSpace('r')
  {
  }

  lemma TextTight(r: TypeRef, k: nat)
    requires Clean(r)
    ensures Tight(Text(r, k)) && Strip(Text(r, k)) == Text(r, k)
  {
    CoreTight(r);
    if k > 0 {
      ErrTextLast(k);
      PunctuationVisible();
    }
    StripNothing(Text(r, k));
  }

  /** Without suffixes the text does not end in ` err`, even behind punctuation. */
  lemma {:induction false} CoreNotErr(r: TypeRef, before: string)
    requires Clean(r) && (before != "" ==> before[|before| - 1] in "*]>")
    ensures !EndsWith(before + Core(r), " err")
  {
    match r
    case Named(name) => NameNotErr(name, before);
    case Pointer(inner, nullable) => CoreNotErr(inner, before + StarText(nullable));
        Assoc(before, StarText(nullable), Core(inner));
    case Slice(elem) => CoreNotErr(elem, before + "[]"); Assoc(before, "[]", Core(elem));
    case Array(length, elem) =>
      CoreNotErr(elem, before + ("[" + Decimal(length) + "]"));
      Assoc(before, "[" + Decimal(length) + "]", Core(elem));
    case Fn(params, ret, _) =>
      CoreNotErr(ret, before + ("fn(" + FormatList(params) + ")->"));
      Assoc(before, "fn(" + FormatList(params) + ")->", Core(ret));
    case Generic(base, args) =>
      var s := before + Core(r);
      assert s[|s| - 1] == ']';
  }

  lemma ErrChars(s: string)
    ensures EndsWith(s, " err") ==> |s| >= 4 && s[|s| - 4] == ' ' && s[|s| - 3] == 'e' && s[|s| - 2] == 'r'
  {
    if EndsWith(s, " err") {
      var t := s[|s| - 4..];
      assert t[0] == s[|s| - 4] && t[1] == s[|s| - 3] && t[2] == s[|s| - 2];
    }
  }

  /** A space would have to come from `before`, whose last character is punctuation. */
  lemma NameNotErr(name: string, before: string)
    requires name != "" && Plain(name) && (before != "" ==> before[|before| - 1] in "*]>")
    ensures !EndsWith(before + name, " err")
  {
    var s := before + name;
    ErrChars(s);
    assert |name| >= 4 ==> s[|s| - 4] == name[|name| - 4] && PlainChar(name[|name| - 4]);
    assert before != "" ==> s[|s| - 1 - |name|] == before[|before| - 1];
  }

  // ----- the type the parser reads back --------------------------------------------------------------

  /** The first k functions of the right spine are fallible, the others not; the same inside. */
  function Give(r: TypeRef, k: nat): TypeRef
    decreases r, 0
  {
    match r
    case Named(_) => r
    case Pointer(inner, nullable) => Pointer(Give(inner, k), nullable)
    case Slice(elem) => Slice(Give(elem, k))
    case Array(length, elem) => Array(length, Give(elem, k))
    case Fn(params, ret, _) => Fn(CanonList(params), Give(ret, if k > 0 then k - 1 else 0), k > 0)
    case Generic(base, args) => Generic(base, CanonList(args))
  }

  /** The same flags, gathered at the outermost functions of each right spine. */
  function Canon(r: TypeRef): TypeRef
    decreases r, 1
  {
    Give(r, CountTrue(SpineFlags(r)))
  }

  function CanonList(rs: seq<TypeRef>): seq<TypeRef> {
    if rs == [] then [] else [Canon(rs[0])] + CanonList(rs[1..])
  }

  function FormatEach(rs: seq<TypeRef>): seq<string> {
    if rs == [] then [] else [Format(rs[0])] + FormatEach(rs[1..])
  }

  lemma FormatTight(r: TypeRef)
    requires Clean(r)
    ensures Tight(Format(r)) && Strip(Format(r)) == Format(r)
  {
    FormatIsCore(r);
    TextTight(r, CountTrue(SpineFlags(r)));
  }

  /** A printed list splits into the printed elements. */
  lemma {:induction false} ListPieces(rs: seq<TypeRef>)
    requires forall r :: r in rs ==> Clean(r)
    ensures Pieces(FormatList(rs), ',') == FormatEach(rs)
  {
    if rs == [] {
      assert Split("", ',', 0, 0, "") == [""];
    } else {
      ListSplits(rs);
      EachKept(rs);
    }
  }

  lemma {:induction false} ListSplits(rs: seq<TypeRef>)
    requires rs != [] && forall r :: r in rs ==> Clean(r)
    ensures Split(FormatList(rs), ',', 0, 0, "") == FormatEach(rs)
  {
    var first, more := Format(rs[0]), if |rs| == 1 then "" else "," + FormatList(rs[1..]);
    assert FormatList(rs) == first + more;
    FormatSkims(rs[0], 0, 0);
    SplitSkims(first, more, 0, 0, "");
    assert "" + first == first;
    if |rs| > 1 {
      assert more[1..] == FormatList(rs[1..]);
      ListSplits(rs[1..]);
    }
  }

  lemma {:induction false} EachKept(rs: seq<TypeRef>)
    requires forall r :: r in rs ==> Clean(r)
    ensures Keep(FormatEach(rs)) == FormatEach(rs)
  {
    if rs != [] {
      FormatTight(rs[0]);
      EachKept(rs[1..]);
    }
  }

  // ----- the main lemma, one constructor at a time ------------------------------------------------------

  /** A group entered right after its opening bracket closes right before the rest. */
  lemma GroupCloses(rs: seq<TypeRef>, rest: string, open: char, close: char)
    requires (forall r :: r in rs ==> Clean(r)) && BracketPair(open, close)
    ensures Closing([open] + FormatList(rs) + [close] + rest, 0, open, close) == Some(1 + |FormatList(rs)|)
  {
    var list := FormatList(rs);
    ListLevel(rs, 1, open, close);
    var after := [close] + rest;
    ClosingSkips(list, after, 1, open, close);
    assert Closing(after, 1, open, close) == Some(0);
    var s := [open] + list + [close] + rest;
    assert s[1..] == list + after;
  }

  lemma {:induction false} FindAfter(before: string, c: char, rest: string)
    requires forall i :: 0 <= i < |before| ==> before[i] != c
    ensures Find(before + [c] + rest, c) == Some(|before|)
  {
    if before != [] {
      assert (before + [c] + rest)[1..] == before[1..] + [c] + rest;
      FindAfter(before[1..], c, rest);
    }
  }

  lemma {:induction false} FindNowhere(s: string, c: char)
    requires forall i :: 0 <= i < |s| ==> s[i] != c
    ensures Find(s, c) == None
  {
    if s != [] {
      FindNowhere(s[1..], c);
    }
  }

  lemma NameParses(name: string)
    requires name != "" && Plain(name)
    ensures ParseStripped(name) == Ok(Named(name))
  {
    hide IsSpace;
    assert PlainChar(name[0]) && (|name| > 2 ==> PlainChar(name[2]));
    FindNowhere(name, '[');
  }

  lemma ArrayParses(n: int, elem: TypeRef, k: nat)
    requires Clean(elem)
    ensures var t := Text(Array(n, elem), k);
            ParseStripped(t) == ParseArray(t) == ToArray(n, Parse(Text(elem, k)))
  {
    hide Parse, IsSpace, Integer, Decimal, Core, ErrText;
    var d := Decimal(n);
    DecimalPlain(n);
    IntegerOfDecimal(n);
    var t := Text(Array(n, elem), k);
    ArrayText(n, elem, k);
    FindAfter("[" + d, ']', Text(elem, k));
    assert t[1..1 + |d|] == d && t[|d| + 2..] == Text(elem, k);
  }

  lemma ArrayText(n: int, elem: TypeRef, k: nat)
    ensures Text(Array(n, elem), k) == "[" + Decimal(n) + [']'] + Text(elem, k)
  {
    Assoc("[" + Decimal(n) + "]", Core(elem), ErrText(k));
  }

  /** Where the parts of a bracketed list stand. */
  lemma GroupSlices(before: string, open: char, list: string, close: char, rest: string)
    ensures var t := before + [open] + list + [close] + rest; var n := |before|;
            && t[n..] == [open] + list + [close] + rest && t[..n] == before
            && t[n + 1..n + 1 + |list|] == list && t[n + 2 + |list|..] == rest
  {
  }

  lemma FnText(params: seq<TypeRef>, ret: TypeRef, k: nat)
    ensures Text(Fn(params, ret, false), k) == "fn" + ['('] + FormatList(params) + [')'] + ("->" + Text(ret, k))
  {
    var list := FormatList(params);
    Assoc("fn(" + list + ")->", Core(ret), ErrText(k));
    assert "fn(" + list + ")->" == "fn" + ['('] + list + [')'] + "->";
    Assoc("fn" + ['('] + list + [')'], "->", Text(ret, k));
  }

  lemma FnParses(params: seq<TypeRef>, ret: TypeRef, k: nat)
    requires (forall p :: p in params ==> Clean(p)) && Clean(ret)
    requires forall p :: p in FormatEach(params) ==> |p| < |Text(Fn(params, ret, false), k)|
    requires ParseList(FormatEach(params), |Text(Fn(params, ret, false), k)|) == OkList(CanonList(params))
    requires Parse(Text(ret, if k > 0 then k - 1 else 0)) == Ok(Give(ret, if k > 0 then k - 1 else 0))
    ensures ParseStripped(Text(Fn(params, ret, false), k)) == Ok(Give(Fn(params, ret, false), k))
  {
    hide Parse, ParseReturn, ParseList, IsSpace, FormatList, FormatEach, Core, Closing, Pieces, Text, CanonList;
    var t, list := Text(Fn(params, ret, false), k), FormatList(params);
    FnText(params, ret, k);
    GroupSlices("fn", '(', list, ')', "->" + Text(ret, k));
    GroupCloses(params, "->" + Text(ret, k), '(', ')');
    ListPieces(params);
    assert ("->" + Text(ret, k))[2..] == Text(ret, k);
    ReturnParses(CanonList(params), ret, k);
    assert t[0] == 'f' && "fn(" <= t;
  }

  lemma ReturnParses(params: seq<TypeRef>, ret: TypeRef, k: nat)
    requires Clean(ret)
    ensures ParseReturn(params, Text(ret, k)) == ToFn(params, Parse(Text(ret, if k > 0 then k - 1 else 0)), k > 0)
  {
    hide Parse, Strip, IsSpace, Text;
    TextTight(ret, k);
    TrailingErr(ret, k);
    if k > 0 {
      TextTight(ret, k - 1);
    }
  }

  lemma TrailingErr(r: TypeRef, k: nat)
    requires Clean(r)
    ensures EndsWith(Text(r, k), " err") <==> k > 0
    ensures k > 0 ==> |Text(r, k)| >= 4 && Text(r, k)[..|Text(r, k)| - 4] == Text(r, k - 1)
  {
    if k == 0 {
      CoreNotErr(r, "");
      assert "" + Core(r) == Text(r, 0);
    } else {
      ErrTextLast(k);
      assert Text(r, k) == Text(r, k - 1) + " err";
    }
  }

  lemma GenericParses(base: TypeRef, args: seq<TypeRef>)
    requires Clean(Generic(base, args))
    requires forall p :: p in FormatEach(args) ==> |p| < |Core(Generic(base, args))|
    requires ParseList(FormatEach(args), |Core(Generic(base, args))|) == OkList(CanonList(args))
    ensures ParseStripped(Core(Generic(base, args))) == Ok(Generic(base, CanonList(args)))
  {
    hide ParseList, IsSpace, FormatList, FormatEach, Closing, Pieces, CanonList, Plain, Parse;
    var name, list, t := base.name, FormatList(args), Core(Generic(base, args));
    GroupText(name, list);
    GroupSlices(name, '[', list, ']', "");
    FindAfter(name, '[', list + "]");
    GroupCloses(args, "", '[', ']');
    ListPieces(args);
    NominalParses(name);
  }

  lemma NominalParses(name: string)
    requires name != "" && Plain(name)
    ensures Parse(name) == Ok(Named(name))
  {
    PlainTight(name);
    StripNothing(name);
    NameParses(name);
  }

  /** The text of a type application starts like a name and ends in its bracket. */
  lemma GroupText(name: string, list: string)
    requires name != "" && Plain(name)
    ensures var t := name + "[" + list + "]";
            && t == name + ['['] + list + [']'] + "" == name + ['['] + (list + "]") && EndsWith(t, "]")
            && !("?*" <= t) && !("*" <= t) && !("[" <= t) && !("[]" <= t) && !("fn(" <= t)
            && forall i :: 0 <= i < |name| ==> name[i] != '['
  {
    var t := name + "[" + list + "]";
    assert t == name + ['['] + list + [']'] + "" == name + ['['] + (list + "]");
    assert PlainChar(name[0]) && t[0] == name[0] && (|name| > 2 ==> PlainChar(name[2]) && t[2] == name[2]);
    assert |name| == 2 ==> t[2] == '[';
    assert |name| == 1 ==> t[1] == '[';
  }

  lemma EachBound(rs: seq<TypeRef>)
    requires forall r :: r in rs ==> Clean(r)
    ensures forall p :: p in FormatEach(rs) ==> |p| <= |FormatList(rs)|
  {
    ListPieces(rs);
  }

  lemma {:induction false} ParseText(r: TypeRef, k: nat)
    requires Clean(r) && k <= |SpineFlags(r)|
    ensures Parse(Text(r, k)) == Ok(Give(r, k))
    decreases r
  {
    hide ParseArray, ParseFn, ParseNominal, Strip, Format, FormatList, IsSpace;
    TextTight(r, k);
    var t := Text(r, k);
    match r
    case Named(name) =>
      assert t == name;
      NameParses(name);
    case Pointer(inner, nullable) =>
      var rest := Text(inner, k);
      Assoc(StarText(nullable), Core(inner), ErrText(k));
      assert t[|StarText(nullable)|..] == rest;
      ParseText(inner, k);
    case Slice(elem) =>
      Assoc("[]", Core(elem), ErrText(k));
      assert t[2..] == Text(elem, k);
      ParseText(elem, k);
    case Array(length, elem) =>
      ParseText(elem, k);
      ArrayParses(length, elem, k);
    case Fn(params, ret, fallible) =>
      EachBound(params);
      ParseEach(params, |t|);
      ParseText(ret, if k > 0 then k - 1 else 0);
      FnParses(params, ret, k);
    case Generic(base, args) =>
      EachBound(args);
      ParseEach(args, |t|);
      assert t == Core(r);
      GenericParses(base, args);
  }

  lemma {:induction false} ParseEach(rs: seq<TypeRef>, bound: nat)
    requires forall r :: r in rs ==> Clean(r)
    requires forall p :: p in FormatEach(rs) ==> |p| < bound
    ensures ParseList(FormatEach(rs), bound) == OkList(CanonList(rs))
    decreases rs
  {
    if rs != [] {
      FormatIsCore(rs[0]);
      ParseText(rs[0], CountTrue(SpineFlags(rs[0])));
      ParseEach(rs[1..], bound);
    }
  }

  // ----- exactly which types survive -----------------------------------------------------------------

  /** n flags of which the first k are set. */
  function Lead(n: nat, k: nat): seq<bool> {
    if n == 0 then [] else [k > 0] + Lead(n - 1, if k > 0 then k - 1 else 0)
  }

  ghost predicate TruesFirst(flags: seq<bool>) {
    forall i, j :: 0 <= i < j < |flags| && flags[j] ==> flags[i]
  }

  lemma {:induction false} LeadCounts(n: nat, k: nat)
    requires k <= n
    ensures |Lead(n, k)| == n && CountTrue(Lead(n, k)) == k
    ensures forall i :: 0 <= i < n ==> Lead(n, k)[i] == (i < k)
  {
    if n > 0 {
      LeadCounts(n - 1, if k > 0 then k - 1 else 0);
    }
  }

  lemma {:induction false} NoneTrue(flags: seq<bool>)
    requires forall i :: 0 <= i < |flags| ==> !flags[i]
    ensures CountTrue(flags) == 0
  {
    if flags != [] {
      NoneTrue(flags[1..]);
    }
  }

  lemma {:induction false} TruesFirstIsLead(flags: seq<bool>)
    ensures TruesFirst(flags) <==> flags == Lead(|flags|, CountTrue(flags))
  {
    LeadCounts(|flags|, CountTrue(flags));
    if flags != [] && TruesFirst(flags) {
      TruesFirstIsLead(flags[1..]);
      if !flags[0] {
        NoneTrue(flags);
      }
    }
  }

  /** On every right spine the fallible functions come first. */
  ghost predicate WellFlagged(r: TypeRef)
    decreases r, 1
  {
    TruesFirst(SpineFlags(r)) && Inside(r)
  }

  /** The same for the spines that hang off this one. */
  ghost predicate Inside(r: TypeRef)
    decreases r, 0
  {
    match r
    case Named(_) => true
    case Pointer(inner, _) => Inside(inner)
    case Slice(elem) => Inside(elem)
    case Array(_, elem) => Inside(elem)
    case Fn(params, ret, _) => (forall p :: p in params ==> WellFlagged(p)) && Inside(ret)
    case Generic(_, args) => forall a :: a in args ==> WellFlagged(a)
  }

  lemma {:induction false} GiveFixed(r: TypeRef, k: nat)
    ensures Give(r, k) == r <==> Inside(r) && SpineFlags(r) == Lead(|SpineFlags(r)|, k)
    decreases r, 0
  {
    match r
    case Named(_) =>
    case Pointer(inner, _) => GiveFixed(inner, k);
    case Slice(elem) => GiveFixed(elem, k);
    case Array(_, elem) => GiveFixed(elem, k);
    case Fn(params, ret, fallible) =>
      CanonListFixed(params);
      GiveFixed(ret, if k > 0 then k - 1 else 0);
      var flags := SpineFlags(r);
      assert flags[1..] == SpineFlags(ret) && flags[0] == fallible;
      assert Lead(|flags|, k)[1..] == Lead(|flags| - 1, if k > 0 then k - 1 else 0) && Lead(|flags|, k)[0] == (k > 0);
    case Generic(_, args) => CanonListFixed(args);
  }

  lemma {:induction false} CanonListFixed(rs: seq<TypeRef>)
    ensures CanonList(rs) == rs <==> forall r :: r in rs ==> WellFlagged(r)
    decreases rs
  {
    if rs != [] {
      GiveFixed(rs[0], CountTrue(SpineFlags(rs[0])));
      TruesFirstIsLead(SpineFlags(rs[0]));
      assert Canon(rs[0]) == rs[0] <==> WellFlagged(rs[0]);
      CanonListFixed(rs[1..]);
      assert rs == [rs[0]] + rs[1..];
      assert CanonList(rs)[0] == Canon(rs[0]) && CanonList(rs)[1..] == CanonList(rs[1..]);
      if CanonList(rs) == rs {
        forall r | r in rs
          ensures WellFlagged(r)
        {
          assert r == rs[0] || r in rs[1..];
        }
      }
    }
  }

  lemma CanonFixed(r: TypeRef)
    ensures Canon(r) == r <==> WellFlagged(r)
  {
    GiveFixed(r, CountTrue(SpineFlags(r)));
    TruesFirstIsLead(SpineFlags(r));
  }

  /** Moving the flags changes neither the text nor the number of flags. */
  lemma {:induction false} GiveText(r: TypeRef, k: nat)
    requires Clean(r) && k <= |SpineFlags(r)|
    ensures Clean(Give(r, k)) && Core(Give(r, k)) == Core(r)
    ensures SpineFlags(Give(r, k)) == Lead(|SpineFlags(r)|, k)
    decreases r, 0
  {
    match r
    case Named(_) =>
    case Pointer(inner, _) => GiveText(inner, k);
    case Slice(elem) => GiveText(elem, k);
    case Array(_, elem) => GiveText(elem, k);
    case Fn(params, ret, fallible) =>
      CanonListText(params);
      GiveText(ret, if k > 0 then k - 1 else 0);
    case Generic(_, args) => CanonListText(args);
  }

  lemma {:induction false} CanonListText(rs: seq<TypeRef>)
    requires forall r :: r in rs ==> Clean(r)
    ensures FormatList(CanonList(rs)) == FormatList(rs) && |CanonList(rs)| == |rs|
    ensures forall r :: r in CanonList(rs) ==> Clean(r)
    decreases rs
  {
    if rs != [] {
      CanonText(rs[0]);
      CanonListText(rs[1..]);
      assert CanonList(rs)[1..] == CanonList(rs[1..]);
    }
  }

  lemma {:induction false} CanonText(r: TypeRef)
    requires Clean(r)
    ensures Format(Canon(r)) == Format(r) && Clean(Canon(r))
    decreases r, 1
  {
    var k := CountTrue(SpineFlags(r));
    GiveText(r, k);
    LeadCounts(|SpineFlags(r)|, k);
    FormatIsCore(r);
    FormatIsCore(Canon(r));
  }

  // ----- the theorems -------------------------------------------------------------------------------

  /** type_key of a type reference, and same_type. */
  function TypeKey(r: TypeRef): string { Format(r) }

  predicate SameType(a: TypeRef, b: TypeRef) {
    TypeKey(a) == TypeKey(b)
  }

  /** Every printed type parses, and it parses back to itself exactly if its flags are well placed. */
  lemma StringRoundTrip(r: TypeRef)
    requires Clean(r)
    ensures Parse(Format(r)) == Ok(Canon(r))
    ensures Parse(Format(r)) == Ok(r) <==> WellFlagged(r)
  {
    FormatIsCore(r);
    ParseText(r, CountTrue(SpineFlags(r)));
    CanonFixed(r);
  }

  /** Equal keys mean equality up to the place of the flags; for well-placed flags, equality. */
  lemma SameTypeIsEquality(a: TypeRef, b: TypeRef)
    requires Clean(a) && Clean(b)
    ensures SameType(a, b) <==> Canon(a) == Canon(b)
    ensures WellFlagged(a) && WellFlagged(b) ==> (SameType(a, b) <==> a == b)
  {
    StringRoundTrip(a);
    StringRoundTrip(b);
    CanonText(a);
    CanonText(b);
    CanonFixed(a);
    CanonFixed(b);
  }

  /** Going through the string settles after one step: the result is well flagged and prints the same. */
  lemma KeyIsStable(r: TypeRef)
    requires Clean(r)
    ensures Parse(Format(r)).Ok?
    ensures var back := Parse(Format(r)).ref;
            WellFlagged(back) && Clean(back) && Format(back) == Format(r) && Parse(Format(back)) == Ok(back)
  {
    StringRoundTrip(r);
    CanonText(r);
    StringRoundTrip(Canon(r));
  }

  /** fun() (fun() T err) and (fun() fun() T) err print alike, and the first is read back as the second. */
  lemma FlagMoves(t: TypeRef)
    requires Clean(t) && SpineFlags(t) == []
    ensures var inner, outer := Fn([], Fn([], t, true), false), Fn([], Fn([], t, false), true);
            && Clean(inner) && SameType(inner, outer) && !WellFlagged(inner) &&
                Parse(Format(inner)) == Ok(Canon(outer)) != Ok(inner)
  {
    hide Parse, Format;
    var inner, outer := Fn([], Fn([], t, true), false), Fn([], Fn([], t, false), true);
    assert SpineFlags(Fn([], t, true)) == [true] && SpineFlags(Fn([], t, false)) == [false];
    assert SpineFlags(inner) == [false, true] && SpineFlags(outer) == [true, false];
    CountsAlike();
    assert Give(inner.ret, 0) == Give(outer.ret, 0);
    assert Canon(inner) == Give(inner, 1) == Give(outer, 1) == Canon(outer);
    StringRoundTrip(inner);
    SameTypeIsEquality(inner, outer);
  }

  lemma CountsAlike()
    ensures CountTrue([false, true]) == CountTrue([true, false]) == 1
  {
    assert [false, true][1..] == [true] && [true, false][1..] == [false];
    assert CountTrue([true]) == 1 && CountTrue([false]) == 0;
  }
}
