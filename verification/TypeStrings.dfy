/**
 The parser of canonical type strings (compiler/type_ref.py) and what it does to printed types: it
 hands trailing ` err` suffixes to the outermost functions of the right spine first.
 */
module TypeStrings {
  import opened Prelude
  import opened TypeRefs

  datatype TypeError = InvalidArray | InvalidFunction | Unclosed(bracket: char) | BadInteger

  datatype Parsed = Ok(ref: TypeRef) | Err(error: TypeError)
  datatype ParsedList = OkList(refs: seq<TypeRef>) | ErrList(error: TypeError)

  // ----- strings ----------------------------------------------------------------------------------

  function DropFront(s: string): (r: string)
    ensures |r| <= |s|
  {
    if s != [] && IsSpace(s[0]) then DropFront(s[1..]) else s
  }

  function DropBack(s: string): (r: string)
    ensures |r| <= |s|
  {
    if s != [] && IsSpace(s[|s| - 1]) then DropBack(s[..|s| - 1]) else s
  }

  function Strip(s: string): (r: string)
    ensures |r| <= |s|
  {
    DropFront(DropBack(s))
  }

  predicate Blank(s: string) {
    forall i :: 0 <= i < |s| ==> IsSpace(s[i])
  }

  /** No blank at either end. */
  predicate Tight(s: string) {
    s != "" && !IsSpace(s[0]) && !IsSpace(s[|s| - 1])
  }

  lemma {:induction false} DropBackTakes(s: string) returns (b: string)
    ensures s == DropBack(s) + b && Blank(b) && (DropBack(s) != "" ==> !IsSpace(DropBack(s)[|DropBack(s)| - 1]))
  {
    b := "";
    if s != "" && IsSpace(s[|s| - 1]) {
      b := DropBackTakes(s[..|s| - 1]);
      b := b + [s[|s| - 1]];
    }
  }

  lemma {:induction false} DropFrontTakes(s: string) returns (a: string)
    ensures s == a + DropFront(s) && Blank(a) && (DropFront(s) != "" ==> !IsSpace(DropFront(s)[0]))
  {
    a := "";
    if s != "" && IsSpace(s[0]) {
      a := DropFrontTakes(s[1..]);
      a := [s[0]] + a;
    }
  }

  /** Stripping takes blanks away at both ends and nothing else. */
  lemma StripTakesBlanks(s: string) returns (a: string, b: string)
    ensures s == a + Strip(s) + b && Blank(a) && Blank(b) && (Strip(s) == "" || Tight(Strip(s)))
  {
    b := DropBackTakes(s);
    a := DropFrontTakes(DropBack(s));
    assert Strip(s) != "" ==> Strip(s)[|Strip(s)| - 1] == DropBack(s)[|DropBack(s)| - 1];
  }

  lemma {:induction false} DropBackGives(t: string, b: string)
    requires Blank(b) && (t != "" ==> !IsSpace(t[|t| - 1]))
    ensures DropBack(t + b) == t
    decreases |b|
  {
    if b != "" {
      assert (t + b)[..|t + b| - 1] == t + b[..|b| - 1];
      DropBackGives(t, b[..|b| - 1]);
    } else {
      assert t + b == t;
    }
  }

  lemma {:induction false} DropFrontGives(a: string, t: string)
    requires Blank(a) && (t != "" ==> !IsSpace(t[0]))
    ensures DropFront(a + t) == t
  {
    if a != "" {
      assert (a + t)[1..] == a[1..] + t;
      DropFrontGives(a[1..], t);
    } else {
      assert a + t == t;
    }
  }

  /** And it takes all of them: whatever blanks surround a text, stripping gives the text. */
  lemma StripGivesText(a: string, t: string, b: string)
    requires Blank(a) && Blank(b) && (t == "" || Tight(t))
    ensures Strip(a + t + b) == t
  {
    if t == "" {
      assert a + t + b == "" + (a + b);
      DropBackGives("", a + b);
    } else {
      DropBackGives(a + t, b);
      DropFrontGives(a, t);
    }
  }

  /** Blanks around a text do not matter. */
  lemma BlanksAround(a: string, t: string, b: string)
    requires Blank(a) && Blank(b)
    ensures Strip(a + t + b) == Strip(t)
  {
    var x, y := StripTakesBlanks(t);
    assert a + t + b == (a + x) + Strip(t) + (y + b);
    StripGivesText(a + x, Strip(t), y + b);
  }

  function Find(s: string, c: char): (i: Option<nat>)
    ensures i.Some? ==> i.value < |s| && s[i.value] == c
  {
    if s == [] then None
    else if s[0] == c then Some(0)
    else match Find(s[1..], c) case Some(i) => Some(i + 1) case None => None
  }

  predicate EndsWith(s: string, t: string) {
    |t| <= |s| && s[|s| - |t|..] == t
  }

  predicate IsDigit(c: char) {
    '0' <= c <= '9'
  }

  /** Decimal digits with single underscores between digits; `acc` is the value read so far. */
  function Number(s: string, acc: int, afterDigit: bool): Option<int> {
    if s == [] then if afterDigit then Some(acc) else None
    else if IsDigit(s[0]) then Number(s[1..], 10 * acc + (s[0] as int - '0' as int), true)
    else if s[0] == '_' && afterDigit then Number(s[1..], acc, false)
    else None
  }

  /** int(s) */
  function Integer(s: string): Option<int> {
    var t := Strip(s);
    if t != [] && t[0] == '-' then Negated(Number(t[1..], 0, false))
    else if t != [] && t[0] == '+' then Number(t[1..], 0, false)
    else Number(t, 0, false)
  }

  function Negated(n: Option<int>): Option<int> {
    if n.Some? then Some(-n.value) else None
  }

  // ----- the two scanners: specifications and loops ------------------------------------------------

  predicate Bracket(c: char) {
    c == '[' || c == ']' || c == '(' || c == ')'
  }

  /** How a character moves a bracket counter. */
  function Moved(depth: int, c: char, open: char, close: char): int {
    if c == open then depth + 1 else if c == close then depth - 1 else depth
  }

  /** Where, counting from `s`, a bracket group entered at `depth` closes. */
  function Closing(s: string, depth: int, open: char, close: char): (i: Option<nat>)
    ensures i.Some? ==> i.value < |s|
  {
    if s == [] then None
    else if s[0] == close && s[0] != open && depth == 1 then Some(0)
    else match Closing(s[1..], Moved(depth, s[0], open, close), open, close)
      case Some(i) => Some(i + 1)
      case None => None
  }

  method FindMatching(s: string, start: nat, open: char, close: char) returns (r: Option<nat>)
    requires start <= |s|
    ensures r == match Closing(s[start..], 0, open, close) case Some(i) => Some(start + i) case None => None
  {
    var depth := 0;
    var i := start;
    while i < |s|
      invariant start <= i <= |s|
      invariant match Closing(s[start..], 0, open, close)
                case Some(k) => k >= i - start && Closing(s[i..], depth, open, close) == Some(k - (i - start))
                case None => Closing(s[i..], depth, open, close).None?
    {
      assert s[i..][0] == s[i] && s[i..][1..] == s[i + 1..];
      if s[i] == open {
        depth := depth + 1;
      } else if s[i] == close {
        depth := depth - 1;
        if depth == 0 {
          return Some(i);
        }
      }
      i := i + 1;
    }
    r := None;
  }

  /** The pieces of `s` between separators outside all brackets; `piece` is the one being read. */
  function Split(s: string, sep: char, square: int, paren: int, piece: string): (parts: seq<string>)
    ensures forall p :: p in parts ==> |p| <= |piece| + |s|
    decreases |s|
  {
    if s == [] then [piece]
    else if s[0] == sep && !Bracket(sep) && square == 0 && paren == 0 then
      [piece] + Split(s[1..], sep, 0, 0, "")
    else Split(s[1..], sep, Moved(square, s[0], '[', ']'), Moved(paren, s[0], '(', ')'), piece + [s[0]])
  }

  /** Pieces are stripped and empty ones dropped. */
  function Keep(parts: seq<string>): seq<string> {
    if parts == [] then []
    else (if Strip(parts[0]) == "" then [] else [Strip(parts[0])]) + Keep(parts[1..])
  }

  lemma {:induction false} KeepBound(parts: seq<string>, n: nat)
    requires forall p :: p in parts ==> |p| <= n
    ensures forall p :: p in Keep(parts) ==> |p| <= n
  {
    if parts != [] {
      assert forall p :: p in parts[1..] ==> p in parts;
      KeepBound(parts[1..], n);
    }
  }

  lemma {:induction false} KeepThen(parts: seq<string>, p: string)
    ensures Keep(parts + [p]) == Keep(parts) + if Strip(p) == "" then [] else [Strip(p)]
  {
    if parts == [] {
      assert Keep([p]) == if Strip(p) == "" then [] else [Strip(p)];
    } else {
      assert (parts + [p])[1..] == parts[1..] + [p];
      KeepThen(parts[1..], p);
    }
  }

  function Pieces(s: string, sep: char): (pieces: seq<string>)
    ensures forall p :: p in pieces ==> |p| <= |s|
  {
    KeepBound(Split(s, sep, 0, 0, ""), |s|);
    Keep(Split(s, sep, 0, 0, ""))
  }

  /** The pieces with the separators between them are the text again. */
  function Joined(parts: seq<string>, sep: char): string {
    if parts == [] then "" else if |parts| == 1 then parts[0] else parts[0] + [sep] + Joined(parts[1..], sep)
  }

  lemma {:induction false} SplitJoins(s: string, sep: char, square: int, paren: int, piece: string)
    ensures var parts := Split(s, sep, square, paren, piece); parts != [] && Joined(parts, sep) == piece + s
    decreases |s|
  {
    if s == [] {
      assert piece + s == piece;
    } else if s[0] == sep && !Bracket(sep) && square == 0 && paren == 0 {
      SplitJoins(s[1..], sep, 0, 0, "");
      assert piece + s == piece + [sep] + ("" + s[1..]);
    } else {
      SplitJoins(s[1..], sep, Moved(square, s[0], '[', ']'), Moved(paren, s[0], '(', ')'), piece + [s[0]]);
      assert piece + s == (piece + [s[0]]) + s[1..];
    }
  }

  lemma {:induction false} KeptTrimmed(parts: seq<string>)
    ensures forall p :: p in Keep(parts) ==> Tight(p)
  {
    if parts != [] {
      var a, b := StripTakesBlanks(parts[0]);
      hide Strip, Tight;
      KeptTrimmed(parts[1..]);
    }
  }

  method SplitTopLevel(s: string, sep: char) returns (kept: seq<string>)
    ensures kept == Pieces(s, sep)
    ensures forall p :: p in kept ==> Tight(p)
  {
    KeptTrimmed(Split(s, sep, 0, 0, ""));
    hide Split, Keep, Strip, Tight;
    var parts: seq<string> := [];
    var start, i, square, paren := 0, 0, 0, 0;
    SplitEnd(s, sep, 0, 0, 0);
    while i < |s|
      invariant 0 <= start <= i <= |s|
      invariant parts + Split(s[i..], sep, square, paren, s[start..i]) == Split(s, sep, 0, 0, "")
    {
      SplitStep(s, i, sep, square, paren, start, parts);
      var ch := s[i];
      if ch == '[' {
        square := square + 1;
      } else if ch == ']' {
        square := square - 1;
      } else if ch == '(' {
        paren := paren + 1;
      } else if ch == ')' {
        paren := paren - 1;
      } else if ch == sep && square == 0 && paren == 0 {
        parts := parts + [s[start..i]];
        start := i + 1;
      }
      i := i + 1;
    }
    SplitEnd(s, sep, square, paren, start);
    parts := parts + [s[start..]];
    kept := NonEmpty(parts);
  }

  method NonEmpty(parts: seq<string>) returns (kept: seq<string>)
    ensures kept == Keep(parts)
  {
    hide Strip;
    kept := [];
    for k := 0 to |parts|
      invariant kept == Keep(parts[..k])
    {
      assert parts[..k + 1] == parts[..k] + [parts[k]];
      KeepThen(parts[..k], parts[k]);
      if Strip(parts[k]) != "" {
        kept := kept + [Strip(parts[k])];
      }
    }
    assert parts[..|parts|] == parts;
  }

  lemma SplitEnd(s: string, sep: char, square: int, paren: int, start: nat)
    requires start <= |s|
    ensures Split(s[|s|..], sep, square, paren, s[start..|s|]) == [s[start..]] && s[0..] == s && s[0..0] == ""
  {
    assert s[start..|s|] == s[start..];
  }

  /** One turn of the loop against one unfolding of the specification. */
  lemma SplitStep(s: string, i: nat, sep: char, square: int, paren: int, start: nat, parts: seq<string>)
    requires start <= i < |s|
    ensures parts + Split(s[i..], sep, square, paren, s[start..i])
         == if s[i] == sep && !Bracket(sep) && square == 0 && paren == 0
            then parts + [s[start..i]] + Split(s[i + 1..], sep, 0, 0, s[i + 1..i + 1])
            else parts + Split(s[i + 1..], sep, Moved(square, s[i], '[', ']'), Moved(paren, s[i], '(', ')'),
                s[start..i + 1])
  {
    assert s[i..][0] == s[i] && s[i..][1..] == s[i + 1..];
    assert s[start..i] + [s[i]] == s[start..i + 1];
  }

  // ----- the parser --------------------------------------------------------------------------------

  function Parse(text: string): Parsed
    decreases |text|, 2
  {
    ParseStripped(Strip(text))
  }

  lemma ParseIgnoresBlanks(a: string, t: string, b: string)
    requires Blank(a) && Blank(b)
    ensures Parse(a + t + b) == Parse(t)
  {
    BlanksAround(a, t, b);
  }

  function ParseStripped(t: string): Parsed
    decreases |t|, 1, 1
  {
    if "?*" <= t then ToPointer(Parse(t[2..]), true)
    else if "*" <= t then ToPointer(Parse(t[1..]), false)
    else if "[]" <= t then ToSlice(Parse(t[2..]))
    else if "[" <= t then ParseArray(t)
    else if "fn(" <= t then ParseFn(t)
    else ParseNominal(t)
  }

  function ParseArray(t: string): Parsed
    requires "[" <= t
    decreases |t|, 1, 0
  {
    match Find(t, ']')
    case None => Err(InvalidArray)
    case Some(close) =>
      match Integer(t[1..close])
      case None => Err(BadInteger)
      case Some(n) => ToArray(n, Parse(t[close + 1..]))
  }

  function ParseFn(t: string): Parsed
    requires "fn(" <= t
    decreases |t|, 1, 0
  {
    match Closing(t[2..], 0, '(', ')')
    case None => Err(Unclosed('('))
    case Some(k) =>
      ClosingPastOpen(t[2..]);
      var rest := t[k + 3..];
      if !("->" <= rest) then Err(InvalidFunction)
      else
        var params := ParseList(Pieces(t[3..k + 2], ','), |t|);
        if params.ErrList? then Err(params.error) else ParseReturn(params.refs, rest[2..])
  }

  /** What follows the arrow: a trailing ` err` belongs to this function. */
  function ParseReturn(params: seq<TypeRef>, text: string): Parsed
    decreases |text|, 3
  {
    var tail := Strip(text);
    if EndsWith(tail, " err") then ToFn(params, Parse(Strip(tail[..|tail| - 4])), true)
    else ToFn(params, Parse(tail), false)
  }

  /** A name, or a name applied to arguments if the bracket it opens closes at the very end. */
  function ParseNominal(t: string): Parsed
    requires !("[" <= t)
    decreases |t|, 1, 0
  {
    match Find(t, '[')
    case None => Ok(Named(t))
    case Some(lb) =>
      if !EndsWith(t, "]") then Ok(Named(t))
      else match Closing(t[lb..], 0, '[', ']')
        case None => Err(Unclosed('['))
        case Some(k) =>
          if lb + k != |t| - 1 then Ok(Named(t))
          else
            ClosingPastOpen(t[lb..]);
            var base := Parse(t[..lb]);
            if base.Err? then base else
            var args := ParseList(Pieces(t[lb + 1..lb + k], ','), |t|);
            if args.ErrList? then Err(args.error) else Ok(Generic(base.ref, args.refs))
  }

  lemma ClosingPastOpen(s: string)
    requires s != []
    ensures s[0] == '(' && Closing(s, 0, '(', ')').Some? ==> Closing(s, 0, '(', ')').value >= 1
    ensures s[0] == '[' && Closing(s, 0, '[', ']').Some? ==> Closing(s, 0, '[', ']').value >= 1
  {
  }

  function ParseList(parts: seq<string>, bound: nat): ParsedList
    requires forall p :: p in parts ==> |p| < bound
    decreases bound, 0, |parts|
  {
    if parts == [] then OkList([])
    else
      var first := Parse(parts[0]);
      if first.Err? then ErrList(first.error) else
      var rest := ParseList(parts[1..], bound);
      if rest.ErrList? then rest else OkList([first.ref] + rest.refs)
  }

  function ToPointer(p: Parsed, nullable: bool): Parsed {
    if p.Err? then p else Ok(Pointer(p.ref, nullable))
  }

  function ToSlice(p: Parsed): Parsed {
    if p.Err? then p else Ok(Slice(p.ref))
  }

  function ToArray(n: int, p: Parsed): Parsed {
    if p.Err? then p else Ok(Array(n, p.ref))
  }

  function ToFn(params: seq<TypeRef>, ret: Parsed, fallible: bool): Parsed {
    if ret.Err? then ret else Ok(Fn(params, ret.ref, fallible))
  }
}
