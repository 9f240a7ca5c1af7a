/**
 The type part of the recursive-descent parser (compiler/parser.py): a cursor that moves over the
 token list, proved against a function on the tokens that are left.
 */
module TypeTokens {
  import opened Prelude
  import opened TypeRefs

  /** The token kinds a type can meet; Other is any further kind. */
  datatype Token =
    | Question | Star | Fun | Err | Comma | Dot
    | LParen | RParen | LBracket | RBracket
    | Ident(name: string) | Integer(n: nat, suffix: Option<string>) | Other(kind: string) | Eof

  datatype Read = Read(ref: TypeRef, rest: seq<Token>) | Rejected
  datatype ReadList = ReadList(refs: seq<TypeRef>, rest: seq<Token>) | ListRejected

  predicate Starts(ts: seq<Token>, t: Token) {
    ts != [] && ts[0] == t
  }

  // ----- specification --------------------------------------------------------------------------

  function ReadType(ts: seq<Token>): (r: Read)
    ensures r.Read? ==> |r.rest| < |ts|
    decreases |ts|, 1
  {
    if Starts(ts, Question) then
      if Starts(ts[1..], Star) then WithInner(ReadType(ts[2..]), true) else Rejected
    else if Starts(ts, Fun) then
      if Starts(ts[1..], LParen) then ReadFn(ts[2..]) else Rejected
    else if Starts(ts, Star) then WithInner(ReadType(ts[1..]), false)
    else if Starts(ts, LBracket) then ReadSequence(ts[1..])
    else if ts != [] && ts[0].Ident? then ReadNominal(ts[0].name, ts[1..])
    else Rejected
  }

  function WithInner(r: Read, nullable: bool): Read {
    if r.Read? then Read(Pointer(r.ref, nullable), r.rest) else Rejected
  }

  /** Behind `fun (`: after the return type an `err` that is still there belongs to this function. */
  function ReadFn(ts: seq<Token>): (r: Read)
    ensures r.Read? ==> |r.rest| < |ts|
    decreases |ts|, 4
  {
    var params := ReadTypes(ts, RParen);
    if params.ListRejected? || !Starts(params.rest, RParen) then Rejected else
    var ret := ReadType(params.rest[1..]);
    if ret.Rejected? then Rejected
    else if Starts(ret.rest, Err) then Read(Fn(params.refs, ret.ref, true), ret.rest[1..])
    else Read(Fn(params.refs, ret.ref, false), ret.rest)
  }

  /** Behind `[`: a slice or an array. */
  function ReadSequence(ts: seq<Token>): (r: Read)
    ensures r.Read? ==> |r.rest| < |ts|
    decreases |ts|, 4
  {
    if Starts(ts, RBracket) then
      var elem := ReadType(ts[1..]);
      if elem.Read? then Read(Slice(elem.ref), elem.rest) else Rejected
    else if ts != [] && ts[0].Integer? && ts[0].suffix.None? && Starts(ts[1..], RBracket) then
      var elem := ReadType(ts[2..]);
      if elem.Read? then Read(Array(ts[0].n, elem.ref), elem.rest) else Rejected
    else Rejected
  }

  /** Behind a name: one qualification and one argument list at most. */
  function ReadNominal(name: string, ts: seq<Token>): (r: Read)
    ensures r.Read? ==> |r.rest| <= |ts|
    decreases |ts|, 4
  {
    if Starts(ts, Dot) then
      if |ts| > 1 && ts[1].Ident? then ReadArguments(name + "." + ts[1].name, ts[2..]) else Rejected
    else ReadArguments(name, ts)
  }

  function ReadArguments(name: string, ts: seq<Token>): (r: Read)
    ensures r.Read? ==> |r.rest| <= |ts|
    decreases |ts|, 3
  {
    if !Starts(ts, LBracket) then Read(Named(name), ts)
    else
      var args := ReadTypes(ts[1..], RBracket);
      if args.ListRejected? || !Starts(args.rest, RBracket) then Rejected
      else Read(Generic(Named(name), args.refs), args.rest[1..])
  }

  function ReadTypes(ts: seq<Token>, end: Token): (r: ReadList)
    ensures r.ReadList? ==> |r.rest| <= |ts|
    decreases |ts|, 3
  {
    if Starts(ts, end) then ReadList([], ts) else ReadItems(ts, end)
  }

  /** At least one item; a comma right before the end is allowed. */
  function ReadItems(ts: seq<Token>, end: Token): (r: ReadList)
    ensures r.ReadList? ==> |r.rest| <= |ts|
    decreases |ts|, 2
  {
    var first := ReadType(ts);
    if first.Rejected? then ListRejected
    else if !Starts(first.rest, Comma) then ReadList([first.ref], first.rest)
    else if Starts(first.rest[1..], end) then ReadList([first.ref], first.rest[1..])
    else Prepend([first.ref], ReadItems(first.rest[1..], end))
  }

  function Prepend(refs: seq<TypeRef>, r: ReadList): ReadList {
    if r.ReadList? then ReadList(refs + r.refs, r.rest) else ListRejected
  }

  /** One turn of the item loop. */
  lemma ItemStep(refs: seq<TypeRef>, ts: seq<Token>, end: Token)
    ensures var first := ReadType(ts);
            Prepend(refs, ReadItems(ts, end)) ==
            if first.Rejected? then ListRejected
            else if !Starts(first.rest, Comma) then ReadList(refs + [first.ref], first.rest)
            else if Starts(first.rest[1..], end) then ReadList(refs + [first.ref], first.rest[1..])
            else Prepend(refs + [first.ref], ReadItems(first.rest[1..], end))
  {
    var first := ReadType(ts);
    if first.Read? && Starts(first.rest, Comma) && !Starts(first.rest[1..], end) &&
        ReadItems(first.rest[1..], end).ReadList? {
      var more := ReadItems(first.rest[1..], end).refs;
      assert refs + ([first.ref] + more) == refs + [first.ref] + more;
    }
  }

  // ----- the parser -------------------------------------------------------------------------------

  class Parser {
    const tokens: seq<Token>
    var pos: nat

    /** The token list ends with the end-of-file token, and the cursor never leaves it. */
    ghost predicate Valid()
      reads this
    {
      pos < |tokens| && tokens[|tokens| - 1] == Eof
    }

    ghost function Left(): seq<Token>
      requires Valid()
      reads this
    {
      tokens[pos..]
    }

    constructor (tokens: seq<Token>)
      requires tokens != [] && tokens[|tokens| - 1] == Eof
      ensures Valid() && this.tokens == tokens && Left() == tokens
    {
      this.tokens := tokens;
      pos := 0;
    }

    function Peek(): (t: Token)
      requires Valid()
      reads this
      ensures t == Left()[0]
    {
      tokens[pos]
    }

    /** Nothing but the end of file is ever the last token, so moving past another one is safe. */
    method Advance() returns (t: Token)
      requires Valid() && Peek() != Eof
      modifies this`pos
      ensures Valid() && t == old(Left()[0]) && Left() == old(Left()[1..]) && pos == old(pos) + 1
    {
      t := tokens[pos];
      pos := pos + 1;
    }

    method Match(kind: Token) returns (hit: bool)
      requires Valid() && kind != Eof
      modifies this`pos
      ensures Valid() && hit == Starts(old(Left()), kind)
      ensures Left() == if hit then old(Left()[1..]) else old(Left())
      ensures pos == old(pos) + if hit then 1 else 0
    {
      hit := Peek() == kind;
      if hit {
        var t := Advance();
      }
    }

    method ParseType() returns (r: Option<TypeRef>)
      requires Valid()
      modifies this`pos
      ensures Valid()
      ensures match ReadType(old(Left()))
              case Read(ref, rest) => r == Some(ref) && Left() == rest && pos > old(pos)
              case Rejected => r == None
      decreases |tokens| - pos, 1
    {
      var question := Match(Question);
      if question {
        var star := Match(Star);
        if !star {
          return None;
        }
        var inner := ParseType();
        return if inner.Some? then Some(Pointer(inner.value, true)) else None;
      }
      var fun_ := Match(Fun);
      if fun_ {
        var open := Match(LParen);
        if !open {
          return None;
        }
        r := ParseFnRest();
        return;
      }
      var pointer := Match(Star);
      if pointer {
        var inner := ParseType();
        return if inner.Some? then Some(Pointer(inner.value, false)) else None;
      }
      var bracket := Match(LBracket);
      if bracket {
        r := ParseSequenceRest();
        return;
      }
      if !Peek().Ident? {
        return None;
      }
      var name := Advance();
      r := ParseNominalRest(name.name);
    }

    method ParseFnRest() returns (r: Option<TypeRef>)
      requires Valid()
      modifies this`pos
      ensures Valid()
      ensures match ReadFn(old(Left()))
              case Read(ref, rest) => r == Some(ref) && Left() == rest && pos > old(pos)
              case Rejected => r == None
      decreases |tokens| - pos, 4
    {
      var params := ParseTypes(RParen);
      if params.None? {
        return None;
      }
      var close := Match(RParen);
      if !close {
        return None;
      }
      var ret := ParseType();
      if ret.None? {
        return None;
      }
      var fallible := Match(Err);
      r := Some(Fn(params.value, ret.value, fallible));
    }

    method ParseSequenceRest() returns (r: Option<TypeRef>)
      requires Valid()
      modifies this`pos
      ensures Valid()
      ensures match ReadSequence(old(Left()))
              case Read(ref, rest) => r == Some(ref) && Left() == rest && pos > old(pos)
              case Rejected => r == None
      decreases |tokens| - pos, 4
    {
      var length := None;
      if Peek() != RBracket {
        if !Peek().Integer? {
          return None;
        }
        var t := Advance();
        if t.suffix.Some? {
          return None;
        }
        length := Some(t.n);
      }
      var close := Match(RBracket);
      if !close {
        return None;
      }
      var elem := ParseType();
      if elem.None? {
        return None;
      }
      r := Some(if length.None? then Slice(elem.value) else Array(length.value, elem.value));
    }

    method ParseNominalRest(first: string) returns (r: Option<TypeRef>)
      requires Valid()
      modifies this`pos
      ensures Valid()
      ensures match ReadNominal(first, old(Left()))
              case Read(ref, rest) => r == Some(ref) && Left() == rest && pos >= old(pos)
              case Rejected => r == None
      decreases |tokens| - pos, 4
    {
      hide ReadArguments;
      var name := first;
      var dot := Match(Dot);
      if dot {
        if !Peek().Ident? {
          return None;
        }
        assert Left() == old(Left())[1..] && Left()[1..] == old(Left())[2..];
        var second := Advance();
        name := name + "." + second.name;
      }
      r := ParseArguments(name);
    }

    method ParseArguments(name: string) returns (r: Option<TypeRef>)
      requires Valid()
      modifies this`pos
      ensures Valid()
      ensures match ReadArguments(name, old(Left()))
              case Read(ref, rest) => r == Some(ref) && Left() == rest && pos >= old(pos)
              case Rejected => r == None
      decreases |tokens| - pos, 3
    {
      hide ReadTypes;
      var open := Match(LBracket);
      if !open {
        return Some(Named(name));
      }
      var args := ParseTypes(RBracket);
      if args.None? {
        return None;
      }
      var close := Match(RBracket);
      r := if close then Some(Generic(Named(name), args.value)) else None;
    }

    /** _parse_comma_list with _parse_type for its items. */
    method ParseTypes(end: Token) returns (items: Option<seq<TypeRef>>)
      requires Valid() && end != Eof
      modifies this`pos
      ensures Valid()
      ensures match ReadTypes(old(Left()), end)
              case ReadList(refs, rest) => items == Some(refs) && Left() == rest && pos >= old(pos)
              case ListRejected => items == None
      decreases |tokens| - pos, 3
    {
      if Peek() == end {
        return Some([]);
      }
      hide ReadItems;
      items := ParseItems(end);
    }

    method ParseItems(end: Token) returns (items: Option<seq<TypeRef>>)
      requires Valid() && end != Eof
      modifies this`pos
      ensures Valid()
      ensures match ReadItems(old(Left()), end)
              case ReadList(refs, rest) => items == Some(refs) && Left() == rest && pos >= old(pos)
              case ListRejected => items == None
      decreases |tokens| - pos, 2
    {
      hide ReadType, ReadItems;
      ghost var wanted := ReadItems(Left(), end);
      var refs: seq<TypeRef> := [];
      assert wanted == Prepend([], wanted);
      while true
        invariant Valid() && pos >= old(pos) && wanted == Prepend(refs, ReadItems(Left(), end))
        decreases |tokens| - pos
      {
        ItemStep(refs, Left(), end);
        var item := ParseType();
        if item.None? {
          return None;
        }
        refs := refs + [item.value];
        var comma := Match(Comma);
        if !comma || Peek() == end {
          return Some(refs);
        }
      }
    }
  }
}
