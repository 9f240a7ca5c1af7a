/**
 Expansion of type aliases (compiler/__init__.py over compiler/type_ref.py's rewriting): it always
 ends, it fails exactly when an alias cycle can be reached, and what it yields is free of aliases.
 */
module AliasExpansion {
  import opened TypeRefs

  type Aliases = map<string, TypeRef>

  datatype Expanded = Good(ref: TypeRef) | Cycle(path: seq<string>)
  datatype ExpandedList = GoodList(refs: seq<TypeRef>) | CycleIn(path: seq<string>)

  function SetOf(names: seq<string>): set<string> {
    set n | n in names
  }

  lemma MoreOnStack(aliases: Aliases, stack: seq<string>, name: string)
    requires name in aliases && name !in stack
    ensures |aliases.Keys - SetOf(stack + [name])| < |aliases.Keys - SetOf(stack)|
  {
    assert SetOf(stack + [name]) == SetOf(stack) + {name};
    assert aliases.Keys - SetOf(stack + [name]) == aliases.Keys - SetOf(stack) - {name};
  }

  // ----- specification --------------------------------------------------------------------------------

  /** The type with every alias replaced; `stack` holds the aliases being expanded. */
  function Expand(t: TypeRef, aliases: Aliases, stack: seq<string>): Expanded
    decreases |aliases.Keys - SetOf(stack)|, t
  {
    match t
    case Named(name) =>
      if name !in aliases then Good(t)
      else if name in stack then Cycle(stack + [name])
      else
        MoreOnStack(aliases, stack, name);
        Expand(aliases[name], aliases, stack + [name])
    case Pointer(inner, nullable) =>
      (match Expand(inner, aliases, stack) case Good(r) => Good(Pointer(r, nullable)) case Cycle(p) => Cycle(p))
    case Slice(elem) =>
      (match Expand(elem, aliases, stack) case Good(r) => Good(Slice(r)) case Cycle(p) => Cycle(p))
    case Array(length, elem) =>
      (match Expand(elem, aliases, stack) case Good(r) => Good(Array(length, r)) case Cycle(p) => Cycle(p))
    case Fn(params, ret, fallible) =>
      (match ExpandList(params, aliases, stack)
       case CycleIn(p) => Cycle(p)
       case GoodList(ps) =>
         match Expand(ret, aliases, stack) case Good(r) => Good(Fn(ps, r, fallible)) case Cycle(p) => Cycle(p))
    case Generic(base, args) =>
      match Expand(base, aliases, stack)
      case Cycle(p) => Cycle(p)
      case Good(b) =>
        match ExpandList(args, aliases, stack) case GoodList(xs) => Good(Generic(b, xs)) case CycleIn(p) => Cycle(p)
  }

  function ExpandList(ts: seq<TypeRef>, aliases: Aliases, stack: seq<string>): ExpandedList
    decreases |aliases.Keys - SetOf(stack)|, ts
  {
    if ts == [] then GoodList([])
    else match Expand(ts[0], aliases, stack)
      case Cycle(p) => CycleIn(p)
      case Good(r) =>
        match ExpandList(ts[1..], aliases, stack) case GoodList(rs) => GoodList([r] + rs) case CycleIn(p) => CycleIn(p)
  }

  // ----- the code: one shared stack that is pushed and popped --------------------------------------------

  class Expander {
    const aliases: Aliases
    var stack: seq<string>

    constructor (aliases: Aliases)
      ensures this.aliases == aliases && stack == []
    {
      this.aliases := aliases;
      stack := [];
    }

    /** A failure leaves the stack as it was when the cycle was met. */
    ghost predicate LeftAt(before: seq<string>, r: Expanded)
      reads this
    {
      match r
      case Good(_) => stack == before
      case Cycle(path) => path != [] && stack == path[..|path| - 1]
    }

    method ExpandName(name: string) returns (r: Expanded)
      modifies this`stack
      ensures r == Expand(Named(name), aliases, old(stack)) && LeftAt(old(stack), r)
      decreases |aliases.Keys - SetOf(stack)|, Named(name), 0
    {
      if name !in aliases {
        return Good(Named(name));
      }
      if name in stack {
        return Cycle(stack + [name]);
      }
      MoreOnStack(aliases, stack, name);
      stack := stack + [name];
      r := ExpandType(aliases[name]);
      if r.Good? {
        stack := stack[..|stack| - 1];
      }
    }

    method ExpandType(t: TypeRef) returns (r: Expanded)
      modifies this`stack
      ensures r == Expand(t, aliases, old(stack)) && LeftAt(old(stack), r)
      decreases |aliases.Keys - SetOf(stack)|, t, 1
    {
      match t
      case Named(name) => r := ExpandName(name);
      case Pointer(inner, nullable) =>
        r := ExpandType(inner);
        if r.Good? {
          r := Good(Pointer(r.ref, nullable));
        }
      case Slice(elem) =>
        r := ExpandType(elem);
        if r.Good? {
          r := Good(Slice(r.ref));
        }
      case Array(length, elem) =>
        r := ExpandType(elem);
        if r.Good? {
          r := Good(Array(length, r.ref));
        }
      case Fn(params, ret, fallible) =>
        var ps := ExpandEach(params);
        if ps.CycleIn? {
          return Cycle(ps.path);
        }
        r := ExpandType(ret);
        if r.Good? {
          r := Good(Fn(ps.refs, r.ref, fallible));
        }
      case Generic(base, args) =>
        var b := ExpandType(base);
        if b.Cycle? {
          return b;
        }
        var xs := ExpandEach(args);
        r := if xs.GoodList? then Good(Generic(b.ref, xs.refs)) else Cycle(xs.path);
    }

    method ExpandEach(ts: seq<TypeRef>) returns (r: ExpandedList)
      modifies this`stack
      ensures r == ExpandList(ts, aliases, old(stack))
      ensures match r case GoodList(_) => stack == old(stack) case CycleIn(path) => LeftAt(old(stack), Cycle(path))
      decreases |aliases.Keys - SetOf(stack)|, ts, 0
    {
      if ts == [] {
        return GoodList([]);
      }
      var first := ExpandType(ts[0]);
      if first.Cycle? {
        return CycleIn(first.path);
      }
      r := ExpandEach(ts[1..]);
      if r.GoodList? {
        r := GoodList([first.ref] + r.refs);
      }
    }
  }

  // ----- alias cycles -----------------------------------------------------------------------------------

  /** Names in type position. */
  function Mentions(t: TypeRef): set<string> {
    match t
    case Named(name) => {name}
    case Pointer(inner, _) => Mentions(inner)
    case Slice(elem) => Mentions(elem)
    case Array(_, elem) => Mentions(elem)
    case Fn(params, ret, _) => MentionsAny(params) + Mentions(ret)
    case Generic(base, args) => Mentions(base) + MentionsAny(args)
  }

  function MentionsAny(ts: seq<TypeRef>): set<string> {
    if ts == [] then {} else Mentions(ts[0]) + MentionsAny(ts[1..])
  }

  /** A chain of aliases: the first is one of `from`, each next one is mentioned by the one before. */
  ghost predicate Walk(from: set<string>, aliases: Aliases, path: seq<string>)
    decreases |path|
  {
    path == [] || (path[0] in from && path[0] in aliases && Walk(Mentions(aliases[path[0]]), aliases, path[1..]))
  }

  /** The chain comes back to a name it has been at. */
  ghost predicate Repeats(path: seq<string>) {
    path != [] && path[|path| - 1] in path[..|path| - 1]
  }

  ghost predicate Cyclic(from: set<string>, aliases: Aliases) {
    exists path :: Walk(from, aliases, path) && Repeats(path)
  }

  /** The reported path is a chain that repeats, after what was on the stack already. */
  ghost predicate Reported(path: seq<string>, from: set<string>, aliases: Aliases, stack: seq<string>) {
    && |stack| < |path| && path[..|stack|] == stack && Repeats(path)
    && Walk(from, aliases, path[|stack|..])
  }

  lemma ReportedFromMore(path: seq<string>, from: set<string>, more: set<string>, aliases: Aliases, stack: seq<string>)
    requires Reported(path, from, aliases, stack) && from <= more
    ensures Reported(path, more, aliases, stack)
  {
  }

  lemma {:induction false} CycleFound(t: TypeRef, aliases: Aliases, stack: seq<string>)
    requires Expand(t, aliases, stack).Cycle?
    ensures Reported(Expand(t, aliases, stack).path, Mentions(t), aliases, stack)
    decreases |aliases.Keys - SetOf(stack)|, t
  {
    hide Reported;
    var path := Expand(t, aliases, stack).path;
    match t
    case Named(name) =>
      if name in stack {
        ReportedHere(name, aliases, stack);
      } else {
        MoreOnStack(aliases, stack, name);
        CycleFound(aliases[name], aliases, stack + [name]);
        ReportedBehind(path, name, aliases, stack);
      }
    case Pointer(inner, _) => CycleFound(inner, aliases, stack);
    case Slice(elem) => CycleFound(elem, aliases, stack);
    case Array(_, elem) => CycleFound(elem, aliases, stack);
    case Fn(params, ret, _) =>
      if ExpandList(params, aliases, stack).CycleIn? {
        CycleFoundIn(params, aliases, stack);
        ReportedFromMore(path, MentionsAny(params), Mentions(t), aliases, stack);
      } else {
        CycleFound(ret, aliases, stack);
        ReportedFromMore(path, Mentions(ret), Mentions(t), aliases, stack);
      }
    case Generic(base, args) =>
      if Expand(base, aliases, stack).Cycle? {
        CycleFound(base, aliases, stack);
        ReportedFromMore(path, Mentions(base), Mentions(t), aliases, stack);
      } else {
        CycleFoundIn(args, aliases, stack);
        ReportedFromMore(path, MentionsAny(args), Mentions(t), aliases, stack);
      }
  }

  lemma ReportedHere(name: string, aliases: Aliases, stack: seq<string>)
    requires name in aliases && name in stack
    ensures Reported(stack + [name], {name}, aliases, stack)
  {
    assert (stack + [name])[|stack|..] == [name];
  }

  lemma ReportedBehind(path: seq<string>, name: string, aliases: Aliases, stack: seq<string>)
    requires name in aliases && Reported(path, Mentions(aliases[name]), aliases, stack + [name])
    ensures Reported(path, {name}, aliases, stack)
  {
    var upTo := path[..|stack + [name]|];
    assert path[|stack|] == upTo[|stack|] == name && path[..|stack|] == upTo[..|stack|] == stack;
    assert path[|stack|..][1..] == path[|stack + [name]|..];
  }

  lemma {:induction false} CycleFoundIn(ts: seq<TypeRef>, aliases: Aliases, stack: seq<string>)
    requires ExpandList(ts, aliases, stack).CycleIn?
    ensures Reported(ExpandList(ts, aliases, stack).path, MentionsAny(ts), aliases, stack)
    decreases |aliases.Keys - SetOf(stack)|, ts
  {
    hide Reported;
    var path := ExpandList(ts, aliases, stack).path;
    if Expand(ts[0], aliases, stack).Cycle? {
      CycleFound(ts[0], aliases, stack);
      ReportedFromMore(path, Mentions(ts[0]), MentionsAny(ts), aliases, stack);
    } else {
      CycleFoundIn(ts[1..], aliases, stack);
      ReportedFromMore(path, MentionsAny(ts[1..]), MentionsAny(ts), aliases, stack);
    }
  }

  /** Behind a successful expansion every mentioned alias was off the stack and expanded too. */
  lemma {:induction false} MentionGood(t: TypeRef, aliases: Aliases, stack: seq<string>, name: string)
    requires Expand(t, aliases, stack).Good? && name in Mentions(t) && name in aliases
    ensures name !in stack && Expand(aliases[name], aliases, stack + [name]).Good?
    decreases t
  {
    match t
    case Named(_) =>
    case Pointer(inner, _) => MentionGood(inner, aliases, stack, name);
    case Slice(elem) => MentionGood(elem, aliases, stack, name);
    case Array(_, elem) => MentionGood(elem, aliases, stack, name);
    case Fn(params, ret, _) =>
      if name in Mentions(ret) {
        MentionGood(ret, aliases, stack, name);
      } else {
        MentionGoodIn(params, aliases, stack, name);
      }
    case Generic(base, args) =>
      if name in Mentions(base) {
        MentionGood(base, aliases, stack, name);
      } else {
        MentionGoodIn(args, aliases, stack, name);
      }
  }

  lemma {:induction false} MentionGoodIn(ts: seq<TypeRef>, aliases: Aliases, stack: seq<string>, name: string)
    requires ExpandList(ts, aliases, stack).GoodList? && name in MentionsAny(ts) && name in aliases
    ensures name !in stack && Expand(aliases[name], aliases, stack + [name]).Good?
    decreases ts
  {
    if name in Mentions(ts[0]) {
      MentionGood(ts[0], aliases, stack, name);
    } else {
      MentionGoodIn(ts[1..], aliases, stack, name);
    }
  }

  /** So no chain from it comes back to the stack or to itself. */
  lemma {:induction false} GoodWalks(t: TypeRef, aliases: Aliases, stack: seq<string>, path: seq<string>)
    requires Expand(t, aliases, stack).Good? && Walk(Mentions(t), aliases, path)
    ensures forall n :: n in path ==> n !in stack
    ensures !Repeats(path)
    decreases |path|
  {
    if path != [] {
      MentionGood(t, aliases, stack, path[0]);
      GoodWalks(aliases[path[0]], aliases, stack + [path[0]], path[1..]);
      assert forall n :: n in path ==> n == path[0] || n in path[1..];
      assert path[0] in stack + [path[0]];
      RepeatsLater(path);
    }
  }

  lemma RepeatsLater(path: seq<string>)
    requires path != []
    ensures Repeats(path) ==> Repeats(path[1..]) || path[0] in path[1..]
  {
    if Repeats(path) {
      var rest := path[1..];
      var i :| 0 <= i < |path| - 1 && path[..|path| - 1][i] == path[|path| - 1];
      assert rest[|rest| - 1] == path[|path| - 1];
      if i > 0 {
        assert rest[..|rest| - 1][i - 1] == path[i];
      } else {
        assert path[0] == rest[|rest| - 1];
      }
    }
  }

  /** Expansion fails exactly when a cycle of aliases can be reached from the type. */
  lemma FailsIffCyclic(t: TypeRef, aliases: Aliases)
    ensures Expand(t, aliases, []).Cycle? <==> Cyclic(Mentions(t), aliases)
  {
    if Expand(t, aliases, []).Cycle? {
      CycleFound(t, aliases, []);
      var path := Expand(t, aliases, []).path;
      assert path[0..] == path;
    }
    if Cyclic(Mentions(t), aliases) {
      var path :| Walk(Mentions(t), aliases, path) && Repeats(path);
      if Expand(t, aliases, []).Good? {
        GoodWalks(t, aliases, [], path);
      }
    }
  }

  // ----- what a successful expansion yields ----------------------------------------------------------------

  lemma {:induction false} NoAliasLeft(t: TypeRef, aliases: Aliases, stack: seq<string>)
    requires Expand(t, aliases, stack).Good?
    ensures Mentions(Expand(t, aliases, stack).ref) !! aliases.Keys
    decreases |aliases.Keys - SetOf(stack)|, t
  {
    match t
    case Named(name) =>
      if name in aliases {
        MoreOnStack(aliases, stack, name);
        NoAliasLeft(aliases[name], aliases, stack + [name]);
      }
    case Pointer(inner, _) => NoAliasLeft(inner, aliases, stack);
    case Slice(elem) => NoAliasLeft(elem, aliases, stack);
    case Array(_, elem) => NoAliasLeft(elem, aliases, stack);
    case Fn(params, ret, _) =>
      NoAliasLeftIn(params, aliases, stack);
      NoAliasLeft(ret, aliases, stack);
    case Generic(base, args) =>
      NoAliasLeft(base, aliases, stack);
      NoAliasLeftIn(args, aliases, stack);
  }

  lemma {:induction false} NoAliasLeftIn(ts: seq<TypeRef>, aliases: Aliases, stack: seq<string>)
    requires ExpandList(ts, aliases, stack).GoodList?
    ensures MentionsAny(ExpandList(ts, aliases, stack).refs) !! aliases.Keys
    decreases |aliases.Keys - SetOf(stack)|, ts
  {
    if ts != [] {
      NoAliasLeft(ts[0], aliases, stack);
      NoAliasLeftIn(ts[1..], aliases, stack);
      var refs := ExpandList(ts, aliases, stack).refs;
      assert refs[1..] == ExpandList(ts[1..], aliases, stack).refs;
    }
  }

  /** Nothing to expand, nothing changes, whatever is on the stack. */
  lemma {:induction false} WithoutAliases(t: TypeRef, aliases: Aliases, stack: seq<string>)
    requires Mentions(t) !! aliases.Keys
    ensures Expand(t, aliases, stack) == Good(t)
    decreases t
  {
    match t
    case Named(_) =>
    case Pointer(inner, _) => WithoutAliases(inner, aliases, stack);
    case Slice(elem) => WithoutAliases(elem, aliases, stack);
    case Array(_, elem) => WithoutAliases(elem, aliases, stack);
    case Fn(params, ret, _) =>
      WithoutAliasesIn(params, aliases, stack);
      WithoutAliases(ret, aliases, stack);
    case Generic(base, args) =>
      WithoutAliases(base, aliases, stack);
      WithoutAliasesIn(args, aliases, stack);
  }

  lemma {:induction false} WithoutAliasesIn(ts: seq<TypeRef>, aliases: Aliases, stack: seq<string>)
    requires MentionsAny(ts) !! aliases.Keys
    ensures ExpandList(ts, aliases, stack) == GoodList(ts)
    decreases ts
  {
    if ts != [] {
      WithoutAliases(ts[0], aliases, stack);
      WithoutAliasesIn(ts[1..], aliases, stack);
      assert ts == [ts[0]] + ts[1..];
    }
  }

  /** The result mentions no alias, and expanding it again changes nothing. */
  lemma ExpansionSettles(t: TypeRef, aliases: Aliases)
    requires Expand(t, aliases, []).Good?
    ensures var r := Expand(t, aliases, []).ref;
            Mentions(r) !! aliases.Keys && Expand(r, aliases, []) == Good(r)
  {
    NoAliasLeft(t, aliases, []);
    WithoutAliases(Expand(t, aliases, []).ref, aliases, []);
  }

  // ----- the meaning of aliases: equations and their only solution ---------------------------------------------

  /** Structural substitution, without looking at what is put in. */
  function Subst(t: TypeRef, env: map<string, TypeRef>): TypeRef {
    match t
    case Named(name) => if name in env then env[name] else t
    case Pointer(inner, nullable) => Pointer(Subst(inner, env), nullable)
    case Slice(elem) => Slice(Subst(elem, env))
    case Array(length, elem) => Array(length, Subst(elem, env))
    case Fn(params, ret, fallible) => Fn(SubstList(params, env), Subst(ret, env), fallible)
    case Generic(base, args) => Generic(Subst(base, env), SubstList(args, env))
  }

  function SubstList(ts: seq<TypeRef>, env: map<string, TypeRef>): seq<TypeRef> {
    if ts == [] then [] else [Subst(ts[0], env)] + SubstList(ts[1..], env)
  }

  /** Read as equations, `type A = T` says that A stands for T with all aliases resolved. */
  ghost predicate Solves(env: map<string, TypeRef>, aliases: Aliases) {
    env.Keys == aliases.Keys && forall n :: n in aliases ==> env[n] == Subst(aliases[n], env)
  }

  /** Whatever solves the equations, expansion agrees with it: there is at most one solution. */
  lemma {:induction false} ExpansionIsSolution(t: TypeRef, aliases: Aliases, stack: seq<string>,
                                               env: map<string, TypeRef>)
    requires Solves(env, aliases) && Expand(t, aliases, stack).Good?
    ensures Expand(t, aliases, stack).ref == Subst(t, env)
    decreases |aliases.Keys - SetOf(stack)|, t
  {
    match t
    case Named(name) =>
      if name in aliases {
        MoreOnStack(aliases, stack, name);
        ExpansionIsSolution(aliases[name], aliases, stack + [name], env);
      }
    case Pointer(inner, _) => ExpansionIsSolution(inner, aliases, stack, env);
    case Slice(elem) => ExpansionIsSolution(elem, aliases, stack, env);
    case Array(_, elem) => ExpansionIsSolution(elem, aliases, stack, env);
    case Fn(params, ret, _) =>
      ExpansionIsSolutionIn(params, aliases, stack, env);
      ExpansionIsSolution(ret, aliases, stack, env);
    case Generic(base, args) =>
      ExpansionIsSolution(base, aliases, stack, env);
      ExpansionIsSolutionIn(args, aliases, stack, env);
  }

  lemma {:induction false} ExpansionIsSolutionIn(ts: seq<TypeRef>, aliases: Aliases, stack: seq<string>,
                                                 env: map<string, TypeRef>)
    requires Solves(env, aliases) && ExpandList(ts, aliases, stack).GoodList?
    ensures ExpandList(ts, aliases, stack).refs == SubstList(ts, env)
    decreases |aliases.Keys - SetOf(stack)|, ts
  {
    if ts != [] {
      ExpansionIsSolution(ts[0], aliases, stack, env);
      ExpansionIsSolutionIn(ts[1..], aliases, stack, env);
    }
  }

  /** The stack decides whether expansion succeeds, not what it yields. */
  lemma {:induction false} StackIrrelevant(t: TypeRef, aliases: Aliases, s1: seq<string>, s2: seq<string>)
    requires Expand(t, aliases, s1).Good? && Expand(t, aliases, s2).Good?
    ensures Expand(t, aliases, s1) == Expand(t, aliases, s2)
    decreases |aliases.Keys - SetOf(s1)|, t
  {
    match t
    case Named(name) =>
      if name in aliases {
        MoreOnStack(aliases, s1, name);
        StackIrrelevant(aliases[name], aliases, s1 + [name], s2 + [name]);
      }
    case Pointer(inner, _) => StackIrrelevant(inner, aliases, s1, s2);
    case Slice(elem) => StackIrrelevant(elem, aliases, s1, s2);
    case Array(_, elem) => StackIrrelevant(elem, aliases, s1, s2);
    case Fn(params, ret, _) =>
      StackIrrelevantIn(params, aliases, s1, s2);
      StackIrrelevant(ret, aliases, s1, s2);
    case Generic(base, args) =>
      StackIrrelevant(base, aliases, s1, s2);
      StackIrrelevantIn(args, aliases, s1, s2);
  }

  lemma {:induction false} StackIrrelevantIn(ts: seq<TypeRef>, aliases: Aliases, s1: seq<string>, s2: seq<string>)
    requires ExpandList(ts, aliases, s1).GoodList? && ExpandList(ts, aliases, s2).GoodList?
    ensures ExpandList(ts, aliases, s1) == ExpandList(ts, aliases, s2)
    decreases |aliases.Keys - SetOf(s1)|, ts
  {
    if ts != [] {
      StackIrrelevant(ts[0], aliases, s1, s2);
      StackIrrelevantIn(ts[1..], aliases, s1, s2);
    }
  }

  /** What each alias expands to. */
  function Expansions(aliases: Aliases): map<string, TypeRef>
    requires forall n :: n in aliases ==> Expand(Named(n), aliases, []).Good?
  {
    map n | n in aliases :: Expand(Named(n), aliases, []).ref
  }

  lemma {:induction false} ExpansionSubstitutes(t: TypeRef, aliases: Aliases, stack: seq<string>)
    requires forall n :: n in aliases ==> Expand(Named(n), aliases, []).Good?
    requires Expand(t, aliases, stack).Good?
    ensures Expand(t, aliases, stack).ref == Subst(t, Expansions(aliases))
    decreases t
  {
    match t
    case Named(name) =>
      if name in aliases {
        StackIrrelevant(t, aliases, stack, []);
      }
    case Pointer(inner, _) => ExpansionSubstitutes(inner, aliases, stack);
    case Slice(elem) => ExpansionSubstitutes(elem, aliases, stack);
    case Array(_, elem) => ExpansionSubstitutes(elem, aliases, stack);
    case Fn(params, ret, _) =>
      ExpansionSubstitutesIn(params, aliases, stack);
      ExpansionSubstitutes(ret, aliases, stack);
    case Generic(base, args) =>
      ExpansionSubstitutes(base, aliases, stack);
      ExpansionSubstitutesIn(args, aliases, stack);
  }

  lemma {:induction false} ExpansionSubstitutesIn(ts: seq<TypeRef>, aliases: Aliases, stack: seq<string>)
    requires forall n :: n in aliases ==> Expand(Named(n), aliases, []).Good?
    requires ExpandList(ts, aliases, stack).GoodList?
    ensures ExpandList(ts, aliases, stack).refs == SubstList(ts, Expansions(aliases))
    decreases ts
  {
    if ts != [] {
      ExpansionSubstitutes(ts[0], aliases, stack);
      ExpansionSubstitutesIn(ts[1..], aliases, stack);
    }
  }

  /** Without cycles the alias equations have a solution, and expansion substitutes it. */
  lemma AcyclicAliasesSolved(aliases: Aliases, t: TypeRef)
    requires !Cyclic(aliases.Keys, aliases)
    ensures forall n :: n in aliases ==> Expand(Named(n), aliases, []).Good?
    ensures Solves(Expansions(aliases), aliases)
    ensures Expand(t, aliases, []) == Good(Subst(t, Expansions(aliases)))
    ensures forall env :: Solves(env, aliases) ==> Subst(t, env) == Expand(t, aliases, []).ref
  {
    forall n | n in aliases
      ensures Expand(Named(n), aliases, []).Good?
    {
      ValidatedNeverFails(Named(n), aliases);
    }
    forall n | n in aliases
      ensures Expansions(aliases)[n] == Subst(aliases[n], Expansions(aliases))
    {
      ExpansionSubstitutes(aliases[n], aliases, [] + [n]);
    }
    ValidatedNeverFails(t, aliases);
    ExpansionSubstitutes(t, aliases, []);
    forall env | Solves(env, aliases)
      ensures Subst(t, env) == Expand(t, aliases, []).ref
    {
      ExpansionIsSolution(t, aliases, [], env);
    }
  }

  // ----- validation up front ----------------------------------------------------------------------------------

  /** Every alias is expanded once, in declaration order, before any use is. */
  method Validate(names: seq<string>, aliases: Aliases) returns (r: Expanded)
    requires SetOf(names) == aliases.Keys
    ensures r.Good? <==> !Cyclic(aliases.Keys, aliases)
    ensures r.Cycle? ==> Walk(aliases.Keys, aliases, r.path) && Repeats(r.path)
  {
    r := Good(Named(""));
    for i := 0 to |names|
      invariant r.Good?
      invariant forall k :: 0 <= k < i ==> Expand(Named(names[k]), aliases, []).Good?
    {
      var expander := new Expander(aliases);
      r := expander.ExpandType(Named(names[i]));
      if r.Cycle? {
        CycleFound(Named(names[i]), aliases, []);
        assert r.path[0..] == r.path;
        return;
      }
    }
    CyclicNamesFail(aliases);
    assert forall n :: n in aliases ==> n in SetOf(names);
  }

  /** A cycle among the aliases shows when the first alias on it is expanded. */
  lemma CyclicNamesFail(aliases: Aliases)
    ensures Cyclic(aliases.Keys, aliases) ==> exists n :: n in aliases && Expand(Named(n), aliases, []).Cycle?
  {
    if Cyclic(aliases.Keys, aliases) {
      var path :| Walk(aliases.Keys, aliases, path) && Repeats(path);
      assert Walk(Mentions(Named(path[0])), aliases, path);
      FailsIffCyclic(Named(path[0]), aliases);
    }
  }

  /** After a successful validation no type in the module can fail to expand. */
  lemma ValidatedNeverFails(t: TypeRef, aliases: Aliases)
    requires !Cyclic(aliases.Keys, aliases)
    ensures Expand(t, aliases, []).Good?
  {
    FailsIffCyclic(t, aliases);
    WalksStartAtAliases(t, aliases);
  }

  lemma WalksStartAtAliases(t: TypeRef, aliases: Aliases)
    ensures Cyclic(Mentions(t), aliases) ==> Cyclic(aliases.Keys, aliases)
  {
    if Cyclic(Mentions(t), aliases) {
      var path :| Walk(Mentions(t), aliases, path) && Repeats(path);
      assert Walk(aliases.Keys, aliases, path);
    }
  }
}
