/**
 What the type checker accepts (compiler/typecheck.py) for the structured core, and that an accepted
 program never runs out of match arms: values keep the types their names were declared with.
 */
module Typing {
  import opened Prelude
  import opened Structured

  /** Enums are their variants' numbers; Never is the type of what always returns. */
  datatype Ty = Int | Bool | Enum(variants: set<int>) | Void | Never

  type Env = map<string, Ty>

  predicate Storable(t: Ty) {
    t.Int? || t.Bool? || t.Enum?
  }

  predicate HasTy(v: Value, t: Ty) {
    match t
    case Int => v.I32?
    case Bool => v.I1?
    case Enum(variants) => v.I32? && v.n in variants
    case Void => true
    case Never => false
  }

  // ----- a match that the checker accepts has an arm for every value -------------------------------

  /** infer_match_value: patterns differ, else comes last, and without else every variant is named. */
  predicate ArmsAccepted(arms: Arms, seen: set<Value>, variants: Option<set<Value>>) {
    match arms
    case NoArms => variants.Some? && variants.value <= seen
    case Arm(None, _, rest) => rest.NoArms?
    case Arm(Some(p), _, rest) => p !in seen && ArmsAccepted(rest, seen + {p}, variants)
  }

  predicate NoElse(arms: Arms) {
    arms.Arm? ==> arms.pattern.Some? && NoElse(arms.rest)
  }

  function Patterns(arms: Arms): set<Value> {
    if arms.NoArms? then {} else (if arms.pattern.Some? then {arms.pattern.value} else {}) + Patterns(arms.rest)
  }

  /** Patterns have the scrutinee's type. */
  predicate Comparable(arms: Arms, v: Value) {
    forall p :: p in Patterns(arms) ==> (p.I32? <==> v.I32?)
  }

  function Fits(arms: Arms, v: Value): Option<Expr> {
    match arms
    case NoArms => None
    case Arm(None, body, _) => Some(body)
    case Arm(Some(p), body, rest) => if p == v then Some(body) else Fits(rest, v)
  }

  /** Selection runs the first arm that fits; it faults of its own only when none does. */
  lemma {:induction false} SelectionIsFirstFit(arms: Arms, v: Value, st: Store, fuel: nat)
    requires Comparable(arms, v)
    ensures Select(arms, v, st, fuel) == if Fits(arms, v).Some? then Eval(Fits(arms, v).value, st, fuel)
        else Fault(NoArm)
    decreases arms
  {
    if arms.Arm? {
      assert forall p :: p in Patterns(arms.rest) ==> p in Patterns(arms);
      SelectionIsFirstFit(arms.rest, v, st, fuel);
    }
  }

  /** An accepted match never falls through to the unreachable end. */
  lemma {:induction false} AcceptedMatchFits(arms: Arms, seen: set<Value>, variants: Option<set<Value>>, v: Value)
    requires ArmsAccepted(arms, seen, variants) && v !in seen && (variants.Some? ==> v in variants.value)
    ensures Fits(arms, v).Some?
    decreases arms
  {
    if arms.Arm? && arms.pattern.Some? && arms.pattern.value != v {
      AcceptedMatchFits(arms.rest, seen + {arms.pattern.value}, variants, v);
    }
  }

  /** And an enum match without else that is rejected for a missing variant would fall through for it. */
  lemma {:induction false} MissingVariantFallsThrough(arms: Arms, v: Value)
    requires NoElse(arms)
    ensures Fits(arms, v).None? <==> v !in Patterns(arms)
    decreases arms
  {
    if arms.Arm? {
      MissingVariantFallsThrough(arms.rest, v);
    }
  }

  /** Each pattern once. */
  predicate Different(arms: Arms, seen: set<Value>) {
    arms.Arm? && arms.pattern.Some? ==>
      arms.pattern.value !in seen && Different(arms.rest, seen + {arms.pattern.value})
  }

  predicate ElseLast(arms: Arms) {
    arms.Arm? ==> if arms.pattern.None? then arms.rest.NoArms? else ElseLast(arms.rest)
  }

  /** A match is accepted exactly if its patterns differ and it ends in else or names every variant. */
  lemma {:induction false} AcceptedNamesAll(arms: Arms, seen: set<Value>, variants: Option<set<Value>>)
    ensures ArmsAccepted(arms, seen, variants) <==>
              && Different(arms, seen) && ElseLast(arms)
              && (!NoElse(arms) || (variants.Some? && variants.value <= seen + Patterns(arms)))
    decreases arms
  {
    if arms.Arm? && arms.pattern.Some? {
      AcceptedNamesAll(arms.rest, seen + {arms.pattern.value}, variants);
      assert seen + Patterns(arms) == seen + {arms.pattern.value} + Patterns(arms.rest);
    }
  }

  /** The rule is exact: with different patterns, a match is rejected if and only if some variant falls through. */
  lemma ExhaustivenessExact(arms: Arms, variants: set<Value>, st: Store, fuel: nat)
    requires ElseLast(arms) && Different(arms, {}) && forall v :: v in variants ==> Comparable(arms, v)
    ensures ArmsAccepted(arms, {}, Some(variants)) ==>
              forall v :: v in variants ==>
                Fits(arms, v).Some? && Select(arms, v, st, fuel) == Eval(Fits(arms, v).value, st, fuel)
    ensures !ArmsAccepted(arms, {}, Some(variants)) ==>
              exists v :: v in variants && Select(arms, v, st, fuel) == Fault(NoArm)
  {
    hide Select, Fits, ArmsAccepted, Eval, Different, ElseLast;
    AcceptedNamesAll(arms, {}, Some(variants));
    if ArmsAccepted(arms, {}, Some(variants)) {
      forall v | v in variants
        ensures Fits(arms, v).Some? && Select(arms, v, st, fuel) == Eval(Fits(arms, v).value, st, fuel)
      {
        AcceptedMatchFits(arms, {}, Some(variants), v);
        SelectionIsFirstFit(arms, v, st, fuel);
      }
    } else {
      var v :| v in variants && v !in Patterns(arms);
      MissingVariantFallsThrough(arms, v);
      SelectionIsFirstFit(arms, v, st, fuel);
    }
  }

  // ----- the rules ----------------------------------------------------------------------------------

  function With(env: Env, x: string, t: Ty): Env {
    env[x := t]
  }

  predicate Arithmetic(op: Op) {
    op.Add? || op.Sub? || op.Mul? || op.Div? || op.Rem?
  }

  /** Two operands of type u make a t. */
  predicate OpTypes(op: Op, u: Ty, t: Ty) {
    if op.And? || op.Or? then u.Bool? && t.Bool?
    else if op.Eq? || op.Ne? then Storable(u) && t.Bool?
    else if Arithmetic(op) then u.Int? && t.Int?
    else u.Int? && t.Bool?
  }

  /** merge_value_types; None is its error. */
  function Merge(a: Ty, b: Ty): Option<Ty> {
    if a.Never? then Some(b) else if b.Never? || a == b then Some(a) else None
  }

  function VariantsOf(t: Ty): Option<set<Value>> {
    if t.Enum? then Some(set n | n in t.variants :: I32(n)) else None
  }

  /** The expression is accepted with type t; ret is what the function returns. */
  ghost predicate Types(e: Expr, env: Env, ret: Ty, t: Ty)
    decreases e, 0
  {
    match e
    case Lit(v) => Storable(t) && HasTy(v, t)
    case Var(x) => x in env && env[x] == t
    case Bin(op, l, r) => exists u :: Types(l, env, ret, u) && Types(r, env, ret, u) && OpTypes(op, u, t)
    case If(valued, cond, thn, els) =>
      && Types(cond, env, ret, Bool) && valued == (t != Void)
      && exists a, b :: BlockTypes(thn, env, ret, a) && BlockTypes(els, env, ret, b) && Merge(a, b) == Some(t)
    case Match(valued, scrutinee, arms) =>
      && valued == (t != Void) && arms.Arm?
      && exists u :: Storable(u) && Types(scrutinee, env, ret, u) && ArmsTyped(arms, env, ret, u, Never, t)
                     && ArmsAccepted(arms, {}, VariantsOf(u))
    case Scope(body) => BlockTypes(body, env, ret, t)
  }

  /** Patterns have type u, and the bodies merge to t from acc on. */
  ghost predicate ArmsTyped(arms: Arms, env: Env, ret: Ty, u: Ty, acc: Ty, t: Ty)
    decreases arms, 0
  {
    match arms
    case NoArms => acc == t
    case Arm(p, body, rest) =>
      && (p.Some? ==> HasTy(p.value, u))
      && exists a, b :: Types(body, env, ret, a) && Merge(acc, a) == Some(b) && ArmsTyped(rest, env, ret, u, b, t)
  }

  /** A block's type is that of its last expression, Never after a ret, otherwise Void. */
  ghost predicate BlockTypes(block: Block, env: Env, ret: Ty, t: Ty)
    decreases block, 0
  {
    match block
    case End => t.Void?
    case Then(s, rest) =>
      if s.Let? then
        exists u :: Storable(u) && Types(s.e, env, ret, u) && BlockTypes(rest, env[s.x := u], ret, t)
      else if rest.End? && s.Do? then Types(s.e, env, ret, t)
      else
        && StmtTypes(s, env, ret)
        && if rest.End? then t == if s.Ret? then Never else Void else BlockTypes(rest, env, ret, t)
  }

  ghost predicate StmtTypes(s: Stmt, env: Env, ret: Ty)
    decreases s, 0
  {
    match s
    case Let(x, e) => exists u :: Storable(u) && Types(e, env, ret, u)
    case Assign(x, e) => x in env && Types(e, env, ret, env[x])
    case AssignOp(x, op, e) => x in env && env[x].Int? && Arithmetic(op) && Types(e, env, ret, Int)
    case Do(e) => exists u :: Types(e, env, ret, u)
    case For(cond, body) => Types(cond, env, ret, Bool) && exists u :: BlockTypes(body, env, ret, u)
    case ForRange(i, lo, hi, body) =>
      Types(lo, env, ret, Int) && Types(hi, env, ret, Int) && exists u :: BlockTypes(body, With(env, i, Int), ret, u)
    case Break => true
    case Ret(None) => ret.Void?
    case Ret(Some(e)) => Storable(ret) && Types(e, env, ret, ret)
  }

  // ----- accepted programs keep to their types ---------------------------------------------------------

  ghost predicate Typed(st: Store, env: Env) {
    forall x :: x in env ==> Storable(env[x]) && x in st && HasTy(st[x], env[x])
  }

  /** A value of the type and a typed store, a break only inside a loop, and no fault but a failing division. */
  ghost predicate Fine(out: Outcome, env: Env, ret: Ty, t: Ty, inLoop: bool) {
    match out
    case Val(v, st) => HasTy(v, t) && Typed(st, env)
    case Broke(st) => inLoop && Typed(st, env)
    case Returned(None) => ret.Void?
    case Returned(Some(v)) => Storable(ret) && HasTy(v, ret)
    case Fault(why) => why.NoQuotient?
    case Timeout => true
  }

  lemma ApplyTyped(op: Op, u: Ty, t: Ty, x: Value, y: Value)
    requires OpTypes(op, u, t) && HasTy(x, u) && HasTy(y, u)
    ensures if Apply(op, x, y).Some? then HasTy(Apply(op, x, y).value, t) else Failure(x, y).NoQuotient?
  {
  }

  /** Every two values of the type have a result of type t, or their division fails. */
  ghost predicate Works(op: Op, u: Ty, t: Ty) {
    forall x, y :: HasTy(x, u) && HasTy(y, u) ==>
      match Apply(op, x, y)
      case Some(v) => HasTy(v, t)
      case None => Failure(x, y).NoQuotient?
  }

  /** The rule for operators is exact: accepted where they work, and `&&` and `||` for bools only. */
  lemma OperatorRuleExact(op: Op, u: Ty, t: Ty)
    requires (u.Int? || u.Bool?) && (t.Int? || t.Bool?)
    ensures OpTypes(op, u, t) <==> Works(op, u, t) && (op.And? || op.Or? ==> u.Bool?)
  {
    var one := if u.Int? then I32(1) else I1(true);
    assert HasTy(one, u);
    if Works(op, u, t) && !OpTypes(op, u, t) {
      assert match Apply(op, one, one)
             case Some(v) => HasTy(v, t)
             case None => Failure(one, one).NoQuotient?;
    }
    if OpTypes(op, u, t) {
      forall x, y | HasTy(x, u) && HasTy(y, u)
        ensures match Apply(op, x, y)
                case Some(v) => HasTy(v, t)
                case None => Failure(x, y).NoQuotient?
      {
        ApplyTyped(op, u, t, x, y);
      }
    }
  }

  lemma LeaveTyped(outer: Store, inner: Store, env: Env)
    requires Typed(outer, env) && Typed(inner, env)
    ensures Typed(Leave(outer, inner), env)
  {
  }

  /** What comes out of a branch fits the merged type. */
  lemma LeaveFine(st: Store, valued: bool, out: Outcome, env: Env, ret: Ty, a: Ty, t: Ty, inLoop: bool)
    requires Typed(st, env) && Fine(out, env, ret, a, inLoop) && (a == t || a.Never?) && (!valued ==> t == Void)
    ensures Fine(LeaveTo(st, valued, out), env, ret, t, inLoop)
  {
    if out.Val? {
      LeaveTyped(st, out.st, env);
    }
  }

  lemma {:induction false} EvalTyped(e: Expr, st: Store, env: Env, ret: Ty, t: Ty, own: set<string>, inLoop: bool,
                                     fuel: nat)
    requires Typed(st, env) && Types(e, env, ret, t) && Ok(e, env.Keys, own, inLoop) && env.Keys <= own
    ensures Fine(Eval(e, st, fuel), env, ret, t, inLoop)
    decreases fuel, e, 1
  {
    match e
    case Lit(_) =>
    case Var(_) =>
    case Bin(op, l, r) =>
      var u :| Types(l, env, ret, u) && Types(r, env, ret, u) && OpTypes(op, u, t);
      EvalTyped(l, st, env, ret, u, own, inLoop, fuel);
      var a := Eval(l, st, fuel);
      if a.Val? {
        EvalTyped(r, a.st, env, ret, u, own, inLoop, fuel);
        var b := Eval(r, a.st, fuel);
        if b.Val? {
          ApplyTyped(op, u, t, a.v, b.v);
        }
      }
    case If(valued, cond, thn, els) => IfTyped(e, st, env, ret, t, own, inLoop, fuel);
    case Match(valued, scrutinee, arms) => MatchTyped(e, st, env, ret, t, own, inLoop, fuel);
    case Scope(body) =>
      ExecTyped(body, st, env, ret, t, own, inLoop, fuel);
      LeaveFine(st, true, Exec(body, st, fuel), env, ret, t, t, inLoop);
  }

  lemma {:induction false} IfTyped(e: Expr, st: Store, env: Env, ret: Ty, t: Ty, own: set<string>, inLoop: bool,
                                   fuel: nat)
    requires e.If? && Typed(st, env) && Types(e, env, ret, t) && Ok(e, env.Keys, own, inLoop) && env.Keys <= own
    ensures Fine(Eval(e, st, fuel), env, ret, t, inLoop)
    decreases fuel, e, 0
  {
    hide Typed, LeaveTo;
    EvalTyped(e.cond, st, env, ret, Bool, own, inLoop, fuel);
    var c := Eval(e.cond, st, fuel);
    if c.Val? {
      var a, b :| BlockTypes(e.thn, env, ret, a) && BlockTypes(e.els, env, ret, b) && Merge(a, b) == Some(t);
      if Truthy(c.v) {
        ExecTyped(e.thn, c.st, env, ret, a, own, inLoop, fuel);
        LeaveFine(c.st, e.valued, Exec(e.thn, c.st, fuel), env, ret, a, t, inLoop);
      } else {
        ExecTyped(e.els, c.st, env, ret, b, own, inLoop, fuel);
        LeaveFine(c.st, e.valued, Exec(e.els, c.st, fuel), env, ret, b, t, inLoop);
      }
    }
  }

  lemma {:induction false} MatchTyped(e: Expr, st: Store, env: Env, ret: Ty, t: Ty, own: set<string>, inLoop: bool,
                                      fuel: nat)
    requires e.Match? && Typed(st, env) && Types(e, env, ret, t) && Ok(e, env.Keys, own, inLoop) && env.Keys <= own
    ensures Fine(Eval(e, st, fuel), env, ret, t, inLoop)
    decreases fuel, e, 0
  {
    hide Typed, LeaveTo;
    var u :| Storable(u) && Types(e.scrutinee, env, ret, u) && ArmsTyped(e.arms, env, ret, u, Never, t)
             && ArmsAccepted(e.arms, {}, VariantsOf(u));
    EvalTyped(e.scrutinee, st, env, ret, u, own, inLoop, fuel);
    var s := Eval(e.scrutinee, st, fuel);
    if s.Val? {
      SelectTyped(e.arms, s.v, {}, s.st, env, ret, u, Never, t, own, inLoop, fuel);
      LeaveFine(s.st, e.valued, Select(e.arms, s.v, s.st, fuel), env, ret, t, t, inLoop);
    }
  }

  /** With the values in `seen` excluded the remaining arms still cover v. */
  lemma {:induction false} SelectTyped(arms: Arms, v: Value, seen: set<Value>, st: Store, env: Env, ret: Ty, u: Ty,
                                       acc: Ty, t: Ty,
                                       own: set<string>, inLoop: bool, fuel: nat)
    requires Typed(st, env) && ArmsTyped(arms, env, ret, u, acc, t) && ArmsOk(arms, env.Keys, own, inLoop) &&
        env.Keys <= own
    requires Storable(u) && HasTy(v, u) && v !in seen && ArmsAccepted(arms, seen, VariantsOf(u))
    ensures Fine(Select(arms, v, st, fuel), env, ret, t, inLoop)
    decreases fuel, arms, 0
  {
    hide Typed, Fine, HasTy, Apply, Ok, ArmsTyped, Types, Merge, VariantsOf;
    match arms
    case NoArms => NothingLeft(v, u, seen);
    case Arm(p, body, rest) =>
      var a, b := FirstArm(arms, env, ret, u, acc, t);
      if p.Some? {
        PatternTested(v, p.value, u);
      }
      if p.None? || v == p.value {
        EvalTyped(body, st, env, ret, a, own, inLoop, fuel);
        MergesTo(rest, env, ret, u, b, t);
        FineMerged(Eval(body, st, fuel), env, ret, acc, a, b, t, inLoop);
      } else {
        SelectTyped(rest, v, seen + {p.value}, st, env, ret, u, b, t, own, inLoop, fuel);
      }
  }

  lemma FirstArm(arms: Arms, env: Env, ret: Ty, u: Ty, acc: Ty, t: Ty) returns (a: Ty, b: Ty)
    requires arms.Arm? && ArmsTyped(arms, env, ret, u, acc, t)
    ensures Types(arms.body, env, ret, a) && Merge(acc, a) == Some(b) && ArmsTyped(arms.rest, env, ret, u, b, t)
    ensures arms.pattern.Some? ==> HasTy(arms.pattern.value, u)
  {
    a, b :| Types(arms.body, env, ret, a) && Merge(acc, a) == Some(b) && ArmsTyped(arms.rest, env, ret, u, b, t);
  }

  lemma NothingLeft(v: Value, u: Ty, seen: set<Value>)
    requires HasTy(v, u) && v !in seen
    ensures !ArmsAccepted(NoArms, seen, VariantsOf(u))
  {
    if u.Enum? {
      assert v in VariantsOf(u).value;
    }
  }

  lemma PatternTested(v: Value, p: Value, u: Ty)
    requires Storable(u) && HasTy(v, u) && HasTy(p, u)
    ensures Apply(Eq, v, p) == Some(I1(v == p))
  {
  }

  lemma FineMerged(out: Outcome, env: Env, ret: Ty, acc: Ty, a: Ty, b: Ty, t: Ty, inLoop: bool)
    requires Fine(out, env, ret, a, inLoop) && Merge(acc, a) == Some(b) && (b == t || b.Never?)
    ensures Fine(out, env, ret, t, inLoop)
  {
  }

  /** What has been merged so far is the result, or says nothing about it. */
  lemma {:induction false} MergesTo(arms: Arms, env: Env, ret: Ty, u: Ty, acc: Ty, t: Ty)
    requires ArmsTyped(arms, env, ret, u, acc, t)
    ensures acc == t || acc.Never?
    decreases arms
  {
    if arms.Arm? {
      var a, b :| Types(arms.body, env, ret, a) && Merge(acc, a) == Some(b) && ArmsTyped(arms.rest, env, ret, u, b, t);
      MergesTo(arms.rest, env, ret, u, b, t);
    }
  }

  lemma {:induction false} ExecTyped(block: Block, st: Store, env: Env, ret: Ty, t: Ty, own: set<string>, inLoop: bool,
                                     fuel: nat)
    requires Typed(st, env) && BlockTypes(block, env, ret, t) && BlockOk(block, env.Keys, own, inLoop) &&
        env.Keys <= own
    ensures Fine(Exec(block, st, fuel), env, ret, t, inLoop)
    decreases fuel, block, 1
  {
    hide Typed, Ok, Types, Eval;
    if block.Then? {
      var s, rest := block.first, block.rest;
      var out := Step(s, st, fuel);
      if s.Let? {
        AfterLet(block, st, env, ret, t, own, inLoop, fuel);
      } else if rest.End? && s.Do? {
        EvalTyped(s.e, st, env, ret, t, own, inLoop, fuel);
      } else {
        StepTyped(s, st, env, ret, own, inLoop, fuel);
        assert Declares(s) == {} && env.Keys + {} == env.Keys && own + {} == own;
        if out.Val? && rest.Then? {
          ExecTyped(rest, out.st, env, ret, t, own, inLoop, fuel);
        }
      }
    }
  }

  lemma {:induction false} AfterLet(block: Block, st: Store, env: Env, ret: Ty, t: Ty, own: set<string>, inLoop: bool,
                                    fuel: nat)
    requires block.Then? && block.first.Let?
    requires Typed(st, env) && BlockTypes(block, env, ret, t) && BlockOk(block, env.Keys, own, inLoop) &&
        env.Keys <= own
    ensures Fine(Exec(block, st, fuel), env, ret, t, inLoop)
    decreases fuel, block, 0
  {
    hide Typed, Ok;
    var x, e, rest := block.first.x, block.first.e, block.rest;
    var u :| Storable(u) && Types(e, env, ret, u) && BlockTypes(rest, env[x := u], ret, t);
    LetTyped(x, e, st, env, ret, u, own, inLoop, fuel);
    var out := Step(block.first, st, fuel);
    if out.Val? {
      assert env[x := u].Keys == env.Keys + Declares(block.first);
      if rest.Then? {
        ExecTyped(rest, out.st, env[x := u], ret, t, own + Declares(block.first), inLoop, fuel);
        Narrowed(Exec(rest, out.st, fuel), env, x, u, ret, t, inLoop);
      }
    }
  }

  lemma Narrowed(out: Outcome, env: Env, x: string, u: Ty, ret: Ty, t: Ty, inLoop: bool)
    requires Fine(out, env[x := u], ret, t, inLoop) && x !in env
    ensures Fine(out, env, ret, t, inLoop)
  {
    assert forall y :: y in env ==> y in env[x := u] && env[x := u][y] == env[y];
  }

  lemma {:induction false} LetTyped(x: string, e: Expr, st: Store, env: Env, ret: Ty, u: Ty, own: set<string>,
                                    inLoop: bool, fuel: nat)
    requires Typed(st, env) && Storable(u) && Types(e, env, ret, u) && StmtOk(Let(x, e), env.Keys, own, inLoop) &&
        env.Keys <= own
    ensures var out := Step(Let(x, e), st, fuel);
            if out.Val? then Typed(out.st, env[x := u]) && Typed(out.st, env) else Fine(out, env, ret, Void, inLoop)
    decreases fuel, Let(x, e), 0
  {
    EvalTyped(e, st, env, ret, u, own + {x}, inLoop, fuel);
  }

  /** A statement that declares nothing. */
  lemma {:induction false} StepTyped(s: Stmt, st: Store, env: Env, ret: Ty, own: set<string>, inLoop: bool, fuel: nat)
    requires !s.Let? && Typed(st, env) && StmtTypes(s, env, ret) && StmtOk(s, env.Keys, own, inLoop) && env.Keys <= own
    ensures var out := Step(s, st, fuel); Fine(out, env, ret, Void, inLoop) && (s.Ret? ==> !out.Val?)
    decreases fuel, s, 1
  {
    match s
    case Assign(x, e) => EvalTyped(e, st, env, ret, env[x], own, inLoop, fuel);
    case AssignOp(x, op, e) =>
      EvalTyped(e, st, env, ret, Int, own, inLoop, fuel);
      var out := Eval(e, st, fuel);
      if out.Val? {
        ApplyTyped(op, Int, Int, out.st[x], out.v);
      }
    case Do(e) =>
      var u :| Types(e, env, ret, u);
      EvalTyped(e, st, env, ret, u, own, inLoop, fuel);
    case For(cond, body) => ForTyped(s, st, env, ret, own, inLoop, fuel);
    case ForRange(i, lo, hi, body) => RangeTyped(s, st, env, ret, own, inLoop, fuel);
    case Break =>
    case Ret(None) =>
    case Ret(Some(e)) => EvalTyped(e, st, env, ret, ret, own, inLoop, fuel);
  }

  lemma {:induction false} ForTyped(s: Stmt, st: Store, env: Env, ret: Ty, own: set<string>, inLoop: bool, fuel: nat)
    requires s.For? && Typed(st, env) && StmtTypes(s, env, ret) && StmtOk(s, env.Keys, own, inLoop) && env.Keys <= own
    ensures Fine(Step(s, st, fuel), env, ret, Void, inLoop)
    decreases fuel, s, 0
  {
    hide Typed, Leave;
    if fuel > 0 {
      EvalTyped(s.cond, st, env, ret, Bool, own, inLoop, fuel);
      var c := Eval(s.cond, st, fuel);
      if c.Val? && Truthy(c.v) {
        var u :| BlockTypes(s.body, env, ret, u);
        ExecTyped(s.body, c.st, env, ret, u, own, true, fuel);
        var out := Exec(s.body, c.st, fuel);
        if out.Broke? || out.Val? {
          LeaveTyped(c.st, out.st, env);
        }
        if out.Val? {
          ForTyped(s, Leave(c.st, out.st), env, ret, own, inLoop, fuel - 1);
        }
      }
    }
  }

  lemma {:induction false} RangeTyped(s: Stmt, st: Store, env: Env, ret: Ty, own: set<string>, inLoop: bool, fuel: nat)
    requires s.ForRange? && Typed(st, env) && StmtTypes(s, env, ret) && StmtOk(s, env.Keys, own, inLoop) &&
        env.Keys <= own
    ensures Fine(Step(s, st, fuel), env, ret, Void, inLoop)
    decreases fuel, s, 0
  {
    hide Leave, LeaveTo, Ok;
    EvalTyped(s.lo, st, env, ret, Int, own + {s.i}, inLoop, fuel);
    var a := Eval(s.lo, st, fuel);
    if a.Val? {
      EvalTyped(s.hi, a.st, env, ret, Int, own + {s.i}, inLoop, fuel);
      var b := Eval(s.hi, a.st, fuel);
      if b.Val? {
        var u :| BlockTypes(s.body, With(env, s.i, Int), ret, u);
        assert env[s.i := Int].Keys == env.Keys + {s.i};
        CountTyped(s.i, b.v, s.body, b.st[s.i := a.v], env[s.i := Int], ret, u, own + {s.i}, fuel);
        var out := Count(s.i, b.v, s.body, b.st[s.i := a.v], fuel);
        Narrowed(out, env, s.i, Int, ret, Void, inLoop);
        LeaveFine(b.st, false, out, env, ret, Void, Void, inLoop);
      }
    }
  }

  lemma {:induction false} CountTyped(i: string, bound: Value, body: Block, st: Store, env: Env, ret: Ty, u: Ty,
                                      own: set<string>, fuel: nat)
    requires Typed(st, env) && i in env && env[i] == Int && bound.I32?
    requires BlockTypes(body, env, ret, u) && BlockOk(body, env.Keys, own, true) && env.Keys <= own
    ensures Fine(Count(i, bound, body, st, fuel), env, ret, Void, false)
    decreases fuel, body, 2
  {
    if fuel > 0 && Truthy(Apply(Lt, st[i], bound).value) {
      ExecTyped(body, st, env, ret, u, own, true, fuel);
      var out := Exec(body, st, fuel);
      if out.Broke? || out.Val? {
        LeaveTyped(st, out.st, env);
      }
      if out.Val? {
        var st' := Leave(st, out.st);
        var next := Apply(Add, st'[i], I32(1)).value;
        CountTyped(i, bound, body, st'[i := next], env, ret, u, own, fuel - 1);
      }
    }
  }

  // ----- whole bodies ------------------------------------------------------------------------------------

  function EnvOf(params: seq<string>, types: seq<Ty>): Env
    requires |params| == |types|
  {
    if params == [] then map[]
    else EnvOf(params[..|params| - 1], types[..|types| - 1])[params[|params| - 1] := types[|types| - 1]]
  }

  /** Every argument has its parameter's type. */
  ghost predicate ArgsTyped(args: seq<Value>, types: seq<Ty>) {
    |args| == |types| && forall i :: 0 <= i < |args| ==> Storable(types[i]) && HasTy(args[i], types[i])
  }

  /** The body of a function is accepted: it ends in a ret or in an expression that fits what the function returns. */
  ghost predicate BodyAccepted(params: seq<string>, types: seq<Ty>, body: Block, ret: Ty)
    requires |params| == |types|
  {
    (ret.Void? || Storable(ret)) && exists t :: BlockTypes(body, EnvOf(params, types), ret, t)
                                               && (!ret.Void? ==> t == ret || t.Never?)
  }

  /** Without an expression at the end a block has no value to offer. */
  lemma {:induction false} NoValueAtEnd(block: Block, env: Env, ret: Ty, t: Ty)
    requires BlockTypes(block, env, ret, t) && !EndsInValue(block)
    ensures t.Void? || t.Never?
    decreases block
  {
    if block.Then? && block.first.Let? {
      var u :| Storable(u) && BlockTypes(block.rest, env[block.first.x := u], ret, t);
      NoValueAtEnd(block.rest, env[block.first.x := u], ret, t);
    } else if block.Then? && block.rest.Then? {
      NoValueAtEnd(block.rest, env, ret, t);
    }
  }

  /** enum E { A B }; fun f(e: E) i32 { match e { A -> 10; B -> 20 } } */
  const BOTH := Arm(Some(I32(0)), Lit(I32(10)), Arm(Some(I32(1)), Lit(I32(20)), NoArms))
  const COVERS := Then(Do(Match(true, Var("e"), BOTH)), End)

  lemma CoveringMatchAccepted()
    ensures BodyAccepted(["e"], [Enum({0, 1})], COVERS, Int)
  {
    var e := Enum({0, 1});
    var env := EnvOf(["e"], [e]);
    assert env["e"] == e;
    CoveringArms(env, e);
    hide ArmsTyped, ArmsAccepted, VariantsOf;
    assert Types(Var("e"), env, Int, e);
    assert Types(COVERS.first.e, env, Int, Int);
    assert BlockTypes(COVERS, env, Int, Int);
  }

  lemma CoveringArms(env: Env, e: Ty)
    requires e == Enum({0, 1})
    ensures ArmsTyped(BOTH, env, Int, e, Never, Int) && ArmsAccepted(BOTH, {}, VariantsOf(e))
  {
    var ten, twenty := Lit(I32(10)), Lit(I32(20));
    assert Types(ten, env, Int, Int) && Types(twenty, env, Int, Int);
    assert Merge(Int, Int) == Some(Int) && Merge(Never, Int) == Some(Int);
    var last := BOTH.rest;
    assert ArmsTyped(NoArms, env, Int, e, Int, Int);
    assert ArmsTyped(last, env, Int, e, Int, Int);
    assert ArmsTyped(BOTH, env, Int, e, Never, Int);
    var seen := {} + {I32(0)} + {I32(1)};
    assert VariantsOf(e).value <= seen;
    assert ArmsAccepted(NoArms, seen, VariantsOf(e));
    assert ArmsAccepted(last, {} + {I32(0)}, VariantsOf(e));
  }

  const LESS := Bin(Lt, Var("i"), Var("n"))
  const TURN := Then(Do(If(false, LESS, Then(AssignOp("s", Add, Var("i")), End), Then(Break, End))), End)
  const COUNTED := ForRange("i", Lit(I32(0)), Var("n"), TURN)
  const BELOW := Bin(Lt, Var("s"), Lit(I32(10)))
  const RAISE := Then(Assign("s", Bin(Add, Var("s"), Lit(I32(1)))), End)
  const LAST := If(true, Bin(Eq, Var("s"), Var("n")),
                   Then(Ret(Some(Var("n"))), End), Then(Do(Scope(Then(Do(Var("s")), End))), End))

  /**
   fun f(n: i32) i32 {
     let s = 0; for i in 0..n { if i < n { s += i } else { break } }; for s < 10 { s = s + 1 }
     if s == n { ret n } else { { s } }
   }
   */
  const EVERYTHING := Then(Let("s", Lit(I32(0))), Then(COUNTED, Then(For(BELOW, RAISE), Then(Do(LAST), End))))

  /** A function with every kind of statement is accepted. */
  lemma EverythingAccepted()
    ensures BodyAccepted(["n"], [Int], EVERYTHING, Int)
  {
    hide StmtTypes, Types;
    var env := EnvOf(["n"], [Int]);
    assert env["n"] == Int;
    var inner := env["s" := Int];
    CountedTypes(inner);
    RaiseTypes(inner);
    LastTypes(inner);
    ZeroTypes(env);
    assert BlockTypes(Then(Do(LAST), End), inner, Int, Int);
    TypesBefore(For(BELOW, RAISE), Then(Do(LAST), End), inner, Int, Int);
    TypesBefore(COUNTED, EVERYTHING.rest.rest, inner, Int, Int);
    assert BlockTypes(EVERYTHING, env, Int, Int);
  }

  lemma TypesBefore(s: Stmt, rest: Block, env: Env, ret: Ty, t: Ty)
    requires !s.Let? && rest.Then? && StmtTypes(s, env, ret) && BlockTypes(rest, env, ret, t)
    ensures BlockTypes(Then(s, rest), env, ret, t)
  {
  }

  lemma ZeroTypes(env: Env)
    ensures Types(Lit(I32(0)), env, Int, Int)
  {
  }

  lemma CountedTypes(env: Env)
    requires "n" in env && "s" in env && env["n"] == Int && env["s"] == Int
    ensures StmtTypes(COUNTED, env, Int)
  {
    assert Types(Lit(I32(0)), env, Int, Int) && Types(Var("n"), env, Int, Int);
    TurnTypes(With(env, "i", Int));
    hide BlockTypes, Types;
  }

  lemma TurnTypes(env: Env)
    requires forall x :: x in ["i", "n", "s"] ==> x in env && env[x] == Int
    ensures BlockTypes(TURN, env, Int, Void)
  {
    AddTypes(env);
    BreakTypes(env);
    assert "i" in ["i", "n", "s"] && "n" in ["i", "n", "s"];
    assert Types(Var("i"), env, Int, Int) && Types(Var("n"), env, Int, Int);
    assert Types(LESS, env, Int, Bool);
    hide BlockTypes;
    assert Merge(Void, Void) == Some(Void);
    assert Types(TURN.first.e, env, Int, Void);
    LastExpression(TURN.first.e, env, Int, Void);
  }

  lemma LastExpression(e: Expr, env: Env, ret: Ty, t: Ty)
    requires Types(e, env, ret, t)
    ensures BlockTypes(Then(Do(e), End), env, ret, t)
  {
  }

  lemma AddTypes(env: Env)
    requires forall x :: x in ["i", "n", "s"] ==> x in env && env[x] == Int
    ensures BlockTypes(Then(AssignOp("s", Add, Var("i")), End), env, Int, Void)
  {
    assert "i" in ["i", "n", "s"] && "s" in ["i", "n", "s"];
    assert Types(Var("i"), env, Int, Int);
    assert StmtTypes(AssignOp("s", Add, Var("i")), env, Int);
  }

  lemma BreakTypes(env: Env)
    ensures BlockTypes(Then(Break, End), env, Int, Void)
  {
    assert StmtTypes(Break, env, Int);
  }

  lemma RaiseTypes(env: Env)
    requires "s" in env && env["s"] == Int
    ensures StmtTypes(For(BELOW, RAISE), env, Int)
  {
    var one, ten := Lit(I32(1)), Lit(I32(10));
    assert Types(Var("s"), env, Int, Int) && Types(ten, env, Int, Int) && Types(one, env, Int, Int);
    assert Types(BELOW, env, Int, Bool);
    RaisedTypes(env);
    assert BlockTypes(RAISE, env, Int, Void);
  }

  lemma RaisedTypes(env: Env)
    requires "s" in env && env["s"] == Int
    ensures StmtTypes(RAISE.first, env, Int)
  {
    assert Types(Var("s"), env, Int, Int) && Types(Lit(I32(1)), env, Int, Int);
    assert Types(RAISE.first.e, env, Int, Int);
  }

  lemma LastTypes(env: Env)
    requires "n" in env && "s" in env && env["n"] == Int && env["s"] == Int
    ensures Types(LAST, env, Int, Int)
  {
    assert Types(Var("s"), env, Int, Int) && Types(Var("n"), env, Int, Int);
    assert Types(LAST.cond, env, Int, Bool);
    assert StmtTypes(LAST.thn.first, env, Int);
    assert BlockTypes(LAST.thn, env, Int, Never);
    var scope := LAST.els.first.e;
    assert BlockTypes(scope.body, env, Int, Int);
    assert Types(scope, env, Int, Int);
    assert BlockTypes(LAST.els, env, Int, Int);
    assert Merge(Never, Int) == Some(Int);
  }
}
