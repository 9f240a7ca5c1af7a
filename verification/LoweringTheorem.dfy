/**
 Whole functions: calling the lowered function gives what calling the structured one gives, for
 every argument list, including faults and running forever.
 */
module LoweringTheorem {
  import opened Prelude
  import opened Structured
  import opened BasicBlocks
  import opened Lowering
  import opened LoweringShape
  import opened LoweringCorrect
  import opened Typing

  // ----- what a call means in the source language ----------------------------------------------

  datatype Answer = Finished(r: Option<Value>) | Faulted(why: Why) | Running | Escaped

  function Bind(params: seq<string>, args: seq<Value>): Store
    requires |params| == |args|
  {
    if params == [] then map[]
    else Bind(params[..|params| - 1], args[..|args| - 1])[params[|params| - 1] := args[|args| - 1]]
  }

  /** A value function answers with its last expression, a void one with nothing. */
  function Call(params: seq<string>, body: Block, isVoid: bool, args: seq<Value>, fuel: nat): Answer
    requires |params| == |args|
  {
    match Exec(body, Bind(params, args), fuel)
    case Val(v, _) => if isVoid then Finished(None) else if EndsInValue(body) then Finished(Some(v)) else Escaped
    case Returned(r) => Finished(r)
    case Broke(_) => Escaped
    case Fault(why) => Faulted(why)
    case Timeout => Running
  }

  // ----- what a call means for the blocks --------------------------------------------------------

  /** Argument i waits in slot i + 1. */
  function ArgSlots(args: seq<Value>): map<nat, Value> {
    if args == [] then map[] else ArgSlots(args[..|args| - 1])[|args| := args[|args| - 1]]
  }

  function Start(args: seq<Value>): Config {
    Config(0, 0, 0, map[], ArgSlots(args))
  }

  ghost predicate CallFinishes(params: seq<string>, body: Block, isVoid: bool, args: seq<Value>, r: Option<Value>)
    requires |params| == |args|
  {
    exists fuel: nat :: Call(params, body, isVoid, args, fuel) == Finished(r)
  }

  ghost predicate CallFaults(params: seq<string>, body: Block, isVoid: bool, args: seq<Value>, why: Why)
    requires |params| == |args|
  {
    exists fuel: nat :: Call(params, body, isVoid, args, fuel) == Faulted(why)
  }

  ghost predicate CallRunsForever(params: seq<string>, body: Block, isVoid: bool, args: seq<Value>)
    requires |params| == |args|
  {
    forall fuel: nat :: Call(params, body, isVoid, args, fuel) == Running
  }

  ghost predicate BlocksFinish(p: Program, args: seq<Value>, r: Option<Value>) {
    exists n: nat :: Run(p, Start(args), n) == Done(r)
  }

  ghost predicate BlocksStick(p: Program, args: seq<Value>, why: Why) {
    exists n: nat :: Run(p, Start(args), n) == Stuck(why)
  }

  ghost predicate BlocksRunForever(p: Program, args: seq<Value>) {
    forall n: nat :: Run(p, Start(args), n).Go?
  }

  // ----- the calling sequence ---------------------------------------------------------------------

  function Names(names: seq<string>): set<string> {
    set x | x in names
  }

  lemma {:induction false} ParametersBound(params: seq<string>, args: seq<Value>, x: string)
    requires |params| == |args| && Distinct(params)
    ensures x in ParamSlots(params) <==> x in params
    ensures x in Bind(params, args) <==> x in params
    ensures x in params ==>
      && 1 <= ParamSlots(params)[x] <= |params| && params[ParamSlots(params)[x] - 1] == x
      && ParamSlots(params)[x] in ArgSlots(args) && ArgSlots(args)[ParamSlots(params)[x]] == Bind(params, args)[x]
  {
    if params != [] {
      var n := |params| - 1;
      assert params == params[..n] + [params[n]];
      ParametersBound(params[..n], args[..n], x);
    }
  }

  function Entry(params: seq<string>): Builder {
    Builder([EMPTY_BLOCK], 0, 0, 1 + |params|, ParamSlots(params), [])
  }

  lemma EntryReady(params: seq<string>, args: seq<Value>)
    requires |params| == |args| && Distinct(params)
    ensures Ready(Entry(params), Names(params), Start(args), Bind(params, args)) &&
        Bind(params, args).Keys == Names(params)
  {
    hide ParamSlots, Bind, ArgSlots;
    forall x: string {
      ParametersBound(params, args, x);
    }
  }

  /** A trailing expression becomes what the function returns. */
  function ReturnTail(block: Block): Block {
    match block
    case End => End
    case Then(s, rest) =>
      if rest.End? && s.Do? then Then(Ret(Some(s.e)), End) else Then(s, ReturnTail(rest))
  }

  /** The implicit ret turns the block's value into the function's result, and nothing else. */
  lemma {:induction false} ReturnTailMeans(body: Block, st: Store, fuel: nat)
    ensures var out := Exec(body, st, fuel);
            Exec(ReturnTail(body), st, fuel) == if out.Val? && EndsInValue(body) then Returned(Some(out.v)) else out
    decreases body
  {
    match body
    case End =>
    case Then(s, rest) =>
      if rest.Then? {
        var out := Step(s, st, fuel);
        if out.Val? {
          ReturnTailMeans(rest, out.st, fuel);
        }
      }
  }

  /** Names are declared once while they are taken, and nothing follows a ret or break in its block. */
  predicate FunctionOk(params: seq<string>, body: Block) {
    BlockOk(body, Names(params), Names(params), false)
  }

  // ----- which functions are emitted -----------------------------------------------------------------

  /** The body with the implicit ret written out. */
  function Lowered(body: Block, isVoid: bool): Block {
    if isVoid then body else ReturnTail(body)
  }

  lemma {:induction false} InitOk(body: Block, vis: set<string>, taken: set<string>)
    requires BlockOk(body, vis, taken, false) && EndsInValue(body)
    ensures BlockOk(Init(body), vis, taken, false) && !BlockDiverges(Init(body))
    ensures BlockDiverges(body) == Diverges(TailOf(body))
    decreases body
  {
    if body.rest.Then? {
      InitOk(body.rest, vis + Declares(body.first), taken + Declares(body.first));
    }
  }

  lemma {:induction false} ReturnTailOk(body: Block, vis: set<string>, taken: set<string>)
    requires BlockOk(body, vis, taken, false) && (EndsInValue(body) ==> !Diverges(TailOf(body)))
    ensures BlockOk(ReturnTail(body), vis, taken, false)
    ensures EndsInValue(body) ==> BlockDiverges(ReturnTail(body))
    ensures !EndsInValue(body) ==> ReturnTail(body) == body
    decreases body
  {
    if body.Then? && body.rest.Then? {
      ReturnTailOk(body.rest, vis + Declares(body.first), taken + Declares(body.first));
    }
  }

  /** Emitting the implicit ret is emitting what comes before, the expression, and a return. */
  lemma {:induction false} TailEmitted(body: Block, b: Builder)
    requires EndsInValue(body) && Wf(b)
    ensures var b1 := EmitBlock(Init(body), b);
            var (b2, x) := EmitExpr(TailOf(body), b1);
            && EmitBlock(ReturnTail(body), b) == (if Terminated(b1) then b1 else EmitReturn(b2, x))
            && EmitBlock(body, b) == (if Terminated(b1) then b1 else b2)
    decreases body
  {
    hide EmitExpr, EmitReturn;
    if body.rest.Then? && !Terminated(b) {
      TailEmitted(body.rest, EmitStmt(body.first, b));
    }
  }

  lemma BodyShape(params: seq<string>, block: Block)
    requires Distinct(params) && BlockOk(block, Names(params), Names(params), false)
    ensures var b1 := EmitBlock(block, Entry(params));
            && b1 == EmitBlockValue(block, Entry(params)).0
            && Wf(b1) && Extends(b1.blocks, b1.blocks)
            && (Terminated(b1) <==> BlockDiverges(block))
  {
    var args := seq(|params|, _ => UNIT);
    EntryReady(params, args);
    var own := Names(params);
    BlockEmittersAgree(block, Entry(params), own, own, false);
    BlockValueShape(block, Entry(params), own, own, false);
  }

  /** A value function whose last expression always returns. */
  predicate ClosesTail(body: Block, isVoid: bool) {
    !isVoid && EndsInValue(body) && Diverges(TailOf(body))
  }

  lemma LowersTo(params: seq<string>, body: Block, isVoid: bool)
    requires Distinct(params) && FunctionOk(params, body)
    ensures LowerFunction(params, body, isVoid) ==
            if ClosesTail(body, isVoid) then ClosedBlock
            else
              var b1 := EmitBlock(Lowered(body, isVoid), Entry(params));
              if Terminated(b1) then Code(b1.blocks) else if isVoid then Code(Terminate(b1, RetVoid).blocks)
                  else MissingRet
    ensures !ClosesTail(body, isVoid) ==> BlockOk(Lowered(body, isVoid), Names(params), Names(params), false)
  {
    hide EmitBlock, EmitExpr, EmitBlockValue, BlockOk, Extends;
    BodyShape(params, body);
    if !isVoid && EndsInValue(body) {
      InitOk(body, Names(params), Names(params));
      BodyShape(params, Init(body));
      TailEmitted(body, Entry(params));
    }
    if !isVoid && !ClosesTail(body, isVoid) {
      ReturnTailOk(body, Names(params), Names(params));
    }
  }

  /** The builder is asked to close a closed block exactly for value functions whose last expression always returns. */
  lemma ClosedBlockExact(params: seq<string>, body: Block, isVoid: bool)
    requires Distinct(params) && FunctionOk(params, body)
    ensures LowerFunction(params, body, isVoid) == ClosedBlock <==> ClosesTail(body, isVoid)
  {
    LowersTo(params, body, isVoid);
  }

  /** "missing ret" is reported exactly for value functions whose end can be reached without a value. */
  lemma MissingRetExact(params: seq<string>, body: Block, isVoid: bool)
    requires Distinct(params) && FunctionOk(params, body)
    ensures LowerFunction(params, body, isVoid) == MissingRet <==> !isVoid && !EndsInValue(body) && !BlockDiverges(body)
  {
    hide EmitBlock, EmitBlockValue, BlockOk, Extends;
    LowersTo(params, body, isVoid);
    if !isVoid && !ClosesTail(body, isVoid) {
      BodyShape(params, Lowered(body, isVoid));
      TailDiverges(params, body);
    }
  }

  lemma TailDiverges(params: seq<string>, body: Block)
    requires FunctionOk(params, body) && (EndsInValue(body) ==> !Diverges(TailOf(body)))
    ensures BlockDiverges(ReturnTail(body)) <==> EndsInValue(body) || BlockDiverges(body)
  {
    hide BlockOk;
    ReturnTailOk(body, Names(params), Names(params));
  }

  /** fun f(c: bool) i32 { if c { ret 1 } else { ret 2 } } */
  const RETURNS_TWICE := Then(Do(If(true, Var("c"), Then(Ret(Some(Lit(I32(1)))), End),
      Then(Ret(Some(Lit(I32(2)))), End))), End)

  /** The checker accepts it and the source has a meaning for it; the builder refuses it. */
  lemma ReturningBranchesRefused()
    ensures BodyAccepted(["c"], [Bool], RETURNS_TWICE, Int)
    ensures FunctionOk(["c"], RETURNS_TWICE) && LowerFunction(["c"], RETURNS_TWICE, false) == ClosedBlock
    ensures Call(["c"], RETURNS_TWICE, false, [I1(true)], 0) == Finished(Some(I32(1)))
  {
    ReturningBranchesAccepted();
    ReturningBranchesOk();
    ReturningBranchesMean();
    hide BodyAccepted, FunctionOk, Call;
    ClosedBlockExact(["c"], RETURNS_TWICE, false);
  }

  lemma ReturningBranchesAccepted()
    ensures BodyAccepted(["c"], [Bool], RETURNS_TWICE, Int)
  {
    var e := RETURNS_TWICE.first.e;
    var env := EnvOf(["c"], [Bool]);
    assert env["c"] == Bool;
    ReturnTypes(1, env);
    ReturnTypes(2, env);
    assert Types(Var("c"), env, Int, Bool);
    assert Merge(Never, Never) == Some(Never);
    assert Types(e, env, Int, Never);
    assert BlockTypes(RETURNS_TWICE, env, Int, Never);
  }

  /** { ret n } */
  lemma ReturnTypes(n: int, env: Env)
    ensures BlockTypes(Then(Ret(Some(Lit(I32(n)))), End), env, Int, Never)
  {
    assert Types(Lit(I32(n)), env, Int, Int);
    assert StmtTypes(Ret(Some(Lit(I32(n)))), env, Int);
  }

  lemma ReturningBranchesOk()
    ensures FunctionOk(["c"], RETURNS_TWICE)
  {
    assert "c" in Names(["c"]);
  }

  lemma ReturningBranchesMean()
    ensures Call(["c"], RETURNS_TWICE, false, [I1(true)], 0) == Finished(Some(I32(1)))
  {
    var st := Bind(["c"], [I1(true)]);
    assert st["c"] == I1(true);
    var branch := RETURNS_TWICE.first.e.thn;
    assert Exec(branch, st, 0) == Returned(Some(I32(1)));
  }

  /** What the machine does within `fuel` loop turns' worth of steps. */
  ghost predicate Matches(p: Program, args: seq<Value>, answer: Answer, fuel: nat) {
    match answer
    case Finished(r) => BlocksFinish(p, args, r)
    case Faulted(why) => BlocksStick(p, args, why)
    case Running => Run(p, Start(args), fuel).Go?
    case Escaped => false
  }

  lemma CallMatches(params: seq<string>, body: Block, isVoid: bool, args: seq<Value>, p: Program, fuel: nat)
    requires |params| == |args| && Distinct(params) && FunctionOk(params, body)
    requires LowerFunction(params, body, isVoid) == Code(p)
    ensures Matches(p, args, Call(params, body, isVoid, args, fuel), fuel)
  {
    hide EmitBlock, EmitBlockValue, BlockOk, Extends, Exec, Run, VarsOk, Bind;
    var st, c, b0, own := Bind(params, args), Start(args), Entry(params), Names(params);
    EntryReady(params, args);
    LowersTo(params, body, isVoid);
    var block := Lowered(body, isVoid);
    BodyShape(params, block);
    var b1 := EmitBlock(block, b0);
    EndExtends(b1, p);
    var n, c' := SimBlock(p, block, b0, own, false, c, st, fuel);
    var out := Exec(block, st, fuel);
    if !isVoid {
      ReturnTailMeans(body, st, fuel);
    }
    if out.Val? {
      if BlockDiverges(block) {
        BlockDivergesNoValue(block, st, fuel);
      }
      assert Standing(b1, c') && Open(b1);
      TermAt(p, b1, RetVoid, c');
      RunAdd(p, c, n, c', 1);
      assert Run(p, c, n + 1) == Done(None);
    }
  }

  lemma EndExtends(b: Builder, p: Program)
    requires Wf(b) && (if Terminated(b) then p == b.blocks else p == Terminate(b, RetVoid).blocks)
    ensures Extends(b.blocks, p) && (!Terminated(b) ==> Extends(Terminate(b, RetVoid).blocks, p))
  {
  }

  /**
   The main theorem: for every call, the blocks finish with r exactly when the structured program
   does, and get stuck exactly when it faults; so they run forever exactly when it does.
   */
  lemma LoweringPreservesMeaning(params: seq<string>, body: Block, isVoid: bool, args: seq<Value>, p: Program)
    requires |params| == |args| && Distinct(params) && FunctionOk(params, body)
    requires LowerFunction(params, body, isVoid) == Code(p)
    ensures forall r :: BlocksFinish(p, args, r) <==> CallFinishes(params, body, isVoid, args, r)
    ensures forall why :: BlocksStick(p, args, why) <==> CallFaults(params, body, isVoid, args, why)
    ensures BlocksRunForever(p, args) <==> CallRunsForever(params, body, isVoid, args)
  {
    hide LowerFunction, FunctionOk, Call, Run;
    forall fuel: nat
      ensures Matches(p, args, Call(params, body, isVoid, args, fuel), fuel)
    {
      CallMatches(params, body, isVoid, args, p, fuel);
    }
    forall n: nat | !Run(p, Start(args), n).Go?
      ensures Call(params, body, isVoid, args, n) == EndOf(Run(p, Start(args), n))
    {
      SameEnd(p, args, Call(params, body, isVoid, args, n), n);
    }
    forall r | CallFinishes(params, body, isVoid, args, r)
      ensures BlocksFinish(p, args, r)
    {
      var fuel: nat :| Call(params, body, isVoid, args, fuel) == Finished(r);
      assert Matches(p, args, Call(params, body, isVoid, args, fuel), fuel);
    }
    forall why | CallFaults(params, body, isVoid, args, why)
      ensures BlocksStick(p, args, why)
    {
      var fuel: nat :| Call(params, body, isVoid, args, fuel) == Faulted(why);
      assert Matches(p, args, Call(params, body, isVoid, args, fuel), fuel);
    }
    if BlocksRunForever(p, args) {
      forall fuel: nat
        ensures Call(params, body, isVoid, args, fuel) == Running
      {
        assert Matches(p, args, Call(params, body, isVoid, args, fuel), fuel);
      }
    }
  }

  function EndOf(r: Result): Answer {
    match r
    case Go(_) => Running
    case Done(v) => Finished(v)
    case Stuck(why) => Faulted(why)
  }

  /** The machine ends in one way only. */
  lemma SameEnd(p: Program, args: seq<Value>, answer: Answer, n: nat)
    requires Matches(p, args, answer, n) && !Run(p, Start(args), n).Go?
    ensures answer == EndOf(Run(p, Start(args), n))
  {
    hide Run;
    var m: nat := n;
    if answer.Finished? {
      m :| Run(p, Start(args), m) == Done(answer.r);
    } else {
      m :| Run(p, Start(args), m) == Stuck(answer.why);
    }
    RunMonotone(p, Start(args), if n <= m then n else m, if n <= m then m else n);
  }

  // ----- an accepted function never reaches an unreachable --------------------------------------------

  lemma {:induction false} ArgumentsTyped(params: seq<string>, types: seq<Ty>, args: seq<Value>)
    requires |params| == |types| == |args| && ArgsTyped(args, types)
    ensures Typed(Bind(params, args), EnvOf(params, types)) && EnvOf(params, types).Keys == Names(params)
  {
    if params != [] {
      var n := |params| - 1;
      assert params == params[..n] + [params[n]];
      ArgumentsTyped(params[..n], types[..n], args[..n]);
    }
  }

  /** A call of an accepted function goes on, fails in a division, or returns what its return type says. */
  lemma AcceptedCallFits(params: seq<string>, types: seq<Ty>, body: Block, ret: Ty, args: seq<Value>, fuel: nat)
    requires |params| == |types| && ArgsTyped(args, types) && FunctionOk(params, body) &&
        BodyAccepted(params, types, body, ret)
    ensures var answer := Call(params, body, ret.Void?, args, fuel);
            match answer
            case Finished(None) => ret.Void?
            case Finished(Some(v)) => Storable(ret) && HasTy(v, ret)
            case Faulted(why) => why == NoQuotient
            case Running => true
            case Escaped => false
  {
    ArgumentsTyped(params, types, args);
    var env, st := EnvOf(params, types), Bind(params, args);
    var t :| BlockTypes(body, env, ret, t) && (!ret.Void? ==> t == ret || t.Never?);
    hide BlockTypes, BlockOk, Exec, Typed, Bind;
    if !EndsInValue(body) {
      NoValueAtEnd(body, env, ret, t);
    }
    ExecTyped(body, st, env, ret, t, Names(params), false, fuel);
  }

  /**
   The blocks of an accepted function get stuck in a division only: every operand and slot they read is
   there and fits.
  */
  lemma OnlyDivisionsFail(params: seq<string>, types: seq<Ty>, body: Block, ret: Ty, args: seq<Value>, p: Program,
                          n: nat, why: Why)
    requires |params| == |types| && Distinct(params) && ArgsTyped(args, types)
    requires FunctionOk(params, body) && BodyAccepted(params, types, body, ret) &&
        LowerFunction(params, body, ret.Void?) == Code(p)
    requires Run(p, Start(args), n) == Stuck(why)
    ensures why == NoQuotient
  {
    hide FunctionOk, BodyAccepted, LowerFunction, Call;
    LoweringPreservesMeaning(params, body, ret.Void?, args, p);
    assert BlocksStick(p, args, why);
    var fuel: nat :| Call(params, body, ret.Void?, args, fuel) == Faulted(why);
    AcceptedCallFits(params, types, body, ret, args, fuel);
  }

  predicate StandsAtUnreachable(p: Program, c: Config) {
    c.block < |p| && c.pc >= |p[c.block].instrs| && p[c.block].term == Some(Unreachable)
  }

  /** Running an accepted function, no state of the blocks ever stands at an unreachable. */
  lemma UnreachableNeverReached(params: seq<string>, types: seq<Ty>, body: Block, ret: Ty, args: seq<Value>, p: Program,
                                n: nat, c: Config)
    requires |params| == |types| && Distinct(params) && ArgsTyped(args, types)
    requires FunctionOk(params, body) && BodyAccepted(params, types, body, ret) &&
        LowerFunction(params, body, ret.Void?) == Code(p)
    requires Run(p, Start(args), n) == Go(c)
    ensures !StandsAtUnreachable(p, c)
  {
    hide FunctionOk, BodyAccepted, LowerFunction, Call;
    if StandsAtUnreachable(p, c) {
      RunAdd(p, Start(args), n, c, 1);
      assert Run(p, Start(args), n + 1) == Stuck(NoArm);
      OnlyDivisionsFail(params, types, body, ret, args, p, n + 1, NoArm);
    }
  }

  /** The theorems speak about functions with every kind of statement. */
  lemma EverythingCovered()
    ensures FunctionOk(["n"], EVERYTHING) && BodyAccepted(["n"], [Int], EVERYTHING, Int)
    ensures ArgsTyped([I32(5)], [Int])
  {
    EverythingAccepted();
    assert "n" in Names(["n"]);
    hide BodyAccepted;
    EverythingInScope(Names(["n"]));
  }

  lemma EverythingInScope(names: set<string>)
    requires "n" in names && "s" !in names && "i" !in names
    ensures BlockOk(EVERYTHING, names, names, false)
  {
    var inner := names + {"s"};
    LastInScope(inner);
    RaiseInScope(inner);
    TurnInScope(inner);
    hide Ok, StmtOk;
    assert inner + {} == inner;
    assert BlockOk(EVERYTHING.rest.rest.rest, inner, inner, false);
    assert BlockOk(EVERYTHING.rest.rest, inner, inner, false);
    assert BlockOk(EVERYTHING.rest, inner, inner, false);
    LetInScope("s", names);
  }

  lemma LetInScope(x: string, names: set<string>)
    requires x !in names
    ensures StmtOk(Let(x, Lit(I32(0))), names, names, false)
  {
  }

  lemma OperandsInScope(op: Op, l: Expr, r: Expr, names: set<string>, inLoop: bool)
    requires (l.Lit? || (l.Var? && l.x in names)) && (r.Lit? || (r.Var? && r.x in names))
    ensures Ok(Bin(op, l, r), names, names, inLoop) && !Diverges(Bin(op, l, r))
  {
    assert Ok(l, names, names, inLoop) && Ok(r, names, names, inLoop);
  }

  lemma VarInScope(x: string, y: string, op: Op, names: set<string>, inLoop: bool)
    requires x in names && y in names
    ensures StmtOk(Ret(Some(Var(x))), names, names, inLoop) && StmtOk(Do(Var(x)), names, names, inLoop)
    ensures StmtOk(AssignOp(y, op, Var(x)), names, names, inLoop)
  {
    assert Ok(Var(x), names, names, inLoop) && !Diverges(Var(x));
  }

  lemma OnlyStatement(s: Stmt, names: set<string>, inLoop: bool)
    requires StmtOk(s, names, names, inLoop)
    ensures BlockOk(Then(s, End), names, names, inLoop)
  {
  }

  lemma ChoiceInScope(valued: bool, cond: Expr, thn: Block, els: Block, names: set<string>, inLoop: bool)
    requires Ok(cond, names, names, inLoop) && !Diverges(cond)
    requires BlockOk(thn, names, names, inLoop) && BlockOk(els, names, names, inLoop)
    ensures StmtOk(Do(If(valued, cond, thn, els)), names, names, inLoop)
  {
    assert Ok(If(valued, cond, thn, els), names, names, inLoop);
  }

  lemma ScopeInScope(body: Block, names: set<string>, inLoop: bool)
    requires BlockOk(body, names, names, inLoop)
    ensures StmtOk(Do(Scope(body)), names, names, inLoop)
  {
    assert Ok(Scope(body), names, names, inLoop);
  }

  lemma LastInScope(names: set<string>)
    requires "n" in names && "s" in names
    ensures StmtOk(Do(LAST), names, names, false)
  {
    hide Ok, StmtOk, BlockOk;
    OperandsInScope(Eq, Var("s"), Var("n"), names, false);
    VarInScope("n", "n", Add, names, false);
    VarInScope("s", "s", Add, names, false);
    OnlyStatement(Ret(Some(Var("n"))), names, false);
    OnlyStatement(Do(Var("s")), names, false);
    ScopeInScope(Then(Do(Var("s")), End), names, false);
    OnlyStatement(Do(LAST.els.first.e), names, false);
    ChoiceInScope(true, LAST.cond, LAST.thn, LAST.els, names, false);
  }

  lemma RaiseInScope(names: set<string>)
    requires "s" in names
    ensures StmtOk(For(BELOW, RAISE), names, names, false)
  {
    OperandsInScope(Lt, Var("s"), Lit(I32(10)), names, false);
    OperandsInScope(Add, Var("s"), Lit(I32(1)), names, true);
    assert StmtOk(RAISE.first, names, names, true);
    OnlyStatement(RAISE.first, names, true);
  }

  lemma TurnInScope(names: set<string>)
    requires "n" in names && "s" in names && "i" !in names
    ensures StmtOk(COUNTED, names, names, false)
  {
    var inner := names + {"i"};
    TurnOk(inner);
    hide BlockOk;
    assert Ok(Lit(I32(0)), names, inner, false) && Ok(Var("n"), names, inner, false);
  }

  lemma TurnOk(names: set<string>)
    requires "n" in names && "s" in names && "i" in names
    ensures BlockOk(TURN, names, names, true)
  {
    assert StmtOk(Break, names, names, true);
    hide Ok, StmtOk, BlockOk;
    OperandsInScope(Lt, Var("i"), Var("n"), names, true);
    VarInScope("i", "s", Add, names, true);
    OnlyStatement(AssignOp("s", Add, Var("i")), names, true);
    OnlyStatement(Break, names, true);
    ChoiceInScope(false, LESS, Then(AssignOp("s", Add, Var("i")), End), Then(Break, End), names, true);
    OnlyStatement(TURN.first, names, true);
  }

  // ----- why an initializer must not declare the name it initializes ---------------------------------

  /** { let x = 1; 7 } */
  const INNER := Then(Let("x", Lit(I32(1))), Then(Do(Lit(I32(7))), End))
  const OTHER := Then(Do(Lit(I32(2))), End)
  const INITIALIZER := If(true, Lit(I1(true)), INNER, OTHER)

  /** let x = if true { let x = 1; 7 } else { 2 }; ret x */
  const REDECLARES := Then(Let("x", INITIALIZER), Then(Ret(Some(Var("x"))), End))

  const MERGE := Phi(1, [(Const(I32(7)), 1), (Const(I32(2)), 2)])
  const ENTRY_PART := BasicBlock([Truth(0, Const(I1(true)))], Some(CBr(Temp(0), 1, 2)))
  const INNER_PART := BasicBlock([StoreTo(2, Const(I32(1)))], Some(Br(3)))
  const OTHER_PART := BasicBlock([], Some(Br(3)))
  const JOIN_PART := BasicBlock([MERGE, StoreTo(1, Temp(1)), Load(2, 2), StoreTo(RETURN_SLOT, Temp(2)),
      Load(3, RETURN_SLOT)],
                                Some(RetValue(Temp(3))))
  const REDECLARED: Program := [ENTRY_PART, INNER_PART, OTHER_PART, JOIN_PART]

  /** The builder after the condition, after each branch, and after the join. */
  function Stage(blocks: Program, cur: nat, nextTemp: nat, slot: nat): Builder {
    Builder(blocks, cur, nextTemp, slot + 1, map["x" := slot], [])
  }

  lemma ConditionEmitted()
    ensures EmitCondition(Lit(I1(true)), Declare(Entry([]), "x"))
         == (Stage([BasicBlock([Truth(0, Const(I1(true)))], None)], 0, 1, 1), Temp(0))
  {
    var (b1, x) := EmitCondition(Lit(I1(true)), Declare(Entry([]), "x"));
    assert b1.blocks[0].instrs == [Truth(0, Const(I1(true)))];
    assert b1.blocks == [BasicBlock([Truth(0, Const(I1(true)))], None)];
    assert b1.vars == map["x" := 1];
  }

  lemma InnerEmitted()
    ensures EmitBlockValue(INNER, Stage([ENTRY_PART, EMPTY_BLOCK, EMPTY_BLOCK, EMPTY_BLOCK], 1, 1, 1))
         == (Stage([ENTRY_PART, BasicBlock([StoreTo(2, Const(I32(1)))], None), EMPTY_BLOCK, EMPTY_BLOCK], 1, 1, 2),
             Const(I32(7)))
  {
    var b := Stage([ENTRY_PART, EMPTY_BLOCK, EMPTY_BLOCK, EMPTY_BLOCK], 1, 1, 1);
    var b1 := EmitStmt(Let("x", Lit(I32(1))), b);
    assert b1.blocks[1].instrs == [StoreTo(2, Const(I32(1)))];
    assert b1.blocks == [ENTRY_PART, BasicBlock([StoreTo(2, Const(I32(1)))], None), EMPTY_BLOCK, EMPTY_BLOCK];
    assert b1.vars == map["x" := 2];
    assert EmitBlockValue(INNER, b) == EmitBlockValue(Then(Do(Lit(I32(7))), End), b1);
  }

  lemma InitializerEmitted()
    ensures EmitExpr(INITIALIZER, Declare(Entry([]), "x"))
         == (Stage([ENTRY_PART, INNER_PART, OTHER_PART, BasicBlock([MERGE], None)], 3, 2, 2), Temp(1))
  {
    hide EmitBlockValue, EmitCondition;
    ConditionEmitted();
    var (b1, c) := EmitCondition(Lit(I1(true)), Declare(Entry([]), "x"));
    var s1 := At(Terminate(AppendBlocks(b1, 3), CBr(c, 1, 2)), 1);
    assert s1.blocks == [ENTRY_PART, EMPTY_BLOCK, EMPTY_BLOCK, EMPTY_BLOCK];
    InnerEmitted();
    var (b2, x) := EmitBlockValue(INNER, s1);
    var s2 := At(TerminateIfOpen(b2, Br(3)), 2);
    assert s2.blocks == [ENTRY_PART, INNER_PART, EMPTY_BLOCK, EMPTY_BLOCK];
    OtherEmitted(s2);
    var (b3, y) := EmitBlockValue(OTHER, s2);
    var s3 := At(TerminateIfOpen(b3, Br(3)), 3);
    assert s3.blocks == [ENTRY_PART, INNER_PART, OTHER_PART, EMPTY_BLOCK];
    var incoming := [(x, b2.cur)] + [(y, b3.cur)];
    assert incoming == [(Const(I32(7)), 1), (Const(I32(2)), 2)];
    var (b4, z) := EmitJoin(s3, true, incoming);
    assert b4.blocks[3].instrs == [MERGE];
    assert b4.blocks == [ENTRY_PART, INNER_PART, OTHER_PART, BasicBlock([MERGE], None)];
    assert EmitExpr(INITIALIZER, Declare(Entry([]), "x")) == (b4, z);
  }

  lemma OtherEmitted(b: Builder)
    requires Wf(b)
    ensures EmitBlockValue(OTHER, b) == (b, Const(I32(2)))
  {
  }

  lemma RedeclaredEmitted()
    ensures LowerFunction([], REDECLARES, false) == Code(REDECLARED)
  {
    InitializerEmitted();
    var b1 := LetEmitted();
    var ret := Ret(Some(Var("x")));
    var b2 := RetEmitted(b1);
    assert EmitBlock(Then(ret, End), b1) == EmitBlock(End, b2);
    assert EmitBlock(REDECLARES, Entry([])) == EmitBlock(Then(ret, End), b1);
  }

  lemma LetEmitted() returns (b1: Builder)
    ensures b1 == EmitStmt(Let("x", INITIALIZER), Entry([]))
    ensures b1 == Stage([ENTRY_PART, INNER_PART, OTHER_PART, BasicBlock([MERGE, StoreTo(1, Temp(1))], None)], 3, 2, 2)
  {
    hide EmitExpr;
    InitializerEmitted();
    b1 := EmitStmt(Let("x", INITIALIZER), Entry([]));
    assert b1.blocks[3].instrs == [MERGE, StoreTo(1, Temp(1))];
    assert b1.blocks == [ENTRY_PART, INNER_PART, OTHER_PART, BasicBlock([MERGE, StoreTo(1, Temp(1))], None)];
  }

  lemma RetEmitted(b1: Builder) returns (b2: Builder)
    requires b1 == Stage([ENTRY_PART, INNER_PART, OTHER_PART, BasicBlock([MERGE, StoreTo(1, Temp(1))], None)], 3, 2, 2)
    ensures b2 == EmitStmt(Ret(Some(Var("x"))), b1) && b2.blocks == REDECLARED && Wf(b2) && Terminated(b2)
  {
    b2 := EmitStmt(Ret(Some(Var("x"))), b1);
    assert EmitExpr(Var("x"), b1) == Load_(b1, 2);
    assert b2.blocks[3].instrs == JOIN_PART.instrs;
    assert b2.blocks == REDECLARED;
  }

  /**
   The checker accepts the program; it says 7, its blocks say 1: the inner x keeps the outer one's place
   in `vars`.
  */
  lemma RedeclaredInitializerMisread()
    ensures BodyAccepted([], [], REDECLARES, Int)
    ensures Call([], REDECLARES, false, [], 0) == Finished(Some(I32(7)))
    ensures LowerFunction([], REDECLARES, false) == Code(REDECLARED)
    ensures BlocksFinish(REDECLARED, [], Some(I32(1)))
  {
    RedeclaredAccepted();
    hide BodyAccepted;
    RedeclaredEmitted();
    RedeclaredCall();
    RedeclaredRun();
  }

  lemma RedeclaredAccepted()
    ensures BodyAccepted([], [], REDECLARES, Int)
  {
    InitializerTypes(map[]);
    var env := map["x" := Int];
    var last := Then(Ret(Some(Var("x"))), End);
    assert Types(Var("x"), env, Int, Int);
    assert StmtTypes(last.first, env, Int);
    assert BlockTypes(last, env, Int, Never);
    assert BlockTypes(REDECLARES, map[], Int, Never);
  }

  lemma InitializerTypes(env: Env)
    ensures Types(INITIALIZER, env, Int, Int)
  {
    assert Types(Lit(I1(true)), env, Int, Bool);
    assert Types(Lit(I32(1)), env, Int, Int);
    assert Types(Lit(I32(7)), env["x" := Int], Int, Int);
    assert Types(Lit(I32(2)), env, Int, Int);
    assert BlockTypes(INNER.rest, env["x" := Int], Int, Int);
    assert BlockTypes(INNER, env, Int, Int);
    assert BlockTypes(OTHER, env, Int, Int);
    assert Merge(Int, Int) == Some(Int);
  }

  lemma RedeclaredCall()
    ensures Call([], REDECLARES, false, [], 0) == Finished(Some(I32(7)))
  {
    var inner := Exec(INNER, map[], 0);
    assert Step(INNER.first, map[], 0) == Val(UNIT, map["x" := I32(1)]);
    assert inner == Val(I32(7), map["x" := I32(1)]);
    assert Eval(INITIALIZER, map[], 0) == Val(I32(7), map[]);
    assert Step(REDECLARES.first, map[], 0) == Val(UNIT, map["x" := I32(7)]);
  }

  lemma RedeclaredRun()
    ensures BlocksFinish(REDECLARED, [], Some(I32(1)))
  {
    var p := REDECLARED;
    var t0 := map[0 := I1(true)];
    var t1 := t0[1 := I32(7)];
    var t2 := t1[2 := I32(1)];
    var s1 := map[2 := I32(1)];
    var s2 := s1[1 := I32(7)];
    var c5 := Config(3, 2, 1, t1, s2);
    assert Run(p, Config(3, 4, 1, t2, s2[0 := I32(1)]), 2) == Done(Some(I32(1)));
    assert Run(p, c5, 4) == Done(Some(I32(1)));
    assert ExecOne(p, Config(3, 0, 1, t0, s1)) == Go(Config(3, 1, 1, t1, s1));
    assert Run(p, Config(3, 0, 1, t0, s1), 6) == Done(Some(I32(1)));
    assert Run(p, Config(1, 0, 0, t0, map[]), 8) == Done(Some(I32(1)));
    assert Run(p, Start([]), 10) == Done(Some(I32(1)));
  }
}
