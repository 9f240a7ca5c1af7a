/**
 The generator as it runs: one builder object whose blocks, insertion point, variable table and stack of
 loop exits are updated in place.  Every method is proved to do what the function of the same name in
 Lowering says, and LoweringTheorem is about those.
 */
module LoweringBuilder {
  import opened Prelude
  import opened Structured
  import opened BasicBlocks
  import L = Lowering

  // ----- sizes, for termination ---------------------------------------------------------------------------

  ghost function ExprSize(e: Expr): nat {
    match e
    case Lit(_) => 1
    case Var(_) => 1
    case Bin(_, l, r) => 1 + ExprSize(l) + ExprSize(r)
    case If(_, cond, thn, els) => 1 + ExprSize(cond) + BlockSize(thn) + BlockSize(els)
    case Match(_, scrutinee, arms) => 1 + ExprSize(scrutinee) + ArmsSize(arms)
    case Scope(body) => 1 + BlockSize(body)
  }

  ghost function ArmsSize(arms: Arms): nat {
    match arms
    case NoArms => 0
    case Arm(_, body, rest) => 1 + ExprSize(body) + ArmsSize(rest)
  }

  ghost function BlockSize(block: Block): nat {
    match block
    case End => 0
    case Then(s, rest) => 1 + StmtSize(s) + BlockSize(rest)
  }

  ghost function StmtSize(s: Stmt): nat {
    match s
    case Let(_, e) => 1 + ExprSize(e)
    case Assign(_, e) => 1 + ExprSize(e)
    case AssignOp(_, _, e) => 1 + ExprSize(e)
    case Do(e) => 1 + ExprSize(e)
    case For(cond, body) => 1 + ExprSize(cond) + BlockSize(body)
    case ForRange(_, lo, hi, body) => 1 + ExprSize(lo) + ExprSize(hi) + BlockSize(body)
    case Break => 1
    case Ret(None) => 1
    case Ret(Some(e)) => 1 + ExprSize(e)
  }

  class IrBuilder {
    var blocks: Program
    var cur: nat
    var nextTemp: nat
    var nextSlot: nat
    var vars: map<string, nat>
    var breaks: seq<nat>

    ghost function Abs(): L.Builder
      reads this
    {
      L.Builder(blocks, cur, nextTemp, nextSlot, vars, breaks)
    }

    ghost predicate Valid()
      reads this
    {
      cur < |blocks|
    }

    /** The entry block of a function, with its parameters in their slots. */
    constructor (params: seq<string>)
      ensures Valid() && Abs() == L.Builder([L.EMPTY_BLOCK], 0, 0, 1 + |params|, L.ParamSlots(params), [])
    {
      blocks, cur, nextTemp, nextSlot, vars, breaks := [L.EMPTY_BLOCK], 0, 0, 1 + |params|, L.ParamSlots(params), [];
    }

    // ----- the IR library's builder -----------------------------------------------------------------------

    method Insert(i: Instr)
      requires Valid()
      modifies this`blocks
      ensures Valid() && Abs() == L.Append(old(Abs()), i) && |blocks| == |old(blocks)|
    {
      blocks := blocks[cur := blocks[cur].(instrs := blocks[cur].instrs + [i])];
    }

    method Close(t: Terminator)
      requires Valid()
      modifies this`blocks
      ensures Valid() && Abs() == L.Terminate(old(Abs()), t) && |blocks| == |old(blocks)|
    {
      blocks := blocks[cur := blocks[cur].(term := Some(t))];
    }

    method AppendBasicBlock() returns (id: nat)
      modifies this`blocks
      ensures id == |old(blocks)| && blocks == old(blocks) + [L.EMPTY_BLOCK]
    {
      id := |blocks|;
      blocks := blocks + [L.EMPTY_BLOCK];
    }

    function IsTerminated(): (r: bool)
      requires Valid()
      reads this
      ensures r == L.Terminated(Abs())
    {
      blocks[cur].term.Some?
    }

    method CloseIfOpen(t: Terminator)
      requires Valid()
      modifies this`blocks
      ensures Valid() && Abs() == L.TerminateIfOpen(old(Abs()), t) && |blocks| == |old(blocks)|
    {
      if !IsTerminated() {
        Close(t);
      }
    }

    method Compute(op: Op, x: Operand, y: Operand) returns (r: Operand)
      requires Valid()
      modifies this`blocks, this`nextTemp
      ensures Valid() && (Abs(), r) == L.Compute_(old(Abs()), op, x, y) && |blocks| == |old(blocks)| &&
          breaks == old(breaks) && cur == old(cur)
    {
      Insert(Instr.Compute(nextTemp, op, x, y));
      r := Temp(nextTemp);
      nextTemp := nextTemp + 1;
    }

    method BoolValue(x: Operand) returns (r: Operand)
      requires Valid()
      modifies this`blocks, this`nextTemp
      ensures Valid() && (Abs(), r) == L.Truth_(old(Abs()), x) && |blocks| == |old(blocks)| && breaks == old(breaks) &&
          cur == old(cur)
    {
      Insert(Truth(nextTemp, x));
      r := Temp(nextTemp);
      nextTemp := nextTemp + 1;
    }

    method Load(slot: nat) returns (r: Operand)
      requires Valid()
      modifies this`blocks, this`nextTemp
      ensures Valid() && (Abs(), r) == L.Load_(old(Abs()), slot) && |blocks| == |old(blocks)| &&
          breaks == old(breaks) && cur == old(cur)
    {
      Insert(Instr.Load(nextTemp, slot));
      r := Temp(nextTemp);
      nextTemp := nextTemp + 1;
    }

    /** alloca_at_entry and the entry in `vars`. */
    method Declare(x: string) returns (slot: nat)
      modifies this`vars, this`nextSlot
      ensures slot == old(nextSlot) && Abs() == L.Declare(old(Abs()), x)
    {
      slot := nextSlot;
      vars := vars[x := slot];
      nextSlot := nextSlot + 1;
    }

    function SlotOf(x: string): nat
      reads this
    {
      if x in vars then vars[x] else L.RETURN_SLOT
    }

    // ----- expressions ----------------------------------------------------------------------------------------

    method EmitExpr(e: Expr) returns (r: Operand)
      requires Valid()
      modifies this
      ensures Valid() && (Abs(), r) == L.EmitExpr(e, old(Abs()))
      decreases ExprSize(e), 1
    {
      match e
      case Lit(v) => r := Const(v);
      case Var(x) => r := Load(SlotOf(x));
      case Bin(op, left, right) =>
        var x := EmitExpr(left);
        var y := EmitExpr(right);
        r := EmitBinary(op, x, y);
      case If(valued, cond, thn, els) => r := EmitIf(e);
      case Match(valued, scrutinee, arms) => r := EmitMatch(e);
      case Scope(body) =>
        var saved := vars;
        r := EmitBlockValue(body);
        vars := saved;
    }

    method EmitCondition(e: Expr) returns (r: Operand)
      requires Valid()
      modifies this
      ensures Valid() && (Abs(), r) == L.EmitCondition(e, old(Abs()))
      decreases ExprSize(e), 2
    {
      var x := EmitExpr(e);
      r := BoolValue(x);
    }

    /** emit_binary_values */
    method EmitBinary(op: Op, x: Operand, y: Operand) returns (r: Operand)
      requires Valid()
      modifies this`blocks, this`nextTemp
      ensures Valid() && (Abs(), r) == L.EmitBinary(old(Abs()), op, x, y)
    {
      if op.And? || op.Or? {
        var a := BoolValue(x);
        var b := BoolValue(y);
        r := Compute(op, a, b);
      } else {
        r := Compute(op, x, y);
      }
    }

    method EmitJoin(valued: bool, incoming: seq<(Operand, nat)>) returns (r: Operand)
      requires Valid()
      modifies this`blocks, this`nextTemp
      ensures Valid() && (Abs(), r) == L.EmitJoin(old(Abs()), valued, incoming)
    {
      r := Const(UNIT);
      if incoming == [] {
        Close(Unreachable);
      } else if valued {
        Insert(Phi(nextTemp, incoming));
        r := Temp(nextTemp);
        nextTemp := nextTemp + 1;
      }
    }

    /** emit_if_expr */
    method EmitIf(e: Expr) returns (r: Operand)
      requires Valid() && e.If?
      modifies this
      ensures Valid() && (Abs(), r) == L.EmitExpr(e, old(Abs()))
      decreases ExprSize(e), 0
    {
      hide L.EmitExpr, L.EmitCondition, L.EmitBlockValue, L.EmitBlock, L.EmitStmt, L.EmitArms, L.EmitPattern,
          L.EmitJoin;
      hide L.EmitCount, L.EmitAdvance, L.AppendBlocks, L.Terminate, L.TerminateIfOpen, L.Load_, L.Compute_, L.Truth_;
      IfIs(e, Abs());
      var c := EmitCondition(e.cond);
      ghost var b1 := Abs();
      var thenBlock := AppendBasicBlock();
      var elseBlock := AppendBasicBlock();
      var endBlock := AppendBasicBlock();
      ThreeBlocks(b1, blocks);
      Close(CBr(c, thenBlock, elseBlock));
      var x, thenEnd, thenContinues := EmitBranch(e.thn, thenBlock, endBlock);
      var y, elseEnd, elseContinues := EmitBranch(e.els, elseBlock, endBlock);
      cur := endBlock;
      var incoming := (if thenContinues then [(x, thenEnd)] else []) + if elseContinues then [(y, elseEnd)] else [];
      r := EmitJoin(e.valued, incoming);
    }

    /** One branch of an if: its value, the block it ends in, and whether control leaves it normally. */
    method EmitBranch(block: Block, start: nat, end: nat) returns (x: Operand, last: nat, continues: bool)
      requires start < |blocks|
      modifies this
      ensures var (b, y) := L.EmitBlockValue(block, L.At(old(Abs()), start));
              x == y && last == b.cur && continues == !L.Terminated(b) && Abs() == L.TerminateIfOpen(b, Br(end))
      ensures Valid() && |blocks| >= |old(blocks)|
      decreases BlockSize(block), 2
    {
      hide L.EmitBlockValue, L.TerminateIfOpen;
      cur := start;
      x := EmitBlockValue(block);
      last, continues := cur, !IsTerminated();
      CloseIfOpen(Br(end));
    }

    /** emit_match_expr */
    method EmitMatch(e: Expr) returns (r: Operand)
      requires Valid() && e.Match?
      modifies this
      ensures Valid() && (Abs(), r) == L.EmitExpr(e, old(Abs()))
      decreases ExprSize(e), 0
    {
      hide L.EmitExpr, L.EmitCondition, L.EmitBlockValue, L.EmitBlock, L.EmitStmt, L.EmitArms, L.EmitPattern,
          L.EmitJoin;
      hide L.EmitCount, L.EmitAdvance, L.AppendBlocks, L.Terminate, L.TerminateIfOpen, L.Load_, L.Compute_, L.Truth_;
      MatchIs(e, Abs());
      var s := EmitExpr(e.scrutinee);
      ghost var b1 := Abs();
      var end := AppendBasicBlock();
      OneBlock(b1, blocks);
      ghost var b2 := Abs();
      var incoming: seq<(Operand, nat)> := [];
      var arms := e.arms;
      assert [] + L.EmitArms(arms, s, end, b2).1 == L.EmitArms(arms, s, end, b2).1;
      while arms.Arm?
        invariant Valid() && ArmsSize(arms) <= ArmsSize(e.arms)
        invariant L.EmitArms(e.arms, s, end, b2) == (L.EmitArms(arms, s, end, Abs()).0,
            incoming + L.EmitArms(arms, s, end, Abs()).1)
        decreases arms
      {
        ghost var before, had := Abs(), incoming;
        var here := EmitArm(arms, s, end, had);
        incoming := incoming + here;
        arms := arms.rest;
      }
      ArmsEnd(s, end, Abs());
      assert incoming + [] == incoming;
      CloseIfOpen(Unreachable);
      cur := end;
      r := EmitJoin(e.valued, incoming);
    }

    /** One turn of the loop over the arms: what it adds to the incoming list. */
    method EmitArm(arms: Arms, s: Operand, end: nat, ghost had: seq<(Operand, nat)>) returns (here: seq<(Operand, nat)>)
      requires Valid() && arms.Arm?
      modifies this
      ensures Valid()
      ensures L.EmitArms(arms, s, end, old(Abs())).0 == L.EmitArms(arms.rest, s, end, Abs()).0
      ensures had + L.EmitArms(arms, s, end, old(Abs())).1 == had + here + L.EmitArms(arms.rest, s, end, Abs()).1
      decreases ArmsSize(arms), 0
    {
      hide L.EmitExpr, L.EmitCondition, L.EmitBlockValue, L.EmitBlock, L.EmitStmt, L.EmitArms, L.EmitPattern,
          L.EmitJoin;
      hide L.EmitCount, L.EmitAdvance, L.AppendBlocks, L.Terminate, L.TerminateIfOpen, L.Load_, L.Compute_, L.Truth_;
      ghost var before := Abs();
      var bodyBlock := AppendBasicBlock();
      var nextBlock := AppendBasicBlock();
      TwoBlocks(before, blocks);
      EmitPattern(arms.pattern, s, bodyBlock);
      cur := bodyBlock;
      var x := EmitExpr(arms.body);
      here := if IsTerminated() then [] else [(x, cur)];
      CloseIfOpen(Br(end));
      cur := nextBlock;
      ArmTurn(arms, s, end, before, had);
    }

    /** match_condition and the branch to the arm. */
    method EmitPattern(pattern: Option<Value>, s: Operand, arm: nat)
      requires Valid()
      modifies this`blocks, this`nextTemp
      ensures Valid() && Abs() == L.EmitPattern(old(Abs()), pattern, s, arm) && |blocks| == |old(blocks)|
    {
      match pattern
      case None => Close(Br(arm));
      case Some(p) =>
        var c := Compute(Eq, s, Const(p));
        Close(CBr(c, arm, arm + 1));
    }

    // ----- blocks and statements --------------------------------------------------------------------------------

    /** emit_block_value: all but the last statement, then the last one's value. */
    method EmitBlockValue(block: Block) returns (r: Operand)
      requires Valid()
      modifies this
      ensures Valid() && (Abs(), r) == L.EmitBlockValue(block, old(Abs()))
      decreases BlockSize(block), 1
    {
      var rest := block;
      while rest.Then? && rest.rest.Then?
        invariant Valid() && BlockSize(rest) <= BlockSize(block)
        invariant L.EmitBlockValue(block, old(Abs())) == L.EmitBlockValue(rest, Abs())
        decreases rest
      {
        EmitStmt(rest.first);
        rest := rest.rest;
      }
      r := Const(UNIT);
      if rest.Then? {
        if rest.first.Do? {
          r := EmitExpr(rest.first.e);
        } else {
          EmitStmt(rest.first);
        }
      }
    }

    /** emit_block */
    method EmitBlock(block: Block)
      requires Valid()
      modifies this
      ensures Valid() && Abs() == L.EmitBlock(block, old(Abs()))
      decreases BlockSize(block), 1
    {
      var rest := block;
      while rest.Then?
        invariant Valid() && BlockSize(rest) <= BlockSize(block)
        invariant L.EmitBlock(block, old(Abs())) == L.EmitBlock(rest, Abs())
        decreases rest
      {
        if IsTerminated() {
          return;
        }
        EmitStmt(rest.first);
        rest := rest.rest;
      }
    }

    method EmitStmt(s: Stmt)
      requires Valid()
      modifies this
      ensures Valid() && Abs() == L.EmitStmt(s, old(Abs()))
      decreases StmtSize(s), 1
    {
      match s
      case Let(x, e) =>
        var slot := Declare(x);
        var v := EmitExpr(e);
        Insert(StoreTo(slot, v));
      case Assign(x, e) =>
        var slot := SlotOf(x);
        var v := EmitExpr(e);
        Insert(StoreTo(slot, v));
      case AssignOp(x, op, e) =>
        var slot := SlotOf(x);
        var v := EmitExpr(e);
        var before := Load(slot);
        var w := EmitBinary(op, before, v);
        Insert(StoreTo(slot, w));
      case Do(e) =>
        var v := EmitExpr(e);
      case For(cond, body) => EmitForCondition(s);
      case ForRange(i, lo, hi, body) => EmitForIn(s);
      case Break =>
        if breaks != [] {
          Close(Br(breaks[|breaks| - 1]));
        }
      case Ret(result) =>
        if result.Some? {
          var v := EmitExpr(result.value);
          EmitReturn(v);
        } else {
          Close(RetVoid);
        }
    }

    /** Store the result, load it back and return it. */
    method EmitReturn(x: Operand)
      requires Valid()
      modifies this`blocks, this`nextTemp
      ensures Valid() && Abs() == L.EmitReturn(old(Abs()), x) && |blocks| == |old(blocks)|
    {
      Insert(StoreTo(L.RETURN_SLOT, x));
      var w := Load(L.RETURN_SLOT);
      Close(RetValue(w));
    }

    /** emit_for_condition */
    method EmitForCondition(s: Stmt)
      requires Valid() && s.For?
      modifies this
      ensures Valid() && Abs() == L.EmitStmt(s, old(Abs()))
      decreases StmtSize(s), 0
    {
      hide L.EmitExpr, L.EmitCondition, L.EmitBlockValue, L.EmitBlock, L.EmitStmt, L.EmitArms, L.EmitPattern,
          L.EmitJoin;
      hide L.EmitCount, L.EmitAdvance, L.AppendBlocks, L.Terminate, L.TerminateIfOpen, L.Load_, L.Compute_, L.Truth_;
      ghost var b := Abs();
      ForIs(s, b);
      var condBlock := AppendBasicBlock();
      var bodyBlock := AppendBasicBlock();
      var endBlock := AppendBasicBlock();
      ThreeBlocks(b, blocks);
      Close(Br(condBlock));
      cur := condBlock;
      ConditionBreaks(s.cond, Abs());
      var c := EmitCondition(s.cond);
      Close(CBr(c, bodyBlock, endBlock));
      ghost var inner := EmitLoopBody(s.body, bodyBlock, endBlock);
      PopCommutes(inner, b.breaks, Br(condBlock), 0, condBlock);
      CloseIfOpen(Br(condBlock));
      cur := endBlock;
    }

    /** The body of a loop, with its exit on top of the stack of loop exits. */
    method EmitLoopBody(body: Block, start: nat, end: nat) returns (ghost inner: L.Builder)
      requires start < |blocks|
      modifies this
      ensures Valid() && |blocks| >= |old(blocks)|
      ensures inner == L.EmitBlock(body, L.At(old(Abs()), start).(breaks := old(breaks) + [end])) && L.Wf(inner)
      ensures Abs() == inner.(breaks := old(breaks))
      decreases BlockSize(body), 2
    {
      hide L.EmitBlock;
      cur := start;
      breaks := breaks + [end];
      ghost var b := Abs();
      EmitBlock(body);
      BlockBreaks(body, b);
      inner := Abs();
      breaks := breaks[..|breaks| - 1];
    }

    /** The range form of emit_for_in. */
    method EmitForIn(s: Stmt)
      requires Valid() && s.ForRange?
      modifies this
      ensures Valid() && Abs() == L.EmitStmt(s, old(Abs()))
      decreases StmtSize(s), 0
    {
      var slot := Declare(s.i);
      var x := EmitExpr(s.lo);
      var bound := EmitExpr(s.hi);
      Insert(StoreTo(slot, x));
      EmitCount(slot, bound, s.body);
    }

    method EmitCount(slot: nat, bound: Operand, body: Block)
      requires Valid()
      modifies this
      ensures Valid() && Abs() == L.EmitCount(slot, bound, body, old(Abs()))
      decreases BlockSize(body), 3
    {
      hide L.EmitExpr, L.EmitCondition, L.EmitBlockValue, L.EmitBlock, L.EmitStmt, L.EmitArms, L.EmitPattern,
          L.EmitJoin;
      hide L.EmitCount, L.EmitAdvance, L.AppendBlocks, L.Terminate, L.TerminateIfOpen, L.Load_, L.Compute_, L.Truth_;
      ghost var b := Abs();
      CountIs(slot, bound, body, b);
      var condBlock := AppendBasicBlock();
      var bodyBlock := AppendBasicBlock();
      var endBlock := AppendBasicBlock();
      ThreeBlocks(b, blocks);
      Close(Br(condBlock));
      cur := condBlock;
      var current := Load(slot);
      var c := Compute(Lt, current, bound);
      Close(CBr(c, bodyBlock, endBlock));
      ghost var inner := EmitLoopBody(body, bodyBlock, endBlock);
      PopCommutes(inner, b.breaks, Br(condBlock), slot, condBlock);
      EmitAdvance(slot, condBlock);
      cur := endBlock;
    }

    /** The index is reloaded, advanced and stored. */
    method EmitAdvance(slot: nat, head: nat)
      requires Valid()
      modifies this`blocks, this`nextTemp
      ensures Valid() && Abs() == L.EmitAdvance(old(Abs()), slot, head) && |blocks| == |old(blocks)|
    {
      if !IsTerminated() {
        var now := Load(slot);
        var next := Compute(Add, now, Const(I32(1)));
        Insert(StoreTo(slot, next));
        Close(Br(head));
      }
    }
  }

  /** emit_callable_body: a function from its parameters to its last terminator. */
  method EmitCallableBody(params: seq<string>, body: Block, isVoid: bool) returns (result: L.Emission)
    ensures result == L.LowerFunction(params, body, isVoid)
  {
    var builder := new IrBuilder(params);
    if !isVoid && EndsInValue(body) {
      builder.EmitBlock(L.Init(body));
      if builder.IsTerminated() {
        return L.Code(builder.blocks);
      }
      var x := builder.EmitExpr(L.TailOf(body));
      if builder.IsTerminated() {
        return L.ClosedBlock;
      }
      builder.EmitReturn(x);
      return L.Code(builder.blocks);
    }
    builder.EmitBlock(body);
    if builder.IsTerminated() {
      return L.Code(builder.blocks);
    }
    if isVoid {
      builder.Close(RetVoid);
      return L.Code(builder.blocks);
    }
    result := L.MissingRet;
  }

  // ----- emission leaves the stack of loop exits as it found it ------------------------------------------------------

  lemma {:induction false} ExprBreaks(e: Expr, b: L.Builder)
    requires L.Wf(b)
    ensures L.EmitExpr(e, b).0.breaks == b.breaks
    decreases e, 1
  {
    match e
    case Lit(_) =>
    case Var(_) =>
    case Bin(op, l, r) =>
      ExprBreaks(l, b);
      ExprBreaks(r, L.EmitExpr(l, b).0);
    case If(_, _, _, _) => IfBreaks(e, b);
    case Match(_, _, _) => MatchBreaks(e, b);
    case Scope(body) => BlockValueBreaks(body, b);
  }

  lemma {:induction false} IfBreaks(e: Expr, b: L.Builder)
    requires e.If? && L.Wf(b)
    ensures L.EmitExpr(e, b).0.breaks == b.breaks
    decreases e, 0
  {
    hide L.EmitExpr, L.EmitBlockValue, L.AppendBlocks, L.EmitCondition;
    IfIs(e, b);
    ConditionBreaks(e.cond, b);
    var (b1, c) := L.EmitCondition(e.cond, b);
    var n := |b1.blocks|;
    Appended(b1, 3);
    var s1 := L.At(L.Terminate(L.AppendBlocks(b1, 3), CBr(c, n, n + 1)), n);
    BlockValueBreaks(e.thn, s1);
    BlockValueBreaks(e.els, L.At(L.TerminateIfOpen(L.EmitBlockValue(e.thn, s1).0, Br(n + 2)), n + 1));
  }

  lemma {:induction false} MatchBreaks(e: Expr, b: L.Builder)
    requires e.Match? && L.Wf(b)
    ensures L.EmitExpr(e, b).0.breaks == b.breaks
    decreases e, 0
  {
    MatchIs(e, b);
    hide L.EmitArms, L.AppendBlocks, L.EmitExpr;
    ExprBreaks(e.scrutinee, b);
    var (b1, s) := L.EmitExpr(e.scrutinee, b);
    Appended(b1, 1);
    ArmsBreaks(e.arms, s, |b1.blocks|, L.AppendBlocks(b1, 1));
  }

  lemma Appended(b: L.Builder, n: nat)
    ensures L.AppendBlocks(b, n).breaks == b.breaks && L.AppendBlocks(b, n).cur == b.cur &&
        |L.AppendBlocks(b, n).blocks| == |b.blocks| + n
  {
  }

  lemma {:induction false} ConditionBreaks(e: Expr, b: L.Builder)
    requires L.Wf(b)
    ensures L.EmitCondition(e, b).0.breaks == b.breaks
    decreases e, 2
  {
    ExprBreaks(e, b);
  }

  lemma {:induction false} ArmsBreaks(arms: Arms, s: Operand, end: nat, b: L.Builder)
    requires L.Wf(b)
    ensures L.EmitArms(arms, s, end, b).0.breaks == b.breaks
    decreases arms, 1
  {
    if arms.Arm? {
      ArmTurn(arms, s, end, b, []);
      hide L.EmitArms, L.EmitExpr, L.AppendBlocks;
      Appended(b, 2);
      var n := |b.blocks|;
      var b1 := L.At(L.EmitPattern(L.AppendBlocks(b, 2), arms.pattern, s, n), n);
      ExprBreaks(arms.body, b1);
      ArmsBreaks(arms.rest, s, end, L.At(L.TerminateIfOpen(L.EmitExpr(arms.body, b1).0, Br(end)), n + 1));
    }
  }

  lemma {:induction false} BlockValueBreaks(block: Block, b: L.Builder)
    requires L.Wf(b)
    ensures L.EmitBlockValue(block, b).0.breaks == b.breaks
    decreases block, 1
  {
    if block.Then? {
      if block.rest.End? && block.first.Do? {
        ExprBreaks(block.first.e, b);
      } else {
        StmtBreaks(block.first, b);
        if block.rest.Then? {
          BlockValueBreaks(block.rest, L.EmitStmt(block.first, b));
        }
      }
    }
  }

  lemma {:induction false} BlockBreaks(block: Block, b: L.Builder)
    requires L.Wf(b)
    ensures L.EmitBlock(block, b).breaks == b.breaks
    decreases block, 1
  {
    if block.Then? && !L.Terminated(b) {
      StmtBreaks(block.first, b);
      BlockBreaks(block.rest, L.EmitStmt(block.first, b));
    }
  }

  lemma {:induction false} StmtBreaks(s: Stmt, b: L.Builder)
    requires L.Wf(b)
    ensures L.EmitStmt(s, b).breaks == b.breaks
    decreases s, 1
  {
    match s
    case Let(x, e) => ExprBreaks(e, L.Declare(b, x));
    case Assign(_, e) => ExprBreaks(e, b);
    case AssignOp(_, _, e) => ExprBreaks(e, b);
    case Do(e) => ExprBreaks(e, b);
    case For(_, _) => ForIs(s, b);
    case ForRange(i, lo, hi, body) =>
      var (b1, x) := L.EmitExpr(lo, L.Declare(b, i));
      var (b2, y) := L.EmitExpr(hi, b1);
      ExprBreaks(lo, L.Declare(b, i));
      ExprBreaks(hi, b1);
      CountIs(b.nextSlot, y, body, L.Append(b2, StoreTo(b.nextSlot, x)));
    case Break =>
    case Ret(None) =>
    case Ret(Some(e)) => ExprBreaks(e, b);
  }

  // ----- facts about block lists and arms -----------------------------------------------------------------------

  lemma OneBlock(b: L.Builder, blocks: Program)
    requires blocks == b.blocks + [L.EMPTY_BLOCK]
    ensures L.AppendBlocks(b, 1) == b.(blocks := blocks)
  {
  }

  lemma TwoBlocks(b: L.Builder, blocks: Program)
    requires blocks == b.blocks + [L.EMPTY_BLOCK] + [L.EMPTY_BLOCK]
    ensures L.AppendBlocks(b, 2) == b.(blocks := blocks)
  {
  }

  lemma ThreeBlocks(b: L.Builder, blocks: Program)
    requires blocks == b.blocks + [L.EMPTY_BLOCK] + [L.EMPTY_BLOCK] + [L.EMPTY_BLOCK]
    ensures L.AppendBlocks(b, 3) == b.(blocks := blocks)
  {
  }

  /** Leaving the loop before or after closing its body makes no difference. */
  lemma PopCommutes(b: L.Builder, breaks: seq<nat>, t: Terminator, slot: nat, head: nat)
    requires L.Wf(b)
    ensures L.TerminateIfOpen(b.(breaks := breaks), t) == L.TerminateIfOpen(b, t).(breaks := breaks)
    ensures L.EmitAdvance(b.(breaks := breaks), slot, head) == L.EmitAdvance(b, slot, head).(breaks := breaks)
  {
  }

  // One unfolding each.

  lemma IfIs(e: Expr, b: L.Builder)
    requires e.If? && L.Wf(b)
    ensures var (b1, c) := L.EmitCondition(e.cond, b);
            var n := |b1.blocks|;
            var (b2, x) := L.EmitBlockValue(e.thn, L.At(L.Terminate(L.AppendBlocks(b1, 3), CBr(c, n, n + 1)), n));
            var (b3, y) := L.EmitBlockValue(e.els, L.At(L.TerminateIfOpen(b2, Br(n + 2)), n + 1));
            var b4 := L.At(L.TerminateIfOpen(b3, Br(n + 2)), n + 2);
            L.EmitExpr(e, b) == L.EmitJoin(b4, e.valued, (if L.Terminated(b2) then []
                else [(x, b2.cur)]) + (if L.Terminated(b3) then [] else [(y, b3.cur)]))
  {
    hide L.EmitCondition, L.EmitBlockValue, L.EmitJoin, L.AppendBlocks, L.TerminateIfOpen, L.Terminate;
  }

  lemma MatchIs(e: Expr, b: L.Builder)
    requires e.Match? && L.Wf(b)
    ensures var (b1, s) := L.EmitExpr(e.scrutinee, b);
            var end := |b1.blocks|;
            var (b2, incoming) := L.EmitArms(e.arms, s, end, L.AppendBlocks(b1, 1));
            L.EmitExpr(e, b) == L.EmitJoin(L.At(L.TerminateIfOpen(b2, Unreachable), end), e.valued, incoming)
  {
    hide L.EmitArms, L.EmitJoin;
  }

  lemma ForIs(s: Stmt, b: L.Builder)
    requires s.For? && L.Wf(b)
    ensures var n := |b.blocks|;
            var b1 := L.At(L.Terminate(L.AppendBlocks(b, 3), Br(n)), n);
            var (b2, c) := L.EmitCondition(s.cond, b1);
            var b3 := L.At(L.Terminate(b2, CBr(c, n + 1, n + 2)), n + 1);
            var b4 := L.EmitBlock(s.body, b3.(breaks := b.breaks + [n + 2]));
            L.EmitStmt(s, b) == L.At(L.TerminateIfOpen(b4, Br(n)), n + 2).(breaks := b.breaks)
  {
    hide L.EmitCondition, L.EmitBlock;
  }

  lemma CountIs(slot: nat, bound: Operand, body: Block, b: L.Builder)
    requires L.Wf(b)
    ensures var n := |b.blocks|;
            var b1 := L.At(L.Terminate(L.AppendBlocks(b, 3), Br(n)), n);
            var (b2, current) := L.Load_(b1, slot);
            var (b3, c) := L.Compute_(b2, Lt, current, bound);
            var b4 := L.At(L.Terminate(b3, CBr(c, n + 1, n + 2)), n + 1);
            var b5 := L.EmitBlock(body, b4.(breaks := b.breaks + [n + 2]));
            L.EmitCount(slot, bound, body, b) == L.At(L.EmitAdvance(b5, slot, n), n + 2).(breaks := b.breaks)
  {
    hide L.EmitBlock;
  }

  lemma ArmsEnd(s: Operand, end: nat, b: L.Builder)
    requires L.Wf(b)
    ensures L.EmitArms(NoArms, s, end, b) == (b, [])
  {
  }

  /** One turn of the loop over arms against one unfolding of the recursive definition. */
  lemma ArmTurn(arms: Arms, s: Operand, end: nat, b: L.Builder, had: seq<(Operand, nat)>)
    requires arms.Arm? && L.Wf(b)
    ensures var n := |b.blocks|;
            var b1 := L.EmitPattern(L.AppendBlocks(b, 2), arms.pattern, s, n);
            var (b2, x) := L.EmitExpr(arms.body, L.At(b1, n));
            var here := if L.Terminated(b2) then [] else [(x, b2.cur)];
            var b3 := L.At(L.TerminateIfOpen(b2, Br(end)), n + 1);
            && L.EmitArms(arms, s, end, b).0 == L.EmitArms(arms.rest, s, end, b3).0
            && had + L.EmitArms(arms, s, end, b).1 == had + here + L.EmitArms(arms.rest, s, end, b3).1
  {
    hide L.EmitExpr, L.EmitPattern;
  }
}
