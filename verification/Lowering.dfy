/**
 The code generator for control flow (compiler/llvm_control_expr.py, compiler/llvm_loop.py and the
 statement cases of compiler/llvm_codegen.py).  The builder's state is threaded through as a value.
 */
module Lowering {
  import opened Prelude
  import opened Structured
  import opened BasicBlocks

  /** `vars` maps names to slots, `breaks` is the stack of loop exits, `cur` the insertion block. */
  datatype Builder = Builder(
    blocks: Program, cur: nat, nextTemp: nat, nextSlot: nat, vars: map<string, nat>, breaks: seq<nat>)

  const RETURN_SLOT := 0
  const EMPTY_BLOCK := BasicBlock([], None)

  predicate Wf(b: Builder) {
    b.cur < |b.blocks|
  }

  predicate Terminated(b: Builder)
    requires Wf(b)
  {
    b.blocks[b.cur].term.Some?
  }

  // ----- builder primitives ---------------------------------------------------------------

  function Append(b: Builder, i: Instr): Builder
    requires Wf(b)
  {
    b.(blocks := b.blocks[b.cur := b.blocks[b.cur].(instrs := b.blocks[b.cur].instrs + [i])])
  }

  function Terminate(b: Builder, t: Terminator): Builder
    requires Wf(b)
  {
    b.(blocks := b.blocks[b.cur := b.blocks[b.cur].(term := Some(t))])
  }

  /** Close the block unless it is closed already. */
  function TerminateIfOpen(b: Builder, t: Terminator): Builder
    requires Wf(b)
  {
    if Terminated(b) then b else Terminate(b, t)
  }

  function AppendBlocks(b: Builder, n: nat): Builder {
    b.(blocks := b.blocks + seq(n, _ => EMPTY_BLOCK))
  }

  function At(b: Builder, block: nat): Builder {
    b.(cur := block)
  }

  function Compute_(b: Builder, op: Op, x: Operand, y: Operand): (Builder, Operand)
    requires Wf(b)
  {
    (Append(b, Compute(b.nextTemp, op, x, y)).(nextTemp := b.nextTemp + 1), Temp(b.nextTemp))
  }

  function Truth_(b: Builder, x: Operand): (Builder, Operand)
    requires Wf(b)
  {
    (Append(b, Truth(b.nextTemp, x)).(nextTemp := b.nextTemp + 1), Temp(b.nextTemp))
  }

  function Load_(b: Builder, slot: nat): (Builder, Operand)
    requires Wf(b)
  {
    (Append(b, Load(b.nextTemp, slot)).(nextTemp := b.nextTemp + 1), Temp(b.nextTemp))
  }

  function Phi_(b: Builder, incoming: seq<(Operand, nat)>): (Builder, Operand)
    requires Wf(b)
  {
    (Append(b, Phi(b.nextTemp, incoming)).(nextTemp := b.nextTemp + 1), Temp(b.nextTemp))
  }

  /** alloca_at_entry plus the entry in `vars`. */
  function Declare(b: Builder, x: string): Builder {
    b.(vars := b.vars[x := b.nextSlot], nextSlot := b.nextSlot + 1)
  }

  function SlotOf(b: Builder, x: string): nat {
    if x in b.vars then b.vars[x] else RETURN_SLOT
  }

  // ----- expressions ----------------------------------------------------------------------

  function EmitExpr(e: Expr, b: Builder): (r: (Builder, Operand))
    requires Wf(b)
    ensures Wf(r.0) && |b.blocks| <= |r.0.blocks|
    decreases e, 1
  {
    match e
    case Lit(v) => (b, Const(v))
    case Var(x) => Load_(b, SlotOf(b, x))
    case Bin(op, l, r) =>
      var (b1, x) := EmitExpr(l, b);
      var (b2, y) := EmitExpr(r, b1);
      EmitBinary(b2, op, x, y)
    case If(valued, cond, thn, els) =>
      var (b1, c) := EmitCondition(cond, b);
      var n := |b1.blocks|;
      var (b2, x) := EmitBlockValue(thn, At(Terminate(AppendBlocks(b1, 3), CBr(c, n, n + 1)), n));
      var (b3, y) := EmitBlockValue(els, At(TerminateIfOpen(b2, Br(n + 2)), n + 1));
      var b4 := At(TerminateIfOpen(b3, Br(n + 2)), n + 2);
      EmitJoin(b4, valued, (if Terminated(b2) then [] else [(x, b2.cur)]) + (if Terminated(b3) then []
          else [(y, b3.cur)]))
    case Match(valued, scrutinee, arms) =>
      var (b1, s) := EmitExpr(scrutinee, b);
      var end := |b1.blocks|;
      var (b2, incoming) := EmitArms(arms, s, end, AppendBlocks(b1, 1));
      EmitJoin(At(TerminateIfOpen(b2, Unreachable), end), valued, incoming)
    case Scope(body) =>
      var (b1, x) := EmitBlockValue(body, b);
      (b1.(vars := b.vars), x)
  }

  /** emit_expr followed by bool_value. */
  function EmitCondition(e: Expr, b: Builder): (r: (Builder, Operand))
    requires Wf(b)
    ensures Wf(r.0) && |b.blocks| <= |r.0.blocks|
    decreases e, 2
  {
    var (b1, x) := EmitExpr(e, b);
    Truth_(b1, x)
  }

  /** `&&` and `||` are strict: both operands have been computed already. */
  function EmitBinary(b: Builder, op: Op, x: Operand, y: Operand): (r: (Builder, Operand))
    requires Wf(b)
    ensures Wf(r.0) && |b.blocks| == |r.0.blocks|
  {
    if op.And? || op.Or? then
      var (b1, x') := Truth_(b, x);
      var (b2, y') := Truth_(b1, y);
      Compute_(b2, op, x', y')
    else Compute_(b, op, x, y)
  }

  /** The end of an if or a match: nothing flows in, or a unit value, or a phi. */
  function EmitJoin(b: Builder, valued: bool, incoming: seq<(Operand, nat)>): (r: (Builder, Operand))
    requires Wf(b)
    ensures Wf(r.0) && |b.blocks| == |r.0.blocks|
  {
    if incoming == [] then (Terminate(b, Unreachable), Const(UNIT))
    else if !valued then (b, Const(UNIT))
    else Phi_(b, incoming)
  }

  function EmitArms(arms: Arms, s: Operand, end: nat, b: Builder): (r: (Builder, seq<(Operand, nat)>))
    requires Wf(b)
    ensures Wf(r.0) && |b.blocks| <= |r.0.blocks|
    decreases arms, 1
  {
    match arms
    case NoArms => (b, [])
    case Arm(pattern, body, rest) =>
      var n := |b.blocks|;
      var b1 := EmitPattern(AppendBlocks(b, 2), pattern, s, n);
      var (b2, x) := EmitExpr(body, At(b1, n));
      var (b3, incoming) := EmitArms(rest, s, end, At(TerminateIfOpen(b2, Br(end)), n + 1));
      (b3, (if Terminated(b2) then [] else [(x, b2.cur)]) + incoming)
  }

  /** match_condition and the branch into the arm, or the plain branch of an else arm. */
  function EmitPattern(b: Builder, pattern: Option<Value>, s: Operand, arm: nat): (r: Builder)
    requires Wf(b)
    ensures Wf(r) && |b.blocks| == |r.blocks|
  {
    match pattern
    case None => Terminate(b, Br(arm))
    case Some(p) =>
      var (b1, c) := Compute_(b, Eq, s, Const(p));
      Terminate(b1, CBr(c, arm, arm + 1))
  }

  // ----- blocks and statements --------------------------------------------------------------

  /** emit_block_value: the last statement's value if it is an expression, else the unit constant. */
  function EmitBlockValue(block: Block, b: Builder): (r: (Builder, Operand))
    requires Wf(b)
    ensures Wf(r.0) && |b.blocks| <= |r.0.blocks|
    decreases block, 1
  {
    match block
    case End => (b, Const(UNIT))
    case Then(s, rest) =>
      if rest.End? then
        if s.Do? then EmitExpr(s.e, b) else (EmitStmt(s, b), Const(UNIT))
      else EmitBlockValue(rest, EmitStmt(s, b))
  }

  /** emit_block: stops at the first statement after a terminator. */
  function EmitBlock(block: Block, b: Builder): (r: Builder)
    requires Wf(b)
    ensures Wf(r) && |b.blocks| <= |r.blocks|
    decreases block, 1
  {
    match block
    case End => b
    case Then(s, rest) => if Terminated(b) then b else EmitBlock(rest, EmitStmt(s, b))
  }

  function EmitStmt(s: Stmt, b: Builder): (r: Builder)
    requires Wf(b)
    ensures Wf(r) && |b.blocks| <= |r.blocks|
    decreases s, 1
  {
    match s
    case Let(x, e) =>
      var (b1, v) := EmitExpr(e, Declare(b, x));
      Append(b1, StoreTo(b.nextSlot, v))
    case Assign(x, e) =>
      var (b1, v) := EmitExpr(e, b);
      Append(b1, StoreTo(SlotOf(b, x), v))
    case AssignOp(x, op, e) =>
      var (b1, v) := EmitExpr(e, b);
      var (b2, old_) := Load_(b1, SlotOf(b, x));
      var (b3, w) := EmitBinary(b2, op, old_, v);
      Append(b3, StoreTo(SlotOf(b, x), w))
    case Do(e) => EmitExpr(e, b).0
    case For(cond, body) =>
      var n := |b.blocks|;
      var b1 := At(Terminate(AppendBlocks(b, 3), Br(n)), n);
      var (b2, c) := EmitCondition(cond, b1);
      var b3 := At(Terminate(b2, CBr(c, n + 1, n + 2)), n + 1);
      var b4 := EmitBlock(body, b3.(breaks := b.breaks + [n + 2]));
      At(TerminateIfOpen(b4, Br(n)), n + 2).(breaks := b.breaks)
    case ForRange(i, lo, hi, body) =>
      var slot := b.nextSlot;
      var (b1, x) := EmitExpr(lo, Declare(b, i));
      var (b2, y) := EmitExpr(hi, b1);
      EmitCount(slot, y, body, Append(b2, StoreTo(slot, x)))
    case Break => if b.breaks == [] then b else Terminate(b, Br(b.breaks[|b.breaks| - 1]))
    case Ret(None) => Terminate(b, RetVoid)
    case Ret(Some(e)) =>
      var (b1, v) := EmitExpr(e, b);
      EmitReturn(b1, v)
  }

  /** The loop of a range for, once index and bound are in place. */
  function EmitCount(slot: nat, bound: Operand, body: Block, b: Builder): (r: Builder)
    requires Wf(b)
    ensures Wf(r) && |b.blocks| <= |r.blocks|
    decreases body, 2
  {
    var n := |b.blocks|;
    var b1 := At(Terminate(AppendBlocks(b, 3), Br(n)), n);
    var (b2, current) := Load_(b1, slot);
    var (b3, c) := Compute_(b2, Lt, current, bound);
    var b4 := At(Terminate(b3, CBr(c, n + 1, n + 2)), n + 1);
    var b5 := EmitBlock(body, b4.(breaks := b.breaks + [n + 2]));
    At(EmitAdvance(b5, slot, n), n + 2).(breaks := b.breaks)
  }

  /** Reload the index, add one, store it and go round again. */
  function EmitAdvance(b: Builder, slot: nat, head: nat): (r: Builder)
    requires Wf(b)
    ensures Wf(r) && |b.blocks| == |r.blocks|
  {
    if Terminated(b) then b
    else
      var (b1, current) := Load_(b, slot);
      var (b2, next) := Compute_(b1, Add, current, Const(I32(1)));
      Terminate(Append(b2, StoreTo(slot, next)), Br(head))
  }

  /** The result goes through the return slot. */
  function EmitReturn(b: Builder, x: Operand): (r: Builder)
    requires Wf(b)
    ensures Wf(r) && |b.blocks| == |r.blocks|
  {
    var (b1, w) := Load_(Append(b, StoreTo(RETURN_SLOT, x)), RETURN_SLOT);
    Terminate(b1, RetValue(w))
  }

  // ----- whole functions ---------------------------------------------------------------------

  /** All of a body but its last expression, and that expression. */
  function Init(block: Block): Block
    requires EndsInValue(block)
  {
    if block.rest.End? then End else Then(block.first, Init(block.rest))
  }

  function TailOf(block: Block): Expr
    requires EndsInValue(block)
  {
    if block.rest.End? then block.first.e else TailOf(block.rest)
  }

  /** The blocks, the "missing ret" error, or a second terminator for a closed block, which the builder refuses. */
  datatype Emission = Code(p: Program) | MissingRet | ClosedBlock

  /** A function body with its parameters in slots 1, 2, ...; the last expression of a value function is returned. */
  function LowerFunction(params: seq<string>, body: Block, isVoid: bool): Emission {
    var b0 := Builder([EMPTY_BLOCK], 0, 0, 1 + |params|, ParamSlots(params), []);
    if !isVoid && EndsInValue(body) then
      var b1 := EmitBlock(Init(body), b0);
      if Terminated(b1) then Code(b1.blocks)
      else
        var (b2, x) := EmitExpr(TailOf(body), b1);
        if Terminated(b2) then ClosedBlock else Code(EmitReturn(b2, x).blocks)
    else
      var b1 := EmitBlock(body, b0);
      if Terminated(b1) then Code(b1.blocks)
      else if isVoid then Code(Terminate(b1, RetVoid).blocks)
      else MissingRet
  }

  function ParamSlots(params: seq<string>): map<string, nat> {
    if params == [] then map[] else ParamSlots(params[..|params| - 1])[params[|params| - 1] := |params|]
  }
}
