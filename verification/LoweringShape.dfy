/**
 What emission does to the function under construction: it only appends, it leaves every other
 open block alone, and it ends in a terminated block exactly when control cannot fall through.
 */
module LoweringShape {
  import opened Prelude
  import opened Structured
  import opened BasicBlocks
  import opened Lowering

  /** A block may still receive instructions and one terminator. */
  ghost predicate BlockGrows(x: BasicBlock, y: BasicBlock) {
    x.instrs <= y.instrs && (x.term.Some? ==> x == y)
  }

  ghost predicate Extends(p: Program, q: Program) {
    |p| <= |q| && forall id :: 0 <= id < |p| ==> BlockGrows(p[id], q[id])
  }

  lemma ExtendsTransitive(p: Program, q: Program, r: Program)
    requires Extends(p, q) && Extends(q, r)
    ensures Extends(p, r)
  {
    forall id | 0 <= id < |p|
      ensures BlockGrows(p[id], r[id])
    {
      assert BlockGrows(p[id], q[id]) && BlockGrows(q[id], r[id]);
    }
  }

  /** Blocks below `n`, except `open`, are untouched; the insertion point stays or is new. */
  ghost predicate Touches(b: Builder, b': Builder, open: nat, n: nat) {
    && n <= |b.blocks| <= |b'.blocks| && b'.cur < |b'.blocks|
    && b.nextTemp <= b'.nextTemp && b.nextSlot <= b'.nextSlot
    && (b'.cur == open || b'.cur >= n)
    && (forall id :: 0 <= id < n && id != open ==> b'.blocks[id] == b.blocks[id])
  }

  ghost predicate Grows(b: Builder, b': Builder) {
    Touches(b, b', b.cur, |b.blocks|) && Extends(b.blocks, b'.blocks)
  }

  /** Visible names own distinct slots, none of them the return slot. */
  ghost predicate VarsOk(b: Builder, vis: set<string>) {
    && (forall x :: x in vis ==> x in b.vars && 1 <= b.vars[x] < b.nextSlot)
    && (forall x, y :: x in vis && y in vis && b.vars[x] == b.vars[y] ==> x == y)
  }

  ghost predicate VarsKept(b: Builder, b': Builder, vis: set<string>) {
    forall x :: x in vis && x in b.vars ==> x in b'.vars && b'.vars[x] == b.vars[x]
  }

  ghost predicate OperandOk(x: Operand, n: nat) {
    x.Temp? ==> x.t < n
  }

  ghost predicate Open(b: Builder) {
    b.cur < |b.blocks| && b.blocks[b.cur].term.None?
  }

  /** Emission so far has kept everything a visible name needs. */
  ghost predicate Keeps(b: Builder, b': Builder, vis: set<string>) {
    && Wf(b') && |b.blocks| <= |b'.blocks| && b.nextTemp <= b'.nextTemp && b.nextSlot <= b'.nextSlot
    && Grows(b, b') && VarsOk(b', vis) && VarsKept(b, b', vis)
  }

  /** The contract of every emit function. */
  ghost predicate Emits(b: Builder, b': Builder, vis: set<string>, vis': set<string>, diverges: bool) {
    && Keeps(b, b', vis) && VarsOk(b', vis') && b'.breaks == b.breaks
    && (Open(b') <==> !diverges)
  }

  lemma GrowsThen(b: Builder, b1: Builder, b2: Builder)
    requires Grows(b, b1) && Grows(b1, b2)
    ensures Grows(b, b2)
  {
    ExtendsTransitive(b.blocks, b1.blocks, b2.blocks);
  }

  lemma KeepsThen(b: Builder, b1: Builder, b2: Builder, vis: set<string>)
    requires Keeps(b, b1, vis) && Keeps(b1, b2, vis)
    ensures Keeps(b, b2, vis)
  {
    GrowsThen(b, b1, b2);
  }

  lemma EmitsThen(b: Builder, b1: Builder, b2: Builder, vis: set<string>, vis1: set<string>, vis2: set<string>, d: bool)
    requires Emits(b, b1, vis, vis1, false) && Emits(b1, b2, vis1, vis2, d) && vis <= vis1
    ensures Emits(b, b2, vis, vis2, d)
  {
    GrowsThen(b, b1, b2);
  }

  /** Later in the emission: temporaries are newer and names still mean the same slots. */
  ghost predicate Follows(b: Builder, b': Builder, own: set<string>) {
    b.nextTemp <= b'.nextTemp && VarsKept(b, b', own)
  }

  lemma FollowsThen(b: Builder, b1: Builder, b2: Builder, own: set<string>)
    requires Follows(b, b1, own) && Follows(b1, b2, own)
    ensures Follows(b, b2, own)
  {
  }

  lemma FollowsMoved(b: Builder, b1: Builder, b2: Builder, own: set<string>)
    requires Follows(b, b1, own) && b1.vars == b2.vars && b1.nextTemp == b2.nextTemp
    ensures Follows(b, b2, own)
  {
  }

  lemma KeepsNothing(b: Builder, vis: set<string>)
    requires Wf(b) && VarsOk(b, vis)
    ensures Keeps(b, b, vis)
  {
  }

  /** Going on in a block that is newer than `b`. */
  lemma MoveKeeps(b: Builder, b1: Builder, id: nat, vis: set<string>)
    requires Keeps(b, b1, vis) && |b.blocks| <= id < |b1.blocks|
    ensures Keeps(b, At(b1, id), vis)
  {
  }

  // ----- primitives -------------------------------------------------------------------------

  lemma AppendGrows(b: Builder, i: Instr, k: nat, vis: set<string>)
    requires Open(b) && VarsOk(b, vis)
    ensures Emits(b, Append(b, i).(nextTemp := b.nextTemp + k), vis, vis, false)
  {
  }

  lemma TerminateGrows(b: Builder, t: Terminator, vis: set<string>)
    requires Open(b) && VarsOk(b, vis)
    ensures Emits(b, Terminate(b, t), vis, vis, true)
  {
  }

  lemma DeclareGrows(b: Builder, x: string, vis: set<string>)
    requires Open(b) && VarsOk(b, vis) && x !in vis && b.nextSlot >= 1
    ensures Emits(b, Declare(b, x), vis, vis + {x}, false)
  {
    assert Extends(b.blocks, b.blocks);
  }

  lemma BinaryGrows(b: Builder, op: Op, x: Operand, y: Operand, vis: set<string>)
    requires Open(b) && VarsOk(b, vis)
    ensures Emits(b, EmitBinary(b, op, x, y).0, vis, vis, false)
    ensures OperandOk(EmitBinary(b, op, x, y).1, EmitBinary(b, op, x, y).0.nextTemp)
  {
    hide VarsOk, Extends;
    if op.And? || op.Or? {
      var (b1, x') := Truth_(b, x);
      AppendGrows(b, Truth(b.nextTemp, x), 1, vis);
      var (b2, y') := Truth_(b1, y);
      AppendGrows(b1, Truth(b1.nextTemp, y), 1, vis);
      EmitsThen(b, b1, b2, vis, vis, vis, false);
      AppendGrows(b2, Compute(b2.nextTemp, op, x', y'), 1, vis);
      EmitsThen(b, b2, EmitBinary(b, op, x, y).0, vis, vis, vis, false);
    } else {
      AppendGrows(b, Compute(b.nextTemp, op, x, y), 1, vis);
    }
  }

  lemma AppendBlocksGrows(b: Builder, k: nat, vis: set<string>)
    requires Open(b) && VarsOk(b, vis)
    ensures Emits(b, AppendBlocks(b, k), vis, vis, false)
    ensures forall id :: |b.blocks| <= id < |b.blocks| + k ==> AppendBlocks(b, k).blocks[id] == EMPTY_BLOCK
  {
  }

  lemma CloseGrows(b: Builder, t: Terminator, vis: set<string>)
    requires Wf(b) && VarsOk(b, vis)
    ensures Keeps(b, TerminateIfOpen(b, t), vis) && TerminateIfOpen(b, t).breaks == b.breaks
    ensures TerminateIfOpen(b, t).cur == b.cur && |TerminateIfOpen(b, t).blocks| == |b.blocks|
  {
  }

  /** A block that is neither new nor the insertion block stays as it is. */
  lemma Untouched(b: Builder, b': Builder, id: nat, vis: set<string>)
    requires Keeps(b, b', vis) && id < |b.blocks| && id != b.cur
    ensures id < |b'.blocks| && b'.blocks[id] == b.blocks[id] && b'.cur != id
  {
  }

  lemma CloseUntouched(b: Builder, t: Terminator, id: nat)
    requires Wf(b) && id < |b.blocks| && id != b.cur
    ensures TerminateIfOpen(b, t).blocks[id] == b.blocks[id]
  {
  }

  lemma JoinGrows(b: Builder, valued: bool, incoming: seq<(Operand, nat)>, vis: set<string>)
    requires Open(b) && VarsOk(b, vis)
    ensures Emits(b, EmitJoin(b, valued, incoming).0, vis, vis, incoming == [])
    ensures OperandOk(EmitJoin(b, valued, incoming).1, EmitJoin(b, valued, incoming).0.nextTemp)
  {
    if incoming == [] {
      TerminateGrows(b, Unreachable, vis);
    } else if valued {
      AppendGrows(b, Phi(b.nextTemp, incoming), 1, vis);
    }
  }

  /** Branch from the open block into the first of `k` new ones. */
  function Enter(b: Builder, k: nat, t: Terminator): Builder
    requires Wf(b)
  {
    At(Terminate(AppendBlocks(b, k), t), |b.blocks|)
  }

  lemma EnterKeeps(b: Builder, k: nat, t: Terminator, vis: set<string>)
    requires Open(b) && VarsOk(b, vis) && k > 0
    ensures Keeps(b, Enter(b, k, t), vis) && Enter(b, k, t).breaks == b.breaks
    ensures |Enter(b, k, t).blocks| == |b.blocks| + k
    ensures Open(Enter(b, k, t))
    ensures forall id :: |b.blocks| <= id < |b.blocks| + k ==> Enter(b, k, t).blocks[id] == EMPTY_BLOCK
    ensures Enter(b, k, t).blocks[b.cur] == b.blocks[b.cur].(term := Some(t))
  {
  }

  // ----- the emit functions ------------------------------------------------------------------

  lemma {:induction false} ExprShape(e: Expr, b: Builder, vis: set<string>, own: set<string>, inLoop: bool)
    requires Open(b) && VarsOk(b, own) && b.nextSlot >= 1 && Ok(e, vis, own, inLoop) && (inLoop ==> b.breaks != [])
    ensures Emits(b, EmitExpr(e, b).0, own, own, Diverges(e))
    ensures OperandOk(EmitExpr(e, b).1, EmitExpr(e, b).0.nextTemp)
    decreases e, 2
  {
    hide VarsOk, Grows, VarsKept;
    match e
    case Lit(v) => KeepsNothing(b, own);
    case Var(x) => AppendGrows(b, Load(b.nextTemp, SlotOf(b, x)), 1, own);
    case Bin(op, l, r) =>
      var (b1, x) := EmitExpr(l, b);
      ExprShape(l, b, vis, own, inLoop);
      var (b2, y) := EmitExpr(r, b1);
      ExprShape(r, b1, vis, own, inLoop);
      EmitsThen(b, b1, b2, own, own, own, false);
      BinaryGrows(b2, op, x, y, own);
      EmitsThen(b, b2, EmitBinary(b2, op, x, y).0, own, own, own, false);
    case If(valued, cond, thn, els) => IfShape(e, b, vis, own, inLoop);
    case Match(valued, scrutinee, arms) => MatchShape(e, b, vis, own, inLoop);
    case Scope(body) =>
      BlockValueShape(body, b, vis, own, inLoop);
      RestoreVars(b, EmitBlockValue(body, b).0, own, BlockDiverges(body));
  }

  lemma RestoreVars(b: Builder, b1: Builder, own: set<string>, d: bool)
    requires VarsOk(b, own) && Emits(b, b1, own, own, d)
    ensures Emits(b, b1.(vars := b.vars), own, own, d)
  {
  }

  lemma {:induction false} ConditionShape(e: Expr, b: Builder, vis: set<string>, own: set<string>, inLoop: bool)
    requires Open(b) && VarsOk(b, own) && b.nextSlot >= 1 && Ok(e, vis, own, inLoop) && (inLoop ==> b.breaks != [])
    requires !Diverges(e)
    ensures Emits(b, EmitCondition(e, b).0, own, own, false)
    ensures OperandOk(EmitCondition(e, b).1, EmitCondition(e, b).0.nextTemp)
    decreases e, 3
  {
    hide VarsOk, Grows, VarsKept;
    var (b1, x) := EmitExpr(e, b);
    ExprShape(e, b, vis, own, inLoop);
    AppendGrows(b1, Truth(b1.nextTemp, x), 1, own);
    EmitsThen(b, b1, EmitCondition(e, b).0, own, own, own, false);
  }

  /** The values that flow into the end of an if. */
  function IfIncoming(b2: Builder, x: Operand, b3: Builder, y: Operand): seq<(Operand, nat)>
    requires Wf(b2) && Wf(b3)
  {
    (if Terminated(b2) then [] else [(x, b2.cur)]) + (if Terminated(b3) then [] else [(y, b3.cur)])
  }

  /** The stages an if goes through: condition, first branch, second branch, join. */
  datatype IfTrail = IfTrail(b1: Builder, c: Operand, s1: Builder, b2: Builder, x: Operand, s2: Builder,
                             b3: Builder, y: Operand, s3: Builder, n: nat)

  ghost predicate IfTrailOk(e: Expr, b: Builder, own: set<string>, t: IfTrail)
    requires e.If?
  {
    && Wf(b) && (t.b1, t.c) == EmitCondition(e.cond, b) && t.n == |t.b1.blocks|
    && Emits(b, t.b1, own, own, false) && OperandOk(t.c, t.b1.nextTemp)
    && t.s1 == Enter(t.b1, 3, CBr(t.c, t.n, t.n + 1)) && Keeps(t.b1, t.s1, own)
    && t.s1.cur == t.n < |t.s1.blocks| && t.s1.blocks[t.n] == EMPTY_BLOCK
    && (t.b2, t.x) == EmitBlockValue(e.thn, t.s1) && Emits(t.s1, t.b2, own, own, BlockDiverges(e.thn))
    && t.s2 == TerminateIfOpen(t.b2, Br(t.n + 2)) && Keeps(t.b2, t.s2, own)
    && t.n + 1 < |t.s2.blocks| && t.s2.blocks[t.n + 1] == EMPTY_BLOCK
    && (t.b3, t.y) == EmitBlockValue(e.els, At(t.s2, t.n + 1)) &&
        Emits(At(t.s2, t.n + 1), t.b3, own, own, BlockDiverges(e.els))
    && t.s3 == TerminateIfOpen(t.b3, Br(t.n + 2)) && Keeps(t.b3, t.s3, own)
    && t.n + 2 < |t.s3.blocks| && t.s3.blocks[t.n + 2] == EMPTY_BLOCK
    && Keeps(b, At(t.s3, t.n + 2), own) && Keeps(b, At(t.s2, t.n + 1), own) && Follows(t.b1, At(t.s2, t.n + 1), own)
    && Follows(t.b2, At(t.s3, t.n + 2), own) && Follows(At(t.s2, t.n + 1), At(t.s3, t.n + 2), own)
    && t.s1.breaks == t.s2.breaks == t.s3.breaks == b.breaks
    && t.b2.cur != t.b3.cur && EmitExpr(e, b) == EmitJoin(At(t.s3, t.n + 2), e.valued, IfIncoming(t.b2, t.x, t.b3, t.y))
  }

  lemma {:induction false} IfStages(e: Expr, b: Builder, vis: set<string>, own: set<string>, inLoop: bool)
    returns (t: IfTrail)
    requires e.If?
    requires Open(b) && VarsOk(b, own) && b.nextSlot >= 1 && Ok(e, vis, own, inLoop) && (inLoop ==> b.breaks != [])
    ensures IfTrailOk(e, b, own, t)
    decreases e, 0
  {
    hide EmitBlockValue, EmitCondition, EmitJoin, BlockDiverges, BlockOk, VarsOk, VarsKept, Grows, EmitExpr;
    var (b1, c) := EmitCondition(e.cond, b);
    var n := |b1.blocks|;
    ConditionShape(e.cond, b, vis, own, inLoop);
    var s1 := Enter(b1, 3, CBr(c, n, n + 1));
    EnterKeeps(b1, 3, CBr(c, n, n + 1), own);
    KeepsThen(b, b1, s1, own);
    BranchShape(e.thn, b, s1, n, n + 2, vis, own, inLoop);
    assert At(s1, n) == s1;
    var (b2, x) := EmitBlockValue(e.thn, s1);
    var s2 := TerminateIfOpen(b2, Br(n + 2));
    BranchShape(e.els, b, s2, n + 1, n + 2, vis, own, inLoop);
    MoveKeeps(b, s2, n + 1, own);
    var (b3, y) := EmitBlockValue(e.els, At(s2, n + 1));
    NewCur(At(s2, n + 1), b3, own);
    var s3 := TerminateIfOpen(b3, Br(n + 2));
    MoveKeeps(b, s3, n + 2, own);
    IfFollows(b1, s1, b2, s2, b3, s3, n, own);
    t := IfTrail(b1, c, s1, b2, x, s2, b3, y, s3, n);
    hide TerminateIfOpen, Enter, Follows;
    assert EmitExpr(e, b) == EmitJoin(At(s3, n + 2), e.valued, IfIncoming(b2, x, b3, y)) by {
      IfEmitted(e, b, t);
    }
  }

  lemma IfFollows(b1: Builder, s1: Builder, b2: Builder, s2: Builder, b3: Builder, s3: Builder, n: nat,
                  own: set<string>)
    requires Follows(b1, s1, own) && Follows(s1, b2, own) && Follows(b2, s2, own)
    requires Follows(At(s2, n + 1), b3, own) && Follows(b3, s3, own)
    ensures Follows(b1, At(s2, n + 1), own) && Follows(b2, At(s3, n + 2), own) &&
        Follows(At(s2, n + 1), At(s3, n + 2), own)
  {
    FollowsThen(b1, s1, b2, own);
    FollowsThen(b1, b2, s2, own);
    FollowsMoved(b1, s2, At(s2, n + 1), own);
    FollowsThen(At(s2, n + 1), b3, s3, own);
    FollowsMoved(At(s2, n + 1), s3, At(s3, n + 2), own);
    FollowsMoved(b2, s2, At(s2, n + 1), own);
    FollowsThen(b2, At(s2, n + 1), At(s3, n + 2), own);
  }

  lemma IfUnfolded(e: Expr, b: Builder)
    requires e.If? && Wf(b)
    ensures var (b1, c) := EmitCondition(e.cond, b);
            var n := |b1.blocks|;
            var (b2, x) := EmitBlockValue(e.thn, At(Terminate(AppendBlocks(b1, 3), CBr(c, n, n + 1)), n));
            var (b3, y) := EmitBlockValue(e.els, At(TerminateIfOpen(b2, Br(n + 2)), n + 1));
            EmitExpr(e, b) == EmitJoin(At(TerminateIfOpen(b3, Br(n + 2)), n + 2), e.valued, IfIncoming(b2, x, b3, y))
  {
    hide EmitCondition, EmitBlockValue, EmitJoin, TerminateIfOpen, Terminate, AppendBlocks;
  }

  lemma IfEmitted(e: Expr, b: Builder, t: IfTrail)
    requires e.If? && Wf(b) && (t.b1, t.c) == EmitCondition(e.cond, b) && t.n == |t.b1.blocks|
    requires t.s1 == Enter(t.b1, 3, CBr(t.c, t.n, t.n + 1)) && Wf(t.s1) && t.s1.cur == t.n
    requires (t.b2, t.x) == EmitBlockValue(e.thn, t.s1) && t.s2 == TerminateIfOpen(t.b2, Br(t.n + 2)) &&
        t.n + 1 < |t.s2.blocks|
    requires (t.b3, t.y) == EmitBlockValue(e.els, At(t.s2, t.n + 1)) && t.s3 == TerminateIfOpen(t.b3, Br(t.n + 2))
    requires t.n + 2 < |t.s3.blocks|
    ensures EmitExpr(e, b) == EmitJoin(At(t.s3, t.n + 2), e.valued, IfIncoming(t.b2, t.x, t.b3, t.y))
  {
    hide EmitExpr, EmitCondition, EmitBlockValue, EmitJoin, TerminateIfOpen, Terminate;
    IfUnfolded(e, b);
    assert t.s1 == At(Terminate(AppendBlocks(t.b1, 3), CBr(t.c, t.n, t.n + 1)), t.n);
  }

  lemma NewCur(b: Builder, b': Builder, own: set<string>)
    requires Keeps(b, b', own)
    ensures b'.cur == b.cur || b'.cur >= |b.blocks|
  {
  }

  lemma {:induction false} IfShape(e: Expr, b: Builder, vis: set<string>, own: set<string>, inLoop: bool)
    requires e.If?
    requires Open(b) && VarsOk(b, own) && b.nextSlot >= 1 && Ok(e, vis, own, inLoop) && (inLoop ==> b.breaks != [])
    ensures Emits(b, EmitExpr(e, b).0, own, own, Diverges(e))
    ensures OperandOk(EmitExpr(e, b).1, EmitExpr(e, b).0.nextTemp)
    decreases e, 1
  {
    hide EmitBlockValue, EmitCondition, EmitJoin, EmitExpr, BlockDiverges, BlockOk, VarsOk, VarsKept, Grows;
    var t := IfStages(e, b, vis, own, inLoop);
    var j := At(t.s3, t.n + 2);
    JoinGrows(j, e.valued, IfIncoming(t.b2, t.x, t.b3, t.y), own);
    KeepsThen(b, j, EmitExpr(e, b).0, own);
    IfDiverges(e);
  }

  lemma IfDiverges(e: Expr)
    requires e.If?
    ensures Diverges(e) <==> BlockDiverges(e.thn) && BlockDiverges(e.els)
  {
  }

  /** One branch: emitted into the empty block `at`, closed with a jump to `end`. */
  lemma {:induction false} BranchShape(
    block: Block, b: Builder, s: Builder, at: nat, end: nat, vis: set<string>, own: set<string>, inLoop: bool)
    requires Keeps(b, s, own) && s.breaks == b.breaks && |b.blocks| <= at < |s.blocks| && s.blocks[at] == EMPTY_BLOCK
    requires b.nextSlot >= 1 && BlockOk(block, vis, own, inLoop) && (inLoop ==> b.breaks != [])
    ensures var (b2, x) := EmitBlockValue(block, At(s, at)); var s2 := TerminateIfOpen(b2, Br(end));
            && Emits(At(s, at), b2, own, own, BlockDiverges(block)) && OperandOk(x, b2.nextTemp)
            && Keeps(b2, s2, own) && Keeps(b, s2, own) && s2.breaks == b.breaks
            && forall id :: |b.blocks| <= id < |s.blocks| && id != at && s.blocks[id] == EMPTY_BLOCK ==>
                              s2.blocks[id] == EMPTY_BLOCK && b2.cur != id
    decreases block, 2
  {
    hide EmitBlockValue, BlockDiverges, BlockOk, VarsOk, VarsKept, Grows;
    MoveKeeps(b, s, at, own);
    var (b2, x) := EmitBlockValue(block, At(s, at));
    BlockValueShape(block, At(s, at), vis, own, inLoop);
    KeepsThen(b, At(s, at), b2, own);
    CloseGrows(b2, Br(end), own);
    KeepsThen(b, b2, TerminateIfOpen(b2, Br(end)), own);
    forall id | |b.blocks| <= id < |s.blocks| && id != at && s.blocks[id] == EMPTY_BLOCK
      ensures TerminateIfOpen(b2, Br(end)).blocks[id] == EMPTY_BLOCK && b2.cur != id
    {
      Untouched(At(s, at), b2, id, own);
      CloseUntouched(b2, Br(end), id);
    }
  }

  /** The stages of a match: scrutinee, arms, join in block `end`. */
  datatype MatchTrail = MatchTrail(b1: Builder, s: Operand, end: nat, b1': Builder, b2: Builder,
                                   incoming: seq<(Operand, nat)>, j: Builder)

  ghost predicate MatchTrailOk(e: Expr, b: Builder, own: set<string>, t: MatchTrail)
    requires e.Match?
  {
    && Wf(b) && (t.b1, t.s) == EmitExpr(e.scrutinee, b) && Emits(b, t.b1, own, own, false) &&
        OperandOk(t.s, t.b1.nextTemp)
    && t.end == |t.b1.blocks| && t.b1' == AppendBlocks(t.b1, 1) && Keeps(t.b1, t.b1', own) && Open(t.b1')
    && (t.b2, t.incoming) == EmitArms(e.arms, t.s, t.end, t.b1') && Keeps(t.b1', t.b2, own)
    && Keeps(t.b2, TerminateIfOpen(t.b2, Unreachable), own) && t.j == At(TerminateIfOpen(t.b2, Unreachable), t.end)
    && t.end < |t.j.blocks| && t.j.blocks[t.end] == EMPTY_BLOCK && Keeps(b, t.j, own) && t.j.breaks == b.breaks
    && Follows(t.b1', t.j, own) && (t.incoming == [] <==> ArmsDiverge(e.arms))
    && EmitExpr(e, b) == EmitJoin(t.j, e.valued, t.incoming)
  }

  lemma {:induction false} MatchStages(e: Expr, b: Builder, vis: set<string>, own: set<string>, inLoop: bool)
    returns (t: MatchTrail)
    requires e.Match?
    requires Open(b) && VarsOk(b, own) && b.nextSlot >= 1 && Ok(e, vis, own, inLoop) && (inLoop ==> b.breaks != [])
    ensures MatchTrailOk(e, b, own, t)
    decreases e, 0
  {
    hide EmitArms, EmitJoin, ArmsDiverge, ArmsOk, VarsOk, Grows, VarsKept;
    var (b1, s) := EmitExpr(e.scrutinee, b);
    var end := |b1.blocks|;
    ExprShape(e.scrutinee, b, vis, own, inLoop);
    var b1' := AppendBlocks(b1, 1);
    AppendBlocksGrows(b1, 1, own);
    KeepsThen(b, b1, b1', own);
    var (b2, incoming) := EmitArms(e.arms, s, end, b1');
    ArmsShape(e.arms, s, end, b1', vis, own, inLoop);
    KeepsThen(b, b1', b2, own);
    Untouched(b1', b2, end, own);
    var b3 := TerminateIfOpen(b2, Unreachable);
    CloseGrows(b2, Unreachable, own);
    CloseUntouched(b2, Unreachable, end);
    KeepsThen(b, b2, b3, own);
    MoveKeeps(b, b3, end, own);
    FollowsThen(b1', b2, b3, own);
    FollowsMoved(b1', b3, At(b3, end), own);
    t := MatchTrail(b1, s, end, b1', b2, incoming, At(b3, end));
  }

  lemma {:induction false} MatchShape(e: Expr, b: Builder, vis: set<string>, own: set<string>, inLoop: bool)
    requires e.Match?
    requires Open(b) && VarsOk(b, own) && b.nextSlot >= 1 && Ok(e, vis, own, inLoop) && (inLoop ==> b.breaks != [])
    ensures Emits(b, EmitExpr(e, b).0, own, own, Diverges(e))
    ensures OperandOk(EmitExpr(e, b).1, EmitExpr(e, b).0.nextTemp)
    decreases e, 1
  {
    hide EmitExpr, EmitArms, EmitJoin, ArmsDiverge, ArmsOk, VarsOk, Grows, VarsKept;
    var t := MatchStages(e, b, vis, own, inLoop);
    JoinGrows(t.j, e.valued, t.incoming, own);
    KeepsThen(b, t.j, EmitExpr(e, b).0, own);
  }

  /** One arm of a match: the test, the body in block n, the next test in block n + 1. */
  datatype ArmTrail = ArmTrail(n: nat, b0: Builder, b1: Builder, b2: Builder, x: Operand, s2: Builder, next: Builder)

  ghost predicate ArmTrailOk(arms: Arms, s: Operand, end: nat, b: Builder, own: set<string>, t: ArmTrail)
    requires arms.Arm?
  {
    && t.n == |b.blocks| && t.b0 == AppendBlocks(b, 2) && Wf(b) && Open(t.b0) && VarsOk(t.b0, own) &&
        Keeps(b, t.b0, own)
    && t.b1 == EmitPattern(t.b0, arms.pattern, s, t.n) && Keeps(t.b0, t.b1, own)
    && t.n + 1 < |t.b1.blocks| && t.b1.blocks[t.n] == EMPTY_BLOCK && t.b1.blocks[t.n + 1] == EMPTY_BLOCK
    && t.b1.breaks == b.breaks && Open(At(t.b1, t.n))
    && (t.b2, t.x) == EmitExpr(arms.body, At(t.b1, t.n)) && Emits(At(t.b1, t.n), t.b2, own, own, Diverges(arms.body))
    && t.s2 == TerminateIfOpen(t.b2, Br(end)) && Keeps(t.b2, t.s2, own) && t.s2.breaks == b.breaks
    && t.next == At(t.s2, t.n + 1) && t.n + 1 < |t.s2.blocks| && t.next.blocks[t.n + 1] == EMPTY_BLOCK
    && t.n <= t.b2.cur < |t.next.blocks| && t.b2.cur != t.n + 1
    && Keeps(b, t.next, own) && VarsKept(t.b1, t.next, own)
    && EmitArms(arms, s, end, b) == (
         EmitArms(arms.rest, s, end, t.next).0,
         (if Terminated(t.b2) then [] else [(t.x, t.b2.cur)]) + EmitArms(arms.rest, s, end, t.next).1)
  }

  lemma {:induction false} ArmStages(arms: Arms, s: Operand, end: nat, b: Builder, vis: set<string>, own: set<string>,
                                     inLoop: bool)
    returns (t: ArmTrail)
    requires arms.Arm?
    requires Open(b) && VarsOk(b, own) && b.nextSlot >= 1 && ArmsOk(arms, vis, own, inLoop) &&
        (inLoop ==> b.breaks != [])
    ensures ArmTrailOk(arms, s, end, b, own, t)
    decreases arms, 0
  {
    hide EmitExpr, EmitPattern, Diverges, Ok, VarsOk, VarsKept, Grows;
    var n := |b.blocks|;
    var b0 := AppendBlocks(b, 2);
    AppendBlocksGrows(b, 2, own);
    var b1 := EmitPattern(b0, arms.pattern, s, n);
    PatternGrows(b0, arms.pattern, s, n, own);
    KeepsThen(b, b0, b1, own);
    Untouched(b0, b1, n, own);
    Untouched(b0, b1, n + 1, own);
    ArmBodyShape(arms.body, end, b, b1, n, vis, own, inLoop);
    var (b2, x) := EmitExpr(arms.body, At(b1, n));
    var s2 := TerminateIfOpen(b2, Br(end));
    t := ArmTrail(n, b0, b1, b2, x, s2, At(s2, n + 1));
  }

  lemma {:induction false} ArmBodyShape(
    body: Expr, end: nat, b: Builder, b1: Builder, n: nat, vis: set<string>, own: set<string>, inLoop: bool)
    requires Keeps(b, b1, own) && n == |b.blocks| && n + 1 < |b1.blocks| && b1.breaks == b.breaks && b.nextSlot >= 1
    requires b1.blocks[n] == EMPTY_BLOCK && b1.blocks[n + 1] == EMPTY_BLOCK
    requires Ok(body, vis, own, inLoop) && (inLoop ==> b.breaks != [])
    ensures var (b2, x) := EmitExpr(body, At(b1, n)); var s2 := TerminateIfOpen(b2, Br(end));
            && Emits(At(b1, n), b2, own, own, Diverges(body)) && Keeps(b2, s2, own) && s2.breaks == b.breaks
            && n + 1 < |s2.blocks| && s2.blocks[n + 1] == EMPTY_BLOCK
            && n <= b2.cur < |s2.blocks| && b2.cur != n + 1
            && Keeps(b, At(s2, n + 1), own) && VarsKept(b1, At(s2, n + 1), own)
    decreases body, 3
  {
    hide EmitExpr, Diverges, Ok, VarsOk, VarsKept, Grows;
    MoveKeeps(b, b1, n, own);
    var (b2, x) := EmitExpr(body, At(b1, n));
    ExprShape(body, At(b1, n), vis, own, inLoop);
    KeepsThen(b, At(b1, n), b2, own);
    Untouched(At(b1, n), b2, n + 1, own);
    NewCur(At(b1, n), b2, own);
    var s2 := TerminateIfOpen(b2, Br(end));
    CloseGrows(b2, Br(end), own);
    CloseUntouched(b2, Br(end), n + 1);
    KeepsThen(b, b2, s2, own);
    KeepsThen(At(b1, n), b2, s2, own);
    MoveKeeps(b, s2, n + 1, own);
    KeptSame(b1, At(b1, n), s2, At(s2, n + 1), own);
  }

  /** VarsKept looks at names only. */
  lemma KeptSame(b: Builder, b1: Builder, b2: Builder, b3: Builder, own: set<string>)
    requires b.vars == b1.vars && b2.vars == b3.vars && VarsKept(b1, b2, own)
    ensures VarsKept(b, b3, own)
  {
  }

  lemma {:induction false} ArmsShape(arms: Arms, s: Operand, end: nat, b: Builder, vis: set<string>, own: set<string>,
                                     inLoop: bool)
    requires Open(b) && VarsOk(b, own) && b.nextSlot >= 1 && ArmsOk(arms, vis, own, inLoop) &&
        (inLoop ==> b.breaks != [])
    ensures Keeps(b, EmitArms(arms, s, end, b).0, own)
    ensures EmitArms(arms, s, end, b).0.breaks == b.breaks
    ensures EmitArms(arms, s, end, b).1 == [] <==> ArmsDiverge(arms)
    ensures Open(EmitArms(arms, s, end, b).0)
    decreases arms, 1
  {
    hide EmitExpr, EmitPattern, Diverges, Ok, VarsOk, VarsKept, Grows;
    match arms
    case NoArms => KeepsNothing(b, own);
    case Arm(pattern, body, rest) =>
      var t := ArmStages(arms, s, end, b, vis, own, inLoop);
      ArmsShape(rest, s, end, t.next, vis, own, inLoop);
      KeepsThen(b, t.next, EmitArms(rest, s, end, t.next).0, own);
  }

  lemma PatternGrows(b: Builder, pattern: Option<Value>, s: Operand, arm: nat, own: set<string>)
    requires Open(b) && VarsOk(b, own)
    ensures Keeps(b, EmitPattern(b, pattern, s, arm), own)
    ensures EmitPattern(b, pattern, s, arm).breaks == b.breaks && EmitPattern(b, pattern, s, arm).cur == b.cur
  {
    hide VarsOk, VarsKept, Grows;
    match pattern
    case None => TerminateGrows(b, Br(arm), own);
    case Some(p) =>
      var (b1, c) := Compute_(b, Eq, s, Const(p));
      AppendGrows(b, Compute(b.nextTemp, Eq, s, Const(p)), 1, own);
      TerminateGrows(b1, CBr(c, arm, arm + 1), own);
      KeepsThen(b, b1, EmitPattern(b, pattern, s, arm), own);
  }

  lemma {:induction false} BlockValueShape(block: Block, b: Builder, vis: set<string>, own: set<string>, inLoop: bool)
    requires Open(b) && VarsOk(b, own) && b.nextSlot >= 1 && BlockOk(block, vis, own, inLoop) &&
        (inLoop ==> b.breaks != [])
    ensures Emits(b, EmitBlockValue(block, b).0, own, own, BlockDiverges(block))
    ensures OperandOk(EmitBlockValue(block, b).1, EmitBlockValue(block, b).0.nextTemp)
    decreases block, 1
  {
    hide VarsOk, VarsKept, Grows;
    match block
    case End => KeepsNothing(b, own);
    case Then(s, rest) =>
      if rest.End? && s.Do? {
        ExprShape(s.e, b, vis, own, inLoop);
      } else {
        var b1 := EmitStmt(s, b);
        StmtShape(s, b, vis, own, inLoop);
        if rest.Then? {
          BlockValueShape(rest, b1, vis + Declares(s), own + Declares(s), inLoop);
          EmitsThen(b, b1, EmitBlockValue(rest, b1).0, own, own + Declares(s), own + Declares(s), BlockDiverges(rest));
        }
        NarrowVars(EmitBlockValue(block, b).0, own, own + Declares(s));
      }
  }

  lemma NarrowVars(b: Builder, own: set<string>, wide: set<string>)
    requires VarsOk(b, wide) && own <= wide
    ensures VarsOk(b, own)
  {
  }

  /** A well-scoped block never reaches emit_block's early stop, so both block emitters agree. */
  lemma {:induction false} BlockEmittersAgree(block: Block, b: Builder, vis: set<string>, own: set<string>,
                                              inLoop: bool)
    requires Open(b) && VarsOk(b, own) && b.nextSlot >= 1 && BlockOk(block, vis, own, inLoop) &&
        (inLoop ==> b.breaks != [])
    ensures EmitBlock(block, b) == EmitBlockValue(block, b).0
    decreases block, 1
  {
    if block.Then? && block.rest.Then? {
      StmtShape(block.first, b, vis, own, inLoop);
      BlockEmittersAgree(block.rest, EmitStmt(block.first, b), vis + Declares(block.first), own + Declares(block.first),
          inLoop);
    }
  }

  lemma {:induction false} StmtShape(s: Stmt, b: Builder, vis: set<string>, own: set<string>, inLoop: bool)
    requires Open(b) && VarsOk(b, own) && b.nextSlot >= 1 && StmtOk(s, vis, own, inLoop) && (inLoop ==> b.breaks != [])
    ensures Emits(b, EmitStmt(s, b), own, own + Declares(s), StmtDiverges(s))
    decreases s, 2
  {
    hide EmitExpr, EmitBinary, Diverges, VarsOk, VarsKept, Grows;
    assert own + {} == own;
    match s
    case Let(x, e) =>
      LetShape(x, e, b, vis, own, inLoop);
    case Assign(x, e) =>
      ExprShape(e, b, vis, own, inLoop);
      var (b1, v) := EmitExpr(e, b);
      AppendGrows(b1, StoreTo(SlotOf(b, x), v), 0, own);
      EmitsThen(b, b1, EmitStmt(s, b), own, own, own, false);
    case AssignOp(x, op, e) => AssignOpShape(x, op, e, b, vis, own, inLoop);
    case Do(e) => ExprShape(e, b, vis, own, inLoop);
    case For(cond, body) => ForShape(cond, body, b, vis, own, inLoop);
    case ForRange(i, lo, hi, body) => ForRangeShape(i, lo, hi, body, b, vis, own, inLoop);
    case Break => TerminateGrows(b, Br(b.breaks[|b.breaks| - 1]), own);
    case Ret(None) => TerminateGrows(b, RetVoid, own);
    case Ret(Some(e)) => RetShape(e, b, vis, own, inLoop);
  }

  lemma {:induction false} AssignOpShape(x: string, op: Op, e: Expr, b: Builder, vis: set<string>, own: set<string>,
                                         inLoop: bool)
    requires Open(b) && VarsOk(b, own) && b.nextSlot >= 1 && StmtOk(AssignOp(x, op, e), vis, own, inLoop) &&
        (inLoop ==> b.breaks != [])
    ensures Emits(b, EmitStmt(AssignOp(x, op, e), b), own, own, false)
    decreases AssignOp(x, op, e), 0
  {
    hide EmitExpr, EmitBinary, Diverges, VarsOk, VarsKept, Grows;
    var s := AssignOp(x, op, e);
    ExprShape(e, b, vis, own, inLoop);
    var (b1, v) := EmitExpr(e, b);
    var (b2, o) := Load_(b1, SlotOf(b, x));
    AppendGrows(b1, Load(b1.nextTemp, SlotOf(b, x)), 1, own);
    EmitsThen(b, b1, b2, own, own, own, false);
    var (b3, w) := EmitBinary(b2, op, o, v);
    BinaryGrows(b2, op, o, v, own);
    EmitsThen(b, b2, b3, own, own, own, false);
    AppendGrows(b3, StoreTo(SlotOf(b, x), w), 0, own);
    EmitsThen(b, b3, EmitStmt(s, b), own, own, own, false);
  }

  lemma {:induction false} RetShape(e: Expr, b: Builder, vis: set<string>, own: set<string>, inLoop: bool)
    requires Open(b) && VarsOk(b, own) && b.nextSlot >= 1 && StmtOk(Ret(Some(e)), vis, own, inLoop) &&
        (inLoop ==> b.breaks != [])
    ensures Emits(b, EmitStmt(Ret(Some(e)), b), own, own, true)
    decreases Ret(Some(e)), 0
  {
    hide EmitExpr, EmitBinary, Diverges, VarsOk, VarsKept, Grows;
    var s := Ret(Some(e));
    ExprShape(e, b, vis, own, inLoop);
    var (b1, v) := EmitExpr(e, b);
    var b2 := Append(b1, StoreTo(RETURN_SLOT, v));
    AppendGrows(b1, StoreTo(RETURN_SLOT, v), 0, own);
    EmitsThen(b, b1, b2, own, own, own, false);
    var (b3, w) := Load_(b2, RETURN_SLOT);
    AppendGrows(b2, Load(b2.nextTemp, RETURN_SLOT), 1, own);
    EmitsThen(b, b2, b3, own, own, own, false);
    TerminateGrows(b3, RetValue(w), own);
    EmitsThen(b, b3, EmitStmt(s, b), own, own, own, true);
  }

  lemma {:induction false} LetShape(x: string, e: Expr, b: Builder, vis: set<string>, own: set<string>, inLoop: bool)
    requires Open(b) && VarsOk(b, own) && b.nextSlot >= 1 && StmtOk(Let(x, e), vis, own, inLoop) &&
        (inLoop ==> b.breaks != [])
    ensures Emits(b, EmitStmt(Let(x, e), b), own, own + {x}, false)
    decreases Let(x, e), 0
  {
    hide EmitExpr, Diverges, VarsOk, VarsKept, Grows;
    var b0 := Declare(b, x);
    DeclareGrows(b, x, own);
    var (b1, v) := EmitExpr(e, b0);
    ExprShape(e, b0, vis, own + {x}, inLoop);
    EmitsThen(b, b0, b1, own, own + {x}, own + {x}, false);
    AppendGrows(b1, StoreTo(b.nextSlot, v), 0, own + {x});
    EmitsThen(b, b1, EmitStmt(Let(x, e), b), own, own + {x}, own + {x}, false);
  }

  /** The stages of a loop: head in block n, body in n + 1, exit n + 2. */
  datatype LoopTrail = LoopTrail(n: nat, b1: Builder, b2: Builder, c: Operand, s2: Builder, b3: Builder, b4: Builder,
                                 s4: Builder, exit: Builder)

  /** What conditional and range loops have in common once the head (b2, c) is emitted. */
  ghost predicate LoopTrailOk(body: Block, b: Builder, own: set<string>, t: LoopTrail) {
    && Open(b) && t.n == |b.blocks| && t.b1 == Enter(b, 3, Br(t.n)) && Keeps(b, t.b1, own) && Open(t.b1) &&
        t.b1.breaks == b.breaks
    && t.b1.cur == t.n && t.b1.blocks[t.n] == EMPTY_BLOCK
    && Emits(t.b1, t.b2, own, own, false) && t.s2 == Terminate(t.b2, CBr(t.c, t.n + 1, t.n + 2)) &&
        Keeps(t.b2, t.s2, own)
    && t.b3 == At(t.s2, t.n + 1).(breaks := b.breaks + [t.n + 2])
    && Wf(t.b3) && t.b3.blocks[t.n + 1] == EMPTY_BLOCK && VarsOk(t.b3, own)
    && t.b4 == EmitBlock(body, t.b3) == EmitBlockValue(body, t.b3).0
    && Emits(t.b3, t.b4, own, own, BlockDiverges(body)) && Keeps(t.b4, t.s4, own)
    && t.exit == At(t.s4, t.n + 2).(breaks := b.breaks) && t.n + 2 < |t.s4.blocks| &&
        t.s4.blocks[t.n + 2] == EMPTY_BLOCK
    && Keeps(b, t.exit, own) && Open(t.exit) && VarsKept(t.b1, t.exit, own) && VarsKept(t.b4, t.exit, own)
  }

  lemma {:induction false} LoopStages(body: Block, b: Builder, b2: Builder, c: Operand, s4: Builder, vis: set<string>,
                                      own: set<string>)
    returns (t: LoopTrail)
    requires Open(b) && VarsOk(b, own) && b.nextSlot >= 1 && BlockOk(body, vis, own, true)
    requires Emits(Enter(b, 3, Br(|b.blocks|)), b2, own, own, false)
    requires var n := |b.blocks|;
             var b4 := EmitBlock(body, At(Terminate(b2, CBr(c, n + 1, n + 2)), n + 1).(breaks := b.breaks + [n + 2]));
             s4 == TerminateIfOpen(b4, Br(n)) || exists slot :: s4 == EmitAdvance(b4, slot, n)
    ensures LoopTrailOk(body, b, own, t) && t.b2 == b2 && t.c == c && t.s4 == s4
    decreases body, 3
  {
    hide EmitBlock, EmitBlockValue, EmitAdvance, BlockDiverges, BlockOk, VarsOk, VarsKept, Grows;
    var n := |b.blocks|;
    var b1 := Enter(b, 3, Br(n));
    EnterKeeps(b, 3, Br(n), own);
    KeepsThen(b, b1, b2, own);
    StillEmpty(b, Br(n), b1, b2, own);
    var s2 := Terminate(b2, CBr(c, n + 1, n + 2));
    TerminateGrows(b2, CBr(c, n + 1, n + 2), own);
    KeepsThen(b, b2, s2, own);
    LoopBodyShape(body, b, s2, n, vis, own);
    var b3 := At(s2, n + 1).(breaks := b.breaks + [n + 2]);
    var b4 := EmitBlock(body, b3);
    LoopCloses(b4, s4, n, own);
    KeepsThen(b, b4, s4, own);
    MoveKeeps(b, s4, n + 2, own);
    var exit := At(s4, n + 2).(breaks := b.breaks);
    SetBreaks(b, At(s4, n + 2), b.breaks, own);
    VarsThrough(b1, b2, b3, b4, s4, exit, own);
    t := LoopTrail(n, b1, b2, c, s2, b3, b4, s4, exit);
  }

  lemma VarsThrough(b1: Builder, b2: Builder, b3: Builder, b4: Builder, s4: Builder, exit: Builder, own: set<string>)
    requires VarsKept(b1, b2, own) && b3.vars == b2.vars && VarsKept(b3, b4, own) && VarsKept(b4, s4, own) &&
        s4.vars == exit.vars
    ensures VarsKept(b1, exit, own) && VarsKept(b4, exit, own)
  {
  }

  /** Both ways a loop body goes round again. */
  lemma LoopCloses(b4: Builder, s4: Builder, n: nat, own: set<string>)
    requires Wf(b4) && VarsOk(b4, own) && n + 2 < |b4.blocks| && b4.blocks[n + 2] == EMPTY_BLOCK && b4.cur != n + 2
    requires s4 == TerminateIfOpen(b4, Br(n)) || exists slot :: s4 == EmitAdvance(b4, slot, n)
    ensures Keeps(b4, s4, own) && n + 2 < |s4.blocks| && s4.blocks[n + 2] == EMPTY_BLOCK
  {
    hide EmitAdvance, VarsOk, VarsKept, Grows;
    if s4 == TerminateIfOpen(b4, Br(n)) {
      CloseGrows(b4, Br(n), own);
    } else {
      var slot :| s4 == EmitAdvance(b4, slot, n);
      AdvanceKeeps(b4, slot, n, own);
    }
    Untouched(b4, s4, n + 2, own);
  }

  lemma {:induction false} ForStages(cond: Expr, body: Block, b: Builder, vis: set<string>, own: set<string>,
                                     inLoop: bool)
    returns (t: LoopTrail)
    requires Open(b) && VarsOk(b, own) && b.nextSlot >= 1 && StmtOk(For(cond, body), vis, own, inLoop) &&
        (inLoop ==> b.breaks != [])
    ensures LoopTrailOk(body, b, own, t) && (t.b2, t.c) == EmitCondition(cond, t.b1) &&
        t.s4 == TerminateIfOpen(t.b4, Br(t.n))
    ensures EmitStmt(For(cond, body), b) == t.exit
    decreases For(cond, body), 0
  {
    hide EmitCondition, EmitBlock, EmitBlockValue, BlockDiverges, BlockOk, VarsOk, VarsKept, Grows;
    var n := |b.blocks|;
    var b1 := Enter(b, 3, Br(n));
    EnterKeeps(b, 3, Br(n), own);
    var (b2, c) := EmitCondition(cond, b1);
    ConditionShape(cond, b1, vis, own, inLoop);
    var b4 := EmitBlock(body, At(Terminate(b2, CBr(c, n + 1, n + 2)), n + 1).(breaks := b.breaks + [n + 2]));
    t := LoopStages(body, b, b2, c, TerminateIfOpen(b4, Br(n)), vis, own);
  }

  lemma {:induction false} ForShape(cond: Expr, body: Block, b: Builder, vis: set<string>, own: set<string>,
                                    inLoop: bool)
    requires Open(b) && VarsOk(b, own) && b.nextSlot >= 1 && StmtOk(For(cond, body), vis, own, inLoop) &&
        (inLoop ==> b.breaks != [])
    ensures Emits(b, EmitStmt(For(cond, body), b), own, own, false)
    decreases For(cond, body), 1
  {
    hide EmitStmt, EmitCondition, EmitBlock, EmitBlockValue, BlockDiverges, BlockOk, VarsOk, VarsKept, Grows;
    var t := ForStages(cond, body, b, vis, own, inLoop);
  }

  lemma {:induction false} ForRangeShape(
    i: string, lo: Expr, hi: Expr, body: Block, b: Builder, vis: set<string>, own: set<string>, inLoop: bool)
    requires Open(b) && VarsOk(b, own) && b.nextSlot >= 1 && (inLoop ==> b.breaks != [])
    requires StmtOk(ForRange(i, lo, hi, body), vis, own, inLoop)
    ensures Emits(b, EmitStmt(ForRange(i, lo, hi, body), b), own, own, false)
    decreases ForRange(i, lo, hi, body), 0
  {
    hide EmitExpr, EmitCount, Diverges, VarsOk, VarsKept, Grows;
    var b0 := Declare(b, i);
    DeclareGrows(b, i, own);
    var (b1, x) := EmitExpr(lo, b0);
    ExprShape(lo, b0, vis, own + {i}, inLoop);
    EmitsThen(b, b0, b1, own, own + {i}, own + {i}, false);
    var (b2, y) := EmitExpr(hi, b1);
    ExprShape(hi, b1, vis, own + {i}, inLoop);
    EmitsThen(b, b1, b2, own, own + {i}, own + {i}, false);
    var b3 := Append(b2, StoreTo(b.nextSlot, x));
    AppendGrows(b2, StoreTo(b.nextSlot, x), 0, own + {i});
    EmitsThen(b, b2, b3, own, own + {i}, own + {i}, false);
    CountShape(b.nextSlot, y, body, b3, vis + {i}, own + {i});
    var b4 := EmitCount(b.nextSlot, y, body, b3);
    EmitsThen(b, b3, b4, own, own + {i}, own + {i}, false);
    NarrowVars(b4, own, own + {i});
  }

  /** Load the index, compare it with the bound. */
  function EmitCountHead(slot: nat, bound: Operand, b: Builder): (Builder, Operand)
    requires Wf(b)
  {
    var (b2, current) := Load_(b, slot);
    Compute_(b2, Lt, current, bound)
  }

  lemma CountHeadShape(slot: nat, bound: Operand, b: Builder, own: set<string>)
    requires Open(b) && VarsOk(b, own)
    ensures Emits(b, Load_(b, slot).0, own, own, false)
    ensures Emits(Load_(b, slot).0, EmitCountHead(slot, bound, b).0, own, own, false)
    ensures Emits(b, EmitCountHead(slot, bound, b).0, own, own, false)
  {
    hide VarsOk, VarsKept, Grows;
    var (b2, current) := Load_(b, slot);
    AppendGrows(b, Load(b.nextTemp, slot), 1, own);
    AppendGrows(b2, Compute(b2.nextTemp, Lt, current, bound), 1, own);
    EmitsThen(b, b2, EmitCountHead(slot, bound, b).0, own, own, own, false);
  }

  lemma {:induction false} CountStages(slot: nat, bound: Operand, body: Block, b: Builder, vis: set<string>,
                                       own: set<string>)
    returns (t: LoopTrail)
    requires Open(b) && VarsOk(b, own) && b.nextSlot >= 1 && BlockOk(body, vis, own, true)
    ensures LoopTrailOk(body, b, own, t) && (t.b2, t.c) == EmitCountHead(slot, bound, t.b1) &&
        t.s4 == EmitAdvance(t.b4, slot, t.n)
    ensures EmitCount(slot, bound, body, b) == t.exit
    decreases body, 4
  {
    hide EmitBlock, EmitBlockValue, EmitAdvance, BlockDiverges, BlockOk, VarsOk, VarsKept, Grows;
    var n := |b.blocks|;
    var b1 := Enter(b, 3, Br(n));
    EnterKeeps(b, 3, Br(n), own);
    var (b2, c) := EmitCountHead(slot, bound, b1);
    CountHeadShape(slot, bound, b1, own);
    var b4 := EmitBlock(body, At(Terminate(b2, CBr(c, n + 1, n + 2)), n + 1).(breaks := b.breaks + [n + 2]));
    t := LoopStages(body, b, b2, c, EmitAdvance(b4, slot, n), vis, own);
  }

  lemma {:induction false} CountShape(slot: nat, bound: Operand, body: Block, b: Builder, vis: set<string>,
                                      own: set<string>)
    requires Open(b) && VarsOk(b, own) && b.nextSlot >= 1 && BlockOk(body, vis, own, true)
    ensures Emits(b, EmitCount(slot, bound, body, b), own, own, false)
    decreases body, 5
  {
    hide EmitCount, EmitBlock, EmitBlockValue, EmitAdvance, BlockDiverges, BlockOk, VarsOk, VarsKept, Grows;
    var t := CountStages(slot, bound, body, b, vis, own);
  }

  lemma AdvanceKeeps(b: Builder, slot: nat, head: nat, own: set<string>)
    requires Wf(b) && VarsOk(b, own)
    ensures Keeps(b, EmitAdvance(b, slot, head), own) && EmitAdvance(b, slot, head).cur == b.cur
    ensures |EmitAdvance(b, slot, head).blocks| == |b.blocks|
  {
    hide VarsOk, VarsKept, Extends;
    if Terminated(b) {
      KeepsNothing(b, own);
    } else {
      var (b1, current) := Load_(b, slot);
      AppendGrows(b, Load(b.nextTemp, slot), 1, own);
      var (b2, next) := Compute_(b1, Add, current, Const(I32(1)));
      AppendGrows(b1, Compute(b1.nextTemp, Add, current, Const(I32(1))), 1, own);
      KeepsThen(b, b1, b2, own);
      var b3 := Append(b2, StoreTo(slot, next));
      AppendGrows(b2, StoreTo(slot, next), 0, own);
      KeepsThen(b, b2, b3, own);
      TerminateGrows(b3, Br(head), own);
      KeepsThen(b, b3, Terminate(b3, Br(head)), own);
    }
  }

  /** While the head of a loop is emitted, its body and exit blocks stay empty. */
  lemma StillEmpty(b: Builder, t: Terminator, b1: Builder, b2: Builder, own: set<string>)
    requires Open(b) && VarsOk(b, own) && b1 == Enter(b, 3, t) && Keeps(b1, b2, own)
    ensures |b2.blocks| >= |b.blocks| + 3 && b2.cur != |b.blocks| + 1 && b2.cur != |b.blocks| + 2
    ensures b2.blocks[|b.blocks| + 1] == EMPTY_BLOCK && b2.blocks[|b.blocks| + 2] == EMPTY_BLOCK
  {
    EnterKeeps(b, 3, t, own);
    Untouched(b1, b2, |b.blocks| + 1, own);
    Untouched(b1, b2, |b.blocks| + 2, own);
  }

  /** The body of a loop whose head is block n: blocks n+1 and n+2 are still empty. */
  lemma {:induction false} LoopBodyShape(body: Block, b: Builder, head: Builder, n: nat, vis: set<string>,
                                         own: set<string>)
    requires Keeps(b, head, own) && |b.blocks| == n && n + 2 < |head.blocks| && head.nextSlot >= 1
    requires head.blocks[n + 1] == EMPTY_BLOCK && head.blocks[n + 2] == EMPTY_BLOCK
    requires BlockOk(body, vis, own, true)
    ensures var b3 := At(head, n + 1).(breaks := b.breaks + [n + 2]);
            && Keeps(b, EmitBlock(body, b3), own) && Open(b3) && VarsOk(b3, own) &&
                EmitBlock(body, b3) == EmitBlockValue(body, b3).0
            && Emits(b3, EmitBlock(body, b3), own, own, BlockDiverges(body))
            && EmitBlock(body, b3).blocks[n + 2] == EMPTY_BLOCK && EmitBlock(body, b3).cur != n + 2
    decreases body, 2
  {
    hide EmitBlock, EmitBlockValue, BlockDiverges, BlockOk, VarsOk, VarsKept, Grows;
    MoveKeeps(b, head, n + 1, own);
    var b3 := At(head, n + 1).(breaks := b.breaks + [n + 2]);
    SetBreaks(b, At(head, n + 1), b.breaks + [n + 2], own);
    BlockValueShape(body, b3, vis, own, true);
    BlockEmittersAgree(body, b3, vis, own, true);
    KeepsThen(b, b3, EmitBlock(body, b3), own);
    Untouched(b3, EmitBlock(body, b3), n + 2, own);
  }

  lemma SetBreaks(b: Builder, b1: Builder, breaks: seq<nat>, own: set<string>)
    requires Keeps(b, b1, own)
    ensures Keeps(b, b1.(breaks := breaks), own)
  {
  }
}
