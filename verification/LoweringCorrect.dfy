/**
 The emitted blocks mean what the structured program means: same result, same fault, and they
 run forever exactly when the structured program does.
 */
module LoweringCorrect {
  import opened Prelude
  import opened Structured
  import opened BasicBlocks
  import opened Lowering
  import opened LoweringShape

  // ----- what evaluation does to the set of names ------------------------------------------------

  ghost predicate KeysAfter(out: Outcome, before: set<string>, after: set<string>) {
    match out
    case Val(_, st) => st.Keys == after
    case Broke(st) => before <= st.Keys
    case _ => true
  }

  lemma LeaveKeys(outer: Store, inner: Store)
    requires outer.Keys <= inner.Keys
    ensures Leave(outer, inner).Keys == outer.Keys
  {
  }

  lemma {:induction false} EvalKeys(e: Expr, st: Store, own: set<string>, inLoop: bool, fuel: nat)
    requires Ok(e, st.Keys, own, inLoop)
    ensures KeysAfter(Eval(e, st, fuel), st.Keys, st.Keys)
    decreases fuel, e, 0
  {
    match e
    case Lit(_) =>
    case Var(_) =>
    case Bin(op, l, r) =>
      EvalKeys(l, st, own, inLoop, fuel);
      var a := Eval(l, st, fuel);
      if a.Val? {
        EvalKeys(r, a.st, own, inLoop, fuel);
      }
    case If(valued, cond, thn, els) =>
      EvalKeys(cond, st, own, inLoop, fuel);
      var c := Eval(cond, st, fuel);
      if c.Val? {
        ExecKeys(thn, c.st, own, inLoop, fuel);
        ExecKeys(els, c.st, own, inLoop, fuel);
      }
    case Match(valued, scrutinee, arms) =>
      EvalKeys(scrutinee, st, own, inLoop, fuel);
      var s := Eval(scrutinee, st, fuel);
      if s.Val? {
        SelectKeys(arms, s.v, s.st, own, inLoop, fuel);
      }
    case Scope(body) => ExecKeys(body, st, own, inLoop, fuel);
  }

  lemma {:induction false} SelectKeys(arms: Arms, v: Value, st: Store, own: set<string>, inLoop: bool, fuel: nat)
    requires ArmsOk(arms, st.Keys, own, inLoop)
    ensures KeysAfter(Select(arms, v, st, fuel), st.Keys, st.Keys)
    decreases fuel, arms, 0
  {
    if arms.Arm? {
      EvalKeys(arms.body, st, own, inLoop, fuel);
      SelectKeys(arms.rest, v, st, own, inLoop, fuel);
    }
  }

  /** A block may add names; LeaveTo drops them again. */
  lemma {:induction false} ExecKeys(block: Block, st: Store, own: set<string>, inLoop: bool, fuel: nat)
    requires BlockOk(block, st.Keys, own, inLoop)
    ensures var out := Exec(block, st, fuel);
            && (out.Val? ==> st.Keys <= out.st.Keys) && (out.Broke? ==> st.Keys <= out.st.Keys)
    decreases fuel, block, 0
  {
    if block.Then? {
      StepKeys(block.first, st, own, inLoop, fuel);
      var out := Step(block.first, st, fuel);
      if out.Val? && block.rest.Then? {
        ExecKeys(block.rest, out.st, own + Declares(block.first), inLoop, fuel);
      }
    }
  }

  lemma {:induction false} StepKeys(s: Stmt, st: Store, own: set<string>, inLoop: bool, fuel: nat)
    requires StmtOk(s, st.Keys, own, inLoop)
    ensures KeysAfter(Step(s, st, fuel), st.Keys, st.Keys + Declares(s))
    decreases fuel, s, 0
  {
    match s
    case Let(x, e) => EvalKeys(e, st, own + {x}, inLoop, fuel);
    case Assign(x, e) => EvalKeys(e, st, own, inLoop, fuel);
    case AssignOp(x, op, e) => EvalKeys(e, st, own, inLoop, fuel);
    case Do(e) => EvalKeys(e, st, own, inLoop, fuel);
    case For(cond, body) =>
      if fuel > 0 {
        EvalKeys(cond, st, own, inLoop, fuel);
        var c := Eval(cond, st, fuel);
        if c.Val? {
          ExecKeys(body, c.st, own, true, fuel);
          var out := Exec(body, c.st, fuel);
          if Truthy(c.v) && out.Val? {
            LeaveKeys(c.st, out.st);
            StepKeys(s, Leave(c.st, out.st), own, inLoop, fuel - 1);
          }
        }
      }
    case ForRange(i, lo, hi, body) =>
      EvalKeys(lo, st, own + {i}, inLoop, fuel);
      var a := Eval(lo, st, fuel);
      if a.Val? {
        EvalKeys(hi, a.st, own + {i}, inLoop, fuel);
        var b := Eval(hi, a.st, fuel);
        if b.Val? {
          assert b.st[i := a.v].Keys == st.Keys + {i};
          CountKeys(i, b.v, body, b.st[i := a.v], own + {i}, fuel);
        }
      }
    case Break =>
    case Ret(result) =>
      if result.Some? {
        EvalKeys(result.value, st, own, inLoop, fuel);
      }
  }

  lemma {:induction false} CountKeys(i: string, bound: Value, body: Block, st: Store, own: set<string>, fuel: nat)
    requires BlockOk(body, st.Keys, own, true)
    ensures KeysAfter(Count(i, bound, body, st, fuel), st.Keys, st.Keys) && !Count(i, bound, body, st, fuel).Broke?
    decreases fuel, body, 1
  {
    if fuel > 0 {
      ExecKeys(body, st, own, true, fuel);
      var out := Exec(body, st, fuel);
      if out.Val? && i in st {
        var st' := Leave(st, out.st);
        LeaveKeys(st, out.st);
        match Apply(Add, st'[i], I32(1))
        case None =>
        case Some(next) =>
          assert st'[i := next].Keys == st.Keys;
          CountKeys(i, bound, body, st'[i := next], own, fuel - 1);
      }
    }
  }

  /** A diverging expression or block never yields a value. */
  lemma {:induction false} DivergesNoValue(e: Expr, st: Store, fuel: nat)
    requires Diverges(e)
    ensures !Eval(e, st, fuel).Val?
    decreases e
  {
    match e
    case If(_, cond, thn, els) =>
      var c := Eval(cond, st, fuel);
      if c.Val? {
        BlockDivergesNoValue(thn, c.st, fuel);
        BlockDivergesNoValue(els, c.st, fuel);
      }
    case Match(_, scrutinee, arms) =>
      var s := Eval(scrutinee, st, fuel);
      if s.Val? {
        ArmsDivergeNoValue(arms, s.v, s.st, fuel);
      }
    case Scope(body) => BlockDivergesNoValue(body, st, fuel);
  }

  lemma {:induction false} ArmsDivergeNoValue(arms: Arms, v: Value, st: Store, fuel: nat)
    requires ArmsDiverge(arms)
    ensures !Select(arms, v, st, fuel).Val?
    decreases arms
  {
    if arms.Arm? {
      DivergesNoValue(arms.body, st, fuel);
      ArmsDivergeNoValue(arms.rest, v, st, fuel);
    }
  }

  lemma {:induction false} BlockDivergesNoValue(block: Block, st: Store, fuel: nat)
    requires BlockDiverges(block)
    ensures !Exec(block, st, fuel).Val?
    decreases block
  {
    if block.rest.End? {
      if block.first.Do? {
        DivergesNoValue(block.first.e, st, fuel);
      }
    } else {
      var out := Step(block.first, st, fuel);
      if out.Val? {
        BlockDivergesNoValue(block.rest, out.st, fuel);
      }
    }
  }

  // ----- the simulation relation ------------------------------------------------------------------

  /** Slots hold what the store says. */
  ghost predicate Related(vars: map<string, nat>, st: Store, slots: map<nat, Value>) {
    forall x :: x in st ==> x in vars && vars[x] in slots && slots[vars[x]] == st[x]
  }

  ghost predicate TempsKept(before: map<nat, Value>, after: map<nat, Value>, n: nat) {
    forall t :: t < n && t in before ==> t in after && after[t] == before[t]
  }

  /** The machine stands where the builder would put its next instruction. */
  ghost predicate Standing(b: Builder, c: Config) {
    Wf(b) && c.block == b.cur && c.pc == |b.blocks[b.cur].instrs|
  }

  ghost predicate Ready(b: Builder, own: set<string>, c: Config, st: Store) {
    && Open(b) && VarsOk(b, own) && b.nextSlot >= 1 && st.Keys <= own
    && Standing(b, c) && Related(b.vars, st, c.slots)
  }

  function Visible(st: Store, vis: set<string>): Store {
    map x | x in st && x in vis :: st[x]
  }

  /**
   After n steps from c the machine has done what `out` says.  `b` is the builder before the emission
   (it fixes which temporaries must survive and where a break goes), `b'` and `x` its result.
   */
  ghost predicate Agrees(p: Program, b: Builder, c: Config, vis: set<string>, b': Builder, x: Operand,
                         out: Outcome, fuel: nat, n: nat, c': Config)
  {
    match out
    case Val(v, st) =>
      && Run(p, c, n) == Go(c') && TempsKept(c.temps, c'.temps, b.nextTemp)
      && Standing(b', c') && Related(b'.vars, st, c'.slots) && Read(x, c'.temps) == Some(v)
    case Broke(st) =>
      && Run(p, c, n) == Go(c') && TempsKept(c.temps, c'.temps, b.nextTemp)
      && b.breaks != [] && c'.block == b.breaks[|b.breaks| - 1] && c'.pc == 0
      && Related(b.vars, Visible(st, vis), c'.slots)
    case Returned(r) => Run(p, c, n) == Done(r)
    case Fault(why) => Run(p, c, n) == Stuck(why)
    case Timeout => Run(p, c, fuel).Go?
  }

  /** Outcomes other than a value do not depend on where emission ended. */
  lemma AgreesElsewhere(p: Program, b: Builder, c: Config, vis: set<string>, b1: Builder, x1: Operand,
                        b2: Builder, x2: Operand, out: Outcome, fuel: nat, n: nat, c': Config)
    requires Agrees(p, b, c, vis, b1, x1, out, fuel, n, c') && !out.Val?
    ensures Agrees(p, b, c, vis, b2, x2, out, fuel, n, c')
  {
  }

  /** Running on from c1 after a prefix that started at c. */
  lemma AfterPrefix(p: Program, b: Builder, c: Config, vis: set<string>, n1: nat, b1: Builder, c1: Config,
                    vis1: set<string>,
                    b': Builder, x: Operand, out: Outcome, fuel: nat, fuel1: nat, n2: nat, c2: Config)
    requires Run(p, c, n1) == Go(c1) && TempsKept(c.temps, c1.temps, b.nextTemp)
    requires b.nextTemp <= b1.nextTemp && (out.Broke? ==> b.breaks == b1.breaks) && vis <= vis1 && fuel <= n1 + fuel1
    requires forall x :: x in vis ==> x in b.vars && x in b1.vars && b.vars[x] == b1.vars[x]
    requires Agrees(p, b1, c1, vis1, b', x, out, fuel1, n2, c2)
    ensures Agrees(p, b, c, vis, b', x, out, fuel, n1 + n2, c2)
  {
    hide Run;
    RunAdd(p, c, n1, c1, n2);
    RunAdd(p, c, n1, c1, fuel1);
    RunMonotone(p, c, fuel, n1 + fuel1);
  }

  // ----- primitive steps ---------------------------------------------------------------------------

  lemma StepAt(p: Program, b: Builder, i: Instr, c: Config)
    requires Standing(b, c) && Extends(Append(b, i).blocks, p)
    ensures ExecOne(p, c) == ExecInstr(i, c)
    ensures forall r :: ExecInstr(i, c) == Go(r) ==> Run(p, c, 1) == Go(r)
    ensures ExecInstr(i, c).Stuck? ==> Run(p, c, 1) == ExecInstr(i, c)
  {
    assert BlockGrows(Append(b, i).blocks[b.cur], p[b.cur]);
    assert ExecOne(p, c).Go? ==> Run(p, ExecOne(p, c).c, 0) == ExecOne(p, c);
  }

  lemma TermAt(p: Program, b: Builder, t: Terminator, c: Config)
    requires Open(b) && Standing(b, c) && Extends(Terminate(b, t).blocks, p)
    ensures Run(p, c, 1) == ExecTerminator(t, c)
  {
    assert BlockGrows(Terminate(b, t).blocks[b.cur], p[b.cur]);
    assert ExecOne(p, c).Go? ==> Run(p, ExecOne(p, c).c, 0) == ExecOne(p, c);
  }

  function Defined(c: Config, t: nat, v: Value): Config {
    c.(pc := c.pc + 1, temps := c.temps[t := v])
  }

  /** An instruction that computes `v` into the next temporary. */
  lemma SimDefine(p: Program, b: Builder, i: Instr, v: Value, c: Config, own: set<string>, st: Store)
    requires Ready(b, own, c, st) && Extends(Append(b, i).blocks, p)
    requires ExecInstr(i, c) == Define(c, b.nextTemp, Some(v))
    ensures Run(p, c, 1) == Go(Defined(c, b.nextTemp, v))
    ensures Ready(Append(b, i).(nextTemp := b.nextTemp + 1), own, Defined(c, b.nextTemp, v), st)
    ensures TempsKept(c.temps, Defined(c, b.nextTemp, v).temps, b.nextTemp)
  {
    hide Extends;
    StepAt(p, b, i, c);
  }

  lemma Below(b: Builder, b': Builder, p: Program, own: set<string>)
    requires Keeps(b, b', own) && Extends(b'.blocks, p)
    ensures Extends(b.blocks, p)
  {
    ExtendsTransitive(b.blocks, b'.blocks, p);
  }

  /** What the structured binary operator does with two values. */
  function BinaryOutcome(op: Op, a: Value, w: Value, st: Store): Outcome {
    match Apply(op, a, w)
    case Some(v) => Val(v, st)
    case None => Fault(Failure(a, w))
  }

  lemma SimCompute(p: Program, b: Builder, op: Op, x: Operand, y: Operand, a: Value, w: Value,
                   c: Config, own: set<string>, st: Store, fuel: nat) returns (n: nat, c': Config)
    requires Ready(b, own, c, st) && Read(x, c.temps) == Some(a) && Read(y, c.temps) == Some(w)
    requires Extends(Compute_(b, op, x, y).0.blocks, p)
    ensures Agrees(p, b, c, st.Keys, Compute_(b, op, x, y).0, Compute_(b, op, x, y).1, BinaryOutcome(op, a, w, st),
        fuel, n, c')
    ensures BinaryOutcome(op, a, w, st).Val? ==> Ready(Compute_(b, op, x, y).0, own, c', st)
  {
    hide Extends, VarsOk, Apply;
    n, c' := 1, c;
    match Apply(op, a, w)
    case None => StepAt(p, b, Compute(b.nextTemp, op, x, y), c);
    case Some(v) =>
      SimDefine(p, b, Compute(b.nextTemp, op, x, y), v, c, own, st);
      c' := Defined(c, b.nextTemp, v);
  }

  lemma SimTruth(p: Program, b: Builder, x: Operand, a: Value, c: Config, own: set<string>, st: Store)
    returns (c': Config)
    requires Ready(b, own, c, st) && Read(x, c.temps) == Some(a)
    requires Extends(Truth_(b, x).0.blocks, p)
    ensures Run(p, c, 1) == Go(c') && TempsKept(c.temps, c'.temps, b.nextTemp)
    ensures Ready(Truth_(b, x).0, own, c', st)
    ensures Read(Truth_(b, x).1, c'.temps) == Some(I1(Truthy(a)))
  {
    hide Extends, VarsOk;
    SimDefine(p, b, Truth(b.nextTemp, x), I1(Truthy(a)), c, own, st);
    c' := Defined(c, b.nextTemp, I1(Truthy(a)));
  }

  // ----- composition ---------------------------------------------------------------------------

  /** Having emitted from b to b1 and run n steps from c to c1, everything is in place to go on. */
  ghost predicate Arrived(p: Program, b: Builder, own: set<string>, c: Config, n: nat,
                          b1: Builder, own1: set<string>, c1: Config, st1: Store)
  {
    && Run(p, c, n) == Go(c1) && TempsKept(c.temps, c1.temps, b.nextTemp)
    && Follows(b, b1, own) && Ready(b1, own1, c1, st1)
  }

  lemma ArrivedByValue(p: Program, b: Builder, own: set<string>, c: Config, vis: set<string>, n: nat,
                       b1: Builder, own1: set<string>, x: Operand, out: Outcome, fuel: nat, c1: Config)
    requires out.Val? && Agrees(p, b, c, vis, b1, x, out, fuel, n, c1)
    requires Emits(b, b1, own, own1, false) && b.nextSlot >= 1 && out.st.Keys <= own1
    ensures Arrived(p, b, own, c, n, b1, own1, c1, out.st)
    ensures Read(x, c1.temps) == Some(out.v)
  {
  }

  lemma ArrivedThen(p: Program, b: Builder, own: set<string>, c: Config, n1: nat, b1: Builder, own1: set<string>,
                    c1: Config,
                    st1: Store, n2: nat, b2: Builder, own2: set<string>, c2: Config, st2: Store)
    requires Arrived(p, b, own, c, n1, b1, own1, c1, st1)
    requires Arrived(p, b1, own, c1, n2, b2, own2, c2, st2)
    ensures Arrived(p, b, own, c, n1 + n2, b2, own2, c2, st2)
  {
    hide VarsKept, Ready;
    RunAdd(p, c, n1, c1, n2);
    FollowsThen(b, b1, b2, own);
  }

  /** A temporary computed before survives what comes after. */
  lemma StillReads(p: Program, b: Builder, own: set<string>, c: Config, n: nat, b1: Builder, own1: set<string>,
                   c1: Config,
                   st1: Store, x: Operand, v: Value)
    requires Arrived(p, b, own, c, n, b1, own1, c1, st1)
    requires OperandOk(x, b.nextTemp) && Read(x, c.temps) == Some(v)
    ensures Read(x, c1.temps) == Some(v)
  {
  }

  /** The rest of the work, started where the prefix arrived, finishes the whole. */
  lemma Finish(p: Program, b: Builder, own: set<string>, c: Config, st: Store, n1: nat, b1: Builder, own1: set<string>,
               c1: Config,
               st1: Store, b': Builder, x: Operand, out: Outcome, fuel: nat, n2: nat, c2: Config)
    requires Arrived(p, b, own, c, n1, b1, own1, c1, st1) && VarsOk(b, own)
    requires st.Keys <= own && st.Keys <= st1.Keys && (out.Broke? ==> b.breaks == b1.breaks)
    requires Agrees(p, b1, c1, st1.Keys, b', x, out, fuel, n2, c2)
    ensures Agrees(p, b, c, st.Keys, b', x, out, fuel, n1 + n2, c2)
  {
    hide Agrees, Grows, Run;
    AfterPrefix(p, b, c, st.Keys, n1, b1, c1, st1.Keys, b', x, out, fuel, fuel, n2, c2);
  }

  lemma StrictOperands(op: Op, a: Value, w: Value, st: Store)
    requires op.And? || op.Or?
    ensures BinaryOutcome(op, I1(Truthy(a)), I1(Truthy(w)), st) == BinaryOutcome(op, a, w, st)
  {
  }

  lemma SimBinary(p: Program, b: Builder, op: Op, x: Operand, y: Operand, a: Value, w: Value,
                  c: Config, own: set<string>, st: Store, fuel: nat) returns (n: nat, c': Config)
    requires Ready(b, own, c, st) && Read(x, c.temps) == Some(a) && Read(y, c.temps) == Some(w)
    requires OperandOk(y, b.nextTemp) && Extends(EmitBinary(b, op, x, y).0.blocks, p)
    ensures Agrees(p, b, c, st.Keys, EmitBinary(b, op, x, y).0, EmitBinary(b, op, x, y).1, BinaryOutcome(op, a, w, st),
        fuel, n, c')
    ensures BinaryOutcome(op, a, w, st).Val? ==> Ready(EmitBinary(b, op, x, y).0, own, c', st)
  {
    hide Extends, VarsOk, Agrees, Grows, Apply, BinaryOutcome, Run, Related;
    if op.And? || op.Or? {
      var (b1, x') := Truth_(b, x);
      var (b2, y') := Truth_(b1, y);
      AppendGrows(b, Truth(b.nextTemp, x), 1, own);
      AppendGrows(b1, Truth(b1.nextTemp, y), 1, own);
      AppendGrows(b2, Compute(b2.nextTemp, op, x', y'), 1, own);
      Below(b2, Compute_(b2, op, x', y').0, p, own);
      Below(b1, b2, p, own);
      var c1 := SimTruth(p, b, x, a, c, own, st);
      var c2 := SimTruth(p, b1, y, w, c1, own, st);
      ArrivedThen(p, b, own, c, 1, b1, own, c1, st, 1, b2, own, c2, st);
      StrictOperands(op, a, w, st);
      n, c' := SimCompute(p, b2, op, x', y', I1(Truthy(a)), I1(Truthy(w)), c2, own, st, fuel);
      Finish(p, b, own, c, st, 2, b2, own, c2, st, EmitBinary(b, op, x, y).0, EmitBinary(b, op, x, y).1,
             BinaryOutcome(op, a, w, st), fuel, n, c');
      n := 2 + n;
    } else {
      n, c' := SimCompute(p, b, op, x, y, a, w, c, own, st, fuel);
    }
  }

  // ----- jumps, branches and joins -----------------------------------------------------------------

  function Jumped(c: Config, target: nat): Config {
    c.(block := target, pc := 0, prev := c.block)
  }

  /** Closing the insertion block with a jump to an empty block, where b1 then goes on. */
  lemma SimJump(p: Program, b: Builder, t: Terminator, c: Config, own: set<string>, st: Store, b1: Builder)
    requires Ready(b, own, c, st) && Extends(Terminate(b, t).blocks, p)
    requires Wf(b1) && b1.blocks[b1.cur] == EMPTY_BLOCK && ExecTerminator(t, c) == Jump(c, b1.cur)
    requires VarsOk(b1, own) && VarsKept(b, b1, own) && b1.nextSlot >= 1
    ensures Run(p, c, 1) == Go(Jumped(c, b1.cur))
    ensures Ready(b1, own, Jumped(c, b1.cur), st)
  {
    hide Extends;
    TermAt(p, b, t, c);
  }

  /** Jumping to an empty block after having arrived. */
  lemma JumpArrives(p: Program, b: Builder, own: set<string>, c: Config, n: nat, b1: Builder, c1: Config, st1: Store,
                    t: Terminator, b2: Builder)
    requires Arrived(p, b, own, c, n, b1, own, c1, st1) && Extends(Terminate(b1, t).blocks, p)
    requires Wf(b2) && b2.blocks[b2.cur] == EMPTY_BLOCK && ExecTerminator(t, c1) == Jump(c1, b2.cur)
    requires Follows(b1, b2, own) && VarsOk(b2, own) && b2.nextSlot >= 1
    ensures Arrived(p, b, own, c, n + 1, b2, own, Jumped(c1, b2.cur), st1)
  {
    hide Extends, VarsOk, VarsKept, Run;
    SimJump(p, b1, t, c1, own, st1, b2);
    RunAdd(p, c, n, c1, 1);
    FollowsThen(b, b1, b2, own);
  }

  /** The same when the jump goes into blocks that are appended first. */
  lemma EnterArrives(p: Program, b: Builder, own: set<string>, c: Config, n: nat, b1: Builder, c1: Config, st1: Store,
                     k: nat, t: Terminator, b2: Builder)
    requires Arrived(p, b, own, c, n, b1, own, c1, st1) && Extends(Enter(b1, k, t).blocks, p)
    requires Wf(b2) && b2.blocks[b2.cur] == EMPTY_BLOCK && ExecTerminator(t, c1) == Jump(c1, b2.cur)
    requires Follows(b1, b2, own) && VarsOk(b2, own) && b2.nextSlot >= 1
    ensures Arrived(p, b, own, c, n + 1, b2, own, Jumped(c1, b2.cur), st1)
  {
    hide Extends, VarsOk, VarsKept, Run;
    var b1' := AppendBlocks(b1, k);
    FollowsMoved(b, b1, b1', own);
    SameBlock(b1, k, own, c1, st1);
    FollowsSource(b1', b1, b2, own);
    JumpArrives(p, b, own, c, n, b1', c1, st1, t, b2);
  }

  lemma SameBlock(b: Builder, k: nat, own: set<string>, c: Config, st: Store)
    requires Ready(b, own, c, st)
    ensures Ready(AppendBlocks(b, k), own, c, st)
  {
  }

  /** The names of the enclosing scope are still related after the inner scope ends. */
  lemma LeaveRelated(b: Builder, b': Builder, own: set<string>, st: Store, inner: Store, slots: map<nat, Value>)
    requires Related(b.vars, inner, slots) && VarsKept(b, b', own) && st.Keys <= own
    ensures Related(b'.vars, Leave(st, inner), slots)
  {
  }

  /** A branch that yields a value jumps to the join; any other outcome is final already. */
  lemma SimClose(p: Program, s: Builder, own: set<string>, c: Config, st: Store, b2: Builder, x: Operand, out: Outcome,
                 fuel: nat,
                 n: nat, c2: Config, d: bool, j: Builder) returns (n': nat, c': Config)
    requires Agrees(p, s, c, st.Keys, b2, x, out, fuel, n, c2)
    requires Emits(s, b2, own, own, d) && (out.Val? ==> !d) && s.nextSlot >= 1 && st.Keys <= own
    requires Extends(TerminateIfOpen(b2, Br(j.cur)).blocks, p)
    requires Wf(j) && j.blocks[j.cur] == EMPTY_BLOCK && VarsOk(j, own) && VarsKept(b2, j, own) && j.nextSlot >= 1
    ensures Agrees(p, s, c, st.Keys, j, x, LeaveTo(st, true, out), fuel, n', c')
    ensures out.Val? ==> c'.prev == b2.cur && Ready(j, own, c', Leave(st, out.st))
  {
    hide Extends, Grows, VarsOk, VarsKept, Run, Related;
    n', c' := n, c2;
    if out.Val? {
      TermAt(p, b2, Br(j.cur), c2);
      c' := Jumped(c2, j.cur);
      RunAdd(p, c, n, c2, 1);
      n' := n + 1;
      LeaveRelated(b2, j, own, st, out.st, c2.slots);
    }
  }

  /** The join picks the value of the block control came from. */
  lemma SimJoin(p: Program, j: Builder, valued: bool, incoming: seq<(Operand, nat)>, x: Operand, v: Value, c: Config,
                own: set<string>, st: Store, fuel: nat) returns (n: nat, c': Config)
    requires Ready(j, own, c, st) && Incoming(incoming, c.prev) == Some(x) && Read(x, c.temps) == Some(v)
    requires Extends(EmitJoin(j, valued, incoming).0.blocks, p)
    ensures Agrees(p, j, c, st.Keys, EmitJoin(j, valued, incoming).0, EmitJoin(j, valued, incoming).1,
                   Val(if valued then v else UNIT, st), fuel, n, c')
  {
    hide Extends, VarsOk;
    if valued {
      SimDefine(p, j, Phi(j.nextTemp, incoming), v, c, own, st);
      n, c' := 1, Defined(c, j.nextTemp, v);
    } else {
      n, c' := 0, c;
    }
  }

  // ----- expressions ---------------------------------------------------------------------------------

  function Truthed(out: Outcome): Outcome {
    if out.Val? then Val(I1(Truthy(out.v)), out.st) else out
  }

  lemma {:induction false} SimExpr(p: Program, e: Expr, b: Builder, own: set<string>, inLoop: bool, c: Config,
                                   st: Store, fuel: nat)
    returns (n: nat, c': Config)
    requires Ready(b, own, c, st) && Ok(e, st.Keys, own, inLoop) && (inLoop ==> b.breaks != [])
    requires Extends(EmitExpr(e, b).0.blocks, p)
    ensures Agrees(p, b, c, st.Keys, EmitExpr(e, b).0, EmitExpr(e, b).1, Eval(e, st, fuel), fuel, n, c')
    decreases fuel, e, 2
  {
    hide Extends, Grows, VarsOk, VarsKept, Run, Related, EmitBinary, Apply;
    match e
    case Lit(v) => n, c' := 0, c; RunNone(p, c);
    case Var(x) =>
      SlotRelated(b, own, st, c.slots, x);
      SimDefine(p, b, Load(b.nextTemp, SlotOf(b, x)), st[x], c, own, st);
      n, c' := 1, Defined(c, b.nextTemp, st[x]);
    case Bin(op, l, r) => n, c' := SimBin(p, e, b, own, inLoop, c, st, fuel);
    case If(_, _, _, _) => n, c' := SimIf(p, e, b, own, inLoop, c, st, fuel);
    case Match(_, _, _) => n, c' := SimMatch(p, e, b, own, inLoop, c, st, fuel);
    case Scope(body) =>
      n, c' := SimBlock(p, body, b, own, inLoop, c, st, fuel);
      BlockValueShape(body, b, st.Keys, own, inLoop);
      ScopeEnds(p, b, own, c, st, EmitBlockValue(body, b).0, EmitBlockValue(body, b).1, Exec(body, st, fuel), fuel, n,
          c');
  }

  lemma RunNone(p: Program, c: Config)
    ensures Run(p, c, 0) == Go(c)
  {
  }

  lemma SlotRelated(b: Builder, own: set<string>, st: Store, slots: map<nat, Value>, x: string)
    requires Related(b.vars, st, slots) && x in st
    ensures x in b.vars && b.vars[x] in slots && slots[b.vars[x]] == st[x]
  {
  }

  /** A block expression restores the name table; its own names are gone anyway. */
  lemma ScopeEnds(p: Program, b: Builder, own: set<string>, c: Config, st: Store, b1: Builder, x: Operand, out: Outcome,
                  fuel: nat,
                  n: nat, c': Config)
    requires Agrees(p, b, c, st.Keys, b1, x, out, fuel, n, c') && Keeps(b, b1, own) && VarsOk(b, own) && st.Keys <= own
    ensures Agrees(p, b, c, st.Keys, b1.(vars := b.vars), x, LeaveTo(st, true, out), fuel, n, c')
  {
  }

  lemma {:induction false} SimBin(p: Program, e: Expr, b: Builder, own: set<string>, inLoop: bool, c: Config, st: Store,
                                  fuel: nat)
    returns (n: nat, c': Config)
    requires e.Bin?
    requires Ready(b, own, c, st) && Ok(e, st.Keys, own, inLoop) && (inLoop ==> b.breaks != [])
    requires Extends(EmitExpr(e, b).0.blocks, p)
    ensures Agrees(p, b, c, st.Keys, EmitExpr(e, b).0, EmitExpr(e, b).1, Eval(e, st, fuel), fuel, n, c')
    decreases fuel, e, 1
  {
    hide Extends, Grows, VarsOk, VarsKept, Run, Related, EmitBinary, Apply, Agrees, Arrived;
    var (b1, x) := EmitExpr(e.l, b);
    var (b2, y) := EmitExpr(e.r, b1);
    var (b3, z) := EmitBinary(b2, e.op, x, y);
    ExprShape(e.l, b, st.Keys, own, inLoop);
    ExprShape(e.r, b1, st.Keys, own, inLoop);
    BinaryGrows(b2, e.op, x, y, own);
    Below(b2, b3, p, own);
    Below(b1, b2, p, own);
    n, c' := SimExpr(p, e.l, b, own, inLoop, c, st, fuel);
    var a := Eval(e.l, st, fuel);
    EvalKeys(e.l, st, own, inLoop, fuel);
    if !a.Val? {
      AgreesElsewhere(p, b, c, st.Keys, b1, x, b3, z, a, fuel, n, c');
      return;
    }
    var n1, c1 := n, c';
    ArrivedByValue(p, b, own, c, st.Keys, n1, b1, own, x, a, fuel, c1);
    ArrivedReady(p, b, own, c, n1, b1, own, c1, a.st);
    var n2, c2 := SimExpr(p, e.r, b1, own, inLoop, c1, a.st, fuel);
    var w := Eval(e.r, a.st, fuel);
    EvalKeys(e.r, a.st, own, inLoop, fuel);
    if !w.Val? {
      AgreesElsewhere(p, b1, c1, st.Keys, b2, y, b3, z, w, fuel, n2, c2);
      Finish(p, b, own, c, st, n1, b1, own, c1, a.st, b3, z, w, fuel, n2, c2);
      n, c' := n1 + n2, c2;
      return;
    }
    ArrivedByValue(p, b1, own, c1, st.Keys, n2, b2, own, y, w, fuel, c2);
    ArrivedReady(p, b1, own, c1, n2, b2, own, c2, w.st);
    StillReads(p, b1, own, c1, n2, b2, own, c2, w.st, x, a.v);
    var n3, c3 := SimBinary(p, b2, e.op, x, y, a.v, w.v, c2, own, w.st, fuel);
    ArrivedThen(p, b, own, c, n1, b1, own, c1, a.st, n2, b2, own, c2, w.st);
    Finish(p, b, own, c, st, n1 + n2, b2, own, c2, w.st, b3, z, BinaryOutcome(e.op, a.v, w.v, w.st), fuel, n3, c3);
    n, c' := n1 + n2 + n3, c3;
  }

  lemma ArrivedReady(p: Program, b: Builder, own: set<string>, c: Config, n: nat, b1: Builder, own1: set<string>,
                     c1: Config, st1: Store)
    requires Arrived(p, b, own, c, n, b1, own1, c1, st1)
    ensures Ready(b1, own1, c1, st1)
  {
  }

  lemma {:induction false} SimCondition(p: Program, e: Expr, b: Builder, own: set<string>, inLoop: bool, c: Config,
                                        st: Store, fuel: nat)
    returns (n: nat, c': Config)
    requires Ready(b, own, c, st) && Ok(e, st.Keys, own, inLoop) && (inLoop ==> b.breaks != []) && !Diverges(e)
    requires Extends(EmitCondition(e, b).0.blocks, p)
    ensures Agrees(p, b, c, st.Keys, EmitCondition(e, b).0, EmitCondition(e, b).1, Truthed(Eval(e, st, fuel)), fuel, n,
        c')
    decreases fuel, e, 3
  {
    hide Extends, Grows, VarsOk, VarsKept, Run, Related;
    var (b1, x) := EmitExpr(e, b);
    ExprShape(e, b, st.Keys, own, inLoop);
    AppendGrows(b1, Truth(b1.nextTemp, x), 1, own);
    Below(b1, Truth_(b1, x).0, p, own);
    n, c' := SimExpr(p, e, b, own, inLoop, c, st, fuel);
    var a := Eval(e, st, fuel);
    EvalKeys(e, st, own, inLoop, fuel);
    if a.Val? {
      ArrivedByValue(p, b, own, c, st.Keys, n, b1, own, x, a, fuel, c');
      var c1 := SimTruth(p, b1, x, a.v, c', own, a.st);
      Finish(p, b, own, c, st, n, b1, own, c', a.st, Truth_(b1, x).0, Truth_(b1, x).1, Truthed(a), fuel, 1, c1);
      n, c' := n + 1, c1;
    }
  }

  /** From the start of a branch through the join: what the whole if or match yields. */
  lemma SimTail(p: Program, s: Builder, own: set<string>, c: Config, st: Store, b2: Builder, x: Operand, out: Outcome,
                fuel: nat,
                n: nat, c2: Config, d: bool, j: Builder, valued: bool, incoming: seq<(Operand, nat)>)
    returns (n': nat, c': Config)
    requires Agrees(p, s, c, st.Keys, b2, x, out, fuel, n, c2)
    requires Emits(s, b2, own, own, d) && (out.Val? ==> !d && st.Keys <= out.st.Keys) && VarsOk(s, own) &&
        s.nextSlot >= 1 && st.Keys <= own
    requires Extends(TerminateIfOpen(b2, Br(j.cur)).blocks, p)
    requires Wf(j) && j.blocks[j.cur] == EMPTY_BLOCK && VarsOk(j, own) && Follows(b2, j, own) && Follows(s, j, own) &&
        j.nextSlot >= 1
    requires Extends(EmitJoin(j, valued, incoming).0.blocks, p)
    requires out.Val? ==> Incoming(incoming, b2.cur) == Some(x)
    ensures Agrees(p, s, c, st.Keys, EmitJoin(j, valued, incoming).0, EmitJoin(j, valued, incoming).1,
        LeaveTo(st, valued, out), fuel, n', c')
  {
    hide Extends, Grows, VarsOk, VarsKept, Run, Related, Ready, EmitJoin;
    n', c' := SimClose(p, s, own, c, st, b2, x, out, fuel, n, c2, d, j);
    if out.Val? {
      var n3, c3 := n', c';
      LeaveKeys(st, out.st);
      var n4, c4 := SimJoin(p, j, valued, incoming, x, out.v, c3, own, Leave(st, out.st), fuel);
      Finish(p, s, own, c, st, n3, j, own, c3, Leave(st, out.st), EmitJoin(j, valued, incoming).0,
          EmitJoin(j, valued, incoming).1,
             LeaveTo(st, valued, out), fuel, n4, c4);
      n', c' := n3 + n4, c4;
    }
  }

  lemma IfIncomingPicks(b2: Builder, x: Operand, b3: Builder, y: Operand)
    requires Wf(b2) && Wf(b3) && b2.cur != b3.cur
    ensures !Terminated(b2) ==> Incoming(IfIncoming(b2, x, b3, y), b2.cur) == Some(x)
    ensures !Terminated(b3) ==> Incoming(IfIncoming(b2, x, b3, y), b3.cur) == Some(y)
  {
  }

  lemma IfBelow(p: Program, e: Expr, b: Builder, own: set<string>, t: IfTrail)
    requires e.If? && IfTrailOk(e, b, own, t) && VarsOk(b, own) && Extends(EmitExpr(e, b).0.blocks, p)
    ensures Extends(t.b1.blocks, p) && Extends(t.s1.blocks, p) && Extends(t.s2.blocks, p) && Extends(t.s3.blocks, p)
    ensures Follows(t.s1, At(t.s3, t.n + 2), own) && Follows(t.b3, At(t.s3, t.n + 2), own)
  {
    hide Extends, Grows, VarsOk, VarsKept, EmitCondition, EmitBlockValue, EmitJoin, EmitExpr, IfIncoming;
    var j := At(t.s3, t.n + 2);
    var incoming := IfIncoming(t.b2, t.x, t.b3, t.y);
    JoinGrows(j, e.valued, incoming, own);
    Below(j, EmitJoin(j, e.valued, incoming).0, p, own);
    Below(t.b3, t.s3, p, own);
    Below(At(t.s2, t.n + 1), t.b3, p, own);
    Below(t.b2, t.s2, p, own);
    Below(t.s1, t.b2, p, own);
    Below(t.b1, t.s1, p, own);
    FollowsThen(t.s1, t.b2, j, own);
    FollowsMoved(t.b3, t.s3, j, own);
  }

  lemma {:induction false} SimIf(p: Program, e: Expr, b: Builder, own: set<string>, inLoop: bool, c: Config, st: Store,
                                 fuel: nat)
    returns (n: nat, c': Config)
    requires e.If?
    requires Ready(b, own, c, st) && Ok(e, st.Keys, own, inLoop) && (inLoop ==> b.breaks != [])
    requires Extends(EmitExpr(e, b).0.blocks, p)
    ensures Agrees(p, b, c, st.Keys, EmitExpr(e, b).0, EmitExpr(e, b).1, Eval(e, st, fuel), fuel, n, c')
    decreases fuel, e, 1
  {
    hide Extends, Grows, VarsOk, VarsKept, Run, Related, Agrees, Arrived, EmitCondition, EmitBlockValue, EmitJoin,
        IfIncoming, EmitExpr, BlockOk;
    var t := IfStages(e, b, st.Keys, own, inLoop);
    var j := At(t.s3, t.n + 2);
    var incoming := IfIncoming(t.b2, t.x, t.b3, t.y);
    var (r, z) := EmitJoin(j, e.valued, incoming);
    IfBelow(p, e, b, own, t);
    n, c' := SimCondition(p, e.cond, b, own, inLoop, c, st, fuel);
    var cv := Eval(e.cond, st, fuel);
    EvalKeys(e.cond, st, own, inLoop, fuel);
    if !cv.Val? {
      AgreesElsewhere(p, b, c, st.Keys, t.b1, t.c, r, z, cv, fuel, n, c');
      return;
    }
    var n1, c1 := n, c';
    ArrivedByValue(p, b, own, c, st.Keys, n1, t.b1, own, t.c, Truthed(cv), fuel, c1);
    IfIncomingPicks(t.b2, t.x, t.b3, t.y);
    if Truthy(cv.v) {
      n, c' := SimBranch(p, e.thn, b, own, inLoop, c, st, n1, t.b1, c1, cv.st, CBr(t.c, t.n, t.n + 1), t.s1, t.b2, t.x,
          j, e.valued, incoming, fuel);
    } else {
      n, c' := SimBranch(p, e.els, b, own, inLoop, c, st, n1, t.b1, c1, cv.st, CBr(t.c, t.n, t.n + 1),
          At(t.s2, t.n + 1), t.b3, t.y, j, e.valued, incoming, fuel);
    }
  }

  /** Jump into a branch, run it, and leave through the join. */
  lemma {:induction false} SimBranch(p: Program, block: Block, b: Builder, own: set<string>, inLoop: bool, c: Config,
                                     st: Store, n1: nat, b1: Builder,
                  c1: Config, st1: Store, t: Terminator, s: Builder, b2: Builder, x: Operand, j: Builder, valued: bool,
                  incoming: seq<(Operand, nat)>, fuel: nat) returns (n: nat, c': Config)
    requires Arrived(p, b, own, c, n1, b1, own, c1, st1) && st.Keys == st1.Keys <= own && VarsOk(b, own)
    requires Extends(Enter(b1, 3, t).blocks, p) && ExecTerminator(t, c1) == Jump(c1, s.cur)
    requires Wf(s) && s.blocks[s.cur] == EMPTY_BLOCK && Follows(b1, s, own) && VarsOk(s, own) && s.nextSlot >= 1 &&
        s.breaks == b.breaks
    requires BlockOk(block, st1.Keys, own, inLoop) && (inLoop ==> b.breaks != [])
    requires (b2, x) == EmitBlockValue(block, s) && Emits(s, b2, own, own, BlockDiverges(block))
    requires Extends(TerminateIfOpen(b2, Br(j.cur)).blocks, p)
    requires Wf(j) && j.blocks[j.cur] == EMPTY_BLOCK && VarsOk(j, own) && Follows(b2, j, own) && Follows(s, j, own) &&
        j.nextSlot >= 1
    requires Extends(EmitJoin(j, valued, incoming).0.blocks, p)
    requires !BlockDiverges(block) ==> Incoming(incoming, b2.cur) == Some(x)
    ensures Agrees(p, b, c, st.Keys, EmitJoin(j, valued, incoming).0, EmitJoin(j, valued, incoming).1,
                   LeaveTo(st1, valued, Exec(block, st1, fuel)), fuel, n, c')
    decreases fuel, block, 3
  {
    hide Extends, Grows, VarsOk, VarsKept, Run, Related, Agrees, Arrived, EmitBlockValue, EmitJoin, BlockOk;
    EnterArrives(p, b, own, c, n1, b1, c1, st1, 3, t, s);
    var c2 := Jumped(c1, s.cur);
    ArrivedReady(p, b, own, c, n1 + 1, s, own, c2, st1);
    CloseBelow(b2, j.cur, p, own);
    var n3, c3 := SimBlock(p, block, s, own, inLoop, c2, st1, fuel);
    var out := Exec(block, st1, fuel);
    ExecKeys(block, st1, own, inLoop, fuel);
    if BlockDiverges(block) {
      BlockDivergesNoValue(block, st1, fuel);
    }
    var n4, c4 := SimTail(p, s, own, c2, st1, b2, x, out, fuel, n3, c3, BlockDiverges(block), j, valued, incoming);
    Finish(p, b, own, c, st, n1 + 1, s, own, c2, st1, EmitJoin(j, valued, incoming).0, EmitJoin(j, valued, incoming).1,
           LeaveTo(st1, valued, out), fuel, n4, c4);
    n, c' := n1 + 1 + n4, c4;
  }

  lemma CloseBelow(b: Builder, end: nat, p: Program, own: set<string>)
    requires Wf(b) && VarsOk(b, own) && Extends(TerminateIfOpen(b, Br(end)).blocks, p)
    ensures Extends(b.blocks, p)
  {
    CloseGrows(b, Br(end), own);
    Below(b, TerminateIfOpen(b, Br(end)), p, own);
  }

  /** Does the arm apply?  None is an ill-typed comparison. */
  function Hits(pattern: Option<Value>, v: Value): Option<bool> {
    match pattern
    case None => Some(true)
    case Some(p) =>
      (match Apply(Eq, v, p)
       case None => None
       case Some(hit) => Some(Truthy(hit)))
  }

  /** Run the test of an arm up to its branch, which sits at the end of block bt.cur. */
  lemma SimTest(p: Program, pattern: Option<Value>, s: Operand, v: Value, b: Builder, own: set<string>, c: Config,
                st: Store, fuel: nat)
    returns (n: nat, bt: Builder, t: Terminator, c1: Config)
    requires Ready(b, own, c, st) && Read(s, c.temps) == Some(v) && VarsOk(b, own)
    requires Extends(EmitPattern(AppendBlocks(b, 2), pattern, s, |b.blocks|).blocks, p)
    ensures Hits(pattern, v).None? ==> pattern.Some? && Run(p, c, n) == Stuck(Failure(v, pattern.value))
    ensures Hits(pattern, v).Some? ==>
      && Arrived(p, b, own, c, n, bt, own, c1, st)
      && EmitPattern(AppendBlocks(b, 2), pattern, s, |b.blocks|) == Terminate(bt, t)
      && ExecTerminator(t, c1) == Jump(c1, if Hits(pattern, v).value then |b.blocks| else |b.blocks| + 1)
  {
    hide Extends, Grows, VarsOk, Related, Apply;
    var b0 := AppendBlocks(b, 2);
    SameBlock(b, 2, own, c, st);
    n, bt, t, c1 := 0, b0, Br(|b.blocks|), c;
    match pattern
    case None => RunNone(p, c);
    case Some(q) =>
      var (b1, x) := Compute_(b0, Eq, s, Const(q));
      AppendGrows(b0, Compute(b0.nextTemp, Eq, s, Const(q)), 1, own);
      TerminateGrows(b1, CBr(x, |b.blocks|, |b.blocks| + 1), own);
      Below(b1, Terminate(b1, CBr(x, |b.blocks|, |b.blocks| + 1)), p, own);
      n, c1 := SimCompute(p, b0, Eq, s, Const(q), v, q, c, own, st, fuel);
      bt, t := b1, CBr(x, |b.blocks|, |b.blocks| + 1);
  }

  lemma ArmBelow(p: Program, arms: Arms, s: Operand, end: nat, b: Builder, own: set<string>, vis: set<string>,
                 inLoop: bool,
                 t: ArmTrail, j: Builder)
    requires arms.Arm? && ArmTrailOk(arms, s, end, b, own, t) && b.nextSlot >= 1 && ArmsOk(arms.rest, vis, own, inLoop)
    requires inLoop ==> b.breaks != []
    requires j == At(TerminateIfOpen(EmitArms(arms, s, end, b).0, Unreachable), end) && Extends(j.blocks, p)
    ensures Extends(t.b0.blocks, p) && Extends(t.b1.blocks, p) && Extends(t.s2.blocks, p) && Extends(t.b2.blocks, p)
    ensures Follows(t.b0, At(t.b1, t.n), own) && Follows(t.b0, t.next, own)
    ensures Follows(t.b2, j, own) && Follows(t.next, j, own)
    ensures VarsOk(At(t.b1, t.n), own) && VarsOk(t.next, own)
  {
    hide Extends, Grows, VarsOk, VarsKept, EmitExpr, EmitPattern, EmitArms;
    var last := EmitArms(arms.rest, s, end, t.next).0;
    ArmsShape(arms.rest, s, end, t.next, vis, own, inLoop);
    CloseGrows(last, Unreachable, own);
    Below(last, TerminateIfOpen(last, Unreachable), p, own);
    Below(t.next, last, p, own);
    Below(t.b2, t.s2, p, own);
    Below(At(t.b1, t.n), t.b2, p, own);
    Below(t.b0, t.b1, p, own);
    FollowsMoved(t.b0, t.b1, At(t.b1, t.n), own);
    FollowsThen(At(t.b1, t.n), t.b2, t.s2, own);
    FollowsMoved(At(t.b1, t.n), t.s2, t.next, own);
    FollowsThen(t.b0, At(t.b1, t.n), t.next, own);
    FollowsThen(t.next, last, TerminateIfOpen(last, Unreachable), own);
    FollowsMoved(t.next, TerminateIfOpen(last, Unreachable), j, own);
    FollowsMoved(t.b2, t.s2, t.next, own);
    FollowsThen(t.b2, t.next, j, own);
    VarsOkMoved(t.b1, At(t.b1, t.n), own);
  }

  lemma VarsOkMoved(b: Builder, b1: Builder, own: set<string>)
    requires VarsOk(b, own) && b.vars == b1.vars && b.nextSlot == b1.nextSlot
    ensures VarsOk(b1, own)
  {
  }

  lemma {:induction false} SimArms(p: Program, arms: Arms, s: Operand, v: Value, end: nat, b: Builder, own: set<string>,
                                   inLoop: bool,
                                   j: Builder, c: Config, st: Store, fuel: nat) returns (n: nat, c': Config, x: Operand)
    requires Ready(b, own, c, st) && Read(s, c.temps) == Some(v) && OperandOk(s, b.nextTemp)
    requires ArmsOk(arms, st.Keys, own, inLoop) && (inLoop ==> b.breaks != []) && end < |b.blocks| && end != b.cur
    requires j == At(TerminateIfOpen(EmitArms(arms, s, end, b).0, Unreachable), end) && Extends(j.blocks, p)
    requires Wf(j) && j.blocks[end] == EMPTY_BLOCK && VarsOk(j, own) && j.nextSlot >= 1
    ensures Agrees(p, b, c, st.Keys, j, x, LeaveTo(st, true, Select(arms, v, st, fuel)), fuel, n, c')
    ensures Select(arms, v, st, fuel).Val? ==>
      && Incoming(EmitArms(arms, s, end, b).1, c'.prev) == Some(x) && c'.prev >= |b.blocks|
      && Ready(j, own, c', Leave(st, Select(arms, v, st, fuel).st))
    decreases fuel, arms, 1
  {
    hide Extends, Grows, VarsOk, VarsKept, Run, Related, Arrived, EmitExpr, EmitPattern, Ready, Hits, Select, Eval,
        Agrees;
    x := Const(UNIT);
    ReadyOpen(b, own, c, st);
    match arms
    case NoArms =>
      TermAt(p, b, Unreachable, c);
      n, c' := 1, c;
      StuckAgrees(p, b, c, st.Keys, j, x, NoArm, fuel, n, c');
      assert Select(arms, v, st, fuel) == Fault(NoArm) by { SelectNothing(v, st, fuel); }
    case Arm(pattern, body, rest) =>
      var t := ArmStages(arms, s, end, b, st.Keys, own, inLoop);
      ArmBelow(p, arms, s, end, b, own, st.Keys, inLoop, t, j);
      var m, bt, term, c1 := SimTest(p, pattern, s, v, b, own, c, st, fuel);
      SelectHits(arms, v, st, fuel);
      if Hits(pattern, v).None? {
        n, c' := m, c1;
        StuckAgrees(p, b, c, st.Keys, j, x, Failure(v, pattern.value), fuel, n, c');
      } else if Hits(pattern, v).value {
        n, c' := SimArmBody(p, arms, s, end, b, own, inLoop, t, j, c, st, m, bt, term, c1, fuel);
        x := t.x;
      } else {
        n, c', x := SimNextArm(p, arms, s, v, end, b, own, inLoop, t, j, c, st, m, bt, term, c1, fuel);
      }
  }

  lemma StuckAgrees(p: Program, b: Builder, c: Config, vis: set<string>, j: Builder, x: Operand, why: Why, fuel: nat,
                    n: nat, c': Config)
    requires Run(p, c, n) == Stuck(why)
    ensures Agrees(p, b, c, vis, j, x, Fault(why), fuel, n, c')
  {
  }

  lemma SelectNothing(v: Value, st: Store, fuel: nat)
    ensures Select(NoArms, v, st, fuel) == Fault(NoArm)
  {
  }

  lemma SelectHits(arms: Arms, v: Value, st: Store, fuel: nat)
    requires arms.Arm?
    ensures Select(arms, v, st, fuel) ==
      match Hits(arms.pattern, v)
      case None => if arms.pattern.Some? then Fault(Failure(v, arms.pattern.value)) else Fault(IllFormed)
      case Some(hit) => if hit then Eval(arms.body, st, fuel) else Select(arms.rest, v, st, fuel)
  {
  }

  lemma ReadyOpen(b: Builder, own: set<string>, c: Config, st: Store)
    requires Ready(b, own, c, st)
    ensures Open(b) && VarsOk(b, own) && b.nextSlot >= 1 && st.Keys <= own && Standing(b, c)
  {
  }

  /** The test ended in `term`; whatever it jumps to starts empty. */
  lemma TestJumps(p: Program, b: Builder, own: set<string>, c: Config, m: nat, bt: Builder, term: Terminator,
                  c1: Config, st: Store,
                  b0: Builder, b1: Builder, s: Builder)
    requires Arrived(p, b, own, c, m, bt, own, c1, st) && b1 == Terminate(bt, term) && Extends(b1.blocks, p)
    requires Wf(s) && s.blocks[s.cur] == EMPTY_BLOCK && ExecTerminator(term, c1) == Jump(c1, s.cur)
    requires Follows(b1, s, own) && VarsOk(s, own) && s.nextSlot >= 1
    ensures Arrived(p, b, own, c, m + 1, s, own, Jumped(c1, s.cur), st)
  {
    hide Extends, Grows, VarsOk, VarsKept, Run;
    FollowsSource(bt, b1, s, own);
    JumpArrives(p, b, own, c, m, bt, c1, st, term, s);
  }

  lemma FollowsSource(b: Builder, b1: Builder, b2: Builder, own: set<string>)
    requires Follows(b1, b2, own) && b.vars == b1.vars && b.nextTemp == b1.nextTemp
    ensures Follows(b, b2, own)
  {
  }

  lemma {:induction false} SimArmBody(p: Program, arms: Arms, s: Operand, end: nat, b: Builder, own: set<string>,
                                      inLoop: bool, t: ArmTrail,
                                      j: Builder, c: Config, st: Store, m: nat, bt: Builder, term: Terminator,
                                          c1: Config, fuel: nat)
    returns (n: nat, c': Config)
    requires arms.Arm? && ArmTrailOk(arms, s, end, b, own, t) && VarsOk(b, own) && st.Keys <= own && b.nextSlot >= 1
    requires Ok(arms.body, st.Keys, own, inLoop) && (inLoop ==> b.breaks != [])
    requires Arrived(p, b, own, c, m, bt, own, c1, st) && t.b1 == Terminate(bt, term) &&
        ExecTerminator(term, c1) == Jump(c1, t.n)
    requires Extends(t.b1.blocks, p) && Extends(t.s2.blocks, p) && Extends(t.b2.blocks, p) && VarsOk(At(t.b1, t.n), own)
    requires Wf(j) && j.cur == end && j.blocks[end] == EMPTY_BLOCK && VarsOk(j, own) && j.nextSlot >= 1 &&
        Follows(t.b2, j, own)
    ensures var out := Eval(arms.body, st, fuel);
            && Agrees(p, b, c, st.Keys, j, t.x, LeaveTo(st, true, out), fuel, n, c')
            && (out.Val? ==> c'.prev == t.b2.cur && !Terminated(t.b2) && Ready(j, own, c', Leave(st, out.st)))
    decreases fuel, arms, 0
  {
    hide Extends, Grows, VarsOk, VarsKept, Run, Related, Arrived, EmitExpr, EmitPattern, Ready, Agrees, EmitArms, Ok;
    var s0 := At(t.b1, t.n);
    FollowsNothing(t.b1, s0, own);
    TestJumps(p, b, own, c, m, bt, term, c1, st, t.b0, t.b1, s0);
    var c2 := Jumped(c1, t.n);
    ArrivedReady(p, b, own, c, m + 1, s0, own, c2, st);
    var n3, c3 := SimExpr(p, arms.body, s0, own, inLoop, c2, st, fuel);
    var out := Eval(arms.body, st, fuel);
    EvalKeys(arms.body, st, own, inLoop, fuel);
    if Diverges(arms.body) {
      DivergesNoValue(arms.body, st, fuel);
    }
    var n4, c4 := SimClose(p, s0, own, c2, st, t.b2, t.x, out, fuel, n3, c3, Diverges(arms.body), j);
    Finish(p, b, own, c, st, m + 1, s0, own, c2, st, j, t.x, LeaveTo(st, true, out), fuel, n4, c4);
    n, c' := m + 1 + n4, c4;
  }

  lemma FollowsNothing(b: Builder, b1: Builder, own: set<string>)
    requires b.vars == b1.vars && b.nextTemp == b1.nextTemp
    ensures Follows(b, b1, own)
  {
  }

  lemma {:induction false} SimNextArm(p: Program, arms: Arms, s: Operand, v: Value, end: nat, b: Builder,
                                      own: set<string>, inLoop: bool, t: ArmTrail,
                                      j: Builder, c: Config, st: Store, m: nat, bt: Builder, term: Terminator,
                                          c1: Config, fuel: nat)
    returns (n: nat, c': Config, x: Operand)
    requires arms.Arm? && ArmTrailOk(arms, s, end, b, own, t) && VarsOk(b, own) && st.Keys <= own && b.nextSlot >= 1
    requires ArmsOk(arms, st.Keys, own, inLoop) && (inLoop ==> b.breaks != []) && end < |b.blocks|
    requires OperandOk(s, b.nextTemp) && Read(s, c.temps) == Some(v)
    requires Arrived(p, b, own, c, m, bt, own, c1, st) && t.b1 == Terminate(bt, term) &&
        ExecTerminator(term, c1) == Jump(c1, t.n + 1)
    requires Extends(t.b1.blocks, p) && VarsOk(t.next, own)
    requires j == At(TerminateIfOpen(EmitArms(arms, s, end, b).0, Unreachable), end) && Extends(j.blocks, p)
    requires Wf(j) && j.blocks[end] == EMPTY_BLOCK && VarsOk(j, own) && j.nextSlot >= 1
    ensures var out := Select(arms.rest, v, st, fuel);
            && Agrees(p, b, c, st.Keys, j, x, LeaveTo(st, true, out), fuel, n, c')
            && (out.Val? ==> && Incoming(EmitArms(arms, s, end, b).1, c'.prev) == Some(x) && c'.prev >= |b.blocks|
                             && Ready(j, own, c', Leave(st, out.st)))
    decreases fuel, arms, 0
  {
    hide Extends, Grows, VarsOk, VarsKept, Run, Related, Arrived, EmitExpr, EmitPattern, Ready, Agrees, EmitArms;
    NextFollows(t, own);
    TestJumps(p, b, own, c, m, bt, term, c1, st, t.b0, t.b1, t.next);
    var c2 := Jumped(c1, t.n + 1);
    ArrivedReady(p, b, own, c, m + 1, t.next, own, c2, st);
    StillReads(p, b, own, c, m + 1, t.next, own, c2, st, s, v);
    var n3, c3, y := SimArms(p, arms.rest, s, v, end, t.next, own, inLoop, j, c2, st, fuel);
    var out := Select(arms.rest, v, st, fuel);
    Finish(p, b, own, c, st, m + 1, t.next, own, c2, st, j, y, LeaveTo(st, true, out), fuel, n3, c3);
    n, c', x := m + 1 + n3, c3, y;
    if out.Val? {
      LaterIncoming(if Terminated(t.b2) then [] else [(t.x, t.b2.cur)], EmitArms(arms.rest, s, end, t.next).1, t.b2.cur,
          c3.prev);
    }
  }

  lemma NextFollows(t: ArmTrail, own: set<string>)
    requires VarsKept(t.b1, t.next, own) && t.b1.nextTemp <= t.next.nextTemp
    ensures Follows(t.b1, t.next, own)
  {
  }

  lemma LaterIncoming(first: seq<(Operand, nat)>, rest: seq<(Operand, nat)>, block: nat, prev: nat)
    requires first == [] || (|first| == 1 && first[0].1 == block)
    requires prev != block
    ensures Incoming(first + rest, prev) == Incoming(rest, prev)
  {
    if first != [] {
      assert (first + rest)[1..] == rest;
    } else {
      assert first + rest == rest;
    }
  }

  lemma {:induction false} SimMatch(p: Program, e: Expr, b: Builder, own: set<string>, inLoop: bool, c: Config,
                                    st: Store, fuel: nat)
    returns (n: nat, c': Config)
    requires e.Match?
    requires Ready(b, own, c, st) && Ok(e, st.Keys, own, inLoop) && (inLoop ==> b.breaks != [])
    requires Extends(EmitExpr(e, b).0.blocks, p)
    ensures Agrees(p, b, c, st.Keys, EmitExpr(e, b).0, EmitExpr(e, b).1, Eval(e, st, fuel), fuel, n, c')
    decreases fuel, e, 1
  {
    hide Extends, Grows, VarsOk, VarsKept, Run, Related, Arrived, Agrees, EmitArms, EmitJoin, ArmsOk, Ready;
    ReadyOpen(b, own, c, st);
    var t := MatchStages(e, b, st.Keys, own, inLoop);
    var (r, z) := EmitJoin(t.j, e.valued, t.incoming);
    JoinGrows(t.j, e.valued, t.incoming, own);
    Below(t.j, r, p, own);
    Below(t.b2, TerminateIfOpen(t.b2, Unreachable), p, own);
    Below(t.b1', t.b2, p, own);
    Below(t.b1, t.b1', p, own);
    n, c' := SimExpr(p, e.scrutinee, b, own, inLoop, c, st, fuel);
    var sv := Eval(e.scrutinee, st, fuel);
    EvalKeys(e.scrutinee, st, own, inLoop, fuel);
    if !sv.Val? {
      AgreesElsewhere(p, b, c, st.Keys, t.b1, t.s, r, z, sv, fuel, n, c');
      return;
    }
    var n1, c1 := n, c';
    ArrivedByValue(p, b, own, c, st.Keys, n1, t.b1, own, t.s, sv, fuel, c1);
    ArrivedReady(p, b, own, c, n1, t.b1, own, c1, sv.st);
    FollowsMoved(b, t.b1, t.b1', own);
    SameBlock(t.b1, 1, own, c1, sv.st);
    ArrivedSame(p, b, own, c, n1, t.b1, t.b1', own, c1, sv.st);
    var n2, c2, x := SimArms(p, e.arms, t.s, sv.v, t.end, t.b1', own, inLoop, t.j, c1, sv.st, fuel);
    var out := Select(e.arms, sv.v, sv.st, fuel);
    SelectKeys(e.arms, sv.v, sv.st, own, inLoop, fuel);
    n, c' := MatchEnds(p, b, own, c, st, n1, t.b1', t.j, t.incoming, c1, sv.st, out, x, n2, c2, e.valued, fuel);
  }

  lemma ArrivedSame(p: Program, b: Builder, own: set<string>, c: Config, n: nat, b1: Builder, b2: Builder,
                    own1: set<string>, c1: Config, st1: Store)
    requires Arrived(p, b, own, c, n, b1, own1, c1, st1) && Follows(b, b2, own) && Ready(b2, own1, c1, st1)
    ensures Arrived(p, b, own, c, n, b2, own1, c1, st1)
  {
  }

  /** After the arms: the join gives the match its value. */
  lemma MatchEnds(p: Program, b: Builder, own: set<string>, c: Config, st: Store, n1: nat, b1: Builder, j: Builder,
                  incoming: seq<(Operand, nat)>, c1: Config, st1: Store, out: Outcome, x: Operand, n2: nat, c2: Config,
                  valued: bool, fuel: nat) returns (n: nat, c': Config)
    requires Arrived(p, b, own, c, n1, b1, own, c1, st1) && VarsOk(b, own) && st.Keys == st1.Keys <= own &&
        b.breaks == b1.breaks
    requires Agrees(p, b1, c1, st1.Keys, j, x, LeaveTo(st1, true, out), fuel, n2, c2) && VarsOk(b1, own)
    requires Wf(j) && Follows(b1, j, own) && Extends(EmitJoin(j, valued, incoming).0.blocks, p)
    requires out.Val? ==>
        Incoming(incoming, c2.prev) == Some(x) && Ready(j, own, c2, Leave(st1, out.st)) && st1.Keys <= out.st.Keys
    ensures Agrees(p, b, c, st.Keys, EmitJoin(j, valued, incoming).0, EmitJoin(j, valued, incoming).1,
        LeaveTo(st1, valued, out), fuel, n, c')
  {
    hide Extends, Grows, VarsOk, VarsKept, Run, Related, Ready, EmitJoin;
    var (r, z) := EmitJoin(j, valued, incoming);
    var n3, c3 := n2, c2;
    if out.Val? {
      LeaveKeys(st1, out.st);
      var n4, c4 := SimJoin(p, j, valued, incoming, x, out.v, c2, own, Leave(st1, out.st), fuel);
      Finish(p, b1, own, c1, st1, n2, j, own, c2, Leave(st1, out.st), r, z, LeaveTo(st1, valued, out), fuel, n4, c4);
      n3, c3 := n2 + n4, c4;
    }
    Finish(p, b, own, c, st, n1, b1, own, c1, st1, r, z, LeaveTo(st1, valued, out), fuel, n3, c3);
    n, c' := n1 + n3, c3;
  }

  // ----- blocks and statements -------------------------------------------------------------------------

  /** The value a statement leaves for emit_block_value. */
  function StmtOperand(s: Stmt, b: Builder): Operand
    requires Wf(b)
  {
    if s.Do? then EmitExpr(s.e, b).1 else Const(UNIT)
  }

  lemma {:induction false} SimBlock(p: Program, block: Block, b: Builder, own: set<string>, inLoop: bool, c: Config,
                                    st: Store, fuel: nat)
    returns (n: nat, c': Config)
    requires Ready(b, own, c, st) && BlockOk(block, st.Keys, own, inLoop) && (inLoop ==> b.breaks != [])
    requires Extends(EmitBlockValue(block, b).0.blocks, p)
    ensures Agrees(p, b, c, st.Keys, EmitBlockValue(block, b).0, EmitBlockValue(block, b).1, Exec(block, st, fuel),
        fuel, n, c')
    decreases fuel, block, 2
  {
    hide Extends, Grows, VarsOk, VarsKept, Run, Related, EmitStmt, Step;
    match block
    case End => n, c' := 0, c; RunNone(p, c);
    case Then(s, rest) =>
      ReadyOpen(b, own, c, st);
      if rest.End? {
        LastStmt(s, b);
        n, c' := SimStmt(p, s, b, own, inLoop, c, st, fuel);
      } else {
        n, c' := SimRest(p, s, rest, b, own, inLoop, c, st, fuel);
      }
  }

  lemma LastStmt(s: Stmt, b: Builder)
    requires Wf(b)
    ensures EmitBlockValue(Then(s, End), b) == (EmitStmt(s, b), StmtOperand(s, b))
  {
  }

  lemma {:induction false} SimRest(p: Program, s: Stmt, rest: Block, b: Builder, own: set<string>, inLoop: bool,
                                   c: Config, st: Store, fuel: nat)
    returns (n: nat, c': Config)
    requires rest.Then? && Ready(b, own, c, st) && BlockOk(Then(s, rest), st.Keys, own, inLoop) &&
        (inLoop ==> b.breaks != [])
    requires Extends(EmitBlockValue(rest, EmitStmt(s, b)).0.blocks, p)
    ensures Agrees(p, b, c, st.Keys, EmitBlockValue(rest, EmitStmt(s, b)).0, EmitBlockValue(rest, EmitStmt(s, b)).1,
                   Exec(Then(s, rest), st, fuel), fuel, n, c')
    decreases fuel, Then(s, rest), 1
  {
    hide Extends, Grows, VarsOk, VarsKept, Run, Related, EmitStmt, Step, EmitBlockValue, Agrees, Arrived, StmtOk;
    var own1 := own + Declares(s);
    var b1 := EmitStmt(s, b);
    var (r, z) := EmitBlockValue(rest, b1);
    ReadyOpen(b, own, c, st);
    StmtShape(s, b, st.Keys, own, inLoop);
    BlockValueShape(rest, b1, st.Keys + Declares(s), own1, inLoop);
    Below(b1, r, p, own1);
    n, c' := SimStmt(p, s, b, own, inLoop, c, st, fuel);
    var out := Step(s, st, fuel);
    StepKeys(s, st, own, inLoop, fuel);
    if !out.Val? {
      AgreesElsewhere(p, b, c, st.Keys, b1, StmtOperand(s, b), r, z, out, fuel, n, c');
      return;
    }
    ArrivedByValue(p, b, own, c, st.Keys, n, b1, own1, StmtOperand(s, b), out, fuel, c');
    ArrivedReady(p, b, own, c, n, b1, own1, c', out.st);
    var n2, c2 := SimBlock(p, rest, b1, own1, inLoop, c', out.st, fuel);
    Finish(p, b, own, c, st, n, b1, own1, c', out.st, r, z, Exec(rest, out.st, fuel), fuel, n2, c2);
    n, c' := n + n2, c2;
  }

  function Stored(c: Config, slot: nat, v: Value): Config {
    c.(pc := c.pc + 1, slots := c.slots[slot := v])
  }

  /** Storing into a variable's slot changes that variable and no other. */
  lemma SimStore(p: Program, b: Builder, own: set<string>, c: Config, st: Store, x: string, y: Operand, v: Value,
                 fuel: nat)
    requires Ready(b, own, c, st) && x in own && Read(y, c.temps) == Some(v)
    requires x in b.vars && Extends(Append(b, StoreTo(b.vars[x], y)).blocks, p)
    ensures Agrees(p, b, c, st.Keys, Append(b, StoreTo(b.vars[x], y)), Const(UNIT), Val(UNIT, st[x := v]), fuel, 1,
        Stored(c, b.vars[x], v))
    ensures Ready(Append(b, StoreTo(b.vars[x], y)), own, Stored(c, b.vars[x], v), st[x := v])
  {
    hide Extends;
    StepAt(p, b, StoreTo(b.vars[x], y), c);
  }

  lemma SlotKept(b: Builder, b1: Builder, own: set<string>, x: string)
    requires VarsKept(b, b1, own) && VarsOk(b, own) && x in own
    ensures x in b.vars && x in b1.vars && b.vars[x] == b1.vars[x] == SlotOf(b, x)
  {
  }

  lemma {:induction false} SimStmt(p: Program, s: Stmt, b: Builder, own: set<string>, inLoop: bool, c: Config,
                                   st: Store, fuel: nat)
    returns (n: nat, c': Config)
    requires Ready(b, own, c, st) && StmtOk(s, st.Keys, own, inLoop) && (inLoop ==> b.breaks != [])
    requires Extends(EmitStmt(s, b).blocks, p)
    ensures Agrees(p, b, c, st.Keys, EmitStmt(s, b), StmtOperand(s, b), Step(s, st, fuel), fuel, n, c')
    decreases fuel, s, 3
  {
    hide Extends, Grows, VarsOk, VarsKept, Run, Related, Agrees, Ready, EmitExpr, Eval, Ok, EmitCount, Count;
    match s
    case Let(x, e) => n, c' := SimLet(p, x, e, b, own, inLoop, c, st, fuel);
    case Assign(x, e) => n, c' := SimAssign(p, x, e, b, own, inLoop, c, st, fuel);
    case AssignOp(x, op, e) => n, c' := SimAssignOp(p, x, op, e, b, own, inLoop, c, st, fuel);
    case Do(e) => n, c' := SimExpr(p, e, b, own, inLoop, c, st, fuel);
    case For(cond, body) => n, c' := SimFor(p, cond, body, b, own, inLoop, c, st, fuel);
    case ForRange(i, lo, hi, body) => n, c' := SimForRange(p, i, lo, hi, body, b, own, inLoop, c, st, fuel);
    case Break => n, c' := SimBreak(p, b, own, c, st, fuel);
    case Ret(result) => n, c' := SimRet(p, result, b, own, inLoop, c, st, fuel);
  }

  lemma SimBreak(p: Program, b: Builder, own: set<string>, c: Config, st: Store, fuel: nat) returns (n: nat, c': Config)
    requires Ready(b, own, c, st) && b.breaks != [] && Extends(EmitStmt(Break, b).blocks, p)
    ensures Agrees(p, b, c, st.Keys, EmitStmt(Break, b), Const(UNIT), Broke(st), fuel, n, c')
  {
    hide Extends;
    TermAt(p, b, Br(b.breaks[|b.breaks| - 1]), c);
    n, c' := 1, Jumped(c, b.breaks[|b.breaks| - 1]);
    assert Visible(st, st.Keys) == st;
  }

  lemma {:induction false} SimLet(p: Program, x: string, e: Expr, b: Builder, own: set<string>, inLoop: bool, c: Config,
                                  st: Store, fuel: nat)
    returns (n: nat, c': Config)
    requires Ready(b, own, c, st) && StmtOk(Let(x, e), st.Keys, own, inLoop) && (inLoop ==> b.breaks != [])
    requires Extends(EmitStmt(Let(x, e), b).blocks, p)
    ensures Agrees(p, b, c, st.Keys, EmitStmt(Let(x, e), b), Const(UNIT), Step(Let(x, e), st, fuel), fuel, n, c')
    decreases fuel, Let(x, e), 0
  {
    hide Extends, Grows, VarsOk, VarsKept, Run, Related, Agrees, Ready, Arrived, EmitExpr, Eval, Ok;
    ReadyOpen(b, own, c, st);
    var own1 := own + {x};
    var b0 := Declare(b, x);
    DeclareArrives(p, b, own, c, st, x);
    var (b1, y) := EmitExpr(e, b0);
    var r := Append(b1, StoreTo(b.nextSlot, y));
    ExprShape(e, b0, st.Keys, own1, inLoop);
    AppendGrows(b1, StoreTo(b.nextSlot, y), 0, own1);
    Below(b1, r, p, own1);
    var n1, c1 := SimExpr(p, e, b0, own1, inLoop, c, st, fuel);
    var out := Eval(e, st, fuel);
    EvalKeys(e, st, own1, inLoop, fuel);
    var n2, c2 := n1, c1;
    if out.Val? {
      ArrivedByValue(p, b0, own1, c, st.Keys, n1, b1, own1, y, out, fuel, c1);
      ArrivedReady(p, b0, own1, c, n1, b1, own1, c1, out.st);
      SlotKept(b0, b1, own1, x);
      SimStore(p, b1, own1, c1, out.st, x, y, out.v, fuel);
      Finish(p, b0, own1, c, st, n1, b1, own1, c1, out.st, r, Const(UNIT), Step(Let(x, e), st, fuel), fuel, 1,
          Stored(c1, b.nextSlot, out.v));
      n2, c2 := n1 + 1, Stored(c1, b.nextSlot, out.v);
    } else {
      AgreesElsewhere(p, b0, c, st.Keys, b1, y, r, Const(UNIT), out, fuel, n1, c1);
    }
    Finish(p, b, own, c, st, 0, b0, own1, c, st, r, Const(UNIT), Step(Let(x, e), st, fuel), fuel, n2, c2);
    n, c' := n2, c2;
  }

  /** Binding a fresh name to a fresh slot runs nothing. */
  lemma DeclareArrives(p: Program, b: Builder, own: set<string>, c: Config, st: Store, x: string)
    requires Ready(b, own, c, st) && x !in own
    ensures Arrived(p, b, own, c, 0, Declare(b, x), own + {x}, c, st)
    ensures Ready(Declare(b, x), own + {x}, c, st) && VarsOk(Declare(b, x), own + {x})
    ensures Declare(b, x).vars[x] == b.nextSlot
  {
    hide Extends;
    RunNone(p, c);
  }

  lemma {:induction false} SimAssign(p: Program, x: string, e: Expr, b: Builder, own: set<string>, inLoop: bool,
                                     c: Config, st: Store, fuel: nat)
    returns (n: nat, c': Config)
    requires Ready(b, own, c, st) && StmtOk(Assign(x, e), st.Keys, own, inLoop) && (inLoop ==> b.breaks != [])
    requires Extends(EmitStmt(Assign(x, e), b).blocks, p)
    ensures Agrees(p, b, c, st.Keys, EmitStmt(Assign(x, e), b), Const(UNIT), Step(Assign(x, e), st, fuel), fuel, n, c')
    decreases fuel, Assign(x, e), 0
  {
    hide Extends, Grows, VarsOk, VarsKept, Run, Related, Agrees, Ready, Arrived, EmitExpr, Eval, Ok;
    ReadyOpen(b, own, c, st);
    var (b1, y) := EmitExpr(e, b);
    var r := Append(b1, StoreTo(SlotOf(b, x), y));
    ExprShape(e, b, st.Keys, own, inLoop);
    AppendGrows(b1, StoreTo(SlotOf(b, x), y), 0, own);
    Below(b1, r, p, own);
    n, c' := SimExpr(p, e, b, own, inLoop, c, st, fuel);
    var out := Eval(e, st, fuel);
    EvalKeys(e, st, own, inLoop, fuel);
    if out.Val? {
      ArrivedByValue(p, b, own, c, st.Keys, n, b1, own, y, out, fuel, c');
      ArrivedReady(p, b, own, c, n, b1, own, c', out.st);
      SlotKept(b, b1, own, x);
      SimStore(p, b1, own, c', out.st, x, y, out.v, fuel);
      Finish(p, b, own, c, st, n, b1, own, c', out.st, r, Const(UNIT), Step(Assign(x, e), st, fuel), fuel, 1,
          Stored(c', b1.vars[x], out.v));
      n, c' := n + 1, Stored(c', b1.vars[x], out.v);
    } else {
      AgreesElsewhere(p, b, c, st.Keys, b1, y, r, Const(UNIT), out, fuel, n, c');
    }
  }

  lemma {:induction false} SimAssignOp(p: Program, x: string, op: Op, e: Expr, b: Builder, own: set<string>,
                                       inLoop: bool, c: Config, st: Store, fuel: nat)
    returns (n: nat, c': Config)
    requires Ready(b, own, c, st) && StmtOk(AssignOp(x, op, e), st.Keys, own, inLoop) && (inLoop ==> b.breaks != [])
    requires Extends(EmitStmt(AssignOp(x, op, e), b).blocks, p)
    ensures Agrees(p, b, c, st.Keys, EmitStmt(AssignOp(x, op, e), b), Const(UNIT), Step(AssignOp(x, op, e), st, fuel),
        fuel, n, c')
    decreases fuel, AssignOp(x, op, e), 0
  {
    hide Extends, Grows, VarsOk, VarsKept, Run, Related, Agrees, Ready, Arrived, EmitExpr, EmitBinary, Eval, Ok, Apply;
    ReadyOpen(b, own, c, st);
    var slot := SlotOf(b, x);
    var (b1, y) := EmitExpr(e, b);
    var (b2, z) := Load_(b1, slot);
    var (b3, w) := EmitBinary(b2, op, z, y);
    var r := Append(b3, StoreTo(slot, w));
    ExprShape(e, b, st.Keys, own, inLoop);
    AppendGrows(b1, Load(b1.nextTemp, slot), 1, own);
    BinaryGrows(b2, op, z, y, own);
    AppendGrows(b3, StoreTo(slot, w), 0, own);
    Below(b3, r, p, own);
    Below(b2, b3, p, own);
    Below(b1, b2, p, own);
    n, c' := SimExpr(p, e, b, own, inLoop, c, st, fuel);
    var out := Eval(e, st, fuel);
    EvalKeys(e, st, own, inLoop, fuel);
    if !out.Val? {
      AgreesElsewhere(p, b, c, st.Keys, b1, y, r, Const(UNIT), out, fuel, n, c');
      return;
    }
    var n1, c1 := n, c';
    ArrivedByValue(p, b, own, c, st.Keys, n1, b1, own, y, out, fuel, c1);
    ArrivedReady(p, b, own, c, n1, b1, own, c1, out.st);
    SlotKept(b, b1, own, x);
    SlotKept(b1, b2, own, x);
    SlotKept(b2, b3, own, x);
    var c2 := SimLoad(p, b1, own, c1, out.st, x);
    ArrivedThen(p, b, own, c, n1, b1, own, c1, out.st, 1, b2, own, c2, out.st);
    StillReads(p, b1, own, c1, 1, b2, own, c2, out.st, y, out.v);
    var n3, c3 := SimUpdate(p, b2, own, c2, out.st, x, op, z, y, out.st[x], out.v, fuel);
    Finish(p, b, own, c, st, n1 + 1, b2, own, c2, out.st, r, Const(UNIT), Step(AssignOp(x, op, e), st, fuel), fuel, n3,
        c3);
    n, c' := n1 + 1 + n3, c3;
  }

  /** Load a variable into the next temporary. */
  lemma SimLoad(p: Program, b: Builder, own: set<string>, c: Config, st: Store, x: string) returns (c': Config)
    requires Ready(b, own, c, st) && x in st && x in b.vars && Extends(Load_(b, b.vars[x]).0.blocks, p)
    ensures Arrived(p, b, own, c, 1, Load_(b, b.vars[x]).0, own, c', st) && Ready(Load_(b, b.vars[x]).0, own, c', st)
    ensures Read(Load_(b, b.vars[x]).1, c'.temps) == Some(st[x])
  {
    hide Extends, VarsOk;
    SlotRelated(b, own, st, c.slots, x);
    SimDefine(p, b, Load(b.nextTemp, b.vars[x]), st[x], c, own, st);
    c' := Defined(c, b.nextTemp, st[x]);
    LoadFollows(b, b.vars[x], own);
  }

  lemma LoadFollows(b: Builder, slot: nat, own: set<string>)
    requires Wf(b)
    ensures Follows(b, Load_(b, slot).0, own)
  {
  }

  function UpdateOutcome(st: Store, x: string, op: Op, a: Value, v: Value): Outcome {
    match Apply(op, a, v)
    case Some(w) => Val(UNIT, st[x := w])
    case None => Fault(Failure(a, v))
  }

  /** Combine two operands and store the result in a variable. */
  lemma SimUpdate(p: Program, b: Builder, own: set<string>, c: Config, st: Store, x: string, op: Op, z: Operand,
                  y: Operand,
                  a: Value, v: Value, fuel: nat) returns (n: nat, c': Config)
    requires Ready(b, own, c, st) && x in own && x in b.vars && Read(z, c.temps) == Some(a) &&
        Read(y, c.temps) == Some(v)
    requires OperandOk(y, b.nextTemp) && VarsOk(b, own)
    requires Extends(Append(EmitBinary(b, op, z, y).0, StoreTo(b.vars[x], EmitBinary(b, op, z, y).1)).blocks, p)
    ensures Agrees(p, b, c, st.Keys, Append(EmitBinary(b, op, z, y).0, StoreTo(b.vars[x], EmitBinary(b, op, z, y).1)),
        Const(UNIT),
                   UpdateOutcome(st, x, op, a, v), fuel, n, c')
  {
    hide Extends, Grows, VarsOk, VarsKept, Run, Related, Agrees, Ready, Arrived, EmitBinary, Apply;
    ReadyOpen(b, own, c, st);
    var (b1, w) := EmitBinary(b, op, z, y);
    var r := Append(b1, StoreTo(b.vars[x], w));
    BinaryGrows(b, op, z, y, own);
    AppendGrows(b1, StoreTo(b.vars[x], w), 0, own);
    Below(b1, r, p, own);
    n, c' := SimBinary(p, b, op, z, y, a, v, c, own, st, fuel);
    var out := BinaryOutcome(op, a, v, st);
    if out.Val? {
      ArrivedByValue(p, b, own, c, st.Keys, n, b1, own, w, out, fuel, c');
      SlotKept(b, b1, own, x);
      SimStore(p, b1, own, c', st, x, w, out.v, fuel);
      Finish(p, b, own, c, st, n, b1, own, c', st, r, Const(UNIT), UpdateOutcome(st, x, op, a, v), fuel, 1,
          Stored(c', b1.vars[x], out.v));
      n, c' := n + 1, Stored(c', b1.vars[x], out.v);
    } else {
      AgreesElsewhere(p, b, c, st.Keys, b1, w, r, Const(UNIT), out, fuel, n, c');
    }
  }

  lemma {:induction false} SimRet(p: Program, result: Option<Expr>, b: Builder, own: set<string>, inLoop: bool,
                                  c: Config, st: Store, fuel: nat)
    returns (n: nat, c': Config)
    requires Ready(b, own, c, st) && StmtOk(Ret(result), st.Keys, own, inLoop) && (inLoop ==> b.breaks != [])
    requires Extends(EmitStmt(Ret(result), b).blocks, p)
    ensures Agrees(p, b, c, st.Keys, EmitStmt(Ret(result), b), Const(UNIT), Step(Ret(result), st, fuel), fuel, n, c')
    decreases fuel, Ret(result), 0
  {
    hide Extends, Grows, VarsOk, VarsKept, Run, Related, Ready, Arrived, EmitExpr, Eval, Ok, Agrees;
    ReadyOpen(b, own, c, st);
    match result
    case None =>
      TermAt(p, b, RetVoid, c);
      n, c' := 1, c;
      ReturnedAgrees(p, b, c, st.Keys, EmitStmt(Ret(result), b), None, fuel, n, c');
    case Some(e) =>
      var (b1, y) := EmitExpr(e, b);
      var b2 := Append(b1, StoreTo(RETURN_SLOT, y));
      var (b3, w) := Load_(b2, RETURN_SLOT);
      var r := Terminate(b3, RetValue(w));
      ExprShape(e, b, st.Keys, own, inLoop);
      AppendGrows(b1, StoreTo(RETURN_SLOT, y), 0, own);
      AppendGrows(b2, Load(b2.nextTemp, RETURN_SLOT), 1, own);
      TerminateGrows(b3, RetValue(w), own);
      Below(b3, r, p, own);
      Below(b2, b3, p, own);
      Below(b1, b2, p, own);
      n, c' := SimExpr(p, e, b, own, inLoop, c, st, fuel);
      var out := Eval(e, st, fuel);
      EvalKeys(e, st, own, inLoop, fuel);
      if out.Val? {
        ArrivedByValue(p, b, own, c, st.Keys, n, b1, own, y, out, fuel, c');
        var c1 := c';
        SimReturn(p, b1, own, c1, out.st, y, out.v);
        ReturnedAgrees(p, b1, c1, out.st.Keys, r, Some(out.v), fuel, 3, c');
        Finish(p, b, own, c, st, n, b1, own, c1, out.st, r, Const(UNIT), Returned(Some(out.v)), fuel, 3, c');
        n := n + 3;
      } else {
        AgreesElsewhere(p, b, c, st.Keys, b1, y, r, Const(UNIT), out, fuel, n, c');
      }
  }

  lemma ReturnedAgrees(p: Program, b: Builder, c: Config, vis: set<string>, r: Builder, v: Option<Value>, fuel: nat,
                       n: nat, c': Config)
    requires Run(p, c, n) == Done(v)
    ensures Agrees(p, b, c, vis, r, Const(UNIT), Returned(v), fuel, n, c')
  {
  }

  /** Through the return slot and out. */
  lemma SimReturn(p: Program, b: Builder, own: set<string>, c: Config, st: Store, y: Operand, v: Value)
    requires Ready(b, own, c, st) && Read(y, c.temps) == Some(v)
    requires var b2 := Append(b, StoreTo(RETURN_SLOT, y));
             var (b3, w) := Load_(b2, RETURN_SLOT);
             Extends(b2.blocks, p) && Extends(b3.blocks, p) && Extends(Terminate(b3, RetValue(w)).blocks, p)
    ensures Run(p, c, 3) == Done(Some(v))
  {
    hide Extends, VarsOk, Related;
    var b2 := Append(b, StoreTo(RETURN_SLOT, y));
    var (b3, w) := Load_(b2, RETURN_SLOT);
    StepAt(p, b, StoreTo(RETURN_SLOT, y), c);
    var c1 := Stored(c, RETURN_SLOT, v);
    StepAt(p, b2, Load(b2.nextTemp, RETURN_SLOT), c1);
    var c2 := Defined(c1, b2.nextTemp, v);
    TermAt(p, b3, RetValue(w), c2);
    RunAdd(p, c, 1, c1, 1);
    RunAdd(p, c, 2, c2, 1);
  }

  // ----- loops ------------------------------------------------------------------------------------------

  lemma ArrivedAgrees(p: Program, b: Builder, own: set<string>, c: Config, n: nat, b1: Builder, own1: set<string>,
                      c1: Config, st1: Store,
                      vis: set<string>, fuel: nat)
    requires Arrived(p, b, own, c, n, b1, own1, c1, st1)
    ensures Agrees(p, b, c, vis, b1, Const(UNIT), Val(UNIT, st1), fuel, n, c1)
  {
  }

  lemma LoopBelow(p: Program, body: Block, b: Builder, own: set<string>, t: LoopTrail)
    requires LoopTrailOk(body, b, own, t) && Extends(t.exit.blocks, p)
    ensures Extends(t.s4.blocks, p) && Extends(t.b4.blocks, p) && Extends(t.s2.blocks, p) && Extends(t.b2.blocks, p) &&
        Extends(t.b1.blocks, p)
    ensures Follows(t.b2, t.b3, own) && Follows(t.b2, t.exit, own) && VarsKept(t.b4, t.b1, own) &&
        VarsKept(t.b3, t.exit, own)
    ensures VarsOk(t.b1, own) && VarsOk(t.exit, own)
  {
    hide Extends, Grows, VarsOk, VarsKept, EmitBlock, EmitBlockValue;
    Below(t.b4, t.s4, p, own);
    Below(t.b3, t.b4, p, own);
    Below(t.b2, t.s2, p, own);
    Below(t.b1, t.b2, p, own);
    FollowsMoved(t.b2, t.s2, t.b3, own);
    FollowsThen(t.b2, t.b3, t.b4, own);
    FollowsThen(t.b3, t.b4, t.exit, own);
    FollowsThen(t.b2, t.b4, t.exit, own);
    FollowsThen(t.b1, t.b2, t.b3, own);
    FollowsThen(t.b1, t.b3, t.b4, own);
    KeptBack(t.b1, t.b4, own);
  }

  lemma KeptBack(b: Builder, b1: Builder, own: set<string>)
    requires VarsKept(b, b1, own) && VarsOk(b, own)
    ensures VarsKept(b1, b, own)
  {
  }

  lemma {:induction false} SimFor(p: Program, cond: Expr, body: Block, b: Builder, own: set<string>, inLoop: bool,
                                  c: Config, st: Store, fuel: nat)
    returns (n: nat, c': Config)
    requires Ready(b, own, c, st) && StmtOk(For(cond, body), st.Keys, own, inLoop) && (inLoop ==> b.breaks != [])
    requires Extends(EmitStmt(For(cond, body), b).blocks, p)
    ensures Agrees(p, b, c, st.Keys, EmitStmt(For(cond, body), b), Const(UNIT), Step(For(cond, body), st, fuel), fuel,
        n, c')
    decreases fuel, For(cond, body), 2
  {
    hide Extends, Grows, VarsOk, VarsKept, Run, Related, Agrees, Ready, Arrived, EmitStmt, Step, EmitBlock,
        EmitBlockValue, StmtOk;
    ReadyOpen(b, own, c, st);
    var t := ForStages(cond, body, b, st.Keys, own, inLoop);
    LoopBelow(p, body, b, own, t);
    LoopEntered(p, b, own, c, st, t, body);
    var c1 := Jumped(c, t.n);
    var n2, c2 := SimLoop(p, cond, body, b, own, inLoop, t, c1, st, fuel);
    Finish(p, b, own, c, st, 1, t.b1, own, c1, st, t.exit, Const(UNIT), Step(For(cond, body), st, fuel), fuel, n2, c2);
    n, c' := 1 + n2, c2;
  }

  lemma LoopEntered(p: Program, b: Builder, own: set<string>, c: Config, st: Store, t: LoopTrail, body: Block)
    requires Ready(b, own, c, st) && LoopTrailOk(body, b, own, t) && Extends(t.b1.blocks, p) && VarsOk(t.b1, own)
    ensures Arrived(p, b, own, c, 1, t.b1, own, Jumped(c, t.n), st) && Ready(t.b1, own, Jumped(c, t.n), st)
  {
    hide Extends, Grows, VarsOk, VarsKept, Related, EmitBlock, EmitBlockValue;
    RunNone(p, c);
    FollowsNothing(b, b, own);
    EnterArrives(p, b, own, c, 0, b, c, st, 3, Br(t.n), t.b1);
  }

  lemma {:induction false} SimLoop(p: Program, cond: Expr, body: Block, b: Builder, own: set<string>, inLoop: bool,
                                   t: LoopTrail, c: Config, st: Store, fuel: nat)
    returns (n: nat, c': Config)
    requires Ready(t.b1, own, c, st) && StmtOk(For(cond, body), st.Keys, own, inLoop) && (inLoop ==> b.breaks != [])
    requires LoopTrailOk(body, b, own, t) && (t.b2, t.c) == EmitCondition(cond, t.b1) &&
        t.s4 == TerminateIfOpen(t.b4, Br(t.n))
    requires Extends(t.exit.blocks, p)
    ensures Agrees(p, t.b1, c, st.Keys, t.exit, Const(UNIT), Step(For(cond, body), st, fuel), fuel, n, c')
    decreases fuel, For(cond, body), 1
  {
    hide Extends, Grows, VarsOk, VarsKept, Run, Related, Agrees, Ready, Arrived, EmitCondition, EmitBlock,
        EmitBlockValue, BlockOk;
    LoopBelow(p, body, b, own, t);
    ReadyOpen(t.b1, own, c, st);
    if fuel == 0 {
      n, c' := 0, c;
      TimedOut(p, t.b1, c, st.Keys, t.exit);
      return;
    }
    n, c' := SimCondition(p, cond, t.b1, own, inLoop, c, st, fuel);
    var cv := Eval(cond, st, fuel);
    EvalKeys(cond, st, own, inLoop, fuel);
    if !cv.Val? {
      AgreesElsewhere(p, t.b1, c, st.Keys, t.b2, t.c, t.exit, Const(UNIT), cv, fuel, n, c');
      return;
    }
    var n1, c1 := n, c';
    ArrivedByValue(p, t.b1, own, c, st.Keys, n1, t.b2, own, t.c, Truthed(cv), fuel, c1);
    if !Truthy(cv.v) {
      JumpArrives(p, t.b1, own, c, n1, t.b2, c1, cv.st, CBr(t.c, t.n + 1, t.n + 2), t.exit);
      n, c' := n1 + 1, Jumped(c1, t.n + 2);
      ArrivedAgrees(p, t.b1, own, c, n, t.exit, own, c', cv.st, st.Keys, fuel);
      return;
    }
    JumpArrives(p, t.b1, own, c, n1, t.b2, c1, cv.st, CBr(t.c, t.n + 1, t.n + 2), t.b3);
    var n2, c2 := n1 + 1, Jumped(c1, t.n + 1);
    var n3, c3 := SimBody(p, body, b, own, t, t.b1, c, st, n2, c2, cv.st, fuel);
    var out := Exec(body, cv.st, fuel);
    ExecKeys(body, cv.st, own, true, fuel);
    n, c' := n3, c3;
    if out.Val? {
      var st2 := Leave(cv.st, out.st);
      LeaveKeys(cv.st, out.st);
      JumpBack(p, t.b1, own, c, n3, t.b4, c3, st2, Br(t.n));
      var c4 := Jumped(c3, t.n);
      ArrivedReady(p, t.b1, own, c, n3 + 1, t.b1, own, c4, st2);
      var n5, c5 := SimLoop(p, cond, body, b, own, inLoop, t, c4, st2, fuel - 1);
      RoundAgain(p, t.b1, own, c, st, n3 + 1, c4, st2, t.exit, Step(For(cond, body), st2, fuel - 1), fuel, n5, c5);
      n, c' := n3 + 1 + n5, c5;
    }
  }

  lemma TimedOut(p: Program, b: Builder, c: Config, vis: set<string>, r: Builder)
    ensures Agrees(p, b, c, vis, r, Const(UNIT), Timeout, 0, 0, c)
  {
  }

  /** One turn took at least one step, so one unit of fuel less is enough for the rest. */
  lemma RoundAgain(p: Program, b: Builder, own: set<string>, c: Config, st: Store, n1: nat, c1: Config, st1: Store,
                   r: Builder,
                   out: Outcome, fuel: nat, n2: nat, c2: Config)
    requires Arrived(p, b, own, c, n1, b, own, c1, st1) && n1 >= 1 && fuel >= 1 && VarsOk(b, own)
    requires st.Keys <= own && st.Keys <= st1.Keys && Agrees(p, b, c1, st1.Keys, r, Const(UNIT), out, fuel - 1, n2, c2)
    ensures Agrees(p, b, c, st.Keys, r, Const(UNIT), out, fuel, n1 + n2, c2)
  {
    hide Agrees, Grows, Run, Extends;
    AfterPrefix(p, b, c, st.Keys, n1, b, c1, st1.Keys, r, Const(UNIT), out, fuel, fuel - 1, n2, c2);
  }

  /** Run a loop body from its start: fall out of its end, break into the exit, or finish otherwise. */
  lemma {:induction false} SimBody(p: Program, body: Block, b: Builder, own: set<string>, t: LoopTrail, h: Builder,
                                   c: Config, st: Store,
                                   n2: nat, c2: Config, st1: Store, fuel: nat) returns (n: nat, c': Config)
    requires LoopTrailOk(body, b, own, t) && h == t.b1
    requires Extends(t.b4.blocks, p) && VarsKept(t.b3, t.exit, own) && VarsOk(t.b1, own) && b.nextSlot >= 1
    requires Arrived(p, h, own, c, n2, t.b3, own, c2, st1) && n2 >= 1 && st.Keys == st1.Keys <= own
    requires BlockOk(body, st1.Keys, own, true)
    ensures var out := Exec(body, st1, fuel);
            match out
            case Val(_, st2) => Open(t.b4) && Arrived(p, h, own, c, n, t.b4, own, c', Leave(st1, st2)) && n >= 1
            case Broke(st2) => Agrees(p, h, c, st.Keys, t.exit, Const(UNIT), Val(UNIT, Leave(st1, st2)), fuel, n, c')
            case _ => Agrees(p, h, c, st.Keys, t.exit, Const(UNIT), out, fuel, n, c')
    decreases fuel, body, 3
  {
    hide Extends, Grows, VarsOk, VarsKept, Run, Related, Agrees, Ready, Arrived, EmitBlock, EmitBlockValue, BlockOk,
        Exec;
    ArrivedReady(p, h, own, c, n2, t.b3, own, c2, st1);
    var n3, c3 := SimBlock(p, body, t.b3, own, true, c2, st1, fuel);
    var out := Exec(body, st1, fuel);
    var x := EmitBlockValue(body, t.b3).1;
    if BlockDiverges(body) {
      BlockDivergesNoValue(body, st1, fuel);
    }
    if out.Val? {
      BodyArrives(p, h, own, c, n2, t.b3, c2, st1, t.b4, x, out, fuel, n3, c3);
      n, c' := n2 + n3, c3;
    } else if out.Broke? {
      BrokeArrives(p, h, own, c, st.Keys, n2, t.b3, c2, st1, t.b4, x, out, fuel, n3, c3, t.exit);
      n, c' := n2 + n3, c3;
    } else {
      AgreesElsewhere(p, t.b3, c2, st1.Keys, t.b4, x, t.exit, Const(UNIT), out, fuel, n3, c3);
      Finish(p, h, own, c, st, n2, t.b3, own, c2, st1, t.exit, Const(UNIT), out, fuel, n3, c3);
      n, c' := n2 + n3, c3;
    }
  }

  lemma BodyArrives(p: Program, h: Builder, own: set<string>, c: Config, n1: nat, s: Builder, c1: Config, st1: Store,
                    b': Builder, x: Operand,
                    out: Outcome, fuel: nat, n2: nat, c2: Config)
    requires Arrived(p, h, own, c, n1, s, own, c1, st1) && out.Val?
    requires Agrees(p, s, c1, st1.Keys, b', x, out, fuel, n2, c2) && Emits(s, b', own, own, false) && s.nextSlot >= 1 &&
        st1.Keys <= own
    ensures Arrived(p, h, own, c, n1 + n2, b', own, c2, Leave(st1, out.st))
  {
    hide Extends, Grows, VarsOk, VarsKept, Run, Related;
    RunAdd(p, c, n1, c1, n2);
    KeptSelf(b', own);
    LeaveRelated(b', b', own, st1, out.st, c2.slots);
    FollowsThen(h, s, b', own);
  }

  lemma KeptSelf(b: Builder, own: set<string>)
    ensures VarsKept(b, b, own)
  {
  }

  /** From the end of a loop body back to the head. */
  lemma JumpBack(p: Program, h: Builder, own: set<string>, c: Config, n: nat, b4: Builder, c1: Config, st1: Store,
                 t: Terminator)
    requires Arrived(p, h, own, c, n, b4, own, c1, st1) && Extends(Terminate(b4, t).blocks, p)
    requires Wf(h) && h.blocks[h.cur] == EMPTY_BLOCK && ExecTerminator(t, c1) == Jump(c1, h.cur)
    requires VarsKept(b4, h, own) && VarsOk(h, own) && h.nextSlot >= 1
    ensures Arrived(p, h, own, c, n + 1, h, own, Jumped(c1, h.cur), st1)
  {
    hide Extends, VarsOk, VarsKept, Run;
    SimJump(p, b4, t, c1, own, st1, h);
    RunAdd(p, c, n, c1, 1);
    FollowsNothing(h, h, own);
  }

  /** A break lands in the exit block, where the loop's own scope is all that is left. */
  lemma BrokeArrives(p: Program, h: Builder, own: set<string>, c: Config, vis: set<string>, n1: nat, s: Builder,
                     c1: Config, st1: Store,
                     b': Builder, x: Operand, out: Outcome, fuel: nat, n2: nat, c2: Config, exit: Builder)
    requires Arrived(p, h, own, c, n1, s, own, c1, st1) && out.Broke?
    requires Agrees(p, s, c1, st1.Keys, b', x, out, fuel, n2, c2) && st1.Keys <= own
    requires s.breaks != [] && Wf(exit) && exit.cur == s.breaks[|s.breaks| - 1] && exit.blocks[exit.cur] == EMPTY_BLOCK
    requires VarsKept(s, exit, own)
    ensures Agrees(p, h, c, vis, exit, Const(UNIT), Val(UNIT, Leave(st1, out.st)), fuel, n1 + n2, c2)
  {
    hide Extends, Grows, VarsOk, Run;
    RunAdd(p, c, n1, c1, n2);
    assert Leave(st1, out.st) == Visible(out.st, st1.Keys);
  }

  lemma {:induction false} SimForRange(p: Program, i: string, lo: Expr, hi: Expr, body: Block, b: Builder,
                                       own: set<string>, inLoop: bool,
                                       c: Config, st: Store, fuel: nat) returns (n: nat, c': Config)
    requires Ready(b, own, c, st) && StmtOk(ForRange(i, lo, hi, body), st.Keys, own, inLoop) &&
        (inLoop ==> b.breaks != [])
    requires Extends(EmitStmt(ForRange(i, lo, hi, body), b).blocks, p)
    ensures Agrees(p, b, c, st.Keys, EmitStmt(ForRange(i, lo, hi, body), b), Const(UNIT),
        Step(ForRange(i, lo, hi, body), st, fuel), fuel, n, c')
    decreases fuel, ForRange(i, lo, hi, body), 2
  {
    hide Extends, Grows, VarsOk, VarsKept, Run, Related, Agrees, Ready, Arrived, EmitExpr, Eval, EmitCount, Count, Ok,
        BlockOk;
    ReadyOpen(b, own, c, st);
    var own1 := own + {i};
    var b0 := Declare(b, i);
    DeclareArrives(p, b, own, c, st, i);
    var (b1, x) := EmitExpr(lo, b0);
    var (b2, y) := EmitExpr(hi, b1);
    var b3 := Append(b2, StoreTo(b.nextSlot, x));
    var r := EmitCount(b.nextSlot, y, body, b3);
    RangeBelow(p, i, lo, hi, body, b, st.Keys, own, inLoop);
    var n1, c1 := SimExpr(p, lo, b0, own1, inLoop, c, st, fuel);
    var a := Eval(lo, st, fuel);
    EvalKeys(lo, st, own1, inLoop, fuel);
    var n2, c2 := n1, c1;
    if a.Val? {
      ArrivedByValue(p, b0, own1, c, st.Keys, n1, b1, own1, x, a, fuel, c1);
      ArrivedReady(p, b0, own1, c, n1, b1, own1, c1, a.st);
      n2, c2 := SimRangeTail(p, ForRange(i, lo, hi, body), i, hi, body, b1, x, a.v, b.nextSlot, own, inLoop, c1, a.st,
          fuel);
      Finish(p, b0, own1, c, st, n1, b1, own1, c1, a.st, r, Const(UNIT), RangeTail(i, hi, body, a.v, a.st, fuel), fuel,
          n2, c2);
      n2 := n1 + n2;
    } else {
      AgreesElsewhere(p, b0, c, st.Keys, b1, x, r, Const(UNIT), a, fuel, n1, c1);
    }
    Finish(p, b, own, c, st, 0, b0, own1, c, st, r, Const(UNIT), Step(ForRange(i, lo, hi, body), st, fuel), fuel, n2,
        c2);
    n, c' := n2, c2;
  }

  /** What a range for does once the start value is known. */
  function RangeTail(i: string, hi: Expr, body: Block, start: Value, st: Store, fuel: nat): Outcome {
    var b := Eval(hi, st, fuel);
    if !b.Val? then b else LeaveTo(b.st, false, Count(i, b.v, body, b.st[i := start], fuel))
  }

  lemma RangeBelow(p: Program, i: string, lo: Expr, hi: Expr, body: Block, b: Builder, vis: set<string>,
                   own: set<string>, inLoop: bool)
    requires Open(b) && VarsOk(b, own) && b.nextSlot >= 1 && StmtOk(ForRange(i, lo, hi, body), vis, own, inLoop) &&
        (inLoop ==> b.breaks != [])
    requires Extends(EmitStmt(ForRange(i, lo, hi, body), b).blocks, p)
    ensures var own1 := own + {i};
            var b0 := Declare(b, i);
            var (b1, x) := EmitExpr(lo, b0);
            var (b2, y) := EmitExpr(hi, b1);
            var b3 := Append(b2, StoreTo(b.nextSlot, x));
            && Emits(b0, b1, own1, own1, false) && OperandOk(x, b1.nextTemp) && VarsOk(b0, own1)
            && Emits(b1, b2, own1, own1, false) && OperandOk(y, b2.nextTemp)
            && Emits(b2, b3, own1, own1, false) && EmitStmt(ForRange(i, lo, hi, body), b) ==
                EmitCount(b.nextSlot, y, body, b3)
            && Extends(b1.blocks, p) && Extends(b2.blocks, p) && Extends(b3.blocks, p)
            && SlotOf(b1, i) == b.nextSlot && SlotOf(b2, i) == b.nextSlot && SlotOf(b3, i) == b.nextSlot
  {
    hide Extends, Grows, VarsOk, VarsKept, EmitExpr, EmitCount, Ok, BlockOk;
    var own1 := own + {i};
    var b0 := Declare(b, i);
    DeclareGrows(b, i, own);
    var (b1, x) := EmitExpr(lo, b0);
    ExprShape(lo, b0, vis, own1, inLoop);
    var (b2, y) := EmitExpr(hi, b1);
    ExprShape(hi, b1, vis, own1, inLoop);
    var b3 := Append(b2, StoreTo(b.nextSlot, x));
    AppendGrows(b2, StoreTo(b.nextSlot, x), 0, own1);
    CountShape(b.nextSlot, y, body, b3, vis + {i}, own1);
    Below(b3, EmitCount(b.nextSlot, y, body, b3), p, own1);
    Below(b2, b3, p, own1);
    Below(b1, b2, p, own1);
    SlotKept(b0, b1, own1, i);
    SlotKept(b1, b2, own1, i);
    SlotKept(b2, b3, own1, i);
  }

  lemma {:induction false} SimRangeTail(p: Program, s: Stmt, i: string, hi: Expr, body: Block, b1: Builder, x: Operand,
                                        start: Value, slot: nat,
                                        own: set<string>, inLoop: bool, c: Config, st: Store, fuel: nat)
    returns (n: nat, c': Config)
    requires s.ForRange? && s.i == i && s.hi == hi && s.body == body
    requires Ready(b1, own + {i}, c, st) && Ok(hi, st.Keys, own + {i}, inLoop) && !Diverges(hi) &&
        (inLoop ==> b1.breaks != [])
    requires i !in st && BlockOk(body, st.Keys + {i}, own + {i}, true) && Read(x, c.temps) == Some(start) &&
        OperandOk(x, b1.nextTemp)
    requires var (b2, y) := EmitExpr(hi, b1);
             var b3 := Append(b2, StoreTo(slot, x));
             && Emits(b1, b2, own + {i}, own + {i}, false) && Emits(b2, b3, own + {i}, own + {i}, false) &&
                 OperandOk(y, b2.nextTemp)
             && SlotOf(b1, i) == slot && SlotOf(b2, i) == slot && SlotOf(b3, i) == slot
             && Extends(b2.blocks, p) && Extends(b3.blocks, p) && Extends(EmitCount(slot, y, body, b3).blocks, p)
    ensures var (b2, y) := EmitExpr(hi, b1);
            Agrees(p, b1, c, st.Keys, EmitCount(slot, y, body, Append(b2, StoreTo(slot, x))), Const(UNIT),
                RangeTail(i, hi, body, start, st, fuel), fuel, n, c')
    decreases fuel, s, 1
  {
    hide Extends, Grows, VarsOk, VarsKept, Run, Related, Agrees, Ready, Arrived, EmitExpr, Eval, EmitCount, Count, Ok,
        BlockOk;
    var own1 := own + {i};
    ReadyOpen(b1, own1, c, st);
    var (b2, y) := EmitExpr(hi, b1);
    var b3 := Append(b2, StoreTo(slot, x));
    var r := EmitCount(slot, y, body, b3);
    var n1, c1 := SimExpr(p, hi, b1, own1, inLoop, c, st, fuel);
    var b := Eval(hi, st, fuel);
    EvalKeys(hi, st, own1, inLoop, fuel);
    if !b.Val? {
      AgreesElsewhere(p, b1, c, st.Keys, b2, y, r, Const(UNIT), b, fuel, n1, c1);
      n, c' := n1, c1;
      return;
    }
    ArrivedByValue(p, b1, own1, c, st.Keys, n1, b2, own1, y, b, fuel, c1);
    ArrivedReady(p, b1, own1, c, n1, b2, own1, c1, b.st);
    StillReads(p, b1, own1, c, n1, b2, own1, c1, b.st, x, start);
    SlotKept(b1, b2, own1, i);
    SimStore(p, b2, own1, c1, b.st, i, x, start, fuel);
    var c2 := Stored(c1, slot, start);
    ArrivedByValue(p, b2, own1, c1, b.st.Keys, 1, b3, own1, Const(UNIT), Val(UNIT, b.st[i := start]), fuel, c2);
    ArrivedThen(p, b1, own1, c, n1, b2, own1, c1, b.st, 1, b3, own1, c2, b.st[i := start]);
    StillReads(p, b2, own1, c1, 1, b3, own1, c2, b.st[i := start], y, b.v);
    assert b.st[i := start].Keys == st.Keys + {i};
    var n3, c3 := SimCount(p, i, slot, y, b.v, body, b3, own1, c2, b.st[i := start], fuel);
    ScopeNarrows(p, b3, own1, c2, b.st, b.st[i := start], r, Count(i, b.v, body, b.st[i := start], fuel), fuel, n3, c3);
    Finish(p, b1, own1, c, st, n1 + 1, b3, own1, c2, b.st[i := start], r, Const(UNIT),
        RangeTail(i, hi, body, start, st, fuel), fuel, n3, c3);
    n, c' := n1 + 1 + n3, c3;
  }

  /** Leaving the index's scope forgets the index. */
  lemma ScopeNarrows(p: Program, b: Builder, own: set<string>, c: Config, outer: Store, st: Store, r: Builder,
                     out: Outcome, fuel: nat, n: nat, c': Config)
    requires Agrees(p, b, c, st.Keys, r, Const(UNIT), out, fuel, n, c') && outer.Keys <= st.Keys
    ensures Agrees(p, b, c, st.Keys, r, Const(UNIT), LeaveTo(outer, false, out), fuel, n, c')
  {
  }

  lemma {:induction false} SimCount(p: Program, i: string, slot: nat, y: Operand, bound: Value, body: Block, b: Builder,
                                    own: set<string>,
                                    c: Config, st: Store, fuel: nat) returns (n: nat, c': Config)
    requires Ready(b, own, c, st) && i in st && SlotOf(b, i) == slot && OperandOk(y, b.nextTemp) &&
        Read(y, c.temps) == Some(bound)
    requires BlockOk(body, st.Keys, own, true) && Extends(EmitCount(slot, y, body, b).blocks, p)
    ensures Agrees(p, b, c, st.Keys, EmitCount(slot, y, body, b), Const(UNIT), Count(i, bound, body, st, fuel), fuel, n,
        c')
    decreases fuel, body, 5
  {
    hide Extends, Grows, VarsOk, VarsKept, Run, Related, Agrees, Ready, Arrived, EmitCount, Count, EmitBlock,
        EmitBlockValue, EmitAdvance, BlockOk;
    ReadyOpen(b, own, c, st);
    var t := CountStages(slot, y, body, b, st.Keys, own);
    LoopBelow(p, body, b, own, t);
    LoopEntered(p, b, own, c, st, t, body);
    SlotKept(b, t.b1, own, i);
    StillReads(p, b, own, c, 1, t.b1, own, Jumped(c, t.n), st, y, bound);
    var n2, c2 := SimCountLoop(p, i, slot, y, bound, body, b, own, t, Jumped(c, t.n), st, fuel);
    Finish(p, b, own, c, st, 1, t.b1, own, Jumped(c, t.n), st, t.exit, Const(UNIT), Count(i, bound, body, st, fuel),
        fuel, n2, c2);
    n, c' := 1 + n2, c2;
  }

  lemma {:induction false} SimCountLoop(p: Program, i: string, slot: nat, y: Operand, bound: Value, body: Block,
                                        b: Builder, own: set<string>,
                                        t: LoopTrail, c: Config, st: Store, fuel: nat) returns (n: nat, c': Config)
    requires Ready(t.b1, own, c, st) && i in st && SlotOf(t.b1, i) == slot && OperandOk(y, t.b1.nextTemp) &&
        Read(y, c.temps) == Some(bound)
    requires LoopTrailOk(body, b, own, t) && (t.b2, t.c) == EmitCountHead(slot, y, t.b1) &&
        t.s4 == EmitAdvance(t.b4, slot, t.n)
    requires BlockOk(body, st.Keys, own, true) && Extends(t.exit.blocks, p) && b.nextSlot >= 1
    ensures Agrees(p, t.b1, c, st.Keys, t.exit, Const(UNIT), Count(i, bound, body, st, fuel), fuel, n, c')
    decreases fuel, body, 4
  {
    hide Extends, Grows, VarsOk, VarsKept, Run, Related, Agrees, Ready, Arrived, EmitBlock, EmitBlockValue, EmitAdvance,
        EmitCountHead, BlockOk, Apply;
    LoopBelow(p, body, b, own, t);
    ReadyOpen(t.b1, own, c, st);
    if fuel == 0 {
      n, c' := 0, c;
      TimedOut(p, t.b1, c, st.Keys, t.exit);
      return;
    }
    var n1, c1 := SimCountHead(p, i, slot, y, bound, body, b, own, t, c, st, fuel);
    if BinaryOutcome(Lt, st[i], bound, st).Fault? {
      n, c' := n1, c1;
      StuckAgrees(p, t.b1, c, st.Keys, t.exit, Const(UNIT), Failure(st[i], bound), fuel, n, c');
      return;
    }
    var more := BinaryOutcome(Lt, st[i], bound, st).v;
    if !Truthy(more) {
      JumpArrives(p, t.b1, own, c, n1, t.b2, c1, st, CBr(t.c, t.n + 1, t.n + 2), t.exit);
      n, c' := n1 + 1, Jumped(c1, t.n + 2);
      ArrivedAgrees(p, t.b1, own, c, n, t.exit, own, c', st, st.Keys, fuel);
      return;
    }
    JumpArrives(p, t.b1, own, c, n1, t.b2, c1, st, CBr(t.c, t.n + 1, t.n + 2), t.b3);
    var n3, c3 := SimBody(p, body, b, own, t, t.b1, c, st, n1 + 1, Jumped(c1, t.n + 1), st, fuel);
    var out := Exec(body, st, fuel);
    ExecKeys(body, st, own, true, fuel);
    n, c' := n3, c3;
    if out.Val? {
      var st2 := Leave(st, out.st);
      LeaveKeys(st, out.st);
      n, c' := SimGoRound(p, i, slot, y, bound, body, b, own, t, c, st, n3, c3, st2, fuel);
    }
  }

  /** The head of a range for: n1 steps to the branch, or stuck on an ill-typed bound. */
  lemma SimCountHead(p: Program, i: string, slot: nat, y: Operand, bound: Value, body: Block, b: Builder,
                     own: set<string>, t: LoopTrail,
                     c: Config, st: Store, fuel: nat) returns (n: nat, c': Config)
    requires Ready(t.b1, own, c, st) && i in st && SlotOf(t.b1, i) == slot && OperandOk(y, t.b1.nextTemp) &&
        Read(y, c.temps) == Some(bound)
    requires LoopTrailOk(body, b, own, t) && (t.b2, t.c) == EmitCountHead(slot, y, t.b1) && Extends(t.b2.blocks, p)
    ensures var out := BinaryOutcome(Lt, st[i], bound, st);
            match out
            case Val(v, _) => Arrived(p, t.b1, own, c, n, t.b2, own, c', st) && Read(t.c, c'.temps) == Some(v)
            case _ => Run(p, c, n) == Stuck(Failure(st[i], bound))
  {
    hide Extends, Grows, VarsOk, VarsKept, Related, Ready, EmitBlock, EmitBlockValue, Apply;
    ReadyOpen(t.b1, own, c, st);
    SlotKeptHere(t.b1, own, c, st, i);
    var (bl, cur) := Load_(t.b1, slot);
    CountHeadShape(slot, y, t.b1, own);
    Below(bl, t.b2, p, own);
    var c1 := SimLoad(p, t.b1, own, c, st, i);
    StillReads(p, t.b1, own, c, 1, bl, own, c1, st, y, bound);
    var n2, c2 := SimCompute(p, bl, Lt, cur, y, st[i], bound, c1, own, st, fuel);
    RunAdd(p, c, 1, c1, n2);
    n, c' := 1 + n2, c2;
    var out := BinaryOutcome(Lt, st[i], bound, st);
    if out.Val? {
      ArrivedByValue(p, bl, own, c1, st.Keys, n2, t.b2, own, t.c, out, fuel, c2);
      ArrivedThen(p, t.b1, own, c, 1, bl, own, c1, st, n2, t.b2, own, c2, st);
    }
  }

  lemma SlotKeptHere(b: Builder, own: set<string>, c: Config, st: Store, x: string)
    requires Ready(b, own, c, st) && x in st
    ensures x in b.vars && x in own && b.vars[x] == SlotOf(b, x)
  {
  }

  /** Advance the index, jump back, and take the remaining turns. */
  lemma {:induction false} SimGoRound(p: Program, i: string, slot: nat, y: Operand, bound: Value, body: Block,
                                      b: Builder, own: set<string>,
                                      t: LoopTrail, c: Config, st: Store, n3: nat, c3: Config, st2: Store, fuel: nat)
    returns (n: nat, c': Config)
    requires LoopTrailOk(body, b, own, t) && (t.b2, t.c) == EmitCountHead(slot, y, t.b1) &&
        t.s4 == EmitAdvance(t.b4, slot, t.n)
    requires Extends(t.exit.blocks, p) && b.nextSlot >= 1 && fuel >= 1 && BlockOk(body, st.Keys, own, true)
    requires st.Keys == st2.Keys <= own && i in st && SlotOf(t.b1, i) == slot && OperandOk(y, t.b1.nextTemp) &&
        Read(y, c.temps) == Some(bound)
    requires Open(t.b4) && Arrived(p, t.b1, own, c, n3, t.b4, own, c3, st2) && n3 >= 1
    ensures Agrees(p, t.b1, c, st.Keys, t.exit, Const(UNIT),
                   match Apply(Add, st2[i], I32(1))
                   case None => Fault(Failure(st2[i], I32(1)))
                   case Some(next) => Count(i, bound, body, st2[i := next], fuel - 1), fuel, n, c')
    decreases fuel, body, 3
  {
    hide Extends, Grows, VarsOk, VarsKept, Run, Related, Agrees, Ready, Arrived, EmitBlock, EmitBlockValue,
        EmitCountHead, BlockOk, Apply, Count;
    LoopBelow(p, body, b, own, t);
    var m, b7, c7 := SimAdvance(p, i, slot, body, b, own, t, c, n3, c3, st2, fuel);
    match Apply(Add, st2[i], I32(1))
    case None =>
      n, c' := m, c7;
      StuckAgrees(p, t.b1, c, st.Keys, t.exit, Const(UNIT), Failure(st2[i], I32(1)), fuel, n, c');
    case Some(next) =>
      var st3 := st2[i := next];
      assert st3.Keys == st.Keys;
      JumpBack(p, t.b1, own, c, m, b7, c7, st3, Br(t.n));
      var c8 := Jumped(c7, t.n);
      ArrivedReady(p, t.b1, own, c, m + 1, t.b1, own, c8, st3);
      StillReads(p, t.b1, own, c, m + 1, t.b1, own, c8, st3, y, bound);
      var n9, c9 := SimCountLoop(p, i, slot, y, bound, body, b, own, t, c8, st3, fuel - 1);
      RoundAgain(p, t.b1, own, c, st, m + 1, c8, st3, t.exit, Count(i, bound, body, st3, fuel - 1), fuel, n9, c9);
      n, c' := m + 1 + n9, c9;
  }

  lemma SimAdvance(p: Program, i: string, slot: nat, body: Block, b: Builder, own: set<string>, t: LoopTrail, c: Config,
                   n3: nat, c3: Config, st2: Store, fuel: nat) returns (m: nat, b7: Builder, c7: Config)
    requires LoopTrailOk(body, b, own, t) && t.s4 == EmitAdvance(t.b4, slot, t.n) && Extends(t.s4.blocks, p)
    requires i in st2 && i in own && SlotOf(t.b1, i) == slot && VarsOk(t.b1, own) && VarsKept(t.b4, t.b1, own)
    requires Open(t.b4) && Arrived(p, t.b1, own, c, n3, t.b4, own, c3, st2) && n3 >= 1
    ensures Apply(Add, st2[i], I32(1)).None? ==> Run(p, c, m) == Stuck(Failure(st2[i], I32(1)))
    ensures Apply(Add, st2[i], I32(1)).Some? ==>
      && Arrived(p, t.b1, own, c, m, b7, own, c7, st2[i := Apply(Add, st2[i], I32(1)).value])
      && Terminate(b7, Br(t.n)) == t.s4 && VarsKept(b7, t.b1, own)
  {
    hide Extends, Grows, VarsOk, VarsKept, Run, Related, Ready, EmitBlock, EmitBlockValue, Apply, Agrees, Arrived;
    var b4 := t.b4;
    ArrivedReady(p, t.b1, own, c, n3, b4, own, c3, st2);
    ReadyOpen(b4, own, c3, st2);
    SlotKeptHere(b4, own, c3, st2, i);
    SlotKept(b4, t.b1, own, i);
    var (b5, cur) := Load_(b4, slot);
    var (b6, next) := Compute_(b5, Add, cur, Const(I32(1)));
    b7 := Append(b6, StoreTo(slot, next));
    AppendGrows(b4, Load(b4.nextTemp, slot), 1, own);
    AppendGrows(b5, Compute(b5.nextTemp, Add, cur, Const(I32(1))), 1, own);
    AppendGrows(b6, StoreTo(slot, next), 0, own);
    TerminateGrows(b7, Br(t.n), own);
    Below(b7, t.s4, p, own);
    Below(b6, b7, p, own);
    Below(b5, b6, p, own);
    KeptSame(b7, b4, t.b1, t.b1, own);
    var c5 := SimLoad(p, b4, own, c3, st2, i);
    ArrivedThen(p, t.b1, own, c, n3, b4, own, c3, st2, 1, b5, own, c5, st2);
    var n6, c6 := SimCompute(p, b5, Add, cur, Const(I32(1)), st2[i], I32(1), c5, own, st2, fuel);
    var out := BinaryOutcome(Add, st2[i], I32(1), st2);
    if out.Val? {
      ArrivedByValue(p, b5, own, c5, st2.Keys, n6, b6, own, next, out, fuel, c6);
      ArrivedReady(p, b5, own, c5, n6, b6, own, c6, st2);
      ArrivedThen(p, t.b1, own, c, n3 + 1, b5, own, c5, st2, n6, b6, own, c6, st2);
      SimStore(p, b6, own, c6, st2, i, next, out.v, fuel);
      c7 := Stored(c6, slot, out.v);
      ArrivedByValue(p, b6, own, c6, st2.Keys, 1, b7, own, Const(UNIT), Val(UNIT, st2[i := out.v]), fuel, c7);
      ArrivedThen(p, t.b1, own, c, n3 + 1 + n6, b6, own, c6, st2, 1, b7, own, c7, st2[i := out.v]);
      m := n3 + 1 + n6 + 1;
    } else {
      FaultStuck(p, b5, c5, st2.Keys, b6, next, out.why, fuel, n6, c6);
      StuckAfter(p, t.b1, own, c, n3 + 1, b5, c5, st2, out.why, n6);
      m, c7 := n3 + 1 + n6, c6;
    }
  }

  lemma FaultStuck(p: Program, b: Builder, c: Config, vis: set<string>, b1: Builder, x: Operand, why: Why, fuel: nat,
                   n: nat,
                   c': Config)
    requires Agrees(p, b, c, vis, b1, x, Fault(why), fuel, n, c')
    ensures Run(p, c, n) == Stuck(why)
  {
  }

  lemma StuckAfter(p: Program, b: Builder, own: set<string>, c: Config, n: nat, b1: Builder, c1: Config, st1: Store,
                   why: Why, m: nat)
    requires Arrived(p, b, own, c, n, b1, own, c1, st1) && Run(p, c1, m) == Stuck(why)
    ensures Run(p, c, n + m) == Stuck(why)
  {
    hide Run;
    RunAdd(p, c, n, c1, m);
  }
}
