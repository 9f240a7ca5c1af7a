/**
 Basic blocks in the style of the LLVM functions the compiler emits: temporaries are assigned by
 instructions, variables live in stack slots, and a phi selects by the block control came from.
 */
module BasicBlocks {
  import opened Prelude
  import opened Structured

  datatype Operand = Const(v: Value) | Temp(t: nat)

  datatype Instr =
    | Compute(dst: nat, op: Op, x: Operand, y: Operand)
    | Truth(dst: nat, x: Operand)
    | Load(dst: nat, slot: nat)
    | StoreTo(slot: nat, x: Operand)
    | Phi(dst: nat, incoming: seq<(Operand, nat)>)

  datatype Terminator =
    | Br(target: nat)
    | CBr(cond: Operand, yes: nat, no: nat)
    | RetVoid
    | RetValue(x: Operand)
    | Unreachable

  datatype BasicBlock = BasicBlock(instrs: seq<Instr>, term: Option<Terminator>)

  type Program = seq<BasicBlock>

  datatype Config = Config(block: nat, pc: nat, prev: nat, temps: map<nat, Value>, slots: map<nat, Value>)

  datatype Result = Go(c: Config) | Done(r: Option<Value>) | Stuck(why: Why)

  function Read(x: Operand, temps: map<nat, Value>): Option<Value> {
    match x
    case Const(v) => Some(v)
    case Temp(t) => if t in temps then Some(temps[t]) else None
  }

  /** The value that flows in from block `prev`. */
  function Incoming(incoming: seq<(Operand, nat)>, prev: nat): Option<Operand> {
    if incoming == [] then None
    else if incoming[0].1 == prev then Some(incoming[0].0)
    else Incoming(incoming[1..], prev)
  }

  function Define(c: Config, dst: nat, v: Option<Value>): Result {
    match v
    case None => Stuck(IllFormed)
    case Some(x) => Go(c.(pc := c.pc + 1, temps := c.temps[dst := x]))
  }

  function ExecInstr(i: Instr, c: Config): Result {
    match i
    case Compute(dst, op, x, y) =>
      var a, b := Read(x, c.temps), Read(y, c.temps);
      if a.None? || b.None? then Stuck(IllFormed)
      else
        var v := Apply(op, a.value, b.value);
        if v.Some? then Define(c, dst, v) else Stuck(Failure(a.value, b.value))
    case Truth(dst, x) =>
      var a := Read(x, c.temps);
      Define(c, dst, if a.Some? then Some(I1(Truthy(a.value))) else None)
    case Load(dst, slot) =>
      Define(c, dst, if slot in c.slots then Some(c.slots[slot]) else None)
    case StoreTo(slot, x) =>
      var a := Read(x, c.temps);
      if a.Some? then Go(c.(pc := c.pc + 1, slots := c.slots[slot := a.value])) else Stuck(IllFormed)
    case Phi(dst, incoming) =>
      var x := Incoming(incoming, c.prev);
      Define(c, dst, if x.Some? then Read(x.value, c.temps) else None)
  }

  function Jump(c: Config, target: nat): Result {
    Go(c.(block := target, pc := 0, prev := c.block))
  }

  function ExecTerminator(t: Terminator, c: Config): Result {
    match t
    case Br(target) => Jump(c, target)
    case CBr(cond, yes, no) =>
      var v := Read(cond, c.temps);
      if v.None? then Stuck(IllFormed) else if Truthy(v.value) then Jump(c, yes) else Jump(c, no)
    case RetVoid => Done(None)
    case RetValue(x) => var v := Read(x, c.temps); if v.Some? then Done(v) else Stuck(IllFormed)
    case Unreachable => Stuck(NoArm)
  }

  function ExecOne(p: Program, c: Config): Result {
    if c.block >= |p| then Stuck(IllFormed)
    else if c.pc < |p[c.block].instrs| then ExecInstr(p[c.block].instrs[c.pc], c)
    else match p[c.block].term
      case None => Stuck(IllFormed)
      case Some(t) => ExecTerminator(t, c)
  }

  /** n machine steps; a finished or stuck machine stays as it is. */
  function Run(p: Program, c: Config, n: nat): Result
    decreases n
  {
    if n == 0 then Go(c)
    else match ExecOne(p, c)
      case Go(c') => Run(p, c', n - 1)
      case Done(r) => Done(r)
      case Stuck(why) => Stuck(why)
  }

  lemma {:induction false} RunAdd(p: Program, c: Config, n: nat, c1: Config, m: nat)
    requires Run(p, c, n) == Go(c1)
    ensures Run(p, c, n + m) == Run(p, c1, m)
    decreases n
  {
    hide ExecOne;
    if n > 0 {
      RunAdd(p, ExecOne(p, c).c, n - 1, c1, m);
    }
  }

  /** Once finished or stuck, always so; hence still going means going at every earlier step. */
  lemma {:induction false} RunMonotone(p: Program, c: Config, n: nat, m: nat)
    requires n <= m
    ensures !Run(p, c, n).Go? ==> Run(p, c, m) == Run(p, c, n)
    decreases n
  {
    if n > 0 && ExecOne(p, c).Go? {
      RunMonotone(p, ExecOne(p, c).c, n - 1, m - 1);
    }
  }
}
