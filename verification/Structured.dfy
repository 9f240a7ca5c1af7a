/**
 The structured core of the language: expressions with if, match and block values, and
 statements with let, assignment, conditional for, range for, break and ret.
 Its meaning is a big-step evaluator; `fuel` bounds the number of loop turns.
 */
module Structured {
  import opened Prelude

  /** i32 values are kept in signed range; the compiler's unit value is the i1 constant 0. */
  datatype Value = I32(n: int) | I1(b: bool)

  const UNIT := I1(false)

  datatype Op = Add | Sub | Mul | Div | Rem | Lt | Le | Gt | Ge | Eq | Ne | And | Or

  function Wrap32(n: int): int {
    (n + 0x8000_0000) % 0x1_0000_0000 - 0x8000_0000
  }

  /** Division rounds toward zero. */
  function Quotient(a: int, b: int): int
    requires b != 0
  {
    if a >= 0 then a / b else -(-a / b)
  }

  predicate Truthy(v: Value) {
    match v
    case I1(b) => b
    case I32(n) => n != 0
  }

  /** None is undefined behaviour: dividing by zero, overflowing quotients, ill-typed operands. */
  function Apply(op: Op, x: Value, y: Value): Option<Value> {
    if op.And? then Some(I1(Truthy(x) && Truthy(y)))
    else if op.Or? then Some(I1(Truthy(x) || Truthy(y)))
    else match (x, y)
      case (I1(a), I1(b)) =>
        if op.Eq? then Some(I1(a == b)) else if op.Ne? then Some(I1(a != b)) else None
      case (I32(a), I32(b)) =>
        (match op
         case Add => Some(I32(Wrap32(a + b)))
         case Sub => Some(I32(Wrap32(a - b)))
         case Mul => Some(I32(Wrap32(a * b)))
         case Div => if b == 0 || (a == -0x8000_0000 && b == -1) then None else Some(I32(Quotient(a, b)))
         case Rem => if b == 0 || (a == -0x8000_0000 && b == -1) then None else Some(I32(a - b * Quotient(a, b)))
         case Lt => Some(I1(a < b))
         case Le => Some(I1(a <= b))
         case Gt => Some(I1(a > b))
         case Ge => Some(I1(a >= b))
         case Eq => Some(I1(a == b))
         case Ne => Some(I1(a != b))
         case And => None
         case Or => None)
      case _ => None
  }

  // ----- syntax -------------------------------------------------------------------------

  datatype Expr =
    | Lit(v: Value)
    | Var(x: string)
    | Bin(op: Op, l: Expr, r: Expr)
    | If(valued: bool, cond: Expr, thn: Block, els: Block)
    | Match(valued: bool, scrutinee: Expr, arms: Arms)
    | Scope(body: Block)

  /** An arm without a pattern is `else`. */
  datatype Arms = NoArms | Arm(pattern: Option<Value>, body: Expr, rest: Arms)

  datatype Block = End | Then(first: Stmt, rest: Block)

  datatype Stmt =
    | Let(x: string, e: Expr)
    | Assign(x: string, e: Expr)
    | AssignOp(x: string, op: Op, e: Expr)
    | Do(e: Expr)
    | For(cond: Expr, body: Block)
    | ForRange(i: string, lo: Expr, hi: Expr, body: Block)
    | Break
    | Ret(result: Option<Expr>)

  // ----- meaning ------------------------------------------------------------------------

  type Store = map<string, Value>

  /**
   Dividing by zero or overflowing a quotient; a name or an operand that does not fit; a match without a
   fitting arm.
  */
  datatype Why = NoQuotient | IllFormed | NoArm

  /** Why an operator has no result. */
  function Failure(x: Value, y: Value): Why {
    if x.I32? && y.I32? then NoQuotient else IllFormed
  }

  datatype Outcome =
    | Val(v: Value, st: Store)
    | Broke(st: Store)
    | Returned(r: Option<Value>)
    | Fault(why: Why)
    | Timeout

  /** Names declared inside a block go away at its end. */
  function Leave(outer: Store, inner: Store): Store {
    map x | x in outer && x in inner :: inner[x]
  }

  function LeaveTo(outer: Store, valued: bool, out: Outcome): Outcome {
    if out.Val? then Val(if valued then out.v else UNIT, Leave(outer, out.st)) else out
  }

  function Eval(e: Expr, st: Store, fuel: nat): Outcome
    decreases fuel, e, 0
  {
    match e
    case Lit(v) => Val(v, st)
    case Var(x) => if x in st then Val(st[x], st) else Fault(IllFormed)
    case Bin(op, l, r) =>
      var a := Eval(l, st, fuel);
      if !a.Val? then a else
      var b := Eval(r, a.st, fuel);
      if !b.Val? then b else
      (match Apply(op, a.v, b.v)
       case Some(v) => Val(v, b.st)
       case None => Fault(Failure(a.v, b.v)))
    case If(valued, cond, thn, els) =>
      var c := Eval(cond, st, fuel);
      if !c.Val? then c
      else LeaveTo(c.st, valued, if Truthy(c.v) then Exec(thn, c.st, fuel) else Exec(els, c.st, fuel))
    case Match(valued, scrutinee, arms) =>
      var s := Eval(scrutinee, st, fuel);
      if !s.Val? then s else LeaveTo(s.st, valued, Select(arms, s.v, s.st, fuel))
    case Scope(body) => LeaveTo(st, true, Exec(body, st, fuel))
  }

  /** The first arm whose pattern equals the scrutinee; running out of arms is a fault. */
  function Select(arms: Arms, v: Value, st: Store, fuel: nat): Outcome
    decreases fuel, arms, 0
  {
    match arms
    case NoArms => Fault(NoArm)
    case Arm(None, body, _) => Eval(body, st, fuel)
    case Arm(Some(p), body, rest) =>
      (match Apply(Eq, v, p)
       case None => Fault(Failure(v, p))
       case Some(hit) => if Truthy(hit) then Eval(body, st, fuel) else Select(rest, v, st, fuel))
  }

  /** A block's value is that of its last statement if that is an expression. */
  function Exec(block: Block, st: Store, fuel: nat): Outcome
    decreases fuel, block, 0
  {
    match block
    case End => Val(UNIT, st)
    case Then(s, rest) =>
      var out := Step(s, st, fuel);
      if rest.End? || !out.Val? then out else Exec(rest, out.st, fuel)
  }

  function Step(s: Stmt, st: Store, fuel: nat): Outcome
    decreases fuel, s, 0
  {
    match s
    case Let(x, e) =>
      var out := Eval(e, st, fuel);
      if out.Val? then Val(UNIT, out.st[x := out.v]) else out
    case Assign(x, e) =>
      var out := Eval(e, st, fuel);
      if !out.Val? then out
      else if x in out.st then Val(UNIT, out.st[x := out.v]) else Fault(IllFormed)
    case AssignOp(x, op, e) =>
      var out := Eval(e, st, fuel);
      if !out.Val? then out
      else if x !in out.st then Fault(IllFormed)
      else (match Apply(op, out.st[x], out.v)
            case Some(v) => Val(UNIT, out.st[x := v])
            case None => Fault(Failure(out.st[x], out.v)))
    case Do(e) => Eval(e, st, fuel)
    case For(cond, body) =>
      if fuel == 0 then Timeout else
      var c := Eval(cond, st, fuel);
      if !c.Val? then c
      else if !Truthy(c.v) then Val(UNIT, c.st)
      else
        var out := Exec(body, c.st, fuel);
        if out.Broke? then Val(UNIT, Leave(c.st, out.st))
        else if out.Val? then Step(s, Leave(c.st, out.st), fuel - 1)
        else out
    case ForRange(i, lo, hi, body) =>
      var a := Eval(lo, st, fuel);
      if !a.Val? then a else
      var b := Eval(hi, a.st, fuel);
      if !b.Val? then b
      else LeaveTo(b.st, false, Count(i, b.v, body, b.st[i := a.v], fuel))
    case Break => Broke(st)
    case Ret(None) => Returned(None)
    case Ret(Some(e)) =>
      var out := Eval(e, st, fuel);
      if out.Val? then Returned(Some(out.v)) else out
  }

  /** The turns of a range for: the bound is a value, the index is read back from the store. */
  function Count(i: string, bound: Value, body: Block, st: Store, fuel: nat): Outcome
    decreases fuel, body, 1
  {
    if fuel == 0 then Timeout
    else if i !in st then Fault(IllFormed)
    else match Apply(Lt, st[i], bound)
      case None => Fault(Failure(st[i], bound))
      case Some(more) =>
        if !Truthy(more) then Val(UNIT, st)
        else
          var out := Exec(body, st, fuel);
          if out.Broke? then Val(UNIT, Leave(st, out.st))
          else if !out.Val? then out
          else
            var st' := Leave(st, out.st);
            if i !in st' then Fault(IllFormed)
            else match Apply(Add, st'[i], I32(1))
              case None => Fault(Failure(st'[i], I32(1)))
              case Some(next) => Count(i, bound, body, st'[i := next], fuel - 1)
  }

  predicate EndsInValue(block: Block) {
    block.Then? && (if block.rest.End? then block.first.Do? else EndsInValue(block.rest))
  }

  // ----- the programs the lowering is stated for --------------------------------------------

  /** Control never leaves these normally: the emitted block ends in a terminator. */
  predicate Diverges(e: Expr) {
    match e
    case If(_, _, thn, els) => BlockDiverges(thn) && BlockDiverges(els)
    case Match(_, _, arms) => ArmsDiverge(arms)
    case Scope(body) => BlockDiverges(body)
    case _ => false
  }

  predicate ArmsDiverge(arms: Arms) {
    match arms
    case NoArms => true
    case Arm(_, body, rest) => Diverges(body) && ArmsDiverge(rest)
  }

  predicate BlockDiverges(block: Block) {
    match block
    case End => false
    case Then(s, rest) => if rest.End? then StmtDiverges(s) else BlockDiverges(rest)
  }

  predicate StmtDiverges(s: Stmt) {
    match s
    case Break => true
    case Ret(_) => true
    case Do(e) => Diverges(e)
    case _ => false
  }

  function Declares(s: Stmt): set<string> {
    if s.Let? then {s.x} else {}
  }

  /**
   Variables are in scope, and nothing follows a ret or a break in its block.  No name is declared
   again while it is taken: while it is visible, and also inside its own initializer, because the
   generator binds a name before it emits the initializer and an inner `if` does not unbind its own.
   */
  predicate Ok(e: Expr, vis: set<string>, taken: set<string>, inLoop: bool) {
    match e
    case Lit(_) => true
    case Var(x) => x in vis
    case Bin(_, l, r) =>
      Ok(l, vis, taken, inLoop) && Ok(r, vis, taken, inLoop) && !Diverges(l) && !Diverges(r)
    case If(_, cond, thn, els) =>
      && Ok(cond, vis, taken, inLoop) && !Diverges(cond)
      && BlockOk(thn, vis, taken, inLoop) && BlockOk(els, vis, taken, inLoop)
    case Match(_, scrutinee, arms) =>
      Ok(scrutinee, vis, taken, inLoop) && !Diverges(scrutinee) && ArmsOk(arms, vis, taken, inLoop)
    case Scope(body) => BlockOk(body, vis, taken, inLoop)
  }

  predicate ArmsOk(arms: Arms, vis: set<string>, taken: set<string>, inLoop: bool) {
    match arms
    case NoArms => true
    case Arm(p, body, rest) =>
      Ok(body, vis, taken, inLoop) && ArmsOk(rest, vis, taken, inLoop) && (p.None? ==> rest.NoArms?)
  }

  predicate BlockOk(block: Block, vis: set<string>, taken: set<string>, inLoop: bool) {
    match block
    case End => true
    case Then(s, rest) =>
      && StmtOk(s, vis, taken, inLoop) && BlockOk(rest, vis + Declares(s), taken + Declares(s), inLoop)
      && (rest.Then? ==> !StmtDiverges(s))
  }

  predicate StmtOk(s: Stmt, vis: set<string>, taken: set<string>, inLoop: bool) {
    match s
    case Let(x, e) => x !in taken && Ok(e, vis, taken + {x}, inLoop) && !Diverges(e)
    case Assign(x, e) => x in vis && Ok(e, vis, taken, inLoop) && !Diverges(e)
    case AssignOp(x, _, e) => x in vis && Ok(e, vis, taken, inLoop) && !Diverges(e)
    case Do(e) => Ok(e, vis, taken, inLoop)
    case For(cond, body) => Ok(cond, vis, taken, inLoop) && !Diverges(cond) && BlockOk(body, vis, taken, true)
    case ForRange(i, lo, hi, body) =>
      && i !in taken && !Diverges(lo) && !Diverges(hi)
      && Ok(lo, vis, taken + {i}, inLoop) && Ok(hi, vis, taken + {i}, inLoop)
      && BlockOk(body, vis + {i}, taken + {i}, true)
    case Break => inLoop
    case Ret(None) => true
    case Ret(Some(e)) => Ok(e, vis, taken, inLoop) && !Diverges(e)
  }
}
