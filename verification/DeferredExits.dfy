/**
 Deferred blocks (compiler/llvm_codegen.py 739-796).  A defer pushes the number of its site on a
 stack kept in the frame; every exit runs a dispatch loop that pops the stack and compares each
 number with the sites the generator had met when it emitted that exit.  The language promises that
 every exit runs what was deferred, last first.  Two things can go wrong: an exit does not know the
 number of a waiting site, and the stack, whose entries nothing counts, overruns.  This module says for
 which programs each of them can happen.
 */
module DeferredExits {
  import opened Prelude

  /** A block of the program, seen as the events it leaves behind. */
  type Action = nat

  // ----- the source, reduced to its control flow ---------------------------------------------------

  /** Conditions are answered by a list of choices; Exit is `ret` or `err`. */
  datatype Stmt = Act(a: Action) | Defer(a: Action) | If(thn: Block, els: Block) | For(body: Block) | Break | Exit

  datatype Block = End | Then(first: Stmt, rest: Block)

  datatype Outcome =
    | Next(trace: seq<Action>, stack: seq<Action>, left: seq<bool>)
    | Broke(trace: seq<Action>, stack: seq<Action>, left: seq<bool>)
    | Exited(trace: seq<Action>, stack: seq<Action>)
    | Dry

  /** The structured meaning: `stack` holds what has been deferred so far. */
  function Exec(b: Block, trace: seq<Action>, stack: seq<Action>, ch: seq<bool>): (o: Outcome)
    ensures o.Next? || o.Broke? ==> |o.left| <= |ch|
    decreases |ch|, b
  {
    match b
    case End => Next(trace, stack, ch)
    case Then(s, rest) =>
      var o := Step(s, trace, stack, ch);
      if o.Next? then Exec(rest, o.trace, o.stack, o.left) else o
  }

  function Step(s: Stmt, trace: seq<Action>, stack: seq<Action>, ch: seq<bool>): (o: Outcome)
    ensures o.Next? || o.Broke? ==> |o.left| <= |ch|
    decreases |ch|, s
  {
    match s
    case Act(a) => Next(trace + [a], stack, ch)
    case Defer(a) => Next(trace, stack + [a], ch)
    case Break => Broke(trace, stack, ch)
    case Exit => Exited(trace, stack)
    case If(thn, els) =>
      if ch == [] then Dry else Exec(if ch[0] then thn else els, trace, stack, ch[1..])
    case For(body) =>
      if ch == [] then Dry
      else if !ch[0] then Next(trace, stack, ch[1..])
      else
        var o := Exec(body, trace, stack, ch[1..]);
        if o.Broke? then Next(o.trace, o.stack, o.left)
        else if o.Next? then Step(s, o.trace, o.stack, o.left)
        else o
  }

  function Reversed(s: seq<Action>): seq<Action> {
    if s == [] then [] else [s[|s| - 1]] + Reversed(s[..|s| - 1])
  }

  /** A whole run: its events, or the frame overrun, or not enough choices to tell. */
  datatype Whole = Ran(events: seq<Action>) | Overrun | Undecided

  /** What the language promises: leaving the function runs everything deferred, last first. */
  function Promised(b: Block, ch: seq<bool>): Whole {
    match Exec(b, [], [], ch)
    case Exited(trace, stack) => Ran(trace + Reversed(stack))
    case Next(trace, stack, _) => Ran(trace + Reversed(stack))
    case _ => Undecided
  }

  // ----- the emitted code ----------------------------------------------------------------------------

  /** `known` is the number of sites an exit's dispatch loop can tell apart. */
  datatype Instr =
    | Do(a: Action) | Register(id: nat) | Choose(thn: Code, els: Code) | Repeat(body: Code) | Jump | Return(known: nat)

  datatype Code = Halt | Seq(first: Instr, rest: Code)

  /** Whether control can come out at the end, and whether it can break out. */
  predicate CanNext(c: Code) {
    c.Seq? ==> InstrCanNext(c.first) && CanNext(c.rest)
  }

  predicate InstrCanNext(i: Instr) {
    match i
    case Choose(thn, els) => CanNext(thn) || CanNext(els)
    case Jump => false
    case Return(_) => false
    case _ => true
  }

  predicate CanBreak(c: Code) {
    c.Seq? && (InstrCanBreak(c.first) || (InstrCanNext(c.first) && CanBreak(c.rest)))
  }

  predicate InstrCanBreak(i: Instr) {
    match i
    case Choose(thn, els) => CanBreak(thn) || CanBreak(els)
    case Jump => true
    case _ => false
  }

  /** Sites are numbered as they are met; nothing is emitted behind a closed block. */
  function EmitBlock(b: Block, sites: seq<Action>): (r: (Code, seq<Action>))
    ensures sites <= r.1
  {
    match b
    case End => (Halt, sites)
    case Then(s, rest) =>
      var (i, sites1) := EmitStmt(s, sites);
      if !InstrCanNext(i) then (Seq(i, Halt), sites1)
      else
        var (c, sites2) := EmitBlock(rest, sites1);
        (Seq(i, c), sites2)
  }

  function EmitStmt(s: Stmt, sites: seq<Action>): (r: (Instr, seq<Action>))
    ensures sites <= r.1
  {
    match s
    case Act(a) => (Do(a), sites)
    case Defer(a) => (Register(|sites|), sites + [a])
    case Break => (Jump, sites)
    case Exit => (Return(|sites|), sites)
    case If(thn, els) =>
      var (c1, sites1) := EmitBlock(thn, sites);
      var (c2, sites2) := EmitBlock(els, sites1);
      (Choose(c1, c2), sites2)
    case For(body) =>
      var (c, sites1) := EmitBlock(body, sites);
      (Repeat(c), sites1)
  }

  /** The entries of __nc_defer_stack. */
  const DEPTH := 1024

  /** The stack has as many entries as `limit` says; without one it never runs out. */
  predicate HasRoom(ids: seq<nat>, limit: Option<nat>) {
    limit.None? || |ids| < limit.value
  }

  /** Smashed: an entry was written behind the end of the stack, and anything may happen. */
  datatype Reached =
    | Through(trace: seq<Action>, ids: seq<nat>, left: seq<bool>)
    | Out(trace: seq<Action>, ids: seq<nat>, left: seq<bool>)
    | At(trace: seq<Action>, ids: seq<nat>, known: nat)
    | Smashed
    | Nowhere

  function Run(c: Code, trace: seq<Action>, ids: seq<nat>, ch: seq<bool>, limit: Option<nat>): (r: Reached)
    ensures r.Through? || r.Out? ==> |r.left| <= |ch|
    decreases |ch|, c
  {
    match c
    case Halt => Through(trace, ids, ch)
    case Seq(i, rest) =>
      var r := RunInstr(i, trace, ids, ch, limit);
      if r.Through? then Run(rest, r.trace, r.ids, r.left, limit) else r
  }

  function RunInstr(i: Instr, trace: seq<Action>, ids: seq<nat>, ch: seq<bool>, limit: Option<nat>): (r: Reached)
    ensures r.Through? || r.Out? ==> |r.left| <= |ch|
    decreases |ch|, i
  {
    match i
    case Do(a) => Through(trace + [a], ids, ch)
    case Register(id) => if HasRoom(ids, limit) then Through(trace, ids + [id], ch) else Smashed
    case Jump => Out(trace, ids, ch)
    case Return(known) => At(trace, ids, known)
    case Choose(thn, els) =>
      if ch == [] then Nowhere else Run(if ch[0] then thn else els, trace, ids, ch[1..], limit)
    case Repeat(body) =>
      if ch == [] then Nowhere
      else if !ch[0] then Through(trace, ids, ch[1..])
      else
        var r := Run(body, trace, ids, ch[1..], limit);
        if r.Out? then Through(r.trace, r.ids, r.left)
        else if r.Through? then RunInstr(i, r.trace, r.ids, r.left, limit)
        else r
  }

  function Site(sites: seq<Action>, id: nat): Action {
    if id < |sites| then sites[id] else 0
  }

  /** What the dispatch loop of an exit runs: a number it does not know is popped and passed over. */
  function Dispatched(ids: seq<nat>, known: nat, sites: seq<Action>): (ran: seq<Action>)
    ensures |ran| <= |ids|
  {
    if ids == [] then []
    else
      var id := ids[|ids| - 1];
      (if id < known then [Site(sites, id)] else []) + Dispatched(ids[..|ids| - 1], known, sites)
  }

  /** The end of the function is an exit that knows every site. */
  function Emitted(b: Block, ch: seq<bool>, limit: Option<nat>): Whole {
    var (c, sites) := EmitBlock(b, []);
    match Run(c, [], [], ch, limit)
    case At(trace, ids, known) => Ran(trace + Dispatched(ids, known, sites))
    case Through(trace, ids, _) => Ran(trace + Dispatched(ids, |sites|, sites))
    case Smashed => Overrun
    case _ => Undecided
  }

  // ----- the emitted code follows the source --------------------------------------------------------------

  function Acts(ids: seq<nat>, sites: seq<Action>): (acts: seq<Action>)
    ensures |acts| == |ids|
  {
    seq(|ids|, k requires 0 <= k < |ids| => Site(sites, ids[k]))
  }

  function Meaning(r: Reached, sites: seq<Action>): Outcome
    requires !r.Smashed?
  {
    match r
    case Through(trace, ids, left) => Next(trace, Acts(ids, sites), left)
    case Out(trace, ids, left) => Broke(trace, Acts(ids, sites), left)
    case At(trace, ids, _) => Exited(trace, Acts(ids, sites))
    case Nowhere => Dry
  }

  lemma ActsThen(ids: seq<nat>, id: nat, sites: seq<Action>)
    ensures Acts(ids + [id], sites) == Acts(ids, sites) + [Site(sites, id)]
  {
  }

  /** Where control can go is what the syntax says. */
  lemma {:induction false} GoesWhereItCan(c: Code, trace: seq<Action>, ids: seq<nat>, ch: seq<bool>, limit: Option<nat>)
    ensures Run(c, trace, ids, ch, limit).Through? ==> CanNext(c)
    ensures Run(c, trace, ids, ch, limit).Out? ==> CanBreak(c)
    decreases |ch|, c
  {
    if c.Seq? {
      InstrGoesWhereItCan(c.first, trace, ids, ch, limit);
      var r := RunInstr(c.first, trace, ids, ch, limit);
      if r.Through? {
        GoesWhereItCan(c.rest, r.trace, r.ids, r.left, limit);
      }
    }
  }

  lemma {:induction false} InstrGoesWhereItCan(i: Instr, trace: seq<Action>, ids: seq<nat>, ch: seq<bool>,
                                               limit: Option<nat>)
    ensures RunInstr(i, trace, ids, ch, limit).Through? ==> InstrCanNext(i)
    ensures RunInstr(i, trace, ids, ch, limit).Out? ==> InstrCanBreak(i)
    decreases |ch|, i
  {
    if i.Choose? && ch != [] {
      GoesWhereItCan(if ch[0] then i.thn else i.els, trace, ids, ch[1..], limit);
    }
    if i.Repeat? && ch != [] && ch[0] {
      var r := Run(i.body, trace, ids, ch[1..], limit);
      if r.Through? {
        InstrGoesWhereItCan(i, r.trace, r.ids, r.left, limit);
      }
    }
  }

  /** As long as the stack has room the emitted code does what the source does, and its stack names the same actions. */
  lemma {:induction false} CodeFollows(b: Block, had: seq<Action>, sites: seq<Action>, trace: seq<Action>,
                                       ids: seq<nat>, ch: seq<bool>, limit: Option<nat>)
    requires EmitBlock(b, had).1 <= sites
    ensures var r := Run(EmitBlock(b, had).0, trace, ids, ch, limit);
        r.Smashed? || Exec(b, trace, Acts(ids, sites), ch) == Meaning(r, sites)
    decreases |ch|, b
  {
    if b.Then? {
      var (i, sites1) := EmitStmt(b.first, had);
      StmtFollows(b.first, had, sites, trace, ids, ch, limit);
      InstrGoesWhereItCan(i, trace, ids, ch, limit);
      var r := RunInstr(i, trace, ids, ch, limit);
      if r.Through? {
        CodeFollows(b.rest, sites1, sites, r.trace, r.ids, r.left, limit);
      }
    }
  }

  lemma {:induction false} StmtFollows(s: Stmt, had: seq<Action>, sites: seq<Action>, trace: seq<Action>, ids: seq<nat>,
                                       ch: seq<bool>, limit: Option<nat>)
    requires EmitStmt(s, had).1 <= sites
    ensures var r := RunInstr(EmitStmt(s, had).0, trace, ids, ch, limit);
        r.Smashed? || Step(s, trace, Acts(ids, sites), ch) == Meaning(r, sites)
    decreases |ch|, s
  {
    match s
    case Defer(a) =>
      ActsThen(ids, |had|, sites);
    case If(thn, els) =>
      if ch != [] {
        var sites1 := EmitBlock(thn, had).1;
        if ch[0] {
          CodeFollows(thn, had, sites, trace, ids, ch[1..], limit);
        } else {
          CodeFollows(els, sites1, sites, trace, ids, ch[1..], limit);
        }
      }
    case For(body) =>
      if ch != [] && ch[0] {
        CodeFollows(body, had, sites, trace, ids, ch[1..], limit);
        var r := Run(EmitBlock(body, had).0, trace, ids, ch[1..], limit);
        if r.Through? {
          StmtFollows(s, had, sites, r.trace, r.ids, r.left, limit);
        }
      }
    case _ =>
  }

  // ----- which sites may be waiting at which exit --------------------------------------------------------------

  /** The sites some way to the end passes. */
  function Completing(c: Code): set<nat> {
    if c.Halt? || !CanNext(c) then {} else InstrCompleting(c.first) + Completing(c.rest)
  }

  function InstrCompleting(i: Instr): set<nat> {
    match i
    case Register(id) => {id}
    case Choose(thn, els) => Completing(thn) + Completing(els)
    case Repeat(body) => Completing(body) + Breaking(body)
    case _ => {}
  }

  /** The sites some way to a break passes. */
  function Breaking(c: Code): set<nat> {
    if c.Halt? then {}
    else
      InstrBreaking(c.first)
      + if InstrCanNext(c.first) && CanBreak(c.rest) then InstrCompleting(c.first) + Breaking(c.rest) else {}
  }

  function InstrBreaking(i: Instr): set<nat> {
    if i.Choose? then Breaking(i.thn) + Breaking(i.els) else {}
  }

  /** The exits inside, each by the number of sites it knows. */
  function Exits(c: Code): set<nat> {
    if c.Halt? then {} else InstrExits(c.first) + if InstrCanNext(c.first) then Exits(c.rest) else {}
  }

  function InstrExits(i: Instr): set<nat> {
    match i
    case Return(known) => {known}
    case Choose(thn, els) => Exits(thn) + Exits(els)
    case Repeat(body) => Exits(body)
    case _ => {}
  }

  /** In no loop does an exit stand before a defer that an earlier turn may have passed. */
  predicate Safe(c: Code) {
    c.Seq? ==> InstrSafe(c.first) && (InstrCanNext(c.first) ==> Safe(c.rest))
  }

  predicate InstrSafe(i: Instr) {
    match i
    case Choose(thn, els) => Safe(thn) && Safe(els)
    case Repeat(body) => Safe(body) && forall d, e :: d in Completing(body) && e in Exits(body) ==> d < e
    case _ => true
  }

  /** An exit that is reached is one of those listed. */
  lemma {:induction false} ExitsListed(c: Code, trace: seq<Action>, ids: seq<nat>, ch: seq<bool>, limit: Option<nat>)
    ensures var r := Run(c, trace, ids, ch, limit); r.At? ==> r.known in Exits(c)
    decreases |ch|, c
  {
    if c.Seq? {
      InstrExitsListed(c.first, trace, ids, ch, limit);
      InstrGoesWhereItCan(c.first, trace, ids, ch, limit);
      var r := RunInstr(c.first, trace, ids, ch, limit);
      if r.Through? {
        ExitsListed(c.rest, r.trace, r.ids, r.left, limit);
      }
    }
  }

  lemma {:induction false} InstrExitsListed(i: Instr, trace: seq<Action>, ids: seq<nat>, ch: seq<bool>,
                                            limit: Option<nat>)
    ensures var r := RunInstr(i, trace, ids, ch, limit); r.At? ==> r.known in InstrExits(i)
    decreases |ch|, i
  {
    if i.Choose? && ch != [] {
      ExitsListed(if ch[0] then i.thn else i.els, trace, ids, ch[1..], limit);
    }
    if i.Repeat? && ch != [] && ch[0] {
      ExitsListed(i.body, trace, ids, ch[1..], limit);
      var r := Run(i.body, trace, ids, ch[1..], limit);
      if r.Through? {
        InstrExitsListed(i, r.trace, r.ids, r.left, limit);
      }
    }
  }

  // ----- numbering ---------------------------------------------------------------------------------------------

  predicate Within(s: set<nat>, lo: nat, hi: nat) {
    forall x :: x in s ==> lo <= x < hi
  }

  ghost predicate Numbered(c: Code, lo: nat, hi: nat) {
    lo <= hi && Within(Completing(c), lo, hi) && Within(Breaking(c), lo, hi) && Within(Exits(c), lo, hi + 1)
  }

  ghost predicate InstrNumbered(i: Instr, lo: nat, hi: nat) {
    lo <= hi && Within(InstrCompleting(i), lo, hi) && Within(InstrBreaking(i), lo, hi) &&
        Within(InstrExits(i), lo, hi + 1)
  }

  /** Numbers met inside a block are those given out while it was emitted. */
  lemma {:induction false} EmittedNumbered(b: Block, sites: seq<Action>)
    ensures Numbered(EmitBlock(b, sites).0, |sites|, |EmitBlock(b, sites).1|)
  {
    if b.Then? {
      InstrEmittedNumbered(b.first, sites);
      EmittedNumbered(b.rest, EmitStmt(b.first, sites).1);
    }
  }

  lemma {:induction false} InstrEmittedNumbered(s: Stmt, sites: seq<Action>)
    ensures InstrNumbered(EmitStmt(s, sites).0, |sites|, |EmitStmt(s, sites).1|)
  {
    if s.If? {
      EmittedNumbered(s.thn, sites);
      EmittedNumbered(s.els, EmitBlock(s.thn, sites).1);
    }
    if s.For? {
      EmittedNumbered(s.body, sites);
    }
  }

  // ----- a safe program never meets an unknown number -----------------------------------------------------------

  ghost predicate AllBelow(ids: seq<nat>, limits: set<nat>) {
    forall d, e :: d in ids && e in limits ==> d < e
  }

  /** Leaving only adds sites the syntax lists, and an exit knows everything that waits. */
  ghost predicate Tame(r: Reached, ids: seq<nat>, completing: set<nat>, breaking: set<nat>) {
    match r
    case Through(_, now, _) => forall d :: d in now ==> d in ids || d in completing
    case Out(_, now, _) => forall d :: d in now ==> d in ids || d in breaking
    case At(_, now, known) => forall d :: d in now ==> d < known
    case _ => true
  }

  lemma {:induction false} NoneUnknown(b: Block, had: seq<Action>, trace: seq<Action>, ids: seq<nat>, ch: seq<bool>,
                                       limit: Option<nat>)
    requires Safe(EmitBlock(b, had).0) && AllBelow(ids, Exits(EmitBlock(b, had).0))
    ensures var c := EmitBlock(b, had).0; Tame(Run(c, trace, ids, ch, limit), ids, Completing(c), Breaking(c))
    decreases |ch|, b
  {
    if b.Then? {
      var (i, sites1) := EmitStmt(b.first, had);
      InstrNoneUnknown(b.first, had, trace, ids, ch, limit);
      InstrGoesWhereItCan(i, trace, ids, ch, limit);
      var r := RunInstr(i, trace, ids, ch, limit);
      if r.Through? {
        var rest := EmitBlock(b.rest, sites1).0;
        InstrEmittedNumbered(b.first, had);
        EmittedNumbered(b.rest, sites1);
        NoneUnknown(b.rest, sites1, r.trace, r.ids, r.left, limit);
        GoesWhereItCan(rest, r.trace, r.ids, r.left, limit);
      }
    }
  }

  lemma {:induction false} InstrNoneUnknown(s: Stmt, had: seq<Action>, trace: seq<Action>, ids: seq<nat>, ch: seq<bool>,
                                            limit: Option<nat>)
    requires InstrSafe(EmitStmt(s, had).0) && AllBelow(ids, InstrExits(EmitStmt(s, had).0))
    ensures var i := EmitStmt(s, had).0; Tame(RunInstr(i, trace, ids, ch, limit), ids, InstrCompleting(i),
        InstrBreaking(i))
    decreases |ch|, s
  {
    match s
    case If(thn, els) =>
      if ch != [] {
        if ch[0] {
          NoneUnknown(thn, had, trace, ids, ch[1..], limit);
        } else {
          NoneUnknown(els, EmitBlock(thn, had).1, trace, ids, ch[1..], limit);
        }
      }
    case For(body) =>
      if ch != [] && ch[0] {
        var c := EmitBlock(body, had).0;
        assert InstrCompleting(Repeat(c)) == Completing(c) + Breaking(c);
        NoneUnknown(body, had, trace, ids, ch[1..], limit);
        var r := Run(c, trace, ids, ch[1..], limit);
        assert Tame(r, ids, Completing(c), Breaking(c));
        if r.Through? {
          InstrNoneUnknown(s, had, r.trace, r.ids, r.left, limit);
          InstrGoesWhereItCan(Repeat(c), trace, ids, ch, limit);
        }
      }
    case _ =>
  }

  /** A dispatch loop that knows every number runs what was deferred, last first. */
  lemma {:induction false} AllKnown(ids: seq<nat>, known: nat, sites: seq<Action>)
    requires forall d :: d in ids ==> d < known
    ensures Dispatched(ids, known, sites) == Reversed(Acts(ids, sites))
  {
    if ids != [] {
      var early := ids[..|ids| - 1];
      assert ids == early + [ids[|ids| - 1]] && ids[|ids| - 1] in ids && forall d :: d in early ==> d in ids;
      ActsThen(early, ids[|ids| - 1], sites);
      assert Acts(ids, sites)[..|ids| - 1] == Acts(early, sites);
      AllKnown(early, known, sites);
    }
  }

  /** One that meets an unknown number leaves something out. */
  lemma {:induction false} SomeUnknown(ids: seq<nat>, known: nat, sites: seq<Action>, d: nat)
    requires d in ids && d >= known
    ensures |Dispatched(ids, known, sites)| < |ids|
  {
    var early := ids[..|ids| - 1];
    if ids[|ids| - 1] < known {
      assert ids == early + [ids[|ids| - 1]];
      SomeUnknown(early, known, sites, d);
    }
  }

  lemma {:induction false} ReversedLength(s: seq<Action>)
    ensures |Reversed(s)| == |s|
  {
    if s != [] {
      ReversedLength(s[..|s| - 1]);
    }
  }

  /** An exit keeps the promise exactly when it knows every waiting number. */
  lemma DispatchExact(ids: seq<nat>, known: nat, sites: seq<Action>)
    ensures Dispatched(ids, known, sites) == Reversed(Acts(ids, sites)) <==> forall d :: d in ids ==> d < known
  {
    if forall d :: d in ids ==> d < known {
      AllKnown(ids, known, sites);
    } else {
      var d :| d in ids && d >= known;
      SomeUnknown(ids, known, sites, d);
      ReversedLength(Acts(ids, sites));
    }
  }

  // ----- an unsafe program can be driven to one -------------------------------------------------------------------

  function WithMore(r: Reached, more: seq<bool>): Reached {
    match r
    case Through(trace, ids, left) => Through(trace, ids, left + more)
    case Out(trace, ids, left) => Out(trace, ids, left + more)
    case _ => r
  }

  /** Choices that are not needed are left over. */
  lemma {:induction false} Further(c: Code, trace: seq<Action>, ids: seq<nat>, w: seq<bool>, more: seq<bool>,
                                   limit: Option<nat>)
    requires Run(c, trace, ids, w, limit) != Nowhere
    ensures Run(c, trace, ids, w + more, limit) == WithMore(Run(c, trace, ids, w, limit), more)
    decreases |w|, c
  {
    if c.Seq? {
      InstrFurther(c.first, trace, ids, w, more, limit);
      var r := RunInstr(c.first, trace, ids, w, limit);
      if r.Through? {
        Further(c.rest, r.trace, r.ids, r.left, more, limit);
      }
    }
  }

  lemma {:induction false} InstrFurther(i: Instr, trace: seq<Action>, ids: seq<nat>, w: seq<bool>, more: seq<bool>,
                                        limit: Option<nat>)
    requires RunInstr(i, trace, ids, w, limit) != Nowhere
    ensures RunInstr(i, trace, ids, w + more, limit) == WithMore(RunInstr(i, trace, ids, w, limit), more)
    decreases |w|, i
  {
    if (i.Choose? || i.Repeat?) && w != [] {
      assert (w + more)[1..] == w[1..] + more;
      if i.Choose? {
        Further(if w[0] then i.thn else i.els, trace, ids, w[1..], more, limit);
      } else if w[0] {
        Further(i.body, trace, ids, w[1..], more, limit);
        var r := Run(i.body, trace, ids, w[1..], limit);
        if r.Through? {
          InstrFurther(i, r.trace, r.ids, r.left, more, limit);
        }
      }
    }
  }

  /** What more choices do after a way that used up its own. */
  lemma ThenMore(i: Instr, trace: seq<Action>, ids: seq<nat>, w: seq<bool>, more: seq<bool>, limit: Option<nat>)
    requires var r := RunInstr(i, trace, ids, w, limit); r.Smashed? || (r.Through? && r.left == [])
    ensures var r := RunInstr(i, trace, ids, w, limit);
            RunInstr(i, trace, ids, w + more, limit) == if r.Through? then Through(r.trace, r.ids, more) else Smashed
  {
    InstrFurther(i, trace, ids, w, more, limit);
    assert [] + more == more;
  }

  lemma BodyThenMore(c: Code, trace: seq<Action>, ids: seq<nat>, w: seq<bool>, more: seq<bool>, limit: Option<nat>)
    requires var r := Run(c, trace, ids, w, limit); r.Smashed? || (r.Through? && r.left == [])
    ensures var r := Run(c, trace, ids, w, limit);
            Run(c, trace, ids, w + more, limit) == if r.Through? then Through(r.trace, r.ids, more) else Smashed
  {
    Further(c, trace, ids, w, more, limit);
    assert [] + more == more;
  }

  /** All choices are used up, nothing deferred was forgotten, and `d` is among it. */
  ghost predicate Past(r: Reached, ids: seq<nat>, d: Option<nat>) {
    (r.Through? || r.Out?) && r.left == [] && ids <= r.ids && (d.Some? ==> d.value in r.ids)
  }

  ghost predicate Passed(r: Reached, ids: seq<nat>, d: Option<nat>) {
    r.Through? && Past(r, ids, d)
  }

  ghost predicate Left(r: Reached, ids: seq<nat>, d: Option<nat>) {
    r.Out? && Past(r, ids, d)
  }

  function Only(d: Option<nat>, here: set<nat>): Option<nat> {
    if d.Some? && d.value in here then d else None
  }

  function Except(d: Option<nat>, here: set<nat>): Option<nat> {
    if d.Some? && d.value in here then None else d
  }

  /** Choices that lead to the end, past site `d` if some way there passes it. */
  lemma {:induction false} WayThrough(c: Code, trace: seq<Action>, ids: seq<nat>, d: Option<nat>) returns (w: seq<bool>)
    requires CanNext(c) && (d.Some? ==> d.value in Completing(c))
    ensures Passed(Run(c, trace, ids, w, None), ids, d)
    decreases c
  {
    w := [];
    if c.Seq? {
      var w1 := InstrWayThrough(c.first, trace, ids, Only(d, InstrCompleting(c.first)));
      var r := RunInstr(c.first, trace, ids, w1, None);
      var w2 := WayThrough(c.rest, r.trace, r.ids, Except(d, InstrCompleting(c.first)));
      w := w1 + w2;
      ThenMore(c.first, trace, ids, w1, w2, None);
    }
  }

  lemma {:induction false} InstrWayThrough(i: Instr, trace: seq<Action>, ids: seq<nat>, d: Option<nat>)
    returns (w: seq<bool>)
    requires InstrCanNext(i) && (d.Some? ==> d.value in InstrCompleting(i))
    ensures Passed(RunInstr(i, trace, ids, w, None), ids, d)
    decreases i
  {
    w := [];
    match i
    case Choose(thn, els) =>
      if CanNext(thn) && (d.Some? ==> d.value in Completing(thn)) {
        var w1 := WayThrough(thn, trace, ids, d);
        w := [true] + w1;
      } else {
        NothingThrough(thn);
        NothingThrough(els);
        var w1 := WayThrough(els, trace, ids, d);
        w := [false] + w1;
      }
    case Repeat(body) =>
      if d.Some? && d.value in Completing(body) {
        NothingThrough(body);
        var w1 := WayThrough(body, trace, ids, d);
        var r := Run(body, trace, ids, w1, None);
        BodyThenMore(body, trace, ids, w1, [false], None);
        w := [true] + (w1 + [false]);
        assert RunInstr(i, r.trace, r.ids, [false], None) == Through(r.trace, r.ids, []);
      } else if d.Some? {
        NothingOut(body);
        var w1 := WayOut(body, trace, ids, d);
        w := [true] + w1;
      } else {
        w := [false];
      }
    case _ =>
  }

  lemma {:induction false} WayOut(c: Code, trace: seq<Action>, ids: seq<nat>, d: Option<nat>) returns (w: seq<bool>)
    requires CanBreak(c) && (d.Some? ==> d.value in Breaking(c))
    ensures Left(Run(c, trace, ids, w, None), ids, d)
    decreases c
  {
    var i := c.first;
    if InstrCanBreak(i) && (d.Some? ==> d.value in InstrBreaking(i)) {
      w := InstrWayOut(i, trace, ids, d);
    } else {
      InstrNothingOut(i);
      var w1 := InstrWayThrough(i, trace, ids, Only(d, InstrCompleting(i)));
      var r := RunInstr(i, trace, ids, w1, None);
      var w2 := WayOut(c.rest, r.trace, r.ids, Except(d, InstrCompleting(i)));
      w := w1 + w2;
      ThenMore(i, trace, ids, w1, w2, None);
    }
  }

  lemma {:induction false} InstrWayOut(i: Instr, trace: seq<Action>, ids: seq<nat>, d: Option<nat>)
    returns (w: seq<bool>)
    requires InstrCanBreak(i) && (d.Some? ==> d.value in InstrBreaking(i))
    ensures Left(RunInstr(i, trace, ids, w, None), ids, d)
    decreases i
  {
    w := [];
    if i.Choose? {
      if CanBreak(i.thn) && (d.Some? ==> d.value in Breaking(i.thn)) {
        var w1 := WayOut(i.thn, trace, ids, d);
        w := [true] + w1;
      } else {
        NothingOut(i.thn);
        NothingOut(i.els);
        var w1 := WayOut(i.els, trace, ids, d);
        w := [false] + w1;
      }
    }
  }

  /** A block that cannot complete lists no completing sites, and likewise for breaks. */
  lemma NothingThrough(c: Code)
    ensures Completing(c) != {} ==> CanNext(c)
  {
  }

  lemma {:induction false} NothingOut(c: Code)
    ensures Breaking(c) != {} ==> CanBreak(c)
  {
    if c.Seq? {
      InstrNothingOut(c.first);
    }
  }

  lemma {:induction false} InstrNothingOut(i: Instr)
    ensures InstrBreaking(i) != {} ==> InstrCanBreak(i)
  {
    if i.Choose? {
      NothingOut(i.thn);
      NothingOut(i.els);
    }
  }

  ghost predicate AtExit(r: Reached, ids: seq<nat>, e: nat) {
    r.At? && r.known == e && ids <= r.ids
  }

  /** Every exit listed can be reached, with everything deferred so far still waiting. */
  lemma {:induction false} WayToExit(c: Code, trace: seq<Action>, ids: seq<nat>, e: nat) returns (w: seq<bool>)
    requires e in Exits(c)
    ensures AtExit(Run(c, trace, ids, w, None), ids, e)
    decreases c
  {
    var i := c.first;
    if e in InstrExits(i) {
      w := InstrWayToExit(i, trace, ids, e);
    } else {
      var w1 := InstrWayThrough(i, trace, ids, None);
      var r := RunInstr(i, trace, ids, w1, None);
      var w2 := WayToExit(c.rest, r.trace, r.ids, e);
      w := w1 + w2;
      ThenMore(i, trace, ids, w1, w2, None);
    }
  }

  lemma {:induction false} InstrWayToExit(i: Instr, trace: seq<Action>, ids: seq<nat>, e: nat) returns (w: seq<bool>)
    requires e in InstrExits(i)
    ensures AtExit(RunInstr(i, trace, ids, w, None), ids, e)
    decreases i
  {
    w := [];
    match i
    case Choose(thn, els) =>
      if e in Exits(thn) {
        var w1 := WayToExit(thn, trace, ids, e);
        w := [true] + w1;
      } else {
        var w1 := WayToExit(els, trace, ids, e);
        w := [false] + w1;
      }
    case Repeat(body) =>
      var w1 := WayToExit(body, trace, ids, e);
      w := [true] + w1;
    case _ =>
  }

  ghost predicate Forgets(r: Reached) {
    r.At? && exists d :: d in r.ids && d >= r.known
  }

  /** Around an unsafe loop: once past the defer, then once more to the exit that does not know it. */
  lemma {:induction false} WayToForget(c: Code, trace: seq<Action>, ids: seq<nat>) returns (w: seq<bool>)
    requires !Safe(c)
    ensures Forgets(Run(c, trace, ids, w, None))
    decreases c
  {
    var i := c.first;
    if !InstrSafe(i) {
      w := InstrWayToForget(i, trace, ids);
    } else {
      var w1 := InstrWayThrough(i, trace, ids, None);
      var r := RunInstr(i, trace, ids, w1, None);
      var w2 := WayToForget(c.rest, r.trace, r.ids);
      w := w1 + w2;
      ThenMore(i, trace, ids, w1, w2, None);
    }
  }

  lemma {:induction false} InstrWayToForget(i: Instr, trace: seq<Action>, ids: seq<nat>) returns (w: seq<bool>)
    requires !InstrSafe(i)
    ensures Forgets(RunInstr(i, trace, ids, w, None))
    decreases i
  {
    w := [];
    match i
    case Choose(thn, els) =>
      if !Safe(thn) {
        var w1 := WayToForget(thn, trace, ids);
        w := [true] + w1;
      } else {
        var w1 := WayToForget(els, trace, ids);
        w := [false] + w1;
      }
    case Repeat(body) =>
      if !Safe(body) {
        var w1 := WayToForget(body, trace, ids);
        w := [true] + w1;
      } else {
        var d, e :| d in Completing(body) && e in Exits(body) && d >= e;
        w := TwiceAround(body, trace, ids, d, e);
      }
    case _ =>
  }

  lemma TwiceAround(body: Code, trace: seq<Action>, ids: seq<nat>, d: nat, e: nat) returns (w: seq<bool>)
    requires d in Completing(body) && e in Exits(body) && d >= e
    ensures Forgets(RunInstr(Repeat(body), trace, ids, w, None))
  {
    var i := Repeat(body);
    NothingThrough(body);
    var w1 := WayThrough(body, trace, ids, Some(d));
    var r := Run(body, trace, ids, w1, None);
    var w2 := WayToExit(body, r.trace, r.ids, e);
    BodyThenMore(body, trace, ids, w1, [true] + w2, None);
    w := [true] + (w1 + ([true] + w2));
    assert ([true] + w2)[1..] == w2 && w[1..] == w1 + ([true] + w2);
    var last := Run(body, r.trace, r.ids, w2, None);
    assert RunInstr(i, r.trace, r.ids, [true] + w2, None) == last;
    assert RunInstr(i, trace, ids, w, None) == last;
    assert last.At? ==> d in last.ids;
  }

  // ----- a stack without a limit, and one that is deep enough ---------------------------------------------------

  lemma {:induction false} NeverSmashed(c: Code, trace: seq<Action>, ids: seq<nat>, ch: seq<bool>)
    ensures !Run(c, trace, ids, ch, None).Smashed?
    decreases |ch|, c
  {
    if c.Seq? {
      InstrNeverSmashed(c.first, trace, ids, ch);
      var r := RunInstr(c.first, trace, ids, ch, None);
      if r.Through? {
        NeverSmashed(c.rest, r.trace, r.ids, r.left);
      }
    }
  }

  lemma {:induction false} InstrNeverSmashed(i: Instr, trace: seq<Action>, ids: seq<nat>, ch: seq<bool>)
    ensures !RunInstr(i, trace, ids, ch, None).Smashed?
    decreases |ch|, i
  {
    if i.Choose? && ch != [] {
      NeverSmashed(if ch[0] then i.thn else i.els, trace, ids, ch[1..]);
    }
    if i.Repeat? && ch != [] && ch[0] {
      NeverSmashed(i.body, trace, ids, ch[1..]);
      var r := Run(i.body, trace, ids, ch[1..], None);
      if r.Through? {
        InstrNeverSmashed(i, r.trace, r.ids, r.left);
      }
    }
  }

  /** One run needs finitely many entries. */
  lemma {:induction false} DeepEnough(c: Code, trace: seq<Action>, ids: seq<nat>, ch: seq<bool>) returns (depth: nat)
    ensures forall d: nat :: d >= depth ==> Run(c, trace, ids, ch, Some(d)) == Run(c, trace, ids, ch, None)
    decreases |ch|, c
  {
    depth := 0;
    if c.Seq? {
      depth := InstrDeepEnough(c.first, trace, ids, ch);
      var r := RunInstr(c.first, trace, ids, ch, None);
      if r.Through? {
        var more := DeepEnough(c.rest, r.trace, r.ids, r.left);
        depth := Max(depth, more);
      }
    }
  }

  lemma {:induction false} InstrDeepEnough(i: Instr, trace: seq<Action>, ids: seq<nat>, ch: seq<bool>)
    returns (depth: nat)
    ensures forall d: nat :: d >= depth ==> RunInstr(i, trace, ids, ch, Some(d)) == RunInstr(i, trace, ids, ch, None)
    decreases |ch|, i
  {
    depth := |ids| + 1;
    if i.Choose? && ch != [] {
      depth := DeepEnough(if ch[0] then i.thn else i.els, trace, ids, ch[1..]);
    }
    if i.Repeat? && ch != [] && ch[0] {
      depth := DeepEnough(i.body, trace, ids, ch[1..]);
      var r := Run(i.body, trace, ids, ch[1..], None);
      if r.Through? {
        var more := InstrDeepEnough(i, r.trace, r.ids, r.left);
        depth := Max(depth, more);
      }
    }
  }

  // ----- how much can wait -------------------------------------------------------------------------------------------

  /** Whether control can come out at the end of a block, and whether it can break out. */
  predicate MayEnd(b: Block) {
    b.Then? ==> StmtMayEnd(b.first) && MayEnd(b.rest)
  }

  predicate StmtMayEnd(s: Stmt) {
    match s
    case If(thn, els) => MayEnd(thn) || MayEnd(els)
    case Break => false
    case Exit => false
    case _ => true
  }

  predicate MayBreak(b: Block) {
    b.Then? && (StmtMayBreak(b.first) || (StmtMayEnd(b.first) && MayBreak(b.rest)))
  }

  predicate StmtMayBreak(s: Stmt) {
    match s
    case If(thn, els) => MayBreak(thn) || MayBreak(els)
    case Break => true
    case _ => false
  }

  function Max(a: nat, b: nat): nat {
    if a > b then a else b
  }

  /** The most that a way to the end defers; a loop whose turns defer anything counts as too much. */
  function MostAtEnd(b: Block, depth: nat): nat
    decreases b, 0
  {
    if b.End? then 0 else StmtMostAtEnd(b.first, depth) + MostAtEnd(b.rest, depth)
  }

  function StmtMostAtEnd(s: Stmt, depth: nat): nat
    decreases s, 0
  {
    match s
    case Defer(_) => 1
    case If(thn, els) =>
      Max(if MayEnd(thn) then MostAtEnd(thn, depth) else 0,
          if MayEnd(els) then MostAtEnd(els, depth) else 0)
    case For(body) => if Grows(body, depth) then depth + 1 else if MayBreak(body) then MostAtBreak(body, depth) else 0
    case _ => 0
  }

  /** A turn of the loop can complete with more waiting than before. */
  predicate Grows(body: Block, depth: nat)
    decreases body, 1
  {
    MayEnd(body) && MostAtEnd(body, depth) > 0
  }

  /** The most that a way to a break defers. */
  function MostAtBreak(b: Block, depth: nat): nat
    decreases b, 0
  {
    if b.End? then 0
    else
      Max(if StmtMayBreak(b.first) then StmtMostAtBreak(b.first, depth) else 0,
          if StmtMayEnd(b.first) && MayBreak(b.rest)
          then StmtMostAtEnd(b.first, depth) + MostAtBreak(b.rest, depth) else 0)
  }

  function StmtMostAtBreak(s: Stmt, depth: nat): nat
    decreases s, 0
  {
    if s.If? then
      Max(if MayBreak(s.thn) then MostAtBreak(s.thn, depth) else 0,
          if MayBreak(s.els) then MostAtBreak(s.els, depth) else 0)
    else 0
  }

  /** The most that can be waiting anywhere inside. */
  function MostPending(b: Block, depth: nat): nat {
    if b.End? then 0
    else
      Max(StmtMostPending(b.first, depth),
          if StmtMayEnd(b.first) then StmtMostAtEnd(b.first, depth) + MostPending(b.rest, depth) else 0)
  }

  function StmtMostPending(s: Stmt, depth: nat): nat {
    match s
    case Defer(_) => 1
    case If(thn, els) => Max(MostPending(thn, depth), MostPending(els, depth))
    case For(body) => if Grows(body, depth) then depth + 1 else MostPending(body, depth)
    case _ => 0
  }

  /** The generator closes a block exactly where control cannot come out. */
  lemma {:induction false} EndsAlike(b: Block, had: seq<Action>)
    ensures CanNext(EmitBlock(b, had).0) == MayEnd(b) && CanBreak(EmitBlock(b, had).0) == MayBreak(b)
  {
    if b.Then? {
      StmtEndsAlike(b.first, had);
      EndsAlike(b.rest, EmitStmt(b.first, had).1);
    }
  }

  lemma {:induction false} StmtEndsAlike(s: Stmt, had: seq<Action>)
    ensures InstrCanNext(EmitStmt(s, had).0) == StmtMayEnd(s) && InstrCanBreak(EmitStmt(s, had).0) == StmtMayBreak(s)
  {
    if s.If? {
      EndsAlike(s.thn, had);
      EndsAlike(s.els, EmitBlock(s.thn, had).1);
    }
  }

  /** With room for the most that can be waiting, the stack never overruns. */
  lemma {:induction false} StaysWithin(b: Block, had: seq<Action>, trace: seq<Action>, ids: seq<nat>, ch: seq<bool>,
                                       depth: nat)
    requires |ids| + MostPending(b, depth) <= depth
    ensures var r := Run(EmitBlock(b, had).0, trace, ids, ch, Some(depth));
            && !r.Smashed?
            && (r.Through? ==> |r.ids| <= |ids| + MostAtEnd(b, depth))
            && (r.Out? ==> |r.ids| <= |ids| + MostAtBreak(b, depth))
    decreases |ch|, b
  {
    if b.Then? {
      var (i, sites1) := EmitStmt(b.first, had);
      StmtStaysWithin(b.first, had, trace, ids, ch, depth);
      StmtEndsAlike(b.first, had);
      InstrGoesWhereItCan(i, trace, ids, ch, Some(depth));
      var r := RunInstr(i, trace, ids, ch, Some(depth));
      if r.Through? {
        StaysWithin(b.rest, sites1, r.trace, r.ids, r.left, depth);
        EndsAlike(b.rest, sites1);
        GoesWhereItCan(EmitBlock(b.rest, sites1).0, r.trace, r.ids, r.left, Some(depth));
      }
    }
  }

  lemma {:induction false} StmtStaysWithin(s: Stmt, had: seq<Action>, trace: seq<Action>, ids: seq<nat>, ch: seq<bool>,
                                           depth: nat)
    requires |ids| + StmtMostPending(s, depth) <= depth
    ensures var r := RunInstr(EmitStmt(s, had).0, trace, ids, ch, Some(depth));
            && !r.Smashed?
            && (r.Through? ==> |r.ids| <= |ids| + StmtMostAtEnd(s, depth))
            && (r.Out? ==> |r.ids| <= |ids| + StmtMostAtBreak(s, depth))
    decreases |ch|, s
  {
    match s
    case If(thn, els) =>
      if ch != [] {
        var branch, sites := if ch[0] then thn else els, if ch[0] then had else EmitBlock(thn, had).1;
        StaysWithin(branch, sites, trace, ids, ch[1..], depth);
        EndsAlike(branch, sites);
        GoesWhereItCan(EmitBlock(branch, sites).0, trace, ids, ch[1..], Some(depth));
      }
    case For(body) =>
      if ch != [] && ch[0] {
        var c := EmitBlock(body, had).0;
        StaysWithin(body, had, trace, ids, ch[1..], depth);
        EndsAlike(body, had);
        GoesWhereItCan(c, trace, ids, ch[1..], Some(depth));
        var r := Run(c, trace, ids, ch[1..], Some(depth));
        if r.Through? {
          StmtStaysWithin(s, had, r.trace, r.ids, r.left, depth);
          InstrGoesWhereItCan(Repeat(c), trace, ids, ch, Some(depth));
        }
      }
    case _ =>
  }

  /** At least `n` more are waiting, or the stack has overrun. */
  ghost predicate Deep(r: Reached, ids: seq<nat>, n: nat) {
    r.Smashed? || ((r.Through? || r.Out?) && r.left == [] && |r.ids| >= |ids| + n)
  }

  /** Choices that defer the most on the way to the end. */
  lemma {:induction false} DeepestThrough(b: Block, had: seq<Action>, trace: seq<Action>, ids: seq<nat>, depth: nat)
    returns (w: seq<bool>)
    requires MayEnd(b) && |ids| <= depth
    ensures var r := Run(EmitBlock(b, had).0, trace, ids, w, Some(depth)); !r.Out? && Deep(r, ids, MostAtEnd(b, depth))
    decreases b, 0
  {
    w := [];
    if b.Then? {
      var (i, sites1) := EmitStmt(b.first, had);
      StmtEndsAlike(b.first, had);
      var w1 := StmtDeepestThrough(b.first, had, trace, ids, depth);
      var r := RunInstr(i, trace, ids, w1, Some(depth));
      w := w1;
      if r.Through? {
        NeverDeeper(i, trace, ids, w1, depth);
        var w2 := DeepestThrough(b.rest, sites1, r.trace, r.ids, depth);
        w := w1 + w2;
        ThenMore(i, trace, ids, w1, w2, Some(depth));
      }
    }
  }

  lemma {:induction false} StmtDeepestThrough(s: Stmt, had: seq<Action>, trace: seq<Action>, ids: seq<nat>, depth: nat)
    returns (w: seq<bool>)
    requires StmtMayEnd(s) && |ids| <= depth
    ensures var r := RunInstr(EmitStmt(s, had).0, trace, ids, w, Some(depth));
        !r.Out? && Deep(r, ids, StmtMostAtEnd(s, depth))
    decreases s, 0
  {
    w := [];
    match s
    case If(thn, els) =>
      if MayEnd(thn) && (MayEnd(els) ==> MostAtEnd(thn, depth) >= MostAtEnd(els, depth)) {
        var w1 := DeepestThrough(thn, had, trace, ids, depth);
        w := [true] + w1;
      } else {
        var w1 := DeepestThrough(els, EmitBlock(thn, had).1, trace, ids, depth);
        w := [false] + w1;
      }
    case For(body) =>
      if Grows(body, depth) {
        w := OverAndOver(body, had, trace, ids, depth);
      } else if MayBreak(body) {
        var w1 := DeepestOut(body, had, trace, ids, depth);
        w := [true] + w1;
      } else {
        w := [false];
      }
    case _ =>
  }

  /** A loop whose turns can defer overruns the stack in the end. */
  lemma {:induction false} OverAndOver(body: Block, had: seq<Action>, trace: seq<Action>, ids: seq<nat>, depth: nat)
    returns (w: seq<bool>)
    requires Grows(body, depth) && |ids| <= depth
    ensures RunInstr(Repeat(EmitBlock(body, had).0), trace, ids, w, Some(depth)) == Smashed
    decreases body, 1, depth - |ids|
  {
    var c := EmitBlock(body, had).0;
    var w1 := DeepestThrough(body, had, trace, ids, depth);
    var r := Run(c, trace, ids, w1, Some(depth));
    w := [true] + w1;
    if r.Through? {
      BodyNeverDeeper(c, trace, ids, w1, depth);
      var w2 := OverAndOver(body, had, r.trace, r.ids, depth);
      BodyThenMore(c, trace, ids, w1, w2, Some(depth));
      w := [true] + (w1 + w2);
    }
  }

  lemma {:induction false} DeepestOut(b: Block, had: seq<Action>, trace: seq<Action>, ids: seq<nat>, depth: nat)
    returns (w: seq<bool>)
    requires MayBreak(b) && |ids| <= depth
    ensures var r := Run(EmitBlock(b, had).0, trace, ids, w, Some(depth));
        !r.Through? && Deep(r, ids, MostAtBreak(b, depth))
    decreases b, 0
  {
    var s := b.first;
    var (i, sites1) := EmitStmt(s, had);
    StmtEndsAlike(s, had);
    var here := if StmtMayBreak(s) then StmtMostAtBreak(s, depth) else 0;
    if StmtMayBreak(s) && (StmtMayEnd(s) && MayBreak(b.rest) ==>
        here >= StmtMostAtEnd(s, depth) + MostAtBreak(b.rest, depth)) {
      w := StmtDeepestOut(s, had, trace, ids, depth);
    } else {
      var w1 := StmtDeepestThrough(s, had, trace, ids, depth);
      var r := RunInstr(i, trace, ids, w1, Some(depth));
      w := w1;
      if r.Through? {
        NeverDeeper(i, trace, ids, w1, depth);
        var w2 := DeepestOut(b.rest, sites1, r.trace, r.ids, depth);
        w := w1 + w2;
        ThenMore(i, trace, ids, w1, w2, Some(depth));
      }
    }
  }

  lemma {:induction false} StmtDeepestOut(s: Stmt, had: seq<Action>, trace: seq<Action>, ids: seq<nat>, depth: nat)
    returns (w: seq<bool>)
    requires StmtMayBreak(s) && |ids| <= depth
    ensures var r := RunInstr(EmitStmt(s, had).0, trace, ids, w, Some(depth));
        !r.Through? && Deep(r, ids, StmtMostAtBreak(s, depth))
    decreases s, 0
  {
    w := [];
    if s.If? {
      if MayBreak(s.thn) && (MayBreak(s.els) ==> MostAtBreak(s.thn, depth) >= MostAtBreak(s.els, depth)) {
        var w1 := DeepestOut(s.thn, had, trace, ids, depth);
        w := [true] + w1;
      } else {
        var w1 := DeepestOut(s.els, EmitBlock(s.thn, had).1, trace, ids, depth);
        w := [false] + w1;
      }
    }
  }

  /** Whatever is reached, the stack holds no more than its entries. */
  lemma {:induction false} BodyNeverDeeper(c: Code, trace: seq<Action>, ids: seq<nat>, ch: seq<bool>, depth: nat)
    requires |ids| <= depth
    ensures var r := Run(c, trace, ids, ch, Some(depth)); r.Through? || r.Out? ==> |r.ids| <= depth
    decreases |ch|, c
  {
    if c.Seq? {
      NeverDeeper(c.first, trace, ids, ch, depth);
      var r := RunInstr(c.first, trace, ids, ch, Some(depth));
      if r.Through? {
        BodyNeverDeeper(c.rest, r.trace, r.ids, r.left, depth);
      }
    }
  }

  lemma {:induction false} NeverDeeper(i: Instr, trace: seq<Action>, ids: seq<nat>, ch: seq<bool>, depth: nat)
    requires |ids| <= depth
    ensures var r := RunInstr(i, trace, ids, ch, Some(depth)); r.Through? || r.Out? ==> |r.ids| <= depth
    decreases |ch|, i
  {
    if i.Choose? && ch != [] {
      BodyNeverDeeper(if ch[0] then i.thn else i.els, trace, ids, ch[1..], depth);
    }
    if i.Repeat? && ch != [] && ch[0] {
      BodyNeverDeeper(i.body, trace, ids, ch[1..], depth);
      var r := Run(i.body, trace, ids, ch[1..], Some(depth));
      if r.Through? {
        NeverDeeper(i, r.trace, r.ids, r.left, depth);
      }
    }
  }

  /** Without that room, choices exist that overrun it. */
  lemma {:induction false} WayToOverrun(b: Block, had: seq<Action>, trace: seq<Action>, ids: seq<nat>, depth: nat)
    returns (w: seq<bool>)
    requires |ids| <= depth < |ids| + MostPending(b, depth)
    ensures Run(EmitBlock(b, had).0, trace, ids, w, Some(depth)) == Smashed
    decreases b
  {
    var s := b.first;
    var (i, sites1) := EmitStmt(s, had);
    StmtEndsAlike(s, had);
    if |ids| + StmtMostPending(s, depth) > depth {
      w := StmtWayToOverrun(s, had, trace, ids, depth);
    } else {
      var w1 := StmtDeepestThrough(s, had, trace, ids, depth);
      var r := RunInstr(i, trace, ids, w1, Some(depth));
      w := w1;
      if r.Through? {
        NeverDeeper(i, trace, ids, w1, depth);
        var w2 := WayToOverrun(b.rest, sites1, r.trace, r.ids, depth);
        w := w1 + w2;
        ThenMore(i, trace, ids, w1, w2, Some(depth));
      }
    }
  }

  lemma {:induction false} StmtWayToOverrun(s: Stmt, had: seq<Action>, trace: seq<Action>, ids: seq<nat>, depth: nat)
    returns (w: seq<bool>)
    requires |ids| <= depth < |ids| + StmtMostPending(s, depth)
    ensures RunInstr(EmitStmt(s, had).0, trace, ids, w, Some(depth)) == Smashed
    decreases s
  {
    w := [];
    match s
    case If(thn, els) =>
      if |ids| + MostPending(thn, depth) > depth {
        var w1 := WayToOverrun(thn, had, trace, ids, depth);
        w := [true] + w1;
      } else {
        var w1 := WayToOverrun(els, EmitBlock(thn, had).1, trace, ids, depth);
        w := [false] + w1;
      }
    case For(body) =>
      if Grows(body, depth) {
        w := OverAndOver(body, had, trace, ids, depth);
      } else {
        var w1 := WayToOverrun(body, had, trace, ids, depth);
        w := [true] + w1;
      }
    case _ =>
  }

  // ----- which defers can be forgotten -------------------------------------------------------------------------------

  /** Control can reach an exit inside. */
  predicate HasExit(b: Block) {
    b.Then? && (StmtHasExit(b.first) || (StmtMayEnd(b.first) && HasExit(b.rest)))
  }

  predicate StmtHasExit(s: Stmt) {
    match s
    case Exit => true
    case If(thn, els) => HasExit(thn) || HasExit(els)
    case For(body) => HasExit(body)
    case _ => false
  }

  /** A way to the end passes a defer with an exit before it in the text; `before`: there is one already. */
  predicate LateAtEnd(b: Block, before: bool) {
    b.Then? && MayEnd(b) && (StmtLateAtEnd(b.first, before) || LateAtEnd(b.rest, before || StmtHasExit(b.first)))
  }

  predicate StmtLateAtEnd(s: Stmt, before: bool) {
    match s
    case Defer(_) => before
    case If(thn, els) => LateAtEnd(thn, before) || LateAtEnd(els, before || HasExit(thn))
    case For(body) => LateAtEnd(body, before) || LateAtBreak(body, before)
    case _ => false
  }

  /** The same for a way to a break. */
  predicate LateAtBreak(b: Block, before: bool) {
    b.Then? &&
    (|| StmtLateAtBreak(b.first, before)
     || (StmtMayEnd(b.first) && MayBreak(b.rest)
         && (StmtLateAtEnd(b.first, before) || LateAtBreak(b.rest, before || StmtHasExit(b.first)))))
  }

  predicate StmtLateAtBreak(s: Stmt, before: bool) {
    s.If? && (LateAtBreak(s.thn, before) || LateAtBreak(s.els, before || HasExit(s.thn)))
  }

  /** In no loop does an exit stand before a defer that a completing turn may pass. */
  predicate NoneForgotten(b: Block) {
    b.Then? ==> StmtNoneForgotten(b.first) && (StmtMayEnd(b.first) ==> NoneForgotten(b.rest))
  }

  predicate StmtNoneForgotten(s: Stmt) {
    match s
    case If(thn, els) => NoneForgotten(thn) && NoneForgotten(els)
    case For(body) => NoneForgotten(body) && !LateAtEnd(body, false)
    case _ => true
  }

  /** Some site follows an exit: one inside, or one that came before everything here. */
  ghost predicate Late(sites: set<nat>, exits: set<nat>, before: bool) {
    exists d :: d in sites && (before || exists e :: e in exits && e <= d)
  }

  lemma LateThen(s1: set<nat>, s2: set<nat>, e1: set<nat>, e2: set<nat>, before: bool, mid: nat)
    requires (forall d :: d in s1 ==> d < mid) && (forall d :: d in s2 ==> mid <= d)
    requires (forall e :: e in e1 ==> e <= mid) && (forall e :: e in e2 ==> mid <= e)
    ensures Late(s1 + s2, e1 + e2, before) <==> Late(s1, e1, before) || Late(s2, e2, before || e1 != {})
  {
    if Late(s2, e2, before || e1 != {}) {
      var d :| d in s2 && (before || e1 != {} || exists e :: e in e2 && e <= d);
      if e1 != {} {
        var e :| e in e1;
        assert e in e1 + e2 && e <= d;
      }
      assert d in s1 + s2;
    }
    if Late(s1, e1, before) {
      var d :| d in s1 && (before || exists e :: e in e1 && e <= d);
      assert d in s1 + s2;
    }
  }

  lemma LateEither(s1: set<nat>, s2: set<nat>, exits: set<nat>, before: bool)
    ensures Late(s1 + s2, exits, before) <==> Late(s1, exits, before) || Late(s2, exits, before)
  {
    forall d | d in s1 || d in s2
      ensures d in s1 + s2
    {
    }
  }

  lemma LateOne(id: nat, before: bool)
    ensures Late({id}, {}, before) == before
    ensures forall exits :: !Late({}, exits, before)
  {
    if before {
      assert id in {id};
    }
  }

  /** Text order is number order. */
  lemma {:induction false} LateAlike(b: Block, had: seq<Action>, before: bool)
    ensures var c := EmitBlock(b, had).0;
            && (Exits(c) != {} <==> HasExit(b))
            && (Late(Completing(c), Exits(c), before) <==> LateAtEnd(b, before))
            && (Late(Breaking(c), Exits(c), before) <==> LateAtBreak(b, before))
    decreases b, 2
  {
    hide Late;
    LateOne(0, before);
    if b.Then? {
      var (i, sites1) := EmitStmt(b.first, had);
      var rest := EmitBlock(b.rest, sites1).0;
      var mid := |sites1|;
      StmtEndsAlike(b.first, had);
      EndsAlike(b.rest, sites1);
      StmtLateAlike(b.first, had, before);
      LateAlike(b.rest, sites1, before || StmtHasExit(b.first));
      InstrEmittedNumbered(b.first, had);
      EmittedNumbered(b.rest, sites1);
      if InstrCanNext(i) {
        SequenceSets(i, rest);
        LateSequence(i, rest, before, mid);
        assert (before || InstrExits(i) != {}) == (before || StmtHasExit(b.first));
      } else {
        SequenceSets(i, Halt);
        assert InstrBreaking(i) + {} == InstrBreaking(i) && InstrExits(i) + {} == InstrExits(i);
      }
      hide Completing, Breaking, Exits, InstrCompleting, InstrBreaking, InstrExits, EmitStmt, CanNext, CanBreak,
          InstrCanNext, InstrCanBreak;
    }
  }

  lemma SequenceSets(i: Instr, rest: Code)
    ensures Completing(Seq(i, rest))
         == if InstrCanNext(i) && CanNext(rest) then InstrCompleting(i) + Completing(rest) else {}
    ensures Breaking(Seq(i, rest)) == InstrBreaking(i)
              + if InstrCanNext(i) && CanBreak(rest) then InstrCompleting(i) + Breaking(rest) else {}
    ensures Exits(Seq(i, rest)) == InstrExits(i) + if InstrCanNext(i) then Exits(rest) else {}
  {
  }

  lemma LateSequence(i: Instr, rest: Code, before: bool, mid: nat)
    requires Within(InstrCompleting(i), 0, mid) && Within(InstrBreaking(i), 0, mid) && Within(InstrExits(i), 0, mid + 1)
    requires forall x :: x in Completing(rest) || x in Breaking(rest) || x in Exits(rest) ==> mid <= x
    ensures var ic, ib, ie, after := InstrCompleting(i), InstrBreaking(i), InstrExits(i), before || InstrExits(i) != {};
            && (Late(ic + Completing(rest), ie + Exits(rest), before) <==>
                Late(ic, ie, before) || Late(Completing(rest), Exits(rest), after))
            && (Late(ib + (ic + Breaking(rest)), ie + Exits(rest), before) <==>
                Late(ib, ie, before) || Late(ic, ie, before) || Late(Breaking(rest), Exits(rest), after))
            && (Late(ib + {}, ie + Exits(rest), before) <==> Late(ib, ie, before))
  {
    hide Late;
    var ic, ib, ie := InstrCompleting(i), InstrBreaking(i), InstrExits(i);
    LateOne(0, before || ie != {});
    LateThen(ic, Completing(rest), ie, Exits(rest), before, mid);
    LateEither(ib, ic, ie, before);
    LateThen(ib + ic, Breaking(rest), ie, Exits(rest), before, mid);
    LateThen(ib, {}, ie, Exits(rest), before, mid);
    assert ib + (ic + Breaking(rest)) == ib + ic + Breaking(rest);
  }

  lemma {:induction false} StmtLateAlike(s: Stmt, had: seq<Action>, before: bool)
    ensures var i := EmitStmt(s, had).0;
            && (InstrExits(i) != {} <==> StmtHasExit(s))
            && (Late(InstrCompleting(i), InstrExits(i), before) <==> StmtLateAtEnd(s, before))
            && (Late(InstrBreaking(i), InstrExits(i), before) <==> StmtLateAtBreak(s, before))
    decreases s, 1
  {
    match s
    case If(_, _) => IfLateAlike(s, had, before);
    case For(_) => ForLateAlike(s, had, before);
    case _ =>
      hide Late;
      LateOne(|had|, before);
  }

  lemma {:induction false} ForLateAlike(s: Stmt, had: seq<Action>, before: bool)
    requires s.For?
    ensures var i := EmitStmt(s, had).0;
            && (InstrExits(i) != {} <==> StmtHasExit(s))
            && (Late(InstrCompleting(i), InstrExits(i), before) <==> StmtLateAtEnd(s, before))
            && (Late(InstrBreaking(i), InstrExits(i), before) <==> StmtLateAtBreak(s, before))
    decreases s, 0
  {
    hide Late, Completing, Breaking, Exits, EmitBlock, LateAtEnd, LateAtBreak, HasExit;
    var c := EmitBlock(s.body, had).0;
    LateAlike(s.body, had, before);
    LateEither(Completing(c), Breaking(c), Exits(c), before);
    LateOne(0, before);
  }

  lemma {:induction false} IfLateAlike(s: Stmt, had: seq<Action>, before: bool)
    requires s.If?
    ensures var i := EmitStmt(s, had).0;
            && (InstrExits(i) != {} <==> StmtHasExit(s))
            && (Late(InstrCompleting(i), InstrExits(i), before) <==> StmtLateAtEnd(s, before))
            && (Late(InstrBreaking(i), InstrExits(i), before) <==> StmtLateAtBreak(s, before))
    decreases s, 0
  {
    hide Late, Completing, Breaking, Exits, EmitBlock, LateAtEnd, LateAtBreak, HasExit;
    var (c1, sites1) := EmitBlock(s.thn, had);
    var c2 := EmitBlock(s.els, sites1).0;
    LateAlike(s.thn, had, before);
    LateAlike(s.els, sites1, before || HasExit(s.thn));
    BranchesApart(s.thn, s.els, had);
    LateBranches(c1, c2, before, |sites1|);
    assert (before || Exits(c1) != {}) == (before || HasExit(s.thn));
  }

  lemma BranchesApart(thn: Block, els: Block, had: seq<Action>)
    ensures var (c1, sites1) := EmitBlock(thn, had); var c2 := EmitBlock(els, sites1).0; var mid := |sites1|;
            && Within(Completing(c1), 0, mid) && Within(Breaking(c1), 0, mid) && Within(Exits(c1), 0, mid + 1)
            && forall x :: x in Completing(c2) || x in Breaking(c2) || x in Exits(c2) ==> mid <= x
  {
    hide Completing, Breaking, Exits, EmitBlock;
    EmittedNumbered(thn, had);
    EmittedNumbered(els, EmitBlock(thn, had).1);
  }

  lemma LateBranches(c1: Code, c2: Code, before: bool, mid: nat)
    requires Within(Completing(c1), 0, mid) && Within(Breaking(c1), 0, mid) && Within(Exits(c1), 0, mid + 1)
    requires forall x :: x in Completing(c2) || x in Breaking(c2) || x in Exits(c2) ==> mid <= x
    ensures var after := before || Exits(c1) != {};
            && (Late(Completing(c1) + Completing(c2), Exits(c1) + Exits(c2), before) <==>
                Late(Completing(c1), Exits(c1), before) || Late(Completing(c2), Exits(c2), after))
            && (Late(Breaking(c1) + Breaking(c2), Exits(c1) + Exits(c2), before) <==>
                Late(Breaking(c1), Exits(c1), before) || Late(Breaking(c2), Exits(c2), after))
  {
    hide Late, Completing, Breaking, Exits;
    LateThen(Completing(c1), Completing(c2), Exits(c1), Exits(c2), before, mid);
    LateThen(Breaking(c1), Breaking(c2), Exits(c1), Exits(c2), before, mid);
  }

  lemma NotLate(sites: set<nat>, exits: set<nat>)
    ensures !Late(sites, exits, false) <==> forall d, e :: d in sites && e in exits ==> d < e
  {
    if Late(sites, exits, false) {
      var d :| d in sites && exists e :: e in exits && e <= d;
      var e :| e in exits && e <= d;
    }
  }

  /** The condition on the source is the condition on the code. */
  lemma {:induction false} ForgottenAlike(b: Block, had: seq<Action>)
    ensures Safe(EmitBlock(b, had).0) <==> NoneForgotten(b)
  {
    if b.Then? {
      StmtEndsAlike(b.first, had);
      StmtForgottenAlike(b.first, had);
      ForgottenAlike(b.rest, EmitStmt(b.first, had).1);
    }
  }

  lemma {:induction false} StmtForgottenAlike(s: Stmt, had: seq<Action>)
    ensures InstrSafe(EmitStmt(s, had).0) <==> StmtNoneForgotten(s)
  {
    match s
    case If(thn, els) =>
      ForgottenAlike(thn, had);
      ForgottenAlike(els, EmitBlock(thn, had).1);
    case For(body) =>
      var c := EmitBlock(body, had).0;
      ForgottenAlike(body, had);
      LateAlike(body, had, false);
      NotLate(Completing(c), Exits(c));
      hide Late;
    case _ =>
  }

  // ----- exactly when the promise is kept ----------------------------------------------------------------------------

  /**
   As far as the stack reaches, every exit runs everything deferred, last first, if and only if in no
   loop an exit stands before a defer that a completing turn may pass.  The number of entries plays no part.
   */
  lemma NothingForgottenExactly(b: Block)
    requires !MayBreak(b)
    ensures (forall ch, depth: nat :: KeptInside(b, ch, Some(depth))) <==> NoneForgotten(b)
    ensures (forall ch :: Emitted(b, ch, None) == Promised(b, ch)) <==> NoneForgotten(b)
  {
    if NoneForgotten(b) {
      forall ch, limit: Option<nat> ensures KeptInside(b, ch, limit) {
        PromiseKept(b, ch, limit);
      }
      forall ch ensures Emitted(b, ch, None) == Promised(b, ch) {
        PromiseKept(b, ch, None);
        NeverSmashed(EmitBlock(b, []).0, [], [], ch);
      }
    } else {
      var ch, depth := PromiseBroken(b);
    }
  }

  /** Some run overruns a stack of `depth` entries if and only if more than that can be waiting. */
  lemma OverrunExactly(b: Block, depth: nat)
    ensures (exists ch :: Emitted(b, ch, Some(depth)) == Overrun) <==> MostPending(b, depth) > depth
  {
    if MostPending(b, depth) > depth {
      var ch := WayToOverrun(b, [], [], [], depth);
      assert Emitted(b, ch, Some(depth)) == Overrun;
    } else {
      forall ch ensures Emitted(b, ch, Some(depth)) != Overrun {
        StaysWithin(b, [], [], [], ch, depth);
      }
    }
  }

  /**
   With the 1024 entries the generator reserves: every run keeps the promise if and only if never more
   than 1024 defers can wait.  A loop that could forget something could also go on until the stack overruns.
   */
  lemma DeferredRunExactly(b: Block)
    requires !MayBreak(b)
    ensures (forall ch :: Emitted(b, ch, Some(DEPTH)) == Promised(b, ch)) <==> MostPending(b, DEPTH) <= DEPTH
  {
    OverrunExactly(b, DEPTH);
    if MostPending(b, DEPTH) <= DEPTH {
      BoundedForgetsNothing(b, DEPTH);
      forall ch ensures Emitted(b, ch, Some(DEPTH)) == Promised(b, ch) {
        PromiseKept(b, ch, Some(DEPTH));
      }
    } else {
      var ch :| Emitted(b, ch, Some(DEPTH)) == Overrun;
      assert Promised(b, ch) != Overrun;
    }
  }

  /** The run overruns the stack or does what the language promises. */
  ghost predicate KeptInside(b: Block, ch: seq<bool>, limit: Option<nat>) {
    Emitted(b, ch, limit) == Overrun || Emitted(b, ch, limit) == Promised(b, ch)
  }

  lemma PromiseKept(b: Block, ch: seq<bool>, limit: Option<nat>)
    requires NoneForgotten(b) && !MayBreak(b)
    ensures KeptInside(b, ch, limit)
  {
    var (c, sites) := EmitBlock(b, []);
    ForgottenAlike(b, []);
    EndsAlike(b, []);
    CodeFollows(b, [], sites, [], [], ch, limit);
    GoesWhereItCan(c, [], [], ch, limit);
    NoneUnknown(b, [], [], [], ch, limit);
    EmittedNumbered(b, []);
    assert Acts([], sites) == [];
    match Run(c, [], [], ch, limit)
    case At(_, ids, known) => AllKnown(ids, known, sites);
    case Through(_, ids, _) => AllKnown(ids, |sites|, sites);
    case _ =>
  }

  /** Otherwise some exit leaves something out, and a stack of some depth holds all that waits there. */
  lemma PromiseBroken(b: Block) returns (ch: seq<bool>, depth: nat)
    requires !NoneForgotten(b)
    ensures !KeptInside(b, ch, Some(depth)) && !KeptInside(b, ch, None)
  {
    var (c, sites) := EmitBlock(b, []);
    ForgottenAlike(b, []);
    ch := WayToForget(c, [], []);
    depth := DeepEnough(c, [], [], ch);
    var r := Run(c, [], [], ch, None);
    CodeFollows(b, [], sites, [], [], ch, None);
    assert Acts([], sites) == [];
    var d :| d in r.ids && d >= r.known;
    SomeUnknown(r.ids, r.known, sites, d);
    ReversedLength(Acts(r.ids, sites));
    assert |Emitted(b, ch, None).events| < |Promised(b, ch).events|;
    assert Run(c, [], [], ch, Some(depth)) == r;
  }

  /** Where the number of waiting defers is bounded, no loop's completing turn passes a defer at all. */
  lemma {:induction false} BoundedForgetsNothing(b: Block, depth: nat)
    requires MostPending(b, depth) <= depth
    ensures NoneForgotten(b)
  {
    if b.Then? {
      StmtBoundedForgetsNothing(b.first, depth);
      if StmtMayEnd(b.first) {
        BoundedForgetsNothing(b.rest, depth);
      }
    }
  }

  lemma {:induction false} StmtBoundedForgetsNothing(s: Stmt, depth: nat)
    requires StmtMostPending(s, depth) <= depth
    ensures StmtNoneForgotten(s)
  {
    match s
    case If(thn, els) =>
      BoundedForgetsNothing(thn, depth);
      BoundedForgetsNothing(els, depth);
    case For(body) =>
      BoundedForgetsNothing(body, depth);
      LateCounts(body, false, depth);
    case _ =>
  }

  lemma {:induction false} LateCounts(b: Block, before: bool, depth: nat)
    ensures LateAtEnd(b, before) ==> MayEnd(b) && MostAtEnd(b, depth) > 0
    ensures LateAtBreak(b, before) ==> MayBreak(b) && MostAtBreak(b, depth) > 0
  {
    if b.Then? {
      StmtLateCounts(b.first, before, depth);
      LateCounts(b.rest, before || StmtHasExit(b.first), depth);
    }
  }

  lemma {:induction false} StmtLateCounts(s: Stmt, before: bool, depth: nat)
    ensures StmtLateAtEnd(s, before) ==> StmtMayEnd(s) && StmtMostAtEnd(s, depth) > 0
    ensures StmtLateAtBreak(s, before) ==> StmtMayBreak(s) && StmtMostAtBreak(s, depth) > 0
  {
    match s
    case If(thn, els) =>
      LateCounts(thn, before, depth);
      LateCounts(els, before || HasExit(thn), depth);
    case For(body) =>
      LateCounts(body, before, depth);
    case _ =>
  }

  // ----- a loop that forgets and a loop that overruns ----------------------------------------------------------------

  /** for c1 { if c2 { ret } defer { 7 } } */
  const FORGETFUL := Then(For(Then(If(Then(Exit, End), End), Then(Defer(7), End))), End)
  const TURN := Seq(Choose(Seq(Return(0), Halt), Halt), Seq(Register(0), Halt))
  const CHOICES := [true, false, true, true]

  /** The second turn leaves without running the first one's defer. */
  lemma ForgetfulLoop()
    ensures Promised(FORGETFUL, CHOICES) == Ran([7])
    ensures Emitted(FORGETFUL, CHOICES, Some(DEPTH)) == Ran([])
    ensures !NoneForgotten(FORGETFUL)
  {
    hide NoneForgotten, Run, Exec, EmitBlock;
    ForgetfulUnsafe();
    ForgetfulEmitted();
    ForgetfulRun();
    CodeFollows(FORGETFUL, [], [7], [], [], CHOICES, Some(DEPTH));
    assert Acts([], [7]) == [] && Acts([0], [7]) == [7] && Reversed([7]) == [7];
    assert [0][..0] == [] && Dispatched([0], 0, [7]) == Dispatched([], 0, [7]) == [];
  }

  lemma ForgetfulUnsafe()
    ensures !NoneForgotten(FORGETFUL)
  {
    var leave := If(Then(Exit, End), End);
    assert HasExit(leave.thn) && MayEnd(leave.els);
    ExitBeforeDefer(leave, 7);
  }

  /** for c { s; defer { a } }, where s may exit */
  lemma ExitBeforeDefer(s: Stmt, a: Action)
    requires StmtHasExit(s) && StmtMayEnd(s)
    ensures !NoneForgotten(Then(For(Then(s, Then(Defer(a), End))), End))
  {
    var later := Then(Defer(a), End);
    assert StmtMayEnd(later.first) && StmtLateAtEnd(later.first, true) && MayEnd(later.rest);
    assert MayEnd(later) && LateAtEnd(later, true);
    assert LateAtEnd(Then(s, later), false);
    assert !StmtNoneForgotten(For(Then(s, later)));
  }

  lemma ForgetfulEmitted()
    ensures EmitBlock(FORGETFUL, []) == (Seq(Repeat(TURN), Halt), [7])
  {
    assert EmitBlock(Then(Exit, End), []) == (Seq(Return(0), Halt), []);
    assert EmitStmt(If(Then(Exit, End), End), []) == (Choose(Seq(Return(0), Halt), Halt), []);
    var none: seq<Action> := [];
    assert none + [7] == [7];
    assert EmitStmt(Defer(7), none) == (Register(0), [7]) && InstrCanNext(Register(0));
    assert EmitBlock(End, [7]) == (Halt, [7]);
    assert EmitBlock(Then(Defer(7), End), []) == (Seq(Register(0), Halt), [7]);
    assert InstrCanNext(Choose(Seq(Return(0), Halt), Halt));
    assert EmitBlock(FORGETFUL.first.body, []) == (TURN, [7]);
  }

  lemma ForgetfulRun()
    ensures Run(Seq(Repeat(TURN), Halt), [], [], CHOICES, Some(DEPTH)) == At([], [0], 0)
  {
    assert CHOICES[1..] == [false, true, true] && [false, true, true][1..] == [true, true] &&
        [true, true][1..] == [true];
    assert Run(TURN, [], [], CHOICES[1..], Some(DEPTH)) == Through([], [0], [true, true]) by {
      assert RunInstr(TURN.first, [], [], [false, true, true], Some(DEPTH)) == Through([], [], [true, true]);
      assert [] + [0] == [0];
    }
    assert Run(TURN, [], [0], [true], Some(DEPTH)) == At([], [0], 0) by {
      assert RunInstr(TURN.first, [], [0], [true], Some(DEPTH)) == At([], [0], 0);
    }
    assert RunInstr(Repeat(TURN), [], [0], [true, true], Some(DEPTH)) == At([], [0], 0);
  }

  /** for c { defer { 7 } } */
  const HOARDING := Then(For(Then(Defer(7), End)), End)

  function Turns(n: nat): seq<bool> {
    seq(n, _ => true)
  }

  /** The 1025th turn overruns the stack; nothing is forgotten otherwise. */
  lemma HoardingLoop(more: seq<bool>)
    ensures Emitted(HOARDING, Turns(1025) + more, Some(DEPTH)) == Overrun
    ensures NoneForgotten(HOARDING) && MostPending(HOARDING, DEPTH) > DEPTH
  {
    var body := Then(Defer(7), End);
    assert EmitStmt(Defer(7), []) == (Register(0), [] + [7]);
    var c := EmitBlock(body, []).0;
    assert c == Seq(Register(0), Halt);
    Hoards([], 1025, more);
  }

  lemma {:induction false} Hoards(ids: seq<nat>, n: nat, more: seq<bool>)
    requires |ids| <= DEPTH < |ids| + n
    ensures RunInstr(Repeat(Seq(Register(0), Halt)), [], ids, Turns(n) + more, Some(DEPTH)) == Smashed
    decreases n
  {
    var ch := Turns(n) + more;
    assert ch[0] && ch[1..] == Turns(n - 1) + more;
    if |ids| < DEPTH {
      assert Run(Seq(Register(0), Halt), [], ids, ch[1..], Some(DEPTH)) == Through([], ids + [0], ch[1..]);
      Hoards(ids + [0], n - 1, more);
    } else {
      assert Run(Seq(Register(0), Halt), [], ids, ch[1..], Some(DEPTH)) == Smashed;
    }
  }

  // ----- the generator's list and the frame's stack ------------------------------------------------------------------

  /** emit_block, emit_stmt and emit_defer, which append to `defer_sites`. */
  class SiteEmitter {
    var sites: seq<Action>

    constructor ()
      ensures sites == []
    {
      sites := [];
    }

    method EmitStatements(b: Block) returns (c: Code)
      modifies this
      ensures (c, sites) == EmitBlock(b, old(sites))
      decreases b
    {
      c := Halt;
      if b.Then? {
        var i := EmitStatement(b.first);
        if InstrCanNext(i) {
          var rest := EmitStatements(b.rest);
          c := Seq(i, rest);
        } else {
          c := Seq(i, Halt);
        }
      }
    }

    method EmitStatement(s: Stmt) returns (i: Instr)
      modifies this
      ensures (i, sites) == EmitStmt(s, old(sites))
      decreases s
    {
      match s
      case Act(a) => i := Do(a);
      case Break => i := Jump;
      case Exit => i := Return(|sites|);
      case Defer(a) =>
        i := Register(|sites|);
        sites := sites + [a];
      case If(thn, els) =>
        var c1 := EmitStatements(thn);
        var c2 := EmitStatements(els);
        i := Choose(c1, c2);
      case For(body) =>
        var c := EmitStatements(body);
        i := Repeat(c);
    }
  }

  /** How the emitted code stops: behind its end, at a break, at an exit, or not at all. */
  datatype Stop = Ended | BrokeOff | Leaving(known: nat) | Overran | Starved

  ghost predicate Agrees(stop: Stop, done: seq<Action>, ids: seq<nat>, left: seq<bool>, r: Reached) {
    match r
    case Through(trace, now, rest) => stop.Ended? && done == trace && ids == now && left == rest
    case Out(trace, now, rest) => stop.BrokeOff? && done == trace && ids == now && left == rest
    case At(trace, now, known) => stop == Leaving(known) && done == trace && ids == now
    case Smashed => stop.Overran?
    case Nowhere => stop.Starved?
  }

  /** __nc_defer_stack and __nc_defer_top. */
  class DeferFrame {
    const stack: array<nat>
    var top: nat

    ghost predicate Valid()
      reads this
    {
      stack.Length == DEPTH && top <= DEPTH
    }

    ghost function Ids(): seq<nat>
      requires Valid()
      reads this, stack
    {
      stack[..top]
    }

    constructor ()
      ensures Valid() && fresh(stack) && Ids() == []
    {
      stack := new nat[DEPTH];
      top := 0;
    }

    /** emit_defer; the generated code does not look at the depth. */
    method Push(id: nat)
      requires Valid() && top < DEPTH
      modifies this, stack
      ensures Valid() && Ids() == old(Ids()) + [id]
    {
      stack[top] := id;
      top := top + 1;
    }

    /** The emitted instructions at work on this frame. */
    method Execute(c: Code, trace: seq<Action>, ch: seq<bool>)
      returns (stop: Stop, done: seq<Action>, left: seq<bool>)
      requires Valid()
      modifies this, stack
      ensures Valid() && Agrees(stop, done, Ids(), left, Run(c, trace, old(Ids()), ch, Some(DEPTH)))
      decreases |ch|, c
    {
      stop, done, left := Ended, trace, ch;
      if c.Seq? {
        stop, done, left := ExecuteInstr(c.first, trace, ch);
        if stop.Ended? {
          stop, done, left := Execute(c.rest, done, left);
        }
      }
    }

    method ExecuteInstr(i: Instr, trace: seq<Action>, ch: seq<bool>)
      returns (stop: Stop, done: seq<Action>, left: seq<bool>)
      requires Valid()
      modifies this, stack
      ensures Valid() && Agrees(stop, done, Ids(), left, RunInstr(i, trace, old(Ids()), ch, Some(DEPTH)))
      decreases |ch|, i
    {
      stop, done, left := Ended, trace, ch;
      match i
      case Do(a) => done := trace + [a];
      case Jump => stop := BrokeOff;
      case Return(known) => stop := Leaving(known);
      case Register(id) =>
        if top == DEPTH {
          stop := Overran;
        } else {
          Push(id);
        }
      case Choose(thn, els) =>
        if ch == [] {
          stop := Starved;
        } else {
          stop, done, left := Execute(if ch[0] then thn else els, trace, ch[1..]);
        }
      case Repeat(body) =>
        while left != [] && left[0]
          invariant Valid() && stop.Ended? && |left| <= |ch|
          invariant RunInstr(i, done, Ids(), left, Some(DEPTH)) == RunInstr(i, trace, old(Ids()), ch, Some(DEPTH))
          decreases |left|
        {
          stop, done, left := Execute(body, done, left[1..]);
          if stop.BrokeOff? {
            stop := Ended;
            return;
          }
          if !stop.Ended? {
            return;
          }
        }
        if left == [] {
          stop := Starved;
        } else {
          left := left[1..];
        }
    }

    /** emit_deferred at an exit that knows `known` sites; afterwards nothing waits. */
    method RunDeferred(known: nat, sites: seq<Action>) returns (ran: seq<Action>)
      requires Valid() && known <= |sites|
      modifies this
      ensures Valid() && Ids() == []
      ensures ran == Dispatched(old(Ids()), known, sites)
    {
      ran := [];
      while top > 0
        invariant Valid() && ran + Dispatched(Ids(), known, sites) == Dispatched(old(Ids()), known, sites)
      {
        ghost var ids, before := Ids(), ran;
        var body := SelectSite(stack[top - 1], known, sites);
        ran := ran + body;
        top := top - 1;
        assert ids[..|ids| - 1] == Ids();
        Regrouped(before, body, Dispatched(Ids(), known, sites));
      }
    }
  }

  /** Emits the body of a function and runs it on a frame of its own. */
  method RunEmitted(b: Block, ch: seq<bool>) returns (whole: Whole)
    ensures whole == Emitted(b, ch, Some(DEPTH))
  {
    var emitter := new SiteEmitter();
    var c := emitter.EmitStatements(b);
    var frame := new DeferFrame();
    var stop, done, left := frame.Execute(c, [], ch);
    ExitsListed(c, [], [], ch, Some(DEPTH));
    EmittedNumbered(b, []);
    match stop
    case Overran => whole := Overrun;
    case Ended =>
      var ran := frame.RunDeferred(|emitter.sites|, emitter.sites);
      whole := Ran(done + ran);
    case Leaving(known) =>
      var ran := frame.RunDeferred(known, emitter.sites);
      whole := Ran(done + ran);
    case _ => whole := Undecided;
  }

  /** The chain of comparisons in the dispatch loop. */
  method SelectSite(site: nat, known: nat, sites: seq<Action>) returns (ran: seq<Action>)
    requires known <= |sites|
    ensures ran == if site < known then [sites[site]] else []
  {
    var k := 0;
    while k < known && site != k
      invariant k <= known && k <= site
    {
      k := k + 1;
    }
    ran := if k < known then [sites[k]] else [];
  }

  lemma Regrouped(a: seq<Action>, b: seq<Action>, c: seq<Action>)
    ensures (a + b) + c == a + (b + c)
  {
  }
}
