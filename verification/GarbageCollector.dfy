/**
 The mark-sweep collector of the runtime (runtime/ncrt.c, the __nc_gc_* functions).

 Blocks form a singly linked list.  Marking is conservative: every aligned word of a payload
 is treated as an address, and an address anywhere inside a payload keeps that block alive.
 */
module GarbageCollector {
  import opened Prelude

  // ----- what a collection must do, on plain values ------------------------------------

  /** A block's payload: its address range and the pointer-sized words stored in it. */
  datatype Payload = Payload(start: nat, size: nat, words: seq<nat>)

  const WORD: nat := 8

  predicate Covers(p: Payload, addr: nat) {
    p.start <= addr < p.start + p.size
  }

  /** An address points into a payload exactly if it is that of one of its bytes. */
  lemma CoversItsBytes(p: Payload, addr: nat, d: int)
    requires addr == p.start + d
    ensures Covers(p, addr) <==> 0 <= d < p.size
  {
  }

  /** The first block whose payload covers the address, or -1; address 0 is NULL. */
  ghost function FindIn(g: seq<Payload>, addr: nat): (k: int)
    ensures -1 <= k < |g|
    ensures k >= 0 ==> addr != 0 && Covers(g[k], addr) && forall i :: 0 <= i < k ==> !Covers(g[i], addr)
    ensures k < 0 ==> addr == 0 || forall i :: 0 <= i < |g| ==> !Covers(g[i], addr)
  {
    if g == [] || addr == 0 then -1
    else
      var k := FindIn(g[..|g| - 1], addr);
      if k >= 0 then k else if Covers(g[|g| - 1], addr) then |g| - 1 else -1
  }

  ghost predicate Points(g: seq<Payload>, i: nat, j: nat) {
    i < |g| && exists w :: w in g[i].words && FindIn(g, w) == j
  }

  /** A chain of blocks that starts where `addr` points and follows payload words. */
  ghost predicate Trail(g: seq<Payload>, addr: nat, t: seq<nat>) {
    && t != [] && FindIn(g, addr) == t[0]
    && forall x, y :: 0 <= x && y == x + 1 < |t| ==> Points(g, t[x], t[y])
  }

  ghost predicate Reaches(g: seq<Payload>, addr: nat, i: nat) {
    exists t :: Trail(g, addr, t) && t[|t| - 1] == i
  }

  /** The blocks a collection has to keep, given what the root slots hold. */
  ghost function Reachable(g: seq<Payload>, roots: set<nat>): set<nat> {
    set i | 0 <= i < |g| && Rooted(g, roots, i)
  }

  ghost predicate Rooted(g: seq<Payload>, roots: set<nat>, i: nat) {
    exists r :: r in roots && Reaches(g, r, i)
  }

  ghost predicate Closed(g: seq<Payload>, from: set<nat>, marks: set<nat>) {
    forall i, w :: i in from && i < |g| && w in g[i].words && FindIn(g, w) >= 0 ==> FindIn(g, w) in marks
  }

  /** The elements of `s` whose positions are in `keep`, in order. */
  ghost function Keep<T>(s: seq<T>, keep: set<nat>): seq<T> {
    if s == [] then []
    else Keep(s[..|s| - 1], keep) + if |s| - 1 in keep then [s[|s| - 1]] else []
  }

  lemma ReachesHere(g: seq<Payload>, addr: nat)
    requires FindIn(g, addr) >= 0
    ensures Reaches(g, addr, FindIn(g, addr))
  {
    assert Trail(g, addr, [FindIn(g, addr) as nat]);
  }

  lemma ReachesThrough(g: seq<Payload>, addr: nat, w: nat, i: nat)
    requires FindIn(g, addr) >= 0 && w in g[FindIn(g, addr)].words
    requires Reaches(g, w, i)
    ensures Reaches(g, addr, i)
  {
    var t :| Trail(g, w, t) && t[|t| - 1] == i;
    var t' := [FindIn(g, addr) as nat] + t;
    assert Points(g, t'[0], t'[1]);
    assert Trail(g, addr, t');
  }

  lemma {:induction false} TrailStaysInClosedSet(g: seq<Payload>, addr: nat, t: seq<nat>, marks: set<nat>)
    requires Trail(g, addr, t) && Closed(g, marks, marks)
    requires FindIn(g, addr) in marks
    ensures t[|t| - 1] in marks
    decreases |t|
  {
    if |t| > 1 {
      assert Points(g, t[0], t[1]);
      var w :| w in g[t[0]].words && FindIn(g, w) == t[1];
      TrailStaysInClosedSet(g, w, t[1..], marks);
    }
  }

  lemma ClosedMarksHoldRooted(g: seq<Payload>, roots: set<nat>, marks: set<nat>, i: nat)
    requires Closed(g, marks, marks)
    requires forall r :: r in roots && FindIn(g, r) >= 0 ==> FindIn(g, r) in marks
    requires Rooted(g, roots, i)
    ensures i in marks
  {
    hide Closed;
    var r :| r in roots && Reaches(g, r, i);
    var t :| Trail(g, r, t) && t[|t| - 1] == i;
    TrailStaysInClosedSet(g, r, t, marks);
  }

  /** A closed set of marks that covers the roots and holds only reachable blocks is exact. */
  lemma ClosedMarksAreExact(g: seq<Payload>, roots: set<nat>, marks: set<nat>)
    requires forall i :: i in marks ==> i < |g| && Rooted(g, roots, i)
    requires Closed(g, marks, marks)
    requires forall r :: r in roots && FindIn(g, r) >= 0 ==> FindIn(g, r) in marks
    ensures marks == Reachable(g, roots)
  {
    hide Rooted, Closed;
    forall i | i in Reachable(g, roots)
      ensures i in marks
    {
      ClosedMarksHoldRooted(g, roots, marks, i);
    }
  }

  /**
   What marking from the addresses `from` may do: marks only grow, every block the addresses
   hit is marked, what became marked is reachable from them, and it points only at marked blocks.
   */
  ghost predicate MarkedFrom(g: seq<Payload>, from: set<nat>, before: set<nat>, after: set<nat>) {
    && before <= after
    && (forall p :: p in from && FindIn(g, p) >= 0 ==> FindIn(g, p) in after)
    && Closed(g, after - before, after)
    && (forall i :: i in after - before ==> Rooted(g, from, i))
  }

  lemma MarkNothing(g: seq<Payload>, marks: set<nat>)
    ensures MarkedFrom(g, {}, marks, marks)
  {
  }

  lemma MarkSettled(g: seq<Payload>, p: nat, marks: set<nat>)
    requires FindIn(g, p) < 0 || FindIn(g, p) in marks
    ensures MarkedFrom(g, {p}, marks, marks)
  {
  }

  lemma MarkInTurn(g: seq<Payload>, from1: set<nat>, from2: set<nat>, a: set<nat>, b: set<nat>, c: set<nat>)
    requires MarkedFrom(g, from1, a, b) && MarkedFrom(g, from2, b, c)
    ensures MarkedFrom(g, from1 + from2, a, c)
  {
    hide Reaches;
    forall i | i in c - a
      ensures Rooted(g, from1 + from2, i)
    {
      if i in b {
        assert Rooted(g, from1, i);
        var r :| r in from1 && Reaches(g, r, i);
        assert r in from1 + from2;
      } else {
        assert Rooted(g, from2, i);
        var r :| r in from2 && Reaches(g, r, i);
        assert r in from1 + from2;
      }
    }
  }

  /** Mark a block, then everything its words point at. */
  lemma MarkThrough(g: seq<Payload>, p: nat, before: set<nat>, after: set<nat>)
    requires FindIn(g, p) >= 0 && FindIn(g, p) !in before
    requires MarkedFrom(g, Elements(g[FindIn(g, p)].words), before + {FindIn(g, p)}, after)
    ensures MarkedFrom(g, {p}, before, after)
  {
    hide Reaches;
    var k := FindIn(g, p);
    forall i | i in after - before
      ensures Rooted(g, {p}, i)
    {
      if i == k {
        ReachesHere(g, p);
      } else {
        assert Rooted(g, Elements(g[k].words), i);
        var w :| w in g[k].words && Reaches(g, w, i);
        ReachesThrough(g, p, w, i);
      }
      assert p in {p} && Reaches(g, p, i);
    }
  }

  lemma MarksGrow(g: seq<Payload>, from: set<nat>, before: set<nat>, after: set<nat>)
    requires MarkedFrom(g, from, before, after)
    ensures before <= after
  {
  }

  /** Marking from the roots of an unmarked heap marks exactly what is reachable. */
  lemma MarkingIsExact(g: seq<Payload>, roots: set<nat>, marks: set<nat>)
    requires MarkedFrom(g, roots, {}, marks)
    requires forall i :: i in marks ==> i < |g|
    ensures marks == Reachable(g, roots)
  {
    hide Rooted;
    assert marks - {} == marks;
    ClosedMarksAreExact(g, roots, marks);
  }

  ghost function Elements<T>(s: seq<T>): set<T> {
    set x | x in s
  }

  ghost function UpTo(n: nat): (s: set<nat>)
    ensures forall i: nat :: i in s <==> i < n
  {
    if n == 0 then {} else UpTo(n - 1) + {n - 1}
  }

  lemma {:induction false} KeepMembers<T>(s: seq<T>, keep: set<nat>)
    ensures forall x :: x in Keep(s, keep) <==> exists i :: 0 <= i < |s| && i in keep && s[i] == x
  {
    if s != [] {
      KeepMembers(s[..|s| - 1], keep);
    }
  }

  lemma KeepNothing<T>(s: seq<T>, keep: set<nat>)
    ensures Keep(s[..0], keep) == []
  {
  }

  lemma KeepOne<T>(s: seq<T>, keep: set<nat>, n: nat)
    requires n < |s|
    ensures Keep(s[..n + 1], keep) == Keep(s[..n], keep) + if n in keep then [s[n]] else []
  {
    assert s[..n + 1][..n] == s[..n];
  }

  // ----- the heap -------------------------------------------------------------------------

  class Block {
    const start: nat
    const size: nat
    var words: seq<nat>
    var next: Block?
    var marked: bool

    constructor (start: nat, size: nat, next: Block?)
      ensures this.start == start && this.size == size && this.next == next && !marked
      ensures words == seq(size / WORD, _ => 0)
    {
      this.start, this.size, this.next, marked := start, size, next, false;
      words := seq(size / WORD, _ => 0);
    }

    ghost function View(): Payload
      reads this
    {
      Payload(start, size, words)
    }
  }

  /** A variable the compiled program registered as a root; 0 is NULL. */
  class RootSlot {
    var pointer: nat
  }

  ghost function Snapshot(list: seq<Block>): (g: seq<Payload>)
    reads list
    ensures |g| == |list| && forall i :: 0 <= i < |g| ==> g[i] == list[i].View()
  {
    if list == [] then [] else Snapshot(list[..|list| - 1]) + [list[|list| - 1].View()]
  }

  lemma SnapshotIs(list: seq<Block>, g: seq<Payload>)
    requires |g| == |list| && forall i :: 0 <= i < |g| ==> g[i] == list[i].View()
    ensures Snapshot(list) == g
  {
  }

  ghost function Marks(list: seq<Block>): set<nat>
    reads list
  {
    set i | 0 <= i < |list| && list[i].marked
  }

  /** `head` starts a null-terminated list of exactly these blocks. */
  ghost predicate Linked(head: Block?, list: seq<Block>)
    reads list
  {
    && Distinct(list)
    && head == (if list == [] then null else list[0])
    && (list != [] ==> list[|list| - 1].next == null)
    && forall i, j :: 0 <= i && j == i + 1 < |list| ==> list[i].next == list[j]
  }

  lemma MarksAre(list: seq<Block>)
    ensures forall i :: 0 <= i < |list| ==> (list[i].marked <==> i in Marks(list))
    ensures (forall b :: b in list ==> !b.marked) ==> Marks(list) == {}
  {
  }

  lemma AroundOne<T>(kept: seq<T>, all: seq<T>, n: nat)
    requires n < |all|
    ensures (kept + all[n..])[|kept|] == all[n]
    ensures (kept + all[n..])[..|kept|] + (kept + all[n..])[|kept| + 1..] == kept + all[n + 1..]
  {
  }

  lemma NextInTail<T>(kept: seq<T>, all: seq<T>, n: nat)
    requires n < |all|
    ensures |kept + all[n..]| == |kept| + |all| - n && (kept + all[n..])[|kept|] == all[n]
    ensures n + 1 < |all| ==> (kept + all[n..])[|kept| + 1] == all[n + 1]
  {
  }

  lemma ShiftOne<T>(kept: seq<T>, all: seq<T>, n: nat)
    requires n < |all|
    ensures kept + all[n..] == (kept + [all[n]]) + all[n + 1..]
  {
  }

  ghost predicate AllClear(s: seq<Block>)
    reads s
  {
    forall b :: b in s ==> !b.marked
  }

  ghost predicate MarkedFromOn(all: seq<Block>, live: set<nat>, n: nat)
    reads all
  {
    forall i :: n <= i < |all| ==> (all[i].marked <==> i in live)
  }

  lemma HeadAndNext(head: Block?, list: seq<Block>, k: nat)
    requires Linked(head, list) && k <= |list|
    ensures Distinct(list) && head == if list == [] then null else list[0]
    ensures k < |list| ==> list[k].next == if k + 1 < |list| then list[k + 1] else null
  {
  }

  lemma DistinctInFront<T>(x: T, s: seq<T>)
    requires Distinct(s) && x !in s
    ensures Distinct([x] + s)
  {
  }

  lemma InFront(b: Block, head: Block?, list: seq<Block>)
    requires Linked(head, list) && b !in list && b.next == head
    ensures Linked(b, [b] + list)
  {
    DistinctInFront(b, list);
    hide Distinct;
  }

  lemma FrontClear(b: Block, list: seq<Block>)
    requires !b.marked && Marks(list) == {}
    ensures Marks([b] + list) == {}
  {
    MarksAre(list);
    MarksAre([b] + list);
  }

  // ----- allocation runs -----------------------------------------------------------------

  /** What is asked for, and the address the C allocator picks. */
  datatype Request = Request(size: nat, start: nat) {
    /** At least one byte. */
    function Bytes(): nat {
      if size == 0 then 1 else size
    }
  }

  ghost function Total(requests: seq<Request>): nat {
    if requests == [] then 0 else Total(requests[..|requests| - 1]) + requests[|requests| - 1].Bytes()
  }

  ghost function Count(collected: seq<bool>): nat {
    if collected == [] then 0 else Count(collected[..|collected| - 1]) + if collected[|collected| - 1] then 1 else 0
  }

  /** The last of the first n allocations that collected. */
  ghost function LastCollection(collected: seq<bool>, n: nat): (k: Option<nat>)
    requires n <= |collected|
    ensures k.Some? ==> k.value < n
  {
    if n == 0 then None else if collected[n - 1] then Some(n - 1) else LastCollection(collected, n - 1)
  }

  lemma {:induction false} LastIsLast(collected: seq<bool>, n: nat)
    requires n <= |collected|
    ensures match LastCollection(collected, n)
            case Some(k) => k < n && collected[k] && forall i :: k < i < n ==> !collected[i]
            case None => forall i :: 0 <= i < n ==> !collected[i]
  {
    if n > 0 {
      LastIsLast(collected, n - 1);
    }
  }

  /** Bytes handed out by the first n allocations from the last collection on; `before` counts if there was none. */
  ghost function HandedOut(before: nat, requests: seq<Request>, collected: seq<bool>, n: nat): nat
    requires n <= |requests| && n <= |collected|
  {
    match LastCollection(collected, n)
    case None => before + Total(requests[0..n])
    case Some(k) => Total(requests[k..n])
  }

  lemma {:induction false} SameSoFar(collected: seq<bool>, c: bool, n: nat)
    requires n <= |collected|
    ensures LastCollection(collected + [c], n) == LastCollection(collected, n)
  {
    if n > 0 {
      SameSoFar(collected, c, n - 1);
    }
  }

  /** Each allocation so far collected exactly when it brought the count to 64 KiB. */
  ghost predicate Logged(before: nat, requests: seq<Request>, collected: seq<bool>) {
    |collected| <= |requests| &&
    forall i :: 0 <= i < |collected| ==>
      (collected[i] <==> HandedOut(before, requests, collected, i) + requests[i].Bytes() >= 65536)
  }

  lemma LogGrows(before: nat, requests: seq<Request>, collected: seq<bool>, c: bool)
    requires Logged(before, requests, collected) && |collected| < |requests|
    requires c <==> HandedOut(before, requests, collected, |collected|) + requests[|collected|].Bytes() >= 65536
    ensures Logged(before, requests, collected + [c])
  {
    hide LastCollection, Total;
    var longer := collected + [c];
    forall i | 0 <= i < |longer|
      ensures longer[i] <==> HandedOut(before, requests, longer, i) + requests[i].Bytes() >= 65536
    {
      SameSoFar(collected, c, i);
      assert HandedOut(before, requests, longer, i) == HandedOut(before, requests, collected, i);
    }
  }

  lemma TotalOneMore(requests: seq<Request>, k: nat, n: nat)
    requires k <= n < |requests|
    ensures Total(requests[k..n + 1]) == Total(requests[k..n]) + requests[n].Bytes()
  {
    var longer := requests[k..n + 1];
    assert longer[..|longer| - 1] == requests[k..n] && longer[|longer| - 1] == requests[n];
  }

  lemma NothingHandedOut(before: nat, requests: seq<Request>)
    ensures HandedOut(before, requests, [], 0) == before && Count([]) == 0 && Logged(before, requests, [])
  {
  }

  lemma NothingYet(requests: seq<Request>, n: nat)
    requires n <= |requests|
    ensures Total(requests[n..n]) == 0
  {
  }

  lemma LastNow(collected: seq<bool>, c: bool)
    ensures LastCollection(collected + [c], |collected| + 1)
         == if c then Some(|collected|) else LastCollection(collected, |collected|)
    ensures Count(collected + [c]) == Count(collected) + if c then 1 else 0
  {
    SameSoFar(collected, c, |collected|);
    assert (collected + [c])[..|collected|] == collected;
  }

  lemma OneMore(before: nat, requests: seq<Request>, collected: seq<bool>, c: bool)
    requires |collected| < |requests|
    ensures HandedOut(before, requests, collected + [c], |collected| + 1)
         == requests[|collected|].Bytes() + if c then 0 else HandedOut(before, requests, collected, |collected|)
    ensures Count(collected + [c]) == Count(collected) + if c then 1 else 0
  {
    hide Total, LastCollection, Count;
    LastNow(collected, c);
    var n, last := |collected|, LastCollection(collected, |collected|);
    NothingYet(requests, n);
    TotalOneMore(requests, if c then n else if last.Some? then last.value else 0, n);
  }

  class Heap {
    var blocks: Block?
    var liveCount: nat
    var allocSinceCollect: nat
    var roots: seq<RootSlot?>

    ghost var list: seq<Block>
    ghost var collections: nat

    ghost predicate Valid()
      reads this, list
    {
      && Linked(blocks, list)
      && liveCount == |list|
      && Marks(list) == {}
    }

    /** What the non-null root slots hold. */
    ghost function RootPointers(): set<nat>
      reads this`roots, set r | r in roots && r != null
    {
      set r | r in roots && r != null :: r.pointer
    }

    method FindBlock(p: nat) returns (b: Block?, ghost k: int)
      requires Linked(blocks, list)
      ensures k == FindIn(Snapshot(list), p)
      ensures b == if k < 0 then null else list[k]
    {
      if p == 0 {
        return null, -1;
      }
      b, k := blocks, 0;
      while b != null
        invariant 0 <= k <= |list|
        invariant b == if k < |list| then list[k] else null
        invariant forall i :: 0 <= i < k ==> !Covers(list[i].View(), p)
        decreases |list| - k
      {
        if b.start <= p < b.start + b.size {
          return b, k;
        }
        b, k := b.next, k + 1;
      }
      k := -1;
    }

    /** The list is intact and its payloads are still `g`. */
    ghost predicate Intact(g: seq<Payload>)
      reads this, list
    {
      Linked(blocks, list) && Snapshot(list) == g
    }

    method MarkPtr(p: nat, ghost g: seq<Payload>)
      requires Intact(g)
      modifies list
      ensures Intact(g)
      ensures MarkedFrom(g, {p}, old(Marks(list)), Marks(list))
      decreases UpTo(|g|) - Marks(list), 0
    {
      hide MarkedFrom, FindIn, Snapshot;
      var b, k := FindBlock(p);
      if b == null || b.marked {
        MarkSettled(g, p, Marks(list));
        return;
      }
      b.marked := true;
      SnapshotIs(list, g);
      assert Marks(list) == old(Marks(list)) + {k};
      ScanBlock(b, k, g);
      MarkThrough(g, p, old(Marks(list)), Marks(list));
    }

    method ScanBlock(b: Block, ghost k: nat, ghost g: seq<Payload>)
      requires Intact(g) && k < |list| && list[k] == b
      modifies list
      ensures Intact(g)
      ensures MarkedFrom(g, Elements(g[k].words), old(Marks(list)), Marks(list))
      decreases UpTo(|g|) - Marks(list), 1
    {
      hide MarkedFrom, FindIn, Snapshot;
      ghost var done: set<nat> := {};
      MarkNothing(g, Marks(list));
      assert b.words == g[k].words;
      for i := 0 to |b.words|
        invariant Intact(g) && b.words == g[k].words
        invariant done == Elements(b.words[..i])
        invariant old(Marks(list)) <= Marks(list)
        invariant MarkedFrom(g, done, old(Marks(list)), Marks(list))
      {
        ghost var before := Marks(list);
        MarkPtr(b.words[i], g);
        MarkInTurn(g, done, {b.words[i]}, old(Marks(list)), before, Marks(list));
        MarksGrow(g, {b.words[i]}, before, Marks(list));
        done := done + {b.words[i]};
      }
      assert b.words[..|b.words|] == b.words;
    }

    method MarkRoots(ghost g: seq<Payload>)
      requires Valid() && Intact(g)
      modifies list
      ensures Intact(g) && RootPointers() == old(RootPointers())
      ensures Marks(list) == Reachable(g, RootPointers())
    {
      hide MarkedFrom, FindIn, Snapshot;
      ghost var done: set<nat> := {};
      MarkNothing(g, {});
      for i := 0 to |roots|
        invariant Intact(g)
        invariant done == set r | r in roots[..i] && r != null :: r.pointer
        invariant MarkedFrom(g, done, {}, Marks(list))
      {
        var slot := roots[i];
        if slot != null {
          ghost var before := Marks(list);
          MarkPtr(slot.pointer, g);
          MarkInTurn(g, done, {slot.pointer}, {}, before, Marks(list));
          done := done + {slot.pointer};
        }
      }
      assert roots[..|roots|] == roots;
      MarkingIsExact(g, RootPointers(), Marks(list));
    }

    /** `*link = b->next`: take the block after `prev` (or the head) out of the list. */
    method Unlink(prev: Block?, cur: Block, ghost k: nat)
      requires Linked(blocks, list) && k < |list| && list[k] == cur
      requires prev == if k == 0 then null else list[k - 1]
      modifies this`blocks, this`list, (if prev == null then {} else {prev})`next
      ensures list == old(list)[..k] + old(list)[k + 1..] && Linked(blocks, list)
    {
      if prev == null {
        blocks := cur.next;
      } else {
        prev.next := cur.next;
      }
      list := list[..k] + list[k + 1..];
    }

    /** Halfway through a sweep of `all`: the first `n` blocks are settled, `kept` of them stay. */
    ghost predicate Sweeping(all: seq<Block>, live: set<nat>, n: nat, kept: seq<Block>)
      reads this`blocks, this`list, list, all, kept
    {
      && n <= |all| && kept == Keep(all[..n], live) && Distinct(all)
      && list == kept + all[n..] && Linked(blocks, list)
      && AllClear(kept) && (forall b :: b in kept ==> b in all)
      && MarkedFromOn(all, live, n)
    }

    method DropOne(prev: Block?, cur: Block, ghost all: seq<Block>, ghost live: set<nat>, ghost n: nat,
                   ghost kept: seq<Block>)
      requires Sweeping(all, live, n, kept) && n < |all| && cur == all[n] && n !in live
      requires prev == if kept == [] then null else kept[|kept| - 1]
      modifies this`blocks, this`list, (if prev == null then {} else {prev})`next
      ensures Sweeping(all, live, n + 1, kept)
    {
      hide Keep, Distinct, Linked;
      KeepOne(all, live, n);
      AroundOne(kept, all, n);
      Unlink(prev, cur, |kept|);
    }

    /** Clearing a mark disturbs neither the links nor the other marks. */
    method ClearMark(cur: Block, ghost all: seq<Block>, ghost live: set<nat>, ghost n: nat, ghost kept: seq<Block>)
      requires Linked(blocks, list)
      requires n < |all| && cur == all[n] && Distinct(all) && AllClear(kept) && MarkedFromOn(all, live, n)
      modifies cur`marked
      ensures Linked(blocks, list)
      ensures AllClear(kept + [cur]) && MarkedFromOn(all, live, n + 1)
    {
      cur.marked := false;
    }

    method RetainOne(cur: Block, ghost all: seq<Block>, ghost live: set<nat>, ghost n: nat, ghost kept: seq<Block>)
      requires Sweeping(all, live, n, kept) && n < |all| && cur == all[n] && n in live
      modifies cur`marked
      ensures Sweeping(all, live, n + 1, kept + [cur])
    {
      hide Keep, Distinct, Linked, AllClear, MarkedFromOn;
      KeepOne(all, live, n);
      ShiftOne(kept, all, n);
      ClearMark(cur, all, live, n, kept);
    }

    lemma SweepStarts(all: seq<Block>, live: set<nat>, kept: seq<Block>)
      requires Linked(blocks, list) && all == list && live == Marks(list) && kept == []
      ensures Sweeping(all, live, 0, kept)
    {
      hide Linked, Distinct, Keep;
      KeepNothing(all, live);
      HeadAndNext(blocks, list, 0);
      MarksAre(list);
      assert kept + all[0..] == all;
    }

    lemma SweepFacts(all: seq<Block>, live: set<nat>, n: nat, kept: seq<Block>)
      requires Sweeping(all, live, n, kept) && n < |all|
      ensures kept != [] ==> kept[|kept| - 1] in all
      ensures all[n] in all && (all[n].marked <==> n in live)
      ensures all[n].next == if n + 1 < |all| then all[n + 1] else null
    {
      hide Keep, Distinct, Linked, AllClear;
      NextInTail(kept, all, n);
      HeadAndNext(blocks, list, |kept|);
    }

    lemma SweepEnds(all: seq<Block>, live: set<nat>, kept: seq<Block>)
      requires Sweeping(all, live, |all|, kept)
      ensures Linked(blocks, list) && list == kept == Keep(all, live) && Marks(list) == {}
    {
      hide Keep, Distinct, Linked;
      assert all[..|all|] == all;
      MarksAre(list);
    }

    method Sweep()
      requires Linked(blocks, list)
      modifies this`blocks, this`list, this`liveCount, list`next, list`marked
      ensures Valid() && list == Keep(old(list), old(Marks(list)))
    {
      hide Linked, Keep, Distinct, Marks, Sweeping;
      ghost var all, live := list, Marks(list);
      ghost var kept: seq<Block>, n := [], 0;
      var prev: Block? := null;
      var cur := blocks;
      liveCount := 0;
      HeadAndNext(blocks, list, 0);
      SweepStarts(all, live, kept);
      while cur != null
        invariant Sweeping(all, live, n, kept) && n <= |all|
        invariant cur == if n < |all| then all[n] else null
        invariant prev == if kept == [] then null else kept[|kept| - 1]
        invariant liveCount == |kept|
        decreases |all| - n
      {
        SweepFacts(all, live, n, kept);
        var next := cur.next;
        if !cur.marked {
          DropOne(prev, cur, all, live, n, kept);
        } else {
          RetainOne(cur, all, live, n, kept);
          liveCount := liveCount + 1;
          prev, kept := cur, kept + [cur];
        }
        cur, n := next, n + 1;
      }
      SweepEnds(all, live, kept);
    }

    /** A collection keeps exactly the reachable blocks, in order and untouched. */
    method Collect()
      requires Valid()
      modifies this, list
      ensures Valid()
      ensures list == Keep(old(list), Reachable(old(Snapshot(list)), old(RootPointers())))
      ensures forall i :: 0 <= i < |old(list)| ==>
                (old(list[i]) in list <==> i in Reachable(old(Snapshot(list)), old(RootPointers())))
      ensures forall b :: b in list ==> b in old(list)
      ensures forall b :: b in old(list) ==> b.words == old(b.words)
      ensures roots == old(roots) && RootPointers() == old(RootPointers())
      ensures allocSinceCollect == 0 && collections == old(collections) + 1
    {
      hide Linked, Keep, Reachable;
      allocSinceCollect := 0;
      collections := collections + 1;
      MarkRoots(Snapshot(list));
      Sweep();
      KeepMembers(old(list), Reachable(old(Snapshot(list)), old(RootPointers())));
    }

    /**
     __nc_gc_alloc: collect when 64 KiB have been handed out since the last collection, then put a
     zeroed block in front of the list.  `start` is the address the C allocator picked.
     */
    method Alloc(size: nat, start: nat) returns (b: Block, ghost collected: bool)
      requires Valid()
      modifies this, list
      ensures Valid() && fresh(b)
      ensures collected <==> old(allocSinceCollect) + b.size >= 65536
      ensures collections == old(collections) + if collected then 1 else 0
      ensures allocSinceCollect == b.size + if collected then 0 else old(allocSinceCollect)
      ensures b.start == start && b.size == (if size == 0 then 1 else size) && b.words == seq(b.size / WORD, _ => 0)
      ensures 8 * |b.words| <= b.size < 8 * |b.words| + 8
      ensures list != [] && list[0] == b && forall x :: x in list[1..] ==> x in old(list)
      ensures list[1..] == if collected
                           then Keep(old(list), Reachable(old(Snapshot(list)), old(RootPointers())))
                           else old(list)
      ensures forall x :: x in old(list) ==> x.words == old(x.words)
      ensures roots == old(roots)
    {
      hide Keep, Reachable, Snapshot, Marks, Linked;
      var payload := if size == 0 then 1 else size;
      collected := allocSinceCollect + payload >= 65536;
      if allocSinceCollect + payload >= 65536 {
        Collect();
      }
      b := LinkNew(start, payload);
      allocSinceCollect := allocSinceCollect + payload;
    }

    method LinkNew(start: nat, size: nat) returns (b: Block)
      requires Valid()
      modifies this`blocks, this`list, this`liveCount
      ensures Valid() && fresh(b) && list == [b] + old(list)
      ensures b.start == start && b.size == size && b.words == seq(size / WORD, _ => 0)
    {
      hide Marks, Linked;
      b := new Block(start, size, blocks);
      InFront(b, blocks, list);
      FrontClear(b, list);
      blocks := b;
      list := [b] + list;
      liveCount := liveCount + 1;
    }

    /**
     Any run of allocations: one collects exactly when it brings the bytes handed out since the last
     collection to 64 KiB, and the counter always is that number of bytes.
     */
    method AllocAll(requests: seq<Request>) returns (ghost collected: seq<bool>)
      requires Valid()
      modifies this, list
      ensures Valid() && forall b :: b in list ==> b in old(list) || fresh(b)
      ensures |collected| == |requests| && Logged(old(allocSinceCollect), requests, collected)
      ensures collections == old(collections) + Count(collected)
      ensures allocSinceCollect == HandedOut(old(allocSinceCollect), requests, collected, |requests|)
    {
      hide Linked, Marks, Keep, Reachable, Snapshot, HandedOut, Count, Logged;
      collected := [];
      NothingHandedOut(allocSinceCollect, requests);
      for n := 0 to |requests|
        invariant Valid() && forall k :: 0 <= k < |list| ==> list[k] in old(list) || fresh(list[k])
        invariant |collected| == n && Logged(old(allocSinceCollect), requests, collected)
        invariant collections == old(collections) + Count(collected)
        invariant allocSinceCollect == HandedOut(old(allocSinceCollect), requests, collected, n)
      {
        ghost var before := list;
        var b, c := Alloc(requests[n].size, requests[n].start);
        assert forall k :: 0 < k < |list| ==> list[k] == list[1..][k - 1] && list[k] in before;
        OneMore(old(allocSinceCollect), requests, collected, c);
        LogGrows(old(allocSinceCollect), requests, collected, c);
        collected := collected + [c];
      }
    }

    // ----- root slots ---------------------------------------------------------------------

    method PushRoot(slot: RootSlot?) returns (handle: nat)
      modifies this`roots
      ensures handle == |old(roots)| && roots == old(roots) + [slot]
    {
      handle := |roots|;
      roots := roots + [slot];
    }

    method DropRoot(handle: int)
      modifies this`roots
      ensures roots == if 0 <= handle < |old(roots)| then old(roots)[handle := null] else old(roots)
    {
      if 0 <= handle < |roots| {
        roots := roots[handle := null];
      }
    }

    method Rewind(mark: nat)
      modifies this`roots
      ensures roots == if mark <= |old(roots)| then old(roots)[..mark] else old(roots)
    {
      if mark <= |roots| {
        roots := roots[..mark];
      }
    }

    /**
     A compiled function: mark on entry, register slots and call others, rewind on exit.  `seen` are the
     root stacks after each step.
     */
    method RunFrame(body: seq<FrameOp>) returns (seen: seq<seq<RootSlot?>>)
      modifies this`roots
      ensures roots == old(roots) && seen == Stacks(body, old(roots))
      decreases body
    {
      hide Stacks;
      var mark := |roots|;
      seen := [];
      StacksWhole(body, roots);
      for i := 0 to |body|
        invariant mark <= |roots| && roots[..mark] == old(roots)
        invariant seen + Stacks(body[i..], roots) == Stacks(body, old(roots))
      {
        StacksStep(body, i, roots, seen);
        match body[i] {
          case Register(slot) =>
            var _ := PushRoot(slot);
            seen := seen + [roots];
          case Call(callee) =>
            var inside := RunFrame(callee);
            seen := seen + inside + [roots];
        }
      }
      StacksWhole(body, roots);
      Rewind(mark);
    }
  }

  /** A registered slot is on top from then on; a call starts from the stack it finds and leaves it as it was. */
  ghost function Stacks(body: seq<FrameOp>, base: seq<RootSlot?>): seq<seq<RootSlot?>>
    decreases body
  {
    if body == [] then []
    else match body[0]
      case Register(slot) => [base + [slot]] + Stacks(body[1..], base + [slot])
      case Call(callee) => Stacks(callee, base) + [base] + Stacks(body[1..], base)
  }

  lemma StacksWhole(body: seq<FrameOp>, base: seq<RootSlot?>)
    ensures body[0..] == body && Stacks(body[|body|..], base) == []
  {
  }

  lemma StacksStep(body: seq<FrameOp>, i: nat, base: seq<RootSlot?>, seen: seq<seq<RootSlot?>>)
    requires i < |body|
    ensures body[i].Register? ==>
              var now := base + [body[i].slot];
              seen + Stacks(body[i..], base) == (seen + [now]) + Stacks(body[i + 1..], now)
    ensures body[i].Call? ==>
              seen + Stacks(body[i..], base)
              == (seen + Stacks(body[i].callee, base) + [base]) + Stacks(body[i + 1..], base)
  {
    assert body[i..][0] == body[i] && body[i..][1..] == body[i + 1..];
  }

  datatype FrameOp = Register(slot: RootSlot) | Call(callee: seq<FrameOp>)
}
