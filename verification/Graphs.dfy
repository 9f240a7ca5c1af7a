/** Directed graphs given by successor lists: chains, cycles and orders in which successors come first. */
module Graphs {
  import opened Prelude

  type Graph = map<string, seq<string>>

  ghost predicate Edge(g: Graph, a: string, b: string) {
    a in g && b in g[a]
  }

  ghost predicate IsChain(g: Graph, path: seq<string>) {
    forall i, j :: 0 <= i < j < |path| && j == i + 1 ==> Edge(g, path[i], path[j])
  }

  ghost predicate IsCycle(g: Graph, path: seq<string>) {
    |path| >= 2 && path[0] == path[|path| - 1] && IsChain(g, path)
  }

  ghost predicate Acyclic(g: Graph) {
    forall path :: !IsCycle(g, path)
  }

  ghost predicate Reaches(g: Graph, a: string, b: string) {
    exists path :: path != [] && path[0] == a && path[|path| - 1] == b && IsChain(g, path)
  }

  /** Every node comes after its successors. */
  ghost predicate Ordered(g: Graph, order: seq<string>) {
    forall i, b :: 0 <= i < |order| && Edge(g, order[i], b) ==> b in order[..i]
  }

  function Members(names: seq<string>): set<string> {
    set n | n in names
  }

  function IndexOf(names: seq<string>, name: string): (i: nat)
    ensures i <= |names| && (i < |names| <==> name in names)
    ensures i < |names| ==> names[i] == name && name !in names[..i]
  {
    if names == [] then 0 else if names[0] == name then 0 else 1 + IndexOf(names[1..], name)
  }

  // ----- growing paths and orders ---------------------------------------------------------------------------

  lemma ChainThen(g: Graph, path: seq<string>, name: string)
    requires IsChain(g, path) && (path != [] ==> Edge(g, path[|path| - 1], name))
    ensures IsChain(g, path + [name])
  {
  }

  lemma ChainFrom(g: Graph, path: seq<string>, k: nat)
    requires IsChain(g, path) && k <= |path|
    ensures IsChain(g, path[k..])
  {
  }

  lemma ChainBefore(g: Graph, path: seq<string>, name: string)
    requires IsChain(g, path + [name])
    ensures IsChain(g, path)
  {
    var longer := path + [name];
    assert forall i :: 0 <= i < |path| ==> path[i] == longer[i];
  }

  /** A successor that is on the path already closes a cycle. */
  lemma CycleHere(g: Graph, path: seq<string>, name: string)
    requires IsChain(g, path) && name in path && Edge(g, path[|path| - 1], name)
    ensures IsCycle(g, path[IndexOf(path, name)..] + [name])
  {
    hide IsChain, Edge;
    var k := IndexOf(path, name);
    ChainFrom(g, path, k);
    ChainThen(g, path[k..], name);
  }

  lemma OrderedThen(g: Graph, order: seq<string>, name: string)
    requires Ordered(g, order) && forall b :: Edge(g, name, b) ==> b in Members(order)
    ensures Ordered(g, order + [name])
  {
    var longer := order + [name];
    forall i, b | 0 <= i < |longer| && Edge(g, longer[i], b)
      ensures b in longer[..i]
    {
      if i < |order| {
        assert longer[..i] == order[..i];
      } else {
        assert longer[..i] == order;
      }
    }
  }

  lemma NothingOrdered(g: Graph)
    ensures Ordered(g, []) && IsChain(g, []) && Distinct<string>([])
  {
  }

  lemma MembersGrow(before: seq<string>, after: seq<string>)
    requires before <= after
    ensures Members(before) <= Members(after)
  {
  }

  lemma MembersThen(names: seq<string>, name: string)
    ensures Members(names + [name]) == Members(names) + {name}
    ensures Distinct(names) && name !in Members(names) ==> Distinct(names + [name])
  {
  }

  // ----- what an order gives ----------------------------------------------------------------------------------

  lemma {:induction false} EarlierIndex(names: seq<string>, i: nat, name: string)
    requires i <= |names| && name in names[..i]
    ensures name in names && IndexOf(names, name) < i
  {
    if names[0] != name {
      assert names[..i][1..] == names[1..][..i - 1];
      EarlierIndex(names[1..], i - 1, name);
    }
  }

  lemma SuccessorFirst(g: Graph, order: seq<string>, a: string, b: string)
    requires Ordered(g, order) && a in order && Edge(g, a, b)
    ensures b in order && IndexOf(order, b) < IndexOf(order, a)
  {
    var i := IndexOf(order, a);
    assert b in order[..i];
    EarlierIndex(order, i, b);
  }

  /** Positions fall along every chain. */
  lemma {:induction false} ChainsDescend(g: Graph, order: seq<string>, path: seq<string>, k: nat)
    requires Ordered(g, order) && IsChain(g, path) && 0 < k < |path| && path[0] in order
    ensures path[k] in order && IndexOf(order, path[k]) < IndexOf(order, path[0])
    decreases k
  {
    if k > 1 {
      ChainsDescend(g, order, path, k - 1);
    }
    SuccessorFirst(g, order, path[k - 1], path[k]);
  }

  /** A cycle cannot be reached from an ordered node, and what can be reached is ordered too. */
  lemma OrderedReach(g: Graph, order: seq<string>, a: string, b: string)
    requires Ordered(g, order) && a in order && Reaches(g, a, b)
    ensures b in order && forall cycle :: IsCycle(g, cycle) ==> cycle[0] != b
  {
    var path :| path != [] && path[0] == a && path[|path| - 1] == b && IsChain(g, path);
    if |path| > 1 {
      ChainsDescend(g, order, path, |path| - 1);
    }
    forall cycle | IsCycle(g, cycle)
      ensures cycle[0] != b
    {
      if cycle[0] in order {
        ChainsDescend(g, order, cycle, |cycle| - 1);
      }
    }
  }

  /** An order of all nodes leaves no room for a cycle. */
  lemma OrderedIsAcyclic(g: Graph, order: seq<string>)
    requires Ordered(g, order) && g.Keys <= Members(order)
    ensures Acyclic(g)
  {
    forall path
      ensures !IsCycle(g, path)
    {
      if |path| >= 2 && IsChain(g, path) {
        assert Edge(g, path[0], path[1]);
        ChainsDescend(g, order, path, |path| - 1);
      }
    }
  }

  lemma ReachesSelf(g: Graph, a: string)
    ensures Reaches(g, a, a)
  {
    assert IsChain(g, [a]);
  }

  lemma ReachesThen(g: Graph, a: string, b: string, c: string)
    requires Reaches(g, a, b) && Edge(g, b, c)
    ensures Reaches(g, a, c)
  {
    var path :| path != [] && path[0] == a && path[|path| - 1] == b && IsChain(g, path);
    ChainThen(g, path, c);
    assert (path + [c])[0] == a;
  }
}
