/**
 The check against structs that contain themselves by value (compiler/llvm_codegen.py): it accepts
 exactly the acyclic field graphs, and then every struct can be sized after the structs inside it.
 */
module StructRecursion {
  import opened Prelude
  import opened TypeRefs
  import opened Graphs

  /** Field types by struct name. */
  type Structs = map<string, seq<TypeRef>>

  /** The struct a field of this type contains, looking through arrays. */
  function InlineDep(t: TypeRef, structs: Structs): (d: Option<string>)
    ensures d.Some? ==> d.value in structs
  {
    if Format(t) in structs then Some(Format(t))
    else if t.Array? then InlineDep(t.elem, structs)
    else None
  }

  /** What is left of the type behind k arrays. */
  function Behind(t: TypeRef, k: nat): Option<TypeRef> {
    if k == 0 then Some(t) else if t.Array? then Behind(t.elem, k - 1) else None
  }

  /** Behind k arrays stands the struct, and no struct before it. */
  ghost predicate StandsBehind(t: TypeRef, structs: Structs, d: string, k: nat) {
    && Behind(t, k).Some? && d in structs && Format(Behind(t, k).value) == d
    && forall j: nat :: j < k && Behind(t, j).Some? ==> Format(Behind(t, j).value) !in structs
  }

  /** The dependency is the first struct behind any number of arrays. */
  lemma {:induction false} InlineDepExact(t: TypeRef, structs: Structs, d: string)
    ensures InlineDep(t, structs) == Some(d) <==> exists k: nat :: StandsBehind(t, structs, d, k)
  {
    if Format(t) in structs {
      assert Behind(t, 0) == Some(t);
      assert StandsBehind(t, structs, Format(t), 0);
    } else if t.Array? {
      InlineDepExact(t.elem, structs, d);
      if k: nat :| StandsBehind(t.elem, structs, d, k) {
        assert forall j: nat :: j > 0 ==> Behind(t, j) == Behind(t.elem, j - 1);
        assert StandsBehind(t, structs, d, k + 1);
      }
      if k: nat :| StandsBehind(t, structs, d, k) {
        assert k > 0 && forall j: nat :: Behind(t.elem, j) == Behind(t, j + 1);
        assert StandsBehind(t.elem, structs, d, k - 1);
      }
    }
  }

  function DepsOf(fields: seq<TypeRef>, structs: Structs): seq<string> {
    if fields == [] then []
    else (match InlineDep(fields[0], structs) case Some(d) => [d] case None => []) + DepsOf(fields[1..], structs)
  }

  /** Which struct contains which by value. */
  function Inlined(structs: Structs): Graph {
    map name | name in structs :: DepsOf(structs[name], structs)
  }

  lemma {:induction false} DepsExact(fields: seq<TypeRef>, structs: Structs, d: string)
    ensures d in DepsOf(fields, structs) <==> exists i :: 0 <= i < |fields| && InlineDep(fields[i], structs) == Some(d)
  {
    if fields != [] {
      DepsExact(fields[1..], structs, d);
      if i :| 0 <= i < |fields| && InlineDep(fields[i], structs) == Some(d) {
        assert i > 0 ==> InlineDep(fields[1..][i - 1], structs) == Some(d);
      }
      if i :| 0 <= i < |fields[1..]| && InlineDep(fields[1..][i], structs) == Some(d) {
        assert InlineDep(fields[i + 1], structs) == Some(d);
      }
    }
  }

  class Checker {
    const structs: Structs
    var visiting: seq<string>
    var visited: set<string>
    ghost var order: seq<string>

    constructor (structs: Structs)
      ensures this.structs == structs && visiting == [] && visited == {} && order == []
    {
      this.structs := structs;
      visiting, visited, order := [], {}, [];
    }

    ghost predicate Valid()
      reads this
    {
      && IsChain(Inlined(structs), visiting) && Members(visiting) <= structs.Keys
      && Ordered(Inlined(structs), order) && Members(order) == visited
    }

    /** Visit a struct; the result is the cycle that was met, if any. */
    method Visit(name: string) returns (cycle: Option<seq<string>>)
      requires Valid() && name in structs
      requires visiting != [] ==> Edge(Inlined(structs), visiting[|visiting| - 1], name)
      modifies this
      ensures cycle.None? ==> Valid() && visiting == old(visiting) && old(order) <= order && name in visited
      ensures cycle.Some? ==> IsCycle(Inlined(structs), cycle.value)
      decreases |structs.Keys - Members(visiting)|, 1
    {
      hide IsChain, Ordered, Edge, IsCycle, InlineDep, IndexOf, Members, Inlined;
      if name in visiting {
        CycleHere(Inlined(structs), visiting, name);
        return Some(visiting[IndexOf(visiting, name)..] + [name]);
      }
      if name in visited {
        return None;
      }
      ChainThen(Inlined(structs), visiting, name);
      MembersThen(visiting, name);
      Deeper(structs, visiting, name);
      visiting := visiting + [name];
      cycle := VisitFields(name);
      if cycle.None? {
        visiting := visiting[..|visiting| - 1];
        assert visiting == old(visiting);
        ChainBefore(Inlined(structs), visiting, name);
        OrderedThen(Inlined(structs), order, name);
        MembersThen(order, name);
        visited := visited + {name};
        order := order + [name];
      }
    }

    /** The loop over the fields of the struct on top of `visiting`. */
    method VisitFields(name: string) returns (cycle: Option<seq<string>>)
      requires Valid() && name in structs && visiting != [] && visiting[|visiting| - 1] == name
      modifies this
      ensures cycle.None? ==> Valid() && visiting == old(visiting) && old(order) <= order
      ensures cycle.None? ==> forall inner :: Edge(Inlined(structs), name, inner) ==> inner in Members(order)
      ensures cycle.Some? ==> IsCycle(Inlined(structs), cycle.value)
      decreases |structs.Keys - Members(visiting)|, 2
    {
      hide IsChain, Ordered, Edge, IsCycle, InlineDep, Members, Inlined;
      var fields := structs[name];
      var i := 0;
      while i < |fields|
        invariant 0 <= i <= |fields| && Valid() && visiting == old(visiting) && old(order) <= order
        invariant forall j :: 0 <= j < i && InlineDep(fields[j], structs).Some? ==>
            InlineDep(fields[j], structs).value in visited
      {
        var dep := InlineDep(fields[i], structs);
        if dep.Some? {
          FieldInside(structs, name, i);
          ghost var before := order;
          cycle := Visit(dep.value);
          if cycle.Some? {
            return;
          }
          MembersGrow(before, order);
        }
        i := i + 1;
      }
      InnerVisited(structs, name, visited);
      cycle := None;
    }
  }

  lemma Deeper(structs: Structs, visiting: seq<string>, name: string)
    requires name in structs && name !in visiting
    ensures |structs.Keys - Members(visiting + [name])| < |structs.Keys - Members(visiting)|
  {
    assert structs.Keys - Members(visiting + [name]) == structs.Keys - Members(visiting) - {name};
  }

  lemma FieldInside(structs: Structs, name: string, i: nat)
    requires name in structs && i < |structs[name]| && InlineDep(structs[name][i], structs).Some?
    ensures Edge(Inlined(structs), name, InlineDep(structs[name][i], structs).value)
  {
    DepsExact(structs[name], structs, InlineDep(structs[name][i], structs).value);
  }

  lemma InnerVisited(structs: Structs, name: string, visited: set<string>)
    requires name in structs
    requires forall j :: 0 <= j < |structs[name]| && InlineDep(structs[name][j], structs).Some? ==>
        InlineDep(structs[name][j], structs).value in visited
    ensures forall inner :: Edge(Inlined(structs), name, inner) ==> inner in visited
  {
    forall inner | Edge(Inlined(structs), name, inner)
      ensures inner in visited
    {
      DepsExact(structs[name], structs, inner);
    }
  }

  /** Accepted exactly when no struct contains itself; then `order` puts every struct behind its parts. */
  method RejectDirectRecursive(structs: Structs, names: seq<string>)
    returns (cycle: Option<seq<string>>, ghost order: seq<string>)
    requires Members(names) == structs.Keys
    ensures cycle.None? <==> Acyclic(Inlined(structs))
    ensures cycle.Some? ==> IsCycle(Inlined(structs), cycle.value)
    ensures cycle.None? ==> Sizeable(structs, order)
  {
    hide Ordered, Edge, IsCycle, IndexOf, IsChain, Distinct;
    var checker := new Checker(structs);
    order := [];
    cycle := None;
    NothingOrdered(Inlined(structs));
    for i := 0 to |names|
      invariant checker.Valid() && checker.visiting == [] && fresh(checker) && cycle.None?
      invariant forall j :: 0 <= j < i ==> names[j] in checker.visited
    {
      ghost var before := checker.order;
      assert names[i] in Members(names);
      cycle := checker.Visit(names[i]);
      if cycle.Some? {
        assert !Acyclic(Inlined(structs));
        return;
      }
      MembersGrow(before, checker.order);
    }
    order := checker.order;
    assert forall n :: n in structs ==> n in Members(names);
    OrderedIsAcyclic(Inlined(structs), order);
  }

  // ----- recursion over accepted structs ----------------------------------------------------------------------

  /** Structs rank after the structs inside them, everything else before. */
  function Rank(t: TypeRef, structs: Structs, order: seq<string>): nat {
    if Format(t) in structs then 1 + IndexOf(order, Format(t)) else 0
  }

  /** The order has a place for every struct, behind its parts. */
  ghost predicate Sizeable(structs: Structs, order: seq<string>) {
    Ordered(Inlined(structs), order) && structs.Keys <= Members(order)
  }

  lemma FieldsBelow(t: TypeRef, structs: Structs, order: seq<string>)
    requires Sizeable(structs, order) && Format(t) in structs
    ensures forall f :: f in structs[Format(t)] ==> Rank(f, structs, order) < Rank(t, structs, order)
  {
    var name := Format(t);
    assert name in Members(order);
    forall f | f in structs[name]
      ensures Rank(f, structs, order) < Rank(t, structs, order)
    {
      if Format(f) in structs {
        assert InlineDep(f, structs) == Some(Format(f));
        DepsExact(structs[name], structs, Format(f));
        SuccessorFirst(Inlined(structs), order, name, Format(f));
      }
    }
  }
}
