/**
 Loading a module and everything it imports (compiler/__init__.py): a depth-first walk that yields
 every reachable source module once, imports before importers, or reports why it cannot.
 */
module ImportLoader {
  import opened Prelude
  import opened Graphs

  /** Imports by module, for all modules whose sources are at hand, and names of directories without sources. */
  datatype Project = Project(modules: map<string, seq<string>>, emptyDirs: set<string>, target: string)

  datatype LoadError =
    | Cycle(path: seq<string>)
    | WrongTarget(name: string)
    | NotFound(name: string)
    | NoSources(name: string)

  const SOURCE_MODULES := {"fs", "os", "strings", "strconv", "math", "sort", "linux", "json", "sync"}
  const BUILTIN_MODULES := {"io", "runtime", "fs", "os", "strings", "strconv", "math", "sort", "types", "linux", "json"}

  /** What an import asks for. */
  datatype Request = Source | BuiltIn | Broken(error: LoadError)

  function RequestOf(name: string, project: Project): Request {
    if name == "linux" && project.target != "linux-x64" then Broken(WrongTarget(name))
    else if name in SOURCE_MODULES then if name in project.modules then Source else Broken(NotFound(name))
    else if name in BUILTIN_MODULES then BuiltIn
    else if name in project.modules then Source
    else if name in project.emptyDirs then Broken(NoSources(name))
    else Broken(NotFound(name))
  }

  /**
   A module is loaded from source exactly if its sources are at hand, the target fits, and it is none of
   the three that exist only inside the compiler; of the rest, built-in names need no sources.
   */
  lemma RequestsDecided(name: string, project: Project)
    ensures RequestOf(name, project).Source? <==>
              && name in project.modules && name !in {"io", "runtime", "types"}
              && (name == "linux" ==> project.target == "linux-x64")
    ensures name in {"io", "runtime", "types"} <==> RequestOf(name, project).BuiltIn?
    ensures RequestOf(name, project) == Broken(WrongTarget(name)) <==> name == "linux" && project.target != "linux-x64"
    ensures RequestOf(name, project) == Broken(NoSources(name)) <==>
              name !in project.modules && name in project.emptyDirs && name !in SOURCE_MODULES + BUILTIN_MODULES
    ensures RequestOf(name, project).Broken? ==>
              RequestOf(name, project).error in {WrongTarget(name), NoSources(name), NotFound(name)}
  {
  }

  /** The imports that are source modules. */
  function Sources(imports: seq<string>, project: Project): seq<string> {
    if imports == [] then []
    else (if RequestOf(imports[0], project).Source? then [imports[0]] else []) + Sources(imports[1..], project)
  }

  function Dependencies(project: Project): Graph {
    map name | name in project.modules :: Sources(project.modules[name], project)
  }

  lemma {:induction false} SourcesExact(imports: seq<string>, project: Project, name: string)
    ensures name in Sources(imports, project) <==> name in imports && RequestOf(name, project).Source?
  {
    if imports != [] {
      SourcesExact(imports[1..], project, name);
    }
  }

  lemma DependsExact(project: Project, a: string, b: string)
    ensures Edge(Dependencies(project), a, b) <==>
        a in project.modules && b in project.modules[a] && RequestOf(b, project).Source?
    ensures Edge(Dependencies(project), a, b) ==> b in project.modules
  {
    if a in project.modules {
      SourcesExact(project.modules[a], project, b);
    }
  }

  /** Some module that can be reached has an import that cannot be met. */
  ghost predicate BrokenBelow(project: Project, root: string, error: LoadError) {
    exists m, name :: Reaches(Dependencies(project), root, m) && Requires(project, m, name)
                      && RequestOf(name, project) == Broken(error)
  }

  ghost predicate Requires(project: Project, m: string, name: string) {
    m in project.modules && name in project.modules[m]
  }

  ghost predicate Met(project: Project, m: string) {
    forall name :: Requires(project, m, name) ==> !RequestOf(name, project).Broken?
  }

  /** A cycle of imports that can be reached. */
  ghost predicate CyclicBelow(g: Graph, root: string) {
    exists cycle :: IsCycle(g, cycle) && Reaches(g, root, cycle[0])
  }

  /** What an error says about the project. */
  ghost predicate Explains(project: Project, root: string, error: LoadError) {
    if error.Cycle? then
      exists k ::
          0 <= k < |error.path| && IsCycle(Dependencies(project), error.path[k..]) &&
              Reaches(Dependencies(project), root, error.path[k])
    else BrokenBelow(project, root, error)
  }

  class Loader {
    const project: Project
    ghost const root: string
    var stack: seq<string>
    var loaded: set<string>
    var order: seq<string>

    constructor (project: Project, root: string)
      ensures this.project == project && this.root == root && stack == [] && loaded == {} && order == []
    {
      this.project := project;
      this.root := root;
      stack, loaded, order := [], {}, [];
    }

    ghost predicate Valid()
      reads this
    {
      && IsChain(Dependencies(project), stack) && Distinct(stack)
      && Ordered(Dependencies(project), order) && Distinct(order)
      && Members(stack) <= loaded <= project.modules.Keys && Members(order) == loaded - Members(stack)
      && (forall m :: m in loaded ==> Reaches(Dependencies(project), root, m))
      && forall m :: m in Members(order) ==> Met(project, m)
    }

    /** Load a module; an exception leaves the walk where it is. */
    method Load(name: string) returns (error: Option<LoadError>)
      requires Valid() && name in project.modules && Reaches(Dependencies(project), root, name)
      requires stack != [] ==> Edge(Dependencies(project), stack[|stack| - 1], name)
      modifies this
      ensures error.None? ==>
          Valid() && stack == old(stack) && old(order) <= order && name in Members(order) && old(loaded) <= loaded
      ensures error.None? && old(stack) == [] && name !in old(loaded) ==> order[|order| - 1] == name
      ensures error.Some? ==> Explains(project, root, error.value)
      decreases |project.modules.Keys - Members(stack)|, 1
    {
      hide IsChain, Ordered, Edge, IsCycle, IndexOf, Members, Dependencies, Distinct, Reaches, Met, Explains, RequestOf;
      if name in stack {
        MemberOf(stack, name);
        CycleReported(project, root, stack, name);
        return Some(Cycle(stack + [name]));
      }
      MemberOf(stack, name);
      if name in loaded {
        return None;
      }
      Enter(name);
      error := LoadImports(name);
      if error.None? {
        Leave(name);
      }
    }

    method Enter(name: string)
      requires Valid() && name in project.modules && name !in stack && name !in loaded &&
          Reaches(Dependencies(project), root, name)
      requires stack != [] ==> Edge(Dependencies(project), stack[|stack| - 1], name)
      modifies this`stack, this`loaded
      ensures Valid() && stack == old(stack) + [name] && loaded == old(loaded) + {name}
      ensures |project.modules.Keys - Members(stack)| < |project.modules.Keys - Members(old(stack))|
    {
      hide IsChain, Ordered, Edge, IsCycle, IndexOf, Members, Dependencies, Distinct, Reaches, Met, RequestOf;
      MemberOf(stack, name);
      MemberOf(order, name);
      ChainThen(Dependencies(project), stack, name);
      MembersThen(stack, name);
      Deeper(project, stack, name);
      stack := stack + [name];
      loaded := loaded + {name};
    }

    method Leave(name: string)
      requires Valid() && stack != [] && stack[|stack| - 1] == name && Met(project, name)
      requires forall b :: Edge(Dependencies(project), name, b) ==> b in Members(order)
      modifies this`stack, this`order
      ensures Valid() && stack == old(stack)[..|old(stack)| - 1] && order == old(order) + [name] &&
          name in Members(order)
    {
      hide IsChain, Ordered, Edge, IsCycle, IndexOf, Members, Dependencies, Distinct, Reaches, Met, RequestOf;
      ghost var outer := stack[..|stack| - 1];
      assert stack == outer + [name];
      MemberOf(stack, name);
      stack := stack[..|stack| - 1];
      ChainBefore(Dependencies(project), outer, name);
      Finish(Dependencies(project), outer, order, name, loaded);
      order := order + [name];
    }

    /** The loop over the imports of the module on top of the stack. */
    method LoadImports(name: string) returns (error: Option<LoadError>)
      requires Valid() && name in project.modules && stack != [] && stack[|stack| - 1] == name
      modifies this
      ensures error.None? ==> Valid() && stack == old(stack) && old(order) <= order && old(loaded) <= loaded
      ensures error.None? ==> Met(project, name) && forall b :: Edge(Dependencies(project), name, b) ==>
          b in Members(order)
      ensures error.Some? ==> Explains(project, root, error.value)
      decreases |project.modules.Keys - Members(stack)|, 2
    {
      hide IsChain, Ordered, Edge, IsCycle, Members, Dependencies, Distinct, Reaches, Explains, Met;
      var imports := project.modules[name];
      var i := 0;
      while i < |imports|
        invariant 0 <= i <= |imports| && Valid() && stack == old(stack) && old(order) <= order && old(loaded) <= loaded
        invariant forall j :: 0 <= j < i ==> RequestOf(imports[j], project).Source? ==> imports[j] in Members(order)
        invariant forall j :: 0 <= j < i ==> !RequestOf(imports[j], project).Broken?
      {
        var request := RequestOf(imports[i], project);
        StackReached(name);
        if request.Broken? {
          BrokenReported(project, root, name, imports[i], request.error);
          return Some(request.error);
        }
        if request.Source? {
          DependsExact(project, name, imports[i]);
          ReachesThen(Dependencies(project), root, name, imports[i]);
          ghost var before := order;
          error := Load(imports[i]);
          if error.Some? {
            return;
          }
          MembersGrow(before, order);
        }
        i := i + 1;
      }
      ImportsDone(project, name, order);
      error := None;
    }

    lemma StackReached(name: string)
      requires Valid() && stack != [] && stack[|stack| - 1] == name
      ensures name in loaded && Reaches(Dependencies(project), root, name)
    {
      assert name in Members(stack);
    }
  }

  // ----- the steps of the walk -------------------------------------------------------------------------------

  lemma MemberOf(names: seq<string>, name: string)
    ensures name in Members(names) <==> name in names
  {
  }

  lemma Deeper(project: Project, stack: seq<string>, name: string)
    requires name in project.modules && name !in stack
    ensures |project.modules.Keys - Members(stack + [name])| < |project.modules.Keys - Members(stack)|
  {
    assert project.modules.Keys - Members(stack + [name]) == project.modules.Keys - Members(stack) - {name};
  }

  lemma CycleReported(project: Project, root: string, stack: seq<string>, name: string)
    requires IsChain(Dependencies(project), stack) && name in stack &&
        Edge(Dependencies(project), stack[|stack| - 1], name)
    requires Reaches(Dependencies(project), root, name)
    ensures Explains(project, root, Cycle(stack + [name]))
  {
    hide RequestOf, Dependencies, IsChain, IsCycle, Reaches, Edge;
    var k := IndexOf(stack, name);
    CycleHere(Dependencies(project), stack, name);
    assert (stack + [name])[k..] == stack[k..] + [name];
    assert (stack + [name])[k] == name;
  }

  lemma BrokenReported(project: Project, root: string, m: string, name: string, error: LoadError)
    requires Reaches(Dependencies(project), root, m) && m in project.modules && name in project.modules[m]
    requires RequestOf(name, project) == Broken(error)
    ensures Explains(project, root, error)
  {
    hide Dependencies, Reaches;
    assert Requires(project, m, name);
  }

  /** Leaving a module: it joins the order behind everything it imports. */
  lemma Finish(g: Graph, stack: seq<string>, order: seq<string>, name: string, loaded: set<string>)
    requires Ordered(g, order) && Distinct(order) && Distinct(stack + [name]) && name in loaded
    requires Members(stack + [name]) <= loaded && Members(order) == loaded - Members(stack + [name])
    requires forall b :: Edge(g, name, b) ==> b in Members(order)
    ensures Ordered(g, order + [name]) && Distinct(order + [name]) && Distinct(stack)
    ensures Members(stack) <= loaded && Members(order + [name]) == loaded - Members(stack)
    ensures Members(order + [name]) == Members(order) + {name}
  {
    OrderedThen(g, order, name);
    MembersThen(order, name);
    MembersThen(stack, name);
    var longer := stack + [name];
    forall i | 0 <= i < |stack|
      ensures stack[i] == longer[i] != name
    {
      assert longer[i] != longer[|stack|];
    }
  }

  lemma ImportsDone(project: Project, name: string, order: seq<string>)
    requires name in project.modules
    requires forall j :: 0 <= j < |project.modules[name]| ==>
      !RequestOf(project.modules[name][j], project).Broken?
      && (RequestOf(project.modules[name][j], project).Source? ==> project.modules[name][j] in Members(order))
    ensures Met(project, name) && forall b :: Edge(Dependencies(project), name, b) ==> b in Members(order)
  {
    forall b | Edge(Dependencies(project), name, b)
      ensures b in Members(order)
    {
      DependsExact(project, name, b);
    }
  }

  // ----- the results -----------------------------------------------------------------------------------------

  /** Everything that can be reached from an ordered module is in the order. */
  lemma OrderHoldsReachable(project: Project, order: seq<string>, entry: string)
    requires Ordered(Dependencies(project), order) && entry in order
    requires forall m :: m in Members(order) ==> Reaches(Dependencies(project), entry, m) && Met(project, m)
    ensures forall m :: m in order <==> Reaches(Dependencies(project), entry, m)
    ensures !CyclicBelow(Dependencies(project), entry)
    ensures forall e :: !BrokenBelow(project, entry, e)
  {
    hide Dependencies, RequestOf, Ordered, IsChain, Reaches;
    forall m | Reaches(Dependencies(project), entry, m)
      ensures m in order && (forall cycle :: IsCycle(Dependencies(project), cycle) ==> cycle[0] != m) && Met(project, m)
    {
      OrderedReach(Dependencies(project), order, entry, m);
    }
  }

  lemma CycleExplained(project: Project, entry: string, error: LoadError)
    requires Explains(project, entry, error)
    ensures error.Cycle? ==> CyclicBelow(Dependencies(project), entry)
    ensures !error.Cycle? ==> BrokenBelow(project, entry, error)
  {
    hide Dependencies, RequestOf, IsCycle, Reaches, BrokenBelow;
    if error.Cycle? {
      var k :| 0 <= k < |error.path| && IsCycle(Dependencies(project), error.path[k..]) &&
          Reaches(Dependencies(project), entry, error.path[k]);
      assert error.path[k..][0] == error.path[k];
    }
  }

  /**
   Loading succeeds exactly when neither a cycle nor an import that cannot be met is within reach;
   if all imports can be met, it reports a cycle exactly when one is within reach.
   On success the order lists the reachable source modules, each once, imports first, the entry last.
   */
  method LoadProject(project: Project, entry: string) returns (error: Option<LoadError>, order: seq<string>)
    requires entry in project.modules
    ensures error.None? <==> !CyclicBelow(Dependencies(project), entry) && forall e :: !BrokenBelow(project, entry, e)
    ensures error.Some? ==> Explains(project, entry, error.value)
    ensures (forall e :: !BrokenBelow(project, entry, e)) ==>
              (error.Some? && error.value.Cycle? <==> CyclicBelow(Dependencies(project), entry))
    ensures error.None? ==> Distinct(order) && (forall m :: m in order <==> Reaches(Dependencies(project), entry, m))
    ensures error.None? ==> Ordered(Dependencies(project), order) && order != [] && order[|order| - 1] == entry
  {
    hide Dependencies, RequestOf, Ordered, IsChain, IsCycle, Reaches, Distinct, Edge, BrokenBelow, CyclicBelow, Met,
        Explains;
    var loader := new Loader(project, entry);
    NothingOrdered(Dependencies(project));
    ReachesSelf(Dependencies(project), entry);
    error := loader.Load(entry);
    order := loader.order;
    if error.Some? {
      CycleExplained(project, entry, error.value);
    } else {
      OrderHoldsReachable(project, order, entry);
    }
  }
}
