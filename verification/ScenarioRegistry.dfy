/** Validation of the scenario registry's references (contracts/scenario_registry.py:360-379, 541-558): the
    depth-first search for prerequisite cycles accepts exactly the graphs that can be put in order. */
module ScenarioRegistry {
  import opened Wrappers

  datatype Entry = Entry(
    identity: string, scenarioId: string, revision: string, prerequisites: seq<string>,
    supersededBy: Option<string>, parent: Option<string>)

  type Graph = map<string, seq<string>>

  /** Every prerequisite is itself in the graph. */
  ghost predicate Closed(g: Graph) {
    forall x, k | x in g && 0 <= k < |g[x]| :: g[x][k] in g
  }

  /** A list that names each of its elements once and each prerequisite before what needs it. */
  ghost predicate InOrder(g: Graph, order: seq<string>) {
    && (forall i | 0 <= i < |order| :: order[i] in g && order[i] !in order[..i])
    && (forall i, k | 0 <= i < |order| && 0 <= k < |g[order[i]]| :: g[order[i]][k] in order[..i])
  }

  ghost predicate TopologicalOrder(g: Graph, order: seq<string>) {
    InOrder(g, order) && forall x | x in g :: x in order
  }

  ghost predicate Orderable(g: Graph) {
    exists order :: TopologicalOrder(g, order)
  }

  /** Each element needs the next. */
  ghost predicate Chain(g: Graph, trail: seq<string>) {
    && (forall i | 0 <= i < |trail| :: trail[i] in g)
    && (forall i | 0 <= i < |trail| - 1 :: trail[i + 1] in g[trail[i]])
  }

  ghost predicate Cycle(g: Graph, trail: seq<string>) {
    |trail| > 1 && Chain(g, trail) && trail[0] == trail[|trail| - 1]
  }

  lemma {:induction false} ChainGoesBack(g: Graph, order: seq<string>, trail: seq<string>, i: nat)
    requires TopologicalOrder(g, order) && Chain(g, trail) && |trail| > 1
    requires i < |order| && order[i] == trail[0]
    ensures trail[|trail| - 1] in order[..i]
    decreases |trail|
  {
    assert trail[0 + 1] in g[trail[0]];
    var k :| 0 <= k < |g[trail[0]]| && g[trail[0]][k] == trail[1];
    assert trail[1] in order[..i];
    if |trail| > 2 {
      var m :| 0 <= m < i && order[m] == trail[1];
      assert forall n | 0 <= n < |trail| - 1 :: trail[1..][n] == trail[n + 1];
      ChainGoesBack(g, order, trail[1..], m);
    }
  }

  /** A graph with a cycle cannot be put in order. */
  lemma CycleIsNotOrderable(g: Graph, trail: seq<string>)
    requires Cycle(g, trail)
    ensures !Orderable(g)
  {
    forall order | TopologicalOrder(g, order) ensures false {
      var i :| 0 <= i < |order| && order[i] == trail[0];
      ChainGoesBack(g, order, trail, i);
    }
  }

  // ---------------------------------------------------------------- the search

  class CycleSearch {
    const dependencies: Graph
    var visiting: set<string>
    var visited: set<string>
    /** The visited identities in the order in which they were finished. */
    ghost var finished: seq<string>

    ghost predicate Valid()
      reads this
    {
      && Closed(dependencies) && visiting <= dependencies.Keys && visited !! visiting
      && InOrder(dependencies, finished) && (forall x :: x in visited <==> x in finished)
    }

    constructor (dependencies: Graph)
      requires Closed(dependencies)
      ensures Valid() && this.dependencies == dependencies && visiting == {} && visited == {}
    {
      this.dependencies := dependencies;
      visiting, visited, finished := {}, {}, [];
    }

    /** The identities being visited form the trail that led here. */
    ghost predicate Reached(trail: seq<string>, identity: string)
      reads this
    {
      && (forall x :: x in visiting <==> x in trail) && Chain(dependencies, trail) && identity in dependencies
      && (trail != [] ==> identity in dependencies[trail[|trail| - 1]])
    }

    /** visit: either everything below the identity is finished, or the graph has a cycle. */
    method Visit(identity: string, ghost trail: seq<string>) returns (accepted: bool)
      requires Valid() && Reached(trail, identity)
      modifies this
      ensures accepted ==> Valid() && visiting == old(visiting) && old(visited) <= visited && identity in visited
      ensures !accepted ==> exists cycle :: Cycle(dependencies, cycle)
      decreases dependencies.Keys - visiting
    {
      if identity in visited {
        return true;
      }
      if identity in visiting {
        CloseCycle(trail, identity);
        return false;
      }
      visiting := visiting + {identity};
      var prerequisites := dependencies[identity];
      ghost var longer := trail + [identity];
      assert Chain(dependencies, longer);
      for k := 0 to |prerequisites|
        invariant Valid() && visiting == old(visiting) + {identity} && old(visited) <= visited
        invariant forall m | 0 <= m < k :: prerequisites[m] in visited
      {
        assert prerequisites[k] in dependencies;
        var accepted' := Visit(prerequisites[k], longer);
        if !accepted' {
          return false;
        }
      }
      Finish(identity);
      accepted := true;
    }

    ghost method CloseCycle(trail: seq<string>, identity: string)
      requires Reached(trail, identity) && identity in visiting
      ensures exists cycle :: Cycle(dependencies, cycle)
    {
      var i :| 0 <= i < |trail| && trail[i] == identity;
      var cycle := trail[i..] + [identity];
      assert forall n | 0 <= n < |trail| - i :: cycle[n] == trail[i + n];
      assert Cycle(dependencies, cycle);
    }

    method Finish(identity: string)
      requires Valid() && identity in visiting
      requires forall m | 0 <= m < |dependencies[identity]| :: dependencies[identity][m] in visited
      modifies this
      ensures Valid() && visiting == old(visiting) - {identity} && visited == old(visited) + {identity}
    {
      visiting := visiting - {identity};
      visited := visited + {identity};
      ghost var longer := finished + [identity];
      assert longer[..|finished|] == finished;
      assert forall i | 0 <= i < |finished| :: longer[..i] == finished[..i];
      finished := longer;
    }
  }

  /** _reject_prerequisite_cycles; the identities are searched in any order. */
  method RejectPrerequisiteCycles(g: Graph) returns (accepted: bool)
    requires Closed(g)
    ensures accepted <==> Orderable(g)
  {
    var search := new CycleSearch(g);
    var remaining := g.Keys;
    while remaining != {}
      invariant search.Valid() && search.dependencies == g && search.visiting == {} && fresh(search)
      invariant remaining <= g.Keys && forall x | x in g :: x in remaining || x in search.visited
      decreases |remaining|
    {
      var identity :| identity in remaining;
      remaining := remaining - {identity};
      var acyclic := search.Visit(identity, []);
      if !acyclic {
        ghost var cycle :| Cycle(g, cycle);
        CycleIsNotOrderable(g, cycle);
        return false;
      }
    }
    assert TopologicalOrder(g, search.finished);
    accepted := true;
  }

  // ---------------------------------------------------------------- the registry

  predicate Distinct<T(==)>(xs: seq<T>) {
    forall i, j | 0 <= i < j < |xs| :: xs[i] != xs[j]
  }

  function Identities(entries: seq<Entry>): seq<string> {
    seq(|entries|, i requires 0 <= i < |entries| => entries[i].identity)
  }

  function Keys(entries: seq<Entry>): seq<(string, string)> {
    seq(|entries|, i requires 0 <= i < |entries| => (entries[i].scenarioId, entries[i].revision))
  }

  predicate Refers(entries: seq<Entry>, target: Option<string>) {
    target.Some? ==> target.value in Identities(entries)
  }

  predicate ReferencesPresent(entries: seq<Entry>) {
    forall i | 0 <= i < |entries| ::
      && (forall k | 0 <= k < |entries[i].prerequisites| :: entries[i].prerequisites[k] in Identities(entries))
      && Refers(entries, entries[i].supersededBy) && Refers(entries, entries[i].parent)
  }

  function Dependencies(entries: seq<Entry>): Graph {
    if entries == [] then map[]
    else
      var last := entries[|entries| - 1];
      Dependencies(entries[..|entries| - 1])[last.identity := last.prerequisites]
  }

  lemma {:induction false} DependenciesOf(entries: seq<Entry>)
    ensures forall x :: x in Dependencies(entries) <==> x in Identities(entries)
    ensures Distinct(Identities(entries)) ==>
              forall i | 0 <= i < |entries| ::
                entries[i].identity in Dependencies(entries)
                    && Dependencies(entries)[entries[i].identity] == entries[i].prerequisites
  {
    if entries != [] {
      var n := |entries| - 1;
      DependenciesOf(entries[..n]);
      assert Identities(entries) == Identities(entries[..n]) + [entries[n].identity];
      if Distinct(Identities(entries)) {
        forall i | 0 <= i < n ensures entries[i].identity != entries[n].identity {
          assert Identities(entries)[i] != Identities(entries)[n];
        }
        assert forall i | 0 <= i < n :: Identities(entries[..n])[i] == Identities(entries)[i];
      }
    }
  }

  lemma ClosedDependencies(entries: seq<Entry>)
    requires Distinct(Identities(entries)) && ReferencesPresent(entries)
    ensures Closed(Dependencies(entries))
  {
    var g := Dependencies(entries);
    DependenciesOf(entries);
    forall x, k | x in g && 0 <= k < |g[x]| ensures g[x][k] in g {
      var i :| 0 <= i < |entries| && Identities(entries)[i] == x;
      assert g[entries[i].identity] == entries[i].prerequisites;
    }
  }

  /** The reference checks of validate_registry: accepted exactly when identities and keys are unique, every
      reference is present, and the prerequisites can be put in order. */
  method ValidateReferences(entries: seq<Entry>) returns (accepted: bool)
    ensures accepted <==> Distinct(Identities(entries)) && Distinct(Keys(entries)) && ReferencesPresent(entries)
                          && Orderable(Dependencies(entries))
  {
    if !Distinct(Identities(entries)) || !Distinct(Keys(entries)) || !ReferencesPresent(entries) {
      return false;
    }
    ClosedDependencies(entries);
    accepted := RejectPrerequisiteCycles(Dependencies(entries));
  }
}
