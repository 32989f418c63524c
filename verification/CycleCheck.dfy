/** The circular-reference check of the configuration validator
    (internal/config/validator.go): a depth-first search with three colours. */
module CycleCheck {
  import opened FkGraph

  /** An entity with the entities its foreign keys refer to ("" when a field has none). */
  datatype EntityConfig = EntityConfig(name: string, references: seq<string>)

  predicate Refers(e: EntityConfig, t: string) { t in e.references && t != "" && t != e.name }

  predicate SomeRefers(entities: seq<EntityConfig>, n: string, t: string) {
    exists i :: 0 <= i < |entities| && entities[i].name == n && Refers(entities[i], t)
  }

  /** adj is the reference graph: n refers to t when some entity named n does. */
  ghost predicate IsReferenceGraph(adj: Graph, entities: seq<EntityConfig>) {
    forall n, t :: t in Targets(adj, n) <==> SomeRefers(entities, n, t)
  }

  ghost predicate Adds(before: Graph, adj: Graph, e: EntityConfig) {
    forall n, t {:trigger t in Targets(adj, n)} ::
      t in Targets(adj, n) <==> t in Targets(before, n) || (n == e.name && Refers(e, t))
  }

  lemma SomeRefersOneMore(entities: seq<EntityConfig>, e: EntityConfig, n: string, t: string)
    ensures SomeRefers(entities + [e], n, t) <==> SomeRefers(entities, n, t) || (n == e.name && Refers(e, t))
  {
    hide Refers;
    var all := entities + [e];
    if SomeRefers(entities, n, t) {
      var i :| 0 <= i < |entities| && entities[i].name == n && Refers(entities[i], t);
      assert all[i] == entities[i];
    }
    assert all[|entities|] == e;
  }

  lemma OneMoreEntity(before: Graph, adj: Graph, entities: seq<EntityConfig>, e: EntityConfig)
    requires IsReferenceGraph(before, entities) && Adds(before, adj, e)
    ensures IsReferenceGraph(adj, entities + [e])
  {
    hide SomeRefers, Refers;
    forall n, t ensures t in Targets(adj, n) <==> SomeRefers(entities + [e], n, t) {
      SomeRefersOneMore(entities, e, n, t);
    }
  }

  method BuildAdjacency(entities: seq<EntityConfig>) returns (adj: Graph)
    ensures IsReferenceGraph(adj, entities)
  {
    hide IsReferenceGraph, Adds;
    adj := map[];
    NoEntities();
    for i := 0 to |entities|
      invariant IsReferenceGraph(adj, entities[..i])
    {
      ghost var before := adj;
      adj := AddReferences(adj, entities[i]);
      OneMoreEntity(before, adj, entities[..i], entities[i]);
      assert entities[..i + 1] == entities[..i] + [entities[i]];
    }
    assert entities[..|entities|] == entities;
  }

  lemma NoEntities()
    ensures IsReferenceGraph(map[], [])
  {
  }

  method AddReferences(before: Graph, e: EntityConfig) returns (adj: Graph)
    ensures Adds(before, adj, e)
  {
    adj := before;
    for j := 0 to |e.references|
      invariant forall n :: n != e.name ==> Targets(adj, n) == Targets(before, n)
      invariant forall t :: t in Targets(adj, e.name) <==>
        t in Targets(before, e.name) || (t in e.references[..j] && t != "" && t != e.name)
    {
      var t := e.references[j];
      assert e.references[..j + 1] == e.references[..j] + [t];
      if t != "" && t != e.name {
        ghost var prior := adj;
        adj := adj[e.name := Targets(adj, e.name) + [t]];
        assert Targets(adj, e.name) == Targets(prior, e.name) + [t];
      }
    }
    assert e.references[..|e.references|] == e.references;
  }

  datatype Color = InProgress | Finished

  /** path holds the nodes in progress, finished nodes stand in order, every reported path is
      a lasso, and as long as none was reported all targets come first. */
  ghost predicate Colored(adj: Graph, visited: map<string, Color>, errs: seq<seq<string>>, order: seq<string>,
                          path: seq<string>) {
    && (forall n :: n in visited && visited[n] == InProgress <==> n in path)
    && (forall n :: n in visited && visited[n] == Finished <==> n in order)
    && Distinct(order)
    && (forall p <- errs :: Lasso(adj, p))
    && (errs == [] ==> TargetsFirst(adj, order))
  }

  ghost predicate Covers(universe: set<string>, adj: Graph) {
    forall n, t :: t in Targets(adj, n) ==> t in universe
  }

  ghost function AllNodes(adj: Graph, entities: seq<EntityConfig>): set<string> {
    (set e | e in entities :: e.name) + (set n, t | n in adj && t in adj[n] :: t)
  }

  lemma Starts(adj: Graph, visited: map<string, Color>, errs: seq<seq<string>>, order: seq<string>, path: seq<string>,
               n: string)
    requires Colored(adj, visited, errs, order, path) && n !in visited
    ensures Colored(adj, visited[n := InProgress], errs, order, path + [n])
    ensures n !in path && n !in order
  {
  }

  lemma Reports(adj: Graph, visited: map<string, Color>, errs: seq<seq<string>>, order: seq<string>,
                path: seq<string>, n: string)
    requires Colored(adj, visited, errs, order, path) && n in visited && visited[n] == InProgress &&
        Walk(adj, path + [n])
    ensures Colored(adj, visited, errs + [path + [n]], order, path)
    ensures n in path
  {
    var cycle := path + [n];
    var i :| 0 <= i < |path| && path[i] == n;
    assert cycle[i] == cycle[|cycle| - 1];
    assert Lasso(adj, cycle);
  }

  lemma Finishes(adj: Graph, visited: map<string, Color>, errs: seq<seq<string>>, order: seq<string>,
                 path: seq<string>, n: string)
    requires Colored(adj, visited, errs, order, path + [n]) && n !in path && n !in order && n in visited
    requires errs == [] ==> forall t <- Targets(adj, n) :: t in order
    ensures Colored(adj, visited[n := Finished], errs, order + [n], path)
  {
    if errs == [] {
      forall i, t | 0 <= i < |order + [n]| && t in Targets(adj, (order + [n])[i]) ensures t in (order + [n])[..i] {
        if i < |order| {
          assert (order + [n])[..i] == order[..i] && t in Targets(adj, order[i]);
        } else {
          assert (order + [n])[..i] == order;
        }
      }
    }
  }

  class Search {
    const adj: Graph
    ghost const universe: set<string>
    var visited: map<string, Color>
    var errs: seq<seq<string>>
    ghost var order: seq<string>

    ghost predicate Valid(path: seq<string>)
      reads this
    {
      Colored(adj, visited, errs, order, path) && Covers(universe, adj)
    }

    constructor (adj: Graph, ghost universe: set<string>)
      requires Covers(universe, adj)
      ensures this.adj == adj && this.universe == universe && Valid([]) && errs == [] && order == []
    {
      this.adj := adj;
      this.universe := universe;
      visited := map[];
      errs := [];
      order := [];
    }

    /** Nodes the search has not reached. */
    ghost function Unvisited(): set<string>
      reads this
    {
      universe - visited.Keys
    }

    /** dfs: afterwards the node is finished, or a cycle through it was reported. */
    method Dfs(node: string, path: seq<string>)
      requires Valid(path) && Walk(adj, path + [node]) && node in universe
      modifies this
      ensures Valid(path) && old(errs) <= errs && old(order) <= order && old(visited.Keys) <= visited.Keys
      ensures errs == [] ==> node in order
      ensures node in old(visited) && old(visited)[node] == InProgress ==> errs != []
      ensures !(node in old(visited) && old(visited)[node] == InProgress) ==> node in order
      decreases Unvisited()
    {
      hide Colored, Walk, TargetsFirst, Lasso;
      if node in visited && visited[node] == Finished {
        FinishedIsOrdered(adj, visited, errs, order, path, node);
        return;
      }
      if node in visited && visited[node] == InProgress {
        Reports(adj, visited, errs, order, path, node);
        errs := errs + [path + [node]];
        return;
      }
      Starts(adj, visited, errs, order, path, node);
      visited := visited[node := InProgress];
      var here := path + [node];
      var targets := Targets(adj, node);
      for k := 0 to |targets|
        invariant Valid(here) && old(errs) <= errs && old(order) <= order
        invariant old(visited.Keys) <= visited.Keys && node in visited
        invariant errs == [] ==> forall j :: 0 <= j < k ==> targets[j] in order
      {
        ExtendWalk(adj, here, targets[k]);
        assert targets[k] in universe;
        assert node in old(Unvisited()) && node !in Unvisited();
        Dfs(targets[k], here);
      }
      StillInProgress(adj, visited, errs, order, path, node);
      Finishes(adj, visited, errs, order, path, node);
      visited := visited[node := Finished];
      order := order + [node];
    }
  }

  lemma FinishedIsOrdered(adj: Graph, visited: map<string, Color>, errs: seq<seq<string>>, order: seq<string>,
                          path: seq<string>, n: string)
    requires Colored(adj, visited, errs, order, path) && n in visited && visited[n] == Finished
    ensures n in order
  {
  }

  lemma StillInProgress(adj: Graph, visited: map<string, Color>, errs: seq<seq<string>>, order: seq<string>,
                        path: seq<string>, n: string)
    requires Colored(adj, visited, errs, order, path + [n])
    ensures n in visited && n !in order
  {
    assert n in path + [n];
  }

  lemma SingleWalk(adj: Graph, n: string)
    ensures Walk(adj, [] + [n])
  {
  }

  /** detectCircularRefs: errors are reported exactly when the reference graph has a cycle,
      and every reported path is a walk in it whose last node occurs earlier. */
  method DetectCircularRefs(entities: seq<EntityConfig>) returns (errs: seq<seq<string>>, adj: Graph)
    ensures IsReferenceGraph(adj, entities)
    ensures errs == [] <==> Acyclic(adj)
    ensures forall p <- errs :: Lasso(adj, p)
  {
    hide Colored, Walk, Lasso, IsReferenceGraph;
    adj := BuildAdjacency(entities);
    var search := new Search(adj, AllNodes(adj, entities));
    for i := 0 to |entities|
      invariant search.adj == adj && search.universe == AllNodes(adj, entities) && search.Valid([])
      invariant fresh(search)
      invariant search.errs == [] ==> forall j :: 0 <= j < i ==> entities[j].name in search.order
    {
      var name := entities[i].name;
      if name !in search.visited {
        SingleWalk(adj, name);
        search.Dfs(name, []);
      } else {
        VisitedIsFinished(adj, search.visited, search.errs, search.order, name);
      }
    }
    errs := search.errs;
    ErrorsExactlyOnCycles(adj, entities, search.visited, errs, search.order);
  }

  lemma VisitedIsFinished(adj: Graph, visited: map<string, Color>, errs: seq<seq<string>>, order: seq<string>,
                          n: string)
    requires Colored(adj, visited, errs, order, []) && n in visited
    ensures n in order
  {
    assert visited[n] == InProgress ==> n in [];
  }

  lemma ErrorsExactlyOnCycles(adj: Graph, entities: seq<EntityConfig>, visited: map<string, Color>,
                              errs: seq<seq<string>>, order: seq<string>)
    requires Colored(adj, visited, errs, order, []) && IsReferenceGraph(adj, entities)
    requires errs == [] ==> forall j :: 0 <= j < |entities| ==> entities[j].name in order
    ensures errs == [] <==> Acyclic(adj)
    ensures forall p <- errs :: Lasso(adj, p)
  {
    hide IsReferenceGraph, Targets;
    if errs != [] {
      assert errs[0] in errs && Lasso(adj, errs[0]);
      var c := LassoHoldsCycle(adj, errs[0]);
    } else {
      forall c ensures !Cycle(adj, c) {
        if Cycle(adj, c) {
          CycleIsLasso(adj, c);
          TargetsFirstIsAcyclic(adj, order, c);
          LassoStartsAtEntity(adj, entities, c);
        }
      }
    }
  }

  lemma LassoStartsAtEntity(adj: Graph, entities: seq<EntityConfig>, p: seq<string>)
    requires Lasso(adj, p) && IsReferenceGraph(adj, entities)
    ensures exists j :: 0 <= j < |entities| && entities[j].name == p[0]
  {
    assert p[0 + 1] in Targets(adj, p[0]);
    assert SomeRefers(entities, p[0], p[1]);
  }
}
