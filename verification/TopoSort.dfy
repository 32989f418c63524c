/** The table order of the migration engine (internal/migration/engine.go): Kahn's algorithm over
    the references between declared entities, with the entities it cannot place appended. */
module TopoSort {
  import opened FkGraph

  /** An entity with the entities its fields refer to, in field order. */
  datatype Entity = Entity(name: string, references: seq<string>)

  function Names(es: seq<Entity>): (r: seq<string>)
    ensures |r| == |es| && forall i :: 0 <= i < |es| ==> r[i] == es[i].name
  {
    seq(|es|, i requires 0 <= i < |es| => es[i].name)
  }

  function Declared(es: seq<Entity>): set<string> { set e | e in es :: e.name }

  predicate DistinctNames(es: seq<Entity>) { forall i, j :: 0 <= i < j < |es| ==> es[i].name != es[j].name }

  /** The references that order the tables: to another, declared entity; repeated ones are kept. */
  function Deps(references: seq<string>, own: string, declared: set<string>): seq<string> {
    if references == [] then []
    else
      var r := references[|references| - 1];
      Deps(references[..|references| - 1], own, declared) + (if r != own && r in declared then [r] else [])
  }

  /** g lists the ordering references of every entity. */
  ghost predicate IsDependencyGraph(g: Graph, es: seq<Entity>) {
    && (forall e <- es :: Targets(g, e.name) == Deps(e.references, e.name, Declared(es)))
    && (forall n :: n in g ==> n in Declared(es))
  }

  /** How many of the listed references are not placed yet. */
  function Missing(ds: seq<string>, done: set<string>): nat {
    if ds == [] then 0 else (if ds[0] in done then 0 else 1) + Missing(ds[1..], done)
  }

  lemma {:induction false} MissingZero(ds: seq<string>, done: set<string>)
    ensures Missing(ds, done) == 0 <==> forall d <- ds :: d in done
    decreases |ds|
  {
    if ds != [] {
      MissingZero(ds[1..], done);
      assert forall d <- ds :: d == ds[0] || d in ds[1..];
      assert forall d <- ds[1..] :: d in ds;
      assert ds[0] in ds;
    }
  }

  lemma {:induction false} MissingAll(ds: seq<string>)
    ensures Missing(ds, {}) == |ds|
    decreases |ds|
  {
    if ds != [] { MissingAll(ds[1..]); }
  }

  lemma {:induction false} MissingSplit(a: seq<string>, b: seq<string>, done: set<string>)
    ensures Missing(a + b, done) == Missing(a, done) + Missing(b, done)
    decreases |a|
  {
    if a == [] {
      assert a + b == b;
    } else {
      assert (a + b)[1..] == a[1..] + b;
      MissingSplit(a[1..], b, done);
    }
  }

  lemma MissingOne(d: string, done: set<string>)
    ensures Missing([d], done) == if d in done then 0 else 1
  {
    assert Missing([d][1..], done) == 0;
  }

  /** The part of a reference list before j counted after the placement of name, the rest before it. */
  function HalfMissing(ds: seq<string>, j: nat, name: string, done: set<string>): nat
    requires j <= |ds|
  {
    Missing(ds[..j], done + {name}) + Missing(ds[j..], done)
  }

  lemma HalfMissingStep(ds: seq<string>, j: nat, name: string, done: set<string>)
    requires j < |ds| && name !in done
    ensures HalfMissing(ds, j + 1, name, done) == HalfMissing(ds, j, name, done) - if ds[j] == name then 1 else 0
  {
    assert ds[..j + 1] == ds[..j] + [ds[j]] && ds[j..] == [ds[j]] + ds[j + 1..];
    MissingSplit(ds[..j], [ds[j]], done + {name});
    MissingSplit([ds[j]], ds[j + 1..], done);
    MissingOne(ds[j], done);
    MissingOne(ds[j], done + {name});
  }

  /** The two inner steps of the loop for one entity: every repeated reference to name counts
      down once, and the entity is queued at most once, exactly when its last one goes. */
  method Release(entity: string, ds: seq<string>, name: string, count: int, queue: seq<string>, ghost done: set<string>)
    returns (left: int, waiting: seq<string>)
    requires count == Missing(ds, done) && name !in done
    ensures 0 <= left == Missing(ds, done + {name}) <= count
    ensures waiting == if count > 0 && left == 0 then queue + [entity] else queue
  {
    hide Missing;
    left, waiting := count, queue;
    assert ds[..0] == [] && ds[0..] == ds;
    MissingZero([], done + {name});
    for j := 0 to |ds|
      invariant left == HalfMissing(ds, j, name, done) <= count
      invariant waiting == if count > 0 && left == 0 then queue + [entity] else queue
    {
      HalfMissingStep(ds, j, name, done);
      if ds[j] == name {
        left := left - 1;
        if left == 0 {
          waiting := waiting + [entity];
        }
      }
    }
    assert ds[..|ds|] == ds && ds[|ds|..] == [];
    MissingZero([], done);
  }

  method IndexByName(entities: seq<Entity>) returns (byName: map<string, Entity>)
    requires DistinctNames(entities)
    ensures forall i :: 0 <= i < |entities| ==> entities[i].name in byName && byName[entities[i].name] == entities[i]
    ensures byName.Keys == Declared(entities)
  {
    byName := map[];
    for i := 0 to |entities|
      invariant forall k :: 0 <= k < i ==> entities[k].name in byName && byName[entities[k].name] == entities[k]
      invariant byName.Keys == Declared(entities[..i])
    {
      byName := byName[entities[i].name := entities[i]];
      assert entities[..i + 1] == entities[..i] + [entities[i]];
      assert Declared(entities[..i + 1]) == Declared(entities[..i]) + {entities[i].name};
    }
    assert entities[..|entities|] == entities;
  }

  /** Counting maps before and after the references of e were added to them. */
  ghost predicate CountsAdded(e: Entity, ds: seq<string>, counts: map<string, int>, deps: Graph, counts': map<string,
                              int>, deps': Graph) {
    && e.name in counts' && counts'[e.name] == |ds| && Targets(deps', e.name) == ds
    && (forall n :: n != e.name ==> Targets(deps', n) == Targets(deps, n))
    && (forall n :: n in deps' ==> n in deps || n == e.name)
    && (forall n :: n != e.name && n in counts ==> n in counts' && counts'[n] == counts[n])
    && (forall n :: n != e.name && n in counts' && n !in counts ==> counts'[n] == 0)
  }

  method CountReferences(e: Entity, byName: map<string, Entity>, counts: map<string, int>, deps: Graph)
    returns (counts': map<string, int>, deps': Graph)
    requires Targets(deps, e.name) == [] && (e.name in counts ==> counts[e.name] == 0)
    ensures CountsAdded(e, Deps(e.references, e.name, byName.Keys), counts, deps, counts', deps')
  {
    counts', deps' := counts, deps;
    if e.name !in counts' {
      counts' := counts'[e.name := 0];
    }
    for j := 0 to |e.references|
      invariant CountsAdded(e, Deps(e.references[..j], e.name, byName.Keys), counts, deps, counts', deps')
    {
      var ref := e.references[j];
      assert e.references[..j + 1][..j] == e.references[..j];
      if ref == e.name || ref !in byName {
        continue;
      }
      ghost var prior := deps';
      deps' := deps'[e.name := Targets(deps', e.name) + [ref]];
      assert Targets(deps', e.name) == Targets(prior, e.name) + [ref];
      if ref !in counts' {
        counts' := counts'[ref := 0];
      }
      counts' := counts'[e.name := counts'[e.name] + 1];
    }
    assert e.references[..|e.references|] == e.references;
  }

  /** The maps hold what they should for an entity already read, and nothing for one not yet read. */
  predicate Recorded(e: Entity, declared: set<string>, counts: map<string, int>, deps: Graph) {
    && Targets(deps, e.name) == Deps(e.references, e.name, declared)
    && e.name in counts && counts[e.name] == |Targets(deps, e.name)|
  }

  predicate Unread(e: Entity, counts: map<string, int>, deps: Graph) {
    Targets(deps, e.name) == [] && (e.name in counts ==> counts[e.name] == 0)
  }

  lemma OthersKeep(x: Entity, e: Entity, ds: seq<string>, declared: set<string>,
                                      counts: map<string, int>, deps: Graph, counts': map<string, int>, deps': Graph)
    requires CountsAdded(e, ds, counts, deps, counts', deps') && x.name != e.name
    ensures Recorded(x, declared, counts, deps) ==> Recorded(x, declared, counts', deps')
    ensures Unread(x, counts, deps) ==> Unread(x, counts', deps')
  {
    hide Targets, Deps;
  }

  method CollectReferences(entities: seq<Entity>, byName: map<string, Entity>) returns (inDegree: map<string, int>,
                           deps: Graph)
    requires DistinctNames(entities) && byName.Keys == Declared(entities)
    ensures forall i :: 0 <= i < |entities| ==> Recorded(entities[i], Declared(entities), inDegree, deps)
    ensures forall n :: n in deps ==> n in Declared(entities)
  {
    hide Targets, Deps, Recorded, Unread;
    inDegree, deps := map[], map[];
    NothingRead(entities);
    for k := 0 to |entities|
      invariant forall i :: 0 <= i < k ==> Recorded(entities[i], byName.Keys, inDegree, deps)
      invariant forall i :: k <= i < |entities| ==> Unread(entities[i], inDegree, deps)
      invariant forall n :: n in deps ==> n in byName.Keys
    {
      ghost var counts, graph := inDegree, deps;
      var e := entities[k];
      assert e.name in Declared(entities);
      UnreadIsEmpty(e, inDegree, deps);
      inDegree, deps := CountReferences(e, byName, inDegree, deps);
      NowRecorded(e, byName.Keys, counts, graph, inDegree, deps);
      forall i | 0 <= i < |entities| && i != k
        ensures i < k ==> Recorded(entities[i], byName.Keys, inDegree, deps)
        ensures i > k ==> Unread(entities[i], inDegree, deps)
      {
        OthersKeep(entities[i], e, Deps(e.references, e.name, byName.Keys), byName.Keys, counts, graph, inDegree, deps);
      }
    }
  }

  lemma NothingRead(entities: seq<Entity>)
    ensures forall i :: 0 <= i < |entities| ==> Unread(entities[i], map[], map[])
  {
  }

  lemma UnreadIsEmpty(e: Entity, counts: map<string, int>, deps: Graph)
    requires Unread(e, counts, deps)
    ensures Targets(deps, e.name) == [] && (e.name in counts ==> counts[e.name] == 0)
  {
  }

  lemma NowRecorded(e: Entity, declared: set<string>, counts: map<string, int>, deps: Graph, counts': map<string,
                    int>, deps': Graph)
    requires CountsAdded(e, Deps(e.references, e.name, declared), counts, deps, counts', deps')
    ensures Recorded(e, declared, counts', deps')
  {
    hide Targets, Deps;
  }

  function Elements(p: seq<string>): set<string> { set n | n in p }

  predicate Counted(deps: Graph, inDegree: map<string, int>, n: string, done: set<string>) {
    n in inDegree && inDegree[n] == Missing(Targets(deps, n), done)
  }

  predicate ReadyWhenZero(inDegree: map<string, int>, n: string, placed: seq<string>) {
    n in inDegree && (n in placed <==> inDegree[n] == 0)
  }

  lemma ReadyElsewhere(inDegree: map<string, int>, n: string, k: string, left: int, placed: seq<string>,
                       added: seq<string>)
    requires ReadyWhenZero(inDegree, n, placed) && n != k && (added == [] || added == [k])
    ensures ReadyWhenZero(inDegree[k := left], n, placed + added)
  {
  }

  lemma ReadyHere(inDegree: map<string, int>, k: string, left: int, placed: seq<string>)
    requires ReadyWhenZero(inDegree, k, placed) && 0 <= left <= inDegree[k]
    ensures ReadyWhenZero(inDegree[k := left], k, placed + if inDegree[k] > 0 && left == 0 then [k] else [])
    ensures inDegree[k] > 0 ==> k !in placed
  {
  }

  lemma CountedElsewhere(deps: Graph, inDegree: map<string, int>, n: string, k: string, left: int, done: set<string>)
    requires Counted(deps, inDegree, n, done) && n != k
    ensures Counted(deps, inDegree[k := left], n, done)
  {
  }

  ghost predicate AllReady(entities: seq<Entity>, inDegree: map<string, int>, placed: seq<string>) {
    forall i :: 0 <= i < |entities| ==> ReadyWhenZero(inDegree, entities[i].name, placed)
  }

  ghost predicate CountedUpTo(entities: seq<Entity>, k: nat, deps: Graph, inDegree: map<string, int>,
                              now: set<string>, was: set<string>) {
    && (forall i :: 0 <= i < |entities| && i < k ==> Counted(deps, inDegree, entities[i].name, now))
    && (forall i :: k <= i < |entities| ==> Counted(deps, inDegree, entities[i].name, was))
  }

  /** The state between two rounds: done holds the placed names in order, queue the ones ready. */
  ghost predicate Balanced(entities: seq<Entity>, deps: Graph, inDegree: map<string, int>, queue: seq<string>,
                           done: seq<string>) {
    && PlacedOnce(entities, done + queue)
    && CountedUpTo(entities, 0, deps, inDegree, {}, Elements(done))
    && AllReady(entities, inDegree, done + queue)
    && TargetsFirst(deps, done)
  }

  ghost predicate PlacedOnce(entities: seq<Entity>, placed: seq<string>) {
    Distinct(placed) && forall i :: 0 <= i < |placed| ==> placed[i] in Declared(entities)
  }

  /** One entity's turn in the loop that follows the placement of name. */
  lemma OneReleased(entities: seq<Entity>, k: nat, deps: Graph, inDegree: map<string, int>, left: int,
                                       placed: seq<string>, added: seq<string>, now: set<string>, was: set<string>)
    requires DistinctNames(entities) && k < |entities|
    requires CountedUpTo(entities, k, deps, inDegree, now, was) && AllReady(entities, inDegree, placed) &&
        PlacedOnce(entities, placed)
    requires entities[k].name in inDegree && 0 <= left <= inDegree[entities[k].name]
    requires left == Missing(Targets(deps, entities[k].name), now)
    requires added == if inDegree[entities[k].name] > 0 && left == 0 then [entities[k].name] else []
    ensures CountedUpTo(entities, k + 1, deps, inDegree[entities[k].name := left], now, was)
    ensures AllReady(entities, inDegree[entities[k].name := left], placed + added)
    ensures PlacedOnce(entities, placed + added)
  {
    hide Counted, ReadyWhenZero, Missing, Targets;
    var n := entities[k].name;
    forall i | 0 <= i < |entities| && i != k
      ensures i < k ==> Counted(deps, inDegree[n := left], entities[i].name, now)
      ensures i > k ==> Counted(deps, inDegree[n := left], entities[i].name, was)
      ensures ReadyWhenZero(inDegree[n := left], entities[i].name, placed + added)
    {
      if i < k {
        CountedElsewhere(deps, inDegree, entities[i].name, n, left, now);
      } else {
        CountedElsewhere(deps, inDegree, entities[i].name, n, left, was);
      }
      ReadyElsewhere(inDegree, entities[i].name, n, left, placed, added);
    }
    ReadyHere(inDegree, n, left, placed);
    assert Counted(deps, inDegree[n := left], n, now) by { CountedHere(deps, inDegree, n, left, now); }
    assert entities[k] in entities;
    assert n in Declared(entities);
  }

  lemma CountedHere(deps: Graph, inDegree: map<string, int>, n: string, left: int, done: set<string>)
    requires left == Missing(Targets(deps, n), done)
    ensures Counted(deps, inDegree[n := left], n, done)
  {
  }

  lemma CountOf(entities: seq<Entity>, k: nat, deps: Graph, inDegree: map<string, int>, now: set<string>,
                was: set<string>)
    requires k < |entities| && CountedUpTo(entities, k, deps, inDegree, now, was)
    ensures entities[k].name in inDegree && inDegree[entities[k].name] == Missing(Targets(deps, entities[k].name), was)
  {
    assert Counted(deps, inDegree, entities[k].name, was);
  }

  /** The loop over all entities after one name was placed. */
  method ReleaseAll(entities: seq<Entity>, deps: Graph, inDegree: map<string, int>, rest: seq<string>, name: string,
                    ghost done: seq<string>)
    returns (counts: map<string, int>, queue: seq<string>)
    requires DistinctNames(entities) && Balanced(entities, deps, inDegree, [name] + rest, done)
    ensures Balanced(entities, deps, counts, queue, done + [name])
  {
    hide CountedUpTo, AllReady, PlacedOnce, TargetsFirst, Missing, Targets, Elements;
    counts, queue := inDegree, rest;
    ghost var now, was := Elements(done + [name]), Elements(done);
    HeadIsPlaceable(entities, deps, inDegree, rest, name, done);
    for k := 0 to |entities|
      invariant CountedUpTo(entities, k, deps, counts, now, was)
      invariant AllReady(entities, counts, done + [name] + queue) && PlacedOnce(entities, done + [name] + queue)
    {
      CountOf(entities, k, deps, counts, now, was);
      var n := entities[k].name;
      ghost var before, placed := queue, done + [name] + queue;
      var left;
      left, queue := Release(n, Targets(deps, n), name, counts[n], queue, was);
      ghost var added := if counts[n] > 0 && left == 0 then [n] else [];
      OneReleased(entities, k, deps, counts, left, placed, added, now, was);
      assert queue == before + added;
      assert done + [name] + queue == placed + added;
      counts := counts[n := left];
    }
    AllCounted(entities, deps, counts, now, was);
  }

  lemma AllCounted(entities: seq<Entity>, deps: Graph, counts: map<string, int>, now: set<string>, was: set<string>)
    requires CountedUpTo(entities, |entities|, deps, counts, now, was)
    ensures CountedUpTo(entities, 0, deps, counts, {}, now)
  {
    hide Counted;
  }

  lemma ElementsGrow(p: seq<string>, n: string)
    ensures Elements(p + [n]) == Elements(p) + {n}
  {
  }

  /** The name at the head of the queue is new, and all it refers to is placed. */
  lemma HeadIsPlaceable(entities: seq<Entity>, deps: Graph, inDegree: map<string, int>, rest: seq<string>,
                        name: string, done: seq<string>)
    requires Balanced(entities, deps, inDegree, [name] + rest, done)
    ensures name !in Elements(done) && Elements(done + [name]) == Elements(done) + {name}
    ensures CountedUpTo(entities, 0, deps, inDegree, Elements(done + [name]), Elements(done))
    ensures done + ([name] + rest) == done + [name] + rest
    ensures TargetsFirst(deps, done + [name])
  {
    hide Missing, Targets;
    var placed := done + ([name] + rest);
    assert placed == done + [name] + rest;
    assert placed[|done|] == name;
    assert forall i :: 0 <= i < |done| ==> placed[i] == done[i];
    ElementsGrow(done, name);
    var e :| e in entities && e.name == name;
    var i :| 0 <= i < |entities| && entities[i] == e;
    assert ReadyWhenZero(inDegree, entities[i].name, placed) &&
        Counted(deps, inDegree, entities[i].name, Elements(done));
    MissingZero(Targets(deps, name), Elements(done));
    AppendsTargetsFirst(deps, done, name);
  }

  lemma AppendsTargetsFirst(deps: Graph, done: seq<string>, name: string)
    requires TargetsFirst(deps, done) && forall t <- Targets(deps, name) :: t in Elements(done)
    ensures TargetsFirst(deps, done + [name])
  {
    hide Targets;
    var all := done + [name];
    forall i | 0 <= i < |all| ensures forall t <- Targets(deps, all[i]) :: t in all[..i] {
      if i < |done| {
        assert all[..i] == done[..i] && all[i] == done[i];
      } else {
        assert all[..i] == done;
      }
    }
  }

  lemma {:induction false} DepsAreDeclared(references: seq<string>, own: string, declared: set<string>)
    ensures forall t <- Deps(references, own, declared) :: t in declared && t in references
    decreases |references|
  {
    if references != [] { DepsAreDeclared(references[..|references| - 1], own, declared); }
  }

  lemma RecordsGiveGraph(entities: seq<Entity>, inDegree: map<string, int>, deps: Graph)
    requires forall i :: 0 <= i < |entities| ==> Recorded(entities[i], Declared(entities), inDegree, deps)
    requires forall n :: n in deps ==> n in Declared(entities)
    ensures IsDependencyGraph(deps, entities)
    ensures CountedUpTo(entities, 0, deps, inDegree, {}, Elements([]))
  {
    hide Deps, Targets;
    assert Elements([]) == {};
    forall i | 0 <= i < |entities| ensures Counted(deps, inDegree, entities[i].name, Elements([])) {
      assert Recorded(entities[i], Declared(entities), inDegree, deps);
      MissingAll(Targets(deps, entities[i].name));
    }
    forall e | e in entities ensures Targets(deps, e.name) == Deps(e.references, e.name, Declared(entities)) {
      var i :| 0 <= i < |entities| && entities[i] == e;
      assert Recorded(entities[i], Declared(entities), inDegree, deps);
    }
  }

  ghost predicate ReadyUpTo(entities: seq<Entity>, k: nat, inDegree: map<string, int>, queue: seq<string>) {
    && PlacedOnce(entities, queue)
    && (forall i :: 0 <= i < |entities| && i < k ==> ReadyWhenZero(inDegree, entities[i].name, queue))
    && (forall i :: k <= i < |entities| ==> entities[i].name !in queue)
  }

  lemma QueuesOne(entities: seq<Entity>, k: nat, inDegree: map<string, int>, queue: seq<string>)
    requires DistinctNames(entities) && k < |entities| && ReadyUpTo(entities, k, inDegree, queue)
    requires entities[k].name in inDegree
    ensures ReadyUpTo(entities, k + 1, inDegree, if inDegree[entities[k].name] == 0 then queue + [entities[k].name]
        else queue)
  {
    assert entities[k] in entities;
    assert entities[k].name in Declared(entities);
  }

  method InitialQueue(entities: seq<Entity>, inDegree: map<string, int>) returns (queue: seq<string>)
    requires DistinctNames(entities)
    requires forall i :: 0 <= i < |entities| ==> entities[i].name in inDegree
    ensures PlacedOnce(entities, queue) && AllReady(entities, inDegree, queue)
  {
    hide ReadyWhenZero, PlacedOnce;
    queue := [];
    assert ReadyUpTo(entities, 0, inDegree, queue) by { NothingQueued(entities, inDegree); }
    for k := 0 to |entities|
      invariant ReadyUpTo(entities, k, inDegree, queue)
    {
      QueuesOne(entities, k, inDegree, queue);
      if inDegree[entities[k].name] == 0 {
        queue := queue + [entities[k].name];
      }
    }
  }

  lemma NothingQueued(entities: seq<Entity>, inDegree: map<string, int>)
    ensures ReadyUpTo(entities, 0, inDegree, [])
  {
  }

  /** The names the loop never placed: each still waits for another one of them. */
  function Unplaced(entities: seq<Entity>, done: seq<string>): set<string> {
    Declared(entities) - Elements(done)
  }

  lemma UnplacedWaits(entities: seq<Entity>, deps: Graph, inDegree: map<string, int>, done: seq<string>, n: string)
    requires Balanced(entities, deps, inDegree, [], done) && IsDependencyGraph(deps, entities)
    requires n in Unplaced(entities, done)
    ensures HasTargetIn(deps, Unplaced(entities, done), n)
  {
    hide Missing, Targets, Deps;
    assert done + [] == done;
    var e :| e in entities && e.name == n;
    var i :| 0 <= i < |entities| && entities[i] == e;
    assert ReadyWhenZero(inDegree, entities[i].name, done) && Counted(deps, inDegree, entities[i].name, Elements(done));
    MissingZero(Targets(deps, n), Elements(done));
    DepsAreDeclared(e.references, e.name, Declared(entities));
    var t :| t in Targets(deps, n) && t !in Elements(done);
    assert t in Unplaced(entities, done);
  }

  /** When the queue runs dry, an entity is unplaced exactly when its references lead into a cycle. */
  lemma UnplacedReachesCycle(entities: seq<Entity>, deps: Graph, inDegree: map<string, int>, done: seq<string>,
                             n: string)
    requires Balanced(entities, deps, inDegree, [], done) && IsDependencyGraph(deps, entities)
    requires n in Declared(entities)
    ensures n !in done <==> ReachesCycle(deps, n)
  {
    hide Missing, Targets, Deps, Lasso, AllReady, CountedUpTo, HasTargetIn;
    assert done + [] == done;
    if n !in done {
      forall m | m in Unplaced(entities, done) ensures HasTargetIn(deps, Unplaced(entities, done), m) {
        UnplacedWaits(entities, deps, inDegree, done, m);
      }
      assert Walk(deps, [n]) && Distinct([n]);
      var q := FollowUntilRepeat(deps, Unplaced(entities, done), [n]);
      assert Lasso(deps, q) && q[0] == n;
    } else {
      forall p | Lasso(deps, p) ensures p != [] && p[0] != n {
        LassoIsNotEmpty(deps, p);
        TargetsFirstIsAcyclic(deps, done, p);
      }
    }
  }

  lemma LassoIsNotEmpty(g: Graph, p: seq<string>)
    requires Lasso(g, p)
    ensures p != []
  {
  }

  lemma NamesAppend(es: seq<Entity>, e: Entity)
    ensures Names(es + [e]) == Names(es) + [e.name]
  {
  }

  lemma FewerThanDeclared(entities: seq<Entity>, placed: seq<string>)
    requires PlacedOnce(entities, placed)
    ensures |placed| <= |Declared(entities)|
  {
    DistinctFits(placed, Declared(entities));
  }

  ghost predicate Picked(entities: seq<Entity>, es: seq<Entity>) { forall i :: 0 <= i < |es| ==> es[i] in entities }

  /** The main loop: take the head of the queue, place its entity, release its referrers. */
  method Place(entities: seq<Entity>, byName: map<string, Entity>, inDegree: map<string, int>, deps: Graph,
               ready: seq<string>)
    returns (sorted: seq<Entity>, counts: map<string, int>)
    requires DistinctNames(entities) && byName.Keys == Declared(entities)
    requires forall i :: 0 <= i < |entities| ==> entities[i].name in byName && byName[entities[i].name] == entities[i]
    requires Balanced(entities, deps, inDegree, ready, [])
    ensures Balanced(entities, deps, counts, [], Names(sorted)) && Picked(entities, sorted)
  {
    hide CountedUpTo, AllReady, TargetsFirst, Names, Distinct;
    var queue := ready;
    sorted, counts := [], inDegree;
    assert Names(sorted) == [];
    while |queue| > 0
      invariant Balanced(entities, deps, counts, queue, Names(sorted)) && Picked(entities, sorted)
      decreases |Declared(entities)| - |sorted|
    {
      var name := queue[0];
      assert queue == [name] + queue[1..];
      FewerThanDeclared(entities, Names(sorted) + queue);
      assert (Names(sorted) + queue)[|sorted|] == name;
      var e :| e in entities && e.name == name;
      assert byName[name] == e;
      NamesAppend(sorted, byName[name]);
      counts, queue := ReleaseAll(entities, deps, counts, queue[1..], name, Names(sorted));
      sorted := sorted + [byName[name]];
    }
    assert queue == [];
  }

  /** The entities whose references lead into a cycle, in input order. */
  ghost function CycleBound(deps: Graph, es: seq<Entity>): seq<Entity> {
    if es == [] then []
    else
      var e := es[|es| - 1];
      CycleBound(deps, es[..|es| - 1]) + (if ReachesCycle(deps, e.name) then [e] else [])
  }

  lemma {:induction false} CycleBoundHolds(deps: Graph, es: seq<Entity>, e: Entity)
    ensures e in CycleBound(deps, es) <==> e in es && ReachesCycle(deps, e.name)
    decreases |es|
  {
    hide ReachesCycle;
    if es != [] { CycleBoundHolds(deps, es[..|es| - 1], e); }
  }

  lemma {:induction false} CycleBoundDistinct(deps: Graph, es: seq<Entity>)
    requires DistinctNames(es)
    ensures DistinctNames(CycleBound(deps, es))
    decreases |es|
  {
    hide ReachesCycle;
    if es != [] {
      var init, e := es[..|es| - 1], es[|es| - 1];
      CycleBoundDistinct(deps, init);
      var kept := CycleBound(deps, init);
      forall i | 0 <= i < |kept| ensures kept[i].name != e.name {
        CycleBoundHolds(deps, init, kept[i]);
        var j :| 0 <= j < |init| && init[j] == kept[i];
        assert es[j] == init[j];
      }
    }
  }

  /** The last loop: entities not placed follow in input order. */
  method AppendUnplaced(entities: seq<Entity>, placed: seq<Entity>, deps: Graph) returns (sorted: seq<Entity>)
    requires forall i :: 0 <= i < |entities| ==>
        (entities[i].name !in Names(placed) <==> ReachesCycle(deps, entities[i].name))
    ensures sorted == placed + CycleBound(deps, entities)
  {
    hide ReachesCycle, Names;
    var seen := {};
    for i := 0 to |placed|
      invariant seen == Elements(Names(placed[..i]))
    {
      assert placed[..i + 1] == placed[..i] + [placed[i]];
      NamesAppend(placed[..i], placed[i]);
      ElementsGrow(Names(placed[..i]), placed[i].name);
      seen := seen + {placed[i].name};
    }
    assert placed[..|placed|] == placed;
    sorted := placed;
    for i := 0 to |entities|
      invariant sorted == placed + CycleBound(deps, entities[..i])
    {
      assert entities[..i + 1][..i] == entities[..i];
      if entities[i].name !in seen {
        sorted := sorted + [entities[i]];
      }
    }
    assert entities[..|entities|] == entities;
  }

  lemma {:induction false} DistinctCounts(es: seq<Entity>, e: Entity)
    requires DistinctNames(es)
    ensures multiset(es)[e] == if e in es then 1 else 0
    decreases |es|
  {
    if es != [] {
      var init, last := es[..|es| - 1], es[|es| - 1];
      assert es == init + [last];
      DistinctCounts(init, e);
      if e in init {
        var i :| 0 <= i < |init| && init[i] == e;
        assert es[i].name != last.name;
      }
    }
  }

  lemma SameEntities(a: seq<Entity>, b: seq<Entity>)
    requires DistinctNames(a) && DistinctNames(b) && forall e :: e in a <==> e in b
    ensures multiset(a) == multiset(b)
  {
    forall e ensures multiset(a)[e] == multiset(b)[e] {
      DistinctCounts(a, e);
      DistinctCounts(b, e);
    }
  }

  /** The order: first the entities that reach no cycle, each after all it refers to; then the
      cycle-bound ones in input order. */
  ghost predicate Ordered(deps: Graph, entities: seq<Entity>, sorted: seq<Entity>, k: nat) {
    k <= |sorted| && TargetsFirst(deps, Names(sorted[..k])) && sorted[k..] == CycleBound(deps, entities)
  }

  lemma PlacedAndCycleBound(entities: seq<Entity>, deps: Graph, counts: map<string, int>, placed: seq<Entity>)
    requires DistinctNames(entities) && IsDependencyGraph(deps, entities)
    requires Balanced(entities, deps, counts, [], Names(placed)) && Picked(entities, placed)
    ensures forall i :: 0 <= i < |entities| ==>
        (entities[i].name !in Names(placed) <==> ReachesCycle(deps, entities[i].name))
    ensures DistinctNames(placed + CycleBound(deps, entities))
    ensures multiset(placed + CycleBound(deps, entities)) == multiset(entities)
  {
    hide ReachesCycle, IsDependencyGraph, CountedUpTo, AllReady, TargetsFirst;
    forall i | 0 <= i < |entities|
      ensures entities[i].name !in Names(placed) <==> ReachesCycle(deps, entities[i].name)
    {
      assert entities[i] in entities;
      assert entities[i].name in Declared(entities);
      UnplacedReachesCycle(entities, deps, counts, Names(placed), entities[i].name);
    }
    assert Names(placed) + [] == Names(placed);
    var bound := CycleBound(deps, entities);
    CycleBoundDistinct(deps, entities);
    forall i, j | 0 <= i < |placed| && 0 <= j < |bound| ensures placed[i].name != bound[j].name {
      CycleBoundHolds(deps, entities, bound[j]);
      assert Names(placed)[i] in Names(placed);
    }
    PlacedNamesDistinct(entities, placed);
    var all := placed + bound;
    forall e ensures e in all <==> e in entities {
      CycleBoundHolds(deps, entities, e);
      if e in entities && e.name in Names(placed) {
        SameNameSameEntity(entities, placed, e);
      }
    }
    SameEntities(all, entities);
  }

  lemma PlacedNamesDistinct(entities: seq<Entity>, placed: seq<Entity>)
    requires PlacedOnce(entities, Names(placed))
    ensures DistinctNames(placed)
  {
    forall i, j | 0 <= i < j < |placed| ensures placed[i].name != placed[j].name {
      assert Names(placed)[i] != Names(placed)[j];
    }
  }

  lemma SameNameSameEntity(entities: seq<Entity>, placed: seq<Entity>, e: Entity)
    requires DistinctNames(entities) && Picked(entities, placed) && e in entities && e.name in Names(placed)
    ensures e in placed
  {
    var i :| 0 <= i < |placed| && Names(placed)[i] == e.name;
    var a :| 0 <= a < |entities| && entities[a] == placed[i];
    var b :| 0 <= b < |entities| && entities[b] == e;
  }

  /** topoSortEntities: a permutation of its input for every reference graph, repeated edges and
      cycles included; references come first everywhere exactly when there is no cycle. */
  method TopoSortEntities(entities: seq<Entity>) returns (sorted: seq<Entity>, deps: Graph)
    requires DistinctNames(entities)
    ensures IsDependencyGraph(deps, entities)
    ensures multiset(sorted) == multiset(entities)
    ensures exists k :: Ordered(deps, entities, sorted, k)
    ensures Acyclic(deps) <==> TargetsFirst(deps, Names(sorted))
  {
    hide Recorded, CountedUpTo, AllReady, IsDependencyGraph, ReachesCycle, Acyclic, TargetsFirst, PlacedOnce;
    var byName := IndexByName(entities);
    var inDegree;
    inDegree, deps := CollectReferences(entities, byName);
    RecordsGiveGraph(entities, inDegree, deps);
    AllCountedNames(entities, deps, inDegree);
    var ready := InitialQueue(entities, inDegree);
    assert [] + ready == ready;
    EmptyTargetsFirst(deps);
    var placed, counts := Place(entities, byName, inDegree, deps, ready);
    PlacedAndCycleBound(entities, deps, counts, placed);
    sorted := AppendUnplaced(entities, placed, deps);
    assert sorted[..|placed|] == placed && sorted[|placed|..] == CycleBound(deps, entities);
    assert Ordered(deps, entities, sorted, |placed|);
    AcyclicIffTargetsFirst(deps, entities, sorted, |placed|);
  }

  lemma EmptyTargetsFirst(g: Graph)
    ensures TargetsFirst(g, [])
  {
  }

  lemma AllCountedNames(entities: seq<Entity>, deps: Graph, inDegree: map<string, int>)
    requires CountedUpTo(entities, 0, deps, inDegree, {}, Elements([]))
    ensures forall i :: 0 <= i < |entities| ==> entities[i].name in inDegree
  {
    forall i | 0 <= i < |entities| ensures entities[i].name in inDegree {
      assert Counted(deps, inDegree, entities[i].name, Elements([]));
    }
  }

  lemma AcyclicIffTargetsFirst(deps: Graph, entities: seq<Entity>, sorted: seq<Entity>, k: nat)
    requires Ordered(deps, entities, sorted, k) && IsDependencyGraph(deps, entities)
    requires DistinctNames(sorted) && multiset(sorted) == multiset(entities)
    ensures Acyclic(deps) <==> TargetsFirst(deps, Names(sorted))
  {
    hide IsDependencyGraph, Cycle, Lasso;
    if Acyclic(deps) {
      if sorted[k..] != [] {
        var e := sorted[k];
        assert e in sorted[k..];
        CycleBoundHolds(deps, entities, e);
        var p :| p != [] && p[0] == e.name && Lasso(deps, p);
        var c := LassoHoldsCycle(deps, p);
        assert false;
      }
      assert sorted[..k] == sorted;
    }
    if TargetsFirst(deps, Names(sorted)) {
      forall c ensures !Cycle(deps, c) {
        if Cycle(deps, c) {
          CycleIsLasso(deps, c);
          LassoIsNotEmpty(deps, c);
          assert Distinct(Names(sorted));
          TargetsFirstIsAcyclic(deps, Names(sorted), c);
          LassoStartsDeclared(deps, entities, sorted, c);
        }
      }
    }
  }

  lemma LassoStartsDeclared(deps: Graph, entities: seq<Entity>, sorted: seq<Entity>, p: seq<string>)
    requires IsDependencyGraph(deps, entities) && multiset(sorted) == multiset(entities) && Lasso(deps, p)
    ensures p != [] && p[0] in Names(sorted)
  {
    hide Deps;
    assert p[0 + 1] in Targets(deps, p[0]);
    assert p[0] in Declared(entities);
    var e :| e in entities && e.name == p[0];
    assert e in multiset(sorted);
    var i :| 0 <= i < |sorted| && sorted[i] == e;
    assert Names(sorted)[i] == p[0];
  }
}
