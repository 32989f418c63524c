/** Foreign-key references between entities as a directed graph. */
module FkGraph {

  /** The entities each entity refers to; an entity that is absent refers to nothing. */
  type Graph = map<string, seq<string>>

  function Targets(g: Graph, n: string): seq<string> { if n in g then g[n] else [] }

  predicate Walk(g: Graph, p: seq<string>) {
    p != [] && forall i :: 0 <= i < |p| - 1 ==> p[i + 1] in Targets(g, p[i])
  }

  /** A walk whose last node occurs earlier in it: a way into a cycle and once around it. */
  predicate Lasso(g: Graph, p: seq<string>) {
    Walk(g, p) && exists i :: 0 <= i < |p| - 1 && p[i] == p[|p| - 1]
  }

  /** A cycle: a walk of at least one step back to its start. */
  predicate Cycle(g: Graph, p: seq<string>) { Walk(g, p) && |p| >= 2 && p[0] == p[|p| - 1] }

  lemma LassoHoldsCycle(g: Graph, p: seq<string>) returns (c: seq<string>)
    requires Lasso(g, p)
    ensures Cycle(g, c) && forall n <- c :: n in p
  {
    var i :| 0 <= i < |p| - 1 && p[i] == p[|p| - 1];
    c := p[i..];
    forall x | 0 <= x < |c| - 1 ensures c[x + 1] in Targets(g, c[x]) {
      assert c[x] == p[i + x] && c[x + 1] == p[i + x + 1];
    }
  }

  lemma CycleIsLasso(g: Graph, c: seq<string>)
    requires Cycle(g, c)
    ensures Lasso(g, c)
  {
    assert 0 <= 0 < |c| - 1 && c[0] == c[|c| - 1];
  }

  ghost predicate ReachesCycle(g: Graph, n: string) { exists p :: p != [] && p[0] == n && Lasso(g, p) }

  ghost predicate Acyclic(g: Graph) { forall c :: !Cycle(g, c) }

  lemma ExtendWalk(g: Graph, p: seq<string>, n: string)
    requires p != [] && Walk(g, p) && n in Targets(g, p[|p| - 1])
    ensures Walk(g, p + [n])
  {
  }

  predicate HasTargetIn(g: Graph, s: set<string>, n: string) {
    exists t <- Targets(g, n) :: t in s
  }

  predicate Distinct(p: seq<string>) { forall i, j :: 0 <= i < j < |p| ==> p[i] != p[j] }

  lemma PickTarget(g: Graph, s: set<string>, n: string) returns (t: string)
    requires HasTargetIn(g, s, n)
    ensures t in Targets(g, n) && t in s
  {
    t :| t in Targets(g, n) && t in s;
  }

  lemma ClosesLasso(g: Graph, p: seq<string>, t: string)
    requires Walk(g, p + [t]) && t in p
    ensures Lasso(g, p + [t])
  {
    hide Walk;
    var i :| 0 <= i < |p| && p[i] == t;
    var q := p + [t];
    assert 0 <= i < |q| - 1 && q[i] == q[|q| - 1];
  }

  lemma StaysDistinct(p: seq<string>, t: string, s: set<string>)
    requires Distinct(p) && t !in p && t in s && (forall x <- p :: x in s)
    ensures Distinct(p + [t]) && (forall x <- p + [t] :: x in s) && |p| < |s|
  {
    DistinctFits(p + [t], s);
  }

  /** In a finite set where every node has a target in the set, every node reaches a cycle:
      a walk cannot stay in it forever without repeating a node. */
  lemma {:induction false} FollowUntilRepeat(g: Graph, s: set<string>, p: seq<string>) returns (q: seq<string>)
    requires forall n <- s :: HasTargetIn(g, s, n)
    requires Walk(g, p) && (forall x <- p :: x in s) && Distinct(p)
    ensures Lasso(g, q) && q != [] && p != [] && q[0] == p[0]
    decreases |s| - |p|
  {
    hide Walk, Lasso, HasTargetIn, Distinct, Targets;
    WalkIsNotEmpty(g, p);
    var last := p[|p| - 1];
    assert last in p;
    var t := PickTarget(g, s, last);
    ExtendWalk(g, p, t);
    if t in p {
      ClosesLasso(g, p, t);
      q := p + [t];
    } else {
      StaysDistinct(p, t, s);
      q := FollowUntilRepeat(g, s, p + [t]);
    }
  }

  lemma WalkIsNotEmpty(g: Graph, p: seq<string>)
    requires Walk(g, p)
    ensures p != []
  {
  }

  lemma {:induction false} DistinctFits(p: seq<string>, s: set<string>)
    requires (forall x <- p :: x in s) && Distinct(p)
    ensures |p| <= |s|
    decreases |p|
  {
    if p != [] {
      var n := |p| - 1;
      assert forall x <- p[..n] :: x in p && x != p[n];
      DistinctFits(p[..n], s - {p[n]});
      assert p[n] in p;
    }
  }

  /** A list in which each node's targets come before it. */
  ghost predicate TargetsFirst(g: Graph, order: seq<string>) {
    forall i :: 0 <= i < |order| ==> forall t <- Targets(g, order[i]) :: t in order[..i]
  }

  /** Along a walk that starts in such a list, places strictly decrease. */
  lemma {:induction false} WalkDescends(g: Graph, order: seq<string>, p: seq<string>, i: nat, k: nat)
    requires TargetsFirst(g, order) && Walk(g, p) && i < |order| && order[i] == p[0] && k < |p|
    requires Distinct(order)
    ensures exists j :: 0 <= j <= i && order[j] == p[k] && (k > 0 ==> j < i)
    decreases k
  {
    if k > 0 {
      WalkDescends(g, order, p, i, k - 1);
      var j :| 0 <= j <= i && order[j] == p[k - 1];
      assert p[k - 1 + 1] in Targets(g, p[k - 1]);
      assert p[k] in order[..j];
      var m :| 0 <= m < j && order[..j][m] == p[k];
      assert order[m] == p[k];
    }
  }

  /** So no node of the list reaches a cycle. */
  lemma TargetsFirstIsAcyclic(g: Graph, order: seq<string>, p: seq<string>)
    requires TargetsFirst(g, order) && Distinct(order)
    requires Lasso(g, p)
    ensures p[0] !in order
  {
    if p[0] in order {
      var i :| 0 <= i < |order| && order[i] == p[0];
      var k :| 0 <= k < |p| - 1 && p[k] == p[|p| - 1];
      WalkDescends(g, order, p, i, k);
      var j :| 0 <= j <= i && order[j] == p[k];
      var tail := p[k..];
      assert Walk(g, tail) by {
        forall x | 0 <= x < |tail| - 1 ensures tail[x + 1] in Targets(g, tail[x]) {
          assert tail[x] == p[k + x] && tail[x + 1] == p[k + x + 1];
        }
      }
      WalkDescends(g, order, tail, j, |tail| - 1);
    }
  }
}
