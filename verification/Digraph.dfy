/** Finite directed graphs as adjacency maps, walks, reachability and acyclicity.
    Every graph algorithm of the repository is proved against these definitions. */
module Digraph {
  import opened Collections

  type Id = string
  type Graph = map<Id, set<Id>>

  function Succ(g: Graph, n: Id): set<Id> {
    if n in g then g[n] else {}
  }

  /** Every id that is a key or the target of an edge. */
  function Nodes(g: Graph): set<Id> {
    g.Keys + set a, b | a in g && b in g[a] :: b
  }

  /** There is a walk of exactly `k` edges from `a` to `b`. */
  ghost predicate Hops(g: Graph, a: Id, b: Id, k: nat)
    decreases k
  {
    if k == 0 then a == b else exists m :: m in Succ(g, a) && Hops(g, m, b, k - 1)
  }

  ghost predicate Reach(g: Graph, a: Id, b: Id) {
    exists k: nat :: Hops(g, a, b, k)
  }

  /** `b` is reached from `a` by one or more edges. */
  ghost predicate ReachPlus(g: Graph, a: Id, b: Id) {
    exists k: nat :: k >= 1 && Hops(g, a, b, k)
  }

  ghost predicate Acyclic(g: Graph) {
    forall x, k: nat :: k >= 1 ==> !Hops(g, x, x, k)
  }

  /** `r` holds exactly the edges of `g`, turned around. */
  ghost predicate Converse(g: Graph, r: Graph) {
    forall a, b :: b in Succ(g, a) <==> a in Succ(r, b)
  }

  ghost predicate Subgraph(g: Graph, h: Graph) {
    forall a, b :: b in Succ(g, a) ==> b in Succ(h, a)
  }

  function AddEdge(g: Graph, a: Id, b: Id): Graph {
    g[a := Succ(g, a) + {b}]
  }

  /** Walks */

  lemma {:induction false} HopsConcat(g: Graph, a: Id, b: Id, c: Id, j: nat, k: nat)
    requires Hops(g, a, b, j) && Hops(g, b, c, k)
    ensures Hops(g, a, c, j + k)
    decreases j
  {
    if j != 0 {
      var m :| m in Succ(g, a) && Hops(g, m, b, j - 1);
      HopsConcat(g, m, b, c, j - 1, k);
    }
  }

  lemma EdgeIsHop(g: Graph, a: Id, b: Id)
    requires b in Succ(g, a)
    ensures Hops(g, a, b, 1)
  {
    assert Hops(g, b, b, 0);
  }

  lemma ReachPlusSnoc(g: Graph, a: Id, b: Id, c: Id)
    requires Reach(g, a, b) && c in Succ(g, b)
    ensures ReachPlus(g, a, c)
  {
    var k: nat :| Hops(g, a, b, k);
    EdgeIsHop(g, b, c);
    HopsConcat(g, a, b, c, k, 1);
  }

  lemma ReachTrans(g: Graph, a: Id, b: Id, c: Id)
    requires Reach(g, a, b) && Reach(g, b, c)
    ensures Reach(g, a, c)
  {
    var j: nat :| Hops(g, a, b, j);
    var k: nat :| Hops(g, b, c, k);
    HopsConcat(g, a, b, c, j, k);
  }

  lemma ReachPlusTrans(g: Graph, a: Id, b: Id, c: Id)
    requires ReachPlus(g, a, b) && Reach(g, b, c)
    ensures ReachPlus(g, a, c)
  {
    var j: nat :| j >= 1 && Hops(g, a, b, j);
    var k: nat :| Hops(g, b, c, k);
    HopsConcat(g, a, b, c, j, k);
  }

  /** A walk of one or more edges has a last edge. */
  lemma {:induction false} HopsLastEdge(g: Graph, a: Id, c: Id, k: nat) returns (b: Id)
    requires k >= 1 && Hops(g, a, c, k)
    ensures Hops(g, a, b, k - 1) && c in Succ(g, b)
    decreases k
  {
    var m :| m in Succ(g, a) && Hops(g, m, c, k - 1);
    if k == 1 {
      b := a;
    } else {
      b := HopsLastEdge(g, m, c, k - 1);
      assert m in Succ(g, a) && Hops(g, m, b, k - 2);
    }
  }

  /** A set that holds `a` and all successors of its members holds all that `a` reaches. */
  lemma {:induction false} ClosedSetHolds(g: Graph, s: set<Id>, a: Id, b: Id, k: nat)
    requires a in s && Hops(g, a, b, k)
    requires forall x :: x in s ==> Succ(g, x) <= s
    ensures b in s
    decreases k
  {
    if k != 0 {
      var m :| m in Succ(g, a) && Hops(g, m, b, k - 1);
      ClosedSetHolds(g, s, m, b, k - 1);
    }
  }

  lemma {:induction false} HopsMonotone(g: Graph, h: Graph, a: Id, b: Id, k: nat)
    requires Subgraph(g, h) && Hops(g, a, b, k)
    ensures Hops(h, a, b, k)
    decreases k
  {
    if k != 0 {
      var m :| m in Succ(g, a) && Hops(g, m, b, k - 1);
      HopsMonotone(g, h, m, b, k - 1);
    }
  }

  /** Walking the converse graph is walking backwards. */
  lemma {:induction false} HopsConverse(g: Graph, r: Graph, a: Id, b: Id, k: nat)
    requires Converse(g, r) && Hops(g, a, b, k)
    ensures Hops(r, b, a, k)
    decreases k
  {
    if k != 0 {
      var m :| m in Succ(g, a) && Hops(g, m, b, k - 1);
      HopsConverse(g, r, m, b, k - 1);
      EdgeIsHop(r, m, a);
      HopsConcat(r, b, m, a, k - 1, 1);
    }
  }

  /** Acyclicity */

  lemma SubgraphAcyclic(g: Graph, h: Graph)
    requires Subgraph(g, h) && Acyclic(h)
    ensures Acyclic(g)
  {
    forall x, k: nat | k >= 1 && Hops(g, x, x, k) ensures false {
      HopsMonotone(g, h, x, x, k);
    }
  }

  /** A walk in the grown graph either avoids the new edge or runs through it. */
  lemma {:induction false} WalkThroughNewEdge(g: Graph, p: Id, c: Id, a: Id, b: Id, k: nat)
    requires Hops(AddEdge(g, p, c), a, b, k)
    ensures Hops(g, a, b, k) || (Reach(g, a, p) && Reach(AddEdge(g, p, c), c, b))
    decreases k
  {
    var h := AddEdge(g, p, c);
    if k != 0 {
      var m :| m in Succ(h, a) && Hops(h, m, b, k - 1);
      WalkThroughNewEdge(g, p, c, m, b, k - 1);
      if m in Succ(g, a) {
        if !Hops(g, m, b, k - 1) {
          EdgeIsHop(g, a, m);
          ReachTrans(g, a, m, p);
        }
      } else {
        assert Hops(g, a, p, 0);
      }
    }
  }

  /** The test that guards `add` is exact: the grown graph is acyclic if and only if
      the child does not already reach the parent. */
  lemma AddEdgeAcyclicIff(g: Graph, p: Id, c: Id)
    requires Acyclic(g)
    ensures Acyclic(AddEdge(g, p, c)) <==> !Reach(g, c, p)
  {
    var h := AddEdge(g, p, c);
    assert Subgraph(g, h);
    if Reach(g, c, p) {
      var k: nat :| Hops(g, c, p, k);
      HopsMonotone(g, h, c, p, k);
      EdgeIsHop(h, p, c);
      HopsConcat(h, p, c, p, 1, k);
    } else {
      forall x, k: nat | k >= 1 && Hops(h, x, x, k) ensures false {
        WalkThroughNewEdge(g, p, c, x, x, k);
        var j: nat :| Hops(g, x, p, j);
        HopsMonotone(g, h, x, p, j);
        ReachTrans(h, c, x, p);
        var i: nat :| Hops(h, c, p, i);
        WalkThroughNewEdge(g, p, c, c, p, i);
      }
    }
  }

  lemma {:induction false} RankIncreases(g: Graph, rank: Id -> int, a: Id, b: Id, k: nat)
    requires forall x, y :: y in Succ(g, x) ==> rank(x) < rank(y)
    requires Hops(g, a, b, k)
    ensures rank(a) + k <= rank(b)
    decreases k
  {
    if k != 0 {
      var m :| m in Succ(g, a) && Hops(g, m, b, k - 1);
      RankIncreases(g, rank, m, b, k - 1);
    }
  }

  lemma RankAcyclic(g: Graph, rank: Id -> int)
    requires forall x, y :: y in Succ(g, x) ==> rank(x) < rank(y)
    ensures Acyclic(g)
  {
    forall x, k: nat | k >= 1 && Hops(g, x, x, k) ensures false {
      RankIncreases(g, rank, x, x, k);
    }
  }

  /** The order lists each node once and every edge points forward. */
  ghost predicate IsTopological(g: Graph, nodes: set<Id>, order: seq<Id>) {
    && NoDup(order)
    && (forall x :: x in order <==> x in nodes)
    && (forall i, j :: 0 <= i < |order| && 0 <= j < |order| && order[j] in Succ(g, order[i]) ==> i < j)
  }

  /** The order lists each node once and every edge points backward. */
  ghost predicate DependenciesFirst(g: Graph, nodes: set<Id>, order: seq<Id>) {
    && NoDup(order)
    && (forall x :: x in order <==> x in nodes)
    && (forall i, j :: 0 <= i < |order| && 0 <= j < |order| && order[j] in Succ(g, order[i]) ==> j < i)
  }

  ghost predicate EdgesWithin(g: Graph, nodes: set<Id>) {
    forall a, b :: b in Succ(g, a) ==> a in nodes && b in nodes
  }

  lemma TopologicalImpliesAcyclic(g: Graph, nodes: set<Id>, order: seq<Id>)
    requires IsTopological(g, nodes, order) && EdgesWithin(g, nodes)
    ensures Acyclic(g)
  {
    var rank: Id -> int := (x: Id) => IndexOf(order, x) as int;
    forall x, y | y in Succ(g, x) ensures rank(x) < rank(y) {
      assert x in nodes && y in nodes;
      assert order[IndexOf(order, x)] == x && order[IndexOf(order, y)] == y;
    }
    RankAcyclic(g, rank);
  }

  lemma DependenciesFirstImpliesAcyclic(g: Graph, nodes: set<Id>, order: seq<Id>)
    requires DependenciesFirst(g, nodes, order) && EdgesWithin(g, nodes)
    ensures Acyclic(g)
  {
    var rank: Id -> int := (x: Id) => 0 - IndexOf(order, x);
    forall x, y | y in Succ(g, x) ensures rank(x) < rank(y) {
      assert x in nodes && y in nodes;
      assert order[IndexOf(order, x)] == x && order[IndexOf(order, y)] == y;
    }
    RankAcyclic(g, rank);
  }

  lemma StepAbove(g: Graph, p: Id, y: Id, x: Id)
    requires y in Succ(g, p) && (y == x || ReachPlus(g, y, x))
    ensures ReachPlus(g, p, x)
  {
    EdgeIsHop(g, p, y);
    if y != x {
      ReachPlusTrans(g, p, y, x);
    }
  }

  /** In an acyclic graph every non-empty set of nodes has a member that no member points to. */
  lemma {:induction false} AcyclicHasSource(g: Graph, s: set<Id>) returns (m: Id)
    requires Acyclic(g) && s != {}
    ensures m in s
    ensures forall p :: p in s ==> m !in Succ(g, p)
    decreases |s|
  {
    var x :| x in s;
    var above := set y | y in s && ReachPlus(g, y, x);
    if above == {} {
      m := x;
    } else {
      SubsetSmaller(above, s, x);
      m := AcyclicHasSource(g, above);
    }
    forall p | p in s && m in Succ(g, p) ensures p in above {
      StepAbove(g, p, m, x);
    }
  }
}
