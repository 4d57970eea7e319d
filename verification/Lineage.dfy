/** backend/lexmind/artifacts/artifact_lineage.py: breadth-first lineage over the dependency graph. */
module ArtifactLineage {
  import opened Collections
  import opened Digraph
  import opened ArtifactDependency

  /** `x` is reached from `a` by at least one and at most `k` edges. */
  ghost predicate Within(g: Graph, a: Id, x: Id, k: nat) {
    exists j: nat :: 1 <= j <= k && Hops(g, a, x, j)
  }

  /** All that `a` reaches, each once, nearest first. */
  ghost predicate NearestFirst(g: Graph, a: Id, order: seq<Id>) {
    && NoDup(order)
    && (forall x :: x in order <==> ReachPlus(g, a, x))
    && (forall i, j, k: nat :: 0 <= i < j < |order| && Within(g, a, order[j], k) ==> Within(g, a, order[i], k))
  }

  /** The search has handled the first `i` entries of `[start] + result`; `lev` gives each
      entry its distance from the start. */
  ghost predicate Levels(g: Graph, start: Id, result: seq<Id>, lev: seq<nat>) {
    && NoDup(result)
    && |lev| == |result| + 1 && lev[0] == 0
    && (forall j, k :: 0 <= j < k < |lev| ==> lev[j] <= lev[k])
    && (forall j :: 0 <= j < |result| ==> AtDistance(g, start, result[j], lev[j + 1]))
  }

  /** The shortest walk of at least one edge from `start` to `x` has `d` edges. */
  ghost predicate AtDistance(g: Graph, start: Id, x: Id, d: nat) {
    d >= 1 && Hops(g, start, x, d) && forall k: nat :: k >= 1 && Hops(g, start, x, k) ==> d <= k
  }

  lemma LevelIsDistance(g: Graph, start: Id, result: seq<Id>, lev: seq<nat>, x: Id) returns (j: nat)
    requires Levels(g, start, result, lev) && x in result
    ensures j < |result| && result[j] == x && AtDistance(g, start, x, lev[j + 1])
  {
    hide AtDistance;
    j :| j < |result| && result[j] == x;
  }

  function Entry(start: Id, result: seq<Id>, j: nat): Id
    requires j <= |result|
  {
    if j == 0 then start else result[j - 1]
  }

  ghost predicate Handled(g: Graph, start: Id, result: seq<Id>, i: nat) {
    i <= |result| + 1 && forall j, x :: 0 <= j < i && x in Succ(g, Entry(start, result, j)) ==> x in result
  }

  /** Everything at most as far away as the entry being handled has been found. */
  lemma {:induction false} FoundUpTo(g: Graph, start: Id, result: seq<Id>, lev: seq<nat>, i: nat, x: Id, k: nat)
    requires Levels(g, start, result, lev) && Handled(g, start, result, i) && i <= |result|
    requires 1 <= k <= lev[i] && Hops(g, start, x, k)
    ensures x in result
    decreases k
  {
    var b := HopsLastEdge(g, start, x, k);
    if k == 1 {
      assert Entry(start, result, 0) == b;
    } else {
      FoundUpTo(g, start, result, lev, i, b, k - 1);
      var j := LevelIsDistance(g, start, result, lev, b);
      assert lev[j + 1] <= k - 1;
      assert Entry(start, result, j + 1) == b;
    }
  }

  /** A new child of the entry at distance `lev[i]` is at distance `lev[i] + 1`. */
  lemma AppendFound(g: Graph, start: Id, result: seq<Id>, lev: seq<nat>, i: nat, x: Id)
    requires Levels(g, start, result, lev) && Handled(g, start, result, i) && i <= |result|
    requires forall j :: 0 <= j < |lev| ==> lev[j] <= lev[i] + 1
    requires x in Succ(g, Entry(start, result, i)) && x !in result
    ensures Levels(g, start, result + [x], lev + [lev[i] + 1])
    ensures Handled(g, start, result + [x], i)
  {
    hide Hops, Succ;
    var node := Entry(start, result, i);
    EdgeIsHop(g, node, x);
    HopsConcat(g, start, node, x, lev[i], 1);
    forall k: nat | k >= 1 && Hops(g, start, x, k) ensures lev[i] + 1 <= k {
      if k <= lev[i] {
        FoundUpTo(g, start, result, lev, i, x, k);
      }
    }
    forall j | 0 <= j < i ensures Entry(start, result + [x], j) == Entry(start, result, j) {}
  }

  lemma SearchComplete(g: Graph, start: Id, result: seq<Id>, lev: seq<nat>)
    requires Levels(g, start, result, lev) && Handled(g, start, result, |result| + 1)
    ensures NearestFirst(g, start, result)
  {
    forall x | ReachPlus(g, start, x) ensures x in result {
      var k: nat :| k >= 1 && Hops(g, start, x, k);
      CompleteStep(g, start, result, x, k);
    }
    forall i, j, k: nat | 0 <= i < j < |result| && Within(g, start, result[j], k)
      ensures Within(g, start, result[i], k)
    {
      assert lev[i + 1] <= lev[j + 1] <= k;
    }
  }

  lemma {:induction false} CompleteStep(g: Graph, start: Id, result: seq<Id>, x: Id, k: nat)
    requires Handled(g, start, result, |result| + 1) && k >= 1 && Hops(g, start, x, k)
    ensures x in result
    decreases k
  {
    var b := HopsLastEdge(g, start, x, k);
    if k == 1 {
      assert Entry(start, result, 0) == b;
    } else {
      CompleteStep(g, start, result, b, k - 1);
      var j :| 0 <= j < |result| && result[j] == b;
      assert Entry(start, result, j + 1) == b;
    }
  }

  /** The loop shared by `ancestors` and `descendants`, which differ only in the edge map they follow. */
  method Search(g: Graph, start: Id) returns (result: seq<Id>)
    ensures NearestFirst(g, start, result)
  {
    hide Levels, Handled, NearestFirst;
    var visited: set<Id> := {};
    result := [];
    var queue := [start];
    ghost var lev: seq<nat> := [0];
    ghost var i := 0;
    SearchStart(g, start);
    while queue != []
      invariant i <= |result| + 1 == |lev| && queue == ([start] + result)[i..]
      invariant forall x :: x in visited <==> x in result
      invariant Levels(g, start, result, lev) && Handled(g, start, result, i)
      invariant i <= |result| ==> forall j :: 0 <= j < |lev| ==> lev[j] <= lev[i] + 1
      decreases |Nodes(g)| + 1 - i
    {
      var node := queue[0];
      assert node == Entry(start, result, i);
      queue := queue[1..];
      result, queue, visited, lev := Expand(g, start, result, queue, visited, lev, i, node);
      i := i + 1;
      FoundAreNodes(g, start, result, lev);
      if i <= |result| {
        LevelsSorted(g, start, result, lev, i);
      }
    }
    SearchComplete(g, start, result, lev);
  }

  lemma SearchStart(g: Graph, start: Id)
    ensures Levels(g, start, [], [0]) && Handled(g, start, [], 0)
  {
  }

  lemma LevelsSorted(g: Graph, start: Id, result: seq<Id>, lev: seq<nat>, i: nat)
    requires Levels(g, start, result, lev) && 1 <= i <= |result|
    ensures lev[i - 1] <= lev[i]
  {
  }

  lemma FoundAreNodes(g: Graph, start: Id, result: seq<Id>, lev: seq<nat>)
    requires Levels(g, start, result, lev)
    ensures |result| <= |Nodes(g)|
  {
    forall x | x in result ensures x in Nodes(g) {
      var j := LevelIsDistance(g, start, result, lev, x);
      var b := HopsLastEdge(g, start, x, lev[j + 1]);
    }
    NoDupLength(result, Nodes(g));
  }

  lemma HandledNext(g: Graph, start: Id, result: seq<Id>, i: nat)
    requires Handled(g, start, result, i) && i <= |result|
    requires forall x :: x in Succ(g, Entry(start, result, i)) ==> x in result
    ensures Handled(g, start, result, i + 1)
  {
  }

  /** Queues the neighbours of one entry that were not seen before. */
  method Expand(g: Graph, ghost start: Id, result0: seq<Id>, queue0: seq<Id>, visited0: set<Id>,
      ghost lev0: seq<nat>, ghost i: nat, node: Id)
    returns (result: seq<Id>, queue: seq<Id>, visited: set<Id>, ghost lev: seq<nat>)
    requires i <= |result0| && |lev0| == |result0| + 1 && node == Entry(start, result0, i)
    requires queue0 == ([start] + result0)[i + 1..]
    requires forall x :: x in visited0 <==> x in result0
    requires Levels(g, start, result0, lev0) && Handled(g, start, result0, i)
    requires forall j :: 0 <= j < |lev0| ==> lev0[j] <= lev0[i] + 1
    ensures |lev| == |result| + 1 && |result| >= |result0|
    ensures queue == ([start] + result)[i + 1..]
    ensures forall x :: x in visited <==> x in result
    ensures Levels(g, start, result, lev) && Handled(g, start, result, i + 1)
    ensures i < |lev| && forall j :: 0 <= j < |lev| ==> lev[j] <= lev[i] + 1
  {
    hide Levels, Handled;
    result, queue, visited, lev := result0, queue0, visited0, lev0;
    var todo := Succ(g, node);
    while todo != {}
      invariant todo <= Succ(g, node)
      invariant |result0| <= |result| && |lev| == |result| + 1
      invariant node == Entry(start, result, i) && queue == ([start] + result)[i + 1..]
      invariant forall x :: x in visited <==> x in result
      invariant Levels(g, start, result, lev) && Handled(g, start, result, i)
      invariant forall j :: 0 <= j < |lev| ==> lev[j] <= lev[i] + 1
      invariant forall x :: x in Succ(g, node) - todo ==> x in result
      decreases todo
    {
      var next :| next in todo;
      todo := todo - {next};
      if next !in visited {
        AppendFound(g, start, result, lev, i, next);
        visited := visited + {next};
        assert ([start] + (result + [next]))[i + 1..] == ([start] + result)[i + 1..] + [next];
        result := result + [next];
        queue := queue + [next];
        lev := lev + [lev[i] + 1];
      }
    }
    HandledNext(g, start, result, i);
  }

  lemma ReachPlusConverse(g: Graph, r: Graph, a: Id, x: Id)
    requires Converse(g, r)
    ensures ReachPlus(r, a, x) <==> ReachPlus(g, x, a)
  {
    forall j: nat ensures Hops(r, a, x, j) <==> Hops(g, x, a, j) {
      if Hops(r, a, x, j) { HopsConverse(r, g, a, x, j); }
      if Hops(g, x, a, j) { HopsConverse(g, r, x, a, j); }
    }
  }

  /** Every node has a parentless node above it (or is one itself). */
  lemma RootAbove(g: Graph, r: Graph, a: Id) returns (root: Id)
    requires Converse(g, r) && Acyclic(g)
    ensures Reach(g, root, a) && Succ(r, root) == {}
  {
    assert Hops(g, a, a, 0);
    var above := set y | y in Nodes(g) + {a} && Reach(g, y, a);
    assert a in above;
    forall p, y | y in above && p in Succ(r, y) ensures p in above && y in Succ(g, p) {
      assert y in Succ(g, p);
      EdgeIsHop(g, p, y);
      ReachTrans(g, p, y, a);
    }
    root := AcyclicHasSource(g, above);
    var parents := Succ(r, root);
    assert forall p :: p in parents ==> p in above && root in Succ(g, p);
    assert forall p :: p !in parents;
  }

  lemma ReachIsForward(g: Graph, nodes: set<Id>, order: seq<Id>, i: nat, j: nat)
    requires IsTopological(g, nodes, order) && EdgesWithin(g, nodes)
    requires i < |order| && j < |order| && Reach(g, order[i], order[j])
    ensures i <= j
  {
    var rank: Id -> int := (x: Id) => IndexOf(order, x) as int;
    forall x, y | y in Succ(g, x) ensures rank(x) < rank(y) {
      assert x in nodes && y in nodes;
      assert order[IndexOf(order, x)] == x && order[IndexOf(order, y)] == y;
    }
    var k: nat :| Hops(g, order[i], order[j], k);
    RankIncreases(g, rank, order[i], order[j], k);
    IndexOfAt(order, i);
    IndexOfAt(order, j);
  }

  ghost predicate IsRootOf(g: Graph, r: Graph, root: Id, id: Id) {
    Succ(r, root) == {} && ReachPlus(g, root, id)
  }

  ghost predicate AtMostOneRoot(g: Graph, r: Graph, id: Id) {
    forall x, y :: IsRootOf(g, r, x, id) && IsRootOf(g, r, y, id) ==> x == y
  }

  ghost predicate Forward(g: Graph, s: seq<Id>) {
    forall i, j :: 0 <= i < |s| && 0 <= j < |s| && s[j] in Succ(g, s[i]) ==> i < j
  }

  lemma SuffixKeepsOrder(g: Graph, nodes: set<Id>, order: seq<Id>, from: nat)
    requires IsTopological(g, nodes, order) && EdgesWithin(g, nodes) && from <= |order|
    ensures Forward(g, order[from..]) && NoDup(order[from..])
    ensures forall x :: x in order[from..] ==> x in order
  {
  }

  /** The part of a topological order from `root` on keeps the order and holds all that `root` reaches. */
  lemma SuffixCovers(g: Graph, r: Graph, order: seq<Id>, root: Id, from: nat)
    requires Converse(g, r) && IsTopological(g, g.Keys + r.Keys, order)
    requires from == if root in order then IndexOf(order, root) else 0
    ensures Forward(g, order[from..])
    ensures NoDup(order[from..])
    ensures forall x :: x in order[from..] ==> x in order
    ensures forall x :: x in order && Reach(g, root, x) ==> x in order[from..]
  {
    hide IsTopological, Reach, NoDup;
    var nodes := g.Keys + r.Keys;
    ConverseWithin(g, r);
    SuffixKeepsOrder(g, nodes, order, from);
    forall x | x in order && Reach(g, root, x) ensures x in order[from..] {
      var j := IndexOf(order, x);
      if root in order {
        ReachIsForward(g, nodes, order, from, j);
      }
      assert order[from..][j - from] == x;
    }
  }

  lemma ConverseWithin(g: Graph, r: Graph)
    requires Converse(g, r)
    ensures EdgesWithin(g, g.Keys + r.Keys)
  {
    forall a, b | b in Succ(g, a) ensures a in g.Keys + r.Keys && b in g.Keys + r.Keys {
      assert a in Succ(r, b);
    }
  }

  /** Every ancestor, and the artifact when it takes part in any edge, is below one of the roots. */
  lemma RootCovers(g: Graph, r: Graph, id: Id, x: Id, roots: seq<Id>)
    requires Converse(g, r) && Acyclic(g) && ReachPlus(g, x, id)
    requires forall y :: IsRootOf(g, r, y, id) ==> y in roots
    ensures exists root :: root in roots && Reach(g, root, x)
    ensures x in g.Keys
  {
    var root := RootAbove(g, r, x);
    var k: nat :| k >= 1 && Hops(g, x, id, k);
    var j: nat :| Hops(g, root, x, j);
    HopsConcat(g, root, x, id, j, k);
    assert IsRootOf(g, r, root, id);
  }

  lemma NoDupNothing()
    ensures NoDup<Id>([]) && forall g :: Forward(g, [])
  {
  }

  /** Appends the ids that are not in the chain yet. */
  method AppendNew(before: seq<Id>, ids: seq<Id>) returns (chain: seq<Id>)
    requires NoDup(before) && NoDup(ids)
    ensures NoDup(chain)
    ensures forall x :: x in chain <==> x in before || x in ids
    ensures before <= chain && (before == [] ==> chain == ids)
  {
    chain := before;
    for n := 0 to |ids|
      invariant NoDup(chain) && before <= chain
      invariant forall x :: x in chain <==> x in before || x in ids[..n]
      invariant before == [] ==> chain == ids[..n]
    {
      assert ids[..n + 1] == ids[..n] + [ids[n]];
      if ids[n] !in chain {
        chain := chain + [ids[n]];
      }
    }
    assert ids[..|ids|] == ids;
  }

  /** The roots are what is left of the ancestors without parents; the chain starts with the first. */
  lemma RootsFound(g: Graph, r: Graph, id: Id, roots: seq<Id>)
    requires Converse(g, r) && Acyclic(g) && NoDup(roots)
    requires forall x :: x in roots <==> ReachPlus(g, x, id) && Succ(r, x) == {}
    ensures forall x :: x in roots <==> IsRootOf(g, r, x, id)
    ensures roots == [] <==> forall x :: !ReachPlus(g, x, id)
    ensures AtMostOneRoot(g, r, id) ==> |roots| <= 1
    ensures roots != [] ==> roots[0] in g.Keys + r.Keys && id in g.Keys + r.Keys && IsRootOf(g, r, roots[0], id)
  {
    hide ReachPlus;
    if x :| ReachPlus(g, x, id) {
      RootCovers(g, r, id, x, roots);
    }
    if roots != [] {
      assert roots[0] in roots;
      ReachedIsNode(g, r, roots[0], id);
    }
    if |roots| > 1 {
      assert roots[0] in roots && roots[1] in roots;
      assert IsRootOf(g, r, roots[0], id) && IsRootOf(g, r, roots[1], id) && roots[0] != roots[1];
    }
  }

  lemma ReachedIsNode(g: Graph, r: Graph, x: Id, y: Id)
    requires Converse(g, r) && ReachPlus(g, x, y)
    ensures x in g.Keys + r.Keys && y in g.Keys + r.Keys
  {
    var k: nat :| k >= 1 && Hops(g, x, y, k);
    var b := HopsLastEdge(g, x, y, k);
    assert b in Succ(r, y);
  }

  /** The artifact and its ancestors lie below the roots, or there are none. */
  lemma Covered(g: Graph, r: Graph, id: Id, roots: seq<Id>, chain: seq<Id>)
    requires Converse(g, r) && Acyclic(g) && roots != []
    requires roots == [id] || forall x :: IsRootOf(g, r, x, id) <==> x in roots
    requires roots == [id] ==> forall x :: !ReachPlus(g, x, id)
    requires forall x, root :: root in roots && x in g.Keys + r.Keys && Reach(g, root, x) ==> x in chain
    ensures forall x :: ReachPlus(g, x, id) ==> x in chain
    ensures id in g.Keys + r.Keys ==> id in chain
  {
    assert roots[0] in roots;
    if roots == [id] {
      assert Hops(g, id, id, 0);
    } else {
      forall x | ReachPlus(g, x, id) ensures x in chain {
        RootCovers(g, r, id, x, roots);
      }
      assert IsRootOf(g, r, roots[0], id);
      assert Reach(g, roots[0], id);
    }
  }

  lemma PartHead(order: seq<Id>, root: Id, part: seq<Id>)
    requires StartsAt(order, root, part) && root in order
    ensures part != [] && part[0] == root
  {
  }

  lemma PartIsAll(order: seq<Id>, root: Id, part: seq<Id>)
    requires StartsAt(order, root, part) && root !in order
    ensures part == order
  {
  }

  /** An artifact that takes part in no edge has neither ancestors nor descendants. */
  lemma OnlyArtifact(g: Graph, r: Graph, id: Id)
    requires Converse(g, r)
    ensures id !in g.Keys + r.Keys ==> forall x :: id !in Succ(g, x) && x !in Succ(g, id)
  {
    if id !in g.Keys + r.Keys {
      forall x ensures id !in Succ(g, x) && x !in Succ(g, id) {
        assert x in Succ(g, id) <==> id in Succ(r, x);
        assert id in Succ(g, x) <==> x in Succ(r, id);
      }
    }
  }

  lemma AppendsArtifact(g: Graph, nodes: set<Id>, id: Id, chain: seq<Id>)
    requires NoDup(chain) && id !in chain && forall x :: id !in Succ(g, x) && x !in Succ(g, id)
    ensures NoDup(chain + [id]) && (Forward(g, chain) ==> Forward(g, chain + [id]))
  {
  }

  class LineageTracker {
    const graph: DependencyGraph

    constructor (graph: DependencyGraph)
      ensures this.graph == graph
    {
      this.graph := graph;
    }

    /** Exactly the ids with a path of one or more edges to `id`, nearest first, never `id` itself. */
    method Ancestors(id: Id) returns (result: seq<Id>)
      requires graph.Valid()
      ensures NearestFirst(graph.reverse, id, result)
      ensures forall x :: x in result <==> ReachPlus(graph.edges, x, id)
      ensures id !in result
    {
      result := Search(graph.reverse, id);
      forall x ensures x in result <==> ReachPlus(graph.edges, x, id) {
        ReachPlusConverse(graph.edges, graph.reverse, id, x);
      }
    }

    /** Exactly the ids that a path of one or more edges leads to, nearest first, never `id` itself. */
    method Descendants(id: Id) returns (result: seq<Id>)
      requires graph.Valid()
      ensures NearestFirst(graph.edges, id, result)
      ensures forall x :: x in result <==> ReachPlus(graph.edges, id, x)
      ensures id !in result
    {
      result := Search(graph.edges, id);
    }

    /** The ancestors without parents of their own. */
    method Rootless(ancestors: seq<Id>) returns (roots: seq<Id>)
      requires NoDup(ancestors)
      ensures NoDup(roots)
      ensures forall x :: x in roots <==> x in ancestors && graph.Parents(x) == {}
    {
      roots := [];
      for n := 0 to |ancestors|
        invariant NoDup(roots)
        invariant forall x :: x in roots <==> x in ancestors[..n] && graph.Parents(x) == {}
      {
        assert ancestors[..n + 1] == ancestors[..n] + [ancestors[n]];
        if graph.Parents(ancestors[n]) == {} {
          roots := roots + [ancestors[n]];
        }
      }
      assert ancestors[..|ancestors|] == ancestors;
    }

    /** No duplicates, the artifact itself and all its ancestors; with a single root above the
        artifact, the chain is in dependency order. */
    method FullChain(id: Id) returns (chain: seq<Id>, ghost order: seq<Id>)
      requires graph.Valid()
      ensures NoDup(chain)
      ensures id in chain
      ensures forall x :: ReachPlus(graph.edges, x, id) ==> x in chain
      ensures forall x :: x in chain ==> x == id || x in graph.AllArtifacts()
      ensures AtMostOneRoot(graph.edges, graph.reverse, id) ==> Forward(graph.edges, chain)
      ensures (exists x :: ReachPlus(graph.edges, x, id)) ==> IsRootOf(graph.edges, graph.reverse, chain[0], id)
      ensures (forall x :: !ReachPlus(graph.edges, x, id)) && id in graph.AllArtifacts() ==> chain[0] == id
      ensures id in graph.AllArtifacts() && AtMostOneRoot(graph.edges, graph.reverse, id) ==>
        IsTopological(graph.edges, graph.AllArtifacts(), order) && StartsAt(order, chain[0], chain)
      ensures id !in graph.AllArtifacts() ==> IsTopological(graph.edges, graph.AllArtifacts(), order) && chain == order + [id]
    {
      hide ReachPlus, IsRootOf, AtMostOneRoot, Reach, StartsAt, IsTopological, NoDup, Forward, NearestFirst, Converse, Acyclic;
      ghost var g, r, nodes := graph.edges, graph.reverse, graph.AllArtifacts();
      var ancestors := Ancestors(id);
      var roots := Rootless(ancestors);
      RootsFound(g, r, id, roots);
      if roots == [] {
        roots := [id];
      }
      ghost var part;
      chain, order, part := Collect(roots);
      TopologicalMembers(g, nodes, order);
      if roots[0] in order {
        PartHead(order, roots[0], part);
      }
      Covered(g, r, id, roots, chain);
      OnlyArtifact(g, r, id);
      if id !in chain {
        AppendsArtifact(g, nodes, id, chain);
        PartIsAll(order, roots[0], part);
        chain := chain + [id];
      }
    }

    /** For each root, the part of a topological order from that root on, without repeats. */
    method Collect(roots: seq<Id>) returns (chain: seq<Id>, ghost first: seq<Id>, ghost part: seq<Id>)
      requires graph.Valid() && roots != []
      ensures IsTopological(graph.edges, graph.AllArtifacts(), first) && StartsAt(first, roots[0], part)
      ensures part <= chain && (|roots| == 1 ==> chain == part)
      ensures NoDup(chain)
      ensures forall x :: x in chain ==> x in graph.AllArtifacts()
      ensures forall x, root :: root in roots && x in graph.AllArtifacts() && Reach(graph.edges, root, x) ==> x in chain
      ensures |roots| <= 1 ==> Forward(graph.edges, chain)
    {
      hide Reach, NoDup, Forward, Converse, IsTopological, StartsAt;
      ghost var nodes, edges := graph.AllArtifacts(), graph.edges;
      chain, first, part := [], [], [];
      NoDupNothing();
      for n := 0 to |roots|
        invariant NoDup(chain)
        invariant forall x :: x in chain ==> x in nodes
        invariant forall x, m :: 0 <= m < n && x in nodes && Reach(edges, roots[m], x) ==> x in chain
        invariant n == 0 ==> chain == []
        invariant n == 1 ==> Forward(edges, chain) && chain == part
        invariant n >= 1 ==> IsTopological(edges, nodes, first) && StartsAt(first, roots[0], part) && part <= chain
      {
        var order := graph.TopologicalOrder();
        TopologicalMembers(edges, nodes, order.ids);
        chain := AppendFrom(edges, graph.reverse, order.ids, roots[n], chain);
        if n == 0 {
          first, part := order.ids, chain;
        }
      }
    }
  }

  lemma TopologicalMembers(g: Graph, nodes: set<Id>, order: seq<Id>)
    requires IsTopological(g, nodes, order)
    ensures forall x :: x in order <==> x in nodes
  {
  }

  /** `part` is what the order lists from `root` on, or all of it when it does not list the root. */
  ghost predicate StartsAt(order: seq<Id>, root: Id, part: seq<Id>) {
    && (root !in order ==> part == order)
    && (root in order ==> exists from :: 0 <= from < |order| && order[from] == root && part == order[from..])
  }

  /** Appends the part of the order from `root` on, or all of it when it does not list the root. */
  method AppendFrom(ghost g: Graph, ghost r: Graph, order: seq<Id>, root: Id, before: seq<Id>) returns (chain: seq<Id>)
    requires Converse(g, r) && IsTopological(g, g.Keys + r.Keys, order) && NoDup(before)
    ensures NoDup(chain)
    ensures forall x :: x in before ==> x in chain
    ensures forall x :: x in chain ==> x in before || x in order
    ensures forall x :: x in order && Reach(g, root, x) ==> x in chain
    ensures before == [] ==> Forward(g, chain) && StartsAt(order, root, chain)
    ensures before <= chain
  {
    hide Reach, NoDup, Forward, Converse, IsTopological;
    var from := if root in order then IndexOf(order, root) else 0;
    SuffixCovers(g, r, order, root, from);
    chain := AppendNew(before, order[from..]);
  }
}
