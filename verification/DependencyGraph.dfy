/** backend/lexmind/artifacts/artifact_dependency.py: the artifact dependency graph,
    kept as a forward and a reverse edge map that are changed in place. */
module ArtifactDependency {
  import opened Collections
  import opened Digraph

  datatype AddOutcome = Added | SelfDependency | CycleRefused
  datatype OrderOutcome = Ordered(ids: seq<Id>) | CycleDetected

  /** The two edge maps as a value. */
  datatype Edges = Edges(forward: Graph, reverse: Graph)

  ghost predicate Consistent(e: Edges) {
    Converse(e.forward, e.reverse) && Acyclic(e.forward)
  }

  /** The map without node `id` and without the edges into it; emptied sets stay behind. */
  function Without(g: Graph, id: Id): Graph {
    map k | k in g && k != id :: g[k] - {id}
  }

  datatype Op = Add(parent: Id, child: Id) | Remove(id: Id)

  /** The test of `add`: the child does not reach the parent, in no step (a self-dependency) or in several. */
  ghost predicate Accepts(e: Edges, parent: Id, child: Id) {
    !Reach(e.forward, child, parent)
  }

  ghost function Apply(e: Edges, op: Op): Edges {
    match op
    case Add(p, c) =>
      if Accepts(e, p, c) then Edges(AddEdge(e.forward, p, c), AddEdge(e.reverse, c, p)) else e
    case Remove(id) => Edges(Without(e.forward, id), Without(e.reverse, id))
  }

  ghost function Run(ops: seq<Op>): Edges
    decreases |ops|
  {
    if ops == [] then Edges(map[], map[]) else Apply(Run(ops[..|ops| - 1]), ops[|ops| - 1])
  }

  lemma ApplyConsistent(e: Edges, op: Op)
    requires Consistent(e)
    ensures Consistent(Apply(e, op))
  {
    match op
    case Add(p, c) =>
      AddEdgeAcyclicIff(e.forward, p, c);
      forall a, b ensures b in Succ(AddEdge(e.forward, p, c), a) <==> a in Succ(AddEdge(e.reverse, c, p), b) {
        assert b in Succ(e.forward, a) <==> a in Succ(e.reverse, b);
      }
    case Remove(id) =>
      var e' := Apply(e, op);
      forall a, b ensures b in Succ(e'.forward, a) <==> a in Succ(e'.reverse, b) {
        assert b in Succ(e.forward, a) <==> a in Succ(e.reverse, b);
      }
      assert Subgraph(e'.forward, e.forward);
      SubgraphAcyclic(e'.forward, e.forward);
  }

  /** Every state that calls of `add` and `remove` can produce is acyclic and mirrored. */
  lemma {:induction false} RunConsistent(ops: seq<Op>)
    ensures Consistent(Run(ops))
    decreases |ops|
  {
    if ops == [] {
    } else {
      RunConsistent(ops[..|ops| - 1]);
      ApplyConsistent(Run(ops[..|ops| - 1]), ops[|ops| - 1]);
    }
  }

  /** Call `i` added the edge, and nothing after it removed one of its ends. */
  ghost predicate AddedAndKept(ops: seq<Op>, a: Id, b: Id, i: nat) {
    && i < |ops|
    && ops[i] == Add(a, b)
    && Accepts(Run(ops[..i]), a, b)
    && forall j :: i < j < |ops| ==> ops[j] != Remove(a) && ops[j] != Remove(b)
  }

  lemma KeptByPrefix(ops: seq<Op>, a: Id, b: Id, i: nat)
    requires i + 1 < |ops|
    ensures AddedAndKept(ops, a, b, i) <==>
      AddedAndKept(ops[..|ops| - 1], a, b, i) && ops[|ops| - 1] != Remove(a) && ops[|ops| - 1] != Remove(b)
  {
    assert ops[..|ops| - 1][..i] == ops[..i];
  }

  /** The edges of a run are those of its accepted `add` calls that no later `remove` undid. */
  lemma {:induction false} EdgesOfRun(ops: seq<Op>, a: Id, b: Id)
    ensures b in Succ(Run(ops).forward, a) <==> exists i :: AddedAndKept(ops, a, b, i)
    decreases |ops|
  {
    hide Apply, Accepts;
    if ops != [] {
      var n := |ops| - 1;
      EdgesOfRun(ops[..n], a, b);
      forall i: nat | i < n { KeptByPrefix(ops, a, b, i); }
      assert AddedAndKept(ops, a, b, n) <==> ops[n] == Add(a, b) && Accepts(Run(ops[..n]), a, b);
      if i: nat :| AddedAndKept(ops[..n], a, b, i) {
        assert ops[n] != Remove(a) && ops[n] != Remove(b) <==> AddedAndKept(ops, a, b, i);
      }
      LastCall(Run(ops[..n]), ops[n], a, b);
    }
  }

  /** One call keeps an edge unless it removes an end, and brings in only the edge it adds. */
  lemma LastCall(e: Edges, op: Op, a: Id, b: Id)
    ensures b in Succ(Apply(e, op).forward, a) <==>
      (b in Succ(e.forward, a) && op != Remove(a) && op != Remove(b)) || (op == Add(a, b) && Accepts(e, a, b))
  {
  }

  /** The sets under `keys` lose `id`. */
  function Discarded(g: Graph, keys: set<Id>, id: Id): Graph {
    map k | k in g :: if k in keys then g[k] - {id} else g[k]
  }

  /** Popping one side of each map and discarding along the popped set removes every edge at `id`. */
  lemma DiscardBothSides(f: Graph, r: Graph, id: Id)
    requires Converse(f, r)
    ensures Discarded(r, Succ(f, id), id) - {id} == Without(r, id)
    ensures Discarded(f - {id}, Succ(Discarded(r, Succ(f, id), id), id), id) == Without(f, id)
  {
    forall k | k in r && k != id ensures Discarded(r, Succ(f, id), id)[k] == r[k] - {id} {
      assert k in Succ(f, id) <==> id in Succ(r, k);
    }
    var r' := Discarded(r, Succ(f, id), id);
    forall k | k in f && k != id ensures k !in Succ(r', id) ==> f[k] - {id} == f[k] {
      assert id in Succ(f, k) <==> k in Succ(r, id);
    }
  }

  /** Kahn's algorithm on mirrored maps */

  /** Adds one to the count of every id in `kids`; an id without a count starts at zero. */
  method CountEach(counts: map<Id, int>, kids: set<Id>) returns (deg: map<Id, int>)
    ensures deg.Keys == counts.Keys + kids
    ensures forall n :: n in deg ==>
      deg[n] == (if n in counts then counts[n] else 0) + if n in kids then 1 else 0
  {
    deg := counts;
    var todo := kids;
    while todo != {}
      invariant todo <= kids && deg.Keys == counts.Keys + (kids - todo)
      invariant forall n :: n in deg ==>
        deg[n] == (if n in counts then counts[n] else 0) + if n in kids - todo then 1 else 0
      decreases todo
    {
      var kid :| kid in todo;
      deg := deg[kid := (if kid in deg then deg[kid] else 0) + 1];
      todo := todo - {kid};
    }
  }

  /** The number of parents of `n` outside `seen`. */
  function Unseen(r: Graph, n: Id, seen: set<Id>): nat {
    |Succ(r, n) - seen|
  }

  lemma UnseenStep(r: Graph, n: Id, seen: set<Id>, p: Id)
    requires p !in seen
    ensures Unseen(r, n, seen) == Unseen(r, n, seen + {p}) + if p in Succ(r, n) then 1 else 0
  {
    if p in Succ(r, n) {
      assert Succ(r, n) - seen == (Succ(r, n) - (seen + {p})) + {p};
    } else {
      assert Succ(r, n) - seen == Succ(r, n) - (seen + {p});
    }
  }

  lemma UnseenZero(r: Graph, n: Id, seen: set<Id>)
    ensures Unseen(r, n, seen) == 0 <==> Succ(r, n) <= seen
  {
    var s := Succ(r, n) - seen;
    assert |s| == 0 <==> s == {};
    if s == {} {
      forall x | x in Succ(r, n) ensures x in seen { assert x !in s; }
    }
  }

  /** The in-degree table, counted over the forward edges. */
  method InDegrees(f: Graph, r: Graph) returns (deg: map<Id, int>)
    requires Converse(f, r)
    ensures deg.Keys == f.Keys + r.Keys
    ensures forall n :: n in deg ==> deg[n] == Unseen(r, n, {})
  {
    hide Unseen;
    deg := map n | n in f.Keys + r.Keys :: 0;
    var keys := f.Keys;
    forall a, b | b in Succ(f, a) ensures b in r { assert a in Succ(r, b); }
    forall n | n in deg ensures Unseen(r, n, keys) == 0 {
      forall p | p in Succ(r, n) ensures p in keys { assert n in Succ(f, p); }
      UnseenZero(r, n, keys);
    }
    while keys != {}
      invariant keys <= f.Keys
      invariant deg.Keys == f.Keys + r.Keys
      invariant forall n :: n in deg ==> deg[n] == Unseen(r, n, keys)
      decreases keys
    {
      var key :| key in keys;
      ghost var rest := keys - {key};
      assert rest + {key} == keys;
      forall n | n in deg
        ensures Unseen(r, n, rest) == deg[n] + if n in f[key] then 1 else 0
      {
        UnseenStep(r, n, rest, key);
        assert n in Succ(f, key) <==> key in Succ(r, n);
      }
      assert forall n :: n in f[key] ==> n in Succ(f, key);
      deg := CountEach(deg, f[key]);
      keys := keys - {key};
    }
  }

  /** The state between two rounds of the main loop. */
  ghost predicate KahnInv(r: Graph, nodes: set<Id>, deg: map<Id, int>, result: seq<Id>, queue: seq<Id>, done: set<Id>) {
    && deg.Keys == nodes && done <= nodes
    && Placed(r, result, done)
    && RelaxInv(r, nodes, deg, queue, done, {})
  }

  /** The state while the children of a finished node are being counted down. */
  ghost predicate RelaxInv(r: Graph, nodes: set<Id>, deg: map<Id, int>, queue: seq<Id>, done: set<Id>, todo: set<Id>) {
    && deg.Keys == nodes
    && (forall x :: x in queue ==> x in nodes && x !in done)
    && NoDup(queue)
    && (forall n :: n in nodes ==> deg[n] == Unseen(r, n, done) + if n in todo then 1 else 0)
    && (forall n :: n in nodes ==> (n in done || n in queue <==> Succ(r, n) <= done && n !in todo))
  }

  lemma StartRelax(f: Graph, r: Graph, nodes: set<Id>, deg: map<Id, int>, result: seq<Id>, queue: seq<Id>,
      done: set<Id>)
    requires Converse(f, r) && queue != [] && KahnInv(r, nodes, deg, result, queue, done)
    ensures RelaxInv(r, nodes, deg, queue[1..], done + {queue[0]}, Succ(f, queue[0]))
    ensures queue[0] in nodes && queue[0] !in done && Succ(r, queue[0]) <= done
  {
    hide Unseen;
    var node := queue[0];
    assert queue == [node] + queue[1..];
    forall n | n in nodes
      ensures deg[n] == Unseen(r, n, done + {node}) + if n in Succ(f, node) then 1 else 0
      ensures n in done + {node} || n in queue[1..] <==> Succ(r, n) <= done + {node} && n !in Succ(f, node)
    {
      assert n in Succ(f, node) <==> node in Succ(r, n);
      UnseenStep(r, n, done, node);
    }
  }

  method Relax(r: Graph, ghost nodes: set<Id>, deg0: map<Id, int>, queue0: seq<Id>, ghost done: set<Id>, kids: set<Id>)
    returns (deg: map<Id, int>, queue: seq<Id>)
    requires kids <= nodes && RelaxInv(r, nodes, deg0, queue0, done, kids)
    requires done <= nodes
    ensures RelaxInv(r, nodes, deg, queue, done, {})
  {
    hide Unseen;
    deg, queue := deg0, queue0;
    var todo := kids;
    while todo != {}
      invariant todo <= kids && RelaxInv(r, nodes, deg, queue, done, todo)
      decreases todo
    {
      var child :| child in todo;
      deg := deg[child := deg[child] - 1];
      todo := todo - {child};
      UnseenZero(r, child, done);
      if deg[child] == 0 {
        queue := queue + [child];
      }
    }
  }

  /** Every node placed in front of it has its parents in front of it, and a stuck rest has a cycle. */
  lemma KahnFinished(f: Graph, r: Graph, nodes: set<Id>, deg: map<Id, int>, result: seq<Id>, done: set<Id>)
    requires Converse(f, r) && nodes == f.Keys + r.Keys
    requires KahnInv(r, nodes, deg, result, [], done)
    ensures |result| == |nodes| ==> IsTopological(f, nodes, result)
    ensures |result| == |nodes| <==> Acyclic(f)
  {
    NoDupLength(result, nodes);
    forall a, b | b in Succ(f, a) ensures a in nodes && b in nodes {
      assert a in Succ(r, b);
    }
    if |result| == |nodes| {
      forall i, j | 0 <= i < |result| && 0 <= j < |result| && result[j] in Succ(f, result[i])
        ensures i < j
      {
        assert result[i] in Succ(r, result[j]);
      }
      TopologicalImpliesAcyclic(f, nodes, result);
    } else if Acyclic(f) {
      if nodes - done == {} {
        NoDupCard(result, nodes);
      }
      var m := UnblockedNode(f, r, nodes, done);
    }
  }

  lemma UnblockedNode(f: Graph, r: Graph, nodes: set<Id>, done: set<Id>) returns (m: Id)
    requires Converse(f, r) && nodes == f.Keys + r.Keys
    requires Acyclic(f) && nodes - done != {}
    ensures m in nodes - done && Succ(r, m) <= done
  {
    m := AcyclicHasSource(f, nodes - done);
    forall p | p in Succ(r, m) ensures p in done {
      assert m in Succ(f, p);
    }
  }

  method StartKahn(f: Graph, r: Graph) returns (deg: map<Id, int>, queue: seq<Id>)
    requires Converse(f, r)
    ensures KahnInv(r, f.Keys + r.Keys, deg, [], queue, {})
  {
    hide Unseen;
    deg := InDegrees(f, r);
    queue := Enumerate(set n | n in deg && deg[n] == 0);
    forall n | n in deg ensures n in queue <==> Succ(r, n) <= {} {
      UnseenZero(r, n, {});
      assert n in queue <==> deg[n] == 0;
    }
  }

  method Kahn(f: Graph, r: Graph) returns (o: OrderOutcome)
    requires Converse(f, r)
    ensures o.Ordered? <==> Acyclic(f)
    ensures o.Ordered? ==> IsTopological(f, f.Keys + r.Keys, o.ids)
  {
    hide Unseen, RelaxInv, Placed;
    ghost var nodes := f.Keys + r.Keys;
    var deg, queue := StartKahn(f, r);
    var result: seq<Id> := [];
    ghost var done: set<Id> := {};
    while queue != []
      invariant KahnInv(r, nodes, deg, result, queue, done)
      decreases nodes - done
    {
      StartRelax(f, r, nodes, deg, result, queue, done);
      var node := queue[0];
      queue := queue[1..];
      forall n | n in Succ(f, node) ensures n in nodes {
        assert node in Succ(r, n);
      }
      deg, queue := Relax(r, nodes, deg, queue, done + {node}, Succ(f, node));
      FinishRelax(r, nodes, deg, result, queue, done, node);
      result := result + [node];
      done := done + {node};
    }
    KahnFinished(f, r, nodes, deg, result, done);
    assert |deg| == |deg.Keys|;
    if |result| != |deg| {
      return CycleDetected;
    }
    o := Ordered(result);
  }

  ghost predicate Placed(r: Graph, result: seq<Id>, done: set<Id>) {
    && (forall x :: x in done <==> x in result)
    && NoDup(result)
    && (forall j, p :: 0 <= j < |result| && p in Succ(r, result[j]) ==> p in result[..j])
  }

  lemma FinishRelax(r: Graph, nodes: set<Id>, deg: map<Id, int>, result: seq<Id>, queue: seq<Id>, done: set<Id>,
      node: Id)
    requires Placed(r, result, done) && done <= nodes
    requires node in nodes && node !in done && Succ(r, node) <= done
    requires RelaxInv(r, nodes, deg, queue, done + {node}, {})
    ensures KahnInv(r, nodes, deg, result + [node], queue, done + {node})
  {
    hide Unseen;
    var result' := result + [node];
    forall j, p | 0 <= j < |result'| && p in Succ(r, result'[j]) ensures p in result'[..j] {
      if j < |result| {
        assert result'[..j] == result[..j];
      } else {
        assert result'[..j] == result;
      }
    }
  }

  class DependencyGraph {
    var edges: Graph
    var reverse: Graph

    ghost function View(): Edges
      reads this
    {
      Edges(edges, reverse)
    }

    ghost predicate Valid()
      reads this
    {
      Consistent(View())
    }

    constructor ()
      ensures Valid() && View() == Run([])
    {
      edges, reverse := map[], map[];
      new;
    }

    function Children(id: Id): set<Id>
      reads this
    {
      Succ(edges, id)
    }

    function Parents(id: Id): set<Id>
      reads this
    {
      Succ(reverse, id)
    }

    function AllArtifacts(): set<Id>
      reads this
    {
      edges.Keys + reverse.Keys
    }

    method Add(parent: Id, child: Id) returns (r: AddOutcome)
      requires Valid()
      modifies this
      ensures Valid()
      ensures View() == Apply(old(View()), Op.Add(parent, child))
      ensures r.Added? <==> !old(Reach(edges, child, parent))
      ensures !r.Added? ==> View() == old(View())
      ensures r.SelfDependency? <==> parent == child
      ensures r.Added? ==> forall a, b :: b in Children(a) <==> b in old(Children(a)) || (a == parent && b == child)
      ensures forall a, b :: b in Children(a) <==> a in Parents(b)
      ensures r.Added? ==> AllArtifacts() == old(AllArtifacts()) + {parent, child}
    {
      AddEdgeAcyclicIff(edges, parent, child);
      ApplyConsistent(View(), Op.Add(parent, child));
      if parent == child {
        assert Hops(edges, child, parent, 0);
        return SelfDependency;
      }
      var refused := WouldCreateCycle(parent, child);
      if refused {
        return CycleRefused;
      }
      edges := edges[parent := Succ(edges, parent) + {child}];
      reverse := reverse[child := Succ(reverse, child) + {parent}];
      r := Added;
    }

    /** Depth-first search from the child; terminates on every graph. */
    method WouldCreateCycle(parent: Id, child: Id) returns (found: bool)
      ensures found <==> Reach(edges, child, parent)
    {
      var visited: set<Id> := {};
      var stack := [child];
      ghost var universe := Nodes(edges) + {child};
      assert Hops(edges, child, child, 0);
      while stack != []
        invariant visited <= universe && parent !in visited
        invariant forall x :: x in stack ==> x in universe
        invariant forall x :: x in visited || x in stack ==> Reach(edges, child, x)
        invariant child in visited || child in stack
        invariant forall x, y :: x in visited && y in Succ(edges, x) ==> y in visited || y in stack
        decreases universe - visited, |stack|
      {
        var node := stack[|stack| - 1];
        var rest := stack[..|stack| - 1];
        assert stack == rest + [node];
        assert forall x :: x in stack <==> x in rest || x == node;
        if node == parent {
          return true;
        }
        if node in visited {
          stack := rest;
          continue;
        }
        visited := visited + {node};
        var kids := Enumerate(Succ(edges, node));
        forall k | k in kids ensures Reach(edges, child, k) {
          ReachPlusSnoc(edges, child, node, k);
        }
        stack := rest + kids;
        assert forall x :: x in stack <==> x in rest || x in kids;
      }
      if Reach(edges, child, parent) {
        var k: nat :| Hops(edges, child, parent, k);
        ClosedSetHolds(edges, visited, child, parent, k);
      }
      return false;
    }

    method Remove(id: Id)
      requires Valid()
      modifies this
      ensures Valid()
      ensures View() == Apply(old(View()), Op.Remove(id))
      ensures id !in AllArtifacts() && AllArtifacts() == old(AllArtifacts()) - {id}
      ensures forall a, b :: b in Children(a) <==> a != id && b != id && b in old(Succ(edges, a))
    {
      ApplyConsistent(View(), Op.Remove(id));
      DiscardBothSides(edges, reverse, id);
      var popped := Succ(edges, id);
      edges := edges - {id};
      reverse := Discard(reverse, popped, id);
      popped := Succ(reverse, id);
      reverse := reverse - {id};
      edges := Discard(edges, popped, id);
    }

    /** Takes `id` out of the sets of the given keys; keys the map lacks are skipped. */
    static method Discard(g: Graph, keys: set<Id>, id: Id) returns (h: Graph)
      ensures h == Discarded(g, keys, id)
    {
      h := g;
      var todo := keys;
      while todo != {}
        invariant todo <= keys
        invariant h == Discarded(g, keys - todo, id)
        decreases todo
      {
        var key :| key in todo;
        if key in h {
          h := h[key := h[key] - {id}];
        }
        todo := todo - {key};
      }
    }

    /** Kahn's algorithm: succeeds exactly on the acyclic graphs. */
    method TopologicalOrder() returns (r: OrderOutcome)
      requires Converse(edges, reverse)
      ensures r.Ordered? <==> Acyclic(edges)
      ensures r.Ordered? ==> IsTopological(edges, AllArtifacts(), r.ids)
    {
      r := Kahn(edges, reverse);
    }
  }
}
