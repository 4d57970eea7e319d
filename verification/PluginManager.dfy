/** backend/lexmind/plugins/plugin_manager.py: the three-colour cycle detector of the plugin manager. */
module PluginManager {
  import opened Collections
  import opened Digraph
  import opened Dependencies

  datatype Colour = White | Gray | Black
  datatype Detection = Passed | Circular | UnknownPlugin

  /** A cycle that can be reached from one of the roots. */
  ghost predicate CycleBelow(g: Graph, roots: set<Id>) {
    exists root, x :: root in roots && Reach(g, root, x) && ReachPlus(g, x, x)
  }

  lemma GraysReachNext(g: Graph, root: Id, grays: set<Id>, node: Id, dep: Id)
    requires dep in Succ(g, node) && Reach(g, root, node)
    requires forall v :: v in grays ==> v == node || ReachPlus(g, v, node)
    ensures Reach(g, root, dep) && forall v :: v in grays ==> ReachPlus(g, v, dep)
  {
    EdgeIsHop(g, node, dep);
    ReachTrans(g, root, node, dep);
    forall v | v in grays ensures ReachPlus(g, v, dep) {
      if v != node {
        ReachPlusTrans(g, v, node, dep);
      }
    }
  }

  lemma CycleFound(g: Graph, root: Id, x: Id)
    requires Reach(g, root, x) && ReachPlus(g, x, x)
    ensures CycleBelow(g, {root})
  {
  }

  /** Gray are the ids on the current path, black the finished ones, whose dependencies are finished too. */
  ghost predicate Painted(t: Table, colour: map<Id, Colour>, grays: set<Id>, finished: seq<Id>) {
    && colour.Keys == t.deps.Keys
    && grays <= colour.Keys && (forall x :: x in finished ==> x in colour && x !in grays)
    && (forall x :: x in colour ==> colour[x] == if x in finished then Black else if x in grays then Gray else White)
    && NoDup(finished) && Closed(t.Graph(), finished)
  }

  lemma PaintGray(t: Table, colour: map<Id, Colour>, grays: set<Id>, finished: seq<Id>, x: Id)
    requires Painted(t, colour, grays, finished) && x in colour && colour[x] == White
    ensures Painted(t, colour[x := Gray], grays + {x}, finished) && x !in grays && grays + {x} <= t.deps.Keys
  {
  }

  lemma PaintBlack(t: Table, colour: map<Id, Colour>, grays: set<Id>, finished: seq<Id>, x: Id)
    requires Painted(t, colour, grays, finished) && x in grays
    requires forall d :: d in Succ(t.Graph(), x) ==> d in finished
    ensures Painted(t, colour[x := Black], grays - {x}, finished + [x])
  {
    ClosedAppend(t.Graph(), finished, x);
  }

  lemma ColourMeaning(t: Table, colour: map<Id, Colour>, grays: set<Id>, finished: seq<Id>)
    requires Painted(t, colour, grays, finished)
    ensures colour.Keys == t.deps.Keys
    ensures forall x :: x in colour ==> (colour[x] == Gray <==> x in grays) && (colour[x] == Black <==> x in finished)
  {
  }

  lemma PaintedClosed(t: Table, colour: map<Id, Colour>, grays: set<Id>, finished: seq<Id>)
    requires Painted(t, colour, grays, finished)
    ensures NoDup(finished) && Closed(t.Graph(), finished)
  {
  }

  class CycleDetector {
    const table: Table
    var colour: map<Id, Colour>
    ghost var grays: set<Id>
    ghost var finished: seq<Id>

    constructor (table: Table)
      requires table.WellFormed()
      ensures this.table == table && Inv() && grays == {}
    {
      this.table := table;
      colour := map x | x in table.deps :: White;
      finished, grays := [], {};
    }

    ghost predicate Inv()
      reads this
    {
      Painted(table, colour, grays, finished)
    }

    method Visit(node: Id, ghost root: Id) returns (ok: bool)
      requires Inv() && node in colour && colour[node] == White
      requires Reach(table.Graph(), root, node)
      requires forall v :: v in grays ==> ReachPlus(table.Graph(), v, node)
      modifies this
      ensures ok ==> Inv() && grays == old(grays) && node in finished
      ensures ok ==> forall x :: x in old(finished) ==> x in finished
      ensures !ok ==> CycleBelow(table.Graph(), {root})
      decreases table.deps.Keys - grays
    {
      hide Reach, ReachPlus, CycleBelow, Painted;
      ghost var g := table.Graph();
      ColourMeaning(table, colour, grays, finished);
      PaintGray(table, colour, grays, finished, node);
      colour := colour[node := Gray];
      grays := grays + {node};
      var list := table.deps[node];
      for i := 0 to |list|
        invariant Inv() && grays == old(grays) + {node}
        invariant forall x :: x in old(finished) ==> x in finished
        invariant forall k :: 0 <= k < i && list[k] in table.deps ==> list[k] in finished
      {
        var dep := list[i];
        ColourMeaning(table, colour, grays, finished);
        if dep in colour {
          GraysReachNext(g, root, grays, node, dep);
          if colour[dep] == Gray {
            CycleFound(g, root, dep);
            return false;
          }
          if colour[dep] == White {
            var fine := Visit(dep, root);
            if !fine {
              return false;
            }
          }
        }
      }
      PaintBlack(table, colour, grays, finished, node);
      finished := finished + [node];
      grays := grays - {node};
      colour := colour[node := Black];
      ok := true;
    }
  }

  /** The ids whose dependencies are searched; an absent or empty start means all of them. */
  function Searched(table: Table, start: Option<Id>): set<Id> {
    if start.Some? && start.value != "" then {start.value} else table.deps.Keys
  }

  /** Fails on a start that is not registered; otherwise passes exactly when no cycle can be reached from
      what is searched. */
  method DetectCycle(table: Table, start: Option<Id>) returns (r: Detection)
    requires table.WellFormed()
    ensures start.Some? && start.value != "" ==>
      && (r.UnknownPlugin? <==> start.value !in table.deps)
      && (r.Circular? <==> start.value in table.deps
                           && exists x :: Reach(table.Graph(), start.value, x) && ReachPlus(table.Graph(), x, x))
    ensures start.None? || start.value == "" ==>
      !r.UnknownPlugin? && (r.Circular? <==> !Acyclic(table.Graph()))
  {
    hide Painted;
    ghost var g := table.Graph();
    var d := new CycleDetector(table);
    var roots := if start.Some? && start.value != "" then [start.value] else table.ids;
    assert forall x :: x in roots <==> x in Searched(table, start);
    EverywhereIsAcyclic(table);
    for i := 0 to |roots|
      invariant d.table == table && d.Inv() && d.grays == {}
      invariant forall k :: 0 <= k < i ==> roots[k] in d.finished
      invariant forall k :: 0 <= k < i ==> roots[k] in table.deps
    {
      assert roots[i] in Searched(table, start);
      if roots[i] !in table.deps {
        return UnknownPlugin;
      }
      ColourMeaning(table, d.colour, d.grays, d.finished);
      if d.colour[roots[i]] == White {
        assert Hops(g, roots[i], roots[i], 0);
        var fine := d.Visit(roots[i], roots[i]);
        if !fine {
          return Circular;
        }
      }
      assert roots[i] in d.finished;
    }
    assert roots != [] ==> roots[0] in table.deps;
    forall root, x | root in roots && Reach(g, root, x) ensures !ReachPlus(g, x, x) {
      PaintedClosed(table, d.colour, d.grays, d.finished);
      NoCycleFromClosed(g, d.finished, root, x);
    }
    return Passed;
  }

  lemma EverywhereIsAcyclic(table: Table)
    ensures CycleBelow(table.Graph(), table.deps.Keys) <==> !Acyclic(table.Graph())
  {
    var g := table.Graph();
    forall x, k: nat | k >= 1 && Hops(g, x, x, k) ensures CycleBelow(g, table.deps.Keys) {
      var m :| m in Succ(g, x) && Hops(g, m, x, k - 1);
      assert Hops(g, x, x, 0);
      assert x in table.deps && Reach(g, x, x) && ReachPlus(g, x, x);
    }
  }

  /** Missing dependencies are reported first, then cycles. */
  method ValidateDependencies(table: Table) returns (o: Outcome)
    requires table.WellFormed()
    ensures o.MissingDependency? <==> !table.Complete()
    ensures o.Cycle? <==> table.Complete() && !Acyclic(table.Graph())
  {
    o := FindMissing(table);
    if o.Valid? {
      var r := DetectCycle(table, None);
      if r.Circular? {
        o := Cycle;
      }
    }
  }
}
