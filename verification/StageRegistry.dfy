/** backend/lexmind/pipeline/pipeline_registry.py: registered stages and their dependency order. */
module StageRegistry {
  import opened Collections
  import opened Digraph
  import opened Dependencies

  datatype SortOutcome = Sorted(ids: seq<Id>) | Failed(why: Outcome)

  /** The sets and the list that the recursive `visit` of `_toposort` changes in place. */
  class Toposort {
    const table: Table
    var visiting: set<Id>
    var visited: set<Id>
    var ordered: seq<Id>

    constructor (table: Table)
      ensures this.table == table && visiting == {} && visited == {} && ordered == []
    {
      this.table := table;
      visiting, visited, ordered := {}, {}, [];
    }

    ghost predicate Inv()
      reads this
    {
      && table.WellFormed() && table.Complete()
      && visiting <= table.deps.Keys && visited <= table.deps.Keys && visiting !! visited
      && NoDup(ordered) && (forall x :: x in ordered <==> x in visited)
      && Closed(table.Graph(), ordered)
    }

    method Visit(id: Id) returns (ok: bool)
      requires Inv() && id in table.deps
      requires forall v :: v in visiting ==> ReachPlus(table.Graph(), v, id)
      modifies this
      ensures ok ==> Inv() && visiting == old(visiting) && id in visited && old(visited) <= visited
      ensures !ok ==> !Acyclic(table.Graph())
      decreases table.deps.Keys - visiting
    {
      ghost var g := table.Graph();
      if id in visited {
        return true;
      }
      if id in visiting {
        return false;
      }
      visiting := visiting + {id};
      var list := table.deps[id];
      for i := 0 to |list|
        invariant Inv() && visiting == old(visiting) + {id} && old(visited) <= visited
        invariant forall k :: 0 <= k < i ==> list[k] in visited
      {
        assert list[i] in Succ(g, id);
        EdgeIsHop(g, id, list[i]);
        forall v | v in visiting ensures ReachPlus(g, v, list[i]) {
          if v != id {
            ReachPlusTrans(g, v, id, list[i]);
          }
        }
        var fine := Visit(list[i]);
        if !fine {
          return false;
        }
      }
      ClosedAppend(g, ordered, id);
      visiting := visiting - {id};
      visited := visited + {id};
      ordered := ordered + [id];
      ok := true;
    }
  }

  /** Without missing dependencies: fails exactly on a cycle, otherwise lists every stage once,
      dependencies first. */
  method Sort(table: Table) returns (r: SortOutcome)
    requires table.WellFormed() && table.Complete()
    ensures r.Sorted? <==> Acyclic(table.Graph())
    ensures r.Sorted? ==> DependenciesFirst(table.Graph(), table.deps.Keys, r.ids)
    ensures r.Failed? ==> r.why == Cycle
  {
    ghost var g := table.Graph();
    var t := new Toposort(table);
    for i := 0 to |table.ids|
      invariant t.table == table && t.Inv() && t.visiting == {}
      invariant forall k :: 0 <= k < i ==> table.ids[k] in t.visited
    {
      var fine := t.Visit(table.ids[i]);
      if !fine {
        return Failed(Cycle);
      }
    }
    ClosedIsDependenciesFirst(g, table.deps.Keys, t.ordered);
    DependenciesFirstImpliesAcyclic(g, table.deps.Keys, t.ordered);
    r := Sorted(t.ordered);
  }

  /** `topological_order`: the missing-dependency check, then the sort. */
  method TopologicalOrder(table: Table) returns (r: SortOutcome)
    requires table.WellFormed()
    ensures r.Sorted? <==> table.Complete() && Acyclic(table.Graph())
    ensures r.Sorted? ==> DependenciesFirst(table.Graph(), table.deps.Keys, r.ids)
    ensures r.Failed? ==> (r.why.MissingDependency? <==> !table.Complete()) && (r.why.Cycle? <==> table.Complete())
  {
    var missing := FindMissing(table);
    if !missing.Valid? {
      return Failed(missing);
    }
    r := Sort(table);
  }
}
