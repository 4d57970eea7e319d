/** Declared dependencies of registered items, and what the two depth-first validators share. */
module Dependencies {
  import opened Collections
  import opened Digraph

  /** An insertion-ordered dictionary from an id to the ids it depends on. */
  datatype Table = Table(ids: seq<Id>, deps: map<Id, seq<Id>>) {
    ghost predicate WellFormed() {
      NoDup(ids) && forall x :: x in ids <==> x in deps
    }

    /** The edges between registered items, from the dependent to its dependency. */
    function Graph(): Digraph.Graph {
      map x | x in deps :: set d | d in deps[x] && d in deps
    }

    ghost predicate Complete() {
      forall x, d :: x in deps && d in deps[x] ==> d in deps
    }
  }

  datatype Outcome =
    | Valid
    | MissingDependency(id: Id, dependency: Id)
    | Cycle

  /** The check both validators start with: a declared dependency that is not registered. */
  method FindMissing(t: Table) returns (o: Outcome)
    requires t.WellFormed()
    ensures o.Valid? <==> t.Complete()
    ensures !o.Valid? ==> o.MissingDependency? && o.id in t.deps && o.dependency in t.deps[o.id] && o.dependency !in t.deps
  {
    for i := 0 to |t.ids|
      invariant forall k, d :: 0 <= k < i && d in t.deps[t.ids[k]] ==> d in t.deps
    {
      var list := t.deps[t.ids[i]];
      for j := 0 to |list|
        invariant forall k :: 0 <= k < j ==> list[k] in t.deps
      {
        if list[j] !in t.deps {
          return MissingDependency(t.ids[i], list[j]);
        }
      }
    }
    o := Valid;
  }

  /** Every id in the list has its dependencies in front of it. */
  ghost predicate Closed(g: Graph, s: seq<Id>) {
    forall j, d :: 0 <= j < |s| && d in Succ(g, s[j]) ==> d in s[..j]
  }

  lemma {:induction false} WalksGoDown(g: Graph, s: seq<Id>, j: nat, b: Id, k: nat)
    requires Closed(g, s) && j < |s| && k >= 1 && Hops(g, s[j], b, k)
    ensures b in s[..j]
    decreases k
  {
    var m :| m in Succ(g, s[j]) && Hops(g, m, b, k - 1);
    var i :| 0 <= i < j && s[i] == m;
    if k > 1 {
      WalksGoDown(g, s, i, b, k - 1);
    }
  }

  /** What a closed list reaches is in the list, and none of it lies on a cycle. */
  lemma NoCycleFromClosed(g: Graph, s: seq<Id>, a: Id, x: Id)
    requires Closed(g, s) && NoDup(s) && a in s && Reach(g, a, x)
    ensures x in s && !ReachPlus(g, x, x)
  {
    var j :| 0 <= j < |s| && s[j] == a;
    var k: nat :| Hops(g, a, x, k);
    if k >= 1 {
      WalksGoDown(g, s, j, x, k);
    }
    var i :| 0 <= i < |s| && s[i] == x;
    if ReachPlus(g, x, x) {
      var n: nat :| n >= 1 && Hops(g, x, x, n);
      WalksGoDown(g, s, i, x, n);
    }
  }

  lemma ClosedIsDependenciesFirst(g: Graph, nodes: set<Id>, s: seq<Id>)
    requires Closed(g, s) && NoDup(s) && forall x :: x in s <==> x in nodes
    ensures DependenciesFirst(g, nodes, s)
  {
  }

  lemma ClosedAppend(g: Graph, s: seq<Id>, x: Id)
    requires Closed(g, s) && forall d :: d in Succ(g, x) ==> d in s
    ensures Closed(g, s + [x])
  {
    forall j, d | 0 <= j < |s + [x]| && d in Succ(g, (s + [x])[j]) ensures d in (s + [x])[..j] {
      assert (s + [x])[..j] == s[..j];
    }
  }
}
