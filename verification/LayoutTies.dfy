/** When equal confidences matter to the pruning of layout regions in
    backend/lexmind/layout/layout_analysis.py: the exact conditions, on the regions given. */
module LayoutTies {
  import opened Collections
  import opened Layout

  /** A region of strictly higher confidence contains it. */
  ghost predicate Outranked(regions: seq<Region>, x: Region) {
    exists z :: z in regions && z.confidence > x.confidence && Contains(z.box, x.box)
  }

  /** Different regions of equal confidence, neither of them decided by a more confident one. */
  ghost predicate Rivals(regions: seq<Region>, x: Region, y: Region) {
    && x in regions && y in regions && x != y && x.confidence == y.confidence
    && !Outranked(regions, x) && !Outranked(regions, y)
  }

  /** Rivals do not contain each other and have different places in the reading order. */
  ghost predicate TieFree(regions: seq<Region>) {
    forall x, y :: Rivals(regions, x, y) ==> !Contains(x.box, y.box) && x.order != y.order
  }

  /** A rival that properly contains another one is not read before it. */
  ghost predicate RereadSafe(regions: seq<Region>) {
    forall x, y :: Rivals(regions, x, y) && Contains(x.box, y.box) && !Contains(y.box, x.box) ==> y.order <= x.order
  }

  function Kept(regions: seq<Region>): seq<Region> {
    Prune(SortBy(regions, ByConfidence))
  }

  lemma KeptFacts(regions: seq<Region>)
    ensures NoDup(Kept(regions)) && Sorted(Kept(regions), ByConfidence) && NoneInside(Kept(regions))
    ensures Sorted(Merge(regions), ByOrder)
    ensures forall x :: x in Kept(regions) <==> x in Merge(regions)
    ensures forall v :: Having(Merge(regions), ByOrder, v) == Having(Kept(regions), ByOrder, v)
  {
    hide SortBy, Prune, Sorted;
    var s, kept := SortBy(regions, ByConfidence), Kept(regions);
    SortSorts(regions, ByConfidence);
    PruneSorted(s, ByConfidence);
    PruneApart(s);
    SortSorts(kept, ByOrder);
    SortMembers(kept, ByOrder);
    forall i, j | 0 <= i < j < |kept| ensures kept[i] != kept[j] {
      BeforeAt(kept, i, j);
    }
    forall v ensures Having(Merge(regions), ByOrder, v) == Having(kept, ByOrder, v) {
      SortStable(kept, ByOrder, v);
    }
  }

  lemma KeptNotOutranked(regions: seq<Region>, x: Region)
    requires x in Merge(regions)
    ensures x in regions && !Outranked(regions, x)
  {
    hide Merge;
    MergeSound(regions);
    assert x in regions by {
      assert x in multiset(Merge(regions));
      assert x in multiset(regions);
    }
    forall z | z in regions && z.confidence > x.confidence ensures !Contains(z.box, x.box) {
      if z !in Merge(regions) {
        var k :| k in Merge(regions) && Contains(k.box, z.box) && k.confidence >= z.confidence;
        assert !Contains(k.box, x.box);
      }
    }
  }

  /** Without containment among rivals, everything not outranked is kept. */
  lemma TopKept(regions: seq<Region>, x: Region)
    requires TieFree(regions) && x in regions && !Outranked(regions, x)
    ensures x in Merge(regions)
  {
    hide Merge, Contains;
    MergeSound(regions);
    forall k | k in Merge(regions) && Contains(k.box, x.box) && k.confidence >= x.confidence ensures k == x {
      KeptNotOutranked(regions, k);
      assert !Rivals(regions, k, x);
    }
  }

  lemma SameRegions(a: seq<Region>, b: seq<Region>)
    requires multiset(a) == multiset(b)
    ensures forall x :: x in a <==> x in b
    ensures forall x :: Outranked(a, x) <==> Outranked(b, x)
    ensures forall x, y :: Rivals(a, x, y) <==> Rivals(b, x, y)
  {
    forall x ensures x in a <==> x in b {
      assert x in multiset(a) <==> x in multiset(b);
    }
    forall x ensures Outranked(a, x) <==> Outranked(b, x) {}
  }

  /** A sorted list without repeats is determined by its members when no two of them have the same key. */
  lemma {:induction false} StrictUnique(s: seq<Region>, t: seq<Region>, key: Region -> real)
    requires Sorted(s, key) && Sorted(t, key) && NoDup(s) && NoDup(t)
    requires forall x :: x in s <==> x in t
    requires forall x, y :: x in s && y in s && key(x) == key(y) ==> x == y
    ensures s == t
    decreases |s|
  {
    FirstIsMember(s);
    FirstIsMember(t);
    if s != [] {
      TailMembers(s);
      TailMembers(t);
      StrictUnique(s[1..], t[1..], key);
      assert s == [s[0]] + s[1..] && t == [t[0]] + t[1..];
    }
  }

  lemma TailMembers(s: seq<Region>)
    requires s != [] && NoDup(s)
    ensures NoDup(s[1..]) && forall x :: x in s[1..] <==> x in s && x != s[0]
  {
    assert s == [s[0]] + s[1..];
  }

  lemma {:induction false} HavingNoDup(s: seq<Region>, key: Region -> real, v: real)
    requires NoDup(s)
    ensures NoDup(Having(s, key, v))
  {
    if s != [] {
      assert s == [s[0]] + s[1..];
      HavingNoDup(s[1..], key, v);
      TailMembers(s);
      HavingCons(s[0], s[1..], key, v);
    }
  }

  lemma TieFreeSame(a: seq<Region>, b: seq<Region>)
    requires multiset(a) == multiset(b) && TieFree(a)
    ensures Merge(a) == Merge(b)
  {
    hide Merge, Having, Contains, Outranked, SortBy, Prune, Sorted, NoneInside, Kept;
    SameRegions(a, b);
    KeptFacts(a);
    KeptFacts(b);
    var s, t := Kept(a), Kept(b);
    forall x ensures x in s <==> x in t {
      if x in s {
        KeptNotOutranked(a, x);
        TopKept(b, x);
      }
      if x in t {
        KeptNotOutranked(b, x);
        TopKept(a, x);
      }
    }
    forall x | x in s ensures x in a && !Outranked(a, x) {
      KeptNotOutranked(a, x);
    }
    forall v ensures Having(Merge(a), ByOrder, v) == Having(Merge(b), ByOrder, v) {
      var h, k := Having(s, ByOrder, v), Having(t, ByOrder, v);
      HavingSorted(s, ByConfidence, ByOrder, v);
      HavingSorted(t, ByConfidence, ByOrder, v);
      HavingNoDup(s, ByOrder, v);
      HavingNoDup(t, ByOrder, v);
      forall x, y | x in h && y in h && ByConfidence(x) == ByConfidence(y) ensures x == y {
        assert !Rivals(a, x, y);
      }
      StrictUnique(h, k, ByConfidence);
    }
    SortedUnique(Merge(a), Merge(b), ByOrder);
  }

  /** Two rivals at the head of the input */

  lemma SecondFollows(rest: seq<Region>, key: Region -> real, v: real, y: Region)
    requires Sorted(rest, key) && rest != [] && key(rest[0]) >= v
    requires var h := Having(rest, key, v); h != [] && h[0] == y
    ensures rest[0] == y
  {
    var h := Having(rest, key, v);
    assert rest == [rest[0]] + rest[1..];
    HavingCons(rest[0], rest[1..], key, v);
    hide Having;
    assert y in h;
  }

  /** At `i` stand `x` and `y`, next to each other, and everything before has a smaller key. */
  ghost predicate TwoAt(s: seq<Region>, key: Region -> real, v: real, x: Region, y: Region, i: nat) {
    i + 1 < |s| && s[i] == x && s[i + 1] == y && forall j :: 0 <= j < i ==> key(s[j]) < v
  }

  lemma TwoAtShift(s: seq<Region>, key: Region -> real, v: real, x: Region, y: Region, i: nat)
    requires s != [] && key(s[0]) < v && TwoAt(s[1..], key, v, x, y, i)
    ensures TwoAt(s, key, v, x, y, i + 1)
  {
    forall j | 0 < j < i + 1 ensures key(s[j]) < v {
      assert s[j] == s[1..][j - 1];
    }
  }

  /** The two first of their key stand next to each other in a sorted list. */
  lemma {:induction false} FirstTwo(s: seq<Region>, key: Region -> real, v: real, x: Region, y: Region) returns (i: nat)
    requires Sorted(s, key)
    requires var h := Having(s, key, v); |h| >= 2 && h[0] == x && h[1] == y
    ensures TwoAt(s, key, v, x, y, i)
  {
    var rest, h := s[1..], Having(s, key, v);
    assert s == [s[0]] + rest;
    HavingCons(s[0], rest, key, v);
    assert x in h;
    assert key(s[0]) <= key(x) == v;
    hide Having, Sorted;
    if key(s[0]) == v {
      i := 0;
      SecondFollows(rest, key, v, y);
    } else {
      hide TwoAt;
      i := FirstTwo(rest, key, v, x, y);
      TwoAtShift(s, key, v, x, y, i);
      i := i + 1;
    }
  }

  lemma {:induction false} PrunePrefix(s: seq<Region>, n: nat)
    requires n <= |s|
    ensures Prune(s[..n]) <= Prune(s)
    decreases |s|
  {
    if n == |s| {
      assert s[..n] == s;
    } else {
      assert s[..|s| - 1][..n] == s[..n];
      PrunePrefix(s[..|s| - 1], n);
    }
  }

  /** What is contained in a kept region stays out. */
  lemma {:induction false} NeverKept(s: seq<Region>, n: nat, x: Region, y: Region)
    requires n <= |s| && x in Prune(s[..n]) && y !in Prune(s[..n]) && Contains(x.box, y.box)
    ensures y !in Prune(s)
    decreases |s|
  {
    hide Contains;
    if n == |s| {
      assert s[..n] == s;
    } else {
      var rest := s[..|s| - 1];
      assert rest[..n] == s[..n];
      NeverKept(rest, n, x, y);
      PrunePrefix(rest, n);
    }
  }

  lemma PruneNext(s: seq<Region>, i: nat)
    requires i < |s|
    ensures
      var before := Prune(s[..i]);
      Prune(s[..i + 1]) == if Covered(before, s[i]) then before else before + [s[i]]
  {
    assert s[..i + 1][..i] == s[..i];
  }

  /** What comes before a region that is not outranked does not contain it. */
  lemma NotCovered(regions: seq<Region>, s: seq<Region>, x: Region, i: nat)
    requires i <= |s| && !Outranked(regions, x)
    requires forall z :: z in s ==> z in regions
    requires forall j :: 0 <= j < i ==> s[j].confidence > x.confidence
    ensures !Covered(Prune(s[..i]), x) && x !in Prune(s[..i])
  {
    hide Contains;
    PruneSelects(s[..i]);
    forall z | z in Prune(s[..i]) ensures z.confidence > x.confidence && !Contains(z.box, x.box) {
      var j :| 0 <= j < |s[..i]| && s[..i][j] == z;
      assert s[j] == z && z in regions;
    }
  }

  /** After the regions before them, the first of two rivals is kept, and the second unless the first contains it. */
  lemma PruneFirstTwo(regions: seq<Region>, s: seq<Region>, x: Region, y: Region, i: nat)
    requires i + 1 < |s| && s[i] == x && s[i + 1] == y && Rivals(regions, x, y)
    requires forall z :: z in s ==> z in regions
    requires forall j :: 0 <= j < i ==> s[j].confidence > x.confidence
    ensures
      var before := Prune(s[..i]);
      && y !in before
      && Prune(s[..i + 2]) == if Contains(x.box, y.box) then before + [x] else before + [x] + [y]
  {
    hide Contains, Prune, Outranked;
    NotCovered(regions, s, x, i);
    NotCovered(regions, s, y, i);
    PruneNext(s, i);
    PruneNext(s, i + 1);
  }

  lemma RivalsSorted(regions: seq<Region>, x: Region, y: Region, rest: seq<Region>) returns (i: nat)
    requires regions == [x, y] + rest && Rivals(regions, x, y)
    ensures TwoAt(SortBy(regions, ByConfidence), ByConfidence, ByConfidence(x), x, y, i)
    ensures forall z :: z in SortBy(regions, ByConfidence) ==> z in regions
  {
    hide Contains, SortBy, Having, Outranked, Sorted, TwoAt;
    var s, v := SortBy(regions, ByConfidence), ByConfidence(x);
    SortSorts(regions, ByConfidence);
    SortMembers(regions, ByConfidence);
    SortStable(regions, ByConfidence, v);
    assert regions == [x] + ([y] + rest);
    HavingCons(x, [y] + rest, ByConfidence, v);
    HavingCons(y, rest, ByConfidence, v);
    i := FirstTwo(s, ByConfidence, v, x, y);
  }

  lemma KeptAt(kept: seq<Region>, before: seq<Region>, x: Region, y: Region)
    requires before + [x] + [y] <= kept
    ensures x in kept && y in kept && Before(kept, x, y)
  {
    var n := |before|;
    assert kept[n] == (before + [x] + [y])[n] == x && kept[n + 1] == (before + [x] + [y])[n + 1] == y;
    BeforeAt(kept, n, n + 1);
  }

  lemma HeadDecides(regions: seq<Region>, x: Region, y: Region, rest: seq<Region>)
    requires regions == [x, y] + rest && Rivals(regions, x, y)
    ensures x in Merge(regions)
    ensures Contains(x.box, y.box) ==> y !in Merge(regions)
    ensures !Contains(x.box, y.box) ==> y in Merge(regions) && Before(Kept(regions), x, y)
  {
    hide Contains, SortBy, Prune, Outranked, NoneInside, Merge, Before, Sorted, NoDup, Having;
    var s := SortBy(regions, ByConfidence);
    var i := RivalsSorted(regions, x, y, rest);
    assert forall j :: 0 <= j < i ==> ByConfidence(s[j]) < ByConfidence(x);
    PruneFirstTwo(regions, s, x, y, i);
    PrunePrefix(s, i + 2);
    KeptFacts(regions);
    var before := Prune(s[..i]);
    if Contains(x.box, y.box) {
      assert x in before + [x];
      assert y !in before + [x];
      NeverKept(s, i + 2, x, y);
      assert Kept(regions)[|before|] == (before + [x])[|before|] == x;
    } else {
      KeptAt(Kept(regions), before, x, y);
    }
  }

  lemma Extract(s: seq<Region>, x: Region) returns (rest: seq<Region>)
    requires x in s
    ensures multiset([x] + rest) == multiset(s)
    ensures forall z :: z in s && z != x ==> z in rest
  {
    var i :| 0 <= i < |s| && s[i] == x;
    rest := s[..i] + s[i + 1..];
    assert s == s[..i] + [x] + s[i + 1..];
  }

  /** Both arrangements of the input that start with the two rivals. */
  lemma Arrange(regions: seq<Region>, x: Region, y: Region) returns (rest: seq<Region>)
    requires Rivals(regions, x, y)
    ensures multiset([x, y] + rest) == multiset([y, x] + rest) == multiset(regions)
    ensures Rivals([x, y] + rest, x, y) && Rivals([y, x] + rest, y, x)
  {
    hide Outranked;
    var others := Extract(regions, x);
    rest := Extract(others, y);
    assert [x, y] + rest == [x] + ([y] + rest) && [y, x] + rest == [y] + ([x] + rest);
    assert multiset([x] + ([y] + rest)) == multiset{x} + multiset([y] + rest);
    assert multiset([x] + others) == multiset{x} + multiset(others);
    assert multiset([y] + ([x] + rest)) == multiset{y} + multiset([x] + rest);
    assert multiset([x] + rest) == multiset{x} + multiset(rest) && multiset([y] + rest) == multiset{y} + multiset(rest);
    SameRegions(regions, [x, y] + rest);
    SameRegions(regions, [y, x] + rest);
  }

  lemma NotBothBefore(s: seq<Region>, x: Region, y: Region)
    requires NoDup(s)
    ensures !(Before(s, x, y) && Before(s, y, x))
  {
    if Before(s, x, y) && Before(s, y, x) {
      var i, j := BeforeIndices(s, x, y);
      var k, l := BeforeIndices(s, y, x);
      assert false;
    }
  }

  lemma BeforeInOrder(regions: seq<Region>, x: Region, y: Region)
    requires x.order == y.order
    ensures Before(Merge(regions), x, y) <==> Before(Kept(regions), x, y)
  {
    hide Merge, Kept, Having;
    KeptFacts(regions);
    BeforeHaving(Merge(regions), ByOrder, ByOrder(x), x, y);
    BeforeHaving(Kept(regions), ByOrder, ByOrder(x), x, y);
  }

  /** Rivals of the same place in the reading order come out in the order of the input. */
  lemma SameOrderDiffers(regions: seq<Region>, x: Region, y: Region, rest: seq<Region>)
    requires Rivals([x, y] + rest, x, y) && Rivals([y, x] + rest, y, x)
    requires !Contains(x.box, y.box) && !Contains(y.box, x.box) && x.order == y.order
    ensures Merge([x, y] + rest) != Merge([y, x] + rest)
  {
    hide Merge, Kept, Contains, Outranked, Before;
    var a, b := [x, y] + rest, [y, x] + rest;
    HeadDecides(a, x, y, rest);
    HeadDecides(b, y, x, rest);
    BeforeInOrder(a, x, y);
    BeforeInOrder(a, y, x);
    BeforeInOrder(b, y, x);
    KeptFacts(a);
    NotBothBefore(Kept(a), x, y);
  }

  lemma TieMatters(regions: seq<Region>, x: Region, y: Region) returns (a: seq<Region>, b: seq<Region>)
    requires Rivals(regions, x, y) && (Contains(x.box, y.box) || x.order == y.order)
    ensures multiset(a) == multiset(b) == multiset(regions) && Merge(a) != Merge(b)
  {
    hide Merge, Contains, Outranked, Before;
    var rest := Arrange(regions, x, y);
    a, b := [x, y] + rest, [y, x] + rest;
    HeadDecides(a, x, y, rest);
    HeadDecides(b, y, x, rest);
    if !Contains(x.box, y.box) && !Contains(y.box, x.box) {
      SameOrderDiffers(regions, x, y, rest);
    }
  }

  /** The result is the same for every arrangement of the input exactly when rivals neither contain each other
      nor share a place in the reading order. */
  lemma OrderIrrelevantIff(regions: seq<Region>)
    ensures (forall b :: multiset(b) == multiset(regions) ==> Merge(b) == Merge(regions)) <==> TieFree(regions)
  {
    hide Merge, Contains, Outranked;
    if TieFree(regions) {
      forall b | multiset(b) == multiset(regions) ensures Merge(b) == Merge(regions) {
        TieFreeSame(regions, b);
      }
    } else {
      var x, y :| Rivals(regions, x, y) && (Contains(x.box, y.box) || x.order == y.order);
      var a, b := TieMatters(regions, x, y);
      assert Merge(a) != Merge(regions) || Merge(b) != Merge(regions);
    }
  }

  predicate DistinctConfidences(s: seq<Region>) {
    forall i, j :: 0 <= i < j < |s| ==> s[i].confidence != s[j].confidence
  }

  lemma NoRivals(s: seq<Region>)
    requires DistinctConfidences(s)
    ensures forall x, y :: !Rivals(s, x, y)
  {
    forall x, y ensures !Rivals(s, x, y) {
      if x in s && y in s && x != y {
        var i :| 0 <= i < |s| && s[i] == x;
        var j :| 0 <= j < |s| && s[j] == y;
        assert i < j || j < i;
      }
    }
  }

  lemma OrderIrrelevant(a: seq<Region>, b: seq<Region>)
    requires multiset(a) == multiset(b) && DistinctConfidences(a)
    ensures Merge(a) == Merge(b)
  {
    hide Rivals, Merge;
    NoRivals(a);
    TieFreeSame(a, b);
  }

  /** Merging again */

  lemma EitherBefore(s: seq<Region>, x: Region, y: Region)
    requires x in s && y in s && x != y
    ensures Before(s, x, y) || Before(s, y, x)
  {
    var i :| 0 <= i < |s| && s[i] == x;
    var j :| 0 <= j < |s| && s[j] == y;
    if i < j {
      BeforeAt(s, i, j);
    } else {
      BeforeAt(s, j, i);
    }
  }

  lemma BeforeByOrder(s: seq<Region>, x: Region, y: Region)
    requires Sorted(s, ByOrder)
    ensures Before(s, x, y) ==> x in s && y in s && x.order <= y.order
    ensures x in s && y in s && x.order < y.order ==> Before(s, x, y)
  {
    if Before(s, x, y) {
      var i, j := BeforeIndices(s, x, y);
      assert ByOrder(s[i]) <= ByOrder(s[j]);
    }
    if x in s && y in s && x.order < y.order {
      var i :| 0 <= i < |s| && s[i] == x;
      var j :| 0 <= j < |s| && s[j] == y;
      SmallerKeyFirst(s, ByOrder, i, j);
      BeforeAt(s, i, j);
    }
  }

  lemma TieClear(regions: seq<Region>, x: Region, y: Region)
    requires RereadSafe(regions) && Before(Merge(regions), x, y) && x.confidence == y.confidence
    ensures !Contains(x.box, y.box)
  {
    hide Merge, Kept, Contains, Outranked, Sorted, Before, Having;
    KeptFacts(regions);
    BeforeByOrder(Merge(regions), x, y);
    KeptNotOutranked(regions, x);
    KeptNotOutranked(regions, y);
    if x.order == y.order {
      BeforeInOrder(regions, x, y);
    } else {
      assert Rivals(regions, x, y);
      EitherBefore(Kept(regions), x, y);
    }
  }

  lemma ReversedRivals(regions: seq<Region>, x: Region, y: Region) returns (b: seq<Region>)
    requires Rivals(regions, x, y) && Contains(x.box, y.box) && !Contains(y.box, x.box) && x.order < y.order
    ensures multiset(b) == multiset(regions) && Merge(Merge(b)) != Merge(b)
  {
    hide Merge, Kept, Contains, Outranked, Sorted, Before;
    var rest := Arrange(regions, x, y);
    b := [y, x] + rest;
    HeadDecides(b, y, x, rest);
    KeptFacts(b);
    BeforeByOrder(Merge(b), x, y);
    MergeAgainIff(b);
  }

  /** Merging again changes nothing, for every arrangement of the input, exactly when no rival that properly
      contains another one is read before it. */
  lemma MergeAgainAlwaysIff(regions: seq<Region>)
    ensures (forall b :: multiset(b) == multiset(regions) ==> Merge(Merge(b)) == Merge(b)) <==> RereadSafe(regions)
  {
    hide Merge, Contains, Rivals, Before;
    if RereadSafe(regions) {
      forall b | multiset(b) == multiset(regions) ensures Merge(Merge(b)) == Merge(b) {
        SameRegions(regions, b);
        forall x, y | Before(Merge(b), x, y) && x.confidence == y.confidence ensures !Contains(x.box, y.box) {
          TieClear(b, x, y);
        }
        MergeAgainIff(b);
      }
    } else {
      var x, y :| Rivals(regions, x, y) && Contains(x.box, y.box) && !Contains(y.box, x.box) && x.order < y.order;
      var b := ReversedRivals(regions, x, y);
    }
  }

  lemma MergeAgain(regions: seq<Region>)
    requires DistinctConfidences(regions)
    ensures Merge(Merge(regions)) == Merge(regions)
  {
    hide Rivals, Merge;
    NoRivals(regions);
    MergeAgainAlwaysIff(regions);
  }
}
