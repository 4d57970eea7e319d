/** backend/lexmind/layout/layout_analysis.py: dropping layout regions that lie inside more confident ones.
    Coordinates and confidences are reals. */
module Layout {
  datatype BoundingBox = BoundingBox(x: real, y: real, width: real, height: real)

  datatype Region = Region(kind: string, box: BoundingBox, confidence: real, order: int, text: string)

  predicate Contains(outer: BoundingBox, inner: BoundingBox) {
    && inner.x >= outer.x
    && inner.y >= outer.y
    && inner.x + inner.width <= outer.x + outer.width
    && inner.y + inner.height <= outer.y + outer.height
  }

  predicate HasPoint(box: BoundingBox, x: real, y: real) {
    box.x <= x <= box.x + box.width && box.y <= y <= box.y + box.height
  }

  /** A box contains another one, of any size that is not negative, exactly when it has all its points. */
  lemma ContainsIff(outer: BoundingBox, inner: BoundingBox)
    requires inner.width >= 0.0 && inner.height >= 0.0
    ensures Contains(outer, inner) <==> forall x, y :: HasPoint(inner, x, y) ==> HasPoint(outer, x, y)
  {
    if forall x, y :: HasPoint(inner, x, y) ==> HasPoint(outer, x, y) {
      assert HasPoint(inner, inner.x, inner.y);
      assert HasPoint(inner, inner.x + inner.width, inner.y + inner.height);
    }
  }

  lemma ContainedPoints(outer: BoundingBox, inner: BoundingBox)
    requires Contains(outer, inner)
    ensures forall x, y :: HasPoint(inner, x, y) ==> HasPoint(outer, x, y)
  {
  }

  /** Stable sorting by a key */

  function ByConfidence(r: Region): real {
    -r.confidence
  }

  function ByOrder(r: Region): real {
    r.order as real
  }

  predicate Sorted(s: seq<Region>, key: Region -> real) {
    forall i, j :: 0 <= i < j < |s| ==> key(s[i]) <= key(s[j])
  }

  function Insert(s: seq<Region>, x: Region, key: Region -> real): seq<Region> {
    if s == [] || key(x) <= key(s[0]) then [x] + s else [s[0]] + Insert(s[1..], x, key)
  }

  function SortBy(s: seq<Region>, key: Region -> real): seq<Region> {
    if s == [] then [] else Insert(SortBy(s[1..], key), s[0], key)
  }

  /** The elements with a given key, in place. */
  function Having(s: seq<Region>, key: Region -> real, v: real): (r: seq<Region>)
    ensures forall x :: x in r <==> x in s && key(x) == v
  {
    if s == [] then []
    else
      assert s == [s[0]] + s[1..];
      if key(s[0]) == v then [s[0]] + Having(s[1..], key, v) else Having(s[1..], key, v)
  }

  lemma {:induction false} InsertAdds(s: seq<Region>, x: Region, key: Region -> real)
    ensures multiset(Insert(s, x, key)) == multiset(s) + multiset{x}
  {
    if s == [] || key(x) <= key(s[0]) {
      assert multiset([x] + s) == multiset{x} + multiset(s);
    } else {
      assert s == [s[0]] + s[1..];
      InsertAdds(s[1..], x, key);
    }
  }

  lemma {:induction false} InsertSorts(s: seq<Region>, x: Region, key: Region -> real)
    requires Sorted(s, key)
    ensures Sorted(Insert(s, x, key), key)
    ensures forall y :: y in Insert(s, x, key) <==> y == x || y in s
  {
    if s == [] || key(x) <= key(s[0]) {
    } else {
      assert s == [s[0]] + s[1..];
      InsertSorts(s[1..], x, key);
      var rest := Insert(s[1..], x, key);
      forall i | 0 <= i < |rest| ensures key(s[0]) <= key(rest[i]) {
        assert rest[i] in rest;
      }
    }
  }

  lemma {:induction false} SortSorts(s: seq<Region>, key: Region -> real)
    ensures Sorted(SortBy(s, key), key) && multiset(SortBy(s, key)) == multiset(s)
  {
    if s != [] {
      assert s == [s[0]] + s[1..];
      SortSorts(s[1..], key);
      InsertSorts(SortBy(s[1..], key), s[0], key);
      InsertAdds(SortBy(s[1..], key), s[0], key);
    }
  }

  lemma SortMembers(s: seq<Region>, key: Region -> real)
    ensures forall x :: x in SortBy(s, key) <==> x in s
  {
    SortSorts(s, key);
    forall x ensures x in SortBy(s, key) <==> x in s {
      assert x in multiset(SortBy(s, key)) <==> x in multiset(s);
    }
  }

  lemma {:induction false} SortOfSorted(s: seq<Region>, key: Region -> real)
    requires Sorted(s, key)
    ensures SortBy(s, key) == s
  {
    if s != [] {
      SortOfSorted(s[1..], key);
    }
  }

  lemma HavingCons(x: Region, s: seq<Region>, key: Region -> real, v: real)
    ensures Having([x] + s, key, v) == if key(x) == v then [x] + Having(s, key, v) else Having(s, key, v)
  {
    assert ([x] + s)[1..] == s;
  }

  lemma {:induction false} HavingInsert(s: seq<Region>, x: Region, key: Region -> real, other: Region -> real, v: real)
    requires Sorted(s, key)
    ensures Having(Insert(s, x, key), other, v) ==
      if other(x) == v then Insert(Having(s, other, v), x, key) else Having(s, other, v)
  {
    if s == [] || key(x) <= key(s[0]) {
      HavingCons(x, s, other, v);
      InsertFirst(Having(s, other, v), x, key);
    } else {
      var y, rest := s[0], s[1..];
      assert s == [y] + rest;
      HavingInsert(rest, x, key, other, v);
      HavingCons(y, rest, other, v);
      HavingCons(y, Insert(rest, x, key), other, v);
    }
  }

  lemma InsertFirst(s: seq<Region>, x: Region, key: Region -> real)
    requires forall y :: y in s ==> key(x) <= key(y)
    ensures Insert(s, x, key) == [x] + s
  {
  }

  /** Sorting by one key keeps the elements of one value of another key together, sorted among themselves. */
  lemma {:induction false} HavingSort(s: seq<Region>, key: Region -> real, other: Region -> real, v: real)
    ensures Having(SortBy(s, key), other, v) == SortBy(Having(s, other, v), key)
  {
    if s != [] {
      var x, rest := s[0], s[1..];
      assert s == [x] + rest;
      HavingSort(rest, key, other, v);
      SortSorts(rest, key);
      HavingInsert(SortBy(rest, key), x, key, other, v);
      HavingCons(x, rest, other, v);
    }
  }

  /** Elements with equal keys keep their order. */
  lemma SortStable(s: seq<Region>, key: Region -> real, v: real)
    ensures Having(SortBy(s, key), key, v) == Having(s, key, v)
  {
    HavingSort(s, key, key, v);
    var h := Having(s, key, v);
    forall i | 0 <= i < |h| ensures key(h[i]) == v {
      assert h[i] in h;
    }
    SortOfSorted(h, key);
  }

  /** A sorted sequence is determined by its elements of each key. */
  lemma {:induction false} SortedUnique(a: seq<Region>, b: seq<Region>, key: Region -> real)
    requires Sorted(a, key) && Sorted(b, key)
    requires forall v :: Having(a, key, v) == Having(b, key, v)
    ensures a == b
    decreases |a|
  {
    SameMembers(a, b, key);
    FirstIsMember(a);
    FirstIsMember(b);
    if a != [] {
      SameHead(a, b, key);
      forall v ensures Having(a[1..], key, v) == Having(b[1..], key, v) {
        HavingCons(a[0], a[1..], key, v);
        HavingCons(b[0], b[1..], key, v);
        assert a == [a[0]] + a[1..] && b == [b[0]] + b[1..];
        if key(a[0]) == v {
          TailsEqual([a[0]], Having(a[1..], key, v), Having(b[1..], key, v));
        }
      }
      SortedUnique(a[1..], b[1..], key);
      assert a == [a[0]] + a[1..] && b == [b[0]] + b[1..];
    }
  }

  lemma FirstIsMember(s: seq<Region>)
    ensures s != [] ==> s[0] in s
  {
  }

  lemma SameMembers(a: seq<Region>, b: seq<Region>, key: Region -> real)
    requires forall v :: Having(a, key, v) == Having(b, key, v)
    ensures forall x :: x in a <==> x in b
  {
    forall x ensures x in a <==> x in b {
      assert x in a <==> x in Having(a, key, key(x));
      assert x in b <==> x in Having(b, key, key(x));
    }
  }

  lemma TailsEqual(p: seq<Region>, a: seq<Region>, b: seq<Region>)
    requires p + a == p + b
    ensures a == b
  {
    assert (p + a)[|p|..] == a && (p + b)[|p|..] == b;
  }

  lemma SameHead(a: seq<Region>, b: seq<Region>, key: Region -> real)
    requires Sorted(a, key) && Sorted(b, key) && a != [] && b != []
    requires a[0] in b && b[0] in a
    requires forall v :: Having(a, key, v) == Having(b, key, v)
    ensures a[0] == b[0]
  {
    HavingCons(a[0], a[1..], key, key(a[0]));
    HavingCons(b[0], b[1..], key, key(b[0]));
    assert a == [a[0]] + a[1..] && b == [b[0]] + b[1..];
    assert Having(a, key, key(a[0])) == Having(b, key, key(a[0]));
  }

  /** `x` stands before `y`. */
  predicate Before(s: seq<Region>, x: Region, y: Region) {
    s != [] && ((s[0] == x && y in s[1..]) || Before(s[1..], x, y))
  }

  lemma {:induction false} BeforeAt(s: seq<Region>, i: nat, j: nat)
    requires i < j < |s|
    ensures Before(s, s[i], s[j])
  {
    if i > 0 {
      BeforeAt(s[1..], i - 1, j - 1);
    } else {
      assert s[1..][j - 1] == s[j];
    }
  }

  lemma {:induction false} BeforeIndices(s: seq<Region>, x: Region, y: Region) returns (i: nat, j: nat)
    requires Before(s, x, y)
    ensures i < j < |s| && s[i] == x && s[j] == y
  {
    if s[0] == x && y in s[1..] {
      i := 0;
      var k :| 0 <= k < |s[1..]| && s[1..][k] == y;
      j := k + 1;
    } else {
      i, j := BeforeIndices(s[1..], x, y);
      i, j := i + 1, j + 1;
    }
  }

  lemma {:induction false} BeforeHaving(s: seq<Region>, key: Region -> real, v: real, x: Region, y: Region)
    requires key(x) == v && key(y) == v
    ensures Before(s, x, y) <==> Before(Having(s, key, v), x, y)
  {
    if s != [] {
      BeforeHaving(s[1..], key, v, x, y);
    }
  }

  lemma BeforeSnoc(s: seq<Region>, z: Region, x: Region)
    requires x in s
    ensures Before(s + [z], x, z)
  {
    var i :| 0 <= i < |s| && s[i] == x;
    BeforeAt(s + [z], i, |s|);
  }

  lemma BeforeLonger(s: seq<Region>, z: Region, x: Region, y: Region)
    ensures Before(s, x, y) ==> Before(s + [z], x, y)
    ensures Before(s + [z], x, y) ==> Before(s, x, y) || (y == z && x in s)
  {
    if Before(s, x, y) {
      var i, j := BeforeIndices(s, x, y);
      BeforeAt(s + [z], i, j);
    }
    if Before(s + [z], x, y) {
      var i, j := BeforeIndices(s + [z], x, y);
      if j < |s| {
        BeforeAt(s, i, j);
      }
    }
  }

  /** Merging */

  predicate Covered(kept: seq<Region>, r: Region) {
    exists k :: k in kept && Contains(k.box, r.box)
  }

  function Prune(ordered: seq<Region>): seq<Region> {
    if ordered == [] then []
    else
      var kept, r := Prune(ordered[..|ordered| - 1]), ordered[|ordered| - 1];
      if Covered(kept, r) then kept else kept + [r]
  }

  function Merge(regions: seq<Region>): seq<Region> {
    SortBy(Prune(SortBy(regions, ByConfidence)), ByOrder)
  }

  method MergeOverlapping(regions: seq<Region>) returns (merged: seq<Region>)
    ensures merged == Merge(regions)
  {
    var ordered := SortBy(regions, ByConfidence);
    var kept: seq<Region> := [];
    var i := 0;
    while i < |ordered|
      invariant i <= |ordered| && kept == Prune(ordered[..i])
    {
      assert ordered[..i + 1][..i] == ordered[..i];
      if !Covered(kept, ordered[i]) {
        kept := kept + [ordered[i]];
      }
      i := i + 1;
    }
    assert ordered[..i] == ordered;
    merged := SortBy(kept, ByOrder);
  }

  ghost predicate NoneInside(s: seq<Region>) {
    forall x, y :: Before(s, x, y) ==> !Contains(x.box, y.box)
  }

  /** A kept region of at least the same confidence contains it. */
  ghost predicate Shadowed(kept: seq<Region>, r: Region) {
    exists k :: k in kept && Contains(k.box, r.box) && k.confidence >= r.confidence
  }

  lemma {:induction false} PruneSelects(s: seq<Region>)
    ensures multiset(Prune(s)) <= multiset(s) && |Prune(s)| <= |s|
    ensures forall x :: x in Prune(s) ==> x in s
    ensures |Prune(s)| == |s| ==> Prune(s) == s
  {
    if s != [] {
      var rest, r := s[..|s| - 1], s[|s| - 1];
      assert s == rest + [r];
      PruneSelects(rest);
    }
  }

  lemma AppendSorted(s: seq<Region>, r: Region, key: Region -> real)
    requires Sorted(s, key) && forall x :: x in s ==> key(x) <= key(r)
    ensures Sorted(s + [r], key)
  {
  }

  lemma PrefixSorted(s: seq<Region>, r: Region, key: Region -> real)
    requires Sorted(s + [r], key)
    ensures Sorted(s, key) && forall x :: x in s ==> key(x) <= key(r)
  {
    forall i, j | 0 <= i < j < |s| ensures key(s[i]) <= key(s[j]) {
      assert (s + [r])[i] == s[i] && (s + [r])[j] == s[j];
    }
    forall x | x in s ensures key(x) <= key(r) {
      var i :| 0 <= i < |s| && s[i] == x;
      assert (s + [r])[i] == x && (s + [r])[|s|] == r;
    }
  }

  lemma {:induction false} PruneSorted(s: seq<Region>, key: Region -> real)
    requires Sorted(s, key)
    ensures Sorted(Prune(s), key)
  {
    hide Sorted, Covered;
    if s == [] {
      assert Prune(s) == s;
    } else {
      var rest, r := s[..|s| - 1], s[|s| - 1];
      assert s == rest + [r];
      PrefixSorted(rest, r, key);
      PruneSorted(rest, key);
      PruneSelects(rest);
      AppendSorted(Prune(rest), r, key);
    }
  }

  lemma {:induction false} PruneApart(s: seq<Region>)
    ensures NoneInside(Prune(s))
  {
    if s != [] {
      var rest, r := s[..|s| - 1], s[|s| - 1];
      PruneApart(rest);
      forall x, y | Before(Prune(rest) + [r], x, y) && !Covered(Prune(rest), r) ensures !Contains(x.box, y.box) {
        BeforeLonger(Prune(rest), r, x, y);
      }
    }
  }

  lemma {:induction false} PruneCovers(s: seq<Region>, r: Region)
    requires Sorted(s, ByConfidence) && r in s
    ensures r in Prune(s) || Shadowed(Prune(s), r)
  {
    var rest, last := s[..|s| - 1], s[|s| - 1];
    assert s == rest + [last];
    if r in rest {
      PruneCovers(rest, r);
      if Shadowed(Prune(rest), r) {
        var k :| k in Prune(rest) && Contains(k.box, r.box) && k.confidence >= r.confidence;
        assert k in Prune(s);
      }
    } else if Covered(Prune(rest), last) {
      var k :| k in Prune(rest) && Contains(k.box, last.box);
      PruneSelects(rest);
      var i :| 0 <= i < |rest| && rest[i] == k;
      assert ByConfidence(s[i]) <= ByConfidence(s[|s| - 1]);
    }
  }

  lemma {:induction false} PruneKeepsAll(s: seq<Region>)
    ensures Prune(s) == s <==> NoneInside(s)
  {
    if s != [] {
      var rest, r := s[..|s| - 1], s[|s| - 1];
      assert s == rest + [r];
      if NoneInside(s) {
        forall x, y | Before(rest, x, y) ensures !Contains(x.box, y.box) {
          BeforeLonger(rest, r, x, y);
        }
        PruneKeepsAll(rest);
        forall x | x in rest ensures !Contains(x.box, r.box) {
          BeforeSnoc(rest, r, x);
        }
      }
    }
    PruneApart(s);
  }

  /** What merging guarantees on every input: nothing is invented, everything dropped lies inside a kept region
      of at least its confidence, no kept region lies inside a kept one of higher confidence, and the result
      is in reading order. */
  lemma MergeSound(regions: seq<Region>)
    ensures Sorted(Merge(regions), ByOrder)
    ensures multiset(Merge(regions)) <= multiset(regions)
    ensures forall r :: r in regions ==> r in Merge(regions) || Shadowed(Merge(regions), r)
    ensures forall x, y :: x in Merge(regions) && y in Merge(regions) && x.confidence > y.confidence ==> !Contains(x.box, y.box)
  {
    hide Prune, SortBy, Contains;
    var ordered := SortBy(regions, ByConfidence);
    var kept := Prune(ordered);
    SortSorts(regions, ByConfidence);
    SortMembers(regions, ByConfidence);
    SortSorts(kept, ByOrder);
    SortMembers(kept, ByOrder);
    PruneSelects(ordered);
    PruneSorted(ordered, ByConfidence);
    PruneApart(ordered);
    forall r | r in regions ensures r in Merge(regions) || Shadowed(Merge(regions), r) {
      PruneCovers(ordered, r);
    }
    forall x, y | x in kept && y in kept && x.confidence > y.confidence ensures !Contains(x.box, y.box) {
      HigherIsBefore(kept, x, y);
    }
  }

  lemma SmallerKeyFirst(s: seq<Region>, key: Region -> real, i: nat, j: nat)
    requires Sorted(s, key) && i < |s| && j < |s| && key(s[i]) < key(s[j])
    ensures i < j
  {
  }

  /** The same guarantees in plain terms, by points: all points of a dropped region lie in one kept region of at
      least its confidence, and a kept region has a point outside every kept one of higher confidence. */
  lemma MergeSoundByPoints(regions: seq<Region>)
    requires forall r :: r in regions ==> r.box.width >= 0.0 && r.box.height >= 0.0
    ensures forall r :: r in Merge(regions) ==> r in regions
    ensures forall i, j :: 0 <= i < j < |Merge(regions)| ==> Merge(regions)[i].order <= Merge(regions)[j].order
    ensures forall r :: r in regions && r !in Merge(regions) ==> exists k ::
      && k in Merge(regions) && k.confidence >= r.confidence
      && forall x, y :: HasPoint(r.box, x, y) ==> HasPoint(k.box, x, y)
    ensures forall k, r :: k in Merge(regions) && r in Merge(regions) && k.confidence > r.confidence ==>
      exists x, y :: HasPoint(r.box, x, y) && !HasPoint(k.box, x, y)
  {
    hide Merge, Contains, HasPoint;
    MergeSound(regions);
    forall r | r in Merge(regions) ensures r in regions {
      assert r in multiset(Merge(regions));
      assert r in multiset(regions);
    }
    forall i, j | 0 <= i < j < |Merge(regions)| ensures Merge(regions)[i].order <= Merge(regions)[j].order {
      assert ByOrder(Merge(regions)[i]) <= ByOrder(Merge(regions)[j]);
    }
    forall r | r in regions && r !in Merge(regions) ensures exists k ::
      && k in Merge(regions) && k.confidence >= r.confidence
      && forall x, y :: HasPoint(r.box, x, y) ==> HasPoint(k.box, x, y)
    {
      var k :| k in Merge(regions) && Contains(k.box, r.box) && k.confidence >= r.confidence;
      ContainedPoints(k.box, r.box);
    }
    forall k, r | k in Merge(regions) && r in Merge(regions) && k.confidence > r.confidence
      ensures exists x, y :: HasPoint(r.box, x, y) && !HasPoint(k.box, x, y)
    {
      ContainsIff(k.box, r.box);
    }
  }

  lemma HigherIsBefore(s: seq<Region>, x: Region, y: Region)
    requires Sorted(s, ByConfidence) && x in s && y in s && x.confidence > y.confidence
    ensures Before(s, x, y)
  {
    var i :| 0 <= i < |s| && s[i] == x;
    var j :| 0 <= j < |s| && s[j] == y;
    SmallerKeyFirst(s, ByConfidence, i, j);
    BeforeAt(s, i, j);
  }

  /** Merging again */

  /** Of two equally confident regions, the first does not contain the second. */
  ghost predicate TiesClear(s: seq<Region>) {
    forall x, y :: Before(s, x, y) && x.confidence == y.confidence ==> !Contains(x.box, y.box)
  }

  lemma BeforeSorted(s: seq<Region>, x: Region, y: Region)
    requires Sorted(s, ByConfidence) && Before(s, x, y)
    ensures x in s && y in s && x.confidence >= y.confidence
  {
    var i, j := BeforeIndices(s, x, y);
    assert ByConfidence(s[i]) <= ByConfidence(s[j]);
  }

  lemma BeforeByConfidence(s: seq<Region>, x: Region, y: Region)
    requires x.confidence == y.confidence
    ensures Before(SortBy(s, ByConfidence), x, y) <==> Before(s, x, y)
  {
    var v := ByConfidence(x);
    BeforeHaving(s, ByConfidence, v, x, y);
    BeforeHaving(SortBy(s, ByConfidence), ByConfidence, v, x, y);
    SortStable(s, ByConfidence, v);
  }

  lemma TiesDecide(s: seq<Region>)
    requires forall x, y :: x in s && y in s && x.confidence > y.confidence ==> !Contains(x.box, y.box)
    ensures NoneInside(SortBy(s, ByConfidence)) <==> TiesClear(s)
  {
    hide SortBy, Before, Contains;
    var sorted := SortBy(s, ByConfidence);
    SortSorts(s, ByConfidence);
    SortMembers(s, ByConfidence);
    forall x: Region, y: Region | x.confidence == y.confidence ensures Before(sorted, x, y) <==> Before(s, x, y) {
      BeforeByConfidence(s, x, y);
    }
    forall x, y | Before(sorted, x, y) ensures x in s && y in s && x.confidence >= y.confidence {
      BeforeSorted(sorted, x, y);
    }
  }

  lemma {:induction false} HavingSorted(s: seq<Region>, key: Region -> real, other: Region -> real, v: real)
    requires Sorted(s, key)
    ensures Sorted(Having(s, other, v), key)
  {
    if s != [] {
      HavingSorted(s[1..], key, other, v);
      var h := Having(s[1..], other, v);
      forall i | 0 <= i < |h| ensures key(s[0]) <= key(h[i]) {
        assert h[i] in h;
        assert h[i] in s[1..];
      }
    }
  }

  /** Sorting a merged list by confidence and back by order gives it back. */
  lemma SortBack(kept: seq<Region>)
    requires Sorted(kept, ByConfidence)
    ensures
      var m := SortBy(kept, ByOrder);
      SortBy(SortBy(m, ByConfidence), ByOrder) == m
  {
    hide SortBy, Having, Sorted;
    var m := SortBy(kept, ByOrder);
    var p := SortBy(m, ByConfidence);
    SortSorts(kept, ByOrder);
    SortSorts(p, ByOrder);
    forall v ensures Having(SortBy(p, ByOrder), ByOrder, v) == Having(m, ByOrder, v) {
      SortStable(p, ByOrder, v);
      HavingSort(m, ByConfidence, ByOrder, v);
      SortStable(kept, ByOrder, v);
      HavingSorted(kept, ByConfidence, ByOrder, v);
      SortOfSorted(Having(m, ByOrder, v), ByConfidence);
    }
    SortedUnique(SortBy(p, ByOrder), m, ByOrder);
  }

  lemma SameLength(s: seq<Region>, key: Region -> real)
    ensures |SortBy(s, key)| == |s|
  {
    SortSorts(s, key);
    assert |multiset(SortBy(s, key))| == |SortBy(s, key)| && |multiset(s)| == |s|;
  }

  /** Merging again changes nothing exactly when no kept region contains an equally confident one after it. */
  lemma MergeAgainIff(regions: seq<Region>)
    ensures Merge(Merge(regions)) == Merge(regions) <==> TiesClear(Merge(regions))
  {
    hide SortBy, Prune, Sorted, NoneInside, TiesClear, Contains, Shadowed;
    var kept := Prune(SortBy(regions, ByConfidence));
    var m := Merge(regions);
    var p := SortBy(m, ByConfidence);
    SortSorts(regions, ByConfidence);
    PruneSorted(SortBy(regions, ByConfidence), ByConfidence);
    MergeSound(regions);
    TiesDecide(m);
    PruneKeepsAll(p);
    PruneSelects(p);
    SortBack(kept);
    SameLength(m, ByConfidence);
    SameLength(Prune(p), ByOrder);
  }
}
