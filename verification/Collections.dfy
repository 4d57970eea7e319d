/** Optional values, sequences without repeats, set sizes, and iteration over sets. */
module Collections {
  datatype Option<T> = None | Some(value: T)

  ghost predicate NoDup<T>(s: seq<T>) {
    forall i, j :: 0 <= i < j < |s| ==> s[i] != s[j]
  }

  function IndexOf<T(==)>(s: seq<T>, x: T): (i: nat)
    ensures i <= |s|
    ensures x in s ==> i < |s| && s[i] == x
    ensures x !in s ==> i == |s|
  {
    if s == [] then 0 else if s[0] == x then 0 else 1 + IndexOf(s[1..], x)
  }

  lemma IndexOfAt<T>(s: seq<T>, i: nat)
    requires NoDup(s) && i < |s|
    ensures IndexOf(s, s[i]) == i
  {
  }

  lemma SubsetSmaller<T>(a: set<T>, b: set<T>, x: T)
    requires a <= b && x in b && x !in a
    ensures |a| < |b|
  {
    SubsetCard(a, b - {x});
  }

  lemma {:induction false} SubsetCard<T>(a: set<T>, b: set<T>)
    requires a <= b
    ensures |a| <= |b|
    decreases b
  {
    if a == {} {
    } else {
      var x :| x in a;
      SubsetCard(a - {x}, b - {x});
    }
  }

  lemma {:induction false} NoDupLength<T>(s: seq<T>, items: set<T>)
    requires NoDup(s) && forall x :: x in s ==> x in items
    ensures |s| <= |items|
    ensures |s| == |items| ==> forall x :: x in items ==> x in s
    decreases |s|
  {
    if s != [] {
      var rest := s[1..];
      assert s == [s[0]] + rest;
      forall x | x in rest ensures x in items - {s[0]} {
        var i :| 0 <= i < |rest| && rest[i] == x;
        assert s[i + 1] == x;
      }
      NoDupLength(rest, items - {s[0]});
    }
  }

  lemma {:induction false} NoDupCard<T>(s: seq<T>, items: set<T>)
    requires NoDup(s) && forall x :: x in items ==> x in s
    ensures |items| <= |s|
    decreases |s|
  {
    if s == [] {
      assert items == {};
    } else {
      forall x | x in items - {s[0]} ensures x in s[1..] {
        assert s == [s[0]] + s[1..];
      }
      NoDupCard(s[1..], items - {s[0]});
    }
  }

  /** Iterating a set: Python fixes no order, so any enumeration may come out. */
  method Enumerate<T(==)>(items: set<T>) returns (s: seq<T>)
    ensures NoDup(s)
    ensures forall x :: x in s <==> x in items
  {
    s := [];
    var todo := items;
    while todo != {}
      invariant todo <= items && NoDup(s)
      invariant forall x :: x in s <==> x in items - todo
      decreases todo
    {
      var x :| x in todo;
      assert x !in s;
      s := s + [x];
      todo := todo - {x};
    }
  }
}
