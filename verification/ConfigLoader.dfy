/** The loops of backend/lexmind/config/config_validator.py and config_loader.py over configuration
    trees: deep merge, flattening to dotted keys, and merging sources by precedence. */
module ConfigLoader {
  import opened Collections
  import opened ConfigTree

  method DeepMerge(base: Mapping, over: Mapping) returns (result: Mapping)
    ensures result == Merged(base, over)
    decreases Node(over)
  {
    result := base;
    var todo := over.Keys;
    while todo != {}
      invariant todo <= over.Keys
      invariant result.Keys == base.Keys + (over.Keys - todo)
      invariant forall k :: k in result ==> result[k] == if k in todo || k !in over then base[k] else Merged(base, over)[k]
      decreases todo
    {
      var key :| key in todo;
      if key in result && result[key].Node? && over[key].Node? {
        var merged := DeepMerge(result[key].children, over[key].children);
        result := result[key := Node(merged)];
      } else {
        result := result[key := over[key]];
      }
      todo := todo - {key};
    }
  }

  /** Flattening */

  function Full(prefix: string, key: string): string {
    if prefix == "" then key else prefix + "." + key
  }

  function Dotted(prefix: string, p: Path): string
    decreases |p|
  {
    if p == [] then prefix else Dotted(Full(prefix, p[0]), p[1..])
  }

  /** Each scalar path has an entry, and each entry is the scalar of a path with that name. */
  ghost predicate IsFlat(prefix: string, m: Mapping, out: map<string, Value>) {
    && (forall p :: LeafAt(m, p).Some? ==> Dotted(prefix, p) in out)
    && (forall s :: s in out ==> exists p :: LeafAt(m, p) == Some(out[s]) && Dotted(prefix, p) == s)
  }

  function Restrict(m: Mapping, keys: set<string>): Mapping {
    map k | k in m && k in keys :: m[k]
  }

  method Flatten(prefix: string, data: Mapping) returns (out: map<string, Value>)
    ensures IsFlat(prefix, data, out)
    decreases Node(data)
  {
    hide IsFlat;
    out := map[];
    EmptyFlat(prefix);
    var todo := data.Keys;
    ghost var seen: Mapping := map[];
    while todo != {}
      invariant todo <= data.Keys && seen == Restrict(data, data.Keys - todo)
      invariant IsFlat(prefix, seen, out)
      decreases todo
    {
      var key :| key in todo;
      var full := Full(prefix, key);
      match data[key] {
        case Node(children) =>
          var inner := Flatten(full, children);
          FlatNode(prefix, seen, out, key, children, inner);
          out := out + inner;
        case Leaf(value) =>
          FlatLeaf(prefix, seen, out, key, value);
          out := out[full := value];
      }
      todo := todo - {key};
      seen := seen[key := data[key]];
    }
    assert seen == data;
  }

  lemma EmptyFlat(prefix: string)
    ensures IsFlat(prefix, map[], map[])
  {
  }

  lemma FlatLeaf(prefix: string, m: Mapping, out: map<string, Value>, key: string, value: Value)
    requires IsFlat(prefix, m, out) && key !in m
    ensures IsFlat(prefix, m[key := Leaf(value)], out[Full(prefix, key) := value])
  {
    var m', out' := m[key := Leaf(value)], out[Full(prefix, key) := value];
    forall p | LeafAt(m', p).Some? ensures Dotted(prefix, p) in out' {
      if p[0] == key {
        assert p == [key];
      } else {
        assert LeafAt(m, p) == LeafAt(m', p);
      }
    }
    forall s | s in out' ensures exists p :: LeafAt(m', p) == Some(out'[s]) && Dotted(prefix, p) == s {
      if s == Full(prefix, key) {
        assert LeafAt(m', [key]) == Some(value) && Dotted(prefix, [key]) == s;
      } else {
        var p :| LeafAt(m, p) == Some(out[s]) && Dotted(prefix, p) == s;
        assert LeafAt(m', p) == LeafAt(m, p);
      }
    }
  }

  lemma FlatNode(prefix: string, m: Mapping, out: map<string, Value>, key: string, children: Mapping,
      inner: map<string, Value>)
    requires IsFlat(prefix, m, out) && key !in m && IsFlat(Full(prefix, key), children, inner)
    ensures IsFlat(prefix, m[key := Node(children)], out + inner)
  {
    var m', out' := m[key := Node(children)], out + inner;
    forall p | LeafAt(m', p).Some? ensures Dotted(prefix, p) in out' {
      if p[0] == key {
        assert LeafAt(children, p[1..]).Some?;
        assert Dotted(prefix, p) == Dotted(Full(prefix, key), p[1..]);
      } else {
        assert LeafAt(m, p) == LeafAt(m', p);
      }
    }
    forall s | s in out' ensures exists p :: LeafAt(m', p) == Some(out'[s]) && Dotted(prefix, p) == s {
      if s in inner {
        var q :| LeafAt(children, q) == Some(inner[s]) && Dotted(Full(prefix, key), q) == s;
        var p := [key] + q;
        assert p[1..] == q;
        assert LeafAt(m', p) == Some(out'[s]) && Dotted(prefix, p) == s;
      } else {
        var p :| LeafAt(m, p) == Some(out[s]) && Dotted(prefix, p) == s;
        assert LeafAt(m', p) == LeafAt(m, p);
      }
    }
  }

  predicate GoodKey(k: string) {
    k != "" && '.' !in k
  }

  predicate GoodPath(p: Path) {
    forall i :: 0 <= i < |p| ==> GoodKey(p[i])
  }

  predicate GoodKeys(m: Mapping)
    decreases Node(m)
  {
    forall k :: k in m ==> GoodKey(k) && (m[k].Node? ==> GoodKeys(m[k].children))
  }

  lemma {:induction false} LeafPathsGood(m: Mapping, p: Path)
    requires GoodKeys(m) && LeafAt(m, p).Some?
    ensures p != [] && GoodPath(p)
    decreases |p|
  {
    if |p| > 1 {
      LeafPathsGood(m[p[0]].children, p[1..]);
      forall i | 0 <= i < |p| ensures GoodKey(p[i]) {
        if i > 0 { assert p[1..][i - 1] == p[i]; }
      }
    }
  }

  lemma DotPosition(a: string, b: string, s: string)
    requires '.' !in a && '.' !in b
    requires a + "." <= s && b + "." <= s
    ensures a == b
  {
    assert (a + ".")[|a|] == '.' && (b + ".")[|b|] == '.';
    assert forall i :: 0 <= i < |a| ==> (a + ".")[i] == a[i];
    assert forall i :: 0 <= i < |b| ==> (b + ".")[i] == b[i];
    assert s[|a|] == '.' && s[|b|] == '.';
    assert forall i :: 0 <= i < |a| ==> s[i] == a[i];
    assert forall i :: 0 <= i < |b| ==> s[i] == b[i];
    assert a == s[..|a|] && b == s[..|b|];
  }

  lemma {:induction false} DottedSplit(prefix: string, p: Path)
    requires prefix != ""
    ensures Dotted(prefix, p) == prefix + Tail(p)
    decreases |p|
  {
    if p != [] {
      DottedSplit(prefix + "." + p[0], p[1..]);
    }
  }

  function Tail(p: Path): string {
    if p == [] then "" else "." + p[0] + Tail(p[1..])
  }

  lemma DotMeansLonger(p: Path)
    requires GoodPath(p) && p != []
    ensures '.' in Dotted("", p) <==> |p| > 1
  {
    DottedSplit(p[0], p[1..]);
    if |p| > 1 {
      assert (p[0] + Tail(p[1..]))[|p[0]|] == '.';
    } else {
      assert p[0] + "" == p[0];
    }
  }

  lemma DottedLonger(p: Path)
    requires GoodPath(p) && |p| > 1
    ensures p[0] + "." <= Dotted("", p) && Dotted("", p[1..]) == Dotted("", p)[|p[0]| + 1..]
  {
    DottedSplit(p[0], p[1..]);
    TailName(p[1..]);
    assert Dotted("", p) == (p[0] + ".") + Dotted("", p[1..]);
  }

  /** Non-empty keys without dots make dotted names unambiguous. */
  lemma {:induction false} DottedInjective(p: Path, q: Path)
    requires GoodPath(p) && GoodPath(q) && p != [] && q != []
    requires Dotted("", p) == Dotted("", q)
    ensures p == q
    decreases |p|
  {
    DotMeansLonger(p);
    DotMeansLonger(q);
    if |p| == 1 {
      assert p == [p[0]] && q == [q[0]];
    } else {
      hide Dotted;
      DottedLonger(p);
      DottedLonger(q);
      DotPosition(p[0], q[0], Dotted("", p));
      DottedInjective(p[1..], q[1..]);
      assert p == [p[0]] + p[1..] && q == [q[0]] + q[1..];
    }
  }

  lemma TailName(p: Path)
    requires p != [] && p[0] != ""
    ensures Tail(p) == "." + Dotted("", p)
  {
    DottedSplit(p[0], p[1..]);
  }

  function Entry(flat: map<string, Value>, name: string): Option<Value> {
    if name in flat then Some(flat[name]) else None
  }

  /** With non-empty dot-free keys, the flat map is the tree's scalars under their dotted names. */
  lemma FlatIsLeaves(m: Mapping, flat: map<string, Value>, p: Path)
    requires GoodKeys(m) && IsFlat("", m, flat) && p != [] && GoodPath(p)
    ensures Entry(flat, Dotted("", p)) == LeafAt(m, p)
  {
    var s := Dotted("", p);
    if s in flat {
      var q :| LeafAt(m, q) == Some(flat[s]) && Dotted("", q) == s;
      LeafPathsGood(m, q);
      DottedInjective(p, q);
    }
  }

  lemma {:induction false} MergedGoodKeys(base: Mapping, over: Mapping)
    requires GoodKeys(base) && GoodKeys(over)
    ensures GoodKeys(Merged(base, over))
    decreases Node(over)
  {
    var m := Merged(base, over);
    forall k | k in m ensures GoodKey(k) && (m[k].Node? ==> GoodKeys(m[k].children)) {
      if k in base && k in over && base[k].Node? && over[k].Node? {
        MergedGoodKeys(base[k].children, over[k].children);
      }
    }
  }

  /** Flattening a merged tree gives the override of the flat maps: the same law, name by name. */
  lemma FlattenOfMerged(base: Mapping, over: Mapping, flatBase: map<string, Value>, flatOver: map<string, Value>,
      flat: map<string, Value>, p: Path)
    requires GoodKeys(base) && GoodKeys(over) && p != [] && GoodPath(p)
    requires IsFlat("", base, flatBase) && IsFlat("", over, flatOver) && IsFlat("", Merged(base, over), flat)
    ensures
      var name := Dotted("", p);
      Entry(flat, name) ==
        if name in flatOver then Entry(flatOver, name)
        else if Shadows(over, p) then None
        else Entry(flatBase, name)
  {
    MergedGoodKeys(base, over);
    FlatIsLeaves(base, flatBase, p);
    FlatIsLeaves(over, flatOver, p);
    FlatIsLeaves(Merged(base, over), flat, p);
    LeafOfMerged(base, over, p);
  }

  /** The law on flat maps alone */

  /** Somewhere in the flat map is the name itself, a dotted prefix of it or a dotted extension. */
  predicate FlatShadows(flatOver: map<string, Value>, name: string) {
    name in flatOver || exists s :: s in flatOver && (s + "." <= name || name + "." <= s)
  }

  predicate NoEmptyNodes(m: Mapping)
    decreases Node(m)
  {
    forall k :: k in m && m[k].Node? ==> m[k].children != map[] && NoEmptyNodes(m[k].children)
  }

  /** The path leads to an empty mapping. */
  predicate EmptyAt(m: Mapping, p: Path)
    decreases |p|
  {
    && p != [] && p[0] in m && m[p[0]].Node?
    && if |p| == 1 then m[p[0]].children == map[] else EmptyAt(m[p[0]].children, p[1..])
  }

  predicate IsPrefix(p: Path, q: Path) {
    |p| < |q| && p == q[..|p|]
  }

  lemma DottedName(p: Path)
    requires GoodPath(p) && p != []
    ensures Dotted("", p) == if |p| == 1 then p[0] else p[0] + "." + Dotted("", p[1..])
  {
    DottedSplit(p[0], p[1..]);
    if |p| > 1 {
      TailName(p[1..]);
    }
  }

  /** Dotted prefixes of a name are the names of prefixes of its path. */
  lemma {:induction false} DottedPrefixIff(p: Path, q: Path)
    requires GoodPath(p) && GoodPath(q) && p != [] && q != []
    ensures Dotted("", p) + "." <= Dotted("", q) <==> IsPrefix(p, q)
    decreases |p|
  {
    hide Dotted;
    DottedName(p);
    DottedName(q);
    DotMeansLonger(q);
    var s, t := Dotted("", p), Dotted("", q);
    if |q| == 1 {
      DotInside(s, t);
    } else {
      assert s + "." <= t ==> p[0] + "." <= s + "." <= t;
      if p[0] + "." <= t {
        DotPosition(p[0], q[0], t);
      }
      if p[0] == q[0] && |p| > 1 {
        DottedPrefixIff(p[1..], q[1..]);
        PrefixBelow(p[0] + ".", Dotted("", p[1..]) + ".", Dotted("", q[1..]));
        assert (p[0] + ".") + (Dotted("", p[1..]) + ".") == s + ".";
        assert (p[0] + ".") + Dotted("", q[1..]) == t;
        assert IsPrefix(p, q) <==> IsPrefix(p[1..], q[1..]) by {
          assert p == [p[0]] + p[1..] && q == [q[0]] + q[1..];
          assert |p| < |q| ==> q[..|p|] == [q[0]] + q[1..][..|p| - 1];
        }
      } else if p[0] == q[0] {
        assert p == [p[0]] == q[..1];
        assert s + "." <= t;
      } else {
        PrefixHead(p, q);
      }
    }
  }

  lemma DotInside(s: string, t: string)
    ensures s + "." <= t ==> '.' in t
  {
    assert s + "." <= t ==> t[|s|] == (s + ".")[|s|];
  }

  lemma PrefixHead(p: Path, q: Path)
    requires p != [] && q != []
    ensures IsPrefix(p, q) ==> p[0] == q[0]
  {
  }

  lemma PrefixBelow(a: string, s: string, t: string)
    ensures a + s <= a + t <==> s <= t
  {
    if s <= t {
      assert (a + t)[..|a + s|] == a + t[..|s|];
    }
    if a + s <= a + t {
      assert s == (a + s)[|a|..] == (a + t)[..|a + s|][|a|..] == t[..|s|];
    }
  }

  lemma {:induction false} PrefixOfLeafBound(m: Mapping, p: Path, q: Path)
    requires p != [] && IsPrefix(p, q) && LeafAt(m, q).Some?
    ensures Bound(m, p)
    decreases |p|
  {
    if |p| > 1 {
      assert p[1..] == q[1..][..|p| - 1];
      PrefixOfLeafBound(m[p[0]].children, p[1..], q[1..]);
    }
  }

  lemma {:induction false} SomeLeaf(m: Mapping) returns (q: Path)
    requires m != map[] && NoEmptyNodes(m)
    ensures q != [] && LeafAt(m, q).Some?
    decreases Node(m)
  {
    var k :| k in m;
    if m[k].Leaf? {
      q := [k];
    } else {
      q := SomeLeaf(m[k].children);
      assert ([k] + q)[1..] == q;
      q := [k] + q;
    }
  }

  lemma {:induction false} BoundHasLeaf(m: Mapping, p: Path) returns (q: Path)
    requires NoEmptyNodes(m) && Bound(m, p)
    ensures LeafAt(m, q).Some? && (q == p || IsPrefix(p, q))
    decreases |p|
  {
    if m[p[0]].Leaf? {
      q := p;
    } else {
      if |p| == 1 {
        q := SomeLeaf(m[p[0]].children);
      } else {
        q := BoundHasLeaf(m[p[0]].children, p[1..]);
      }
      assert ([p[0]] + q)[1..] == q;
      assert p == [p[0]] + p[1..];
      q := [p[0]] + q;
    }
  }

  lemma {:induction false} EmptyAtBlocks(m: Mapping, p: Path, q: Path)
    requires EmptyAt(m, p) && (q == p || IsPrefix(p, q) || IsPrefix(q, p))
    ensures LeafAt(m, q).None? && Bound(m, p)
    decreases |p|
  {
    if |p| > 1 {
      if |q| > 1 {
        assert p == [p[0]] + p[1..] && q == [q[0]] + q[1..];
        assert IsPrefix(p, q) ==> p[1..] == q[1..][..|p| - 1];
        assert IsPrefix(q, p) ==> q[1..] == p[1..][..|q| - 1];
        EmptyAtBlocks(m[p[0]].children, p[1..], q[1..]);
      } else {
        EmptyAtBlocks(m[p[0]].children, p[1..], p[1..]);
      }
    }
  }

  lemma {:induction false} EmptyNodeExists(m: Mapping) returns (p: Path)
    requires GoodKeys(m) && !NoEmptyNodes(m)
    ensures EmptyAt(m, p) && GoodPath(p)
    decreases Node(m)
  {
    var k :| k in m && m[k].Node? && (m[k].children == map[] || !NoEmptyNodes(m[k].children));
    if m[k].children == map[] {
      p := [k];
    } else {
      p := EmptyNodeExists(m[k].children);
      assert ([k] + p)[1..] == p;
      p := [k] + p;
    }
  }

  lemma FlatShadowsShadow(over: Mapping, flatOver: map<string, Value>, p: Path)
    requires GoodKeys(over) && IsFlat("", over, flatOver) && p != [] && GoodPath(p)
    ensures FlatShadows(flatOver, Dotted("", p)) ==> exists q :: LeafAt(over, q).Some? && (q == p || IsPrefix(p, q) || IsPrefix(q, p))
    ensures FlatShadows(flatOver, Dotted("", p)) ==> Shadows(over, p)
  {
    hide Dotted;
    var name := Dotted("", p);
    if FlatShadows(flatOver, name) {
      var s :| s in flatOver && (s == name || s + "." <= name || name + "." <= s);
      var q :| LeafAt(over, q) == Some(flatOver[s]) && Dotted("", q) == s;
      LeafPathsGood(over, q);
      DottedPrefixIff(p, q);
      DottedPrefixIff(q, p);
      if s == name {
        DottedInjective(p, q);
        LeafNotShadowed(over, p);
      } else if IsPrefix(p, q) {
        PrefixOfLeafBound(over, p, q);
      } else {
        assert LeafAt(over, p[..|q|]).Some?;
      }
    }
  }

  /** The flat override alone tells what it shadows exactly when the override holds no empty mapping. */
  lemma ShadowsVisibleIff(over: Mapping, flatOver: map<string, Value>)
    requires GoodKeys(over) && IsFlat("", over, flatOver)
    ensures
      NoEmptyNodes(over) <==>
      forall p :: p != [] && GoodPath(p) ==> (Shadows(over, p) <==> FlatShadows(flatOver, Dotted("", p)))
  {
    hide Dotted, Shadows, IsFlat, FlatShadows;
    if NoEmptyNodes(over) {
      forall p | p != [] && GoodPath(p) ensures Shadows(over, p) <==> FlatShadows(flatOver, Dotted("", p)) {
        FlatShadowsShadow(over, flatOver, p);
        ShadowsFlatShadow(over, flatOver, p);
      }
    } else {
      var p := EmptyNodeExists(over);
      EmptyAtBlocks(over, p, p);
      EmptyShadows(over, p);
      FlatShadowsShadow(over, flatOver, p);
      forall q | q == p || IsPrefix(p, q) || IsPrefix(q, p) ensures LeafAt(over, q).None? {
        EmptyAtBlocks(over, p, q);
      }
    }
  }

  lemma EmptyShadows(over: Mapping, p: Path)
    requires Bound(over, p)
    ensures Shadows(over, p)
  {
  }

  lemma ShadowsFlatShadow(over: Mapping, flatOver: map<string, Value>, p: Path)
    requires GoodKeys(over) && NoEmptyNodes(over) && IsFlat("", over, flatOver) && p != [] && GoodPath(p)
    ensures Shadows(over, p) ==> FlatShadows(flatOver, Dotted("", p))
  {
    hide Dotted;
    if Bound(over, p) {
      var q := BoundHasLeaf(over, p);
      LeafPathsGood(over, q);
      DottedPrefixIff(p, q);
      assert Dotted("", q) in flatOver;
    } else if Shadows(over, p) {
      var n :| 1 <= n < |p| && LeafAt(over, p[..n]).Some?;
      DottedPrefixIff(p[..n], p);
      assert Dotted("", p[..n]) in flatOver;
    }
  }

  /** So for such overrides flattening commutes with overriding on the flat maps alone. */
  lemma FlattenOfMergedFlat(base: Mapping, over: Mapping, flatBase: map<string, Value>, flatOver: map<string, Value>,
      flat: map<string, Value>, p: Path)
    requires GoodKeys(base) && GoodKeys(over) && NoEmptyNodes(over) && p != [] && GoodPath(p)
    requires IsFlat("", base, flatBase) && IsFlat("", over, flatOver) && IsFlat("", Merged(base, over), flat)
    ensures
      var name := Dotted("", p);
      Entry(flat, name) ==
        if name in flatOver then Entry(flatOver, name)
        else if FlatShadows(flatOver, name) then None
        else Entry(flatBase, name)
  {
    hide Dotted, Shadows, IsFlat, FlatShadows;
    FlattenOfMerged(base, over, flatBase, flatOver, flat, p);
    ShadowsVisibleIff(over, flatOver);
  }

  /** Two different paths of scalars under the same dotted name: the flat map keeps one of them. */
  ghost predicate Collide(m: Mapping, p: Path, q: Path) {
    p != q && LeafAt(m, p).Some? && LeafAt(m, q).Some? && Dotted("", p) == Dotted("", q)
  }

  lemma OneKeyLeaves(m: Mapping, k: string, v: Value, o: string, i: string, w: Value)
    requires m == map[k := Leaf(v), o := Node(map[i := Leaf(w)])] && k != o
    ensures forall p :: LeafAt(m, p).Some? <==> p == [k] || p == [o, i]
  {
    forall p | LeafAt(m, p).Some? ensures p == [k] || p == [o, i] {
      if p[0] == k {
        assert p == [k];
      } else {
        assert LeafAt(m[o].children, p[1..]).Some?;
        assert p == [p[0]] + p[1..] && p[1..] == [p[1]];
      }
    }
    assert [o, i][1..] == [i];
  }

  lemma NestedCollides(a: string, b: string, v: Value, w: Value)
    requires a != ""
    ensures Collide(map[a + "." + b := Leaf(v), a := Node(map[b := Leaf(w)])], [a + "." + b], [a, b])
    ensures Dotted("", [a + "." + b]) == Dotted("", [a, b]) == a + "." + b
  {
    var k := a + "." + b;
    var m: Mapping := map[k := Leaf(v), a := Node(map[b := Leaf(w)])];
    assert |k| > |a|;
    OneKeyLeaves(m, k, v, a, b, w);
    assert [a, b][1..] == [b] && [b][1..] == [] && [k][1..] == [];
    assert Dotted("", [k]) == k;
    assert Dotted(a, [b]) == Dotted(Full(a, b), []) == k;
  }

  /** A key with a dot after its first character shares its name with a nested scalar, whatever the parts and
      the values are, and the flat map keeps one of the two. */
  lemma DotsCollide(a: string, b: string, v: Value, w: Value, flat: map<string, Value>)
    requires a != "" && IsFlat("", map[a + "." + b := Leaf(v), a := Node(map[b := Leaf(w)])], flat)
    ensures Collide(map[a + "." + b := Leaf(v), a := Node(map[b := Leaf(w)])], [a + "." + b], [a, b])
    ensures flat.Keys == {a + "." + b}
  {
    var k := a + "." + b;
    NestedCollides(a, b, v, w);
    assert |k| > |a|;
    OneKeyLeaves(map[k := Leaf(v), a := Node(map[b := Leaf(w)])], k, v, a, b, w);
  }

  /** The empty key adds nothing to a name, so every other key collides with itself below an empty one. */
  lemma EmptyKeyCollides(k: string, v: Value, w: Value, flat: map<string, Value>)
    requires k != "" && IsFlat("", map[k := Leaf(v), "" := Node(map[k := Leaf(w)])], flat)
    ensures Collide(map[k := Leaf(v), "" := Node(map[k := Leaf(w)])], [k], ["", k])
    ensures flat.Keys == {k}
  {
    var m: Mapping := map[k := Leaf(v), "" := Node(map[k := Leaf(w)])];
    OneKeyLeaves(m, k, v, "", k, w);
    assert ["", k][1..] == [k] && [k][1..] == [];
    assert Dotted("", [k]) == k && Dotted("", ["", k]) == k;
  }

  predicate NonEmptyKeys(m: Mapping)
    decreases Node(m)
  {
    forall k :: k in m ==> k != "" && (m[k].Node? ==> NonEmptyKeys(m[k].children))
  }

  predicate NonEmptyPath(p: Path) {
    forall i :: 0 <= i < |p| ==> p[i] != ""
  }

  /** A dot with something before and after it. */
  predicate HasInnerDot(k: string) {
    exists i :: 1 <= i < |k| - 1 && k[i] == '.'
  }

  lemma {:induction false} LeafPathNonEmpty(m: Mapping, p: Path)
    requires NonEmptyKeys(m) && LeafAt(m, p).Some?
    ensures p != [] && NonEmptyPath(p)
    decreases |p|
  {
    if |p| > 1 {
      LeafPathNonEmpty(m[p[0]].children, p[1..]);
      assert p == [p[0]] + p[1..];
    }
  }

  lemma NestedNameHasInnerDot(p: Path)
    requires |p| > 1 && NonEmptyPath(p)
    ensures HasInnerDot(Dotted("", p))
  {
    DottedSplit(p[0], p[1..]);
    var rest := p[1..];
    assert Tail(rest) == "." + rest[0] + Tail(rest[1..]) && rest[0] != "";
    var name := Dotted("", p);
    assert name == p[0] + Tail(rest);
    assert name[|p[0]|] == '.' && |name| > |p[0]| + 1;
  }

  lemma SingleName(p: Path)
    ensures |p| == 1 ==> p == [p[0]] && Dotted("", p) == p[0]
  {
    if |p| == 1 {
      assert p[1..] == [];
    }
  }

  lemma InnerDotCollides(k: string) returns (m: Mapping, q: Path)
    requires HasInnerDot(k)
    ensures NonEmptyKeys(m) && Collide(m, [k], q)
  {
    var i :| 1 <= i < |k| - 1 && k[i] == '.';
    var a, b := k[..i], k[i + 1..];
    assert k == a + "." + b;
    m, q := map[k := Leaf(""), a := Node(map[b := Leaf("")])], [a, b];
    NestedCollides(a, b, "", "");
  }

  /** Among non-empty keys, a key can share its flat name with another path exactly when it has a dot with
      something before and after it; a leading or a trailing dot does no harm. */
  lemma KeyCollidesIff(k: string)
    requires k != ""
    ensures (exists m, q :: NonEmptyKeys(m) && Collide(m, [k], q)) <==> HasInnerDot(k)
  {
    if HasInnerDot(k) {
      var m, q := InnerDotCollides(k);
    }
    forall m, q | NonEmptyKeys(m) && Collide(m, [k], q) ensures HasInnerDot(k) {
      LeafPathNonEmpty(m, q);
      SingleName([k]);
      SingleName(q);
      if |q| > 1 {
        NestedNameHasInnerDot(q);
      }
    }
  }

  datatype Deprecation = Clean | Deprecated(key: string)

  /** `check_deprecated`: the first deprecated name that is a scalar of the tree. */
  method CheckDeprecated(data: Mapping, deprecated: seq<string>) returns (r: Deprecation)
    ensures r.Clean? <==> forall p :: LeafAt(data, p).Some? ==> Dotted("", p) !in deprecated
    ensures r.Deprecated? ==> exists i, p ::
      && 0 <= i < |deprecated| && deprecated[i] == r.key
      && LeafAt(data, p).Some? && Dotted("", p) == r.key
      && forall j, q :: 0 <= j < i && LeafAt(data, q).Some? ==> Dotted("", q) != deprecated[j]
  {
    var flat := Flatten("", data);
    for i := 0 to |deprecated|
      invariant forall j :: 0 <= j < i ==> deprecated[j] !in flat
    {
      if deprecated[i] in flat {
        var p :| LeafAt(data, p) == Some(flat[deprecated[i]]) && Dotted("", p) == deprecated[i];
        assert LeafAt(data, p).Some? && Dotted("", p) in deprecated;
        forall j, q | 0 <= j < i && LeafAt(data, q).Some? ensures Dotted("", q) != deprecated[j] {
          assert Dotted("", q) in flat;
        }
        return Deprecated(deprecated[i]);
      }
    }
    r := Clean;
  }

  /** Sources by precedence */

  datatype SourceType = Default | Environment | Plugin | Workspace | Runtime

  function Priority(t: SourceType): nat {
    match t case Default => 0 case Environment => 1 case Plugin => 2 case Workspace => 3 case Runtime => 4
  }

  datatype Source = Source(sourceType: SourceType, data: Mapping)

  function OfPriority(sources: seq<Source>, level: nat): seq<Source> {
    if sources == [] then []
    else (if Priority(sources[0].sourceType) == level then [sources[0]] else []) + OfPriority(sources[1..], level)
  }

  /** `sorted(sources, key=priority)`: ascending priority, ties in their original order. */
  function Ordered(sources: seq<Source>): seq<Source> {
    OfPriority(sources, 0) + OfPriority(sources, 1) + OfPriority(sources, 2) + OfPriority(sources, 3) + OfPriority(sources, 4)
  }

  function MergeAll(sources: seq<Source>): Mapping {
    if sources == [] then map[] else Merged(MergeAll(sources[..|sources| - 1]), sources[|sources| - 1].data)
  }

  /** Source `i` sets the scalar and no later source overrides or shadows it. */
  ghost predicate Decides(ordered: seq<Source>, i: nat, p: Path, v: Value) {
    && i < |ordered| && LeafAt(ordered[i].data, p) == Some(v)
    && forall j :: i < j < |ordered| ==> !Shadows(ordered[j].data, p)
  }

  /** A scalar of the merged configuration comes from the last source that sets it, provided no
      later source shadows it, and every such scalar is there. */
  lemma {:induction false} MergeAllDecided(ordered: seq<Source>, p: Path, v: Value)
    ensures LeafAt(MergeAll(ordered), p) == Some(v) <==> exists i :: Decides(ordered, i, p, v)
    decreases |ordered|
  {
    if ordered != [] {
      var n := |ordered| - 1;
      var before := ordered[..n];
      MergeAllDecided(before, p, v);
      LeafOfMerged(MergeAll(before), ordered[n].data, p);
      LeafNotShadowed(ordered[n].data, p);
      if i: nat :| Decides(before, i, p, v) {
        assert !Shadows(ordered[n].data, p) ==> Decides(ordered, i, p, v);
      }
      if LeafAt(ordered[n].data, p) == Some(v) {
        assert Decides(ordered, n, p, v);
      }
      if i: nat :| Decides(ordered, i, p, v) {
        if i < n {
          assert Decides(before, i, p, v);
        }
      }
    }
  }

  lemma {:induction false} OfPriorityFacts(sources: seq<Source>, level: nat)
    ensures forall i :: 0 <= i < |OfPriority(sources, level)| ==> Priority(OfPriority(sources, level)[i].sourceType) == level
    ensures forall s :: s in OfPriority(sources, level) <==> s in sources && Priority(s.sourceType) == level
  {
    if sources != [] {
      OfPriorityFacts(sources[1..], level);
      assert sources == [sources[0]] + sources[1..];
    }
  }

  lemma OrderedAscends(sources: seq<Source>)
    ensures forall i, j :: 0 <= i < j < |Ordered(sources)| ==>
      Priority(Ordered(sources)[i].sourceType) <= Priority(Ordered(sources)[j].sourceType)
    ensures forall s :: s in Ordered(sources) <==> s in sources
  {
    hide OfPriority;
    OfPriorityFacts(sources, 0);
    OfPriorityFacts(sources, 1);
    OfPriorityFacts(sources, 2);
    OfPriorityFacts(sources, 3);
    OfPriorityFacts(sources, 4);
  }

  /** A scalar set by a source survives every source of lower precedence. */
  lemma HigherPrecedenceWins(sources: seq<Source>, s: Source, p: Path)
    requires s in sources && LeafAt(s.data, p).Some?
    requires forall u :: u in sources && u != s ==> Priority(u.sourceType) < Priority(s.sourceType) || !Shadows(u.data, p)
    ensures LeafAt(MergeAll(Ordered(sources)), p) == LeafAt(s.data, p)
  {
    OrderedAscends(sources);
    var ordered := Ordered(sources);
    var i := LastIndex(ordered, s);
    forall j | i < j < |ordered| ensures !Shadows(ordered[j].data, p) {
      assert ordered[j] in ordered;
      assert Priority(ordered[i].sourceType) <= Priority(ordered[j].sourceType);
    }
    assert Decides(ordered, i, p, LeafAt(s.data, p).value);
    MergeAllDecided(ordered, p, LeafAt(s.data, p).value);
  }

  lemma {:induction false} LastIndex(s: seq<Source>, x: Source) returns (i: nat)
    requires x in s
    ensures i < |s| && s[i] == x && forall j :: i < j < |s| ==> s[j] != x
    decreases |s|
  {
    var n := |s| - 1;
    if s[n] == x {
      i := n;
    } else {
      assert x in s[..n];
      i := LastIndex(s[..n], x);
    }
  }

  /** Precedence in plain terms: by the types of the sources and their places in the given list */

  /** The source types, each overriding those before it. */
  const PRECEDENCE: seq<SourceType> := [Default, Environment, Plugin, Workspace, Runtime]

  /** Source `j` overrides source `i`: its type comes later, or it has the same type and stands later in the list. */
  predicate Overrides(types: seq<SourceType>, sources: seq<Source>, j: nat, i: nat)
    requires i < |sources| && j < |sources|
  {
    var t, u := IndexOf(types, sources[i].sourceType), IndexOf(types, sources[j].sourceType);
    t < u || (t == u && i < j)
  }

  /** Source `i` sets the scalar, and no source that overrides it touches the path. */
  ghost predicate SetFor(types: seq<SourceType>, sources: seq<Source>, i: nat, p: Path, v: Value) {
    && i < |sources| && LeafAt(sources[i].data, p) == Some(v)
    && forall j :: 0 <= j < |sources| && Overrides(types, sources, j, i) ==> !Shadows(sources[j].data, p)
  }

  /** The places in the list of the sources of one priority. */
  function Places(sources: seq<Source>, level: nat, n: nat): (r: seq<nat>)
    requires n <= |sources|
    ensures forall k :: 0 <= k < |r| ==> r[k] < n && Priority(sources[r[k]].sourceType) == level
    ensures forall k, l :: 0 <= k < l < |r| ==> r[k] < r[l]
    ensures forall i :: 0 <= i < n && Priority(sources[i].sourceType) == level ==> i in r
  {
    if n == 0 then []
    else Places(sources, level, n - 1) + if Priority(sources[n - 1].sourceType) == level then [n - 1] else []
  }

  function At(sources: seq<Source>, places: seq<nat>): (r: seq<Source>)
    requires forall k :: 0 <= k < |places| ==> places[k] < |sources|
    ensures |r| == |places| && forall k :: 0 <= k < |places| ==> r[k] == sources[places[k]]
  {
    seq(|places|, k requires 0 <= k < |places| => sources[places[k]])
  }

  lemma {:induction false} OfPrioritySnoc(sources: seq<Source>, s: Source, level: nat)
    ensures OfPriority(sources + [s], level) ==
            OfPriority(sources, level) + if Priority(s.sourceType) == level then [s] else []
  {
    hide Priority;
    if sources == [] {
      assert [s][1..] == [];
    } else {
      assert (sources + [s])[1..] == sources[1..] + [s];
      OfPrioritySnoc(sources[1..], s, level);
    }
  }

  lemma {:induction false} OfPriorityPlaces(sources: seq<Source>, level: nat, n: nat)
    requires n <= |sources|
    ensures OfPriority(sources[..n], level) == At(sources, Places(sources, level, n))
    decreases n
  {
    if n > 0 {
      OfPriorityPlaces(sources, level, n - 1);
      assert sources[..n] == sources[..n - 1] + [sources[n - 1]];
      OfPrioritySnoc(sources[..n - 1], sources[n - 1], level);
    }
  }

  /** A list of places in which every later one overrides every earlier one. */
  ghost predicate Ascending(sources: seq<Source>, places: seq<nat>) {
    && (forall k :: 0 <= k < |places| ==> places[k] < |sources|)
    && forall k, l :: 0 <= k < l < |places| ==> Overrides(PRECEDENCE, sources, places[l], places[k])
  }

  lemma PriorityIsPrecedence(t: SourceType)
    ensures IndexOf(PRECEDENCE, t) == Priority(t)
  {
    assert PRECEDENCE[Priority(t)] == t;
    IndexOfAt(PRECEDENCE, Priority(t));
  }

  lemma PlacesAscending(sources: seq<Source>, level: nat)
    ensures Ascending(sources, Places(sources, level, |sources|))
  {
    var places := Places(sources, level, |sources|);
    forall k, l | 0 <= k < l < |places| ensures Overrides(PRECEDENCE, sources, places[l], places[k]) {
      PriorityIsPrecedence(sources[places[k]].sourceType);
      PriorityIsPrecedence(sources[places[l]].sourceType);
    }
  }

  lemma AppendPlaces(sources: seq<Source>, before: seq<nat>, level: nat)
    requires Ascending(sources, before)
    requires forall k :: 0 <= k < |before| ==> Priority(sources[before[k]].sourceType) < level
    ensures
      var all := before + Places(sources, level, |sources|);
      && Ascending(sources, all) && At(sources, all) == At(sources, before) + OfPriority(sources, level)
      && (forall k :: 0 <= k < |all| ==> Priority(sources[all[k]].sourceType) < level + 1)
      && (forall i :: i in all <==> i in before || (0 <= i < |sources| && Priority(sources[i].sourceType) == level))
  {
    var places := Places(sources, level, |sources|);
    var all := before + places;
    PlacesAscending(sources, level);
    OfPriorityPlaces(sources, level, |sources|);
    assert sources[..|sources|] == sources;
    forall k, l | 0 <= k < l < |all| ensures Overrides(PRECEDENCE, sources, all[l], all[k]) {
      PriorityIsPrecedence(sources[all[k]].sourceType);
      PriorityIsPrecedence(sources[all[l]].sourceType);
    }
    forall i | i in all ensures i in before || (0 <= i < |sources| && Priority(sources[i].sourceType) == level) {
      if i in places {
        var k :| 0 <= k < |places| && places[k] == i;
      }
    }
  }

  /** The order in which the sources are merged lists every place once, each overriding those before it. */
  lemma OrderedPlaces(sources: seq<Source>) returns (places: seq<nat>)
    ensures Ascending(sources, places) && Ordered(sources) == At(sources, places)
    ensures forall i :: 0 <= i < |sources| ==> i in places
  {
    hide Ascending, OfPriority, Overrides, Places, At;
    places := [];
    NoPlaces(sources);
    AppendPlaces(sources, places, 0);
    places := places + Places(sources, 0, |sources|);
    AppendPlaces(sources, places, 1);
    places := places + Places(sources, 1, |sources|);
    AppendPlaces(sources, places, 2);
    places := places + Places(sources, 2, |sources|);
    AppendPlaces(sources, places, 3);
    places := places + Places(sources, 3, |sources|);
    AppendPlaces(sources, places, 4);
    places := places + Places(sources, 4, |sources|);
  }

  lemma NoPlaces(sources: seq<Source>)
    ensures Ascending(sources, []) && At(sources, []) == []
    ensures forall s: seq<Source> :: [] + s == s
  {
  }

  lemma NeverBothOverride(sources: seq<Source>, i: nat, j: nat)
    requires i < |sources| && j < |sources|
    ensures !(Overrides(PRECEDENCE, sources, i, j) && Overrides(PRECEDENCE, sources, j, i))
    ensures !Overrides(PRECEDENCE, sources, i, i)
  {
  }

  lemma OverridersComeLater(sources: seq<Source>, places: seq<nat>, k: nat, j: nat)
    requires Ascending(sources, places) && (forall i :: 0 <= i < |sources| ==> i in places)
    requires k < |places| && j < |sources|
    ensures Overrides(PRECEDENCE, sources, j, places[k]) <==> exists l :: k < l < |places| && places[l] == j
  {
    hide Overrides;
    assert j in places;
    var l :| 0 <= l < |places| && places[l] == j;
    NeverBothOverride(sources, places[k], j);
    forall m | k < m < |places| && places[m] == j ensures Overrides(PRECEDENCE, sources, j, places[k]) {}
  }

  /** The result of merging sources, without the table of priorities: a path has a scalar exactly when some source
      sets it and no source that overrides that one touches the path. */
  lemma MergedByPrecedence(sources: seq<Source>, p: Path, v: Value)
    ensures LeafAt(MergeAll(Ordered(sources)), p) == Some(v) <==>
      exists i :: SetFor([Default, Environment, Plugin, Workspace, Runtime], sources, i, p, v)
  {
    hide MergeAll, Ordered, Overrides, Shadows, LeafAt, Ascending;
    var ordered := Ordered(sources);
    var places := OrderedPlaces(sources);
    MergeAllDecided(ordered, p, v);
    PlacesBounded(sources, places);
    forall k | 0 <= k < |places| ensures Decides(ordered, k, p, v) <==> SetFor(PRECEDENCE, sources, places[k], p, v) {
      forall j | 0 <= j < |sources|
        ensures Overrides(PRECEDENCE, sources, j, places[k]) <==> exists l :: k < l < |places| && places[l] == j
      {
        OverridersComeLater(sources, places, k, j);
      }
    }
    forall i | SetFor(PRECEDENCE, sources, i, p, v) ensures exists k :: Decides(ordered, k, p, v) {
      assert i in places;
      var k :| 0 <= k < |places| && places[k] == i;
      assert Decides(ordered, k, p, v);
    }
    forall k: nat | Decides(ordered, k, p, v) ensures exists i :: SetFor(PRECEDENCE, sources, i, p, v) {
      assert SetFor(PRECEDENCE, sources, places[k], p, v);
    }
  }

  lemma PlacesBounded(sources: seq<Source>, places: seq<nat>)
    requires Ascending(sources, places)
    ensures forall k :: 0 <= k < |places| ==> places[k] < |sources|
  {
  }

  method MergeSources(sources: seq<Source>) returns (merged: Mapping)
    ensures merged == MergeAll(Ordered(sources))
    ensures forall p, v :: LeafAt(merged, p) == Some(v) <==>
      exists i :: SetFor([Default, Environment, Plugin, Workspace, Runtime], sources, i, p, v)
  {
    var ordered := Ordered(sources);
    merged := map[];
    for i := 0 to |ordered|
      invariant merged == MergeAll(ordered[..i])
    {
      assert ordered[..i + 1][..i] == ordered[..i];
      merged := DeepMerge(merged, ordered[i].data);
    }
    assert ordered[..|ordered|] == ordered;
    forall p, v ensures LeafAt(merged, p) == Some(v) <==> exists i :: SetFor([Default, Environment, Plugin, Workspace, Runtime], sources, i, p, v) {
      MergedByPrecedence(sources, p, v);
    }
  }
}
