/** backend/lexmind/config/config_validator.py and config_loader.py: layered configuration trees. */
module ConfigTree {
  import opened Collections

  type Value = string
  type Mapping = map<string, Tree>
  datatype Tree = Leaf(value: Value) | Node(children: Mapping)

  type Path = seq<string>

  /** The scalar at a path of keys. */
  function LeafAt(m: Mapping, p: Path): Option<Value>
    decreases |p|
  {
    if p == [] || p[0] !in m then None
    else match m[p[0]]
      case Leaf(v) => if |p| == 1 then Some(v) else None
      case Node(c) => LeafAt(c, p[1..])
  }

  /** What merging means: under a key that both bind to mappings the mappings are merged, every
      other key of the override wins. */
  function Merged(base: Mapping, over: Mapping): Mapping
    decreases Node(over)
  {
    map k | k in base.Keys + over.Keys ::
      if k !in over then base[k]
      else if k in base && base[k].Node? && over[k].Node? then Node(Merged(base[k].children, over[k].children))
      else over[k]
  }

  /** The path leads to anything at all, a scalar or a mapping. */
  predicate Bound(m: Mapping, p: Path)
    decreases |p|
  {
    p != [] && p[0] in m && (|p| == 1 || (m[p[0]].Node? && Bound(m[p[0]].children, p[1..])))
  }

  /** The override binds the path itself, or a proper prefix of it to a scalar. */
  predicate Shadows(over: Mapping, p: Path) {
    Bound(over, p) || exists n :: 1 <= n < |p| && LeafAt(over, p[..n]).Some?
  }

  lemma ShadowsStep(over: Mapping, p: Path)
    requires |p| > 1 && p[0] in over && over[p[0]].Node?
    ensures Shadows(over, p) <==> Shadows(over[p[0]].children, p[1..])
  {
    forall n | 1 <= n < |p| - 1
      ensures LeafAt(over, p[..n + 1]) == LeafAt(over[p[0]].children, p[1..][..n])
    {
      assert p[..n + 1][1..] == p[1..][..n];
    }
    if !Bound(over, p) && Shadows(over, p) {
      var n :| 1 <= n < |p| && LeafAt(over, p[..n]).Some?;
      assert p[..n][0] == p[0] && p[..n][1..] == p[1..][..n - 1];
      assert LeafAt(over, p[..n]) == if n == 1 then None else LeafAt(over[p[0]].children, p[1..][..n - 1]);
    }
    if !Bound(over, p) && Shadows(over[p[0]].children, p[1..]) {
      var n :| 1 <= n < |p[1..]| && LeafAt(over[p[0]].children, p[1..][..n]).Some?;
      assert LeafAt(over, p[..n + 1]).Some?;
    }
  }

  lemma ShadowedByScalar(over: Mapping, p: Path)
    requires |p| > 1 && p[0] in over && over[p[0]].Leaf?
    ensures Shadows(over, p)
  {
    assert p[..1] == [p[0]];
  }

  /** The law of merging, path by path: a scalar of the override always wins; a scalar of the base
      survives exactly when the override neither binds its path nor a proper prefix to a scalar. */
  lemma {:induction false} LeafOfMerged(base: Mapping, over: Mapping, p: Path)
    ensures LeafAt(Merged(base, over), p) ==
            if LeafAt(over, p).Some? then LeafAt(over, p)
            else if Shadows(over, p) then None
            else LeafAt(base, p)
    decreases |p|
  {
    if p == [] {
    } else if p[0] !in over {
    } else if |p| > 1 {
      if over[p[0]].Leaf? {
        ShadowedByScalar(over, p);
      } else {
        ShadowsStep(over, p);
        if p[0] in base && base[p[0]].Node? {
          LeafOfMerged(base[p[0]].children, over[p[0]].children, p[1..]);
        } else {
          LeafNotShadowed(over[p[0]].children, p[1..]);
        }
      }
    }
  }

  /** A mapping that is taken over unmerged has no scalar below what it does not bind. */
  lemma {:induction false} LeafNotShadowed(m: Mapping, p: Path)
    ensures LeafAt(m, p).Some? ==> Bound(m, p)
    decreases |p|
  {
    if p != [] && p[0] in m && m[p[0]].Node? {
      LeafNotShadowed(m[p[0]].children, p[1..]);
    }
  }

  /** The same for mappings, empty ones included: a path leads somewhere exactly when it does in the override, or
      in the base without the override putting a scalar in its way. */
  lemma {:induction false} BoundOfMerged(base: Mapping, over: Mapping, p: Path)
    ensures Bound(Merged(base, over), p) <==>
      Bound(over, p) || (Bound(base, p) && !exists n :: 1 <= n < |p| && LeafAt(over, p[..n]).Some?)
    decreases |p|
  {
    if p != [] && p[0] in over && |p| > 1 {
      if over[p[0]].Leaf? {
        assert LeafAt(over, p[..1]).Some?;
      } else {
        forall n | 1 <= n < |p| - 1 ensures LeafAt(over, p[..n + 1]) == LeafAt(over[p[0]].children, p[1..][..n]) {
          assert p[..n + 1][1..] == p[1..][..n];
        }
        assert LeafAt(over, p[..1]).None?;
        LeafBelow(over, p);
        if p[0] in base && base[p[0]].Node? {
          BoundOfMerged(base[p[0]].children, over[p[0]].children, p[1..]);
        }
      }
    } else if p != [] && p[0] !in over {
      forall n | 1 <= n < |p| ensures LeafAt(over, p[..n]).None? {}
    }
  }

  lemma LeafBelow(over: Mapping, p: Path)
    requires |p| > 1 && p[0] in over && over[p[0]].Node?
    ensures (exists n :: 1 <= n < |p| && LeafAt(over, p[..n]).Some?) <==>
            (exists n :: 1 <= n < |p| - 1 && LeafAt(over[p[0]].children, p[1..][..n]).Some?)
  {
    forall n | 1 <= n < |p|
      ensures LeafAt(over, p[..n]) == if n == 1 then None else LeafAt(over[p[0]].children, p[1..][..n - 1])
    {
      assert n > 1 ==> p[..n][1..] == p[1..][..n - 1];
    }
    if n :| 1 <= n < |p| - 1 && LeafAt(over[p[0]].children, p[1..][..n]).Some? {
      assert LeafAt(over, p[..n + 1]).Some?;
    }
  }

  /** Algebra of merging, on whole trees (empty mappings included) */

  lemma MergeIdentity(m: Mapping)
    ensures Merged(m, map[]) == m && Merged(map[], m) == m
  {
  }

  lemma {:induction false} MergeAbsorbs(base: Mapping, over: Mapping)
    ensures Merged(Merged(base, over), over) == Merged(base, over)
    decreases Node(over)
  {
    var m := Merged(base, over);
    forall k | k in over && over[k].Node?
      ensures m[k].Node? && Merged(m[k].children, over[k].children) == m[k].children
    {
      if k in base && base[k].Node? {
        MergeAbsorbs(base[k].children, over[k].children);
      } else {
        MergeAbsorbs(map[], over[k].children);
        MergeIdentity(over[k].children);
      }
    }
  }

  lemma MergeIdempotent(m: Mapping)
    ensures Merged(m, m) == m
  {
    MergeAbsorbs(map[], m);
    MergeIdentity(m);
  }

  /** Everything the first mapping binds is overridden by the second. */
  ghost predicate Covered(a: Mapping, c: Mapping)
    decreases Node(c)
  {
    forall k :: k in a ==> k in c && (a[k].Node? && c[k].Node? ==> Covered(a[k].children, c[k].children))
  }

  lemma {:induction false} CoveredIff(a: Mapping, c: Mapping)
    ensures Covered(a, c) <==> Merged(a, c) == c
    decreases Node(c)
  {
    var m := Merged(a, c);
    forall k | k in a && k in c && a[k].Node? && c[k].Node?
      ensures Covered(a[k].children, c[k].children) <==> m[k] == c[k]
    {
      CoveredIff(a[k].children, c[k].children);
    }
    if m == c {
      forall k | k in a ensures k in c {
        assert k in m;
      }
    }
  }

  /** No key is bound to a mapping, then a scalar, then a mapping that leaves part of the first one standing. */
  ghost predicate ShapesAgree(a: Mapping, b: Mapping, c: Mapping)
    decreases Node(c)
  {
    forall k :: Layered(a, b, c, k) ==>
      if b[k].Leaf? then Covered(a[k].children, c[k].children)
      else ShapesAgree(a[k].children, b[k].children, c[k].children)
  }

  /** All three layers bind the key, the outer two to mappings. */
  predicate Layered(a: Mapping, b: Mapping, c: Mapping, k: string) {
    k in a && k in b && k in c && a[k].Node? && c[k].Node?
  }

  /** Keys that are not layered come out the same either way; a layered key is decided one level down. */
  lemma AssociateAt(a: Mapping, b: Mapping, c: Mapping, k: string)
    ensures k in Merged(Merged(a, b), c) <==> k in Merged(a, Merged(b, c))
    ensures k in Merged(Merged(a, b), c) && !Layered(a, b, c, k) ==>
      Merged(Merged(a, b), c)[k] == Merged(a, Merged(b, c))[k]
    ensures Layered(a, b, c, k) && b[k].Leaf? ==>
      Merged(Merged(a, b), c)[k] == c[k] && Merged(a, Merged(b, c))[k] == Node(Merged(a[k].children, c[k].children))
    ensures Layered(a, b, c, k) && b[k].Node? ==>
      && Merged(Merged(a, b), c)[k] == Node(Merged(Merged(a[k].children, b[k].children), c[k].children))
      && Merged(a, Merged(b, c))[k] == Node(Merged(a[k].children, Merged(b[k].children, c[k].children)))
  {
  }

  /** Merging is associative exactly on layers whose shapes agree. */
  lemma {:induction false} MergeAssociativeIff(a: Mapping, b: Mapping, c: Mapping)
    ensures Merged(Merged(a, b), c) == Merged(a, Merged(b, c)) <==> ShapesAgree(a, b, c)
    decreases Node(c)
  {
    hide Merged;
    var l, r := Merged(Merged(a, b), c), Merged(a, Merged(b, c));
    forall k { AssociateAt(a, b, c, k); }
    forall k | Layered(a, b, c, k)
      ensures k in l && k in r
      ensures l[k] == r[k] <==>
        if b[k].Leaf? then Covered(a[k].children, c[k].children)
        else ShapesAgree(a[k].children, b[k].children, c[k].children)
    {
      AssociateAt(a, b, c, k);
      LayeredBound(a, b, c, k);
      if b[k].Leaf? {
        CoveredIff(a[k].children, c[k].children);
      } else {
        MergeAssociativeIff(a[k].children, b[k].children, c[k].children);
      }
    }
    assert l == r <==> forall k :: k in l ==> l[k] == r[k];
  }

  lemma LayeredBound(a: Mapping, b: Mapping, c: Mapping, k: string)
    requires Layered(a, b, c, k)
    ensures k in Merged(Merged(a, b), c) && k in Merged(a, Merged(b, c))
  {
  }

  /** A scalar between two mappings breaks associativity. */
  lemma NotAssociative()
    ensures
      var a: Mapping := map["ocr" := Node(map["lang" := Leaf("de")])];
      var b: Mapping := map["ocr" := Leaf("off")];
      var c: Mapping := map["ocr" := Node(map["dpi" := Leaf("300")])];
      Merged(Merged(a, b), c) != Merged(a, Merged(b, c))
  {
    var a: Mapping := map["ocr" := Node(map["lang" := Leaf("de")])];
    var b: Mapping := map["ocr" := Leaf("off")];
    var c: Mapping := map["ocr" := Node(map["dpi" := Leaf("300")])];
    assert "lang" in a["ocr"].children && "lang" !in c["ocr"].children;
    MergeAssociativeIff(a, b, c);
  }
}
