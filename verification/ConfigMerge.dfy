/** Layered sources: deep merge of configuration maps, and which layer each leaf comes from. */
module ConfigMerge {
  import opened Wrappers
  import opened Json
  import opened ConfigTree

  /** The overlay on the base: objects merge entry by entry, anything else is replaced. */
  function Merged(base: Tree, overlay: Tree): Tree
    decreases overlay
  {
    if base.Node? && overlay.Node? then
      Node(map k | k in base.children.Keys + overlay.children.Keys ::
             if k !in overlay.children then base.children[k]
             else if k !in base.children then overlay.children[k]
             else Merged(base.children[k], overlay.children[k]))
    else overlay
  }

  function MergedMaps(base: ConfigMap, overlay: ConfigMap): ConfigMap {
    Merged(Node(base), Node(overlay)).children
  }

  /** All layers in order, from the empty map. */
  function MergedAll(sources: seq<ConfigMap>): ConfigMap {
    if sources == [] then map[] else MergedMaps(MergedAll(sources[..|sources| - 1]), sources[|sources| - 1])
  }

  // ----- merging in place -----

  lemma MergedEntry(base: ConfigMap, overlay: ConfigMap, k: string)
    requires k in overlay
    ensures k in MergedMaps(base, overlay)
    ensures MergedMaps(base, overlay)[k] ==
              if k in base && base[k].Node? && overlay[k].Node?
              then Node(MergedMaps(base[k].children, overlay[k].children)) else overlay[k]
  {
    assert Merged(Node(base), Node(overlay)).children[k]
           == if k in base then Merged(base[k], overlay[k]) else overlay[k];
  }

  /** `merged` is `target` on the overlay's entries outside `todo`, and `base` elsewhere. */
  ghost predicate DoneBut(merged: ConfigMap, base: ConfigMap, overlay: ConfigMap, target: ConfigMap, todo: set<string>)
  {
    && (forall k :: k in merged <==> k in base || (k in overlay && k !in todo))
    && (forall k | k in overlay && k !in todo :: k in target && merged[k] == target[k])
    && (forall k | k in base && (k !in overlay || k in todo) :: merged[k] == base[k])
  }

  lemma OneMoreDone(merged: ConfigMap, base: ConfigMap, overlay: ConfigMap, target: ConfigMap, todo: set<string>,
                    k: string)
    requires DoneBut(merged, base, overlay, target, todo)
    requires k in todo && k in target && k in overlay
    ensures DoneBut(merged[k := target[k]], base, overlay, target, todo - {k})
    ensures k in merged <==> k in base
    ensures k in merged ==> merged[k] == base[k]
  {
  }

  lemma AllDone(base: ConfigMap, overlay: ConfigMap, merged: ConfigMap)
    requires DoneBut(merged, base, overlay, MergedMaps(base, overlay), {})
    ensures merged == MergedMaps(base, overlay)
  {
    var target := MergedMaps(base, overlay);
    assert target.Keys == base.Keys + overlay.Keys;
    forall k | k in base && k !in overlay
      ensures target[k] == base[k]
    {
    }
    assert merged.Keys == target.Keys;
  }

  lemma NothingDone(base: ConfigMap, overlay: ConfigMap)
    ensures DoneBut(base, base, overlay, MergedMaps(base, overlay), overlay.Keys)
  {
  }

  /** Merges one entry of the overlay at a time, in any order of the overlay's keys. */
  method MergeMaps(base: ConfigMap, overlay: ConfigMap) returns (merged: ConfigMap)
    ensures merged == MergedMaps(base, overlay)
    decreases Node(overlay)
  {
    merged := base;
    var todo := overlay.Keys;
    ghost var target := MergedMaps(base, overlay);
    NothingDone(base, overlay);
    while todo != {}
      invariant todo <= overlay.Keys
      invariant DoneBut(merged, base, overlay, target, todo)
      decreases |todo|
    {
      var key :| key in todo;
      MergedEntry(base, overlay, key);
      OneMoreDone(merged, base, overlay, target, todo, key);
      todo := todo - {key};
      if key in merged && merged[key].Node? && overlay[key].Node? {
        SmallerEntry(overlay, key);
        var child := MergeMaps(merged[key].children, overlay[key].children);
        merged := merged[key := Node(child)];
      } else {
        merged := merged[key := overlay[key]];
      }
    }
    AllDone(base, overlay, merged);
  }

  lemma SmallerEntry(m: ConfigMap, k: string)
    requires k in m && m[k].Node?
    ensures Node(m[k].children) < Node(m)
  {
    assert Node(m).children[k] < Node(m);
    assert m[k] == Node(m[k].children);
  }

  // ----- which layer wins -----

  /** The map says something at `p`: it has a value there, or a leaf above it. */
  predicate Touches(t: Tree, p: Path)
  {
    p == [] || t.Leaf? || (p[0] in t.children && Touches(t.children[p[0]], p[1..]))
  }

  /** Touching, as the words say: a value at the path, or a non-object at a strict prefix. */
  lemma {:induction false} TouchesMeans(t: Tree, p: Path)
    ensures Touches(t, p) <==>
            Get(t, p).Some? || exists n :: 0 <= n < |p| && Get(t, p[..n]).Some? && Get(t, p[..n]).value.Leaf?
  {
    if p == [] {
    } else if t.Leaf? {
      assert p[..0] == [] && Get(t, p[..0]) == Some(t);
    } else if p[0] in t.children {
      var child := t.children[p[0]];
      TouchesMeans(child, p[1..]);
      forall n | 0 < n <= |p|
        ensures Get(t, p[..n]) == Get(child, p[1..][..n - 1])
      {
        assert p[..n][0] == p[0] && p[..n][1..] == p[1..][..n - 1];
      }
      if exists n :: 0 <= n < |p| && Get(t, p[..n]).Some? && Get(t, p[..n]).value.Leaf? {
        var n :| 0 <= n < |p| && Get(t, p[..n]).Some? && Get(t, p[..n]).value.Leaf?;
        assert Get(child, p[1..][..n - 1]).value.Leaf?;
      }
      if exists n :: 0 <= n < |p[1..]| && Get(child, p[1..][..n]).Some? && Get(child, p[1..][..n]).value.Leaf? {
        var n :| 0 <= n < |p[1..]| && Get(child, p[1..][..n]).Some? && Get(child, p[1..][..n]).value.Leaf?;
        assert Get(t, p[..n + 1]).value.Leaf?;
      }
    } else {
      forall n | 0 <= n < |p|
        ensures !(Get(t, p[..n]).Some? && Get(t, p[..n]).value.Leaf?)
      {
        if n > 0 {
          assert p[..n][0] == p[0];
        }
      }
    }
  }

  /** Two layers: a leaf of the merge comes from the overlay where it touches the path, and
      from the base where it does not. */
  lemma {:induction false} LeafOfMerge(base: Tree, overlay: Tree, p: Path, v: Json)
    ensures Get(Merged(base, overlay), p) == Some(Leaf(v)) <==>
            if Touches(overlay, p) then Get(overlay, p) == Some(Leaf(v)) else Get(base, p) == Some(Leaf(v))
  {
    if p != [] && base.Node? && overlay.Node? {
      var k := p[0];
      if k in base.children && k in overlay.children {
        LeafOfMerge(base.children[k], overlay.children[k], p[1..], v);
      } else {
        UntouchedIsAbsent(overlay, p);
      }
    } else if p != [] && overlay.Node? {
      UntouchedIsAbsent(overlay, p);
    }
  }

  lemma {:induction false} UntouchedIsAbsent(t: Tree, p: Path)
    ensures !Touches(t, p) ==> Get(t, p).None?
  {
    if p != [] && t.Node? && p[0] in t.children {
      UntouchedIsAbsent(t.children[p[0]], p[1..]);
    }
  }

  /** Source `i` holds leaf `v` at `p`, and no later one touches `p`. */
  ghost predicate LastToTouch(sources: seq<ConfigMap>, i: nat, p: Path, v: Json)
    requires i < |sources|
  {
    LeafAt(sources[i], p, v) && forall j | i < j < |sources| :: !Touches(Node(sources[j]), p)
  }

  /** Layer precedence, for any list of sources: the merged map holds leaf `v` at `p` exactly
      when the last source that touches `p` holds it there. */
  lemma {:induction false} LastTouchingSourceWins(sources: seq<ConfigMap>, p: Path, v: Json)
    requires p != []
    ensures LeafAt(MergedAll(sources), p, v) <==>
            exists i :: 0 <= i < |sources| && LastToTouch(sources, i, p, v)
  {
    if sources != [] {
      var init, last := sources[..|sources| - 1], sources[|sources| - 1];
      LastTouchingSourceWins(init, p, v);
      LeafOfMerge(Node(MergedAll(init)), Node(last), p, v);
      assert Node(MergedAll(sources)) == Merged(Node(MergedAll(init)), Node(last));
      UntouchedIsAbsent(Node(last), p);
      assert forall j | 0 <= j < |init| :: init[j] == sources[j];
      if LeafAt(MergedAll(sources), p, v) {
        if Touches(Node(last), p) {
          assert LastToTouch(sources, |sources| - 1, p, v);
        } else {
          var i :| 0 <= i < |init| && LastToTouch(init, i, p, v);
          assert LastToTouch(sources, i, p, v);
        }
      }
      if i :| 0 <= i < |sources| && LastToTouch(sources, i, p, v) {
        if i < |init| {
          assert LastToTouch(init, i, p, v) && !Touches(Node(sources[|init|]), p);
        }
      }
    }
  }

  /** Merging the same overlay again changes nothing. */
  lemma {:induction false} MergeIsIdempotent(base: Tree, overlay: Tree)
    ensures Merged(Merged(base, overlay), overlay) == Merged(base, overlay)
    decreases overlay
  {
    if base.Node? && overlay.Node? {
      var once := Merged(base, overlay);
      var twice := Merged(once, overlay);
      forall k | k in once.children
        ensures k in twice.children && twice.children[k] == once.children[k]
      {
        if k in overlay.children {
          if k in base.children {
            MergeIsIdempotent(base.children[k], overlay.children[k]);
          } else {
            MergedWithItself(overlay.children[k]);
          }
        }
      }
      assert twice.children == once.children;
    } else {
      MergedWithItself(overlay);
    }
  }

  lemma {:induction false} MergedWithItself(t: Tree)
    ensures Merged(t, t) == t
  {
    if t.Node? {
      var m := Merged(t, t);
      forall k | k in t.children
        ensures m.children[k] == t.children[k]
      {
        MergedWithItself(t.children[k]);
      }
      assert m.children == t.children;
    }
  }

  // ----- grouping the layers -----

  /** `overlay` says something wherever `base` has a value. */
  ghost predicate Covers(overlay: Tree, base: Tree) {
    forall p | Get(base, p).Some? :: Touches(overlay, p)
  }

  /** Merging onto a base leaves no trace of it exactly when the overlay covers the base. */
  lemma {:induction false} NoTraceExactly(base: Tree, overlay: Tree)
    ensures Merged(base, overlay) == overlay <==> Covers(overlay, base)
    decreases overlay
  {
    if base.Node? && overlay.Node? {
      var merged := Merged(base, overlay);
      forall k | k in base.children && k in overlay.children
        ensures merged.children[k] == overlay.children[k] <==> Covers(overlay.children[k], base.children[k])
      {
        NoTraceExactly(base.children[k], overlay.children[k]);
      }
      CoversByEntry(base, overlay);
      if Covers(overlay, base) {
        assert merged.children == overlay.children;
      }
    } else {
      LeafIsCovered(base, overlay);
    }
  }

  lemma LeafIsCovered(base: Tree, overlay: Tree)
    requires base.Leaf? || overlay.Leaf?
    ensures Covers(overlay, base)
  {
  }

  lemma CoversByEntry(base: Tree, overlay: Tree)
    requires base.Node? && overlay.Node?
    ensures Covers(overlay, base) <==>
            forall k | k in base.children :: k in overlay.children && Covers(overlay.children[k], base.children[k])
  {
    if Covers(overlay, base) {
      forall k | k in base.children
        ensures k in overlay.children && Covers(overlay.children[k], base.children[k])
      {
        assert Get(base, [k]) == Get(base.children[k], [k][1..]);
        assert Touches(overlay, [k]);
        forall p | Get(base.children[k], p).Some?
          ensures Touches(overlay.children[k], p)
        {
          assert ([k] + p)[1..] == p;
          assert Get(base, [k] + p).Some?;
        }
      }
    } else if forall k | k in base.children :: k in overlay.children
                                               && Covers(overlay.children[k], base.children[k]) {
      forall p | Get(base, p).Some?
        ensures Touches(overlay, p)
      {
        assert p == [] || Get(base.children[p[0]], p[1..]).Some?;
      }
    }
  }

  /** At `p` a leaf stands between two objects, of which the upper does not cover the lower. */
  ghost predicate HidesAt(a: Tree, b: Tree, c: Tree, p: Path) {
    && Get(a, p).Some? && Get(a, p).value.Node?
    && Get(b, p).Some? && Get(b, p).value.Leaf?
    && Get(c, p).Some? && Get(c, p).value.Node?
    && !Covers(Get(c, p).value, Get(a, p).value)
  }

  lemma HidesByEntry(a: Tree, b: Tree, c: Tree)
    requires a.Node? && b.Node? && c.Node?
    ensures (exists p :: HidesAt(a, b, c, p)) <==>
            exists k, p :: k in a.children && k in b.children && k in c.children
                           && HidesAt(a.children[k], b.children[k], c.children[k], p)
  {
    if p :| HidesAt(a, b, c, p) {
      assert p != [];
      assert HidesAt(a.children[p[0]], b.children[p[0]], c.children[p[0]], p[1..]);
    }
    if k, p :| k in a.children && k in b.children && k in c.children
               && HidesAt(a.children[k], b.children[k], c.children[k], p) {
      assert ([k] + p)[1..] == p;
      assert HidesAt(a, b, c, [k] + p);
    }
  }

  /** Merging is associative but for one case: the two groupings agree exactly when nowhere a leaf stands
      between two objects of which the upper does not cover the lower.  The leaf hides the lower object,
      but only if it is merged onto it first: layers must be merged from the lowest up. */
  lemma {:induction false} GroupingMattersExactly(a: Tree, b: Tree, c: Tree)
    ensures Merged(Merged(a, b), c) == Merged(a, Merged(b, c)) <==> !exists p :: HidesAt(a, b, c, p)
    decreases c
  {
    if a.Node? && b.Node? && c.Node? {
      var left, right := Merged(Merged(a, b), c), Merged(a, Merged(b, c));
      forall k | k in a.children && k in b.children && k in c.children
        ensures left.children[k] == right.children[k]
                <==> !exists p :: HidesAt(a.children[k], b.children[k], c.children[k], p)
      {
        GroupingMattersExactly(a.children[k], b.children[k], c.children[k]);
      }
      HidesByEntry(a, b, c);
      assert left.children.Keys == right.children.Keys;
      if !exists p :: HidesAt(a, b, c, p) {
        assert left.children == right.children;
      }
    } else if a.Node? && c.Node? {
      NoTraceExactly(a, c);
      assert Get(a, []) == Some(a) && Get(b, []) == Some(b) && Get(c, []) == Some(c);
      assert HidesAt(a, b, c, []) <==> !Covers(c, a);
      assert forall p | p != [] :: Get(b, p).None?;
    } else {
      NothingHidden(a, b, c);
    }
  }

  lemma NothingHidden(a: Tree, b: Tree, c: Tree)
    requires a.Leaf? || c.Leaf?
    ensures !exists p :: HidesAt(a, b, c, p)
    ensures Merged(Merged(a, b), c) == Merged(a, Merged(b, c))
  {
    forall p
      ensures !HidesAt(a, b, c, p)
    {
      assert a.Leaf? ==> p == [] || Get(a, p).None?;
      assert c.Leaf? ==> p == [] || Get(c, p).None?;
    }
  }

  /** It does happen: one leaf between two objects. */
  lemma GroupingMatters()
    ensures var a, b := Node(map["x" := Node(map["y" := Leaf(Null)])]), Node(map["x" := Leaf(Null)]);
            var c := Node(map["x" := Node(map[])]);
            Merged(Merged(a, b), c) != Merged(a, Merged(b, c))
  {
    var inner := Node(map["y" := Leaf(Null)]);
    var a, b, c := Node(map["x" := inner]), Node(map["x" := Leaf(Null)]), Node(map["x" := Node(map[])]);
    assert Merged(a, b).children["x"] == Leaf(Null);
    assert Merged(Merged(a, b), c).children["x"] == Node(map[]);
    assert Merged(b, c).children["x"] == Node(map[]);
    var last := Merged(a, Merged(b, c)).children["x"];
    assert last == Merged(inner, Node(map[]));
    assert "y" in last.children;
  }
}
