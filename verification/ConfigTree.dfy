/** Configuration trees: objects nested in objects, read along paths of segments. */
module ConfigTree {
  import opened Wrappers
  import opened Json

  /** A leaf is any JSON value that is not an object. */
  datatype Tree = Leaf(value: Json) | Node(children: map<string, Tree>)

  type ConfigMap = map<string, Tree>

  type Path = seq<string>

  function Get(t: Tree, p: Path): Option<Tree>
  {
    if p == [] then Some(t)
    else if t.Node? && p[0] in t.children then Get(t.children[p[0]], p[1..])
    else None
  }

  /** The map has a leaf `v` at `p`. */
  predicate LeafAt(m: ConfigMap, p: Path, v: Json) {
    p != [] && Get(Node(m), p) == Some(Leaf(v))
  }

  /** `p` is a prefix of `q`, possibly all of it. */
  predicate IsPrefix(p: Path, q: Path) {
    |p| <= |q| && q[..|p|] == p
  }

  predicate Comparable(p: Path, q: Path) {
    IsPrefix(p, q) || IsPrefix(q, p)
  }

  lemma {:induction false} GetSplits(t: Tree, p: Path, q: Path)
    ensures Get(t, p + q) == match Get(t, p) case None => None case Some(u) => Get(u, q)
  {
    if p == [] {
      assert p + q == q;
    } else {
      assert (p + q)[1..] == p[1..] + q;
      if t.Node? && p[0] in t.children {
        GetSplits(t.children[p[0]], p[1..], q);
      }
    }
  }

  lemma NothingBelowLeaf(m: ConfigMap, p: Path, v: Json, q: Path)
    requires LeafAt(m, p, v) && IsPrefix(p, q) && Get(Node(m), q).Some?
    ensures p == q
  {
    GetSplits(Node(m), p, q[|p|..]);
    assert p + q[|p|..] == q;
  }

  // ----- trees without empty objects are their leaves -----

  /** No object strictly inside the map is empty. */
  predicate NoEmptyNode(t: Tree)
  {
    t.Node? ==> forall k | k in t.children ::
      (t.children[k].Node? ==> t.children[k].children != map[]) && NoEmptyNode(t.children[k])
  }

  /** An object that is not empty, and has none inside, has a leaf somewhere. */
  lemma {:induction false} SomeLeaf(t: Tree) returns (p: Path)
    requires NoEmptyNode(t) && (t.Node? ==> t.children != map[])
    ensures Get(t, p).Some? && Get(t, p).value.Leaf?
  {
    if t.Leaf? {
      p := [];
    } else {
      var k :| k in t.children;
      var q := SomeLeaf(t.children[k]);
      p := [k] + q;
      assert p[1..] == q;
    }
  }

  /** Two such trees with the same leaves are equal. */
  lemma {:induction false} LeavesDetermineTree(a: Tree, b: Tree)
    requires NoEmptyNode(a) && NoEmptyNode(b) && a.Node? && b.Node?
    requires forall p, v | p != [] :: Get(a, p) == Some(Leaf(v)) <==> Get(b, p) == Some(Leaf(v))
    ensures a == b
    decreases a
  {
    ChildrenIncluded(a, b);
    ChildrenIncluded(b, a);
    forall k | k in a.children
      ensures a.children[k] == b.children[k]
    {
      var x, y := a.children[k], b.children[k];
      forall p, v
        ensures Get(x, p) == Some(Leaf(v)) <==> Get(y, p) == Some(Leaf(v))
      {
        assert ([k] + p)[1..] == p;
        assert Get(a, [k] + p) == Get(x, p) && Get(b, [k] + p) == Get(y, p);
      }
      assert Get(x, []) == Some(x) && Get(y, []) == Some(y);
      if x.Node? && y.Node? {
        LeavesDetermineTree(x, y);
      }
    }
    assert a.children.Keys == b.children.Keys;
    assert a.children == b.children;
  }

  lemma ChildrenIncluded(a: Tree, b: Tree)
    requires NoEmptyNode(a) && a.Node? && b.Node?
    requires forall p, v | p != [] :: Get(a, p) == Some(Leaf(v)) ==> Get(b, p) == Some(Leaf(v))
    ensures forall k | k in a.children :: k in b.children
  {
    forall k | k in a.children
      ensures k in b.children
    {
      var q := SomeLeaf(a.children[k]);
      var p := [k] + q;
      assert p[1..] == q;
      var v := Get(a, p).value.value;
      assert Get(b, p) == Some(Leaf(v));
    }
  }
}
