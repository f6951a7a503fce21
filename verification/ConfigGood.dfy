/** Trees whose keys can all be named by dotted keys: what loading does never leaves them. */
module ConfigGood {
  import opened ConfigTree
  import opened ConfigPaths
  import opened ConfigInsert
  import opened ConfigMerge

  predicate GoodTree(t: Tree)
  {
    t.Node? ==> forall k | k in t.children :: GoodSegment(k) && GoodTree(t.children[k])
  }

  lemma {:induction false} MergeKeepsGood(base: Tree, overlay: Tree)
    requires GoodTree(base) && GoodTree(overlay)
    ensures GoodTree(Merged(base, overlay))
    decreases overlay
  {
    if base.Node? && overlay.Node? {
      forall k | k in base.children && k in overlay.children
        ensures GoodTree(Merged(base.children[k], overlay.children[k]))
      {
        MergeKeepsGood(base.children[k], overlay.children[k]);
      }
    }
  }

  lemma {:induction false} MergesKeepGood(sources: seq<ConfigMap>)
    requires forall m | m in sources :: GoodTree(Node(m))
    ensures GoodTree(Node(MergedAll(sources)))
  {
    if sources != [] {
      var init, last := sources[..|sources| - 1], sources[|sources| - 1];
      assert sources == init + [last];
      MergesKeepGood(init);
      MergeKeepsGood(Node(MergedAll(init)), Node(last));
    }
  }

  lemma {:induction false} InsertKeepsGood(m: ConfigMap, p: Path, value: Tree)
    requires p != [] && GoodPath(p) && GoodTree(Node(m)) && GoodTree(value)
    ensures GoodTree(Node(Inserted(m, p, value)))
    decreases |p|
  {
    if |p| > 1 {
      var child := Below(m, p[0]);
      assert GoodTree(Node(child)) by {
        if p[0] in m && m[p[0]].Node? {
          assert GoodTree(m[p[0]]) && m[p[0]] == Node(child);
        }
      }
      InsertKeepsGood(child, p[1..], value);
    }
  }

  /** However a key is written, inserting under it makes no key that cannot be named. */
  lemma MergeValueKeepsGood(m: ConfigMap, key: string, value: Tree)
    requires GoodTree(Node(m)) && GoodTree(value)
    ensures GoodTree(Node(MergedValue(m, key, value)))
  {
    SegmentsAreGood(key);
    if Segments(key) != [] {
      InsertKeepsGood(m, Segments(key), value);
    }
  }
}
