/** Inserting a value along a path, creating or replacing what stands in the way. */
module ConfigInsert {
  import opened Wrappers
  import opened Json
  import opened ConfigTree
  import opened ConfigPaths

  function Inserted(m: ConfigMap, p: Path, value: Tree): ConfigMap
    requires p != []
    decreases |p|
  {
    if |p| == 1 then m[p[0] := value]
    else
      m[p[0] := Node(Inserted(Below(m, p[0]), p[1..], value))]
  }

  /** The object under key `k`; a missing or plain value gives way to a new one. */
  function Below(m: ConfigMap, k: string): ConfigMap {
    if k in m && m[k].Node? then m[k].children else map[]
  }

  /** `merge_value`: a key without segments changes nothing. */
  function MergedValue(m: ConfigMap, key: string, value: Tree): ConfigMap {
    if Segments(key) == [] then m else Inserted(m, Segments(key), value)
  }

  method InsertSegments(root: ConfigMap, segments: Path, value: Tree) returns (r: ConfigMap)
    requires segments != []
    ensures r == Inserted(root, segments, value)
    decreases |segments|
  {
    if |segments| == 1 {
      return root[segments[0] := value];
    }
    var entry := if segments[0] in root then root[segments[0]] else Node(map[]);
    var child;
    if entry.Node? {
      child := InsertSegments(entry.children, segments[1..], value);
    } else {
      child := InsertSegments(map[], segments[1..], value);
    }
    r := root[segments[0] := Node(child)];
  }

  method MergeValue(target: ConfigMap, key: string, value: Tree) returns (r: ConfigMap)
    ensures r == MergedValue(target, key, value)
  {
    var segments := Segments(key);
    if segments == [] {
      return target;
    }
    r := InsertSegments(target, segments, value);
  }

  // ----- reading after inserting -----

  /** What is read after inserting `value` at `p`, at every path: inside the value at and below
      `p`; an object strictly above `p`; and elsewhere what was there. */
  lemma {:induction false} GetAfterInsert(m: ConfigMap, p: Path, value: Tree, q: Path)
    requires p != [] && q != []
    ensures IsPrefix(p, q) ==> Get(Node(Inserted(m, p, value)), q) == Get(value, q[|p|..])
    ensures IsPrefix(q, p) && q != p ==>
              Get(Node(Inserted(m, p, value)), q).Some? && Get(Node(Inserted(m, p, value)), q).value.Node?
    ensures !Comparable(p, q) ==> Get(Node(Inserted(m, p, value)), q) == Get(Node(m), q)
    decreases |p|
  {
    var r := Inserted(m, p, value);
    if q[0] == p[0] {
      PrefixTail(p, q);
      PrefixTail(q, p);
      if |p| == 1 {
        assert q[1..] == q[|p|..];
        assert IsPrefix(p, q);
      } else {
        var child := Below(m, p[0]);
        assert r[p[0]] == Node(Inserted(child, p[1..], value));
        if |q| == 1 {
          assert IsPrefix(q, p);
          assert Get(r[p[0]], []) == Some(r[p[0]]);
        } else {
          GetAfterInsert(child, p[1..], value, q[1..]);
          if IsPrefix(p, q) {
            assert q[1..][|p[1..]|..] == q[|p|..];
          }
          assert Get(Node(r), q) == Get(r[p[0]], q[1..]);
          if !(p[0] in m && m[p[0]].Node?) {
            assert Get(Node(map[]), q[1..]) == None;
          }
        }
      }
    } else {
      PrefixHead(p, q);
      PrefixHead(q, p);
    }
  }

  lemma PrefixHead(p: Path, q: Path)
    requires p != [] && q != []
    ensures IsPrefix(p, q) ==> p[0] == q[0]
    ensures |p| == 1 && p[0] == q[0] ==> IsPrefix(p, q)
  {
    if |p| <= |q| {
      assert q[..|p|][0] == q[0];
    }
    if |p| == 1 {
      assert q[..1] == [q[0]] && p == [p[0]];
    }
  }

  lemma PrefixTail(p: Path, q: Path)
    requires p != [] && q != [] && p[0] == q[0]
    ensures IsPrefix(p, q) <==> IsPrefix(p[1..], q[1..])
    ensures p == q <==> p[1..] == q[1..]
  {
    assert p == [p[0]] + p[1..] && q == [q[0]] + q[1..];
    if IsPrefix(p, q) {
      assert q[1..][..|p| - 1] == q[..|p|][1..];
    }
    if IsPrefix(p[1..], q[1..]) {
      assert q[..|p|] == [q[0]] + q[1..][..|p| - 1];
    }
  }

  /** The leaves after inserting a leaf: the inserted one, and every old one whose path is
      neither above nor below it. */
  lemma LeavesAfterInsert(m: ConfigMap, p: Path, v: Json, q: Path, w: Json)
    requires p != [] && q != []
    ensures LeafAt(Inserted(m, p, Leaf(v)), q, w) <==>
              (q == p && w == v) || (!Comparable(p, q) && LeafAt(m, q, w))
  {
    GetAfterInsert(m, p, Leaf(v), q);
    if IsPrefix(p, q) {
      if q != p {
        assert q[|p|..] != [];
      } else {
        assert q[|p|..] == [];
      }
    }
  }

  /** Inserting keeps trees free of empty objects, if the value is. */
  lemma {:induction false} InsertKeepsNoEmpty(m: ConfigMap, p: Path, value: Tree)
    requires p != [] && NoEmptyNode(Node(m)) && NoEmptyNode(value) && (value.Node? ==> value.children != map[])
    ensures NoEmptyNode(Node(Inserted(m, p, value))) && Inserted(m, p, value) != map[]
    decreases |p|
  {
    var r := Inserted(m, p, value);
    assert p[0] in r;
    if |p| > 1 {
      var child := Below(m, p[0]);
      if p[0] in m && m[p[0]].Node? {
        assert NoEmptyNode(m[p[0]]) && m[p[0]] == Node(child);
      }
      InsertKeepsNoEmpty(child, p[1..], value);
    }
  }

  /** Inserts at paths of which neither is above the other commute. */
  lemma {:induction false} InsertsCommute(m: ConfigMap, p: Path, u: Tree, q: Path, v: Tree)
    requires p != [] && q != [] && !Comparable(p, q)
    ensures Inserted(Inserted(m, p, u), q, v) == Inserted(Inserted(m, q, v), p, u)
    decreases |p|
  {
    if p[0] == q[0] {
      BothGoOn(p, q);
      InsertsCommute(Below(m, p[0]), p[1..], u, q[1..], v);
      TwoInsertsBelow(m, p, u, q, v);
      TwoInsertsBelow(m, q, v, p, u);
    } else {
      ApartInsertsCommute(m, p, u, q, v);
    }
  }

  lemma BothGoOn(p: Path, q: Path)
    requires p != [] && q != [] && !Comparable(p, q) && p[0] == q[0]
    ensures |p| > 1 && |q| > 1 && !Comparable(p[1..], q[1..])
  {
    PrefixTail(p, q);
    PrefixTail(q, p);
    PrefixHead(p, q);
    PrefixHead(q, p);
  }

  lemma TwoInsertsBelow(m: ConfigMap, p: Path, u: Tree, q: Path, v: Tree)
    requires |p| > 1 && |q| > 1 && p[0] == q[0]
    ensures Inserted(Inserted(m, p, u), q, v)
            == m[p[0] := Node(Inserted(Inserted(Below(m, p[0]), p[1..], u), q[1..], v))]
  {
    var once := Inserted(m, p, u);
    var child := Inserted(Below(m, p[0]), p[1..], u);
    assert once == m[p[0] := Node(child)];
    assert Below(once, q[0]) == child;
    assert Inserted(once, q, v) == once[q[0] := Node(Inserted(child, q[1..], v))];
  }

  /** What an insert writes under its first segment. */
  function Written(m: ConfigMap, p: Path, u: Tree): Tree
    requires p != []
  {
    if |p| == 1 then u else Node(Inserted(Below(m, p[0]), p[1..], u))
  }

  lemma ApartInsertsCommute(m: ConfigMap, p: Path, u: Tree, q: Path, v: Tree)
    requires p != [] && q != [] && p[0] != q[0]
    ensures Inserted(Inserted(m, p, u), q, v) == Inserted(Inserted(m, q, v), p, u)
  {
    var x, y := Written(m, p, u), Written(m, q, v);
    assert Inserted(m, p, u) == m[p[0] := x] && Inserted(m, q, v) == m[q[0] := y];
    assert Below(m[p[0] := x], q[0]) == Below(m, q[0]) && Below(m[q[0] := y], p[0]) == Below(m, p[0]);
    assert m[p[0] := x][q[0] := y] == m[q[0] := y][p[0] := x];
  }

  // ----- inserting below what was inserted -----

  /** Inserting at one path twice leaves the second value. */
  lemma {:induction false} InsertTwice(m: ConfigMap, p: Path, u: Tree, v: Tree)
    requires p != []
    ensures Inserted(Inserted(m, p, u), p, v) == Inserted(m, p, v)
    decreases |p|
  {
    if |p| == 1 {
      assert m[p[0] := u][p[0] := v] == m[p[0] := v];
    } else {
      InsertTwice(Below(m, p[0]), p[1..], u, v);
      TwoInsertsBelow(m, p, u, p, v);
    }
  }

  /** The children of an object; a missing value or a leaf has none. */
  function ChildrenOf(t: Option<Tree>): ConfigMap {
    if t.Some? && t.value.Node? then t.value.children else map[]
  }

  /** Inserting at a path is inserting in the object at any path above it. */
  lemma {:induction false} InsertThrough(m: ConfigMap, p: Path, r: Path, v: Tree)
    requires p != [] && r != []
    ensures Inserted(m, p + r, v) == Inserted(m, p, Node(Inserted(ChildrenOf(Get(Node(m), p)), r, v)))
    decreases |p|
  {
    var below := Below(m, p[0]);
    assert (p + r)[1..] == p[1..] + r && (p + r)[0] == p[0];
    if |p| == 1 {
      assert p[1..] + r == r;
      assert ChildrenOf(Get(Node(m), p)) == below by {
        assert p[1..] == [];
      }
    } else {
      InsertThrough(below, p[1..], r, v);
      assert ChildrenOf(Get(Node(m), p)) == ChildrenOf(Get(Node(below), p[1..]));
    }
  }
}
