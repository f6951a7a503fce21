/** Flattening a configuration tree to dotted keys, and rebuilding it from them. */
module ConfigFlatten {
  import opened Wrappers
  import opened Json
  import opened ConfigTree
  import opened ConfigPaths
  import opened ConfigInsert
  import opened ConfigGood
  import ConfigMerge

  type Flat = map<string, Json>

  type Writes = (string, Json) -> bool

  // ----- flattening, for any tree -----

  /** Some leaf of `t`, when `t` stands at `here`, is written under `key` and holds `v`. */
  ghost predicate Named(t: Tree, here: string, key: string, v: Json)
    decreases t
  {
    match t
    case Leaf(w) => key == here && v == w
    case Node(children) => exists k | k in children :: Named(children[k], Extended(here, k), key, v)
  }

  ghost function NamedIn(t: Tree, here: string): Writes {
    (key, v) => Named(t, here, key, v)
  }

  /** As much of `NamedIn` as the entries outside `todo` account for. */
  ghost function NamedBut(value: ConfigMap, here: string, todo: set<string>): Writes {
    (key, v) => exists k | k in value && k !in todo :: Named(value[k], Extended(here, k), key, v)
  }

  /** `out` is `into` overwritten: a written key holds one of the values written there, and
      every other key what it held before. */
  ghost predicate Laid(into: Flat, out: Flat, writes: Writes) {
    forall key ::
      if exists v :: writes(key, v) then key in out && writes(key, out[key])
      else (key in out <==> key in into) && (key in out ==> out[key] == into[key])
  }

  lemma LaidTwice(into: Flat, middle: Flat, out: Flat, first: Writes, second: Writes, both: Writes)
    requires Laid(into, middle, first) && Laid(middle, out, second)
    requires forall key, v :: both(key, v) <==> first(key, v) || second(key, v)
    ensures Laid(into, out, both)
  {
    forall key
      ensures if exists v :: both(key, v) then key in out && both(key, out[key])
              else (key in out <==> key in into) && (key in out ==> out[key] == into[key])
    {
      if v :| both(key, v) {
        assert first(key, v) || second(key, v);
      }
      if v :| first(key, v) {
        assert both(key, v);
      }
      if v :| second(key, v) {
        assert both(key, v);
      }
    }
  }

  lemma OneMoreNamed(value: ConfigMap, here: string, todo: set<string>, k: string, key: string, v: Json)
    requires k in todo && k in value
    ensures NamedBut(value, here, todo - {k})(key, v)
            <==> NamedBut(value, here, todo)(key, v) || Named(value[k], Extended(here, k), key, v)
  {
    if c :| c in value && c !in todo - {k} && Named(value[c], Extended(here, c), key, v) {
      assert c == k || c !in todo;
    }
  }

  lemma FlattenTurn(value: ConfigMap, here: string, todo: set<string>, k: string, into: Flat, middle: Flat, out: Flat)
    requires k in todo && k in value
    requires Laid(into, middle, NamedBut(value, here, todo)) && Laid(middle, out, NamedIn(value[k], Extended(here, k)))
    ensures Laid(into, out, NamedBut(value, here, todo - {k}))
  {
    forall key, v
      ensures NamedBut(value, here, todo - {k})(key, v)
              <==> NamedBut(value, here, todo)(key, v) || NamedIn(value[k], Extended(here, k))(key, v)
    {
      OneMoreNamed(value, here, todo, k, key, v);
    }
    LaidTwice(into, middle, out, NamedBut(value, here, todo), NamedIn(value[k], Extended(here, k)),
              NamedBut(value, here, todo - {k}));
  }

  /** Visits the entries in any order.  When two leaves are written under one key, which a key
      with dots or an empty key can bring about, either value may stay. */
  method FlattenMap(value: ConfigMap, prefix: string, into: Flat) returns (out: Flat)
    ensures Laid(into, out, NamedIn(Node(value), prefix))
    decreases Node(value)
  {
    out := into;
    var todo := value.Keys;
    while todo != {}
      invariant todo <= value.Keys
      invariant Laid(into, out, NamedBut(value, prefix, todo))
      decreases |todo|
    {
      var key :| key in todo;
      var next := Extended(prefix, key);
      ghost var middle := out;
      match value[key] {
        case Leaf(v) =>
          out := out[next := v];
          assert NamedIn(value[key], next)(next, v);
        case Node(children) =>
          ConfigMerge.SmallerEntry(value, key);
          out := FlattenMap(children, next, out);
      }
      FlattenTurn(value, prefix, todo, key, into, middle, out);
      todo := todo - {key};
    }
    forall key, v
      ensures NamedBut(value, prefix, {})(key, v) <==> NamedIn(Node(value), prefix)(key, v)
    {
    }
  }

  ghost predicate FlatOf(flat: Flat, m: ConfigMap) {
    Laid(map[], flat, NamedIn(Node(m), ""))
  }

  method FlattenSnapshot(m: ConfigMap) returns (flat: Flat)
    ensures FlatOf(flat, m)
  {
    flat := FlattenMap(m, "", map[]);
  }

  // ----- what is written is the leaves -----

  lemma OneStep(here: Path, k: string, p: Path)
    ensures Dotted(here + [k]) == Extended(Dotted(here), k)
    ensures here + [k] + p == here + ([k] + p)
    ensures ([k] + p)[1..] == p
  {
    assert (here + [k])[..|here|] == here;
  }

  lemma {:induction false} NamedByPath(t: Tree, here: Path, key: string, v: Json) returns (p: Path)
    requires Named(t, Dotted(here), key, v)
    ensures Get(t, p) == Some(Leaf(v)) && key == Dotted(here + p)
    decreases t
  {
    match t
    case Leaf(_) =>
      p := [];
      assert here + p == here;
    case Node(children) =>
      var k :| k in children && Named(children[k], Extended(Dotted(here), k), key, v);
      OneStep(here, k, []);
      var q := NamedByPath(children[k], here + [k], key, v);
      OneStep(here, k, q);
      p := [k] + q;
  }

  lemma {:induction false} PathIsNamed(t: Tree, here: Path, p: Path, v: Json)
    requires Get(t, p) == Some(Leaf(v))
    ensures Named(t, Dotted(here), Dotted(here + p), v)
    decreases |p|
  {
    if p == [] {
      assert here + p == here;
    } else {
      var k := p[0];
      assert p == [k] + p[1..];
      OneStep(here, k, p[1..]);
      PathIsNamed(t.children[k], here + [k], p[1..], v);
    }
  }

  // ----- reading what was written -----

  lemma {:induction false} PathsAreGood(t: Tree, p: Path)
    requires GoodTree(t) && Get(t, p).Some?
    ensures GoodPath(p)
  {
    if p != [] {
      PathsAreGood(t.children[p[0]], p[1..]);
      assert p == [p[0]] + p[1..];
    }
  }

  /** The leaf that `get_raw` reads under a key, if it reads one. */
  function ReadLeaf(m: ConfigMap, key: string): Option<Json> {
    match GetRaw(m, key)
    case Some(Leaf(v)) => Some(v)
    case _ => None
  }

  /** A key written the one way its path is written. */
  predicate Canonical(key: string) {
    Dotted(Segments(key)) == key
  }

  /** The flat map and `get_raw` agree: its keys are the canonical keys that read a leaf, and
      it maps each to that leaf. */
  lemma FlatReads(m: ConfigMap, flat: Flat, key: string)
    requires GoodTree(Node(m)) && FlatOf(flat, m)
    ensures key in flat <==> Canonical(key) && ReadLeaf(m, key).Some?
    ensures key in flat ==> ReadLeaf(m, key) == Some(flat[key])
  {
    if key in flat {
      FlatIsRead(m, flat, key);
    }
    if Canonical(key) && ReadLeaf(m, key).Some? {
      PathIsNamed(Node(m), [], Segments(key), ReadLeaf(m, key).value);
      assert [] + Segments(key) == Segments(key);
      assert NamedIn(Node(m), "")(key, ReadLeaf(m, key).value);
    }
  }

  lemma FlatIsRead(m: ConfigMap, flat: Flat, key: string)
    requires GoodTree(Node(m)) && FlatOf(flat, m) && key in flat
    ensures Canonical(key) && ReadLeaf(m, key) == Some(flat[key])
    ensures LeafAt(m, Segments(key), flat[key]) && GoodPath(Segments(key))
  {
    assert NamedIn(Node(m), "")(key, flat[key]);
    var p := NamedByPath(Node(m), [], key, flat[key]);
    assert [] + p == p;
    PathsAreGood(Node(m), p);
    DottedReadsBack(p);
  }

  lemma LeafIsFlat(m: ConfigMap, flat: Flat, p: Path, v: Json)
    requires GoodTree(Node(m)) && FlatOf(flat, m) && LeafAt(m, p, v)
    ensures Segments(Dotted(p)) == p && Dotted(p) in flat && flat[Dotted(p)] == v
  {
    PathsAreGood(Node(m), p);
    DottedReadsBack(p);
    FlatReads(m, flat, Dotted(p));
  }

  // ----- rebuilding -----

  /** Inserting the entries of a flat map, in the order given, into an empty map. */
  function Rebuilt(flat: Flat, order: seq<string>): ConfigMap
    requires forall k | k in order :: k in flat
  {
    if order == [] then map[]
    else
      var key := order[|order| - 1];
      MergedValue(Rebuilt(flat, order[..|order| - 1]), key, Leaf(flat[key]))
  }

  /** No leaf stands above another. */
  lemma LeavesApart(m: ConfigMap, p: Path, v: Json, q: Path, w: Json)
    requires LeafAt(m, p, v) && LeafAt(m, q, w)
    ensures Comparable(p, q) ==> p == q
  {
    if IsPrefix(p, q) {
      NothingBelowLeaf(m, p, v, q);
    } else if IsPrefix(q, p) {
      NothingBelowLeaf(m, q, w, p);
    }
  }

  lemma {:induction false} RebuiltLeaves(m: ConfigMap, flat: Flat, order: seq<string>, q: Path, w: Json)
    requires GoodTree(Node(m)) && FlatOf(flat, m) && forall k | k in order :: k in flat
    requires q != []
    ensures LeafAt(Rebuilt(flat, order), q, w) <==> LeafAt(m, q, w) && Dotted(q) in order
    decreases |order|
  {
    if order != [] {
      var init, key := order[..|order| - 1], order[|order| - 1];
      assert order == init + [key];
      var p := Segments(key);
      FlatIsRead(m, flat, key);
      RebuiltLeaves(m, flat, init, q, w);
      LeavesAfterInsert(Rebuilt(flat, init), p, flat[key], q, w);
      if LeafAt(m, q, w) {
        LeafIsFlat(m, flat, q, w);
        LeavesApart(m, p, flat[key], q, w);
      }
    }
  }

  lemma {:induction false} RebuiltHasNoEmpty(m: ConfigMap, flat: Flat, order: seq<string>)
    requires GoodTree(Node(m)) && FlatOf(flat, m) && forall k | k in order :: k in flat
    ensures NoEmptyNode(Node(Rebuilt(flat, order)))
    decreases |order|
  {
    if order != [] {
      var init, key := order[..|order| - 1], order[|order| - 1];
      FlatIsRead(m, flat, key);
      RebuiltHasNoEmpty(m, flat, init);
      InsertKeepsNoEmpty(Rebuilt(flat, init), Segments(key), Leaf(flat[key]));
    }
  }

  /** Round trip: inserting every flattened entry into an empty map, in any order, rebuilds the
      tree exactly when it has no empty nested object. */
  lemma FlattenRoundTrip(m: ConfigMap, flat: Flat, order: seq<string>)
    requires GoodTree(Node(m)) && FlatOf(flat, m)
    requires forall k | k in order :: k in flat
    requires forall k | k in flat :: k in order
    ensures Rebuilt(flat, order) == m <==> NoEmptyNode(Node(m))
  {
    RebuiltHasNoEmpty(m, flat, order);
    if NoEmptyNode(Node(m)) {
      forall p, v | p != []
        ensures Get(Node(Rebuilt(flat, order)), p) == Some(Leaf(v)) <==> Get(Node(m), p) == Some(Leaf(v))
      {
        assert LeafAt(m, p, v) <==> Get(Node(m), p) == Some(Leaf(v));
        RebuiltLeaves(m, flat, order, p, v);
        if LeafAt(m, p, v) {
          LeafIsFlat(m, flat, p, v);
        }
      }
      LeavesDetermineTree(Node(Rebuilt(flat, order)), Node(m));
    }
  }
}
