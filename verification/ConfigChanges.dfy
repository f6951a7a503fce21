/** Which keys changed between two snapshots. */
module ConfigChanges {
  import opened Wrappers
  import opened Json
  import opened ConfigTree
  import opened ConfigPaths
  import opened ConfigGood
  import opened ConfigFlatten
  import opened Orders
  import StableSort

  /** Strictly sorted: in order, and nothing twice. */
  predicate Increasing(keys: seq<string>) {
    forall i, j | 0 <= i < j < |keys| :: CompareStrings(keys[i], keys[j]) == Less
  }

  function NotGreater(): (string, string) -> bool {
    (a, b) => CompareStrings(a, b) != Greater
  }

  ghost predicate Distinct(keys: seq<string>) {
    StableSort.Ordered(keys, (a: string, b: string) => a != b)
  }

  lemma SortedDistinct(keys: seq<string>)
    requires Distinct(keys)
    ensures Increasing(StableSort.SortBy(keys, NotGreater()))
    ensures forall k :: k in StableSort.SortBy(keys, NotGreater()) <==> k in keys
  {
    var le := NotGreater();
    var sorted := StableSort.SortBy(keys, le);
    var all := set k | k in keys;
    StringsAreComparable(all);
    StableSort.SortRefinesOrder(keys, all, le, (a: string, b: string) => a != b);
    forall i, j | 0 <= i < j < |sorted|
      ensures CompareStrings(sorted[i], sorted[j]) == Less
    {
      assert StableSort.Lexicographic(le, (a: string, b: string) => a != b)(sorted[i], sorted[j]);
      StringsCompare(sorted[i], sorted[j]);
    }
    StableSort.SortPermutes(keys, le);
    forall k
      ensures k in sorted <==> k in keys
    {
      StableSort.PermutedMember(sorted, keys, k);
    }
  }

  lemma StringsAreComparable(all: set<string>)
    ensures StableSort.Comparable(all, NotGreater())
  {
    var le := NotGreater();
    forall a, b | a in all && b in all
      ensures le(a, b) || le(b, a)
    {
      StringsCompare(a, b);
    }
    forall a, b, c | a in all && b in all && c in all && le(a, b) && le(b, c)
      ensures le(a, c)
    {
      StringsTransitive(a, b, c);
    }
  }

  /** A strictly sorted list is determined by its members, whatever order they were found in. */
  lemma {:induction false} IncreasingDetermined(xs: seq<string>, ys: seq<string>)
    requires Increasing(xs) && Increasing(ys) && forall k :: k in xs <==> k in ys
    ensures xs == ys
  {
    assert ys != [] ==> ys[0] in xs;
    if xs != [] {
      assert xs[0] in ys;
      FirstIsLeast(xs, ys[0]);
      FirstIsLeast(ys, xs[0]);
      StringsCompare(xs[0], ys[0]);
      assert xs[0] == ys[0];
      forall k
        ensures k in xs[1..] <==> k in ys[1..]
      {
        TailMembers(xs, k);
        TailMembers(ys, k);
      }
      IncreasingDetermined(xs[1..], ys[1..]);
      assert xs == [xs[0]] + xs[1..] && ys == [ys[0]] + ys[1..];
    }
  }

  lemma FirstIsLeast(xs: seq<string>, k: string)
    requires Increasing(xs) && k in xs
    ensures CompareStrings(xs[0], k) != Greater
  {
    StringsCompare(xs[0], xs[0]);
  }

  lemma TailMembers(xs: seq<string>, k: string)
    requires Increasing(xs) && xs != []
    ensures k in xs[1..] <==> k in xs && k != xs[0]
  {
    StringsCompare(xs[0], xs[0]);
    assert xs == [xs[0]] + xs[1..];
    forall j | 0 <= j < |xs[1..]|
      ensures xs[1..][j] != xs[0]
    {
      assert CompareStrings(xs[0], xs[j + 1]) == Less;
    }
  }

  // ----- compute_changed_keys -----

  function Lookup(flat: Flat, key: string): Option<Json> {
    if key in flat then Some(flat[key]) else None
  }

  ghost predicate Differ(prev: Flat, current: Flat, key: string) {
    Lookup(prev, key) != Lookup(current, key)
  }

  /** The keys outside `todo` that differ have been found, each once. */
  ghost predicate Found(changed: seq<string>, prev: Flat, current: Flat, todo: set<string>) {
    && Distinct(changed)
    && forall key :: key in changed <==> key !in todo && Differ(prev, current, key)
  }

  lemma FoundOne(changed: seq<string>, prev: Flat, current: Flat, todo: set<string>, key: string)
    requires Found(changed, prev, current, todo) && key in todo
    ensures Found(if Differ(prev, current, key) then changed + [key] else changed, prev, current, todo - {key})
  {
  }

  /** A key is reported exactly when it is canonical and the leaf read there differs between
      the snapshots. */
  ghost predicate Reports(changed: seq<string>, prev: ConfigMap, current: ConfigMap) {
    && Increasing(changed)
    && forall key :: key in changed <==> Canonical(key) && ReadLeaf(prev, key) != ReadLeaf(current, key)
  }

  /** So there is one report, whatever order the keys are visited in. */
  lemma ReportIsUnique(changed: seq<string>, other: seq<string>, prev: ConfigMap, current: ConfigMap)
    requires Reports(changed, prev, current) && Reports(other, prev, current)
    ensures changed == other
  {
    IncreasingDetermined(changed, other);
  }

  /** A missing previous snapshot reads nothing. */
  method ComputeChangedKeys(prev: Option<ConfigMap>, current: ConfigMap) returns (changed: seq<string>)
    ensures Increasing(changed)
    ensures GoodTree(Node(prev.GetOr(map[]))) && GoodTree(Node(current))
            ==> Reports(changed, prev.GetOr(map[]), current)
  {
    var currentFlat := FlattenSnapshot(current);
    var prevFlat := map[];
    if prev.Some? {
      prevFlat := FlattenSnapshot(prev.value);
    }
    assert FlatOf(prevFlat, prev.GetOr(map[]));
    var todo := currentFlat.Keys + prevFlat.Keys;
    var found := [];
    while todo != {}
      invariant Found(found, prevFlat, currentFlat, todo)
      decreases |todo|
    {
      var key :| key in todo;
      FoundOne(found, prevFlat, currentFlat, todo, key);
      todo := todo - {key};
      if Lookup(prevFlat, key) != Lookup(currentFlat, key) {
        found := found + [key];
      }
    }
    changed := StableSort.SortBy(found, NotGreater());
    SortedDistinct(found);
    if GoodTree(Node(prev.GetOr(map[]))) && GoodTree(Node(current)) {
      forall key
        ensures key in changed <==> Canonical(key) && ReadLeaf(prev.GetOr(map[]), key) != ReadLeaf(current, key)
      {
        FlatReads(prev.GetOr(map[]), prevFlat, key);
        FlatReads(current, currentFlat, key);
      }
    }
  }

  lemma SingleLeafReads(key: string, v: Json)
    ensures ReadLeaf(map[key := Leaf(v)], key) == if GoodSegment(key) then Some(v) else None
  {
    var m: ConfigMap := map[key := Leaf(v)];
    var segments := Segments(key);
    SegmentsAreGood(key);
    if GoodSegment(key) {
      SegmentsOfOne(key);
      assert Get(m[key], [key][1..]) == Some(Leaf(v));
    } else if segments != [] {
      assert segments[0] !in m && Get(Node(m), segments) == None;
    }
  }

  lemma SingleLeafIsNamed(key: string, v: Json, w: Json)
    ensures NamedIn(Node(map[key := Leaf(v)]), "")(key, w) <==> w == v
  {
    var m: ConfigMap := map[key := Leaf(v)];
    assert Named(m[key], Extended("", key), key, w) <==> w == v;
  }

  /** A key that is empty or has dots in it and the report part: a leaf under it is written under
      that key, but can be read there exactly when the key is a segment a dotted key can name. */
  lemma UnnameableKeyIsUnreadable(key: string, v: Json)
    ensures ReadLeaf(map[key := Leaf(v)], key) == Some(v) <==> GoodSegment(key)
    ensures forall flat :: FlatOf(flat, map[key := Leaf(v)]) ==> key in flat && flat[key] == v
  {
    SingleLeafReads(key, v);
    forall flat | FlatOf(flat, map[key := Leaf(v)])
      ensures key in flat && flat[key] == v
    {
      SingleLeafIsNamed(key, v, v);
      SingleLeafIsNamed(key, v, flat[key]);
    }
  }
}
