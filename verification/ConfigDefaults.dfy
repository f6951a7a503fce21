/** Filling in schema defaults after the layers are merged, and loading as a whole. */
module ConfigDefaults {
  import opened Wrappers
  import opened Json
  import opened ConfigTree
  import opened ConfigPaths
  import opened ConfigInsert
  import opened ConfigMerge
  import opened ConfigGood
  import opened ConfigChanges

  /** A declared field of a namespace, with its default if it has one. */
  datatype Field = Field(namespace: string, key: string, default: Option<Tree>)

  function ComposeFullPath(namespace: string, key: string): string {
    if key == "" then namespace else namespace + "." + key
  }

  /** The path a field stands for. */
  function PathOf(f: Field): Path {
    Segments(ComposeFullPath(f.namespace, f.key))
  }

  /** The field has a default, and a path to put it at. */
  predicate Fills(f: Field) {
    f.default.Some? && PathOf(f) != []
  }

  /** The default of one field goes in where nothing can be read. */
  function Filled(m: ConfigMap, f: Field): ConfigMap {
    var full := ComposeFullPath(f.namespace, f.key);
    if f.default.Some? && GetRaw(m, full).None? then MergedValue(m, full, f.default.value) else m
  }

  function Defaulted(m: ConfigMap, fields: seq<Field>): ConfigMap {
    if fields == [] then m else Filled(Defaulted(m, fields[..|fields| - 1]), fields[|fields| - 1])
  }

  method ApplyDefaults(m: ConfigMap, fields: seq<Field>) returns (r: ConfigMap)
    ensures r == Defaulted(m, fields)
  {
    r := m;
    for i := 0 to |fields|
      invariant r == Defaulted(m, fields[..i])
    {
      assert fields[..i + 1][..i] == fields[..i];
      var f := fields[i];
      if f.default.Some? {
        var full := ComposeFullPath(f.namespace, f.key);
        var present := PathExists(r, full);
        if !present {
          r := MergeValue(r, full, f.default.value);
        }
      }
    }
    assert fields[..|fields|] == fields;
  }

  // ----- one default -----

  lemma AbsentBelow(m: ConfigMap, p: Path, q: Path)
    requires IsPrefix(p, q) && Get(Node(m), p).None?
    ensures Get(Node(m), q).None?
  {
    GetSplits(Node(m), p, q[|p|..]);
    assert p + q[|p|..] == q;
  }

  /** `p` is strictly above `q`. */
  predicate Above(p: Path, q: Path) {
    IsPrefix(p, q) && p != q
  }

  /** What one default does to a path at which something could be read: an object stays an
      object, and a leaf stays unless the default's path leads on through it. */
  lemma FillKeeps(m: ConfigMap, f: Field, q: Path)
    requires q != [] && Get(Node(m), q).Some?
    ensures Get(Node(Filled(m, f)), q).Some?
    ensures Get(Node(m), q).value.Node? ==> Get(Node(Filled(m, f)), q).value.Node?
    ensures Get(Node(m), q).value.Leaf? ==>
              if Fills(f) && Above(q, PathOf(f)) then Get(Node(Filled(m, f)), q).value.Node?
              else Get(Node(Filled(m, f)), q) == Get(Node(m), q)
  {
    var p := PathOf(f);
    if Fills(f) {
      if Get(Node(m), p).None? {
        GetAfterInsert(m, p, f.default.value, q);
        if IsPrefix(p, q) {
          AbsentBelow(m, p, q);
        }
      } else if Above(q, p) && Get(Node(m), q).value.Leaf? {
        NothingBelowLeaf(m, q, Get(Node(m), q).value.value, p);
      }
    }
  }

  lemma FillApart(m: ConfigMap, f: Field, q: Path)
    requires q != [] && (Fills(f) ==> !Comparable(PathOf(f), q))
    ensures Get(Node(Filled(m, f)), q) == Get(Node(m), q)
  {
    if Fills(f) {
      GetAfterInsert(m, PathOf(f), f.default.value, q);
    }
  }

  lemma FillReads(m: ConfigMap, f: Field)
    requires Fills(f)
    ensures Get(Node(Filled(m, f)), PathOf(f)) == Some(Get(Node(m), PathOf(f)).GetOr(f.default.value))
  {
    GetAfterInsert(m, PathOf(f), f.default.value, PathOf(f));
    assert PathOf(f)[|PathOf(f)|..] == [];
  }

  // ----- all defaults -----

  /** Whatever could be read before can be read after. */
  lemma {:induction false} ExistingKeepsExisting(m: ConfigMap, fields: seq<Field>, key: string)
    requires GetRaw(m, key).Some?
    ensures GetRaw(Defaulted(m, fields), key).Some?
    decreases |fields|
  {
    if fields != [] {
      var init := fields[..|fields| - 1];
      ExistingKeepsExisting(m, init, key);
      FillKeeps(Defaulted(m, init), fields[|fields| - 1], Segments(key));
    }
  }

  /** Every default with a path can be read afterwards, as itself or as what was there. */
  lemma {:induction false} EveryDefaultExists(m: ConfigMap, fields: seq<Field>, f: Field)
    requires f in fields && Fills(f)
    ensures GetRaw(Defaulted(m, fields), ComposeFullPath(f.namespace, f.key)).Some?
    decreases |fields|
  {
    var init, last := fields[..|fields| - 1], fields[|fields| - 1];
    if f == last {
      FillReads(Defaulted(m, init), f);
    } else {
      EveryDefaultExists(m, init, f);
      FillKeeps(Defaulted(m, init), last, PathOf(f));
    }
  }

  /** Some default's path leads on from `q`. */
  predicate LedThrough(fields: seq<Field>, q: Path) {
    exists f | f in fields :: Fills(f) && Above(q, PathOf(f))
  }

  /** A leaf of the sources survives exactly when no default's path leads on through it;
      otherwise an object takes its place. */
  lemma {:induction false} LeafSurvivesExactly(m: ConfigMap, fields: seq<Field>, q: Path, v: Json)
    requires LeafAt(m, q, v)
    ensures LeafAt(Defaulted(m, fields), q, v) <==> !LedThrough(fields, q)
    ensures LedThrough(fields, q)
            ==> Get(Node(Defaulted(m, fields)), q).Some? && Get(Node(Defaulted(m, fields)), q).value.Node?
    decreases |fields|
  {
    if fields != [] {
      var init, last := fields[..|fields| - 1], fields[|fields| - 1];
      LeafSurvivesExactly(m, init, q, v);
      FillKeeps(Defaulted(m, init), last, q);
      LedThroughSnoc(init, last, q);
      assert fields == init + [last];
    }
  }

  lemma LedThroughSnoc(init: seq<Field>, last: Field, q: Path)
    ensures LedThrough(init + [last], q) <==> LedThrough(init, q) || (Fills(last) && Above(q, PathOf(last)))
  {
    assert last in init + [last];
  }

  /** The default of the field has leaf `v` where it would come to stand at `q`. */
  predicate HasLeaf(f: Field, q: Path, v: Json) {
    Fills(f) && IsPrefix(PathOf(f), q) && Get(f.default.value, q[|PathOf(f)|..]) == Some(Leaf(v))
  }

  predicate FromDefault(fields: seq<Field>, q: Path, v: Json) {
    exists f | f in fields :: HasLeaf(f, q, v)
  }

  /** Every leaf afterwards was there before, or lies in some default at the default's path. */
  lemma {:induction false} LeafHasOrigin(m: ConfigMap, fields: seq<Field>, q: Path, v: Json)
    requires LeafAt(Defaulted(m, fields), q, v)
    ensures LeafAt(m, q, v) || FromDefault(fields, q, v)
    decreases |fields|
  {
    if fields != [] {
      var init, last := fields[..|fields| - 1], fields[|fields| - 1];
      var before := Defaulted(m, init);
      if LeafAt(before, q, v) {
        LeafHasOrigin(m, init, q, v);
      } else {
        assert Fills(last);
        GetAfterInsert(before, PathOf(last), last.default.value, q);
        assert last in fields && HasLeaf(last, q, v);
      }
    }
  }

  /** Defaults are documented as the lowest layer, but one can destroy a value a source set. */
  lemma DefaultOverridesSource()
    ensures var m, f := map["net" := Leaf(Bool(true))], Field("net", "port", Some(Leaf(Null)));
            LeafAt(m, ["net"], Bool(true)) && !LeafAt(Defaulted(m, [f]), ["net"], Bool(true))
  {
    var m, f := map["net" := Leaf(Bool(true))], Field("net", "port", Some(Leaf(Null)));
    SegmentsOfOne("net");
    SegmentsSnoc("net", "port");
    assert PathOf(f) == ["net", "port"];
    assert ["net"][1..] == [];
    assert LeafAt(m, ["net"], Bool(true));
    assert f in [f] && Above(["net"], PathOf(f));
    LeafSurvivesExactly(m, [f], ["net"], Bool(true));
  }

  // ----- independent defaults -----

  /** The two fields cannot meet: neither path leads to the other, or one has nothing to fill. */
  predicate Apart(f: Field, g: Field) {
    f == g || !Fills(f) || !Fills(g) || !Comparable(PathOf(f), PathOf(g))
  }

  predicate AllApart(fields: seq<Field>) {
    forall f, g | f in fields && g in fields :: Apart(f, g)
  }

  /** Where defaults cannot meet, each is read at its path unless the sources had something
      there, which then is read unchanged. */
  lemma {:induction false} DefaultOrSource(m: ConfigMap, fields: seq<Field>, f: Field)
    requires AllApart(fields) && Fills(f) && forall g | g in fields :: Apart(f, g)
    ensures Get(Node(Defaulted(m, fields)), PathOf(f)) ==
              if f in fields then Some(Get(Node(m), PathOf(f)).GetOr(f.default.value)) else Get(Node(m), PathOf(f))
    decreases |fields|
  {
    if fields != [] {
      var init, last := fields[..|fields| - 1], fields[|fields| - 1];
      assert fields == init + [last] && last in fields;
      DefaultOrSource(m, init, f);
      if f == last {
        FillReads(Defaulted(m, init), f);
      } else {
        FillApart(Defaulted(m, init), last, PathOf(f));
      }
    }
  }

  // ----- the order of defaults -----

  /** Filling an empty map with the two defaults, either first, comes to the same. */
  predicate Commute(f: Field, g: Field) {
    Filled(Filled(map[], f), g) == Filled(Filled(map[], g), f)
  }

  lemma ApartFillsCommute(m: ConfigMap, f: Field, g: Field)
    requires Apart(f, g)
    ensures Filled(Filled(m, f), g) == Filled(Filled(m, g), f)
  {
    if f != g && Fills(f) && Fills(g) {
      FillApart(m, f, PathOf(g));
      FillApart(m, g, PathOf(f));
      InsertsCommute(m, PathOf(f), f.default.value, PathOf(g), g.default.value);
    }
  }

  lemma InsertedIsRead(m: ConfigMap, p: Path, v: Tree)
    requires p != []
    ensures Get(Node(Inserted(m, p, v)), p) == Some(v)
  {
    GetAfterInsert(m, p, v, p);
    assert p[|p|..] == [];
  }

  lemma SamePathFillsCommute(m: ConfigMap, f: Field, g: Field)
    requires Fills(f) && Fills(g) && PathOf(f) == PathOf(g) && Commute(f, g)
    ensures Filled(Filled(m, f), g) == Filled(Filled(m, g), f)
  {
    var p := PathOf(f);
    assert Get(Node(map[]), p) == None;
    InsertedIsRead(map[], p, f.default.value);
    InsertedIsRead(map[], p, g.default.value);
    assert f.default == g.default;
  }

  /** What two defaults leave under the path of the upper one when nothing was there: the upper one
      first, or the lower one first. */
  function UpperFirst(upper: Tree, r: Path, lower: Tree): Tree
    requires r != []
  {
    if Get(upper, r).Some? then upper else Node(Inserted(ChildrenOf(Some(upper)), r, lower))
  }

  function LowerFirst(r: Path, lower: Tree): Tree
    requires r != []
  {
    Node(Inserted(map[], r, lower))
  }

  lemma FillsUnderAbsent(m: ConfigMap, f: Field, g: Field)
    requires Fills(f) && Fills(g) && Above(PathOf(f), PathOf(g)) && Get(Node(m), PathOf(f)).None?
    ensures var p, r := PathOf(f), PathOf(g)[|PathOf(f)|..];
            && r != []
            && Filled(Filled(m, f), g) == Inserted(m, p, UpperFirst(f.default.value, r, g.default.value))
            && Filled(Filled(m, g), f) == Inserted(m, p, LowerFirst(r, g.default.value))
  {
    var p, q, r := PathOf(f), PathOf(g), PathOf(g)[|PathOf(f)|..];
    var upper, lower := f.default.value, g.default.value;
    assert q == p + r && r != [];
    var first := Inserted(m, p, upper);
    InsertedIsRead(m, p, upper);
    GetAfterInsert(m, p, upper, q);
    InsertThrough(first, p, r, lower);
    InsertTwice(m, p, upper, Node(Inserted(ChildrenOf(Some(upper)), r, lower)));
    AbsentBelow(m, p, q);
    InsertThrough(m, p, r, lower);
    InsertedIsRead(m, p, LowerFirst(r, lower));
  }

  lemma AboveFillsCommute(m: ConfigMap, f: Field, g: Field)
    requires Fills(f) && Fills(g) && Above(PathOf(f), PathOf(g)) && Commute(f, g)
    ensures Filled(Filled(m, f), g) == Filled(Filled(m, g), f)
  {
    var p, r := PathOf(f), PathOf(g)[|PathOf(f)|..];
    if Get(Node(m), p).None? {
      assert Get(Node(map[]), p) == None;
      FillsUnderAbsent(map[], f, g);
      InsertedIsRead(map[], p, UpperFirst(f.default.value, r, g.default.value));
      InsertedIsRead(map[], p, LowerFirst(r, g.default.value));
      FillsUnderAbsent(m, f, g);
    } else {
      FillKeeps(m, g, p);
    }
  }

  lemma FillsCommute(m: ConfigMap, f: Field, g: Field)
    requires Commute(f, g)
    ensures Filled(Filled(m, f), g) == Filled(Filled(m, g), f)
  {
    if Apart(f, g) {
      ApartFillsCommute(m, f, g);
    } else if PathOf(f) == PathOf(g) {
      SamePathFillsCommute(m, f, g);
    } else if IsPrefix(PathOf(f), PathOf(g)) {
      AboveFillsCommute(m, f, g);
    } else {
      AboveFillsCommute(m, g, f);
    }
  }

  /** Two defaults come to the same in either order, whatever the sources hold, exactly when they
      do on an empty map: the declarations alone decide. */
  lemma CommuteExactly(f: Field, g: Field)
    ensures (forall m :: Filled(Filled(m, f), g) == Filled(Filled(m, g), f)) <==> Commute(f, g)
  {
    if Commute(f, g) {
      forall m
        ensures Filled(Filled(m, f), g) == Filled(Filled(m, g), f)
      {
        FillsCommute(m, f, g);
      }
    }
  }

  /** In particular they do when neither path leads to the other, and when a default that is not an
      object stands above another default. */
  lemma ApartAndLeavesCommute(f: Field, g: Field)
    ensures Apart(f, g) ==> Commute(f, g)
    ensures Fills(f) && Fills(g) && Above(PathOf(f), PathOf(g)) && f.default.value.Leaf? ==> Commute(f, g)
  {
    if Apart(f, g) {
      ApartFillsCommute(map[], f, g);
    }
    if Fills(f) && Fills(g) && Above(PathOf(f), PathOf(g)) && f.default.value.Leaf? {
      assert Get(Node(map[]), PathOf(f)) == None;
      FillsUnderAbsent(map[], f, g);
    }
  }

  predicate AllCommute(fields: seq<Field>) {
    forall f, g | f in fields && g in fields :: Commute(f, g)
  }

  function Without<T>(s: seq<T>, i: nat): seq<T>
    requires i < |s|
  {
    s[..i] + s[i + 1..]
  }

  lemma WithoutOne<T>(s: seq<T>, i: nat)
    requires i < |s|
    ensures multiset(Without(s, i)) == multiset(s) - multiset{s[i]}
  {
    assert s == s[..i] + [s[i]] + s[i + 1..];
  }

  lemma LastElsewhere<T>(s: seq<T>, other: seq<T>) returns (i: nat)
    requires s != [] && multiset(s) == multiset(other)
    ensures i < |other| && other[i] == s[|s| - 1]
    ensures multiset(s[..|s| - 1]) == multiset(Without(other, i))
  {
    var last := s[|s| - 1];
    assert last in multiset(s);
    i :| 0 <= i < |other| && other[i] == last;
    WithoutOne(s, |s| - 1);
    WithoutOne(other, i);
    assert Without(s, |s| - 1) == s[..|s| - 1];
  }

  lemma AllCommuteElsewhere(fields: seq<Field>, other: seq<Field>)
    requires AllCommute(fields) && multiset(fields) == multiset(other)
    ensures AllCommute(other)
  {
    forall f | f in other
      ensures f in fields
    {
      assert f in multiset(other);
    }
  }

  lemma CommutesWithLast(fields: seq<Field>, i: nat)
    requires i < |fields| && AllCommute(fields)
    ensures AllCommute(fields[..|fields| - 1]) && Commute(fields[i], fields[|fields| - 1])
  {
    assert fields[i] in fields && fields[|fields| - 1] in fields;
    forall f | f in fields[..|fields| - 1]
      ensures f in fields
    {
    }
  }

  lemma LastOfWithout<T>(s: seq<T>, i: nat)
    requires i + 1 < |s|
    ensures |Without(s, i)| == |s| - 1 && Without(s, i)[|s| - 2] == s[|s| - 1]
    ensures Without(s, i)[..|s| - 2] == Without(s[..|s| - 1], i)
  {
  }

  lemma {:induction false} AnyCanBeLast(m: ConfigMap, fields: seq<Field>, i: nat)
    requires i < |fields| && AllCommute(fields)
    ensures Defaulted(m, fields) == Filled(Defaulted(m, Without(fields, i)), fields[i])
    decreases |fields|
  {
    var init, last := fields[..|fields| - 1], fields[|fields| - 1];
    if i == |fields| - 1 {
      assert Without(fields, i) == init;
    } else {
      LastOfWithout(fields, i);
      CommutesWithLast(fields, i);
      AnyCanBeLast(m, init, i);
      FillsCommute(Defaulted(m, Without(init, i)), fields[i], last);
    }
  }

  /** Where every two defaults commute, the order in which namespaces and fields are visited does
      not show.  This is enough for a whole list, not necessary: see `OthersCanHideOrder`. */
  lemma {:induction false} DefaultsInAnyOrder(m: ConfigMap, fields: seq<Field>, other: seq<Field>)
    requires AllCommute(fields) && multiset(fields) == multiset(other)
    ensures Defaulted(m, fields) == Defaulted(m, other)
    decreases |fields|
  {
    assert |multiset(fields)| == |fields| && |multiset(other)| == |other|;
    if fields != [] {
      var init, last := fields[..|fields| - 1], fields[|fields| - 1];
      var i := LastElsewhere(fields, other);
      AllCommuteElsewhere(fields, other);
      DefaultsInAnyOrder(m, init, Without(other, i));
      AnyCanBeLast(m, other, i);
    }
  }

  lemma TwoDefaults(f: Field, g: Field)
    requires Fills(f)
    ensures Defaulted(map[], [f, g]) == Filled(Inserted(map[], PathOf(f), f.default.value), g)
  {
    assert [f, g][..1] == [f] && [f][..0] == [];
    assert Defaulted(map[], [f]) == Filled(map[], f);
    assert Get(Node(map[]), PathOf(f)) == None;
  }

  /** Two defaults that do not: an object given as a default, and a default inside it. */
  lemma OrderShows()
    ensures var f, g := Field("a", "", Some(Node(map["c" := Leaf(Null)]))), Field("a", "b", Some(Leaf(Null)));
            Defaulted(map[], [f, g]) != Defaulted(map[], [g, f])
  {
    var c := map["c" := Leaf(Null)];
    var f, g := Field("a", "", Some(Node(c))), Field("a", "b", Some(Leaf(Null)));
    SegmentsOfOne("a");
    SegmentsSnoc("a", "b");
    assert PathOf(f) == ["a"] && PathOf(g) == ["a", "b"];
    TwoDefaults(f, g);
    TwoDefaults(g, f);
    var first := Inserted(map[], ["a"], Node(c));
    assert ["c"][1..] == [] && ["a"][1..] == [] && ["a", "c"][1..] == ["c"];
    assert Get(Node(first), ["a", "c"]) == Some(Leaf(Null));
    FillKeeps(first, g, ["a", "c"]);
    FillKeeps(Inserted(map[], ["a", "b"], Leaf(Null)), f, ["a"]);
    GetAfterInsert(map[], ["a", "b"], Leaf(Null), ["a"]);
    GetAfterInsert(map[], ["a", "b"], Leaf(Null), ["a", "c"]);
    assert Filled(Inserted(map[], ["a", "b"], Leaf(Null)), f) == Inserted(map[], ["a", "b"], Leaf(Null));
  }

  function ObjectAtA(): Field {
    Field("a", "", Some(Node(map["c" := Leaf(Null)])))
  }

  function LeafInA(key: string): Field {
    Field("a", key, Some(Leaf(Null)))
  }

  function InA(inner: ConfigMap): ConfigMap {
    map["a" := Node(inner)]
  }

  lemma PathsInA(key: string)
    requires GoodSegment(key)
    ensures PathOf(ObjectAtA()) == ["a"] && PathOf(LeafInA(key)) == ["a", key]
  {
    SegmentsOfOne("a");
    SegmentsSnoc("a", key);
  }

  lemma ObjectFills(inner: ConfigMap)
    ensures Filled(InA(inner), ObjectAtA()) == InA(inner)
    ensures Filled(map[], ObjectAtA()) == InA(map["c" := Leaf(Null)])
  {
    PathsInA("b");
    assert Get(Node(InA(inner)), ["a"]) == Get(Node(inner), ["a"][1..]);
    assert Inserted(map[], ["a"], Node(map["c" := Leaf(Null)])) == InA(map["c" := Leaf(Null)]);
  }

  lemma LeafFills(inner: ConfigMap, key: string)
    requires GoodSegment(key)
    ensures Filled(InA(inner), LeafInA(key)) == InA(if key in inner then inner else inner[key := Leaf(Null)])
    ensures Filled(map[], LeafInA(key)) == InA(map[key := Leaf(Null)])
  {
    PathsInA(key);
    var m, p := InA(inner), ["a", key];
    assert p[1..] == [key] && [key][1..] == [];
    assert Get(Node(m), p) == Get(Node(inner), [key]);
    assert Get(Node(inner), [key]) == if key in inner then Some(inner[key]) else None;
    assert Inserted(m, p, Leaf(Null)) == m["a" := Node(Inserted(inner, [key], Leaf(Null)))];
    assert Inserted(map[], p, Leaf(Null)) == map["a" := Node(Inserted(map[], [key], Leaf(Null)))];
  }

  /** One of the three fields. */
  predicate OfThree(f: Field) {
    f == ObjectAtA() || f == LeafInA("b") || f == LeafInA("c")
  }

  predicate NullsInBC(m: ConfigMap) {
    forall k | k in m :: (k == "b" || k == "c") && m[k] == Leaf(Null)
  }

  lemma {:induction false} ThreeFill(fields: seq<Field>) returns (inner: ConfigMap)
    requires fields != [] && forall i | 0 <= i < |fields| :: OfThree(fields[i])
    ensures Defaulted(map[], fields) == InA(inner) && NullsInBC(inner)
    decreases |fields|
  {
    var init, last := fields[..|fields| - 1], fields[|fields| - 1];
    assert OfThree(last);
    if init == [] {
      inner := OneFills(last);
      assert Defaulted(map[], init) == map[];
    } else {
      var before := ThreeFill(init);
      inner := NextFills(before, last);
    }
  }

  lemma OneFills(f: Field) returns (inner: ConfigMap)
    requires OfThree(f)
    ensures Filled(map[], f) == InA(inner) && NullsInBC(inner)
  {
    var key := if f == LeafInA("b") then "b" else "c";
    inner := map[key := Leaf(Null)];
    ObjectFills(map[]);
    LeafFills(map[], key);
  }

  lemma NextFills(before: ConfigMap, f: Field) returns (inner: ConfigMap)
    requires OfThree(f) && NullsInBC(before)
    ensures Filled(InA(before), f) == InA(inner) && NullsInBC(inner)
  {
    inner := before;
    ObjectFills(before);
    if f != ObjectAtA() {
      LeafFills(before, f.key);
      inner := if f.key in before then before else before[f.key := Leaf(Null)];
    }
  }

  lemma BothInA(fields: seq<Field>)
    requires forall i | 0 <= i < |fields| :: OfThree(fields[i])
    requires LeafInA("b") in fields && LeafInA("c") in fields
    ensures Defaulted(map[], fields) == InA(map["b" := Leaf(Null), "c" := Leaf(Null)])
  {
    var inner := ThreeFill(fields);
    FoundInA(fields, inner, "b");
    FoundInA(fields, inner, "c");
    NullsInBoth(inner);
  }

  lemma NullsInBoth(m: ConfigMap)
    requires NullsInBC(m) && "b" in m && "c" in m
    ensures m == map["b" := Leaf(Null), "c" := Leaf(Null)]
  {
  }

  lemma FoundInA(fields: seq<Field>, inner: ConfigMap, key: string)
    requires GoodSegment(key) && LeafInA(key) in fields && Defaulted(map[], fields) == InA(inner)
    ensures key in inner
  {
    PathsInA(key);
    EveryDefaultExists(map[], fields, LeafInA(key));
    assert Get(Node(InA(inner)), ["a", key]) == Get(Node(inner), ["a", key][1..]);
  }

  lemma NotEveryTwoCommute(fields: seq<Field>)
    requires ObjectAtA() in fields && LeafInA("b") in fields
    ensures !AllCommute(fields)
  {
    ObjectFills(map["b" := Leaf(Null)]);
    LeafFills(map["c" := Leaf(Null)], "b");
    var first := Filled(Filled(map[], ObjectAtA()), LeafInA("b"));
    var second := Filled(Filled(map[], LeafInA("b")), ObjectAtA());
    assert "c" in first["a"].children && "c" !in second["a"].children;
  }

  /** That every two defaults commute is not necessary for a whole list: an object {c} at "a" and a leaf at
      "a.b" do not, and yet with the same leaf at "a.c" all orders of the three agree. */
  lemma OthersCanHideOrder(other: seq<Field>)
    requires multiset(other) == multiset([ObjectAtA(), LeafInA("b"), LeafInA("c")])
    ensures Defaulted(map[], other) == InA(map["b" := Leaf(Null), "c" := Leaf(Null)])
    ensures !AllCommute(other)
  {
    var fields := [ObjectAtA(), LeafInA("b"), LeafInA("c")];
    forall f
      ensures f in other <==> f in fields
    {
      assert f in other <==> f in multiset(other);
      assert f in fields <==> f in multiset(fields);
    }
    assert fields[0] in fields && fields[1] in fields && fields[2] in fields;
    forall i | 0 <= i < |other|
      ensures OfThree(other[i])
    {
      assert other[i] in fields;
    }
    BothInA(other);
    NotEveryTwoCommute(other);
  }

  // ----- loading -----

  /** The tree a load produces, before secrets are resolved in it. */
  function Loaded(sources: seq<ConfigMap>, fields: seq<Field>): ConfigMap {
    Defaulted(MergedAll(sources), fields)
  }

  method LoadWithPrev(previous: Option<ConfigMap>, sources: seq<ConfigMap>, fields: seq<Field>)
    returns (snapshot: ConfigMap, changed: seq<string>)
    ensures snapshot == Loaded(sources, fields)
    ensures (forall m | m in sources :: GoodTree(Node(m)))
            && (forall f | f in fields && f.default.Some? :: GoodTree(f.default.value))
            && GoodTree(Node(previous.GetOr(map[])))
            ==> GoodTree(Node(snapshot)) && Reports(changed, previous.GetOr(map[]), snapshot)
  {
    var merged := map[];
    for i := 0 to |sources|
      invariant merged == MergedAll(sources[..i])
    {
      assert sources[..i + 1][..i] == sources[..i];
      merged := MergeMaps(merged, sources[i]);
    }
    assert sources[..|sources|] == sources;
    snapshot := ApplyDefaults(merged, fields);
    changed := ComputeChangedKeys(previous, snapshot);
    if (forall m | m in sources :: GoodTree(Node(m)))
        && (forall f | f in fields && f.default.Some? :: GoodTree(f.default.value)) {
      MergesKeepGood(sources);
      DefaultsKeepGood(merged, fields);
    }
  }

  lemma {:induction false} DefaultsKeepGood(m: ConfigMap, fields: seq<Field>)
    requires GoodTree(Node(m)) && forall f | f in fields && f.default.Some? :: GoodTree(f.default.value)
    ensures GoodTree(Node(Defaulted(m, fields)))
    decreases |fields|
  {
    if fields != [] {
      var init, last := fields[..|fields| - 1], fields[|fields| - 1];
      assert fields == init + [last];
      DefaultsKeepGood(m, init);
      if last.default.Some? {
        MergeValueKeepsGood(Defaulted(m, init), ComposeFullPath(last.namespace, last.key), last.default.value);
      }
    }
  }

  /** Which layer a loaded leaf comes from: the last source that touches its path, if that source
      holds a leaf there through which no default's path leads on. */
  lemma LoadedLeafOfSource(sources: seq<ConfigMap>, fields: seq<Field>, p: Path, v: Json, i: nat)
    requires p != [] && i < |sources| && LastToTouch(sources, i, p, v)
    ensures LeafAt(Loaded(sources, fields), p, v) <==> !LedThrough(fields, p)
  {
    LastTouchingSourceWins(sources, p, v);
    LeafSurvivesExactly(MergedAll(sources), fields, p, v);
  }

  /** Every loaded leaf comes from a source, the last that touches its path, or from a default. */
  lemma LoadedLeafHasOrigin(sources: seq<ConfigMap>, fields: seq<Field>, p: Path, v: Json)
    requires LeafAt(Loaded(sources, fields), p, v)
    ensures (exists i :: 0 <= i < |sources| && LastToTouch(sources, i, p, v)) || FromDefault(fields, p, v)
  {
    LeafHasOrigin(MergedAll(sources), fields, p, v);
    LastTouchingSourceWins(sources, p, v);
  }
}
