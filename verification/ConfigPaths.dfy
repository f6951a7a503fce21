/** Dotted keys: a path is written with dots between its segments, and read back by splitting
    at the dots and dropping empty segments. */
module ConfigPaths {
  import opened Wrappers
  import opened Json
  import opened ConfigTree

  /** `split('.')`: always at least one piece. */
  function SplitDots(s: string): (pieces: seq<string>)
    ensures pieces != []
  {
    if s == [] then [""]
    else
      var rest := SplitDots(s[1..]);
      if s[0] == '.' then [""] + rest else [[s[0]] + rest[0]] + rest[1..]
  }

  function NonEmptyPieces(pieces: seq<string>): seq<string> {
    if pieces == [] then []
    else (if pieces[0] == "" then [] else [pieces[0]]) + NonEmptyPieces(pieces[1..])
  }

  /** The path a dotted key stands for. */
  function Segments(key: string): Path {
    NonEmptyPieces(SplitDots(key))
  }

  /** A segment that a dotted key can name: not empty, without dots. */
  predicate GoodSegment(s: string) {
    s != "" && '.' !in s
  }

  predicate GoodPath(p: Path) {
    forall i | 0 <= i < |p| :: GoodSegment(p[i])
  }

  /** How `flatten_map` and `collect_keys` extend a key. */
  function Extended(prefix: string, segment: string): string {
    if prefix == "" then segment else prefix + "." + segment
  }

  /** The dotted key of a path, built from the left. */
  function Dotted(p: Path): string {
    if p == [] then "" else Extended(Dotted(p[..|p| - 1]), p[|p| - 1])
  }

  lemma {:induction false} SplitSegment(s: string)
    requires '.' !in s
    ensures SplitDots(s) == [s]
  {
    if s != [] {
      SplitSegment(s[1..]);
      assert s == [s[0]] + s[1..];
    }
  }

  lemma {:induction false} SplitAtLastDot(a: string, s: string)
    requires '.' !in s
    ensures SplitDots(a + "." + s) == SplitDots(a) + [s]
  {
    if a == [] {
      assert a + "." + s == "." + s;
      assert ("." + s)[1..] == s;
      SplitSegment(s);
    } else {
      SplitAtLastDot(a[1..], s);
      assert (a + "." + s)[1..] == a[1..] + "." + s;
      assert (a + "." + s)[0] == a[0];
      assert (SplitDots(a[1..]) + [s])[0] == SplitDots(a[1..])[0];
      assert (SplitDots(a[1..]) + [s])[1..] == SplitDots(a[1..])[1..] + [s];
    }
  }

  lemma {:induction false} NonEmptyPiecesSnoc(pieces: seq<string>, s: string)
    requires s != ""
    ensures NonEmptyPieces(pieces + [s]) == NonEmptyPieces(pieces) + [s]
  {
    if pieces != [] {
      NonEmptyPiecesSnoc(pieces[1..], s);
      assert (pieces + [s])[1..] == pieces[1..] + [s];
    }
  }

  lemma SegmentsSnoc(a: string, s: string)
    requires GoodSegment(s)
    ensures Segments(a + "." + s) == Segments(a) + [s]
  {
    SplitAtLastDot(a, s);
    NonEmptyPiecesSnoc(SplitDots(a), s);
  }

  lemma SegmentsOfOne(s: string)
    requires GoodSegment(s)
    ensures Segments(s) == [s]
  {
    SplitSegment(s);
    assert NonEmptyPieces([]) == [];
    assert NonEmptyPieces([s]) == [s] + NonEmptyPieces([s][1..]);
  }

  lemma {:induction false} PiecesHaveNoDot(s: string)
    ensures forall piece | piece in SplitDots(s) :: '.' !in piece
  {
    if s != [] {
      PiecesHaveNoDot(s[1..]);
      var rest := SplitDots(s[1..]);
      assert rest == [rest[0]] + rest[1..];
    }
  }

  lemma {:induction false} NonEmptyPiecesAreGood(pieces: seq<string>)
    requires forall piece | piece in pieces :: '.' !in piece
    ensures GoodPath(NonEmptyPieces(pieces))
  {
    if pieces != [] {
      assert pieces == [pieces[0]] + pieces[1..];
      NonEmptyPiecesAreGood(pieces[1..]);
    }
  }

  /** Whatever the key, its path has only segments that can be written back. */
  lemma SegmentsAreGood(key: string)
    ensures GoodPath(Segments(key))
  {
    PiecesHaveNoDot(key);
    NonEmptyPiecesAreGood(SplitDots(key));
  }

  /** Writing a path and reading it back: dotted keys of good paths name exactly their path. */
  lemma {:induction false} DottedReadsBack(p: Path)
    requires GoodPath(p)
    ensures Segments(Dotted(p)) == p
    ensures Dotted(p) == "" <==> p == []
  {
    if p == [] {
      assert SplitDots("") == [""];
      assert [""][1..] == [];
    } else {
      var init, last := p[..|p| - 1], p[|p| - 1];
      DottedReadsBack(init);
      assert p == init + [last];
      if init == [] {
        SegmentsOfOne(last);
      } else {
        SegmentsSnoc(Dotted(init), last);
      }
    }
  }

  // ----- reading -----

  /** `get_raw`: nothing at the empty path. */
  function GetRaw(m: ConfigMap, key: string): Option<Tree> {
    var segments := Segments(key);
    if segments == [] then None else Get(Node(m), segments)
  }

  method GetRawLoop(m: ConfigMap, key: string) returns (r: Option<Tree>)
    ensures r == GetRaw(m, key)
  {
    var segments := Segments(key);
    if segments == [] {
      return None;
    }
    var cursor := Node(m);
    for i := 0 to |segments|
      invariant Get(Node(m), segments) == Get(cursor, segments[i..])
    {
      assert segments[i..][1..] == segments[i + 1..];
      if cursor.Node? && segments[i] in cursor.children {
        cursor := cursor.children[segments[i]];
      } else {
        return None;
      }
    }
    r := Some(cursor);
  }

  /** `path_exists` decides by looking one segment ahead; it is reading. */
  method PathExists(m: ConfigMap, key: string) returns (exists_: bool)
    ensures exists_ == GetRaw(m, key).Some?
  {
    var segments := Segments(key);
    var cursor := m;
    for i := 0 to |segments|
      invariant Get(Node(m), segments) == Get(Node(cursor), segments[i..])
      invariant i > 0 ==> i < |segments|
    {
      assert segments[i..][1..] == segments[i + 1..];
      var more := i + 1 < |segments|;
      if segments[i] !in cursor {
        return false;
      }
      var found := cursor[segments[i]];
      if !more {
        assert segments[i + 1..] == [];
        return true;
      }
      if found.Leaf? {
        return false;
      }
      cursor := found.children;
    }
    exists_ := false;
  }
}
