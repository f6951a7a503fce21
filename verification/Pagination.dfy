/** Following the `next` cursor of the database's select from page to page. */
module Pagination {
  import opened Wrappers

  /** How the database orders ids. */
  type Order = (string, string) -> bool

  ghost predicate StrictTotal(less: Order) {
    && (forall a :: !less(a, a))
    && (forall a, b, c :: less(a, b) && less(b, c) ==> less(a, c))
    && (forall a, b :: a != b ==> less(a, b) || less(b, a))
  }

  /** The ids past the cursor, in the order of the statement. */
  function Past(ids: seq<string>, cursor: Option<string>, less: Order): seq<string> {
    if ids == [] then []
    else (if cursor.None? || less(cursor.value, ids[0]) then [ids[0]] else []) + Past(ids[1..], cursor, less)
  }

  /** The first `limit` rows past the cursor. */
  function Page(ids: seq<string>, cursor: Option<string>, limit: nat, less: Order): seq<string> {
    var past := Past(ids, cursor, less);
    if |past| > limit then past[..limit] else past
  }

  /** A full page names its last row as the next cursor. */
  function Next(page: seq<string>, limit: nat): Option<string> {
    if |page| == limit && limit > 0 then Some(page[|page| - 1]) else None
  }

  /** Everything a caller gets that follows `next` until there is none, in order. */
  ghost function Followed(ids: seq<string>, cursor: Option<string>, limit: nat, less: Order): seq<string>
    requires StrictTotal(less)
    decreases |Past(ids, cursor, less)|
  {
    var page := Page(ids, cursor, limit, less);
    var next := Next(page, limit);
    if next.None? then page
    else
      NextIsFurther(ids, cursor, limit, less);
      page + Followed(ids, next, limit, less)
  }

  /** No row comes after one with a greater id. */
  ghost predicate Ascending(ids: seq<string>, less: Order) {
    forall i, j | 0 <= i < j < |ids| :: less(ids[i], ids[j])
  }

  // ----- what lies past a cursor -----

  lemma {:induction false} PastFrom(ids: seq<string>, cursor: Option<string>, less: Order)
    ensures forall id :: id in Past(ids, cursor, less) <==> id in ids && (cursor.Some? ==> less(cursor.value, id))
    ensures |Past(ids, cursor, less)| <= |ids|
    ensures (forall id | id in ids :: cursor.Some? ==> less(cursor.value, id)) ==> Past(ids, cursor, less) == ids
    ensures |Past(ids, cursor, less)| == |ids| ==> Past(ids, cursor, less) == ids
  {
    if ids != [] {
      PastFrom(ids[1..], cursor, less);
      assert ids == [ids[0]] + ids[1..];
    }
  }

  /** A later cursor cuts further. */
  lemma {:induction false} PastAgain(ids: seq<string>, cursor: Option<string>, next: string, less: Order)
    requires StrictTotal(less) && (cursor.Some? ==> less(cursor.value, next))
    ensures Past(ids, Some(next), less) == Past(Past(ids, cursor, less), Some(next), less)
  {
    if ids != [] {
      PastAgain(ids[1..], cursor, next, less);
      var rest := Past(ids[1..], cursor, less);
      if cursor.None? || less(cursor.value, ids[0]) {
        assert ([ids[0]] + rest)[1..] == rest;
      } else {
        assert Past(ids, cursor, less) == rest;
      }
    }
  }

  lemma {:induction false} PastOneOfThem(ids: seq<string>, id: string, less: Order)
    requires StrictTotal(less) && id in ids
    ensures |Past(ids, Some(id), less)| < |ids|
  {
    PastFrom(ids, Some(id), less);
  }

  lemma NextIsFurther(ids: seq<string>, cursor: Option<string>, limit: nat, less: Order)
    requires StrictTotal(less) && Next(Page(ids, cursor, limit, less), limit).Some?
    ensures var next := Next(Page(ids, cursor, limit, less), limit).value;
            && next in Past(ids, cursor, less)
            && Past(ids, Some(next), less) == Past(Past(ids, cursor, less), Some(next), less)
            && |Past(ids, Some(next), less)| < |Past(ids, cursor, less)|
  {
    var past := Past(ids, cursor, less);
    var next := Next(Page(ids, cursor, limit, less), limit).value;
    assert next == past[limit - 1];
    PastFrom(ids, cursor, less);
    PastAgain(ids, cursor, next, less);
    PastOneOfThem(past, next, less);
  }

  // ----- in ascending order of ids nothing is lost -----

  lemma {:induction false} PastInAscending(ids: seq<string>, n: nat, less: Order)
    requires StrictTotal(less) && Ascending(ids, less) && n < |ids|
    ensures Past(ids, Some(ids[n]), less) == ids[n + 1..]
  {
    if n == 0 {
      PastFrom(ids[1..], Some(ids[0]), less);
    } else {
      PastInAscending(ids[1..], n - 1, less);
      assert ids[1..][n - 1] == ids[n] && ids[1..][n..] == ids[n + 1..];
    }
  }

  lemma FirstThenAscending(id: string, rest: seq<string>, less: Order)
    requires Ascending(rest, less) && forall j | 0 <= j < |rest| :: less(id, rest[j])
    ensures Ascending([id] + rest, less)
  {
  }

  lemma {:induction false} PastIsAscending(ids: seq<string>, cursor: Option<string>, less: Order)
    requires Ascending(ids, less)
    ensures Ascending(Past(ids, cursor, less), less)
  {
    if ids != [] {
      PastIsAscending(ids[1..], cursor, less);
      var rest := Past(ids[1..], cursor, less);
      forall j | 0 <= j < |rest|
        ensures less(ids[0], rest[j])
      {
        PastFrom(ids[1..], cursor, less);
        assert rest[j] in ids[1..];
        var m :| 0 <= m < |ids[1..]| && ids[1..][m] == rest[j];
        assert ids[m + 1] == rest[j];
      }
      if cursor.None? || less(cursor.value, ids[0]) {
        FirstThenAscending(ids[0], rest, less);
      } else {
        assert Past(ids, cursor, less) == rest;
      }
    }
  }

  lemma PageThenRest(ids: seq<string>, cursor: Option<string>, limit: nat, less: Order)
    requires StrictTotal(less) && Ascending(ids, less) && limit > 0 && Next(Page(ids, cursor, limit, less), limit).Some?
    ensures var page := Page(ids, cursor, limit, less);
            Past(ids, cursor, less) == page + Past(ids, Next(page, limit), less)
  {
    var past := Past(ids, cursor, less);
    NextIsFurther(ids, cursor, limit, less);
    PastIsAscending(ids, cursor, less);
    PastInAscending(past, limit - 1, less);
    assert past == past[..limit] + past[limit..];
  }

  lemma {:induction false} AscendingIsFollowed(ids: seq<string>, cursor: Option<string>, limit: nat, less: Order)
    requires StrictTotal(less) && Ascending(ids, less) && limit > 0
    ensures Followed(ids, cursor, limit, less) == Past(ids, cursor, less)
    decreases |Past(ids, cursor, less)|
  {
    var page := Page(ids, cursor, limit, less);
    if Next(page, limit).Some? {
      NextIsFurther(ids, cursor, limit, less);
      AscendingIsFollowed(ids, Next(page, limit), limit, less);
      PageThenRest(ids, cursor, limit, less);
    }
  }

  // ----- in any other order something is -----

  lemma OneRowThenRest(ids: seq<string>, cursor: Option<string>, less: Order)
    requires StrictTotal(less) && Past(ids, cursor, less) != []
    ensures var past := Past(ids, cursor, less);
            && |Past(ids, Some(past[0]), less)| < |past|
            && Past(ids, Some(past[0]), less) == Past(past[1..], Some(past[0]), less)
            && Followed(ids, cursor, 1, less) == [past[0]] + Followed(ids, Some(past[0]), 1, less)
  {
    var past := Past(ids, cursor, less);
    assert Page(ids, cursor, 1, less) == [past[0]];
    NextIsFurther(ids, cursor, 1, less);
  }

  lemma AllPastFirst(past: seq<string>, less: Order)
    requires StrictTotal(less) && past != []
    requires |Past(past[1..], Some(past[0]), less)| == |past| - 1
    ensures Ascending(Past(past[1..], Some(past[0]), less), less) ==> Ascending(past, less)
  {
    PastFrom(past[1..], Some(past[0]), less);
    assert past == [past[0]] + past[1..];
    if Ascending(past[1..], less) {
      FirstThenAscending(past[0], past[1..], less);
    }
  }

  /** Pages of one row: as many as there are rows only if the rows are in order of their ids. */
  lemma {:induction false} SinglePages(ids: seq<string>, cursor: Option<string>, less: Order)
    requires StrictTotal(less)
    ensures |Followed(ids, cursor, 1, less)| <= |Past(ids, cursor, less)|
    ensures |Followed(ids, cursor, 1, less)| == |Past(ids, cursor, less)| ==> Ascending(Past(ids, cursor, less), less)
    decreases |Past(ids, cursor, less)|
  {
    var past := Past(ids, cursor, less);
    if past != [] {
      OneRowThenRest(ids, cursor, less);
      SinglePages(ids, Some(past[0]), less);
      if |Followed(ids, cursor, 1, less)| == |past| {
        AllPastFirst(past, less);
      }
    }
  }

  /** Following `next` gets every row exactly once, whatever the page size, exactly when the
      statement orders the rows by ascending id.  Sorted by anything else, rows are passed over. */
  lemma FollowingVisitsAllExactly(ids: seq<string>, less: Order)
    requires StrictTotal(less)
    ensures (forall limit: nat | limit > 0 :: multiset(Followed(ids, None, limit, less)) == multiset(ids))
            <==> Ascending(ids, less)
  {
    PastFrom(ids, None, less);
    if Ascending(ids, less) {
      forall limit: nat | limit > 0
        ensures multiset(Followed(ids, None, limit, less)) == multiset(ids)
      {
        AscendingIsFollowed(ids, None, limit, less);
      }
    } else {
      var ones := Followed(ids, None, 1, less);
      SinglePages(ids, None, less);
      assert |multiset(ones)| == |ones| && |multiset(ids)| == |ids|;
    }
  }

  // ----- one page size -----

  predicate NoRepeats(ids: seq<string>) {
    forall i, j | 0 <= i < j < |ids| :: ids[i] != ids[j]
  }

  /** All rows before this one have smaller ids, all rows after it greater ones. */
  ghost predicate Divides(ids: seq<string>, b: nat, less: Order)
    requires b < |ids|
  {
    && (forall i | 0 <= i < b :: less(ids[i], ids[b]))
    && (forall i | b < i < |ids| :: less(ids[b], ids[i]))
  }

  /** How many rows `n` full pages hold. */
  function Rows(n: nat, limit: nat): nat {
    if n == 0 then 0 else Rows(n - 1, limit) + limit
  }

  /** The last row of every full page divides the rows. */
  ghost predicate PagesDivide(ids: seq<string>, limit: nat, less: Order) {
    forall n: nat | 0 < Rows(n, limit) <= |ids| :: Divides(ids, Rows(n, limit) - 1, less)
  }

  lemma {:induction false} PastOfTwo(s: seq<string>, t: seq<string>, cursor: Option<string>, less: Order)
    ensures Past(s + t, cursor, less) == Past(s, cursor, less) + Past(t, cursor, less)
  {
    if s == [] {
      assert s + t == t;
    } else {
      PastOfTwo(s[1..], t, cursor, less);
      var first := if cursor.None? || less(cursor.value, s[0]) then [s[0]] else [];
      assert (s + t)[0] == s[0] && (s + t)[1..] == s[1..] + t;
      assert first + (Past(s[1..], cursor, less) + Past(t, cursor, less))
             == (first + Past(s[1..], cursor, less)) + Past(t, cursor, less);
    }
  }

  lemma {:induction false} PastHasNoRepeats(ids: seq<string>, cursor: Option<string>, less: Order)
    requires NoRepeats(ids)
    ensures NoRepeats(Past(ids, cursor, less))
  {
    if ids != [] {
      PastHasNoRepeats(ids[1..], cursor, less);
      PastFrom(ids[1..], cursor, less);
      assert ids[0] !in Past(ids[1..], cursor, less);
    }
  }

  lemma NoneAgain(ids: seq<string>, n: nat, i: nat)
    requires NoRepeats(ids) && i < n <= |ids|
    ensures ids[i] !in ids[n..]
  {
  }

  lemma {:induction false} AllPast(ids: seq<string>, cut: string, less: Order)
    requires forall i | 0 <= i < |ids| :: less(cut, ids[i])
    ensures Past(ids, Some(cut), less) == ids
  {
    if ids != [] {
      AllPast(ids[1..], cut, less);
    }
  }

  lemma {:induction false} NonePast(ids: seq<string>, cut: string, less: Order)
    requires forall i | 0 <= i < |ids| :: !less(cut, ids[i])
    ensures Past(ids, Some(cut), less) == []
  {
    if ids != [] {
      NonePast(ids[1..], cut, less);
    }
  }

  /** The cut past a row that divides the rows leaves exactly the rows after it. */
  lemma DividingCuts(ids: seq<string>, b: nat, less: Order)
    requires StrictTotal(less) && b < |ids| && Divides(ids, b, less)
    ensures Past(ids, Some(ids[b]), less) == ids[b + 1..]
  {
    var front, back := ids[..b + 1], ids[b + 1..];
    assert ids == front + back;
    PastOfTwo(front, back, Some(ids[b]), less);
    assert forall i | 0 <= i < |front| :: front[i] == ids[i] && !less(ids[b], front[i]);
    NonePast(front, ids[b], less);
    assert forall i | 0 <= i < |back| :: back[i] == ids[i + b + 1];
    AllPast(back, ids[b], less);
  }

  /** And only the cut past such a row does. */
  lemma CuttingDivides(ids: seq<string>, b: nat, less: Order)
    requires StrictTotal(less) && NoRepeats(ids) && b < |ids| && Past(ids, Some(ids[b]), less) == ids[b + 1..]
    ensures Divides(ids, b, less)
  {
    PastFrom(ids, Some(ids[b]), less);
    forall i | 0 <= i < b
      ensures less(ids[i], ids[b])
    {
      NoneAgain(ids, b + 1, i);
    }
    forall i | b < i < |ids|
      ensures less(ids[b], ids[i])
    {
      assert ids[i] == ids[b + 1..][i - b - 1];
      assert ids[i] in ids[b + 1..];
    }
  }

  lemma FirstPageCuts(ids: seq<string>, limit: nat, less: Order)
    requires StrictTotal(less) && 0 < limit <= |ids| && PagesDivide(ids, limit, less)
    ensures Past(ids, Some(ids[limit - 1]), less) == ids[limit..]
  {
    assert Rows(1, limit) == limit;
    DividingCuts(ids, limit - 1, less);
  }

  lemma OthersDivide(ids: seq<string>, limit: nat, less: Order)
    requires 0 < limit <= |ids| && PagesDivide(ids, limit, less)
    ensures PagesDivide(ids[limit..], limit, less)
  {
    forall n: nat | 0 < Rows(n, limit) <= |ids[limit..]|
      ensures Divides(ids[limit..], Rows(n, limit) - 1, less)
    {
      assert Rows(n + 1, limit) == Rows(n, limit) + limit;
      DividesRest(ids, limit, Rows(n, limit) - 1, less);
    }
  }

  lemma AllDivide(ids: seq<string>, limit: nat, less: Order)
    requires StrictTotal(less) && 0 < limit <= |ids|
    requires Divides(ids, limit - 1, less) && PagesDivide(ids[limit..], limit, less)
    ensures PagesDivide(ids, limit, less)
  {
    forall n: nat | 0 < Rows(n, limit) <= |ids|
      ensures Divides(ids, Rows(n, limit) - 1, less)
    {
      if n > 1 {
        LaterPage(ids, limit, n, less);
      } else {
        assert n == 1;
        assert Rows(1, limit) == limit;
      }
    }
  }

  lemma CutsDivide(ids: seq<string>, limit: nat, less: Order)
    requires StrictTotal(less) && NoRepeats(ids) && 0 < limit <= |ids|
    requires Past(ids, Some(ids[limit - 1]), less) == ids[limit..] && PagesDivide(ids[limit..], limit, less)
    ensures PagesDivide(ids, limit, less)
  {
    CuttingDivides(ids, limit - 1, less);
    AllDivide(ids, limit, less);
  }

  lemma LaterPage(ids: seq<string>, limit: nat, n: nat, less: Order)
    requires StrictTotal(less) && 0 < limit <= |ids| && n > 1 && Rows(n, limit) <= |ids|
    requires Divides(ids, limit - 1, less) && PagesDivide(ids[limit..], limit, less)
    ensures Divides(ids, Rows(n, limit) - 1, less)
  {
    assert Rows(n - 1, limit) == Rows(n - 2, limit) + limit;
    assert 0 < Rows(n - 1, limit) <= |ids[limit..]|;
    DividesAfter(ids, limit, Rows(n, limit) - 1, less);
  }

  lemma DividesRest(ids: seq<string>, limit: nat, b: nat, less: Order)
    requires b + limit < |ids| && Divides(ids, b + limit, less)
    ensures Divides(ids[limit..], b, less)
  {
    assert forall i | 0 <= i < |ids[limit..]| :: ids[limit..][i] == ids[i + limit];
  }

  lemma DividesAfter(ids: seq<string>, limit: nat, b: nat, less: Order)
    requires StrictTotal(less) && 0 < limit <= b < |ids|
    requires Divides(ids, limit - 1, less) && Divides(ids[limit..], b - limit, less)
    ensures Divides(ids, b, less)
  {
    var rest := ids[limit..];
    assert forall i | limit <= i < |ids| :: ids[i] == rest[i - limit];
    forall i | 0 <= i < b
      ensures less(ids[i], ids[b])
    {
      if i < limit - 1 {
        assert less(ids[i], ids[limit - 1]) && less(ids[limit - 1], ids[b]);
      }
    }
  }

  /** A full page and the ones after it. */
  lemma FollowedOn(ids: seq<string>, cursor: Option<string>, limit: nat, less: Order) returns (next: string)
    requires StrictTotal(less) && 0 < limit <= |Past(ids, cursor, less)|
    ensures var past := Past(ids, cursor, less);
            && next == past[limit - 1] && Past(ids, Some(next), less) == Past(past, Some(next), less)
            && |Past(ids, Some(next), less)| < |past|
            && Followed(ids, cursor, limit, less) == past[..limit] + Followed(ids, Some(next), limit, less)
  {
    next := Past(ids, cursor, less)[limit - 1];
    assert Next(Page(ids, cursor, limit, less), limit) == Some(next);
    NextIsFurther(ids, cursor, limit, less);
  }

  /** What the pages hold lies past the cursor, and the first row there is on the first of them. */
  predicate DrawnFrom(followed: seq<string>, past: seq<string>) {
    (forall id | id in followed :: id in past) && (past != [] ==> followed != [] && followed[0] == past[0])
  }

  lemma {:induction false} FollowedArePast(ids: seq<string>, cursor: Option<string>, limit: nat, less: Order)
    requires StrictTotal(less) && limit > 0
    ensures DrawnFrom(Followed(ids, cursor, limit, less), Past(ids, cursor, less))
    decreases |Past(ids, cursor, less)|
  {
    var past := Past(ids, cursor, less);
    if |past| >= limit {
      var next := FollowedOn(ids, cursor, limit, less);
      FollowedArePast(ids, Some(next), limit, less);
      PastFrom(past, Some(next), less);
    }
  }

  lemma SameMembers(s: seq<string>, t: seq<string>)
    requires multiset(s) == multiset(t)
    ensures forall id :: id in s <==> id in t
  {
    forall id
      ensures id in s <==> id in t
    {
      assert id in s <==> id in multiset(s);
      assert id in t <==> id in multiset(t);
    }
  }

  lemma NoneEarly(front: seq<string>, back: seq<string>, cut: string, less: Order)
    requires NoRepeats(front + back)
    requires Past(front, Some(cut), less) != [] ==> Past(front, Some(cut), less)[0] in back
    ensures Past(front, Some(cut), less) == []
  {
    assert (front + back)[|front|..] == back;
    forall i | 0 <= i < |front|
      ensures front[i] !in back
    {
      NoneAgain(front + back, |front|, i);
    }
    PastFrom(front, Some(cut), less);
    assert forall id | id in Past(front, Some(cut), less) :: id !in back;
  }

  /** If the remaining pages visit exactly the rows after the first page, the first page cuts there. */
  lemma RestIsCut(front: seq<string>, back: seq<string>, cut: string, followed: seq<string>, less: Order)
    requires NoRepeats(front + back) && multiset(followed) == multiset(back)
    requires DrawnFrom(followed, Past(front + back, Some(cut), less))
    ensures Past(front + back, Some(cut), less) == back
  {
    SameMembers(followed, back);
    PastOfTwo(front, back, Some(cut), less);
    PastFrom(front + back, Some(cut), less);
    forall i | 0 <= i < |back|
      ensures less(cut, back[i])
    {
      assert back[i] in followed;
    }
    AllPast(back, cut, less);
    NoneEarly(front, back, cut, less);
  }

  lemma RestOfVisited(page: seq<string>, followed: seq<string>, back: seq<string>)
    requires multiset(page + followed) == multiset(page + back)
    ensures multiset(followed) == multiset(back)
  {
    assert multiset(page + followed) - multiset(page) == multiset(followed);
    assert multiset(page + back) - multiset(page) == multiset(back);
  }

  /** If all pages visit exactly the rows, the remaining ones visit exactly those after the first page. */
  lemma VisitedIsCut(past: seq<string>, limit: nat, followed: seq<string>, less: Order)
    requires StrictTotal(less) && NoRepeats(past) && 0 < limit <= |past|
    requires DrawnFrom(followed, Past(past, Some(past[limit - 1]), less))
    requires multiset(past[..limit] + followed) == multiset(past)
    ensures Past(past, Some(past[limit - 1]), less) == past[limit..]
    ensures multiset(followed) == multiset(past[limit..])
  {
    var page, back := past[..limit], past[limit..];
    assert past == page + back;
    RestOfVisited(page, followed, back);
    RestIsCut(page, back, past[limit - 1], followed, less);
  }

  /** Following from this cursor visits exactly the rows past it. */
  ghost predicate VisitsAll(ids: seq<string>, cursor: Option<string>, limit: nat, less: Order)
    requires StrictTotal(less)
  {
    multiset(Followed(ids, cursor, limit, less)) == multiset(Past(ids, cursor, less))
  }

  lemma {:induction false} VisitingDivides(ids: seq<string>, cursor: Option<string>, limit: nat, less: Order)
    requires StrictTotal(less) && NoRepeats(ids) && limit > 0 && VisitsAll(ids, cursor, limit, less)
    ensures PagesDivide(Past(ids, cursor, less), limit, less)
    decreases |Past(ids, cursor, less)|
  {
    var past := Past(ids, cursor, less);
    if |past| >= limit {
      var next := FollowedOn(ids, cursor, limit, less);
      FollowedArePast(ids, Some(next), limit, less);
      PastHasNoRepeats(ids, cursor, less);
      VisitedIsCut(past, limit, Followed(ids, Some(next), limit, less), less);
      VisitingDivides(ids, Some(next), limit, less);
      CutsDivide(past, limit, less);
    } else {
      ShortDivides(past, limit, less);
    }
  }

  lemma LastPage(ids: seq<string>, cursor: Option<string>, limit: nat, less: Order)
    requires StrictTotal(less) && |Past(ids, cursor, less)| < limit
    ensures Followed(ids, cursor, limit, less) == Past(ids, cursor, less)
  {
  }

  lemma Rejoins(ids: seq<string>, n: nat)
    requires n <= |ids|
    ensures ids[..n] + ids[n..] == ids
  {
  }

  lemma {:induction false} DividingVisits(ids: seq<string>, cursor: Option<string>, limit: nat, less: Order)
    requires StrictTotal(less) && limit > 0 && PagesDivide(Past(ids, cursor, less), limit, less)
    ensures Followed(ids, cursor, limit, less) == Past(ids, cursor, less)
    decreases |Past(ids, cursor, less)|
  {
    var past := Past(ids, cursor, less);
    if |past| < limit {
      LastPage(ids, cursor, limit, less);
    } else {
      var next := FollowedOn(ids, cursor, limit, less);
      FirstPageCuts(past, limit, less);
      OthersDivide(past, limit, less);
      DividingVisits(ids, Some(next), limit, less);
      Rejoins(past, limit);
    }
  }

  lemma ShortDivides(ids: seq<string>, limit: nat, less: Order)
    requires |ids| < limit
    ensures PagesDivide(ids, limit, less)
  {
    forall n: nat | 0 < Rows(n, limit)
      ensures Rows(n, limit) > |ids|
    {
      assert Rows(n, limit) == Rows(n - 1, limit) + limit;
    }
  }

  /** For one page size, and rows with different ids: following `next` gets every row exactly once,
      and then in order, exactly when the last row of every full page divides the rows by their ids. */
  lemma FollowingVisitsAllAtLimitExactly(ids: seq<string>, limit: nat, less: Order)
    requires StrictTotal(less) && NoRepeats(ids) && limit > 0
    ensures multiset(Followed(ids, None, limit, less)) == multiset(ids) <==> PagesDivide(ids, limit, less)
    ensures PagesDivide(ids, limit, less) ==> Followed(ids, None, limit, less) == ids
  {
    PastFrom(ids, None, less);
    if VisitsAll(ids, None, limit, less) {
      VisitingDivides(ids, None, limit, less);
    }
    if PagesDivide(ids, limit, less) {
      DividingVisits(ids, None, limit, less);
    }
  }
}
