/** Selecting from the in-memory repository: filter, sort by several keys, truncate. */
module MockRepository {
  import opened Wrappers
  import opened Json
  import opened Orders
  import opened StableSort

  function FieldIn(entries: seq<Entry>, name: string): Option<Json> {
    if entries == [] then None
    else if entries[0].key == name then Some(entries[0].value)
    else FieldIn(entries[1..], name)
  }

  /** `value.get(name)`: the field of an object, if there is one. */
  function Field(value: Json, name: string): Option<Json> {
    if value.Obj? then FieldIn(value.entries, name) else None
  }

  function FieldOrNull(value: Json, name: string): Json {
    Field(value, name).GetOr(Null)
  }

  predicate OfTenant(value: Json, tenant: string) {
    Field(value, "tenant") == Some(Str(tenant))
  }

  /** Every entry of the filter equals the record's field, a missing field counting as null. */
  predicate Matches(value: Json, filter: seq<Entry>) {
    forall e | e in filter :: FieldOrNull(value, e.key) == e.value
  }

  // ----- comparing -----

  function CompareNumbers(a: real, b: real): Ordering {
    if a < b then Less else if b < a then Greater else Equal
  }

  function CompareBools(a: bool, b: bool): Ordering {
    if a == b then Equal else if b then Less else Greater
  }

  /** `json_cmp`: values of different types, and of types without an order, tie. */
  function CompareJson(a: Json, b: Json): Ordering {
    if a.Str? && b.Str? then CompareStrings(a.s, b.s)
    else if a.Num? && b.Num? then CompareNumbers(a.n, b.n)
    else if a.Bool? && b.Bool? then CompareBools(a.b, b.b)
    else Equal
  }

  /** How one sort key compares two rows. */
  function CompareRows(sort: Sort, a: Json, b: Json): Ordering {
    var ord := CompareJson(FieldOrNull(a, sort.field), FieldOrNull(b, sort.field));
    if sort.asc then ord else ord.Reverse()
  }

  /** A row that does not compare greater may stand first. */
  function MayPrecede(sort: Sort): (Json, Json) -> bool {
    (a, b) => CompareRows(sort, a, b) != Greater
  }

  /** What may stand first under a sort key, told without the comparison: with two numbers, strings or
      booleans the one that is not greater, descending the one that is not less, false being less than
      true; values of different types and all others in any order. */
  ghost predicate Precedes(sort: Sort, a: Json, b: Json) {
    var x, y := FieldOrNull(a, sort.field), FieldOrNull(b, sort.field);
    var first, second := if sort.asc then x else y, if sort.asc then y else x;
    match (first, second)
    case (Num(m), Num(n)) => m <= n
    case (Str(s), Str(t)) => s == t || ComesBefore(s, t)
    case (Bool(p), Bool(q)) => p ==> q
    case _ => true
  }

  lemma MayPrecedeMeans(sort: Sort, a: Json, b: Json)
    ensures MayPrecede(sort)(a, b) <==> Precedes(sort, a, b)
  {
    var x, y := FieldOrNull(a, sort.field), FieldOrNull(b, sort.field);
    if x.Str? && y.Str? {
      StringsCompare(x.s, y.s);
      StringsCompareByFirstDifference(x.s, y.s);
      StringsCompareByFirstDifference(y.s, x.s);
    }
  }

  datatype Kind = Strings | Numbers | Booleans | Unordered

  function KindOf(value: Json): Kind {
    match value
    case Str(_) => Strings
    case Num(_) => Numbers
    case Bool(_) => Booleans
    case _ => Unordered
  }

  /** All rows have the same kind of value in the sort column. */
  ghost predicate OneKind(rows: set<Json>, field: string) {
    forall a, b | a in rows && b in rows :: KindOf(FieldOrNull(a, field)) == KindOf(FieldOrNull(b, field))
  }

  ghost predicate AllTie(rows: set<Json>, sort: Sort) {
    forall a, b | a in rows && b in rows :: CompareRows(sort, a, b) == Equal
  }

  /** The sort key orders the rows. */
  ghost predicate Sortable(rows: set<Json>, sort: Sort) {
    OneKind(rows, sort.field) || AllTie(rows, sort)
  }

  /** The comparison is total and transitive on a set of rows exactly when their column holds one
      kind of value, or no two of them compare different.  A missing field counts as null, which
      is a kind of its own. */
  lemma ComparableExactly(rows: set<Json>, sort: Sort)
    ensures Comparable(rows, MayPrecede(sort)) <==> Sortable(rows, sort)
  {
    if OneKind(rows, sort.field) {
      OneKindIsComparable(rows, sort);
    } else if !AllTie(rows, sort) {
      MixedIsNotComparable(rows, sort);
    }
  }

  lemma OneKindIsComparable(rows: set<Json>, sort: Sort)
    requires OneKind(rows, sort.field)
    ensures Comparable(rows, MayPrecede(sort))
  {
    var le := MayPrecede(sort);
    forall a, b | a in rows && b in rows
      ensures le(a, b) || le(b, a)
    {
      CompareSwaps(sort, a, b);
    }
    forall a, b, c | a in rows && b in rows && c in rows && le(a, b) && le(b, c)
      ensures le(a, c)
    {
      CompareTransitive(sort, a, b, c);
    }
  }

  lemma DifferentKindsTie(sort: Sort, a: Json, b: Json)
    requires KindOf(FieldOrNull(a, sort.field)) != KindOf(FieldOrNull(b, sort.field))
    ensures CompareRows(sort, a, b) == Equal == CompareRows(sort, b, a)
  {
  }

  /** Two rows that compare different, and a third of another kind: it ties with both. */
  lemma TiesBreakTheOrder(sort: Sort, a: Json, b: Json, c: Json)
    requires CompareRows(sort, a, b) != Equal
    requires KindOf(FieldOrNull(a, sort.field)) != KindOf(FieldOrNull(c, sort.field))
    ensures !Comparable({a, b, c}, MayPrecede(sort))
  {
    var le := MayPrecede(sort);
    CompareSwaps(sort, a, b);
    DifferentKindsTie(sort, a, c);
    DifferentKindsTie(sort, b, c);
    assert le(a, c) && le(c, b) && le(b, c) && le(c, a);
  }

  lemma MixedIsNotComparable(rows: set<Json>, sort: Sort)
    requires !OneKind(rows, sort.field) && !AllTie(rows, sort)
    ensures !Comparable(rows, MayPrecede(sort))
  {
    var a, b :| a in rows && b in rows && CompareRows(sort, a, b) != Equal;
    var kind := KindOf(FieldOrNull(a, sort.field));
    var x, y :| x in rows && y in rows && KindOf(FieldOrNull(x, sort.field)) != KindOf(FieldOrNull(y, sort.field));
    var c := if KindOf(FieldOrNull(x, sort.field)) != kind then x else y;
    TiesBreakTheOrder(sort, a, b, c);
  }

  /** So a string tied with by a number tied with by another string are in no order. */
  lemma MixedKindsAreNoOrder(field: string, b: string, n: real, a: string)
    requires a != b
    ensures !Comparable({Obj([Entry(field, Str(b))]), Obj([Entry(field, Num(n))]), Obj([Entry(field, Str(a))])},
                        MayPrecede(Sort(field, true)))
  {
    StringsCompare(b, a);
    TiesBreakTheOrder(Sort(field, true), Obj([Entry(field, Str(b))]), Obj([Entry(field, Str(a))]),
                      Obj([Entry(field, Num(n))]));
    assert {Obj([Entry(field, Str(b))]), Obj([Entry(field, Num(n))]), Obj([Entry(field, Str(a))])}
        == {Obj([Entry(field, Str(b))]), Obj([Entry(field, Str(a))]), Obj([Entry(field, Num(n))])};
  }

  lemma CompareSwaps(sort: Sort, a: Json, b: Json)
    ensures CompareRows(sort, a, b) == CompareRows(sort, b, a).Reverse()
  {
    var fa, fb := FieldOrNull(a, sort.field), FieldOrNull(b, sort.field);
    if fa.Str? && fb.Str? {
      StringsCompare(fa.s, fb.s);
    }
  }

  lemma CompareTransitive(sort: Sort, a: Json, b: Json, c: Json)
    requires KindOf(FieldOrNull(a, sort.field)) == KindOf(FieldOrNull(b, sort.field))
             == KindOf(FieldOrNull(c, sort.field))
    requires CompareRows(sort, a, b) != Greater && CompareRows(sort, b, c) != Greater
    ensures CompareRows(sort, a, c) != Greater
  {
    var fa, fb, fc := FieldOrNull(a, sort.field), FieldOrNull(b, sort.field), FieldOrNull(c, sort.field);
    if fa.Str? {
      StringsCompare(fa.s, fb.s);
      StringsCompare(fb.s, fc.s);
      StringsCompare(fa.s, fc.s);
      if sort.asc {
        StringsTransitive(fa.s, fb.s, fc.s);
      } else {
        StringsTransitive(fc.s, fb.s, fa.s);
      }
    }
  }

  // ----- several keys -----

  /** Sorting by the last key first. */
  function SortedBy(rows: seq<Json>, sorts: seq<Sort>): seq<Json> {
    if sorts == [] then rows else SortBy(SortedBy(rows, sorts[1..]), MayPrecede(sorts[0]))
  }

  /** The whole specification at once: by the first key, ties by the second, and so on, and the
      remaining ties by `before`. */
  function ByKeys(sorts: seq<Sort>, before: (Json, Json) -> bool): (Json, Json) -> bool {
    if sorts == [] then before else Lexicographic(MayPrecede(sorts[0]), ByKeys(sorts[1..], before))
  }

  lemma {:induction false} SortedByPermutes(rows: seq<Json>, sorts: seq<Sort>)
    ensures multiset(SortedBy(rows, sorts)) == multiset(rows)
    ensures |SortedBy(rows, sorts)| == |rows|
  {
    if sorts != [] {
      SortedByPermutes(rows, sorts[1..]);
      SortPermutes(SortedBy(rows, sorts[1..]), MayPrecede(sorts[0]));
    }
  }

  function Members(rows: seq<Json>): set<Json> {
    set r | r in rows
  }

  /** Stable sorts from the last key to the first order the rows by the whole specification,
      each key ascending or descending as asked, and rows that tie on every key by whatever
      order they had before; when each sort key orders the rows. */
  lemma {:induction false} SortedByAllKeys(rows: seq<Json>, sorts: seq<Sort>, before: (Json, Json) -> bool)
    requires forall s | s in sorts :: Sortable(Members(rows), s)
    requires Ordered(rows, before)
    ensures Ordered(SortedBy(rows, sorts), ByKeys(sorts, before))
  {
    if sorts != [] {
      assert sorts == [sorts[0]] + sorts[1..];
      var inner := SortedBy(rows, sorts[1..]);
      SortedByAllKeys(rows, sorts[1..], before);
      SortedByPermutes(rows, sorts[1..]);
      forall r | r in inner
        ensures r in Members(rows)
      {
        PermutedMember(inner, rows, r);
      }
      ComparableExactly(Members(rows), sorts[0]);
      SortRefinesOrder(inner, Members(rows), MayPrecede(sorts[0]), ByKeys(sorts[1..], before));
    }
  }

  // ----- select -----

  /** The rows of the table that `select` keeps, in table order. */
  function Kept(table: seq<Json>, tenant: string, filter: seq<Entry>): seq<Json> {
    if table == [] then []
    else
      var rest := Kept(table[..|table| - 1], tenant, filter);
      var last := table[|table| - 1];
      if OfTenant(last, tenant) && Matches(last, filter) then rest + [last] else rest
  }

  /** Kept are exactly the tenant's matching rows, as often as they occur. */
  lemma {:induction false} KeptExactly(table: seq<Json>, tenant: string, filter: seq<Entry>, row: Json)
    ensures multiset(Kept(table, tenant, filter))[row]
            == if Field(row, "tenant") == Some(Str(tenant))
                  && forall e | e in filter :: Field(row, e.key).GetOr(Null) == e.value
               then multiset(table)[row] else 0
  {
    if table != [] {
      var init, last := table[..|table| - 1], table[|table| - 1];
      KeptExactly(init, tenant, filter, row);
      assert table == init + [last];
    }
  }

  /** The tenant's matching rows, in the order of the whole sort specification. */
  function Result(table: seq<Json>, tenant: string, filter: Json, sorts: seq<Sort>): seq<Json> {
    SortedBy(Kept(table, tenant, if filter.Obj? then filter.entries else []), sorts)
  }

  function Selected(table: seq<Json>, tenant: string, filter: Json, sorts: seq<Sort>, limit: nat): seq<Json> {
    var sorted := Result(table, tenant, filter, sorts);
    if |sorted| > limit then sorted[..limit] else sorted
  }

  lemma ResultIsSorted(table: seq<Json>, tenant: string, filter: Json, sorts: seq<Sort>, before: (Json, Json) -> bool)
    requires var kept := Kept(table, tenant, if filter.Obj? then filter.entries else []);
             Ordered(kept, before) && forall s | s in sorts :: Sortable(Members(kept), s)
    ensures var kept := Kept(table, tenant, if filter.Obj? then filter.entries else []);
            var sorted := Result(table, tenant, filter, sorts);
            multiset(sorted) == multiset(kept) && |sorted| == |kept| && Ordered(sorted, ByKeys(sorts, before))
  {
    var kept := Kept(table, tenant, if filter.Obj? then filter.entries else []);
    SortedByAllKeys(kept, sorts, before);
    SortedByPermutes(kept, sorts);
  }

  lemma PrefixIsOrdered(sorted: seq<Json>, limit: nat, before: (Json, Json) -> bool)
    requires limit <= |sorted| && Ordered(sorted, before)
    ensures Ordered(sorted[..limit], before) && sorted[..limit] + sorted[limit..] == sorted
  {
  }

  /** What a select returns, whatever the order of the table: the first `limit` rows, in the
      order of the whole sort specification, of the tenant's matching rows. */
  lemma SelectedIsSortedPrefix(table: seq<Json>, tenant: string, filter: Json, sorts: seq<Sort>, limit: nat,
                               before: (Json, Json) -> bool)
    requires var kept := Kept(table, tenant, if filter.Obj? then filter.entries else []);
             Ordered(kept, before) && forall s | s in sorts :: Sortable(Members(kept), s)
    ensures var kept := Kept(table, tenant, if filter.Obj? then filter.entries else []);
            var page := Selected(table, tenant, filter, sorts, limit);
            && Ordered(page, ByKeys(sorts, before))
            && |page| == (if |kept| < limit then |kept| else limit)
            && exists rest :: multiset(page + rest) == multiset(kept) && Ordered(page + rest, ByKeys(sorts, before))
  {
    var sorted := Result(table, tenant, filter, sorts);
    ResultIsSorted(table, tenant, filter, sorts, before);
    var n := if |sorted| > limit then limit else |sorted|;
    PrefixIsOrdered(sorted, n, ByKeys(sorts, before));
    assert sorted[..|sorted|] == sorted;
    assert Selected(table, tenant, filter, sorts, limit) == sorted[..n];
  }

  /** So on the page each row may precede all later ones under the first sort key, as asked. */
  lemma PageFollowsFirstKey(table: seq<Json>, tenant: string, filter: Json, sorts: seq<Sort>, limit: nat, i: nat,
                            j: nat)
    requires var kept := Kept(table, tenant, if filter.Obj? then filter.entries else []);
             sorts != [] && forall s | s in sorts :: Sortable(Members(kept), s)
    requires i < j < |Selected(table, tenant, filter, sorts, limit)|
    ensures var page := Selected(table, tenant, filter, sorts, limit); Precedes(sorts[0], page[i], page[j])
  {
    var any := (a: Json, b: Json) => true;
    SelectedIsSortedPrefix(table, tenant, filter, sorts, limit, any);
    var page := Selected(table, tenant, filter, sorts, limit);
    assert ByKeys(sorts, any)(page[i], page[j]);
    MayPrecedeMeans(sorts[0], page[i], page[j]);
  }

  /** The table's values in an iteration order of its keys. */
  function Rows(table: map<string, Json>, order: seq<string>): seq<Json>
    requires forall i | 0 <= i < |order| :: order[i] in table
  {
    seq(|order|, i requires 0 <= i < |order| => table[order[i]])
  }

  class InMemoryRepository {
    var table: map<string, Json>

    constructor ()
      ensures table == map[]
    {
      table := map[];
    }

    /** `order` lists the table's keys in the order its values are iterated. */
    method Select(order: seq<string>, tenant: string, filter: Json, sorts: seq<Sort>, limit: nat)
      returns (page: seq<Json>)
      requires forall i | 0 <= i < |order| :: order[i] in table
      ensures page == Selected(Rows(table, order), tenant, filter, sorts, limit)
    {
      var values := Rows(table, order);
      var wanted := if filter.Obj? then filter.entries else [];
      var items: seq<Json> := [];
      for n := 0 to |values|
        invariant items == Kept(values[..n], tenant, wanted)
      {
        assert values[..n + 1][..n] == values[..n];
        if OfTenant(values[n], tenant) && Matches(values[n], wanted) {
          items := items + [values[n]];
        }
      }
      assert values[..|values|] == values;
      var k := |sorts|;
      assert sorts[k..] == [];
      ghost var kept := items;
      while k > 0
        invariant 0 <= k <= |sorts|
        invariant items == SortedBy(kept, sorts[k..])
      {
        k := k - 1;
        assert sorts[k..][1..] == sorts[k + 1..];
        items := SortBy(items, MayPrecede(sorts[k]));
      }
      assert sorts[0..] == sorts;
      page := if |items| > limit then items[..limit] else items;
    }
  }
}
