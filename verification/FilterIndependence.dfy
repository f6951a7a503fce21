/** Filters whose comparisons are pairwise different.  Each comparison can come out either way whatever
    the others do, and so can everything made of them: a conjunction, an alternative, a negation.  Hence
    what one part of a filter is on some record shows in the whole: the other parts can be made to let it
    through. */
module FilterIndependence {
  import opened Wrappers
  import opened Json
  import opened WhereClause
  import opened FilterCompiler
  import opened FilterMeaning
  import opened FilterReading

  // ----- functions of few comparisons -----

  type Atom = (string, Comparison, Json)

  type Reading = Row -> bool

  ghost predicate Agree(r: Row, s: Row, atoms: set<Atom>) {
    forall a | a in atoms :: r(a.0, a.1, a.2) == s(a.0, a.1, a.2)
  }

  ghost predicate DependsOn(f: Reading, atoms: set<Atom>) {
    forall r, s | Agree(r, s, atoms) :: f(r) == f(s)
  }

  /** As `r` on the given comparisons, and as `s` on all others. */
  function Merge(r: Row, s: Row, atoms: set<Atom>): Row {
    (field, op, value) => if (field, op, value) in atoms then r(field, op, value) else s(field, op, value)
  }

  ghost predicate Reaches(f: Reading, b: bool) {
    exists r :: f(r) == b
  }

  /** Two functions of different comparisons take any two values they take at once. */
  lemma BothReach(f: Reading, a: set<Atom>, x: bool, g: Reading, b: set<Atom>, y: bool) returns (r: Row)
    requires DependsOn(f, a) && DependsOn(g, b) && a !! b && Reaches(f, x) && Reaches(g, y)
    ensures f(r) == x && g(r) == y
  {
    var r1 :| f(r1) == x;
    var r2 :| g(r2) == y;
    r := Merge(r1, r2, a);
    assert Agree(r, r1, a) && Agree(r, r2, b);
  }

  function And(f: Reading, g: Reading): Reading {
    (r: Row) => f(r) && g(r)
  }

  function Neg(f: Reading): Reading {
    (r: Row) => !f(r)
  }

  ghost predicate Differ(f: Reading, g: Reading) {
    exists r :: f(r) != g(r)
  }

  ghost predicate Free(f: Reading) {
    Reaches(f, true) && Reaches(f, false)
  }

  /** If of two conjuncts over different comparisons one differs from its reading, so does the
      conjunction. */
  lemma ConjunctionDiffers(mx: Reading, sx: Reading, a: set<Atom>, my: Reading, sy: Reading, b: set<Atom>)
    requires DependsOn(mx, a) && DependsOn(sx, a) && DependsOn(my, b) && DependsOn(sy, b) && a !! b
    requires Free(mx) && Free(my) && Differ(mx, sx)
    ensures Differ(And(mx, my), And(sx, sy))
  {
    if Reaches(sy, true) {
      var r :| mx(r) != sx(r);
      if mx(r) {
        var s := DifferenceKept(mx, sx, a, r, my, b, true);
        assert And(mx, my)(s) != And(sx, sy)(s);
      } else {
        var s := DifferenceKept(mx, sx, a, r, sy, b, true);
        assert And(mx, my)(s) != And(sx, sy)(s);
      }
    } else {
      var s := BothReach(mx, a, true, my, b, true);
      assert !sy(s);
      assert And(mx, my)(s) != And(sx, sy)(s);
    }
  }

  lemma DifferenceKept(m: Reading, s: Reading, a: set<Atom>, r: Row, g: Reading, b: set<Atom>, y: bool) returns (t: Row)
    requires DependsOn(m, a) && DependsOn(s, a) && DependsOn(g, b) && a !! b && Reaches(g, y)
    ensures m(t) == m(r) && s(t) == s(r) && g(t) == y
  {
    var r2 :| g(r2) == y;
    t := Merge(r, r2, a);
    assert Agree(t, r, a) && Agree(t, r2, b);
  }

  lemma ConjunctionIsFree(f: Reading, a: set<Atom>, g: Reading, b: set<Atom>)
    requires DependsOn(f, a) && DependsOn(g, b) && a !! b && Free(f) && Free(g)
    ensures Free(And(f, g))
  {
    var r := BothReach(f, a, true, g, b, true);
    assert And(f, g)(r);
    var s :| f(s) == false;
    assert And(f, g)(s) == false;
  }

  lemma NegIsFree(f: Reading)
    requires Free(f)
    ensures Free(Neg(f))
  {
    var r :| f(r) == true;
    var s :| f(s) == false;
    assert Neg(f)(r) == false && Neg(f)(s) == true;
  }

  function Or(f: Reading, g: Reading): Reading {
    (r: Row) => f(r) || g(r)
  }

  lemma DisjunctionIsFree(f: Reading, a: set<Atom>, g: Reading, b: set<Atom>)
    requires DependsOn(f, a) && DependsOn(g, b) && a !! b && Free(f) && Free(g)
    ensures Free(Or(f, g))
  {
    NegIsFree(f);
    NegIsFree(g);
    ConjunctionIsFree(Neg(f), a, Neg(g), b);
    var r :| And(Neg(f), Neg(g))(r) == true;
    var s :| And(Neg(f), Neg(g))(s) == false;
    assert Or(f, g)(r) == false && Or(f, g)(s) == true;
  }

  // ----- the comparisons of a filter -----

  function AtomOf(field: string, op: string, operand: Json): Atom {
    (field, Asked(op), operand)
  }

  function OpAtoms(field: string, ops: seq<Entry>): set<Atom> {
    if ops == [] then {} else {AtomOf(field, ops[0].key, ops[0].value)} + OpAtoms(field, ops[1..])
  }

  function Atoms(filter: Json): set<Atom>
    decreases filter
  {
    if filter.Obj? then EntriesAtoms(filter.entries) else {}
  }

  function EntriesAtoms(entries: seq<Entry>): set<Atom>
    decreases entries
  {
    if entries == [] then {} else EntryAtoms(entries[0]) + EntriesAtoms(entries[1..])
  }

  function EntryAtoms(entry: Entry): set<Atom>
    decreases entry
  {
    if entry.key == "$and" || entry.key == "$or" then if entry.value.Arr? then ListAtoms(entry.value.items) else {}
    else if entry.key == "$not" then Atoms(entry.value)
    else if entry.value.Obj? then OpAtoms(entry.key, entry.value.entries)
    else {(entry.key, Eq, entry.value)}
  }

  function ListAtoms(filters: seq<Json>): set<Atom>
    decreases filters
  {
    if filters == [] then {} else Atoms(filters[0]) + ListAtoms(filters[1..])
  }

  /** No comparison occurs twice. */
  predicate Distinct(filter: Json)
    decreases filter
  {
    filter.Obj? ==> DistinctEntries(filter.entries)
  }

  predicate DistinctEntries(entries: seq<Entry>)
    decreases entries
  {
    entries == []
    || (DistinctEntry(entries[0]) && DistinctEntries(entries[1..])
        && EntryAtoms(entries[0]) !! EntriesAtoms(entries[1..]))
  }

  predicate DistinctEntry(entry: Entry)
    decreases entry
  {
    if entry.key == "$and" || entry.key == "$or" then entry.value.Arr? ==> DistinctList(entry.value.items)
    else if entry.key == "$not" then Distinct(entry.value)
    else entry.value.Obj? ==> DistinctOps(entry.key, entry.value.entries)
  }

  predicate DistinctOps(field: string, ops: seq<Entry>) {
    ops == []
    || (DistinctOps(field, ops[1..]) && AtomOf(field, ops[0].key, ops[0].value) !in OpAtoms(field, ops[1..]))
  }

  predicate DistinctList(filters: seq<Json>)
    decreases filters
  {
    filters == []
    || (Distinct(filters[0]) && DistinctList(filters[1..]) && Atoms(filters[0]) !! ListAtoms(filters[1..]))
  }

  // ----- meanings and readings depend on the comparisons alone -----

  lemma {:induction false} OpsDepend(field: string, ops: seq<Entry>, r: Row, s: Row)
    requires Agree(r, s, OpAtoms(field, ops))
    ensures MeansOps(field, ops, r) == MeansOps(field, ops, s)
  {
    if ops != [] {
      assert AtomOf(field, ops[0].key, ops[0].value) in OpAtoms(field, ops);
      OpsDepend(field, ops[1..], r, s);
    }
  }

  lemma {:induction false} FilterDepends(filter: Json, r: Row, s: Row)
    requires Agree(r, s, Atoms(filter))
    ensures Means(filter, r) == Means(filter, s) && Satisfies(filter, r) == Satisfies(filter, s)
    decreases filter
  {
    if filter.Obj? {
      EntriesDepend(filter.entries, r, s);
    }
  }

  lemma {:induction false} EntriesDepend(entries: seq<Entry>, r: Row, s: Row)
    requires Agree(r, s, EntriesAtoms(entries))
    ensures MeansEntries(entries, r) == MeansEntries(entries, s)
    ensures SatisfiesEntries(entries, r) == SatisfiesEntries(entries, s)
    decreases entries
  {
    if entries != [] {
      EntryDepends(entries[0], r, s);
      EntriesDepend(entries[1..], r, s);
    }
  }

  lemma {:induction false} EntryDepends(entry: Entry, r: Row, s: Row)
    requires Agree(r, s, EntryAtoms(entry))
    ensures MeansEntry(entry, r) == MeansEntry(entry, s) && SatisfiesEntry(entry, r) == SatisfiesEntry(entry, s)
    decreases entry
  {
    if entry.key == "$and" || entry.key == "$or" {
      if entry.value.Arr? {
        ListDepends(entry.value.items, r, s);
      }
    } else if entry.key == "$not" {
      FilterDepends(entry.value, r, s);
    } else if entry.value.Obj? {
      OpsDepend(entry.key, entry.value.entries, r, s);
    } else {
      assert (entry.key, Eq, entry.value) in EntryAtoms(entry);
    }
  }

  lemma {:induction false} ListDepends(filters: seq<Json>, r: Row, s: Row)
    requires Agree(r, s, ListAtoms(filters))
    ensures MeansEvery(filters, r) == MeansEvery(filters, s) && SatisfiesEvery(filters, r) == SatisfiesEvery(filters, s)
    ensures MeansSome(filters, r) == MeansSome(filters, s) && SatisfiesSome(filters, r) == SatisfiesSome(filters, s)
    decreases filters
  {
    if filters != [] {
      FilterDepends(filters[0], r, s);
      ListDepends(filters[1..], r, s);
    }
  }

  // ----- one more conjunct, one more alternative -----

  ghost predicate Constant(f: Reading) {
    forall r :: f(r) == f(NO_ROW)
  }

  /** Meaning and reading of a list, from those of its head and its tail; a part without a comparison has no
      meaning, and a constant reading. */
  ghost predicate Parts(hm: Reading, hs: Reading, a: set<Atom>, hc: bool,
                        tm: Reading, ts: Reading, b: set<Atom>, tc: bool) {
    && DependsOn(hm, a) && DependsOn(hs, a) && DependsOn(tm, b) && DependsOn(ts, b) && a !! b
    && (hc || tc) && (hc ==> Free(hm)) && (tc ==> Free(tm))
    && (!hc ==> Constant(hs)) && (!tc ==> Constant(ts))
  }

  ghost predicate Conjoined(m: Reading, hm: Reading, hc: bool, tm: Reading, tc: bool) {
    forall r :: m(r) == if hc && tc then hm(r) && tm(r) else if hc then hm(r) else tm(r)
  }

  ghost predicate Disjoined(m: Reading, hm: Reading, hc: bool, tm: Reading, tc: bool) {
    forall r :: m(r) == if hc && tc then hm(r) || tm(r) else if hc then hm(r) else tm(r)
  }

  /** A part that could show: its meaning differs from its reading, or without a comparison it reads
      otherwise than `unit`. */
  ghost predicate CanShow(m: Reading, s: Reading, compares: bool, unit: bool) {
    if compares then Differ(m, s) else s(NO_ROW) != unit
  }

  lemma ConjunctShows(m: Reading, s: Reading, hm: Reading, hs: Reading, a: set<Atom>, hc: bool,
                      tm: Reading, ts: Reading, b: set<Atom>, tc: bool)
    requires Parts(hm, hs, a, hc, tm, ts, b, tc) && Conjoined(m, hm, hc, tm, tc)
    requires forall r :: s(r) == (hs(r) && ts(r))
    requires CanShow(hm, hs, hc, true) || CanShow(tm, ts, tc, true)
    ensures Differ(m, s)
  {
    if hc && tc {
      if Differ(hm, hs) {
        ConjunctionDiffers(hm, hs, a, tm, ts, b);
      } else {
        ConjunctionDiffers(tm, ts, b, hm, hs, a);
        var r :| And(tm, hm)(r) != And(ts, hs)(r);
        assert And(hm, tm)(r) != And(hs, ts)(r);
      }
      var r :| And(hm, tm)(r) != And(hs, ts)(r);
      assert m(r) != s(r);
    } else if hc {
      OneConjunctShows(m, s, hm, hs, ts);
    } else {
      OneConjunctShows(m, s, tm, ts, hs);
    }
  }

  lemma OneConjunctShows(m: Reading, s: Reading, cm: Reading, cs: Reading, other: Reading)
    requires Free(cm) && Constant(other) && (forall r :: m(r) == cm(r)) && forall r :: s(r) == (cs(r) && other(r))
    requires Differ(cm, cs) || !other(NO_ROW)
    ensures Differ(m, s)
  {
    if other(NO_ROW) {
      var r :| cm(r) != cs(r);
      assert m(r) != s(r);
    } else {
      var r :| cm(r) == true;
      assert m(r) != s(r);
    }
  }

  lemma NegDepends(f: Reading, a: set<Atom>)
    requires DependsOn(f, a)
    ensures DependsOn(Neg(f), a)
  {
  }

  lemma NegDiffers(f: Reading, g: Reading)
    ensures Differ(f, g) <==> Differ(Neg(f), Neg(g))
  {
    if r :| f(r) != g(r) {
      assert Neg(f)(r) != Neg(g)(r);
    }
  }

  /** The same for alternatives, by negation. */
  lemma AlternativeShows(m: Reading, s: Reading, hm: Reading, hs: Reading, a: set<Atom>, hc: bool,
                         tm: Reading, ts: Reading, b: set<Atom>, tc: bool)
    requires Parts(hm, hs, a, hc, tm, ts, b, tc) && Disjoined(m, hm, hc, tm, tc)
    requires forall r :: s(r) == (hs(r) || ts(r))
    requires CanShow(hm, hs, hc, false) || CanShow(tm, ts, tc, false)
    ensures Differ(m, s)
  {
    NegDepends(hm, a);
    NegDepends(hs, a);
    NegDepends(tm, b);
    NegDepends(ts, b);
    NegDiffers(hm, hs);
    NegDiffers(tm, ts);
    if hc {
      NegIsFree(hm);
    }
    if tc {
      NegIsFree(tm);
    }
    ConjunctShows(Neg(m), Neg(s), Neg(hm), Neg(hs), a, hc, Neg(tm), Neg(ts), b, tc);
    NegDiffers(m, s);
  }

  lemma ConjunctsAreFree(m: Reading, hm: Reading, a: set<Atom>, hc: bool, tm: Reading, b: set<Atom>, tc: bool)
    requires DependsOn(hm, a) && DependsOn(tm, b) && a !! b && (hc || tc)
    requires (hc ==> Free(hm)) && (tc ==> Free(tm)) && Conjoined(m, hm, hc, tm, tc)
    ensures Free(m)
  {
    if hc && tc {
      ConjunctionIsFree(hm, a, tm, b);
      SameIsFree(And(hm, tm), m);
    } else {
      SameIsFree(if hc then hm else tm, m);
    }
  }

  lemma AlternativesAreFree(m: Reading, hm: Reading, a: set<Atom>, hc: bool, tm: Reading, b: set<Atom>, tc: bool)
    requires DependsOn(hm, a) && DependsOn(tm, b) && a !! b && (hc || tc)
    requires (hc ==> Free(hm)) && (tc ==> Free(tm)) && Disjoined(m, hm, hc, tm, tc)
    ensures Free(m)
  {
    if hc && tc {
      DisjunctionIsFree(hm, a, tm, b);
      SameIsFree(Or(hm, tm), m);
    } else {
      SameIsFree(if hc then hm else tm, m);
    }
  }

  lemma SameIsFree(f: Reading, g: Reading)
    requires Free(f) && forall r :: f(r) == g(r)
    ensures Free(g)
  {
    var r :| f(r) == true;
    var s :| f(s) == false;
    assert g(r) == true && g(s) == false;
  }

  // ----- the readings of a filter's parts -----

  function MFilter(filter: Json): Reading {
    (r: Row) => Means(filter, r) == Some(true)
  }

  function SFilter(filter: Json): Reading {
    (r: Row) => Satisfies(filter, r)
  }

  function MEntries(entries: seq<Entry>): Reading {
    (r: Row) => MeansEntries(entries, r) == Some(true)
  }

  function SEntries(entries: seq<Entry>): Reading {
    (r: Row) => SatisfiesEntries(entries, r)
  }

  function MEntry(entry: Entry): Reading {
    (r: Row) => MeansEntry(entry, r) == Some(true)
  }

  function SEntry(entry: Entry): Reading {
    (r: Row) => SatisfiesEntry(entry, r)
  }

  function MEvery(filters: seq<Json>): Reading {
    (r: Row) => MeansEvery(filters, r) == Some(true)
  }

  function SEvery(filters: seq<Json>): Reading {
    (r: Row) => SatisfiesEvery(filters, r)
  }

  function MSome(filters: seq<Json>): Reading {
    (r: Row) => MeansSome(filters, r) == Some(true)
  }

  function SSome(filters: seq<Json>): Reading {
    (r: Row) => SatisfiesSome(filters, r)
  }

  function MOp(field: string, op: Entry): Reading {
    (r: Row) => MeansOp(field, op.key, op.value, r)
  }

  function MOps(field: string, ops: seq<Entry>): Reading {
    (r: Row) => MeansOps(field, ops, r) == Some(true)
  }

  // ----- what has a comparison has a meaning -----

  lemma {:induction false} MeansIfCompares(filter: Json, row: Row)
    ensures Means(filter, row).Some? <==> Compares(filter)
    decreases filter
  {
    if filter.Obj? {
      EntriesMeanIfCompares(filter.entries, row);
    }
  }

  lemma {:induction false} EntriesMeanIfCompares(entries: seq<Entry>, row: Row)
    ensures MeansEntries(entries, row).Some? <==> ComparesEntries(entries)
    decreases entries
  {
    if entries != [] {
      EntryMeansIfCompares(entries[0], row);
      EntriesMeanIfCompares(entries[1..], row);
    }
  }

  lemma {:induction false} EntryMeansIfCompares(entry: Entry, row: Row)
    ensures MeansEntry(entry, row).Some? <==> ComparesEntry(entry)
    decreases entry
  {
    if entry.key == "$and" || entry.key == "$or" {
      if entry.value.Arr? {
        ListMeansIfCompares(entry.value.items, row);
      }
    } else if entry.key == "$not" {
      MeansIfCompares(entry.value, row);
    }
  }

  lemma {:induction false} ListMeansIfCompares(filters: seq<Json>, row: Row)
    ensures MeansEvery(filters, row).Some? <==> ComparesList(filters)
    ensures MeansSome(filters, row).Some? <==> ComparesList(filters)
    decreases filters
  {
    if filters != [] {
      MeansIfCompares(filters[0], row);
      ListMeansIfCompares(filters[1..], row);
    }
  }

  // ----- operators that compare can come out either way -----

  lemma OpIsFree(field: string, op: Entry)
    ensures Free(MOp(field, op)) && DependsOn(MOp(field, op), {AtomOf(field, op.key, op.value)})
  {
    var all: Row := (f, o, v) => true;
    assert MOp(field, op)(all) != MOp(field, op)(NO_ROW);
    assert Reaches(MOp(field, op), MOp(field, op)(all)) && Reaches(MOp(field, op), MOp(field, op)(NO_ROW));
    forall r, s | Agree(r, s, {AtomOf(field, op.key, op.value)})
      ensures MOp(field, op)(r) == MOp(field, op)(s)
    {
      assert AtomOf(field, op.key, op.value) in {AtomOf(field, op.key, op.value)};
    }
  }

  lemma {:induction false} OpsAreFree(field: string, ops: seq<Entry>)
    requires ops != [] && DistinctOps(field, ops)
    ensures Free(MOps(field, ops)) && DependsOn(MOps(field, ops), OpAtoms(field, ops))
  {
    var tail := ops[1..];
    OpIsFree(field, ops[0]);
    forall r, s | Agree(r, s, OpAtoms(field, ops))
      ensures MOps(field, ops)(r) == MOps(field, ops)(s)
    {
      OpsDepend(field, ops, r, s);
    }
    if tail != [] {
      OpsAreFree(field, tail);
      assert forall r: Row :: MeansOps(field, tail, r).Some?;
    }
    forall r, s | Agree(r, s, OpAtoms(field, tail))
      ensures MOps(field, tail)(r) == MOps(field, tail)(s)
    {
      OpsDepend(field, tail, r, s);
    }
    ConjunctsAreFree(MOps(field, ops), MOp(field, ops[0]), {AtomOf(field, ops[0].key, ops[0].value)}, true,
                     MOps(field, tail), OpAtoms(field, tail), tail != []);
  }

  // ----- which comparisons the parts depend on -----

  lemma FilterUses(filter: Json)
    ensures DependsOn(MFilter(filter), Atoms(filter)) && DependsOn(SFilter(filter), Atoms(filter))
  {
    forall r, s | Agree(r, s, Atoms(filter))
      ensures MFilter(filter)(r) == MFilter(filter)(s) && SFilter(filter)(r) == SFilter(filter)(s)
    {
      FilterDepends(filter, r, s);
    }
  }

  lemma EntriesUse(entries: seq<Entry>)
    ensures DependsOn(MEntries(entries), EntriesAtoms(entries)) && DependsOn(SEntries(entries), EntriesAtoms(entries))
  {
    forall r, s | Agree(r, s, EntriesAtoms(entries))
      ensures MEntries(entries)(r) == MEntries(entries)(s) && SEntries(entries)(r) == SEntries(entries)(s)
    {
      EntriesDepend(entries, r, s);
    }
  }

  lemma EntryUses(entry: Entry)
    ensures DependsOn(MEntry(entry), EntryAtoms(entry)) && DependsOn(SEntry(entry), EntryAtoms(entry))
  {
    forall r, s | Agree(r, s, EntryAtoms(entry))
      ensures MEntry(entry)(r) == MEntry(entry)(s) && SEntry(entry)(r) == SEntry(entry)(s)
    {
      EntryDepends(entry, r, s);
    }
  }

  lemma ListUses(filters: seq<Json>)
    ensures DependsOn(MEvery(filters), ListAtoms(filters)) && DependsOn(SEvery(filters), ListAtoms(filters))
    ensures DependsOn(MSome(filters), ListAtoms(filters)) && DependsOn(SSome(filters), ListAtoms(filters))
  {
    forall r, s | Agree(r, s, ListAtoms(filters))
      ensures MEvery(filters)(r) == MEvery(filters)(s) && SEvery(filters)(r) == SEvery(filters)(s)
      ensures MSome(filters)(r) == MSome(filters)(s) && SSome(filters)(r) == SSome(filters)(s)
    {
      ListDepends(filters, r, s);
    }
  }

  // ----- heads and tails -----

  lemma EntriesConjoined(entries: seq<Entry>)
    requires entries != []
    ensures Conjoined(MEntries(entries), MEntry(entries[0]), ComparesEntry(entries[0]), MEntries(entries[1..]),
                      ComparesEntries(entries[1..]))
            || !ComparesEntries(entries)
  {
    forall r: Row
      ensures MeansEntry(entries[0], r).Some? <==> ComparesEntry(entries[0])
      ensures MeansEntries(entries[1..], r).Some? <==> ComparesEntries(entries[1..])
    {
      EntryMeansIfCompares(entries[0], r);
      EntriesMeanIfCompares(entries[1..], r);
    }
  }

  lemma ListJoined(filters: seq<Json>)
    requires filters != [] && ComparesList(filters)
    ensures Conjoined(MEvery(filters), MFilter(filters[0]), Compares(filters[0]),
                      MEvery(filters[1..]), ComparesList(filters[1..]))
    ensures Disjoined(MSome(filters), MFilter(filters[0]), Compares(filters[0]),
                      MSome(filters[1..]), ComparesList(filters[1..]))
  {
    forall r: Row
      ensures Means(filters[0], r).Some? <==> Compares(filters[0])
      ensures MeansEvery(filters[1..], r).Some? <==> ComparesList(filters[1..])
      ensures MeansSome(filters[1..], r).Some? <==> ComparesList(filters[1..])
    {
      MeansIfCompares(filters[0], r);
      ListMeansIfCompares(filters[1..], r);
    }
  }

  lemma ConstantIfNoComparison(filter: Json, entry: Entry, entries: seq<Entry>, filters: seq<Json>)
    ensures !Compares(filter) ==> Constant(SFilter(filter))
    ensures !ComparesEntry(entry) ==> Constant(SEntry(entry))
    ensures !ComparesEntries(entries) ==> Constant(SEntries(entries))
    ensures !ComparesList(filters) ==> Constant(SEvery(filters)) && Constant(SSome(filters))
  {
    forall r: Row
      ensures !Compares(filter) ==> SFilter(filter)(r) == SFilter(filter)(NO_ROW)
      ensures !ComparesEntry(entry) ==> SEntry(entry)(r) == SEntry(entry)(NO_ROW)
      ensures !ComparesEntries(entries) ==> SEntries(entries)(r) == SEntries(entries)(NO_ROW)
      ensures !ComparesList(filters) ==> SEvery(filters)(r) == SEvery(filters)(NO_ROW)
      ensures !ComparesList(filters) ==> SSome(filters)(r) == SSome(filters)(NO_ROW)
    {
      if !Compares(filter) {
        WithoutComparison(filter, r);
      }
      if !ComparesEntry(entry) {
        EntryWithoutComparison(entry, r);
      }
      if !ComparesEntries(entries) {
        EntriesWithoutComparison(entries, r);
      }
      if !ComparesList(filters) {
        ListWithoutComparison(filters, r);
      }
    }
  }

  // ----- everything with a comparison can come out either way -----

  lemma {:induction false} FilterIsFree(filter: Json)
    requires Distinct(filter) && Compares(filter)
    ensures Free(MFilter(filter))
    decreases filter
  {
    EntriesAreFree(filter.entries);
    SameIsFree(MEntries(filter.entries), MFilter(filter));
  }

  lemma {:induction false} EntriesAreFree(entries: seq<Entry>)
    requires DistinctEntries(entries) && ComparesEntries(entries)
    ensures Free(MEntries(entries))
    decreases entries
  {
    var h, t := entries[0], entries[1..];
    if ComparesEntry(h) {
      EntryIsFree(h);
    }
    if ComparesEntries(t) {
      EntriesAreFree(t);
    }
    EntryUses(h);
    EntriesUse(t);
    EntriesConjoined(entries);
    ConjunctsAreFree(MEntries(entries), MEntry(h), EntryAtoms(h), ComparesEntry(h), MEntries(t), EntriesAtoms(t),
                     ComparesEntries(t));
  }

  lemma {:induction false} EntryIsFree(entry: Entry)
    requires DistinctEntry(entry) && ComparesEntry(entry)
    ensures Free(MEntry(entry))
    decreases entry
  {
    if entry.key == "$and" {
      ListIsFree(entry.value.items);
      SameIsFree(MEvery(entry.value.items), MEntry(entry));
    } else if entry.key == "$or" {
      ListIsFree(entry.value.items);
      SameIsFree(MSome(entry.value.items), MEntry(entry));
    } else if entry.key == "$not" {
      FilterIsFree(entry.value);
      NegIsFree(MFilter(entry.value));
      NotIsNegation(entry);
      SameIsFree(Neg(MFilter(entry.value)), MEntry(entry));
    } else if entry.value.Obj? {
      OpsAreFree(entry.key, entry.value.entries);
      SameIsFree(MOps(entry.key, entry.value.entries), MEntry(entry));
    } else {
      var all: Row := (f, o, v) => true;
      assert MEntry(entry)(all) && !MEntry(entry)(NO_ROW);
    }
  }

  lemma NotIsNegation(entry: Entry)
    requires entry.key == "$not" && Compares(entry.value)
    ensures forall r :: MEntry(entry)(r) == Neg(MFilter(entry.value))(r)
    ensures forall r :: SEntry(entry)(r) == Neg(SFilter(entry.value))(r)
  {
    forall r: Row
      ensures MEntry(entry)(r) == Neg(MFilter(entry.value))(r)
    {
      MeansIfCompares(entry.value, r);
    }
  }

  lemma {:induction false} ListIsFree(filters: seq<Json>)
    requires DistinctList(filters) && ComparesList(filters)
    ensures Free(MEvery(filters)) && Free(MSome(filters))
    decreases filters
  {
    var h, t := filters[0], filters[1..];
    if Compares(h) {
      FilterIsFree(h);
    }
    if ComparesList(t) {
      ListIsFree(t);
    }
    FilterUses(h);
    ListUses(t);
    ListJoined(filters);
    ConjunctsAreFree(MEvery(filters), MFilter(h), Atoms(h), Compares(h), MEvery(t), ListAtoms(t), ComparesList(t));
    AlternativesAreFree(MSome(filters), MFilter(h), Atoms(h), Compares(h), MSome(t), ListAtoms(t), ComparesList(t));
  }

  // ----- heads and tails together -----

  lemma EntriesParts(entries: seq<Entry>)
    requires DistinctEntries(entries) && ComparesEntries(entries)
    requires ComparesEntry(entries[0]) ==> Free(MEntry(entries[0]))
    requires ComparesEntries(entries[1..]) ==> Free(MEntries(entries[1..]))
    ensures var h, t := entries[0], entries[1..];
            Parts(MEntry(h), SEntry(h), EntryAtoms(h), ComparesEntry(h), MEntries(t), SEntries(t), EntriesAtoms(t),
                  ComparesEntries(t))
    ensures var h, t := entries[0], entries[1..];
            Conjoined(MEntries(entries), MEntry(h), ComparesEntry(h), MEntries(t), ComparesEntries(t))
  {
    EntryUses(entries[0]);
    EntriesUse(entries[1..]);
    EntriesConjoined(entries);
    ConstantIfNoComparison(Null, entries[0], entries[1..], []);
  }

  lemma ListIsFreeInParts(filters: seq<Json>)
    requires DistinctList(filters) && ComparesList(filters)
    ensures Compares(filters[0]) ==> Free(MFilter(filters[0]))
    ensures ComparesList(filters[1..]) ==> Free(MEvery(filters[1..])) && Free(MSome(filters[1..]))
  {
    if Compares(filters[0]) {
      FilterIsFree(filters[0]);
    }
    if ComparesList(filters[1..]) {
      ListIsFree(filters[1..]);
    }
  }

  lemma ConjunctParts(filters: seq<Json>)
    requires DistinctList(filters) && ComparesList(filters)
    ensures var h, t := filters[0], filters[1..];
            Parts(MFilter(h), SFilter(h), Atoms(h), Compares(h), MEvery(t), SEvery(t), ListAtoms(t), ComparesList(t))
  {
    ListIsFreeInParts(filters);
    FilterUses(filters[0]);
    ListUses(filters[1..]);
    ConstantIfNoComparison(filters[0], Entry("", Null), [], filters[1..]);
  }

  lemma AlternativeParts(filters: seq<Json>)
    requires DistinctList(filters) && ComparesList(filters)
    ensures var h, t := filters[0], filters[1..];
            Parts(MFilter(h), SFilter(h), Atoms(h), Compares(h), MSome(t), SSome(t), ListAtoms(t), ComparesList(t))
  {
    ListIsFreeInParts(filters);
    FilterUses(filters[0]);
    ListUses(filters[1..]);
    ConstantIfNoComparison(filters[0], Entry("", Null), [], filters[1..]);
  }
}
