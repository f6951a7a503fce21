/** The usual two-valued reading of a filter, in which an empty object is true, and when the compiled clause
    agrees with it although the compiler drops filters without a comparison. */
module FilterReading {
  import opened Wrappers
  import opened Json
  import opened WhereClause
  import opened FilterCompiler
  import opened FilterMeaning

  /** The usual reading: the empty object constrains nothing, the empty `$and` is true and the
      empty `$or` is false. */
  predicate Satisfies(filter: Json, row: Row)
    decreases filter
  {
    filter.Obj? ==> SatisfiesEntries(filter.entries, row)
  }

  predicate SatisfiesEntries(entries: seq<Entry>, row: Row)
    decreases entries
  {
    entries == [] || (SatisfiesEntry(entries[0], row) && SatisfiesEntries(entries[1..], row))
  }

  predicate SatisfiesEntry(entry: Entry, row: Row)
    decreases entry
  {
    if entry.key == "$and" then entry.value.Arr? ==> SatisfiesEvery(entry.value.items, row)
    else if entry.key == "$or" then entry.value.Arr? ==> SatisfiesSome(entry.value.items, row)
    else if entry.key == "$not" then !Satisfies(entry.value, row)
    else MeansField(entry.key, entry.value, row).GetOr(true)
  }

  predicate SatisfiesEvery(filters: seq<Json>, row: Row)
    decreases filters
  {
    filters == [] || (Satisfies(filters[0], row) && SatisfiesEvery(filters[1..], row))
  }

  predicate SatisfiesSome(filters: seq<Json>, row: Row)
    decreases filters
  {
    filters != [] && (Satisfies(filters[0], row) || SatisfiesSome(filters[1..], row))
  }

  // ----- dropping what cannot be seen to be dropped -----

  /** There is a comparison somewhere in the filter; a filter without one is dropped. */
  predicate Compares(filter: Json)
    decreases filter
  {
    filter.Obj? && ComparesEntries(filter.entries)
  }

  predicate ComparesEntries(entries: seq<Entry>)
    decreases entries
  {
    entries != [] && (ComparesEntry(entries[0]) || ComparesEntries(entries[1..]))
  }

  predicate ComparesEntry(entry: Entry)
    decreases entry
  {
    if entry.key == "$and" || entry.key == "$or" then entry.value.Arr? && ComparesList(entry.value.items)
    else if entry.key == "$not" then Compares(entry.value)
    else entry.value != Obj([])
  }

  predicate ComparesList(filters: seq<Json>)
    decreases filters
  {
    filters != [] && (Compares(filters[0]) || ComparesList(filters[1..]))
  }

  const NO_ROW: Row := (field, op, value) => false

  /** Nothing dropped could have made a difference: a filter without a comparison is constantly
      true where it is a conjunct, and constantly false where it is an alternative of an `$or`
      that is kept; and the same inside everything that is kept. */
  predicate Harmless(filter: Json)
    decreases filter, 1
  {
    if Compares(filter) then HarmlessEntries(filter.entries) else Satisfies(filter, NO_ROW)
  }

  predicate HarmlessEntries(entries: seq<Entry>)
    decreases entries
  {
    entries == [] || (HarmlessEntry(entries[0]) && HarmlessEntries(entries[1..]))
  }

  predicate HarmlessEntry(entry: Entry)
    decreases entry
  {
    if !ComparesEntry(entry) then SatisfiesEntry(entry, NO_ROW)
    else if entry.key == "$and" then HarmlessConjuncts(entry.value.items)
    else if entry.key == "$or" then HarmlessAlternatives(entry.value.items)
    else if entry.key == "$not" then Harmless(entry.value)
    else true
  }

  predicate HarmlessConjuncts(filters: seq<Json>)
    decreases filters
  {
    filters == [] || (Harmless(filters[0]) && HarmlessConjuncts(filters[1..]))
  }

  predicate HarmlessAlternatives(filters: seq<Json>)
    decreases filters
  {
    filters == []
    || ((if Compares(filters[0]) then Harmless(filters[0]) else !Satisfies(filters[0], NO_ROW))
        && HarmlessAlternatives(filters[1..]))
  }

  // ----- without a comparison a filter is constant -----

  lemma {:induction false} WithoutComparison(filter: Json, row: Row)
    requires !Compares(filter)
    ensures Means(filter, row) == None && Satisfies(filter, row) == Satisfies(filter, NO_ROW)
    decreases filter
  {
    if filter.Obj? {
      EntriesWithoutComparison(filter.entries, row);
    }
  }

  lemma {:induction false} EntriesWithoutComparison(entries: seq<Entry>, row: Row)
    requires !ComparesEntries(entries)
    ensures MeansEntries(entries, row) == None && SatisfiesEntries(entries, row) == SatisfiesEntries(entries, NO_ROW)
    decreases entries
  {
    if entries != [] {
      EntryWithoutComparison(entries[0], row);
      EntriesWithoutComparison(entries[1..], row);
    }
  }

  lemma {:induction false} EntryWithoutComparison(entry: Entry, row: Row)
    requires !ComparesEntry(entry)
    ensures MeansEntry(entry, row) == None && SatisfiesEntry(entry, row) == SatisfiesEntry(entry, NO_ROW)
    decreases entry
  {
    if entry.key == "$and" || entry.key == "$or" {
      if entry.value.Arr? {
        ListWithoutComparison(entry.value.items, row);
      }
    } else if entry.key == "$not" {
      WithoutComparison(entry.value, row);
    }
  }

  lemma {:induction false} ListWithoutComparison(filters: seq<Json>, row: Row)
    requires !ComparesList(filters)
    ensures MeansEvery(filters, row) == None && SatisfiesEvery(filters, row) == SatisfiesEvery(filters, NO_ROW)
    ensures MeansSome(filters, row) == None && SatisfiesSome(filters, row) == SatisfiesSome(filters, NO_ROW)
    decreases filters
  {
    if filters != [] {
      WithoutComparison(filters[0], row);
      ListWithoutComparison(filters[1..], row);
    }
  }

  // ----- then dropping is harmless -----

  /** A harmless filter means its usual reading; one that is dropped altogether is always true. */
  lemma {:induction false} HarmlessMeansUsual(filter: Json, row: Row)
    requires Harmless(filter)
    ensures Means(filter, row) == if Compares(filter) then Some(Satisfies(filter, row)) else None
    ensures !Compares(filter) ==> Satisfies(filter, row)
    decreases filter, 1
  {
    if Compares(filter) {
      HarmlessEntriesMeanUsual(filter.entries, row);
    } else {
      WithoutComparison(filter, row);
    }
  }

  lemma {:induction false} HarmlessEntriesMeanUsual(entries: seq<Entry>, row: Row)
    requires HarmlessEntries(entries)
    ensures MeansEntries(entries, row)
            == if ComparesEntries(entries) then Some(SatisfiesEntries(entries, row)) else None
    ensures !ComparesEntries(entries) ==> SatisfiesEntries(entries, row)
    decreases entries
  {
    if entries != [] {
      HarmlessEntryMeansUsual(entries[0], row);
      HarmlessEntriesMeanUsual(entries[1..], row);
    }
  }

  lemma {:induction false} HarmlessEntryMeansUsual(entry: Entry, row: Row)
    requires HarmlessEntry(entry)
    ensures MeansEntry(entry, row) == if ComparesEntry(entry) then Some(SatisfiesEntry(entry, row)) else None
    ensures !ComparesEntry(entry) ==> SatisfiesEntry(entry, row)
    decreases entry
  {
    if !ComparesEntry(entry) {
      EntryWithoutComparison(entry, row);
    } else if entry.key == "$and" {
      HarmlessConjunctsMeanUsual(entry.value.items, row);
    } else if entry.key == "$or" {
      HarmlessAlternativesMeanUsual(entry.value.items, row);
    } else if entry.key == "$not" {
      HarmlessMeansUsual(entry.value, row);
    } else if entry.value.Obj? {
      assert MeansOps(entry.key, entry.value.entries, row).Some?;
    }
  }

  lemma {:induction false} HarmlessConjunctsMeanUsual(filters: seq<Json>, row: Row)
    requires HarmlessConjuncts(filters)
    ensures MeansEvery(filters, row) == if ComparesList(filters) then Some(SatisfiesEvery(filters, row)) else None
    ensures !ComparesList(filters) ==> SatisfiesEvery(filters, row)
    decreases filters
  {
    if filters != [] {
      HarmlessMeansUsual(filters[0], row);
      HarmlessConjunctsMeanUsual(filters[1..], row);
    }
  }

  lemma {:induction false} HarmlessAlternativesMeanUsual(filters: seq<Json>, row: Row)
    requires HarmlessAlternatives(filters)
    ensures MeansSome(filters, row) == if ComparesList(filters) then Some(SatisfiesSome(filters, row)) else None
    ensures !ComparesList(filters) ==> !SatisfiesSome(filters, row)
    decreases filters
  {
    if filters != [] {
      if Compares(filters[0]) {
        HarmlessMeansUsual(filters[0], row);
      } else {
        WithoutComparison(filters[0], row);
      }
      HarmlessAlternativesMeanUsual(filters[1..], row);
    }
  }

  /** An accepted filter that is tidy and harmless compiles to nothing, and then every record
      satisfies it, or to a clause that parses and is true of exactly the records that do. */
  lemma CompiledClauseSelectsSatisfying(filter: Json, prefix: string, s: State, env: Params, row: Row)
    requires WellShaped(filter) && Tidy(filter) && Harmless(filter)
    requires var t := CompileFilter(filter, prefix, s).1; Holds(env, prefix, s.counter, t.counter, t.params)
    ensures CompileFilter(filter, prefix, s).0.Ok?
    ensures var ts := CompileFilter(filter, prefix, s).0.value;
            if ts == [] then Satisfies(filter, row)
            else Parse(ts).Some? && EvalDisjunction(Parse(ts).value, env, row) == Satisfies(filter, row)
  {
    FilterAccepted(filter, prefix, s);
    HarmlessMeansUsual(filter, row);
    CompiledClauseMeansFilter(filter, prefix, s, env, row);
  }

  // ----- filters in which nothing is empty -----

  /** No object and no `$and`/`$or` array anywhere in the filter is empty. */
  predicate NothingEmpty(filter: Json)
    decreases filter
  {
    filter.Obj? && filter.entries != [] && NothingEmptyEntries(filter.entries)
  }

  predicate NothingEmptyEntries(entries: seq<Entry>)
    decreases entries
  {
    entries == [] || (NothingEmptyEntry(entries[0]) && NothingEmptyEntries(entries[1..]))
  }

  predicate NothingEmptyEntry(entry: Entry)
    decreases entry
  {
    if entry.key == "$and" || entry.key == "$or" then
      entry.value.Arr? && entry.value.items != [] && NothingEmptyList(entry.value.items)
    else if entry.key == "$not" then NothingEmpty(entry.value)
    else entry.value != Obj([])
  }

  predicate NothingEmptyList(filters: seq<Json>)
    decreases filters
  {
    filters == [] || (NothingEmpty(filters[0]) && NothingEmptyList(filters[1..]))
  }

  /** A filter in which nothing is empty emits a tidy clause and means its usual reading. */
  lemma {:induction false} NothingEmptyMeansUsual(filter: Json, row: Row)
    requires NothingEmpty(filter)
    ensures Emits(filter) && Tidy(filter)
    ensures Means(filter, row) == Some(Satisfies(filter, row))
    decreases filter
  {
    NothingEmptyEntriesMeanUsual(filter.entries, row);
  }

  lemma {:induction false} NothingEmptyEntriesMeanUsual(entries: seq<Entry>, row: Row)
    requires NothingEmptyEntries(entries)
    ensures PushCount(entries) == |entries| && BlankCount(entries) == 0 && TidyEntries(entries)
    ensures MeansEntries(entries, row) == if entries == [] then None else Some(SatisfiesEntries(entries, row))
    decreases entries
  {
    if entries != [] {
      NothingEmptyEntriesMeanUsual(entries[1..], row);
      var entry := entries[0];
      if entry.key == "$and" || entry.key == "$or" {
        NothingEmptyListMeansUsual(entry.value.items, row);
      } else if entry.key == "$not" {
        NothingEmptyMeansUsual(entry.value, row);
      } else if entry.value.Obj? {
        assert MeansOps(entry.key, entry.value.entries, row).Some?;
      }
    }
  }

  lemma {:induction false} NothingEmptyListMeansUsual(filters: seq<Json>, row: Row)
    requires NothingEmptyList(filters)
    ensures TidyList(filters) && (filters != [] ==> EmitsAny(filters))
    ensures MeansEvery(filters, row) == if filters == [] then None else Some(SatisfiesEvery(filters, row))
    ensures MeansSome(filters, row) == if filters == [] then None else Some(SatisfiesSome(filters, row))
    decreases filters
  {
    if filters != [] {
      NothingEmptyMeansUsual(filters[0], row);
      NothingEmptyListMeansUsual(filters[1..], row);
    }
  }

  /** Nothing is dropped from such a filter. */
  lemma {:induction false} NothingEmptyIsHarmless(filter: Json)
    requires NothingEmpty(filter)
    ensures Compares(filter) && Harmless(filter)
    decreases filter
  {
    NothingEmptyEntriesAreHarmless(filter.entries);
  }

  lemma {:induction false} NothingEmptyEntriesAreHarmless(entries: seq<Entry>)
    requires NothingEmptyEntries(entries)
    ensures HarmlessEntries(entries) && (entries != [] ==> ComparesEntries(entries))
    decreases entries
  {
    if entries != [] {
      var entry := entries[0];
      if entry.key == "$and" || entry.key == "$or" {
        NothingEmptyListIsHarmless(entry.value.items);
      } else if entry.key == "$not" {
        NothingEmptyIsHarmless(entry.value);
      }
      NothingEmptyEntriesAreHarmless(entries[1..]);
    }
  }

  lemma {:induction false} NothingEmptyListIsHarmless(filters: seq<Json>)
    requires NothingEmptyList(filters)
    ensures HarmlessConjuncts(filters) && HarmlessAlternatives(filters) && (filters != [] ==> ComparesList(filters))
    decreases filters
  {
    if filters != [] {
      NothingEmptyIsHarmless(filters[0]);
      NothingEmptyListIsHarmless(filters[1..]);
    }
  }

  /** Otherwise the clause and the reading can part: `{"$or": [{}, {"a": null}]}` is true of every
      record in the usual reading, but the compiled clause tests `a`. */
  lemma EmptyAlternativeIsDropped()
    ensures var filter := Obj([Entry("$or", Arr([Obj([]), Obj([Entry("a", Null)])]))]);
            forall row: Row :: Satisfies(filter, row) && Means(filter, row) == Some(row("a", Eq, Null))
  {
    var alternative := Obj([Entry("a", Null)]);
    var filter := Obj([Entry("$or", Arr([Obj([]), alternative]))]);
    forall row: Row
      ensures Satisfies(filter, row) && Means(filter, row) == Some(row("a", Eq, Null))
    {
      assert SatisfiesEntries([], row);
      assert MeansEntries(alternative.entries, row) == Some(row("a", Eq, Null)) by {
        assert alternative.entries[1..] == [];
      }
      assert [Obj([]), alternative][1..] == [alternative];
      assert [alternative][1..] == [];
      assert filter.entries[1..] == [];
      assert MeansSome([Obj([]), alternative], row) == Some(row("a", Eq, Null));
    }
  }
}
