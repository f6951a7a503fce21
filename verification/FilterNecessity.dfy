/** For filters whose comparisons are pairwise different, being harmless is also necessary: otherwise
    there is a record on which the compiled meaning and the usual reading part. */
module FilterNecessity {
  import opened Wrappers
  import opened Json
  import opened WhereClause
  import opened FilterCompiler
  import opened FilterMeaning
  import opened FilterReading
  import opened FilterIndependence

  // ----- what is not harmless shows -----

  lemma {:induction false} FilterShows(filter: Json)
    requires Distinct(filter) && Compares(filter) && !Harmless(filter)
    ensures Differ(MFilter(filter), SFilter(filter))
    decreases filter
  {
    EntriesShow(filter.entries);
    var r :| MEntries(filter.entries)(r) != SEntries(filter.entries)(r);
    assert MFilter(filter)(r) != SFilter(filter)(r);
  }

  /** Entries without a comparison are harmless exactly when they read as true. */
  lemma {:induction false} HarmlessWithoutComparison(entries: seq<Entry>)
    requires !ComparesEntries(entries)
    ensures HarmlessEntries(entries) <==> SatisfiesEntries(entries, NO_ROW)
    decreases entries
  {
    if entries != [] {
      HarmlessWithoutComparison(entries[1..]);
    }
  }

  lemma {:induction false} HarmlessListsWithoutComparison(filters: seq<Json>)
    requires !ComparesList(filters)
    ensures HarmlessConjuncts(filters) <==> SatisfiesEvery(filters, NO_ROW)
    ensures HarmlessAlternatives(filters) <==> !SatisfiesSome(filters, NO_ROW)
    decreases filters
  {
    if filters != [] {
      HarmlessListsWithoutComparison(filters[1..]);
    }
  }

  lemma {:induction false} EntriesShow(entries: seq<Entry>)
    requires DistinctEntries(entries) && ComparesEntries(entries) && !HarmlessEntries(entries)
    ensures Differ(MEntries(entries), SEntries(entries))
    decreases entries
  {
    var h, t := entries[0], entries[1..];
    if ComparesEntry(h) {
      EntryIsFree(h);
      if !HarmlessEntry(h) {
        EntryShows(h);
      }
    }
    if ComparesEntries(t) {
      EntriesAreFree(t);
      if !HarmlessEntries(t) {
        EntriesShow(t);
      }
    } else {
      HarmlessWithoutComparison(t);
    }
    EntriesParts(entries);
    ConjunctShows(MEntries(entries), SEntries(entries), MEntry(h), SEntry(h), EntryAtoms(h), ComparesEntry(h),
                  MEntries(t), SEntries(t), EntriesAtoms(t), ComparesEntries(t));
  }

  lemma {:induction false} EntryShows(entry: Entry)
    requires DistinctEntry(entry) && ComparesEntry(entry) && !HarmlessEntry(entry)
    ensures Differ(MEntry(entry), SEntry(entry))
    decreases entry
  {
    if entry.key == "$and" {
      ConjunctsShow(entry.value.items);
      var r :| MEvery(entry.value.items)(r) != SEvery(entry.value.items)(r);
      assert MEntry(entry)(r) != SEntry(entry)(r);
    } else if entry.key == "$or" {
      AlternativesShow(entry.value.items);
      var r :| MSome(entry.value.items)(r) != SSome(entry.value.items)(r);
      assert MEntry(entry)(r) != SEntry(entry)(r);
    } else if entry.key == "$not" {
      FilterShows(entry.value);
      NotIsNegation(entry);
      var r :| MFilter(entry.value)(r) != SFilter(entry.value)(r);
      assert MEntry(entry)(r) != SEntry(entry)(r);
    }
  }

  lemma ConjunctPartsShow(filters: seq<Json>)
    requires DistinctList(filters) && ComparesList(filters)
    requires CanShow(MFilter(filters[0]), SFilter(filters[0]), Compares(filters[0]), true)
             || CanShow(MEvery(filters[1..]), SEvery(filters[1..]), ComparesList(filters[1..]), true)
    ensures Differ(MEvery(filters), SEvery(filters))
  {
    var h, t := filters[0], filters[1..];
    ConjunctParts(filters);
    ListJoined(filters);
    ConjunctShows(MEvery(filters), SEvery(filters), MFilter(h), SFilter(h), Atoms(h), Compares(h),
                  MEvery(t), SEvery(t), ListAtoms(t), ComparesList(t));
  }

  lemma {:induction false} ConjunctsShow(filters: seq<Json>)
    requires DistinctList(filters) && ComparesList(filters) && !HarmlessConjuncts(filters)
    ensures Differ(MEvery(filters), SEvery(filters))
    decreases filters
  {
    var h, t := filters[0], filters[1..];
    if Compares(h) && !Harmless(h) {
      FilterShows(h);
    }
    if ComparesList(t) && !HarmlessConjuncts(t) {
      ConjunctsShow(t);
    } else if !ComparesList(t) {
      HarmlessListsWithoutComparison(t);
    }
    ConjunctPartsShow(filters);
  }

  lemma AlternativePartsShow(filters: seq<Json>)
    requires DistinctList(filters) && ComparesList(filters)
    requires CanShow(MFilter(filters[0]), SFilter(filters[0]), Compares(filters[0]), false)
             || CanShow(MSome(filters[1..]), SSome(filters[1..]), ComparesList(filters[1..]), false)
    ensures Differ(MSome(filters), SSome(filters))
  {
    var h, t := filters[0], filters[1..];
    AlternativeParts(filters);
    ListJoined(filters);
    AlternativeShows(MSome(filters), SSome(filters), MFilter(h), SFilter(h), Atoms(h), Compares(h),
                     MSome(t), SSome(t), ListAtoms(t), ComparesList(t));
  }

  lemma {:induction false} AlternativesShow(filters: seq<Json>)
    requires DistinctList(filters) && ComparesList(filters) && !HarmlessAlternatives(filters)
    ensures Differ(MSome(filters), SSome(filters))
    decreases filters
  {
    var h, t := filters[0], filters[1..];
    if Compares(h) && !Harmless(h) {
      FilterShows(h);
    }
    if ComparesList(t) && !HarmlessAlternatives(t) {
      AlternativesShow(t);
    } else if !ComparesList(t) {
      HarmlessListsWithoutComparison(t);
    }
    AlternativePartsShow(filters);
  }

  /** For filters whose comparisons are pairwise different: the compiled meaning is the usual reading, on
      every record and under every semantics of the comparisons, exactly when the filter is harmless. */
  lemma UsualExactlyIfHarmless(filter: Json)
    requires Distinct(filter)
    ensures (forall row: Row :: Means(filter, row).GetOr(true) == Satisfies(filter, row)) <==> Harmless(filter)
  {
    if Harmless(filter) {
      forall row: Row
        ensures Means(filter, row).GetOr(true) == Satisfies(filter, row)
      {
        HarmlessMeansUsual(filter, row);
      }
    } else if Compares(filter) {
      FilterShows(filter);
      var r :| MFilter(filter)(r) != SFilter(filter)(r);
      MeansIfCompares(filter, r);
      assert Means(filter, r).GetOr(true) != Satisfies(filter, r);
    } else {
      WithoutComparison(filter, NO_ROW);
      assert Means(filter, NO_ROW).GetOr(true) != Satisfies(filter, NO_ROW);
    }
  }
}
