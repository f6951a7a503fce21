/** What a filter means, and the proof that the compiled clause means the same: for every
    filter, every record and every parameter map that still holds the bound values. */
module FilterMeaning {
  import opened Wrappers
  import opened Json
  import opened WhereClause
  import opened FilterCompiler
  import opened ClauseShapes

  // ----- the meaning of a filter -----

  /** Meanings are optional: a filter without any comparison in it is dropped by the
      compiler wherever it stands, and counts as no constraint. */
  function Means(filter: Json, row: Row): Option<bool>
    decreases filter
  {
    if filter.Obj? then MeansEntries(filter.entries, row) else None
  }

  function MeansEntries(entries: seq<Entry>, row: Row): Option<bool>
    decreases entries
  {
    if entries == [] then None else Both(MeansEntry(entries[0], row), MeansEntries(entries[1..], row))
  }

  function MeansEntry(entry: Entry, row: Row): Option<bool>
    decreases entry
  {
    if entry.key == "$and" then
      if entry.value.Arr? then MeansEvery(entry.value.items, row) else None
    else if entry.key == "$or" then
      if entry.value.Arr? then MeansSome(entry.value.items, row) else None
    else if entry.key == "$not" then
      match Means(entry.value, row)
      case None => None
      case Some(b) => Some(!b)
    else
      MeansField(entry.key, entry.value, row)
  }

  function MeansEvery(filters: seq<Json>, row: Row): Option<bool>
    decreases filters
  {
    if filters == [] then None else Both(Means(filters[0], row), MeansEvery(filters[1..], row))
  }

  function MeansSome(filters: seq<Json>, row: Row): Option<bool>
    decreases filters
  {
    if filters == [] then None else Either(Means(filters[0], row), MeansSome(filters[1..], row))
  }

  function MeansField(field: string, value: Json, row: Row): Option<bool> {
    if value.Obj? then MeansOps(field, value.entries, row) else Some(row(field, Eq, value))
  }

  function MeansOps(field: string, ops: seq<Entry>, row: Row): Option<bool> {
    if ops == [] then None
    else Both(Some(MeansOp(field, ops[0].key, ops[0].value, row)), MeansOps(field, ops[1..], row))
  }

  /** What each operator asks of a field. */
  function Asked(op: string): Comparison {
    match op
    case "$eq" => Eq
    case "$ne" => Ne
    case "$gt" => Gt
    case "$gte" => Ge
    case "$lt" => Lt
    case "$lte" => Le
    case "$in" => In
    case "$nin" => In
    case _ => Contains
  }

  predicate MeansOp(field: string, op: string, operand: Json, row: Row) {
    if op == "$nin" then !row(field, Asked(op), operand) else row(field, Asked(op), operand)
  }

  // ----- which filters compile to something, and to something that parses -----

  predicate Logical(key: string) {
    key == "$and" || key == "$or" || key == "$not"
  }

  /** A field compared with an empty object pushes an empty part. */
  predicate IsBlank(entry: Entry) {
    !Logical(entry.key) && entry.value == Obj([])
  }

  /** Some object of the filter, other than a dropped one, gives a clause that is not empty. */
  predicate Emits(filter: Json)
    decreases filter
  {
    filter.Obj? && (PushCount(filter.entries) >= 2
                    || (PushCount(filter.entries) == 1 && BlankCount(filter.entries) == 0))
  }

  predicate EmitsAny(filters: seq<Json>)
    decreases filters
  {
    filters != [] && (Emits(filters[0]) || EmitsAny(filters[1..]))
  }

  /** Whether the entry pushes a part. */
  predicate Pushes(entry: Entry)
    decreases entry
  {
    if entry.key == "$and" || entry.key == "$or" then entry.value.Arr? && EmitsAny(entry.value.items)
    else if entry.key == "$not" then Emits(entry.value)
    else true
  }

  function PushCount(entries: seq<Entry>): nat
    decreases entries
  {
    if entries == [] then 0 else (if Pushes(entries[0]) then 1 else 0) + PushCount(entries[1..])
  }

  function BlankCount(entries: seq<Entry>): nat {
    if entries == [] then 0 else (if IsBlank(entries[0]) then 1 else 0) + BlankCount(entries[1..])
  }

  /** No object of the filter pushes an empty part next to another part. */
  predicate Tidy(filter: Json)
    decreases filter
  {
    filter.Obj? ==>
      TidyEntries(filter.entries) && (BlankCount(filter.entries) == 0 || PushCount(filter.entries) <= 1)
  }

  predicate TidyEntries(entries: seq<Entry>)
    decreases entries
  {
    entries == [] || (TidyEntry(entries[0]) && TidyEntries(entries[1..]))
  }

  predicate TidyEntry(entry: Entry)
    decreases entry
  {
    if entry.key == "$and" || entry.key == "$or" then entry.value.Arr? ==> TidyList(entry.value.items)
    else if entry.key == "$not" then Tidy(entry.value)
    else true
  }

  predicate TidyList(filters: seq<Json>)
    decreases filters
  {
    filters == [] || (Tidy(filters[0]) && TidyList(filters[1..]))
  }

  // ----- placeholders are distinct and stay bound -----

  lemma {:induction false} DecimalInjective(m: nat, n: nat)
    requires Decimal(m) == Decimal(n)
    ensures m == n
  {
    var last := |Decimal(m)| - 1;
    assert Decimal(m)[last] == Digit(m % 10) && Decimal(n)[last] == Digit(n % 10);
    if m >= 10 && n >= 10 {
      assert Decimal(m)[..last] == Decimal(m / 10);
      assert Decimal(n)[..last] == Decimal(n / 10);
      DecimalInjective(m / 10, n / 10);
    }
  }

  lemma ParamNameInjective(prefix: string, m: nat, n: nat)
    requires ParamName(prefix, m) == ParamName(prefix, n)
    ensures m == n
  {
    assert ParamName(prefix, m)[|prefix| + 1..] == Decimal(m);
    assert ParamName(prefix, n)[|prefix| + 1..] == Decimal(n);
    DecimalInjective(m, n);
  }

  ghost predicate IsPlaceholder(name: string, prefix: string, low: nat, high: nat) {
    exists i: nat :: low <= i < high && name == ParamName(prefix, i)
  }

  /** A compilation step binds exactly the next placeholders and leaves every other name alone. */
  ghost predicate BindsOnlyFresh(prefix: string, s: State, t: State) {
    && s.counter <= t.counter
    && (forall name :: name in t.params <==> name in s.params || IsPlaceholder(name, prefix, s.counter, t.counter))
    && (forall name | name in s.params && !IsPlaceholder(name, prefix, s.counter, t.counter) ::
          t.params[name] == s.params[name])
  }

  lemma BindsOnlyFreshTransitive(prefix: string, s: State, t: State, u: State)
    requires BindsOnlyFresh(prefix, s, t) && BindsOnlyFresh(prefix, t, u)
    ensures BindsOnlyFresh(prefix, s, u)
  {
    forall name: string | name in u.params
      ensures name in s.params || IsPlaceholder(name, prefix, s.counter, u.counter)
    {
    }
  }

  lemma BindIsFresh(prefix: string, operand: Json, s: State)
    ensures BindsOnlyFresh(prefix, s, Bind(prefix, operand, s))
  {
    var t := Bind(prefix, operand, s);
    assert IsPlaceholder(ParamName(prefix, s.counter), prefix, s.counter, t.counter);
  }

  lemma {:induction false} OpsBindOnlyFresh(field: string, ops: seq<Entry>, prefix: string, s: State)
    ensures BindsOnlyFresh(prefix, s, CompileOps(field, ops, prefix, s).1)
  {
    if ops != [] {
      var s1 := CompileOp(field, ops[0].key, ops[0].value, prefix, s).1;
      BindIsFresh(prefix, ops[0].value, s);
      assert BindsOnlyFresh(prefix, s, s1);
      OpsBindOnlyFresh(field, ops[1..], prefix, s1);
      BindsOnlyFreshTransitive(prefix, s, s1, CompileOps(field, ops[1..], prefix, s1).1);
    }
  }

  lemma FieldBindsOnlyFresh(field: string, value: Json, prefix: string, s: State)
    ensures BindsOnlyFresh(prefix, s, CompileField(field, value, prefix, s).1)
  {
    BindIsFresh(prefix, value, s);
    if value.Obj? {
      OpsBindOnlyFresh(field, value.entries, prefix, s);
    }
  }

  /** Compiling any filter, whether it succeeds or fails, binds exactly the next placeholders
      and changes no other parameter. */
  lemma {:induction false} FilterBindsOnlyFresh(filter: Json, prefix: string, s: State)
    ensures BindsOnlyFresh(prefix, s, CompileFilter(filter, prefix, s).1)
    decreases filter
  {
    if filter.Obj? {
      EntriesBindOnlyFresh(filter.entries, prefix, s);
    }
  }

  lemma {:induction false} EntriesBindOnlyFresh(entries: seq<Entry>, prefix: string, s: State)
    ensures BindsOnlyFresh(prefix, s, CompileEntries(entries, prefix, s).1)
    decreases entries
  {
    if entries != [] {
      var s1 := CompileEntry(entries[0], prefix, s).1;
      EntryBindsOnlyFresh(entries[0], prefix, s);
      EntriesBindOnlyFresh(entries[1..], prefix, s1);
      BindsOnlyFreshTransitive(prefix, s, s1, CompileEntries(entries[1..], prefix, s1).1);
    }
  }

  lemma {:induction false} EntryBindsOnlyFresh(entry: Entry, prefix: string, s: State)
    ensures BindsOnlyFresh(prefix, s, CompileEntry(entry, prefix, s).1)
    decreases entry
  {
    if entry.key == "$and" || entry.key == "$or" {
      if entry.value.Arr? {
        ListBindsOnlyFresh(entry.value.items, prefix, s);
      }
    } else if entry.key == "$not" {
      FilterBindsOnlyFresh(entry.value, prefix, s);
    } else {
      FieldBindsOnlyFresh(entry.key, entry.value, prefix, s);
    }
  }

  lemma {:induction false} ListBindsOnlyFresh(filters: seq<Json>, prefix: string, s: State)
    ensures BindsOnlyFresh(prefix, s, CompileList(filters, prefix, s).1)
    decreases filters
  {
    if filters != [] {
      var s1 := CompileFilter(filters[0], prefix, s).1;
      FilterBindsOnlyFresh(filters[0], prefix, s);
      ListBindsOnlyFresh(filters[1..], prefix, s1);
      BindsOnlyFreshTransitive(prefix, s, s1, CompileList(filters[1..], prefix, s1).1);
    }
  }

  /** `env` still holds what the placeholders low..high were bound to. */
  ghost predicate Holds(env: Params, prefix: string, low: nat, high: nat, bound: Params) {
    forall i: nat :: low <= i < high ==>
      Lookup(env, ParamName(prefix, i)) == Lookup(bound, ParamName(prefix, i))
  }

  lemma HoldsSplit(env: Params, prefix: string, s: State, t: State, u: State)
    requires BindsOnlyFresh(prefix, s, t) && BindsOnlyFresh(prefix, t, u)
    requires Holds(env, prefix, s.counter, u.counter, u.params)
    ensures Holds(env, prefix, s.counter, t.counter, t.params)
    ensures Holds(env, prefix, t.counter, u.counter, u.params)
  {
    forall i: nat | s.counter <= i < t.counter
      ensures Lookup(u.params, ParamName(prefix, i)) == Lookup(t.params, ParamName(prefix, i))
    {
      if IsPlaceholder(ParamName(prefix, i), prefix, t.counter, u.counter) {
        var j: nat :| t.counter <= j < u.counter && ParamName(prefix, i) == ParamName(prefix, j);
        ParamNameInjective(prefix, i, j);
      }
    }
  }

  // ----- the compiled clause, object by object -----

  lemma SingleAtom(atom: Unit, env: Params, row: Row)
    requires atom.Atom?
    ensures PrintableConjunction([atom])
    ensures PrintConjunction([atom]) == [TField(atom.field), TCompare(atom.op), TParam(atom.param)]
    ensures EvalConjunction([atom], env, row) == row(atom.field, atom.op, Lookup(env, atom.param))
    ensures EvalDisjunction([All([atom])], env, row) == EvalConjunction([atom], env, row)
    ensures PrintDisjunction([All([atom])]) == PrintConjunction([atom])
    ensures PrintableDisjunction([All([atom])])
    ensures AllGood([All([atom])])
    ensures AllHold([All([atom])], env, row) == Some(EvalConjunction([atom], env, row))
  {
    assert [atom][1..] == [];
    assert Printable([atom][0]);
    assert [All([atom])][1..] == [];
  }

  /** A field's operators give one conjunction that says what the operators mean. */
  lemma OpClause(field: string, op: string, operand: Json, prefix: string, s: State, env: Params, row: Row)
    returns (unit: Unit)
    requires CompileOp(field, op, operand, prefix, s).0.Ok? && Lookup(env, ParamName(prefix, s.counter)) == operand
    ensures Printable(unit) && PrintConjunction([unit]) == CompileOp(field, op, operand, prefix, s).0.value
    ensures EvalConjunction([unit], env, row) == MeansOp(field, op, operand, row)
  {
    var atom := Atom(field, Asked(op), ParamName(prefix, s.counter));
    unit := atom;
    SingleAtom(atom, env, row);
    if op == "$nin" {
      unit := GoodGroup([All([atom])], true, env, row);
    }
  }

  lemma {:induction false} OpsClause(field: string, ops: seq<Entry>, prefix: string, s: State, env: Params, row: Row)
    returns (units: seq<Unit>)
    requires CompileOps(field, ops, prefix, s).0.Ok? && ops != []
    requires var t := CompileOps(field, ops, prefix, s).1; Holds(env, prefix, s.counter, t.counter, t.params)
    ensures units != [] && PrintableConjunction(units)
    ensures Join(CompileOps(field, ops, prefix, s).0.value, TAnd) == PrintConjunction(units)
    ensures MeansOps(field, ops, row) == Some(EvalConjunction(units, env, row))
  {
    var (head, s1) := CompileOp(field, ops[0].key, ops[0].value, prefix, s);
    var (tail, t) := CompileOps(field, ops[1..], prefix, s1);
    assert CompileOps(field, ops, prefix, s) == (Ok([head.value] + tail.value), t);
    BindIsFresh(prefix, ops[0].value, s);
    OpsBindOnlyFresh(field, ops[1..], prefix, s1);
    HoldsSplit(env, prefix, s, s1, t);
    assert Lookup(env, ParamName(prefix, s.counter)) == ops[0].value;
    var unit := OpClause(field, ops[0].key, ops[0].value, prefix, s, env, row);
    if |ops| == 1 {
      units := [unit];
    } else {
      var more := OpsClause(field, ops[1..], prefix, s1, env, row);
      ConjunctionsConcatenate([unit], more);
      units := [unit] + more;
      assert tail.value != [];
      assert ([head.value] + tail.value)[1..] == tail.value;
    }
  }

  lemma {:induction false} FieldClause(field: string, value: Json, prefix: string, s: State, env: Params, row: Row)
    returns (kept: Disjunction)
    requires CompileField(field, value, prefix, s).0.Ok? && !Logical(field)
    requires var t := CompileField(field, value, prefix, s).1; Holds(env, prefix, s.counter, t.counter, t.params)
    ensures Shaped([CompileField(field, value, prefix, s).0.value], kept)
    ensures AllGood(kept) <==> !IsBlank(Entry(field, value))
    ensures AllGood(kept) ==> MeansField(field, value, row) == AllHold(kept, env, row)
    ensures IsBlank(Entry(field, value)) <==> CompileField(field, value, prefix, s).0.value == []
    ensures IsBlank(Entry(field, value)) ==> MeansField(field, value, row) == None
  {
    if value.Obj? && value.entries == [] {
      EmptyUnparseable();
      kept := [All([])];
    } else if value.Obj? {
      var units := OpsClause(field, value.entries, prefix, s, env, row);
      kept := [All(units)];
    } else {
      kept := [All([Atom(field, Eq, ParamName(prefix, s.counter))])];
      SingleAtom(kept[0].units[0], env, row);
      assert Lookup(env, ParamName(prefix, s.counter)) == value;
    }
  }

  /** The compiled clause of one object.  It is empty exactly when the object emits nothing.
      Otherwise, when the object is tidy, it is a printed conjunction that means what the
      object means; when it is not, nothing that can follow makes it parse. */
  lemma {:induction false} FilterClause(filter: Json, prefix: string, s: State, env: Params, row: Row)
    returns (units: seq<Unit>)
    requires CompileFilter(filter, prefix, s).0.Ok?
    requires var t := CompileFilter(filter, prefix, s).1; Holds(env, prefix, s.counter, t.counter, t.params)
    ensures CompileFilter(filter, prefix, s).0.value == [] <==> !Emits(filter)
    ensures !Emits(filter) ==> Tidy(filter) && Means(filter, row) == None
    ensures Emits(filter) ==> if Tidy(filter) then
              && units != [] && PrintableConjunction(units)
              && CompileFilter(filter, prefix, s).0.value == PrintConjunction(units)
              && Means(filter, row) == Some(EvalConjunction(units, env, row))
            else units == [] && Unparseable(CompileFilter(filter, prefix, s).0.value)
    decreases filter
  {
    units := [];
    if filter.entries != [] {
      var parts := CompileEntries(filter.entries, prefix, s).0.value;
      var kept := EntriesClause(filter.entries, prefix, s, env, row);
      if AllGood(kept) && parts != [] {
        AndOfGood(parts, kept, env, row);
        units := Flatten(kept);
        PrintedNotEmpty(units);
      } else if parts != [] && parts != [[]] {
        AndOfBad(parts, kept);
        if |parts| == 1 {
          assert BlankCount(filter.entries) == 0;
        }
      }
    }
  }

  lemma PrintedNotEmpty(units: seq<Unit>)
    requires units != []
    ensures PrintConjunction(units) != []
  {
  }

  lemma {:induction false} EntriesClause(entries: seq<Entry>, prefix: string, s: State, env: Params, row: Row)
    returns (kept: Disjunction)
    requires CompileEntries(entries, prefix, s).0.Ok?
    requires var t := CompileEntries(entries, prefix, s).1; Holds(env, prefix, s.counter, t.counter, t.params)
    ensures Shaped(CompileEntries(entries, prefix, s).0.value, kept)
    ensures |kept| == PushCount(entries)
    ensures AllGood(kept) <==> TidyEntries(entries) && BlankCount(entries) == 0
    ensures BlankCount(entries) <= PushCount(entries)
    ensures BlankCount(entries) == PushCount(entries) ==> TidyEntries(entries) && MeansEntries(entries, row) == None
    ensures AllGood(kept) ==> MeansEntries(entries, row) == AllHold(kept, env, row)
    ensures |kept| == 1 ==> (BlankCount(entries) == 1 <==> CompileEntries(entries, prefix, s).0.value == [[]])
    decreases entries
  {
    kept := [];
    if entries != [] {
      var (head, s1) := CompileEntry(entries[0], prefix, s);
      var (tail, t) := CompileEntries(entries[1..], prefix, s1);
      EntryBindsOnlyFresh(entries[0], prefix, s);
      EntriesBindOnlyFresh(entries[1..], prefix, s1);
      HoldsSplit(env, prefix, s, s1, t);
      var first := EntryClause(entries[0], prefix, s, env, row);
      var others := EntriesClause(entries[1..], prefix, s1, env, row);
      kept := first + others;
      AppendKept(first, others, env, row);
    }
  }

  lemma {:induction false} EntryClause(entry: Entry, prefix: string, s: State, env: Params, row: Row)
    returns (kept: Disjunction)
    requires CompileEntry(entry, prefix, s).0.Ok?
    requires var t := CompileEntry(entry, prefix, s).1; Holds(env, prefix, s.counter, t.counter, t.params)
    ensures Shaped(CompileEntry(entry, prefix, s).0.value, kept)
    ensures |kept| == if Pushes(entry) then 1 else 0
    ensures AllGood(kept) <==> TidyEntry(entry) && !IsBlank(entry)
    ensures !Pushes(entry) || IsBlank(entry) ==> TidyEntry(entry) && MeansEntry(entry, row) == None
    ensures AllGood(kept) ==> MeansEntry(entry, row) == AllHold(kept, env, row)
    ensures Pushes(entry) ==> (IsBlank(entry) <==> CompileEntry(entry, prefix, s).0.value == [[]])
    decreases entry
  {
    if entry.key == "$and" || entry.key == "$or" {
      var clauses := ListClauses(entry.value.items, prefix, s, env, row);
      var parts := NonEmpty(CompileList(entry.value.items, prefix, s).0.value);
      if clauses == [] {
        kept := [];
      } else if AllGood(clauses) {
        if entry.key == "$and" {
          AndOfGood(parts, clauses, env, row);
          var unit := GoodGroup([All(Flatten(clauses))], false, env, row);
          kept := [All([unit])];
        } else {
          OrOfGood(parts, clauses, env, row);
          var unit := GoodGroup(clauses, false, env, row);
          kept := [All([unit])];
        }
      } else {
        if entry.key == "$and" {
          AndOfBad(parts, clauses);
          UnparseableDisjunction(Join(parts, TAnd));
          BadGroup(Join(parts, TAnd), false);
        } else {
          forall rest: Clause | Stops(rest) ensures ParseDisjunction(Join(parts, TOr) + rest).None? {
            OrOfBad(parts, clauses, rest);
          }
          BadGroup(Join(parts, TOr), false);
        }
        kept := [All([])];
      }
    } else if entry.key == "$not" {
      var units := FilterClause(entry.value, prefix, s, env, row);
      var clause := CompileFilter(entry.value, prefix, s).0.value;
      if clause == [] {
        kept := [];
      } else if units != [] {
        var unit := GoodGroup([All(units)], true, env, row);
        kept := [All([unit])];
      } else {
        UnparseableDisjunction(clause);
        BadGroup(clause, true);
        kept := [All([])];
      }
    } else {
      kept := FieldClause(entry.key, entry.value, prefix, s, env, row);
    }
  }

  lemma {:induction false} ListClauses(filters: seq<Json>, prefix: string, s: State, env: Params, row: Row)
    returns (kept: Disjunction)
    requires CompileList(filters, prefix, s).0.Ok?
    requires var t := CompileList(filters, prefix, s).1; Holds(env, prefix, s.counter, t.counter, t.params)
    ensures Shaped(NonEmpty(CompileList(filters, prefix, s).0.value), kept)
    ensures kept == [] <==> !EmitsAny(filters)
    ensures AllGood(kept) <==> TidyList(filters)
    ensures kept == [] ==> MeansEvery(filters, row) == None && MeansSome(filters, row) == None
    ensures AllGood(kept) ==> MeansEvery(filters, row) == AllHold(kept, env, row)
    ensures AllGood(kept) ==> MeansSome(filters, row) == SomeHolds(kept, env, row)
    decreases filters
  {
    kept := [];
    if filters != [] {
      var (head, s1) := CompileFilter(filters[0], prefix, s);
      var (tail, t) := CompileList(filters[1..], prefix, s1);
      FilterBindsOnlyFresh(filters[0], prefix, s);
      ListBindsOnlyFresh(filters[1..], prefix, s1);
      HoldsSplit(env, prefix, s, s1, t);
      var units := FilterClause(filters[0], prefix, s, env, row);
      var others := ListClauses(filters[1..], prefix, s1, env, row);
      assert ([head.value] + tail.value)[1..] == tail.value;
      if head.value == [] {
        kept := others;
        assert NonEmpty([head.value] + tail.value) == NonEmpty(tail.value);
      } else {
        kept := [All(units)] + others;
        assert kept[1..] == others;
        assert NonEmpty([head.value] + tail.value) == [head.value] + NonEmpty(tail.value);
      }
    }
  }

  // ----- main theorems -----

  /** Precedence-correctness of the compiler, for every filter it accepts: the clause is empty
      exactly when the filter emits nothing; a clause that is not empty parses exactly when
      the filter is tidy; and then, in every parameter map that still holds the bound values,
      the parsed clause is true of exactly the records the filter means. */
  lemma CompiledClauseMeansFilter(filter: Json, prefix: string, s: State, env: Params, row: Row)
    requires CompileFilter(filter, prefix, s).0.Ok?
    requires var t := CompileFilter(filter, prefix, s).1; Holds(env, prefix, s.counter, t.counter, t.params)
    ensures var ts := CompileFilter(filter, prefix, s).0.value;
            && (ts == [] <==> !Emits(filter))
            && (ts == [] ==> Means(filter, row) == None)
            && (ts != [] ==> (Parse(ts).Some? <==> Tidy(filter)))
            && (ts != [] && Parse(ts).Some? ==>
                  Means(filter, row) == Some(EvalDisjunction(Parse(ts).value, env, row)))
  {
    var ts := CompileFilter(filter, prefix, s).0.value;
    var units := FilterClause(filter, prefix, s, env, row);
    assert ts + [] == ts;
    if ts != [] {
      if Tidy(filter) {
        ParsePrintedDisjunction([All(units)], []);
      } else {
        assert Stops([]);
      }
    }
  }

  /** No OR of a compiled clause stands outside parentheses: what parses is one conjunction. */
  lemma NoBareOr(filter: Json, prefix: string, s: State)
    requires CompileFilter(filter, prefix, s).0.Ok?
    requires var ts := CompileFilter(filter, prefix, s).0.value; Parse(ts).Some?
    ensures |Parse(CompileFilter(filter, prefix, s).0.value).value| == 1
  {
    var (r, t) := CompileFilter(filter, prefix, s);
    var row: Row := (f, c, v) => true;
    var units := FilterClause(filter, prefix, s, t.params, row);
    assert r.value + [] == r.value;
    assert Stops([]);
    if r.value != [] {
      ParsePrintedDisjunction([All(units)], []);
    }
  }

  // ----- which filters are accepted, and why others are not -----

  /** The operators there are. */
  predicate Known(op: string) {
    op in ["$eq", "$ne", "$gt", "$gte", "$lt", "$lte", "$in", "$nin", "$contains"]
  }

  /** The first thing in the filter that the compiler does not take, from left to right. */
  function Refusal(filter: Json): Option<FilterError>
    decreases filter
  {
    if filter.Obj? then RefusalInEntries(filter.entries) else Some(NotAnObject)
  }

  function RefusalInEntries(entries: seq<Entry>): Option<FilterError>
    decreases entries
  {
    if entries == [] then None
    else if RefusalInEntry(entries[0]).Some? then RefusalInEntry(entries[0])
    else RefusalInEntries(entries[1..])
  }

  function RefusalInEntry(entry: Entry): Option<FilterError>
    decreases entry
  {
    if entry.key == "$and" || entry.key == "$or" then
      if entry.value.Arr? then RefusalInList(entry.value.items) else Some(OperatorExpectsArray(entry.key))
    else if entry.key == "$not" then Refusal(entry.value)
    else if !ValidIdentifier(entry.key) then Some(InvalidIdentifier(entry.key))
    else if entry.value.Obj? then RefusalInOps(entry.value.entries)
    else None
  }

  function RefusalInList(filters: seq<Json>): Option<FilterError>
    decreases filters
  {
    if filters == [] then None
    else if Refusal(filters[0]).Some? then Refusal(filters[0])
    else RefusalInList(filters[1..])
  }

  function RefusalInOps(ops: seq<Entry>): Option<FilterError> {
    if ops == [] then None
    else if !Known(ops[0].key) then Some(UnsupportedOperator(ops[0].key))
    else if (ops[0].key == "$in" || ops[0].key == "$nin") && !ops[0].value.Arr? then Some(InOperandNotArray)
    else RefusalInOps(ops[1..])
  }

  /** Every object, array, operator and field name is one the compiler takes. */
  predicate WellShaped(filter: Json) {
    Refusal(filter).None?
  }

  function ErrorIn<T>(r: Result<T, FilterError>): Option<FilterError> {
    if r.Err? then Some(r.error) else None
  }

  lemma {:induction false} OpsAccepted(field: string, ops: seq<Entry>, prefix: string, s: State)
    ensures ErrorIn(CompileOps(field, ops, prefix, s).0) == RefusalInOps(ops)
  {
    if ops != [] {
      OpsAccepted(field, ops[1..], prefix, CompileOp(field, ops[0].key, ops[0].value, prefix, s).1);
    }
  }

  /** Compilation succeeds exactly on the well-shaped filters, and otherwise reports the first thing
      wrong with the filter, whatever the parameters. */
  lemma {:induction false} FilterAccepted(filter: Json, prefix: string, s: State)
    ensures CompileFilter(filter, prefix, s).0.Ok? <==> WellShaped(filter)
    ensures ErrorIn(CompileFilter(filter, prefix, s).0) == Refusal(filter)
    decreases filter
  {
    if filter.Obj? {
      EntriesAccepted(filter.entries, prefix, s);
    }
  }

  lemma {:induction false} EntriesAccepted(entries: seq<Entry>, prefix: string, s: State)
    ensures ErrorIn(CompileEntries(entries, prefix, s).0) == RefusalInEntries(entries)
    decreases entries
  {
    if entries != [] {
      EntryAccepted(entries[0], prefix, s);
      EntriesAccepted(entries[1..], prefix, CompileEntry(entries[0], prefix, s).1);
    }
  }

  lemma {:induction false} EntryAccepted(entry: Entry, prefix: string, s: State)
    ensures ErrorIn(CompileEntry(entry, prefix, s).0) == RefusalInEntry(entry)
    decreases entry
  {
    if entry.key == "$and" || entry.key == "$or" {
      if entry.value.Arr? {
        ListAccepted(entry.value.items, prefix, s);
      }
    } else if entry.key == "$not" {
      FilterAccepted(entry.value, prefix, s);
    } else if entry.value.Obj? {
      OpsAccepted(entry.key, entry.value.entries, prefix, s);
    }
  }

  lemma {:induction false} ListAccepted(filters: seq<Json>, prefix: string, s: State)
    ensures ErrorIn(CompileList(filters, prefix, s).0) == RefusalInList(filters)
    decreases filters
  {
    if filters != [] {
      FilterAccepted(filters[0], prefix, s);
      ListAccepted(filters[1..], prefix, CompileFilter(filters[0], prefix, s).1);
    }
  }
}
