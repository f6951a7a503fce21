/** The SELECT statement of the database repository: its WHERE clause, its named arguments,
    and the bindings that reach the database. */
module SelectStatement {
  import opened Wrappers
  import opened Json
  import opened Orders
  import opened WhereClause
  import opened FilterCompiler
  import opened ClauseShapes
  import opened FilterMeaning

  datatype SelectError =
    | BadFilter(error: FilterError)
    | BadSortField(field: string)
    | TenantMismatch(found: string)
    | TenantNotAString

  datatype Statement = Statement(where: Clause, order: seq<Sort>, args: Params)

  // ----- assembling the clause -----

  function AppendWhere(target: Clause, clause: Clause): Clause {
    if clause == [] then target
    else target + (if target == [] then [] else [TAnd]) + [TOpen] + clause + [TClose]
  }

  const TENANT_CLAUSE: Clause := [TField("tenant"), TCompare(Eq), TParam("tenant")]

  const CURSOR_CLAUSE: Clause := [TField("id"), TCompare(Gt), TParam("cursor")]

  function TrimStart(s: string): string {
    if s != [] && IsWhitespace(s[0]) then TrimStart(s[1..]) else s
  }

  function TrimEnd(s: string): string {
    if s != [] && IsWhitespace(s[|s| - 1]) then TrimEnd(s[..|s| - 1]) else s
  }

  function Trim(s: string): string {
    TrimEnd(TrimStart(s))
  }

  function SortClause(sorts: seq<Sort>): Result<seq<Sort>, SelectError> {
    if sorts == [] then Ok([])
    else
      var field := Trim(sorts[0].field);
      if !ValidIdentifier(field) then Err(BadSortField(field))
      else
        match SortClause(sorts[1..])
        case Err(e) => Err(e)
        case Ok(more) => Ok([Sort(field, sorts[0].asc)] + more)
  }

  function BindTenant(params: Params, tenant: string): Result<Params, SelectError> {
    if "tenant" in params && !params["tenant"].Str? then Err(TenantNotAString)
    else if "tenant" in params && params["tenant"].s != tenant then Err(TenantMismatch(params["tenant"].s))
    else Ok(params["tenant" := Str(tenant)])
  }

  predicate Internal(name: string) {
    |name| >= 2 && name[0] == '_' && name[1] == '_'
  }

  function FilteredBindings(params: Params): Params {
    map name | name in params && !Internal(name) :: params[name]
  }

  function BaseParams(tenant: string, table: string, limit: nat): Params {
    map["tenant" := Str(tenant), "table" := Str(table), "__kind" := Str("read"), "limit" := Num(limit as real)]
  }

  function WithCursor(target: Clause, cursor: Option<string>): Clause {
    if cursor.Some? then AppendWhere(target, CURSOR_CLAUSE) else target
  }

  function CursorParams(params: Params, cursor: Option<string>): Params {
    if cursor.Some? then params["cursor" := Str(cursor.value)] else params
  }

  /** The statement, from the compiled filter and the parameters it left. */
  function FinishStatement(tenant: string, clause: Result<Clause, FilterError>, params: Params, sorts: seq<Sort>,
                           cursor: Option<string>): Result<Statement, SelectError>
  {
    if clause.Err? then Err(BadFilter(clause.error))
    else
      var order := SortClause(sorts);
      if order.Err? then Err(order.error)
      else
        var args := BindTenant(CursorParams(params, cursor), tenant);
        if args.Err? then Err(args.error)
        else Ok(Statement(WithCursor(AppendWhere(TENANT_CLAUSE, clause.value), cursor), order.value, args.value))
  }

  function SelectStatement(tenant: string, table: string, filter: Json, sorts: seq<Sort>, limit: nat,
                           cursor: Option<string>): Result<Statement, SelectError>
  {
    var (clause, params) := BuildFilterClause(filter, BaseParams(tenant, table, limit), "select");
    FinishStatement(tenant, clause, params, sorts, cursor)
  }

  // ----- the imperative code -----

  method CopyVisible(params: Params) returns (bound: Params)
    ensures bound == FilteredBindings(params)
    ensures forall name :: name in bound <==> name in params && !("__" <= name)
    ensures forall name | name in bound :: bound[name] == params[name]
  {
    bound := map[];
    var todo := params.Keys;
    while todo != {}
      invariant todo <= params.Keys
      invariant bound == map name | name in params && name !in todo && !Internal(name) :: params[name]
      decreases |todo|
    {
      var name :| name in todo;
      todo := todo - {name};
      if !Internal(name) {
        bound := bound[name := params[name]];
      }
    }
  }

  method BuildSort(sorts: seq<Sort>) returns (r: Result<seq<Sort>, SelectError>)
    ensures r == SortClause(sorts)
  {
    var clauses: seq<Sort> := [];
    assert sorts[0..] == sorts;
    assert forall more: seq<Sort> :: [] + more == more;
    for i := 0 to |sorts|
      invariant SortClause(sorts)
                == (match SortClause(sorts[i..]) case Err(e) => Err(e) case Ok(more) => Ok(clauses + more))
    {
      assert sorts[i..][1..] == sorts[i + 1..];
      var field := Trim(sorts[i].field);
      if !ValidIdentifier(field) {
        return Err(BadSortField(field));
      }
      ghost var before := clauses;
      clauses := clauses + [Sort(field, sorts[i].asc)];
      ghost var rest := SortClause(sorts[i + 1..]);
      if rest.Ok? {
        assert before + ([Sort(field, sorts[i].asc)] + rest.value) == clauses + rest.value;
      }
    }
    assert clauses + [] == clauses;
    r := Ok(clauses);
  }

  method Select(tenant: string, table: string, filter: Json, sorts: seq<Sort>, limit: nat, cursor: Option<string>)
    returns (r: Result<Statement, SelectError>)
    ensures r == SelectStatement(tenant, table, filter, sorts, limit, cursor)
  {
    var params := map["tenant" := Str(tenant), "table" := Str(table)];
    params := params["__kind" := Str("read")];
    params := params["limit" := Num(limit as real)];
    assert params == BaseParams(tenant, table, limit);
    var where := TENANT_CLAUSE;
    var clause;
    clause, params := BuildFilter(filter, params, "select");
    if clause.Err? {
      return Err(BadFilter(clause.error));
    }
    if clause.value != [] {
      where := AppendWhere(where, clause.value);
    }
    if cursor.Some? {
      params := params["cursor" := Str(cursor.value)];
      where := AppendWhere(where, CURSOR_CLAUSE);
    }
    var order := BuildSort(sorts);
    if order.Err? {
      return Err(order.error);
    }
    var args := BindTenant(params, tenant);
    if args.Err? {
      return Err(args.error);
    }
    r := Ok(Statement(where, order.value, args.value));
  }

  // ----- what the rows are sorted by -----

  /** `trim` cuts the blank ends off, and no more. */
  lemma {:induction false} TrimCuts(s: string) returns (a: nat, b: nat)
    ensures a <= b <= |s| && Trim(s) == s[a..b] && Blank(s[..a]) && Blank(s[b..])
    ensures a < b ==> !IsWhitespace(s[a]) && !IsWhitespace(s[b - 1])
    decreases |s|
  {
    if s != [] && IsWhitespace(s[0]) {
      a, b := TrimCuts(s[1..]);
      assert s[1..][a..b] == s[a + 1..b + 1] && s[1..][b..] == s[b + 1..] && s[..a + 1] == [s[0]] + s[1..][..a];
      a, b := a + 1, b + 1;
    } else {
      a := 0;
      b := TrimEndCuts(s);
    }
  }

  lemma {:induction false} TrimEndCuts(s: string) returns (b: nat)
    ensures b <= |s| && TrimEnd(s) == s[..b] && Blank(s[b..]) && (b > 0 ==> !IsWhitespace(s[b - 1]))
    decreases |s|
  {
    b := |s|;
    if s != [] && IsWhitespace(s[|s| - 1]) {
      var init := s[..|s| - 1];
      b := TrimEndCuts(init);
      assert s[..b] == init[..b] && s[b..] == init[b..] + [s[|s| - 1]];
      assert b > 0 ==> s[b - 1] == init[b - 1];
    } else {
      assert s[..b] == s;
    }
  }

  /** What a sort key asks for: its field without the blanks around it, and its direction. */
  predicate AsksFor(asked: Sort, given: Sort) {
    asked.field == Trim(given.field) && asked.asc == given.asc && ValidIdentifier(asked.field)
  }

  /** The rows are sorted by the keys given, key by key; or the first field that is no identifier is
      reported. */
  lemma {:induction false} SortsAsAsked(sorts: seq<Sort>)
    ensures match SortClause(sorts)
      case Ok(order) => |order| == |sorts| && forall i | 0 <= i < |sorts| :: AsksFor(order[i], sorts[i])
      case Err(e) =>
        exists i :: 0 <= i < |sorts| && e == BadSortField(Trim(sorts[i].field))
                    && !ValidIdentifier(Trim(sorts[i].field))
                    && forall j | 0 <= j < i :: ValidIdentifier(Trim(sorts[j].field))
  {
    if sorts != [] {
      SortsAsAsked(sorts[1..]);
      if SortClause(sorts).Err? && ValidIdentifier(Trim(sorts[0].field)) {
        var i :| 0 <= i < |sorts[1..]| && SortClause(sorts).error == BadSortField(Trim(sorts[1..][i].field))
              && !ValidIdentifier(Trim(sorts[1..][i].field))
              && forall j | 0 <= j < i :: ValidIdentifier(Trim(sorts[1..][j].field));
        assert sorts[i + 1] == sorts[1..][i];
        assert forall j | 0 < j < i + 1 :: sorts[j] == sorts[1..][j - 1];
      }
    }
  }

  // ----- which placeholders survive the binding filter -----

  /** The first two characters of the caller's prefix would both be sanitized to '_', or the
      prefix is a single such character. */
  predicate LosesBindings(prefix: string) {
    && !Blank(prefix)
    && !IsAsciiAlphanumeric(prefix[0])
    && (|prefix| == 1 || !IsAsciiAlphanumeric(prefix[1]))
  }

  /** Filter values reach the database exactly for the prefixes that do not make the
      placeholders look internal; a lost prefix loses every one of them. */
  lemma PlaceholdersSurviveIff(filter: Json, params: Params, prefix: string, i: nat)
    requires var s := CompileFilter(filter, SanitizePrefix(prefix), State(params, 0)).1; i < s.counter
    ensures var name := ParamName(SanitizePrefix(prefix), i);
            name in FilteredBindings(BuildFilterClause(filter, params, prefix).1) <==> !LosesBindings(prefix)
  {
    var p := SanitizePrefix(prefix);
    var name := ParamName(p, i);
    FilterBindsOnlyFresh(filter, p, State(params, 0));
    var t := CompileFilter(filter, p, State(params, 0)).1;
    assert IsPlaceholder(name, p, 0, t.counter);
    if Blank(prefix) {
      SanitizedAt(DEFAULT_PREFIX, 0);
      assert p == Sanitized(DEFAULT_PREFIX);
      assert name[0] == 'f';
    } else {
      SanitizedAt(prefix, 0);
      if |prefix| > 1 {
        SanitizedAt(prefix, 1);
      }
      assert p == Sanitized(prefix) && |p| == |prefix|;
      assert name[0] == p[0];
      assert name[1] == if |p| == 1 then '_' else p[1];
    }
  }

  // ----- the meaning of the statement -----

  predicate Reserved(name: string) {
    name in {"tenant", "table", "limit", "cursor", "__kind"}
  }

  lemma SelectPrefix()
    ensures SanitizePrefix("select") == "select"
  {
    assert !Blank("select") by {
      assert "select"[0] in "select";
    }
    AlphanumericUnchanged("select");
  }

  /** What is put in front of a placeholder's number: the caller's prefix, or "filter" for a blank one, with
      everything but letters and digits replaced. */
  lemma SanitizedPrefix(prefix: string, i: nat)
    ensures var p := if Blank(prefix) then "filter" else prefix;
            && |SanitizePrefix(prefix)| == |p|
            && (i < |p| ==> SanitizePrefix(prefix)[i] == if IsAsciiAlphanumeric(p[i]) then p[i] else '_')
  {
    var p := if Blank(prefix) then "filter" else prefix;
    if i < |p| {
      SanitizedAt(p, i);
    }
  }

  lemma {:induction false} SanitizedAt(s: string, i: nat)
    requires i < |s|
    ensures Sanitized(s)[i] == if IsAsciiAlphanumeric(s[i]) then s[i] else '_'
  {
    if i > 0 {
      SanitizedAt(s[1..], i - 1);
    }
  }

  /** A field name is accepted exactly if there is nothing in it to sanitize but dots. */
  lemma ValidExactlyIfSanitized(field: string)
    ensures ValidIdentifier(field) <==>
            field != [] && forall i | 0 <= i < |field| :: Sanitized(field)[i] == field[i] || field[i] == '.'
  {
    forall i | 0 <= i < |field|
      ensures Sanitized(field)[i] == if IsAsciiAlphanumeric(field[i]) then field[i] else '_'
    {
      SanitizedAt(field, i);
    }
  }

  lemma {:induction false} AlphanumericUnchanged(s: string)
    requires forall c | c in s :: IsAsciiAlphanumeric(c)
    ensures Sanitized(s) == s
  {
    if s != [] {
      AlphanumericUnchanged(s[1..]);
    }
  }

  lemma SelectPlaceholder(i: nat)
    ensures var name := ParamName("select", i); !Internal(name) && !Reserved(name)
  {
    var name := ParamName("select", i);
    assert |name| >= 8 && name[0] == 's';
  }

  lemma ReservedIsNoPlaceholder(name: string, high: nat)
    requires Reserved(name)
    ensures !IsPlaceholder(name, "select", 0, high)
  {
    forall i: nat
      ensures name != ParamName("select", i)
    {
      SelectPlaceholder(i);
    }
  }

  /** What compiling the filter of a select does to the statement's parameters. */
  lemma SelectFilterParams(filter: Json, base: Params)
    ensures var s := State(base, 0);
            var (r, params) := BuildFilterClause(filter, base, "select");
            && (filter.Null? ==> r == Ok([]) && params == base)
            && (!filter.Null? ==>
                  r == CompileFilter(filter, "select", s).0 && params == CompileFilter(filter, "select", s).1.params)
            && (forall name | Reserved(name) && name in base :: name in params && params[name] == base[name])
  {
    SelectPrefix();
    var t := CompileFilter(filter, "select", State(base, 0)).1;
    FilterBindsOnlyFresh(filter, "select", State(base, 0));
    forall name: string | Reserved(name)
      ensures !IsPlaceholder(name, "select", 0, t.counter)
    {
      ReservedIsNoPlaceholder(name, t.counter);
    }
  }

  /** Setting reserved arguments afterwards, and dropping the internal ones, loses no value the
      filter bound. */
  lemma FilterValuesSurvive(filter: Json, base: Params, args: Params)
    requires var t := CompileFilter(filter, "select", State(base, 0)).1;
             forall name | name in t.params && !Reserved(name) :: name in args && args[name] == t.params[name]
    ensures var t := CompileFilter(filter, "select", State(base, 0)).1;
            Holds(FilteredBindings(args), "select", 0, t.counter, t.params)
  {
    var t := CompileFilter(filter, "select", State(base, 0)).1;
    FilterBindsOnlyFresh(filter, "select", State(base, 0));
    forall i: nat | i < t.counter
      ensures Lookup(FilteredBindings(args), ParamName("select", i)) == Lookup(t.params, ParamName("select", i))
    {
      SelectPlaceholder(i);
      assert IsPlaceholder(ParamName("select", i), "select", 0, t.counter);
    }
  }

  /** The arguments of the statement, from the parameters left by the filter. */
  function FinalArgs(params: Params, tenant: string, cursor: Option<string>): Params {
    CursorParams(params, cursor)["tenant" := Str(tenant)]
  }

  lemma OwnArgumentsSurvive(params: Params, tenant: string, cursor: Option<string>)
    requires "table" in params && "limit" in params
    ensures var bound := FilteredBindings(FinalArgs(params, tenant, cursor));
            && Lookup(bound, "tenant") == Str(tenant)
            && Lookup(bound, "table") == params["table"]
            && Lookup(bound, "limit") == params["limit"]
            && (cursor.Some? ==> Lookup(bound, "cursor") == Str(cursor.value))
            && "__kind" !in bound
    ensures forall name | name in params && !Reserved(name) ::
              name in FinalArgs(params, tenant, cursor) && FinalArgs(params, tenant, cursor)[name] == params[name]
  {
  }

  /** With the tenant argument in place, the tenant guard passes and changes nothing else. */
  lemma FinishedStatement(tenant: string, clause: Result<Clause, FilterError>, params: Params, sorts: seq<Sort>,
                          cursor: Option<string>)
    requires "tenant" in params && params["tenant"] == Str(tenant)
    ensures var r := FinishStatement(tenant, clause, params, sorts, cursor);
            && (r.Ok? <==> clause.Ok? && SortClause(sorts).Ok?)
            && (clause.Err? ==> r == Err(BadFilter(clause.error)))
            && (clause.Ok? && SortClause(sorts).Err? ==> r == Err(SortClause(sorts).error))
            && (r.Ok? ==> r.value.order == SortClause(sorts).value)
            && (r.Ok? ==> r.value.args == FinalArgs(params, tenant, cursor)
                          && r.value.where == WithCursor(AppendWhere(TENANT_CLAUSE, clause.value), cursor))
  {
  }

  lemma BaseHolds(tenant: string, table: string, limit: nat)
    ensures var base := BaseParams(tenant, table, limit);
            && "tenant" in base && base["tenant"] == Str(tenant)
            && "table" in base && base["table"] == Str(table)
            && "limit" in base && base["limit"] == Num(limit as real)
    ensures Reserved("tenant") && Reserved("table") && Reserved("limit")
  {
  }

  /** Compiling never disturbs the tenant argument, so the tenant guard never fires: a statement is
      refused only for the first thing wrong with its filter, or for a sort field. */
  lemma TenantGuardNeverFires(tenant: string, table: string, filter: Json, sorts: seq<Sort>, limit: nat,
                              cursor: Option<string>)
    ensures SelectStatement(tenant, table, filter, sorts, limit, cursor).Ok?
            <==> (filter.Null? || WellShaped(filter)) && SortClause(sorts).Ok?
    ensures var r := SelectStatement(tenant, table, filter, sorts, limit, cursor);
            if !filter.Null? && !WellShaped(filter) then r == Err(BadFilter(Refusal(filter).value))
            else match SortClause(sorts)
              case Err(e) => r == Err(e)
              case Ok(order) => r.Ok? && r.value.order == order
  {
    var base := BaseParams(tenant, table, limit);
    BaseHolds(tenant, table, limit);
    SelectFilterParams(filter, base);
    FilterAccepted(filter, "select", State(base, 0));
    var (clause, params) := BuildFilterClause(filter, base, "select");
    FinishedStatement(tenant, clause, params, sorts, cursor);
  }

  /** The bindings that reach the database: every value the filter bound, the statement's own
      arguments, and not the internal one. */
  lemma BindingsReachDatabase(tenant: string, table: string, filter: Json, sorts: seq<Sort>, limit: nat,
                              cursor: Option<string>)
    requires SelectStatement(tenant, table, filter, sorts, limit, cursor).Ok?
    ensures var bound := FilteredBindings(SelectStatement(tenant, table, filter, sorts, limit, cursor).value.args);
            && (!filter.Null? ==>
                  var t := CompileFilter(filter, "select", State(BaseParams(tenant, table, limit), 0)).1;
                  Holds(bound, "select", 0, t.counter, t.params))
            && Lookup(bound, "tenant") == Str(tenant)
            && Lookup(bound, "table") == Str(table)
            && Lookup(bound, "limit") == Num(limit as real)
            && (cursor.Some? ==> Lookup(bound, "cursor") == Str(cursor.value))
            && "__kind" !in bound
  {
    var base := BaseParams(tenant, table, limit);
    BaseHolds(tenant, table, limit);
    SelectFilterParams(filter, base);
    var (clause, params) := BuildFilterClause(filter, base, "select");
    FinishedStatement(tenant, clause, params, sorts, cursor);
    OwnArgumentsSurvive(params, tenant, cursor);
    if !filter.Null? {
      FilterValuesSurvive(filter, base, FinalArgs(params, tenant, cursor));
    }
  }

  /** The conjunction a list of units prints to, when it is a whole WHERE clause. */
  lemma WhereParses(units: seq<Unit>, where: Clause, env: Params, row: Row)
    requires units != [] && PrintableConjunction(units) && where == PrintConjunction(units)
    ensures Parse(where) == Some([All(units)])
    ensures EvalDisjunction([All(units)], env, row) == EvalConjunction(units, env, row)
  {
    assert where + [] == where;
    assert PrintDisjunction([All(units)]) == where;
    ParsePrintedDisjunction([All(units)], []);
    assert [All(units)][1..] == [];
  }

  lemma UnitThen(head: Unit, tail: seq<Unit>, env: Params, row: Row)
    requires Printable(head) && PrintableConjunction(tail)
    ensures PrintableConjunction([head] + tail)
    ensures PrintConjunction([head] + tail)
            == if tail == [] then PrintUnit(head) else PrintUnit(head) + [TAnd] + PrintConjunction(tail)
    ensures EvalConjunction([head] + tail, env, row) == (EvalUnit(head, env, row) && EvalConjunction(tail, env, row))
  {
    assert ([head] + tail)[1..] == tail;
  }

  /** The optional cursor condition, as the units it prints to. */
  lemma CursorUnits(cursor: Option<string>, env: Params, row: Row) returns (units: seq<Unit>)
    requires cursor.Some? ==> Lookup(env, "cursor") == Str(cursor.value)
    ensures PrintableConjunction(units) && |units| == if cursor.Some? then 1 else 0
    ensures PrintConjunction(units) == if cursor.Some? then [TOpen] + CURSOR_CLAUSE + [TClose] else []
    ensures EvalConjunction(units, env, row) == (cursor.Some? ==> row("id", Gt, Str(cursor.value)))
  {
    units := [];
    if cursor.Some? {
      var atom := Atom("id", Gt, "cursor");
      SingleAtom(atom, env, row);
      var group := GoodGroup([All([atom])], false, env, row);
      units := [group];
    }
  }

  /** The tenant condition followed by more units. */
  lemma TenantAnd(tenant: string, more: seq<Unit>, where: Clause, env: Params, row: Row)
    requires PrintableConjunction(more)
    requires Lookup(env, "tenant") == Str(tenant)
    requires where == if more == [] then TENANT_CLAUSE else TENANT_CLAUSE + [TAnd] + PrintConjunction(more)
    ensures Parse(where).Some?
    ensures EvalDisjunction(Parse(where).value, env, row)
            == (row("tenant", Eq, Str(tenant)) && EvalConjunction(more, env, row))
  {
    var tenantUnit := Atom("tenant", Eq, "tenant");
    UnitThen(tenantUnit, more, env, row);
    WhereParses([tenantUnit] + more, where, env, row);
  }

  lemma AppendedTwice(target: Clause, first: Clause, second: Clause)
    requires target != [] && first != [] && second != []
    ensures AppendWhere(AppendWhere(target, first), second)
            == target + [TAnd] + (([TOpen] + first + [TClose]) + [TAnd] + ([TOpen] + second + [TClose]))
  {
  }

  /** A tenant condition, an optional filter condition and an optional cursor condition. */
  lemma AssembledWhereParses(tenant: string, filterUnits: seq<Unit>, cursor: Option<string>, env: Params, row: Row)
    requires PrintableConjunction(filterUnits)
    requires Lookup(env, "tenant") == Str(tenant)
    requires cursor.Some? ==> Lookup(env, "cursor") == Str(cursor.value)
    ensures var where := WithCursor(AppendWhere(TENANT_CLAUSE, PrintConjunction(filterUnits)), cursor);
            && Parse(where).Some?
            && EvalDisjunction(Parse(where).value, env, row)
               == (row("tenant", Eq, Str(tenant))
                   && EvalConjunction(filterUnits, env, row)
                   && (cursor.Some? ==> row("id", Gt, Str(cursor.value))))
  {
    var last := CursorUnits(cursor, env, row);
    var filterClause := PrintConjunction(filterUnits);
    var where := WithCursor(AppendWhere(TENANT_CLAUSE, filterClause), cursor);
    var more := last;
    if filterUnits != [] {
      more := FilterAndLast(filterUnits, last, env, row);
      PrintedNotEmpty(filterUnits);
      if cursor.Some? {
        AppendedTwice(TENANT_CLAUSE, filterClause, CURSOR_CLAUSE);
      }
    }
    assert where == if more == [] then TENANT_CLAUSE else TENANT_CLAUSE + [TAnd] + PrintConjunction(more);
    TenantAnd(tenant, more, where, env, row);
  }

  /** The filter in parentheses, then the cursor condition if there is one. */
  lemma FilterAndLast(filterUnits: seq<Unit>, last: seq<Unit>, env: Params, row: Row) returns (more: seq<Unit>)
    requires filterUnits != [] && PrintableConjunction(filterUnits) && PrintableConjunction(last)
    ensures more != [] && PrintableConjunction(more)
    ensures var group := [TOpen] + PrintConjunction(filterUnits) + [TClose];
            PrintConjunction(more) == if last == [] then group else group + [TAnd] + PrintConjunction(last)
    ensures EvalConjunction(more, env, row)
            == (EvalConjunction(filterUnits, env, row) && EvalConjunction(last, env, row))
  {
    var body := [All(filterUnits)];
    assert body[1..] == [];
    assert EvalDisjunction(body, env, row) == EvalConjunction(filterUnits, env, row);
    var group := Group(body);
    UnitThen(group, last, env, row);
    more := [group] + last;
  }

  lemma BrokenWhereDoesNotParse(ts: Clause, cursor: Option<string>)
    requires ts != [] && Unparseable(ts)
    ensures Parse(WithCursor(AppendWhere(TENANT_CLAUSE, ts), cursor)).None?
  {
    UnparseableDisjunction(ts);
    BadGroup(ts, false);
    var group := [TOpen] + ts + [TClose];
    var rest := if cursor.Some? then [TAnd] + ([TOpen] + CURSOR_CLAUSE + [TClose]) else [];
    assert WithCursor(AppendWhere(TENANT_CLAUSE, ts), cursor) == TENANT_CLAUSE + [TAnd] + (group + rest);
    BrokenAfterTenant(group + rest);
  }

  lemma BrokenAfterTenant(ts: Clause)
    requires ParseConjunction(ts).None?
    ensures Parse(TENANT_CLAUSE + [TAnd] + ts).None?
  {
    var tenantUnit := Atom("tenant", Eq, "tenant");
    SingleAtom(tenantUnit, map[], (f, c, v) => true);
    ParseContinuesAfterAnd([tenantUnit], ts);
  }

  /** The clause compiled from a filter, put into the WHERE clause. */
  lemma WhereOfFilter(tenant: string, filter: Json, ts: Clause, base: Params, cursor: Option<string>, env: Params,
                      row: Row)
    requires if filter.Null? then ts == []
             else CompileFilter(filter, "select", State(base, 0)).0 == Ok(ts)
    requires !filter.Null? ==> var t := CompileFilter(filter, "select", State(base, 0)).1;
                               Holds(env, "select", 0, t.counter, t.params)
    requires Lookup(env, "tenant") == Str(tenant)
    requires cursor.Some? ==> Lookup(env, "cursor") == Str(cursor.value)
    ensures var where := WithCursor(AppendWhere(TENANT_CLAUSE, ts), cursor);
            && (Parse(where).Some? <==> Tidy(filter))
            && (Tidy(filter) ==>
                  EvalDisjunction(Parse(where).value, env, row)
                  == (row("tenant", Eq, Str(tenant))
                      && Means(filter, row).GetOr(true)
                      && (cursor.Some? ==> row("id", Gt, Str(cursor.value)))))
  {
    var units: seq<Unit> := [];
    if !filter.Null? {
      units := FilterClause(filter, "select", State(base, 0), env, row);
    }
    if ts == [] {
      AssembledWhereParses(tenant, [], cursor, env, row);
    } else if Tidy(filter) {
      AssembledWhereParses(tenant, units, cursor, env, row);
    } else {
      BrokenWhereDoesNotParse(ts, cursor);
    }
  }

  /** The WHERE clause selects, for every record: the tenant's records, that the filter means,
      with an id past the cursor.  It is broken exactly when the filter is not tidy. */
  lemma SelectMeansTenantFilterCursor(tenant: string, table: string, filter: Json, sorts: seq<Sort>, limit: nat,
                                      cursor: Option<string>, row: Row)
    requires SelectStatement(tenant, table, filter, sorts, limit, cursor).Ok?
    ensures var statement := SelectStatement(tenant, table, filter, sorts, limit, cursor).value;
            && (Parse(statement.where).Some? <==> Tidy(filter))
            && (Tidy(filter) ==>
                  EvalDisjunction(Parse(statement.where).value, FilteredBindings(statement.args), row)
                  == (row("tenant", Eq, Str(tenant))
                      && Means(filter, row).GetOr(true)
                      && (cursor.Some? ==> row("id", Gt, Str(cursor.value)))))
  {
    var base := BaseParams(tenant, table, limit);
    BindingsReachDatabase(tenant, table, filter, sorts, limit, cursor);
    BaseHolds(tenant, table, limit);
    SelectFilterParams(filter, base);
    var (clause, params) := BuildFilterClause(filter, base, "select");
    FinishedStatement(tenant, clause, params, sorts, cursor);
    WhereOfFilter(tenant, filter, clause.value, base, cursor, FilteredBindings(FinalArgs(params, tenant, cursor)), row);
  }
}
