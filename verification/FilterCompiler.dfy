/** The compiler from JSON filters to WHERE clauses: the function it computes, threading the
    parameter map and the counter, and the imperative compiler that updates both in place. */
module FilterCompiler {
  import opened Wrappers
  import opened Json
  import opened WhereClause

  datatype FilterError =
    | NotAnObject
    | OperatorExpectsArray(name: string)
    | InOperandNotArray
    | UnsupportedOperator(op: string)
    | InvalidIdentifier(field: string)

  /** What the compiler mutates: the named arguments and the placeholder counter. */
  datatype State = State(params: Params, counter: nat)

  // ----- identifiers and placeholders -----

  predicate IsAsciiAlphanumeric(c: char) {
    'a' <= c <= 'z' || 'A' <= c <= 'Z' || '0' <= c <= '9'
  }

  predicate ValidIdentifier(input: string) {
    input != [] && forall c | c in input :: IsAsciiAlphanumeric(c) || c == '_' || c == '.'
  }

  /** The characters with the Unicode property White_Space, which `trim` removes. */
  predicate IsWhitespace(c: char) {
    || '\U{0009}' <= c <= '\U{000D}' || c == ' ' || c == '\U{0085}' || c == '\U{00A0}'
    || c == '\U{1680}' || '\U{2000}' <= c <= '\U{200A}' || c == '\U{2028}' || c == '\U{2029}'
    || c == '\U{202F}' || c == '\U{205F}' || c == '\U{3000}'
  }

  predicate Blank(s: string) {
    forall c | c in s :: IsWhitespace(c)
  }

  function Sanitized(s: string): (r: string)
    ensures |r| == |s|
  {
    if s == [] then [] else [if IsAsciiAlphanumeric(s[0]) then s[0] else '_'] + Sanitized(s[1..])
  }

  const DEFAULT_PREFIX := "filter"

  function SanitizePrefix(prefix: string): string {
    Sanitized(if Blank(prefix) then DEFAULT_PREFIX else prefix)
  }

  function Digit(n: nat): char
    requires n < 10
  {
    "0123456789"[n]
  }

  function Decimal(n: nat): (s: string)
    ensures s != []
  {
    if n < 10 then [Digit(n)] else Decimal(n / 10) + [Digit(n % 10)]
  }

  function ParamName(prefix: string, n: nat): string {
    prefix + "_" + Decimal(n)
  }

  // ----- the compiled clause as a function -----

  function Bind(prefix: string, operand: Json, s: State): State {
    State(s.params[ParamName(prefix, s.counter) := operand], s.counter + 1)
  }

  function Join(parts: seq<Clause>, separator: Token): Clause {
    if parts == [] then []
    else if |parts| == 1 then parts[0]
    else parts[0] + [separator] + Join(parts[1..], separator)
  }

  function NonEmpty(clauses: seq<Clause>): seq<Clause> {
    if clauses == [] then []
    else (if clauses[0] == [] then [] else [clauses[0]]) + NonEmpty(clauses[1..])
  }

  function ComparisonNamed(op: string): Option<Comparison> {
    if op == "$eq" then Some(Eq)
    else if op == "$ne" then Some(Ne)
    else if op == "$gt" then Some(Gt)
    else if op == "$gte" then Some(Ge)
    else if op == "$lt" then Some(Lt)
    else if op == "$lte" then Some(Le)
    else None
  }

  function Comparing(field: string, op: Comparison, prefix: string, s: State): Clause {
    [TField(field), TCompare(op), TParam(ParamName(prefix, s.counter))]
  }

  /** One operator of a field object: its clause and the operand it binds. */
  function CompileOp(field: string, op: string, operand: Json, prefix: string, s: State):
    (Result<Clause, FilterError>, State)
  {
    if ComparisonNamed(op).Some? then
      (Ok(Comparing(field, ComparisonNamed(op).value, prefix, s)), Bind(prefix, operand, s))
    else if op == "$in" then
      if !operand.Arr? then (Err(InOperandNotArray), s)
      else (Ok(Comparing(field, In, prefix, s)), Bind(prefix, operand, s))
    else if op == "$nin" then
      if !operand.Arr? then (Err(InOperandNotArray), s)
      else (Ok([TNot, TOpen] + Comparing(field, In, prefix, s) + [TClose]), Bind(prefix, operand, s))
    else if op == "$contains" then
      (Ok(Comparing(field, Contains, prefix, s)), Bind(prefix, operand, s))
    else
      (Err(UnsupportedOperator(op)), s)
  }

  function CompileOps(field: string, ops: seq<Entry>, prefix: string, s: State):
    (Result<seq<Clause>, FilterError>, State)
  {
    if ops == [] then (Ok([]), s)
    else
      var (head, s1) := CompileOp(field, ops[0].key, ops[0].value, prefix, s);
      if head.Err? then (Err(head.error), s1)
      else
        var (tail, s2) := CompileOps(field, ops[1..], prefix, s1);
        if tail.Err? then (tail, s2) else (Ok([head.value] + tail.value), s2)
  }

  function CompileField(field: string, value: Json, prefix: string, s: State):
    (Result<Clause, FilterError>, State)
  {
    if !ValidIdentifier(field) then (Err(InvalidIdentifier(field)), s)
    else if value.Obj? then
      if value.entries == [] then (Ok([]), s)
      else
        var (fragments, s1) := CompileOps(field, value.entries, prefix, s);
        if fragments.Err? then (Err(fragments.error), s1) else (Ok(Join(fragments.value, TAnd)), s1)
    else
      (Ok(Comparing(field, Eq, prefix, s)), Bind(prefix, value, s))
  }

  function CompileFilter(filter: Json, prefix: string, s: State): (Result<Clause, FilterError>, State)
    decreases filter
  {
    if !filter.Obj? then (Err(NotAnObject), s)
    else if filter.entries == [] then (Ok([]), s)
    else
      var (parts, s1) := CompileEntries(filter.entries, prefix, s);
      if parts.Err? then (Err(parts.error), s1) else (Ok(Join(parts.value, TAnd)), s1)
  }

  /** The parts pushed for a run of object entries. */
  function CompileEntries(entries: seq<Entry>, prefix: string, s: State): (Result<seq<Clause>, FilterError>, State)
    decreases entries
  {
    if entries == [] then (Ok([]), s)
    else
      var (head, s1) := CompileEntry(entries[0], prefix, s);
      if head.Err? then (head, s1)
      else
        var (tail, s2) := CompileEntries(entries[1..], prefix, s1);
        if tail.Err? then (tail, s2) else (Ok(head.value + tail.value), s2)
  }

  /** The parts pushed for one entry: none for a logical operator without clauses, else one. */
  function CompileEntry(entry: Entry, prefix: string, s: State): (Result<seq<Clause>, FilterError>, State)
    decreases entry
  {
    if entry.key == "$and" || entry.key == "$or" then
      if !entry.value.Arr? then (Err(OperatorExpectsArray(entry.key)), s)
      else
        var (clauses, s1) := CompileList(entry.value.items, prefix, s);
        if clauses.Err? then (clauses, s1)
        else (Ok(Grouped(NonEmpty(clauses.value), if entry.key == "$and" then TAnd else TOr)), s1)
    else if entry.key == "$not" then
      var (clause, s1) := CompileFilter(entry.value, prefix, s);
      if clause.Err? then (Err(clause.error), s1)
      else (Ok(if clause.value == [] then [] else [[TNot, TOpen] + clause.value + [TClose]]), s1)
    else
      var (clause, s1) := CompileField(entry.key, entry.value, prefix, s);
      if clause.Err? then (Err(clause.error), s1) else (Ok([clause.value]), s1)
  }

  function Grouped(clauses: seq<Clause>, separator: Token): seq<Clause> {
    if clauses == [] then [] else [[TOpen] + Join(clauses, separator) + [TClose]]
  }

  function CompileList(filters: seq<Json>, prefix: string, s: State): (Result<seq<Clause>, FilterError>, State)
    decreases filters
  {
    if filters == [] then (Ok([]), s)
    else
      var (head, s1) := CompileFilter(filters[0], prefix, s);
      if head.Err? then (Err(head.error), s1)
      else
        var (tail, s2) := CompileList(filters[1..], prefix, s1);
        if tail.Err? then (tail, s2) else (Ok([head.value] + tail.value), s2)
  }

  /** The entry point: a null filter compiles to the empty clause. */
  function BuildFilterClause(filter: Json, params: Params, prefix: string): (Result<Clause, FilterError>, Params) {
    if filter.Null? then (Ok([]), params)
    else
      var (r, s) := CompileFilter(filter, SanitizePrefix(prefix), State(params, 0));
      (r, s.params)
  }

  // ----- the compiler itself -----

  class Compiler {
    var params: Params
    var counter: nat

    ghost function Current(): State
      reads this
    {
      State(params, counter)
    }

    constructor (params: Params)
      ensures Current() == State(params, 0)
    {
      this.params := params;
      this.counter := 0;
    }

    method NextParam(prefix: string) returns (name: string)
      modifies this
      ensures name == ParamName(prefix, old(counter))
      ensures Current() == State(old(params), old(counter) + 1)
    {
      name := ParamName(prefix, counter);
      counter := counter + 1;
    }

    method BuildCompare(field: string, op: Comparison, operand: Json, prefix: string) returns (clause: Clause)
      modifies this
      ensures clause == Comparing(field, op, prefix, old(Current()))
      ensures Current() == Bind(prefix, operand, old(Current()))
    {
      var param := NextParam(prefix);
      params := params[param := operand];
      clause := [TField(field), TCompare(op), TParam(param)];
    }

    method BuildOp(field: string, op: string, operand: Json, prefix: string)
      returns (r: Result<Clause, FilterError>)
      modifies this
      ensures (r, Current()) == CompileOp(field, op, operand, prefix, old(Current()))
    {
      var clause;
      if op == "$eq" {
        clause := BuildCompare(field, Eq, operand, prefix);
      } else if op == "$ne" {
        clause := BuildCompare(field, Ne, operand, prefix);
      } else if op == "$gt" {
        clause := BuildCompare(field, Gt, operand, prefix);
      } else if op == "$gte" {
        clause := BuildCompare(field, Ge, operand, prefix);
      } else if op == "$lt" {
        clause := BuildCompare(field, Lt, operand, prefix);
      } else if op == "$lte" {
        clause := BuildCompare(field, Le, operand, prefix);
      } else if op == "$in" || op == "$nin" {
        if !operand.Arr? {
          return Err(InOperandNotArray);
        }
        clause := BuildCompare(field, In, operand, prefix);
        if op == "$nin" {
          clause := [TNot, TOpen] + clause + [TClose];
        }
      } else if op == "$contains" {
        clause := BuildCompare(field, Contains, operand, prefix);
      } else {
        return Err(UnsupportedOperator(op));
      }
      r := Ok(clause);
    }

    method BuildFieldClause(field: string, value: Json, prefix: string) returns (r: Result<Clause, FilterError>)
      modifies this
      ensures (r, Current()) == CompileField(field, value, prefix, old(Current()))
    {
      if !ValidIdentifier(field) {
        return Err(InvalidIdentifier(field));
      }
      if value.Obj? {
        if value.entries == [] {
          return Ok([]);
        }
        var ops := value.entries;
        var fragments: seq<Clause> := [];
        ghost var start := Current();
        PrependNothing(CompileOps(field, ops, prefix, start));
        assert ops[0..] == ops;
        for i := 0 to |ops|
          invariant CompileOps(field, ops, prefix, start)
                    == Prepend(fragments, CompileOps(field, ops[i..], prefix, Current()))
        {
          assert ops[i..][1..] == ops[i + 1..];
          var clause := BuildOp(field, ops[i].key, ops[i].value, prefix);
          if clause.Err? {
            return Err(clause.error);
          }
          PrependTwice(fragments, [clause.value], CompileOps(field, ops[i + 1..], prefix, Current()));
          if clause.value != [] {
            fragments := fragments + [clause.value];
          }
        }
        assert fragments + [] == fragments;
        r := Ok(Join(fragments, TAnd));
      } else {
        var clause := BuildCompare(field, Eq, value, prefix);
        r := Ok(clause);
      }
    }

    method BuildList(filters: seq<Json>, prefix: string) returns (r: Result<seq<Clause>, FilterError>)
      modifies this
      ensures (r, Current()) == CompileList(filters, prefix, old(Current()))
      decreases filters, 0
    {
      var clauses: seq<Clause> := [];
      ghost var start := Current();
      PrependNothing(CompileList(filters, prefix, start));
      assert filters[0..] == filters;
      for i := 0 to |filters|
        invariant CompileList(filters, prefix, start)
                  == Prepend(clauses, CompileList(filters[i..], prefix, Current()))
      {
        assert filters[i..][1..] == filters[i + 1..];
        var clause := BuildFilterRecursive(filters[i], prefix);
        if clause.Err? {
          return Err(clause.error);
        }
        PrependTwice(clauses, [clause.value], CompileList(filters[i + 1..], prefix, Current()));
        clauses := clauses + [clause.value];
      }
      assert clauses + [] == clauses;
      r := Ok(clauses);
    }

    method BuildFilterRecursive(filter: Json, prefix: string) returns (r: Result<Clause, FilterError>)
      modifies this
      ensures (r, Current()) == CompileFilter(filter, prefix, old(Current()))
      decreases filter, 1
    {
      if !filter.Obj? {
        return Err(NotAnObject);
      }
      if filter.entries == [] {
        return Ok([]);
      }
      var entries := filter.entries;
      var parts: seq<Clause> := [];
      ghost var start := Current();
      PrependNothing(CompileEntries(entries, prefix, start));
      assert entries[0..] == entries;
      for i := 0 to |entries|
        invariant CompileEntries(entries, prefix, start)
                  == Prepend(parts, CompileEntries(entries[i..], prefix, Current()))
      {
        assert entries[i..][1..] == entries[i + 1..];
        assert entries[i..][0] == entries[i];
        var key, value := entries[i].key, entries[i].value;
        ghost var before := parts;
        ghost var compiled := CompileEntry(entries[i], prefix, Current());
        if key == "$and" || key == "$or" {
          if !value.Arr? {
            return Err(OperatorExpectsArray(key));
          }
          var clauses := BuildList(value.items, prefix);
          if clauses.Err? {
            return Err(clauses.error);
          }
          var kept := NonEmpty(clauses.value);
          if kept != [] {
            parts := parts + [[TOpen] + Join(kept, if key == "$and" then TAnd else TOr) + [TClose]];
          }
        } else if key == "$not" {
          var clause := BuildFilterRecursive(value, prefix);
          if clause.Err? {
            return Err(clause.error);
          }
          if clause.value != [] {
            parts := parts + [[TNot, TOpen] + clause.value + [TClose]];
          }
        } else {
          var clause := BuildFieldClause(key, value, prefix);
          if clause.Err? {
            return Err(clause.error);
          }
          parts := parts + [clause.value];
        }
        assert compiled.0.Ok? && parts == before + compiled.0.value && Current() == compiled.1;
        PrependTwice(before, compiled.0.value, CompileEntries(entries[i + 1..], prefix, Current()));
      }
      assert parts + [] == parts;
      r := Ok(Join(parts, TAnd));
    }
  }

  /** Results of the remaining loop iterations put after the parts already collected. */
  ghost function Prepend(parts: seq<Clause>, rest: (Result<seq<Clause>, FilterError>, State)):
    (Result<seq<Clause>, FilterError>, State)
  {
    if rest.0.Ok? then (Ok(parts + rest.0.value), rest.1) else rest
  }

  lemma PrependNothing(rest: (Result<seq<Clause>, FilterError>, State))
    ensures Prepend([], rest) == rest
  {
    if rest.0.Ok? {
      assert [] + rest.0.value == rest.0.value;
    }
  }

  lemma PrependTwice(a: seq<Clause>, b: seq<Clause>, rest: (Result<seq<Clause>, FilterError>, State))
    ensures Prepend(a, Prepend(b, rest)) == Prepend(a + b, rest)
  {
    if rest.0.Ok? {
      assert a + (b + rest.0.value) == a + b + rest.0.value;
    }
  }

  /** `build_filter_clause` on a parameter map: the same result and the same final map. */
  method BuildFilter(filter: Json, params: Params, prefix: string)
    returns (r: Result<Clause, FilterError>, bound: Params)
    ensures (r, bound) == BuildFilterClause(filter, params, prefix)
  {
    if filter.Null? {
      return Ok([]), params;
    }
    var compiler := new Compiler(params);
    r := compiler.BuildFilterRecursive(filter, SanitizePrefix(prefix));
    bound := compiler.params;
  }
}
