/** The target language of the filter compiler: WHERE clauses as token sequences, with the
    precedences the compiler relies on (NOT above AND above OR), a parser and an evaluator. */
module WhereClause {
  import opened Wrappers
  import opened Json

  datatype Comparison = Eq | Ne | Gt | Ge | Lt | Le | In | Contains

  datatype Token =
    | TField(name: string)
    | TCompare(op: Comparison)
    | TParam(name: string)
    | TOpen
    | TClose
    | TAnd
    | TOr
    | TNot

  type Clause = seq<Token>

  // ----- abstract syntax: a disjunction of conjunctions of units -----

  datatype Unit =
    | Atom(field: string, op: Comparison, param: string)
    | Not(body: Unit)
    | Group(alternatives: seq<Conjunction>)

  datatype Conjunction = All(units: seq<Unit>)

  type Disjunction = seq<Conjunction>

  /** How one record answers a comparison of a field with a value.  Leaving it abstract makes
      every theorem hold for every record and every semantics of the comparison operators. */
  type Row = (string, Comparison, Json) -> bool

  type Params = map<string, Json>

  function Lookup(params: Params, name: string): Json {
    if name in params then params[name] else Null
  }

  predicate EvalUnit(u: Unit, params: Params, row: Row)
  {
    match u
    case Atom(field, op, param) => row(field, op, Lookup(params, param))
    case Not(body) => !EvalUnit(body, params, row)
    case Group(alternatives) => EvalDisjunction(alternatives, params, row)
  }

  predicate EvalConjunction(c: seq<Unit>, params: Params, row: Row)
  {
    c == [] || (EvalUnit(c[0], params, row) && EvalConjunction(c[1..], params, row))
  }

  predicate EvalDisjunction(d: Disjunction, params: Params, row: Row)
  {
    d != [] && (EvalConjunction(d[0].units, params, row) || EvalDisjunction(d[1..], params, row))
  }

  // ----- parsing -----

  predicate StartsWith(ts: Clause, t: Token) {
    ts != [] && ts[0] == t
  }

  function ParseUnit(ts: Clause): (r: Option<(Unit, Clause)>)
    ensures r.Some? ==> |r.value.1| < |ts|
    decreases |ts|, 0
  {
    if ts == [] then None
    else match ts[0]
      case TNot =>
        (match ParseUnit(ts[1..])
         case None => None
         case Some((u, rest)) => Some((Not(u), rest)))
      case TOpen =>
        (match ParseDisjunction(ts[1..])
         case None => None
         case Some((d, rest)) => if StartsWith(rest, TClose) then Some((Group(d), rest[1..])) else None)
      case TField(name) =>
        if |ts| >= 3 && ts[1].TCompare? && ts[2].TParam? then
          Some((Atom(name, ts[1].op, ts[2].name), ts[3..]))
        else None
      case _ => None
  }

  function ParseConjunction(ts: Clause): (r: Option<(seq<Unit>, Clause)>)
    ensures r.Some? ==> |r.value.1| < |ts|
    decreases |ts|, 1
  {
    match ParseUnit(ts)
    case None => None
    case Some((u, rest)) =>
      if StartsWith(rest, TAnd) then
        match ParseConjunction(rest[1..])
        case None => None
        case Some((c, rest')) => Some(([u] + c, rest'))
      else
        Some(([u], rest))
  }

  function ParseDisjunction(ts: Clause): (r: Option<(Disjunction, Clause)>)
    ensures r.Some? ==> |r.value.1| < |ts|
    decreases |ts|, 2
  {
    match ParseConjunction(ts)
    case None => None
    case Some((c, rest)) =>
      if StartsWith(rest, TOr) then
        match ParseDisjunction(rest[1..])
        case None => None
        case Some((d, rest')) => Some(([All(c)] + d, rest'))
      else
        Some(([All(c)], rest))
  }

  /** A whole clause parses when nothing is left over. */
  function Parse(ts: Clause): Option<Disjunction> {
    match ParseDisjunction(ts)
    case None => None
    case Some((d, rest)) => if rest == [] then Some(d) else None
  }

  // ----- printing -----

  /** No conjunction and no disjunction inside is empty. */
  predicate Printable(u: Unit)
  {
    match u
    case Atom(_, _, _) => true
    case Not(body) => Printable(body)
    case Group(alternatives) => alternatives != [] && PrintableDisjunction(alternatives)
  }

  predicate PrintableConjunction(c: seq<Unit>)
  {
    c == [] || (Printable(c[0]) && PrintableConjunction(c[1..]))
  }

  predicate PrintableDisjunction(d: Disjunction)
  {
    d == [] || (d[0].units != [] && PrintableConjunction(d[0].units) && PrintableDisjunction(d[1..]))
  }

  function PrintUnit(u: Unit): Clause
  {
    match u
    case Atom(field, op, param) => [TField(field), TCompare(op), TParam(param)]
    case Not(body) => [TNot] + PrintUnit(body)
    case Group(alternatives) => [TOpen] + PrintDisjunction(alternatives) + [TClose]
  }

  function PrintConjunction(c: seq<Unit>): Clause
  {
    if c == [] then []
    else if |c| == 1 then PrintUnit(c[0])
    else PrintUnit(c[0]) + [TAnd] + PrintConjunction(c[1..])
  }

  function PrintDisjunction(d: Disjunction): Clause
  {
    if d == [] then []
    else if |d| == 1 then PrintConjunction(d[0].units)
    else PrintConjunction(d[0].units) + [TOr] + PrintDisjunction(d[1..])
  }

  // ----- printing and parsing are inverse -----

  lemma {:induction false} ParsePrintedUnit(u: Unit, rest: Clause)
    requires Printable(u)
    ensures ParseUnit(PrintUnit(u) + rest) == Some((u, rest))
    decreases u, 0
  {
    var ts := PrintUnit(u) + rest;
    match u
    case Atom(_, _, _) =>
      assert ts[3..] == rest;
    case Not(body) =>
      assert ts[1..] == PrintUnit(body) + rest;
      ParsePrintedUnit(body, rest);
    case Group(alternatives) =>
      assert ts[1..] == PrintDisjunction(alternatives) + ([TClose] + rest);
      ParsePrintedDisjunction(alternatives, [TClose] + rest);
      assert ([TClose] + rest)[1..] == rest;
  }

  /** A printed unit followed by AND parses as that unit and whatever conjunction comes next. */
  lemma ParseUnitAnd(u: Unit, more: Clause)
    requires Printable(u)
    ensures ParseConjunction(PrintUnit(u) + ([TAnd] + more))
            == match ParseConjunction(more)
               case None => None
               case Some((c, rest)) => Some(([u] + c, rest))
  {
    ParsePrintedUnit(u, [TAnd] + more);
    assert ([TAnd] + more)[1..] == more;
  }

  lemma {:induction false} ParsePrintedConjunction(c: seq<Unit>, rest: Clause)
    requires c != [] && PrintableConjunction(c)
    requires !StartsWith(rest, TAnd)
    ensures ParseConjunction(PrintConjunction(c) + rest) == Some((c, rest))
    decreases c, 1
  {
    if |c| == 1 {
      ParsePrintedUnit(c[0], rest);
      assert c == [c[0]];
    } else {
      var more := PrintConjunction(c[1..]) + rest;
      assert PrintConjunction(c) + rest == PrintUnit(c[0]) + ([TAnd] + more);
      ParsePrintedUnit(c[0], [TAnd] + more);
      assert ([TAnd] + more)[1..] == more;
      ParsePrintedConjunction(c[1..], rest);
      assert c == [c[0]] + c[1..];
    }
  }

  lemma {:induction false} ParsePrintedDisjunction(d: Disjunction, rest: Clause)
    requires d != [] && PrintableDisjunction(d)
    requires !StartsWith(rest, TAnd) && !StartsWith(rest, TOr)
    ensures ParseDisjunction(PrintDisjunction(d) + rest) == Some((d, rest))
    decreases d, 2
  {
    if |d| == 1 {
      ParsePrintedConjunction(d[0].units, rest);
      assert d == [d[0]];
    } else {
      var tail := [TOr] + (PrintDisjunction(d[1..]) + rest);
      assert PrintDisjunction(d) + rest == PrintConjunction(d[0].units) + tail;
      ParsePrintedConjunction(d[0].units, tail);
      ParsePrintedDisjunction(d[1..], rest);
      assert tail[1..] == PrintDisjunction(d[1..]) + rest;
      assert d == [d[0]] + d[1..];
    }
  }

  // ----- conjunctions of conjunctions -----

  lemma {:induction false} ConjunctionsConcatenate(a: seq<Unit>, b: seq<Unit>)
    ensures a != [] && b != [] ==> PrintConjunction(a + b) == PrintConjunction(a) + [TAnd] + PrintConjunction(b)
    ensures PrintableConjunction(a) && PrintableConjunction(b) ==> PrintableConjunction(a + b)
    ensures forall params, row :: EvalConjunction(a + b, params, row)
                                  == (EvalConjunction(a, params, row) && EvalConjunction(b, params, row))
  {
    if a == [] {
      assert a + b == b;
    } else {
      ConjunctionsConcatenate(a[1..], b);
      assert (a + b)[1..] == a[1..] + b;
      if |a| == 1 {
        assert a[1..] + b == b;
      }
    }
  }

  /** Parsing a printed conjunction followed by AND continues with what comes after. */
  lemma {:induction false} ParseContinuesAfterAnd(c: seq<Unit>, more: Clause)
    requires c != [] && PrintableConjunction(c)
    ensures ParseConjunction(more).None? ==> ParseConjunction(PrintConjunction(c) + [TAnd] + more).None?
  {
    if |c| == 1 {
      assert PrintConjunction(c) + [TAnd] + more == PrintUnit(c[0]) + ([TAnd] + more);
      ParseUnitAnd(c[0], more);
    } else {
      var next := PrintConjunction(c[1..]) + [TAnd] + more;
      assert PrintConjunction(c) + [TAnd] + more == PrintUnit(c[0]) + ([TAnd] + next);
      ParseUnitAnd(c[0], next);
      ParseContinuesAfterAnd(c[1..], more);
    }
  }
}
