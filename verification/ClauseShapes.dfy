/** Parts of clauses that are printed from conjunctions, and parts that cannot be parsed at all: what becomes of
    them in groups, behind NOT, and joined by AND and OR.  Every part that the compiler of filters pushes is of
    one kind or the other, and so is whatever it makes of them.  A part of the first kind carries its meaning
    with it, and one of the second kind spoils the whole. */
module ClauseShapes {
  import opened Wrappers
  import opened Json
  import opened WhereClause
  import opened FilterCompiler

  // ----- clauses that parse, clauses that cannot -----

  /** What can follow a clause inside a statement. */
  predicate Stops(rest: Clause) {
    rest == [] || rest[0] in {TClose, TAnd, TOr}
  }

  ghost predicate Unparseable(ts: Clause) {
    forall rest: Clause :: Stops(rest) ==> ParseConjunction(ts + rest).None?
  }

  lemma EmptyUnparseable()
    ensures Unparseable([])
  {
    forall rest: Clause | Stops(rest)
      ensures ParseConjunction([] + rest).None?
    {
      assert [] + rest == rest;
    }
  }

  /** Every part is printed from a conjunction, or (marked by an empty one) cannot be parsed. */
  ghost predicate Shaped(parts: seq<Clause>, kept: Disjunction) {
    && |parts| == |kept|
    && forall i :: 0 <= i < |parts| ==>
      if kept[i].units == [] then Unparseable(parts[i])
      else PrintableConjunction(kept[i].units) && parts[i] == PrintConjunction(kept[i].units)
  }

  predicate AllGood(kept: Disjunction) {
    kept == [] || (kept[0].units != [] && AllGood(kept[1..]))
  }

  function Flatten(kept: Disjunction): seq<Unit> {
    if kept == [] then [] else kept[0].units + Flatten(kept[1..])
  }

  function AllHold(kept: Disjunction, env: Params, row: Row): Option<bool> {
    if kept == [] then None
    else Both(Some(EvalConjunction(kept[0].units, env, row)), AllHold(kept[1..], env, row))
  }

  function SomeHolds(kept: Disjunction, env: Params, row: Row): Option<bool> {
    if kept == [] then None
    else Either(Some(EvalConjunction(kept[0].units, env, row)), SomeHolds(kept[1..], env, row))
  }

  lemma {:induction false} AppendKept(a: Disjunction, b: Disjunction, env: Params, row: Row)
    ensures AllGood(a + b) <==> AllGood(a) && AllGood(b)
    ensures AllHold(a + b, env, row) == Both(AllHold(a, env, row), AllHold(b, env, row))
    ensures SomeHolds(a + b, env, row) == Either(SomeHolds(a, env, row), SomeHolds(b, env, row))
  {
    if a == [] {
      assert a + b == b;
    } else {
      AppendKept(a[1..], b, env, row);
      assert (a + b)[1..] == a[1..] + b;
    }
  }

  lemma {:induction false} AndOfGood(parts: seq<Clause>, kept: Disjunction, env: Params, row: Row)
    requires Shaped(parts, kept) && AllGood(kept) && parts != []
    ensures Join(parts, TAnd) == PrintConjunction(Flatten(kept))
    ensures Flatten(kept) != [] && PrintableConjunction(Flatten(kept))
    ensures AllHold(kept, env, row) == Some(EvalConjunction(Flatten(kept), env, row))
  {
    ConjunctionsConcatenate(kept[0].units, Flatten(kept[1..]));
    if |parts| == 1 {
      assert kept[1..] == [];
      assert kept[0].units + [] == kept[0].units;
    } else {
      assert Shaped(parts[1..], kept[1..]);
      AndOfGood(parts[1..], kept[1..], env, row);
    }
  }

  lemma {:induction false} OrOfGood(parts: seq<Clause>, kept: Disjunction, env: Params, row: Row)
    requires Shaped(parts, kept) && AllGood(kept) && parts != []
    ensures Join(parts, TOr) == PrintDisjunction(kept)
    ensures PrintableDisjunction(kept)
    ensures SomeHolds(kept, env, row) == Some(EvalDisjunction(kept, env, row))
  {
    if |parts| == 1 {
      assert kept[1..] == [];
    } else {
      assert Shaped(parts[1..], kept[1..]);
      OrOfGood(parts[1..], kept[1..], env, row);
    }
  }

  lemma {:induction false} AndOfBad(parts: seq<Clause>, kept: Disjunction)
    requires Shaped(parts, kept) && !AllGood(kept)
    ensures Unparseable(Join(parts, TAnd))
  {
    if |parts| > 1 {
      assert Shaped(parts[1..], kept[1..]);
      forall rest: Clause | Stops(rest)
        ensures ParseConjunction(Join(parts, TAnd) + rest).None?
      {
        var more := Join(parts[1..], TAnd) + rest;
        assert Join(parts, TAnd) + rest == parts[0] + [TAnd] + more;
        if kept[0].units == [] {
          assert parts[0] + [TAnd] + more == parts[0] + ([TAnd] + more);
        } else {
          AndOfBad(parts[1..], kept[1..]);
          ParseContinuesAfterAnd(kept[0].units, more);
        }
      }
    }
  }

  lemma {:induction false} OrOfBad(parts: seq<Clause>, kept: Disjunction, rest: Clause)
    requires Shaped(parts, kept) && !AllGood(kept) && Stops(rest)
    ensures ParseDisjunction(Join(parts, TOr) + rest).None?
  {
    if |parts| > 1 {
      assert Shaped(parts[1..], kept[1..]);
      var more := [TOr] + (Join(parts[1..], TOr) + rest);
      assert Join(parts, TOr) + rest == parts[0] + more;
      if kept[0].units != [] {
        ParsePrintedConjunction(kept[0].units, more);
        assert more[1..] == Join(parts[1..], TOr) + rest;
        OrOfBad(parts[1..], kept[1..], rest);
      }
    }
  }

  /** A group of bad clauses, with or without NOT before it, is bad. */
  lemma BadGroup(body: Clause, negated: bool)
    requires forall rest: Clause :: Stops(rest) ==> ParseDisjunction(body + rest).None?
    ensures Unparseable((if negated then [TNot, TOpen] else [TOpen]) + body + [TClose])
  {
    var open := if negated then [TNot, TOpen] else [TOpen];
    forall rest: Clause | Stops(rest)
      ensures ParseConjunction(open + body + [TClose] + rest).None?
    {
      var ts := [TOpen] + (body + ([TClose] + rest));
      assert ts[1..] == body + ([TClose] + rest);
      assert ParseUnit(ts).None?;
      if negated {
        assert open + body + [TClose] + rest == [TNot] + ts;
        assert ([TNot] + ts)[1..] == ts;
      } else {
        assert open + body + [TClose] + rest == ts;
      }
    }
  }

  lemma GoodGroup(kept: Disjunction, negated: bool, env: Params, row: Row) returns (unit: Unit)
    requires kept != [] && PrintableDisjunction(kept)
    ensures Printable(unit)
    ensures PrintConjunction([unit]) == (if negated then [TNot, TOpen] else [TOpen]) + PrintDisjunction(kept) + [TClose]
    ensures EvalConjunction([unit], env, row) == (EvalDisjunction(kept, env, row) != negated)
  {
    var group := Group(kept);
    unit := if negated then Not(group) else group;
    assert EvalUnit(group, env, row) == EvalDisjunction(kept, env, row);
    assert PrintUnit(group) == [TOpen] + PrintDisjunction(kept) + [TClose];
    assert [unit][1..] == [];
    assert EvalConjunction([unit], env, row) == EvalUnit(unit, env, row);
    if negated {
      assert [TNot] + ([TOpen] + PrintDisjunction(kept) + [TClose])
             == [TNot, TOpen] + PrintDisjunction(kept) + [TClose];
    }
  }

  /** A conjunction in parentheses is the disjunction of that one conjunction. */
  lemma UnparseableDisjunction(ts: Clause)
    requires Unparseable(ts)
    ensures forall rest: Clause :: Stops(rest) ==> ParseDisjunction(ts + rest).None?
  {
  }
}
