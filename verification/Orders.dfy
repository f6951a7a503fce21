/** Comparing: the three outcomes, strings by their characters from the left, and sort keys. */
module Orders {

  /** A sort key: a field, ascending or descending. */
  datatype Sort = Sort(field: string, asc: bool)

  datatype Ordering = Less | Equal | Greater
  {
    function Reverse(): Ordering {
      match this
      case Less => Greater
      case Equal => Equal
      case Greater => Less
    }
  }

  function CompareStrings(a: string, b: string): Ordering {
    if a == [] && b == [] then Equal
    else if a == [] then Less
    else if b == [] then Greater
    else if a[0] < b[0] then Less
    else if b[0] < a[0] then Greater
    else CompareStrings(a[1..], b[1..])
  }

  lemma {:induction false} StringsCompare(a: string, b: string)
    ensures CompareStrings(a, b) == CompareStrings(b, a).Reverse()
    ensures CompareStrings(a, b) == Equal <==> a == b
  {
    if a != [] && b != [] {
      StringsCompare(a[1..], b[1..]);
      if a[0] == b[0] {
        assert a == [a[0]] + a[1..] && b == [b[0]] + b[1..];
      }
    }
  }

  lemma {:induction false} StringsTransitive(a: string, b: string, c: string)
    requires CompareStrings(a, b) != Greater && CompareStrings(b, c) != Greater
    ensures CompareStrings(a, c) != Greater
  {
    if a != [] && b != [] && c != [] {
      if a[0] == b[0] == c[0] {
        StringsTransitive(a[1..], b[1..], c[1..]);
      }
    }
  }

  /** At the first place where the strings differ, the first has the smaller character, or has ended. */
  ghost predicate ComesBefore(a: string, b: string) {
    exists n: nat :: SmallerAt(a, b, n)
  }

  ghost predicate SmallerAt(a: string, b: string, n: nat) {
    && n <= |a| && n < |b| && a[..n] == b[..n]
    && (n == |a| || a[n] < b[n])
  }

  lemma {:induction false} StringsCompareByFirstDifference(a: string, b: string)
    ensures CompareStrings(a, b) == Less <==> ComesBefore(a, b)
  {
    if a == [] || b == [] {
      assert a == [] && b != [] ==> SmallerAt(a, b, 0);
    } else {
      StringsCompareByFirstDifference(a[1..], b[1..]);
      if a[0] == b[0] && ComesBefore(a[1..], b[1..]) {
        var n: nat :| SmallerAt(a[1..], b[1..], n);
        assert a[..n + 1] == [a[0]] + a[1..][..n] && b[..n + 1] == [b[0]] + b[1..][..n];
        assert SmallerAt(a, b, n + 1);
      }
      if n: nat :| SmallerAt(a, b, n) {
        if n > 0 {
          assert a[0] == a[..n][0] && b[0] == b[..n][0];
          assert a[1..][..n - 1] == a[..n][1..] && b[1..][..n - 1] == b[..n][1..];
          assert SmallerAt(a[1..], b[1..], n - 1);
        }
      }
      if a[0] < b[0] {
        assert SmallerAt(a, b, 0);
      }
    }
  }
}
