/** Code-point order on strings: what Python's `<` on `str` and SQLite's binary
    collation both use for ids and ISO timestamps. */
module Strings {

  predicate Le(a: string, b: string) {
    a == "" || (b != "" && (a[0] < b[0] || (a[0] == b[0] && Le(a[1..], b[1..]))))
  }

  predicate Lt(a: string, b: string) {
    a != b && Le(a, b)
  }

  /** What the order is: a prefix comes first, and otherwise the first difference decides. */
  lemma {:induction false} LeMeaning(a: string, b: string)
    ensures Le(a, b) <==> IsPrefix(a, b) || exists i :: SmallerAt(a, b, i)
  {
    if a != "" && b != "" {
      LeMeaning(a[1..], b[1..]);
      assert a == [a[0]] + a[1..] && b == [b[0]] + b[1..];
      if a[0] == b[0] {
        assert IsPrefix(a, b) <==> IsPrefix(a[1..], b[1..]);
        if i :| SmallerAt(a[1..], b[1..], i) {
          assert SmallerAt(a, b, i + 1);
        }
        if i :| SmallerAt(a, b, i) {
          assert SmallerAt(a[1..], b[1..], i - 1);
        }
      } else {
        assert SmallerAt(a, b, 0) <==> a[0] < b[0];
      }
    }
  }

  predicate IsPrefix(a: string, b: string) {
    |a| <= |b| && forall j :: 0 <= j < |a| ==> a[j] == b[j]
  }

  predicate SmallerAt(a: string, b: string, i: int) {
    0 <= i < |a| && i < |b| && a[i] < b[i] && forall j :: 0 <= j < i ==> a[j] == b[j]
  }

  lemma {:induction false} LeTotal(a: string, b: string)
    ensures Le(a, b) || Le(b, a)
  {
    if a != "" && b != "" {
      LeTotal(a[1..], b[1..]);
    }
  }

  lemma {:induction false} LeAntisymmetric(a: string, b: string)
    requires Le(a, b) && Le(b, a)
    ensures a == b
  {
    if a != "" {
      LeAntisymmetric(a[1..], b[1..]);
      assert a == [a[0]] + a[1..] && b == [b[0]] + b[1..];
    }
  }

  lemma {:induction false} LeTransitive(a: string, b: string, c: string)
    requires Le(a, b) && Le(b, c)
    ensures Le(a, c)
  {
    if a != "" && a[0] == b[0] && b[0] == c[0] {
      LeTransitive(a[1..], b[1..], c[1..]);
    }
  }

  /** A text joined with a separator determines its parts, if the first is free of it. */
  lemma {:induction false} SplitAt(bar: char, a: string, b: string, c: string, d: string)
    requires bar !in a && bar !in c && a + [bar] + b == c + [bar] + d
    ensures a == c && b == d
  {
    var x, y := a + [bar] + b, c + [bar] + d;
    assert x[0] == y[0];
    if a == "" || c == "" {
      assert a == "" && c == "";
      assert ("" + [bar] + b)[1..] == b && ("" + [bar] + d)[1..] == d;
    } else {
      assert x[1..] == a[1..] + [bar] + b && y[1..] == c[1..] + [bar] + d;
      SplitAt(bar, a[1..], b, c[1..], d);
      assert a == [a[0]] + a[1..] && c == [c[0]] + c[1..];
    }
  }

  lemma LtAsymmetric(a: string, b: string)
    ensures !(Lt(a, b) && Lt(b, a))
  {
    if Le(a, b) && Le(b, a) {
      LeAntisymmetric(a, b);
    }
  }
}
