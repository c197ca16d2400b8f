/** Lexicographic order on strings and the sorted listing of a set of names.
    Go's `sort.Strings` compares the UTF-8 bytes of two strings; comparing the
    scalar values character by character gives the same order, so the model
    compares characters. */
module Order {

  /** `a` sorts before `b` or equals it. */
  predicate Le(a: string, b: string)
  {
    |a| == 0 || (|b| > 0 && (a[0] < b[0] || (a[0] == b[0] && Le(a[1..], b[1..]))))
  }

  /** Strictly before. */
  predicate Lt(a: string, b: string) { Le(a, b) && a != b }

  lemma {:induction false} LeReflexive(a: string)
    ensures Le(a, a)
  {
    if |a| > 0 { LeReflexive(a[1..]); }
  }

  lemma {:induction false} LeAntisymmetric(a: string, b: string)
    requires Le(a, b) && Le(b, a)
    ensures a == b
  {
    if |a| > 0 && |b| > 0 && a[0] == b[0] {
      LeAntisymmetric(a[1..], b[1..]);
      assert a == [a[0]] + a[1..];
      assert b == [b[0]] + b[1..];
    }
  }

  lemma {:induction false} LeTotal(a: string, b: string)
    ensures Le(a, b) || Le(b, a)
  {
    if |a| > 0 && |b| > 0 && a[0] == b[0] { LeTotal(a[1..], b[1..]); }
  }

  lemma {:induction false} LeTransitive(a: string, b: string, c: string)
    requires Le(a, b) && Le(b, c)
    ensures Le(a, c)
  {
    if |a| > 0 && |b| > 0 && |c| > 0 && a[0] == b[0] && b[0] == c[0] {
      LeTransitive(a[1..], b[1..], c[1..]);
    }
  }

  predicate IsLeast(m: string, s: set<string>) { m in s && forall y :: y in s ==> Le(m, y) }

  /** Every non-empty finite set of strings has a least element. */
  lemma LeastExists(s: set<string>)
    requires s != {}
    ensures exists m :: IsLeast(m, s)
  {
    var x :| x in s;
    if s == {x} {
      LeReflexive(x);
      assert IsLeast(x, s);
    } else {
      LeastExists(s - {x});
      var m :| IsLeast(m, s - {x});
      LeTotal(x, m);
      if Le(x, m) {
        forall y | y in s ensures Le(x, y) {
          if y != x { LeTransitive(x, m, y); } else { LeReflexive(x); }
        }
        assert IsLeast(x, s);
      } else {
        assert IsLeast(m, s);
      }
    }
  }

  lemma LeastUnique(s: set<string>)
    ensures forall m, n :: IsLeast(m, s) && IsLeast(n, s) ==> m == n
  {
    forall m, n | IsLeast(m, s) && IsLeast(n, s) ensures m == n { LeAntisymmetric(m, n); }
  }

  /** The first name of `s` in sorted order. */
  function Least(s: set<string>): (m: string)
    requires s != {}
    ensures IsLeast(m, s)
  {
    LeastExists(s);
    LeastUnique(s);
    var m :| IsLeast(m, s);
    m
  }

  /** The names of `s` in increasing order, each once: what `sort.Strings` makes of a
      directory listing. */
  function Sorted(s: set<string>): (r: seq<string>)
    ensures |r| == |s|
    ensures forall x :: x in r <==> x in s
    decreases |s|
  {
    if s == {} then [] else var m := Least(s); [m] + Sorted(s - {m})
  }

  /** The listing is strictly increasing, hence without repetitions. */
  lemma {:induction false} SortedIncreasing(s: set<string>)
    ensures forall i, j :: 0 <= i < j < |Sorted(s)| ==> Lt(Sorted(s)[i], Sorted(s)[j])
    decreases |s|
  {
    hide Le;
    if s != {} {
      var m := Least(s);
      var r := Sorted(s);
      var rest := Sorted(s - {m});
      assert r == [m] + rest;
      SortedIncreasing(s - {m});
      forall i, j | 0 <= i < j < |r| ensures Lt(r[i], r[j]) {
        if i == 0 {
          assert r[j] == rest[j - 1];
          assert rest[j - 1] in s - {m};
        } else {
          assert r[i] == rest[i - 1] && r[j] == rest[j - 1];
        }
      }
    }
  }
}
