/** Strings as the program uses them: Python's code-point order and the sorted list
    of a set of strings. */
module Text {
  import Order

  /** Code-point lexicographic order, as Python compares two strings. */
  predicate Le(a: string, b: string) {
    |a| == 0 || (|b| != 0 && (a[0] < b[0] || (a[0] == b[0] && Le(a[1..], b[1..]))))
  }

  predicate Less(a: string, b: string) { a != b && Le(a, b) }

  predicate Increasing(s: seq<string>) { forall i, j | 0 <= i < j < |s| :: Less(s[i], s[j]) }

  lemma LeReflexive(a: string)
    ensures Le(a, a)
  {
    if |a| != 0 { LeReflexive(a[1..]); }
  }

  lemma {:induction false} LeAntisymmetric(a: string, b: string)
    requires Le(a, b) && Le(b, a)
    ensures a == b
  {
    if |a| != 0 {
      LeAntisymmetric(a[1..], b[1..]);
      assert a == [a[0]] + a[1..] && b == [b[0]] + b[1..];
    }
  }

  lemma {:induction false} LeTotal(a: string, b: string)
    ensures Le(a, b) || Le(b, a)
  {
    if |a| != 0 && |b| != 0 && a[0] == b[0] { LeTotal(a[1..], b[1..]); }
  }

  lemma {:induction false} LeTransitive(a: string, b: string, c: string)
    requires Le(a, b) && Le(b, c)
    ensures Le(a, c)
  {
    if |a| != 0 && a[0] == b[0] == c[0] { LeTransitive(a[1..], b[1..], c[1..]); }
  }

  lemma LeOrders(s: set<string>)
    ensures Order.Orders(Le, s)
  {
    forall x, y ensures (Le(x, y) || Le(y, x)) && (Le(x, y) && Le(y, x) ==> x == y) {
      LeTotal(x, y);
      if Le(x, y) && Le(y, x) { LeAntisymmetric(x, y); }
    }
    forall x, y, z | Le(x, y) && Le(y, z) ensures Le(x, z) { LeTransitive(x, y, z); }
  }

  /** At place `i` the texts differ for the first time, and `a` has the smaller character. */
  predicate FirstSmaller(a: string, b: string, i: int) {
    0 <= i < |a| && i < |b| && a[..i] == b[..i] && a[i] < b[i]
  }

  /** A text comes before its extensions and before what has a greater character at the first
      difference. */
  lemma {:induction false} LeMeans(a: string, b: string)
    ensures Le(a, b) <==> a <= b || exists i :: FirstSmaller(a, b, i)
  {
    if a != "" && b != "" && a[0] == b[0] {
      LeMeans(a[1..], b[1..]);
      if i :| FirstSmaller(a[1..], b[1..], i) { assert a[..i + 1] == [a[0]] + a[1..][..i] && b[..i + 1] == [b[0]] + b[1..][..i] && FirstSmaller(a, b, i + 1); }
      if i :| FirstSmaller(a, b, i) { assert a[..i][1..] == a[1..][..i - 1] && b[..i][1..] == b[1..][..i - 1] && FirstSmaller(a[1..], b[1..], i - 1); }
      assert a <= b <==> a[1..] <= b[1..] by {
        assert a == [a[0]] + a[1..] && b == [b[0]] + b[1..];
      }
    } else if a != "" && b != "" {
      assert a[0] < b[0] <==> FirstSmaller(a, b, 0);
    }
  }

  /** `sorted(s)` for a set of strings: each element once, in increasing order. */
  function Sorted(s: set<string>): (r: seq<string>)
    ensures forall x :: x in r <==> x in s
    ensures forall i, j :: 0 <= i < j < |r| ==> r[i] != r[j] && Le(r[i], r[j])
  {
    LeOrders(s);
    Order.Sorted(s, Le)
  }

  /** Lists of strings in lexicographic order, as Python compares two tuples. */
  predicate LexLe(a: seq<string>, b: seq<string>) {
    |a| == 0 || (|b| != 0 && if a[0] == b[0] then LexLe(a[1..], b[1..]) else Le(a[0], b[0]))
  }

  lemma {:induction false} LexTotal(a: seq<string>, b: seq<string>)
    ensures LexLe(a, b) || LexLe(b, a)
  {
    if |a| != 0 && |b| != 0 {
      LeTotal(a[0], b[0]);
      if a[0] == b[0] { LexTotal(a[1..], b[1..]); }
    }
  }

  lemma {:induction false} LexTransitive(a: seq<string>, b: seq<string>, c: seq<string>)
    requires LexLe(a, b) && LexLe(b, c)
    ensures LexLe(a, c)
  {
    if |a| != 0 {
      if a[0] == b[0] == c[0] {
        LexTransitive(a[1..], b[1..], c[1..]);
      } else if a[0] != b[0] && b[0] != c[0] {
        LeTransitive(a[0], b[0], c[0]);
        if a[0] == c[0] { LeAntisymmetric(a[0], b[0]); }
      }
    }
  }

  lemma LexOne(x: string, y: string)
    ensures LexLe([x], [y]) <==> Le(x, y)
  {
    LeReflexive(x);
    assert [x][1..] == [] && [y][1..] == [];
  }

  lemma LexCons(x: string, s: seq<string>, y: string, t: seq<string>)
    ensures LexLe([x] + s, [y] + t) <==> if x == y then LexLe(s, t) else Le(x, y)
  {
    assert ([x] + s)[1..] == s && ([y] + t)[1..] == t;
  }

  /** At place `i` the lists differ for the first time, and `a` has the smaller text. */
  predicate FirstBefore(a: seq<string>, b: seq<string>, i: int) {
    0 <= i < |a| && i < |b| && a[..i] == b[..i] && a[i] != b[i] && Le(a[i], b[i])
  }

  lemma {:induction false} LexMeans(a: seq<string>, b: seq<string>)
    ensures LexLe(a, b) <==> a <= b || exists i :: FirstBefore(a, b, i)
  {
    if a != [] && b != [] && a[0] == b[0] {
      LexMeans(a[1..], b[1..]);
      if i :| FirstBefore(a[1..], b[1..], i) { assert a[..i + 1] == [a[0]] + a[1..][..i] && b[..i + 1] == [b[0]] + b[1..][..i] && FirstBefore(a, b, i + 1); }
      if i :| FirstBefore(a, b, i) { assert a[..i][1..] == a[1..][..i - 1] && b[..i][1..] == b[1..][..i - 1] && FirstBefore(a[1..], b[1..], i - 1); }
      assert a <= b <==> a[1..] <= b[1..] by {
        assert a == [a[0]] + a[1..] && b == [b[0]] + b[1..];
      }
    } else if a != [] && b != [] {
      assert Le(a[0], b[0]) <==> FirstBefore(a, b, 0);
    }
  }
}
