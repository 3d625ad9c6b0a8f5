/** Python's `sorted`: the ordered list of a set, and the stable sort of a list. */
module Order {

  /** `le` orders the elements of `s` totally, no two of them level. */
  ghost predicate Orders<T(!new)>(le: (T, T) -> bool, s: set<T>) {
    && (forall x, y :: x in s && y in s ==> le(x, y) || le(y, x))
    && (forall x, y :: x in s && y in s && le(x, y) && le(y, x) ==> x == y)
    && (forall x, y, z :: x in s && y in s && z in s && le(x, y) && le(y, z) ==> le(x, z))
  }

  predicate IsLeast<T>(s: set<T>, le: (T, T) -> bool, x: T) {
    x in s && forall y | y in s :: le(x, y)
  }

  lemma LeastExists<T(!new)>(s: set<T>, le: (T, T) -> bool)
    requires s != {} && Orders(le, s)
    ensures exists x :: IsLeast(s, le, x)
  {
    var y :| y in s;
    assert le(y, y);
    if s - {y} == {} {
      assert s == {y};
      assert IsLeast(s, le, y);
    } else {
      LeastExists(s - {y}, le);
      var x :| IsLeast(s - {y}, le, x);
      assert if le(x, y) then IsLeast(s, le, x) else IsLeast(s, le, y);
    }
  }

  function Least<T(!new)>(s: set<T>, le: (T, T) -> bool): (x: T)
    requires s != {} && Orders(le, s)
    ensures x in s && forall y :: y in s ==> le(x, y)
  {
    LeastExists(s, le);
    var x :| x in s && IsLeast(s, le, x);
    x
  }

  /** `sorted(s)` for a set: each element once, in increasing order. */
  function Sorted<T(!new)>(s: set<T>, le: (T, T) -> bool): (r: seq<T>)
    requires Orders(le, s)
    ensures forall x :: x in r <==> x in s
    ensures forall i, j :: 0 <= i < j < |r| ==> r[i] != r[j] && le(r[i], r[j])
  {
    if s == {} then [] else
      var x := Least(s, le);
      [x] + Sorted(s - {x}, le)
  }

  /** `le` compares every two elements, and may hold two of them level. */
  ghost predicate Ranks<T(!new)>(le: (T, T) -> bool) {
    && (forall x, y :: le(x, y) || le(y, x))
    && (forall x, y, z :: le(x, y) && le(y, z) ==> le(x, z))
  }

  ghost predicate Ascending<T>(s: seq<T>, le: (T, T) -> bool) {
    forall i, j :: 0 <= i < j < |s| ==> le(s[i], s[j])
  }

  lemma AscendingAppend<T>(s: seq<T>, x: T, le: (T, T) -> bool)
    requires Ascending(s, le) && forall y :: y in s ==> le(y, x)
    ensures Ascending(s + [x], le)
  {
  }

  lemma LastIsGreatest<T(!new)>(s: seq<T>, le: (T, T) -> bool)
    requires s != [] && Ascending(s, le) && Ranks(le)
    ensures forall y :: y in s ==> le(y, s[|s| - 1])
  {
    assert le(s[|s| - 1], s[|s| - 1]);
  }

  /** Puts `x` after the elements that do not exceed it. */
  function Insert<T(!new)>(s: seq<T>, x: T, le: (T, T) -> bool): (r: seq<T>)
    requires Ranks(le) && Ascending(s, le)
    ensures multiset(r) == multiset(s) + multiset{x} && Ascending(r, le)
    ensures forall y :: y in r <==> y in s || y == x
  {
    if s == [] then [x] else
      var front, last := s[..|s| - 1], s[|s| - 1];
      assert s == front + [last];
      LastIsGreatest(s, le);
      if le(last, x) then AscendingAppend(s, x, le); s + [x]
      else AscendingAppend(Insert(front, x, le), last, le); Insert(front, x, le) + [last]
  }

  /** `sorted(s, key=...)` for a list: level elements keep their order. */
  function SortedList<T(!new)>(s: seq<T>, le: (T, T) -> bool): (r: seq<T>)
    requires Ranks(le)
    ensures multiset(r) == multiset(s) && Ascending(r, le)
    ensures forall y :: y in r <==> y in s
  {
    if s == [] then [] else
      assert s == s[..|s| - 1] + [s[|s| - 1]];
      Insert(SortedList(s[..|s| - 1], le), s[|s| - 1], le)
  }

  lemma SplitsAt<T(!new)>(s: seq<T>, le: (T, T) -> bool, i: nat)
    requires Ascending(s, le) && i < |s| && le(s[i], s[i])
    ensures forall x :: x in s[..i] ==> le(x, s[i])
    ensures forall x :: x in s ==> x in s[..i] || le(s[i], x)
  {
    assert s == s[..i] + s[i..];
    forall x | x in s[i..] ensures le(s[i], x) {
      var j :| 0 <= j < |s[i..]| && s[i..][j] == x;
      assert x == s[i + j];
    }
  }

  lemma TakeNext<T>(s: seq<T>, i: nat)
    requires i < |s|
    ensures s[..i + 1] == s[..i] + [s[i]]
  {
  }
}
