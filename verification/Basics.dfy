/** Small notions shared by several parts of the model. */
module Basics {

  function Min(a: int, b: int): (m: int)
    ensures m <= a && m <= b && (m == a || m == b)
  {
    if a <= b then a else b
  }

  /** A depth or limit below zero behaves as zero. */
  function AtLeastZero(n: int): nat { if n < 0 then 0 else n }

  /** `s[:n]`. */
  function Take<T>(s: seq<T>, n: nat): seq<T> { if |s| <= n then s else s[..n] }

  function Elements<T>(s: seq<T>): set<T> { set x | x in s }

  /** `index.get(key, [])`. */
  function Filed<K, V>(index: map<K, seq<V>>, key: K): seq<V> { if key in index then index[key] else [] }

  predicate Distinct<T(==)>(s: seq<T>) { forall i, j :: 0 <= i < j < |s| ==> s[i] != s[j] }

  lemma {:induction false} SubsetSize<T>(a: set<T>, b: set<T>)
    requires a <= b
    ensures |a| <= |b|
  {
    if a != {} {
      var x :| x in a;
      SubsetSize(a - {x}, b - {x});
    }
  }
}
