/** Disambiguation of repeated ids, for flows (domain/code_flows.py) and for endpoints
    (domain/models.py): the two differ only in what they digest. */
module UniqueIds {
  import opened Numerals
  import opened Basics

  /** A record with an id; `rest` is everything else. */
  datatype Item<T> = Item(id: string, rest: T)

  function Ids<T>(items: seq<Item<T>>): set<string> { set i | 0 <= i < |items| :: items[i].id }

  // ----- candidates

  /** The id tried after `k` collisions. */
  function Candidate(base: string, k: nat): string {
    if k == 0 then base else base + "-" + Decimal(k + 1)
  }

  lemma CandidateInjective(base: string, j: nat, k: nat)
    requires Candidate(base, j) == Candidate(base, k)
    ensures j == k
  {
    if j != 0 && k != 0 {
      assert Candidate(base, j)[|base| + 1..] == Decimal(j + 1);
      assert Candidate(base, k)[|base| + 1..] == Decimal(k + 1);
      DecimalInjective(j + 1, k + 1);
    }
  }

  /** The first `n` candidates. */
  ghost function Tried(base: string, n: nat): set<string> { set k: nat | k < n :: Candidate(base, k) }

  lemma TriedNext(base: string, n: nat)
    ensures Tried(base, n + 1) == Tried(base, n) + {Candidate(base, n)} && Candidate(base, n) !in Tried(base, n)
  {
    forall k: nat | k < n ensures Candidate(base, k) != Candidate(base, n) {
      if Candidate(base, k) == Candidate(base, n) { CandidateInjective(base, k, n); }
    }
  }

  lemma {:induction false} TriedSize(base: string, n: nat)
    ensures |Tried(base, n)| == n
  {
    if n != 0 {
      TriedSize(base, n - 1);
      TriedNext(base, n - 1);
    }
  }

  /** Pigeonhole: candidates all in use are no more than the ids in use. */
  lemma TriedFits(base: string, n: nat, used: set<string>)
    requires forall k: nat :: k < n ==> Candidate(base, k) in used
    ensures n <= |used|
  {
    TriedSize(base, n);
    SubsetSize(Tried(base, n), used);
  }

  /** How many collisions there are from the `k`-th candidate on. */
  function Collisions(base: string, used: set<string>, k: nat): (n: nat)
    requires forall j: nat :: j < k ==> Candidate(base, j) in used
    ensures n >= k && Candidate(base, n) !in used
    ensures forall j: nat :: j < n ==> Candidate(base, j) in used
    decreases |used| - k
  {
    if Candidate(base, k) !in used then k else
      TriedFits(base, k + 1, used);
      Collisions(base, used, k + 1)
  }

  // ----- the disambiguation

  /** What the candidates for a repeated id start with. */
  function Base<T>(x: Item<T>, digest: Item<T> -> string): string { x.id + "-" + digest(x) }

  /** The item as it is kept when `used` are taken: its own id, or the first free one. */
  function Kept<T>(x: Item<T>, digest: Item<T> -> string, used: set<string>): Item<T> {
    if x.id !in used then x else x.(id := Candidate(Base(x, digest), Collisions(Base(x, digest), used, 0)))
  }

  function Unique<T>(items: seq<Item<T>>, digest: Item<T> -> string): (r: seq<Item<T>>)
    ensures |r| == |items|
  {
    if items == [] then [] else
      var before := Unique(items[..|items| - 1], digest);
      before + [Kept(items[|items| - 1], digest, Ids(before))]
  }

  lemma IdsAppend<T>(items: seq<Item<T>>, x: Item<T>)
    ensures Ids(items + [x]) == Ids(items) + {x.id}
  {
    var all := items + [x];
    assert all[|items|] == x && forall i :: 0 <= i < |items| ==> all[i] == items[i];
  }

  method FreeId(base: string, used: set<string>) returns (candidate: string)
    ensures candidate == Candidate(base, Collisions(base, used, 0))
  {
    candidate := base;
    var collision: nat := 2;
    while candidate in used
      invariant collision >= 2 && candidate == Candidate(base, collision - 2)
      invariant forall j: nat :: j < collision - 2 ==> Candidate(base, j) in used
      invariant Collisions(base, used, collision - 2) == Collisions(base, used, 0)
      decreases |used| + 2 - collision
    {
      TriedFits(base, collision - 1, used);
      candidate := base + "-" + Decimal(collision);
      collision := collision + 1;
    }
  }

  /** `ensure_unique_code_flow_ids` and `ensure_unique_endpoint_ids`. */
  method EnsureUniqueIds<T>(items: seq<Item<T>>, digest: Item<T> -> string) returns (unique: seq<Item<T>>)
    ensures unique == Unique(items, digest)
  {
    var usedIds: set<string> := {};
    unique := [];
    for i := 0 to |items|
      invariant unique == Unique(items[..i], digest) && usedIds == Ids(unique)
    {
      var x := items[i];
      assert items[..i + 1][..i] == items[..i];
      if x.id !in usedIds {
        IdsAppend(unique, x);
        usedIds := usedIds + {x.id};
        unique := unique + [x];
        continue;
      }
      var candidate := FreeId(x.id + "-" + digest(x), usedIds);
      IdsAppend(unique, x.(id := candidate));
      usedIds := usedIds + {candidate};
      unique := unique + [x.(id := candidate)];
    }
    assert items[..|items|] == items;
  }

  // ----- what it guarantees

  ghost predicate DistinctIds<T>(items: seq<Item<T>>) {
    forall i, j :: 0 <= i < j < |items| ==> items[i].id != items[j].id
  }

  lemma {:induction false} UniquePrefix<T>(items: seq<Item<T>>, digest: Item<T> -> string, i: nat)
    requires i < |items|
    ensures Unique(items, digest)[..i] == Unique(items[..i], digest)
    ensures Unique(items, digest)[i] == Kept(items[i], digest, Ids(Unique(items[..i], digest)))
  {
    var n := |items| - 1;
    if i < n {
      UniquePrefix(items[..n], digest, i);
      assert items[..n][..i] == items[..i];
    }
  }

  /** No two items share an id, and nothing but ids has changed. */
  lemma {:induction false} UniqueIsDistinct<T>(items: seq<Item<T>>, digest: Item<T> -> string)
    ensures DistinctIds(Unique(items, digest))
    ensures forall i :: 0 <= i < |items| ==> Unique(items, digest)[i].rest == items[i].rest
  {
    if items != [] {
      var n := |items| - 1;
      var before := Unique(items[..n], digest);
      UniqueIsDistinct(items[..n], digest);
      assert forall i :: 0 <= i < n ==> before[i].id in Ids(before);
    }
  }

  /** Exactly the items whose id no earlier output carries keep it. */
  lemma KeepsIdIffFree<T>(items: seq<Item<T>>, digest: Item<T> -> string, i: nat)
    requires i < |items|
    ensures var out := Unique(items, digest);
      out[i].id == items[i].id <==> forall j :: 0 <= j < i ==> out[j].id != items[i].id
  {
    var out, before := Unique(items, digest), Unique(items[..i], digest);
    UniquePrefix(items, digest, i);
    assert forall j :: 0 <= j < i ==> out[j] == before[j];
    if items[i].id in Ids(before) {
      ExtendsId(items[i], digest, Ids(before));
      var j :| 0 <= j < i && before[j].id == items[i].id;
      assert out[j] == before[j];
    }
  }

  /** An id that was taken is extended, never shortened or replaced. */
  lemma ExtendsId<T>(x: Item<T>, digest: Item<T> -> string, used: set<string>)
    requires x.id in used
    ensures Base(x, digest) <= Kept(x, digest, used).id
    ensures Kept(x, digest, used).id != x.id
  {
  }

  /** The id itself first, then with the numbers from 2 on. */
  predicate IsNumbered(base: string, n: nat, id: string) { n >= 1 && id == if n == 1 then base else base + "-" + Decimal(n) }

  predicate InUse<T>(out: seq<Item<T>>, i: nat, id: string)
    requires i <= |out|
  {
    exists j | 0 <= j < i :: out[j].id == id
  }

  ghost predicate IsFirstFree<T>(out: seq<Item<T>>, i: nat, base: string, n: nat)
    requires i < |out|
  {
    IsNumbered(base, n, out[i].id) && !InUse(out, i, out[i].id) && forall m: nat, id :: 0 < m < n && IsNumbered(base, m, id) ==> InUse(out, i, id)
  }

  /** An item whose id is in use gets its id with the digest, or that with the first number from 2
      on that no item before it uses. */
  lemma NewIdMeans<T>(items: seq<Item<T>>, digest: Item<T> -> string, i: nat)
    requires i < |items|
    ensures var out := Unique(items, digest);
      if InUse(out, i, items[i].id) then exists n: nat :: IsFirstFree(out, i, items[i].id + "-" + digest(items[i]), n) else out[i].id == items[i].id
  {
    var out, before := Unique(items, digest), Unique(items[..i], digest);
    UniquePrefix(items, digest, i);
    forall id ensures InUse(out, i, id) <==> id in Ids(before) { SameIds(out, before, i, id); }
    if InUse(out, i, items[i].id) {
      var base := Base(items[i], digest);
      var k := Collisions(base, Ids(before), 0);
      forall m: nat, id | 0 < m < k + 1 && IsNumbered(base, m, id) ensures InUse(out, i, id) { assert id == Candidate(base, m - 1); }
      assert IsFirstFree(out, i, base, k + 1);
    }
  }

  lemma SameIds<T>(out: seq<Item<T>>, before: seq<Item<T>>, i: nat, id: string)
    requires i <= |out| && out[..i] == before
    ensures InUse(out, i, id) <==> id in Ids(before)
  {
    forall j | 0 <= j < i ensures out[j] == before[j] { assert out[..i][j] == out[j]; }
  }

  /** Distinct ids are left alone. */
  lemma {:induction false} DistinctUnchanged<T>(items: seq<Item<T>>, digest: Item<T> -> string)
    requires DistinctIds(items)
    ensures Unique(items, digest) == items
  {
    if items != [] {
      var n := |items| - 1;
      DistinctUnchanged(items[..n], digest);
      assert items == items[..n] + [items[n]];
    }
  }

  /** A second pass changes nothing, whatever it digests. */
  lemma Idempotent<T>(items: seq<Item<T>>, digest: Item<T> -> string, digest': Item<T> -> string)
    ensures Unique(Unique(items, digest), digest') == Unique(items, digest)
  {
    UniqueIsDistinct(items, digest);
    DistinctUnchanged(Unique(items, digest), digest');
  }
}
