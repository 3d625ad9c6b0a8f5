/** When an id survives disambiguation, in terms of the input alone (domain/code_flows.py and
    domain/models.py promise to preserve unique ids). */
module KeptIds {
  import opened Numerals
  import opened UniqueIds
  import opened Basics

  // ----- one item

  /** An id survives beside ids that differ from it and whose candidates it does not extend. */
  lemma KeptWhenUnlike<T>(items: seq<Item<T>>, digest: Item<T> -> string, i: nat)
    requires i < |items|
    requires forall j :: 0 <= j < i ==> items[j].id != items[i].id && !(Base(items[j], digest) <= items[i].id)
    ensures Unique(items, digest)[i].id == items[i].id
  {
    var out := Unique(items, digest);
    forall j | 0 <= j < i ensures out[j].id != items[i].id {
      UniquePrefix(items, digest, j);
      if items[j].id in Ids(Unique(items[..j], digest)) { ExtendsId(items[j], digest, Ids(Unique(items[..j], digest))); }
    }
    KeepsIdIffFree(items, digest, i);
  }

  /** An id does not survive an earlier repetition whose first candidate it is. */
  lemma LostWhenRepeated<T>(items: seq<Item<T>>, digest: Item<T> -> string, k: nat, j: nat, i: nat)
    requires k < j < i < |items| && items[k].id == items[j].id && items[i].id == Base(items[j], digest)
    ensures Unique(items, digest)[i].id != items[i].id
  {
    var out := Unique(items, digest);
    var k' := IdStays(items, digest, k, j);
    var j' := FirstCandidateUsed(items, digest, k', j);
    KeepsIdIffFree(items, digest, i);
  }

  /** An id of the input is an id of the output from then on. */
  lemma IdStays<T>(items: seq<Item<T>>, digest: Item<T> -> string, k: nat, n: nat) returns (j: nat)
    requires k < n <= |items|
    ensures j <= k && Unique(items, digest)[j].id == items[k].id
  {
    KeepsIdIffFree(items, digest, k);
    j := k;
    if Unique(items, digest)[k].id != items[k].id {
      j :| 0 <= j < k && Unique(items, digest)[j].id == items[k].id;
    }
  }

  lemma FirstCandidateUsed<T>(items: seq<Item<T>>, digest: Item<T> -> string, k: nat, j: nat) returns (j': nat)
    requires k < j < |items| && Unique(items, digest)[k].id == items[j].id
    ensures j' <= j && Unique(items, digest)[j'].id == Base(items[j], digest)
  {
    var out, before := Unique(items, digest), Unique(items[..j], digest);
    UniquePrefix(items, digest, j);
    assert before[k] == out[k];
    assert items[j].id in Ids(before);
    j' := j;
    if Collisions(Base(items[j], digest), Ids(before), 0) != 0 {
      assert Candidate(Base(items[j], digest), 0) in Ids(before);
      j' :| 0 <= j' < j && before[j'].id == Base(items[j], digest);
      assert out[j'] == before[j'];
    }
  }

  /** The item at `i` has an id of its own, which it loses. */
  ghost predicate LosesOwnId<T>(items: seq<Item<T>>, digest: Item<T> -> string, i: nat) {
    i < |items| && OccursOnce(items, i) && Unique(items, digest)[i].id != items[i].id
  }

  /** An id that occurs once in the input may change, whatever the items are and whatever is
      digested: the id invented for a repetition can take it. */
  lemma SingleIdMayChange<T>(id: string, first: T, second: T, third: T, digest: Item<T> -> string) returns (items: seq<Item<T>>)
    ensures LosesOwnId(items, digest, 2)
  {
    items := [Item(id, first), Item(id, second), Item(Base(Item(id, second), digest), third)];
    LostWhenRepeated(items, digest, 0, 1, 2);
    assert |items[2].id| > |id|;
  }

  // ----- the candidates of one base against the ids of the input

  /** How many of the first `k` candidates are not ids of the input. */
  function FreeBelow(ids: set<string>, base: string, k: nat): nat {
    if k == 0 then 0 else FreeBelow(ids, base, k - 1) + (if Candidate(base, k - 1) in ids then 0 else 1)
  }

  /** The `k`-th candidate is among the first `d` that are not ids of the input. */
  predicate Reached(ids: set<string>, base: string, d: nat, k: nat) {
    Candidate(base, k) !in ids && FreeBelow(ids, base, k) < d
  }

  lemma {:induction false} FreeBelowGrows(ids: set<string>, base: string, j: nat, k: nat)
    requires j < k
    ensures FreeBelow(ids, base, j) + (if Candidate(base, j) in ids then 0 else 1) <= FreeBelow(ids, base, k)
    decreases k
  {
    if j < k - 1 { FreeBelowGrows(ids, base, j, k - 1); }
  }

  /** A new id that is none of the first `k` candidates. */
  lemma {:induction false} FreeBelowSame(ids: set<string>, x: string, base: string, k: nat)
    requires forall j: nat :: j < k ==> Candidate(base, j) != x
    ensures FreeBelow(ids + {x}, base, k) == FreeBelow(ids, base, k)
  {
    if k > 0 { FreeBelowSame(ids, x, base, k - 1); }
  }

  /** A new id that is the `j`-th candidate, below `k`. */
  lemma {:induction false} FreeBelowLess(ids: set<string>, base: string, j: nat, k: nat)
    requires j < k && Candidate(base, j) !in ids
    ensures FreeBelow(ids + {Candidate(base, j)}, base, k) == FreeBelow(ids, base, k) - 1
    decreases k
  {
    if j < k - 1 {
      FreeBelowLess(ids, base, j, k - 1);
      if Candidate(base, k - 1) == Candidate(base, j) { CandidateInjective(base, k - 1, j); }
    } else {
      forall i: nat | i < j ensures Candidate(base, i) != Candidate(base, j) {
        if Candidate(base, i) == Candidate(base, j) { CandidateInjective(base, i, j); }
      }
      FreeBelowSame(ids, Candidate(base, j), base, j);
    }
  }

  /** A new id that was not reached changes nothing about what is reached. */
  lemma KeptChangesNothing(ids: set<string>, x: string, base: string, d: nat, k: nat)
    requires x !in ids && forall j: nat :: Candidate(base, j) == x ==> !Reached(ids, base, d, j)
    ensures Reached(ids + {x}, base, d, k) <==> Reached(ids, base, d, k)
  {
    if j: nat :| j < k && Candidate(base, j) == x {
      FreeBelowLess(ids, base, j, k);
      FreeBelowGrows(ids, base, j, k);
    } else {
      FreeBelowSame(ids, x, base, k);
    }
  }

  /** The first candidate that is neither an id nor reached is the next to be reached. */
  lemma {:induction false} NextReached(ids: set<string>, base: string, d: nat, c: nat)
    requires Candidate(base, c) !in ids && !Reached(ids, base, d, c)
    requires forall k: nat :: k < c ==> Candidate(base, k) in ids || Reached(ids, base, d, k)
    ensures FreeBelow(ids, base, c) == d
  {
    LowBelow(ids, base, d, c);
  }

  lemma {:induction false} LowBelow(ids: set<string>, base: string, d: nat, c: nat)
    requires forall k: nat :: k < c ==> Candidate(base, k) in ids || Reached(ids, base, d, k)
    ensures FreeBelow(ids, base, c) <= d
  {
    if c > 0 {
      LowBelow(ids, base, d, c - 1);
      assert Candidate(base, c - 1) in ids || Reached(ids, base, d, c - 1);
    }
  }

  lemma OneMoreReached(ids: set<string>, base: string, d: nat, c: nat, k: nat)
    requires Candidate(base, c) !in ids && FreeBelow(ids, base, c) == d
    ensures Reached(ids, base, d + 1, k) <==> Reached(ids, base, d, k) || k == c
  {
    if k < c { FreeBelowGrows(ids, base, k, c); }
    if c < k { FreeBelowGrows(ids, base, c, k); }
  }

  // ----- which items keep their ids, counted on the input

  /** Item `i` has an id that an earlier item keeps, or one that is taken. */
  ghost predicate Displaced<T>(items: seq<Item<T>>, digest: Item<T> -> string, i: nat)
    requires i < |items|
    decreases i, 2
  {
    items[i].id in Own(items, digest, i) || Taken(items, digest, i, items[i].id)
  }

  /** The ids of those of the first `n` items that are not displaced. */
  ghost function Own<T>(items: seq<Item<T>>, digest: Item<T> -> string, n: nat): set<string>
    requires n <= |items|
    decreases n, 0
  {
    if n == 0 then {} else Own(items, digest, n - 1) + (if Displaced(items, digest, n - 1) then {} else {items[n - 1].id})
  }

  /** How many of the first `n` items are displaced and have this base. */
  ghost function Displacements<T>(items: seq<Item<T>>, digest: Item<T> -> string, base: string, n: nat): nat
    requires n <= |items|
    decreases n, 0
  {
    if n == 0 then 0 else
      Displacements(items, digest, base, n - 1) + (if Displaced(items, digest, n - 1) && Base(items[n - 1], digest) == base then 1 else 0)
  }

  /** `x` is the `k`-th candidate of a base, and more of the first `n` items are displaced with
      that base than there are smaller candidates that are not ids kept so far. */
  ghost predicate Taken<T>(items: seq<Item<T>>, digest: Item<T> -> string, n: nat, x: string)
    requires n <= |items|
    decreases n, 1
  {
    exists base, k: nat :: x == Candidate(base, k) && Reached(Own(items, digest, n), base, Displacements(items, digest, base, n), k)
  }

  /** Two bases that differ share no candidate with a counter that is not larger than the list. */
  ghost predicate Apart(a: string, b: string, n: nat) {
    a == b || forall k: nat, l: nat :: k < n && l < n ==> Candidate(a, k) != Candidate(b, l)
  }

  ghost predicate BasesApart<T>(items: seq<Item<T>>, digest: Item<T> -> string) {
    forall i, j :: 0 <= i < |items| && 0 <= j < |items| ==>
      Apart(Base(items[i], digest), Base(items[j], digest), 2 * |items|)
  }

  /** The ids in use after `n` items. */
  ghost function Used<T>(items: seq<Item<T>>, digest: Item<T> -> string, n: nat): set<string>
    requires n <= |items|
  {
    Ids(Unique(items[..n], digest))
  }

  /** The ids in use are those kept and those taken. */
  ghost predicate UsedAre<T>(items: seq<Item<T>>, digest: Item<T> -> string, n: nat)
    requires n <= |items|
  {
    forall x :: x in Used(items, digest, n) <==> x in Own(items, digest, n) || Taken(items, digest, n, x)
  }

  // ----- one item further

  lemma UniqueNext<T>(items: seq<Item<T>>, digest: Item<T> -> string, n: nat)
    requires n < |items|
    ensures Unique(items[..n + 1], digest) ==
      Unique(items[..n], digest) + [Kept(items[n], digest, Ids(Unique(items[..n], digest)))]
  {
    assert items[..n + 1][..n] == items[..n];
  }

  /** What one more item adds to the ids in use. */
  lemma UsedNext<T>(items: seq<Item<T>>, digest: Item<T> -> string, n: nat)
    requires n < |items|
    ensures Unique(items, digest)[n].id == Kept(items[n], digest, Used(items, digest, n)).id
    ensures Used(items, digest, n + 1) == Used(items, digest, n) + {Unique(items, digest)[n].id}
  {
    var kept := Kept(items[n], digest, Used(items, digest, n));
    UniquePrefix(items, digest, n);
    UniqueNext(items, digest, n);
    IdsAppend(Unique(items[..n], digest), kept);
  }

  lemma {:induction false} FewDisplacements<T>(items: seq<Item<T>>, digest: Item<T> -> string, base: string, n: nat)
    requires n <= |items|
    ensures Displacements(items, digest, base, n) <= n
    ensures Displacements(items, digest, base, n) > 0 ==> exists j :: 0 <= j < n && Base(items[j], digest) == base
  {
    if n > 0 { FewDisplacements(items, digest, base, n - 1); }
  }

  lemma {:induction false} FewOwn<T>(items: seq<Item<T>>, digest: Item<T> -> string, n: nat)
    requires n <= |items|
    ensures |Own(items, digest, n)| <= n
  {
    if n > 0 { FewOwn(items, digest, n - 1); }
  }

  lemma {:induction false} FewIds<T>(items: seq<Item<T>>)
    ensures |Ids(items)| <= |items|
  {
    if items != [] {
      var n := |items| - 1;
      FewIds(items[..n]);
      IdsAppend(items[..n], items[n]);
      assert items == items[..n] + [items[n]];
    }
  }

  lemma TriedInside(ids: set<string>, base: string, k: nat)
    ensures var c := Candidate(base, k);
      |ids * Tried(base, k + 1)| == |ids * Tried(base, k)| + (if c in ids then 1 else 0)
  {
    TriedNext(base, k);
    var c := Candidate(base, k);
    var before := ids * Tried(base, k);
    if c in ids {
      assert ids * Tried(base, k + 1) == before + {c};
    } else {
      assert ids * Tried(base, k + 1) == before;
    }
  }

  /** Each candidate is an id or is counted. */
  lemma {:induction false} FreeBelowMost(ids: set<string>, base: string, k: nat)
    ensures FreeBelow(ids, base, k) + |ids * Tried(base, k)| == k
  {
    if k > 0 {
      FreeBelowMost(ids, base, k - 1);
      TriedInside(ids, base, k - 1);
    }
  }

  /** The counter of a taken id is smaller than the list is long, twice. */
  lemma TakenIsSmall<T>(items: seq<Item<T>>, digest: Item<T> -> string, n: nat, base: string, k: nat)
    requires n <= |items|
    requires Reached(Own(items, digest, n), base, Displacements(items, digest, base, n), k)
    ensures k < 2 * n
    ensures exists j :: 0 <= j < n && Base(items[j], digest) == base
  {
    var ids := Own(items, digest, n);
    FewDisplacements(items, digest, base, n);
    FewOwn(items, digest, n);
    FreeBelowMost(ids, base, k);
    SubsetSize(ids * Tried(base, k), ids);
  }

  /** An item that is not displaced changes nothing about the taken ids. */
  lemma AfterKept<T>(items: seq<Item<T>>, digest: Item<T> -> string, n: nat, x: string)
    requires n < |items| && !Displaced(items, digest, n)
    ensures Taken(items, digest, n + 1, x) <==> Taken(items, digest, n, x)
  {
    forall base, k: nat
      ensures Reached(Own(items, digest, n + 1), base, Displacements(items, digest, base, n + 1), k) <==>
        Reached(Own(items, digest, n), base, Displacements(items, digest, base, n), k)
    {
      KeptChangesNothing(Own(items, digest, n), items[n].id, base, Displacements(items, digest, base, n), k);
    }
  }

  /** The `c`-th candidate of the base of item `n` is the next to be reached. */
  ghost predicate IsNext<T>(items: seq<Item<T>>, digest: Item<T> -> string, n: nat, c: nat)
    requires n < |items|
  {
    var base := Base(items[n], digest);
    && Candidate(base, c) !in Own(items, digest, n)
    && FreeBelow(Own(items, digest, n), base, c) == Displacements(items, digest, base, n)
  }

  /** A displaced item takes exactly the first candidate of its base that is not in use. */
  lemma AfterDisplaced<T>(items: seq<Item<T>>, digest: Item<T> -> string, n: nat, c: nat, x: string)
    requires n < |items| && Displaced(items, digest, n)
    requires IsNext(items, digest, n, c)
    ensures Taken(items, digest, n + 1, x) <==>
      Taken(items, digest, n, x) || x == Candidate(Base(items[n], digest), c)
  {
    var ids, own := Own(items, digest, n), Base(items[n], digest);
    assert Own(items, digest, n + 1) == ids;
    forall base, k: nat
      ensures Reached(ids, base, Displacements(items, digest, base, n + 1), k) <==>
        Reached(ids, base, Displacements(items, digest, base, n), k) || (base == own && k == c)
    {
      if base == own { OneMoreReached(ids, own, Displacements(items, digest, own, n), c, k); }
    }
    if x == Candidate(own, c) {
      assert Reached(ids, own, Displacements(items, digest, own, n + 1), c);
    }
  }

  /** A taken candidate of a base was taken for that base. */
  lemma TakenForBase<T>(items: seq<Item<T>>, digest: Item<T> -> string, n: nat, k: nat)
    requires n < |items| && BasesApart(items, digest) && k < 2 * |items|
    requires Taken(items, digest, n, Candidate(Base(items[n], digest), k))
    ensures var base := Base(items[n], digest);
      Reached(Own(items, digest, n), base, Displacements(items, digest, base, n), k)
  {
    var own := Base(items[n], digest);
    var base, k': nat :| Candidate(own, k) == Candidate(base, k') &&
      Reached(Own(items, digest, n), base, Displacements(items, digest, base, n), k');
    TakenIsSmall(items, digest, n, base, k');
    var j :| 0 <= j < n && Base(items[j], digest) == base;
    assert Apart(Base(items[n], digest), Base(items[j], digest), 2 * |items|);
    CandidateInjective(own, k, k');
  }

  lemma NotTaken<T>(items: seq<Item<T>>, digest: Item<T> -> string, n: nat, base: string, k: nat)
    requires n <= |items| && !Taken(items, digest, n, Candidate(base, k))
    ensures !Reached(Own(items, digest, n), base, Displacements(items, digest, base, n), k)
  {
  }

  lemma SmallestFree<T>(items: seq<Item<T>>, digest: Item<T> -> string, n: nat) returns (c: nat)
    requires n < |items| && BasesApart(items, digest) && UsedAre(items, digest, n) && Displaced(items, digest, n)
    ensures Unique(items, digest)[n].id == Candidate(Base(items[n], digest), c)
    ensures IsNext(items, digest, n, c)
  {
    var base, used, ids := Base(items[n], digest), Used(items, digest, n), Own(items, digest, n);
    var d := Displacements(items, digest, base, n);
    UsedNext(items, digest, n);
    c := Collisions(base, used, 0);
    TriedFits(base, c, used);
    FewIds(Unique(items[..n], digest));
    NotTaken(items, digest, n, base, c);
    forall k: nat | k < c ensures Candidate(base, k) in ids || Reached(ids, base, d, k) {
      assert Candidate(base, k) in used;
      if Candidate(base, k) !in ids { TakenForBase(items, digest, n, k); }
    }
    NextReached(ids, base, d, c);
  }

  lemma AfterDisplacedUsed<T>(items: seq<Item<T>>, digest: Item<T> -> string, n: nat)
    requires n < |items| && BasesApart(items, digest) && UsedAre(items, digest, n) && Displaced(items, digest, n)
    ensures UsedAre(items, digest, n + 1)
  {
    var c := SmallestFree(items, digest, n);
    UsedNext(items, digest, n);
    forall x ensures Taken(items, digest, n + 1, x) <==>
      Taken(items, digest, n, x) || x == Candidate(Base(items[n], digest), c) {
      AfterDisplaced(items, digest, n, c, x);
    }
  }

  lemma AfterKeptUsed<T>(items: seq<Item<T>>, digest: Item<T> -> string, n: nat)
    requires n < |items| && UsedAre(items, digest, n) && !Displaced(items, digest, n)
    ensures UsedAre(items, digest, n + 1)
  {
    UsedNext(items, digest, n);
    forall x ensures Taken(items, digest, n + 1, x) <==> Taken(items, digest, n, x) {
      AfterKept(items, digest, n, x);
    }
  }

  lemma NothingUsed<T>(items: seq<Item<T>>, digest: Item<T> -> string)
    ensures UsedAre(items, digest, 0)
  {
  }

  /** The ids in use are known from the input. */
  lemma {:induction false} UsedFollows<T>(items: seq<Item<T>>, digest: Item<T> -> string, n: nat)
    requires n <= |items| && BasesApart(items, digest)
    ensures UsedAre(items, digest, n)
  {
    if n == 0 {
      NothingUsed(items, digest);
    } else {
      UsedFollows(items, digest, n - 1);
      if Displaced(items, digest, n - 1) {
        AfterDisplacedUsed(items, digest, n - 1);
      } else {
        AfterKeptUsed(items, digest, n - 1);
      }
    }
  }

  /** An item keeps its id exactly if it is not displaced. */
  lemma KeptIff<T>(items: seq<Item<T>>, digest: Item<T> -> string, i: nat)
    requires i < |items| && BasesApart(items, digest)
    ensures Unique(items, digest)[i].id == items[i].id <==> !Displaced(items, digest, i)
  {
    UsedFollows(items, digest, i);
    UsedNext(items, digest, i);
    if items[i].id in Used(items, digest, i) { ExtendsId(items[i], digest, Used(items, digest, i)); }
  }

  // ----- ids that occur once

  ghost predicate OccursOnce<T>(items: seq<Item<T>>, i: nat)
    requires i < |items|
  {
    forall j :: 0 <= j < |items| && j != i ==> items[j].id != items[i].id
  }

  lemma {:induction false} OwnAreIds<T>(items: seq<Item<T>>, digest: Item<T> -> string, n: nat)
    requires n <= |items|
    ensures forall x :: x in Own(items, digest, n) ==> exists j :: 0 <= j < n && items[j].id == x
  {
    if n > 0 {
      OwnAreIds(items, digest, n - 1);
      forall x | x in Own(items, digest, n) ensures exists j :: 0 <= j < n && items[j].id == x {
        if x !in Own(items, digest, n - 1) { assert items[n - 1].id == x; }
      }
    }
  }

  /** An id that occurs once survives exactly if it is not taken by items displaced before. */
  lemma OnceKeptIff<T>(items: seq<Item<T>>, digest: Item<T> -> string, i: nat)
    requires i < |items| && BasesApart(items, digest) && OccursOnce(items, i)
    ensures Unique(items, digest)[i].id == items[i].id <==> !Taken(items, digest, i, items[i].id)
  {
    KeptIff(items, digest, i);
    OwnAreIds(items, digest, i);
  }

  // ----- first occurrences

  predicate Repeats<T>(items: seq<Item<T>>, i: nat)
    requires i < |items|
  {
    exists j | 0 <= j < i :: items[j].id == items[i].id
  }

  /** How many of the first `n` items repeat an id and have this base. */
  function Repetitions<T>(items: seq<Item<T>>, digest: Item<T> -> string, base: string, n: nat): nat
    requires n <= |items|
  {
    if n == 0 then 0 else
      Repetitions(items, digest, base, n - 1) + (if Repeats(items, n - 1) && Base(items[n - 1], digest) == base then 1 else 0)
  }

  /** Taken, if exactly the repetitions are displaced. */
  ghost predicate IsInvented<T>(items: seq<Item<T>>, digest: Item<T> -> string, n: nat, x: string)
    requires n <= |items|
  {
    exists base, k: nat :: x == Candidate(base, k) && Reached(Ids(items[..n]), base, Repetitions(items, digest, base, n), k)
  }

  /** Item `i` keeps its id unless it repeats an earlier one. */
  predicate KeptAt<T>(items: seq<Item<T>>, digest: Item<T> -> string, i: nat)
    requires i < |items|
  {
    !Repeats(items, i) ==> Unique(items, digest)[i].id == items[i].id
  }

  /** Item `i` repeats an id or has one that is not invented for the repetitions before it. */
  ghost predicate MeetsNone<T>(items: seq<Item<T>>, digest: Item<T> -> string, i: nat)
    requires i < |items|
  {
    !Repeats(items, i) ==> !IsInvented(items, digest, i, items[i].id)
  }

  /** The first `n` first occurrences keep their ids. */
  predicate FirstsKept<T>(items: seq<Item<T>>, digest: Item<T> -> string, n: nat)
    requires n <= |items|
  {
    forall i | 0 <= i < n :: KeptAt(items, digest, i)
  }

  /** None of the first `n` first occurrences meets an invented id. */
  ghost predicate NoneInvented<T>(items: seq<Item<T>>, digest: Item<T> -> string, n: nat)
    requires n <= |items|
  {
    forall i | 0 <= i < n :: MeetsNone(items, digest, i)
  }

  lemma IdsNext<T>(items: seq<Item<T>>, n: nat)
    requires n < |items|
    ensures Ids(items[..n + 1]) == Ids(items[..n]) + {items[n].id}
  {
    assert items[..n + 1] == items[..n] + [items[n]];
    IdsAppend(items[..n], items[n]);
  }

  lemma RepeatsMeans<T>(items: seq<Item<T>>, n: nat)
    requires n < |items|
    ensures Repeats(items, n) <==> items[n].id in Ids(items[..n])
  {
    if Repeats(items, n) {
      var j :| 0 <= j < n && items[j].id == items[n].id;
      assert items[..n][j].id == items[n].id;
    }
  }

  /** As long as first occurrences keep their ids, exactly the repetitions are displaced. */
  ghost predicate OnlyRepetitions<T>(items: seq<Item<T>>, digest: Item<T> -> string, n: nat)
    requires n <= |items|
  {
    && Own(items, digest, n) == Ids(items[..n])
    && forall base :: Displacements(items, digest, base, n) == Repetitions(items, digest, base, n)
  }

  lemma SameTaken<T>(items: seq<Item<T>>, digest: Item<T> -> string, n: nat, x: string)
    requires n <= |items| && OnlyRepetitions(items, digest, n)
    ensures Taken(items, digest, n, x) <==> IsInvented(items, digest, n, x)
  {
    forall base, k: nat
      ensures Reached(Own(items, digest, n), base, Displacements(items, digest, base, n), k) <==>
        Reached(Ids(items[..n]), base, Repetitions(items, digest, base, n), k) {}
  }

  lemma OneMoreItem<T>(items: seq<Item<T>>, digest: Item<T> -> string, n: nat)
    requires n < |items| && OnlyRepetitions(items, digest, n)
    ensures Displaced(items, digest, n) <==> Repeats(items, n) || IsInvented(items, digest, n, items[n].id)
    ensures MeetsNone(items, digest, n) ==> OnlyRepetitions(items, digest, n + 1)
  {
    SameTaken(items, digest, n, items[n].id);
    RepeatsMeans(items, n);
    if MeetsNone(items, digest, n) {
      IdsNext(items, n);
      assert Displaced(items, digest, n) <==> Repeats(items, n);
      var next := n + 1;
      forall base ensures Displacements(items, digest, base, next) == Repetitions(items, digest, base, next) {
        assert Displacements(items, digest, base, n) == Repetitions(items, digest, base, n);
      }
    }
  }

  lemma FirstKept<T>(items: seq<Item<T>>, digest: Item<T> -> string, n: nat)
    requires n < |items| && BasesApart(items, digest) && OnlyRepetitions(items, digest, n)
    ensures KeptAt(items, digest, n) <==> MeetsNone(items, digest, n)
  {
    OneMoreItem(items, digest, n);
    KeptIff(items, digest, n);
  }

  /** Every first occurrence keeps its id exactly if no first occurrence has an id that is
      invented for the repetitions before it. */
  lemma {:induction false} FirstsKeptIff<T>(items: seq<Item<T>>, digest: Item<T> -> string, n: nat)
    requires n <= |items| && BasesApart(items, digest)
    ensures FirstsKept(items, digest, n) <==> NoneInvented(items, digest, n)
    ensures NoneInvented(items, digest, n) ==> OnlyRepetitions(items, digest, n)
  {
    if n > 0 {
      FirstsKeptIff(items, digest, n - 1);
      if NoneInvented(items, digest, n - 1) {
        FirstKept(items, digest, n - 1);
        if MeetsNone(items, digest, n - 1) { OneMoreItem(items, digest, n - 1); }
      }
    }
  }

  // ----- digests of eight hexadecimal digits

  lemma NoDashBehind(s: string, t: string, s': string, t': string)
    requires s + "-" + t == s' + "-" + t' && '-' !in t
    ensures |s'| <= |s|
  {
    var whole := s + "-" + t;
    assert forall k :: |s| < k < |whole| ==> whole[k] == t[k - |s| - 1];
    assert (s' + "-" + t')[|s'|] == '-';
  }

  /** Where the last dash is, both sides of it are known. */
  lemma LastDash(s: string, t: string, s': string, t': string)
    requires s + "-" + t == s' + "-" + t' && '-' !in t && '-' !in t'
    ensures s == s' && t == t'
  {
    NoDashBehind(s, t, s', t');
    NoDashBehind(s', t', s, t);
    var whole := s + "-" + t;
    assert s == whole[..|s|] && t == whole[|s| + 1..];
    assert s' == whole[..|s|] && t' == whole[|s| + 1..];
  }

  /** A counter that is too short to be a digest. */
  lemma ShortCounter(k: nat)
    requires k < 9_999_999
    ensures |Decimal(k + 1)| < 8 && '-' !in Decimal(k + 1)
  {
    assert Power(1) == 10 && Power(3) == 1000 && Power(5) == 100_000 && Power(7) == 10_000_000;
    DecimalShort(k + 1, 7);
    DecimalDigits(k + 1);
  }

  ghost predicate EightDigits<T>(items: seq<Item<T>>, digest: Item<T> -> string) {
    forall i :: 0 <= i < |items| ==> |digest(items[i])| == 8 && '-' !in digest(items[i])
  }

  lemma CandidatesApart(id: string, d: string, k: nat, id': string, d': string, l: nat)
    requires |d| == 8 && |d'| == 8 && '-' !in d && '-' !in d' && k < 9_999_999 && l < 9_999_999
    requires Candidate(id + "-" + d, k) == Candidate(id' + "-" + d', l)
    ensures id + "-" + d == id' + "-" + d'
  {
    ShortCounter(k);
    ShortCounter(l);
    if k == 0 && l != 0 { LastDash(id, d, id' + "-" + d', Decimal(l + 1)); }
    if k != 0 && l == 0 { LastDash(id + "-" + d, Decimal(k + 1), id', d'); }
    if k != 0 && l != 0 { LastDash(id + "-" + d, Decimal(k + 1), id' + "-" + d', Decimal(l + 1)); }
  }

  /** With the digests of the code no base is another base with a counter, in lists of fewer than
      five million items. */
  lemma DigestsApart<T>(items: seq<Item<T>>, digest: Item<T> -> string)
    requires EightDigits(items, digest) && |items| < 5_000_000
    ensures BasesApart(items, digest)
  {
    forall i, j | 0 <= i < |items| && 0 <= j < |items|
      ensures Apart(Base(items[i], digest), Base(items[j], digest), 2 * |items|)
    {
      forall k: nat, l: nat | k < 2 * |items| && l < 2 * |items| &&
        Candidate(Base(items[i], digest), k) == Candidate(Base(items[j], digest), l)
        ensures Base(items[i], digest) == Base(items[j], digest)
      {
        CandidatesApart(items[i].id, digest(items[i]), k, items[j].id, digest(items[j]), l);
      }
    }
  }

  /** The promise to preserve historical ids, in lists of fewer than five million items: an item
      keeps its id exactly if it is not displaced, and an id that occurs once exactly if it is
      not taken for items displaced before it. */
  lemma HistoricalIdsKeptIff<T>(items: seq<Item<T>>, digest: Item<T> -> string, i: nat)
    requires EightDigits(items, digest) && i < |items| < 5_000_000
    ensures Unique(items, digest)[i].id == items[i].id <==> !Displaced(items, digest, i)
    ensures OccursOnce(items, i) ==>
      (Unique(items, digest)[i].id == items[i].id <==> !Taken(items, digest, i, items[i].id))
  {
    DigestsApart(items, digest);
    KeptIff(items, digest, i);
    if OccursOnce(items, i) { OnceKeptIff(items, digest, i); }
  }
}
