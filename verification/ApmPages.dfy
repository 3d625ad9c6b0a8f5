/** Reading all groups of an index page by page (discovery/elastic_apm.py). */
module ApmPages {
  import opened Wrappers
  import opened Basics
  import opened Numerals

  const PAGE_SIZE: nat := 1000
  const MAX_PAGES: nat := 100

  /** One group: the terms that are strings, and its metrics. */
  datatype Bucket = Bucket(
    key: string, service: Option<string>, target: Option<string>, targetType: Option<string>, outcome: Option<string>,
    calls: real, failures: real, duration: real, percentiles: seq<Option<real>>)

  /** An answer of the server: an error, no aggregation, or one page and its last key. */
  datatype Answer = Error | NoGroups | Page(buckets: seq<Bucket>, afterKey: Option<string>)

  /** The server's answer for the groups after a key. */
  type Server = Option<string> -> Answer

  function LastKey(buckets: seq<Bucket>): Option<string> {
    if buckets == [] then None else Some(buckets[|buckets| - 1].key)
  }

  /** The page that starts at position `i`. */
  function PageAt(all: seq<Bucket>, i: nat): seq<Bucket>
    requires i <= |all|
  {
    all[i..Min(i + PAGE_SIZE, |all|)]
  }

  /** A server that holds `all` in the order of their distinct keys, and names the last key
      of every page that is not empty. */
  ghost predicate Serves(server: Server, all: seq<Bucket>) {
    && server(None) == Page(PageAt(all, 0), LastKey(PageAt(all, 0)))
    && forall i :: 0 <= i < |all| ==>
         server(Some(all[i].key)) == Page(PageAt(all, i + 1), LastKey(PageAt(all, i + 1)))
  }

  /** The buckets read after `pages` pages. */
  function ReadAfter(all: seq<Bucket>, pages: nat): seq<Bucket> { all[..Min(pages * PAGE_SIZE, |all|)] }

  /** Where the reading stands before page `pages + 1`. */
  ghost predicate Reading(all: seq<Bucket>, pages: nat, read: seq<Bucket>, after: Option<string>) {
    && read == ReadAfter(all, pages)
    && if pages == 0 then after == None else |all| > (pages - 1) * PAGE_SIZE && after == LastKey(read)
  }

  /** The next page holds what follows; it is empty exactly when all has been read. */
  lemma NextPage(server: Server, all: seq<Bucket>, pages: nat, read: seq<Bucket>, after: Option<string>)
    requires Serves(server, all) && Reading(all, pages, read, after)
    ensures var page := PageAt(all, |read|);
      && server(after) == Page(page, LastKey(page))
      && (if page == [] then read + page == all && |all| <= pages * PAGE_SIZE
          else Reading(all, pages + 1, read + page, LastKey(page)) && |all| > pages * PAGE_SIZE)
  {
    var page := PageAt(all, |read|);
    if pages != 0 { assert Some(all[|read| - 1].key) == after; }
    assert read + page == ReadAfter(all, pages + 1);
  }

  /** `_composite_buckets`: against a server that holds `all`, either every bucket once and in
      order, or a failure because the page that would show the end is one too many. */
  method CompositeBuckets(server: Server, ghost all: seq<Bucket>) returns (r: Option<seq<Bucket>>, pages: nat)
    ensures Serves(server, all) ==> r == if |all| <= (MAX_PAGES - 1) * PAGE_SIZE then Some(all) else None
    ensures pages <= MAX_PAGES
  {
    var after: Option<string> := None;
    var buckets: seq<Bucket> := [];
    pages := 0;
    while pages < MAX_PAGES
      invariant pages <= MAX_PAGES
      invariant Serves(server, all) ==> Reading(all, pages, buckets, after)
    {
      if Serves(server, all) { NextPage(server, all, pages, buckets, after); }
      var answer := server(after);
      pages := pages + 1;
      if answer.Error? { return None, pages; }
      if answer.NoGroups? { return Some(buckets), pages; }
      buckets := buckets + answer.buckets;
      after := answer.afterKey;
      if answer.buckets == [] || after.None? { return Some(buckets), pages; }
    }
    return None, pages;
  }

  // ----- servers with any number of groups

  /** Where a key is in the list. */
  function IndexOf(all: seq<Bucket>, key: string): (i: nat)
    ensures i <= |all| && (i < |all| ==> all[i].key == key) && forall j :: 0 <= j < i ==> all[j].key != key
  {
    if all == [] || all[0].key == key then 0 else 1 + IndexOf(all[1..], key)
  }

  function AnswerAfter(all: seq<Bucket>, after: Option<string>): Answer {
    var i := if after.None? then 0 else IndexOf(all, after.value) + 1;
    if i > |all| then Error else Page(PageAt(all, i), LastKey(PageAt(all, i)))
  }

  ghost predicate DistinctKeys(all: seq<Bucket>) { forall i, j :: 0 <= i < j < |all| ==> all[i].key != all[j].key }

  /** Any list of groups with distinct keys is held by some server: reading it fails exactly if
      it has more than 99 full pages. */
  lemma EveryListIsServed(all: seq<Bucket>) returns (server: Server)
    requires DistinctKeys(all)
    ensures Serves(server, all)
  {
    server := after => AnswerAfter(all, after);
    forall i | 0 <= i < |all| ensures server(Some(all[i].key)) == Page(PageAt(all, i + 1), LastKey(PageAt(all, i + 1))) {
      assert IndexOf(all, all[i].key) == i;
    }
  }

  /** There are such lists of every length, and so servers whose groups are not read. */
  lemma UnreadableServer(n: nat) returns (server: Server, all: seq<Bucket>)
    requires n > (MAX_PAGES - 1) * PAGE_SIZE
    ensures Serves(server, all) && |all| == n
  {
    all := seq(n, i requires 0 <= i < n => Bucket(Decimal(i), None, None, None, None, 0.0, 0.0, 0.0, []));
    forall i, j | 0 <= i < j < n ensures all[i].key != all[j].key {
      if all[i].key == all[j].key { DecimalInjective(i, j); }
    }
    server := EveryListIsServed(all);
  }
}
