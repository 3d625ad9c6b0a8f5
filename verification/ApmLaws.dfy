/** The rows of a collection read off the buckets (discovery/elastic_apm.py). */
module ApmLaws {
  import opened Wrappers
  import opened ApmPages
  import opened ApmFold
  import opened ApmTotals

  // ----- the row of a bucket

  /** The path of a target, without its query. */
  predicate IsPathOf(target: string, path: string) {
    '?' !in path && path <= target && (target == path || target[|path|] == '?')
  }

  /** Service and target are given, and neither stands for what the server left out. */
  predicate Counts(b: Bucket) {
    && b.service.Some? && b.target.Some? && b.target.value != "" && b.service.value != "_other" && b.target.value != "_other"
  }

  /** A call to a target counts for the target as it stands, a transaction for its path. */
  predicate FallsInto(b: Bucket, row: Row) {
    && Counts(b) && b.service.value == row.service && b.targetType == row.targetType
    && if row.kind.Destination? then b.target.value == row.target else IsPathOf(b.target.value, row.target)
  }

  predicate IsLeftOut(b: Bucket, service: string) {
    && b.service == Some(service) && b.target.Some? && b.target.value != "" && (service == "_other" || b.target.value == "_other")
  }

  lemma {:induction false} PathIff(target: string, path: string)
    ensures BeforeQuery(target) == path <==> IsPathOf(target, path)
    decreases |target|
  {
    if target != "" && target[0] != '?' {
      if path != "" {
        PathIff(target[1..], path[1..]);
        assert path == [path[0]] + path[1..] && target == [target[0]] + target[1..];
        if IsPathOf(target, path) { PathsRest(target, path); }
        if target[0] == path[0] && IsPathOf(target[1..], path[1..]) { assert IsPathOf(target, path); }
      }
    }
  }

  lemma PathsRest(target: string, path: string)
    requires IsPathOf(target, path) && path != ""
    ensures target[0] == path[0] && IsPathOf(target[1..], path[1..])
  {
    assert path[0] == target[..|path|][0];
    assert target[1..][..|path| - 1] == path[1..];
  }

  lemma RowIff(b: Bucket, row: Row)
    ensures row.kind.Destination? ==> (RowOf(DestinationEvent(b)) == Some(row) <==> FallsInto(b, row))
    ensures row.kind.Transaction? ==> (RowOf(TransactionEvent(b)) == Some(row) <==> FallsInto(b, row))
    ensures row.kind.Destination? ==> RowOf(TransactionEvent(b)) != Some(row)
    ensures row.kind.Transaction? ==> RowOf(DestinationEvent(b)) != Some(row)
  {
    if b.target.Some? { PathIff(b.target.value, row.target); }
  }

  // ----- sums over buckets

  /** The sum over the buckets that fall into the row. */
  function SumRow(buckets: seq<Bucket>, row: Row, value: Bucket -> real): real {
    if buckets == [] then 0.0 else SumRow(buckets[..|buckets| - 1], row, value) + Share(buckets[|buckets| - 1], row, value)
  }

  function Share(b: Bucket, row: Row, value: Bucket -> real): real { if FallsInto(b, row) then value(b) else 0.0 }

  function Calls(b: Bucket): real { b.calls }

  function Failures(b: Bucket): real { b.failures }

  function Duration(b: Bucket): real { b.duration }

  /** The calls that count as failed. */
  function Failed(b: Bucket): real { if b.outcome == Some("failure") then b.calls else 0.0 }

  lemma {:induction false} SumJoins(before: seq<Event>, events: seq<Event>, row: Row)
    ensures SumFor(before + events, row) == Plus(SumFor(before, row), SumFor(events, row))
  {
    if events == [] {
      assert before + events == before;
    } else {
      var n := |events| - 1;
      assert (before + events)[..|before| + n] == before + events[..n];
      SumJoins(before, events[..n], row);
    }
  }

  lemma DestinationPart(b: Bucket, row: Row)
    requires row.kind.Destination?
    ensures Part(DestinationEvent(b), row) == Total(Share(b, row, Calls), Share(b, row, Failed), Share(b, row, Duration))
    ensures Part(TransactionEvent(b), row) == NOTHING
  {
    RowIff(b, row);
  }

  lemma TransactionPart(b: Bucket, row: Row)
    requires row.kind.Transaction?
    ensures Part(TransactionEvent(b), row) == Total(Share(b, row, Calls), Share(b, row, Failures), 0.0)
    ensures Part(DestinationEvent(b), row) == NOTHING
  {
    RowIff(b, row);
  }

  lemma {:induction false} DestinationSums(buckets: seq<Bucket>, row: Row)
    requires row.kind.Destination?
    ensures SumFor(DestinationEvents(buckets), row) == Total(SumRow(buckets, row, Calls), SumRow(buckets, row, Failed), SumRow(buckets, row, Duration))
    ensures SumFor(TransactionEvents(buckets), row) == NOTHING
  {
    if buckets != [] {
      var n := |buckets| - 1;
      DestinationSums(buckets[..n], row);
      DestinationPart(buckets[n], row);
      assert DestinationEvents(buckets)[..n] == DestinationEvents(buckets[..n]);
      assert TransactionEvents(buckets)[..n] == TransactionEvents(buckets[..n]);
    }
  }

  lemma {:induction false} TransactionSums(buckets: seq<Bucket>, row: Row)
    requires row.kind.Transaction?
    ensures SumFor(TransactionEvents(buckets), row) == Total(SumRow(buckets, row, Calls), SumRow(buckets, row, Failures), 0.0)
    ensures SumFor(DestinationEvents(buckets), row) == NOTHING
  {
    if buckets != [] {
      var n := |buckets| - 1;
      TransactionSums(buckets[..n], row);
      TransactionPart(buckets[n], row);
      assert DestinationEvents(buckets)[..n] == DestinationEvents(buckets[..n]);
      assert TransactionEvents(buckets)[..n] == TransactionEvents(buckets[..n]);
    }
  }

  ghost predicate HasBucket(buckets: seq<Bucket>, row: Row) { exists b :: b in buckets && FallsInto(b, row) }

  /** A row stands for the buckets of its index that fall into it: calls, failures and time are
      their sums. Of calls to a target those with the outcome failure failed. */
  lemma RowSums(destinations: seq<Bucket>, transactions: seq<Bucket>, row: Row)
    ensures var totals := Fold(Events(destinations, transactions)).totals;
      if row.kind.Destination? then
        && (row in totals <==> HasBucket(destinations, row))
        && (row in totals ==>
              totals[row] == Total(SumRow(destinations, row, Calls), SumRow(destinations, row, Failed), SumRow(destinations, row, Duration)))
      else
        && (row in totals <==> HasBucket(transactions, row))
        && (row in totals ==>
              totals[row] == Total(SumRow(transactions, row, Calls), SumRow(transactions, row, Failures), 0.0))
  {
    var first, second := DestinationEvents(destinations), TransactionEvents(transactions);
    RowsAreSums(first + second, row);
    SumJoins(first, second, row);
    if row.kind.Destination? {
      DestinationSums(destinations, row);
      DestinationSums(transactions, row);
    } else {
      TransactionSums(destinations, row);
      TransactionSums(transactions, row);
    }
    RowExists(destinations, transactions, row);
  }

  lemma RowExists(destinations: seq<Bucket>, transactions: seq<Bucket>, row: Row)
    ensures HasRow(Events(destinations, transactions), row) <==> HasBucket(if row.kind.Destination? then destinations else transactions, row)
  {
    var first, second := DestinationEvents(destinations), TransactionEvents(transactions);
    if e :| e in first + second && RowOf(e) == Some(row) {
      if e in first {
        var i :| 0 <= i < |first| && first[i] == e;
        RowIff(destinations[i], row);
      } else {
        var i :| 0 <= i < |second| && second[i] == e;
        RowIff(transactions[i], row);
      }
    }
    if b :| b in (if row.kind.Destination? then destinations else transactions) && FallsInto(b, row) {
      RowIff(b, row);
      if row.kind.Destination? {
        var i :| 0 <= i < |destinations| && destinations[i] == b;
        assert first[i] in first + second;
      } else {
        var i :| 0 <= i < |transactions| && transactions[i] == b;
        assert second[i] in first + second;
      }
    }
  }

  /** A service is noted as cut off exactly if the server left out some of its groups. */
  lemma LeftOutIff(destinations: seq<Bucket>, transactions: seq<Bucket>, service: string)
    ensures service in Fold(Events(destinations, transactions)).overflow <==>
      exists b :: (b in destinations || b in transactions) && IsLeftOut(b, service)
  {
    var first, second := DestinationEvents(destinations), TransactionEvents(transactions);
    OverflowRecorded(first + second, service);
    if e :| e in first + second && Overflows(e) && e.service.value == service {
      if e in first {
        var i :| 0 <= i < |first| && first[i] == e;
        assert IsLeftOut(destinations[i], service);
      } else {
        var i :| 0 <= i < |second| && second[i] == e;
        assert IsLeftOut(transactions[i], service);
      }
    }
    if b :| b in destinations && IsLeftOut(b, service) {
      var i :| 0 <= i < |destinations| && destinations[i] == b;
      assert first[i] in first + second && Overflows(first[i]);
    }
    if b :| b in transactions && IsLeftOut(b, service) {
      var i :| 0 <= i < |transactions| && transactions[i] == b;
      assert second[i] in first + second && Overflows(second[i]);
    }
  }

  predicate IsFirstOf(buckets: seq<Bucket>, row: Row, k: int) {
    0 <= k < |buckets| && FallsInto(buckets[k], row) && forall i | 0 <= i < k :: !FallsInto(buckets[i], row)
  }

  /** Of several transactions in one row the percentiles of the first one are shown. */
  lemma PercentilesOfFirst(destinations: seq<Bucket>, transactions: seq<Bucket>, row: Row)
    ensures var percentiles := Fold(Events(destinations, transactions)).percentiles;
      && (row in percentiles <==> row.kind.Transaction? && HasBucket(transactions, row))
      && (row in percentiles ==> exists k :: IsFirstOf(transactions, row, k) && percentiles[row] == transactions[k].percentiles)
  {
    var first, second := DestinationEvents(destinations), TransactionEvents(transactions);
    var events := first + second;
    FirstPercentilesWin(events, row);
    RowExists(destinations, transactions, row);
    if row in Fold(events).percentiles {
      var k :| IsFirst(events, row, k) && Fold(events).percentiles[row] == events[k].percentiles;
      FirstIsFirst(destinations, transactions, row, k);
    }
  }

  lemma FirstIsFirst(destinations: seq<Bucket>, transactions: seq<Bucket>, row: Row, k: nat)
    requires row.kind.Transaction? && IsFirst(Events(destinations, transactions), row, k)
    ensures |destinations| <= k && IsFirstOf(transactions, row, k - |destinations|)
    ensures Events(destinations, transactions)[k].percentiles == transactions[k - |destinations|].percentiles
  {
    var events, n := Events(destinations, transactions), |destinations|;
    if k < n { RowIff(destinations[k], row); }
    assert k >= n && events[k] == TransactionEvent(transactions[k - n]);
    RowIff(transactions[k - n], row);
    forall i | 0 <= i < k - n ensures !FallsInto(transactions[i], row) {
      assert events[n + i] == TransactionEvent(transactions[i]);
      RowIff(transactions[i], row);
    }
  }

  /** How many transactions that count lack a percentile. */
  function Incomplete(transactions: seq<Bucket>): nat {
    if transactions == [] then 0 else
      var last := transactions[|transactions| - 1];
      Incomplete(transactions[..|transactions| - 1]) + (if Counts(last) && None in last.percentiles then 1 else 0)
  }

  lemma {:induction false} NoneMissing(destinations: seq<Bucket>)
    ensures Fold(DestinationEvents(destinations)).missing == 0
  {
    if destinations != [] {
      var n := |destinations| - 1;
      NoneMissing(destinations[..n]);
      assert DestinationEvents(destinations)[..n] == DestinationEvents(destinations[..n]);
    }
  }

  /** Exactly those are reported as incomplete. */
  lemma {:induction false} MissingCounted(destinations: seq<Bucket>, transactions: seq<Bucket>)
    ensures Fold(Events(destinations, transactions)).missing == Incomplete(transactions)
  {
    if transactions == [] {
      NoneMissing(destinations);
      assert Events(destinations, transactions) == DestinationEvents(destinations);
    } else {
      var n := |transactions| - 1;
      MissingCounted(destinations, transactions[..n]);
      var events := Events(destinations, transactions);
      assert events[..|events| - 1] == Events(destinations, transactions[..n]) && events[|events| - 1] == TransactionEvent(transactions[n]);
    }
  }
}
