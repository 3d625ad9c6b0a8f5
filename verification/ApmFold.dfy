/** Folding metric buckets into one row per service, target and type
    (discovery/elastic_apm.py). */
module ApmFold {
  import opened Wrappers
  import opened ApmPages

  const OVERFLOW_KEY := "_other"

  datatype Kind = Destination | Transaction
  datatype Row = Row(kind: Kind, service: string, target: string, targetType: Option<string>)
  datatype Total = Total(calls: real, failures: real, duration: real)
  type Percentiles = seq<Option<real>>

  const NOTHING := Total(0.0, 0.0, 0.0)

  /** One call of `add`, with the percentiles of the bucket it comes from. */
  datatype Event = Event(kind: Kind, service: Option<string>, target: Option<string>, targetType: Option<string>, total: Total, percentiles: Percentiles)

  function DestinationEvent(b: Bucket): Event {
    Event(Destination, b.service, b.target, b.targetType,
          Total(b.calls, if b.outcome == Some("failure") then b.calls else 0.0, b.duration), [])
  }

  function TransactionEvent(b: Bucket): Event {
    Event(Transaction, b.service, b.target, b.targetType, Total(b.calls, b.failures, 0.0), b.percentiles)
  }

  // ----- what a bucket is folded into

  /** `name.split("?", 1)[0]`. */
  function BeforeQuery(s: string): string {
    if s == "" || s[0] == '?' then "" else [s[0]] + BeforeQuery(s[1..])
  }

  predicate Named(e: Event) { e.service.Some? && e.target.Some? && e.target.value != "" }

  predicate Overflows(e: Event) { Named(e) && (e.service.value == OVERFLOW_KEY || e.target.value == OVERFLOW_KEY) }

  /** The row of a bucket, unless it is dropped. */
  function RowOf(e: Event): Option<Row> {
    if !Named(e) || Overflows(e) then None else
      Some(Row(e.kind, e.service.value, if e.kind.Transaction? then BeforeQuery(e.target.value) else e.target.value, e.targetType))
  }

  function Plus(a: Total, b: Total): Total {
    Total(a.calls + b.calls, a.failures + b.failures, a.duration + b.duration)
  }

  datatype State = State(totals: map<Row, Total>, percentiles: map<Row, Percentiles>, overflow: set<string>, missing: nat)

  const START := State(map[], map[], {}, 0)

  function TotalAt(totals: map<Row, Total>, row: Row): Total { if row in totals then totals[row] else NOTHING }

  function Added(st: State, e: Event): State {
    if Overflows(e) then st.(overflow := st.overflow + {e.service.value})
    else match RowOf(e)
      case None => st
      case Some(row) => st.(totals := st.totals[row := Plus(TotalAt(st.totals, row), e.total)])
  }

  function WithPercentiles(st: State, e: Event): State {
    match RowOf(e)
    case None => st
    case Some(row) =>
      if e.kind.Destination? then st else
      st.(missing := st.missing + (if None in e.percentiles then 1 else 0),
          percentiles := if row in st.percentiles then st.percentiles else st.percentiles[row := e.percentiles])
  }

  function Folded(st: State, e: Event): State { WithPercentiles(Added(st, e), e) }

  function Fold(events: seq<Event>): State {
    if events == [] then START else Folded(Fold(events[..|events| - 1]), events[|events| - 1])
  }

  function DestinationEvents(destinations: seq<Bucket>): seq<Event> {
    seq(|destinations|, i requires 0 <= i < |destinations| => DestinationEvent(destinations[i]))
  }

  function TransactionEvents(transactions: seq<Bucket>): seq<Event> {
    seq(|transactions|, i requires 0 <= i < |transactions| => TransactionEvent(transactions[i]))
  }

  /** The buckets in the order in which they are folded. */
  function Events(destinations: seq<Bucket>, transactions: seq<Bucket>): seq<Event> {
    DestinationEvents(destinations) + TransactionEvents(transactions)
  }

  // ----- the collector

  /** The dictionaries that `add` and the loops update. */
  class Collector {
    var totals: map<Row, Total>
    var percentiles: map<Row, Percentiles>
    var overflow: set<string>
    var missing: nat

    ghost function View(): State
      reads this
    {
      State(totals, percentiles, overflow, missing)
    }

    constructor ()
      ensures View() == START
    {
      totals, percentiles, overflow, missing := map[], map[], {}, 0;
    }

    method Add(e: Event) returns (kept: bool)
      modifies this
      ensures View() == Added(old(View()), e) && (kept <==> RowOf(e).Some?)
    {
      if e.service.None? || e.target.None? || e.target.value == "" { return false; }
      if e.service.value == OVERFLOW_KEY || e.target.value == OVERFLOW_KEY {
        overflow := overflow + {e.service.value};
        return false;
      }
      var target := if e.kind.Transaction? then BeforeQuery(e.target.value) else e.target.value;
      var row := Row(e.kind, e.service.value, target, e.targetType);
      totals := totals[row := Plus(if row in totals then totals[row] else NOTHING, e.total)];
      return true;
    }

    method AddTransaction(b: Bucket)
      modifies this
      ensures View() == Folded(old(View()), TransactionEvent(b))
    {
      var e := TransactionEvent(b);
      var kept := Add(e);
      if !kept { return; }
      if None in e.percentiles { missing := missing + 1; }
      var row := Row(Transaction, e.service.value, BeforeQuery(e.target.value), e.targetType);
      if row !in percentiles { percentiles := percentiles[row := e.percentiles]; }
    }

    method AddDestination(b: Bucket)
      modifies this
      ensures View() == Folded(old(View()), DestinationEvent(b))
    {
      var kept := Add(DestinationEvent(b));
    }
  }

  /** `collect`: both indexes are read in full, or the collection fails. */
  method Collect(destinationServer: Server, transactionServer: Server, ghost destinations: seq<Bucket>, ghost transactions: seq<Bucket>)
    returns (r: Option<Collector>)
    ensures r.Some? ==> fresh(r.value)
    ensures Serves(destinationServer, destinations) && Serves(transactionServer, transactions) ==>
      && (r.Some? <==> |destinations| <= 99 * 1000 && |transactions| <= 99 * 1000)
      && (r.Some? ==> r.value.View() == Fold(Events(destinations, transactions)))
  {
    var first, _ := CompositeBuckets(destinationServer, destinations);
    if first.None? { return None; }
    var second, _ := CompositeBuckets(transactionServer, transactions);
    if second.None? { return None; }
    var collector := new Collector();
    AddAll(collector, first.value, second.value);
    return Some(collector);
  }

  method AddAll(collector: Collector, destinations: seq<Bucket>, transactions: seq<Bucket>)
    requires collector.View() == START
    modifies collector
    ensures collector.View() == Fold(Events(destinations, transactions))
  {
    AddDestinations(collector, destinations);
    AddTransactions(collector, transactions, DestinationEvents(destinations));
  }

  method AddDestinations(collector: Collector, destinations: seq<Bucket>)
    requires collector.View() == START
    modifies collector
    ensures collector.View() == Fold(DestinationEvents(destinations))
  {
    for i := 0 to |destinations|
      invariant collector.View() == Fold(DestinationEvents(destinations[..i]))
    {
      NextDestination(destinations, i);
      FoldNext(DestinationEvents(destinations[..i]), DestinationEvent(destinations[i]));
      collector.AddDestination(destinations[i]);
    }
    assert destinations[..|destinations|] == destinations;
  }

  method AddTransactions(collector: Collector, transactions: seq<Bucket>, ghost before: seq<Event>)
    requires collector.View() == Fold(before)
    modifies collector
    ensures collector.View() == Fold(before + TransactionEvents(transactions))
  {
    assert before + TransactionEvents(transactions[..0]) == before;
    for i := 0 to |transactions|
      invariant collector.View() == Fold(before + TransactionEvents(transactions[..i]))
    {
      NextTransaction(before, transactions, i);
      FoldNext(before + TransactionEvents(transactions[..i]), TransactionEvent(transactions[i]));
      collector.AddTransaction(transactions[i]);
    }
    assert transactions[..|transactions|] == transactions;
  }

  lemma NextDestination(destinations: seq<Bucket>, i: nat)
    requires i < |destinations|
    ensures DestinationEvents(destinations[..i + 1]) == DestinationEvents(destinations[..i]) + [DestinationEvent(destinations[i])]
  {
  }

  lemma NextTransaction(before: seq<Event>, transactions: seq<Bucket>, i: nat)
    requires i < |transactions|
    ensures before + TransactionEvents(transactions[..i + 1]) ==
            before + TransactionEvents(transactions[..i]) + [TransactionEvent(transactions[i])]
  {
  }

  lemma FoldNext(events: seq<Event>, e: Event)
    ensures Fold(events + [e]) == Folded(Fold(events), e)
  {
    assert (events + [e])[..|events|] == events;
  }
}
