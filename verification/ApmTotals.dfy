/** What the rows of a collection mean: sums over buckets, nothing lost, nothing counted
    twice (discovery/elastic_apm.py). */
module ApmTotals {
  import opened Wrappers
  import opened ApmPages
  import opened ApmFold

  ghost predicate HasRow(events: seq<Event>, row: Row) { exists e :: e in events && RowOf(e) == Some(row) }

  /** The sum over the buckets of one row. */
  function SumFor(events: seq<Event>, row: Row): Total {
    if events == [] then NOTHING else
      Plus(SumFor(events[..|events| - 1], row), Part(events[|events| - 1], row))
  }

  lemma Split(events: seq<Event>)
    requires events != []
    ensures events == events[..|events| - 1] + [events[|events| - 1]]
  {
  }

  lemma {:induction false} RowsExist(events: seq<Event>, row: Row)
    ensures row in Fold(events).totals <==> HasRow(events, row)
  {
    if events != [] {
      var front, last := events[..|events| - 1], events[|events| - 1];
      RowsExist(front, row);
      Split(events);
      assert HasRow(events, row) <==> HasRow(front, row) || RowOf(last) == Some(row);
    }
  }

  lemma {:induction false} RowsSum(events: seq<Event>, row: Row)
    ensures TotalAt(Fold(events).totals, row) == SumFor(events, row)
  {
    if events != [] {
      RowsSum(events[..|events| - 1], row);
      TotalAfter(Fold(events[..|events| - 1]), events[|events| - 1], row);
    }
  }

  function Part(e: Event, row: Row): Total { if RowOf(e) == Some(row) then e.total else NOTHING }

  lemma PlusNothing(a: Total)
    ensures Plus(a, NOTHING) == a
  {
  }

  lemma TotalOf(st: State, e: Event, row: Row)
    ensures TotalAt(Folded(st, e).totals, row) ==
      if RowOf(e) == Some(row) then Plus(TotalAt(st.totals, row), e.total) else TotalAt(st.totals, row)
  {
    assert Folded(st, e).totals == Added(st, e).totals;
  }

  lemma TotalAfter(st: State, e: Event, row: Row)
    ensures TotalAt(Folded(st, e).totals, row) == Plus(TotalAt(st.totals, row), Part(e, row))
  {
    TotalOf(st, e, row);
    PlusNothing(TotalAt(st.totals, row));
  }

  /** A row exists exactly when a bucket is folded into it, and holds the sum of those buckets. */
  lemma RowsAreSums(events: seq<Event>, row: Row)
    ensures row in Fold(events).totals <==> HasRow(events, row)
    ensures row in Fold(events).totals ==> Fold(events).totals[row] == SumFor(events, row)
  {
    RowsExist(events, row);
    RowsSum(events, row);
  }

  // ----- conservation

  /** The sum over the buckets of one kind that are not dropped. */
  function SumKept(events: seq<Event>, kind: Kind): Total {
    if events == [] then NOTHING else
      var last := events[|events| - 1];
      Plus(SumKept(events[..|events| - 1], kind), if last.kind == kind && RowOf(last).Some? then last.total else NOTHING)
  }

  ghost function SumRows(totals: map<Row, Total>, rows: set<Row>): Total
    requires rows <= totals.Keys
  {
    if rows == {} then NOTHING else
      var row :| row in rows;
      Plus(SumRows(totals, rows - {row}), totals[row])
  }

  lemma PlusSwap(a: Total, b: Total, c: Total)
    ensures Plus(Plus(a, b), c) == Plus(Plus(a, c), b)
  {
  }

  lemma {:induction false} SumRowsAny(totals: map<Row, Total>, rows: set<Row>, row: Row)
    requires rows <= totals.Keys && row in rows
    ensures SumRows(totals, rows) == Plus(SumRows(totals, rows - {row}), totals[row])
    decreases |rows|
  {
    var first :| first in rows && SumRows(totals, rows) == Plus(SumRows(totals, rows - {first}), totals[first]);
    if first != row {
      SumRowsAny(totals, rows - {first}, row);
      SumRowsAny(totals, rows - {row}, first);
      assert rows - {first} - {row} == rows - {row} - {first};
      PlusSwap(SumRows(totals, rows - {first} - {row}), totals[row], totals[first]);
    }
  }

  lemma {:induction false} SumRowsSame(a: map<Row, Total>, b: map<Row, Total>, rows: set<Row>)
    requires rows <= a.Keys && rows <= b.Keys && forall row :: row in rows ==> a[row] == b[row]
    ensures SumRows(a, rows) == SumRows(b, rows)
    decreases |rows|
  {
    if rows != {} {
      var row :| row in rows;
      SumRowsSame(a, b, rows - {row});
      SumRowsAny(a, rows, row);
      SumRowsAny(b, rows, row);
    }
  }

  function RowsOf(totals: map<Row, Total>, kind: Kind): set<Row> { set row | row in totals && row.kind == kind }

  lemma AddToRow(totals: map<Row, Total>, row: Row, more: Total)
    ensures var after := totals[row := Plus(TotalAt(totals, row), more)];
      SumRows(after, RowsOf(after, row.kind)) == Plus(SumRows(totals, RowsOf(totals, row.kind)), more)
  {
    var after := totals[row := Plus(TotalAt(totals, row), more)];
    var others := RowsOf(totals, row.kind) - {row};
    assert RowsOf(after, row.kind) - {row} == others;
    SumRowsAny(after, RowsOf(after, row.kind), row);
    SumRowsSame(totals, after, others);
    if row in totals {
      SumRowsAny(totals, RowsOf(totals, row.kind), row);
    } else {
      assert others == RowsOf(totals, row.kind);
    }
  }

  lemma OtherKindUnchanged(totals: map<Row, Total>, row: Row, more: Total, kind: Kind)
    requires row.kind != kind
    ensures var after := totals[row := more];
      RowsOf(after, kind) == RowsOf(totals, kind) && SumRows(after, RowsOf(after, kind)) == SumRows(totals, RowsOf(totals, kind))
  {
    var after := totals[row := more];
    assert RowsOf(after, kind) == RowsOf(totals, kind);
    SumRowsSame(totals, after, RowsOf(totals, kind));
  }

  /** Per kind, the rows together hold exactly what the buckets that are not dropped hold. */
  lemma {:induction false} NothingLost(events: seq<Event>, kind: Kind)
    ensures var totals := Fold(events).totals; SumRows(totals, RowsOf(totals, kind)) == SumKept(events, kind)
  {
    if events == [] {
      assert RowsOf(map[], kind) == {};
    } else {
      var last, before := events[|events| - 1], Fold(events[..|events| - 1]).totals;
      NothingLost(events[..|events| - 1], kind);
      if RowOf(last).Some? {
        var row := RowOf(last).value;
        if row.kind == kind {
          AddToRow(before, row, last.total);
        } else {
          OtherKindUnchanged(before, row, Plus(TotalAt(before, row), last.total), kind);
        }
      }
    }
  }

  // ----- dropped buckets, failures, percentiles

  /** Exactly the services of the buckets dropped for overflow are recorded. */
  lemma {:induction false} OverflowRecorded(events: seq<Event>, service: string)
    ensures service in Fold(events).overflow <==> exists e :: e in events && Overflows(e) && e.service.value == service
  {
    if events != [] {
      OverflowRecorded(events[..|events| - 1], service);
      Split(events);
    }
  }

  ghost predicate Plausible(events: seq<Event>) {
    forall e :: e in events ==> 0.0 <= e.total.failures <= e.total.calls
  }

  /** Failures never exceed calls, nor do the truncated counts that are reported. */
  lemma {:induction false} FailuresAtMostCalls(events: seq<Event>, row: Row)
    requires Plausible(events)
    ensures var total := TotalAt(Fold(events).totals, row);
      0.0 <= total.failures <= total.calls && total.failures.Floor <= total.calls.Floor
  {
    RowsSum(events, row);
    SumPlausible(events, row);
  }

  lemma {:induction false} SumPlausible(events: seq<Event>, row: Row)
    requires Plausible(events)
    ensures 0.0 <= SumFor(events, row).failures <= SumFor(events, row).calls
  {
    if events != [] {
      Split(events);
      SumPlausible(events[..|events| - 1], row);
    }
  }

  /** Failed destination calls are calls of that destination. */
  lemma CountsArePlausible(destinations: seq<Bucket>, transactions: seq<Bucket>)
    requires forall b :: b in destinations ==> b.calls >= 0.0
    requires forall b :: b in transactions ==> 0.0 <= b.failures <= b.calls
    ensures Plausible(Events(destinations, transactions))
  {
  }

  /** The first transaction bucket of a row. */
  ghost predicate IsFirst(events: seq<Event>, row: Row, k: int) {
    && 0 <= k < |events| && RowOf(events[k]) == Some(row)
    && forall i :: 0 <= i < k ==> RowOf(events[i]) != Some(row)
  }

  /** A transaction row has the percentiles of the first bucket folded into it: they are
      never mixed with those of another one; a destination row has none. */
  lemma {:induction false} FirstPercentilesWin(events: seq<Event>, row: Row)
    ensures row in Fold(events).percentiles <==> row.kind.Transaction? && HasRow(events, row)
    ensures row in Fold(events).percentiles ==>
      exists k :: IsFirst(events, row, k) && Fold(events).percentiles[row] == events[k].percentiles
  {
    if events != [] {
      var n := |events| - 1;
      FirstPercentilesWin(events[..n], row);
      Split(events);
      if row in Fold(events[..n]).percentiles {
        var k :| IsFirst(events[..n], row, k) && Fold(events[..n]).percentiles[row] == events[..n][k].percentiles;
        assert forall i :: 0 <= i < n ==> events[..n][i] == events[i];
        assert IsFirst(events, row, k);
      } else if row in Fold(events).percentiles {
        forall i | 0 <= i < n ensures RowOf(events[i]) != Some(row) { assert events[i] in events[..n]; }
        assert IsFirst(events, row, n);
      }
    }
  }
}
