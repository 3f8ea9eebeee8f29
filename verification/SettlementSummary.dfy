/**
 The reporting summary of the settlement store, and the receipt classifier of
 application/execution_receipt_adapter.py that reads it.
 */
module SettlementSummaries {
  import opened Wrappers
  import opened SettlementLog
  import opened SettlementScans
  import opened SettlementStores

  datatype RowStatus = RowUnknown | RowFilled | RowCancelled | RowRejected

  datatype Row = Row(
    attemptId: Attempt, symbol: string, side: Side, quantity: real, sourceRunId: string,
    brokerOrderId: Option<string>, filledQuantity: Option<real>, averageFillPrice: Option<real>,
    remaining: Option<real>, commission: Option<real>, lastUpdate: Option<string>, fills: seq<Fill>,
    submittedAt: Moment, sourceStartedAt: string,
    confirmedTerminal: bool, sequence: nat, brokerStatus: Status, status: RowStatus)

  /** The lists of option orders are part of the report and always empty. */
  datatype Summary = Summary(
    submitted: seq<Row>, filled: seq<Row>, partiallyFilled: seq<Row>,
    rejectedOrCancelled: seq<Row>, pending: seq<Row>,
    optionFilled: seq<Row>, optionPending: seq<Row>, optionPartiallyFilled: seq<Row>,
    executionStatus: string, reconciliationRequired: bool)

  const RECONCILING := "pending_reconciliation"
  const COMPLETED := "completed"

  datatype Bucket = InFilled | InPartial | InClosed | InPending

  /** The outcome a record stands at: its last observation, or an unknown one. */
  function Standing(r: Record): Outcome {
    match LastSeen(r)
    case Some(o) => o
    case None => Outcome(r.orderId, Unknown, None, None, None, None, None, false, [])
  }

  function RowOf(r: Record): Row {
    var o := Standing(r);
    Row(r.order.attemptId, r.order.symbol, r.order.side, r.order.quantity, r.order.sourceRunId,
        r.orderId, o.filled, o.averagePrice, o.remaining, o.commission, o.lastUpdate, o.fills,
        r.order.submittedAt, r.order.sourceStartedAt,
        o.terminal, |r.observations|, o.status,
        if !o.terminal then RowUnknown
        else if o.status == Filled then RowFilled
        else if o.status == Cancelled then RowCancelled
        else RowRejected)
  }

  predicate InBucket(row: Row, b: Bucket) {
    match b
    case InPending => !row.confirmedTerminal
    case InFilled => row.confirmedTerminal && row.brokerStatus == Filled
    case InClosed => row.confirmedTerminal && row.brokerStatus != Filled
    case InPartial =>
      row.confirmedTerminal && row.brokerStatus != Filled && row.filledQuantity.Some? && row.filledQuantity.value > 0.0
  }

  function Keep(rows: seq<Row>, b: Bucket): seq<Row> {
    if rows == [] then []
    else Keep(rows[..|rows| - 1], b) + (if InBucket(rows[|rows| - 1], b) then [rows[|rows| - 1]] else [])
  }

  /** A scan has checked the outcome the record stands at. */
  predicate Checked(r: Record) {
    LastSeen(r).Some? ==> ValidateOutcome(r.orderId, r.order.quantity, LastSeen(r).value) == None
  }

  /** What the summary reads off a terminal outcome is there to be read. */
  predicate Tellable(r: Record) {
    Standing(r).terminal ==> Standing(r).filled.Some? && TerminalStatus(Standing(r).status)
  }

  lemma CheckedIsTellable(r: Record)
    requires Checked(r)
    ensures Tellable(r)
  {
  }

  ghost predicate SummarisesRecords(s: Summary, records: seq<Record>) {
    && |s.submitted| == |records|
    && (forall i :: 0 <= i < |records| ==> s.submitted[i] == RowOf(records[i]))
    && s.filled == Keep(s.submitted, InFilled)
    && s.partiallyFilled == Keep(s.submitted, InPartial)
    && s.rejectedOrCancelled == Keep(s.submitted, InClosed)
    && s.pending == Keep(s.submitted, InPending)
    && s.optionFilled == [] && s.optionPending == [] && s.optionPartiallyFilled == []
    && s.executionStatus == (if s.reconciliationRequired then RECONCILING else COMPLETED)
    && (s.reconciliationRequired <==> exists i :: 0 <= i < |records| && !IsTerminal(records[i]))
  }

  lemma KeepAppends(rows: seq<Row>, row: Row)
    ensures forall b :: Keep(rows + [row], b) == Keep(rows, b) + (if InBucket(row, b) then [row] else [])
  {
    assert (rows + [row])[..|rows + [row]| - 1] == rows;
  }

  /** The lists after the rows of these records. */
  ghost predicate Listing(records: seq<Record>, submitted: seq<Row>, filled: seq<Row>, partial: seq<Row>,
                          closed: seq<Row>, pending: seq<Row>)
  {
    && |submitted| == |records| && (forall k :: 0 <= k < |records| ==> submitted[k] == RowOf(records[k]))
    && filled == Keep(submitted, InFilled) && partial == Keep(submitted, InPartial)
    && closed == Keep(submitted, InClosed) && pending == Keep(submitted, InPending)
    && (pending != [] <==> exists k :: 0 <= k < |records| && !IsTerminal(records[k]))
  }

  function Listed(list: seq<Row>, row: Row, b: Bucket): seq<Row> { if InBucket(row, b) then list + [row] else list }

  lemma ListOneMore(records: seq<Record>, r: Record, submitted: seq<Row>, filled: seq<Row>, partial: seq<Row>,
                    closed: seq<Row>, pending: seq<Row>)
    requires Listing(records, submitted, filled, partial, closed, pending)
    ensures var row := RowOf(r);
            Listing(records + [r], submitted + [row], Listed(filled, row, InFilled), Listed(partial, row, InPartial),
                    Listed(closed, row, InClosed), Listed(pending, row, InPending))
  {
    var row := RowOf(r);
    KeepAppends(submitted, row);
    RowIsPending(r);
    hide RowOf, Keep, InBucket, IsTerminal;
    var all := records + [r];
    assert all[|records|] == r;
    if k :| 0 <= k < |records| && !IsTerminal(records[k]) { assert all[k] == records[k]; }
  }

  lemma RowIsPending(r: Record)
    ensures InBucket(RowOf(r), InPending) <==> !IsTerminal(r)
  {
  }

  /** Where a record's row goes, as the loop decides it. */
  lemma RowGoes(r: Record)
    requires Tellable(r)
    ensures var o, row := Standing(r), RowOf(r);
            && (InBucket(row, InPending) <==> !o.terminal)
            && (InBucket(row, InFilled) <==> o.terminal && o.status == Filled)
            && (InBucket(row, InClosed) <==> o.terminal && o.status != Filled)
            && (InBucket(row, InPartial) <==> o.terminal && o.status != Filled && o.filled.value > 0.0)
  {
  }

  method Summarise(records: seq<Record>) returns (s: Summary)
    requires forall i :: 0 <= i < |records| ==> Tellable(records[i])
    ensures SummarisesRecords(s, records)
  {
    var submitted: seq<Row>, filled: seq<Row>, partial: seq<Row> := [], [], [];
    var closed: seq<Row>, pending: seq<Row> := [], [];
    assert records[..0] == [];
    var i := 0;
    while i < |records|
      invariant 0 <= i <= |records| && Listing(records[..i], submitted, filled, partial, closed, pending)
    {
      var r := records[i];
      var row := RowOf(r);
      RowGoes(r);
      hide Listing, RowOf, Standing, InBucket, Tellable;
      assert records[..i + 1] == records[..i] + [r];
      ListOneMore(records[..i], r, submitted, filled, partial, closed, pending);
      submitted := submitted + [row];
      var o := Standing(r);
      if o.terminal {
        if o.status == Filled {
          filled := filled + [row];
        } else {
          closed := closed + [row];
          if o.filled.value > 0.0 { partial := partial + [row]; }
        }
      } else {
        pending := pending + [row];
      }
      i := i + 1;
    }
    assert records[..|records|] == records;
    s := Summary(submitted, filled, partial, closed, pending, [], [], [],
                 if pending != [] then RECONCILING else COMPLETED, pending != []);
  }

  /** The receipt classifier's test of one row. */
  predicate RowConfirmed(row: Row, partial: bool) {
    && row.brokerOrderId.Some? && row.brokerOrderId.value != ""
    && row.filledQuantity.Some? && row.averageFillPrice.Some?
    && row.quantity > 0.0 && row.filledQuantity.value > 0.0 && row.averageFillPrice.value > 0.0
    && row.filledQuantity.value <= row.quantity
    && if partial
       then row.confirmedTerminal && row.status == RowCancelled && row.filledQuantity.value < row.quantity
       else row.status == RowFilled && row.filledQuantity.value == row.quantity
  }

  /** Exactly which rows pass the classifier's test. */
  lemma RowIsConfirmedExactly(row: Row, partial: bool)
    ensures RowConfirmed(row, partial) <==>
              && row.brokerOrderId.Some? && row.brokerOrderId.value != ""
              && row.filledQuantity.Some? && row.averageFillPrice.Some?
              && 0.0 < row.filledQuantity.value <= row.quantity && row.averageFillPrice.value > 0.0
              && (partial ==> row.confirmedTerminal && row.status == RowCancelled
                              && row.filledQuantity.value < row.quantity)
              && (!partial ==> row.status == RowFilled && row.filledQuantity.value == row.quantity)
  {
  }

  /** Fills are confirmed only when there are rows and every one of them passes. */
  method ConfirmedFills(rows: seq<Row>, partial: bool) returns (confirmed: bool)
    ensures confirmed <==> rows != [] && forall i :: 0 <= i < |rows| ==> RowConfirmed(rows[i], partial)
  {
    hide RowConfirmed;
    if rows == [] { return false; }
    for i := 0 to |rows|
      invariant forall k :: 0 <= k < i ==> RowConfirmed(rows[k], partial)
    {
      var row := rows[i];
      RowIsConfirmedExactly(row, partial);
      if row.brokerOrderId.None? || row.brokerOrderId.value == "" { return false; }
      if row.filledQuantity.None? || row.averageFillPrice.None? { return false; }
      var requested, filled, price := row.quantity, row.filledQuantity.value, row.averageFillPrice.value;
      if requested <= 0.0 || filled <= 0.0 || price <= 0.0 || filled > requested { return false; }
      if partial {
        if !row.confirmedTerminal || row.status != RowCancelled || filled >= requested { return false; }
      } else if row.status != RowFilled || filled != requested {
        return false;
      }
    }
    return true;
  }

  /** A list holds each row exactly as often as the submitted rows do, or not at all. */
  lemma {:induction false} KeepCounts(rows: seq<Row>, b: Bucket, x: Row)
    ensures multiset(Keep(rows, b))[x] == if InBucket(x, b) then multiset(rows)[x] else 0
  {
    hide InBucket;
    if rows != [] {
      var front, row := rows[..|rows| - 1], rows[|rows| - 1];
      KeepCounts(front, b, x);
      assert rows == front + [row];
      KeepAppends(front, row);
    }
  }

  /** Pending, filled and rejected-or-cancelled divide the submitted rows; partial rows are closed rows. */
  lemma BucketsDivideTheRows(rows: seq<Row>, x: Row)
    ensures multiset(rows)[x] == multiset(Keep(rows, InPending))[x] + multiset(Keep(rows, InFilled))[x]
                                 + multiset(Keep(rows, InClosed))[x]
    ensures multiset(Keep(rows, InPartial))[x] <= multiset(Keep(rows, InClosed))[x]
  {
    KeepCounts(rows, InPending, x);
    KeepCounts(rows, InFilled, x);
    KeepCounts(rows, InClosed, x);
    KeepCounts(rows, InPartial, x);
  }

  /** A record scanned from any part of a reachable store has passed the outcome check under its own order id. */
  lemma ScannedRecordIsSound(profile: string, s: State, v: Store, a: Attempt, r: Record)
    requires Reachable(profile, s) && SubStore(v, s.store) && ScanOk(profile, v) && RecordMatches(v, a, r)
    ensures Checked(r) && FieldsOk(r.order)
    ensures r.orderId.Some? ==> OrderIdOk(r.orderId.value)
    ensures r.observations != [] ==> LastSeen(r).value.orderId == r.orderId
  {
    ReachableInv(profile, s);
    InvHasWellFormed(profile, s);
    hide Inv, FieldsOk, OrderIdOk, AttemptOk;
    var n := |r.observations|;
    if n > 0 {
      assert At(r.observations, n) == v.observed[(a, n)].outcome;
      assert EntryOk(v, (a, n).0, (a, n).1);
    }
  }

  /**
   In every summary of a store that the steps wrote: a row is in exactly one of pending,
   filled and closed, partial rows are closed rows; the receipt accepts exactly the filled
   rows that name a broker order, and a partial row exactly when it names one and its fill
   is below its quantity.
   */
  lemma ReceiptsAgreeWithBuckets(profile: string, s: State, v: Store, a: Attempt, r: Record)
    requires Reachable(profile, s) && SubStore(v, s.store) && ScanOk(profile, v) && RecordMatches(v, a, r)
    ensures var row := RowOf(r);
            && (InBucket(row, InPending) <==> !InBucket(row, InFilled) && !InBucket(row, InClosed))
            && !(InBucket(row, InFilled) && InBucket(row, InClosed))
            && (InBucket(row, InPartial) ==> InBucket(row, InClosed))
            && (RowConfirmed(row, false) <==> InBucket(row, InFilled) && row.brokerOrderId.Some?)
            && (InBucket(row, InPartial) ==>
                  (RowConfirmed(row, true) <==> row.brokerOrderId.Some? && row.filledQuantity.value < row.quantity))
  {
    ScannedRecordIsSound(profile, s, v, a, r);
    hide ScanOk, SubStore, RecordMatches, Reachable, SymbolOk;
    if r.orderId.Some? { IdIsNotEmpty(r.orderId.value); }
    hide OrderIdOk;
  }

  lemma IdIsNotEmpty(id: string)
    requires OrderIdOk(id)
    ensures id != ""
  {
  }

  /**
   When every outcome names its order, every settled row names its broker order, so
   the receipt accepts every filled row, and a partial row exactly when its fill is below
   its quantity.
   */
  lemma OrderlyReceiptsAgree(profile: string, steps: seq<Step>, v: Store, a: Attempt, r: Record)
    requires forall i :: 0 <= i < |steps| ==> Orderly(StateAt(profile, steps, i), steps[i])
    requires SubStore(v, After(profile, INITIAL, steps).store) && ScanOk(profile, v) && RecordMatches(v, a, r)
    ensures var row := RowOf(r);
            && (InBucket(row, InFilled) <==> RowConfirmed(row, false))
            && (InBucket(row, InPartial) ==> (RowConfirmed(row, true) <==> row.filledQuantity.value < row.quantity))
  {
    var s := After(profile, INITIAL, steps);
    OrderlyRunsNeverRaise(profile, steps);
    assert Reachable(profile, s);
    ReceiptsAgreeWithBuckets(profile, s, v, a, r);
    ScannedRecordIsSound(profile, s, v, a, r);
    hide Reachable, ScanOk, Orderly, After, RowConfirmed;
    var n := |r.observations|;
    if n > 0 { assert At(r.observations, n) == v.observed[(a, n)].outcome; }
  }

  // ---------- exactly what a row says ----------

  /** A row repeats the order, the broker's id and, figure by figure, the last observation. */
  lemma RowIsExact(r: Record)
    ensures var row, n := RowOf(r), |r.observations|;
            && row.attemptId == r.order.attemptId && row.symbol == r.order.symbol && row.side == r.order.side
            && row.quantity == r.order.quantity && row.sourceRunId == r.order.sourceRunId
            && row.submittedAt == r.order.submittedAt && row.sourceStartedAt == r.order.sourceStartedAt
            && row.brokerOrderId == r.orderId && row.sequence == n
            && (n > 0 ==>
                  var o := r.observations[n - 1];
                  && row.brokerStatus == o.status && row.filledQuantity == o.filled && row.remaining == o.remaining
                  && row.averageFillPrice == o.averagePrice && row.commission == o.commission
                  && row.lastUpdate == o.lastUpdate && row.confirmedTerminal == o.terminal && row.fills == o.fills)
            && (n == 0 ==>
                  && row.brokerStatus == Unknown && !row.confirmedTerminal && row.fills == []
                  && {row.filledQuantity, row.remaining, row.averageFillPrice, row.commission} == {None}
                  && row.lastUpdate == None)
  {
  }

  /** Where the row of a checked record goes and what it is called, by its last observation. */
  lemma PlaceIsExact(r: Record)
    requires Checked(r) && r.observations != []
    ensures var row, o := RowOf(r), r.observations[|r.observations| - 1];
            && (InBucket(row, InPending) <==> !o.terminal)
            && (InBucket(row, InFilled) <==> o.terminal && o.status == Filled)
            && (InBucket(row, InClosed) <==> o.terminal && o.status in {Cancelled, Rejected})
            && (InBucket(row, InPartial) <==>
                  o.terminal && o.status in {Cancelled, Rejected} && o.filled.Some? && o.filled.value > 0.0)
            && (row.status == RowUnknown <==> !o.terminal)
            && (row.status == RowFilled <==> o.terminal && o.status == Filled)
            && (row.status == RowCancelled <==> o.terminal && o.status == Cancelled)
            && (row.status == RowRejected <==> o.terminal && o.status == Rejected)
  {
    CheckedIsTellable(r);
    hide ValidateOutcome;
  }

  lemma UnobservedIsPending(r: Record)
    requires r.observations == []
    ensures RowOf(r).status == RowUnknown && forall b :: InBucket(RowOf(r), b) <==> b == InPending
  {
  }

  // ---------- the row of a settled attempt ----------

  lemma SettledRecord(profile: string, w: Store, v: Store, a: Attempt, n: nat, r: Record)
    requires SubStore(v, w) && ScanOk(profile, v) && RecordMatches(v, a, r)
    requires (a, n) in v.observed && n >= 1 && (a, n + 1) !in w.observed
    ensures |r.observations| == n && LastSeen(r) == Some(w.observed[(a, n)].outcome)
    ensures r.orderId == w.observed[(a, n)].outcome.orderId && r.order == w.pending[a]
  {
    assert EntryOk(v, (a, n).0, (a, n).1);
    ScannedIsOrdered(profile, v, a);
    hide ScanOk;
    var m := |r.observations|;
    if m < n { ScannedDense(v, a, m + 1, n); }
    assert At(r.observations, n) == v.observed[(a, n)].outcome;
  }

  /**
   Once an attempt has a terminal observation, its row, and so its place in the summary, is
   the same in every scan that sees the observation, of that store or of any later one.
   */
  lemma SettledRowIsPermanent(profile: string, s: State, steps: seq<Step>, a: Attempt, n: nat,
                              v: Store, r: Record, later: Store, r': Record)
    requires Reachable(profile, s) && (a, n) in s.store.observed && s.store.observed[(a, n)].outcome.terminal
    requires SubStore(v, s.store) && ScanOk(profile, v) && RecordMatches(v, a, r) && (a, n) in v.observed
    requires SubStore(later, After(profile, s, steps).store) && ScanOk(profile, later)
    requires RecordMatches(later, a, r') && (a, n) in later.observed
    ensures RowOf(r) == RowOf(r')
    ensures forall b :: InBucket(RowOf(r), b) <==> InBucket(RowOf(r'), b)
  {
    var t := After(profile, s, steps);
    TerminalEndsTheLog(profile, s, steps, a, n);
    hide ScanOk, RecordMatches, After, Reachable;
    SettledRecord(profile, s.store, v, a, n, r);
    SettledRecord(profile, t.store, later, a, n, r');
    hide *;
    SameRow(r, r');
  }

  lemma SameRow(r: Record, r': Record)
    requires r.order == r'.order && r.orderId == r'.orderId
    requires |r.observations| == |r'.observations| && LastSeen(r) == LastSeen(r')
    ensures RowOf(r) == RowOf(r')
  {
  }

  lemma TerminalEndsTheLog(profile: string, s: State, steps: seq<Step>, a: Attempt, n: nat)
    requires Reachable(profile, s) && (a, n) in s.store.observed && s.store.observed[(a, n)].outcome.terminal
    ensures var t := After(profile, s, steps).store;
            && n >= 1 && a in s.store.pending && a in t.pending && t.pending[a] == s.store.pending[a]
            && (a, n + 1) !in s.store.observed && (a, n + 1) !in t.observed
            && (a, n) in t.observed && t.observed[(a, n)] == s.store.observed[(a, n)]
  {
    TerminalLogIsFinal(profile, s, steps, a, n);
    ReachableInv(profile, s);
    RunKeepsInv(profile, s, steps);
    InvHasWellFormed(profile, s);
    hide Inv, Reachable, After;
    assert StoredFits(s.store, a, n);
    assert (a, n + 1) in s.store.observed ==> StoredFits(s.store, a, n + 1);
  }
}
