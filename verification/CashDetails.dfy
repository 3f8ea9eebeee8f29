/**
 Source details beside the cash attachment, and the attachment's independence of row
 order (application/ibkr_cash_observations.py).
 */
module CashDetails {
  import opened Wrappers
  import opened Ordering
  import opened CashDecimals
  import opened CashObservations
  import opened Sums

  // ---------- rows may come in any order ----------

  lemma {:induction false} CellsJoin(reader: Reader, a: seq<Row>, b: seq<Row>)
    ensures Cells(reader, a + b) == Cells(reader, a) + Cells(reader, b)
  {
    hide TagCells;
    if b == [] {
      assert a + b == a;
      NoCells(reader);
    } else {
      var front, last := b[..|b| - 1], b[|b| - 1];
      assert b == front + [last] && a + b == (a + front) + [last];
      CellsJoin(reader, a, front);
      CellsSnoc(reader, a + front, last);
      CellsSnoc(reader, front, last);
    }
  }

  lemma {:induction false} CellsPermuted(reader: Reader, a: seq<Row>, b: seq<Row>)
    requires multiset(a) == multiset(b)
    ensures multiset(Cells(reader, a)) == multiset(Cells(reader, b))
    decreases |a|
  {
    NothingPermuted(a, b);
    if a != [] {
      var front, x, before, after := SplitPermutation(a, b);
      hide Cells;
      CellsPermuted(reader, front, before + after);
      CellsJoin(reader, front, [x]);
      CellsJoin(reader, before, after);
      CellsJoin(reader, before, [x]);
      CellsJoin(reader, before + [x], after);
    }
  }

  lemma {:induction false} MatchingJoin(a: seq<Cell>, b: seq<Cell>, k: Key)
    ensures Matching(a + b, k) == Matching(a, k) + Matching(b, k)
  {
    if b == [] {
      assert a + b == a;
    } else {
      var front, last := b[..|b| - 1], b[|b| - 1];
      assert b == front + [last] && a + b == (a + front) + [last];
      MatchingJoin(a, front, k);
      MatchingSnoc(a + front, last, k);
      MatchingSnoc(front, last, k);
    }
  }

  lemma {:induction false} MatchingPermuted(a: seq<Cell>, b: seq<Cell>, k: Key)
    requires multiset(a) == multiset(b)
    ensures multiset(Matching(a, k)) == multiset(Matching(b, k))
    decreases |a|
  {
    NothingPermuted(a, b);
    if a != [] {
      var front, x, before, after := SplitPermutation(a, b);
      hide Matching;
      MatchingPermuted(front, before + after, k);
      MatchingJoin(front, [x], k);
      MatchingJoin(before, after, k);
      MatchingJoin(before, [x], k);
      MatchingJoin(before + [x], after, k);
    }
  }

  lemma SameStates(parse: Parser, a: seq<Cell>, b: seq<Cell>, k: Key)
    requires multiset(a) == multiset(b)
    ensures StateOf(parse, Matching(a, k)) == StateOf(parse, Matching(b, k))
    ensures StateOf(parse, Matching(a, k)) == Observed ==> Matching(a, k) == Matching(b, k)
  {
    MatchingPermuted(a, b, k);
    hide Matching, DecText;
    var m, n := Matching(a, k), Matching(b, k);
    NothingPermuted(m, n);
    if |m| == 1 {
      assert m[0] in multiset(n);
      assert n == [m[0]] && m == [m[0]];
    }
  }

  /** The attachment is a function of which rows there are, not of their order. */
  lemma RowOrderDoesNotMatter(reader: Reader, rows: seq<Row>, others: seq<Row>, observedAt: string, a: Attachment,
                              b: Attachment)
    requires multiset(rows) == multiset(others)
    requires IsBuilt(reader.parse, Cells(reader, rows), observedAt, a)
    requires IsBuilt(reader.parse, Cells(reader, others), observedAt, b)
    ensures a == b
  {
    var cs, ds := Cells(reader, rows), Cells(reader, others);
    CellsPermuted(reader, rows, others);
    hide Cells, Matching, StateOf, DecText, Sorted;
    forall e ensures e in a.values <==> e in b.values {
      SameStates(reader.parse, cs, ds, e.0);
      assert IsValue(reader.parse, cs, e) <==> IsValue(reader.parse, ds, e);
    }
    forall k ensures k in a.invalidFields <==> k in b.invalidFields {
      SameStates(reader.parse, cs, ds, k);
      assert IsInvalid(reader.parse, cs, k) <==> IsInvalid(reader.parse, ds, k);
    }
    SortedIsUnique(KeyOfValue(), a.values, b.values);
    SortedIsUnique(Itself(), a.invalidFields, b.invalidFields);
  }

  // ---------- source details ----------

  datatype DetailAttachment = DetailAttachment(observedAt: string, fields: seq<(Key, Details)>)

  predicate FromCache(details: Option<Details>) { details.Some? && details.value.sourceMethod == CACHE }

  ghost predicate DetailFact(parse: Parser, cells: seq<Cell>, details: map<Key, Details>, invalid: set<Key>,
                             seen: set<Key>, k: Key)
  {
    var m := Matching(cells, k);
    && (k in seen <==> m != [])
    && (k in invalid <==> StateOf(parse, m) == Invalid)
    && (k in details <==> StateOf(parse, m) == Observed && FromCache(m[0].details))
    && (k in details ==> m[0].details == Some(details[k]))
  }

  ghost predicate DetailedSoFar(parse: Parser, cells: seq<Cell>, details: map<Key, Details>, invalid: set<Key>,
                                seen: set<Key>)
  {
    forall k :: DetailFact(parse, cells, details, invalid, seen, k)
  }

  function DetailsAfter(parse: Parser, details: map<Key, Details>, invalid: set<Key>, seen: set<Key>,
                        cell: Cell): map<Key, Details>
  {
    if cell.key in seen || DecText(parse, cell.raw).None? then details - {cell.key}
    else if cell.key !in invalid && FromCache(cell.details) then details[cell.key := cell.details.value]
    else details
  }

  lemma DetailOne(parse: Parser, cells: seq<Cell>, details: map<Key, Details>, invalid: set<Key>, seen: set<Key>,
                  cell: Cell)
    requires DetailedSoFar(parse, cells, details, invalid, seen)
    ensures DetailedSoFar(parse, cells + [cell], DetailsAfter(parse, details, invalid, seen, cell),
                          InvalidAfter(parse, invalid, seen, cell), seen + {cell.key})
  {
    hide DecText, Matching;
    assert DetailFact(parse, cells, details, invalid, seen, cell.key);
    forall k ensures DetailFact(parse, cells + [cell], DetailsAfter(parse, details, invalid, seen, cell),
                                InvalidAfter(parse, invalid, seen, cell), seen + {cell.key}, k) {
      assert DetailFact(parse, cells, details, invalid, seen, k);
      MatchingSnoc(cells, cell, k);
    }
  }

  lemma NothingDetailed(parse: Parser)
    ensures DetailedSoFar(parse, [], map[], {}, {})
  {
    forall k ensures DetailFact(parse, [], map[], {}, {}, k) {
    }
  }

  function KeyOfDetail(): ((Key, Details)) -> Key { (e: (Key, Details)) => e.0 }

  /** An observed cell read from the account-values cache, with its details. */
  ghost predicate IsDetail(parse: Parser, cells: seq<Cell>, e: (Key, Details)) {
    var m := Matching(cells, e.0);
    StateOf(parse, m) == Observed && FromCache(m[0].details) && m[0].details == Some(e.1)
  }

  ghost predicate IsDetailed(parse: Parser, cells: seq<Cell>, observedAt: string, d: DetailAttachment) {
    && d.observedAt == observedAt && Sorted(KeyOfDetail(), d.fields)
    && forall e :: e in d.fields <==> IsDetail(parse, cells, e)
  }

  method BuildCashSourceDetails(reader: Reader, rows: seq<Row>, observedAt: string)
    returns (r: Option<DetailAttachment>)
    ensures r.Some? ==> IsDetailed(reader.parse, Cells(reader, rows), observedAt, r.value) && r.value.fields != []
    ensures r.None? ==> forall e :: !IsDetail(reader.parse, Cells(reader, rows), e)
  {
    hide *;
    var details: map<Key, Details> := map[];
    var invalid: set<Key> := {};
    var seen: set<Key> := {};
    NothingDetailed(reader.parse);
    NoCells(reader);
    assert rows[..0] == [];
    var i := 0;
    while i < |rows|
      invariant 0 <= i <= |rows|
      invariant DetailedSoFar(reader.parse, Cells(reader, rows[..i]), details, invalid, seen)
    {
      assert rows[..i + 1] == rows[..i] + [rows[i]];
      CellsSnoc(reader, rows[..i], rows[i]);
      details, invalid, seen := DetailRow(reader, rows[i], Cells(reader, rows[..i]), details, invalid, seen);
      i := i + 1;
    }
    assert rows[..|rows|] == rows;
    DetailsAre(reader.parse, Cells(reader, rows), details, invalid, seen);
    if details == map[] {
      r := None;
    } else {
      UniqueDetailKeys(details);
      var fields := InOrder(KeyOfDetail(), details.Items);
      SomeDetail(details);
      r := Some(DetailAttachment(observedAt, fields));
      DetailedByDefinition(reader.parse, Cells(reader, rows), observedAt, r.value);
    }
  }

  lemma SomeDetail(details: map<Key, Details>)
    requires details != map[]
    ensures exists e :: e in details.Items
  {
    var k :| k in details;
    assert (k, details[k]) in details.Items;
  }

  lemma DetailedByDefinition(parse: Parser, cells: seq<Cell>, observedAt: string, d: DetailAttachment)
    requires d.observedAt == observedAt && Sorted(KeyOfDetail(), d.fields)
    requires forall e :: e in d.fields <==> IsDetail(parse, cells, e)
    ensures IsDetailed(parse, cells, observedAt, d)
  {
  }

  lemma UniqueDetailKeys(details: map<Key, Details>)
    ensures forall x, y :: x in details.Items && y in details.Items && KeyOfDetail()(x) == KeyOfDetail()(y) ==> x == y
  {
  }

  lemma DetailsAre(parse: Parser, cells: seq<Cell>, details: map<Key, Details>, invalid: set<Key>, seen: set<Key>)
    requires DetailedSoFar(parse, cells, details, invalid, seen)
    ensures forall e :: e in details.Items <==> IsDetail(parse, cells, e)
    ensures details == map[] ==> forall e :: !IsDetail(parse, cells, e)
  {
    hide DecText, Matching, StateOf, FromCache;
    forall e ensures e in details.Items <==> IsDetail(parse, cells, e) {
      assert DetailFact(parse, cells, details, invalid, seen, e.0);
      assert e in details.Items <==> e.0 in details && details[e.0] == e.1;
    }
  }

  method DetailRow(reader: Reader, row: Row, ghost done: seq<Cell>, details0: map<Key, Details>, invalid0: set<Key>,
                   seen0: set<Key>)
    returns (details: map<Key, Details>, invalid: set<Key>, seen: set<Key>)
    requires DetailedSoFar(reader.parse, done, details0, invalid0, seen0)
    ensures DetailedSoFar(reader.parse, done + TagCells(reader, row, |TAGS|), details, invalid, seen)
  {
    hide *;
    details, invalid, seen := details0, invalid0, seen0;
    NoTags(reader, row);
    assert done + [] == done;
    var j := 0;
    while j < |TAGS|
      invariant 0 <= j <= |TAGS|
      invariant DetailedSoFar(reader.parse, done + TagCells(reader, row, j), details, invalid, seen)
    {
      TagStep(reader, row, j);
      if TAGS[j] in row.cells {
        var key := (Clean(reader, row.currency), TAGS[j]);
        ghost var cell := Cell(key, row.cells[TAGS[j]], Complete(row.details));
        Gather(done, TagCells(reader, row, j), cell);
        DetailOne(reader.parse, done + TagCells(reader, row, j), details, invalid, seen, cell);
        AfterDetail(reader.parse, details, invalid, seen, cell);
        if key in seen || DecText(reader.parse, row.cells[TAGS[j]]).None? {
          invalid := invalid + {key};
          details := details - {key};
        } else if key !in invalid && FromCache(Complete(row.details)) {
          details := details[key := DetailsOrBlank(Complete(row.details))];
        }
        seen := seen + {key};
      }
      j := j + 1;
    }
  }

  function DetailsOrBlank(details: Option<Details>): Details {
    if details.Some? then details.value else Details("", "", "", "")
  }

  lemma AfterDetail(parse: Parser, details: map<Key, Details>, invalid: set<Key>, seen: set<Key>, cell: Cell)
    ensures var text, k := DecText(parse, cell.raw), cell.key;
            && DetailsAfter(parse, details, invalid, seen, cell)
               == (if k in seen || text.None? then details - {k}
                   else if k !in invalid && FromCache(cell.details) then details[k := DetailsOrBlank(cell.details)]
                   else details)
            && InvalidAfter(parse, invalid, seen, cell) == (if k in seen || text.None? then invalid + {k} else invalid)
  {
  }

  // ---------- inspection of details ----------

  datatype DetailStatus = DetailsNotReported | DetailsRejected | ObservedDetails

  predicate DetailsOk(d: Details) {
    && d.sourceMethod in {CACHE, UNSPECIFIED} && d.modelScope in {"no_model_code", "model_specific", "unknown"}
    && d.representation in {"native_text", "non_text"} && d.segmentKey == "unsuffixed"
  }

  ghost predicate DetailRowsOk(fields: seq<(Key, Details)>, allowed: set<Key>) {
    && (forall i :: 0 <= i < |fields| ==> DetailsOk(fields[i].1) && fields[i].0 in allowed)
    && forall i, j :: 0 <= i < j < |fields| ==> fields[i].0 != fields[j].0
  }

  function AllowedKeys(a: Attachment): set<Key> { set e | e in a.values :: e.0 }

  ghost predicate DetailsPass(parse: Parser, d: DetailAttachment, cash: Option<Attachment>, observedAt: string,
                              currency: string, selected: Option<Selected>)
  {
    && d.observedAt == observedAt && cash.Some? && InspectionPasses(parse, cash.value, observedAt, currency, selected)
    && DetailRowsOk(d.fields, AllowedKeys(cash.value))
  }

  ghost predicate DetailsSay(fields: seq<(Key, Details)>, currency: string, shown: map<string, Details>) {
    forall tag, d :: (tag in shown && shown[tag] == d) <==> ((currency, tag), d) in fields
  }

  method InspectCashSourceDetails(parse: Parser, value: Option<DetailAttachment>, cash: Option<Attachment>,
                                  observedAt: string,
                                  currency: string, selected: Option<Selected>)
    returns (status: DetailStatus, shown: map<string, Details>)
    ensures status == DetailsNotReported <==> value.None?
    ensures status == ObservedDetails <==>
              value.Some? && DetailsPass(parse, value.value, cash, observedAt, currency, selected)
    ensures if status == ObservedDetails then DetailsSay(value.value.fields, currency, shown) else shown == map[]
  {
    hide InspectionPasses, DetailRowsOk, DetailsSay;
    if value.None? { return DetailsNotReported, map[]; }
    var cashStatus, _ := InspectCashObservations(parse, cash, observedAt, currency, selected);
    if value.value.observedAt != observedAt || cashStatus != ObservedFieldsOnly { return DetailsRejected, map[]; }
    var ok, scanned := ScanDetails(value.value.fields, AllowedKeys(cash.value), currency);
    if !ok { return DetailsRejected, map[]; }
    return ObservedDetails, scanned;
  }

  ghost predicate Holds(fields: seq<(Key, Details)>, details: map<Key, Details>) {
    forall e :: e in details.Items <==> e in fields
  }

  lemma HoldOne(fields: seq<(Key, Details)>, allowed: set<Key>, details: map<Key, Details>, e: (Key, Details))
    requires DetailRowsOk(fields, allowed) && Holds(fields, details)
    ensures DetailRowsOk(fields + [e], allowed) <==> DetailsOk(e.1) && e.0 in allowed && e.0 !in details
    ensures e.0 !in details ==> Holds(fields + [e], details[e.0 := e.1])
  {
    hide DetailsOk;
    var all := fields + [e];
    assert all[|fields|] == e;
    if e.0 in details {
      assert (e.0, details[e.0]) in details.Items;
      var i :| 0 <= i < |fields| && fields[i] == (e.0, details[e.0]);
      assert all[i].0 == all[|fields|].0;
    } else {
      forall i | 0 <= i < |fields| ensures fields[i].0 != e.0 {
        assert fields[i] in fields && fields[i] in details.Items;
      }
      HoldsUpdated(fields, details, e);
    }
  }

  lemma HoldsUpdated(fields: seq<(Key, Details)>, details: map<Key, Details>, e: (Key, Details))
    requires Holds(fields, details) && e.0 !in details
    ensures Holds(fields + [e], details[e.0 := e.1])
  {
    var details' := details[e.0 := e.1];
    forall x ensures x in details'.Items <==> x in fields + [e] {
      assert x in details'.Items <==> x.0 in details' && details'[x.0] == x.1;
      assert x in details.Items <==> x.0 in details && details[x.0] == x.1;
    }
  }

  lemma BadDetailPrefix(fields: seq<(Key, Details)>, allowed: set<Key>, n: nat)
    requires n <= |fields| && !DetailRowsOk(fields[..n], allowed)
    ensures !DetailRowsOk(fields, allowed)
  {
    hide DetailsOk;
  }

  lemma NothingHeld(allowed: set<Key>)
    ensures DetailRowsOk([], allowed) && Holds([], map[])
  {
  }

  function Shown(details: map<Key, Details>, currency: string): map<string, Details> {
    map k | k in details && k.0 == currency :: k.1 := details[k]
  }

  lemma ShownSays(fields: seq<(Key, Details)>, details: map<Key, Details>, currency: string)
    requires Holds(fields, details)
    ensures DetailsSay(fields, currency, Shown(details, currency))
  {
    var shown := Shown(details, currency);
    forall tag, d ensures (tag in shown && shown[tag] == d) <==> ((currency, tag), d) in fields {
      assert ((currency, tag), d) in details.Items <==> (currency, tag) in details && details[(currency, tag)] == d;
    }
  }

  method ScanDetails(fields: seq<(Key, Details)>, allowed: set<Key>, currency: string)
    returns (ok: bool, shown: map<string, Details>)
    ensures ok <==> DetailRowsOk(fields, allowed)
    ensures ok ==> DetailsSay(fields, currency, shown)
  {
    hide *;
    var details: map<Key, Details> := map[];
    NothingHeld(allowed);
    assert fields[..0] == [];
    var i := 0;
    while i < |fields|
      invariant 0 <= i <= |fields| && DetailRowsOk(fields[..i], allowed) && Holds(fields[..i], details)
    {
      assert fields[..i + 1] == fields[..i] + [fields[i]];
      HoldOne(fields[..i], allowed, details, fields[i]);
      if !DetailsOk(fields[i].1) || fields[i].0 !in allowed || fields[i].0 in details {
        BadDetailPrefix(fields, allowed, i + 1);
        return false, map[];
      }
      details := details[fields[i].0 := fields[i].1];
      i := i + 1;
    }
    assert fields[..|fields|] == fields;
    ShownSays(fields, details, currency);
    ok := true;
    shown := Shown(details, currency);
  }
}
