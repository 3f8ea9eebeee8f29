/**
 Producer and consumer agree: what capture and build write, inspect accepts, field by field
 (application/ibkr_cash_observations.py).
 */
module CashRoundTrip {
  import opened Wrappers
  import opened Ordering
  import opened DecimalText
  import opened CashDecimals
  import opened CashObservations

  // ---------- where cells come from ----------

  predicate Tagged(row: Row) { exists i :: 0 <= i < |TAGS| && TAGS[i] in row.cells }

  /** A row with a supported tag names three capitals, or the base currency. */
  predicate ProperRow(reader: Reader, row: Row) {
    Tagged(row)
    ==> Clean(reader, row.currency) == BASE || ThreeCapitals(Clean(reader, row.currency))
  }

  lemma {:induction false} TagCellsOf(reader: Reader, row: Row, n: nat, c: Cell)
    requires n <= |TAGS|
    ensures c in TagCells(reader, row, n) <==>
            exists i :: 0 <= i < n && TAGS[i] in row.cells
                        && c == Cell((Clean(reader, row.currency), TAGS[i]), row.cells[TAGS[i]], Complete(row.details))
  {
    if n == 0 {
      NoTags(reader, row);
    } else {
      TagCellsOf(reader, row, n - 1, c);
      TagStep(reader, row, n - 1);
    }
  }

  lemma {:induction false} CellsOf(reader: Reader, rows: seq<Row>, c: Cell)
    ensures c in Cells(reader, rows) <==> exists row :: row in rows && c in TagCells(reader, row, |TAGS|)
  {
    hide TagCells;
    if rows == [] {
      NoCells(reader);
    } else {
      var front, last := rows[..|rows| - 1], rows[|rows| - 1];
      assert rows == front + [last];
      CellsOf(reader, front, c);
      CellsSnoc(reader, front, last);
    }
  }

  ghost predicate CellsTagged(cells: seq<Cell>) { forall c :: c in cells ==> c.key.1 in TAGS }

  ghost predicate CellsProper(cells: seq<Cell>) {
    forall c :: c in cells ==> c.key.0 == BASE || ThreeCapitals(c.key.0)
  }

  lemma CellsAreTagged(reader: Reader, rows: seq<Row>)
    ensures CellsTagged(Cells(reader, rows))
  {
    forall c | c in Cells(reader, rows) ensures c.key.1 in TAGS {
      CellsOf(reader, rows, c);
      var row :| row in rows && c in TagCells(reader, row, |TAGS|);
      TagCellsOf(reader, row, |TAGS|, c);
    }
  }

  lemma ProperRowsHaveProperCells(reader: Reader, rows: seq<Row>)
    ensures CellsProper(Cells(reader, rows)) <==> forall row :: row in rows ==> ProperRow(reader, row)
  {
    hide TagCells, Cells, ThreeCapitals, Clean;
    forall c | c in Cells(reader, rows)
      ensures exists row :: row in rows && c.key.0 == Clean(reader, row.currency) && Tagged(row)
    {
      CellsOf(reader, rows, c);
      var row :| row in rows && c in TagCells(reader, row, |TAGS|);
      TagCellsOf(reader, row, |TAGS|, c);
      assert row in rows;
    }
    forall row | row in rows && Tagged(row)
      ensures exists c :: c in Cells(reader, rows) && c.key.0 == Clean(reader, row.currency)
    {
      var i :| 0 <= i < |TAGS| && TAGS[i] in row.cells;
      var c := Cell((Clean(reader, row.currency), TAGS[i]), row.cells[TAGS[i]], Complete(row.details));
      TagCellsOf(reader, row, |TAGS|, c);
      CellsOf(reader, rows, c);
      assert c in Cells(reader, rows);
    }
  }

  lemma {:induction false} MatchingAre(cells: seq<Cell>, key: Key, c: Cell)
    ensures c in Matching(cells, key) <==> c in cells && c.key == key
  {
    if cells != [] {
      var front, last := cells[..|cells| - 1], cells[|cells| - 1];
      assert cells == front + [last];
      MatchingAre(front, key, c);
      MatchingSnoc(front, last, key);
    }
  }

  // ---------- a built attachment ----------

  lemma ReportsOf(a: Attachment, r: Report)
    ensures r in Reports(a) <==> if r.text.Some? then (r.key, r.text.value) in a.values else r.key in a.invalidFields
  {
    var rs := Reports(a);
    if r.text.Some? {
      if (r.key, r.text.value) in a.values {
        var i :| 0 <= i < |a.values| && a.values[i] == (r.key, r.text.value);
        assert rs[i] == r;
      }
    } else if r.key in a.invalidFields {
      var i :| 0 <= i < |a.invalidFields| && a.invalidFields[i] == r.key;
      assert rs[|a.values| + i] == r;
    }
  }

  /** The state of every key that is not in the base currency is the state its cells give it. */
  lemma BuiltSaysTheState(parse: Parser, cells: seq<Cell>, observedAt: string, a: Attachment, k: Key)
    requires IsBuilt(parse, cells, observedAt, a) && k.0 != BASE
    ensures FieldIn(Reports(a), k) == StateOf(parse, Matching(cells, k))
  {
    hide Reports, DecText, Matching, Sorted;
    var state := StateOf(parse, Matching(cells, k));
    if state == Observed {
      var text := DecText(parse, Matching(cells, k)[0].raw).value;
      assert IsValue(parse, cells, (k, text));
      ReportsOf(a, Report(k, Some(text)));
    }
    if state == Invalid {
      assert IsInvalid(parse, cells, k);
      ReportsOf(a, Report(k, None));
    }
    forall r | r in Reports(a) && r.key == k ensures state == if r.text.Some? then Observed else Invalid {
      ReportsOf(a, r);
      if r.text.Some? { assert IsValue(parse, cells, (k, r.text.value)); } else { assert IsInvalid(parse, cells, k); }
    }
  }

  lemma SortedIsDistinct<T>(key: T -> Key, s: seq<T>)
    requires Sorted(key, s)
    ensures DistinctKeys(key, s)
  {
    hide Before;
    forall i, j | 0 <= i < j < |s| ensures key(s[i]) != key(s[j]) {
      KeysAreOrdered(key(s[i]), key(s[j]));
    }
  }

  lemma BuiltKeysAreDistinct(parse: Parser, cells: seq<Cell>, observedAt: string, a: Attachment)
    requires IsBuilt(parse, cells, observedAt, a)
    ensures DistinctKeys(KeyOfReport(), Reports(a))
  {
    SortedIsDistinct(KeyOfValue(), a.values);
    SortedIsDistinct(Itself(), a.invalidFields);
    hide Sorted, DecText, Matching;
    var rs, n := Reports(a), |a.values|;
    forall i, j | 0 <= i < j < |rs| ensures rs[i].key != rs[j].key {
      if j < n {
        assert KeyOfValue()(a.values[i]) != KeyOfValue()(a.values[j]);
      } else if i >= n {
        assert Itself()(a.invalidFields[i - n]) != Itself()(a.invalidFields[j - n]);
      } else {
        assert a.values[i] in a.values && a.invalidFields[j - n] in a.invalidFields;
        assert IsValue(parse, cells, a.values[i]) && IsInvalid(parse, cells, a.invalidFields[j - n]);
      }
    }
  }

  /** A line of a built attachment passes inspection exactly when its currency is three capitals. */
  lemma BuiltLine(parse: Parser, cells: seq<Cell>, observedAt: string, a: Attachment, r: Report)
    requires ReadsFixedPoint(parse) && IsBuilt(parse, cells, observedAt, a) && CellsTagged(cells) && r in Reports(a)
    ensures ReportOk(parse, r) <==> ThreeCapitals(r.key.0)
    ensures r.key.0 != BASE && Matching(cells, r.key) != []
  {
    hide Reports, Sorted, ThreeCapitals;
    ReportsOf(a, r);
    var m := Matching(cells, r.key);
    if r.text.Some? {
      assert IsValue(parse, cells, (r.key, r.text.value));
      TextSurvivesReprojection(parse, m[0].raw);
    } else {
      assert IsInvalid(parse, cells, r.key);
    }
    MatchingAre(cells, r.key, m[0]);
  }

  /** Some line stands for every cell outside the base currency. */
  lemma CellHasALine(parse: Parser, cells: seq<Cell>, observedAt: string, a: Attachment, c: Cell)
    requires IsBuilt(parse, cells, observedAt, a) && c in cells && c.key.0 != BASE
    ensures exists r :: r in Reports(a) && r.key == c.key
  {
    BuiltSaysTheState(parse, cells, observedAt, a, c.key);
    MatchingAre(cells, c.key, c);
  }

  lemma BuiltReportsOk(parse: Parser, cells: seq<Cell>, observedAt: string, a: Attachment)
    requires ReadsFixedPoint(parse) && IsBuilt(parse, cells, observedAt, a) && CellsTagged(cells)
    ensures ReportsOk(parse, Reports(a)) <==> CellsProper(cells)
  {
    BuiltKeysAreDistinct(parse, cells, observedAt, a);
    hide ReportOk, IsBuilt, ThreeCapitals, Reports, Matching, CellsTagged, ReadsFixedPoint, DistinctKeys;
    var rs := Reports(a);
    forall i | 0 <= i < |rs|
      ensures ReportOk(parse, rs[i]) <==> ThreeCapitals(rs[i].key.0)
      ensures rs[i].key.0 != BASE && exists c :: c in cells && c.key == rs[i].key
    {
      BuiltLine(parse, cells, observedAt, a, rs[i]);
      MatchingAre(cells, rs[i].key, Matching(cells, rs[i].key)[0]);
    }
    forall c | c in cells && c.key.0 != BASE ensures exists i :: 0 <= i < |rs| && rs[i].key == c.key {
      CellHasALine(parse, cells, observedAt, a, c);
    }
  }

  /**
   Exactly when a built attachment passes: the observation time is not empty, and every row
   with a supported tag names three capitals or the base currency.
   */
  lemma BuiltPassesExactly(reader: Reader, rows: seq<Row>, observedAt: string, a: Attachment, currency: string)
    requires Faithful(reader) && IsBuilt(reader.parse, Cells(reader, rows), observedAt, a)
    ensures InspectionPasses(reader.parse, a, observedAt, currency, None)
       <==> observedAt != "" && forall row :: row in rows ==> ProperRow(reader, row)
  {
    CellsAreTagged(reader, rows);
    ProperRowsHaveProperCells(reader, rows);
    BuiltReportsOk(reader.parse, Cells(reader, rows), observedAt, a);
    hide ReportsOk, CellsProper, ProperRow, Cells, Reports;
  }

  // ---------- captured rows ----------

  /** The raw values that capture finds for one key. */
  function RawsFor(reader: Reader, accounts: set<string>, items: seq<Item>, key: Key): seq<Raw> {
    if items == [] then []
    else
      var front, last := RawsFor(reader, accounts, items[..|items| - 1], key), items[|items| - 1];
      if Wanted(reader, accounts, last) && (Clean(reader, last.currency), reader.strip(last.tag)) == key
      then front + [last.value] else front
  }

  /** A field is observed when exactly one value was found and it is a representable decimal. */
  function StateOfRaws(parse: Parser, raws: seq<Raw>): FieldState {
    if raws == [] then Missing else if |raws| == 1 && DecText(parse, raws[0]).Some? then Observed else Invalid
  }

  lemma StoredIsRepresentable(parse: Parser, raw: Raw)
    requires ReadsFixedPoint(parse)
    ensures DecText(parse, Stored(parse, raw)) == DecText(parse, raw)
  {
    if DecText(parse, raw).Some? { TextSurvivesReprojection(parse, raw); }
  }

  lemma CapturedCell(reader: Reader, sourceMethod: string, item: Item, accounts: set<string>)
    requires Wanted(reader, accounts, item) && Faithful(reader)
    ensures var row := CapturedRow(reader, sourceMethod, item);
            && ProperRow(reader, row) && Complete(row.details).Some?
            && TagCells(reader, row, |TAGS|)
               == [Cell((Clean(reader, item.currency), reader.strip(item.tag)), Stored(reader.parse, item.value),
                        Complete(row.details))]
  {
    var row := CapturedRow(reader, sourceMethod, item);
    assert Clean(reader, row.currency) == row.currency;
    var k :| 0 <= k < |TAGS| && TAGS[k] == reader.strip(item.tag);
    hide Stored, Clean, ThreeCapitals;
    OneTagCell(reader, row, k, |TAGS|);
  }

  lemma {:induction false} OneTagCell(reader: Reader, row: Row, k: nat, n: nat)
    requires k < |TAGS| && n <= |TAGS| && row.cells.Keys == {TAGS[k]}
    ensures TagCells(reader, row, n) ==
              if k < n then [Cell((Clean(reader, row.currency), TAGS[k]), row.cells[TAGS[k]], Complete(row.details))]
              else []
  {
    if n == 0 {
      NoTags(reader, row);
    } else {
      OneTagCell(reader, row, k, n - 1);
      TagStep(reader, row, n - 1);
    }
  }

  /** A cell that stores a raw value, with complete details of its source. */
  predicate Stores(parse: Parser, sourceMethod: string, c: Cell, raw: Raw) {
    c.raw == Stored(parse, raw) && c.details.Some? && c.details.value.sourceMethod == sourceMethod
  }

  /** One more wanted value is one more cell under its own key. */
  lemma CapturedOneMore(reader: Reader, accounts: set<string>, sourceMethod: string, rows: seq<Row>, item: Item,
                        key: Key)
    requires Faithful(reader) && Wanted(reader, accounts, item)
    ensures var row := CapturedRow(reader, sourceMethod, item);
            var k := (Clean(reader, item.currency), reader.strip(item.tag));
            exists c :: Stores(reader.parse, sourceMethod, c, item.value)
                        && Matching(Cells(reader, rows + [row]), key)
                           == (if k == key then Matching(Cells(reader, rows), key) + [c]
                               else Matching(Cells(reader, rows), key))
  {
    var row := CapturedRow(reader, sourceMethod, item);
    CapturedCell(reader, sourceMethod, item, accounts);
    CapturedMethod(reader, sourceMethod, item);
    var c := TagCells(reader, row, |TAGS|)[0];
    assert Stores(reader.parse, sourceMethod, c, item.value);
    hide *;
    CellsSnoc(reader, rows, row);
    MatchingSnoc(Cells(reader, rows), c, key);
  }

  lemma CapturedMethod(reader: Reader, sourceMethod: string, item: Item)
    ensures var details := Complete(CapturedRow(reader, sourceMethod, item).details);
            details.Some? && details.value.sourceMethod == sourceMethod
  {
  }

  /** The cells of captured rows under a key are the stored values found for it, in order. */
  lemma {:induction false} CapturedCells(reader: Reader, accounts: set<string>, sourceMethod: string, items: seq<Item>,
                                         key: Key)
    requires Faithful(reader)
    ensures var m := Matching(Cells(reader, Captured(reader, accounts, sourceMethod, items)), key);
            var raws := RawsFor(reader, accounts, items, key);
            && |m| == |raws|
            && forall i :: 0 <= i < |m| ==> Stores(reader.parse, sourceMethod, m[i], raws[i])
  {
    hide Faithful, Cells, Matching, CapturedRow, Wanted, Stores;
    if items == [] {
      NoCells(reader);
      NothingMatches(key);
    } else {
      var front, last := items[..|items| - 1], items[|items| - 1];
      CapturedCells(reader, accounts, sourceMethod, front, key);
      if Wanted(reader, accounts, last) {
        CapturedOneMore(reader, accounts, sourceMethod, Captured(reader, accounts, sourceMethod, front), last, key);
      }
    }
  }

  lemma NothingMatches(key: Key)
    ensures Matching([], key) == []
  {
  }

  lemma {:induction false} CapturedRowsAreProper(reader: Reader, accounts: set<string>, sourceMethod: string,
                                                 items: seq<Item>)
    requires Faithful(reader)
    ensures forall row :: row in Captured(reader, accounts, sourceMethod, items) ==> ProperRow(reader, row)
  {
    hide Faithful, ProperRow, CapturedRow;
    if items != [] {
      var last := items[|items| - 1];
      CapturedRowsAreProper(reader, accounts, sourceMethod, items[..|items| - 1]);
      if Wanted(reader, accounts, last) { CapturedCell(reader, sourceMethod, last, accounts); }
    }
  }

  lemma {:induction false} NothingInBase(reader: Reader, accounts: set<string>, items: seq<Item>, tag: string)
    ensures RawsFor(reader, accounts, items, (BASE, tag)) == []
  {
    if items != [] { NothingInBase(reader, accounts, items[..|items| - 1], tag); }
  }

  lemma BaseIsNotListed(parse: Parser, cells: seq<Cell>, observedAt: string, a: Attachment, tag: string)
    requires IsBuilt(parse, cells, observedAt, a)
    ensures FieldIn(Reports(a), (BASE, tag)) == Missing
  {
    hide Reports, Matching, Sorted;
    forall r | r in Reports(a) ensures r.key.0 != BASE {
      ReportsOf(a, r);
      if r.text.Some? {
        assert IsValue(parse, cells, (r.key, r.text.value));
      } else {
        assert IsInvalid(parse, cells, r.key);
      }
    }
  }

  /** One field of the attachment built from captured rows says what was captured for it. */
  lemma CapturedFieldIsObserved(reader: Reader, accounts: set<string>, sourceMethod: string, items: seq<Item>,
                                observedAt: string, a: Attachment, key: Key)
    requires Faithful(reader)
    requires IsBuilt(reader.parse, Cells(reader, Captured(reader, accounts, sourceMethod, items)), observedAt, a)
    ensures FieldIn(Reports(a), key) == StateOfRaws(reader.parse, RawsFor(reader, accounts, items, key))
  {
    var cells := Cells(reader, Captured(reader, accounts, sourceMethod, items));
    if key.0 == BASE {
      BaseIsNotListed(reader.parse, cells, observedAt, a, key.1);
      NothingInBase(reader, accounts, items, key.1);
    } else {
      BuiltSaysTheState(reader.parse, cells, observedAt, a, key);
      CapturedCells(reader, accounts, sourceMethod, items, key);
      var raws := RawsFor(reader, accounts, items, key);
      if raws != [] { StoredIsRepresentable(reader.parse, raws[0]); }
    }
  }

  /**
   Capture, build, inspect: for every list of broker values the attachment passes, and each
   field is observed, invalid or missing exactly as the captured values for it say.
   */
  lemma CapturedIsObserved(reader: Reader, accounts: set<string>, sourceMethod: string, items: seq<Item>,
                           observedAt: string, a: Attachment, currency: string)
    requires Faithful(reader) && observedAt != ""
    requires IsBuilt(reader.parse, Cells(reader, Captured(reader, accounts, sourceMethod, items)), observedAt, a)
    ensures InspectionPasses(reader.parse, a, observedAt, currency, None)
    ensures forall tag :: FieldIn(Reports(a), (currency, tag))
                       == StateOfRaws(reader.parse, RawsFor(reader, accounts, items, (currency, tag)))
  {
    hide Faithful, IsBuilt, FieldIn, StateOfRaws, InspectionPasses;
    CapturedRowsAreProper(reader, accounts, sourceMethod, items);
    BuiltPassesExactly(reader, Captured(reader, accounts, sourceMethod, items), observedAt, a, currency);
    forall tag ensures FieldIn(Reports(a), (currency, tag))
                    == StateOfRaws(reader.parse, RawsFor(reader, accounts, items, (currency, tag))) {
      CapturedFieldIsObserved(reader, accounts, sourceMethod, items, observedAt, a, (currency, tag));
    }
  }

  /** The whole chain on one list of broker values. */
  method ObserveCash(reader: Reader, items: seq<Item>, accounts: set<string>, observedAt: string, currency: string)
    returns (status: Status, fields: map<string, FieldState>)
    requires Faithful(reader) && observedAt != ""
    ensures status == ObservedFieldsOnly
    ensures fields.Keys == AllMissing().Keys
    ensures forall tag :: tag in fields ==>
              fields[tag] == StateOfRaws(reader.parse, RawsFor(reader, accounts, items, (currency, tag)))
  {
    hide *;
    var captured := CaptureCashRows(reader, items, accounts, UNSPECIFIED);
    UnspecifiedIsAccepted();
    var a := BuildCashObservations(reader, captured.value, observedAt);
    CapturedIsObserved(reader, accounts, UNSPECIFIED, items, observedAt, a, currency);
    status, fields := InspectCashObservations(reader.parse, Some(a), observedAt, currency, None);
    FieldsByDefinition(Reports(a), currency, fields);
  }

  lemma UnspecifiedIsAccepted()
    ensures SourceOk(UNSPECIFIED)
  {
  }

  lemma FieldsByDefinition(rs: seq<Report>, currency: string, fields: map<string, FieldState>)
    requires FieldsSay(rs, currency, fields)
    ensures fields.Keys == AllMissing().Keys
    ensures forall tag :: tag in fields ==> fields[tag] == FieldIn(rs, (currency, tag))
  {
  }

  // ---------- a row that builds into a rejected attachment ----------

  function PlainReader(): Reader {
    Reader(s => s, s => s, s => if Accepts(s) then Some(PlainDec(s)) else None)
  }

  /** A row whose currency is neither three capitals nor BASE. */
  const TWO_LETTERS := Row("A", "US", Carried(None, None, None, None), map["CashBalance" := Native("5")])

  lemma TwoLettersAreImproper()
    ensures Faithful(PlainReader()) && !ProperRow(PlainReader(), TWO_LETTERS)
  {
    assert TAGS[3] in TWO_LETTERS.cells;
    hide Accepts;
  }

  /** Building from that row succeeds, and the result is rejected. */
  method BuildFromTwoLetters(observedAt: string, currency: string) returns (a: Attachment, status: Status)
    ensures IsBuilt(PlainReader().parse, Cells(PlainReader(), [TWO_LETTERS]), observedAt, a)
    ensures status == Rejected
  {
    hide *;
    var fields;
    a := BuildCashObservations(PlainReader(), [TWO_LETTERS], observedAt);
    TwoLettersAreImproper();
    BuiltPassesExactly(PlainReader(), [TWO_LETTERS], observedAt, a, currency);
    assert TWO_LETTERS in [TWO_LETTERS];
    status, fields := InspectCashObservations(PlainReader().parse, Some(a), observedAt, currency, None);
  }
}
