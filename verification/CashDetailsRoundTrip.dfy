/**
 Exactly when source details built from rows pass their own inspection beside the
 attachment built from the same rows (application/ibkr_cash_observations.py).
 */
module CashDetailsRoundTrip {
  import opened Wrappers
  import opened Ordering
  import opened DecimalText
  import opened CashDecimals
  import opened CashObservations
  import opened CashRoundTrip
  import opened CashDetails

  // ---------- exactly when built details are accepted ----------

  /** A cell that gives a detail: alone under its key, representable, and read from the cache. */
  ghost predicate Emits(parse: Parser, cells: seq<Cell>, c: Cell) {
    Matching(cells, c.key) == [c] && DecText(parse, c.raw).Some? && FromCache(c.details)
  }

  /** Every such cell is outside the base currency and carries known texts. */
  ghost predicate DetailCellsOk(parse: Parser, cells: seq<Cell>) {
    forall c :: Emits(parse, cells, c) ==> c.key.0 != BASE && DetailsOk(c.details.value)
  }

  lemma DetailIsEmitted(parse: Parser, cells: seq<Cell>, e: (Key, Details))
    ensures IsDetail(parse, cells, e) <==> exists c :: Emits(parse, cells, c) && c.key == e.0 && c.details == Some(e.1)
  {
    hide DecText;
    if IsDetail(parse, cells, e) {
      var m := Matching(cells, e.0);
      MatchingAre(cells, e.0, m[0]);
      assert m == [m[0]];
      assert Emits(parse, cells, m[0]);
    }
  }

  /** An allowed key is one that the attachment lists with a value. */
  lemma AllowedExactly(parse: Parser, cells: seq<Cell>, observedAt: string, a: Attachment, c: Cell)
    requires IsBuilt(parse, cells, observedAt, a) && Emits(parse, cells, c)
    ensures c.key in AllowedKeys(a) <==> c.key.0 != BASE
  {
    hide DecText, Matching, Sorted;
    if c.key.0 != BASE {
      var value := (c.key, DecText(parse, c.raw).value);
      assert IsValue(parse, cells, value) && value in a.values;
    }
    assert forall e :: e in a.values ==> IsValue(parse, cells, e);
  }

  lemma DetailRowsOkExactly(parse: Parser, cells: seq<Cell>, observedAt: string, a: Attachment, d: DetailAttachment)
    requires IsBuilt(parse, cells, observedAt, a) && IsDetailed(parse, cells, observedAt, d)
    ensures DetailRowsOk(d.fields, AllowedKeys(a)) <==> DetailCellsOk(parse, cells)
  {
    SortedIsDistinct(KeyOfDetail(), d.fields);
    hide DetailsOk, Sorted, AllowedKeys, IsBuilt, Emits;
    forall i, j | 0 <= i < j < |d.fields| ensures d.fields[i].0 != d.fields[j].0 {
      assert KeyOfDetail()(d.fields[i]) != KeyOfDetail()(d.fields[j]);
    }
    forall i | 0 <= i < |d.fields|
      ensures exists c :: Emits(parse, cells, c) && c.key == d.fields[i].0 && c.details == Some(d.fields[i].1)
                          && (c.key in AllowedKeys(a) <==> c.key.0 != BASE)
    {
      assert d.fields[i] in d.fields && IsDetail(parse, cells, d.fields[i]);
      DetailIsEmitted(parse, cells, d.fields[i]);
      var c :| Emits(parse, cells, c) && c.key == d.fields[i].0 && c.details == Some(d.fields[i].1);
      AllowedExactly(parse, cells, observedAt, a, c);
    }
    forall c | Emits(parse, cells, c)
      ensures c.details.Some? && (c.key, c.details.value) in d.fields && (c.key in AllowedKeys(a) <==> c.key.0 != BASE)
    {
      EmitsFromCache(parse, cells, c);
      DetailIsEmitted(parse, cells, (c.key, c.details.value));
      AllowedExactly(parse, cells, observedAt, a, c);
    }
  }

  lemma EmitsFromCache(parse: Parser, cells: seq<Cell>, c: Cell)
    requires Emits(parse, cells, c)
    ensures c.details.Some?
  {
  }

  /**
   Exactly when details built from any rows pass beside the attachment built from the same
   rows: the attachment passes, and every cell that gives a detail is outside the base
   currency and carries known texts.
   */
  lemma DetailsPassExactly(reader: Reader, rows: seq<Row>, observedAt: string, a: Attachment, d: DetailAttachment,
                           currency: string)
    requires Faithful(reader)
    requires IsBuilt(reader.parse, Cells(reader, rows), observedAt, a)
    requires IsDetailed(reader.parse, Cells(reader, rows), observedAt, d)
    ensures DetailsPass(reader.parse, d, Some(a), observedAt, currency, None)
       <==> && observedAt != "" && (forall row :: row in rows ==> ProperRow(reader, row))
            && DetailCellsOk(reader.parse, Cells(reader, rows))
  {
    BuiltPassesExactly(reader, rows, observedAt, a, currency);
    DetailRowsOkExactly(reader.parse, Cells(reader, rows), observedAt, a, d);
    hide InspectionPasses, DetailRowsOk, DetailCellsOk, Cells, ProperRow, IsBuilt, Faithful;
  }

  // ---------- details of captured rows are accepted ----------

  lemma {:induction false} CapturedDetailsOk(reader: Reader, accounts: set<string>, sourceMethod: string,
                                             items: seq<Item>)
    requires SourceOk(sourceMethod)
    ensures forall row :: row in Captured(reader, accounts, sourceMethod, items) ==>
              Complete(row.details).Some? && DetailsOk(Complete(row.details).value) && ThreeCapitals(row.currency)
  {
    hide Wanted, ThreeCapitals;
    if items != [] {
      CapturedDetailsOk(reader, accounts, sourceMethod, items[..|items| - 1]);
      WantedCurrency(reader, accounts, items[|items| - 1]);
    }
  }

  lemma WantedCurrency(reader: Reader, accounts: set<string>, item: Item)
    ensures Wanted(reader, accounts, item) ==> ThreeCapitals(Clean(reader, item.currency))
  {
  }

  lemma CellOfCaptured(reader: Reader, accounts: set<string>, sourceMethod: string, items: seq<Item>, c: Cell)
    requires Faithful(reader) && SourceOk(sourceMethod)
    requires c in Cells(reader, Captured(reader, accounts, sourceMethod, items))
    ensures c.details.Some? && DetailsOk(c.details.value) && c.key.0 != BASE
  {
    var rows := Captured(reader, accounts, sourceMethod, items);
    hide TagCells, Cells, DetailsOk, Captured;
    CapturedDetailsOk(reader, accounts, sourceMethod, items);
    CellsOf(reader, rows, c);
    var row :| row in rows && c in TagCells(reader, row, |TAGS|);
    TagCellsOf(reader, row, |TAGS|, c);
    assert Clean(reader, row.currency) == row.currency;
  }

  /** Details built from captured rows always pass beside the attachment built from the same rows. */
  lemma CapturedDetailsAreAccepted(reader: Reader, accounts: set<string>, sourceMethod: string, items: seq<Item>,
                                   observedAt: string, a: Attachment, d: DetailAttachment, currency: string)
    requires Faithful(reader) && SourceOk(sourceMethod) && observedAt != ""
    requires IsBuilt(reader.parse, Cells(reader, Captured(reader, accounts, sourceMethod, items)), observedAt, a)
    requires IsDetailed(reader.parse, Cells(reader, Captured(reader, accounts, sourceMethod, items)), observedAt, d)
    ensures DetailsPass(reader.parse, d, Some(a), observedAt, currency, None)
  {
    var rows := Captured(reader, accounts, sourceMethod, items);
    DetailsPassExactly(reader, rows, observedAt, a, d, currency);
    CapturedRowsAreProper(reader, accounts, sourceMethod, items);
    hide IsBuilt, IsDetailed, DetailsPass, Cells, Matching, DecText, DetailsOk, Faithful, Captured;
    forall c | Emits(reader.parse, Cells(reader, rows), c) ensures c.key.0 != BASE && DetailsOk(c.details.value) {
      assert c in Matching(Cells(reader, rows), c.key);
      MatchingAre(Cells(reader, rows), c.key, c);
      CellOfCaptured(reader, accounts, sourceMethod, items, c);
    }
  }

  // ---------- a row whose details are rejected ----------

  /** A cache row in the base currency. */
  const BASE_ROW :=
    Row("A", BASE, Carried(Some(CACHE), Some("unknown"), Some("native_text"), Some("unsuffixed")),
        map["CashBalance" := Native("5")])

  lemma FiveIsText()
    ensures DecText(PlainReader().parse, Native("5")).Some?
  {
    PrintedTextReadsBack(false, 5, 0);
    assert Str(5) == "5" && FixedPoint(5, 0) == "5";
    assert Accepts("5");
    var d := PlainDec("5");
    assert d == Dec(false, 5, 0) by { TextIsWritten("5", false, 5, 0); }
    assert Bounded(d);
  }

  function BaseCell(): Cell {
    Cell((BASE, "CashBalance"), Native("5"), Some(Details(CACHE, "unknown", "native_text", "unsuffixed")))
  }

  lemma BaseRowEmits()
    ensures Cells(PlainReader(), [BASE_ROW]) == [BaseCell()]
    ensures Emits(PlainReader().parse, [BaseCell()], BaseCell())
  {
    FiveIsText();
    assert TAGS[3] == "CashBalance";
    OneTagCell(PlainReader(), BASE_ROW, 3, |TAGS|);
    hide DecText, TagCells;
    CellsSnoc(PlainReader(), [], BASE_ROW);
    NoCells(PlainReader());
    assert [] + [BASE_ROW] == [BASE_ROW];
    assert Matching([], BaseCell().key) == [];
    MatchingSnoc([], BaseCell(), BaseCell().key);
    assert [] + [BaseCell()] == [BaseCell()];
  }

  /** From that row details are built, the attachment beside them passes, and they are rejected. */
  method BuildDetailsFromBase(observedAt: string, currency: string)
    returns (a: Attachment, d: Option<DetailAttachment>, cash: Status, status: DetailStatus)
    requires observedAt != ""
    ensures IsBuilt(PlainReader().parse, Cells(PlainReader(), [BASE_ROW]), observedAt, a)
    ensures d.Some? && IsDetailed(PlainReader().parse, Cells(PlainReader(), [BASE_ROW]), observedAt, d.value)
    ensures cash == ObservedFieldsOnly && status == DetailsRejected
  {
    hide *;
    var reader, fields, shown := PlainReader(), map[], map[];
    BaseRowEmits();
    BaseIsProper();
    a := BuildCashObservations(reader, [BASE_ROW], observedAt);
    d := BuildCashSourceDetails(reader, [BASE_ROW], observedAt);
    BaseCellIsDetail();
    BuiltPassesExactly(reader, [BASE_ROW], observedAt, a, currency);
    DetailsPassExactly(reader, [BASE_ROW], observedAt, a, d.value, currency);
    BaseIsNotOk();
    cash, fields := InspectCashObservations(reader.parse, Some(a), observedAt, currency, None);
    status, shown := InspectCashSourceDetails(reader.parse, d, Some(a), observedAt, currency, None);
  }

  lemma BaseCellIsDetail()
    ensures exists e :: IsDetail(PlainReader().parse, Cells(PlainReader(), [BASE_ROW]), e)
  {
    hide *;
    BaseRowEmits();
    BaseCellSays();
    var e := ((BASE, "CashBalance"), Details(CACHE, "unknown", "native_text", "unsuffixed"));
    DetailIsEmitted(PlainReader().parse, [BaseCell()], e);
  }

  lemma BaseCellSays()
    ensures BaseCell() == Cell((BASE, "CashBalance"), Native("5"),
                              Some(Details(CACHE, "unknown", "native_text", "unsuffixed")))
  {
  }

  lemma BaseIsNotOk()
    ensures !DetailCellsOk(PlainReader().parse, Cells(PlainReader(), [BASE_ROW]))
  {
    BaseRowEmits();
    hide Emits, Cells, PlainReader;
  }

  lemma BaseIsProper()
    ensures Faithful(PlainReader()) && forall row :: row in [BASE_ROW] ==> ProperRow(PlainReader(), row)
  {
    TwoLettersAreImproper();
    hide Faithful;
  }
}
