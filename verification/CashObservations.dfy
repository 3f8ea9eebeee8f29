/**
 Cash observations of application/ibkr_cash_observations.py: broker values are captured
 as rows, rows are built into an attachment, and a later reader inspects the attachment.
 */
module CashObservations {
  import opened Wrappers
  import opened Ordering
  import opened CashDecimals
  import opened Sums

  const SCHEMA := "ibkr.cash_observations.v1"
  const BASE := "BASE"
  const CACHE := "account_values_cache"
  const UNSPECIFIED := "unspecified"

  /** The supported tags, sorted. */
  const TAGS: seq<string> := [
    "$LEDGER-CashBalance", "$LEDGER-TotalCashBalance", "AvailableFunds", "CashBalance", "FullAvailableFunds",
    "SettledCash", "TotalCashBalance"]

  /** Trimming, upper-casing and the decimal reader. */
  datatype Reader = Reader(strip: string -> string, upper: string -> string, parse: Parser)

  function Clean(reader: Reader, s: string): string { reader.upper(reader.strip(s)) }

  predicate ThreeCapitals(s: string) { |s| == 3 && forall i :: 0 <= i < 3 ==> 'A' <= s[i] <= 'Z' }

  ghost predicate Faithful(reader: Reader) {
    (forall s :: ThreeCapitals(s) ==> Clean(reader, s) == s) && ReadsFixedPoint(reader.parse)
  }

  /** One broker account value. */
  datatype Item = Item(account: string, currency: string, tag: string, value: Raw, model: Option<string>)

  datatype Details = Details(sourceMethod: string, modelScope: string, representation: string, segmentKey: string)

  /** The detail keys a row carries; a legacy row may carry none or some. */
  datatype Carried = Carried(
    sourceMethod: Option<string>, modelScope: Option<string>, representation: Option<string>,
    segmentKey: Option<string>)

  function Complete(c: Carried): Option<Details> {
    if c.sourceMethod.Some? && c.modelScope.Some? && c.representation.Some? && c.segmentKey.Some? then
      Some(Details(c.sourceMethod.value, c.modelScope.value, c.representation.value, c.segmentKey.value))
    else None
  }

  /** One captured or legacy row; a legacy row may hold several tags. */
  datatype Row = Row(account: string, currency: string, details: Carried, cells: map<string, Raw>)

  // ---------- capture ----------

  predicate Wanted(reader: Reader, accounts: set<string>, item: Item) {
    && reader.strip(item.account) in accounts && ThreeCapitals(Clean(reader, item.currency))
    && reader.strip(item.tag) in TAGS
  }

  function ModelScope(reader: Reader, model: Option<string>): string {
    if model == Some("") then "no_model_code"
    else if model.Some? && reader.strip(model.value) != "" then "model_specific"
    else "unknown"
  }

  /** What capture keeps of a value: its decimal text, or nothing. */
  function Stored(parse: Parser, raw: Raw): Raw {
    match DecText(parse, raw) case None => Unusable case Some(text) => Native(text)
  }

  function CapturedRow(reader: Reader, sourceMethod: string, item: Item): Row {
    Row(reader.strip(item.account), Clean(reader, item.currency),
        Carried(Some(sourceMethod), Some(ModelScope(reader, item.model)),
                Some(if item.value.Native? then "native_text" else "non_text"), Some("unsuffixed")),
        map[reader.strip(item.tag) := Stored(reader.parse, item.value)])
  }

  function Captured(reader: Reader, accounts: set<string>, sourceMethod: string, items: seq<Item>): seq<Row> {
    if items == [] then []
    else
      var front, last := Captured(reader, accounts, sourceMethod, items[..|items| - 1]), items[|items| - 1];
      if Wanted(reader, accounts, last) then front + [CapturedRow(reader, sourceMethod, last)] else front
  }

  predicate SourceOk(sourceMethod: string) { sourceMethod in {CACHE, UNSPECIFIED} }

  method CaptureCashRows(reader: Reader, items: seq<Item>, accounts: set<string>, sourceMethod: string)
    returns (r: Result<seq<Row>, string>)
    ensures r == if SourceOk(sourceMethod) then Success(Captured(reader, accounts, sourceMethod, items))
                 else Failure("cash observation source is unsupported")
  {
    if !SourceOk(sourceMethod) { return Failure("cash observation source is unsupported"); }
    var rows: seq<Row> := [];
    var i := 0;
    while i < |items|
      invariant 0 <= i <= |items| && rows == Captured(reader, accounts, sourceMethod, items[..i])
    {
      assert items[..i + 1][..i] == items[..i];
      if Wanted(reader, accounts, items[i]) { rows := rows + [CapturedRow(reader, sourceMethod, items[i])]; }
      i := i + 1;
    }
    assert items[..|items|] == items;
    r := Success(rows);
  }

  // ---------- the cells of rows, and what they say of a key ----------

  datatype Cell = Cell(key: Key, raw: Raw, details: Option<Details>)

  function TagCells(reader: Reader, row: Row, n: nat): seq<Cell>
    requires n <= |TAGS|
  {
    if n == 0 then []
    else if TAGS[n - 1] in row.cells then
      TagCells(reader, row, n - 1)
      + [Cell((Clean(reader, row.currency), TAGS[n - 1]), row.cells[TAGS[n - 1]], Complete(row.details))]
    else TagCells(reader, row, n - 1)
  }

  function Cells(reader: Reader, rows: seq<Row>): seq<Cell> {
    if rows == [] then [] else Cells(reader, rows[..|rows| - 1]) + TagCells(reader, rows[|rows| - 1], |TAGS|)
  }

  function Matching(cells: seq<Cell>, key: Key): seq<Cell> {
    if cells == [] then []
    else
      var front, last := Matching(cells[..|cells| - 1], key), cells[|cells| - 1];
      if last.key == key then front + [last] else front
  }

  datatype FieldState = Missing | Observed | Invalid

  /** A field is observed when exactly one cell reports it with a representable decimal. */
  function StateOf(parse: Parser, matching: seq<Cell>): FieldState {
    if matching == [] then Missing
    else if |matching| == 1 && DecText(parse, matching[0].raw).Some? then Observed
    else Invalid
  }

  // ---------- build ----------

  /** What the builder knows of one key after these cells. */
  ghost predicate KeyFact(parse: Parser, cells: seq<Cell>, values: map<Key, string>, invalid: set<Key>,
                          seen: set<Key>, k: Key)
  {
    var m := Matching(cells, k);
    if k.0 == BASE then k !in seen && k !in values && k !in invalid
    else
      && (k in seen <==> m != [])
      && (k in invalid <==> StateOf(parse, m) == Invalid)
      && (k in values <==> StateOf(parse, m) == Observed)
      && (k in values ==> DecText(parse, m[0].raw) == Some(values[k]))
  }

  ghost predicate BuiltSoFar(parse: Parser, cells: seq<Cell>, values: map<Key, string>, invalid: set<Key>,
                             seen: set<Key>)
  {
    forall k :: KeyFact(parse, cells, values, invalid, seen, k)
  }

  lemma MatchingSnoc(cells: seq<Cell>, cell: Cell, k: Key)
    ensures Matching(cells + [cell], k) == if cell.key == k then Matching(cells, k) + [cell] else Matching(cells, k)
  {
    assert (cells + [cell])[..|cells|] == cells;
  }

  function ValuesAfter(parse: Parser, values: map<Key, string>, seen: set<Key>, cell: Cell): map<Key, string> {
    var text := DecText(parse, cell.raw);
    if text.None? || cell.key in seen then values - {cell.key} else values[cell.key := text.value]
  }

  function InvalidAfter(parse: Parser, invalid: set<Key>, seen: set<Key>, cell: Cell): set<Key> {
    if DecText(parse, cell.raw).None? || cell.key in seen then invalid + {cell.key} else invalid
  }

  lemma BuildOne(parse: Parser, cells: seq<Cell>, values: map<Key, string>, invalid: set<Key>, seen: set<Key>,
                 cell: Cell)
    requires BuiltSoFar(parse, cells, values, invalid, seen)
    ensures cell.key.0 == BASE ==> BuiltSoFar(parse, cells + [cell], values, invalid, seen)
    ensures cell.key.0 != BASE ==>
              BuiltSoFar(parse, cells + [cell], ValuesAfter(parse, values, seen, cell),
                         InvalidAfter(parse, invalid, seen, cell), seen + {cell.key})
  {
    hide DecText, Matching;
    if cell.key.0 == BASE {
      forall k ensures KeyFact(parse, cells + [cell], values, invalid, seen, k) {
        assert KeyFact(parse, cells, values, invalid, seen, k);
        MatchingSnoc(cells, cell, k);
      }
    } else {
      forall k ensures KeyFact(parse, cells + [cell], ValuesAfter(parse, values, seen, cell),
                               InvalidAfter(parse, invalid, seen, cell), seen + {cell.key}, k) {
        assert KeyFact(parse, cells, values, invalid, seen, k);
        MatchingSnoc(cells, cell, k);
      }
    }
  }

  lemma NothingBuilt(parse: Parser)
    ensures BuiltSoFar(parse, [], map[], {}, {})
  {
    hide DecText;
    forall k ensures KeyFact(parse, [], map[], {}, {}, k) {
    }
  }

  /** The attachment; an absent list and an empty one are the same here. */
  datatype Attachment = Attachment(schema: string, observedAt: string, values: seq<(Key, string)>,
                                   invalidFields: seq<Key>)

  function KeyOfValue(): ((Key, string)) -> Key { (e: (Key, string)) => e.0 }

  function Itself(): Key -> Key { (k: Key) => k }

  /** What the builder promises: both lists in key order, and every key under its state, with its text. */
  ghost predicate IsBuilt(parse: Parser, cells: seq<Cell>, observedAt: string, a: Attachment) {
    && a.schema == SCHEMA && a.observedAt == observedAt
    && Sorted(KeyOfValue(), a.values) && Sorted(Itself(), a.invalidFields)
    && (forall e :: e in a.values <==> IsValue(parse, cells, e))
    && (forall k :: k in a.invalidFields <==> IsInvalid(parse, cells, k))
  }

  ghost predicate IsValue(parse: Parser, cells: seq<Cell>, e: (Key, string)) {
    var m := Matching(cells, e.0);
    e.0.0 != BASE && StateOf(parse, m) == Observed && DecText(parse, m[0].raw) == Some(e.1)
  }

  ghost predicate IsInvalid(parse: Parser, cells: seq<Cell>, k: Key) {
    k.0 != BASE && StateOf(parse, Matching(cells, k)) == Invalid
  }

  /** The members of a set in the order of their keys. */
  method InOrder<T(==, !new)>(key: T -> Key, s: set<T>) returns (r: seq<T>)
    requires forall x, y :: x in s && y in s && key(x) == key(y) ==> x == y
    ensures Sorted(key, r) && forall x :: x in r <==> x in s
  {
    hide Sorted, Insert;
    r := [];
    assert Sorted(key, r) by { NothingSorted(key); }
    var rest := s;
    while rest != {}
      invariant rest <= s && Sorted(key, r) && forall x :: x in r <==> x in s && x !in rest
      decreases |rest|
    {
      var x :| x in rest;
      forall i | 0 <= i < |r| ensures key(r[i]) != key(x) {
        assert r[i] in r;
      }
      InsertKeepsSorted(key, x, r);
      InsertMembers(key, x, r);
      r := Insert(key, x, r);
      rest := rest - {x};
    }
  }

  lemma NothingSorted<T>(key: T -> Key)
    ensures Sorted(key, [])
  {
  }

  lemma InsertMembers<T>(key: T -> Key, x: T, s: seq<T>)
    ensures forall y :: y in Insert(key, x, s) <==> y in s || y == x
  {
    InsertAdds(key, x, s);
    hide Insert;
    forall y ensures y in Insert(key, x, s) <==> y in s || y == x {
      assert y in Insert(key, x, s) <==> y in multiset(Insert(key, x, s));
      assert y in s <==> y in multiset(s);
    }
  }

  method BuildCashObservations(reader: Reader, rows: seq<Row>, observedAt: string) returns (a: Attachment)
    ensures IsBuilt(reader.parse, Cells(reader, rows), observedAt, a)
  {
    hide *;
    var values: map<Key, string> := map[];
    var invalid: set<Key> := {};
    var seen: set<Key> := {};
    NothingBuilt(reader.parse);
    NoCells(reader);
    assert rows[..0] == [];
    var i := 0;
    while i < |rows|
      invariant 0 <= i <= |rows|
      invariant BuiltSoFar(reader.parse, Cells(reader, rows[..i]), values, invalid, seen)
    {
      var currency := Clean(reader, rows[i].currency);
      assert rows[..i + 1] == rows[..i] + [rows[i]];
      CellsSnoc(reader, rows[..i], rows[i]);
      if currency == BASE {
        SkipBase(reader, rows[i], |TAGS|, Cells(reader, rows[..i]), values, invalid, seen);
      } else {
        values, invalid, seen := BuildRow(reader, rows[i], Cells(reader, rows[..i]), values, invalid, seen);
      }
      i := i + 1;
    }
    assert rows[..|rows|] == rows;
    UniqueKeys(values);
    var valueRows := InOrder(KeyOfValue(), values.Items);
    assert forall x: Key, y: Key :: Itself()(x) == Itself()(y) ==> x == y by { ItselfIsOneToOne(); }
    var invalidRows := InOrder(Itself(), invalid);
    a := Attachment(SCHEMA, observedAt, valueRows, invalidRows);
    BuiltByDefinition(reader.parse, Cells(reader, rows), observedAt, values, invalid, seen, a);
  }

  lemma UniqueKeys(values: map<Key, string>)
    ensures forall x, y :: x in values.Items && y in values.Items && KeyOfValue()(x) == KeyOfValue()(y) ==> x == y
  {
  }

  lemma ItselfIsOneToOne()
    ensures forall x: Key, y: Key :: Itself()(x) == Itself()(y) ==> x == y
  {
  }

  lemma BuiltByDefinition(parse: Parser, cells: seq<Cell>, observedAt: string,
                          values: map<Key, string>, invalid: set<Key>, seen: set<Key>, a: Attachment)
    requires BuiltSoFar(parse, cells, values, invalid, seen)
    requires a.schema == SCHEMA && a.observedAt == observedAt
    requires Sorted(KeyOfValue(), a.values) && Sorted(Itself(), a.invalidFields)
    requires forall e :: e in a.values <==> e in values.Items
    requires forall k :: k in a.invalidFields <==> k in invalid
    ensures IsBuilt(parse, cells, observedAt, a)
  {
    hide DecText, Matching, StateOf, Sorted;
    forall e ensures e in a.values <==> IsValue(parse, cells, e) {
      assert KeyFact(parse, cells, values, invalid, seen, e.0);
      assert e in values.Items <==> e.0 in values && values[e.0] == e.1;
    }
    forall k ensures k in a.invalidFields <==> IsInvalid(parse, cells, k) {
      assert KeyFact(parse, cells, values, invalid, seen, k);
    }
  }

  lemma NoCells(reader: Reader)
    ensures Cells(reader, []) == []
  {
  }

  lemma CellsSnoc(reader: Reader, rows: seq<Row>, row: Row)
    ensures Cells(reader, rows + [row]) == Cells(reader, rows) + TagCells(reader, row, |TAGS|)
  {
    assert (rows + [row])[..|rows|] == rows;
  }

  lemma NoTags(reader: Reader, row: Row)
    ensures TagCells(reader, row, 0) == []
  {
  }

  lemma TagStep(reader: Reader, row: Row, n: nat)
    requires n < |TAGS|
    ensures TagCells(reader, row, n + 1) ==
              if TAGS[n] in row.cells then
                TagCells(reader, row, n)
                + [Cell((Clean(reader, row.currency), TAGS[n]), row.cells[TAGS[n]], Complete(row.details))]
              else TagCells(reader, row, n)
  {
  }

  lemma Gather(done: seq<Cell>, cells: seq<Cell>, cell: Cell)
    ensures done + (cells + [cell]) == (done + cells) + [cell]
    ensures done + [] == done
  {
  }

  lemma {:induction false} SkipBase(reader: Reader, row: Row, n: nat, done: seq<Cell>,
                                    values: map<Key, string>, invalid: set<Key>, seen: set<Key>)
    requires Clean(reader, row.currency) == BASE && n <= |TAGS|
    requires BuiltSoFar(reader.parse, done, values, invalid, seen)
    ensures BuiltSoFar(reader.parse, done + TagCells(reader, row, n), values, invalid, seen)
  {
    hide *;
    if n == 0 {
      NoTags(reader, row);
      assert done + [] == done;
    } else {
      SkipBase(reader, row, n - 1, done, values, invalid, seen);
      TagStep(reader, row, n - 1);
      var cells := TagCells(reader, row, n - 1);
      if TAGS[n - 1] in row.cells {
        var cell := Cell((Clean(reader, row.currency), TAGS[n - 1]), row.cells[TAGS[n - 1]], Complete(row.details));
        Gather(done, cells, cell);
        BuildOne(reader.parse, done + cells, values, invalid, seen, cell);
      }
    }
  }

  method BuildRow(reader: Reader, row: Row, ghost done: seq<Cell>, values0: map<Key, string>, invalid0: set<Key>,
                  seen0: set<Key>)
    returns (values: map<Key, string>, invalid: set<Key>, seen: set<Key>)
    requires Clean(reader, row.currency) != BASE
    requires BuiltSoFar(reader.parse, done, values0, invalid0, seen0)
    ensures BuiltSoFar(reader.parse, done + TagCells(reader, row, |TAGS|), values, invalid, seen)
  {
    hide *;
    values, invalid, seen := values0, invalid0, seen0;
    var currency := Clean(reader, row.currency);
    NoTags(reader, row);
    assert done + [] == done;
    var j := 0;
    while j < |TAGS|
      invariant 0 <= j <= |TAGS|
      invariant BuiltSoFar(reader.parse, done + TagCells(reader, row, j), values, invalid, seen)
    {
      TagStep(reader, row, j);
      if TAGS[j] in row.cells {
        var identity := (currency, TAGS[j]);
        ghost var cell := Cell(identity, row.cells[TAGS[j]], Complete(row.details));
        Gather(done, TagCells(reader, row, j), cell);
        BuildOne(reader.parse, done + TagCells(reader, row, j), values, invalid, seen, cell);
        AfterOne(reader.parse, values, invalid, seen, cell);
        var amount := DecText(reader.parse, row.cells[TAGS[j]]);
        if amount.None? || identity in seen {
          invalid := invalid + {identity};
          values := values - {identity};
        } else {
          values := values[identity := amount.value];
        }
        seen := seen + {identity};
      }
      j := j + 1;
    }
  }

  lemma AfterOne(parse: Parser, values: map<Key, string>, invalid: set<Key>, seen: set<Key>, cell: Cell)
    ensures var text, k := DecText(parse, cell.raw), cell.key;
            && ValuesAfter(parse, values, seen, cell)
               == (if text.None? || k in seen then values - {k} else values[k := text.value])
            && InvalidAfter(parse, invalid, seen, cell) == (if text.None? || k in seen then invalid + {k} else invalid)
  {
  }

  // ---------- inspect ----------

  datatype Status = NotReported | Rejected | ObservedFieldsOnly

  /** One line of an attachment, of either list. */
  datatype Report = Report(key: Key, text: Option<string>)

  function Reports(a: Attachment): seq<Report> {
    Map((e: (Key, string)) => Report(e.0, Some(e.1)), a.values) + Map((k: Key) => Report(k, None), a.invalidFields)
  }

  predicate ReportOk(parse: Parser, r: Report) {
    ThreeCapitals(r.key.0) && r.key.1 in TAGS && (r.text.Some? ==> parse(r.text.value).Some?)
  }

  function KeyOfReport(): Report -> Key { (r: Report) => r.key }

  ghost predicate ReportsOk(parse: Parser, rs: seq<Report>) {
    (forall i :: 0 <= i < |rs| ==> ReportOk(parse, rs[i])) && DistinctKeys(KeyOfReport(), rs)
  }

  /** What the lines say of one key. */
  ghost function FieldIn(rs: seq<Report>, key: Key): FieldState {
    if exists r :: r in rs && r.key == key && r.text.Some? then Observed
    else if exists r :: r in rs && r.key == key then Invalid
    else Missing
  }

  /** The cash figure selected elsewhere, for the inspected currency. */
  datatype Selected = Selected(tag: Option<string>, balance: Raw)

  predicate HeaderOk(a: Attachment, observedAt: string) {
    a.schema == SCHEMA && a.observedAt == observedAt && observedAt != ""
  }

  predicate SameNumber(a: Option<Dec>, b: Option<Dec>) { a.Some? && b.Some? && NumberOf(a.value) == NumberOf(b.value) }

  /** A selected figure must be the number reported under its key, if anything is. */
  ghost predicate SelectedAgrees(parse: Parser, rs: seq<Report>, currency: string, selected: Option<Selected>) {
    selected.Some? ==>
      && selected.value.tag.Some?
      && forall r :: r in rs && r.key == (currency, selected.value.tag.value) ==>
           r.text.Some? && SameNumber(parse(r.text.value), DecimalOf(parse, selected.value.balance))
  }

  ghost predicate InspectionPasses(parse: Parser, a: Attachment, observedAt: string, currency: string,
                                   selected: Option<Selected>)
  {
    HeaderOk(a, observedAt) && ReportsOk(parse, Reports(a)) && SelectedAgrees(parse, Reports(a), currency, selected)
  }

  function AllMissing(): map<string, FieldState> { map tag | tag in TAGS :: Missing }

  ghost predicate FieldsSay(rs: seq<Report>, currency: string, fields: map<string, FieldState>) {
    fields.Keys == AllMissing().Keys && forall tag :: tag in fields ==> fields[tag] == FieldIn(rs, (currency, tag))
  }

  method InspectCashObservations(parse: Parser, value: Option<Attachment>, observedAt: string, currency: string,
                                 selected: Option<Selected>)
    returns (status: Status, fields: map<string, FieldState>)
    ensures status == NotReported <==> value.None?
    ensures status == ObservedFieldsOnly <==>
              value.Some? && InspectionPasses(parse, value.value, observedAt, currency, selected)
    ensures if status == ObservedFieldsOnly then FieldsSay(Reports(value.value), currency, fields)
            else fields == AllMissing()
  {
    if value.None? { return NotReported, AllMissing(); }
    if !HeaderOk(value.value, observedAt) { return Rejected, AllMissing(); }
    var ok, scanned, seen, amounts := ScanReports(parse, Reports(value.value), currency);
    if !ok { return Rejected, AllMissing(); }
    if selected.Some? {
      if selected.value.tag.None? { return Rejected, AllMissing(); }
      var key := (currency, selected.value.tag.value);
      SelectedByScan(parse, Reports(value.value), seen, amounts, key, DecimalOf(parse, selected.value.balance));
      if key in seen
         && (key !in amounts || !SameNumber(Some(amounts[key]), DecimalOf(parse, selected.value.balance)))
      {
        return Rejected, AllMissing();
      }
    }
    return ObservedFieldsOnly, scanned;
  }

  /** The scan's state after these lines: the keys seen, the numbers under them and the field states. */
  ghost predicate ScannedSoFar(parse: Parser, rs: seq<Report>, currency: string,
                               seen: set<Key>, amounts: map<Key, Dec>, fields: map<string, FieldState>)
  {
    && ReportsOk(parse, rs)
    && AmountsOf(parse, rs, seen, amounts)
    && FieldsSay(rs, currency, fields)
  }

  ghost predicate AmountsOf(parse: Parser, rs: seq<Report>, seen: set<Key>, amounts: map<Key, Dec>) {
    && (forall k :: k in seen <==> exists r :: r in rs && r.key == k)
    && (forall k :: k in amounts ==> k in seen)
    && (forall r :: r in rs ==> (r.key in amounts <==> r.text.Some?))
    && (forall r :: r in rs && r.text.Some? ==> parse(r.text.value) == Some(amounts[r.key]))
  }

  lemma SelectedByScan(parse: Parser, rs: seq<Report>, seen: set<Key>, amounts: map<Key, Dec>, key: Key,
                       balance: Option<Dec>)
    requires ReportsOk(parse, rs) && AmountsOf(parse, rs, seen, amounts)
    ensures (key in seen && (key !in amounts || !SameNumber(Some(amounts[key]), balance)))
       <==> exists r :: r in rs && r.key == key && !(r.text.Some? && SameNumber(parse(r.text.value), balance))
  {
    hide ReportOk, DistinctKeys;
    if key in seen {
      var r :| r in rs && r.key == key;
    }
  }

  method ScanReports(parse: Parser, rs: seq<Report>, currency: string)
    returns (ok: bool, fields: map<string, FieldState>, seen: set<Key>, amounts: map<Key, Dec>)
    ensures ok <==> ReportsOk(parse, rs)
    ensures ok ==> ScannedSoFar(parse, rs, currency, seen, amounts, fields)
  {
    hide *;
    ok, fields, seen, amounts := true, AllMissing(), {}, map[];
    NothingInspected(parse, currency);
    assert rs[..0] == [];
    var i := 0;
    while i < |rs|
      invariant 0 <= i <= |rs| && ok
      invariant ScannedSoFar(parse, rs[..i], currency, seen, amounts, fields)
    {
      var r := rs[i];
      assert rs[..i + 1] == rs[..i] + [r];
      InspectOne(parse, rs[..i], currency, seen, amounts, fields, r);
      if !ReportOk(parse, r) || r.key in seen {
        BadPrefix(parse, rs, i + 1);
        ok := false;
        return;
      }
      ReportReads(parse, r);
      seen := seen + {r.key};
      if r.text.Some? { amounts := amounts[r.key := parse(r.text.value).value]; }
      FieldsUpdated(fields, r, currency);
      if r.key.0 == currency { fields := fields[r.key.1 := if r.text.Some? then Observed else Invalid]; }
      i := i + 1;
    }
    assert rs[..|rs|] == rs;
    ScanIsOk(parse, rs, currency, seen, amounts, fields);
  }

  function StateOfReport(r: Report): FieldState { if r.text.Some? then Observed else Invalid }

  function FieldsAfter(fields: map<string, FieldState>, r: Report, currency: string): map<string, FieldState> {
    if r.key.0 == currency then fields[r.key.1 := StateOfReport(r)] else fields
  }

  lemma FieldsUpdated(fields: map<string, FieldState>, r: Report, currency: string)
    ensures FieldsAfter(fields, r, currency)
         == if r.key.0 == currency then fields[r.key.1 := if r.text.Some? then Observed else Invalid] else fields
  {
  }

  lemma ReportReads(parse: Parser, r: Report)
    requires ReportOk(parse, r)
    ensures r.text.Some? ==> parse(r.text.value).Some?
  {
  }

  lemma ReportTag(parse: Parser, r: Report)
    requires ReportOk(parse, r)
    ensures r.key.1 in TAGS
  {
  }

  lemma ScanIsOk(parse: Parser, rs: seq<Report>, currency: string, seen: set<Key>, amounts: map<Key, Dec>,
                 fields: map<string, FieldState>)
    requires ScannedSoFar(parse, rs, currency, seen, amounts, fields)
    ensures ReportsOk(parse, rs) && AmountsOf(parse, rs, seen, amounts) && FieldsSay(rs, currency, fields)
  {
  }

  lemma NothingInspected(parse: Parser, currency: string)
    ensures ScannedSoFar(parse, [], currency, {}, map[], AllMissing())
  {
  }

  lemma BadPrefix(parse: Parser, rs: seq<Report>, n: nat)
    requires n <= |rs| && !ReportsOk(parse, rs[..n])
    ensures !ReportsOk(parse, rs)
  {
    hide ReportOk;
  }

  lemma InspectOne(parse: Parser, rs: seq<Report>, currency: string, seen: set<Key>, amounts: map<Key, Dec>,
                   fields: map<string, FieldState>, r: Report)
    requires ScannedSoFar(parse, rs, currency, seen, amounts, fields)
    ensures !ReportOk(parse, r) || r.key in seen ==> !ReportsOk(parse, rs + [r])
    ensures ReportOk(parse, r) && r.key !in seen ==>
              ScannedSoFar(parse, rs + [r], currency, seen + {r.key},
                           if r.text.Some? then amounts[r.key := parse(r.text.value).value] else amounts,
                           FieldsAfter(fields, r, currency))
  {
    hide *;
    ScanIsOk(parse, rs, currency, seen, amounts, fields);
    ReportsSnoc(parse, rs, r, seen, amounts);
    if ReportOk(parse, r) && r.key !in seen {
      ReportReads(parse, r);
      ReportTag(parse, r);
      var amounts' := if r.text.Some? then amounts[r.key := parse(r.text.value).value] else amounts;
      var fields' := FieldsAfter(fields, r, currency);
      AmountsSnoc(parse, rs, r, seen, amounts);
      FieldsSnoc(parse, rs, r, currency, seen, amounts, fields);
      Together(parse, rs + [r], currency, seen + {r.key}, amounts', fields');
    }
  }

  lemma Together(parse: Parser, rs: seq<Report>, currency: string, seen: set<Key>, amounts: map<Key, Dec>,
                 fields: map<string, FieldState>)
    requires ReportsOk(parse, rs) && AmountsOf(parse, rs, seen, amounts) && FieldsSay(rs, currency, fields)
    ensures ScannedSoFar(parse, rs, currency, seen, amounts, fields)
  {
  }

  lemma ReportsSnoc(parse: Parser, rs: seq<Report>, r: Report, seen: set<Key>, amounts: map<Key, Dec>)
    requires ReportsOk(parse, rs) && AmountsOf(parse, rs, seen, amounts)
    ensures ReportsOk(parse, rs + [r]) <==> ReportOk(parse, r) && r.key !in seen
  {
    hide ReportOk;
    var all := rs + [r];
    assert all[|rs|] == r;
    if r.key in seen {
      var q :| q in rs && q.key == r.key;
      var i :| 0 <= i < |rs| && rs[i] == q;
      assert all[i] == q && KeyOfReport()(all[i]) == KeyOfReport()(all[|rs|]);
    } else {
      assert forall i :: 0 <= i < |rs| ==> rs[i] in rs && rs[i].key != r.key;
    }
  }

  lemma AmountsSnoc(parse: Parser, rs: seq<Report>, r: Report, seen: set<Key>, amounts: map<Key, Dec>)
    requires AmountsOf(parse, rs, seen, amounts) && r.key !in seen && (r.text.Some? ==> parse(r.text.value).Some?)
    ensures AmountsOf(parse, rs + [r], seen + {r.key},
                      if r.text.Some? then amounts[r.key := parse(r.text.value).value] else amounts)
  {
    var all := rs + [r];
    assert forall q :: q in all <==> q in rs || q == r;
    assert forall q :: q in rs ==> q.key in seen;
  }

  lemma FieldInSnoc(rs: seq<Report>, r: Report, key: Key)
    requires forall q :: q in rs ==> q.key != r.key
    ensures FieldIn(rs + [r], key) == if key == r.key then StateOfReport(r) else FieldIn(rs, key)
  {
    assert forall q :: q in rs + [r] <==> q in rs || q == r;
  }

  lemma FieldsSnoc(parse: Parser, rs: seq<Report>, r: Report, currency: string, seen: set<Key>, amounts: map<Key, Dec>,
                   fields: map<string, FieldState>)
    requires AmountsOf(parse, rs, seen, amounts) && FieldsSay(rs, currency, fields)
    requires r.key !in seen && r.key.1 in TAGS
    ensures FieldsSay(rs + [r], currency,
                      FieldsAfter(fields, r, currency))
  {
    hide FieldIn;
    assert forall q :: q in rs ==> q.key in seen;
    forall tag | tag in fields ensures FieldIn(rs + [r], (currency, tag))
        == if (currency, tag) == r.key then StateOfReport(r) else FieldIn(rs, (currency, tag)) {
      FieldInSnoc(rs, r, (currency, tag));
    }
  }
}
