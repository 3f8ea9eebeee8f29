/**
 Exactly what is captured, what makes a field observed, and what an inspection accepts
 (application/ibkr_cash_observations.py), told without the functions that decide it.
 */
module CashRules {
  import opened Wrappers
  import opened Ordering
  import opened DecimalText
  import opened CashDecimals
  import opened CashObservations
  import opened CashRoundTrip
  import opened CashDetails

  // ---------- capture ----------

  /** A broker value of a listed account, in a currency of three capitals, under a supported tag. */
  ghost predicate IsWanted(reader: Reader, accounts: set<string>, item: Item) {
    var currency := reader.upper(reader.strip(item.currency));
    && reader.strip(item.account) in accounts
    && |currency| == 3 && 'A' <= currency[0] <= 'Z' && 'A' <= currency[1] <= 'Z' && 'A' <= currency[2] <= 'Z'
    && Supported(reader.strip(item.tag))
  }

  ghost predicate Supported(tag: string) {
    tag in {"$LEDGER-CashBalance", "$LEDGER-TotalCashBalance", "AvailableFunds", "CashBalance", "FullAvailableFunds",
            "SettledCash", "TotalCashBalance"}
  }

  lemma SupportedTags(tag: string)
    ensures Supported(tag) <==> tag in TAGS
  {
  }

  /** The row of a captured value: its own names, where it came from, and its decimal text under its tag. */
  ghost predicate Captures(reader: Reader, sourceMethod: string, item: Item, row: Row) {
    && row.account == reader.strip(item.account) && row.currency == reader.upper(reader.strip(item.currency))
    && row.details.sourceMethod == Some(sourceMethod) && row.details.segmentKey == Some("unsuffixed")
    && row.details.representation == Some(if item.value.Native? then "native_text" else "non_text")
    && (row.details.modelScope == Some("no_model_code") <==> item.model == Some(""))
    && (row.details.modelScope == Some("model_specific") <==>
          item.model.Some? && item.model.value != "" && reader.strip(item.model.value) != "")
    && row.details.modelScope in {Some("no_model_code"), Some("model_specific"), Some("unknown")}
    && row.cells.Keys == {reader.strip(item.tag)}
    && var text := DecText(reader.parse, item.value);
       row.cells[reader.strip(item.tag)] == if text.Some? then Native(text.value) else Unusable
  }

  lemma CapturedRowSays(reader: Reader, accounts: set<string>, sourceMethod: string, item: Item)
    ensures Wanted(reader, accounts, item) <==> IsWanted(reader, accounts, item)
    ensures Captures(reader, sourceMethod, item, CapturedRow(reader, sourceMethod, item))
  {
    SupportedTags(reader.strip(item.tag));
    hide DecText, Supported;
  }

  /** The wanted values among some, told by their places, and one row for each, in their order. */
  ghost predicate RowsFor(reader: Reader, accounts: set<string>, sourceMethod: string, items: seq<Item>,
                          rows: seq<Row>, places: seq<int>)
  {
    && |places| == |rows|
    && (forall j :: 0 <= j < |rows| ==>
          0 <= places[j] < |items| && Captures(reader, sourceMethod, items[places[j]], rows[j]))
    && (forall i, j :: 0 <= i < j < |rows| ==> places[i] < places[j])
    && forall i :: 0 <= i < |items| ==> (i in places <==> IsWanted(reader, accounts, items[i]))
  }

  lemma OneMoreRow(reader: Reader, accounts: set<string>, sourceMethod: string, items: seq<Item>, item: Item,
                   rows: seq<Row>, row: Row, places: seq<int>)
    requires RowsFor(reader, accounts, sourceMethod, items, rows, places)
    ensures !IsWanted(reader, accounts, item) ==>
              RowsFor(reader, accounts, sourceMethod, items + [item], rows, places)
    ensures IsWanted(reader, accounts, item) && Captures(reader, sourceMethod, item, row) ==>
              RowsFor(reader, accounts, sourceMethod, items + [item], rows + [row], places + [|items|])
  {
    hide IsWanted, Captures;
    var all := items + [item];
    assert forall i :: 0 <= i < |items| ==> all[i] == items[i];
    assert all[|items|] == item && |items| !in places;
    assert forall i :: i in places + [|items|] <==> i in places || i == |items|;
  }

  /** Capture gives one row for every wanted value, in their order, and no other. */
  lemma {:induction false} CaptureIsExact(reader: Reader, accounts: set<string>, sourceMethod: string, items: seq<Item>)
    returns (places: seq<int>)
    ensures RowsFor(reader, accounts, sourceMethod, items, Captured(reader, accounts, sourceMethod, items), places)
  {
    hide IsWanted, Wanted, CapturedRow, Captures, RowsFor;
    places := [];
    if items == [] {
      assert RowsFor(reader, accounts, sourceMethod, [], [], []) by { NoRowsAtFirst(reader, accounts, sourceMethod); }
    } else {
      var front, last := items[..|items| - 1], items[|items| - 1];
      places := CaptureIsExact(reader, accounts, sourceMethod, front);
      CapturedRowSays(reader, accounts, sourceMethod, last);
      assert items == front + [last];
      OneMoreRow(reader, accounts, sourceMethod, front, last, Captured(reader, accounts, sourceMethod, front),
                 CapturedRow(reader, sourceMethod, last), places);
      if Wanted(reader, accounts, last) { places := places + [|front|]; }
    }
  }

  lemma NoRowsAtFirst(reader: Reader, accounts: set<string>, sourceMethod: string)
    ensures RowsFor(reader, accounts, sourceMethod, [], [], [])
  {
  }

  // ---------- representable decimals ----------

  /** A value has a text exactly when it is a decimal of at most 4096 digits and zeros; the text has its number. */
  lemma TextIsExact(parse: Parser, raw: Raw)
    ensures DecText(parse, raw).Some? <==>
              && !raw.Unusable? && parse(raw.text).Some?
              && var d := parse(raw.text).value;
                 |Str(d.coefficient)| + (if d.exponent < 0 then -d.exponent else d.exponent) <= 4096
    ensures DecText(parse, raw).Some? ==>
              Accepts(DecText(parse, raw).value)
              && NumberOf(PlainDec(DecText(parse, raw).value)) == NumberOf(parse(raw.text).value)
  {
    hide Print, NumberOf, Plain, Accepts, PlainDec, Str;
    if DecText(parse, raw).Some? { PrintIsExact(parse(raw.text).value); }
  }

  // ---------- the state of a field ----------

  /** Exactly one cell stands under the key, at place i. */
  ghost predicate AloneAt(cells: seq<Cell>, key: Key, i: int) {
    0 <= i < |cells| && cells[i].key == key && forall j :: 0 <= j < |cells| && j != i ==> cells[j].key != key
  }

  /** The cells under a key, told by their places. */
  ghost predicate Found(cells: seq<Cell>, key: Key, m: seq<Cell>, places: seq<int>) {
    && |places| == |m|
    && (forall j :: 0 <= j < |m| ==> 0 <= places[j] < |cells| && cells[places[j]] == m[j])
    && (forall i, j :: 0 <= i < j < |m| ==> places[i] < places[j])
    && forall i :: 0 <= i < |cells| ==> (i in places <==> cells[i].key == key)
  }

  lemma OneMoreFound(cells: seq<Cell>, key: Key, m: seq<Cell>, places: seq<int>, cell: Cell)
    requires Found(cells, key, m, places)
    ensures cell.key != key ==> Found(cells + [cell], key, m, places)
    ensures cell.key == key ==> Found(cells + [cell], key, m + [cell], places + [|cells|])
  {
    var all := cells + [cell];
    assert forall i :: 0 <= i < |cells| ==> all[i] == cells[i];
    assert all[|cells|] == cell && |cells| !in places;
    assert forall i :: i in places + [|cells|] <==> i in places || i == |cells|;
  }

  lemma {:induction false} MatchingIsFound(cells: seq<Cell>, key: Key) returns (places: seq<int>)
    ensures Found(cells, key, Matching(cells, key), places)
  {
    places := [];
    if cells != [] {
      var front, last := cells[..|cells| - 1], cells[|cells| - 1];
      places := MatchingIsFound(front, key);
      assert cells == front + [last];
      MatchingSnoc(front, last, key);
      hide Matching, Found;
      OneMoreFound(front, key, Matching(front, key), places, last);
      if last.key == key { places := places + [|front|]; }
    }
  }

  /** A field is observed exactly when one cell alone stands under it and is representable, missing when none does. */
  lemma StateIsExact(parse: Parser, cells: seq<Cell>, key: Key)
    ensures var state := StateOf(parse, Matching(cells, key));
            && (state == Missing <==> forall i :: 0 <= i < |cells| ==> cells[i].key != key)
            && (state == Observed <==>
                  exists i :: AloneAt(cells, key, i) && DecText(parse, cells[i].raw).Some?)
            && (forall i :: AloneAt(cells, key, i) ==> Matching(cells, key) == [cells[i]])
  {
    hide DecText, Matching;
    var places := MatchingIsFound(cells, key);
    var m := Matching(cells, key);
    if |m| >= 1 { assert places[0] in places; }
    if |m| >= 2 { assert places[1] in places; }
    if |m| == 1 { assert AloneAt(cells, key, places[0]); }
    forall i | AloneAt(cells, key, i) ensures m == [cells[i]] {
      assert i in places;
    }
  }

  // ---------- inspection ----------

  ghost predicate GoodKey(key: Key) {
    && |key.0| == 3 && 'A' <= key.0[0] <= 'Z' && 'A' <= key.0[1] <= 'Z' && 'A' <= key.0[2] <= 'Z'
    && Supported(key.1)
  }

  /** Every line has a good key, every value is a number, and no key stands twice, in one list or in both. */
  ghost predicate GoodLines(parse: Parser, a: Attachment) {
    && (forall e :: e in a.values ==> GoodKey(e.0) && parse(e.1).Some?)
    && (forall k :: k in a.invalidFields ==> GoodKey(k))
    && NoKeyTwice(a)
  }

  /** The figure selected elsewhere is the number under its key, if the attachment has that key at all. */
  ghost predicate GoodSelection(parse: Parser, a: Attachment, currency: string, selected: Selected) {
    && selected.tag.Some?
    && (currency, selected.tag.value) !in a.invalidFields
    && forall e :: e in a.values && e.0 == (currency, selected.tag.value) ==>
         && !selected.balance.Unusable? && parse(selected.balance.text).Some? && parse(e.1).Some?
         && NumberOf(parse(e.1).value) == NumberOf(parse(selected.balance.text).value)
  }

  lemma ReportIsGood(parse: Parser, r: Report)
    ensures ReportOk(parse, r) <==> GoodKey(r.key) && (r.text.Some? ==> parse(r.text.value).Some?)
  {
    SupportedTags(r.key.1);
    hide Supported;
  }

  lemma LinesAreGood(parse: Parser, a: Attachment)
    ensures (forall i :: 0 <= i < |Reports(a)| ==> ReportOk(parse, Reports(a)[i])) <==>
              && (forall e :: e in a.values ==> GoodKey(e.0) && parse(e.1).Some?)
              && forall k :: k in a.invalidFields ==> GoodKey(k)
  {
    var rs, n := Reports(a), |a.values|;
    forall r ensures ReportOk(parse, r) <==> GoodKey(r.key) && (r.text.Some? ==> parse(r.text.value).Some?) {
      ReportIsGood(parse, r);
    }
    hide ReportOk, GoodKey;
    assert forall i :: 0 <= i < n ==> rs[i] == Report(a.values[i].0, Some(a.values[i].1));
    assert forall i :: n <= i < |rs| ==> rs[i] == Report(a.invalidFields[i - n], None);
    assert forall i :: 0 <= i < |a.invalidFields| ==> rs[n + i] == Report(a.invalidFields[i], None);
    assert forall i :: 0 <= i < n ==> a.values[i] in a.values;
    assert forall i :: 0 <= i < |a.invalidFields| ==> a.invalidFields[i] in a.invalidFields;
    hide Reports;
  }

  ghost predicate NoKeyTwice(a: Attachment) {
    && (forall i, j :: 0 <= i < j < |a.values| ==> a.values[i].0 != a.values[j].0)
    && (forall i, j :: 0 <= i < j < |a.invalidFields| ==> a.invalidFields[i] != a.invalidFields[j])
    && forall e :: e in a.values ==> e.0 !in a.invalidFields
  }

  /** The key of each line, by its place. */
  lemma KeysOfLines(a: Attachment)
    ensures var rs, n := Reports(a), |a.values|;
            && |rs| == n + |a.invalidFields|
            && (forall i :: 0 <= i < n ==> rs[i].key == a.values[i].0)
            && forall i :: n <= i < |rs| ==> rs[i].key == a.invalidFields[i - n]
  {
  }

  lemma DistinctKeysAreApart(a: Attachment)
    requires DistinctKeys(KeyOfReport(), Reports(a))
    ensures NoKeyTwice(a)
  {
    KeysOfLines(a);
    hide Reports;
    var rs, n := Reports(a), |a.values|;
    forall i, j | 0 <= i < j < |rs| ensures rs[i].key != rs[j].key {
      assert KeyOfReport()(rs[i]) != KeyOfReport()(rs[j]);
    }
    hide DistinctKeys;
    forall i, j | 0 <= i < j < |a.invalidFields| ensures a.invalidFields[i] != a.invalidFields[j] {
      assert rs[n + i].key != rs[n + j].key;
    }
    forall i, j | 0 <= i < n && 0 <= j < |a.invalidFields| ensures a.values[i].0 != a.invalidFields[j] {
      assert rs[i].key != rs[n + j].key;
    }
  }

  lemma KeysApartAreDistinct(a: Attachment)
    requires NoKeyTwice(a)
    ensures DistinctKeys(KeyOfReport(), Reports(a))
  {
    KeysOfLines(a);
    hide Reports;
    var rs, n := Reports(a), |a.values|;
    forall i, j | 0 <= i < j < |rs| ensures KeyOfReport()(rs[i]) != KeyOfReport()(rs[j]) {
      assert i < n <= j ==> a.values[i] in a.values;
      assert j >= n ==> a.invalidFields[j - n] in a.invalidFields;
    }
  }

  lemma SelectionIsGood(parse: Parser, a: Attachment, currency: string, selected: Option<Selected>)
    ensures SelectedAgrees(parse, Reports(a), currency, selected) <==>
              (selected.Some? ==> GoodSelection(parse, a, currency, selected.value))
  {
    forall r
      ensures r in Reports(a) <==> if r.text.Some? then (r.key, r.text.value) in a.values else r.key in a.invalidFields
    {
      ReportsOf(a, r);
    }
    hide Reports, NumberOf;
    if selected.Some? && selected.value.tag.Some? {
      var key := (currency, selected.value.tag.value);
      if SelectedAgrees(parse, Reports(a), currency, selected) {
        assert Report(key, None) !in Reports(a);
        forall e | e in a.values && e.0 == key ensures Report(key, Some(e.1)) in Reports(a) {
        }
      }
    }
  }

  /** Exactly which attachments pass an inspection. */
  lemma InspectionIsExact(parse: Parser, a: Attachment, observedAt: string, currency: string,
                          selected: Option<Selected>)
    ensures InspectionPasses(parse, a, observedAt, currency, selected) <==>
              && a.schema == "ibkr.cash_observations.v1" && a.observedAt == observedAt && observedAt != ""
              && GoodLines(parse, a) && (selected.Some? ==> GoodSelection(parse, a, currency, selected.value))
  {
    LinesAreGood(parse, a);
    if DistinctKeys(KeyOfReport(), Reports(a)) { DistinctKeysAreApart(a); }
    if NoKeyTwice(a) { KeysApartAreDistinct(a); }
    SelectionIsGood(parse, a, currency, selected);
    hide NoKeyTwice, Reports, GoodKey, ReportOk, GoodSelection, SelectedAgrees, DistinctKeys;
  }

  /** What the lines of an attachment say of a key. */
  lemma FieldIsExact(a: Attachment, key: Key)
    ensures var state := FieldIn(Reports(a), key);
            && (state == Observed <==> exists e :: e in a.values && e.0 == key)
            && (state == Missing <==> key !in a.invalidFields && forall e :: e in a.values ==> e.0 != key)
  {
    forall r
      ensures r in Reports(a) <==> if r.text.Some? then (r.key, r.text.value) in a.values else r.key in a.invalidFields
    {
      ReportsOf(a, r);
    }
    hide Reports;
    forall e | e in a.values && e.0 == key ensures Report(key, Some(e.1)) in Reports(a) {
    }
    if key in a.invalidFields { assert Report(key, None) in Reports(a); }
  }

  // ---------- details ----------

  /** A cell gives a detail exactly when it stands alone, is representable and comes from the cache. */
  lemma DetailIsExact(parse: Parser, cells: seq<Cell>, e: (Key, Details))
    ensures IsDetail(parse, cells, e) <==>
              exists i :: AloneAt(cells, e.0, i) && DecText(parse, cells[i].raw).Some? && cells[i].details == Some(e.1)
                          && e.1.sourceMethod == "account_values_cache"
  {
    StateIsExact(parse, cells, e.0);
    hide DecText, Matching, AloneAt;
  }

  ghost predicate GoodDetails(d: Details) {
    && d.sourceMethod in {"account_values_cache", "unspecified"}
    && d.modelScope in {"no_model_code", "model_specific", "unknown"}
    && d.representation in {"native_text", "non_text"} && d.segmentKey == "unsuffixed"
  }

  /** Exactly which details pass an inspection. */
  lemma DetailInspectionIsExact(parse: Parser, d: DetailAttachment, cash: Option<Attachment>, observedAt: string,
                                currency: string, selected: Option<Selected>)
    ensures DetailsPass(parse, d, cash, observedAt, currency, selected) <==>
              && d.observedAt == observedAt && cash.Some?
              && InspectionPasses(parse, cash.value, observedAt, currency, selected)
              && (forall e :: e in d.fields ==>
                    GoodDetails(e.1) && exists v :: v in cash.value.values && v.0 == e.0)
              && forall i, j :: 0 <= i < j < |d.fields| ==> d.fields[i].0 != d.fields[j].0
  {
    hide InspectionPasses;
    assert forall i :: 0 <= i < |d.fields| ==> d.fields[i] in d.fields;
  }
}
