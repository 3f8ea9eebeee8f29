/**
 The projection of executed trades (application/ibkr_flex_executions.py): every row of
 the selected statement is read under strict field rules, and the rows are folded by the
 broker's execution identity.
 */
module FlexExecutions {
  import opened Wrappers
  import opened FlexFields
  import opened IdentityFold
  import opened Ordering
  import opened DecimalText
  import opened FlexNumbers

  const MAX_ROWS := 10000
  const MAX_RECORDS := 256
  const MAX_PERIOD_DAYS := 366

  /** One native trade row; an attribute may be absent. */
  datatype Row = Row(
    accountId: Option<string>, levelOfDetail: Option<string>, ibExecID: Option<string>, tradeDate: Option<string>,
    buySell: Option<string>, quantity: Option<string>, tradePrice: Option<string>, currency: Option<string>,
    assetCategory: Option<string>, symbol: Option<string>, dateTime: Option<string>, tradeID: Option<string>,
    ibCommission: Option<string>, ibCommissionCurrency: Option<string>, taxes: Option<string>,
    notes: Option<string>, originals: seq<Option<string>>)

  datatype Child = Trade(row: Row) | Other

  datatype Statement = Statement(accountId: Option<string>, trades: seq<seq<Child>>)

  /** White space, and the readers of calendar days (as day numbers) and of local times on a day. */
  datatype Calendar = Calendar(isSpace: char -> bool, day: string -> Option<int>,
                               localTime: (string, int) -> Option<string>)

  datatype Record = Record(
    execution: string, tradeDate: int, localTime: Option<string>, symbol: string, assetCategory: string, side: string,
    quantity: string, price: string, currency: string,
    commission: Option<string>, commissionCurrency: Option<string>, taxes: Option<string>)

  /** What two rows of one identity must agree on. */
  datatype Execution = Execution(record: Record, tradeID: Option<string>)

  // ---------- field rules ----------

  predicate SymbolOk(s: string) {
    && 1 <= |s| <= 64 && (IsUpper(s[0]) || IsDigit(s[0]))
    && forall i :: 1 <= i < |s| ==> IsUpper(s[i]) || IsDigit(s[i]) || s[i] in ". /_-"
  }

  predicate AssetCategoryOk(s: string) {
    1 <= |s| <= 16 && IsUpper(s[0]) && forall i :: 1 <= i < |s| ==> IsUpper(s[i]) || IsDigit(s[i]) || s[i] == '_'
  }

  predicate CurrencyOk(s: string) {
    3 <= |s| <= 10 && IsUpper(s[0]) && forall i :: 1 <= i < |s| ==> IsUpper(s[i]) || IsDigit(s[i])
  }

  predicate HashOk(s: string) {
    |s| == 64 && forall i :: 0 <= i < |s| ==> IsDigit(s[i]) || 'a' <= s[i] <= 'f'
  }

  predicate Separates(isSpace: char -> bool, c: char) { c == ',' || c == ';' || isSpace(c) }

  /** The two characters at i are a whole token "ca" or "co", in any case. */
  predicate MarkerAt(isSpace: char -> bool, notes: string, i: nat)
    requires i + 2 <= |notes|
  {
    && notes[i] in "cC" && notes[i + 1] in "aAoO"
    && (i == 0 || Separates(isSpace, notes[i - 1]))
    && (i + 2 == |notes| || Separates(isSpace, notes[i + 2]))
  }

  predicate AllZeros(s: string) { |s| > 0 && forall i :: 0 <= i < |s| ==> s[i] == '0' }

  /** A reference to an original trade that refers to nothing. */
  predicate NoReference(s: string) {
    var i := DotAt(s);
    s == "" || s == "0000-00-00" || (AllZeros(s[..i]) && (i == |s| || AllZeros(s[i + 1..])))
  }

  predicate Correction(isSpace: char -> bool, row: Row) {
    var notes := Text(row.notes);
    || (exists i :: 0 <= i && i + 2 <= |notes| && MarkerAt(isSpace, notes, i))
    || (exists i :: 0 <= i < |row.originals| && !NoReference(Strip(isSpace, Text(row.originals[i]))))
  }

  // ---------- one row ----------

  predicate OnlyLevelMissing(row: Row) {
    !Given(row.levelOfDetail) && RequiredBesidesLevel(row)
  }

  predicate RequiredBesidesLevel(row: Row) {
    && Given(row.accountId) && Given(row.ibExecID) && Given(row.tradeDate) && Given(row.buySell) && Given(row.quantity)
    && Given(row.tradePrice) && Given(row.currency) && Given(row.assetCategory) && Given(row.symbol)
  }

  predicate QuantityOk(s: string) { AmountOk(s) && Value(s) != 0.0 }

  predicate PriceOk(s: string) { AmountOk(s) && Value(s) >= 0.0 }

  predicate FeeFieldOk(field: Option<string>) { Given(field) ==> FeeOk(Text(field)) }

  /** The fields after the date and time, all of them good. */
  predicate TermsOk(row: Row) {
    && QuantityOk(Text(row.quantity)) && PriceOk(Text(row.tradePrice)) && Text(row.buySell) in {"BUY", "SELL"}
    && SymbolOk(Text(row.symbol)) && AssetCategoryOk(Text(row.assetCategory)) && CurrencyOk(Text(row.currency))
    && FeeFieldOk(row.ibCommission) && FeeFieldOk(row.taxes)
    && (Given(row.ibCommissionCurrency) ==> CurrencyOk(Text(row.ibCommissionCurrency)))
  }

  function LocalTime(calendar: Calendar, row: Row, date: int): Option<string> {
    if Given(row.dateTime) then calendar.localTime(Text(row.dateTime), date) else None
  }

  function ExecutionOf(row: Row, date: int, localTime: Option<string>): Execution {
    Execution(
      Record(Text(row.ibExecID), date, localTime, Text(row.symbol), Text(row.assetCategory), Text(row.buySell),
             Text(row.quantity), Text(row.tradePrice), Text(row.currency),
             NonEmpty(row.ibCommission), NonEmpty(row.ibCommissionCurrency), NonEmpty(row.taxes)),
      NonEmpty(row.tradeID))
  }

  datatype Scope = Scope(calendar: Calendar, account: string, start: int, end: int)

  /** How one row is read. */
  function ReadRow(scope: Scope, row: Row): Reading<Execution> {
    var isSpace := scope.calendar.isSpace;
    if !Given(row.levelOfDetail) || !RequiredBesidesLevel(row) then
      Refuse(if OnlyLevelMissing(row) then "execution_level_required" else "execution_fields_missing")
    else if Text(row.accountId) != scope.account then Refuse("execution_account_mismatch")
    else if Text(row.levelOfDetail) != "EXECUTION" then Refuse("execution_level_required")
    else if Correction(isSpace, row) then Refuse("execution_correction_unresolved")
    else if !TextOk(isSpace, Text(row.ibExecID), MAX_IDENTITY) then Refuse("execution_fields_invalid")
    else
      match scope.calendar.day(Text(row.tradeDate))
      case None => Refuse("execution_fields_invalid")
      case Some(date) =>
        var localTime := LocalTime(scope.calendar, row, date);
        if !(scope.start <= date <= scope.end) then Refuse("execution_date_outside_period")
        else if Given(row.dateTime) && localTime.None? then Refuse("execution_datetime_invalid")
        else if !TermsOk(row) then Refuse("execution_fields_invalid")
        else Keep(Text(row.ibExecID), ExecutionOf(row, date, localTime))
  }

  function Readings(scope: Scope, rows: seq<Row>): (rs: seq<Reading<Execution>>)
    ensures |rs| == |rows| && forall i :: 0 <= i < |rows| ==> rs[i] == ReadRow(scope, rows[i])
  {
    seq(|rows|, i requires 0 <= i < |rows| => ReadRow(scope, rows[i]))
  }

  // ---------- the projection ----------

  function RowsOf(section: seq<Child>): (rows: seq<Row>)
    requires forall i :: 0 <= i < |section| ==> section[i].Trade?
    ensures |rows| == |section| && forall i :: 0 <= i < |rows| ==> rows[i] == section[i].row
  {
    seq(|section|, i requires 0 <= i < |section| => section[i].row)
  }

  /** What is wrong with the statement or the request before any row is read. */
  function HeaderProblem(calendar: Calendar, statement: Statement, sourceRef: Option<string>,
                         from: Option<string>, to: Option<string>): Option<string>
  {
    var start, end := DayOf(calendar.day, from), DayOf(calendar.day, to);
    if |statement.trades| == 0 then Some("trades_section_missing")
    else if |statement.trades| != 1 || exists i :: 0 <= i < |statement.trades[0]| && statement.trades[0][i].Other? then
      Some("unsupported_trade_rows")
    else if start.None? || end.None? || start.value > end.value || end.value - start.value >= MAX_PERIOD_DAYS then
      Some("execution_period_invalid")
    else if sourceRef.None? || !HashOk(sourceRef.value) then Some("execution_report_reference_invalid")
    else if |statement.trades[0]| > MAX_ROWS then Some("execution_record_limit")
    else None
  }

  function ScopeOf(calendar: Calendar, statement: Statement, from: Option<string>, to: Option<string>): Scope
    requires DayOf(calendar.day, from).Some? && DayOf(calendar.day, to).Some?
  {
    Scope(calendar, Strip(calendar.isSpace, Text(statement.accountId)),
          DayOf(calendar.day, from).value, DayOf(calendar.day, to).value)
  }

  ghost predicate Projectable(scope: Scope, rows: seq<Row>) {
    Acceptable(Readings(scope, rows), MAX_RECORDS)
  }

  function Entries(scope: Scope, rows: seq<Row>): seq<(string, Execution)> {
    FirstOccurrences(Readings(scope, rows))
  }

  method ProjectFlexExecutions(calendar: Calendar, statement: Statement, sourceRef: Option<string>,
                               from: Option<string>, to: Option<string>)
    returns (p: Projection<Execution>)
    ensures var problem := HeaderProblem(calendar, statement, sourceRef, from, to);
            if problem.Some? then p == Unavailable(problem.value)
            else
              var scope, rows := ScopeOf(calendar, statement, from, to), RowsOf(statement.trades[0]);
              && (p.Available? <==> Projectable(scope, rows))
              && (p.Available? ==> p.entries == Entries(scope, rows))
              && (p.Unavailable? ==> exists i :: StopsAt(Readings(scope, rows), i, MAX_RECORDS, p.reason,
                                                         "execution_conflict", "execution_record_limit"))
  {
    var problem := HeaderProblem(calendar, statement, sourceRef, from, to);
    if problem.Some? { return Unavailable(problem.value); }
    var scope, rows := ScopeOf(calendar, statement, from, to), RowsOf(statement.trades[0]);
    p := Fold(Readings(scope, rows), MAX_RECORDS, "execution_conflict", "execution_record_limit");
  }

  // ---------- what the projection means ----------

  lemma ReadingsOfRows(scope: Scope, rows: seq<Row>, r: Reading<Execution>)
    ensures r in Readings(scope, rows) <==> exists row :: row in rows && ReadRow(scope, row) == r
  {
    var rs := Readings(scope, rows);
    if r in rs {
      var i :| 0 <= i < |rs| && rs[i] == r;
      assert rows[i] in rows && ReadRow(scope, rows[i]) == r;
    }
    if row :| row in rows && ReadRow(scope, row) == r {
      var i :| 0 <= i < |rows| && rows[i] == row;
      assert rs[i] == r;
    }
  }

  /** Reordering rows, and repeating any of them exactly, changes neither the status nor the records. */
  lemma RowOrderAndRepeatsDoNotMatter(scope: Scope, rows: seq<Row>, others: seq<Row>)
    requires forall row :: row in rows <==> row in others
    ensures Projectable(scope, rows) <==> Projectable(scope, others)
    ensures Projectable(scope, rows) ==> multiset(Entries(scope, rows)) == multiset(Entries(scope, others))
  {
    hide ReadRow, Readings;
    var rs, qs := Readings(scope, rows), Readings(scope, others);
    forall r ensures r in rs <==> r in qs {
      ReadingsOfRows(scope, rows, r);
      ReadingsOfRows(scope, others, r);
    }
    OrderAndRepeatsDoNotMatter(rs, qs, MAX_RECORDS);
  }

  /** Two rows that are read as different executions of one identity leave no projection. */
  lemma ConflictMakesUnavailable(scope: Scope, rows: seq<Row>, a: Row, b: Row)
    requires a in rows && b in rows
    requires ReadRow(scope, a).Keep? && ReadRow(scope, b).Keep?
    requires Text(a.ibExecID) == Text(b.ibExecID) && ReadRow(scope, a) != ReadRow(scope, b)
    ensures !Projectable(scope, rows)
  {
    ReadRowKeepsItsIdentity(scope, a);
    ReadRowKeepsItsIdentity(scope, b);
    hide ReadRow, Readings;
    ReadingsOfRows(scope, rows, ReadRow(scope, a));
    ReadingsOfRows(scope, rows, ReadRow(scope, b));
  }

  /** A projection holds the identity of every row exactly once, with what each such row says. */
  lemma EveryRowIsRecordedOnce(scope: Scope, rows: seq<Row>, row: Row)
    requires Projectable(scope, rows) && row in rows
    ensures var r := ReadRow(scope, row);
            && r.Keep? && r.id == Text(row.ibExecID)
            && multiset(Entries(scope, rows))[(r.id, r.value)] == 1
            && forall value :: (r.id, value) in Entries(scope, rows) ==> value == r.value
  {
    var r := ReadRow(scope, row);
    ReadRowKeepsItsIdentity(scope, row);
    hide ReadRow;
    var rs := Readings(scope, rows);
    ReadingsOfRows(scope, rows, r);
    EntriesAreReadings(rs, r.id, r.value);
    FirstOccurrencesSpec(rs);
    DistinctCount(IdOf(), Entries(scope, rows), (r.id, r.value));
    forall value | (r.id, value) in Entries(scope, rows) ensures value == r.value {
      EntriesAreReadings(rs, r.id, value);
    }
  }

  lemma ReadRowKeepsItsIdentity(scope: Scope, row: Row)
    ensures var r := ReadRow(scope, row);
            !r.Skip? && (r.Keep? ==> r.id == Text(row.ibExecID))
  {
  }

  // ---------- exactly which rows are good ----------

  /** x and y, standing between these texts, are the word "ca" or "co" in any case. */
  ghost predicate CorrectionWord(isSpace: char -> bool, before: string, x: char, y: char, after: string) {
    && x in {'c', 'C'} && y in {'a', 'A', 'o', 'O'}
    && (before == "" || before[|before| - 1] in {',', ';'} || isSpace(before[|before| - 1]))
    && (after == "" || after[0] in {',', ';'} || isSpace(after[0]))
  }

  /** Some word of the notes, cut at commas, semicolons and white space, is "ca" or "co" in any case. */
  ghost predicate Marked(isSpace: char -> bool, notes: string) {
    exists before: string, x: char, y: char, after: string ::
      CorrectionWord(isSpace, before, x, y, after) && notes == before + [x, y] + after
  }

  /** A reference to no trade: nothing, zeros, zeros with a fraction of zeros, or the zero date. */
  ghost predicate NoTrade(s: string) {
    || s == "" || s == "0000-00-00"
    || (exists a: nat :: a >= 1 && s == Zeros(a))
    || (exists a: nat, b: nat :: a >= 1 && b >= 1 && s == Zeros(a) + "." + Zeros(b))
  }

  lemma AllZerosAreZeros(s: string)
    ensures AllZeros(s) <==> |s| >= 1 && s == Zeros(|s|)
  {
  }

  lemma NoReferenceExactly(s: string)
    ensures NoReference(s) <==> NoTrade(s)
  {
    var i := DotAt(s);
    AllZerosAreZeros(s[..i]);
    if i < |s| {
      AllZerosAreZeros(s[i + 1..]);
      assert s == s[..i] + "." + s[i + 1..];
    } else {
      assert s[..i] == s;
    }
    if a: nat :| a >= 1 && s == Zeros(a) {
      assert s + "" == s;
      DotAtJoined(s, "");
    }
    if a: nat, b: nat :| a >= 1 && b >= 1 && s == Zeros(a) + "." + Zeros(b) {
      assert s == Zeros(a) + ("." + Zeros(b));
      DotAtJoined(Zeros(a), "." + Zeros(b));
      assert s[..a] == Zeros(a) && s[a + 1..] == Zeros(b);
      AllZerosAreZeros(Zeros(a));
      AllZerosAreZeros(Zeros(b));
    }
  }

  lemma MarkedWord(isSpace: char -> bool, before: string, x: char, y: char, after: string)
    ensures MarkerAt(isSpace, before + [x, y] + after, |before|) <==> CorrectionWord(isSpace, before, x, y, after)
  {
    var notes, i := before + [x, y] + after, |before|;
    assert notes[i] == x && notes[i + 1] == y;
    assert i > 0 ==> notes[i - 1] == before[i - 1];
    assert after != "" ==> notes[i + 2] == after[0];
  }

  lemma MarkedExactly(isSpace: char -> bool, notes: string)
    ensures Marked(isSpace, notes) <==> exists i :: 0 <= i && i + 2 <= |notes| && MarkerAt(isSpace, notes, i)
  {
    hide MarkerAt, CorrectionWord;
    if i :| 0 <= i && i + 2 <= |notes| && MarkerAt(isSpace, notes, i) {
      assert notes == notes[..i] + [notes[i], notes[i + 1]] + notes[i + 2..];
      MarkedWord(isSpace, notes[..i], notes[i], notes[i + 1], notes[i + 2..]);
    }
    forall before: string, x: char, y: char, after: string | CorrectionWord(isSpace, before, x, y, after)
      ensures MarkerAt(isSpace, before + [x, y] + after, |before|)
    {
      MarkedWord(isSpace, before, x, y, after);
    }
  }

  /** No correction: no marker in the notes, and every original reference refers to no trade. */
  ghost predicate Uncorrected(isSpace: char -> bool, row: Row) {
    && !Marked(isSpace, Text(row.notes))
    && forall i :: 0 <= i < |row.originals| ==> NoTrade(Strip(isSpace, Text(row.originals[i])))
  }

  lemma UncorrectedExactly(isSpace: char -> bool, row: Row)
    ensures Uncorrected(isSpace, row) <==> !Correction(isSpace, row)
  {
    MarkedExactly(isSpace, Text(row.notes));
    hide Marked, MarkerAt, NoReference, NoTrade, Strip;
    forall i | 0 <= i < |row.originals|
      ensures NoTrade(Strip(isSpace, Text(row.originals[i]))) <==> NoReference(Strip(isSpace, Text(row.originals[i])))
    {
      NoReferenceExactly(Strip(isSpace, Text(row.originals[i])));
    }
  }

  /** The row names itself: account, level, identity and a day of the period, with a local time if one is given. */
  ghost predicate GoodIdentity(scope: Scope, row: Row) {
    && scope.account != "" && row.accountId == Some(scope.account) && row.levelOfDetail == Some("EXECUTION")
    && row.ibExecID.Some? && TextOk(scope.calendar.isSpace, row.ibExecID.value, 256)
    && row.tradeDate.Some? && row.tradeDate.value != ""
    && scope.calendar.day(row.tradeDate.value).Some?
    && (var date := scope.calendar.day(row.tradeDate.value).value;
        && scope.start <= date <= scope.end
        && (row.dateTime.Some? && row.dateTime.value != "" ==>
              scope.calendar.localTime(row.dateTime.value, date).Some?))
  }

  ghost predicate GoodFee(field: Option<string>) { field.Some? && field.value != "" ==> FeeOk(field.value) }

  /** The row's terms: what was traded, on which side, how much, at what price and at what fees. */
  ghost predicate GoodTerms(row: Row) {
    && row.buySell in {Some("BUY"), Some("SELL")}
    && row.quantity.Some? && AmountOk(row.quantity.value) && Value(row.quantity.value) != 0.0
    && row.tradePrice.Some? && AmountOk(row.tradePrice.value) && Value(row.tradePrice.value) >= 0.0
    && row.symbol.Some? && SymbolOk(row.symbol.value)
    && row.assetCategory.Some? && AssetCategoryOk(row.assetCategory.value)
    && row.currency.Some? && CurrencyOk(row.currency.value)
    && GoodFee(row.ibCommission) && GoodFee(row.taxes)
    && (row.ibCommissionCurrency.Some? && row.ibCommissionCurrency.value != "" ==>
          CurrencyOk(row.ibCommissionCurrency.value))
  }

  ghost predicate GoodRow(scope: Scope, row: Row) {
    GoodIdentity(scope, row) && GoodTerms(row) && Uncorrected(scope.calendar.isSpace, row)
  }

  lemma AmountIsNotEmpty(s: string)
    requires AmountOk(s)
    ensures s != "" && Accepts(s)
  {
  }

  lemma TermsExactly(row: Row)
    ensures GoodTerms(row) <==>
              TermsOk(row) && Given(row.buySell) && Given(row.quantity) && Given(row.tradePrice) && Given(row.currency)
              && Given(row.assetCategory) && Given(row.symbol)
  {
    hide AmountOk, FeeOk, Value, Accepts;
    if AmountOk(Text(row.quantity)) { AmountIsNotEmpty(Text(row.quantity)); }
    if AmountOk(Text(row.tradePrice)) { AmountIsNotEmpty(Text(row.tradePrice)); }
  }

  /** A row is read exactly when it is good. */
  lemma RowIsReadExactly(scope: Scope, row: Row)
    ensures ReadRow(scope, row).Keep? <==> GoodRow(scope, row)
  {
    TermsExactly(row);
    UncorrectedExactly(scope.calendar.isSpace, row);
    hide TermsOk, GoodTerms, Correction, Uncorrected;
  }

  /** Why a row that gives all required attributes is refused. */
  lemma RefusalExactly(scope: Scope, row: Row)
    requires Given(row.levelOfDetail) && RequiredBesidesLevel(row)
    ensures var r := ReadRow(scope, row);
            var mine, level := row.accountId == Some(scope.account), row.levelOfDetail == Some("EXECUTION");
            var clean, date := Uncorrected(scope.calendar.isSpace, row), DayOf(scope.calendar.day, row.tradeDate);
            && (r == Refuse("execution_account_mismatch") <==> !mine)
            && (r == Refuse("execution_level_required") <==> mine && !level)
            && (r == Refuse("execution_correction_unresolved") <==> mine && level && !clean)
            && (r == Refuse("execution_date_outside_period") <==>
                  && mine && level && clean && TextOk(scope.calendar.isSpace, Text(row.ibExecID), 256)
                  && date.Some? && !(scope.start <= date.value <= scope.end))
            && (r == Refuse("execution_datetime_invalid") <==>
                  && mine && level && clean && TextOk(scope.calendar.isSpace, Text(row.ibExecID), 256)
                  && date.Some? && scope.start <= date.value <= scope.end
                  && Given(row.dateTime) && scope.calendar.localTime(Text(row.dateTime), date.value).None?)
            && (r.Refuse? ==> r.reason in {"execution_account_mismatch", "execution_level_required",
                                           "execution_correction_unresolved", "execution_date_outside_period",
                                           "execution_datetime_invalid", "execution_fields_invalid"})
  {
    UncorrectedExactly(scope.calendar.isSpace, row);
    hide TermsOk, Correction, Uncorrected, TextOk;
  }

  /** The required attributes besides the level: each given and not empty. */
  lemma RequiredExactly(row: Row)
    ensures RequiredBesidesLevel(row) <==>
              {None, Some("")} !! {row.accountId, row.ibExecID, row.tradeDate, row.buySell, row.quantity,
                                   row.tradePrice, row.currency, row.assetCategory, row.symbol}
  {
  }

  /** Why a row that lacks required attributes is refused. */
  lemma MissingExactly(scope: Scope, row: Row)
    ensures var r := ReadRow(scope, row);
            && (r == Refuse("execution_fields_missing") <==> !RequiredBesidesLevel(row))
            && (RequiredBesidesLevel(row) && row.levelOfDetail in {None, Some("")} ==>
                  r == Refuse("execution_level_required"))
  {
    hide TermsOk, Correction, TextOk, RequiredBesidesLevel, LocalTime, ExecutionOf;
  }

  /** Exactly which statements and requests have their rows read, and why the others have not. */
  lemma HeaderIsGoodExactly(calendar: Calendar, statement: Statement, sourceRef: Option<string>,
                            from: Option<string>, to: Option<string>)
    ensures var problem := HeaderProblem(calendar, statement, sourceRef, from, to);
            var one := |statement.trades| == 1 && forall child :: child in statement.trades[0] ==> child.Trade?;
            var period := && from.Some? && to.Some?
                          && calendar.day(from.value).Some? && calendar.day(to.value).Some?
                          && 0 <= calendar.day(to.value).value - calendar.day(from.value).value <= 365;
            var named := && sourceRef.Some? && |sourceRef.value| == 64
                         && forall i :: 0 <= i < 64 ==> sourceRef.value[i] in "0123456789abcdef";
            && (problem.None? <==> one && period && named && |statement.trades[0]| <= 10000)
            && (problem == Some("trades_section_missing") <==> statement.trades == [])
            && (problem == Some("unsupported_trade_rows") <==> statement.trades != [] && !one)
            && (problem == Some("execution_period_invalid") <==> one && !period)
            && (problem == Some("execution_report_reference_invalid") <==> one && period && !named)
            && (problem == Some("execution_record_limit") <==>
                  one && period && named && |statement.trades[0]| > 10000)
  {
    if |statement.trades| == 1 {
      var section := statement.trades[0];
      assert forall i :: 0 <= i < |section| ==> section[i] in section;
    }
    hide DayOf;
    if sourceRef.Some? { HashExactly(sourceRef.value); }
    hide HashOk;
    DayOfExactly(calendar, from);
    DayOfExactly(calendar, to);
  }

  lemma HashExactly(s: string)
    ensures HashOk(s) <==> |s| == 64 && forall i :: 0 <= i < 64 ==> s[i] in "0123456789abcdef"
  {
  }

  lemma DayOfExactly(calendar: Calendar, text: Option<string>)
    ensures DayOf(calendar.day, text) == if text.Some? then calendar.day(text.value) else None
  {
  }

  ghost predicate AllGood(scope: Scope, rows: seq<Row>) {
    forall row :: row in rows ==> GoodRow(scope, row)
  }

  ghost predicate AllRead(scope: Scope, rows: seq<Row>) {
    forall row :: row in rows ==> ReadRow(scope, row).Keep?
  }

  lemma AllReadExactly(scope: Scope, rows: seq<Row>)
    ensures AllRead(scope, rows) <==> AllGood(scope, rows)
  {
    hide ReadRow, GoodRow;
    forall row | row in rows ensures ReadRow(scope, row).Keep? <==> GoodRow(scope, row) {
      RowIsReadExactly(scope, row);
    }
  }

  /** One execution says what both rows say. */
  ghost predicate SayTheSame(calendar: Calendar, a: Row, b: Row) {
    exists e :: Repeats(calendar, e, a) && Repeats(calendar, e, b)
  }

  /** Rows of one identity say the same. */
  ghost predicate Agree(scope: Scope, rows: seq<Row>) {
    forall a, b :: a in rows && b in rows && Text(a.ibExecID) == Text(b.ibExecID) ==>
      SayTheSame(scope.calendar, a, b)
  }

  lemma AgreeExactly(scope: Scope, a: Row, b: Row)
    requires ReadRow(scope, a).Keep? && ReadRow(scope, b).Keep?
    ensures SayTheSame(scope.calendar, a, b) <==> ReadRow(scope, a) == ReadRow(scope, b)
  {
    KeptRowIsRepeated(scope, a);
    KeptRowIsRepeated(scope, b);
    ReadRowKeepsItsIdentity(scope, a);
    ReadRowKeepsItsIdentity(scope, b);
    hide ReadRow, SoundRecord, Repeats, SayTheSame;
    var x, y := ReadRow(scope, a).value, ReadRow(scope, b).value;
    if SayTheSame(scope.calendar, a, b) {
      var e := SaidByBoth(scope.calendar, a, b);
      OneSaying(scope.calendar, x, e, a);
      OneSaying(scope.calendar, y, e, b);
      SameIdentity(scope.calendar, e, a, b);
    }
    if x == y { SaidTogether(scope.calendar, x, a, b); }
  }

  lemma SaidByBoth(calendar: Calendar, a: Row, b: Row) returns (e: Execution)
    requires SayTheSame(calendar, a, b)
    ensures Repeats(calendar, e, a) && Repeats(calendar, e, b)
  {
    hide Repeats;
    e :| Repeats(calendar, e, a) && Repeats(calendar, e, b);
  }

  lemma SaidTogether(calendar: Calendar, e: Execution, a: Row, b: Row)
    requires Repeats(calendar, e, a) && Repeats(calendar, e, b)
    ensures SayTheSame(calendar, a, b)
  {
    hide Repeats;
  }

  lemma SameIdentity(calendar: Calendar, e: Execution, a: Row, b: Row)
    requires Repeats(calendar, e, a) && Repeats(calendar, e, b)
    ensures Text(a.ibExecID) == Text(b.ibExecID)
  {
  }

  /** A row says one thing. */
  lemma OneSaying(calendar: Calendar, x: Execution, y: Execution, row: Row)
    requires Repeats(calendar, x, row) && Repeats(calendar, y, row)
    ensures x == y
  {
  }

  function ExecutionIds(rows: seq<Row>): set<string> { set row | row in rows :: Text(row.ibExecID) }

  lemma AllReadIsNoRefusal(scope: Scope, rows: seq<Row>)
    ensures AllRead(scope, rows) <==> NoRefusal(Readings(scope, rows))
  {
    hide ReadRow, Readings;
    forall row | row in rows ensures !ReadRow(scope, row).Skip? && ReadRow(scope, row) in Readings(scope, rows) {
      ReadRowKeepsItsIdentity(scope, row);
      ReadingsOfRows(scope, rows, ReadRow(scope, row));
    }
    forall r | r in Readings(scope, rows) ensures exists row :: row in rows && ReadRow(scope, row) == r {
      ReadingsOfRows(scope, rows, r);
    }
  }

  lemma AgreeIsConsistent(scope: Scope, rows: seq<Row>)
    requires AllRead(scope, rows)
    ensures Agree(scope, rows) <==> Consistent(Readings(scope, rows))
  {
    hide ReadRow, Readings, SayTheSame;
    forall a, b | a in rows && b in rows
      ensures SayTheSame(scope.calendar, a, b) <==> ReadRow(scope, a) == ReadRow(scope, b)
    {
      AgreeExactly(scope, a, b);
    }
    forall row | row in rows
      ensures ReadRow(scope, row) in Readings(scope, rows) && ReadRow(scope, row).id == Text(row.ibExecID)
    {
      ReadRowKeepsItsIdentity(scope, row);
      ReadingsOfRows(scope, rows, ReadRow(scope, row));
    }
    forall r | r in Readings(scope, rows) ensures exists row :: row in rows && ReadRow(scope, row) == r {
      ReadingsOfRows(scope, rows, r);
    }
  }

  lemma IdsAreExecutionIds(scope: Scope, rows: seq<Row>)
    requires AllRead(scope, rows)
    ensures Ids(Readings(scope, rows)) == ExecutionIds(rows)
  {
    hide ReadRow;
    var rs := Readings(scope, rows);
    forall i | 0 <= i < |rows| ensures rs[i].id == Text(rows[i].ibExecID) && rows[i] in rows {
      ReadRowKeepsItsIdentity(scope, rows[i]);
    }
    forall id | id in ExecutionIds(rows) ensures id in Ids(rs) {
      var row :| row in rows && Text(row.ibExecID) == id;
      var i :| 0 <= i < |rows| && rows[i] == row;
      assert rs[i].Keep? && rs[i].id == id;
    }
  }

  /** Projectable exactly when each row is good, rows of one identity agree, and identities are few enough. */
  lemma ProjectableExactly(scope: Scope, rows: seq<Row>)
    ensures Projectable(scope, rows) <==>
              AllGood(scope, rows) && Agree(scope, rows) && |ExecutionIds(rows)| <= 256
  {
    AllReadExactly(scope, rows);
    hide AllGood, AllRead, Agree, NoRefusal, Consistent, Ids, ExecutionIds, Readings;
    AllReadIsNoRefusal(scope, rows);
    if AllRead(scope, rows) {
      AgreeIsConsistent(scope, rows);
      IdsAreExecutionIds(scope, rows);
    }
  }

  // ---------- what a record says ----------

  /** A record whose every field obeys its rule and lies in the scope. */
  ghost predicate SoundRecord(scope: Scope, r: Record) {
    && TextOk(scope.calendar.isSpace, r.execution, MAX_IDENTITY) && scope.start <= r.tradeDate <= scope.end
    && QuantityOk(r.quantity) && PriceOk(r.price) && r.side in {"BUY", "SELL"}
    && SymbolOk(r.symbol) && AssetCategoryOk(r.assetCategory) && CurrencyOk(r.currency)
    && (r.commission.Some? ==> FeeOk(r.commission.value)) && (r.taxes.Some? ==> FeeOk(r.taxes.value))
    && (r.commissionCurrency.Some? ==> CurrencyOk(r.commissionCurrency.value))
  }

  /** An absent or empty attribute is recorded as none, any other as it is. */
  ghost predicate SaysAs(field: Option<string>, recorded: Option<string>) {
    recorded == if field in {None, Some("")} then None else field
  }

  /** The record repeats the texts of the row, digit for digit. */
  ghost predicate Repeats(calendar: Calendar, e: Execution, row: Row) {
    var r := e.record;
    && row.ibExecID == Some(r.execution) && row.quantity == Some(r.quantity) && row.tradePrice == Some(r.price)
    && row.buySell == Some(r.side) && row.symbol == Some(r.symbol) && row.assetCategory == Some(r.assetCategory)
    && row.currency == Some(r.currency) && calendar.day(Text(row.tradeDate)) == Some(r.tradeDate)
    && SaysAs(row.ibCommission, r.commission) && SaysAs(row.taxes, r.taxes)
    && SaysAs(row.ibCommissionCurrency, r.commissionCurrency) && SaysAs(row.tradeID, e.tradeID)
    && r.localTime == (if row.dateTime in {None, Some("")} then None
                       else calendar.localTime(row.dateTime.value, r.tradeDate))
  }

  lemma KeptRowIsRepeated(scope: Scope, row: Row)
    requires ReadRow(scope, row).Keep?
    ensures var e := ReadRow(scope, row).value;
            SoundRecord(scope, e.record) && Repeats(scope.calendar, e, row)
  {
  }

  /** Every projected record is sound, stands under its own identity, and repeats the texts of one of the rows. */
  lemma EntriesAreSound(scope: Scope, rows: seq<Row>, entry: (string, Execution))
    requires Projectable(scope, rows) && entry in Entries(scope, rows)
    ensures entry.0 == entry.1.record.execution && SoundRecord(scope, entry.1.record)
    ensures exists row :: row in rows && Repeats(scope.calendar, entry.1, row)
  {
    hide ReadRow, Readings, SoundRecord;
    EntriesAreReadings(Readings(scope, rows), entry.0, entry.1);
    ReadingsOfRows(scope, rows, Keep(entry.0, entry.1));
    var row :| row in rows && ReadRow(scope, row) == Keep(entry.0, entry.1);
    KeptRowIsRepeated(scope, row);
    ReadRowKeepsItsIdentity(scope, row);
  }
}
