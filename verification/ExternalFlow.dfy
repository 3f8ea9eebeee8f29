/**
 External capital flows: the strict projection of deposits and withdrawals
 (application/ibkr_external_flow.py) and the ledger's net total
 (application/ibkr_flex_ledger.py), which falls back on it when native identities repeat.
 */
module ExternalFlows {
  import opened Wrappers
  import opened FlexFields
  import opened IdentityFold
  import opened Ordering
  import opened DecimalText
  import opened FlexNumbers
  import opened Sums

  const MAX_FLOWS := 256
  const MAX_PERIOD_DAYS := 31

  /** One funds row; an attribute may be absent. */
  datatype Line = Line(
    activityCode: Option<string>, transactionID: Option<string>, amount: Option<string>, currency: Option<string>,
    date: Option<string>, settleDate: Option<string>, accountId: Option<string>, model: Option<string>)

  datatype Child = Funds(line: Line) | Other

  /** The selected statement and the ledger's reading of its period. */
  datatype Statement = Statement(accountId: Option<string>, sections: seq<seq<Child>>, from: Option<string>,
                                 to: Option<string>)

  /**
   The readers the code relies on: white space, calendar days (as day numbers), the
   ledger's trimming and upper-casing, and its lenient decimal reader.
   */
  datatype Reader = Reader(
    isSpace: char -> bool, day: string -> Option<int>, clean: string -> string, parse: string -> Option<real>)

  predicate Uppercase(s: string) { forall i :: 0 <= i < |s| ==> IsUpper(s[i]) }

  /** Trimming and upper-casing keep A-Z texts, and the lenient reader agrees with the strict grammar on its texts. */
  ghost predicate Faithful(reader: Reader) {
    && (forall s :: Uppercase(s) ==> reader.clean(s) == s)
    && (forall s :: AmountOk(s) ==> reader.parse(s) == Some(Value(s)))
  }

  datatype Kind = Deposit | Withdrawal

  function KindOf(code: string): Option<Kind> {
    if code == "DEP" then Some(Deposit) else if code == "WITH" then Some(Withdrawal) else None
  }

  // ---------- the strict projection ----------

  datatype Flow = Flow(currency: string, id: string, kind: Kind, amount: string, day: int, settlement: Option<int>)

  datatype Scope = Scope(reader: Reader, account: string, start: int, end: int)

  predicate SignedAs(amount: string, kind: Kind) {
    AmountOk(amount) && if kind == Deposit then Value(amount) > 0.0 else Value(amount) < 0.0
  }

  predicate FieldsOk(scope: Scope, line: Line, kind: Kind) {
    var day := DayOf(scope.reader.day, line.date);
    && line.accountId == Some(scope.account) && !Given(line.model)
    && TextOk(scope.reader.isSpace, Text(line.transactionID), MAX_IDENTITY)
    && day.Some? && scope.start <= day.value <= scope.end
    && |Text(line.currency)| == 3 && Uppercase(Text(line.currency))
    && SignedAs(Text(line.amount), kind)
  }

  function FlowOf(scope: Scope, line: Line, kind: Kind, settlement: Option<int>): Flow
    requires DayOf(scope.reader.day, line.date).Some?
  {
    Flow(Text(line.currency), Text(line.transactionID), kind, Text(line.amount),
         DayOf(scope.reader.day, line.date).value, settlement)
  }

  function ReadLine(scope: Scope, line: Line): Reading<Flow> {
    match KindOf(Text(line.activityCode))
    case None => Skip
    case Some(kind) =>
      var settlement := if Given(line.settleDate) then scope.reader.day(Text(line.settleDate)) else None;
      if !FieldsOk(scope, line, kind) then Refuse("flow_fields_invalid")
      else if Given(line.settleDate) && settlement.None? then Refuse("flow_settlement_invalid")
      else Keep(Text(line.transactionID), FlowOf(scope, line, kind, settlement))
  }

  function Readings(scope: Scope, lines: seq<Line>): (rs: seq<Reading<Flow>>)
    ensures |rs| == |lines| && forall i :: 0 <= i < |lines| ==> rs[i] == ReadLine(scope, lines[i])
  {
    seq(|lines|, i requires 0 <= i < |lines| => ReadLine(scope, lines[i]))
  }

  predicate OnlyFunds(section: seq<Child>) { forall i :: 0 <= i < |section| ==> section[i].Funds? }

  function HeaderProblem(reader: Reader, statement: Statement): Option<string> {
    var start, end := DayOf(reader.day, statement.from), DayOf(reader.day, statement.to);
    if statement.sections == [] then Some("funds_section_missing")
    else if |statement.sections| != 1 || !OnlyFunds(statement.sections[0]) then Some("unsupported_funds_rows")
    else if start.None? || end.None? || start.value > end.value || end.value - start.value >= MAX_PERIOD_DAYS then
      Some("flow_period_invalid")
    else None
  }

  function ScopeOf(reader: Reader, statement: Statement): Scope
    requires HeaderProblem(reader, statement).None?
  {
    Scope(reader, Text(statement.accountId),
          DayOf(reader.day, statement.from).value, DayOf(reader.day, statement.to).value)
  }

  function LinesOf(section: seq<Child>): seq<Line> {
    if section == [] then []
    else
      var front, last := LinesOf(section[..|section| - 1]), section[|section| - 1];
      if last.Funds? then front + [last.line] else front
  }

  /** What the projection of these rows is. */
  ghost predicate Projects(scope: Scope, lines: seq<Line>, p: Projection<Flow>) {
    Explains(Readings(scope, lines), MAX_FLOWS, p)
  }

  method ProjectExternalFlows(reader: Reader, statement: Statement) returns (p: Projection<Flow>)
    ensures var problem := HeaderProblem(reader, statement);
            if problem.Some? then p == Unavailable(problem.value)
            else
              var scope, lines := ScopeOf(reader, statement), LinesOf(statement.sections[0]);
              && Projects(scope, lines, p)
              && (p.Unavailable? ==> exists i :: StopsAt(Readings(scope, lines), i, MAX_FLOWS, p.reason,
                                                         "flow_identity_conflict", "flow_record_limit"))
  {
    var problem := HeaderProblem(reader, statement);
    if problem.Some? { return Unavailable(problem.value); }
    var scope, lines := ScopeOf(reader, statement), LinesOf(statement.sections[0]);
    p := Fold(Readings(scope, lines), MAX_FLOWS, "flow_identity_conflict", "flow_record_limit");
  }

  // ---------- the ledger's flow lines ----------

  datatype Entry = Entry(currency: string, amount: real)

  function Code(reader: Reader, line: Line): string { reader.clean(Text(line.activityCode)) }

  predicate IsFlow(reader: Reader, line: Line) { KindOf(Code(reader, line)).Some? }

  /** A flow that the strict projection does not see, because its code is not written exactly. */
  predicate Inexact(reader: Reader, line: Line) {
    IsFlow(reader, line) && Text(line.activityCode) != Code(reader, line)
  }

  function EntryOf(reader: Reader, line: Line): Option<Entry> {
    var amount := if line.amount.Some? then reader.parse(line.amount.value) else None;
    var currency := reader.clean(Text(line.currency));
    if amount.None? || currency == "" then None else Some(Entry(currency, amount.value))
  }

  predicate Unreadable(reader: Reader, line: Line) { IsFlow(reader, line) && EntryOf(reader, line).None? }

  predicate SameIdentity(reader: Reader, a: Line, b: Line) {
    IsFlow(reader, a) && IsFlow(reader, b) && Given(a.transactionID) && a.transactionID == b.transactionID
  }

  predicate Unprojected(reader: Reader, lines: seq<Line>) {
    exists i :: 0 <= i < |lines| && Inexact(reader, lines[i])
  }

  predicate Incomplete(reader: Reader, lines: seq<Line>) {
    exists i :: 0 <= i < |lines| && Unreadable(reader, lines[i])
  }

  predicate Duplicate(reader: Reader, lines: seq<Line>) {
    exists i, j :: 0 <= i < j < |lines| && SameIdentity(reader, lines[i], lines[j])
  }

  /** One entry for every readable flow row, repeats included. */
  function Legacy(reader: Reader, lines: seq<Line>): seq<Entry> {
    if lines == [] then []
    else
      var front, last := Legacy(reader, lines[..|lines| - 1]), lines[|lines| - 1];
      if IsFlow(reader, last) && EntryOf(reader, last).Some? then front + [EntryOf(reader, last).value] else front
  }

  function NativeIds(reader: Reader, lines: seq<Line>): set<string> {
    set i | 0 <= i < |lines| && IsFlow(reader, lines[i]) && Given(lines[i].transactionID)
          :: Text(lines[i].transactionID)
  }

  // ---------- the net total ----------

  datatype Total = Total(amount: real, currency: Option<string>, count: nat)

  function AmountOf(e: Entry): real { e.amount }

  function Currencies(entries: seq<Entry>): set<string> { set e | e in entries :: e.currency }

  /** Entries are totalled only when they share one currency. */
  function TotalOf(entries: seq<Entry>, fallback: Option<string>): Option<Total> {
    if |Currencies(entries)| > 1 then None
    else Some(Total(SumBy(AmountOf, entries), if entries == [] then fallback else Some(entries[0].currency), |entries|))
  }

  function FlowEntry(reader: Reader): ((string, Flow)) -> Entry {
    (e: (string, Flow)) =>
      var amount := reader.parse(e.1.amount);
      Entry(e.1.currency, if amount.Some? then amount.value else 0.0)
  }

  /** The total chosen: the strict projection once identities repeat, every line otherwise. */
  function Net(reader: Reader, lines: seq<Line>, p: Projection<Flow>, base: Option<string>): Option<Total> {
    if Incomplete(reader, lines) then None
    else if !Duplicate(reader, lines) then TotalOf(Legacy(reader, lines), base)
    else if !Unprojected(reader, lines) && p.Available? then TotalOf(Map(FlowEntry(reader), p.entries), base)
    else None
  }

  method ScanFlows(reader: Reader, lines: seq<Line>)
    returns (flows: seq<Entry>, incomplete: bool, duplicate: bool, unprojected: bool)
    ensures flows == Legacy(reader, lines)
    ensures incomplete == Incomplete(reader, lines)
    ensures duplicate == Duplicate(reader, lines)
    ensures unprojected == Unprojected(reader, lines)
  {
    hide *;
    flows, incomplete, duplicate, unprojected := [], false, false, false;
    var ids: set<string> := {};
    var i := 0;
    assert lines[..0] == [];
    NothingScanned(reader);
    while i < |lines|
      invariant 0 <= i <= |lines|
      invariant Scanned(reader, lines[..i], flows, ids, incomplete, duplicate, unprojected)
    {
      var line := lines[i];
      assert lines[..i + 1] == lines[..i] + [line];
      ScanOne(reader, lines[..i], line, flows, ids, incomplete, duplicate, unprojected);
      if IsFlow(reader, line) {
        unprojected := unprojected || Text(line.activityCode) != Code(reader, line);
        if Given(line.transactionID) {
          duplicate := duplicate || Text(line.transactionID) in ids;
          ids := ids + {Text(line.transactionID)};
        }
        var entry := EntryOf(reader, line);
        if entry.None? { incomplete := true; } else { flows := flows + [entry.value]; }
      }
      i := i + 1;
    }
    assert lines[..|lines|] == lines;
    ScanDone(reader, lines, flows, ids, incomplete, duplicate, unprojected);
  }

  /** The state of the scan after these lines. */
  ghost predicate Scanned(reader: Reader, lines: seq<Line>, flows: seq<Entry>, ids: set<string>,
                          incomplete: bool, duplicate: bool, unprojected: bool)
  {
    && flows == Legacy(reader, lines) && ids == NativeIds(reader, lines)
    && incomplete == Incomplete(reader, lines) && duplicate == Duplicate(reader, lines)
    && unprojected == Unprojected(reader, lines)
  }

  lemma NothingScanned(reader: Reader)
    ensures Scanned(reader, [], [], {}, false, false, false)
  {
  }

  lemma ScanDone(reader: Reader, lines: seq<Line>, flows: seq<Entry>, ids: set<string>,
                 incomplete: bool, duplicate: bool, unprojected: bool)
    requires Scanned(reader, lines, flows, ids, incomplete, duplicate, unprojected)
    ensures flows == Legacy(reader, lines) && incomplete == Incomplete(reader, lines)
    ensures duplicate == Duplicate(reader, lines) && unprojected == Unprojected(reader, lines)
  {
  }

  lemma ScanOne(reader: Reader, lines: seq<Line>, line: Line, flows: seq<Entry>, ids: set<string>,
                incomplete: bool, duplicate: bool, unprojected: bool)
    requires Scanned(reader, lines, flows, ids, incomplete, duplicate, unprojected)
    ensures !IsFlow(reader, line) ==> Scanned(reader, lines + [line], flows, ids, incomplete, duplicate, unprojected)
    ensures IsFlow(reader, line) ==>
              Scanned(reader, lines + [line],
                      if EntryOf(reader, line).Some? then flows + [EntryOf(reader, line).value] else flows,
                      if Given(line.transactionID) then ids + {Text(line.transactionID)} else ids,
                      incomplete || EntryOf(reader, line).None?,
                      duplicate || (Given(line.transactionID) && Text(line.transactionID) in ids),
                      unprojected || Text(line.activityCode) != Code(reader, line))
  {
    hide Legacy, NativeIds, Duplicate, EntryOf, IsFlow, Incomplete, Unprojected, Code;
    LegacySnoc(reader, lines, line);
    NativeIdsSnoc(reader, lines, line);
    DuplicateSnoc(reader, lines, line);
    FlagsSnoc(reader, lines, line);
  }

  lemma LegacySnoc(reader: Reader, lines: seq<Line>, line: Line)
    ensures Legacy(reader, lines + [line]) == Legacy(reader, lines)
              + (if IsFlow(reader, line) && EntryOf(reader, line).Some? then [EntryOf(reader, line).value] else [])
  {
    assert (lines + [line])[..|lines|] == lines;
  }

  lemma NativeIdsSnoc(reader: Reader, lines: seq<Line>, line: Line)
    ensures NativeIds(reader, lines + [line]) == NativeIds(reader, lines)
              + (if IsFlow(reader, line) && Given(line.transactionID) then {Text(line.transactionID)} else {})
  {
    hide IsFlow;
    var all := lines + [line];
    assert all[|lines|] == line;
    forall id | id in NativeIds(reader, lines) ensures id in NativeIds(reader, all) {
      var i :| 0 <= i < |lines| && IsFlow(reader, lines[i]) && Given(lines[i].transactionID)
               && Text(lines[i].transactionID) == id;
      assert all[i] == lines[i];
    }
  }

  lemma FlagsSnoc(reader: Reader, lines: seq<Line>, line: Line)
    ensures Incomplete(reader, lines + [line]) <==> Incomplete(reader, lines) || Unreadable(reader, line)
    ensures Unprojected(reader, lines + [line]) <==> Unprojected(reader, lines) || Inexact(reader, line)
    ensures Unreadable(reader, line) <==> IsFlow(reader, line) && EntryOf(reader, line).None?
    ensures Inexact(reader, line) <==> IsFlow(reader, line) && Text(line.activityCode) != Code(reader, line)
  {
    var all := lines + [line];
    assert all[|lines|] == line;
    if Incomplete(reader, lines) {
      var i :| 0 <= i < |lines| && Unreadable(reader, lines[i]);
      assert all[i] == lines[i];
    }
    if Unprojected(reader, lines) {
      var i :| 0 <= i < |lines| && Inexact(reader, lines[i]);
      assert all[i] == lines[i];
    }
  }

  lemma DuplicateSnoc(reader: Reader, lines: seq<Line>, line: Line)
    ensures Duplicate(reader, lines + [line]) <==>
              Duplicate(reader, lines)
              || (&& IsFlow(reader, line) && Given(line.transactionID)
                  && Text(line.transactionID) in NativeIds(reader, lines))
  {
    hide IsFlow;
    var all := lines + [line];
    assert all[|lines|] == line;
    if Duplicate(reader, lines) {
      var i, j :| 0 <= i < j < |lines| && SameIdentity(reader, lines[i], lines[j]);
      assert all[i] == lines[i] && all[j] == lines[j];
    }
    if IsFlow(reader, line) && Given(line.transactionID) && Text(line.transactionID) in NativeIds(reader, lines) {
      var i :| 0 <= i < |lines| && IsFlow(reader, lines[i]) && Given(lines[i].transactionID)
        && Text(lines[i].transactionID) == Text(line.transactionID);
      assert SameIdentity(reader, all[i], all[|lines|]);
    }
  }

  method NetExternalFlow(reader: Reader, statement: Statement, base: Option<string>)
    returns (facts: Projection<Flow>, net: Option<Total>)
    ensures var problem := HeaderProblem(reader, statement);
            if problem.Some? then facts == Unavailable(problem.value)
            else Projects(ScopeOf(reader, statement), LinesOf(statement.sections[0]), facts)
    ensures net == if statement.sections == [] then None
                   else Net(reader, LinesOf(statement.sections[0]), facts, base)
  {
    hide HeaderProblem, ScopeOf, Projects, Readings, StopsAt, LinesOf, Legacy, Incomplete, Duplicate, Unprojected;
    hide TotalOf, FlowEntry;
    facts := ProjectExternalFlows(reader, statement);
    net := None;
    if statement.sections != [] {
      var lines := LinesOf(statement.sections[0]);
      var flows, incomplete, duplicate, unprojected := ScanFlows(reader, lines);
      if !incomplete {
        if !duplicate {
          net := TotalOf(flows, base);
        } else if !unprojected && facts.Available? {
          net := TotalOf(Map(FlowEntry(reader), facts.entries), base);
        }
      }
    }
  }

  // ---------- each identity counts once ----------

  /** An exactly written flow that the projection keeps is the ledger's flow, with the same currency and amount. */
  lemma KeptLineIsAFlow(scope: Scope, line: Line)
    requires Faithful(scope.reader) && ReadLine(scope, line).Keep?
    ensures var r := ReadLine(scope, line);
            && IsFlow(scope.reader, line) && r.id == Text(line.transactionID) && Given(line.transactionID)
            && Uppercase(Text(line.currency)) && Text(line.currency) != ""
            && AmountOk(Text(line.amount)) && line.amount.Some?
            && r.value.currency == Text(line.currency) && r.value.amount == Text(line.amount)
            && (if r.value.kind == Deposit then Value(r.value.amount) > 0.0 else Value(r.value.amount) < 0.0)
            && scope.start <= r.value.day <= scope.end
  {
    assert Uppercase("DEP") && Uppercase("WITH");
  }

  lemma KeptLineHasItsEntry(scope: Scope, line: Line)
    requires Faithful(scope.reader) && ReadLine(scope, line).Keep?
    ensures var r := ReadLine(scope, line);
            EntryOf(scope.reader, line) == Some(FlowEntry(scope.reader)((r.id, r.value)))
  {
    KeptLineIsAFlow(scope, line);
    hide ReadLine, IsFlow, AmountOk, Uppercase, Value;
    var amount := Text(line.amount);
    assert scope.reader.parse(amount) == Some(Value(amount)) by {
      AmountIsAccepted(amount);
    }
  }

  lemma AmountIsAccepted(s: string)
    requires AmountOk(s)
    ensures Accepts(s)
  {
  }

  lemma SkippedLineIsNoExactFlow(scope: Scope, line: Line)
    requires ReadLine(scope, line).Skip? && !Inexact(scope.reader, line)
    ensures !IsFlow(scope.reader, line)
  {
  }

  /** A row under an id seen before, both kept, is a duplicate for the ledger. */
  lemma RepeatedIdIsDuplicate(scope: Scope, lines: seq<Line>, line: Line)
    requires Faithful(scope.reader) && ReadLine(scope, line).Keep?
    requires ReadLine(scope, line).id in Ids(Readings(scope, lines))
    ensures Duplicate(scope.reader, lines + [line])
  {
    hide ReadLine, IsFlow;
    var rs := Readings(scope, lines);
    var i :| 0 <= i < |rs| && rs[i].Keep? && rs[i].id == ReadLine(scope, line).id;
    KeptLineIsAFlow(scope, line);
    KeptLineIsAFlow(scope, lines[i]);
    assert (lines + [line])[i] == lines[i] && (lines + [line])[|lines|] == line;
    SameTexts(lines[i].transactionID, line.transactionID);
  }

  lemma SameTexts(a: Option<string>, b: Option<string>)
    requires Given(a) && Given(b) && Text(a) == Text(b)
    ensures a == b
  {
  }

  lemma NothingLost(reader: Reader, lines: seq<Line>)
    requires lines != []
    ensures var front := lines[..|lines| - 1];
            && (Duplicate(reader, front) ==> Duplicate(reader, lines))
            && (Unprojected(reader, front) ==> Unprojected(reader, lines))
  {
    var front, last := lines[..|lines| - 1], lines[|lines| - 1];
    assert lines == front + [last];
    DuplicateSnoc(reader, front, last);
    FlagsSnoc(reader, front, last);
  }

  lemma ReadingsSnoc(scope: Scope, lines: seq<Line>, line: Line)
    ensures Readings(scope, lines + [line]) == Readings(scope, lines) + [ReadLine(scope, line)]
  {
  }

  lemma NoRefusalParts(rs: seq<Reading<Flow>>, r: Reading<Flow>)
    requires NoRefusal(rs + [r])
    ensures NoRefusal(rs) && !r.Refuse?
  {
    assert (rs + [r])[|rs|] == r;
    assert forall q :: q in rs ==> q in rs + [r];
  }

  /** Without repeated identities and inexact codes, the ledger's entries are the projected ones, in the same order. */
  lemma {:induction false} LegacyIsProjected(scope: Scope, lines: seq<Line>)
    requires Faithful(scope.reader) && NoRefusal(Readings(scope, lines))
    requires !Duplicate(scope.reader, lines) && !Unprojected(scope.reader, lines)
    ensures Legacy(scope.reader, lines) == Map(FlowEntry(scope.reader), FirstOccurrences(Readings(scope, lines)))
  {
    hide *;
    if lines == [] {
      NoEntries(scope);
    } else {
      var front, last := lines[..|lines| - 1], lines[|lines| - 1];
      assert lines == front + [last];
      NothingLost(scope.reader, lines);
      ReadingsSnoc(scope, front, last);
      NoRefusalParts(Readings(scope, front), ReadLine(scope, last));
      LegacyIsProjected(scope, front);
      LegacySnoc(scope.reader, front, last);
      OneMoreEntry(scope, front, last);
    }
  }

  lemma NoEntries(scope: Scope)
    ensures Legacy(scope.reader, []) == Map(FlowEntry(scope.reader), FirstOccurrences(Readings(scope, [])))
  {
  }

  lemma OneMoreEntry(scope: Scope, front: seq<Line>, last: Line)
    requires Faithful(scope.reader) && !ReadLine(scope, last).Refuse?
    requires !Duplicate(scope.reader, front + [last]) && !Unprojected(scope.reader, front + [last])
    ensures var reader := scope.reader;
            Map(FlowEntry(reader), FirstOccurrences(Readings(scope, front + [last])))
            == Map(FlowEntry(reader), FirstOccurrences(Readings(scope, front)))
               + (if IsFlow(reader, last) && EntryOf(reader, last).Some? then [EntryOf(reader, last).value] else [])
  {
    hide *;
    var r, entries := ReadLine(scope, last), FirstOccurrences(Readings(scope, front));
    ReadingsSnoc(scope, front, last);
    EntriesTake(Readings(scope, front), r);
    if r.Keep? {
      if r.id in Ids(Readings(scope, front)) { RepeatedIdIsDuplicate(scope, front, last); }
      MapJoin(FlowEntry(scope.reader), entries, [(r.id, r.value)]);
      assert Map(FlowEntry(scope.reader), [(r.id, r.value)]) == [FlowEntry(scope.reader)((r.id, r.value))];
      KeptLineIsAFlow(scope, last);
      KeptLineHasItsEntry(scope, last);
    } else {
      FlagsSnoc(scope.reader, front, last);
      SkippedLineIsNoExactFlow(scope, last);
    }
  }

  lemma ProjectedLinesAreComplete(scope: Scope, lines: seq<Line>)
    requires Faithful(scope.reader) && NoRefusal(Readings(scope, lines)) && !Unprojected(scope.reader, lines)
    ensures !Incomplete(scope.reader, lines)
  {
    hide ReadLine, IsFlow, EntryOf, Inexact, Faithful;
    forall i | 0 <= i < |lines| ensures !Unreadable(scope.reader, lines[i]) {
      assert Readings(scope, lines)[i] in Readings(scope, lines);
      if ReadLine(scope, lines[i]).Keep? {
        KeptLineHasItsEntry(scope, lines[i]);
      } else {
        SkippedLineIsNoExactFlow(scope, lines[i]);
      }
    }
  }

  lemma TotalIgnoresOrder(a: seq<Entry>, b: seq<Entry>, fallback: Option<string>)
    requires multiset(a) == multiset(b)
    ensures TotalOf(a, fallback) == TotalOf(b, fallback)
  {
    NothingPermuted(a, b);
    SumPermuted(AmountOf, a, b);
    assert forall e :: e in a <==> e in multiset(a);
    assert forall e :: e in b <==> e in multiset(b);
    assert Currencies(a) == Currencies(b);
    if a != [] { OneCurrency(a, b[0]); }
  }

  lemma OneCurrency(a: seq<Entry>, e: Entry)
    requires a != [] && e in a
    ensures |Currencies(a)| <= 1 ==> e.currency == a[0].currency
  {
    var all := Currencies(a);
    assert a[0] in a;
    if e.currency != a[0].currency {
      assert {e.currency, a[0].currency} <= all;
      SubsetSize({e.currency, a[0].currency}, all);
    }
  }

  ghost predicate ProjectsOnto(scope: Scope, lines: seq<Line>, p: Projection<Flow>) {
    Projects(scope, lines, p) && p.Available?
  }

  lemma ProjectedIsAcceptable(scope: Scope, lines: seq<Line>, p: Projection<Flow>)
    requires ProjectsOnto(scope, lines, p)
    ensures p.Available?
    ensures var rs := Readings(scope, lines);
            NoRefusal(rs) && Consistent(rs) && Acceptable(rs, MAX_FLOWS) && p.entries == FirstOccurrences(rs)
  {
  }

  /**
   With the projection available and every code exact, the net total is the projected
   total, whether or not identities repeat: for distinct identities the ledger's own sum agrees.
   */
  lemma NetIsTheProjectedTotal(scope: Scope, lines: seq<Line>, p: Projection<Flow>, base: Option<string>)
    requires Faithful(scope.reader) && ProjectsOnto(scope, lines, p) && !Unprojected(scope.reader, lines)
    ensures Net(scope.reader, lines, p, base) == TotalOf(Map(FlowEntry(scope.reader), p.entries), base)
    ensures !Duplicate(scope.reader, lines) ==>
              TotalOf(Legacy(scope.reader, lines), base) == TotalOf(Map(FlowEntry(scope.reader), p.entries), base)
  {
    hide *;
    ProjectedIsAcceptable(scope, lines, p);
    ProjectedLinesAreComplete(scope, lines);
    if !Duplicate(scope.reader, lines) { LegacyIsProjected(scope, lines); }
    NetChoice(scope.reader, lines, p, base);
  }

  /** When there is a net total, and which entries it adds up. */
  lemma NetChoice(reader: Reader, lines: seq<Line>, p: Projection<Flow>, base: Option<string>)
    ensures var net := Net(reader, lines, p, base);
            var incomplete, duplicate := Incomplete(reader, lines), Duplicate(reader, lines);
            && (incomplete ==> net.None?)
            && (!incomplete && !duplicate ==> net == TotalOf(Legacy(reader, lines), base))
            && (!incomplete && duplicate ==>
                  net == if Unprojected(reader, lines) || p.Unavailable? then None
                         else TotalOf(Map(FlowEntry(reader), p.entries), base))
  {
  }

  ghost predicate SameLines(a: seq<Line>, b: seq<Line>) { forall line :: line in a <==> line in b }

  lemma ReadingsOfLines(scope: Scope, lines: seq<Line>, r: Reading<Flow>)
    ensures r in Readings(scope, lines) <==> exists line :: line in lines && ReadLine(scope, line) == r
  {
    hide ReadLine;
    var rs := Readings(scope, lines);
    if r in rs {
      var i :| 0 <= i < |rs| && rs[i] == r;
      assert lines[i] in lines && ReadLine(scope, lines[i]) == r;
    }
    if line :| line in lines && ReadLine(scope, line) == r {
      var i :| 0 <= i < |lines| && lines[i] == line;
      assert rs[i] == r;
    }
  }

  lemma SameReadings(scope: Scope, lines: seq<Line>, others: seq<Line>)
    requires SameLines(lines, others)
    ensures forall r :: r in Readings(scope, lines) <==> r in Readings(scope, others)
  {
    hide ReadLine, Readings;
    forall r ensures r in Readings(scope, lines) <==> r in Readings(scope, others) {
      ReadingsOfLines(scope, lines, r);
      ReadingsOfLines(scope, others, r);
    }
  }

  lemma UnprojectedIsShared(reader: Reader, lines: seq<Line>, others: seq<Line>)
    requires SameLines(lines, others) && Unprojected(reader, lines)
    ensures Unprojected(reader, others)
  {
    var i :| 0 <= i < |lines| && Inexact(reader, lines[i]);
    assert lines[i] in lines;
    var j :| 0 <= j < |others| && others[j] == lines[i];
  }

  lemma AvailableAlike(scope: Scope, lines: seq<Line>, others: seq<Line>, p: Projection<Flow>, q: Projection<Flow>)
    requires SameLines(lines, others) && ProjectsOnto(scope, lines, p) && Projects(scope, others, q)
    ensures q.Available? && multiset(p.entries) == multiset(q.entries)
  {
    hide Readings, FirstOccurrences, Consistent;
    ProjectedIsAcceptable(scope, lines, p);
    SameReadings(scope, lines, others);
    OrderAndRepeatsDoNotMatter(Readings(scope, lines), Readings(scope, others), MAX_FLOWS);
  }

  /** The same flow rows, in any order and with any exact repeats, give the same projection and the same net total. */
  lemma NetCountsEachIdentityOnce(scope: Scope, lines: seq<Line>, others: seq<Line>,
                                  p: Projection<Flow>, q: Projection<Flow>, base: Option<string>)
    requires Faithful(scope.reader) && SameLines(lines, others) && !Unprojected(scope.reader, lines)
    requires ProjectsOnto(scope, lines, p) && Projects(scope, others, q)
    ensures q.Available? && multiset(p.entries) == multiset(q.entries)
    ensures Net(scope.reader, lines, p, base) == Net(scope.reader, others, q, base)
  {
    hide *;
    ProjectedIsAcceptable(scope, lines, p);
    AvailableAlike(scope, lines, others, p, q);
    assert ProjectsOnto(scope, others, q) by { OntoByDefinition(scope, others, q); }
    SameLinesTurned(lines, others);
    if Unprojected(scope.reader, others) { UnprojectedIsShared(scope.reader, others, lines); }
    NetIsTheProjectedTotal(scope, lines, p, base);
    NetIsTheProjectedTotal(scope, others, q, base);
    MapPermuted(FlowEntry(scope.reader), p.entries, q.entries);
    TotalIgnoresOrder(Map(FlowEntry(scope.reader), p.entries), Map(FlowEntry(scope.reader), q.entries), base);
  }

  lemma OntoByDefinition(scope: Scope, lines: seq<Line>, p: Projection<Flow>)
    requires Projects(scope, lines, p) && p.Available?
    ensures ProjectsOnto(scope, lines, p)
  {
  }

  lemma SameLinesTurned(a: seq<Line>, b: seq<Line>)
    requires SameLines(a, b)
    ensures SameLines(b, a)
  {
  }
}
