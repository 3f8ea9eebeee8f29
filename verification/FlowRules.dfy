/**
 Exactly what the strict projection of external flows (application/ibkr_external_flow.py)
 and the ledger's flow lines (application/ibkr_flex_ledger.py) accept, refuse and total.
 */
module FlowRules {
  import opened Wrappers
  import opened FlexFields
  import opened IdentityFold
  import opened FlexNumbers
  import opened DecimalText
  import opened ExternalFlows

  // ---------- the strict projection ----------

  /** Every attribute of a deposit or withdrawal is good, its settlement day aside. */
  ghost predicate GoodFields(scope: Scope, line: Line) {
    && line.accountId == Some(scope.account) && line.model in {None, Some("")}
    && line.transactionID.Some? && TextOk(scope.reader.isSpace, line.transactionID.value, 256)
    && line.date.Some? && scope.reader.day(line.date.value).Some?
    && scope.start <= scope.reader.day(line.date.value).value <= scope.end
    && line.currency.Some? && |line.currency.value| == 3
    && (forall c :: c in line.currency.value ==> 'A' <= c <= 'Z')
    && line.amount.Some? && AmountOk(line.amount.value) && Accepts(line.amount.value)
    && (line.activityCode == Some("DEP") ==> Value(line.amount.value) > 0.0)
    && (line.activityCode == Some("WITH") ==> Value(line.amount.value) < 0.0)
  }

  /** The settlement day is absent, empty, or a day. */
  ghost predicate GoodSettlement(scope: Scope, line: Line) {
    line.settleDate.Some? && line.settleDate.value != "" ==> scope.reader.day(line.settleDate.value).Some?
  }

  /** The flow says what the row says. */
  ghost predicate Says(scope: Scope, line: Line, f: Flow) {
    && line.currency == Some(f.currency) && line.transactionID == Some(f.id) && line.amount == Some(f.amount)
    && line.activityCode == Some(if f.kind == Deposit then "DEP" else "WITH")
    && line.date.Some? && scope.reader.day(line.date.value) == Some(f.day)
    && f.settlement == if line.settleDate in {None, Some("")} then None else scope.reader.day(line.settleDate.value)
  }

  lemma FieldsExactly(scope: Scope, line: Line, kind: Kind)
    requires line.activityCode == Some(if kind == Deposit then "DEP" else "WITH")
    ensures FieldsOk(scope, line, kind) <==> GoodFields(scope, line)
  {
    var currency := Text(line.currency);
    assert forall i :: 0 <= i < |currency| ==> currency[i] in currency;
    assert Uppercase(currency) <==> forall c :: c in currency ==> 'A' <= c <= 'Z';
    if AmountOk(Text(line.amount)) { AmountIsAccepted(Text(line.amount)); }
    hide TextOk, Accepts, AmountOk, Value, Uppercase, IsUpper;
    assert !AmountOk("") by { EmptyIsNoAmount(); }
    assert !TextOk(scope.reader.isSpace, "", 256) by { EmptyIsNoText(scope.reader.isSpace); }
  }

  lemma EmptyIsNoAmount()
    ensures !AmountOk("")
  {
  }

  lemma EmptyIsNoText(isSpace: char -> bool)
    ensures !TextOk(isSpace, "", 256)
  {
  }

  /** A row is skipped, kept or refused exactly so, and a kept one is recorded as it stands. */
  lemma LineIsReadExactly(scope: Scope, line: Line)
    ensures var r, flow := ReadLine(scope, line), line.activityCode in {Some("DEP"), Some("WITH")};
            var good, settled := GoodFields(scope, line), GoodSettlement(scope, line);
            && (r.Skip? <==> !flow)
            && (r.Keep? <==> flow && good && settled)
            && (r == Refuse("flow_fields_invalid") <==> flow && !good)
            && (r == Refuse("flow_settlement_invalid") <==> flow && good && !settled)
            && (r.Keep? ==> line.transactionID == Some(r.id) && Says(scope, line, r.value))
  {
    if line.activityCode == Some("DEP") { FieldsExactly(scope, line, Deposit); }
    if line.activityCode == Some("WITH") { FieldsExactly(scope, line, Withdrawal); }
    if GoodFields(scope, line) { GoodTextsAreThere(scope, line); }
    hide GoodFields, FieldsOk;
    assert FieldsOk(scope, line, Deposit) ==> DayOf(scope.reader.day, line.date).Some? by {
      FieldsHaveADay(scope, line);
    }
    assert FieldsOk(scope, line, Withdrawal) ==> DayOf(scope.reader.day, line.date).Some? by {
      FieldsHaveADay(scope, line);
    }
  }

  lemma GoodTextsAreThere(scope: Scope, line: Line)
    requires GoodFields(scope, line)
    ensures line.transactionID.Some? && line.currency.Some? && line.amount.Some? && line.date.Some?
  {
  }

  lemma FieldsHaveADay(scope: Scope, line: Line)
    ensures forall kind :: FieldsOk(scope, line, kind) ==> DayOf(scope.reader.day, line.date).Some?
  {
  }

  ghost predicate GoodLine(scope: Scope, line: Line) {
    IsExactFlow(line) ==> GoodFields(scope, line) && GoodSettlement(scope, line)
  }

  predicate IsExactFlow(line: Line) { line.activityCode in {Some("DEP"), Some("WITH")} }

  ghost predicate AllGood(scope: Scope, lines: seq<Line>) { forall line :: line in lines ==> GoodLine(scope, line) }

  /** One flow says what both rows say. */
  ghost predicate SayTheSame(scope: Scope, a: Line, b: Line) { exists f :: Says(scope, a, f) && Says(scope, b, f) }

  /** Flow rows of one identity say the same. */
  ghost predicate Agree(scope: Scope, lines: seq<Line>) {
    forall a, b :: a in lines && b in lines && IsExactFlow(a) && IsExactFlow(b) ==>
      a.transactionID == b.transactionID ==> SayTheSame(scope, a, b)
  }

  function FlowIds(lines: seq<Line>): set<string> {
    set line | line in lines && IsExactFlow(line) :: Text(line.transactionID)
  }

  /** A row says one thing. */
  lemma OneSaying(scope: Scope, f: Flow, g: Flow, line: Line)
    requires Says(scope, line, f) && Says(scope, line, g)
    ensures f == g
  {
  }

  lemma SaidByBoth(scope: Scope, a: Line, b: Line) returns (f: Flow)
    requires SayTheSame(scope, a, b)
    ensures Says(scope, a, f) && Says(scope, b, f)
  {
    hide Says;
    f :| Says(scope, a, f) && Says(scope, b, f);
  }

  lemma AgreeExactly(scope: Scope, a: Line, b: Line)
    requires ReadLine(scope, a).Keep? && ReadLine(scope, b).Keep?
    ensures SayTheSame(scope, a, b) <==> ReadLine(scope, a).value == ReadLine(scope, b).value
    ensures a.transactionID == b.transactionID <==> ReadLine(scope, a).id == ReadLine(scope, b).id
  {
    hide ReadLine, Says, SayTheSame;
    LineIsReadExactly(scope, a);
    LineIsReadExactly(scope, b);
    var x, y := ReadLine(scope, a).value, ReadLine(scope, b).value;
    if SayTheSame(scope, a, b) {
      var f := SaidByBoth(scope, a, b);
      OneSaying(scope, x, f, a);
      OneSaying(scope, y, f, b);
    }
    if x == y { SaidTogether(scope, x, a, b); }
  }

  lemma SaidTogether(scope: Scope, f: Flow, a: Line, b: Line)
    requires Says(scope, a, f) && Says(scope, b, f)
    ensures SayTheSame(scope, a, b)
  {
    hide Says;
  }

  lemma AllGoodIsNoRefusal(scope: Scope, lines: seq<Line>)
    ensures AllGood(scope, lines) <==> NoRefusal(Readings(scope, lines))
  {
    hide ReadLine, Readings, GoodFields, GoodSettlement, Says;
    forall line | line in lines
      ensures ReadLine(scope, line) in Readings(scope, lines)
      ensures (GoodLine(scope, line) <==> !ReadLine(scope, line).Refuse?)
    {
      LineIsReadExactly(scope, line);
      ReadingsOfLines(scope, lines, ReadLine(scope, line));
    }
    forall r | r in Readings(scope, lines) ensures exists line :: line in lines && ReadLine(scope, line) == r {
      ReadingsOfLines(scope, lines, r);
    }
  }

  lemma AgreeIsConsistent(scope: Scope, lines: seq<Line>)
    requires AllGood(scope, lines)
    ensures Agree(scope, lines) <==> Consistent(Readings(scope, lines))
  {
    hide ReadLine, Readings, SayTheSame, GoodFields, GoodSettlement, Says;
    forall line | line in lines
      ensures ReadLine(scope, line) in Readings(scope, lines) && (ReadLine(scope, line).Keep? <==> IsExactFlow(line))
    {
      LineIsReadExactly(scope, line);
      ReadingsOfLines(scope, lines, ReadLine(scope, line));
    }
    forall a, b | a in lines && b in lines && IsExactFlow(a) && IsExactFlow(b)
      ensures SayTheSame(scope, a, b) <==> ReadLine(scope, a).value == ReadLine(scope, b).value
      ensures a.transactionID == b.transactionID <==> ReadLine(scope, a).id == ReadLine(scope, b).id
    {
      AgreeExactly(scope, a, b);
    }
    forall r | r in Readings(scope, lines) ensures exists line :: line in lines && ReadLine(scope, line) == r {
      ReadingsOfLines(scope, lines, r);
    }
  }

  lemma IdsAreFlowIds(scope: Scope, lines: seq<Line>)
    requires AllGood(scope, lines)
    ensures Ids(Readings(scope, lines)) == FlowIds(lines)
  {
    hide ReadLine, GoodFields, GoodSettlement, Says;
    var rs := Readings(scope, lines);
    forall i | 0 <= i < |lines|
      ensures lines[i] in lines && (rs[i].Keep? <==> IsExactFlow(lines[i]))
      ensures rs[i].Keep? ==> rs[i].id == Text(lines[i].transactionID)
    {
      LineIsReadExactly(scope, lines[i]);
    }
    forall id | id in FlowIds(lines) ensures id in Ids(rs) {
      var line :| line in lines && IsExactFlow(line) && Text(line.transactionID) == id;
      var i :| 0 <= i < |lines| && lines[i] == line;
      assert rs[i].Keep? && rs[i].id == id;
    }
  }

  /** Projectable exactly when each flow row is good, rows of one identity agree, and identities are few enough. */
  lemma ProjectableExactly(scope: Scope, lines: seq<Line>, p: Projection<Flow>)
    requires Projects(scope, lines, p)
    ensures p.Available? <==> AllGood(scope, lines) && Agree(scope, lines) && |FlowIds(lines)| <= 256
  {
    hide AllGood, Agree, NoRefusal, Consistent, Ids, FlowIds, Readings;
    AllGoodIsNoRefusal(scope, lines);
    if AllGood(scope, lines) {
      AgreeIsConsistent(scope, lines);
      IdsAreFlowIds(scope, lines);
    }
  }

  /** Exactly which statements have their rows read, why the others have not, and in what scope. */
  lemma HeaderIsGoodExactly(reader: Reader, statement: Statement)
    ensures var problem, from, to := HeaderProblem(reader, statement), statement.from, statement.to;
            var one := |statement.sections| == 1 && forall child :: child in statement.sections[0] ==> child.Funds?;
            var period := && from.Some? && to.Some? && reader.day(from.value).Some? && reader.day(to.value).Some?
                          && 0 <= reader.day(to.value).value - reader.day(from.value).value <= 30;
            && (problem.None? <==> one && period)
            && (problem == Some("funds_section_missing") <==> statement.sections == [])
            && (problem == Some("unsupported_funds_rows") <==> statement.sections != [] && !one)
            && (problem == Some("flow_period_invalid") <==> one && !period)
            && (problem.None? ==>
                  ScopeOf(reader, statement) == Scope(reader, Text(statement.accountId), reader.day(from.value).value,
                                                      reader.day(to.value).value))
  {
    if |statement.sections| == 1 {
      var section := statement.sections[0];
      assert forall i :: 0 <= i < |section| ==> section[i] in section;
    }
  }

  /** The rows read are the funds rows of the section, all of them and in their order. */
  lemma {:induction false} LinesExactly(section: seq<Child>)
    ensures forall line :: line in LinesOf(section) <==> Funds(line) in section
    ensures (forall child :: child in section ==> child.Funds?) ==>
              && |LinesOf(section)| == |section|
              && forall i :: 0 <= i < |section| ==> Funds(LinesOf(section)[i]) == section[i]
  {
    if section != [] {
      var front, last := section[..|section| - 1], section[|section| - 1];
      LinesExactly(front);
      assert section == front + [last];
    }
  }

  // ---------- the ledger ----------

  /** The ledger's reading of the activity code. */
  ghost predicate LedgerFlow(reader: Reader, line: Line) {
    reader.clean(if line.activityCode.Some? then line.activityCode.value else "") in {"DEP", "WITH"}
  }

  /** A flow row that gives an amount and a currency. */
  ghost predicate LedgerEntry(reader: Reader, line: Line, e: Entry) {
    && line.amount.Some? && reader.parse(line.amount.value) == Some(e.amount)
    && reader.clean(if line.currency.Some? then line.currency.value else "") == e.currency && e.currency != ""
  }

  /** Which rows are flows, which give an entry, and which the strict projection does not see. */
  lemma LedgerLineExactly(reader: Reader, line: Line)
    ensures IsFlow(reader, line) <==> LedgerFlow(reader, line)
    ensures forall e :: EntryOf(reader, line) == Some(e) <==> LedgerEntry(reader, line, e)
    ensures Unreadable(reader, line) <==>
              LedgerFlow(reader, line) && forall e :: !LedgerEntry(reader, line, e)
    ensures Inexact(reader, line) <==>
              LedgerFlow(reader, line) && (line.activityCode.Some? ==>
                                             reader.clean(line.activityCode.value) != line.activityCode.value)
  {
    var o := EntryOf(reader, line);
    if o.Some? { assert LedgerEntry(reader, line, o.value); }
  }

  /** The three flags of the ledger's scan. */
  lemma FlagsExactly(reader: Reader, lines: seq<Line>)
    ensures Incomplete(reader, lines) <==>
              exists line :: line in lines && LedgerFlow(reader, line) && forall e :: !LedgerEntry(reader, line, e)
    ensures Unprojected(reader, lines) <==>
              exists line :: line in lines && LedgerFlow(reader, line)
                             && (line.activityCode.Some? ==>
                                   reader.clean(line.activityCode.value) != line.activityCode.value)
    ensures Duplicate(reader, lines) <==>
              exists i, j :: 0 <= i < j < |lines| && LedgerFlow(reader, lines[i]) && LedgerFlow(reader, lines[j])
                             && lines[i].transactionID == lines[j].transactionID
                             && lines[i].transactionID !in {None, Some("")}
  {
    assert forall i :: 0 <= i < |lines| ==> lines[i] in lines;
    forall line
      ensures Unreadable(reader, line) <==> LedgerFlow(reader, line) && forall e :: !LedgerEntry(reader, line, e)
    {
      LedgerLineExactly(reader, line);
    }
    forall line ensures IsFlow(reader, line) <==> LedgerFlow(reader, line) { LedgerLineExactly(reader, line); }
    forall line
      ensures Inexact(reader, line) <==>
                LedgerFlow(reader, line) && (line.activityCode.Some? ==>
                                               reader.clean(line.activityCode.value) != line.activityCode.value)
    {
      LedgerLineExactly(reader, line);
    }
    hide LedgerFlow, LedgerEntry, IsFlow, Unreadable, Inexact;
  }

  // ---------- the total ----------

  /** No total exactly for two currencies; otherwise the number of entries and their currency, the fallback for none. */
  lemma TotalExactly(entries: seq<Entry>, fallback: Option<string>)
    ensures TotalOf(entries, fallback).None? <==>
              exists a, b :: a in entries && b in entries && a.currency != b.currency
    ensures var t := TotalOf(entries, fallback);
            t.Some? ==>
              && t.value.count == |entries| && (forall e :: e in entries ==> t.value.currency == Some(e.currency))
              && (entries == [] ==> t.value.currency == fallback && t.value.amount == 0.0)
  {
    if entries != [] {
      forall e | e in entries && |Currencies(entries)| <= 1 ensures e.currency == entries[0].currency {
        OneCurrency(entries, e);
      }
      if |Currencies(entries)| > 1 {
        assert entries[0].currency in Currencies(entries);
        var others := Currencies(entries) - {entries[0].currency};
        assert |others| >= 1;
        var other :| other in others;
        var e :| e in entries && e.currency == other;
      }
    }
  }

  /** One more entry adds its amount. */
  lemma TotalAdds(entries: seq<Entry>, e: Entry, fallback: Option<string>)
    requires TotalOf(entries + [e], fallback).Some?
    ensures TotalOf(entries, fallback).Some?
    ensures TotalOf(entries + [e], fallback).value.amount == TotalOf(entries, fallback).value.amount + e.amount
  {
    TotalExactly(entries + [e], fallback);
    TotalExactly(entries, fallback);
    assert (entries + [e])[..|entries|] == entries;
  }
}
