/**
 Exactly when repeated rows leave the ledger's net external flow alone
 (application/ibkr_flex_ledger.py), and a statement in which they do not.
 */
module FlowRepeats {
  import opened Wrappers
  import opened FlexFields
  import opened IdentityFold
  import opened Ordering
  import opened DecimalText
  import opened FlexNumbers
  import opened Sums
  import opened ExternalFlows

  // ---------- the flow rows, with how often each occurs ----------

  function FlowLines(reader: Reader, lines: seq<Line>): seq<Line> {
    if lines == [] then []
    else
      var front, last := FlowLines(reader, lines[..|lines| - 1]), lines[|lines| - 1];
      if IsFlow(reader, last) then front + [last] else front
  }

  lemma FlowLinesSnoc(reader: Reader, lines: seq<Line>, line: Line)
    ensures FlowLines(reader, lines + [line])
         == if IsFlow(reader, line) then FlowLines(reader, lines) + [line] else FlowLines(reader, lines)
  {
    assert (lines + [line])[..|lines|] == lines;
  }

  lemma {:induction false} FlowLinesCount(reader: Reader, lines: seq<Line>, x: Line)
    ensures multiset(FlowLines(reader, lines))[x] == if IsFlow(reader, x) then multiset(lines)[x] else 0
  {
    hide IsFlow;
    if lines != [] {
      var front, last := lines[..|lines| - 1], lines[|lines| - 1];
      assert lines == front + [last];
      FlowLinesCount(reader, front, x);
      FlowLinesSnoc(reader, front, last);
    }
  }

  function EntryOrZero(reader: Reader): Line -> Entry {
    (line: Line) => if EntryOf(reader, line).Some? then EntryOf(reader, line).value else Entry("", 0.0)
  }

  /** Without unreadable flows the ledger has one entry per flow row. */
  lemma {:induction false} LegacyIsMapped(reader: Reader, lines: seq<Line>)
    requires !Incomplete(reader, lines)
    ensures Legacy(reader, lines) == Map(EntryOrZero(reader), FlowLines(reader, lines))
  {
    hide IsFlow, EntryOf, Incomplete;
    if lines != [] {
      var front, last := lines[..|lines| - 1], lines[|lines| - 1];
      assert lines == front + [last];
      FlagsSnoc(reader, front, last);
      LegacyIsMapped(reader, front);
      LegacySnoc(reader, front, last);
      FlowLinesSnoc(reader, front, last);
      MapJoin(EntryOrZero(reader), FlowLines(reader, front), [last]);
    }
  }

  lemma TwoPlaces<T>(s: seq<T>, i: nat, j: nat)
    requires i < j < |s| && s[i] == s[j]
    ensures multiset(s)[s[i]] >= 2
  {
    assert s == s[..j] + ([s[j]] + s[j + 1..]);
    assert s[i] in s[..j];
  }

  lemma {:induction false} TwicePresent<T>(s: seq<T>, x: T) returns (i: nat, j: nat)
    requires multiset(s)[x] >= 2
    ensures i < j < |s| && s[i] == x && s[j] == x
  {
    var front, last := s[..|s| - 1], s[|s| - 1];
    assert s == front + [last];
    if last == x {
      assert x in multiset(front);
      i :| 0 <= i < |front| && front[i] == x;
      j := |s| - 1;
    } else {
      i, j := TwicePresent(front, x);
    }
  }

  /** Duplicates, told from how often each row occurs. */
  ghost predicate DuplicateRows(reader: Reader, rows: multiset<Line>) {
    exists a, b :: a in rows && b in rows && SameIdentity(reader, a, b) && (a != b || rows[a] >= 2)
  }

  lemma DuplicateIsCounted(reader: Reader, lines: seq<Line>)
    ensures Duplicate(reader, lines) <==> DuplicateRows(reader, multiset(lines))
  {
    hide IsFlow;
    if Duplicate(reader, lines) {
      var i, j :| 0 <= i < j < |lines| && SameIdentity(reader, lines[i], lines[j]);
      if lines[i] == lines[j] { TwoPlaces(lines, i, j); }
      assert lines[i] in multiset(lines) && lines[j] in multiset(lines);
    }
    if DuplicateRows(reader, multiset(lines)) {
      var a, b :| a in multiset(lines) && b in multiset(lines) && SameIdentity(reader, a, b)
                  && (a != b || multiset(lines)[a] >= 2);
      DuplicatePlaces(reader, lines, a, b);
    }
  }

  lemma DuplicatePlaces(reader: Reader, lines: seq<Line>, a: Line, b: Line)
    requires a in lines && b in lines && SameIdentity(reader, a, b) && (a != b || multiset(lines)[a] >= 2)
    ensures Duplicate(reader, lines)
  {
    hide IsFlow;
    if a == b {
      var i, j := TwicePresent(lines, a);
      assert SameIdentity(reader, lines[i], lines[j]);
    } else {
      var i :| 0 <= i < |lines| && lines[i] == a;
      var j :| 0 <= j < |lines| && lines[j] == b;
      assert SameIdentity(reader, lines[i], lines[j]) && SameIdentity(reader, lines[j], lines[i]);
    }
  }

  // ---------- repeats ----------

  /** No flow row occurs more often in `others`. */
  ghost predicate FlowsNotRepeated(reader: Reader, lines: seq<Line>, others: seq<Line>) {
    forall line :: line in lines && IsFlow(reader, line) ==> multiset(others)[line] == multiset(lines)[line]
  }

  /** `others` are the rows of `lines`, each at least as often, in any order. */
  ghost predicate Repeats(lines: seq<Line>, others: seq<Line>) {
    SameLines(lines, others) && multiset(lines) <= multiset(others)
  }

  /** The ledger has no total to publish: a flow is unreadable, an identity repeats, or currencies are mixed. */
  predicate Withheld(reader: Reader, lines: seq<Line>) {
    Incomplete(reader, lines) || Duplicate(reader, lines) || |Currencies(Legacy(reader, lines))| > 1
  }

  lemma IncompleteIsShared(reader: Reader, lines: seq<Line>, others: seq<Line>)
    requires SameLines(lines, others) && Incomplete(reader, lines)
    ensures Incomplete(reader, others)
  {
    hide Unreadable;
    var i :| 0 <= i < |lines| && Unreadable(reader, lines[i]);
    assert lines[i] in lines;
    var j :| 0 <= j < |others| && others[j] == lines[i];
  }

  lemma DuplicateStays(reader: Reader, lines: seq<Line>, others: seq<Line>)
    requires multiset(lines) <= multiset(others) && Duplicate(reader, lines)
    ensures Duplicate(reader, others)
  {
    hide SameIdentity;
    DuplicateIsCounted(reader, lines);
    DuplicateIsCounted(reader, others);
    assert forall x :: x in multiset(lines) ==> multiset(lines)[x] <= multiset(others)[x];
  }

  lemma CurrenciesStay(reader: Reader, lines: seq<Line>, others: seq<Line>)
    requires multiset(lines) <= multiset(others) && !Incomplete(reader, lines) && !Incomplete(reader, others)
    ensures Currencies(Legacy(reader, lines)) <= Currencies(Legacy(reader, others))
    ensures |Legacy(reader, lines)| <= |Legacy(reader, others)|
  {
    hide Legacy, Incomplete, IsFlow, EntryOf;
    LegacyIsMapped(reader, lines);
    LegacyIsMapped(reader, others);
    var f, a, b := EntryOrZero(reader), FlowLines(reader, lines), FlowLines(reader, others);
    FlowsIncluded(reader, lines, others);
    forall e | e in Map(f, a) ensures e in Map(f, b) {
      var i :| 0 <= i < |a| && Map(f, a)[i] == e;
      assert a[i] in multiset(a);
      assert a[i] in multiset(b);
      var j :| 0 <= j < |b| && b[j] == a[i];
      assert Map(f, b)[j] == e;
    }
  }

  lemma FlowsIncluded(reader: Reader, lines: seq<Line>, others: seq<Line>)
    requires multiset(lines) <= multiset(others)
    ensures multiset(FlowLines(reader, lines)) <= multiset(FlowLines(reader, others))
    ensures |FlowLines(reader, lines)| <= |FlowLines(reader, others)|
    ensures FlowsNotRepeated(reader, lines, others) && SameLines(lines, others) ==>
              multiset(FlowLines(reader, lines)) == multiset(FlowLines(reader, others))
    ensures !FlowsNotRepeated(reader, lines, others) ==> |FlowLines(reader, lines)| < |FlowLines(reader, others)|
  {
    hide IsFlow, FlowLines;
    var a, b := FlowLines(reader, lines), FlowLines(reader, others);
    forall x ensures multiset(a)[x] <= multiset(b)[x] {
      FlowLinesCount(reader, lines, x);
      FlowLinesCount(reader, others, x);
    }
    MultisetSizes(a, b);
    if FlowsNotRepeated(reader, lines, others) && SameLines(lines, others) {
      forall x ensures multiset(a)[x] == multiset(b)[x] {
        FlowLinesCount(reader, lines, x);
        FlowLinesCount(reader, others, x);
      }
    }
    if !FlowsNotRepeated(reader, lines, others) {
      var x :| x in lines && IsFlow(reader, x) && multiset(others)[x] != multiset(lines)[x];
      FlowLinesCount(reader, lines, x);
      FlowLinesCount(reader, others, x);
    }
  }

  lemma MultisetSizes<T>(a: seq<T>, b: seq<T>)
    requires multiset(a) <= multiset(b)
    ensures |a| <= |b|
    ensures multiset(a) != multiset(b) ==> |a| < |b|
  {
    var rest := multiset(b) - multiset(a);
    assert multiset(b) == multiset(a) + rest;
    assert |multiset(a)| == |a| && |multiset(b)| == |b|;
    if |rest| == 0 { assert rest == multiset{}; }
  }

  /** With an inexact code there is a total exactly when no guard withholds it; it is the ledger's own sum. */
  lemma InexactNet(reader: Reader, lines: seq<Line>, p: Projection<Flow>, base: Option<string>)
    requires Unprojected(reader, lines)
    ensures Net(reader, lines, p, base).None? <==> Withheld(reader, lines)
    ensures !Withheld(reader, lines) ==> Net(reader, lines, p, base) == TotalOf(Legacy(reader, lines), base)
  {
    hide Incomplete, Duplicate, Unprojected, Legacy, FlowEntry;
  }

  lemma WithheldStays(reader: Reader, lines: seq<Line>, others: seq<Line>)
    requires Repeats(lines, others) && Withheld(reader, lines)
    ensures Withheld(reader, others)
  {
    hide Duplicate, Incomplete, Legacy, Currencies;
    if Incomplete(reader, lines) {
      IncompleteIsShared(reader, lines, others);
    } else if Duplicate(reader, lines) {
      DuplicateStays(reader, lines, others);
    } else if !Incomplete(reader, others) {
      CurrenciesStay(reader, lines, others);
      SubsetSize(Currencies(Legacy(reader, lines)), Currencies(Legacy(reader, others)));
    }
  }

  /** Flow rows that occur equally often give the same sum, withheld or not. */
  lemma UnrepeatedFlows(reader: Reader, lines: seq<Line>, others: seq<Line>, base: Option<string>)
    requires Repeats(lines, others) && FlowsNotRepeated(reader, lines, others) && !Withheld(reader, lines)
    ensures !Withheld(reader, others)
    ensures TotalOf(Legacy(reader, lines), base) == TotalOf(Legacy(reader, others), base)
  {
    hide Legacy, Incomplete, Duplicate, TotalOf, IsFlow;
    SameLinesTurned(lines, others);
    if Incomplete(reader, others) { IncompleteIsShared(reader, others, lines); }
    FlowsIncluded(reader, lines, others);
    LegacyIsMapped(reader, lines);
    LegacyIsMapped(reader, others);
    MapPermuted(EntryOrZero(reader), FlowLines(reader, lines), FlowLines(reader, others));
    TotalIgnoresOrder(Legacy(reader, lines), Legacy(reader, others), base);
    SameCurrencies(Legacy(reader, lines), Legacy(reader, others));
    if Duplicate(reader, others) { DuplicateFlowsAreShared(reader, lines, others); }
  }

  lemma SameCurrencies(a: seq<Entry>, b: seq<Entry>)
    requires multiset(a) == multiset(b)
    ensures Currencies(a) == Currencies(b)
  {
    assert forall e :: e in a <==> e in multiset(a);
    assert forall e :: e in b <==> e in multiset(b);
  }

  lemma DuplicateFlowsAreShared(reader: Reader, lines: seq<Line>, others: seq<Line>)
    requires SameLines(lines, others) && FlowsNotRepeated(reader, lines, others) && Duplicate(reader, others)
    ensures Duplicate(reader, lines)
  {
    hide IsFlow;
    DuplicateIsCounted(reader, others);
    DuplicateIsCounted(reader, lines);
    var a, b :| a in multiset(others) && b in multiset(others) && SameIdentity(reader, a, b)
                && (a != b || multiset(others)[a] >= 2);
    assert a in others && b in others;
    assert a in lines && b in lines && IsFlow(reader, a);
    assert a in multiset(lines) && b in multiset(lines);
  }

  lemma RepeatedFlowShows(reader: Reader, lines: seq<Line>, others: seq<Line>, base: Option<string>)
    requires Repeats(lines, others) && !FlowsNotRepeated(reader, lines, others)
    requires !Withheld(reader, lines) && !Withheld(reader, others)
    ensures TotalOf(Legacy(reader, lines), base) != TotalOf(Legacy(reader, others), base)
  {
    hide FlowsNotRepeated, FlowLines, Legacy, Incomplete, Duplicate;
    FlowsIncluded(reader, lines, others);
    LegacyIsMapped(reader, lines);
    LegacyIsMapped(reader, others);
  }

  /**
   Exactly when repeating rows leaves the net total alone, in any order and any number:
   every flow code is exact, or a guard of the ledger withheld the total before, or no
   flow row is among those repeated.
   */
  lemma RepeatsAreHarmlessExactly(scope: Scope, lines: seq<Line>, others: seq<Line>,
                                  p: Projection<Flow>, q: Projection<Flow>, base: Option<string>)
    requires Faithful(scope.reader) && Repeats(lines, others)
    requires ProjectsOnto(scope, lines, p) && Projects(scope, others, q)
    ensures Net(scope.reader, others, q, base) == Net(scope.reader, lines, p, base)
       <==> || !Unprojected(scope.reader, lines)
            || Withheld(scope.reader, lines)
            || FlowsNotRepeated(scope.reader, lines, others)
  {
    assert SameLines(lines, others);
    hide *;
    var reader := scope.reader;
    if !Unprojected(reader, lines) {
      NetCountsEachIdentityOnce(scope, lines, others, p, q, base);
    } else {
      UnprojectedIsShared(reader, lines, others);
      InexactNet(reader, lines, p, base);
      InexactNet(reader, others, q, base);
      if Withheld(reader, lines) {
        WithheldStays(reader, lines, others);
      } else if FlowsNotRepeated(reader, lines, others) {
        UnrepeatedFlows(reader, lines, others, base);
      } else if !Withheld(reader, others) {
        RepeatedFlowShows(reader, lines, others, base);
      }
    }
  }

  // ---------- a padded code withholds the total ----------

  const EXACT := Line(Some("DEP"), Some("1"), Some("5"), Some("USD"), Some("day"), None, Some("A"), None)
  const PADDED := EXACT.(activityCode := Some(" DEP"), transactionID := Some("2"))

  function PlainReader(): Reader {
    Reader(c => c == ' ', s => Some(0), s => if |s| > 0 && s[0] == ' ' then s[1..] else s,
           s => if AmountOk(s) then Some(Value(s)) else None)
  }

  lemma FiveIsFive()
    ensures AmountOk("5") && Value("5") == 5.0
  {
    PrintedTextReadsBack(false, 5, 0);
    assert Str(5) == "5" && FixedPoint(5, 0) == "5";
    assert Split("5").whole == "5";
  }

  lemma PlainReaderIsFaithful()
    ensures Faithful(PlainReader())
  {
    var reader := PlainReader();
    forall s | Uppercase(s) ensures reader.clean(s) == s {
      if |s| > 0 { assert IsUpper(s[0]); }
    }
  }

  function PlainScope(): Scope { Scope(PlainReader(), "A", 0, 0) }

  lemma HowTheyRead()
    ensures ReadLine(PlainScope(), EXACT) == Keep("1", Flow("USD", "1", Deposit, "5", 0, None))
    ensures ReadLine(PlainScope(), PADDED) == Skip
    ensures var reader := PlainReader();
            && IsFlow(reader, EXACT) && IsFlow(reader, PADDED) && !Inexact(reader, EXACT) && Inexact(reader, PADDED)
            && EntryOf(reader, EXACT) == Some(Entry("USD", 5.0)) && EntryOf(reader, PADDED) == Some(Entry("USD", 5.0))
  {
    hide AmountOk, Value;
    FiveIsFive();
  }

  lemma OneKept(k: Reading<Flow>)
    requires k.Keep?
    ensures Acceptable([k, Skip], MAX_FLOWS)
  {
    var rs := [k, Skip];
    assert Ids(rs) <= {k.id};
    SubsetSize(Ids(rs), {k.id});
  }

  lemma BothCounted(reader: Reader, e: Entry, p: Projection<Flow>, base: Option<string>)
    requires IsFlow(reader, EXACT) && IsFlow(reader, PADDED) && !Inexact(reader, EXACT) && Inexact(reader, PADDED)
    requires EntryOf(reader, EXACT) == Some(e) && EntryOf(reader, PADDED) == Some(e)
    ensures Net(reader, [EXACT, PADDED], p, base) == Some(Total(2.0 * e.amount, Some(e.currency), 2))
    ensures Net(reader, [EXACT, PADDED, EXACT], p, base) == None
  {
    hide *;
    FlagsOfTwo(reader);
    LegacyOfTwo(reader, e);
    TotalOfTwo(e, base);
    NetChoice(reader, [EXACT, PADDED], p, base);
    NetChoice(reader, [EXACT, PADDED, EXACT], p, base);
  }

  lemma LegacyOfTwo(reader: Reader, e: Entry)
    requires IsFlow(reader, EXACT) && EntryOf(reader, EXACT) == Some(e)
    requires IsFlow(reader, PADDED) && EntryOf(reader, PADDED) == Some(e)
    ensures Legacy(reader, [EXACT, PADDED]) == [e, e]
  {
    assert Legacy(reader, []) == [];
    assert [] + [EXACT] == [EXACT] && [EXACT] + [PADDED] == [EXACT, PADDED];
    hide *;
    LegacySnoc(reader, [], EXACT);
    LegacySnoc(reader, [EXACT], PADDED);
  }

  lemma TotalOfTwo(e: Entry, base: Option<string>)
    ensures TotalOf([e, e], base) == Some(Total(2.0 * e.amount, Some(e.currency), 2))
  {
    assert Currencies([e, e]) == {e.currency} && [] + [e] == [e] && [e] + [e] == [e, e];
    SumSnoc(AmountOf, [], e);
    SumSnoc(AmountOf, [e], e);
  }

  lemma FlagsOfTwo(reader: Reader)
    requires IsFlow(reader, EXACT) && IsFlow(reader, PADDED) && Inexact(reader, PADDED)
    requires EntryOf(reader, EXACT).Some? && EntryOf(reader, PADDED).Some?
    ensures !Incomplete(reader, [EXACT, PADDED]) && !Duplicate(reader, [EXACT, PADDED])
    ensures Duplicate(reader, [EXACT, PADDED, EXACT]) && Unprojected(reader, [EXACT, PADDED, EXACT])
  {
    hide IsFlow, EntryOf, Code, Inexact;
    assert SameIdentity(reader, [EXACT, PADDED, EXACT][0], [EXACT, PADDED, EXACT][2]);
    assert Inexact(reader, [EXACT, PADDED, EXACT][1]);
  }

  /**
   A deposit written " DEP" is counted by the ledger and not seen by the strict projection,
   so an exact repeat of another deposit turns a published total into none.
   */
  lemma APaddedCodeWithholdsTheTotal(p: Projection<Flow>, base: Option<string>)
    requires Projects(PlainScope(), [EXACT, PADDED], p)
    ensures Faithful(PlainReader()) && p.Available?
    ensures Net(PlainReader(), [EXACT, PADDED], p, base) == Some(Total(10.0, Some("USD"), 2))
    ensures forall q :: Net(PlainReader(), [EXACT, PADDED, EXACT], q, base) == None
  {
    hide *;
    PlainReaderIsFaithful();
    HowTheyRead();
    var kept := ReadLine(PlainScope(), EXACT);
    assert Readings(PlainScope(), [EXACT, PADDED]) == [kept, Skip] by { ReadingsOfTwo(); }
    OneKept(kept);
    AcceptableProjects(PlainScope(), [EXACT, PADDED], p);
    forall q: Projection<Flow> ensures Net(PlainReader(), [EXACT, PADDED, EXACT], q, base) == None {
      BothCounted(PlainReader(), Entry("USD", 5.0), q, base);
    }
    BothCounted(PlainReader(), Entry("USD", 5.0), p, base);
  }

  lemma ReadingsOfTwo()
    ensures Readings(PlainScope(), [EXACT, PADDED]) == [ReadLine(PlainScope(), EXACT), ReadLine(PlainScope(), PADDED)]
  {
    hide ReadLine;
  }

  lemma AcceptableProjects(scope: Scope, lines: seq<Line>, p: Projection<Flow>)
    requires Projects(scope, lines, p) && Acceptable(Readings(scope, lines), MAX_FLOWS)
    ensures p.Available?
  {
  }
}
