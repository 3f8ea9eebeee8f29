/**
 Merging positions of one symbol (application/ibkr_portfolio.py): quantities and values
 are conserved, and the average cost stays between the costs that made it.
 */
module Portfolios {
  import opened Wrappers
  import opened Arith
  import opened Ordering
  import opened Sums

  /** A holding as the broker reports it; an empty account means none. */
  datatype Position = Position(
    symbol: string, quantity: real, value: real, cost: Option<real>, currency: string, account: string)

  function Quantity(): Position -> real { (p: Position) => p.quantity }

  function MarketValue(): Position -> real { (p: Position) => p.value }

  /** How much of the position's quantity carries a cost. */
  function Weight(): Position -> real { (p: Position) => if p.cost.Some? then AbsReal(p.quantity) else 0.0 }

  function WeightedCost(): Position -> real {
    (p: Position) => if p.cost.Some? then Mul(AbsReal(p.quantity), p.cost.value) else 0.0
  }

  /** The running totals of one symbol. */
  datatype Row = Row(quantity: real, value: real, weightedCost: real, weight: real, currency: string,
                     accounts: set<string>)

  /** Trimming and upper-casing of symbols. */
  type Cleaner = string -> string

  // ---------- the specification ----------

  /** The positions of one symbol, in order. */
  function Of(clean: Cleaner, ps: seq<Position>, symbol: string): seq<Position> {
    if ps == [] then []
    else
      var front, last := Of(clean, ps[..|ps| - 1], symbol), ps[|ps| - 1];
      if clean(last.symbol) == symbol then front + [last] else front
  }

  /** The symbols in order of first appearance. */
  function Symbols(clean: Cleaner, ps: seq<Position>): seq<string> {
    if ps == [] then []
    else
      var front, symbol := Symbols(clean, ps[..|ps| - 1]), clean(ps[|ps| - 1].symbol);
      if symbol in front then front else front + [symbol]
  }

  ghost predicate OneCurrencyEach(clean: Cleaner, ps: seq<Position>) {
    forall p, q :: p in ps && q in ps && clean(p.symbol) == clean(q.symbol) ==> p.currency == q.currency
  }

  function Accounts(ps: seq<Position>): set<string> { set p | p in ps && p.account != "" :: p.account }

  function RowOf(ps: seq<Position>): Row {
    Row(SumBy(Quantity(), ps), SumBy(MarketValue(), ps), SumBy(WeightedCost(), ps), SumBy(Weight(), ps),
        if ps == [] then "" else ps[0].currency, Accounts(ps))
  }

  ghost predicate OnlyAccount(account: string, accounts: set<string>) {
    if |accounts| == 1 then account in accounts else account == ""
  }

  /** The merged position of a row. */
  ghost predicate Merges(row: Row, symbol: string, h: Position) {
    && h.symbol == symbol && h.quantity == row.quantity && h.value == row.value && h.currency == row.currency
    && h.cost == (if row.weight > 0.0 then Some(row.weightedCost / row.weight) else None)
    && OnlyAccount(h.account, row.accounts)
  }

  ghost predicate Merged(clean: Cleaner, ps: seq<Position>, hs: seq<Position>) {
    && |hs| == |Symbols(clean, ps)|
    && forall i :: 0 <= i < |hs| ==> Merges(RowOf(Of(clean, ps, Symbols(clean, ps)[i])), Symbols(clean, ps)[i], hs[i])
  }

  // ---------- the loop ----------

  function Added(row: Row, p: Position): Row {
    Row(row.quantity + p.quantity, row.value + p.value, row.weightedCost + WeightedCost()(p), row.weight + Weight()(p),
        row.currency, if p.account != "" then row.accounts + {p.account} else row.accounts)
  }

  lemma OfSnoc(clean: Cleaner, ps: seq<Position>, p: Position, symbol: string)
    ensures Of(clean, ps + [p], symbol)
         == if clean(p.symbol) == symbol then Of(clean, ps, symbol) + [p] else Of(clean, ps, symbol)
  {
    assert (ps + [p])[..|ps|] == ps;
  }

  lemma SymbolsSnoc(clean: Cleaner, ps: seq<Position>, p: Position)
    ensures var symbols := Symbols(clean, ps);
            Symbols(clean, ps + [p]) == if clean(p.symbol) in symbols then symbols else symbols + [clean(p.symbol)]
  {
    assert (ps + [p])[..|ps|] == ps;
  }

  lemma RowSnoc(ps: seq<Position>, p: Position)
    ensures RowOf(ps + [p]) == Added(RowOf(ps), p).(currency := if ps == [] then p.currency else ps[0].currency)
  {
    SumSnoc(Quantity(), ps, p);
    SumSnoc(MarketValue(), ps, p);
    SumSnoc(WeightedCost(), ps, p);
    SumSnoc(Weight(), ps, p);
    hide SumBy;
    var all := ps + [p];
    assert forall q :: q in all <==> q in ps || q == p;
    assert Accounts(all) == if p.account != "" then Accounts(ps) + {p.account} else Accounts(ps);
  }

  lemma {:induction false} OfAre(clean: Cleaner, ps: seq<Position>, symbol: string, p: Position)
    ensures p in Of(clean, ps, symbol) <==> p in ps && clean(p.symbol) == symbol
  {
    if ps != [] {
      var front, last := ps[..|ps| - 1], ps[|ps| - 1];
      assert ps == front + [last];
      OfAre(clean, front, symbol, p);
      OfSnoc(clean, front, last, symbol);
    }
  }

  lemma {:induction false} SymbolsAre(clean: Cleaner, ps: seq<Position>, symbol: string)
    ensures symbol in Symbols(clean, ps) <==> exists p :: p in ps && clean(p.symbol) == symbol
    ensures symbol in Symbols(clean, ps) <==> Of(clean, ps, symbol) != []
  {
    if ps != [] {
      var front, last := ps[..|ps| - 1], ps[|ps| - 1];
      assert ps == front + [last];
      SymbolsAre(clean, front, symbol);
      SymbolsSnoc(clean, front, last);
      OfSnoc(clean, front, last, symbol);
    }
  }

  ghost predicate Collected(clean: Cleaner, ps: seq<Position>, order: seq<string>, rows: map<string, Row>) {
    && OneCurrencyEach(clean, ps) && order == Symbols(clean, ps)
    && (forall s :: s in rows <==> s in order)
    && forall s :: s in rows ==> rows[s] == RowOf(Of(clean, ps, s))
  }

  lemma CollectOne(clean: Cleaner, ps: seq<Position>, order: seq<string>, rows: map<string, Row>, p: Position)
    requires Collected(clean, ps, order, rows)
    ensures var s := clean(p.symbol);
            var known := s in rows;
            && (OneCurrencyEach(clean, ps + [p]) <==> !known || rows[s].currency == p.currency)
            && (!known || rows[s].currency == p.currency ==>
                  Collected(clean, ps + [p], if known then order else order + [s],
                            rows[s := Added(if known then rows[s] else EmptyRow(p.currency), p)]))
  {
    hide RowOf, Of, Symbols, Added;
    var s := clean(p.symbol);
    SymbolsSnoc(clean, ps, p);
    CurrencySnoc(clean, ps, p);
    if s in rows { CurrencyOfRow(clean, ps, s); }
    forall t ensures Of(clean, ps + [p], t) == if s == t then Of(clean, ps, t) + [p] else Of(clean, ps, t) {
      OfSnoc(clean, ps, p, t);
    }
    AddedRow(clean, ps, p);
  }

  function EmptyRow(currency: string): Row { Row(0.0, 0.0, 0.0, 0.0, currency, {}) }

  lemma AddedRow(clean: Cleaner, ps: seq<Position>, p: Position)
    ensures var s := clean(p.symbol);
            var before := Of(clean, ps, s);
            && (s in Symbols(clean, ps) <==> before != [])
            && RowOf(before + [p]) == Added(if before != [] then RowOf(before) else EmptyRow(p.currency), p)
  {
    var s := clean(p.symbol);
    SymbolsAre(clean, ps, s);
    RowSnoc(Of(clean, ps, s), p);
    assert Accounts([]) == {};
  }

  lemma CurrencyOfRow(clean: Cleaner, ps: seq<Position>, s: string)
    requires s in Symbols(clean, ps)
    ensures exists p :: p in ps && clean(p.symbol) == s && p.currency == RowOf(Of(clean, ps, s)).currency
  {
    SymbolsAre(clean, ps, s);
    var p := Of(clean, ps, s)[0];
    OfAre(clean, ps, s, p);
  }

  lemma CurrencySnoc(clean: Cleaner, ps: seq<Position>, p: Position)
    requires OneCurrencyEach(clean, ps)
    ensures OneCurrencyEach(clean, ps + [p]) <==>
              forall q :: q in ps && clean(q.symbol) == clean(p.symbol) ==> q.currency == p.currency
    ensures clean(p.symbol) !in Symbols(clean, ps) ==> forall q :: q in ps ==> clean(q.symbol) != clean(p.symbol)
  {
    SymbolsAre(clean, ps, clean(p.symbol));
    assert forall q :: q in ps + [p] <==> q in ps || q == p;
  }

  lemma BadPrefix(clean: Cleaner, ps: seq<Position>, n: nat)
    requires n <= |ps| && !OneCurrencyEach(clean, ps[..n])
    ensures !OneCurrencyEach(clean, ps)
  {
  }

  /**
   One merged position per symbol, in order of first appearance; None when a symbol has
   two currencies.
   */
  method AggregateStrategyPositions(clean: Cleaner, ps: seq<Position>) returns (r: Option<seq<Position>>)
    ensures r.Some? <==> OneCurrencyEach(clean, ps)
    ensures r.Some? ==> Merged(clean, ps, r.value)
  {
    hide *;
    var rows: map<string, Row> := map[];
    var order: seq<string> := [];
    NothingCollected(clean);
    assert ps[..0] == [];
    var i := 0;
    while i < |ps|
      invariant 0 <= i <= |ps| && Collected(clean, ps[..i], order, rows)
    {
      var p, symbol := ps[i], clean(ps[i].symbol);
      assert ps[..i + 1] == ps[..i] + [p];
      CollectOne(clean, ps[..i], order, rows, p);
      EmptyRowSays(p.currency);
      AddedSays(if symbol in rows then rows[symbol] else EmptyRow(p.currency), p);
      ghost var was, target := rows, Added(if symbol in rows then rows[symbol] else EmptyRow(p.currency), p);
      if symbol !in rows {
        rows := rows[symbol := EmptyRow(p.currency)];
        order := order + [symbol];
      }
      var row := rows[symbol];
      if row.currency != p.currency { BadPrefix(clean, ps, i + 1); return None; }
      row := row.(quantity := row.quantity + p.quantity, value := row.value + p.value);
      if p.cost.Some? {
        var weight := AbsReal(p.quantity);
        row := row.(weightedCost := row.weightedCost + Mul(weight, p.cost.value), weight := row.weight + weight);
      }
      if p.account != "" { row := row.(accounts := row.accounts + {p.account}); }
      assert row == target;
      rows := rows[symbol := row];
      assert rows == was[symbol := target];
      i := i + 1;
    }
    assert ps[..|ps|] == ps;
    CollectedSays(clean, ps, order, rows);
    var hs := MergeRows(order, rows);
    MergedByDefinition(clean, ps, order, rows, hs);
    r := Some(hs);
  }

  lemma NothingCollected(clean: Cleaner)
    ensures Collected(clean, [], [], map[])
  {
  }

  lemma EmptyRowSays(currency: string)
    ensures EmptyRow(currency) == Row(0.0, 0.0, 0.0, 0.0, currency, {})
  {
  }

  lemma AddedSays(row: Row, p: Position)
    ensures Added(row, p).quantity == row.quantity + p.quantity && Added(row, p).value == row.value + p.value
    ensures Added(row, p).currency == row.currency
    ensures Added(row, p).weightedCost
         == row.weightedCost + if p.cost.Some? then Mul(AbsReal(p.quantity), p.cost.value) else 0.0
    ensures Added(row, p).weight == row.weight + if p.cost.Some? then AbsReal(p.quantity) else 0.0
    ensures Added(row, p).accounts == if p.account != "" then row.accounts + {p.account} else row.accounts
  {
  }

  lemma CollectedSays(clean: Cleaner, ps: seq<Position>, order: seq<string>, rows: map<string, Row>)
    requires Collected(clean, ps, order, rows)
    ensures OneCurrencyEach(clean, ps) && forall s :: s in order ==> s in rows
  {
  }

  lemma MergedByDefinition(clean: Cleaner, ps: seq<Position>, order: seq<string>, rows: map<string, Row>,
                           hs: seq<Position>)
    requires Collected(clean, ps, order, rows) && (forall s :: s in order ==> s in rows)
    requires |hs| == |order| && forall i :: 0 <= i < |hs| ==> Merges(rows[order[i]], order[i], hs[i])
    ensures Merged(clean, ps, hs)
  {
    hide Merges, RowOf;
  }

  method MergeRows(order: seq<string>, rows: map<string, Row>) returns (hs: seq<Position>)
    requires forall s :: s in order ==> s in rows
    ensures |hs| == |order| && forall i :: 0 <= i < |hs| ==> Merges(rows[order[i]], order[i], hs[i])
  {
    hs := [];
    for i := 0 to |order|
      invariant |hs| == i && forall j :: 0 <= j < i ==> Merges(rows[order[j]], order[j], hs[j])
    {
      var row := rows[order[i]];
      var account := "";
      if |row.accounts| == 1 { account :| account in row.accounts; }
      var cost := if row.weight > 0.0 then Some(row.weightedCost / row.weight) else None;
      hs := hs + [Position(order[i], row.quantity, row.value, cost, row.currency, account)];
    }
  }

  // ---------- conservation ----------

  function Part(f: Position -> real, clean: Cleaner, ps: seq<Position>): string -> real {
    (s: string) => SumBy(f, Of(clean, ps, s))
  }

  lemma {:induction false} SymbolsAreDistinct(clean: Cleaner, ps: seq<Position>)
    ensures DistinctKeys((s: string) => s, Symbols(clean, ps))
  {
    if ps != [] {
      var front, last := ps[..|ps| - 1], ps[|ps| - 1];
      assert ps == front + [last];
      SymbolsAreDistinct(clean, front);
      SymbolsSnoc(clean, front, last);
    }
  }

  /** Adding one position changes the part of its own symbol, and no other. */
  lemma {:induction false} PartsAfterOne(f: Position -> real, clean: Cleaner, ps: seq<Position>, p: Position,
                                         symbols: seq<string>)
    requires DistinctKeys((s: string) => s, symbols)
    ensures SumBy(Part(f, clean, ps + [p]), symbols)
         == SumBy(Part(f, clean, ps), symbols) + if clean(p.symbol) in symbols then f(p) else 0.0
  {
    if symbols != [] {
      var front, last := symbols[..|symbols| - 1], symbols[|symbols| - 1];
      assert symbols == front + [last];
      PartsAfterOne(f, clean, ps, p, front);
      OfSnoc(clean, ps, p, last);
      if clean(p.symbol) == last { SumSnoc(f, Of(clean, ps, last), p); }
    }
  }

  /** The part of the symbol of the last position, when it is new. */
  lemma NewSymbolPart(f: Position -> real, clean: Cleaner, front: seq<Position>, last: Position)
    requires clean(last.symbol) !in Symbols(clean, front)
    ensures Part(f, clean, front + [last])(clean(last.symbol)) == f(last)
  {
    SymbolsAre(clean, front, clean(last.symbol));
    OfSnoc(clean, front, last, clean(last.symbol));
    hide Of, Symbols;
    assert [] + [last] == [last];
    SumSnoc(f, [], last);
  }

  /** One more position adds its amount to the sum over all symbols, old and new. */
  lemma PartsOfOneMore(f: Position -> real, clean: Cleaner, front: seq<Position>, last: Position)
    ensures SumBy(Part(f, clean, front + [last]), Symbols(clean, front + [last]))
         == SumBy(Part(f, clean, front), Symbols(clean, front)) + f(last)
  {
    hide *;
    SymbolsAreDistinct(clean, front);
    SymbolsSnoc(clean, front, last);
    PartsAfterOne(f, clean, front, last, Symbols(clean, front));
    if clean(last.symbol) !in Symbols(clean, front) {
      NewSymbolPart(f, clean, front, last);
      SumSnoc(Part(f, clean, front + [last]), Symbols(clean, front), clean(last.symbol));
    }
  }

  /** What is summed per symbol sums up to what was there. */
  lemma {:induction false} PartsAddUp(f: Position -> real, clean: Cleaner, ps: seq<Position>)
    ensures SumBy(Part(f, clean, ps), Symbols(clean, ps)) == SumBy(f, ps)
  {
    if ps != [] {
      var front, last := ps[..|ps| - 1], ps[|ps| - 1];
      assert ps == front + [last];
      hide *;
      PartsAddUp(f, clean, front);
      PartsOfOneMore(f, clean, front, last);
      SumSnoc(f, front, last);
    }
  }

  lemma {:induction false} SamePointwise<S, T>(f: S -> real, a: seq<S>, g: T -> real, b: seq<T>)
    requires |a| == |b| && forall i :: 0 <= i < |a| ==> f(a[i]) == g(b[i])
    ensures SumBy(f, a) == SumBy(g, b)
  {
    if a != [] { SamePointwise(f, a[..|a| - 1], g, b[..|b| - 1]); }
  }

  /** Total quantity and total market value survive the merge; each symbol appears once. */
  lemma MergingConserves(clean: Cleaner, ps: seq<Position>, hs: seq<Position>)
    requires Merged(clean, ps, hs)
    ensures SumBy(Quantity(), hs) == SumBy(Quantity(), ps)
    ensures SumBy(MarketValue(), hs) == SumBy(MarketValue(), ps)
    ensures forall i, j :: 0 <= i < j < |hs| ==> hs[i].symbol != hs[j].symbol
    ensures forall p :: p in ps ==> exists h :: h in hs && h.symbol == clean(p.symbol)
  {
    var symbols := Symbols(clean, ps);
    SamePointwise(Quantity(), hs, Part(Quantity(), clean, ps), symbols);
    SamePointwise(MarketValue(), hs, Part(MarketValue(), clean, ps), symbols);
    PartsAddUp(Quantity(), clean, ps);
    PartsAddUp(MarketValue(), clean, ps);
    SymbolsAreDistinct(clean, ps);
    hide RowOf, SumBy, Symbols, Of;
    forall i, j | 0 <= i < j < |hs| ensures hs[i].symbol != hs[j].symbol {
      assert ((s: string) => s)(symbols[i]) != ((s: string) => s)(symbols[j]);
    }
    forall p | p in ps ensures exists h :: h in hs && h.symbol == clean(p.symbol) {
      SymbolsAre(clean, ps, clean(p.symbol));
      var i :| 0 <= i < |symbols| && symbols[i] == clean(p.symbol);
      assert hs[i] in hs;
    }
  }

  // ---------- the average cost ----------

  predicate Contributes(p: Position) { p.cost.Some? && p.quantity != 0.0 }

  lemma WeighOne(p: Position, lo: real, hi: real)
    requires Contributes(p) ==> lo <= p.cost.value <= hi
    ensures Mul(lo, Weight()(p)) <= WeightedCost()(p) <= Mul(hi, Weight()(p))
    ensures Weight()(p) >= 0.0 && (Weight()(p) > 0.0 <==> Contributes(p))
  {
    var w := Weight()(p);
    if Contributes(p) {
      MulMonotone(lo, p.cost.value, w);
      MulMonotone(p.cost.value, hi, w);
      assert WeightedCost()(p) == Mul(p.cost.value, w);
    }
  }

  lemma MulAddsRight(a: real, b: real, c: real)
    ensures Mul(a, b + c) == Mul(a, b) + Mul(a, c)
  {
  }

  lemma {:induction false} WeightedBetween(ps: seq<Position>, lo: real, hi: real)
    requires forall p :: p in ps && Contributes(p) ==> lo <= p.cost.value <= hi
    ensures Mul(lo, SumBy(Weight(), ps)) <= SumBy(WeightedCost(), ps) <= Mul(hi, SumBy(Weight(), ps))
    ensures SumBy(Weight(), ps) >= 0.0
    ensures SumBy(Weight(), ps) > 0.0 <==> exists p :: p in ps && Contributes(p)
  {
    if ps != [] {
      var front, last := ps[..|ps| - 1], ps[|ps| - 1];
      assert ps == front + [last];
      WeightedBetween(front, lo, hi);
      WeighOne(last, lo, hi);
      hide Mul, Weight, WeightedCost, Contributes;
      MulAddsRight(lo, SumBy(Weight(), front), Weight()(last));
      MulAddsRight(hi, SumBy(Weight(), front), Weight()(last));
    }
  }

  lemma QuotientBetween(x: real, w: real, lo: real, hi: real)
    requires w > 0.0 && Mul(lo, w) <= x <= Mul(hi, w)
    ensures lo <= x / w <= hi
  {
    MulQuotient(x, w);
    MulMonotone(lo, x / w, w);
    MulMonotone(x / w, hi, w);
  }

  /**
   The average cost exists exactly when some position of the symbol has a cost and a
   quantity, and lies within every range that holds those costs, whatever their sign.
   */
  lemma AverageIsBetweenCosts(clean: Cleaner, ps: seq<Position>, hs: seq<Position>, h: Position, lo: real, hi: real)
    requires Merged(clean, ps, hs) && h in hs
    requires forall p :: p in ps && clean(p.symbol) == h.symbol && Contributes(p) ==> lo <= p.cost.value <= hi
    ensures h.cost.Some? <==> exists p :: p in ps && clean(p.symbol) == h.symbol && Contributes(p)
    ensures h.cost.Some? ==> lo <= h.cost.value <= hi
  {
    hide SumBy, Of, Contributes, Mul, Symbols;
    var i :| 0 <= i < |hs| && hs[i] == h;
    var of := Of(clean, ps, h.symbol);
    forall p ensures p in of <==> p in ps && clean(p.symbol) == h.symbol {
      OfAre(clean, ps, h.symbol, p);
    }
    WeightedBetween(of, lo, hi);
    if h.cost.Some? { QuotientBetween(SumBy(WeightedCost(), of), SumBy(Weight(), of), lo, hi); }
  }

  /** What the positions of a symbol hold and are worth, and how far their costs pull away from an average. */
  datatype Tally = Tally(quantity: real, value: real, pull: real)

  ghost function TallyOf(clean: Cleaner, symbol: string, average: real, ps: seq<Position>): Tally {
    if ps == [] then Tally(0.0, 0.0, 0.0)
    else
      var t, p := TallyOf(clean, symbol, average, ps[..|ps| - 1]), ps[|ps| - 1];
      if clean(p.symbol) != symbol then t
      else
        Tally(t.quantity + p.quantity, t.value + p.value,
              if p.cost.None? then t.pull
              else t.pull + Mul(if p.quantity < 0.0 then -p.quantity else p.quantity, p.cost.value - average))
  }

  lemma PullOfOne(p: Position, average: real)
    ensures WeightedCost()(p) - Mul(average, Weight()(p))
         == if p.cost.None? then 0.0
            else Mul(if p.quantity < 0.0 then -p.quantity else p.quantity, p.cost.value - average)
  {
  }

  lemma TallySnoc(clean: Cleaner, symbol: string, average: real, ps: seq<Position>, p: Position)
    ensures var t := TallyOf(clean, symbol, average, ps);
            TallyOf(clean, symbol, average, ps + [p])
            == if clean(p.symbol) != symbol then t
               else Tally(t.quantity + Quantity()(p), t.value + MarketValue()(p),
                          t.pull + (WeightedCost()(p) - Mul(average, Weight()(p))))
  {
    assert (ps + [p])[..|ps|] == ps;
    PullOfOne(p, average);
    hide WeightedCost, Weight, Mul;
  }

  ghost predicate Tallied(t: Tally, average: real, of: seq<Position>) {
    && t.quantity == SumBy(Quantity(), of) && t.value == SumBy(MarketValue(), of)
    && t.pull == SumBy(WeightedCost(), of) - Mul(average, SumBy(Weight(), of))
  }

  lemma TalliedOneMore(t: Tally, average: real, of: seq<Position>, p: Position)
    requires Tallied(t, average, of)
    ensures Tallied(Tally(t.quantity + Quantity()(p), t.value + MarketValue()(p),
                          t.pull + (WeightedCost()(p) - Mul(average, Weight()(p)))), average, of + [p])
  {
    hide SumBy, Mul, Weight, WeightedCost, Quantity, MarketValue;
    SumSnoc(Quantity(), of, p);
    SumSnoc(MarketValue(), of, p);
    SumSnoc(WeightedCost(), of, p);
    SumSnoc(Weight(), of, p);
    MulAddsRight(average, SumBy(Weight(), of), Weight()(p));
  }

  lemma NothingTallied(clean: Cleaner, symbol: string, average: real)
    ensures Tallied(TallyOf(clean, symbol, average, []), average, Of(clean, [], symbol))
  {
    assert Mul(average, 0.0) == 0.0;
  }

  lemma {:induction false} TallyIsTheSum(clean: Cleaner, symbol: string, average: real, ps: seq<Position>)
    ensures Tallied(TallyOf(clean, symbol, average, ps), average, Of(clean, ps, symbol))
  {
    hide *;
    if ps == [] {
      NothingTallied(clean, symbol, average);
    } else {
      var front, p := ps[..|ps| - 1], ps[|ps| - 1];
      assert ps == front + [p];
      TallyIsTheSum(clean, symbol, average, front);
      OfSnoc(clean, front, p, symbol);
      TallySnoc(clean, symbol, average, front, p);
      TalliedOneMore(TallyOf(clean, symbol, average, front), average, Of(clean, front, symbol), p);
    }
  }

  /**
   A merged position holds what the positions of its symbol hold and is worth what they
   are worth; their costs, weighted by absolute quantities, balance around its average.
   */
  lemma AverageBalances(clean: Cleaner, ps: seq<Position>, hs: seq<Position>, h: Position)
    requires Merged(clean, ps, hs) && h in hs
    ensures var t := TallyOf(clean, h.symbol, if h.cost.Some? then h.cost.value else 0.0, ps);
            h.quantity == t.quantity && h.value == t.value && (h.cost.Some? ==> t.pull == 0.0)
  {
    hide SumBy, Of, Mul, Symbols, TallyOf;
    var i :| 0 <= i < |hs| && hs[i] == h;
    var average := if h.cost.Some? then h.cost.value else 0.0;
    TallyIsTheSum(clean, h.symbol, average, ps);
    var of := Of(clean, ps, h.symbol);
    if h.cost.Some? { MulQuotient(SumBy(WeightedCost(), of), SumBy(Weight(), of)); }
  }

  /** Some position of the symbol names the account, and none of them names another. */
  ghost predicate OnlyNames(clean: Cleaner, ps: seq<Position>, symbol: string, account: string) {
    && (exists p :: p in ps && clean(p.symbol) == symbol && p.account == account)
    && forall p :: p in ps && clean(p.symbol) == symbol ==> p.account in {"", account}
  }

  /**
   A merged position has the currency of every position of its symbol, and names an account
   exactly when it is the only account that they name.
   */
  lemma NamesAreExact(clean: Cleaner, ps: seq<Position>, hs: seq<Position>, h: Position)
    requires OneCurrencyEach(clean, ps) && Merged(clean, ps, hs) && h in hs
    ensures forall p :: p in ps && clean(p.symbol) == h.symbol ==> h.currency == p.currency
    ensures forall account :: account != "" ==> (h.account == account <==> OnlyNames(clean, ps, h.symbol, account))
  {
    hide SumBy, Of, Mul, Symbols, OnlyNames;
    var i :| 0 <= i < |hs| && hs[i] == h;
    var of := Of(clean, ps, h.symbol);
    forall p ensures p in of <==> p in ps && clean(p.symbol) == h.symbol { OfAre(clean, ps, h.symbol, p); }
    if of != [] { assert of[0] in of; }
    forall account | account != "" ensures h.account == account <==> OnlyNames(clean, ps, h.symbol, account) {
      OnlyOne(of, h.account, account);
      NamesOf(clean, ps, h.symbol, account);
    }
  }

  lemma NamesOf(clean: Cleaner, ps: seq<Position>, symbol: string, account: string)
    requires account != ""
    ensures var of := Of(clean, ps, symbol);
            OnlyNames(clean, ps, symbol, account) <==>
              account in Accounts(of) && forall p :: p in of ==> p.account in {"", account}
  {
    hide Of;
    var of := Of(clean, ps, symbol);
    forall p ensures p in of <==> p in ps && clean(p.symbol) == symbol { OfAre(clean, ps, symbol, p); }
  }

  lemma OnlyOne(of: seq<Position>, chosen: string, account: string)
    requires account != "" && OnlyAccount(chosen, Accounts(of))
    ensures chosen == account <==> account in Accounts(of) && forall p :: p in of ==> p.account in {"", account}
  {
    var all := Accounts(of);
    if chosen == account && |all| == 1 {
      assert |all - {account}| == 0;
      forall p | p in of && p.account != "" ensures p.account == account {
        assert p.account in all && p.account !in all - {account};
      }
    }
    if account in all && forall p :: p in of ==> p.account in {"", account} {
      assert all == {account};
    }
  }

  // ---------- the order of positions ----------

  lemma {:induction false} OfJoin(clean: Cleaner, a: seq<Position>, b: seq<Position>, s: string)
    ensures Of(clean, a + b, s) == Of(clean, a, s) + Of(clean, b, s)
  {
    if b == [] {
      assert a + b == a;
    } else {
      var front, last := b[..|b| - 1], b[|b| - 1];
      assert b == front + [last] && a + b == (a + front) + [last];
      OfJoin(clean, a, front, s);
      OfSnoc(clean, a + front, last, s);
      OfSnoc(clean, front, last, s);
    }
  }

  lemma {:induction false} OfPermuted(clean: Cleaner, a: seq<Position>, b: seq<Position>, s: string)
    requires multiset(a) == multiset(b)
    ensures multiset(Of(clean, a, s)) == multiset(Of(clean, b, s))
    decreases |a|
  {
    NothingPermuted(a, b);
    if a != [] {
      var front, x, before, after := SplitPermutation(a, b);
      hide Of;
      OfPermuted(clean, front, before + after, s);
      OfJoin(clean, front, [x], s);
      OfJoin(clean, before, after, s);
      OfJoin(clean, before, [x], s);
      OfJoin(clean, before + [x], after, s);
    }
  }

  lemma RowPermuted(a: seq<Position>, b: seq<Position>)
    requires multiset(a) == multiset(b)
    requires forall p, q :: p in a && q in a ==> p.currency == q.currency
    ensures RowOf(a) == RowOf(b)
  {
    NothingPermuted(a, b);
    SumPermuted(Quantity(), a, b);
    SumPermuted(MarketValue(), a, b);
    SumPermuted(WeightedCost(), a, b);
    SumPermuted(Weight(), a, b);
    SameMembers(a, b);
    assert Accounts(a) == Accounts(b);
    if a != [] { assert a[0] in a && b[0] in a; }
  }

  lemma SameMembers<T>(a: seq<T>, b: seq<T>)
    requires multiset(a) == multiset(b)
    ensures forall x :: x in a <==> x in b
  {
    forall x ensures x in a <==> x in b {
      assert x in a <==> x in multiset(a);
      assert x in b <==> x in multiset(b);
    }
  }

  lemma SameRows(clean: Cleaner, ps: seq<Position>, qs: seq<Position>, s: string)
    requires multiset(ps) == multiset(qs) && OneCurrencyEach(clean, ps)
    ensures RowOf(Of(clean, ps, s)) == RowOf(Of(clean, qs, s))
  {
    OfPermuted(clean, ps, qs, s);
    hide RowOf, Of;
    forall p, q | p in Of(clean, ps, s) && q in Of(clean, ps, s) ensures p.currency == q.currency {
      OfAre(clean, ps, s, p);
      OfAre(clean, ps, s, q);
    }
    RowPermuted(Of(clean, ps, s), Of(clean, qs, s));
  }

  lemma MergeIsUnique(row: Row, symbol: string, h: Position, k: Position)
    requires Merges(row, symbol, h) && Merges(row, symbol, k)
    ensures h == k
  {
    if |row.accounts| == 1 {
      assert |row.accounts - {h.account}| == 0;
      assert k.account !in row.accounts - {h.account};
    }
  }

  function SymbolOf(): Position -> string { (p: Position) => p.symbol }

  lemma FoundAgain(clean: Cleaner, ps: seq<Position>, qs: seq<Position>, hs: seq<Position>, ks: seq<Position>,
                   h: Position)
    requires multiset(ps) == multiset(qs) && OneCurrencyEach(clean, ps)
    requires Merged(clean, ps, hs) && Merged(clean, qs, ks) && h in hs
    ensures h in ks
  {
    hide RowOf, Of, Symbols, Merges;
    var symbols, others := Symbols(clean, ps), Symbols(clean, qs);
    var i :| 0 <= i < |hs| && hs[i] == h;
    var s := symbols[i];
    SameMembers(ps, qs);
    SymbolsAre(clean, ps, s);
    SymbolsAre(clean, qs, s);
    var j :| 0 <= j < |others| && others[j] == s;
    SameRows(clean, ps, qs, s);
    MergeIsUnique(RowOf(Of(clean, ps, s)), s, h, ks[j]);
    assert ks[j] in ks;
  }

  /** The order of the positions changes neither whether they merge nor what they merge to. */
  lemma MergingIgnoresOrder(clean: Cleaner, ps: seq<Position>, qs: seq<Position>, hs: seq<Position>, ks: seq<Position>)
    requires multiset(ps) == multiset(qs) && OneCurrencyEach(clean, ps)
    requires Merged(clean, ps, hs) && Merged(clean, qs, ks)
    ensures OneCurrencyEach(clean, qs) && multiset(hs) == multiset(ks)
  {
    hide Merged;
    SameMembers(ps, qs);
    forall h ensures h in hs <==> h in ks {
      if h in hs { FoundAgain(clean, ps, qs, hs, ks, h); }
      if h in ks { FoundAgain(clean, qs, ps, ks, hs, h); }
    }
    MergingConserves(clean, ps, hs);
    MergingConserves(clean, qs, ks);
    SameMembersPermute(SymbolOf(), hs, ks);
  }
}
