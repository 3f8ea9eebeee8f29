/**
 Exactly what the buy loop does with each candidate, and exactly what budget the next one
 gets (application/execution_service.py).
 */
module BudgetLaw {
  import opened Arith
  import opened Wrappers
  import opened SettledCash
  import opened BuyLoop

  // ---------- the least of what was met ----------

  function LeastOf(x: real, amounts: seq<real>): real {
    if amounts == [] then x else MinReal(LeastOf(x, amounts[..|amounts| - 1]), amounts[|amounts| - 1])
  }

  lemma {:induction false} LeastJoins(x: real, a: seq<real>, b: seq<real>)
    ensures LeastOf(x, a + b) == LeastOf(LeastOf(x, a), b)
  {
    if b == [] {
      assert a + b == a;
    } else {
      assert (a + b)[..|a + b| - 1] == a + b[..|b| - 1];
      LeastJoins(x, a, b[..|b| - 1]);
    }
  }

  /** It is the least: below the start and every amount, and one of them. */
  lemma {:induction false} LeastIsLeast(x: real, amounts: seq<real>)
    ensures LeastOf(x, amounts) <= x && forall y :: y in amounts ==> LeastOf(x, amounts) <= y
    ensures LeastOf(x, amounts) == x || LeastOf(x, amounts) in amounts
  {
    if amounts != [] {
      LeastIsLeast(x, amounts[..|amounts| - 1]);
      assert amounts == amounts[..|amounts| - 1] + [amounts[|amounts| - 1]];
    }
  }

  /** What the updates of a session leave, in order. */
  ghost function Offered(scope: Scope, calls: seq<Call>): seq<real> {
    if calls == [] then []
    else
      var front, last := Offered(scope, calls[..|calls| - 1]), calls[|calls| - 1];
      if Counts(scope, last) then front + [Spendable(last.row.value.value, scope.reserved)] else front
  }

  lemma {:induction false} SessionRemaining(scope: Scope, budget: real, calls: seq<Call>)
    requires scope.step > 0.0
    ensures Run(scope, Open(budget), calls).remaining == LeastOf(budget, Offered(scope, calls))
    decreases |calls|
  {
    if calls != [] {
      var front, last := calls[..|calls| - 1], calls[|calls| - 1];
      SessionRemaining(scope, budget, front);
      StepRemaining(scope, Run(scope, Open(budget), front), last);
      CountsExactly(scope, last);
      hide Step, Counts, Spendable, Investable, ValidObservation;
      var offered := Offered(scope, front);
      if Counts(scope, last) {
        var x := Spendable(last.row.value.value, scope.reserved);
        assert (offered + [x])[..|offered|] == offered;
      }
    }
  }

  lemma {:induction false} BindingOffersTheSame(scope: Scope, calls: seq<Call>, intent: Intent)
    ensures Offered(scope, BindCalls(calls, intent)) == Offered(scope, calls)
  {
    var bound := BindCalls(calls, intent);
    SameOffers(scope, calls, bound);
  }

  lemma {:induction false} SameOffers(scope: Scope, a: seq<Call>, b: seq<Call>)
    requires |a| == |b| && forall i :: 0 <= i < |a| ==> (a[i].Prepare? && b[i].Prepare?) || a[i] == b[i]
    ensures Offered(scope, a) == Offered(scope, b)
  {
    if a != [] { SameOffers(scope, a[..|a| - 1], b[..|b| - 1]); }
  }

  // ---------- what one candidate deserves ----------

  /** What the broker's answer means. */
  ghost predicate OutcomeSays(outcome: OrderOutcome, status: string, hasOrderId: bool) {
    match outcome
    case OrderFailed => status in {"Rejected", "rejected", "Cancelled", "ApiCancelled"}
    case OrderFilled => hasOrderId && status == "Filled"
    case OrderPartial => hasOrderId && status in {"PartiallyFilled", "Partial"}
    case OrderPending =>
      hasOrderId && status in {"PendingSubmit", "ApiPending", "ApiPendingSubmit", "Submitted", "PreSubmitted"}
    case OrderUnknown =>
      && status !in {"Rejected", "rejected", "Cancelled", "ApiCancelled"}
      && (hasOrderId ==> status !in {"Filled", "PartiallyFilled", "Partial", "PendingSubmit", "ApiPending",
                                     "ApiPendingSubmit", "Submitted", "PreSubmitted"})
  }

  lemma OutcomeIsSaid(status: string, hasOrderId: bool)
    ensures OutcomeSays(RecordOutcome(status, hasOrderId), status, hasOrderId)
  {
  }

  /** What the refresh before a candidate shows. */
  function Shown(k: Settings, t: Turn): seq<real> {
    if !k.cashOnly then []
    else [if t.observed.Some? && t.observed.value > 0.0 then Spendable(t.observed.value, k.reserved) else 0.0]
  }

  ghost predicate IsNeeded(k: Settings, c: Candidate) { c.target - c.current > k.threshold }

  /** The refresh shows cash, the candidate has a price, and what may be spent on it is worth an order. */
  ghost predicate Ready(k: Settings, b: real, c: Candidate, t: Turn) {
    && IsNeeded(k, c) && (k.cashOnly ==> t.observed.Some? && t.observed.value > 0.0)
    && c.price.Some? && c.price.value != 0.0 && Want(b, c) >= k.minimumNotional
  }

  /** What may be spent on a candidate at a budget: its gap, within 95% of the budget. */
  function Want(b: real, c: Candidate): real {
    if c.target - c.current < b * 0.95 then c.target - c.current else b * 0.95
  }

  /** The quantity: the greatest multiple of the step that this buys. */
  function Quantity(k: Settings, b: real, c: Candidate): real
    requires SettingsOk(k)
  {
    if c.limitPrice > 0.0 then FloorToStep(Want(b, c) / c.limitPrice, k.step) else 0.0
  }

  ghost predicate Approved(q: real, c: Candidate) {
    && c.approvedCap.Some? && c.inStrategy && c.limitPrice > 0.0
    && Mul(q, c.limitPrice) <= c.approvedCap.value - c.current + 0.000001
  }

  ghost predicate Fresh(k: Settings, t: Turn) { k.cashOnly ==> 0.0 <= t.elapsed <= 30.0 }

  /** The quantity that is recorded as sent: cut only by the candidate's own guard session. */
  ghost function SentQuantity(k: Settings, b: real, q: real, c: Candidate, t: Turn): real
    requires SettingsOk(k)
  {
    var g := Run(ScopeOf(k), Open(b), BindCalls(t.calls, Intent(k.account, q, c.limitPrice)));
    if k.cashOnly && g.prepared.Some? then g.prepared.value else q
  }

  /** The entry of a candidate that met no refusal. */
  ghost predicate SubmittedAs(k: Settings, b: real, q: real, c: Candidate, t: Turn, e: Entry)
    requires SettingsOk(k)
  {
    match t.report
    case Crashed => e == Aborted(SentQuantity(k, b, q, c, t), c.limitPrice)
    case Reported(status, hasOrderId) =>
      && e.Bought? && e.quantity == SentQuantity(k, b, q, c, t) && e.limitPrice == c.limitPrice
      && OutcomeSays(e.outcome, status, hasOrderId)
  }

  /** Exactly what happens to a candidate whose turn starts with the budget `budget`. */
  ghost predicate DealtRightly(k: Settings, budget: real, c: Candidate, t: Turn, e: Entry)
    requires SettingsOk(k)
  {
    var b := LeastOf(budget, Shown(k, t));
    var q := Quantity(k, b, c);
    var ready := Ready(k, b, c, t);
    && (e == NotNeeded <==> !IsNeeded(k, c))
    && (e == Skipped("settled_cash_ledger_unverified") <==> IsNeeded(k, c) && k.cashOnly && t.observed == None)
    && (e == Skipped("insufficient_settled_cash") <==>
          IsNeeded(k, c) && k.cashOnly && t.observed.Some? && t.observed.value <= 0.0)
    && (e == Skipped("missing_price") <==>
          && IsNeeded(k, c) && (k.cashOnly ==> t.observed.Some? && t.observed.value > 0.0)
          && (c.price == None || c.price.value == 0.0))
    && (e == Skipped("min_notional") <==>
          && IsNeeded(k, c) && (k.cashOnly ==> t.observed.Some? && t.observed.value > 0.0)
          && c.price.Some? && c.price.value != 0.0 && Want(b, c) < k.minimumNotional)
    && (e == Skipped("quantity_zero") <==> ready && q <= 0.0)
    && (e == Skipped("settled_cash_stale") <==> ready && q > 0.0 && Approved(q, c) && !Fresh(k, t))
    && e != Skipped("insufficient_buying_power")
    && (ready && q > 0.0 && !Approved(q, c) ==> e == Aborted(0.0, c.limitPrice))
    && (e.Previewed? <==> ready && q > 0.0 && Approved(q, c) && Fresh(k, t) && k.dryRun)
    && (e.Previewed? ==> e == Previewed(q, c.limitPrice))
    && (ready && q > 0.0 && Approved(q, c) && Fresh(k, t) && !k.dryRun ==> SubmittedAs(k, b, q, c, t, e))
    && (e.Bought? ==> ready && q > 0.0 && Approved(q, c) && Fresh(k, t) && !k.dryRun)
  }

  // ---------- the budget of the next candidate ----------

  /** What an entry takes out of the budget: nothing when the broker refused the order. */
  function Charge(e: Entry): real {
    match e
    case Bought(q, p, outcome) => if outcome == OrderFailed then 0.0 else Mul(q, p)
    case Previewed(q, p) => Mul(q, p)
    case _ => 0.0
  }

  /** Everything met during a turn that can lower the budget. */
  ghost function Met(k: Settings, c: Candidate, t: Turn, e: Entry): seq<real> {
    (if IsNeeded(k, c) then Shown(k, t) else [])
    + (if e.Bought? && k.cashOnly then Offered(ScopeOf(k), t.calls) else [])
  }

  ghost function BudgetAfter(k: Settings, budget: real, c: Candidate, t: Turn, e: Entry): real {
    LeastOf(budget, Met(k, c, t, e)) - Charge(e)
  }

  /** The budget before candidate i, told from the log alone. */
  ghost function BudgetAt(k: Settings, investable: real, cs: seq<Candidate>, turns: seq<Turn>, log: seq<Entry>,
                          i: nat): real
    requires |turns| == |cs| && |log| <= |cs| && i <= |log|
  {
    if i == 0 then investable
    else BudgetAfter(k, BudgetAt(k, investable, cs, turns, log, i - 1), cs[i - 1], turns[i - 1], log[i - 1])
  }

  lemma RefreshShows(k: Settings, budget: real, t: Turn)
    ensures LeastOf(budget, Shown(k, t)) == Refreshed(k, budget, t)
  {
    if k.cashOnly {
      assert Shown(k, t)[..0] == [];
      assert LeastOf(budget, Shown(k, t)) == MinReal(LeastOf(budget, []), Shown(k, t)[0]);
    }
  }

  lemma SubmitExactly(k: Settings, b: real, q: real, c: Candidate, t: Turn)
    requires SettingsOk(k)
    ensures var (e, left) := Submit(k, b, q, c, t);
            && SubmittedAs(k, b, q, c, t, e)
            && (!Halts(e) ==>
                  left == LeastOf(b, if k.cashOnly then Offered(ScopeOf(k), t.calls) else []) - Charge(e))
  {
    var intent := Intent(k.account, q, c.limitPrice);
    SessionRemaining(ScopeOf(k), b, BindCalls(t.calls, intent));
    BindingOffersTheSame(ScopeOf(k), t.calls, intent);
    LeastIsLeast(b, Offered(ScopeOf(k), t.calls));
    if t.report.Reported? { OutcomeIsSaid(t.report.status, t.report.hasOrderId); }
    hide Run, BindCalls, Offered, OutcomeSays, RecordOutcome, Mul, LeastOf;
    assert LeastOf(b, []) == b by { NothingMet(b); }
  }

  lemma NothingMet(b: real)
    ensures LeastOf(b, []) == b
  {
  }

  /** The end of a plan that submits nothing is what the candidate deserves, and leaves the refreshed budget. */
  ghost predicate EndsRightly(k: Settings, budget: real, b: real, c: Candidate, t: Turn, end: (Entry, real))
    requires SettingsOk(k)
  {
    && DealtRightly(k, budget, c, t, end.0) && !end.0.Bought?
    && (!Halts(end.0) ==> end.1 == (if IsNeeded(k, c) then b else budget) - Charge(end.0))
  }

  lemma PlanEarly(k: Settings, budget: real, c: Candidate, t: Turn)
    requires SettingsOk(k)
    requires var b := Refreshed(k, budget, t); !(Ready(k, b, c, t) && Quantity(k, b, c) > 0.0)
    ensures var plan := Plan(k, budget, c, t);
            plan.Failure? && EndsRightly(k, budget, Refreshed(k, budget, t), c, t, plan.error)
  {
    RefreshShows(k, budget, t);
    hide Mul, FloorToStep, LeastOf, Shown, Refreshed, SubmittedAs, Approved, Fresh;
  }

  lemma PlanLate(k: Settings, budget: real, c: Candidate, t: Turn)
    requires SettingsOk(k)
    requires var b := Refreshed(k, budget, t); Ready(k, b, c, t) && Quantity(k, b, c) > 0.0
    ensures var b := Refreshed(k, budget, t);
            var q, plan := Quantity(k, b, c), Plan(k, budget, c, t);
            && (plan.Success? <==> Approved(q, c) && Fresh(k, t) && !k.dryRun)
            && (plan.Success? ==> plan.value == q)
            && (plan.Failure? ==> EndsRightly(k, budget, b, c, t, plan.error))
  {
    RefreshShows(k, budget, t);
    ClippingIsUnreachable(k, Refreshed(k, budget, t), c);
    hide Mul, FloorToStep, LeastOf, Shown, Refreshed, SubmittedAs;
  }

  /** How far a candidate gets, condition by condition. */
  lemma PlanExactly(k: Settings, budget: real, c: Candidate, t: Turn)
    requires SettingsOk(k)
    ensures var b := Refreshed(k, budget, t);
            var q, plan := Quantity(k, b, c), Plan(k, budget, c, t);
            && (plan.Success? <==> Ready(k, b, c, t) && q > 0.0 && Approved(q, c) && Fresh(k, t) && !k.dryRun)
            && (plan.Success? ==> plan.value == q)
            && (plan.Failure? ==> EndsRightly(k, budget, b, c, t, plan.error))
  {
    hide Plan, Ready, Quantity, Approved, Fresh, EndsRightly, Refreshed;
    var b := Refreshed(k, budget, t);
    if Ready(k, b, c, t) && Quantity(k, b, c) > 0.0 {
      PlanLate(k, budget, c, t);
    } else {
      PlanEarly(k, budget, c, t);
    }
  }

  /** One turn: the entry is what the candidate deserves, and the budget left follows the law. */
  lemma TurnExactly(k: Settings, budget: real, c: Candidate, t: Turn)
    requires SettingsOk(k)
    ensures var (e, left) := TakeTurn(k, budget, c, t);
            DealtRightly(k, budget, c, t, e) && (!Halts(e) ==> left == BudgetAfter(k, budget, c, t, e))
  {
    PlanExactly(k, budget, c, t);
    RefreshShows(k, budget, t);
    var b := Refreshed(k, budget, t);
    var plan := Plan(k, budget, c, t);
    LeastJoins(budget, Shown(k, t), if k.cashOnly then Offered(ScopeOf(k), t.calls) else []);
    NothingMet(budget);
    if plan.Success? { SubmitExactly(k, b, plan.value, c, t); }
    hide Plan, Submit, Refreshed, LeastOf, Shown, Offered, SubmittedAs, Ready, Approved, Quantity, Mul;
    assert Shown(k, t) + [] == Shown(k, t);
  }

  // ---------- the whole loop ----------

  /** Every entry of the log is what its candidate deserves at the budget the law gives. */
  ghost predicate LogIsRight(k: Settings, investable: real, cs: seq<Candidate>, turns: seq<Turn>, log: seq<Entry>)
    requires SettingsOk(k) && |turns| == |cs| && |log| <= |cs|
  {
    forall i: nat :: i < |log| ==>
      DealtRightly(k, BudgetAt(k, investable, cs, turns, log, i), cs[i], turns[i], log[i])
  }

  lemma {:induction false} BudgetShifts(k: Settings, investable: real, cs: seq<Candidate>, turns: seq<Turn>,
                                        log: seq<Entry>, i: nat)
    requires |turns| == |cs| && 1 <= |log| <= |cs| && i < |log|
    ensures BudgetAt(k, investable, cs, turns, log, i + 1)
         == BudgetAt(k, BudgetAfter(k, investable, cs[0], turns[0], log[0]), cs[1..], turns[1..], log[1..], i)
  {
    hide BudgetAfter;
    if i > 0 { BudgetShifts(k, investable, cs, turns, log, i - 1); }
  }

  /**
   Over every run: each entry is exactly what its candidate deserves, at a budget that is
   the least of the one before it and of everything met in between, less what the entry
   before it committed.
   */
  lemma {:induction false} LoopExactly(k: Settings, investable: real, cs: seq<Candidate>, turns: seq<Turn>)
    requires SettingsOk(k) && |turns| == |cs|
    ensures |Loop(k, investable, cs, turns)| <= |cs|
    ensures LogIsRight(k, investable, cs, turns, Loop(k, investable, cs, turns))
    decreases |cs|
  {
    hide TakeTurn, DealtRightly, BudgetAfter, Halts;
    LogIsHonest(k, investable, cs, turns);
    if cs != [] {
      var (e, left) := TakeTurn(k, investable, cs[0], turns[0]);
      var log := Loop(k, investable, cs, turns);
      TurnExactly(k, investable, cs[0], turns[0]);
      if !Halts(e) {
        var rest := Loop(k, left, cs[1..], turns[1..]);
        LoopExactly(k, left, cs[1..], turns[1..]);
        assert log[1..] == rest;
        forall i: nat | i < |log|
          ensures DealtRightly(k, BudgetAt(k, investable, cs, turns, log, i), cs[i], turns[i], log[i])
        {
          if i > 0 {
            BudgetShifts(k, investable, cs, turns, log, i - 1);
            assert DealtRightly(k, BudgetAt(k, left, cs[1..], turns[1..], rest, i - 1), cs[1..][i - 1],
                                turns[1..][i - 1], rest[i - 1]);
          }
        }
      }
    }
  }

  /** Nothing is tried after an exception or an unknown outcome, and everything is before one. */
  lemma StopsExactly(k: Settings, investable: real, cs: seq<Candidate>, turns: seq<Turn>)
    requires SettingsOk(k) && |turns| == |cs|
    ensures var log := Loop(k, investable, cs, turns);
            && (forall i :: 0 <= i < |log| - 1 ==>
                  !log[i].Aborted? && (log[i].Bought? ==> log[i].outcome != OrderUnknown))
            && (|log| == |cs| || (log != [] &&
                  (log[|log| - 1].Aborted? || (log[|log| - 1].Bought? && log[|log| - 1].outcome == OrderUnknown))))
  {
    LogIsHonest(k, investable, cs, turns);
    hide Loop;
  }
}
