/**
 The buy loop of execute_rebalance and the rotation guard in front of it.

 One settled-cash budget is shared by all candidates.  Before each candidate the cash is
 refreshed, while an order is under way account updates keep arriving, and the broker
 answers anything: all of that is a parameter of the run.
 */
module BuyLoop {
  import opened Arith
  import opened SettledCash
  import opened Wrappers

  datatype Candidate = Candidate(
    symbol: string, current: real, target: real, price: Option<real>, limitPrice: real,
    approvedCap: Option<real>, inStrategy: bool)

  datatype Settings = Settings(
    cashOnly: bool, dryRun: bool, threshold: real, reserved: real, step: real, minimumNotional: real,
    account: string, currency: string)

  /** What a session or a network answer looks like from inside: a status text and an order id, or an exception. */
  datatype Report = Crashed | Reported(status: string, hasOrderId: bool)

  /** Everything outside the loop that one candidate meets. */
  datatype Turn = Turn(observed: Option<real>, elapsed: real, calls: seq<Call>, report: Report)

  datatype OrderOutcome = OrderFilled | OrderPartial | OrderPending | OrderFailed | OrderUnknown

  datatype Entry =
    | NotNeeded
    | Skipped(reason: string)
    | Bought(quantity: real, limitPrice: real, outcome: OrderOutcome)
    | Previewed(quantity: real, limitPrice: real)
    | Aborted(quantity: real, limitPrice: real)

  predicate SettingsOk(k: Settings) { k.step > 0.0 && k.minimumNotional >= 0.0 }

  const PENDING_STATUSES := {"PendingSubmit", "ApiPending", "ApiPendingSubmit", "Submitted", "PreSubmitted"}
  const PARTIAL_STATUSES := {"PartiallyFilled", "Partial"}
  const REFUSED_STATUSES := {"Rejected", "rejected", "Cancelled", "ApiCancelled"}

  /** A status without the order id it should come with, or an unheard-of status, is unknown, never a refusal. */
  function RecordOutcome(status: string, hasOrderId: bool): OrderOutcome {
    if status in REFUSED_STATUSES then OrderFailed
    else if !hasOrderId then OrderUnknown
    else if status == "Filled" then OrderFilled
    else if status in PARTIAL_STATUSES then OrderPartial
    else if status in PENDING_STATUSES then OrderPending
    else OrderUnknown
  }

  predicate Needed(k: Settings, c: Candidate) { c.current < c.target - k.threshold }

  predicate Priced(c: Candidate) { c.price.Some? && c.price.value != 0.0 }

  function PlannedQuantity(k: Settings, buyValue: real, limitPrice: real): real
    requires SettingsOk(k)
  {
    if limitPrice > 0.0 then FloorToStep(buyValue / limitPrice, k.step) else 0.0
  }

  /** The quantity planned for a candidate at a budget. */
  function PlannedAt(k: Settings, c: Candidate, budget: real): real
    requires SettingsOk(k)
  {
    PlannedQuantity(k, MinReal(c.target - c.current, budget * 0.95), c.limitPrice)
  }

  /** Never plan above the budget: the branch that would cut an oversized plan. */
  function ClippedQuantity(k: Settings, planned: real, budget: real, limitPrice: real): real
    requires SettingsOk(k)
  {
    if Mul(planned, limitPrice) > budget && limitPrice != 0.0 then FloorToStep(budget / limitPrice, k.step) else planned
  }

  function ScopeOf(k: Settings): Scope {
    Scope(k.account, k.currency, k.reserved, k.step, k.minimumNotional, 0.0)
  }

  /** Inside one submission only this intent is ever prepared. */
  function BindCalls(calls: seq<Call>, intent: Intent): (bound: seq<Call>)
    ensures |bound| == |calls|
    ensures forall i :: 0 <= i < |bound| ==>
              bound[i] == if calls[i].Prepare? then Prepare(intent, calls[i].currency) else calls[i]
  {
    if calls == [] then []
    else [if calls[0].Prepare? then Prepare(intent, calls[0].currency) else calls[0]] + BindCalls(calls[1..], intent)
  }

  /** The budget after the refresh that precedes a candidate. */
  function Refreshed(k: Settings, budget: real, t: Turn): real {
    if k.cashOnly
    then MinReal(budget, Investable(MaxReal(0.0, if t.observed.Some? then t.observed.value else 0.0), k.reserved))
    else budget
  }

  /** Submitting `quantity`: what is recorded, and the budget that is left. */
  function Submit(k: Settings, budget: real, quantity: real, c: Candidate, t: Turn): (Entry, real)
    requires SettingsOk(k)
  {
    var intent := Intent(k.account, quantity, c.limitPrice);
    var guard := if k.cashOnly then Run(ScopeOf(k), Open(budget), BindCalls(t.calls, intent)) else Open(budget);
    var left := MinReal(budget, guard.remaining);
    var sent := if guard.prepared.Some? then guard.prepared.value else quantity;
    match t.report
    case Crashed => (Aborted(sent, c.limitPrice), budget)
    case Reported(status, hasOrderId) =>
      var outcome := RecordOutcome(status, hasOrderId);
      (Bought(sent, c.limitPrice, outcome), if outcome == OrderFailed then left else left - Mul(sent, c.limitPrice))
  }

  /** How far one candidate gets: the quantity to submit, or the entry it ends with and the budget left. */
  function Plan(k: Settings, budget: real, c: Candidate, t: Turn): Result<real, (Entry, real)>
    requires SettingsOk(k)
  {
    if !Needed(k, c) then Failure((NotNeeded, budget))
    else
      var b := Refreshed(k, budget, t);
      if k.cashOnly && t.observed == None then Failure((Skipped("settled_cash_ledger_unverified"), b))
      else if k.cashOnly && t.observed.value <= 0.0 then Failure((Skipped("insufficient_settled_cash"), b))
      else if !Priced(c) then Failure((Skipped("missing_price"), b))
      else
        var buyValue := MinReal(c.target - c.current, b * 0.95);
        if buyValue < k.minimumNotional then Failure((Skipped("min_notional"), b))
        else
          var planned := PlannedQuantity(k, buyValue, c.limitPrice);
          if planned <= 0.0 then Failure((Skipped("quantity_zero"), b))
          else
            var quantity := ClippedQuantity(k, planned, b, c.limitPrice);
            var cost := Mul(quantity, c.limitPrice);
            if quantity <= 0.0 || cost > b then Failure((Skipped("insufficient_buying_power"), b))
            else if c.approvedCap == None || !c.inStrategy || c.limitPrice <= 0.0
                 || cost > c.approvedCap.value - c.current + 0.000001
            then Failure((Aborted(0.0, c.limitPrice), b))
            else if k.cashOnly && !(0.0 <= t.elapsed <= MAX_AGE) then Failure((Skipped("settled_cash_stale"), b))
            else if k.dryRun then Failure((Previewed(quantity, c.limitPrice), b - cost))
            else Success(quantity)
  }

  /** One candidate of the loop. */
  function TakeTurn(k: Settings, budget: real, c: Candidate, t: Turn): (Entry, real)
    requires SettingsOk(k)
  {
    match Plan(k, budget, c, t)
    case Failure(end) => end
    case Success(quantity) => Submit(k, Refreshed(k, budget, t), quantity, c, t)
  }

  /** An exception or an unknown outcome ends the cycle. */
  predicate Halts(e: Entry) { e.Aborted? || (e.Bought? && e.outcome == OrderUnknown) }

  /** The log of the loop from a given budget on. */
  function Loop(k: Settings, budget: real, cs: seq<Candidate>, turns: seq<Turn>): seq<Entry>
    requires SettingsOk(k) && |turns| == |cs|
    decreases |cs|
  {
    if cs == [] then []
    else
      var (e, left) := TakeTurn(k, budget, cs[0], turns[0]);
      if Halts(e) then [e] else [e] + Loop(k, left, cs[1..], turns[1..])
  }

  /** What an entry may cost, whether or not the broker refused it. */
  function SubmittedCost(e: Entry): real {
    match e
    case Bought(q, p, _) => Mul(q, p)
    case Previewed(q, p) => Mul(q, p)
    case Aborted(q, p) => Mul(q, p)
    case _ => 0.0
  }

  /** What an entry must be assumed to have spent: everything not reported as refused. */
  function CommittedCost(e: Entry): real {
    if e.Bought? && e.outcome == OrderFailed then 0.0 else SubmittedCost(e)
  }

  function Committed(log: seq<Entry>): real {
    if log == [] then 0.0 else CommittedCost(log[0]) + Committed(log[1..])
  }

  function Submitted(log: seq<Entry>): real {
    if log == [] then 0.0 else SubmittedCost(log[0]) + Submitted(log[1..])
  }

  method ExecuteBuys(k: Settings, investable: real, cs: seq<Candidate>, turns: seq<Turn>) returns (log: seq<Entry>)
    requires SettingsOk(k) && |turns| == |cs| && investable >= 0.0
    ensures log == Loop(k, investable, cs, turns)
    ensures Committed(log) <= investable
  {
    log := [];
    var budget := investable;
    var i := 0;
    while i < |cs|
      invariant 0 <= i <= |cs|
      invariant log + Loop(k, budget, cs[i..], turns[i..]) == Loop(k, investable, cs, turns)
    {
      assert cs[i..][1..] == cs[i + 1..] && turns[i..][1..] == turns[i + 1..];
      var (entry, left) := TakeTurn(k, budget, cs[i], turns[i]);
      log := log + [entry];
      budget := left;
      if Halts(entry) { break; }
      i := i + 1;
    }
    CommittedNeverExceedsBudget(k, investable, cs, turns);
  }

  // ---------- one turn ----------

  lemma {:induction false} PreparedIsWithinIntent(scope: Scope, budget: real, calls: seq<Call>, intent: Intent)
    requires scope.step > 0.0
    requires forall i :: 0 <= i < |calls| && calls[i].Prepare? ==> calls[i].intent == intent
    ensures var g := Run(scope, Open(budget), calls);
            g.remaining <= budget && (g.prepared.Some? ==> 0.0 < g.prepared.value <= intent.quantity)
    decreases |calls|
  {
    hide FloorToStep, Mul, RowInvalid;
    if calls != [] { PreparedIsWithinIntent(scope, budget, calls[..|calls| - 1], intent); }
  }

  /** A planned quantity costs at most 95% of the budget, so it is never cut: the clipping branch is dead. */
  lemma ClippingIsUnreachable(k: Settings, b: real, c: Candidate)
    requires SettingsOk(k)
    requires var buyValue := MinReal(c.target - c.current, b * 0.95);
             buyValue >= k.minimumNotional && PlannedQuantity(k, buyValue, c.limitPrice) > 0.0
    ensures b >= 0.0
    ensures var planned := PlannedQuantity(k, MinReal(c.target - c.current, b * 0.95), c.limitPrice);
            && Mul(planned, c.limitPrice) <= b * 0.95 <= b
            && ClippedQuantity(k, planned, b, c.limitPrice) == planned
  {
    hide Mul, FloorToStep;
    if c.limitPrice > 0.0 { FlooredCost(MinReal(c.target - c.current, b * 0.95), c.limitPrice, k.step); }
  }

  lemma SubmitSpendsWithin(k: Settings, b: real, quantity: real, c: Candidate, t: Turn)
    requires SettingsOk(k) && quantity > 0.0 && c.limitPrice > 0.0 && Mul(quantity, c.limitPrice) <= b
    ensures var (e, left) := Submit(k, b, quantity, c, t);
            && left <= b && (!Halts(e) ==> left + CommittedCost(e) <= b)
            && 0.0 <= CommittedCost(e) <= SubmittedCost(e) <= Mul(quantity, c.limitPrice)
  {
    hide Mul, Run;
    var intent := Intent(k.account, quantity, c.limitPrice);
    PreparedIsWithinIntent(ScopeOf(k), b, BindCalls(t.calls, intent), intent);
    var guard := if k.cashOnly then Run(ScopeOf(k), Open(b), BindCalls(t.calls, intent)) else Open(b);
    var sent := if guard.prepared.Some? then guard.prepared.value else quantity;
    MulMonotone(sent, quantity, c.limitPrice);
    MulSign(sent, c.limitPrice);
  }

  /** What one turn may spend, in terms of the budget it starts from and of its approved order limit. */
  lemma TurnSpendsWithin(k: Settings, budget: real, c: Candidate, t: Turn)
    requires SettingsOk(k)
    ensures var (e, left) := TakeTurn(k, budget, c, t);
            && left <= budget && (!Halts(e) ==> left + CommittedCost(e) <= budget)
            && 0.0 <= CommittedCost(e) <= SubmittedCost(e)
            && (SubmittedCost(e) > 0.0 ==>
                  && Needed(k, c) && Priced(c) && c.limitPrice > 0.0 && c.inStrategy && c.approvedCap.Some?
                  && MinReal(c.target - c.current, budget * 0.95) >= k.minimumNotional
                  && SubmittedCost(e) <= c.approvedCap.value - c.current + 0.000001
                  && SubmittedCost(e) <= Mul(PlannedAt(k, c, Refreshed(k, budget, t)), c.limitPrice)
                  && SubmittedCost(e) <= Refreshed(k, budget, t) * 0.95 <= budget)
  {
    hide Mul, FloorToStep, Submit;
    var b := Refreshed(k, budget, t);
    var buyValue := MinReal(c.target - c.current, b * 0.95);
    if Needed(k, c) && buyValue >= k.minimumNotional && PlannedQuantity(k, buyValue, c.limitPrice) > 0.0 {
      ClippingIsUnreachable(k, b, c);
      var quantity := PlannedQuantity(k, buyValue, c.limitPrice);
      MulSign(quantity, c.limitPrice);
      MulSign(0.0, c.limitPrice);
      SubmitSpendsWithin(k, b, quantity, c, t);
    }
  }

  // ---------- the whole loop ----------

  /** Whatever happens between the steps, all buys not reported refused stay within the cash fixed before the loop. */
  lemma {:induction false} CommittedNeverExceedsBudget(k: Settings, budget: real, cs: seq<Candidate>, turns: seq<Turn>)
    requires SettingsOk(k) && |turns| == |cs|
    ensures 0.0 <= Committed(Loop(k, budget, cs, turns)) <= MaxReal(0.0, budget)
    decreases |cs|
  {
    hide TakeTurn, Mul;
    if cs != [] {
      var (e, left) := TakeTurn(k, budget, cs[0], turns[0]);
      TurnSpendsWithin(k, budget, cs[0], turns[0]);
      if Halts(e) {
        assert [e][1..] == [];
      } else {
        CommittedNeverExceedsBudget(k, left, cs[1..], turns[1..]);
        assert ([e] + Loop(k, left, cs[1..], turns[1..]))[1..] == Loop(k, left, cs[1..], turns[1..]);
      }
    }
  }

  /** What an entry may claim about the broker's answer. */
  predicate Honest(e: Entry, t: Turn) {
    e.Bought? ==>
      && t.report.Reported?
      && (e.outcome == OrderFailed <==> t.report.status in REFUSED_STATUSES)
      && (e.outcome in {OrderFilled, OrderPartial, OrderPending} ==> t.report.hasOrderId)
      && (e.outcome == OrderFilled ==> t.report.status == "Filled")
  }

  /**
   Only a reported refusal gives money back, only an answer with an order id counts as
   accepted, and nothing is tried after an exception or an unknown outcome.
   */
  lemma {:induction false} LogIsHonest(k: Settings, budget: real, cs: seq<Candidate>, turns: seq<Turn>)
    requires SettingsOk(k) && |turns| == |cs|
    ensures var log := Loop(k, budget, cs, turns);
            && |log| <= |cs|
            && (forall i :: 0 <= i < |log| ==> Honest(log[i], turns[i]))
            && (forall i :: 0 <= i < |log| - 1 ==> !Halts(log[i]))
            && (|log| < |cs| ==> log != [] && Halts(log[|log| - 1]))
    decreases |cs|
  {
    if cs != [] {
      var (e, left) := TakeTurn(k, budget, cs[0], turns[0]);
      TurnIsHonest(k, budget, cs[0], turns[0]);
      hide TakeTurn, Honest, Halts;
      if !Halts(e) { LogIsHonest(k, left, cs[1..], turns[1..]); }
    }
  }

  lemma TurnIsHonest(k: Settings, budget: real, c: Candidate, t: Turn)
    requires SettingsOk(k)
    ensures Honest(TakeTurn(k, budget, c, t).0, t)
  {
    hide FloorToStep, Mul, Run;
  }

  // ---------- the rotation guard ----------

  predicate Estimable(k: Settings, investable: real, c: Candidate) {
    Needed(k, c) && Priced(c) && MinReal(c.target - c.current, investable) >= k.minimumNotional
  }

  /** The guard's own estimate for one candidate, at the full budget. */
  function EstimatedCost(k: Settings, investable: real, c: Candidate): real
    requires SettingsOk(k)
  {
    if !Estimable(k, investable, c) || c.limitPrice == 0.0 then 0.0
    else
      var quantity := FloorToStep(MinReal(c.target - c.current, investable) / c.limitPrice, k.step);
      if quantity <= 0.0 then 0.0 else Mul(quantity, c.limitPrice)
  }

  function Estimate(k: Settings, investable: real, cs: seq<Candidate>): real
    requires SettingsOk(k)
  {
    if cs == [] then 0.0 else EstimatedCost(k, investable, cs[0]) + Estimate(k, investable, cs[1..])
  }

  lemma {:induction false} EstimateIsTheSum(k: Settings, investable: real, a: seq<Candidate>, b: seq<Candidate>)
    requires SettingsOk(k)
    ensures Estimate(k, investable, []) == 0.0
    ensures |a| == 1 ==> Estimate(k, investable, a) == EstimatedCost(k, investable, a[0])
    ensures Estimate(k, investable, a + b) == Estimate(k, investable, a) + Estimate(k, investable, b)
  {
    hide EstimatedCost;
    if a == [] {
      assert a + b == b;
    } else {
      assert (a + b)[1..] == a[1..] + b;
      EstimateIsTheSum(k, investable, a[1..], b);
    }
  }

  /** The estimate, unless a limit price that rounds to zero makes it divide by zero. */
  method EstimatedBuyOrderCost(k: Settings, investable: real, cs: seq<Candidate>) returns (r: Option<real>)
    requires SettingsOk(k)
    ensures r == None <==> exists i :: 0 <= i < |cs| && Estimable(k, investable, cs[i]) && cs[i].limitPrice == 0.0
    ensures r.Some? ==> r.value == Estimate(k, investable, cs)
  {
    var total := 0.0;
    var i := 0;
    while i < |cs|
      invariant 0 <= i <= |cs|
      invariant total + Estimate(k, investable, cs[i..]) == Estimate(k, investable, cs)
      invariant forall j :: 0 <= j < i ==> !(Estimable(k, investable, cs[j]) && cs[j].limitPrice == 0.0)
    {
      var c := cs[i];
      assert cs[i..][1..] == cs[i + 1..];
      i := i + 1;
      if c.current >= c.target - k.threshold { continue; }
      var buyValue := MinReal(c.target - c.current, investable);
      if c.price == None || c.price.value == 0.0 || buyValue < k.minimumNotional { continue; }
      if c.limitPrice == 0.0 { return None; }
      var quantity := FloorToStep(buyValue / c.limitPrice, k.step);
      if quantity <= 0.0 { continue; }
      total := total + Mul(quantity, c.limitPrice);
    }
    r := Some(total);
  }

  /** A candidate is estimated at the greatest multiple of the step that its gap and the cash cover, or at nothing. */
  lemma EstimatedExactly(k: Settings, investable: real, c: Candidate)
    requires SettingsOk(k)
    ensures var gap := c.target - c.current;
            var value, cost := if gap < investable then gap else investable, EstimatedCost(k, investable, c);
            && (Estimable(k, investable, c) <==>
                  && gap > k.threshold && c.price.Some? && c.price.value != 0.0
                  && gap >= k.minimumNotional && investable >= k.minimumNotional)
            && (!Estimable(k, investable, c) || c.limitPrice <= 0.0 ==> cost == 0.0)
            && (Estimable(k, investable, c) && c.limitPrice > 0.0 ==>
                  && cost <= value < cost + Mul(k.step, c.limitPrice)
                  && exists n: nat :: cost == Mul(Times(n, k.step), c.limitPrice))
  {
    hide Mul, FloorToStep, Times;
    if Estimable(k, investable, c) {
      var value := MinReal(c.target - c.current, investable);
      if c.limitPrice < 0.0 { NegativePriceBuysNothing(value, c.limitPrice); }
      if c.limitPrice > 0.0 {
        var n := WholeSteps(value, c.limitPrice, k.step);
      }
    }
  }

  /** As many whole steps as a value buys at a price. */
  lemma WholeSteps(value: real, price: real, step: real) returns (n: nat)
    requires value >= 0.0 && price > 0.0 && step > 0.0
    ensures var q := FloorToStep(value / price, step);
            && q == Times(n, step) && q >= 0.0
            && Mul(q, price) <= value < Mul(q, price) + Mul(step, price)
            && (q == 0.0 ==> Mul(q, price) == 0.0)
  {
    var q := FloorToStep(value / price, step);
    var k :| q == Times(k, step);
    MulQuotient(value, price);
    MulSign(value / price, price);
    MulSign(q, price);
    StepsHaveASign(k, step);
    hide FloorToStep;
    n := k;
    MulMonotone(q, value / price, price);
    MulMonotone(q + step, value / price, price);
    MulAdds(q, step, q + step, price);
  }

  lemma StepsHaveASign(k: int, step: real)
    requires step > 0.0
    ensures if k >= 0 then Times(k, step) >= 0.0 else Times(k, step) <= -step
  {
    assert Times(0, step) == 0.0 && Times(-1, step) == -step;
    hide Times;
    if k >= 0 { TimesIsMonotone(0, k, step); } else { TimesIsMonotone(k, -1, step); }
  }

  lemma TurnWithinEstimate(k: Settings, investable: real, budget: real, c: Candidate, t: Turn)
    requires SettingsOk(k) && budget <= investable && investable >= 0.0
    ensures SubmittedCost(TakeTurn(k, budget, c, t).0) <= EstimatedCost(k, investable, c)
  {
    hide Mul, FloorToStep, TakeTurn;
    TurnSpendsWithin(k, budget, c, t);
    EstimateIsNotNegative(k, investable, c);
    if SubmittedCost(TakeTurn(k, budget, c, t).0) > 0.0 {
      FlooredCostIsMonotone(MinReal(c.target - c.current, Refreshed(k, budget, t) * 0.95),
                            MinReal(c.target - c.current, investable), c.limitPrice, k.step);
      MulSign(PlannedAt(k, c, Refreshed(k, budget, t)), c.limitPrice);
    }
  }

  lemma EstimateIsNotNegative(k: Settings, investable: real, c: Candidate)
    requires SettingsOk(k)
    ensures EstimatedCost(k, investable, c) >= 0.0
  {
    hide Mul, FloorToStep;
    if Estimable(k, investable, c) && c.limitPrice != 0.0 {
      var buyValue := MinReal(c.target - c.current, investable);
      if c.limitPrice > 0.0 {
        MulSign(FloorToStep(buyValue / c.limitPrice, k.step), c.limitPrice);
      } else {
        NegativePriceBuysNothing(buyValue, c.limitPrice);
      }
    }
  }

  lemma NegativePriceBuysNothing(value: real, price: real)
    requires value >= 0.0 && price < 0.0
    ensures value / price <= 0.0
  {
    assert value / price == -(value / -price);
    hide Mul;
    MulQuotient(value, -price);
    MulSign(value / -price, -price);
  }

  /**
   The guard's estimate bounds everything the loop submits afterwards from the same
   state, refused orders included, in every run; so a guard that lets buys through bounds them
   by the investable cash.
   */
  lemma {:induction false} RotationGuardBoundsTheLoop(
      k: Settings, investable: real, budget: real, cs: seq<Candidate>, turns: seq<Turn>)
    requires SettingsOk(k) && |turns| == |cs| && budget <= investable && investable >= 0.0
    ensures Submitted(Loop(k, budget, cs, turns)) <= Estimate(k, investable, cs)
    decreases |cs|
  {
    hide TakeTurn, Mul, EstimatedCost;
    if cs != [] {
      var (e, left) := TakeTurn(k, budget, cs[0], turns[0]);
      TurnWithinEstimate(k, investable, budget, cs[0], turns[0]);
      TurnSpendsWithin(k, budget, cs[0], turns[0]);
      if Halts(e) {
        assert [e][1..] == [];
        EstimatesAddUp(k, investable, cs[1..]);
      } else {
        RotationGuardBoundsTheLoop(k, investable, left, cs[1..], turns[1..]);
        assert ([e] + Loop(k, left, cs[1..], turns[1..]))[1..] == Loop(k, left, cs[1..], turns[1..]);
      }
    }
  }

  lemma {:induction false} EstimatesAddUp(k: Settings, investable: real, cs: seq<Candidate>)
    requires SettingsOk(k)
    ensures Estimate(k, investable, cs) >= 0.0
  {
    if cs != [] {
      EstimateIsNotNegative(k, investable, cs[0]);
      EstimatesAddUp(k, investable, cs[1..]);
    }
  }

  /**
   The rotation guard: blocks, lets through, or raises (None).  Buys it lets through
   while a sale is still pending are covered by the investable cash in every run.
   */
  method RotationGuardBlocks(k: Settings, salePending: bool, investable: real, cs: seq<Candidate>)
    returns (blocks: Option<bool>)
    requires SettingsOk(k) && investable >= 0.0
    ensures !salePending ==> blocks == Some(false)
    ensures salePending && blocks == Some(false) ==>
              forall turns: seq<Turn> :: |turns| == |cs| ==> Submitted(Loop(k, investable, cs, turns)) <= investable
    ensures blocks == None <==>
              salePending && exists i :: 0 <= i < |cs| && Estimable(k, investable, cs[i]) && cs[i].limitPrice == 0.0
    ensures blocks == Some(true) <==> blocks != None && salePending && Estimate(k, investable, cs) > investable
  {
    if !salePending || !(exists i :: 0 <= i < |cs| && Needed(k, cs[i])) {
      if salePending { NothingNeeded(k, investable, cs); }
      forall turns: seq<Turn> | |turns| == |cs| && salePending
        ensures Submitted(Loop(k, investable, cs, turns)) <= investable
      {
        RotationGuardBoundsTheLoop(k, investable, investable, cs, turns);
      }
      return Some(false);
    }
    var estimate := EstimatedBuyOrderCost(k, investable, cs);
    if estimate == None { return None; }
    forall turns: seq<Turn> | |turns| == |cs| && estimate.value <= investable
      ensures Submitted(Loop(k, investable, cs, turns)) <= investable
    {
      RotationGuardBoundsTheLoop(k, investable, investable, cs, turns);
    }
    blocks := Some(estimate.value > investable);
  }

  lemma {:induction false} NothingNeeded(k: Settings, investable: real, cs: seq<Candidate>)
    requires SettingsOk(k) && forall i :: 0 <= i < |cs| ==> !Needed(k, cs[i])
    ensures Estimate(k, investable, cs) == 0.0
  {
    if cs != [] { NothingNeeded(k, investable, cs[1..]); }
  }
}
