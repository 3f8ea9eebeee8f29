/**
 What the guard lets through to the broker during the buy loop
 (application/execution_service.py): the orders themselves, not what the loop records.
 */
module SentOrders {
  import opened Arith
  import opened Wrappers
  import opened SettledCash
  import opened BuyLoop

  /** What the guard sent during these calls, in money. */
  function SentCost(scope: SettledCash.Scope, budget: real, calls: seq<Call>): real
    requires scope.step > 0.0
    decreases |calls|
  {
    if calls == [] then 0.0
    else
      var front, last := calls[..|calls| - 1], calls[|calls| - 1];
      var before := SentCost(scope, budget, front);
      if last.Place? && SettledCash.Step(scope, Run(scope, Open(budget), front), last).1 == Sent
      then before + Mul(last.order.quantity, last.order.limitPrice)
      else before
  }

  /** A submission prepares at most once, and places at most once, at the price of its intent. */
  predicate OnceAt(calls: seq<Call>, price: real) {
    && (forall i, j :: 0 <= i < j < |calls| ==>
          !(calls[i].Prepare? && calls[j].Prepare?) && !(calls[i].Place? && calls[j].Place?))
    && (forall i :: 0 <= i < |calls| && calls[i].Place? ==> calls[i].order.limitPrice == price)
  }

  predicate NonePlaced(calls: seq<Call>) { forall i :: 0 <= i < |calls| ==> !calls[i].Place? }

  predicate NonePrepared(calls: seq<Call>) { forall i :: 0 <= i < |calls| ==> !calls[i].Prepare? }

  lemma {:induction false} NothingHappens(scope: SettledCash.Scope, budget: real, calls: seq<Call>)
    requires scope.step > 0.0
    ensures NonePlaced(calls) ==> SentCost(scope, budget, calls) == 0.0
    ensures NonePrepared(calls) ==> Run(scope, Open(budget), calls).prepared == None
    decreases |calls|
  {
    hide Mul, FloorToStep, RowInvalid, SettledCash.Placeable;
    if calls != [] { NothingHappens(scope, budget, calls[..|calls| - 1]); }
  }

  /** Nothing is sent, or exactly one order: the prepared quantity at the intent's price. */
  lemma {:induction false} OneOrderSent(scope: SettledCash.Scope, budget: real, calls: seq<Call>, price: real)
    requires scope.step > 0.0 && OnceAt(calls, price)
    ensures var g := Run(scope, Open(budget), calls);
            || SentCost(scope, budget, calls) == 0.0
            || (g.prepared.Some? && SentCost(scope, budget, calls) == Mul(g.prepared.value, price))
    decreases |calls|
  {
    if calls != [] {
      var front, last := calls[..|calls| - 1], calls[|calls| - 1];
      OneOrderSent(scope, budget, front, price);
      NothingHappens(scope, budget, front);
      if last.Place? { assert NonePlaced(front); }
      if last.Prepare? { assert NonePrepared(front); PlacedWasPrepared(scope, budget, front); }
      hide Mul, FloorToStep, RowInvalid, OnceAt;
    }
  }

  /** Before anything is prepared nothing can be sent. */
  lemma {:induction false} PlacedWasPrepared(scope: SettledCash.Scope, budget: real, calls: seq<Call>)
    requires scope.step > 0.0 && NonePrepared(calls)
    ensures SentCost(scope, budget, calls) == 0.0
    decreases |calls|
  {
    hide Mul, FloorToStep, RowInvalid;
    if calls != [] {
      PlacedWasPrepared(scope, budget, calls[..|calls| - 1]);
      NothingHappens(scope, budget, calls[..|calls| - 1]);
    }
  }

  lemma OnceWhenBound(calls: seq<Call>, intent: Intent)
    requires OnceAt(calls, intent.limitPrice)
    ensures OnceAt(BindCalls(calls, intent), intent.limitPrice)
  {
    var bound := BindCalls(calls, intent);
    forall i | 0 <= i < |bound|
      ensures (bound[i].Prepare? <==> calls[i].Prepare?) && (bound[i].Place? <==> calls[i].Place?)
      ensures bound[i].Place? ==> bound[i] == calls[i]
    {
    }
  }

  /** What the guard sent during one turn; without a cash-only submission there is no guard. */
  function SentIn(k: Settings, budget: real, c: Candidate, t: Turn): real
    requires SettingsOk(k)
  {
    match Plan(k, budget, c, t)
    case Failure(_) => 0.0
    case Success(quantity) =>
      if !k.cashOnly then 0.0
      else
        SentCost(ScopeOf(k), Refreshed(k, budget, t), BindCalls(t.calls, Intent(k.account, quantity, c.limitPrice)))
  }

  /** The orders of one turn cost no more than what the loop records for it. */
  lemma SentIsRecorded(k: Settings, budget: real, c: Candidate, t: Turn)
    requires SettingsOk(k) && OnceAt(t.calls, c.limitPrice)
    ensures SentIn(k, budget, c, t) <= SubmittedCost(TakeTurn(k, budget, c, t).0)
  {
    TurnSpendsWithin(k, budget, c, t);
    hide Mul, FloorToStep, Run, SentCost, OnceAt, Plan, Refreshed;
    var plan := Plan(k, budget, c, t);
    if plan.Success? && k.cashOnly {
      var intent := Intent(k.account, plan.value, c.limitPrice);
      OnceWhenBound(t.calls, intent);
      OneOrderSent(ScopeOf(k), Refreshed(k, budget, t), BindCalls(t.calls, intent), c.limitPrice);
    }
  }

  /** Everything the guard sent over a run of the loop. */
  function SentOver(k: Settings, budget: real, cs: seq<Candidate>, turns: seq<Turn>): real
    requires SettingsOk(k) && |turns| == |cs|
    decreases |cs|
  {
    if cs == [] then 0.0
    else
      var (e, left) := TakeTurn(k, budget, cs[0], turns[0]);
      SentIn(k, budget, cs[0], turns[0]) + if Halts(e) then 0.0 else SentOver(k, left, cs[1..], turns[1..])
  }

  /** The same without the orders that the broker reported refused. */
  function HeldOver(k: Settings, budget: real, cs: seq<Candidate>, turns: seq<Turn>): real
    requires SettingsOk(k) && |turns| == |cs|
    decreases |cs|
  {
    if cs == [] then 0.0
    else
      var (e, left) := TakeTurn(k, budget, cs[0], turns[0]);
      var sent := if e.Bought? && e.outcome == OrderFailed then 0.0 else SentIn(k, budget, cs[0], turns[0]);
      sent + if Halts(e) then 0.0 else HeldOver(k, left, cs[1..], turns[1..])
  }

  ghost predicate EachOnce(cs: seq<Candidate>, turns: seq<Turn>)
    requires |turns| == |cs|
  {
    forall i :: 0 <= i < |cs| ==> OnceAt(turns[i].calls, cs[i].limitPrice)
  }

  lemma {:induction false} SentWithinRecorded(k: Settings, budget: real, cs: seq<Candidate>, turns: seq<Turn>)
    requires SettingsOk(k) && |turns| == |cs| && EachOnce(cs, turns)
    ensures SentOver(k, budget, cs, turns) <= Submitted(Loop(k, budget, cs, turns))
    ensures HeldOver(k, budget, cs, turns) <= Committed(Loop(k, budget, cs, turns))
    decreases |cs|
  {
    hide TakeTurn, SentIn, Mul, OnceAt;
    if cs != [] {
      var (e, left) := TakeTurn(k, budget, cs[0], turns[0]);
      SentIsRecorded(k, budget, cs[0], turns[0]);
      TurnSpendsWithin(k, budget, cs[0], turns[0]);
      if Halts(e) {
        assert [e][1..] == [];
      } else {
        SentWithinRecorded(k, left, cs[1..], turns[1..]);
        assert ([e] + Loop(k, left, cs[1..], turns[1..]))[1..] == Loop(k, left, cs[1..], turns[1..]);
      }
    }
  }

  /**
   Over every run: when each submission prepares once and places once at its recorded
   price, the orders the guard sent and the broker did not refuse are together within the
   cash fixed before the loop, and all orders it sent within the rotation guard's estimate.
   */
  lemma SentOrdersStayWithinCash(k: Settings, investable: real, cs: seq<Candidate>, turns: seq<Turn>)
    requires SettingsOk(k) && |turns| == |cs| && EachOnce(cs, turns) && investable >= 0.0
    ensures HeldOver(k, investable, cs, turns) <= investable
    ensures SentOver(k, investable, cs, turns) <= Estimate(k, investable, cs)
  {
    hide *;
    SentWithinRecorded(k, investable, cs, turns);
    CommittedNeverExceedsBudget(k, investable, cs, turns);
    MaxOfInvestable(investable);
    RotationGuardBoundsTheLoop(k, investable, investable, cs, turns);
  }

  lemma MaxOfInvestable(x: real)
    ensures x >= 0.0 ==> MaxReal(0.0, x) == x
  {
  }

  // ---------- exactly how often a session may place ----------

  function PlaceCount(calls: seq<Call>): nat {
    if calls == [] then 0 else PlaceCount(calls[..|calls| - 1]) + if calls[|calls| - 1].Place? then 1 else 0
  }

  predicate PreparesOnce(calls: seq<Call>) {
    forall i, j :: 0 <= i < j < |calls| ==> !(calls[i].Prepare? && calls[j].Prepare?)
  }

  predicate PlacesAt(calls: seq<Call>, price: real) {
    forall i :: 0 <= i < |calls| && calls[i].Place? ==> calls[i].order.limitPrice == price
  }

  /** How many orders the guard sent during these calls. */
  function SentTimes(scope: SettledCash.Scope, budget: real, calls: seq<Call>): nat
    requires scope.step > 0.0
    decreases |calls|
  {
    if calls == [] then 0
    else
      var front, last := calls[..|calls| - 1], calls[|calls| - 1];
      var sent := last.Place? && SettledCash.Step(scope, Run(scope, Open(budget), front), last).1 == Sent;
      SentTimes(scope, budget, front) + if sent then 1 else 0
  }

  /** What the loop records for a session: the prepared quantity at the price, or nothing prepared. */
  function RecordedCost(scope: SettledCash.Scope, budget: real, calls: seq<Call>, price: real): real
    requires scope.step > 0.0
  {
    var g := Run(scope, Open(budget), calls);
    if g.prepared.Some? then Mul(g.prepared.value, price) else 0.0
  }

  lemma OneMoreTime(n: nat, x: real)
    ensures Mul((n + 1) as real, x) == Mul(n as real, x) + x && Mul(0.0, x) == 0.0
  {
  }

  lemma PlacedIsPrepared(scope: SettledCash.Scope, g: Guard, call: Call)
    requires scope.step > 0.0 && call.Place? && SettledCash.Step(scope, g, call).1 == Sent
    ensures g.prepared == Some(call.order.quantity)
  {
  }

  lemma OnlyPreparingPrepares(scope: SettledCash.Scope, g: Guard, call: Call)
    requires scope.step > 0.0 && !call.Prepare?
    ensures SettledCash.Step(scope, g, call).0.prepared == g.prepared
  {
  }

  /** The guard never clears what it prepared: what a session sends is its recorded cost, as often as it was sent. */
  lemma {:induction false} SentIsMultiple(scope: SettledCash.Scope, budget: real, calls: seq<Call>, price: real)
    requires scope.step > 0.0 && PreparesOnce(calls) && PlacesAt(calls, price)
    ensures SentCost(scope, budget, calls)
         == Mul(SentTimes(scope, budget, calls) as real, RecordedCost(scope, budget, calls, price))
    ensures SentTimes(scope, budget, calls) <= PlaceCount(calls)
    ensures NonePrepared(calls) ==> SentTimes(scope, budget, calls) == 0
    decreases |calls|
  {
    OneMoreTime(0, RecordedCost(scope, budget, calls, price));
    if calls != [] {
      var front, last := calls[..|calls| - 1], calls[|calls| - 1];
      var g := Run(scope, Open(budget), front);
      SentIsMultiple(scope, budget, front, price);
      NothingHappens(scope, budget, front);
      if last.Prepare? {
        assert NonePrepared(front);
      } else {
        OnlyPreparingPrepares(scope, g, last);
        OneMoreTime(SentTimes(scope, budget, front), RecordedCost(scope, budget, front, price));
        if last.Place? && SettledCash.Step(scope, g, last).1 == Sent { PlacedIsPrepared(scope, g, last); }
      }
      hide Mul, SettledCash.Step, PreparesOnce, PlacesAt;
    }
  }

  /** A session sends no more than what is recorded for it exactly when it sends at most once. */
  lemma SessionWithinRecordExactly(scope: SettledCash.Scope, budget: real, calls: seq<Call>, price: real)
    requires scope.step > 0.0 && PreparesOnce(calls) && PlacesAt(calls, price)
    requires RecordedCost(scope, budget, calls, price) > 0.0
    ensures SentCost(scope, budget, calls) <= RecordedCost(scope, budget, calls, price)
       <==> SentTimes(scope, budget, calls) <= 1
  {
    SentIsMultiple(scope, budget, calls, price);
    hide RecordedCost, SentTimes, SentCost;
    var n, x := SentTimes(scope, budget, calls), RecordedCost(scope, budget, calls, price);
    MulMonotone(n as real, 1.0, x);
    MulSign(1.0, x);
  }

  /** Each session prepares at most once, and places at most n times, at the price of its candidate. */
  ghost predicate EachAtMost(cs: seq<Candidate>, turns: seq<Turn>, n: nat)
    requires |turns| == |cs|
  {
    forall i :: 0 <= i < |cs| ==>
      PreparesOnce(turns[i].calls) && PlacesAt(turns[i].calls, cs[i].limitPrice) && PlaceCount(turns[i].calls) <= n
  }

  /** Placing at most n times in a session keeps every run within the cash. */
  ghost predicate SafeFor(n: nat) {
    forall k: Settings, investable: real, cs: seq<Candidate>, turns: seq<Turn> |
      SettingsOk(k) && |turns| == |cs| && investable >= 0.0 && EachAtMost(cs, turns, n) ::
      HeldOver(k, investable, cs, turns) <= investable
  }

  lemma {:induction false} PlacesAreCounted(calls: seq<Call>, i: nat)
    requires i < |calls| && calls[i].Place?
    ensures PlaceCount(calls) >= 1
    ensures forall j :: i < j < |calls| && calls[j].Place? ==> PlaceCount(calls) >= 2
  {
    var front, last := calls[..|calls| - 1], calls[|calls| - 1];
    if i < |front| { PlacesAreCounted(front, i); }
  }

  lemma CountedOnce(calls: seq<Call>, price: real)
    requires PreparesOnce(calls) && PlacesAt(calls, price) && PlaceCount(calls) <= 1
    ensures OnceAt(calls, price)
  {
    forall i, j | 0 <= i < j < |calls| ensures !(calls[i].Place? && calls[j].Place?) {
      if calls[i].Place? { PlacesAreCounted(calls, i); }
    }
  }

  // ---------- a session that places twice ----------

  const CASH_SETTINGS := Settings(true, false, 0.0, 0.0, 1.0, 0.0, "A", "USD")
  const ONE_BUY := Candidate("S", 0.0, 100.0, Some(1.0), 1.0, Some(100.0), true)
  const NINETY_FIVE := BrokerOrder("A", "USD", "BUY", "LMT", 95.0, 1.0)
  const PLACED_TWICE :=
    Turn(Some(100.0), 0.0,
         [Prepare(Intent("A", 95.0, 1.0), "USD"), Place(NINETY_FIVE, 0.0), Place(NINETY_FIVE, 0.0)],
         Reported("Filled", true))

  lemma FloorOfNinetyFive()
    ensures FloorToStep(95.0 / 1.0, 1.0) == 95.0 && Mul(95.0, 1.0) == 95.0
  {
    assert (95.0 / 1.0).Floor == 95;
  }

  lemma PlannedNinetyFive()
    ensures Plan(CASH_SETTINGS, 100.0, ONE_BUY, PLACED_TWICE) == Success(95.0)
    ensures Refreshed(CASH_SETTINGS, 100.0, PLACED_TWICE) == 100.0
  {
    FloorOfNinetyFive();
    hide FloorToStep, Mul;
  }

  lemma BoundAsIs()
    ensures BindCalls(PLACED_TWICE.calls, Intent("A", 95.0, 1.0)) == PLACED_TWICE.calls
  {
  }

  lemma SentTwice()
    ensures var scope, calls := ScopeOf(CASH_SETTINGS), PLACED_TWICE.calls;
            && Run(scope, Open(100.0), calls).prepared == Some(95.0)
            && SentCost(scope, 100.0, calls) == 190.0
  {
    FloorOfNinetyFive();
    hide FloorToStep, Mul;
    var scope, calls := ScopeOf(CASH_SETTINGS), PLACED_TWICE.calls;
    var prepare, place := calls[0], calls[1];
    var g := Guard(100.0, false, Some(95.0));
    assert SettledCash.Step(scope, Open(100.0), prepare).0 == g;
    assert SettledCash.Step(scope, g, place) == (g, Sent);
    assert calls[..2] == [prepare, place] && [prepare, place][..1] == [prepare] && [prepare][..0] == [];
    hide SettledCash.Step;
    assert Run(scope, Open(100.0), []) == Open(100.0) && SentCost(scope, 100.0, []) == 0.0;
    assert Run(scope, Open(100.0), [prepare]) == g && SentCost(scope, 100.0, [prepare]) == 0.0;
    assert Run(scope, Open(100.0), [prepare, place]) == g && SentCost(scope, 100.0, [prepare, place]) == 95.0;
    assert Run(scope, Open(100.0), calls) == g;
  }

  /** One candidate, one session, two orders: 190 sent and held out of 100 in cash. */
  lemma ADoubleSendExceedsTheCash()
    ensures EachAtMost([ONE_BUY], [PLACED_TWICE], 2) && SettingsOk(CASH_SETTINGS)
    ensures HeldOver(CASH_SETTINGS, 100.0, [ONE_BUY], [PLACED_TWICE]) == 190.0
  {
    PlannedNinetyFive();
    BoundAsIs();
    SentTwice();
    TwoPlaced();
    hide Plan, Run, SentCost, BindCalls, Refreshed, Mul;
    assert [ONE_BUY][1..] == [] && [PLACED_TWICE][1..] == [];
  }

  lemma TwoPlaced()
    ensures EachAtMost([ONE_BUY], [PLACED_TWICE], 2)
  {
    var calls := PLACED_TWICE.calls;
    assert calls[..2] == [calls[0], calls[1]] && calls[..2][..1] == [calls[0]] && [calls[0]][..0] == [];
    assert PlaceCount([]) == 0 && PlaceCount([calls[0]]) == 0 && PlaceCount(calls[..2]) == 1 && PlaceCount(calls) == 2;
  }

  /** Exactly how often a session may place for every run to stay within the cash: once. */
  lemma SafeExactlyForOne(n: nat)
    ensures SafeFor(n) <==> n <= 1
  {
    hide HeldOver, PlaceCount, PreparesOnce, PlacesAt, SettingsOk;
    if n <= 1 {
      forall k: Settings, investable: real, cs: seq<Candidate>, turns: seq<Turn> |
        SettingsOk(k) && |turns| == |cs| && investable >= 0.0 && EachAtMost(cs, turns, n)
        ensures HeldOver(k, investable, cs, turns) <= investable
      {
        forall i | 0 <= i < |cs| ensures OnceAt(turns[i].calls, cs[i].limitPrice) {
          CountedOnce(turns[i].calls, cs[i].limitPrice);
        }
        SentOrdersStayWithinCash(k, investable, cs, turns);
      }
    } else {
      ADoubleSendExceedsTheCash();
      assert EachAtMost([ONE_BUY], [PLACED_TWICE], n);
    }
  }
}
