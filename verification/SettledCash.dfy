/**
 The guard between a prepared buy and the broker in application/execution_service.py:
 settled-cash updates may arrive at any time, and each can only take spending power away.
 Amounts are exact reals; account texts are taken as already stripped and upper-cased.
 */
module SettledCash {
  import opened Arith
  import opened Wrappers

  const MAX_AGE := 30.0

  function Investable(buyingPower: real, reserved: real): real {
    MaxReal(0.0, buyingPower - MaxReal(0.0, reserved))
  }

  /** A row's own time stamp: its age in seconds, or something that is no zoned time. */
  datatype Stamp = Malformed | Age(seconds: real)

  datatype AccountRow = AccountRow(
    account: string, currency: string, tag: string, value: Option<real>, stale: bool, stamps: seq<Stamp>)

  datatype Intent = Intent(account: string, quantity: real, limitPrice: real)

  datatype BrokerOrder = BrokerOrder(
    account: string, currency: string, action: string, orderType: string, quantity: real, limitPrice: real)

  datatype Scope = Scope(
    account: string, currency: string, reserved: real, step: real, minimumNotional: real, refreshStarted: real)

  datatype Guard = Guard(remaining: real, invalid: bool, prepared: Option<real>)

  /** Everything that can happen to the guard between entering and leaving it. */
  datatype Call =
    | Update(row: AccountRow)
    | Prepare(intent: Intent, currency: string)
    | Place(order: BrokerOrder, now: real)

  datatype Answer = Ignored | Noted | Raised | NotAdmitted | Admitted(intent: Intent) | Sent

  predicate Relevant(scope: Scope, row: AccountRow) {
    row.account == scope.account && row.currency == scope.currency && row.tag == "SettledCash"
  }

  predicate FreshStamp(s: Stamp) { s.Age? && 0.0 <= s.seconds <= MAX_AGE }

  predicate RowInvalid(row: AccountRow) {
    || row.value == None || row.value.value <= 0.0 || row.stale
    || (exists i :: 0 <= i < |row.stamps| && !FreshStamp(row.stamps[i]))
  }

  function SizedQuantity(scope: Scope, g: Guard, intent: Intent): real
    requires scope.step > 0.0 && intent.limitPrice != 0.0
  {
    MinReal(intent.quantity, FloorToStep(g.remaining * 0.95 / intent.limitPrice, scope.step))
  }

  predicate Placeable(scope: Scope, g: Guard, o: BrokerOrder, now: real) {
    && !g.invalid && o.account == scope.account && g.prepared == Some(o.quantity)
    && o.currency == scope.currency && o.action == "BUY" && o.orderType == "LMT"
    && o.quantity > 0.0 && o.limitPrice > 0.0 && Mul(o.quantity, o.limitPrice) <= g.remaining
    && 0.0 <= now - scope.refreshStarted <= MAX_AGE
  }

  function Step(scope: Scope, g: Guard, call: Call): (Guard, Answer)
    requires scope.step > 0.0
  {
    match call
    case Update(row) =>
      if !Relevant(scope, row) then (g, Ignored)
      else if RowInvalid(row) then (g.(invalid := true), Noted)
      else (g.(remaining := MinReal(g.remaining, Investable(row.value.value, scope.reserved))), Noted)
    case Prepare(intent, currency) =>
      if || scope.account == "" || currency != scope.currency || intent.account != scope.account
         || intent.limitPrice == 0.0
      then (g, Raised)
      else
        var quantity := SizedQuantity(scope, g, intent);
        var small := quantity <= 0.0 || Mul(quantity, intent.limitPrice) < scope.minimumNotional;
        if g.invalid || small then (g.(invalid := true), NotAdmitted)
        else (g.(prepared := Some(quantity)), Admitted(intent.(quantity := quantity)))
    case Place(order, now) =>
      (g, if Placeable(scope, g, order, now) then Sent else Raised)
  }

  function Run(scope: Scope, g: Guard, calls: seq<Call>): Guard
    requires scope.step > 0.0
    decreases |calls|
  {
    if calls == [] then g else Step(scope, Run(scope, g, calls[..|calls| - 1]), calls[|calls| - 1]).0
  }

  function Open(budget: real): Guard { Guard(budget, false, None) }

  predicate ValidObservation(scope: Scope, call: Call) {
    call.Update? && Relevant(scope, call.row) && !RowInvalid(call.row)
  }

  predicate InvalidObservation(scope: Scope, call: Call) {
    call.Update? && Relevant(scope, call.row) && RowInvalid(call.row)
  }

  /**
   After any trace: the remaining power is the least of the initial budget and what every
   valid observation leaves, and an invalid observation is never forgotten.
   */
  lemma {:induction false} RemainingIsTheLeast(scope: Scope, budget: real, calls: seq<Call>)
    requires scope.step > 0.0
    ensures var g := Run(scope, Open(budget), calls);
            && g.remaining <= budget
            && (forall i :: 0 <= i < |calls| && ValidObservation(scope, calls[i]) ==>
                  g.remaining <= Investable(calls[i].row.value.value, scope.reserved))
            && (g.remaining == budget ||
                (exists i :: 0 <= i < |calls| && ValidObservation(scope, calls[i])
                   && g.remaining == Investable(calls[i].row.value.value, scope.reserved)))
            && ((exists i :: 0 <= i < |calls| && InvalidObservation(scope, calls[i])) ==> g.invalid)
    decreases |calls|
  {
    if calls != [] {
      var front := calls[..|calls| - 1];
      RemainingIsTheLeast(scope, budget, front);
      var before, after := Run(scope, Open(budget), front), Run(scope, Open(budget), calls);
      assert forall i :: 0 <= i < |front| ==> front[i] == calls[i];
      if after.remaining != budget && after.remaining == before.remaining {
        var i :| 0 <= i < |front| && ValidObservation(scope, front[i])
          && before.remaining == Investable(front[i].row.value.value, scope.reserved);
        assert ValidObservation(scope, calls[i]);
      }
    }
  }

  /** Power never comes back and invalidity is never cleared, whatever happens later. */
  lemma {:induction false} RestrictionsOnlyTighten(scope: Scope, g: Guard, calls: seq<Call>, i: nat)
    requires scope.step > 0.0 && i <= |calls|
    ensures Run(scope, g, calls).remaining <= Run(scope, g, calls[..i]).remaining
    ensures Run(scope, g, calls[..i]).invalid ==> Run(scope, g, calls).invalid
    ensures Run(scope, g, calls[..i]).prepared.Some? ==> Run(scope, g, calls).prepared.Some?
    decreases |calls| - i
  {
    if i < |calls| {
      RestrictionsOnlyTighten(scope, g, calls, i + 1);
      assert calls[..i + 1][..i] == calls[..i];
    } else {
      assert calls[..i] == calls;
    }
  }

  /** A prepared quantity was admitted by an earlier call, which cut it to 95% of the power at that time. */
  lemma {:induction false} PreparedWasAdmitted(scope: Scope, budget: real, calls: seq<Call>)
    requires scope.step > 0.0
    ensures var g := Run(scope, Open(budget), calls);
            g.prepared.Some? ==>
              exists j :: 0 <= j < |calls| && calls[j].Prepare?
                && Step(scope, Run(scope, Open(budget), calls[..j]), calls[j]).1
                   == Admitted(calls[j].intent.(quantity := g.prepared.value))
    decreases |calls|
  {
    if calls != [] {
      var front := calls[..|calls| - 1];
      PreparedWasAdmitted(scope, budget, front);
      var before, after := Run(scope, Open(budget), front), Run(scope, Open(budget), calls);
      if after.prepared == before.prepared && after.prepared.Some? {
        var j :| 0 <= j < |front| && front[j].Prepare?
          && Step(scope, Run(scope, Open(budget), front[..j]), front[j]).1
             == Admitted(front[j].intent.(quantity := before.prepared.value));
        assert calls[..j] == front[..j] && calls[j] == front[j];
      } else if after.prepared.Some? {
        assert calls[..|calls| - 1] == front;
      }
    }
  }

  /**
   An order reaches the broker only with the prepared quantity, within the freshness
   window, after no invalid observation, at a cost within the initial budget and within
   every valid observation so far less the reserve.
   */
  lemma SentOrdersAreCovered(scope: Scope, budget: real, calls: seq<Call>, i: nat)
    requires scope.step > 0.0 && i < |calls| && calls[i].Place?
    requires Step(scope, Run(scope, Open(budget), calls[..i]), calls[i]).1 == Sent
    ensures var o := calls[i].order;
            var cost := Mul(o.quantity, o.limitPrice);
            && Run(scope, Open(budget), calls[..i]).prepared == Some(o.quantity)
            && (exists j :: 0 <= j < i && calls[j].Prepare? && calls[j].intent.account == o.account
                 && o.quantity <= calls[j].intent.quantity)
            && 0.0 <= calls[i].now - scope.refreshStarted <= MAX_AGE
            && 0.0 < cost <= budget
            && (forall k :: 0 <= k < i ==> !InvalidObservation(scope, calls[k]))
            && (forall k :: 0 <= k < i && ValidObservation(scope, calls[k]) ==>
                  cost <= calls[k].row.value.value - MaxReal(0.0, scope.reserved))
  {
    hide Run, FloorToStep, Mul;
    var past := calls[..i];
    PastObservationsBind(scope, budget, calls, i);
    MulSign(calls[i].order.quantity, calls[i].order.limitPrice);
    PreparedWasAdmitted(scope, budget, past);
    var j :| 0 <= j < |past| && past[j].Prepare?
      && Step(scope, Run(scope, Open(budget), past[..j]), past[j]).1
         == Admitted(past[j].intent.(quantity := calls[i].order.quantity));
    assert past[j] == calls[j];
  }

  lemma PastObservationsBind(scope: Scope, budget: real, calls: seq<Call>, i: nat)
    requires scope.step > 0.0 && i <= |calls|
    ensures var g := Run(scope, Open(budget), calls[..i]);
            && g.remaining <= budget
            && (!g.invalid ==> forall k :: 0 <= k < i ==> !InvalidObservation(scope, calls[k]))
            && (forall k :: 0 <= k < i && ValidObservation(scope, calls[k]) ==>
                  g.remaining <= Investable(calls[k].row.value.value, scope.reserved))
  {
    hide Run, RowInvalid;
    RemainingIsTheLeast(scope, budget, calls[..i]);
    assert forall k :: 0 <= k < i ==> calls[..i][k] == calls[k];
  }

  // ---------- exactly what each call does ----------

  /** A settled-cash update counts: it is for this account and currency, positive, and fresh in every stamp. */
  ghost predicate Counts(scope: Scope, call: Call) {
    && call.Update? && call.row.account == scope.account && call.row.currency == scope.currency
    && call.row.tag == "SettledCash" && call.row.value.Some? && call.row.value.value > 0.0 && !call.row.stale
    && forall i :: 0 <= i < |call.row.stamps| ==> call.row.stamps[i].Age? && 0.0 <= call.row.stamps[i].seconds <= 30.0
  }

  /** What cash leaves to invest after the reserve. */
  function Spendable(cash: real, reserved: real): real {
    var kept := if reserved > 0.0 then cash - reserved else cash;
    if kept > 0.0 then kept else 0.0
  }

  lemma CountsExactly(scope: Scope, call: Call)
    ensures Counts(scope, call) <==> ValidObservation(scope, call)
    ensures Counts(scope, call) ==>
              Spendable(call.row.value.value, scope.reserved) == Investable(call.row.value.value, scope.reserved)
  {
  }

  lemma StepRemaining(scope: Scope, g: Guard, call: Call)
    requires scope.step > 0.0
    ensures Step(scope, g, call).0.remaining
         == if ValidObservation(scope, call) then MinReal(g.remaining, Investable(call.row.value.value, scope.reserved))
            else g.remaining
  {
    hide FloorToStep, Mul;
  }

  /** An update takes power away or invalidates, and does nothing else. */
  lemma UpdateExactly(scope: Scope, g: Guard, row: AccountRow)
    requires scope.step > 0.0
    ensures var (after, answer) := Step(scope, g, Update(row));
            var mine := row.account == scope.account && row.currency == scope.currency && row.tag == "SettledCash";
            && (answer == Ignored <==> !mine) && (answer == Noted <==> mine)
            && after.prepared == g.prepared
            && (after.invalid <==> g.invalid || (mine && !Counts(scope, Update(row))))
            && after.remaining == if Counts(scope, Update(row))
                                  then MinReal(g.remaining, Spendable(row.value.value, scope.reserved))
                                  else g.remaining
  {
    CountsExactly(scope, Update(row));
  }

  /** The most that an intent may take: its own quantity, or what 95% of the power buys, rounded down. */
  ghost predicate MostThatFits(scope: Scope, power: real, intent: Intent, q: real)
    requires scope.step > 0.0 && intent.limitPrice > 0.0
  {
    && q <= intent.quantity && Mul(q, intent.limitPrice) <= 0.95 * power
    && (q < intent.quantity ==>
          (exists n :: q == Times(n, scope.step)) && Mul(q + scope.step, intent.limitPrice) > 0.95 * power)
  }

  /** Exactly when an intent is admitted, and at what quantity. */
  lemma PrepareExactly(scope: Scope, g: Guard, intent: Intent, currency: string)
    requires scope.step > 0.0 && intent.limitPrice > 0.0
    ensures var (after, answer) := Step(scope, g, Prepare(intent, currency));
            var q := SizedQuantity(scope, g, intent);
            var mine := scope.account != "" && currency == scope.currency && intent.account == scope.account;
            && MostThatFits(scope, g.remaining, intent, q)
            && (answer == Raised <==> !mine) && (answer == Raised ==> after == g)
            && (answer == Admitted(intent.(quantity := q)) <==>
                  mine && !g.invalid && q > 0.0 && Mul(q, intent.limitPrice) >= scope.minimumNotional)
            && (answer.Admitted? ==> after == g.(prepared := Some(q)) && answer.intent == intent.(quantity := q))
            && (answer == NotAdmitted ==> after == g.(invalid := true))
            && (answer in {Raised, NotAdmitted} || answer.Admitted?)
  {
    SizedIsMost(scope, g, intent);
    hide SizedQuantity, MostThatFits, Mul;
  }

  /** Without a positive price nothing is admitted. */
  lemma OnlyPricedAreAdmitted(scope: Scope, g: Guard, intent: Intent, currency: string)
    requires scope.step > 0.0 && scope.minimumNotional >= 0.0 && intent.limitPrice <= 0.0
    ensures var (after, answer) := Step(scope, g, Prepare(intent, currency));
            var mine := scope.account != "" && currency == scope.currency && intent.account == scope.account;
            if mine && intent.limitPrice < 0.0 then answer == NotAdmitted && after == g.(invalid := true)
            else answer == Raised && after == g
  {
    if intent.limitPrice < 0.0 {
      var q := SizedQuantity(scope, g, intent);
      MulSign(q, -intent.limitPrice);
      assert Mul(q, intent.limitPrice) == -Mul(q, -intent.limitPrice);
      hide SizedQuantity, Mul;
    }
  }

  lemma SizedIsMost(scope: Scope, g: Guard, intent: Intent)
    requires scope.step > 0.0 && intent.limitPrice > 0.0
    ensures MostThatFits(scope, g.remaining, intent, SizedQuantity(scope, g, intent))
  {
    var power, price := g.remaining * 0.95, intent.limitPrice;
    var floor := FloorToStep(power / price, scope.step);
    var q := SizedQuantity(scope, g, intent);
    hide Mul, FloorToStep;
    MulQuotient(power, price);
    MulMonotone(q, power / price, price);
    MulMonotone(floor + scope.step, power / price, price);
  }

  /** An order reaches the broker exactly when nothing speaks against it. */
  lemma PlaceExactly(scope: Scope, g: Guard, o: BrokerOrder, now: real)
    requires scope.step > 0.0
    ensures var (after, answer) := Step(scope, g, Place(o, now));
            && after == g && answer in {Sent, Raised}
            && (answer == Sent <==>
                  && !g.invalid && g.prepared == Some(o.quantity) && o.quantity > 0.0 && o.limitPrice > 0.0
                  && o.account == scope.account && o.currency == scope.currency
                  && o.action == "BUY" && o.orderType == "LMT"
                  && Mul(o.quantity, o.limitPrice) <= g.remaining
                  && scope.refreshStarted <= now <= scope.refreshStarted + 30.0)
  {
    hide Mul;
  }

  /** The guard object: updates and calls change it in place, each exactly as one step does. */
  class SettledCashDeadline {
    const scope: Scope
    var remaining: real
    var invalid: bool
    var prepared: Option<real>

    ghost predicate Valid() { scope.step > 0.0 }

    function State(): Guard
      reads this
    {
      Guard(remaining, invalid, prepared)
    }

    constructor (scope: Scope, budget: real)
      requires scope.step > 0.0
      ensures Valid() && this.scope == scope && State() == Open(budget)
    {
      this.scope := scope;
      remaining, invalid, prepared := budget, false, None;
    }

    method Observe(row: AccountRow)
      requires Valid()
      modifies this
      ensures State() == Step(scope, old(State()), Update(row)).0
    {
      if row.account != scope.account || row.currency != scope.currency || row.tag != "SettledCash" { return; }
      var bad := row.value == None || row.value.value <= 0.0 || row.stale;
      for i := 0 to |row.stamps|
        invariant bad <==> row.value == None || row.value.value <= 0.0 || row.stale
                           || exists k :: 0 <= k < i && !FreshStamp(row.stamps[k])
      {
        if !FreshStamp(row.stamps[i]) { bad := true; }
      }
      invalid := invalid || bad;
      if !bad { remaining := MinReal(remaining, Investable(row.value.value, scope.reserved)); }
    }

    method PrepareIntent(intent: Intent, currency: string) returns (answer: Answer)
      requires Valid()
      modifies this
      ensures (State(), answer) == Step(scope, old(State()), Prepare(intent, currency))
    {
      if || scope.account == "" || currency != scope.currency || intent.account != scope.account
         || intent.limitPrice == 0.0
      {
        return Raised;
      }
      var quantity := MinReal(intent.quantity, FloorToStep(remaining * 0.95 / intent.limitPrice, scope.step));
      if quantity <= 0.0 || Mul(quantity, intent.limitPrice) < scope.minimumNotional { invalid := true; }
      if invalid { return NotAdmitted; }
      prepared := Some(quantity);
      answer := Admitted(intent.(quantity := quantity));
    }

    method PlaceOrder(order: BrokerOrder, now: real) returns (answer: Answer)
      requires Valid()
      ensures answer == Step(scope, State(), Place(order, now)).1
    {
      if invalid || order.account != scope.account || prepared != Some(order.quantity)
         || order.currency != scope.currency || order.action != "BUY" || order.orderType != "LMT"
         || order.quantity <= 0.0 || order.limitPrice <= 0.0 || Mul(order.quantity, order.limitPrice) > remaining
      {
        return Raised;
      }
      if !(0.0 <= now - scope.refreshStarted <= MAX_AGE) { return Raised; }
      answer := Sent;
    }
  }
}
