/**
 Which scans of the settlement store succeed (application/order_settlement.py): of any
 part of a reachable store, of the whole store, and over whole runs, in which callers
 may bind late, observe before they bind, or bind before they prepare.
 */
module SettlementScans {
  import opened Wrappers
  import opened SettlementLog

  // ---------- scanning a part ----------

  /** A view that holds, with every entry, what had to be there when the entry was created. */
  ghost predicate CausallyClosed(v: Store) {
    && Prepared(v)
    && (forall k :: k in v.observed ==> PredecessorsOf(v, k.0, k.1))
  }

  /** Every bound attempt has its pending order. */
  ghost predicate Prepared(v: Store) {
    (forall a :: a in v.broker ==> a in v.pending) && (forall a :: a in v.permanent ==> a in v.pending)
  }

  /** The pending order, the same binding as when the entry was observed, and the entry before it. */
  predicate PredecessorsOf(v: Store, a: Attempt, n: nat)
    requires (a, n) in v.observed
  {
    a in v.pending && BrokerOf(v, a) == v.observed[(a, n)].outcome.orderId && (n > 1 ==> (a, n - 1) in v.observed)
  }

  /**
   Scanning any part of any reachable store fails exactly when the part is over the
   scan limit, has a gap, or binds an attempt otherwise than its observations say.
   */
  lemma ScanFailsExactlyOnGaps(profile: string, s: State, v: Store)
    requires Reachable(profile, s) && SubStore(v, s.store)
    ensures ScanOk(profile, v) <==> Size(v) <= SCAN_LIMIT && CausallyClosed(v)
  {
    ReachableInv(profile, s);
    InvHasWellFormed(profile, s);
    hide *;
    PartIdentities(profile, s.store, v);
    PartEntries(profile, s.store, v);
    ScanOfParts(profile, v);
  }

  lemma PartEntries(profile: string, w: Store, v: Store)
    requires WellFormed(profile, w) && SubStore(v, w)
    ensures forall k {:trigger EntryOk(v, k.0, k.1)} {:trigger PredecessorsOf(v, k.0, k.1)} :: k in v.observed ==>
              (EntryOk(v, k.0, k.1) <==> PredecessorsOf(v, k.0, k.1))
  {
    hide EntryOk, PredecessorsOf, FitsAt, OrderIdOk, Placeable;
    forall k | k in v.observed ensures EntryOk(v, k.0, k.1) <==> PredecessorsOf(v, k.0, k.1) {
      assert StoredFits(w, k.0, k.1);
      EntryOkExactly(w, v, k.0, k.1);
    }
  }

  lemma ScanOfParts(profile: string, v: Store)
    requires IdentitiesOk(profile, v) <==> Prepared(v) && (forall k :: k in v.observed ==> k.0 in v.pending)
    requires forall k {:trigger EntryOk(v, k.0, k.1)} {:trigger PredecessorsOf(v, k.0, k.1)} :: k in v.observed ==>
               (EntryOk(v, k.0, k.1) <==> PredecessorsOf(v, k.0, k.1))
    ensures ScanOk(profile, v) <==> Size(v) <= SCAN_LIMIT && CausallyClosed(v)
  {
    hide IdentitiesOk, EntryOk, Prepared;
    assert forall k :: k in v.observed && PredecessorsOf(v, k.0, k.1) ==> k.0 in v.pending;
  }

  lemma PartIdentities(profile: string, w: Store, v: Store)
    requires WellFormed(profile, w) && SubStore(v, w)
    ensures IdentitiesOk(profile, v) <==> Prepared(v) && (forall k :: k in v.observed ==> k.0 in v.pending)
  {
    hide OrderIdOk, StoredFits, FieldsOk;
  }

  lemma EntryOkExactly(w: Store, v: Store, a: Attempt, n: nat)
    requires SubStore(v, w) && (a, n) in v.observed
    requires StoredFits(w, a, n)
    ensures EntryOk(v, a, n) <==> PredecessorsOf(v, a, n)
  {
  }

  // ---------- scanning the whole store ----------

  /** An attempt that was observed while nothing was known of its binding. */
  predicate Orderless(w: Store, a: Attempt) {
    (a, 1) in w.observed && w.observed[(a, 1)].outcome.orderId.None?
  }

  ghost predicate Spoiled(w: Store) { exists a :: a in w.broker && Orderless(w, a) }

  /** A complete scan raises exactly over the limit, on a binding without its order, or on a bound orderless log. */
  lemma CompleteScansExactly(profile: string, s: State)
    requires Reachable(profile, s)
    ensures ScanOk(profile, s.store) <==> Size(s.store) <= SCAN_LIMIT && Prepared(s.store) && !Spoiled(s.store)
  {
    ReachableInv(profile, s);
    InvHasWellFormed(profile, s);
    ScanFailsExactlyOnGaps(profile, s, s.store);
    hide WellFormed, ScanOk, Prepared;
    var w := s.store;
    forall k | k in w.observed ensures PredecessorsOf(w, k.0, k.1) <==> !(k.0 in w.broker && Orderless(w, k.0)) {
      PredecessorsExactly(profile, w, k.0, k.1);
    }
    if a :| a in w.broker && Orderless(w, a) { assert !PredecessorsOf(w, (a, 1).0, (a, 1).1); }
  }

  lemma PredecessorsExactly(profile: string, w: Store, a: Attempt, n: nat)
    requires WellFormed(profile, w) && (a, n) in w.observed
    ensures PredecessorsOf(w, a, n) <==> !(a in w.broker && Orderless(w, a))
  {
    assert StoredFits(w, a, n);
    Dense(profile, w, a, 1, n);
  }

  // ---------- scanning over a run ----------

  /** Binding an attempt after it was observed, or observing it without its order after it was bound. */
  predicate Spoils(s: State, step: Step) {
    match step
    case BindOrder(a, id) =>
      AttemptOk(a) && OrderIdOk(id) && a !in s.store.broker && (a, 1) in s.store.observed
    case Claim(p) =>
      && p in s.flights && s.flights[p].outcome.orderId.None? && s.flights[p].attempt in s.store.broker
      && (s.flights[p].attempt, s.flights[p].sequence) !in s.store.observed
    case _ => false
  }

  lemma UnboundIsOrderless(profile: string, w: Store, a: Attempt)
    requires WellFormed(profile, w) && a !in w.broker && (a, 1) in w.observed
    ensures Orderless(w, a)
  {
    assert StoredFits(w, a, 1);
  }

  lemma StepSpoils(profile: string, s: State, step: Step)
    requires Inv(profile, s)
    ensures Spoiled(Next(profile, s, step).store) <==> Spoiled(s.store) || Spoils(s, step)
  {
    InvHasWellFormed(profile, s);
    hide WellFormed, OrderIdOk, AttemptOk, Placeable, ReadAndDecide;
    match step
    case BindOrder(a, id) =>
      if a !in s.store.broker && (a, 1) in s.store.observed { UnboundIsOrderless(profile, s.store, a); }
      BindSpoils(profile, s, a, id);
    case Claim(p) =>
      ClaimSpoils(profile, s, p);
    case _ =>
  }

  lemma BindSpoils(profile: string, s: State, a: Attempt, id: string)
    requires a !in s.store.broker && (a, 1) in s.store.observed ==> Orderless(s.store, a)
    ensures var step := BindOrder(a, id);
            Spoiled(Next(profile, s, step).store) <==> Spoiled(s.store) || Spoils(s, step)
  {
    hide OrderIdOk, AttemptOk;
    var t := Next(profile, s, BindOrder(a, id));
    if b :| b in s.store.broker && Orderless(s.store, b) { assert b in t.store.broker && Orderless(t.store, b); }
    if Spoils(s, BindOrder(a, id)) { assert a in t.store.broker && Orderless(t.store, a); }
  }

  lemma ClaimSpoils(profile: string, s: State, p: nat)
    requires Inv(profile, s)
    ensures Spoiled(Next(profile, s, Claim(p)).store) <==> Spoiled(s.store) || Spoils(s, Claim(p))
  {
    InvHasWellFormed(profile, s);
    var t := Next(profile, s, Claim(p));
    if p in s.flights {
      var f := s.flights[p];
      assert FitsAt(s.store, f.attempt, f.sequence, f.outcome);
      hide Inv, WellFormed, FitsAt;
      CreatedGrows(s.store, f);
      if b :| b in s.store.broker && Orderless(s.store, b) { assert b in t.store.broker && Orderless(t.store, b); }
      if Spoils(s, Claim(p)) { LateEntrySpoils(profile, s, p); }
    }
  }

  /** The entry that a spoiling claim creates is the first of its log, or the log was spoiled before. */
  lemma LateEntrySpoils(profile: string, s: State, p: nat)
    requires Inv(profile, s) && Spoils(s, Claim(p))
    ensures Spoiled(Next(profile, s, Claim(p)).store)
  {
    InvHasWellFormed(profile, s);
    var f, t := s.flights[p], Next(profile, s, Claim(p));
    assert FitsAt(s.store, f.attempt, f.sequence, f.outcome);
    hide Inv, WellFormed, ValidateOutcome;
    if f.sequence > 1 { Dense(profile, s.store, f.attempt, 1, f.sequence - 1); }
    assert Orderless(t.store, f.attempt) && f.attempt in t.store.broker;
  }

  /** The state of a run after its first i steps. */
  function StateAt(profile: string, steps: seq<Step>, i: nat): State
    requires i <= |steps|
  {
    After(profile, INITIAL, steps[..i])
  }

  lemma OneStep(profile: string, s: State, x: Step)
    ensures After(profile, s, [x]) == Next(profile, s, x)
  {
    hide Next;
    assert [x][1..] == [];
  }

  lemma AtNext(profile: string, steps: seq<Step>, i: nat)
    requires i < |steps|
    ensures StateAt(profile, steps, i + 1) == Next(profile, StateAt(profile, steps, i), steps[i])
    ensures Inv(profile, StateAt(profile, steps, i))
  {
    assert steps[..i + 1] == steps[..i] + [steps[i]];
    AfterJoins(profile, INITIAL, steps[..i], [steps[i]]);
    OneStep(profile, StateAt(profile, steps, i), steps[i]);
    RunKeepsInv(profile, INITIAL, steps[..i]);
  }

  lemma {:induction false} RunSpoils(profile: string, steps: seq<Step>, n: nat)
    requires n <= |steps|
    ensures Spoiled(StateAt(profile, steps, n).store) <==>
              exists i :: 0 <= i < n && Spoils(StateAt(profile, steps, i), steps[i])
  {
    hide Spoils, Spoiled, Next, Inv;
    if n == 0 {
      assert steps[..0] == [];
      NothingSpoiled();
    } else {
      RunSpoils(profile, steps, n - 1);
      AtNext(profile, steps, n - 1);
      StepSpoils(profile, StateAt(profile, steps, n - 1), steps[n - 1]);
    }
  }

  lemma NothingSpoiled()
    ensures !Spoiled(INITIAL.store)
  {
  }

  /**
   Over every run, callers in whatever order: complete scans are still possible at the end
   exactly when the store is within the limit, every bound attempt is prepared, and no step
   bound an attempt after it was observed or observed it without its order after it was bound.
   */
  lemma ScansStayPossibleExactly(profile: string, steps: seq<Step>)
    ensures var w := After(profile, INITIAL, steps).store;
            ScanOk(profile, w) <==>
              && Size(w) <= SCAN_LIMIT && Prepared(w)
              && forall i :: 0 <= i < |steps| ==> !Spoils(StateAt(profile, steps, i), steps[i])
  {
    hide Spoils, Spoiled, ScanOk, Prepared;
    var s := After(profile, INITIAL, steps);
    assert steps[..|steps|] == steps;
    assert Reachable(profile, s);
    CompleteScansExactly(profile, s);
    RunSpoils(profile, steps, |steps|);
  }

  /** A bind is of a prepared attempt; an outcome names an order, so it is accepted only where the bind is seen. */
  predicate Orderly(s: State, step: Step) {
    match step
    case BindOrder(a, _) => a in s.store.pending
    case BindPermanent(a, _) => a in s.store.pending
    case Read(_, _, o, _, _) => o.orderId.Some?
    case _ => true
  }

  ghost predicate AllNamed(s: State) {
    && Prepared(s.store)
    && (forall k :: k in s.store.observed ==> s.store.observed[k].outcome.orderId.Some?)
    && (forall p :: p in s.flights ==> s.flights[p].outcome.orderId.Some?)
  }

  lemma OrderlyKeepsNames(profile: string, s: State, step: Step)
    requires AllNamed(s) && Orderly(s, step)
    ensures AllNamed(Next(profile, s, step))
  {
    hide ReadAndDecide, OrderIdOk, AttemptOk, Placeable;
  }

  lemma {:induction false} OrderlyRunsName(profile: string, steps: seq<Step>, n: nat)
    requires n <= |steps| && forall i :: 0 <= i < n ==> Orderly(StateAt(profile, steps, i), steps[i])
    ensures AllNamed(StateAt(profile, steps, n))
  {
    hide Orderly, Next, Inv;
    if n > 0 {
      OrderlyRunsName(profile, steps, n - 1);
      AtNext(profile, steps, n - 1);
      OrderlyKeepsNames(profile, StateAt(profile, steps, n - 1), steps[n - 1]);
    }
  }

  /**
   When binds are of prepared attempts and every outcome names its order, a complete read
   within the limit raises no record, sequence, order or history error, in any run and
   whatever observers read.
   */
  lemma OrderlyRunsNeverRaise(profile: string, steps: seq<Step>)
    requires forall i :: 0 <= i < |steps| ==> Orderly(StateAt(profile, steps, i), steps[i])
    ensures AllNamed(After(profile, INITIAL, steps))
    ensures var w := After(profile, INITIAL, steps).store;
            Size(w) <= SCAN_LIMIT ==> ScanOk(profile, w)
  {
    hide Orderly, ScanOk, Next;
    var s := After(profile, INITIAL, steps);
    OrderlyRunsName(profile, steps, |steps|);
    assert steps[..|steps|] == steps;
    assert Reachable(profile, s);
    CompleteScansExactly(profile, s);
  }

  // ---------- binding one attempt ----------

  /**
   Binding an unbound attempt keeps a scannable store scannable exactly when the attempt
   has no observation yet.
   */
  lemma BindingIsSafeExactlyBeforeObserving(profile: string, w: Store, a: Attempt, id: string)
    requires ScanOk(profile, w) && a in w.pending && a !in w.broker && Size(w) < SCAN_LIMIT
    ensures ScanOk(profile, w.(broker := w.broker[a := id])) <==> forall k :: k in w.observed ==> k.0 != a
  {
    var t := w.(broker := w.broker[a := id]);
    forall k | k in w.observed ensures EntryOk(t, k.0, k.1) <==> k.0 != a {
      assert EntryOk(w, k.0, k.1);
    }
    assert |t.broker| == |w.broker| + 1;
  }

  // ---------- two runs ----------

  /** The store after one order was prepared, then bound or not, then observed or not. */
  function Small(order: Order, bound: bool, observed: seq<Outcome>): Store
    requires |observed| <= 1
  {
    var a := order.attemptId;
    Store(map[a := order], if bound then map[a := "7"] else map[], map[],
          if observed == [] then map[] else map[(a, 1) := Observation(1, observed[0])])
  }

  function UnknownOutcome(orderId: Option<string>, filled: Option<real>): Outcome {
    Outcome(orderId, Unknown, filled, None, None, None, None, false, [])
  }

  lemma SeeAll(w: Store)
    ensures See(w, Sight(w.pending.Keys, w.broker.Keys, w.permanent.Keys, w.observed.Keys)) == w
  {
  }

  lemma SmallScans(profile: string, order: Order, bound: bool, observed: seq<Outcome>)
    requires Placeable(profile, order) && |observed| <= 1
    requires forall o :: o in observed ==> o == UnknownOutcome(if bound then Some("7") else None, o.filled)
    ensures ScanOk(profile, Small(order, bound, observed))
  {
    hide Placeable;
    assert order.strategy == profile by { StrategyIsProfile(profile, order); }
    var w, a := Small(order, bound, observed), order.attemptId;
    if observed != [] {
      assert observed[0] in observed;
      assert EntryOk(w, a, 1);
      assert forall k :: k in w.observed ==> k == (a, 1);
    }
  }

  lemma StrategyIsProfile(profile: string, order: Order)
    requires Placeable(profile, order)
    ensures order.strategy == profile && AttemptOk(order.attemptId)
  {
  }

  lemma SevenIsAnId()
    ensures OrderIdOk("7")
  {
    assert "7"[0] == '7';
  }

  /** One observer reads the whole small store, and creates its first entry. */
  lemma FirstObservation(profile: string, order: Order, bound: bool, o: Outcome) returns (steps: seq<Step>)
    requires Placeable(profile, order) && o == UnknownOutcome(if bound then Some("7") else None, o.filled)
    ensures var s := State(Small(order, bound, []), map[]);
            After(profile, s, steps) == State(Small(order, bound, [o]), map[])
  {
    var a, w := order.attemptId, Small(order, bound, []);
    var s := State(w, map[]);
    var read := Read(0, a, o, Sight(w.pending.Keys, w.broker.Keys, w.permanent.Keys, w.observed.Keys), 0);
    SmallScans(profile, order, bound, []);
    SeeAll(w);
    assert ReadAndDecide(profile, w, a, o, 0) == Append(1) by { hide ScanOk; }
    var s1 := Next(profile, s, read);
    assert s1 == State(w, map[0 := Flight(a, 1, o)]) by { hide ReadAndDecide, See; }
    var s2 := Next(profile, s1, Claim(0));
    assert s2 == State(Small(order, bound, [o]), map[]) by { SmallClaimed(order, bound, o); }
    steps := [read, Claim(0)];
    TwoSteps(profile, s, read, Claim(0));
  }

  lemma SmallClaimed(order: Order, bound: bool, o: Outcome)
    ensures Created(Small(order, bound, []), Flight(order.attemptId, 1, o)) == Small(order, bound, [o])
    ensures map[0 := Flight(order.attemptId, 1, o)] - {0} == map[]
  {
  }

  lemma TwoSteps(profile: string, s: State, x: Step, y: Step)
    ensures After(profile, s, [x, y]) == Next(profile, Next(profile, s, x), y)
  {
    hide Next;
    AfterJoins(profile, s, [x], [y]);
    OneStep(profile, s, x);
    OneStep(profile, Next(profile, s, x), y);
    assert [x] + [y] == [x, y];
  }

  lemma SmallStart(profile: string, order: Order)
    requires Placeable(profile, order)
    ensures After(profile, INITIAL, [PrepareOrder(order)]) == State(Small(order, false, []), map[])
    ensures Next(profile, State(Small(order, false, []), map[]), BindOrder(order.attemptId, "7"))
         == State(Small(order, true, []), map[])
  {
    hide Placeable;
    SevenIsAnId();
    StrategyIsProfile(profile, order);
    hide OrderIdOk, AttemptOk;
    var s := Next(profile, INITIAL, PrepareOrder(order));
    assert s == State(Small(order, false, []), map[]);
    assert [PrepareOrder(order)][1..] == [];
  }

  /**
   For any order there is a run, in the intended order of calls, whose reported fill falls
   below the zero of no observation: an unknown outcome is accepted with any figure.
   */
  lemma AnUnknownOutcomeMayOpenBelowZero(profile: string, order: Order) returns (steps: seq<Step>)
    requires Placeable(profile, order)
    ensures var s, a := After(profile, INITIAL, steps), order.attemptId;
            && IsLength(s.store, a, 1) && HasFirst(s.store, a, 1)
            && ReportedFill(s.store, a, 1) < ReportedFill(s.store, a, 0) && !FillsGrow(s.store, a, 1)
  {
    var a, o := order.attemptId, UnknownOutcome(Some("7"), Some(-5.0));
    SmallStart(profile, order);
    var s0, s1 := State(Small(order, false, []), map[]), State(Small(order, true, []), map[]);
    var rest := FirstObservation(profile, order, true, o);
    hide After, Next, Placeable;
    var prefix := [PrepareOrder(order)] + [BindOrder(a, "7")];
    AfterJoins(profile, INITIAL, [PrepareOrder(order)], [BindOrder(a, "7")]);
    OneStep(profile, s0, BindOrder(a, "7"));
    AfterJoins(profile, INITIAL, prefix, rest);
    steps := prefix + rest;
    var w := Small(order, true, [o]);
    assert After(profile, INITIAL, steps) == State(w, map[]);
    assert HasFirst(w, a, 1) && ReportedFill(w, a, 1) == -5.0 && ReportedFill(w, a, 0) == 0.0;
  }

  /**
   For any order there is a run that observes it before it is bound, after which the store
   still scans; once it is bound, no later scan of the whole store succeeds, whatever any
   process does.
   */
  lemma BindingAfterObservingStopsScans(profile: string, order: Order) returns (steps: seq<Step>)
    requires Placeable(profile, order)
    ensures ScanOk(profile, After(profile, INITIAL, steps).store)
    ensures var bound := Next(profile, After(profile, INITIAL, steps), BindOrder(order.attemptId, "7"));
            forall more :: !ScanOk(profile, After(profile, bound, more).store)
  {
    var a, o := order.attemptId, UnknownOutcome(None, None);
    SmallStart(profile, order);
    var rest := FirstObservation(profile, order, false, o);
    AfterJoins(profile, INITIAL, [PrepareOrder(order)], rest);
    steps := [PrepareOrder(order)] + rest;
    var s := State(Small(order, false, [o]), map[]);
    assert After(profile, INITIAL, steps) == s;
    SmallScans(profile, order, false, [o]);
    SevenIsAnId();
    StrategyIsProfile(profile, order);
    var t := Next(profile, s, BindOrder(a, "7"));
    assert Spoiled(t.store) by {
      hide OrderIdOk, AttemptOk;
      assert a in t.store.broker && Orderless(t.store, a);
    }
    hide After, Next, ScanOk, Spoiled, Placeable;
    forall more ensures !ScanOk(profile, After(profile, t, more).store) {
      AfterJoins(profile, INITIAL, steps, [BindOrder(a, "7")]);
      OneStep(profile, s, BindOrder(a, "7"));
      SpoiledForGood(profile, steps + [BindOrder(a, "7")], more);
    }
  }

  /** An observer that does not see the binding decides on an orderless outcome. */
  lemma StaleDecision(profile: string, order: Order) returns (read: Step)
    requires Placeable(profile, order)
    ensures Next(profile, State(Small(order, true, []), map[]), read)
         == State(Small(order, true, []), map[0 := Flight(order.attemptId, 1, UnknownOutcome(None, None))])
  {
    var a, o, w, v := order.attemptId, UnknownOutcome(None, None), Small(order, true, []), Small(order, false, []);
    var sight := Sight({a}, {}, {}, {});
    assert See(w, sight) == v;
    SmallScans(profile, order, false, []);
    assert ReadAndDecide(profile, v, a, o, 0) == Append(1) by { hide ScanOk; }
    read := Read(0, a, o, sight, 0);
    hide ReadAndDecide, See;
  }

  /**
   For any order there is a run that prepares and binds before any observation, and still: an
   observer that does not see the binding decides on an outcome without an order id, and
   once it creates that entry no later scan of the whole store succeeds.
   */
  lemma AnOrderlessEntryStopsScans(profile: string, order: Order) returns (steps: seq<Step>)
    requires Placeable(profile, order)
    ensures var s := After(profile, INITIAL, steps);
            && ScanOk(profile, s.store) && order.attemptId in s.store.broker && Spoils(s, Claim(0))
            && forall more :: !ScanOk(profile, After(profile, Next(profile, s, Claim(0)), more).store)
  {
    var a, o := order.attemptId, UnknownOutcome(None, None);
    var bound := State(Small(order, true, []), map[]);
    var s := State(Small(order, true, []), map[0 := Flight(a, 1, o)]);
    var read := StaleDecision(profile, order);
    SmallStart(profile, order);
    SmallScans(profile, order, true, []);
    steps := [PrepareOrder(order)] + [BindOrder(a, "7"), read];
    AfterJoins(profile, INITIAL, [PrepareOrder(order)], [BindOrder(a, "7"), read]);
    TwoSteps(profile, State(Small(order, false, []), map[]), BindOrder(a, "7"), read);
    assert After(profile, INITIAL, steps) == s by { hide Next, After; }
    var t := Next(profile, s, Claim(0));
    SmallClaimed(order, true, o);
    assert t.store == Small(order, true, [o]);
    assert Spoiled(t.store) by { assert a in t.store.broker && Orderless(t.store, a); }
    hide After, Next, ScanOk, Spoiled, Placeable;
    forall more ensures !ScanOk(profile, After(profile, t, more).store) {
      AfterJoins(profile, INITIAL, steps, [Claim(0)]);
      OneStep(profile, s, Claim(0));
      SpoiledForGood(profile, steps + [Claim(0)], more);
    }
  }

  lemma SpoiledForGood(profile: string, steps: seq<Step>, more: seq<Step>)
    requires Spoiled(After(profile, INITIAL, steps).store)
    ensures !ScanOk(profile, After(profile, After(profile, INITIAL, steps), more).store)
  {
    var s := After(profile, INITIAL, steps);
    RunKeepsInv(profile, INITIAL, steps);
    RunKeepsInv(profile, s, more);
    AfterJoins(profile, INITIAL, steps, more);
    hide Inv, ScanOk, Prepared;
    var t := After(profile, s, more);
    assert Reachable(profile, t);
    var a :| a in s.store.broker && Orderless(s.store, a);
    assert a in t.store.broker && Orderless(t.store, a);
    CompleteScansExactly(profile, t);
  }
}
