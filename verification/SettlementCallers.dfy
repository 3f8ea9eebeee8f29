/**
 The program's own callers of the settlement store (application/order_settlement.py):
 submissions that prepare, place and bind, and polls that observe, any number of them
 interleaved at every access to the store.
 */
module SettlementCallers {
  import opened Wrappers
  import opened SettlementLog
  import opened SettlementScans
  import opened SettlementStores
  import opened SettlementPolling
  import opened SettlementSummaries

  /** Where a process is: between calls, inside a submission it has prepared, or asking about one order. */
  datatype Caller = Idle | Tracking(attempt: Attempt) | Asking(attempt: Attempt, orderId: string)

  datatype Sys = Sys(world: State, callers: map<nat, Caller>)

  const START := Sys(INITIAL, map[])

  /** One access to the store by one process; what the broker answers and what a scan returns is open. */
  datatype Move =
    | Track(process: nat, order: Order)
    | Place(process: nat, orderId: string)
    | Identify(process: nat, permanentId: int)
    | Poll(process: nat, attempt: Attempt, sight: Sight)
    | Answer(process: nat, answer: Outcome, sight: Sight, length: nat)
    | Write(process: nat)
    | Leave(process: nat)

  function CallerOf(s: Sys, p: nat): Caller { if p in s.callers then s.callers[p] else Idle }

  /** What the access does to the store, if anything: a submission that is not prepared binds nothing. */
  function StepsOf(s: Sys, m: Move): seq<Step> {
    var caller := CallerOf(s, m.process);
    match m
    case Track(_, order) => [PrepareOrder(order)]
    case Place(_, id) => if caller.Tracking? then [BindOrder(caller.attempt, id)] else []
    case Identify(_, id) => if caller.Tracking? then [BindPermanent(caller.attempt, id)] else []
    case Poll(_, _, _) => []
    case Answer(p, answer, sight, n) =>
      if caller.Asking? then [Read(p, caller.attempt, Effective(Some(caller.orderId), answer), sight, n)] else []
    case Write(p) => [Claim(p)]
    case Leave(_) => []
  }

  /** The prepared order is in the store: what preparing returns without raising. */
  predicate IsPrepared(w: Store, order: Order) {
    FieldsOk(order) && AttemptOk(order.attemptId) && order.attemptId in w.pending && w.pending[order.attemptId] == order
  }

  /** Where the process is after the access to the store `w`. */
  function CallerAfter(profile: string, s: Sys, w: Store, m: Move): Caller {
    match m
    case Track(_, order) => if IsPrepared(w, order) then Tracking(order.attemptId) else Idle
    case Poll(_, a, sight) =>
      var v := See(w, sight);
      if ScanOk(profile, v) && a in v.pending && BrokerOf(v, a).Some? then Asking(a, BrokerOf(v, a).value) else Idle
    case Leave(_) => Idle
    case _ => CallerOf(s, m.process)
  }

  function Do(profile: string, s: Sys, m: Move): Sys {
    var world := After(profile, s.world, StepsOf(s, m));
    Sys(world, s.callers[m.process := CallerAfter(profile, s, world.store, m)])
  }

  function Run(profile: string, moves: seq<Move>): Sys {
    if moves == [] then START else Do(profile, Run(profile, moves[..|moves| - 1]), moves[|moves| - 1])
  }

  /** The steps that a run of calls takes. */
  function Emitted(profile: string, moves: seq<Move>): seq<Step> {
    if moves == [] then []
    else
      var front, last := moves[..|moves| - 1], moves[|moves| - 1];
      Emitted(profile, front) + StepsOf(Run(profile, front), last)
  }

  ghost predicate OrderlyRun(profile: string, steps: seq<Step>) {
    forall i :: 0 <= i < |steps| ==> Orderly(StateAt(profile, steps, i), steps[i])
  }

  /** A process inside a submission has its pending order. */
  ghost predicate CallersOk(s: Sys) {
    forall p :: p in s.callers && s.callers[p].Tracking? ==> s.callers[p].attempt in s.world.store.pending
  }

  lemma EffectiveNamesItsOrder(id: string, answer: Outcome)
    ensures Effective(Some(id), answer).orderId == Some(id)
  {
  }

  lemma MoveIsOrderly(s: Sys, m: Move)
    requires CallersOk(s)
    ensures |StepsOf(s, m)| <= 1 && forall step :: step in StepsOf(s, m) ==> Orderly(s.world, step)
  {
    hide Effective;
    if m.Answer? && CallerOf(s, m.process).Asking? {
      EffectiveNamesItsOrder(CallerOf(s, m.process).orderId, m.answer);
    }
  }

  lemma MoveGrows(profile: string, s: Sys, m: Move)
    ensures SubStore(s.world.store, Do(profile, s, m).world.store)
  {
    var steps := StepsOf(s, m);
    hide Next, Effective;
    if steps != [] {
      assert steps == [steps[0]];
      OneStep(profile, s.world, steps[0]);
      StepGrows(profile, s.world, steps[0]);
    } else {
      SubStoreOfItself(s.world.store);
    }
  }

  lemma MoveKeepsCallers(profile: string, s: Sys, m: Move)
    requires CallersOk(s)
    ensures CallersOk(Do(profile, s, m))
  {
    MoveGrows(profile, s, m);
    hide After, StepsOf, ScanOk, See, FieldsOk, AttemptOk;
  }

  lemma OrderlySnoc(profile: string, steps: seq<Step>, step: Step)
    requires OrderlyRun(profile, steps) && Orderly(After(profile, INITIAL, steps), step)
    ensures OrderlyRun(profile, steps + [step])
  {
    hide After, Orderly;
    var all := steps + [step];
    forall i | 0 <= i < |all| ensures Orderly(StateAt(profile, all, i), all[i]) {
      assert all[..i] == steps[..i];
      if i < |steps| { assert Orderly(StateAt(profile, steps, i), steps[i]); } else { assert steps[..i] == steps; }
    }
  }

  /** Whatever the callers do, it is a run of the store's own steps, in the intended order of calls. */
  lemma {:induction false} CallersAreOrderly(profile: string, moves: seq<Move>)
    ensures Run(profile, moves).world == After(profile, INITIAL, Emitted(profile, moves))
    ensures OrderlyRun(profile, Emitted(profile, moves)) && CallersOk(Run(profile, moves))
  {
    if moves != [] {
      var front, last := moves[..|moves| - 1], moves[|moves| - 1];
      CallersAreOrderly(profile, front);
      var s, xs := Run(profile, front), Emitted(profile, front);
      var ys := StepsOf(s, last);
      MoveIsOrderly(s, last);
      MoveKeepsCallers(profile, s, last);
      hide After, StepsOf, OrderlyRun, Orderly, CallersOk, CallerAfter;
      AfterJoins(profile, INITIAL, xs, ys);
      if ys != [] {
        assert ys == [ys[0]];
        OrderlySnoc(profile, xs, ys[0]);
      } else {
        assert xs + ys == xs;
      }
    }
  }

  /**
   No interleaving of submissions and polls, with any broker answers and any stale scans,
   ever makes complete scans impossible: within the limit every one of them succeeds.
   */
  lemma CallersNeverStopScans(profile: string, moves: seq<Move>)
    ensures var w := Run(profile, moves).world.store;
            AllNamed(Run(profile, moves).world) && (Size(w) <= SCAN_LIMIT ==> ScanOk(profile, w))
  {
    CallersAreOrderly(profile, moves);
    hide After, Orderly, ScanOk;
    OrderlyRunsNeverRaise(profile, Emitted(profile, moves));
  }

  /** And every summary made of what they wrote is confirmed by the receipt, row by row. */
  lemma CallersReceiptsAgree(profile: string, moves: seq<Move>, v: Store, a: Attempt, r: Record)
    requires SubStore(v, Run(profile, moves).world.store) && ScanOk(profile, v) && RecordMatches(v, a, r)
    ensures var row := RowOf(r);
            && (InBucket(row, InFilled) <==> RowConfirmed(row, false))
            && (InBucket(row, InPartial) ==> (RowConfirmed(row, true) <==> row.filledQuantity.value < row.quantity))
  {
    CallersAreOrderly(profile, moves);
    hide After, Orderly, ScanOk, RecordMatches, SubStore;
    OrderlyReceiptsAgree(profile, Emitted(profile, moves), v, a, r);
  }

  // ---------- exactly what each call does ----------

  /**
   Each call takes exactly its own step in the store, and leaves its process exactly where
   the call leaves it; no other process moves.
   */
  ghost predicate CallDoes(profile: string, s: Sys, m: Move, t: Sys) {
    var caller, after := CallerOf(s, m.process), CallerOf(t, m.process);
    && (forall p :: p != m.process ==> CallerOf(t, p) == CallerOf(s, p))
    && match m
       case Track(_, o) =>
         && t.world == Next(profile, s.world, PrepareOrder(o))
         && after == if && FieldsOk(o) && AttemptOk(o.attemptId)
                        && o.attemptId in t.world.store.pending && t.world.store.pending[o.attemptId] == o
                     then Tracking(o.attemptId) else Idle
       case Place(_, id) =>
         after == caller
         && t.world == if caller.Tracking? then Next(profile, s.world, BindOrder(caller.attempt, id)) else s.world
       case Identify(_, id) =>
         after == caller
         && t.world == if caller.Tracking? then Next(profile, s.world, BindPermanent(caller.attempt, id)) else s.world
       case Poll(_, a, sight) =>
         var v := See(s.world.store, sight);
         && t.world == s.world
         && after == if ScanOk(profile, v) && a in v.pending && a in v.broker then Asking(a, v.broker[a]) else Idle
       case Answer(p, answer, sight, n) =>
         && after == caller && (!caller.Asking? ==> t.world == s.world)
         && (caller.Asking? ==>
               exists o: Outcome ::
                 && o.orderId == Some(caller.orderId) && (answer.orderId == o.orderId ==> o == answer)
                 && (answer.orderId != o.orderId ==> o.status == Unknown && !o.terminal && o.filled == None)
                 && t.world == Next(profile, s.world, Read(p, caller.attempt, o, sight, n)))
       case Write(p) => after == caller && t.world == Next(profile, s.world, Claim(p))
       case Leave(_) => after == Idle && t.world == s.world
  }

  lemma CallIsExact(profile: string, s: Sys, m: Move)
    ensures CallDoes(profile, s, m, Do(profile, s, m))
  {
    var steps, caller := StepsOf(s, m), CallerOf(s, m.process);
    if steps != [] {
      assert steps == [steps[0]];
      OneStep(profile, s.world, steps[0]);
    } else {
      NothingDone(profile, s.world);
    }
    if m.Answer? && caller.Asking? {
      var o := Effective(Some(caller.orderId), m.answer);
      assert Do(profile, s, m).world == Next(profile, s.world, Read(m.process, caller.attempt, o, m.sight, m.length));
    }
    hide After, Next, ScanOk, See, Effective, FieldsOk, AttemptOk;
  }

  lemma NothingDone(profile: string, s: State)
    ensures After(profile, s, []) == s
  {
  }

  // ---------- one submission, seen through ----------

  function Everything(w: Store): Sight { Sight(w.pending.Keys, w.broker.Keys, w.permanent.Keys, w.observed.Keys) }

  /** The store of one bound order with these observations. */
  function OneOrder(order: Order, id: string, observed: map<(Attempt, nat), Observation>): Store {
    Store(map[order.attemptId := order], map[order.attemptId := id], map[], observed)
  }

  /** A process submits an order, asks about it, and records the answer. */
  function Submission(order: Order, id: string, answer: Outcome): seq<Move> {
    var seen := Everything(OneOrder(order, id, map[]));
    [Track(0, order), Place(0, id), Poll(0, order.attemptId, seen), Answer(0, answer, seen, 0), Write(0)]
  }

  lemma BoundOrderScans(profile: string, order: Order, id: string)
    requires Placeable(profile, order)
    ensures var w := OneOrder(order, id, map[]);
            ScanOk(profile, w) && See(w, Everything(w)) == w && IsLength(w, order.attemptId, 0)
  {
    var w := OneOrder(order, id, map[]);
    SeeAll(w);
    assert Size(w) == 2;
  }

  /** A process that has submitted and bound its order. */
  function Submitted(order: Order, id: string): Sys {
    Sys(State(OneOrder(order, id, map[]), map[]), map[0 := Tracking(order.attemptId)])
  }

  lemma SubmittingIsDone(profile: string, order: Order, id: string)
    requires Placeable(profile, order) && OrderIdOk(id)
    ensures Do(profile, Do(profile, START, Track(0, order)), Place(0, id)) == Submitted(order, id)
  {
    var a := order.attemptId;
    hide OrderIdOk, SymbolOk;
    var first := Store(map[a := order], map[], map[], map[]);
    OneStep(profile, INITIAL, PrepareOrder(order));
    assert Do(profile, START, Track(0, order)) == Sys(State(first, map[]), map[0 := Tracking(a)]);
    hide AttemptOk, IsPrepared;
    OneStep(profile, State(first, map[]), BindOrder(a, id));
  }

  lemma AnsweringIsDone(profile: string, order: Order, id: string, answer: Outcome)
    requires Placeable(profile, order) && OrderIdOk(id)
    requires answer.orderId == Some(id) && ValidateOutcome(Some(id), order.quantity, answer) == None
    ensures var a, seen := order.attemptId, Everything(OneOrder(order, id, map[]));
            var asked := Do(profile, Submitted(order, id), Poll(0, a, seen));
            Do(profile, Do(profile, asked, Answer(0, answer, seen, 0)), Write(0)).world.store
            == OneOrder(order, id, map[(a, 1) := Observation(1, answer)])
  {
    var a, w := order.attemptId, OneOrder(order, id, map[]);
    var seen := Everything(w);
    BoundOrderScans(profile, order, id);
    hide ScanOk, See, ValidateOutcome, OrderIdOk, Placeable, Effective, Everything;
    var asking := map[0 := Asking(a, id)];
    NothingDone(profile, State(w, map[]));
    assert Do(profile, Submitted(order, id), Poll(0, a, seen)) == Sys(State(w, map[]), asking);
    var read := Read(0, a, answer, seen, 0);
    OneStep(profile, State(w, map[]), read);
    StepIsExact(profile, State(w, map[]), read);
    var flying := State(w, map[0 := Flight(a, 1, answer)]);
    hide Next;
    assert StepsOf(Sys(State(w, map[]), asking), Answer(0, answer, seen, 0)) == [read];
    assert Do(profile, Sys(State(w, map[]), asking), Answer(0, answer, seen, 0)) == Sys(flying, asking);
    OneStep(profile, flying, Claim(0));
    StepIsExact(profile, flying, Claim(0));
  }

  lemma RunsOn(profile: string, moves: seq<Move>, m: Move)
    ensures Run(profile, moves + [m]) == Do(profile, Run(profile, moves), m)
  {
    assert (moves + [m])[..|moves|] == moves;
  }

  /** Every valid answer about every order that is accepted and bound gets recorded, in the calls' own order. */
  lemma ASubmissionIsRecorded(profile: string, order: Order, id: string, answer: Outcome)
    requires Placeable(profile, order) && OrderIdOk(id)
    requires answer.orderId == Some(id) && ValidateOutcome(Some(id), order.quantity, answer) == None
    ensures Run(profile, Submission(order, id, answer)).world.store
         == OneOrder(order, id, map[(order.attemptId, 1) := Observation(1, answer)])
  {
    SubmittingIsDone(profile, order, id);
    AnsweringIsDone(profile, order, id, answer);
    assert Run(profile, []) == START;
    hide Placeable, OrderIdOk, ValidateOutcome, Run, Do, Submitted, Everything, OneOrder;
    var moves := Submission(order, id, answer);
    assert [] + [moves[0]] == [moves[0]];
    RunsOn(profile, [], moves[0]);
    RunsOn(profile, [moves[0]], moves[1]);
    assert [moves[0]] + [moves[1]] == moves[..2];
    RunsOn(profile, moves[..2], moves[2]);
    assert moves[..2] + [moves[2]] == moves[..3];
    RunsOn(profile, moves[..3], moves[3]);
    assert moves[..3] + [moves[3]] == moves[..4];
    RunsOn(profile, moves[..4], moves[4]);
    assert moves[..4] + [moves[4]] == moves;
  }
}
