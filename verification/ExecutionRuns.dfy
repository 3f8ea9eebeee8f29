/**
 What holds of every interleaving of rebalance cycles: one source per marker, account and
 lock, no retried claims, silence after a refusal, and which buys an open breaker still
 lets leave.
 */
module ExecutionRuns {
  import opened Wrappers
  import opened ExecutionClaims

  ghost function Reached(conf: nat -> Conf, steps: seq<Step>): State { After(conf, INITIAL, steps) }

  /**
   In every interleaving, submissions for one marker key come from one cycle, those for
   one account carry one owner, and those under one lock file come from one cycle.
   */
  lemma SubmissionsHaveOneSource(conf: nat -> Conf, steps: seq<Step>, i: nat, j: nat)
    requires var h := Reached(conf, steps).history; i < |h| && j < |h| && h[i].Passed? && h[j].Passed?
    ensures var h := Reached(conf, steps).history;
            && (h[i].marker == h[j].marker ==> h[i].cycle == h[j].cycle)
            && (h[i].account == h[j].account ==> h[i].owner == h[j].owner)
            && (conf(h[i].cycle).lockPath == conf(h[j].cycle).lockPath ==> h[i].cycle == h[j].cycle)
            && !conf(h[i].cycle).dryRun
  {
    RunKeepsInv(conf, INITIAL, steps);
    var s := Reached(conf, steps);
    assert EventOk(conf, s, i) && EventOk(conf, s, j);
  }

  /** A cycle tries to claim at most once, however its first try ended. */
  lemma ClaimIsNeverRetried(conf: nat -> Conf, steps: seq<Step>, i: nat, j: nat)
    requires var h := Reached(conf, steps).history; i < |h| && j < |h| && h[i].Attempted? && h[j] == h[i]
    ensures i == j
  {
    RunKeepsInv(conf, INITIAL, steps);
    var h := Reached(conf, steps).history;
    assert i < j ==> PairOk(conf, h, i, j);
    assert j < i ==> PairOk(conf, h, j, i);
  }

  lemma ClosedCyclesStaySilent(conf: nat -> Conf, s: State, step: Step, c: nat)
    requires PhaseOf(s, c) in {Refused, Ended}
    ensures PhaseOf(Next(conf, s, step), c) in {Refused, Ended}
    ensures forall e :: e in Next(conf, s, step).history && e.Passed? && e.cycle == c ==> e in s.history
  {
    hide Judged, Prohibits, Claimable;
    if conf(step.cycle).account.Some? && (step.Admit? || step.Evaluate?) {
      JudgedShape(s, conf(step.cycle).account.value, step.evaluation);
    }
    StepMoves(conf, s, step);
  }

  lemma {:induction false} ClosedCyclesNeverSubmit(conf: nat -> Conf, s: State, steps: seq<Step>, c: nat)
    requires PhaseOf(s, c) in {Refused, Ended}
    ensures forall e :: e in After(conf, s, steps).history && e.Passed? && e.cycle == c ==> e in s.history
    decreases |steps|
  {
    hide Next;
    if steps != [] {
      ClosedCyclesStaySilent(conf, s, steps[0], c);
      ClosedCyclesNeverSubmit(conf, Next(conf, s, steps[0]), steps[1..], c);
    }
  }

  /** A cycle whose claim failed or raised has submitted nothing, and never will. */
  lemma RefusedCyclesNeverSubmit(conf: nat -> Conf, steps: seq<Step>, more: seq<Step>, c: nat)
    requires PhaseOf(Reached(conf, steps), c) == Refused
    ensures forall e :: e in After(conf, Reached(conf, steps), more).history && e.Passed? ==> e.cycle != c
  {
    RunKeepsInv(conf, INITIAL, steps);
    var s := Reached(conf, steps);
    ClosedCyclesNeverSubmit(conf, s, more, c);
    forall e | e in s.history && e.Passed? ensures e.cycle != c {
      var i :| 0 <= i < |s.history| && s.history[i] == e;
      assert EventOk(conf, s, i);
    }
  }

  /** Once a breaker is recorded open, no evaluation admits a gated buy for that account any more. */
  lemma OpenBreakerStopsNewRisk(conf: nat -> Conf, steps: seq<Step>, i: nat, j: nat)
    requires var h := Reached(conf, steps).history;
             i < j < |h| && h[i].Opened? && h[j].Admitted? && h[j].account == h[i].account && conf(h[j].cycle).gated
    ensures !Reached(conf, steps).history[j].newRisk
  {
    RunKeepsInv(conf, INITIAL, steps);
    assert PairOk(conf, Reached(conf, steps).history, i, j);
  }

  /** A gated buy that leaves after its breaker opened was admitted before. */
  lemma LateBuysWereAdmittedBefore(conf: nat -> Conf, steps: seq<Step>, i: nat, j: nat)
    requires var h := Reached(conf, steps).history;
             && i < j < |h| && h[i].Opened? && h[j].Passed? && h[j].account == h[i].account
             && h[j].newRisk && conf(h[j].cycle).gated
    ensures var h := Reached(conf, steps).history;
            h[j].admission < i && AdmittedAt(h, h[j].admission, h[j].cycle, h[j].account, true)
  {
    RunKeepsInv(conf, INITIAL, steps);
    var s := Reached(conf, steps);
    assert EventOk(conf, s, j);
    if i < s.history[j].admission { OpenBreakerStopsNewRisk(conf, steps, i, s.history[j].admission); }
  }

  /** And each cycle has at most one such buy. */
  lemma OneLateBuyPerCycle(conf: nat -> Conf, steps: seq<Step>, i: nat, j: nat, k: nat)
    requires var h := Reached(conf, steps).history;
             && i < j < |h| && i < k < |h| && h[i].Opened? && h[j].Passed? && h[k].Passed? && h[j].cycle == h[k].cycle
             && h[j].account == h[i].account && h[j].newRisk && h[k].newRisk && conf(h[j].cycle).gated
    ensures j == k
  {
    RunKeepsInv(conf, INITIAL, steps);
    var s := Reached(conf, steps);
    assert EventOk(conf, s, j) && EventOk(conf, s, k);
    LateBuysWereAdmittedBefore(conf, steps, i, j);
    LateBuysWereAdmittedBefore(conf, steps, i, k);
    assert j < k ==> PairOk(conf, s.history, j, k);
    assert k < j ==> PairOk(conf, s.history, k, j);
  }

  /**
   Exactly which gated buy of a cycle still leaves once its breaker is open: the one that
   was admitted before the opening and has not left yet.
   */
  lemma LateBuyLeavesExactly(conf: nat -> Conf, steps: seq<Step>, i: nat, c: nat)
    requires var s := Reached(conf, steps);
             && i < |s.history| && conf(c).account.Some? && conf(c).gated
             && s.history[i] == Opened(conf(c).account.value)
    ensures var s := Reached(conf, steps);
            var h := Next(conf, s, Send(c)).history;
            (|h| > |s.history| && h[|h| - 1].Passed? && h[|h| - 1].newRisk)
            <==> c in s.admitted && s.admitted[c].newRisk && s.admitted[c].index < i
  {
    RunKeepsInv(conf, INITIAL, steps);
    var s := Reached(conf, steps);
    if c in s.admitted {
      assert OutstandingOk(conf, s, c);
      var index := s.admitted[c].index;
      if s.admitted[c].newRisk && i < index { OpenBreakerStopsNewRisk(conf, steps, i, index); }
    }
  }

  // ---------- exactly how a cycle advances ----------

  /** Where one step takes its own cycle, phase by phase. */
  lemma CycleAdvancesExactly(conf: nat -> Conf, s: State, step: Step)
    ensures var c := step.cycle;
            var k, before, after := conf(c), PhaseOf(s, c), PhaseOf(Next(conf, s, step), c);
            match step
            case Check(_, recorded) => after == if before != Start then before else if recorded then Ended else Checked
            case Lock(_, fate) =>
              after == if before != Checked then before
                       else if fate == Returns && k.lockPath !in s.locks then Locked else Ended
            case ClaimOwner(_, fate) =>
              after == if before != Locked then before
                       else if && !k.dryRun && k.dedup && k.marker != "" && k.hasStore && k.account.Some?
                               && fate == Returns
                               && (k.account.value in s.owners ==> s.owners[k.account.value] == k.owner)
                            then OwnerHeld else Refused
            case ClaimMarker(_, fate) =>
              after == if before != OwnerHeld then before
                       else if fate == Returns && k.marker !in s.claims && k.marker !in s.recorded then Claimed
                       else Refused
            case Finish(_, _) => after == Ended
            case _ => after == before
  {
    hide Prohibits;
    if conf(step.cycle).account.Some? && (step.Admit? || step.Evaluate?) {
      JudgedShape(s, conf(step.cycle).account.value, step.evaluation);
    }
    hide Judged;
  }

  /** A live cycle with deduplication, a marker key, a store and an account. */
  ghost predicate MayClaim(k: Conf) { !k.dryRun && k.dedup && k.marker != "" && k.hasStore && k.account.Some? }

  /** The lock goes to the first cycle that checked, even when its write raises once done. */
  lemma LockIsExact(conf: nat -> Conf, s: State, c: nat, fate: Fate)
    ensures var t, path := Next(conf, s, Lock(c, fate)), conf(c).lockPath;
            var takes := PhaseOf(s, c) == Checked && fate in {Returns, RaisesDone} && path !in s.locks;
            t == s.(phases := t.phases, locks := if takes then s.locks[path := c] else s.locks)
  {
  }

  /** The account goes to its first owner; the attempt is logged whatever comes of it. */
  lemma OwnerIsExact(conf: nat -> Conf, s: State, c: nat, fate: Fate)
    ensures var t, k, held := Next(conf, s, ClaimOwner(c, fate)), conf(c), PhaseOf(s, c) == Locked;
            var takes := held && MayClaim(k) && fate in {Returns, RaisesDone} && k.account.value !in s.owners;
            t == s.(phases := t.phases, owners := if takes then s.owners[k.account.value := k.owner] else s.owners,
                    history := if held then s.history + [Attempted(c)] else s.history)
  {
  }

  /** The marker goes to the first cycle that holds the account, unless its claim or its record is there. */
  lemma MarkerIsExact(conf: nat -> Conf, s: State, c: nat, fate: Fate)
    ensures var t, marker := Next(conf, s, ClaimMarker(c, fate)), conf(c).marker;
            var takes := && PhaseOf(s, c) == OwnerHeld && fate in {Returns, RaisesDone}
                         && marker !in s.claims && marker !in s.recorded;
            t == s.(phases := t.phases, claims := if takes then s.claims[marker := c] else s.claims)
  {
  }

  /** What leaves is the order that is admitted, once, under the claims of its cycle. */
  lemma SendIsExact(conf: nat -> Conf, s: State, c: nat)
    ensures var t, k := Next(conf, s, Send(c)), conf(c);
            if PhaseOf(s, c) == Claimed && k.account.Some? && c in s.admitted then
              t == s.(admitted := s.admitted - {c}, history := s.history + [
                        Passed(c, k.marker, k.account.value, k.owner, s.admitted[c].newRisk, s.admitted[c].index)])
            else t == s
  {
  }

  /** The end of a cycle drops what it has not sent, and records its marker when asked to. */
  lemma FinishIsExact(conf: nat -> Conf, s: State, c: nat, record: bool)
    ensures var t, k := Next(conf, s, Finish(c, record)), conf(c);
            t == s.(phases := t.phases, admitted := s.admitted - {c},
                    recorded := s.recorded + (if record && k.hasStore && k.marker != "" then {k.marker} else {}))
  {
  }

  /** An evaluation outside an order changes nothing but the breaker that it opens, and logs that it did. */
  lemma EvaluationIsExact(conf: nat -> Conf, s: State, c: nat, e: Evaluation)
    ensures var t, k := Next(conf, s, Evaluate(c, e)), conf(c);
            if && k.account.Some? && k.gated && k.account.value !in s.breakers
               && e.session && e.hardBrake && e.write != RaisesUndone
            then t == s.(breakers := s.breakers + {k.account.value}, history := s.history + [Opened(k.account.value)])
            else t == s
  {
  }

  /**
   Exactly which orders of a claiming cycle are admitted: sells, buys of an ungated cycle, and
   gated buys judged in a session, on a truthful readback of a closed breaker, without a
   breach or a prohibiting snapshot.
   */
  lemma AdmittedExactly(conf: nat -> Conf, s: State, c: nat, newRisk: bool, e: Evaluation)
    requires PhaseOf(s, c) == Claimed && conf(c).account.Some?
    ensures var a, t := conf(c).account.value, Next(conf, s, Admit(c, newRisk, e));
            var clear := e.session && e.read == Truthful && !e.hardBrake && a !in s.breakers && !e.prohibited;
            if !newRisk || !conf(c).gated || clear then
              && t.history == s.history + [Admitted(c, a, newRisk)]
              && t.admitted == s.admitted[c := Admission(|s.history|, newRisk)] && t.breakers == s.breakers
            else
              && t.admitted == s.admitted
              && var opens := a !in s.breakers && e.session && e.hardBrake && e.write != RaisesUndone;
                 && t.breakers == s.breakers + (if opens then {a} else {})
                 && t.history == s.history + (if opens then [Opened(a)] else [])
  {
    var a := conf(c).account.value;
    ProhibitsExactly(a in s.breakers, e);
    ProhibitsExactly(false, e);
    hide Prohibits, BreakerAfter;
  }

  /** Every step that admits a gated buy is an evaluation that nothing spoke against. */
  lemma AdmissionsAreCleared(conf: nat -> Conf, s: State, step: Step, i: nat)
    requires var h := Next(conf, s, step).history;
             |s.history| <= i < |h| && h[i].Admitted? && h[i].newRisk && conf(h[i].cycle).gated
    ensures Clears(conf, s, step, Next(conf, s, step).history[i])
  {
    hide Prohibits, Claimable;
    if conf(step.cycle).account.Some? && (step.Admit? || step.Evaluate?) {
      JudgedShape(s, conf(step.cycle).account.value, step.evaluation);
      ProhibitsExactly(conf(step.cycle).account.value in s.breakers, step.evaluation);
    }
    hide Judged;
  }

  /** The evaluation behind an admission: in a session, truthfully read back, no breach, breaker closed. */
  ghost predicate Clears(conf: nat -> Conf, s: State, step: Step, e: Event) {
    && e.Admitted? && step.Admit? && step.cycle == e.cycle && step.newRisk == e.newRisk
    && conf(e.cycle).account == Some(e.account) && PhaseOf(s, e.cycle) == Claimed
    && step.evaluation.session && step.evaluation.read == Truthful && !step.evaluation.hardBrake
    && !step.evaluation.prohibited && e.account !in s.breakers
  }

  /** Over every run, each admitted gated buy came from an evaluation that nothing spoke against. */
  lemma {:induction false} AdmittedBuysWereCleared(conf: nat -> Conf, steps: seq<Step>, i: nat)
    requires var h := Reached(conf, steps).history;
             i < |h| && h[i].Admitted? && h[i].newRisk && conf(h[i].cycle).gated
    ensures exists j: nat :: j < |steps| && Clears(conf, Reached(conf, steps[..j]), steps[j],
                                                   Reached(conf, steps).history[i])
    decreases |steps|
  {
    hide Next, Clears;
    assert steps == [] ==> Reached(conf, steps) == INITIAL;
    if steps != [] {
      var front, last := steps[..|steps| - 1], steps[|steps| - 1];
      assert steps == front + [last];
      RunsJoin(conf, INITIAL, front, [last]);
      OneStep(conf, Reached(conf, front), last);
      StepAppends(conf, Reached(conf, front), last);
      if i < |Reached(conf, front).history| {
        AdmittedBuysWereCleared(conf, front, i);
        var j: nat :| j < |front| && Clears(conf, Reached(conf, front[..j]), front[j], Reached(conf, front).history[i]);
        assert front[..j] == steps[..j] && front[j] == steps[j];
      } else {
        AdmissionsAreCleared(conf, Reached(conf, front), last, i);
      }
    }
  }

  // ---------- a run with a late buy ----------

  /** Cycle `c` claims its marker for account `a`, alone. */
  function ClaimingSteps(c: nat): seq<Step> {
    [Check(c, false), Lock(c, Returns), ClaimOwner(c, Returns), ClaimMarker(c, Returns)]
  }

  /** The state once cycle `c` holds its claim, alone. */
  function AloneClaimed(k: Conf, c: nat, a: string): State {
    State(map[k.lockPath := c], map[a := k.owner], map[k.marker := c], {}, {}, map[c := Claimed], map[], [Attempted(c)])
  }

  lemma {:induction false} RunsJoin(conf: nat -> Conf, s: State, xs: seq<Step>, ys: seq<Step>)
    ensures After(conf, s, xs + ys) == After(conf, After(conf, s, xs), ys)
    decreases |xs|
  {
    hide Next;
    if xs == [] {
      assert xs + ys == ys;
    } else {
      assert (xs + ys)[1..] == xs[1..] + ys;
      RunsJoin(conf, Next(conf, s, xs[0]), xs[1..], ys);
    }
  }

  lemma OneStep(conf: nat -> Conf, s: State, x: Step)
    ensures After(conf, s, [x]) == Next(conf, s, x)
  {
    hide Next;
    assert [x][1..] == [];
  }

  lemma TwoSteps(conf: nat -> Conf, s: State, x: Step, y: Step)
    ensures After(conf, s, [x, y]) == Next(conf, Next(conf, s, x), y)
  {
    hide Next;
    RunsJoin(conf, s, [x], [y]);
    OneStep(conf, s, x);
    OneStep(conf, Next(conf, s, x), y);
    assert [x] + [y] == [x, y];
  }

  lemma LockedAlone(conf: nat -> Conf, c: nat)
    ensures After(conf, INITIAL, [Check(c, false), Lock(c, Returns)])
         == AloneLocked(conf(c), c)
  {
    TwoSteps(conf, INITIAL, Check(c, false), Lock(c, Returns));
    assert Next(conf, INITIAL, Check(c, false)) == INITIAL.(phases := map[c := Checked]);
    assert map[c := Checked][c := Locked] == map[c := Locked];
  }

  lemma ClaimedAlone(conf: nat -> Conf, c: nat, a: string)
    requires Claimable(conf(c)) && conf(c).account == Some(a)
    ensures After(conf, INITIAL, ClaimingSteps(c)) == AloneClaimed(conf(c), c, a)
  {
    var xs, ys := [Check(c, false), Lock(c, Returns)], [ClaimOwner(c, Returns), ClaimMarker(c, Returns)];
    assert ClaimingSteps(c) == xs + ys;
    LockedAlone(conf, c);
    OwnedAlone(conf, c, a);
    MarkedAlone(conf, c, a);
    hide *;
    RunsJoin(conf, INITIAL, xs, ys);
    TwoSteps(conf, AloneLocked(conf(c), c), ys[0], ys[1]);
  }

  function AloneLocked(k: Conf, c: nat): State {
    INITIAL.(locks := map[k.lockPath := c], phases := map[c := Locked])
  }

  function AloneOwned(k: Conf, c: nat, a: string): State {
    AloneLocked(k, c).(owners := map[a := k.owner], phases := map[c := OwnerHeld], history := [Attempted(c)])
  }

  lemma MarkedAlone(conf: nat -> Conf, c: nat, a: string)
    ensures Next(conf, AloneOwned(conf(c), c, a), ClaimMarker(c, Returns)) == AloneClaimed(conf(c), c, a)
  {
    assert map[c := OwnerHeld][c := Claimed] == map[c := Claimed];
  }

  lemma OwnedAlone(conf: nat -> Conf, c: nat, a: string)
    requires Claimable(conf(c)) && conf(c).account == Some(a)
    ensures Next(conf, AloneLocked(conf(c), c), ClaimOwner(c, Returns)) == AloneOwned(conf(c), c, a)
  {
    assert map[c := Locked][c := OwnerHeld] == map[c := OwnerHeld];
    assert [] + [Attempted(c)] == [Attempted(c)];
  }

  const CALM := Evaluation(true, false, false, Returns, Truthful)
  const BREACH := Evaluation(true, true, true, Returns, Truthful)

  /**
   Whatever the configuration: with two gated cycles on one account, one of which can claim,
   there is a run in which the other opens the breaker between the admission of a buy and
   the buy, and the buy leaves.
   */
  lemma ABuyMayLeaveAfterTheBreakerOpened(conf: nat -> Conf, c: nat, d: nat, a: string) returns (steps: seq<Step>)
    requires Claimable(conf(c)) && conf(c).gated && conf(c).account == Some(a)
    requires conf(d).gated && conf(d).account == Some(a)
    ensures Reached(conf, steps).history
         == [Attempted(c), Admitted(c, a, true), Opened(a), Passed(c, conf(c).marker, a, conf(c).owner, true, 1)]
  {
    var s := AloneClaimed(conf(c), c, a);
    var s1 := Next(conf, s, Admit(c, true, CALM));
    var s2 := Next(conf, s1, Evaluate(d, BREACH));
    var xs, ys := [Admit(c, true, CALM), Evaluate(d, BREACH)], [Send(c)];
    ClaimedAlone(conf, c, a);
    AdmittedAlone(conf, c, a);
    OpenedBeside(conf, c, d, a);
    SentLate(conf, c, a);
    hide *;
    steps := ClaimingSteps(c) + (xs + ys);
    RunsJoin(conf, INITIAL, ClaimingSteps(c), xs + ys);
    RunsJoin(conf, s, xs, ys);
    TwoSteps(conf, s, xs[0], xs[1]);
    OneStep(conf, s2, ys[0]);
    ReachedIsAfter(conf, steps);
  }

  lemma ReachedIsAfter(conf: nat -> Conf, steps: seq<Step>)
    ensures Reached(conf, steps) == After(conf, INITIAL, steps)
  {
  }

  /** The buy is admitted, and has not left. */
  function AloneAdmitted(k: Conf, c: nat, a: string): State {
    var s := AloneClaimed(k, c, a);
    s.(history := s.history + [Admitted(c, a, true)], admitted := map[c := Admission(1, true)])
  }

  lemma AdmittedAlone(conf: nat -> Conf, c: nat, a: string)
    requires conf(c).account == Some(a)
    ensures Next(conf, AloneClaimed(conf(c), c, a), Admit(c, true, CALM)) == AloneAdmitted(conf(c), c, a)
  {
    var s := AloneClaimed(conf(c), c, a);
    assert s.admitted[c := Admission(1, true)] == map[c := Admission(1, true)];
  }

  /** And the breaker is open. */
  function AloneLate(k: Conf, c: nat, a: string): State {
    var s := AloneAdmitted(k, c, a);
    s.(history := s.history + [Opened(a)], breakers := {a})
  }

  lemma OpenedBeside(conf: nat -> Conf, c: nat, d: nat, a: string)
    requires conf(d).gated && conf(d).account == Some(a)
    ensures Next(conf, AloneAdmitted(conf(c), c, a), Evaluate(d, BREACH)) == AloneLate(conf(c), c, a)
  {
    assert {} + {a} == {a};
  }

  lemma SentLate(conf: nat -> Conf, c: nat, a: string)
    requires conf(c).account == Some(a)
    ensures Next(conf, AloneLate(conf(c), c, a), Send(c)).history
         == [Attempted(c), Admitted(c, a, true), Opened(a), Passed(c, conf(c).marker, a, conf(c).owner, true, 1)]
  {
  }
}
