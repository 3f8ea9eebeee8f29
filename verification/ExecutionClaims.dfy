/**
 Rebalance cycles that run side by side: the daily execution lock, the account-owner
 fence, the one-shot execution claim and the persistent breaker that stand between a
 cycle and the broker (application/rebalance_service.py, execution_service.py and
 account_new_risk_gate_support.py).

 The lock file, the owner record and the marker are each created atomically if absent.
 Any of these operations may also raise, with or without having taken effect.  Between
 the evaluation that admits an order and the order itself other cycles may act.
 */
module ExecutionClaims {
  import opened Wrappers

  datatype Conf = Conf(
    marker: string, account: Option<string>, owner: string, lockPath: string,
    dryRun: bool, dedup: bool, hasStore: bool, gated: bool)

  datatype Phase = Start | Checked | Locked | OwnerHeld | Claimed | Refused | Ended

  /** What happened: a pass names the place of its own admission. */
  datatype Event =
    | Attempted(cycle: nat)
    | Opened(account: string)
    | Admitted(cycle: nat, account: string, newRisk: bool)
    | Passed(cycle: nat, marker: string, account: string, owner: string, newRisk: bool, admission: nat)

  /** An order that was admitted and has not left yet. */
  datatype Admission = Admission(index: nat, newRisk: bool)

  datatype State = State(
    locks: map<string, nat>, owners: map<string, string>, claims: map<string, nat>, recorded: set<string>,
    breakers: set<string>, phases: map<nat, Phase>, admitted: map<nat, Admission>, history: seq<Event>)

  const INITIAL := State(map[], map[], map[], {}, {}, map[], map[], [])

  /** How one store operation ends for its caller. */
  datatype Fate = Returns | RaisesUndone | RaisesDone

  datatype ReadBack = Truthful | Garbled | Unreadable

  /** One evaluation of the account: what the snapshot says, and how the journal behaves. */
  datatype Evaluation = Evaluation(session: bool, prohibited: bool, hardBrake: bool, write: Fate, read: ReadBack)

  /**
   Every order of a claiming cycle is admitted, except a gated buy that the snapshot, the
   breaker or any doubt about the breaker prohibits; an admitted order is sent later.
   */
  datatype Step =
    | Check(cycle: nat, alreadyRecorded: bool)
    | Lock(cycle: nat, fate: Fate)
    | ClaimOwner(cycle: nat, fate: Fate)
    | ClaimMarker(cycle: nat, fate: Fate)
    | Evaluate(cycle: nat, evaluation: Evaluation)
    | Admit(cycle: nat, newRisk: bool, evaluation: Evaluation)
    | Send(cycle: nat)
    | Finish(cycle: nat, record: bool)

  function PhaseOf(s: State, c: nat): Phase { if c in s.phases then s.phases[c] else Start }

  function Enter(s: State, c: nat, p: Phase): State { s.(phases := s.phases[c := p]) }

  function Log(s: State, e: Event): State { s.(history := s.history + [e]) }

  /** Only a live cycle with deduplication, a marker key and a store can hold a claim. */
  predicate Claimable(k: Conf) { !k.dryRun && k.dedup && k.marker != "" && k.hasStore }

  // ---------- the breaker ----------

  /** The journal's breaker after an evaluation that found it at `open`. */
  predicate BreakerAfter(open: bool, e: Evaluation) {
    open || (e.session && e.hardBrake && e.write != RaisesUndone)
  }

  /** New risk is prohibited by the snapshot, by the breaker, and by every doubt about the breaker. */
  predicate Prohibits(open: bool, e: Evaluation) {
    || !e.session
    || (e.hardBrake && e.write != Returns)
    || e.read != Truthful
    || BreakerAfter(open, e)
    || e.prohibited
  }

  /** Exactly what prohibits: no session, an incomplete write, an untruthful readback, an open breaker, the snapshot. */
  lemma ProhibitsExactly(open: bool, e: Evaluation)
    ensures BreakerAfter(open, e) <==> open || (e.session && e.hardBrake && e.write in {Returns, RaisesDone})
    ensures Prohibits(open, e) <==> !(e.session && e.read == Truthful && !e.hardBrake && !open && !e.prohibited)
    ensures e.hardBrake && e.session && e.write == Returns ==> BreakerAfter(open, e)
  {
  }

  function Judged(s: State, account: string, e: Evaluation): State {
    if account !in s.breakers && BreakerAfter(false, e)
    then Log(s.(breakers := s.breakers + {account}), Opened(account))
    else s
  }

  // ---------- one step of one cycle ----------

  function Next(conf: nat -> Conf, s: State, step: Step): State {
    var c := step.cycle;
    var k := conf(c);
    match step
    case Check(_, already) =>
      if PhaseOf(s, c) != Start then s else Enter(s, c, if already then Ended else Checked)
    case Lock(_, fate) =>
      if PhaseOf(s, c) != Checked then s
      else if fate == RaisesUndone || k.lockPath in s.locks then Enter(s, c, Ended)
      else Enter(s.(locks := s.locks[k.lockPath := c]), c, if fate == Returns then Locked else Ended)
    case ClaimOwner(_, fate) =>
      if PhaseOf(s, c) != Locked then s else Log(Fenced(k, s, c, fate), Attempted(c))
    case ClaimMarker(_, fate) =>
      if PhaseOf(s, c) != OwnerHeld then s
      else if fate == RaisesUndone || k.marker in s.claims || k.marker in s.recorded then Enter(s, c, Refused)
      else Enter(s.(claims := s.claims[k.marker := c]), c, if fate == Returns then Claimed else Refused)
    case Evaluate(_, e) =>
      if k.account == None || !k.gated then s else Judged(s, k.account.value, e)
    case Admit(_, newRisk, e) =>
      if PhaseOf(s, c) != Claimed || k.account == None then s
      else
        var a := k.account.value;
        var t := if newRisk && k.gated then Judged(s, a, e) else s;
        if newRisk && k.gated && Prohibits(a in s.breakers, e) then t else Granted(t, c, a, newRisk)
    case Send(_) =>
      if PhaseOf(s, c) != Claimed || k.account == None || c !in s.admitted then s
      else Log(Taken(s, c), Passed(c, k.marker, k.account.value, k.owner, s.admitted[c].newRisk, s.admitted[c].index))
    case Finish(_, record) =>
      var t := Enter(Taken(s, c), c, Ended);
      if record && k.hasStore && k.marker != "" then t.(recorded := t.recorded + {k.marker}) else t
  }

  /** The owner fence: the first owner of an account keeps it. */
  function Fenced(k: Conf, s: State, c: nat, fate: Fate): State {
    if !Claimable(k) || k.account == None || fate == RaisesUndone then Enter(s, c, Refused)
    else
      var a := k.account.value;
      var u := if a in s.owners then s else s.(owners := s.owners[a := k.owner]);
      Enter(u, c, if fate == Returns && u.owners[a] == k.owner then OwnerHeld else Refused)
  }

  /** An order of cycle `c` is admitted; an earlier one that never left is dropped. */
  function Granted(s: State, c: nat, account: string, newRisk: bool): State {
    Log(s, Admitted(c, account, newRisk)).(admitted := s.admitted[c := Admission(|s.history|, newRisk)])
  }

  function Taken(s: State, c: nat): State { s.(admitted := s.admitted - {c}) }

  function After(conf: nat -> Conf, s: State, steps: seq<Step>): State
    decreases |steps|
  {
    if steps == [] then s else After(conf, Next(conf, s, steps[0]), steps[1..])
  }

  // ---------- the invariant ----------

  /** The claims that back a cycle's submissions; none of them is ever given back. */
  ghost predicate Backed(conf: nat -> Conf, s: State, c: nat) {
    var k := conf(c);
    && k.lockPath in s.locks && s.locks[k.lockPath] == c
    && k.account.Some? && k.account.value in s.owners && s.owners[k.account.value] == k.owner
    && k.marker in s.claims && s.claims[k.marker] == c
    && Claimable(k)
  }

  ghost predicate PhaseOk(conf: nat -> Conf, s: State, c: nat) {
    var k := conf(c);
    match PhaseOf(s, c)
    case Start => true
    case Checked => true
    case Locked => k.lockPath in s.locks && s.locks[k.lockPath] == c
    case OwnerHeld =>
      && k.lockPath in s.locks && s.locks[k.lockPath] == c
      && Claimable(k) && k.account.Some? && k.account.value in s.owners && s.owners[k.account.value] == k.owner
    case Claimed => Backed(conf, s, c)
    case Refused => true
    case Ended => true
  }

  /** The admission at `index` is one of this cycle, account and kind. */
  predicate AdmittedAt(h: seq<Event>, index: nat, cycle: nat, account: string, newRisk: bool) {
    index < |h| && h[index] == Admitted(cycle, account, newRisk)
  }

  ghost predicate EventOk(conf: nat -> Conf, s: State, i: nat)
    requires i < |s.history|
  {
    match s.history[i]
    case Attempted(c) => PhaseOf(s, c) !in {Start, Checked, Locked}
    case Opened(a) => a in s.breakers
    case Admitted(c, a, _) => PhaseOf(s, c) in {Claimed, Ended} && conf(c).account == Some(a)
    case Passed(c, m, a, o, newRisk, admission) =>
      && PhaseOf(s, c) in {Claimed, Ended} && Backed(conf, s, c)
      && m == conf(c).marker && conf(c).account == Some(a) && o == conf(c).owner
      && admission < i && AdmittedAt(s.history, admission, c, a, newRisk)
  }

  /**
   One attempt per cycle; no admission of gated new risk after its breaker opened; no
   admission passes twice.
   */
  ghost predicate PairOk(conf: nat -> Conf, h: seq<Event>, i: nat, j: nat)
    requires i < j < |h|
  {
    && (h[i].Attempted? ==> h[j] != h[i])
    && (h[i].Opened? && h[j].Admitted? && h[j].account == h[i].account && h[j].newRisk ==> !conf(h[j].cycle).gated)
    && (h[i].Passed? && h[j].Passed? && h[i].cycle == h[j].cycle ==> i < h[j].admission)
  }

  /** What is admitted and has not left was admitted after everything of its cycle that left. */
  ghost predicate OutstandingOk(conf: nat -> Conf, s: State, c: nat)
    requires c in s.admitted
  {
    && PhaseOf(s, c) == Claimed && conf(c).account.Some?
    && AdmittedAt(s.history, s.admitted[c].index, c, conf(c).account.value, s.admitted[c].newRisk)
    && NoPassSince(s.history, s.admitted[c].index, c)
  }

  ghost predicate NoPassSince(h: seq<Event>, index: nat, c: nat) {
    forall j :: index < j < |h| && h[j].Passed? ==> h[j].cycle != c
  }

  ghost predicate Inv(conf: nat -> Conf, s: State) {
    && (forall c :: PhaseOk(conf, s, c))
    && (forall i :: 0 <= i < |s.history| ==> EventOk(conf, s, i))
    && (forall i, j :: 0 <= i < j < |s.history| ==> PairOk(conf, s.history, i, j))
    && (forall c :: c in s.admitted ==> OutstandingOk(conf, s, c))
  }

  /** Locks, owners and claims are only ever added. */
  ghost predicate Grows(s: State, t: State) {
    && (forall x :: x in s.locks ==> x in t.locks && t.locks[x] == s.locks[x])
    && (forall x :: x in s.owners ==> x in t.owners && t.owners[x] == s.owners[x])
    && (forall x :: x in s.claims ==> x in t.claims && t.claims[x] == s.claims[x])
    && s.breakers <= t.breakers
  }

  /** The phases one step may take a cycle through. */
  predicate Moves(p: Phase, q: Phase) {
    || p == q || q == Ended
    || (p == Start && q == Checked) || (p == Checked && q == Locked)
    || (p == Locked && q in {OwnerHeld, Refused}) || (p == OwnerHeld && q in {Claimed, Refused})
  }

  // ---------- steps that log nothing, and steps that log one event ----------

  /** `t` differs from `s` in the phase of one cycle, in more claims, and in fewer outstanding admissions. */
  ghost predicate Quiet(conf: nat -> Conf, s: State, t: State, c: nat) {
    && Grows(s, t) && t.history == s.history && PhaseOk(conf, t, c) && Moves(PhaseOf(s, c), PhaseOf(t, c))
    && (forall d :: d != c ==> PhaseOf(t, d) == PhaseOf(s, d))
    && (forall d :: d in t.admitted ==> d in s.admitted && t.admitted[d] == s.admitted[d])
    && (c in t.admitted ==> PhaseOf(t, c) == PhaseOf(s, c))
  }

  lemma PhaseStays(conf: nat -> Conf, s: State, t: State, c: nat)
    requires PhaseOk(conf, s, c) && Grows(s, t) && PhaseOf(t, c) == PhaseOf(s, c)
    ensures PhaseOk(conf, t, c)
  {
  }

  lemma EventStays(conf: nat -> Conf, s: State, t: State, i: nat)
    requires i < |s.history| && EventOk(conf, s, i) && Grows(s, t) && s.history <= t.history
    requires forall c :: Moves(PhaseOf(s, c), PhaseOf(t, c))
    ensures EventOk(conf, t, i)
  {
    hide Grows, Backed;
    if s.history[i].Passed? { BackedStays(conf, s, t, s.history[i].cycle); }
    assert Grows(s, t) ==> s.breakers <= t.breakers by { BreakersStay(s, t); }
  }

  lemma BreakersStay(s: State, t: State)
    ensures Grows(s, t) ==> s.breakers <= t.breakers
  {
  }

  lemma BackedStays(conf: nat -> Conf, s: State, t: State, c: nat)
    requires Grows(s, t)
    ensures Backed(conf, s, c) ==> Backed(conf, t, c)
  {
  }

  lemma QuietKeepsInv(conf: nat -> Conf, s: State, t: State, c: nat)
    requires Inv(conf, s) && Quiet(conf, s, t, c)
    ensures Inv(conf, t)
  {
    hide Grows, PhaseOk, EventOk, PairOk, NoPassSince, AdmittedAt;
    forall d ensures PhaseOk(conf, t, d) && Moves(PhaseOf(s, d), PhaseOf(t, d)) {
      assert PhaseOk(conf, s, d);
      if d != c { PhaseStays(conf, s, t, d); }
    }
    forall i | 0 <= i < |t.history| ensures EventOk(conf, t, i) { EventStays(conf, s, t, i); }
    forall d | d in t.admitted ensures OutstandingOk(conf, t, d) { assert OutstandingOk(conf, s, d); }
  }

  /** What the next event may be. */
  ghost predicate MayLog(conf: nat -> Conf, s: State, e: Event) {
    match e
    case Attempted(c) => PhaseOf(s, c) !in {Start, Checked, Locked} && e !in s.history
    case Opened(a) => a in s.breakers
    case Admitted(c, a, newRisk) =>
      PhaseOf(s, c) == Claimed && conf(c).account == Some(a) && (newRisk && conf(c).gated ==> a !in s.breakers)
    case Passed(c, m, a, o, newRisk, admission) =>
      && PhaseOf(s, c) == Claimed && c !in s.admitted && m == conf(c).marker && conf(c).account == Some(a)
      && o == conf(c).owner && AdmittedAt(s.history, admission, c, a, newRisk) && NoPassSince(s.history, admission, c)
  }

  lemma LastEventOk(conf: nat -> Conf, s: State, e: Event)
    requires Inv(conf, s) && MayLog(conf, s, e)
    ensures EventOk(conf, Log(s, e), |s.history|)
  {
    if e.Passed? { assert PhaseOk(conf, s, e.cycle); }
    hide Inv, NoPassSince;
  }

  lemma LastPairOk(conf: nat -> Conf, s: State, e: Event, i: nat)
    requires Inv(conf, s) && MayLog(conf, s, e) && i < |s.history|
    ensures PairOk(conf, s.history + [e], i, |s.history|)
  {
    assert EventOk(conf, s, i);
    var prior := s.history[i];
    assert prior in s.history;
    if prior.Passed? && e.Passed? && prior.cycle == e.cycle { NotBefore(s.history, i, e); }
    if prior.Opened? { OpenedIsOpen(conf, s, i); }
    hide Inv, EventOk, NoPassSince;
  }

  lemma OpenedIsOpen(conf: nat -> Conf, s: State, i: nat)
    requires Inv(conf, s) && i < |s.history| && s.history[i].Opened?
    ensures s.history[i].account in s.breakers
  {
    assert EventOk(conf, s, i);
  }

  lemma NotBefore(h: seq<Event>, i: nat, e: Event)
    requires e.Passed? && i < |h| && h[i].Passed? && h[i].cycle == e.cycle
    requires AdmittedAt(h, e.admission, e.cycle, e.account, e.newRisk) && NoPassSince(h, e.admission, e.cycle)
    ensures i < e.admission
  {
  }

  lemma OldPairOk(conf: nat -> Conf, h: seq<Event>, e: Event, i: nat, j: nat)
    requires i < j < |h| && PairOk(conf, h, i, j)
    ensures PairOk(conf, h + [e], i, j)
  {
  }

  lemma OutstandingStays(conf: nat -> Conf, s: State, e: Event, c: nat)
    requires c in s.admitted && OutstandingOk(conf, s, c) && (e.Passed? ==> e.cycle != c)
    ensures OutstandingOk(conf, Log(s, e), c)
  {
  }

  lemma LogKeepsInv(conf: nat -> Conf, s: State, e: Event)
    requires Inv(conf, s) && MayLog(conf, s, e)
    ensures Inv(conf, Log(s, e))
  {
    var t := Log(s, e);
    LastEventOk(conf, s, e);
    GrowsNothing(s, e);
    hide EventOk, PairOk, OutstandingOk, PhaseOk, Grows;
    forall c ensures PhaseOk(conf, t, c) { PhaseStays(conf, s, t, c); }
    forall i | 0 <= i < |t.history| ensures EventOk(conf, t, i) {
      if i < |s.history| { EventStays(conf, s, t, i); }
    }
    forall i, j | 0 <= i < j < |t.history| ensures PairOk(conf, t.history, i, j) {
      if j < |s.history| { OldPairOk(conf, s.history, e, i, j); } else { LastPairOk(conf, s, e, i); }
    }
    forall c | c in t.admitted ensures OutstandingOk(conf, t, c) { OutstandingStays(conf, s, e, c); }
  }

  lemma GrowsNothing(s: State, e: Event)
    ensures Grows(s, Log(s, e))
  {
  }

  // ---------- every step keeps the invariant ----------

  lemma JudgedKeepsInv(conf: nat -> Conf, s: State, c: nat, account: string, e: Evaluation)
    requires Inv(conf, s)
    ensures Inv(conf, Judged(s, account, e))
  {
    if account !in s.breakers && BreakerAfter(false, e) {
      var t := s.(breakers := s.breakers + {account});
      assert PhaseOk(conf, s, c);
      assert Quiet(conf, s, t, c) by { hide Inv; }
      hide Quiet, Inv;
      QuietKeepsInv(conf, s, t, c);
      LogKeepsInv(conf, t, Opened(account));
    }
  }

  lemma JudgedOpens(s: State, account: string, e: Evaluation)
    ensures account in Judged(s, account, e).breakers <==> BreakerAfter(account in s.breakers, e)
    ensures forall c :: PhaseOf(Judged(s, account, e), c) == PhaseOf(s, c)
  {
  }

  lemma GrantKeepsInv(conf: nat -> Conf, s: State, c: nat, account: string, newRisk: bool)
    requires Inv(conf, s) && MayLog(conf, s, Admitted(c, account, newRisk))
    ensures Inv(conf, Granted(s, c, account, newRisk))
  {
    var e := Admitted(c, account, newRisk);
    var t, u := Log(s, e), Granted(s, c, account, newRisk);
    LogKeepsInv(conf, s, e);
    assert OutstandingOk(conf, u, c);
    hide MayLog, Log;
    SameButAdmitted(conf, t, u, c);
  }

  lemma SameButAdmitted(conf: nat -> Conf, t: State, u: State, c: nat)
    requires Inv(conf, t) && u == t.(admitted := u.admitted) && c in u.admitted && OutstandingOk(conf, u, c)
    requires forall d :: d in u.admitted && d != c ==> d in t.admitted && u.admitted[d] == t.admitted[d]
    ensures Inv(conf, u)
  {
    forall d ensures PhaseOk(conf, u, d) { assert PhaseOk(conf, t, d); }
    forall i | 0 <= i < |u.history| ensures EventOk(conf, u, i) { assert EventOk(conf, t, i); }
    forall d | d in u.admitted ensures OutstandingOk(conf, u, d) {
      if d != c { assert OutstandingOk(conf, t, d); }
    }
  }

  lemma AdmitKeepsInv(conf: nat -> Conf, s: State, step: Step)
    requires Inv(conf, s) && step.Admit?
    ensures Inv(conf, Next(conf, s, step))
  {
    var c, k, e := step.cycle, conf(step.cycle), step.evaluation;
    if PhaseOf(s, c) == Claimed && k.account.Some? {
      var a := k.account.value;
      var t := if step.newRisk && k.gated then Judged(s, a, e) else s;
      JudgedKeepsInv(conf, s, c, a, e);
      JudgedOpens(s, a, e);
      hide Inv, Judged;
      if !(step.newRisk && k.gated && Prohibits(a in s.breakers, e)) { GrantKeepsInv(conf, t, c, a, step.newRisk); }
    }
  }

  lemma TakingIsQuiet(conf: nat -> Conf, s: State, c: nat)
    requires PhaseOk(conf, s, c)
    ensures Quiet(conf, s, Taken(s, c), c)
  {
  }

  lemma SendKeepsInv(conf: nat -> Conf, s: State, step: Step)
    requires Inv(conf, s) && step.Send?
    ensures Inv(conf, Next(conf, s, step))
  {
    var c, k, t := step.cycle, conf(step.cycle), Taken(s, step.cycle);
    if PhaseOf(s, c) == Claimed && k.account.Some? && c in s.admitted {
      assert OutstandingOk(conf, s, c) && PhaseOk(conf, s, c);
      TakingIsQuiet(conf, s, c);
      var e := Passed(c, k.marker, k.account.value, k.owner, s.admitted[c].newRisk, s.admitted[c].index);
      assert MayLog(conf, t, e) by { hide Inv; }
      hide Inv, Quiet, MayLog;
      QuietKeepsInv(conf, s, t, c);
      LogKeepsInv(conf, t, e);
    }
  }

  lemma FenceKeepsInv(conf: nat -> Conf, s: State, step: Step)
    requires Inv(conf, s) && step.ClaimOwner?
    ensures Inv(conf, Next(conf, s, step))
  {
    var c := step.cycle;
    if PhaseOf(s, c) == Locked {
      var t := Fenced(conf(c), s, c, step.fate);
      NoAttemptYet(conf, s, c);
      FencedIsQuiet(conf, s, c, step.fate);
      hide Inv, Quiet, Fenced;
      QuietKeepsInv(conf, s, t, c);
      LogKeepsInv(conf, t, Attempted(c));
    }
  }

  lemma NoAttemptYet(conf: nat -> Conf, s: State, c: nat)
    requires Inv(conf, s) && PhaseOf(s, c) == Locked
    ensures Attempted(c) !in s.history && c !in s.admitted && PhaseOk(conf, s, c)
  {
    forall i | 0 <= i < |s.history| ensures s.history[i] != Attempted(c) { assert EventOk(conf, s, i); }
    assert c in s.admitted ==> OutstandingOk(conf, s, c);
  }

  lemma FencedIsQuiet(conf: nat -> Conf, s: State, c: nat, fate: Fate)
    requires PhaseOk(conf, s, c) && PhaseOf(s, c) == Locked && c !in s.admitted
    ensures var t := Fenced(conf(c), s, c, fate);
            Quiet(conf, s, t, c) && t.history == s.history && PhaseOf(t, c) in {OwnerHeld, Refused}
  {
    var k := conf(c);
    hide Quiet;
    if !Claimable(k) || k.account == None || fate == RaisesUndone {
      EnteringIsQuiet(conf, s, s, c, Refused);
    } else {
      var a := k.account.value;
      var u := if a in s.owners then s else s.(owners := s.owners[a := k.owner]);
      EnteringIsQuiet(conf, s, u, c, if fate == Returns && u.owners[a] == k.owner then OwnerHeld else Refused);
    }
  }

  /** Entering another phase, with more claims and no outstanding admission. */
  lemma EnteringIsQuiet(conf: nat -> Conf, s: State, u: State, c: nat, p: Phase)
    requires Grows(s, u) && u.history == s.history && u.phases == s.phases && u.admitted == s.admitted - {c}
    requires PhaseOk(conf, Enter(u, c, p), c) && Moves(PhaseOf(s, c), p)
    ensures Quiet(conf, s, Enter(u, c, p), c)
  {
    hide PhaseOk, Moves;
  }

  lemma CheckIsQuiet(conf: nat -> Conf, s: State, step: Step)
    requires PhaseOk(conf, s, step.cycle) && (step.cycle in s.admitted ==> PhaseOf(s, step.cycle) == Claimed)
    requires step.Check?
    ensures Quiet(conf, s, Next(conf, s, step), step.cycle)
  {
    var c := step.cycle;
    if PhaseOf(s, c) == Start {
      EnteringIsQuiet(conf, s, s, c, if step.alreadyRecorded then Ended else Checked);
    }
  }

  lemma LockIsQuiet(conf: nat -> Conf, s: State, step: Step)
    requires PhaseOk(conf, s, step.cycle) && (step.cycle in s.admitted ==> PhaseOf(s, step.cycle) == Claimed)
    requires step.Lock?
    ensures Quiet(conf, s, Next(conf, s, step), step.cycle)
  {
    var c, k := step.cycle, conf(step.cycle);
    hide Quiet;
    if PhaseOf(s, c) != Checked {
      NothingIsQuiet(conf, s, c);
    } else if step.fate == RaisesUndone || k.lockPath in s.locks {
      EnteringIsQuiet(conf, s, s, c, Ended);
    } else {
      var u := s.(locks := s.locks[k.lockPath := c]);
      EnteringIsQuiet(conf, s, u, c, if step.fate == Returns then Locked else Ended);
    }
  }

  lemma NothingIsQuiet(conf: nat -> Conf, s: State, c: nat)
    requires PhaseOk(conf, s, c)
    ensures Quiet(conf, s, s, c)
  {
  }

  lemma MarkerIsQuiet(conf: nat -> Conf, s: State, step: Step)
    requires PhaseOk(conf, s, step.cycle) && (step.cycle in s.admitted ==> PhaseOf(s, step.cycle) == Claimed)
    requires step.ClaimMarker?
    ensures Quiet(conf, s, Next(conf, s, step), step.cycle)
  {
    var c, k := step.cycle, conf(step.cycle);
    hide Quiet;
    if PhaseOf(s, c) != OwnerHeld {
      NothingIsQuiet(conf, s, c);
    } else if step.fate == RaisesUndone || k.marker in s.claims || k.marker in s.recorded {
      EnteringIsQuiet(conf, s, s, c, Refused);
    } else {
      var u := s.(claims := s.claims[k.marker := c]);
      EnteringIsQuiet(conf, s, u, c, if step.fate == Returns then Claimed else Refused);
    }
  }

  lemma FinishIsQuiet(conf: nat -> Conf, s: State, step: Step)
    requires PhaseOk(conf, s, step.cycle) && step.Finish?
    ensures Quiet(conf, s, Next(conf, s, step), step.cycle)
  {
    var c, k := step.cycle, conf(step.cycle);
    var recorded := if step.record && k.hasStore && k.marker != "" then s.recorded + {k.marker} else s.recorded;
    var u := s.(admitted := s.admitted - {c}, recorded := recorded);
    hide Quiet;
    EnteringIsQuiet(conf, s, u, c, Ended);
    assert Next(conf, s, step) == Enter(u, c, Ended);
  }

  lemma StepKeepsInv(conf: nat -> Conf, s: State, step: Step)
    requires Inv(conf, s)
    ensures Inv(conf, Next(conf, s, step))
  {
    var c := step.cycle;
    assert PhaseOk(conf, s, c);
    assert c in s.admitted ==> OutstandingOk(conf, s, c);
    hide Inv, PhaseOk, Quiet, Judged;
    if step.Admit? {
      AdmitKeepsInv(conf, s, step);
    } else if step.Send? {
      SendKeepsInv(conf, s, step);
    } else if step.ClaimOwner? {
      FenceKeepsInv(conf, s, step);
    } else if step.Evaluate? {
      if conf(c).account.Some? { JudgedKeepsInv(conf, s, c, conf(c).account.value, step.evaluation); }
    } else {
      hide Next;
      match step {
        case Check(_, _) => CheckIsQuiet(conf, s, step);
        case Lock(_, _) => LockIsQuiet(conf, s, step);
        case ClaimMarker(_, _) => MarkerIsQuiet(conf, s, step);
        case Finish(_, _) => FinishIsQuiet(conf, s, step);
        case _ =>
      }
      QuietKeepsInv(conf, s, Next(conf, s, step), c);
    }
  }

  lemma StepMoves(conf: nat -> Conf, s: State, step: Step)
    ensures forall c :: c != step.cycle ==> PhaseOf(Next(conf, s, step), c) == PhaseOf(s, c)
  {
    hide Judged, Prohibits, Claimable;
    if conf(step.cycle).account.Some? && (step.Admit? || step.Evaluate?) {
      JudgedShape(s, conf(step.cycle).account.value, step.evaluation);
    }
  }

  lemma StepAppends(conf: nat -> Conf, s: State, step: Step)
    ensures s.history <= Next(conf, s, step).history
  {
    hide Judged, Prohibits, Claimable, PhaseOf;
    if conf(step.cycle).account.Some? && (step.Admit? || step.Evaluate?) {
      JudgedShape(s, conf(step.cycle).account.value, step.evaluation);
    }
  }

  lemma JudgedShape(s: State, account: string, e: Evaluation)
    ensures var t := Judged(s, account, e);
            t.phases == s.phases && (t.history == s.history || t.history == s.history + [Opened(account)])
  {
  }

  lemma {:induction false} RunKeepsInv(conf: nat -> Conf, s: State, steps: seq<Step>)
    requires Inv(conf, s)
    ensures Inv(conf, After(conf, s, steps))
    ensures s.history <= After(conf, s, steps).history
    decreases |steps|
  {
    hide Inv, Next;
    if steps != [] {
      StepKeepsInv(conf, s, steps[0]);
      StepAppends(conf, s, steps[0]);
      RunKeepsInv(conf, Next(conf, s, steps[0]), steps[1..]);
    }
  }
}
