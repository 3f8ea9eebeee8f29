/**
 The settlement store as its callers use it: scanning, preparing, binding, observing
 and polling.  Other processes act between any two accesses of a method; what they do
 is a parameter, and every contract holds for all of it.
 */
module SettlementStores {
  import opened Wrappers
  import opened SettlementLog

  const OBSERVE_ATTEMPTS := 8

  datatype Record = Record(order: Order, orderId: Option<string>, permanentId: Option<int>, observations: seq<Outcome>)

  /** `r` says exactly what `v` holds about attempt `a`. */
  predicate RecordMatches(v: Store, a: Attempt, r: Record) {
    && a in v.pending && r.order == v.pending[a]
    && r.orderId == BrokerOf(v, a)
    && r.permanentId == (if a in v.permanent then Some(v.permanent[a]) else None)
    && IsLength(v, a, |r.observations|)
    && LogIs(v, a, r.observations)
  }

  /** The n-th outcome of a log, counted from 1. */
  function At(log: seq<Outcome>, n: nat): Outcome
    requires 1 <= n <= |log|
  {
    log[n - 1]
  }

  predicate LogIs(v: Store, a: Attempt, log: seq<Outcome>) {
    forall n: nat {:trigger At(log, n)} {:trigger (a, n) in v.observed} ::
      1 <= n <= |log| ==> (a, n) in v.observed && v.observed[(a, n)].outcome == At(log, n)
  }

  predicate IsTerminal(r: Record) {
    |r.observations| > 0 && r.observations[|r.observations| - 1].terminal
  }

  function LastSeen(r: Record): Option<Outcome> {
    if r.observations == [] then None else Some(At(r.observations, |r.observations|))
  }

  function DecideFrom(r: Record, data: Outcome): Decision {
    Decide(r.orderId, r.order.quantity, |r.observations|, LastSeen(r), data)
  }

  /** What other processes do around one try of an observer, and what its scan returns. */
  datatype Round = Round(before: seq<Step>, sight: Sight, between: seq<Step>)

  /** `data` is in the log of `a`, or a terminal entry has made it obsolete. */
  ghost predicate Recorded(w: Store, a: Attempt, data: Outcome) {
    exists n: nat :: (a, n) in w.observed
      && (w.observed[(a, n)].outcome == data || (w.observed[(a, n)].outcome.terminal && !data.terminal))
  }

  /** Every observation of `a` is in order. */
  ghost predicate LogOk(v: Store, a: Attempt) {
    forall n: nat {:trigger EntryOk(v, a, n)} :: (a, n) in v.observed ==> EntryOk(v, a, n)
  }

  /** Scans are possible only without gaps, so an entry has all entries before it. */
  lemma {:induction false} ScannedDense(v: Store, a: Attempt, i: nat, j: nat)
    requires LogOk(v, a)
    requires (a, j) in v.observed && 1 <= i <= j
    ensures (a, i) in v.observed
    decreases j - i
  {
    if i < j {
      assert EntryOk(v, a, j);
      ScannedDense(v, a, i, j - 1);
    }
  }

  class Clock {
    var now: real
    var ticks: nat
    /** The sleeps that were asked for. */
    var naps: seq<real>
    const drift: nat -> real

    constructor (start: real, drift: nat -> real)
      ensures now == start && naps == [] && this.drift == drift
    {
      now, ticks, naps := start, 0, [];
      this.drift := drift;
    }

    /** Time only moves forward. */
    method Monotonic() returns (t: real)
      modifies this
      ensures t == now >= old(now) && naps == old(naps)
    {
      var d := drift(ticks);
      now, ticks := if d > 0.0 then now + d else now, ticks + 1;
      t := now;
    }

    /** A sleep lasts at least as long as requested. */
    method Sleep(seconds: real)
      requires seconds >= 0.0
      modifies this
      ensures now >= old(now) + seconds && naps == old(naps) + [seconds]
    {
      naps := naps + [seconds];
      var d := drift(ticks);
      now, ticks := if d > 0.0 then now + seconds + d else now + seconds, ticks + 1;
    }
  }

  class SettlementStore {
    const profile: string
    /** The shared store, and the observers of other processes that are about to write to it. */
    var world: State

    constructor (profile: string)
      ensures this.profile == profile && world == INITIAL
    {
      this.profile := profile;
      world := INITIAL;
    }

    method Interfere(steps: seq<Step>)
      modifies this
      ensures world == After(profile, old(world), steps)
    {
      var i := 0;
      while i < |steps|
        invariant 0 <= i <= |steps|
        invariant After(profile, world, steps[i..]) == After(profile, old(world), steps)
      {
        world := Next(profile, world, steps[i]);
        i := i + 1;
      }
    }

    /** All observations of one attempt, in order; fails exactly when one of them is not in order. */
    static method Observations(v: Store, a: Attempt) returns (r: Result<seq<Outcome>, Error>)
      requires a in v.pending
      ensures r.Success? <==> LogOk(v, a)
      ensures r.Success? ==> IsLength(v, a, |r.value|)
      ensures r.Success? ==> LogIs(v, a, r.value)
    {
      var left: set<(Attempt, nat)> := set k | k in v.observed.Keys && k.0 == a;
      var log: seq<Outcome> := [];
      while left != {}
        invariant forall k :: k in left ==> k in v.observed && k.0 == a
        invariant forall n: nat :: (a, n) in v.observed && (a, n) !in left ==> 1 <= n <= |log|
        invariant forall n: nat {:trigger EntryOk(v, a, n)} ::
                    (a, n) in v.observed && (a, n) !in left ==> EntryOk(v, a, n)
        invariant LogIs(v, a, log)
        invariant forall n: nat :: (a, n) in left ==> !(1 <= n <= |log|)
        decreases |left|
      {
        var n := |log| + 1;
        if (a, n) !in left {
          ghost var k :| k in left;
          ghost var m: nat := k.1;
          assert (a, m) == k;
          if m > n && LogOk(v, a) {
            ScannedDense(v, a, n, m);
          }
          assert LogOk(v, a) ==> EntryOk(v, a, m);
          return Failure(SequenceInvalid);
        }
        var entry := v.observed[(a, n)];
        if entry.sequence != n { assert !EntryOk(v, a, n); return Failure(SequenceInvalid); }
        var invalid := ValidateOutcome(BrokerOf(v, a), v.pending[a].quantity, entry.outcome);
        if invalid.Some? { assert !EntryOk(v, a, n); return Failure(invalid.value); }
        if n > 1 {
          if !HistoryOk(At(log, n - 1), entry.outcome) { assert !EntryOk(v, a, n); return Failure(HistoryInvalid); }
        }
        left := left - {(a, n)};
        ghost var before := log;
        log := log + [entry.outcome];
        forall m: nat | 1 <= m <= |log|
          ensures (a, m) in v.observed && v.observed[(a, m)].outcome == At(log, m)
        {
          if m < n { assert At(before, m) == At(log, m); }
        }
      }
      if log != [] { ghost var newest := At(log, |log|); }
      r := Success(log);
    }

    /** Names, strategies, and a pending order for everything mentioned. */
    method CheckIdentities(v: Store) returns (error: Option<Error>)
      ensures error == None <==> IdentitiesOk(profile, v)
    {
      if exists a :: a in v.pending && (v.pending[a].attemptId != a || v.pending[a].strategy != profile) {
        return Some(RecordInvalid);
      }
      var mentioned := v.broker.Keys + v.permanent.Keys + (set k | k in v.observed.Keys :: k.0);
      error := if mentioned <= v.pending.Keys then None else Some(PendingMissing);
      if error == None {
        forall k | k in v.observed ensures k.0 in v.pending { assert k.0 in mentioned; }
      }
    }

    /** The record of one pending attempt. */
    static method RecordOf(v: Store, a: Attempt) returns (r: Result<Record, Error>)
      requires a in v.pending
      ensures r.Success? <==> LogOk(v, a)
      ensures r.Success? ==> RecordMatches(v, a, r.value)
    {
      var log := Observations(v, a);
      if log.Failure? { return Failure(log.error); }
      var permanentId := if a in v.permanent then Some(v.permanent[a]) else None;
      r := Success(Record(v.pending[a], BrokerOf(v, a), permanentId, log.value));
    }

    static method Collect(v: Store) returns (r: Result<map<Attempt, Record>, Error>)
      requires forall k :: k in v.observed ==> k.0 in v.pending
      ensures r.Success? <==> forall k {:trigger EntryOk(v, k.0, k.1)} :: k in v.observed ==> EntryOk(v, k.0, k.1)
      ensures r.Success? ==> r.value.Keys == v.pending.Keys
      ensures r.Success? ==> forall a :: a in r.value ==> RecordMatches(v, a, r.value[a])
    {
      var records: map<Attempt, Record> := map[];
      var todo := v.pending.Keys;
      while todo != {}
        invariant todo <= v.pending.Keys && records.Keys == v.pending.Keys - todo
        invariant forall a :: a in records ==> RecordMatches(v, a, records[a])
        invariant forall k {:trigger EntryOk(v, k.0, k.1)} :: k in v.observed && k.0 in records ==> EntryOk(v, k.0, k.1)
        decreases |todo|
      {
        var a :| a in todo;
        var record := RecordOf(v, a);
        if record.Failure? {
          ghost var n: nat :| (a, n) in v.observed && !EntryOk(v, a, n);
          assert !EntryOk(v, (a, n).0, (a, n).1);
          return Failure(record.error);
        }
        records := records[a := record.value];
        todo := todo - {a};
        forall k | k in v.observed && k.0 in records ensures EntryOk(v, k.0, k.1) {
          if k.0 == a { assert k == (a, k.1); }
        }
      }
      r := Success(records);
    }

    /** One complete scan: succeeds exactly on views without gaps or errors, with one record per pending order. */
    method Records(v: Store) returns (r: Result<map<Attempt, Record>, Error>)
      ensures r.Success? <==> ScanOk(profile, v)
      ensures r.Success? ==> r.value.Keys == v.pending.Keys
      ensures r.Success? ==> forall a :: a in r.value ==> RecordMatches(v, a, r.value[a])
    {
      if Size(v) > SCAN_LIMIT { return Failure(ScanIncomplete); }
      var wrong := CheckIdentities(v);
      if wrong.Some? { return Failure(wrong.value); }
      r := Collect(v);
    }

    /** Create-once: success means the fields are good and the stored order is this one, for good. */
    method Prepare(order: Order) returns (r: Result<bool, Error>)
      requires order.strategy == profile
      modifies this
      ensures world == Next(profile, old(world), PrepareOrder(order))
      ensures r.Success? <==>
                && FieldsOk(order) && AttemptOk(order.attemptId)
                && (order.attemptId in old(world.store.pending) ==> old(world.store.pending)[order.attemptId] == order)
      ensures r.Success? ==> order.attemptId in world.store.pending && world.store.pending[order.attemptId] == order
      ensures r.Success? ==> (r.value <==> order.attemptId !in old(world.store.pending))
      ensures r.Failure? ==> world == old(world)
      ensures r.Failure? ==> r.error == if !FieldsOk(order) then OrderInvalid
                                        else if !AttemptOk(order.attemptId) then AttemptInvalid else IdentityConflict
    {
      if !FieldsOk(order) { return Failure(OrderInvalid); }
      if !AttemptOk(order.attemptId) { return Failure(AttemptInvalid); }
      var w := world.store;
      if order.attemptId !in w.pending {
        world := world.(store := w.(pending := w.pending[order.attemptId := order]));
        return Success(true);
      }
      if w.pending[order.attemptId] != order { return Failure(IdentityConflict); }
      r := Success(false);
    }

    /** Create-once: an attempt keeps the first broker order id it was given. */
    method Bind(a: Attempt, id: string) returns (r: Result<bool, Error>)
      modifies this
      ensures world == Next(profile, old(world), BindOrder(a, id))
      ensures r.Success? <==>
                && AttemptOk(a) && OrderIdOk(id)
                && (a in old(world.store.broker) ==> old(world.store.broker)[a] == id)
      ensures r.Success? ==> a in world.store.broker && world.store.broker[a] == id
      ensures r.Success? ==> (r.value <==> a !in old(world.store.broker))
      ensures r.Failure? ==> world == old(world)
      ensures r.Failure? ==> r.error == if !OrderIdOk(id) then OrderIdInvalid
                                        else if !AttemptOk(a) then AttemptInvalid else IdentityConflict
    {
      if !OrderIdOk(id) { return Failure(OrderIdInvalid); }
      if !AttemptOk(a) { return Failure(AttemptInvalid); }
      var w := world.store;
      if a !in w.broker {
        world := world.(store := w.(broker := w.broker[a := id]));
        return Success(true);
      }
      if w.broker[a] != id { return Failure(IdentityConflict); }
      r := Success(false);
    }

    /** What `data` means for the log of `a`, judged from one scan `v` of the store `w`. */
    method Consider(a: Attempt, data: Outcome, v: Store, ghost w: Store) returns (d: Decision)
      requires WellFormed(profile, w) && SubStore(v, w)
      ensures d.Keep? ==> Recorded(w, a, data)
      ensures d.Append? ==> FitsAt(w, a, d.sequence, data)
      ensures ConsideredExactly(profile, v, a, data, d)
    {
      var records := Records(v);
      if records.Failure? { return Refuse(records.error); }
      if a !in records.value { return Refuse(AttemptMissing); }
      d := DecideFrom(records.value[a], data);
      DecisionIsSound(profile, w, v, a, records.value[a], data);
      DecisionIsExact(profile, v, a, records.value[a], data);
    }

    /**
     One try of an observer: scan, decide, and create the next entry if it is still free.
     `settled` is false only when another process took that entry first.
     */
    method ObserveOnce(a: Attempt, data: Outcome, round: Round)
      returns (settled: bool, r: Result<bool, Error>, ghost own: nat)
      requires Inv(profile, world)
      modifies this
      ensures Inv(profile, world) && SubStore(old(world).store, world.store)
      ensures settled && r.Success? ==> Recorded(world.store, a, data)
      ensures own == 0 ==> world in {After(profile, old(world), round.before),
                                     After(profile, old(world), round.before + round.between)}
      ensures own > 0 ==> settled && r == Success(true)
      ensures own > 0 ==> AppendedTo(After(profile, old(world), round.before + round.between), world, a, own, data)
      ensures TriedExactly(profile, old(world), round, a, data, settled, r, own)
    {
      hide *;
      own := 0;
      SubStoreOfItself(world.store);
      RunKeepsInv(profile, world, round.before);
      AfterJoins(profile, world, round.before, round.between);
      Interfere(round.before);
      ghost var seen := world.store;
      InvHasWellFormed(profile, world);
      var decision := Consider(a, data, See(world.store, round.sight), world.store);
      DecisionTries(profile, old(world), round, a, data, decision);
      if decision.Refuse? { return true, Failure(decision.error), own; }
      if decision.Keep? { return true, Success(false), own; }
      RunKeepsInv(profile, world, round.between);
      SubStoreThrough(old(world).store, seen, After(profile, world, round.between).store);
      Interfere(round.between);
      var n := decision.sequence;
      FitsIsStable(seen, world.store, a, n, data);
      if (a, n) in world.store.observed { return false, Failure(ConcurrentUpdate), own; }
      own := n;
      AppendIsSafe(profile, world, a, n, data);
      SubStoreThrough(old(world).store, world.store, Created(world.store, Flight(a, n, data)));
      world := world.(store := Created(world.store, Flight(a, n, data)));
      return true, Success(true), own;
    }

    /**
     Record one outcome under interference.  Success means the outcome is durable or
     obsolete; the method adds at most one entry, `data` at the very end of the log,
     and a refusal adds nothing.
     */
    method Observe(a: Attempt, data: Outcome, rounds: nat -> Round)
      returns (r: Result<bool, Error>, ghost others: seq<Step>, ghost own: nat)
      requires Inv(profile, world)
      modifies this
      ensures Inv(profile, world) && SubStore(old(world).store, world.store)
      ensures r.Success? ==> Recorded(world.store, a, data)
      ensures r.Failure? ==> own == 0
      ensures own == 0 ==> world == After(profile, old(world), others)
      ensures own > 0 ==> AppendedTo(After(profile, old(world), others), world, a, own, data)
      ensures exists settled, first, mine ::
                && TriedExactly(profile, old(world), rounds(0), a, data, settled, first, mine)
                && (settled ==> r == first && own == mine)
      ensures Undisturbed(profile, old(world), rounds(0), a) ==>
                var w := After(profile, old(world), rounds(0).before).store;
                forall n: nat :: IsLength(w, a, n) ==> ObservedExactly(w, w, a, n, data, true, r, own)
    {
      assert OBSERVE_ATTEMPTS == 8;
      hide *;
      SubStoreOfItself(world.store);
      NoSteps(profile, world);
      others, own := [], 0;
      var i := 0;
      while i < OBSERVE_ATTEMPTS
        invariant 0 <= i <= OBSERVE_ATTEMPTS && own == 0
        invariant world == After(profile, old(world), others) && (i == 0 ==> world == old(world))
        invariant Inv(profile, world) && SubStore(old(world).store, world.store)
        invariant i > 0 ==> exists first, mine ::
                              TriedExactly(profile, old(world), rounds(0), a, data, false, first, mine)
      {
        var settled;
        ghost var start := world;
        settled, r, own := ObserveOnce(a, data, rounds(i));
        var acted := rounds(i).before + rounds(i).between;
        AfterJoins(profile, old(world), others, rounds(i).before);
        AfterJoins(profile, old(world), others, acted);
        var readOnly := own == 0 && world == After(profile, start, rounds(i).before);
        others := others + (if readOnly then rounds(i).before else acted);
        SubStoreThrough(old(world).store, start.store, world.store);
        if settled {
          if i == 0 { UndisturbedTry(profile, old(world), rounds(0), a, data, true, r, own); }
          LostIsDisturbed(profile, old(world), rounds(0), a, data);
          return r, others, own;
        }
        i := i + 1;
      }
      LostIsDisturbed(profile, old(world), rounds(0), a, data);
      r := Failure(ConcurrentUpdate);
    }
  }

  /** The answer of an observer that scanned `v`, in which the log of `a` has n entries. */
  ghost predicate DecidedExactly(v: Store, a: Attempt, n: nat, data: Outcome, d: Decision)
    requires a in v.pending && IsLength(v, a, n)
  {
    var last, invalid := Last(v, a, n), ValidateOutcome(BrokerOf(v, a), v.pending[a].quantity, data);
    && (d == Append(n + 1) <==> invalid == None && MayFollow(last, data))
    && (d.Append? ==> d == Append(n + 1))
    && (d == Keep <==> invalid == None && AlreadyTold(last, data))
    && (invalid == None && ContradictsEnd(last, data) ==> d == Refuse(TerminalConflict))
    && (invalid == None && FallsBack(last, data) ==> d == Refuse(NonMonotonicFill))
    && (invalid.Some? ==> d == Refuse(invalid.value))
  }

  /**
   Exactly what one try does that scanned `v`, in which the log of `a` has n entries, and
   whose claim meets the store `end`: it appends a valid outcome that may follow the last
   entry if the next place is free, reports a valid outcome that tells nothing new, and
   names the error of every other.
   */
  ghost predicate ObservedExactly(v: Store, end: Store, a: Attempt, n: nat, data: Outcome,
                                  settled: bool, r: Result<bool, Error>, own: nat)
    requires a in v.pending && IsLength(v, a, n)
  {
    var last, invalid := Last(v, a, n), ValidateOutcome(BrokerOf(v, a), v.pending[a].quantity, data);
    var news, free := invalid == None && MayFollow(last, data), (a, n + 1) !in end.observed;
    && (own == n + 1 <==> news && free)
    && (own != n + 1 ==> own == 0)
    && (r == Success(true) <==> own == n + 1)
    && (r == Success(false) <==> invalid == None && AlreadyTold(last, data))
    && (settled <==> (news ==> free))
    && (news && !free ==> r == Failure(ConcurrentUpdate))
    && (invalid == None && ContradictsEnd(last, data) ==> r == Failure(TerminalConflict))
    && (invalid == None && FallsBack(last, data) ==> r == Failure(NonMonotonicFill))
    && (invalid.Some? ==> r == Failure(invalid.value))
  }

  /** What one try does, whatever its scan returns and whoever acts between scan and claim. */
  ghost predicate TriedExactly(profile: string, s: State, round: Round, a: Attempt, data: Outcome,
                               settled: bool, r: Result<bool, Error>, own: nat)
  {
    var v := See(After(profile, s, round.before).store, round.sight);
    var end := After(profile, s, round.before + round.between).store;
    && (!ScanOk(profile, v) ==> settled && r.Failure? && own == 0)
    && (ScanOk(profile, v) && a !in v.pending ==> settled && r == Failure(AttemptMissing) && own == 0)
    && (ScanOk(profile, v) && a in v.pending ==>
          forall n: nat :: IsLength(v, a, n) ==> ObservedExactly(v, end, a, n, data, settled, r, own))
  }

  /** The try scans the whole store, which is in order, and nobody acts before its claim. */
  ghost predicate Undisturbed(profile: string, s: State, round: Round, a: Attempt) {
    var w := After(profile, s, round.before).store;
    round.between == [] && See(w, round.sight) == w && ScanOk(profile, w) && a in w.pending
  }

  lemma UndisturbedTry(profile: string, s: State, round: Round, a: Attempt, data: Outcome,
                       settled: bool, r: Result<bool, Error>, own: nat)
    requires TriedExactly(profile, s, round, a, data, settled, r, own)
    ensures Undisturbed(profile, s, round, a) ==>
              var w := After(profile, s, round.before).store;
              forall n: nat :: IsLength(w, a, n) ==> settled && ObservedExactly(w, w, a, n, data, true, r, own)
  {
    hide ScanOk, See, After, ValidateOutcome;
    if Undisturbed(profile, s, round, a) {
      assert round.before + round.between == round.before;
    }
  }

  /** A first try whose place was taken was disturbed. */
  lemma LostIsDisturbed(profile: string, s: State, round: Round, a: Attempt, data: Outcome)
    ensures (exists first, mine :: TriedExactly(profile, s, round, a, data, false, first, mine)) &&
            Undisturbed(profile, s, round, a) ==>
              var w := After(profile, s, round.before).store;
              forall n: nat :: !IsLength(w, a, n)
  {
    hide TriedExactly, Undisturbed, After, IsLength, ObservedExactly;
    if first, mine :| TriedExactly(profile, s, round, a, data, false, first, mine) {
      UndisturbedTry(profile, s, round, a, data, false, first, mine);
    }
  }

  lemma LengthIsUnique(v: Store, a: Attempt, n: nat, m: nat)
    requires LogOk(v, a) && IsLength(v, a, n) && IsLength(v, a, m)
    ensures n == m
  {
    if n < m { ScannedDense(v, a, n + 1, m); }
    if m < n { ScannedDense(v, a, m + 1, n); }
  }

  lemma ScannedIsOrdered(profile: string, v: Store, a: Attempt)
    requires ScanOk(profile, v)
    ensures LogOk(v, a)
  {
    hide EntryOk;
    forall k: nat | (a, k) in v.observed ensures EntryOk(v, a, k) { assert EntryOk(v, (a, k).0, (a, k).1); }
  }

  lemma DecisionIsExact(profile: string, v: Store, a: Attempt, r: Record, data: Outcome)
    requires ScanOk(profile, v) && RecordMatches(v, a, r)
    ensures forall n: nat :: IsLength(v, a, n) ==> DecidedExactly(v, a, n, data, DecideFrom(r, data))
  {
    ScannedIsOrdered(profile, v, a);
    hide ScanOk, LogOk, ValidateOutcome;
    var m := |r.observations|;
    if m > 0 { assert v.observed[(a, m)].outcome == At(r.observations, m); }
    DecisionExactly(r.orderId, r.order.quantity, m, LastSeen(r), data);
    hide Decide, MayFollow, AlreadyTold, ContradictsEnd, FallsBack;
    forall n: nat | IsLength(v, a, n) ensures DecidedExactly(v, a, n, data, DecideFrom(r, data)) {
      LengthIsUnique(v, a, n, m);
    }
  }

  /** What an observer decides on a scan of `v`. */
  ghost predicate ConsideredExactly(profile: string, v: Store, a: Attempt, data: Outcome, d: Decision) {
    && (!ScanOk(profile, v) ==> d.Refuse?)
    && (ScanOk(profile, v) && a !in v.pending ==> d == Refuse(AttemptMissing))
    && (ScanOk(profile, v) && a in v.pending ==>
          forall n: nat :: IsLength(v, a, n) ==> DecidedExactly(v, a, n, data, d))
  }

  lemma ExactOutcome(v: Store, end: Store, a: Attempt, n: nat, data: Outcome, d: Decision)
    requires a in v.pending && IsLength(v, a, n) && DecidedExactly(v, a, n, data, d)
    ensures d.Refuse? ==> ObservedExactly(v, end, a, n, data, true, Failure(d.error), 0)
    ensures d.Keep? ==> ObservedExactly(v, end, a, n, data, true, Success(false), 0)
    ensures d.Append? && (a, d.sequence) in end.observed ==>
              ObservedExactly(v, end, a, n, data, false, Failure(ConcurrentUpdate), 0)
    ensures d.Append? && (a, d.sequence) !in end.observed ==>
              ObservedExactly(v, end, a, n, data, true, Success(true), d.sequence)
  {
    hide ValidateOutcome;
  }

  /** What follows from the decision for the try. */
  lemma DecisionTries(profile: string, s: State, round: Round, a: Attempt, data: Outcome, d: Decision)
    requires ConsideredExactly(profile, See(After(profile, s, round.before).store, round.sight), a, data, d)
    ensures var end := After(profile, s, round.before + round.between).store;
            && (d.Refuse? ==> TriedExactly(profile, s, round, a, data, true, Failure(d.error), 0))
            && (d.Keep? ==> TriedExactly(profile, s, round, a, data, true, Success(false), 0))
            && (d.Append? && (a, d.sequence) in end.observed ==>
                  TriedExactly(profile, s, round, a, data, false, Failure(ConcurrentUpdate), 0))
            && (d.Append? && (a, d.sequence) !in end.observed ==>
                  TriedExactly(profile, s, round, a, data, true, Success(true), d.sequence))
  {
    var v := See(After(profile, s, round.before).store, round.sight);
    var end := After(profile, s, round.before + round.between).store;
    if a in v.pending && ScanOk(profile, v) {
      forall n: nat | IsLength(v, a, n)
        ensures DecidedExactly(v, a, n, data, d)
        ensures d.Refuse? ==> ObservedExactly(v, end, a, n, data, true, Failure(d.error), 0)
        ensures d.Keep? ==> ObservedExactly(v, end, a, n, data, true, Success(false), 0)
        ensures d.Append? && (a, d.sequence) in end.observed ==>
                  ObservedExactly(v, end, a, n, data, false, Failure(ConcurrentUpdate), 0)
        ensures d.Append? && (a, d.sequence) !in end.observed ==>
                  ObservedExactly(v, end, a, n, data, true, Success(true), d.sequence)
      {
        ExactOutcome(v, end, a, n, data, d);
      }
    }
    hide ObservedExactly, DecidedExactly, See, After, ScanOk;
  }

  /** `t` is `s` with one more observation: `data`, as entry `n`, right after the last one. */
  ghost predicate AppendedTo(s: State, t: State, a: Attempt, n: nat, data: Outcome) {
    && n >= 1 && (a, n) !in s.store.observed && IsLength(s.store, a, n - 1)
    && t == s.(store := Created(s.store, Flight(a, n, data)))
  }

  lemma DecisionIsSound(profile: string, w: Store, v: Store, a: Attempt, r: Record, data: Outcome)
    requires WellFormed(profile, w) && SubStore(v, w) && ScanOk(profile, v) && RecordMatches(v, a, r)
    ensures DecideFrom(r, data).Keep? ==> Recorded(w, a, data)
    ensures DecideFrom(r, data).Append? ==> FitsAt(w, a, DecideFrom(r, data).sequence, data)
  {
    var n := |r.observations|;
    var d := DecideFrom(r, data);
    if n > 0 { assert (a, n) in v.observed && v.observed[(a, n)].outcome == At(r.observations, n); }
    if n > 0 { assert EntryOk(v, (a, n).0, (a, n).1); }
    hide WellFormed, SubStore, ScanOk, EntryOk, LogIs, FitsAt;
    if d.Append? { DecisionFits(profile, w, v, a, n, data); }
    if d.Keep? {
      KeepMeansRecorded(r.orderId, r.order.quantity, n, LastSeen(r), data);
      RecordedAt(w, a, n, data);
    }
  }

  lemma KeepMeansRecorded(orderId: Option<string>, quantity: real, n: nat, last: Option<Outcome>, data: Outcome)
    requires Decide(orderId, quantity, n, last, data) == Keep
    ensures last.Some? && (last.value == data || (last.value.terminal && !data.terminal))
  {
  }

  lemma RecordedAt(w: Store, a: Attempt, n: nat, data: Outcome)
    requires (a, n) in w.observed
    requires w.observed[(a, n)].outcome == data || (w.observed[(a, n)].outcome.terminal && !data.terminal)
    ensures Recorded(w, a, data)
  {
  }

  lemma CreatedKeepsInv(profile: string, s: State, f: Flight)
    requires Inv(profile, s) && FitsAt(s.store, f.attempt, f.sequence, f.outcome)
    ensures Inv(profile, s.(store := Created(s.store, f))) && SubStore(s.store, Created(s.store, f))
  {
    CreatedKeepsWellFormed(profile, s.store, f);
    GrownFlightsFit(s, Created(s.store, f));
  }

  lemma SubStoreOfItself(w: Store)
    ensures SubStore(w, w)
  {
  }

  lemma SubStoreThrough(u: Store, v: Store, w: Store)
    requires SubStore(u, v) && SubStore(v, w)
    ensures SubStore(u, w)
  {
  }

  lemma NoSteps(profile: string, s: State)
    ensures After(profile, s, []) == s
  {
  }

  /** Creating an entry that fits, in a free place, is an append at the end. */
  lemma AppendIsSafe(profile: string, s: State, a: Attempt, n: nat, data: Outcome)
    requires Inv(profile, s) && FitsAt(s.store, a, n, data) && (a, n) !in s.store.observed
    ensures var t := s.(store := Created(s.store, Flight(a, n, data)));
            && n >= 1 && Inv(profile, t) && SubStore(s.store, t.store) && Recorded(t.store, a, data)
            && AppendedTo(s, t, a, n, data)
  {
    InvHasWellFormed(profile, s);
    CreatedKeepsInv(profile, s, Flight(a, n, data));
    NothingBeyond(profile, s.store, a, n);
    hide Inv, WellFormed, ValidateOutcome, SubStore, Recorded;
    RecordedAt(Created(s.store, Flight(a, n, data)), a, n, data);
  }

  lemma NothingBeyond(profile: string, w: Store, a: Attempt, n: nat)
    requires WellFormed(profile, w) && n >= 1 && (a, n) !in w.observed
    requires n > 1 ==> (a, n - 1) in w.observed
    ensures IsLength(w, a, n - 1)
  {
  }
}
