/**
 The polling loop of the settlement log: ask the broker about every order that is not
 settled yet, record each answer, and stop at a deadline.  The broker's answers, the
 clock and the other processes are parameters.
 */
module SettlementPolling {
  import opened Wrappers
  import opened Ordering
  import opened SettlementLog
  import opened SettlementStores
  import opened SettlementSummaries

  /** The number of quarter seconds in `wait`, rounded up. */
  function Quarters(wait: real): (n: nat)
    requires wait >= 0.0
    ensures n as real - 1.0 < 4.0 * wait <= n as real
  {
    -((-4.0 * wait).Floor)
  }

  ghost predicate TerminalIn(v: Store, a: Attempt) {
    exists n: nat :: (a, n) in v.observed && v.observed[(a, n)].outcome.terminal
  }

  /** The orders a poll that starts from `v` may ask about: bound, and not settled. */
  ghost function Awaiting(v: Store): set<Attempt> {
    set a | a in v.broker && !TerminalIn(v, a)
  }

  /** The answer recorded for `a`: an answer about another order counts as unknown. */
  function Effective(orderId: Option<string>, answer: Outcome): (o: Outcome)
    ensures o.orderId == orderId && (answer.orderId == orderId ==> o == answer)
    ensures answer.orderId != orderId ==> o.status == Unknown && !o.terminal && o.filled == None && o.fills == []
  {
    if answer.orderId == orderId then answer
    else Outcome(orderId, Unknown, None, None, None, None, None, false, [])
  }

  lemma NothingFollowsTerminal(v: Store, a: Attempt, m: nat)
    requires m >= 1 && (a, m) in v.observed && v.observed[(a, m)].outcome.terminal
    ensures (a, m + 1) in v.observed ==> !EntryOk(v, a, m + 1)
  {
  }

  lemma TerminalMeansLast(profile: string, v: Store, a: Attempt, r: Record)
    requires ScanOk(profile, v) && RecordMatches(v, a, r)
    ensures IsTerminal(r) <==> TerminalIn(v, a)
  {
    hide ValidateOutcome;
    var n := |r.observations|;
    if IsTerminal(r) { assert At(r.observations, n) == v.observed[(a, n)].outcome; }
    if m: nat :| (a, m) in v.observed && v.observed[(a, m)].outcome.terminal {
      ScannedIsOrdered(profile, v, a);
      assert EntryOk(v, a, m);
      if m > n { ScannedDense(v, a, n + 1, m); }
      if m < n {
        ScannedDense(v, a, m + 1, n);
        NothingFollowsTerminal(v, a, m);
      }
      assert At(r.observations, n) == v.observed[(a, n)].outcome;
    }
  }

  lemma RecordedGrows(v: Store, w: Store, a: Attempt, data: Outcome)
    requires Recorded(v, a, data) && SubStore(v, w)
    ensures Recorded(w, a, data)
  {
    var n: nat :| (a, n) in v.observed
      && (v.observed[(a, n)].outcome == data || (v.observed[(a, n)].outcome.terminal && !data.terminal));
    RecordedAt(w, a, n, data);
  }

  /** Every sleep so far took a full quarter second, or the last one reached the deadline. */
  ghost predicate SleptWithin(start: real, wait: real, sleeps: nat, now: real)
    requires wait >= 0.0
  {
    && start <= now && sleeps <= Quarters(wait)
    && (start + 0.25 * sleeps as real <= now || start + wait <= now)
  }

  lemma OneMoreSleepFits(start: real, wait: real, sleeps: nat, now: real)
    requires wait >= 0.0 && SleptWithin(start, wait, sleeps, now) && now < start + wait
    ensures sleeps < Quarters(wait)
  {
  }

  /** The answers about one order from place `from` on: in the log or obsolete. */
  ghost predicate NewRecorded(w: Store, record: Record, answers: nat -> Outcome, from: nat, to: nat) {
    forall k: nat :: from <= k < to ==> Recorded(w, record.order.attemptId, Effective(record.orderId, answers(k)))
  }

  lemma OneMoreRecorded(v: Store, w: Store, record: Record, answers: nat -> Outcome, from: nat, to: nat)
    requires NewRecorded(v, record, answers, from, to) && SubStore(v, w)
    requires Recorded(w, record.order.attemptId, Effective(record.orderId, answers(to)))
    ensures NewRecorded(w, record, answers, from, to + 1)
  {
    hide Recorded, SubStore, Effective;
    forall k: nat | from <= k < to + 1
      ensures Recorded(w, record.order.attemptId, Effective(record.orderId, answers(k)))
    {
      if k < to { RecordedGrows(v, w, record.order.attemptId, Effective(record.orderId, answers(k))); }
    }
  }

  /** Only `a` was asked about from place `from` on. */
  ghost predicate AskedOnly(asked0: seq<Attempt>, asked: seq<Attempt>, a: Attempt) {
    && |asked0| <= |asked| && asked[..|asked0|] == asked0
    && forall k :: |asked0| <= k < |asked| ==> asked[k] == a
  }

  lemma AskAgain(asked0: seq<Attempt>, asked: seq<Attempt>, a: Attempt)
    requires AskedOnly(asked0, asked, a)
    ensures AskedOnly(asked0, asked + [a], a)
  {
    assert (asked + [a])[..|asked0|] == asked[..|asked0|];
  }

  /** None of these answers settles the order. */
  ghost predicate StillOpen(orderId: Option<string>, answers: nat -> Outcome, from: nat, to: nat) {
    forall k: nat :: from <= k < to ==> !Effective(orderId, answers(k)).terminal
  }

  lemma OneMoreOpen(orderId: Option<string>, answers: nat -> Outcome, from: nat, to: nat)
    requires StillOpen(orderId, answers, from, to) && !Effective(orderId, answers(to)).terminal
    ensures StillOpen(orderId, answers, from, to + 1)
  {
  }

  /** Why an order is left at time `now`, after the answers from `from` to `to`. */
  ghost predicate LeftRightly(orderId: Option<string>, answers: nat -> Outcome, from: nat, to: nat, now: real,
                              deadline: real, readDeadline: real)
  {
    && (to == from ==> now >= readDeadline)
    && (to > from ==> Effective(orderId, answers(to - 1)).terminal || now >= deadline || now >= readDeadline)
    && (to > from ==> StillOpen(orderId, answers, from, to - 1))
  }

  ghost predicate ShortNaps(before: seq<real>, naps: seq<real>) {
    && |before| <= |naps| && naps[..|before|] == before
    && forall i :: |before| <= i < |naps| ==> 0.0 <= naps[i] <= 0.25
  }

  lemma NapShort(before: seq<real>, naps: seq<real>, nap: real)
    requires ShortNaps(before, naps) && 0.0 <= nap <= 0.25
    ensures ShortNaps(before, naps + [nap])
  {
    assert (naps + [nap])[..|before|] == naps[..|before|];
  }

  lemma NapsGoOn(before: seq<real>, between: seq<real>, naps: seq<real>)
    requires ShortNaps(before, between) && ShortNaps(between, naps)
    ensures ShortNaps(before, naps)
  {
    assert naps[..|before|] == naps[..|between|][..|before|];
    assert forall i :: |before| <= i < |between| ==> naps[i] == naps[..|between|][i];
  }

  lemma StartPolling(asked: seq<Attempt>, a: Attempt, w: Store, record: Record, answers: nat -> Outcome,
                     naps: seq<real>)
    ensures AskedOnly(asked, asked, a) && NewRecorded(w, record, answers, |asked|, |asked|)
    ensures StillOpen(record.orderId, answers, |asked|, |asked|) && ShortNaps(naps, naps)
  {
  }

  lemma LeavingRightly(orderId: Option<string>, answers: nat -> Outcome, from: nat, to: nat, now: real,
                       deadline: real, readDeadline: real)
    requires from <= to && (to > from ==> StillOpen(orderId, answers, from, to - 1))
    requires now >= readDeadline
             || (to > from && (Effective(orderId, answers(to - 1)).terminal || now >= deadline))
    ensures LeftRightly(orderId, answers, from, to, now, deadline, readDeadline)
  {
  }

  lemma OpenPrefix(orderId: Option<string>, answers: nat -> Outcome, from: nat, to: nat)
    requires StillOpen(orderId, answers, from, to)
    ensures to > from ==> StillOpen(orderId, answers, from, to - 1)
  {
  }

  lemma SleptEnough(start: real, wait: real, sleeps: nat, before: real, rest: real, now: real)
    requires wait >= 0.0 && SleptWithin(start, wait, sleeps, before) && sleeps < Quarters(wait)
    requires rest == (if before < start + wait then start + wait - before else 0.0)
    requires now >= before + if rest < 0.25 then rest else 0.25
    ensures SleptWithin(start, wait, sleeps + 1, now)
  {
    hide Quarters;
  }

  /**
   Ask about one order until an answer settles it or time is up: at most one answer more
   than sleeps, every sleep at most a quarter second, and no answer after one that settles.
   */
  method PollOne(
      store: SettlementStore, clock: Clock, record: Record, start: real, wait: real, readDeadline: real,
      answers: nat -> Outcome, rounds: nat -> (nat -> Round), asked0: seq<Attempt>, sleeps0: nat)
    returns (r: Result<bool, Error>, asked: seq<Attempt>, sleeps: nat)
    requires wait >= 0.0 && record.orderId.Some?
    requires Inv(store.profile, store.world) && SleptWithin(start, wait, sleeps0, clock.now)
    modifies store, clock
    ensures Inv(store.profile, store.world) && SubStore(old(store.world).store, store.world.store)
    ensures SleptWithin(start, wait, sleeps, clock.now) && sleeps >= sleeps0 && clock.now >= old(clock.now)
    ensures AskedOnly(asked0, asked, record.order.attemptId) && |asked| <= |asked0| + 1 + (sleeps - sleeps0)
    ensures ShortNaps(old(clock.naps), clock.naps)
    ensures r.Failure? ==> |asked| > |asked0|
    ensures r.Success? ==>
              && NewRecorded(store.world.store, record, answers, |asked0|, |asked|)
              && LeftRightly(record.orderId, answers, |asked0|, |asked|, clock.now, start + wait, readDeadline)
  {
    hide *;
    SubStoreOfItself(store.world.store);
    asked, sleeps := asked0, sleeps0;
    var a := record.order.attemptId;
    StartPolling(asked0, a, store.world.store, record, answers, clock.naps);
    while true
      invariant Inv(store.profile, store.world) && SubStore(old(store.world).store, store.world.store)
      invariant SleptWithin(start, wait, sleeps, clock.now) && sleeps >= sleeps0 && clock.now >= old(clock.now)
      invariant AskedOnly(asked0, asked, a) && |asked| == |asked0| + (sleeps - sleeps0)
      invariant NewRecorded(store.world.store, record, answers, |asked0|, |asked|)
      invariant StillOpen(record.orderId, answers, |asked0|, |asked|)
      invariant ShortNaps(old(clock.naps), clock.naps)
      decreases Quarters(wait) - sleeps
    {
      ghost var earlier := clock.now;
      var t := clock.Monotonic();
      LaterIsWithin(start, wait, sleeps, earlier, t);
      OpenPrefix(record.orderId, answers, |asked0|, |asked|);
      if t >= readDeadline {
        LeavingRightly(record.orderId, answers, |asked0|, |asked|, t, start + wait, readDeadline);
        return Success(true), asked, sleeps;
      }
      var result := Effective(record.orderId, answers(|asked|));
      ghost var before, to := store.world.store, |asked|;
      AskAgain(asked0, asked, a);
      asked := asked + [a];
      var seen, others, own := store.Observe(a, result, rounds(|asked| - 1));
      SubStoreThrough(old(store.world).store, before, store.world.store);
      if seen.Failure? { return Failure(seen.error), asked, sleeps; }
      OneMoreRecorded(before, store.world.store, record, answers, |asked0|, to);
      if result.terminal {
        LeavingRightly(record.orderId, answers, |asked0|, |asked|, clock.now, start + wait, readDeadline);
        return Success(true), asked, sleeps;
      }
      OneMoreOpen(record.orderId, answers, |asked0|, to);
      t := clock.Monotonic();
      LaterIsWithin(start, wait, sleeps, earlier, t);
      if t >= start + wait {
        LeavingRightly(record.orderId, answers, |asked0|, |asked|, t, start + wait, readDeadline);
        return Success(true), asked, sleeps;
      }
      OneMoreSleepFits(start, wait, sleeps, t);
      t := clock.Monotonic();
      LaterIsWithin(start, wait, sleeps, earlier, t);
      var rest := if t < start + wait then start + wait - t else 0.0;
      NapShort(old(clock.naps), clock.naps, if rest < 0.25 then rest else 0.25);
      clock.Sleep(if rest < 0.25 then rest else 0.25);
      SleptEnough(start, wait, sleeps, t, rest, clock.now);
      sleeps := sleeps + 1;
    }
    r := Success(true);
  }

  /** Every order asked about so far has its answers in the log, or closed. */
  ghost predicate AnswersRecorded(w: Store, v: Store, asked: seq<Attempt>, answers: nat -> Outcome) {
    forall k :: 0 <= k < |asked| ==> Recorded(w, asked[k], Effective(BrokerOf(v, asked[k]), answers(k)))
  }

  lemma AnswersStayRecorded(
      u: Store, w: Store, v: Store, asked0: seq<Attempt>, asked: seq<Attempt>, answers: nat -> Outcome, r: Record)
    requires SubStore(u, w) && AnswersRecorded(u, v, asked0, answers)
    requires AskedOnly(asked0, asked, r.order.attemptId) && r.orderId == BrokerOf(v, r.order.attemptId)
    requires NewRecorded(w, r, answers, |asked0|, |asked|)
    ensures AnswersRecorded(w, v, asked, answers)
  {
    hide Recorded, SubStore, Effective;
    forall k | 0 <= k < |asked| ensures Recorded(w, asked[k], Effective(BrokerOf(v, asked[k]), answers(k))) {
      if k < |asked0| {
        assert asked[k] == asked0[k];
        RecordedGrows(u, w, asked[k], Effective(BrokerOf(v, asked[k]), answers(k)));
      }
    }
  }

  /**
   Why the order `a` was left at time `at`: it was never asked about because the read
   deadline had come; or its last answer settled it, or came when one of the deadlines had
   come, and no earlier one settled it.
   */
  ghost predicate Attended(v: Store, a: Attempt, asked: seq<Attempt>, answers: nat -> Outcome, at: real,
                           deadline: real, readDeadline: real)
  {
    if a !in asked then at >= readDeadline
    else exists k: nat ::
           && k < |asked| && asked[k] == a && (forall j :: k < j < |asked| ==> asked[j] != a)
           && (Effective(BrokerOf(v, a), answers(k)).terminal || at >= deadline || at >= readDeadline)
           && forall j: nat :: j < k && asked[j] == a ==> !Effective(BrokerOf(v, a), answers(j)).terminal
  }

  /** Attending to one order leaves the others attended. */
  lemma AttendedStays(v: Store, a: Attempt, b: Attempt, asked0: seq<Attempt>, asked: seq<Attempt>,
                      answers: nat -> Outcome, at: real, deadline: real, readDeadline: real)
    requires Attended(v, a, asked0, answers, at, deadline, readDeadline) && a != b && AskedOnly(asked0, asked, b)
    ensures Attended(v, a, asked, answers, at, deadline, readDeadline)
  {
    hide Effective;
    assert forall k :: 0 <= k < |asked0| ==> asked[k] == asked0[k];
    if a in asked0 {
      var k: nat :| k < |asked0| && asked0[k] == a && (forall j :: k < j < |asked0| ==> asked0[j] != a)
        && (Effective(BrokerOf(v, a), answers(k)).terminal || at >= deadline || at >= readDeadline)
        && forall j: nat :: j < k && asked0[j] == a ==> !Effective(BrokerOf(v, a), answers(j)).terminal;
      assert asked[k] == a;
    }
  }

  lemma LeftIsAttended(v: Store, record: Record, asked0: seq<Attempt>, asked: seq<Attempt>, answers: nat -> Outcome,
                       at: real, deadline: real, readDeadline: real)
    requires record.orderId == BrokerOf(v, record.order.attemptId) && record.order.attemptId !in asked0
    requires AskedOnly(asked0, asked, record.order.attemptId)
    requires LeftRightly(record.orderId, answers, |asked0|, |asked|, at, deadline, readDeadline)
    ensures Attended(v, record.order.attemptId, asked, answers, at, deadline, readDeadline)
  {
    hide Effective;
    var a := record.order.attemptId;
    assert forall k :: 0 <= k < |asked0| ==> asked[k] == asked0[k] && asked0[k] in asked0;
    if |asked| > |asked0| { assert asked[|asked| - 1] == a; }
  }

  /** Every order of `done` was attended to, and left when `ends` says. */
  ghost predicate AllAttended(v: Store, done: set<Attempt>, asked: seq<Attempt>, answers: nat -> Outcome,
                              ends: map<Attempt, real>, start: real, now: real, deadline: real, readDeadline: real)
  {
    forall a :: a in done ==>
      a in ends && start <= ends[a] <= now && Attended(v, a, asked, answers, ends[a], deadline, readDeadline)
  }

  lemma AttendOne(v: Store, done: set<Attempt>, asked0: seq<Attempt>, asked: seq<Attempt>, answers: nat -> Outcome,
                  ends: map<Attempt, real>, start: real, earlier: real, now: real, deadline: real, readDeadline: real,
                  a: Attempt)
    requires AllAttended(v, done, asked0, answers, ends, start, earlier, deadline, readDeadline)
    requires a !in done && AskedOnly(asked0, asked, a) && start <= earlier <= now
    requires Attended(v, a, asked, answers, now, deadline, readDeadline)
    ensures AllAttended(v, done + {a}, asked, answers, ends[a := now], start, now, deadline, readDeadline)
  {
    hide Attended, AskedOnly;
    forall b | b in done ensures Attended(v, b, asked, answers, ends[b], deadline, readDeadline) {
      AttendedStays(v, b, a, asked0, asked, answers, ends[b], deadline, readDeadline);
    }
  }

  lemma PassedOver(v: Store, done: set<Attempt>, asked: seq<Attempt>, answers: nat -> Outcome,
                   ends: map<Attempt, real>, start: real, earlier: real, now: real, deadline: real, readDeadline: real,
                   a: Attempt)
    requires AllAttended(v, done, asked, answers, ends, start, earlier, deadline, readDeadline)
    requires a !in done && a !in asked && start <= earlier <= now && now >= readDeadline
    ensures AllAttended(v, done + {a}, asked, answers, ends[a := now], start, now, deadline, readDeadline)
  {
    assert asked[..|asked|] == asked;
    assert AskedOnly(asked, asked, a);
    assert Attended(v, a, asked, answers, now, deadline, readDeadline);
    hide Attended, AskedOnly;
    AttendOne(v, done, asked, asked, answers, ends, start, earlier, now, deadline, readDeadline, a);
  }

  lemma NoSleepYet(start: real, wait: real, now: real)
    requires wait >= 0.0 && start <= now
    ensures SleptWithin(start, wait, 0, now)
  {
  }

  lemma NothingAskedYet(w: Store, v: Store, answers: nat -> Outcome, ends: map<Attempt, real>, start: real, now: real,
                        deadline: real, readDeadline: real, naps: seq<real>)
    ensures AnswersRecorded(w, v, [], answers) && AskedWithin([], {}, 0) && ShortNaps(naps, naps)
    ensures AllAttended(v, {}, [], answers, ends, start, now, deadline, readDeadline)
  {
  }

  /** At most one answer per visited order and one per sleep, all of them about visited orders. */
  ghost predicate AskedWithin(asked: seq<Attempt>, visited: set<Attempt>, sleeps: nat) {
    |asked| <= |visited| + sleeps && forall k :: 0 <= k < |asked| ==> asked[k] in visited
  }

  lemma AskedMore(asked0: seq<Attempt>, asked: seq<Attempt>, visited: set<Attempt>, a: Attempt, sleeps0: nat,
                  sleeps: nat)
    requires AskedWithin(asked0, visited, sleeps0) && a !in visited && sleeps0 <= sleeps
    requires AskedOnly(asked0, asked, a) && |asked| <= |asked0| + 1 + (sleeps - sleeps0)
    ensures AskedWithin(asked, visited + {a}, sleeps)
  {
    forall k | 0 <= k < |asked| ensures asked[k] in visited + {a} {
      if k < |asked0| { assert asked[k] == asked0[k]; }
    }
  }

  lemma NotVisitedNotAsked(asked: seq<Attempt>, visited: set<Attempt>, sleeps: nat, a: Attempt)
    requires AskedWithin(asked, visited, sleeps) && a !in visited
    ensures a !in asked
  {
  }

  lemma AskedInAll(asked: seq<Attempt>, visited: set<Attempt>, sleeps: nat, all: set<Attempt>)
    requires AskedWithin(asked, visited, sleeps) && visited <= all
    ensures |asked| <= |all| + sleeps && forall k :: 0 <= k < |asked| ==> asked[k] in all
  {
    SubsetSize(visited, all);
  }

  lemma SleepsWithin(start: real, wait: real, sleeps: nat, now: real)
    requires wait >= 0.0 && SleptWithin(start, wait, sleeps, now)
    ensures sleeps <= Quarters(wait)
  {
  }

  /** The orders of these records that have a broker id. */
  ghost function Askable(pending: map<Attempt, Record>): set<Attempt> {
    set a | a in pending && pending[a].orderId.Some?
  }

  /**
   Ask about each pending order in turn; all share the same two deadlines.  On success each
   of them was attended to, and was left at the time `ends` gives.
   */
  method PollAll(
      store: SettlementStore, clock: Clock, v: Store, pending: map<Attempt, Record>,
      start: real, wait: real, readDeadline: real, answers: nat -> Outcome, rounds: nat -> (nat -> Round))
    returns (r: Result<bool, Error>, asked: seq<Attempt>, ghost ends: map<Attempt, real>)
    requires wait >= 0.0 && start <= clock.now
    requires Inv(store.profile, store.world)
    requires forall a :: a in pending ==> RecordMatches(v, a, pending[a]) && pending[a].order.attemptId == a
    requires forall a :: a in pending && pending[a].orderId.Some? ==> a in Awaiting(v)
    modifies store, clock
    ensures Inv(store.profile, store.world) && SubStore(old(store.world).store, store.world.store)
    ensures |asked| <= |Awaiting(v)| + Quarters(wait)
    ensures forall k :: 0 <= k < |asked| ==> asked[k] in Awaiting(v)
    ensures ShortNaps(old(clock.naps), clock.naps) && clock.now >= old(clock.now)
    ensures r.Failure? ==> asked != []
    ensures r.Success? ==>
              && AnswersRecorded(store.world.store, v, asked, answers)
              && AllAttended(v, Askable(pending), asked, answers, ends, start, clock.now, start + wait, readDeadline)
  {
    hide *;
    SubStoreOfItself(store.world.store);
    asked, ends := [], map[];
    var sleeps := 0;
    ghost var visited: set<Attempt> := {};
    ghost var done: set<Attempt> := {};
    NoSleepYet(start, wait, clock.now);
    NothingAskedYet(store.world.store, v, answers, ends, start, clock.now, start + wait, readDeadline, clock.naps);
    var todo := pending.Keys;
    while todo != {}
      invariant todo <= pending.Keys && visited <= Awaiting(v) && visited <= done && todo !! done
      invariant forall a :: a in pending && a !in todo && pending[a].orderId.Some? ==> a in done
      invariant Inv(store.profile, store.world) && SubStore(old(store.world).store, store.world.store)
      invariant SleptWithin(start, wait, sleeps, clock.now) && start <= clock.now && clock.now >= old(clock.now)
      invariant AskedWithin(asked, visited, sleeps) && ShortNaps(old(clock.naps), clock.naps)
      invariant AnswersRecorded(store.world.store, v, asked, answers)
      invariant AllAttended(v, done, asked, answers, ends, start, clock.now, start + wait, readDeadline)
      decreases |todo|
    {
      var a :| a in todo;
      todo := todo - {a};
      var record := pending[a];
      if record.orderId.Some? {
        ghost var earlier := clock.now;
        var t := clock.Monotonic();
        LaterIsWithin(start, wait, sleeps, earlier, t);
        NotVisitedNotAsked(asked, visited, sleeps, a);
        if t < readDeadline {
          ghost var before, naps := store.world.store, clock.naps;
          var asked0, sleeps0 := asked, sleeps;
          r, asked, sleeps :=
            PollOne(store, clock, record, start, wait, readDeadline, answers, rounds, asked0, sleeps0);
          SubStoreThrough(old(store.world).store, before, store.world.store);
          NapsGoOn(old(clock.naps), naps, clock.naps);
          AskedMore(asked0, asked, visited, a, sleeps0, sleeps);
          visited := visited + {a};
          AskedInAll(asked, visited, sleeps, Awaiting(v));
          SleepsWithin(start, wait, sleeps, clock.now);
          if r.Failure? { ends := map[]; return r, asked, ends; }
          MatchedOrderId(v, a, record);
          AnswersStayRecorded(before, store.world.store, v, asked0, asked, answers, record);
          LeftIsAttended(v, record, asked0, asked, answers, clock.now, start + wait, readDeadline);
          AttendOne(v, done, asked0, asked, answers, ends, start, earlier, clock.now, start + wait, readDeadline, a);
        } else {
          PassedOver(v, done, asked, answers, ends, start, earlier, t, start + wait, readDeadline, a);
        }
        ends, done := ends[a := clock.now], done + {a};
      }
    }
    AskedInAll(asked, visited, sleeps, Awaiting(v));
    SleepsWithin(start, wait, sleeps, clock.now);
    AttendedAll(v, pending, done, asked, answers, ends, start, clock.now, start + wait, readDeadline);
    r := Success(true);
  }

  lemma AttendedAll(v: Store, pending: map<Attempt, Record>, done: set<Attempt>, asked: seq<Attempt>,
                    answers: nat -> Outcome, ends: map<Attempt, real>, start: real, now: real, deadline: real,
                    readDeadline: real)
    requires AllAttended(v, done, asked, answers, ends, start, now, deadline, readDeadline)
    requires forall a :: a in pending && pending[a].orderId.Some? ==> a in done
    ensures AllAttended(v, Askable(pending), asked, answers, ends, start, now, deadline, readDeadline)
  {
    hide Attended;
  }

  lemma LaterIsWithin(start: real, wait: real, sleeps: nat, earlier: real, now: real)
    requires wait >= 0.0 && SleptWithin(start, wait, sleeps, earlier) && earlier <= now
    ensures SleptWithin(start, wait, sleeps, now)
  {
  }

  lemma MatchedOrderId(v: Store, a: Attempt, r: Record)
    requires RecordMatches(v, a, r)
    ensures r.orderId == BrokerOf(v, a)
  {
  }

  /** The summary of one closing scan. */
  method SettlementSummary(store: SettlementStore, last: Sight)
    returns (r: Result<Summary, Error>, ghost final: seq<Record>)
    ensures r.Success? <==> ScanOk(store.profile, See(store.world.store, last))
    ensures r.Success? ==> SummarisesRecords(r.value, final) && ListsRecords(See(store.world.store, last), final)
  {
    final := [];
    var v := See(store.world.store, last);
    var records := store.Records(v);
    if records.Failure? { return Failure(records.error), final; }
    RecordsKeepTheirNames(store.profile, v, records.value);
    var rows := Listed(records.value);
    final := rows;
    AllTellable(store.profile, v, rows);
    var summary := Summarise(rows);
    r := Success(summary);
  }

  predicate BoundsOk(wait: real, timeout: real, maxOrders: int) {
    0.0 <= wait <= 30.0 && 0.0 < timeout <= 30.0 && 1 <= maxOrders <= 100
  }

  /** The orders that no terminal observation settles. */
  ghost function Unsettled(v: Store): set<Attempt> {
    set a | a in v.pending && !TerminalIn(v, a)
  }

  /**
   One polling run.  It always ends; in total it asks the broker at most once per order
   it may ask about plus once per quarter second of `wait`, and never about an order
   that was settled in the scan it started from.  On success each order it may ask about
   was attended to: asked about until settled or out of time, unless the read deadline had
   come; every answer is recorded or obsolete, and the result summarises the final scan.  It
   fails only for bad bounds, a failed scan, too many orders, or an answer it could not record.
   */
  method SettlePending(
      store: SettlementStore, clock: Clock, wait: real, timeout: real, maxOrders: int,
      answers: nat -> Outcome, rounds: nat -> (nat -> Round), first: Sight, last: Sight)
    returns (r: Result<Summary, Error>, asked: seq<Attempt>, ghost final: seq<Record>,
             ghost ends: map<Attempt, real>, ghost start: real, ghost readDeadline: real)
    requires Inv(store.profile, store.world)
    modifies store, clock
    ensures Inv(store.profile, store.world) && SubStore(old(store.world).store, store.world.store)
    ensures !BoundsOk(wait, timeout, maxOrders) ==> r == Failure(BoundsInvalid) && asked == []
    ensures var v := See(old(store.world.store), first);
            && (wait >= 0.0 ==> |asked| <= |Awaiting(v)| + Quarters(wait))
            && (forall k :: 0 <= k < |asked| ==> asked[k] in Awaiting(v))
            && (r.Success? ==> AnswersRecorded(store.world.store, v, asked, answers))
            && (r.Success? ==> old(clock.now) <= start && start + timeout <= readDeadline <= clock.now + timeout)
            && (r.Success? ==>
                  AllAttended(v, Awaiting(v), asked, answers, ends, start, clock.now, start + wait, readDeadline))
            && (r.Failure? ==>
                  || !BoundsOk(wait, timeout, maxOrders) || !ScanOk(store.profile, v) || |Unsettled(v)| > maxOrders
                  || asked != [] || !ScanOk(store.profile, See(store.world.store, last)))
            && (BoundsOk(wait, timeout, maxOrders) && ScanOk(store.profile, v) && |Unsettled(v)| > maxOrders ==>
                  r == Failure(BatchIncomplete) && asked == [])
    ensures r.Success? ==> SummarisesRecords(r.value, final) && ListsRecords(See(store.world.store, last), final)
    ensures ShortNaps(old(clock.naps), clock.naps)
  {
    BoundsSay(wait, timeout, maxOrders);
    hide *;
    SubStoreOfItself(store.world.store);
    NoNaps(clock.naps);
    asked, final, ends, start, readDeadline := [], [], map[], clock.now, clock.now;
    if wait < 0.0 || wait > 30.0 || maxOrders < 1 || maxOrders > 100 {
      r := Failure(BoundsInvalid);
      return;
    }
    var begun := clock.Monotonic();
    var t := clock.Monotonic();
    start, readDeadline := begun, t + timeout;
    if timeout <= 0.0 || timeout > 30.0 {
      r := Failure(BoundsInvalid);
      return;
    }
    var v := See(store.world.store, first);
    var records := store.Records(v);
    if records.Failure? {
      r := Failure(records.error);
      return;
    }
    var pending := map a | a in records.value && !IsTerminal(records.value[a]) :: records.value[a];
    PendingIsUnsettled(store.profile, v, records.value, pending);
    RecordsKeepTheirNames(store.profile, v, records.value);
    assert |pending| == |pending.Keys|;
    if |pending| > maxOrders {
      r := Failure(BatchIncomplete);
      return;
    }
    var polled;
    polled, asked, ends := PollAll(store, clock, v, pending, begun, wait, t + timeout, answers, rounds);
    if polled.Failure? {
      r := Failure(polled.error);
      return;
    }
    r, final := SettlementSummary(store, last);
  }

  lemma BoundsSay(wait: real, timeout: real, maxOrders: int)
    ensures BoundsOk(wait, timeout, maxOrders) <==>
              !(wait < 0.0 || wait > 30.0 || maxOrders < 1 || maxOrders > 100) && !(timeout <= 0.0 || timeout > 30.0)
  {
  }

  lemma NoNaps(naps: seq<real>)
    ensures ShortNaps(naps, naps)
  {
  }

  /** `rs` lists the records of `v`, each pending order once. */
  ghost predicate ListsRecords(v: Store, rs: seq<Record>) {
    && (forall i :: 0 <= i < |rs| ==> RecordMatches(v, rs[i].order.attemptId, rs[i]))
    && (forall a :: a in v.pending ==> exists i :: 0 <= i < |rs| && rs[i].order.attemptId == a)
    && (forall i, j :: 0 <= i < j < |rs| ==> rs[i].order.attemptId != rs[j].order.attemptId)
  }

  /** `rs` holds the records that are not still to do, each once. */
  ghost predicate ListedSoFar(records: map<Attempt, Record>, todo: set<Attempt>, rs: seq<Record>) {
    && (forall i :: 0 <= i < |rs| ==> rs[i].order.attemptId in records && records[rs[i].order.attemptId] == rs[i])
    && (forall i :: 0 <= i < |rs| ==> rs[i].order.attemptId !in todo)
    && (forall a :: a in records && a !in todo ==> exists i :: 0 <= i < |rs| && rs[i].order.attemptId == a)
    && (forall i, j :: 0 <= i < j < |rs| ==> rs[i].order.attemptId != rs[j].order.attemptId)
  }

  lemma ListOne(records: map<Attempt, Record>, todo: set<Attempt>, rs: seq<Record>, a: Attempt)
    requires ListedSoFar(records, todo, rs) && a in todo && a in records && records[a].order.attemptId == a
    ensures ListedSoFar(records, todo - {a}, rs + [records[a]])
  {
    var all := rs + [records[a]];
    forall b | b in records && b !in todo - {a} ensures exists i :: 0 <= i < |all| && all[i].order.attemptId == b {
      if b == a {
        assert all[|rs|].order.attemptId == a;
      } else {
        var i :| 0 <= i < |rs| && rs[i].order.attemptId == b;
        assert all[i].order.attemptId == b;
      }
    }
  }

  method Listed(records: map<Attempt, Record>) returns (rs: seq<Record>)
    requires forall a :: a in records ==> records[a].order.attemptId == a
    ensures ListedSoFar(records, {}, rs)
  {
    rs := [];
    var todo := records.Keys;
    assert ListedSoFar(records, todo, rs);
    hide ListedSoFar;
    while todo != {}
      invariant todo <= records.Keys && ListedSoFar(records, todo, rs)
      decreases |todo|
    {
      var a :| a in todo;
      ListOne(records, todo, rs, a);
      rs := rs + [records[a]];
      todo := todo - {a};
    }
  }

  /** The records without a terminal observation are the unsettled orders, and the askable ones are the bound ones. */
  lemma PendingIsUnsettled(profile: string, v: Store, records: map<Attempt, Record>, pending: map<Attempt, Record>)
    requires ScanOk(profile, v) && records.Keys == v.pending.Keys
    requires forall a :: a in records ==> RecordMatches(v, a, records[a])
    requires pending == map a | a in records && !IsTerminal(records[a]) :: records[a]
    ensures pending.Keys == Unsettled(v) && Askable(pending) == Awaiting(v)
    ensures forall a :: a in pending && pending[a].orderId.Some? ==> a in Awaiting(v)
    ensures forall a :: a in pending ==> RecordMatches(v, a, pending[a])
  {
    hide *;
    BoundIsPending(profile, v);
    RecordFacts(profile, v, records);
    PendingSets(v, records, pending);
  }

  lemma RecordFacts(profile: string, v: Store, records: map<Attempt, Record>)
    requires ScanOk(profile, v) && forall a :: a in records ==> RecordMatches(v, a, records[a])
    ensures forall a :: a in records ==>
              (IsTerminal(records[a]) <==> TerminalIn(v, a)) && records[a].orderId == BrokerOf(v, a)
  {
    hide *;
    forall a | a in records
      ensures (IsTerminal(records[a]) <==> TerminalIn(v, a)) && records[a].orderId == BrokerOf(v, a)
    {
      TerminalMeansLast(profile, v, a, records[a]);
      MatchedOrderId(v, a, records[a]);
    }
  }

  lemma PendingSets(v: Store, records: map<Attempt, Record>, pending: map<Attempt, Record>)
    requires records.Keys == v.pending.Keys && forall a :: a in v.broker ==> a in v.pending
    requires forall a :: a in records ==>
               (IsTerminal(records[a]) <==> TerminalIn(v, a)) && records[a].orderId == BrokerOf(v, a)
    requires pending == map a | a in records && !IsTerminal(records[a]) :: records[a]
    ensures pending.Keys == Unsettled(v) && Askable(pending) == Awaiting(v)
    ensures forall a :: a in pending && pending[a].orderId.Some? ==> a in Awaiting(v)
    ensures forall a :: a in pending ==> a in records && pending[a] == records[a]
  {
    hide IsTerminal, TerminalIn;
  }

  lemma BoundIsPending(profile: string, v: Store)
    requires ScanOk(profile, v)
    ensures forall a :: a in v.broker ==> a in v.pending
  {
    hide EntryOk;
  }

  lemma RecordsKeepTheirNames(profile: string, v: Store, records: map<Attempt, Record>)
    requires ScanOk(profile, v) && records.Keys == v.pending.Keys
    requires forall a :: a in records ==> RecordMatches(v, a, records[a])
    ensures forall a :: a in records ==> records[a].order.attemptId == a
  {
  }

  lemma AllTellable(profile: string, v: Store, rs: seq<Record>)
    requires ScanOk(profile, v)
    requires forall i :: 0 <= i < |rs| ==> RecordMatches(v, rs[i].order.attemptId, rs[i])
    ensures forall i :: 0 <= i < |rs| ==> Tellable(rs[i])
  {
    forall i | 0 <= i < |rs| ensures Tellable(rs[i]) {
      var a, n := rs[i].order.attemptId, |rs[i].observations|;
      if n > 0 {
        assert At(rs[i].observations, n) == v.observed[(a, n)].outcome;
        assert EntryOk(v, (a, n).0, (a, n).1);
      }
      CheckedIsTellable(rs[i]);
    }
  }
}
