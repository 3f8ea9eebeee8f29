/**
 The durable settlement log of application/order_settlement.py, as a state machine.

 The marker store holds four kinds of create-once entries for each submission
 attempt: the pending order, the broker order id, the permanent id, and the
 numbered observations.  Any number of observer processes read the store, compare
 their new fact with the last entry they saw, and then try to create the next entry.
 A read may miss any entries: all it is known to return is a part of the store.
 */
module SettlementLog {
  import opened Wrappers
  import opened Arith
  import DecimalText

  type Attempt = string

  datatype Status = Filled | PartiallyFilled | Pending | Cancelled | Rejected | Unknown | Unsupported

  datatype Fill = Fill(executionId: string, quantity: real, price: real)

  datatype Outcome = Outcome(
    orderId: Option<string>, status: Status,
    filled: Option<real>, remaining: Option<real>, averagePrice: Option<real>,
    commission: Option<real>, lastUpdate: Option<string>, terminal: bool, fills: seq<Fill>)

  datatype Side = Buy | Sell

  /** A time stamp text, and whether it names its zone. */
  datatype Moment = Moment(text: string, zoned: bool)

  datatype Order = Order(
    attemptId: Attempt, strategy: string, symbol: string, side: Side, quantity: real,
    clientId: int, submittedAt: Moment, sourceRunId: string, sourceStartedAt: string)

  datatype Observation = Observation(sequence: nat, outcome: Outcome)

  datatype Store = Store(
    pending: map<Attempt, Order>,
    broker: map<Attempt, string>,
    permanent: map<Attempt, int>,
    observed: map<(Attempt, nat), Observation>)

  datatype Error =
    | ScanIncomplete | PendingMissing | RecordInvalid | SequenceInvalid | HistoryInvalid
    | OrderMismatch | StatusInvalid | UnknownTerminal | FactsInvalid
    | AttemptMissing | AttemptInvalid | TerminalConflict | NonMonotonicFill | ConcurrentUpdate
    | OrderInvalid | OrderIdInvalid | IdentityConflict | BoundsInvalid | BatchIncomplete

  const EMPTY_STORE := Store(map[], map[], map[], map[])
  const SCAN_LIMIT := 10000

  // ---------- checks on one outcome ----------

  /** Python's math.isclose with its default relative tolerance. */
  predicate IsClose(a: real, b: real) {
    a == b || AbsReal(a - b) <= 0.000000001 * MaxReal(AbsReal(a), AbsReal(b))
  }

  function FilledOrZero(o: Outcome): real {
    match o.filled case None => 0.0 case Some(q) => q
  }

  predicate TerminalStatus(s: Status) { s == Filled || s == Cancelled || s == Rejected }

  /** The first rule of the outcome check that `o` breaks, if any. */
  function ValidateOutcome(orderId: Option<string>, quantity: real, o: Outcome): Option<Error> {
    if o.orderId != orderId then Some(OrderMismatch)
    else if o.status == Unsupported then Some(StatusInvalid)
    else if o.status == Unknown then (if o.terminal then Some(UnknownTerminal) else None)
    else if
      || o.filled == None || o.remaining == None
      || o.filled.value < 0.0 || o.remaining.value < 0.0
      || !IsClose(o.filled.value + o.remaining.value, quantity)
      || (o.filled.value > 0.0 && (o.averagePrice == None || o.averagePrice.value <= 0.0))
      || o.terminal != TerminalStatus(o.status)
      || (o.status == Filled && (o.remaining.value != 0.0 || o.filled.value != quantity))
      || (o.status == Rejected && o.filled.value != 0.0)
    then Some(FactsInvalid)
    else None
  }

  /** Filled and remaining are there, not negative and add up to the order, and a fill has a price. */
  predicate FiguresOk(quantity: real, o: Outcome) {
    && o.filled.Some? && o.remaining.Some? && o.filled.value >= 0.0 && o.remaining.value >= 0.0
    && (o.filled.value > 0.0 ==> o.averagePrice.Some? && o.averagePrice.value > 0.0)
    && var sum := o.filled.value + o.remaining.value;
       1000000000.0 * AbsReal(sum - quantity) <= MaxReal(AbsReal(sum), AbsReal(quantity))
  }

  /** Exactly which outcomes are valid, status by status, and what is said of the others. */
  lemma OutcomeIsValidExactly(orderId: Option<string>, quantity: real, o: Outcome)
    ensures var v := ValidateOutcome(orderId, quantity, o);
            && (v == Some(OrderMismatch) <==> o.orderId != orderId)
            && (v == Some(StatusInvalid) <==> o.orderId == orderId && o.status == Unsupported)
            && (v == Some(UnknownTerminal) <==> o.orderId == orderId && o.status == Unknown && o.terminal)
            && (v.Some? ==> v.value in {OrderMismatch, StatusInvalid, UnknownTerminal, FactsInvalid})
    ensures ValidateOutcome(orderId, quantity, o) == None <==>
              o.orderId == orderId &&
              match o.status
              case Unsupported => false
              case Unknown => !o.terminal
              case Pending => !o.terminal && FiguresOk(quantity, o)
              case PartiallyFilled => !o.terminal && FiguresOk(quantity, o)
              case Cancelled => o.terminal && FiguresOk(quantity, o)
              case Rejected => o.terminal && FiguresOk(quantity, o) && o.filled == Some(0.0)
              case Filled =>
                o.terminal && FiguresOk(quantity, o) && o.remaining == Some(0.0) && o.filled == Some(quantity)
  {
  }

  // ---------- reading the store ----------

  function BrokerOf(v: Store, a: Attempt): Option<string> {
    if a in v.broker then Some(v.broker[a]) else None
  }

  function Size(v: Store): nat {
    |v.pending| + |v.broker| + |v.permanent| + |v.observed|
  }

  predicate HistoryOk(prior: Outcome, next: Outcome) {
    !prior.terminal && FilledOrZero(prior) <= FilledOrZero(next)
  }

  predicate EntryOk(v: Store, a: Attempt, n: nat)
    requires (a, n) in v.observed
  {
    && n >= 1 && a in v.pending
    && v.observed[(a, n)].sequence == n
    && ValidateOutcome(BrokerOf(v, a), v.pending[a].quantity, v.observed[(a, n)].outcome) == None
    && (n > 1 ==> (a, n - 1) in v.observed && HistoryOk(v.observed[(a, n - 1)].outcome, v.observed[(a, n)].outcome))
  }

  /** Every attempt mentioned has its pending order, kept under its own name and strategy. */
  predicate IdentitiesOk(profile: string, v: Store) {
    && (forall a :: a in v.broker ==> a in v.pending)
    && (forall a :: a in v.permanent ==> a in v.pending)
    && (forall k :: k in v.observed ==> k.0 in v.pending)
    && (forall a :: a in v.pending ==> v.pending[a].attemptId == a && v.pending[a].strategy == profile)
  }

  /** A scan of exactly the entries in `v` raises none of its errors. */
  predicate ScanOk(profile: string, v: Store) {
    && Size(v) <= SCAN_LIMIT
    && IdentitiesOk(profile, v)
    && (forall k {:trigger EntryOk(v, k.0, k.1)} :: k in v.observed ==> EntryOk(v, k.0, k.1))
  }

  /** `n` is the number of observations of `a`: the last one present is the n-th. */
  predicate IsLength(v: Store, a: Attempt, n: nat) {
    && (n >= 1 ==> (a, n) in v.observed)
    && (a, n + 1) !in v.observed
  }

  function Last(v: Store, a: Attempt, n: nat): Option<Outcome>
    requires n >= 1 ==> (a, n) in v.observed
  {
    if n == 0 then None else Some(v.observed[(a, n)].outcome)
  }

  ghost predicate SubStore(v: Store, w: Store) {
    && (forall a :: a in v.pending ==> a in w.pending && w.pending[a] == v.pending[a])
    && (forall a :: a in v.broker ==> a in w.broker && w.broker[a] == v.broker[a])
    && (forall a :: a in v.permanent ==> a in w.permanent && w.permanent[a] == v.permanent[a])
    && (forall k :: k in v.observed ==> k in w.observed && w.observed[k] == v.observed[k])
  }

  /** Which entries one read happens to return. */
  datatype Sight = Sight(pending: set<Attempt>, broker: set<Attempt>, permanent: set<Attempt>,
                         observed: set<(Attempt, nat)>)

  function See(w: Store, sight: Sight): (v: Store)
    ensures SubStore(v, w)
  {
    Store(
      map a | a in w.pending && a in sight.pending :: w.pending[a],
      map a | a in w.broker && a in sight.broker :: w.broker[a],
      map a | a in w.permanent && a in sight.permanent :: w.permanent[a],
      map k | k in w.observed && k in sight.observed :: w.observed[k])
  }

  // ---------- one observation attempt ----------

  datatype Decision = Refuse(error: Error) | Keep | Append(sequence: nat)

  /** What an observer does with `data` once its scan gave it this record. */
  function Decide(orderId: Option<string>, quantity: real, length: nat, last: Option<Outcome>, data: Outcome): Decision
  {
    var invalid := ValidateOutcome(orderId, quantity, data);
    if invalid.Some? then Refuse(invalid.value)
    else if last == None then Append(length + 1)
    else if last.value.terminal then
      if data.terminal && data != last.value then Refuse(TerminalConflict) else Keep
    else if last.value == data then Keep
    else if FilledOrZero(data) < FilledOrZero(last.value) then Refuse(NonMonotonicFill)
    else Append(length + 1)
  }

  /** `data` is news after `last`: nothing is there, or an open entry that differs and has no larger fill. */
  predicate MayFollow(last: Option<Outcome>, data: Outcome) {
    last.Some? ==> !last.value.terminal && last.value != data && FilledOrZero(last.value) <= FilledOrZero(data)
  }

  /** `data` says nothing new after `last`. */
  predicate AlreadyTold(last: Option<Outcome>, data: Outcome) {
    last.Some? && (last.value == data || (last.value.terminal && !data.terminal))
  }

  /** Two different settled ends, and a fill that falls. */
  predicate ContradictsEnd(last: Option<Outcome>, data: Outcome) {
    last.Some? && last.value.terminal && data.terminal && last.value != data
  }

  predicate FallsBack(last: Option<Outcome>, data: Outcome) {
    && last.Some? && !last.value.terminal && last.value != data
    && FilledOrZero(data) < FilledOrZero(last.value)
  }

  /** Exactly what an observer decides on a valid outcome; an invalid one is refused for its own reason. */
  lemma DecisionExactly(orderId: Option<string>, quantity: real, n: nat, last: Option<Outcome>, data: Outcome)
    ensures var d, invalid := Decide(orderId, quantity, n, last, data), ValidateOutcome(orderId, quantity, data);
            && (d == Append(n + 1) <==> invalid == None && MayFollow(last, data))
            && (d == Keep <==> invalid == None && AlreadyTold(last, data))
            && (invalid == None && ContradictsEnd(last, data) ==> d == Refuse(TerminalConflict))
            && (invalid == None && FallsBack(last, data) ==> d == Refuse(NonMonotonicFill))
            && (invalid.Some? ==> d == Refuse(invalid.value))
            && (d.Append? ==> d.sequence == n + 1)
    ensures MayFollow(last, data) || AlreadyTold(last, data) || ContradictsEnd(last, data) || FallsBack(last, data)
  {
    hide ValidateOutcome;
  }

  // ---------- the processes ----------

  /** An observer that has decided to create entry `sequence` and has not tried yet. */
  datatype Flight = Flight(attempt: Attempt, sequence: nat, outcome: Outcome)

  datatype State = State(store: Store, flights: map<nat, Flight>)

  const INITIAL := State(EMPTY_STORE, map[])

  datatype Step =
    | PrepareOrder(order: Order)
    | BindOrder(attempt: Attempt, orderId: string)
    | BindPermanent(attempt: Attempt, permanentId: int)
    | Read(observer: nat, attempt: Attempt, outcome: Outcome, sight: Sight, length: nat)
    | Claim(observer: nat)

  /** Sixty-four lower-case hexadecimal digits. */
  predicate AttemptOk(a: Attempt) { |a| == 64 && forall i :: 0 <= i < |a| ==> '0' <= a[i] <= '9' || 'a' <= a[i] <= 'f' }

  predicate SymbolOk(s: string) {
    1 <= |s| <= 32 && forall i :: 0 <= i < |s| ==> 'A' <= s[i] <= 'Z' || '0' <= s[i] <= '9' || s[i] in "._-"
  }

  /** The fields of an order that the store accepts. */
  predicate FieldsOk(o: Order) {
    o.quantity > 0.0 && SymbolOk(o.symbol) && o.clientId >= 0 && o.submittedAt.zoned && o.sourceRunId != ""
  }

  predicate Placeable(profile: string, o: Order) { o.strategy == profile && FieldsOk(o) && AttemptOk(o.attemptId) }

  /** A decimal text whose value is positive. */
  predicate OrderIdOk(id: string) {
    && |id| > 0
    && (forall i :: 0 <= i < |id| ==> '0' <= id[i] <= '9')
    && (exists i :: 0 <= i < |id| && id[i] != '0')
  }

  /** Exactly which orders are accepted, character by character. */
  lemma PlaceableExactly(profile: string, o: Order)
    ensures Placeable(profile, o) <==>
              && o.strategy == profile && o.quantity > 0.0 && 1 <= |o.symbol| <= 32
              && (forall c :: c in o.symbol ==> c in "ABCDEFGHIJKLMNOPQRSTUVWXYZ0123456789._-")
              && o.clientId >= 0 && o.submittedAt.zoned && o.sourceRunId != ""
              && |o.attemptId| == 64 && forall c :: c in o.attemptId ==> c in "0123456789abcdef"
  {
    forall c: char ensures c in "ABCDEFGHIJKLMNOPQRSTUVWXYZ0123456789._-" <==> SymbolCharacter(c) {
      SymbolCharacters(c);
    }
    forall c: char ensures c in "0123456789abcdef" <==> '0' <= c <= '9' || 'a' <= c <= 'f' { HexCharacters(c); }
    hide SymbolCharacter;
    assert SymbolOk(o.symbol) <==> 1 <= |o.symbol| <= 32 && forall c :: c in o.symbol ==> SymbolCharacter(c) by {
      SymbolOfCharacters(o.symbol);
    }
    assert forall i :: 0 <= i < |o.attemptId| ==> o.attemptId[i] in o.attemptId;
    hide SymbolOk;
  }

  predicate SymbolCharacter(c: char) { 'A' <= c <= 'Z' || '0' <= c <= '9' || c in "._-" }

  lemma SymbolCharacters(c: char)
    ensures c in "ABCDEFGHIJKLMNOPQRSTUVWXYZ0123456789._-" <==> SymbolCharacter(c)
  {
  }

  lemma HexCharacters(c: char)
    ensures c in "0123456789abcdef" <==> '0' <= c <= '9' || 'a' <= c <= 'f'
  {
  }

  lemma SymbolOfCharacters(s: string)
    ensures SymbolOk(s) <==> 1 <= |s| <= 32 && forall c :: c in s ==> SymbolCharacter(c)
  {
    assert forall i :: 0 <= i < |s| ==> s[i] in s;
  }

  /** A broker order id is accepted exactly when it is the digits of a positive number. */
  lemma OrderIdExactly(id: string)
    ensures OrderIdOk(id) <==> DecimalText.AllDigits(id) && DecimalText.Digits(id) > 0
  {
    if DecimalText.AllDigits(id) { PositiveDigits(id); }
  }

  lemma {:induction false} PositiveDigits(s: string)
    requires DecimalText.AllDigits(s)
    ensures DecimalText.Digits(s) > 0 <==> exists i :: 0 <= i < |s| && s[i] != '0'
  {
    if s != "" {
      var front := s[..|s| - 1];
      PositiveDigits(front);
      assert forall i :: 0 <= i < |front| ==> front[i] == s[i];
    }
  }

  /** Atomic create-if-absent of one observation. */
  function Created(w: Store, f: Flight): Store {
    if (f.attempt, f.sequence) in w.observed then w
    else w.(observed := w.observed[(f.attempt, f.sequence) := Observation(f.sequence, f.outcome)])
  }

  /**
   Scan `v`, pick the record of `a`, compare.  An observer that cannot do so
   raises and creates nothing.
   */
  function ReadAndDecide(profile: string, v: Store, a: Attempt, o: Outcome, n: nat): Decision {
    if !ScanOk(profile, v) || a !in v.pending || !IsLength(v, a, n) then Refuse(ScanIncomplete)
    else Decide(BrokerOf(v, a), v.pending[a].quantity, n, Last(v, a, n), o)
  }

  /**
   One step of one process.  Nothing makes a caller prepare before it binds, or bind
   before it observes.
   */
  function Next(profile: string, s: State, step: Step): State {
    var w := s.store;
    match step
    case PrepareOrder(o) =>
      if !Placeable(profile, o) || o.attemptId in w.pending then s
      else s.(store := w.(pending := w.pending[o.attemptId := o]))
    case BindOrder(a, id) =>
      if !AttemptOk(a) || !OrderIdOk(id) || a in w.broker then s
      else s.(store := w.(broker := w.broker[a := id]))
    case BindPermanent(a, id) =>
      if !AttemptOk(a) || a in w.permanent then s
      else s.(store := w.(permanent := w.permanent[a := id]))
    case Read(p, a, o, sight, n) =>
      var d := ReadAndDecide(profile, See(w, sight), a, o, n);
      if d.Append? then s.(flights := s.flights[p := Flight(a, d.sequence, o)]) else s
    case Claim(p) =>
      if p !in s.flights then s
      else State(Created(w, s.flights[p]), s.flights - {p})
  }

  /** Exactly what each step writes. */
  lemma StepIsExact(profile: string, s: State, step: Step)
    ensures var w, t := s.store, Next(profile, s, step);
            match step
            case PrepareOrder(o) =>
              t == s.(store := w.(pending := if Placeable(profile, o) && o.attemptId !in w.pending
                                             then w.pending[o.attemptId := o] else w.pending))
            case BindOrder(a, id) =>
              t == s.(store := w.(broker := if AttemptOk(a) && OrderIdOk(id) && a !in w.broker
                                            then w.broker[a := id] else w.broker))
            case BindPermanent(a, id) =>
              t == s.(store := w.(permanent := if AttemptOk(a) && a !in w.permanent
                                               then w.permanent[a := id] else w.permanent))
            case Read(p, a, o, sight, n) =>
              var v := See(w, sight);
              var news := && ScanOk(profile, v) && a in v.pending && IsLength(v, a, n)
                          && ValidateOutcome(BrokerOf(v, a), v.pending[a].quantity, o) == None
                          && (n > 0 ==> MayFollow(Some(v.observed[(a, n)].outcome), o));
              t == if news then s.(flights := s.flights[p := Flight(a, n + 1, o)]) else s
            case Claim(p) =>
              if p !in s.flights then t == s
              else
                var f := s.flights[p];
                && t.flights == s.flights - {p}
                && t.store == if (f.attempt, f.sequence) in w.observed then w
                              else w.(observed :=
                                        w.observed[(f.attempt, f.sequence) := Observation(f.sequence, f.outcome)])
  {
    hide ScanOk, See, ValidateOutcome, OrderIdOk, Placeable, AttemptOk, Decide, MayFollow;
    if step.Read? {
      var v := See(s.store, step.sight);
      if ScanOk(profile, v) && step.attempt in v.pending && IsLength(v, step.attempt, step.length) {
        DecisionExactly(BrokerOf(v, step.attempt), v.pending[step.attempt].quantity, step.length,
                        Last(v, step.attempt, step.length), step.outcome);
        NothingBefore(step.outcome);
      }
    }
  }

  lemma NothingBefore(data: Outcome)
    ensures MayFollow(None, data)
  {
  }

  function After(profile: string, s: State, steps: seq<Step>): State
    decreases |steps|
  {
    if steps == [] then s else After(profile, Next(profile, s, steps[0]), steps[1..])
  }

  // ---------- the invariant ----------

  /** `next` may come directly after `prior` in a log. */
  predicate LinkOk(prior: Outcome, next: Outcome) {
    HistoryOk(prior, next) && prior != next && prior.orderId == next.orderId
  }

  /** The order id an outcome names is the one bound to its attempt. */
  predicate NamesItsOrder(w: Store, a: Attempt, o: Outcome) {
    o.orderId.Some? ==> BrokerOf(w, a) == o.orderId
  }

  /** Entry `n` of `a` may hold `o`: valid for the order it names, and a proper successor of entry n-1. */
  ghost predicate FitsAt(w: Store, a: Attempt, n: nat, o: Outcome) {
    && n >= 1 && a in w.pending && NamesItsOrder(w, a, o)
    && ValidateOutcome(o.orderId, w.pending[a].quantity, o) == None
    && (n > 1 ==> (a, n - 1) in w.observed && LinkOk(w.observed[(a, n - 1)].outcome, o))
  }

  ghost predicate FlightFits(w: Store, f: Flight) { FitsAt(w, f.attempt, f.sequence, f.outcome) }

  ghost predicate StoredFits(w: Store, a: Attempt, n: nat)
    requires (a, n) in w.observed
  {
    w.observed[(a, n)].sequence == n && FitsAt(w, a, n, w.observed[(a, n)].outcome)
  }

  ghost predicate WellFormed(profile: string, w: Store) {
    && (forall a :: a in w.broker ==> OrderIdOk(w.broker[a]))
    && (forall a :: a in w.pending ==> w.pending[a].attemptId == a && Placeable(profile, w.pending[a]))
    && (forall a, n {:trigger StoredFits(w, a, n)} :: (a, n) in w.observed ==> StoredFits(w, a, n))
  }

  ghost predicate Inv(profile: string, s: State) {
    && WellFormed(profile, s.store)
    && (forall p :: p in s.flights ==> FlightFits(s.store, s.flights[p]))
  }

  /** Entries are created once and never change, so what fits keeps fitting. */
  lemma FitsIsStable(v: Store, w: Store, a: Attempt, n: nat, o: Outcome)
    requires SubStore(v, w) && FitsAt(v, a, n, o)
    ensures FitsAt(w, a, n, o)
  {
  }

  lemma StepGrows(profile: string, s: State, step: Step)
    ensures SubStore(s.store, Next(profile, s, step).store)
  {
  }

  /** A decision taken on a partial view is right about the whole store. */
  lemma DecisionFits(profile: string, w: Store, v: Store, a: Attempt, n: nat, o: Outcome)
    requires WellFormed(profile, w) && SubStore(v, w)
    requires a in v.pending && (n >= 1 ==> (a, n) in v.observed && EntryOk(v, a, n))
    requires Decide(BrokerOf(v, a), v.pending[a].quantity, n, Last(v, a, n), o) == Append(n + 1)
    ensures FitsAt(w, a, n + 1, o)
  {
  }

  lemma GrownEntriesFit(profile: string, v: Store, w: Store)
    requires WellFormed(profile, v) && SubStore(v, w)
    ensures forall a, n {:trigger StoredFits(w, a, n)} :: (a, n) in v.observed ==> StoredFits(w, a, n)
  {
    forall a, n | (a, n) in v.observed ensures StoredFits(w, a, n) {
      assert StoredFits(v, a, n);
      FitsIsStable(v, w, a, n, v.observed[(a, n)].outcome);
    }
  }

  lemma GrownFlightsFit(s: State, w: Store)
    requires SubStore(s.store, w)
    requires forall p :: p in s.flights ==> FlightFits(s.store, s.flights[p])
    ensures forall p :: p in s.flights ==> FlightFits(w, s.flights[p])
  {
    forall p | p in s.flights ensures FlightFits(w, s.flights[p]) {
      FitsIsStable(s.store, w, s.flights[p].attempt, s.flights[p].sequence, s.flights[p].outcome);
    }
  }

  lemma CreatedGrows(w: Store, f: Flight)
    ensures var t := Created(w, f);
            && SubStore(w, t) && t.pending == w.pending && t.broker == w.broker && t.permanent == w.permanent
            && (forall k :: k in t.observed && k !in w.observed ==>
                  k == (f.attempt, f.sequence) && t.observed[k] == Observation(f.sequence, f.outcome))
  {
  }

  lemma CreatedKeepsWellFormed(profile: string, w: Store, f: Flight)
    requires WellFormed(profile, w) && FitsAt(w, f.attempt, f.sequence, f.outcome)
    ensures WellFormed(profile, Created(w, f)) && SubStore(w, Created(w, f))
  {
    var t := Created(w, f);
    CreatedGrows(w, f);
    GrownEntriesFit(profile, w, t);
    FitsIsStable(w, t, f.attempt, f.sequence, f.outcome);
    hide FitsAt, SubStore, Created, OrderIdOk, Placeable;
    forall a, n | (a, n) in t.observed ensures StoredFits(t, a, n) {
      if (a, n) !in w.observed { assert t.observed[(a, n)] == Observation(f.sequence, f.outcome); }
    }
  }

  lemma ReadFits(profile: string, w: Store, v: Store, a: Attempt, o: Outcome, n: nat)
    requires WellFormed(profile, w) && SubStore(v, w)
    requires ReadAndDecide(profile, v, a, o, n).Append?
    ensures FitsAt(w, a, ReadAndDecide(profile, v, a, o, n).sequence, o)
  {
    hide WellFormed, SubStore, FitsAt, IdentitiesOk, EntryOk, ValidateOutcome;
    if n >= 1 { assert EntryOk(v, (a, n).0, (a, n).1); }
    DecisionFits(profile, w, v, a, n, o);
  }

  lemma ReadKeepsInv(profile: string, s: State, step: Step)
    requires Inv(profile, s) && step.Read?
    ensures Inv(profile, Next(profile, s, step))
  {
    hide WellFormed, FitsAt, ReadAndDecide;
    var v := See(s.store, step.sight);
    var d := ReadAndDecide(profile, v, step.attempt, step.outcome, step.length);
    if d.Append? {
      ReadFits(profile, s.store, v, step.attempt, step.outcome, step.length);
      FlightJoins(profile, s, step.observer, Flight(step.attempt, d.sequence, step.outcome));
    }
  }

  lemma FlightJoins(profile: string, s: State, p: nat, f: Flight)
    requires Inv(profile, s) && FitsAt(s.store, f.attempt, f.sequence, f.outcome)
    ensures Inv(profile, s.(flights := s.flights[p := f]))
  {
  }

  lemma ClaimKeepsInv(profile: string, s: State, step: Step)
    requires Inv(profile, s) && step.Claim?
    ensures Inv(profile, Next(profile, s, step))
  {
    if step.observer in s.flights {
      CreatedKeepsWellFormed(profile, s.store, s.flights[step.observer]);
      GrownFlightsFit(s, Next(profile, s, step).store);
    }
  }

  lemma IdentityKeepsInv(profile: string, s: State, step: Step)
    requires Inv(profile, s) && !step.Read? && !step.Claim?
    ensures Inv(profile, Next(profile, s, step))
  {
    var t := Next(profile, s, step);
    StepGrows(profile, s, step);
    GrownEntriesFit(profile, s.store, t.store);
    GrownFlightsFit(s, t.store);
  }

  lemma StepKeepsInv(profile: string, s: State, step: Step)
    requires Inv(profile, s)
    ensures Inv(profile, Next(profile, s, step))
  {
    if step.Read? { ReadKeepsInv(profile, s, step); }
    else if step.Claim? { ClaimKeepsInv(profile, s, step); }
    else { IdentityKeepsInv(profile, s, step); }
  }

  lemma {:induction false} RunKeepsInv(profile: string, s: State, steps: seq<Step>)
    requires Inv(profile, s)
    ensures Inv(profile, After(profile, s, steps))
    ensures SubStore(s.store, After(profile, s, steps).store)
    decreases |steps|
  {
    if steps != [] {
      StepKeepsInv(profile, s, steps[0]);
      StepGrows(profile, s, steps[0]);
      RunKeepsInv(profile, Next(profile, s, steps[0]), steps[1..]);
    }
  }

  lemma {:induction false} AfterJoins(profile: string, s: State, xs: seq<Step>, ys: seq<Step>)
    ensures After(profile, s, xs + ys) == After(profile, After(profile, s, xs), ys)
    decreases |xs|
  {
    if xs == [] {
      assert xs + ys == ys;
    } else {
      assert (xs + ys)[1..] == xs[1..] + ys;
      AfterJoins(profile, Next(profile, s, xs[0]), xs[1..], ys);
    }
  }

  // ---------- what holds of every reachable log ----------

  ghost predicate Reachable(profile: string, s: State) {
    exists steps :: After(profile, INITIAL, steps) == s
  }

  lemma ReachableInv(profile: string, s: State)
    requires Reachable(profile, s)
    ensures Inv(profile, s)
  {
    var steps :| After(profile, INITIAL, steps) == s;
    RunKeepsInv(profile, INITIAL, steps);
  }

  lemma {:induction false} Dense(profile: string, w: Store, a: Attempt, i: nat, j: nat)
    requires WellFormed(profile, w) && (a, j) in w.observed && 1 <= i <= j
    ensures (a, i) in w.observed
    ensures i < j ==> !w.observed[(a, i)].outcome.terminal
    ensures FilledOrZero(w.observed[(a, i)].outcome) <= FilledOrZero(w.observed[(a, j)].outcome)
    ensures w.observed[(a, i)].outcome.orderId == w.observed[(a, j)].outcome.orderId
    decreases j - i
  {
    assert StoredFits(w, a, j);
    if i < j {
      Dense(profile, w, a, i, j - 1);
    }
  }

  /**
   Every log reached by any interleaving of observers whose reads return arbitrary
   parts of the store: numbered densely from 1, each entry valid for the order it names,
   which is the bound one, nothing after a terminal entry, fills never falling,
   neighbours different, and one order id, or none, throughout.
   */
  lemma EveryReachableLogIsSound(profile: string, s: State, a: Attempt, i: nat, j: nat)
    requires Reachable(profile, s) && (a, j) in s.store.observed && 1 <= i <= j
    ensures (a, i) in s.store.observed && s.store.observed[(a, i)].sequence == i
    ensures a in s.store.pending && NamesItsOrder(s.store, a, s.store.observed[(a, i)].outcome)
    ensures var o := s.store.observed[(a, i)].outcome;
            ValidateOutcome(o.orderId, s.store.pending[a].quantity, o) == None
    ensures i < j ==> !s.store.observed[(a, i)].outcome.terminal
    ensures FilledOrZero(s.store.observed[(a, i)].outcome) <= FilledOrZero(s.store.observed[(a, j)].outcome)
    ensures s.store.observed[(a, i)].outcome.orderId == s.store.observed[(a, j)].outcome.orderId
    ensures i < j ==> (a, i + 1) in s.store.observed
    ensures i < j ==> s.store.observed[(a, i)].outcome != s.store.observed[(a, i + 1)].outcome
    ensures (a, 0) !in s.store.observed
  {
    ReachableInv(profile, s);
    Dense(profile, s.store, a, i, j);
    assert StoredFits(s.store, a, i);
    assert (a, 0) in s.store.observed ==> StoredFits(s.store, a, 0);
    if i + 1 <= j {
      Dense(profile, s.store, a, i + 1, j);
      assert StoredFits(s.store, a, i + 1);
    }
  }

  /** A terminal observation closes the log of its attempt for every later run of every process. */
  lemma TerminalLogIsFinal(profile: string, s: State, steps: seq<Step>, a: Attempt, n: nat)
    requires Reachable(profile, s)
    requires (a, n) in s.store.observed && s.store.observed[(a, n)].outcome.terminal
    ensures var t := After(profile, s, steps);
            forall m: nat ::
              && ((a, m) in t.store.observed <==> (a, m) in s.store.observed)
              && ((a, m) in s.store.observed ==> t.store.observed[(a, m)] == s.store.observed[(a, m)])
  {
    ReachableInv(profile, s);
    RunKeepsInv(profile, s, steps);
    var t := After(profile, s, steps);
    forall m: nat | (a, m) in t.store.observed ensures (a, m) in s.store.observed {
      assert StoredFits(t.store, a, m);
      if m > n {
        assert StoredFits(s.store, a, n);
        Dense(profile, t.store, a, n, m);
      } else {
        Dense(profile, s.store, a, m, n);
      }
    }
  }

  /** The filled quantity the summary reports for `a`; no observation and no figure both read as zero. */
  ghost function ReportedFill(w: Store, a: Attempt, n: nat): real
    requires n >= 1 ==> (a, n) in w.observed
  {
    if n == 0 then 0.0 else FilledOrZero(w.observed[(a, n)].outcome)
  }

  /**
   Between two points of a run the reported fill never falls, once an observation
   exists; from the empty log it never falls provided the first figure is not negative.
   */
  lemma ReportedFillGrows(profile: string, s: State, steps: seq<Step>, a: Attempt, n: nat, m: nat)
    requires Reachable(profile, s)
    requires IsLength(s.store, a, n) && IsLength(After(profile, s, steps).store, a, m)
    ensures n <= m
    ensures var t := After(profile, s, steps).store;
            n >= 1 || ((a, 1) in t.observed ==> FilledOrZero(t.observed[(a, 1)].outcome) >= 0.0)
            ==> ReportedFill(s.store, a, n) <= ReportedFill(t, a, m)
  {
    ReachableInv(profile, s);
    RunKeepsInv(profile, s, steps);
    var t := After(profile, s, steps).store;
    if m < n { Dense(profile, s.store, a, m + 1, n); }
    if 1 <= n <= m { Dense(profile, t, a, n, m); }
    if n == 0 && m >= 1 { Dense(profile, t, a, 1, m); }
  }

  ghost predicate HasFirst(w: Store, a: Attempt, m: nat) { forall i: nat :: 1 <= i <= m ==> (a, i) in w.observed }

  /** The reported fill never falls along the first m observations, counting from none. */
  ghost predicate FillsGrow(w: Store, a: Attempt, m: nat)
    requires HasFirst(w, a, m)
  {
    forall i: nat, j: nat :: i <= j <= m ==> ReportedFill(w, a, i) <= ReportedFill(w, a, j)
  }

  /** Exactly when the reported fill grows over the whole life of a log: its first figure is not negative. */
  lemma FillsGrowExactly(profile: string, s: State, a: Attempt, m: nat)
    requires Reachable(profile, s) && IsLength(s.store, a, m)
    ensures HasFirst(s.store, a, m)
    ensures FillsGrow(s.store, a, m) <==> (m >= 1 ==> FilledOrZero(s.store.observed[(a, 1)].outcome) >= 0.0)
  {
    ReachableInv(profile, s);
    hide Inv, WellFormed;
    assert WellFormed(profile, s.store) by { InvHasWellFormed(profile, s); }
    forall i: nat | 1 <= i <= m ensures (a, i) in s.store.observed { Dense(profile, s.store, a, i, m); }
    if m >= 1 && FilledOrZero(s.store.observed[(a, 1)].outcome) >= 0.0 {
      forall i: nat, j: nat | i <= j <= m ensures ReportedFill(s.store, a, i) <= ReportedFill(s.store, a, j) {
        if i >= 1 { Dense(profile, s.store, a, i, j); } else if j >= 1 { Dense(profile, s.store, a, 1, j); }
      }
    }
    if m >= 1 && FillsGrow(s.store, a, m) { assert ReportedFill(s.store, a, 0) <= ReportedFill(s.store, a, 1); }
  }

  lemma InvHasWellFormed(profile: string, s: State)
    requires Inv(profile, s)
    ensures WellFormed(profile, s.store)
  {
  }
}
