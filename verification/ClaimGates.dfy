/**
 The persistent breaker and the execution claim as the code runs them
 (application/account_new_risk_gate_support.py and rebalance_service.py): the journal
 changes in place, and the claim keeps two captured flags over the shared store.
 */
module ClaimGates {
  import opened Wrappers
  import opened ExecutionClaims

  // ---------- the breaker journal and the claim, as the code runs them ----------

  class BreakerJournal {
    var open: bool

    constructor ()
      ensures !open
    {
      open := false;
    }

    method RecordOpen(fate: Fate) returns (raised: bool)
      modifies this
      ensures open <==> old(open) || fate != RaisesUndone
      ensures raised <==> fate != Returns
    {
      if fate != RaisesUndone { open := true; }
      raised := fate != Returns;
    }

    method ReadState(read: ReadBack) returns (state: Option<bool>)
      ensures state == if read == Truthful then Some(open) else None
    {
      state := if read == Truthful then Some(open) else None;
    }
  }

  /** Restore an open breaker before admission and record a breach before returning; doubt prohibits. */
  method EvaluatePersistent(journal: BreakerJournal?, e: Evaluation) returns (prohibited: bool, reason: Option<string>)
    requires e.session <==> journal != null
    modifies journal
    ensures journal != null ==>
              (journal.open <==> old(journal.open) || (e.hardBrake && e.write != RaisesUndone))
    ensures prohibited <==>
              || journal == null || (e.hardBrake && e.write != Returns) || e.read != Truthful
              || journal.open || e.prohibited
    ensures reason == Some("PERSISTENT_BREAKER_UNAVAILABLE") <==>
              journal == null || (e.hardBrake && e.write != Returns) || e.read != Truthful
    ensures reason == Some("CIRCUIT_BREAKER_OPEN") <==>
              journal != null && journal.open && e.read == Truthful && (e.hardBrake ==> e.write == Returns)
    ensures reason == None ==> prohibited == e.prohibited
    ensures reason in {None, Some("CIRCUIT_BREAKER_OPEN"), Some("PERSISTENT_BREAKER_UNAVAILABLE")}
    ensures prohibited <==> Prohibits(journal != null && old(journal.open), e)
    ensures journal != null ==> journal.open == BreakerAfter(old(journal.open), e)
  {
    if journal == null { return true, Some("PERSISTENT_BREAKER_UNAVAILABLE"); }
    if e.hardBrake {
      var raised := journal.RecordOpen(e.write);
      if raised { return true, Some("PERSISTENT_BREAKER_UNAVAILABLE"); }
    }
    var state := journal.ReadState(e.read);
    if state == None { return true, Some("PERSISTENT_BREAKER_UNAVAILABLE"); }
    if !state.value { return e.prohibited, None; }
    return true, Some("CIRCUIT_BREAKER_OPEN");
  }

  /** The claim of one cycle: two captured flags over the shared store. */
  class ClaimGate {
    const conf: nat -> Conf
    const me: nat
    var world: State
    var attempted: bool
    var acquired: bool

    ghost predicate Valid()
      reads this
    {
      && (!attempted ==> !acquired && PhaseOf(world, me) == Locked)
      && (attempted ==> (acquired <==> PhaseOf(world, me) == Claimed))
      && (attempted && !acquired ==> PhaseOf(world, me) in {Refused, Ended})
    }

    constructor (conf: nat -> Conf, me: nat, world: State)
      requires PhaseOf(world, me) == Locked
      ensures Valid() && this.conf == conf && this.me == me && this.world == world && !attempted
    {
      this.conf, this.me, this.world := conf, me, world;
      attempted, acquired := false, false;
    }

    /** Other cycles act between the owner fence and the marker. */
    method Interfere(others: seq<Step>)
      requires forall i :: 0 <= i < |others| ==> others[i].cycle != me
      modifies this`world
      ensures world == After(conf, old(world), others)
      ensures PhaseOf(world, me) == old(PhaseOf(world, me))
    {
      var i := 0;
      while i < |others|
        invariant 0 <= i <= |others|
        invariant After(conf, world, others[i..]) == After(conf, old(world), others)
        invariant PhaseOf(world, me) == old(PhaseOf(world, me))
      {
        StepMoves(conf, world, others[i]);
        world := Next(conf, world, others[i]);
        assert others[i..][1..] == others[i + 1..];
        i := i + 1;
      }
    }

    /** The owner fence: the first owner of an account keeps it.  None stands for an exception. */
    method FenceOwner(fate: Fate) returns (r: Option<bool>)
      requires PhaseOf(world, me) == Locked
      modifies this`world
      ensures world == Next(conf, old(world), ClaimOwner(me, fate))
      ensures PhaseOf(world, me) == if r == Some(true) then OwnerHeld else Refused
      ensures var k := conf(me);
              var live := !k.dryRun && k.dedup && k.marker != "" && k.hasStore;
              && (r == Some(false) <==> !live)
              && (r == Some(true) <==>
                    && live && k.account.Some? && fate == Returns
                    && (k.account.value !in old(world).owners || old(world).owners[k.account.value] == k.owner))
    {
      var k := conf(me);
      world := Log(world, Attempted(me));
      if k.dryRun || !k.dedup || k.marker == "" || !k.hasStore {
        world := Enter(world, me, Refused);
        return Some(false);
      }
      if k.account == None || fate == RaisesUndone { world := Enter(world, me, Refused); return None; }
      var a := k.account.value;
      if a !in world.owners { world := world.(owners := world.owners[a := k.owner]); }
      if fate != Returns || world.owners[a] != k.owner { world := Enter(world, me, Refused); return None; }
      world := Enter(world, me, OwnerHeld);
      r := Some(true);
    }

    /** The marker: free, and only once. */
    method TakeMarker(fate: Fate) returns (r: Option<bool>)
      requires PhaseOf(world, me) == OwnerHeld
      modifies this`world
      ensures world == Next(conf, old(world), ClaimMarker(me, fate))
      ensures PhaseOf(world, me) == if r == Some(true) then Claimed else Refused
      ensures r == None <==> fate != Returns
      ensures r == Some(true) <==>
                fate == Returns && conf(me).marker !in old(world).claims && conf(me).marker !in old(world).recorded
    {
      var k := conf(me);
      if fate == RaisesUndone { world := Enter(world, me, Refused); return None; }
      var free := k.marker !in world.claims && k.marker !in world.recorded;
      if free { world := world.(claims := world.claims[k.marker := me]); }
      world := Enter(world, me, if free && fate == Returns then Claimed else Refused);
      r := if fate == Returns then Some(free) else None;
    }

    /**
     The first call claims owner and marker; every later call repeats its answer without
     touching the store.  None stands for an exception.
     */
    method Acquire(ownerFate: Fate, others: seq<Step>, markerFate: Fate) returns (r: Option<bool>)
      requires Valid() && forall i :: 0 <= i < |others| ==> others[i].cycle != me
      modifies this
      ensures Valid() && attempted
      ensures r == Some(true) <==> acquired
      ensures old(attempted) ==> world == old(world) && acquired == old(acquired) && r == Some(acquired)
      ensures !old(attempted) ==>
                var held := Next(conf, old(world), ClaimOwner(me, ownerFate));
                world == if PhaseOf(held, me) == OwnerHeld
                         then Next(conf, After(conf, held, others), ClaimMarker(me, markerFate))
                         else held
    {
      hide Next;
      if attempted { return Some(acquired); }
      attempted := true;
      r := FenceOwner(ownerFate);
      if r != Some(true) { return; }
      Interfere(others);
      r := TakeMarker(markerFate);
      acquired := r == Some(true);
    }
  }
}
