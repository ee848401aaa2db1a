/** Concurrent live verifications sharing one counting semaphore. */
module VerificationSlots {
  /** Where a verification stands; from Checking to Comparing it holds a slot. */
  datatype Pc = Arriving | Checking | AskingQuota | Fetching | Comparing | Settling | Done

  /** The slots taken and the verifications begun, for a fixed number of slots. */
  datatype State = State(slots: int, calls: map<nat, Pc>)

  const INITIAL := State(0, map[])

  datatype Event = Arrive(id: nat) | Advance(id: nat, fine: bool)

  predicate Holds(pc: Pc) {
    pc.Checking? || pc.AskingQuota? || pc.Fetching? || pc.Comparing?
  }

  /** One step of a verification: its new place, and the slots taken after it. The send never blocks. */
  function Advanced(pc: Pc, fine: bool, slots: int, maxSlots: nat): (Pc, int) {
    match pc
    case Arriving => if slots < maxSlots then (Checking, slots + 1) else (Done, slots)
    case Checking => if fine then (AskingQuota, slots) else (Done, slots - 1)
    case AskingQuota => if fine then (Fetching, slots) else (Done, slots - 1)
    case Fetching => if fine then (Comparing, slots) else (Settling, slots - 1)
    case Comparing => (Settling, slots - 1)
    case Settling => (Done, slots)
    case Done => (Done, slots)
  }

  function Step(s: State, e: Event, maxSlots: nat): State {
    match e
    case Arrive(id) => if id in s.calls then s else s.(calls := s.calls[id := Arriving])
    case Advance(id, fine) =>
      if id !in s.calls then s
      else
        var (pc, slots) := Advanced(s.calls[id], fine, s.slots, maxSlots);
        State(slots, s.calls[id := pc])
  }

  function Run(events: seq<Event>, maxSlots: nat): State {
    if events == [] then INITIAL else Step(Run(events[..|events| - 1], maxSlots), events[|events| - 1], maxSlots)
  }

  function Holders(calls: map<nat, Pc>): set<nat> {
    set id | id in calls && Holds(calls[id])
  }

  function Fetchers(calls: map<nat, Pc>): set<nat> {
    set id | id in calls && calls[id].Fetching?
  }

  lemma OneMoves(calls: map<nat, Pc>, id: nat, pc: Pc)
    ensures Holders(calls[id := pc]) == if Holds(pc) then Holders(calls) + {id} else Holders(calls) - {id}
  {
  }

  ghost predicate SlotsAreHeld(s: State, maxSlots: nat) {
    0 <= s.slots <= maxSlots && s.slots == |Holders(s.calls)|
  }

  lemma StepKeepsSlots(s: State, e: Event, maxSlots: nat)
    requires SlotsAreHeld(s, maxSlots)
    ensures SlotsAreHeld(Step(s, e, maxSlots), maxSlots)
  {
    match e
    case Arrive(id) =>
      if id !in s.calls {
        OneMoves(s.calls, id, Arriving);
        assert Holders(s.calls) - {id} == Holders(s.calls);
      }
    case Advance(id, fine) =>
      if id in s.calls {
        var pc := Advanced(s.calls[id], fine, s.slots, maxSlots).0;
        OneMoves(s.calls, id, pc);
        assert id in Holders(s.calls) <==> Holds(s.calls[id]);
        if !Holds(pc) && !Holds(s.calls[id]) {
          assert Holders(s.calls) - {id} == Holders(s.calls);
        }
        if Holds(pc) && Holds(s.calls[id]) {
          assert Holders(s.calls) + {id} == Holders(s.calls);
        }
      }
  }

  /**
   * Under any interleaving of verifications and outcomes, the slots taken are exactly those held, so
   * no more than maxSlots live fetches are ever in flight.
   */
  lemma {:induction false} FetchesNeverExceedSlots(events: seq<Event>, maxSlots: nat)
    ensures SlotsAreHeld(Run(events, maxSlots), maxSlots)
    ensures |Fetchers(Run(events, maxSlots).calls)| <= maxSlots
  {
    if events != [] {
      FetchesNeverExceedSlots(events[..|events| - 1], maxSlots);
      StepKeepsSlots(Run(events[..|events| - 1], maxSlots), events[|events| - 1], maxSlots);
    }
    var calls := Run(events, maxSlots).calls;
    Within(Fetchers(calls), Holders(calls));
  }

  lemma {:induction false} Within(a: set<nat>, b: set<nat>)
    requires a <= b
    ensures |a| <= |b|
  {
    if a != {} {
      var x :| x in a;
      Within(a - {x}, b - {x});
    }
  }

  /** When every verification is done, every slot is free again. */
  lemma IdleMeansFree(events: seq<Event>, maxSlots: nat)
    requires forall id :: id in Run(events, maxSlots).calls ==> Run(events, maxSlots).calls[id].Done?
    ensures Run(events, maxSlots).slots == 0
  {
    FetchesNeverExceedSlots(events, maxSlots);
    assert Holders(Run(events, maxSlots).calls) == {};
  }

  /** A verification is turned away exactly when every slot is held by another one. */
  lemma BusyMeansFull(events: seq<Event>, maxSlots: nat, id: nat, fine: bool)
    requires id in Run(events, maxSlots).calls && Run(events, maxSlots).calls[id].Arriving?
    ensures var s := Run(events, maxSlots);
            Step(s, Advance(id, fine), maxSlots).calls[id].Done? <==> |Holders(s.calls) - {id}| == maxSlots
  {
    FetchesNeverExceedSlots(events, maxSlots);
    var calls := Run(events, maxSlots).calls;
    assert Holders(calls) - {id} == Holders(calls);
  }
}
