/** Concrete pool slots: which slots a pool may use, which slot a persisted session holds,
    and the choice of a slot for a fresh session. */
module PoolSlots {
  import opened PoolNames
  import opened Text

  // The configured agent. `max` is max_active_sessions: absent or negative is unlimited.
  datatype Agent = Agent(name: string, binding: string, dir: string, hasNamepool: bool, themed: seq<string>, max: Option<int>)
  {
    function Qualify(instance: string): string {
      var bound := if binding == "" then instance else binding + "." + instance;
      if dir == "" then bound else dir + "/" + bound
    }

    function QualifiedName(): string {
      Qualify(name)
    }

    function BindingQualifiedName(): string {
      if binding == "" then name else binding + "." + name
    }

    // A pool of one without a namepool runs under the configured name itself, on slot 0.
    predicate UsesCanonicalIdentity() {
      !hasNamepool && themed == [] && max == Some(1)
    }

    function InstanceName(slot: int): string
      requires slot >= 0
    {
      if 1 <= slot <= |themed| then themed[slot - 1] else Instance(name, slot)
    }
  }

  // ---- The recogniser -----------------------------------------------------------

  predicate HasBound(a: Agent) {
    a.themed != [] || a.max.Some?
  }

  predicate InBounds(a: Agent, slot: int) {
    && slot > 0 && HasBound(a)
    && (a.themed == [] || slot <= |a.themed|)
    && (a.max.Some? && a.max.value > 0 ==> slot <= a.max.value)
  }

  predicate Usable(a: Agent, slot: int) {
    slot > 0 && (!HasBound(a) || InBounds(a, slot))
  }

  // What a persisted session row says about its slot: the slots its agent name, alias and
  // runtime name resolve to (0 for none), its stored pool_slot numeral, and whether its
  // stored template is this pool's.
  datatype Evidence = Evidence(agentSlot: nat, aliasSlot: nat, nameSlot: nat, stored: Option<int>, templateMatches: bool)

  function ExistingSlot(a: Agent, e: Evidence): (slot: int)
    ensures slot >= 0
    ensures HasBound(a) && !a.UsesCanonicalIdentity() ==> slot == 0 || Usable(a, slot)
    ensures a.UsesCanonicalIdentity() ==> slot == 0
  {
    if a.UsesCanonicalIdentity() then 0
    else if e.stored.Some? && e.stored.value > 0 then
      var slot := e.stored.value;
      if e.agentSlot > 0 && e.agentSlot != slot && Usable(a, e.agentSlot) then e.agentSlot
      else if !e.templateMatches && e.agentSlot == 0 && e.aliasSlot == 0 then 0
      else if InBounds(a, slot) then slot
      else if Usable(a, e.agentSlot) then e.agentSlot
      else if Usable(a, e.aliasSlot) then e.aliasSlot
      else if Usable(a, e.nameSlot) then e.nameSlot
      else if HasBound(a) then 0
      else slot
    else
      var keep := (s: nat) => if HasBound(a) && !Usable(a, s) then 0 else s;
      if keep(e.agentSlot) > 0 then e.agentSlot
      else if keep(e.aliasSlot) > 0 then e.aliasSlot
      else keep(e.nameSlot)
  }

  // ---- The allocator's range ----------------------------------------------------

  // What freshPoolSlotUpperBound answers.
  datatype Range = NoCapacity | Singleton | Unlimited | UpTo(upper: nat)

  function FreshRange(a: Agent): Range {
    if a.max == Some(0) then NoCapacity
    else if a.UsesCanonicalIdentity() then Singleton
    else
      var unlimited := a.max.None? || a.max.value < 0;
      if a.themed != [] then UpTo(if unlimited || |a.themed| < a.max.value then |a.themed| else a.max.value)
      else if unlimited then Unlimited
      else UpTo(a.max.value)
  }

  predicate InRange(r: Range, slot: int) {
    match r
    case NoCapacity => false
    case Singleton => slot == 0
    case Unlimited => slot >= 1
    case UpTo(upper) => 1 <= slot <= upper
  }

  /** The allocator offers exactly the slots the recogniser calls usable, unless the pool is
      disabled or is a canonical singleton. */
  lemma RangeIsUsable(a: Agent, slot: int)
    requires a.max != Some(0) && !a.UsesCanonicalIdentity()
    ensures InRange(FreshRange(a), slot) <==> Usable(a, slot)
  {
  }

  /** In the two excluded cases they differ: a disabled pool still recognises held slots, and
      the singleton allocates slot 0, which is never usable as a numbered slot. */
  lemma RangeDiffers(a: Agent)
    requires a.max == Some(0) || a.UsesCanonicalIdentity()
    ensures exists slot :: InRange(FreshRange(a), slot) != Usable(a, slot)
  {
    assert Usable(a, 1) && !InRange(FreshRange(a), 1);
  }

  // ---- Choosing a fresh slot ----------------------------------------------------

  // A row of the session census. `canonical` says it answers to the agent's own name.
  datatype Holder = Holder(failed: bool, canonical: bool, evidence: Evidence)

  // Slots held by the census rows; a failed create holds none.
  ghost function HeldSlots(a: Agent, census: seq<Holder>): set<int> {
    set i | 0 <= i < |census| && !census[i].failed && InRange(FreshRange(a), ExistingSlot(a, census[i].evidence))
      :: ExistingSlot(a, census[i].evidence)
  }

  ghost predicate CanonicalHeld(census: seq<Holder>) {
    exists i :: 0 <= i < |census| && !census[i].failed && census[i].canonical
  }

  // The fresh slot is the least one that is neither taken in this pass nor held.
  ghost predicate LeastFree(r: Range, occupied: set<int>, slot: int) {
    && InRange(r, slot) && slot !in occupied
    && forall s :: InRange(r, s) && s !in occupied ==> slot <= s
  }

  lemma {:induction false} FullPrefix(occupied: set<int>, k: nat)
    requires forall s :: 1 <= s <= k ==> s in occupied
    ensures k <= |occupied|
    decreases k
  {
    if k > 0 {
      FullPrefix(occupied - {k}, k - 1);
    }
  }

  /** The slots taken so far in one realisation pass. */
  class SlotBook {
    var used: set<int>

    constructor ()
      ensures used == {}
    {
      used := {};
    }

    /** Claims the least free slot. Census holders only block; they are not recorded. */
    method ClaimFresh(a: Agent, census: seq<Holder>) returns (slot: Option<int>)
      modifies this
      ensures slot.Some? ==> used == old(used) + {slot.value} && slot.value !in old(used)
      ensures slot.None? ==> used == old(used)
      ensures FreshRange(a) == Singleton ==> (slot.Some? <==> 0 !in old(used) && !CanonicalHeld(census))
      ensures FreshRange(a) != Singleton ==>
                && (slot.Some? ==> LeastFree(FreshRange(a), old(used) + HeldSlots(a, census), slot.value))
                && (slot.None? <==> forall s :: InRange(FreshRange(a), s) ==> s in old(used) + HeldSlots(a, census))
      ensures slot.Some? && FreshRange(a) == Unlimited ==> slot.value <= |old(used) + HeldSlots(a, census)| + 1
      ensures slot.Some? ==> InRange(FreshRange(a), slot.value)
    {
      var r := FreshRange(a);
      if r == NoCapacity {
        return None;
      }
      if r == Singleton {
        slot := ClaimCanonical(census);
        return;
      }
      var occupied := Occupied(a, census);
      var k := 1;
      while r == Unlimited || k <= r.upper
        invariant k >= 1 && used == old(used)
        invariant forall s :: 1 <= s < k ==> s in occupied
        decreases |occupied| + 1 - k
      {
        if k !in occupied {
          FullPrefix(occupied, k - 1);
          used := used + {k};
          return Some(k);
        }
        FullPrefix(occupied, k);
        k := k + 1;
      }
      slot := None;
    }

    method ClaimCanonical(census: seq<Holder>) returns (slot: Option<int>)
      modifies this
      ensures slot == if 0 in old(used) || CanonicalHeld(census) then None else Some(0)
      ensures used == old(used) + if slot.Some? then {0} else {}
    {
      if 0 in used {
        return None;
      }
      for i := 0 to |census|
        invariant used == old(used)
        invariant forall j :: 0 <= j < i ==> census[j].failed || !census[j].canonical
      {
        if !census[i].failed && census[i].canonical {
          return None;
        }
      }
      used := used + {0};
      slot := Some(0);
    }

    // The union of this pass's claims and the census holders.
    method Occupied(a: Agent, census: seq<Holder>) returns (occupied: set<int>)
      ensures occupied == used + HeldSlots(a, census)
    {
      occupied := used;
      for i := 0 to |census|
        invariant occupied == used + HeldSlots(a, census[..i])
      {
        assert census[..i + 1][..i] == census[..i];
        if !census[i].failed {
          var slot := ExistingSlot(a, census[i].evidence);
          if InRange(FreshRange(a), slot) {
            occupied := occupied + {slot};
          }
        }
      }
      assert census[..|census|] == census;
    }
  }
}
