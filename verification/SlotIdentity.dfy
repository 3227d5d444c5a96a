/** Reading a pool slot back from the names a session row persists. */
module SlotIdentity {
  import opened PoolNames
  import opened PoolSlots
  import opened Text

  // strconv.Atoi: the value, and whether it parsed. Out of range still yields the bound.
  datatype Parsed = Parsed(value: int, ok: bool)

  function Atoi(s: string): Parsed {
    var signed := s != "" && (s[0] == '+' || s[0] == '-');
    var digits := if signed then s[1..] else s;
    if digits == "" || !AllDigits(digits) then Parsed(0, false)
    else
      var v := NumeralValue(digits);
      var negative := signed && s[0] == '-';
      if negative && v > MAX_INT + 1 then Parsed(0 - MAX_INT - 1, false)
      else if !negative && v > MAX_INT then Parsed(MAX_INT, false)
      else Parsed(if negative then 0 - v else v, true)
  }

  // resolvePoolSlot: `<template>-<n>`, or the older `<template>-gc-<n>`.
  function NamedSlot(name: string, template: string): int {
    if !HasPrefix(name, template + "-") then 0
    else
      var suffix := name[|template| + 1..];
      if Atoi(suffix).ok then Atoi(suffix).value
      else if HasPrefix(suffix, "gc-") then Atoi(suffix[3..]).value
      else 0
  }

  // The first namepool entry from idx on that spells the name, bare or qualified.
  function ThemedSlot(a: Agent, name: string, idx: nat): (slot: nat)
    requires idx <= |a.themed|
    ensures slot == 0 || idx < slot <= |a.themed|
    decreases |a.themed| - idx
  {
    if idx == |a.themed| then 0
    else if a.themed[idx] != "" && (a.themed[idx] == name || a.Qualify(a.themed[idx]) == name) then idx + 1
    else ThemedSlot(a, name, idx + 1)
  }

  // resolvePersistedPoolIdentitySlot on one name.
  function PersistedSlot(a: Agent, allowLocal: bool, name: string): (slot: nat) {
    if name == "" then 0
    else if NamedSlot(name, a.QualifiedName()) > 0 then NamedSlot(name, a.QualifiedName())
    else if a.binding != "" && NamedSlot(name, a.BindingQualifiedName()) > 0 then NamedSlot(name, a.BindingQualifiedName())
    else if a.binding == "" && allowLocal && NamedSlot(name, a.name) > 0 then NamedSlot(name, a.name)
    else ThemedSlot(a, name, 0)
  }

  // What a row freshly created on a slot persists: the qualified instance name as agent name,
  // the same or nothing as alias, and the slot itself.
  function Printed(a: Agent, slot: nat): string {
    a.Qualify(a.InstanceName(slot))
  }

  function FreshEvidence(a: Agent, slot: nat, aliased: bool, nameSlot: nat, templateMatches: bool): Evidence {
    var s := PersistedSlot(a, templateMatches, Printed(a, slot));
    Evidence(s, if aliased then s else 0, nameSlot, Some(slot), templateMatches)
  }

  lemma NumberedSlot(template: string, slot: nat)
    requires slot <= MAX_INT
    ensures NamedSlot(Instance(template, slot), template) == slot
  {
    var name := Instance(template, slot);
    assert name == (template + "-") + Numeral(slot);
    assert name[|template| + 1..] == Numeral(slot);
    ValueOfNumeral(slot);
  }

  lemma Regroup(prefix: string, base: string, dash: string, digits: string)
    ensures prefix + (base + dash + digits) == (prefix + base) + dash + digits
  {
  }

  lemma QualifiedInstance(a: Agent, slot: nat)
    ensures a.Qualify(Instance(a.name, slot)) == Instance(a.QualifiedName(), slot)
  {
    var digits, bound := Numeral(slot), a.BindingQualifiedName();
    Regroup(a.binding + ".", a.name, "-", digits);
    Regroup(a.dir + "/", bound, "-", digits);
  }

  /** A session created on an allocated slot is read back next time as holding that slot -
      exactly unless its printed name also resolves to another usable slot, or resolves to
      none while the stored template is not this pool's either. */
  lemma SlotReadBack(a: Agent, slot: nat, aliased: bool, nameSlot: nat, templateMatches: bool)
    requires 1 <= slot <= MAX_INT && InRange(FreshRange(a), slot)
    ensures var other := PersistedSlot(a, templateMatches, Printed(a, slot));
            var back := ExistingSlot(a, FreshEvidence(a, slot, aliased, nameSlot, templateMatches));
            back == slot <==> other == slot || (if other == 0 then templateMatches else !Usable(a, other))
  {
    RangeIsUsable(a, slot);
    PrintedResolves(a, slot, templateMatches);
  }

  // A printed instance name always resolves to some slot.
  lemma PrintedResolves(a: Agent, slot: nat, allowLocal: bool)
    requires 1 <= slot <= MAX_INT && InRange(FreshRange(a), slot)
    ensures |a.themed| == 0 ==> PersistedSlot(a, allowLocal, Printed(a, slot)) == slot
    ensures Printed(a, slot) != "" && (slot <= |a.themed| ==> a.themed[slot - 1] != "") ==>
              PersistedSlot(a, allowLocal, Printed(a, slot)) > 0
  {
    if slot <= |a.themed| {
      ThemedFound(a, Printed(a, slot), 0, slot - 1);
    } else {
      QualifiedInstance(a, slot);
      NumberedSlot(a.QualifiedName(), slot);
    }
  }

  lemma {:induction false} ThemedFound(a: Agent, name: string, idx: nat, k: nat)
    requires idx <= k < |a.themed|
    requires a.themed[k] != "" ==> a.themed[k] == name || a.Qualify(a.themed[k]) == name
    ensures a.themed[k] != "" ==> 0 < ThemedSlot(a, name, idx) <= k + 1
    decreases k - idx
  {
    if idx < k {
      ThemedFound(a, name, idx + 1, k);
    }
  }

  /** Numbered pools therefore always read back what they allocated. */
  lemma NumberedReadBack(a: Agent, slot: nat, aliased: bool, nameSlot: nat, templateMatches: bool)
    requires a.themed == [] && 1 <= slot <= MAX_INT && InRange(FreshRange(a), slot)
    ensures ExistingSlot(a, FreshEvidence(a, slot, aliased, nameSlot, templateMatches)) == slot
  {
    PrintedResolves(a, slot, templateMatches);
    SlotReadBack(a, slot, aliased, nameSlot, templateMatches);
  }

  /** A namepool entry that looks like a numbered instance does not: slot 1 of a pool `w` with
      namepool ["w-2", "b"] comes back as slot 2. */
  lemma ThemedNameMisread()
    ensures var a := Agent("w", "", "", true, ["w-2", "b"], None);
            InRange(FreshRange(a), 1) && ExistingSlot(a, FreshEvidence(a, 1, true, 0, true)) == 2
  {
    var a := Agent("w", "", "", true, ["w-2", "b"], None);
    assert Numeral(2) == "2";
    assert Printed(a, 1) == Instance("w", 2);
    NumberedSlot("w", 2);
    assert PersistedSlot(a, true, Printed(a, 1)) == 2;
  }
}
