/** What one realisation pass of a pool decides: for each request an existing session, a fresh
    create, or nothing. */
module PoolPlan {
  import opened CreateBudgets
  import opened PoolSlots
  import opened Text

  // ---- Requests and sessions ----------------------------------------------------

  // An existing session. `aboveCapacity` is the concrete slot it keeps when only the maximum
  // was lowered beneath it (0 for none); `canonical` that it may be reused as the singleton.
  datatype Session = Session(
    id: string, failed: bool, manual: bool, named: bool, hasRuntimeName: bool,
    canonical: bool, evidence: Evidence, aboveCapacity: nat)

  // `reusable` lists, oldest first, the sessions that could serve this request; normalising the
  // identity of those in `broken` would fail. `resumes` says the request resumes assigned work
  // of its preferred session, and `triggerOk` that its work directory can be verified.
  datatype Request = Request(prefer: Option<Session>, resumes: bool, reusable: seq<Session>, broken: set<string>, triggerOk: bool)

  datatype Choice = Reuse(session: Session, slot: int) | Plan(slot: int) | RefusedReuse | RefusedPlan

  // What blocks fresh creates for the whole pass.
  datatype Gates = Gates(snapshotComplete: bool, partialDemand: bool, providerRed: bool)

  datatype Pool = Pool(agent: Agent, census: seq<Holder>, number: nat, gates: Gates)
  {
    predicate Canonical() {
      agent.UsesCanonicalIdentity()
    }

    predicate Ungated() {
      gates.snapshotComplete && !gates.partialDemand && !gates.providerRed
    }

    // A slot a fresh create may take: in range, and held by no live session.
    ghost predicate GoodPlan(slot: int) {
      && InRange(FreshRange(agent), slot)
      && if FreshRange(agent) == Singleton then !CanonicalHeld(census) else slot !in HeldSlots(agent, census)
    }
  }

  // The books of a pass: slots taken, sessions in use, and the create budget.
  datatype Books = Books(slots: set<int>, ids: set<string>, tokens: Tokens)

  // ---- Slots ----------------------------------------------------------------------

  lemma OneLeast(r: Range, occupied: set<int>, a: int, b: int)
    requires LeastFree(r, occupied, a) && LeastFree(r, occupied, b)
    ensures a == b
  {
  }

  // The slot a fresh create takes: the least one neither taken in this pass nor held.
  ghost function FreshSlot(p: Pool, slots: set<int>): (s: Option<int>)
    ensures s.Some? ==> s.value !in slots && p.GoodPlan(s.value)
  {
    var r, occupied := FreshRange(p.agent), slots + HeldSlots(p.agent, p.census);
    if r == Singleton then (if 0 in slots || CanonicalHeld(p.census) then None else Some(0))
    else if exists k :: LeastFree(r, occupied, k) then var k :| LeastFree(r, occupied, k); Some(k)
    else None
  }

  lemma FreshIsLeast(p: Pool, slots: set<int>)
    requires FreshRange(p.agent) != Singleton && FreshSlot(p, slots).Some?
    ensures LeastFree(FreshRange(p.agent), slots + HeldSlots(p.agent, p.census), FreshSlot(p, slots).value)
  {
  }

  // The least positive slot not taken in this pass.
  ghost function LeastUnused(slots: set<int>): int {
    if exists k :: LeastFree(Unlimited, slots, k) then var k :| LeastFree(Unlimited, slots, k); k else 0
  }

  // The slot a session is given when reused: the one it holds, or the least unused one; 0 when
  // the one it holds is taken.
  ghost function HeldClaim(p: Pool, slots: set<int>, e: Evidence): int {
    var held := ExistingSlot(p.agent, e);
    if held > 0 then (if held in slots then 0 else held) else LeastUnused(slots)
  }

  // A preferred session that resumes work keeps its slot above a lowered maximum too.
  ghost function PreferredClaim(p: Pool, slots: set<int>, session: Session, resumes: bool): int {
    if resumes && session.aboveCapacity > 0 then (if session.aboveCapacity in slots then 0 else session.aboveCapacity)
    else HeldClaim(p, slots, session.evidence)
  }

  // ---- The choice -------------------------------------------------------------------

  // The request names a live session of its own.
  predicate Preferred(ids: set<string>, r: Request) {
    r.prefer.Some? && r.prefer.value.id != "" && r.prefer.value.id !in ids && !r.prefer.value.failed
  }

  // Reusing the session means renaming it to the singleton's identity, and that fails. Only
  // singleton pools rename, and never manual or named sessions.
  predicate Breaks(p: Pool, r: Request, session: Session) {
    p.Canonical() && !session.manual && !session.named && session.id in r.broken
  }

  // The session could serve with the books as they are.
  ghost predicate Serves(p: Pool, b: Books, session: Session, canonicalOnly: bool) {
    && session.id !in b.ids && session.hasRuntimeName
    && if p.Canonical() then canonicalOnly ==> session.canonical else HeldClaim(p, b.slots, session.evidence) > 0
  }

  // The first of the sessions that could serve.
  ghost function First(p: Pool, b: Books, sessions: seq<Session>, canonicalOnly: bool): (s: Option<Session>)
    ensures s.Some? ==> s.value in sessions && Serves(p, b, s.value, canonicalOnly)
    ensures s.None? ==> forall i :: 0 <= i < |sessions| ==> !Serves(p, b, sessions[i], canonicalOnly)
  {
    if sessions == [] then None
    else if Serves(p, b, sessions[0], canonicalOnly) then Some(sessions[0])
    else First(p, b, sessions[1..], canonicalOnly)
  }

  // A singleton looks for a session of its own name first.
  ghost function Reusable(p: Pool, b: Books, r: Request): Option<Session> {
    var own := First(p, b, r.reusable, true);
    if own.Some? || !p.Canonical() then own else First(p, b, r.reusable, false)
  }

  // Everything a fresh create needs is there.
  ghost predicate CanPlan(p: Pool, b: Books, r: Request) {
    p.Ungated() && r.triggerOk && FreshSlot(p, b.slots).Some? && b.tokens.Open(p.number)
  }

  ghost function Reused(p: Pool, r: Request, session: Session, slot: int): Choice {
    if Breaks(p, r, session) || (slot == 0 && !p.Canonical()) then RefusedReuse else Reuse(session, slot)
  }

  ghost function Choose(p: Pool, b: Books, r: Request): Choice {
    if Preferred(b.ids, r) then
      Reused(p, r, r.prefer.value, if p.Canonical() then 0 else PreferredClaim(p, b.slots, r.prefer.value, r.resumes))
    else
      var session := Reusable(p, b, r);
      if session.Some? then
        Reused(p, r, session.value, if p.Canonical() then 0 else HeldClaim(p, b.slots, session.value.evidence))
      else if CanPlan(p, b, r) then Plan(FreshSlot(p, b.slots).value)
      else RefusedPlan
  }

  // The books after a choice. A refusal leaves them exactly as they were.
  function Booked(p: Pool, b: Books, c: Choice): Books
    requires c.Plan? ==> b.tokens.Open(p.number)
  {
    match c
    case Reuse(_, slot) => b.(slots := b.slots + if slot > 0 then {slot} else {})
    case Plan(slot) => b.(slots := b.slots + {slot}, tokens := b.tokens.Granted(p.number))
    case _ => b
  }

  lemma {:induction false} SomeUnused(slots: set<int>, k: nat)
    requires forall s :: 1 <= s <= k ==> s in slots
    ensures exists s :: LeastFree(Unlimited, slots, s)
    decreases |slots| - k
  {
    FullPrefix(slots, k);
    if k + 1 in slots {
      FullPrefix(slots, k + 1);
      SomeUnused(slots, k + 1);
    } else {
      assert LeastFree(Unlimited, slots, k + 1);
    }
  }

  lemma UnusedIsFree(slots: set<int>)
    ensures LeastFree(Unlimited, slots, LeastUnused(slots))
  {
    SomeUnused(slots, 0);
  }

  // A claim takes the slot the session holds and nothing that is taken; it fails exactly when
  // that slot is taken.
  lemma ClaimExact(p: Pool, slots: set<int>, e: Evidence)
    ensures HeldClaim(p, slots, e) >= 0 && HeldClaim(p, slots, e) !in slots - {0}
    ensures HeldClaim(p, slots, e) == 0 <==> ExistingSlot(p.agent, e) > 0 && ExistingSlot(p.agent, e) in slots
  {
    UnusedIsFree(slots);
  }

  /** A choice never takes a slot or a session that is taken, and a plan's slot is in range and
      held by no live session. */
  lemma ChoiceSound(p: Pool, b: Books, r: Request)
    ensures var c := Choose(p, b, r);
            && (c.Reuse? ==> c.slot >= 0 && c.session.id !in b.ids && (c.slot > 0 ==> c.slot !in b.slots))
            && (c.Plan? ==> c.slot !in b.slots && p.GoodPlan(c.slot) && p.Ungated() && b.tokens.Open(p.number))
  {
    if Preferred(b.ids, r) {
      ClaimExact(p, b.slots, r.prefer.value.evidence);
    } else if Reusable(p, b, r).Some? {
      ClaimExact(p, b.slots, Reusable(p, b, r).value.evidence);
    }
  }

  /** A preferred session is served on its own slot - the one it holds, or keeps above capacity -
      exactly when that slot is still free; a singleton's exactly when it can take the name. */
  lemma PreferredServed(p: Pool, b: Books, r: Request)
    requires Preferred(b.ids, r)
    ensures var s := r.prefer.value;
            var own: int := if r.resumes && s.aboveCapacity > 0 then s.aboveCapacity else ExistingSlot(p.agent, s.evidence);
            var c := Choose(p, b, r);
            if p.Canonical() then c == (if Breaks(p, r, s) then RefusedReuse else Reuse(s, 0))
            else if own > 0 then c == (if own in b.slots then RefusedReuse else Reuse(s, own))
            else c.Reuse? && c.session == s && LeastFree(Unlimited, b.slots, c.slot)
  {
    UnusedIsFree(b.slots);
  }

  /** Nothing is refused that could be had: a request without a live session of its own is refused
      exactly when no reusable session serves it and a create lacks gate, trigger, slot or token,
      or when the session it falls to cannot take the singleton's name. */
  lemma RefusedExactly(p: Pool, b: Books, r: Request)
    requires !Preferred(b.ids, r)
    ensures Choose(p, b, r).RefusedPlan? <==>
              !CanPlan(p, b, r) && forall i :: 0 <= i < |r.reusable| ==> !Serves(p, b, r.reusable[i], false)
    ensures Choose(p, b, r).RefusedReuse? <==> Reusable(p, b, r).Some? && Breaks(p, r, Reusable(p, b, r).value)
    ensures Choose(p, b, r).Plan? <==>
              CanPlan(p, b, r) && forall i :: 0 <= i < |r.reusable| ==> !Serves(p, b, r.reusable[i], false)
  {
    if Reusable(p, b, r).Some? {
      ClaimExact(p, b.slots, Reusable(p, b, r).value.evidence);
    }
  }

  // ---- All requests in order ----------------------------------------------------------

  datatype Item = Skip | Served(id: string, slot: int) | Planned(slot: int)

  // A named session never becomes a pool instance.
  predicate Named(r: Request) {
    r.prefer.Some? && r.prefer.value.named
  }

  ghost function ItemFor(p: Pool, b: Books, r: Request): Item {
    if Named(r) then Skip
    else match Choose(p, b, r)
      case Plan(slot) => Planned(slot)
      case Reuse(session, slot) => Served(session.id, slot)
      case _ => Skip
  }

  ghost function BooksAfter(p: Pool, b: Books, r: Request): Books {
    if Named(r) then b
    else
      ChoiceSound(p, b, r);
      var c := Choose(p, b, r);
      var b' := Booked(p, b, c);
      if c.Reuse? then b'.(ids := b'.ids + {c.session.id}) else b'
  }

  // The books before request n, and the items of the first n requests.
  ghost function BooksAt(p: Pool, b: Books, requests: seq<Request>, n: nat): Books
    requires n <= |requests|
  {
    if n == 0 then b else BooksAfter(p, BooksAt(p, b, requests, n - 1), requests[n - 1])
  }

  ghost function Items(p: Pool, b: Books, requests: seq<Request>, n: nat): (items: seq<Item>)
    requires n <= |requests|
    ensures |items| == n
  {
    if n == 0 then [] else Items(p, b, requests, n - 1) + [ItemFor(p, BooksAt(p, b, requests, n - 1), requests[n - 1])]
  }

  lemma {:induction false} ItemAt(p: Pool, b: Books, requests: seq<Request>, n: nat, i: nat)
    requires i < n <= |requests|
    ensures Items(p, b, requests, n)[i] == ItemFor(p, BooksAt(p, b, requests, i), requests[i])
  {
    if i < n - 1 {
      ItemAt(p, b, requests, n - 1, i);
    }
  }

  predicate TakesSlot(item: Item) {
    item.Planned? || (item.Served? && item.slot > 0)
  }

  ghost function SlotsOf(items: seq<Item>): set<int> {
    set i | 0 <= i < |items| && TakesSlot(items[i]) :: items[i].slot
  }

  ghost function IdsOf(items: seq<Item>): set<string> {
    set i | 0 <= i < |items| && items[i].Served? :: items[i].id
  }

  function Plans(items: seq<Item>): set<nat> {
    set i: nat | i < |items| && items[i].Planned?
  }

  // No slot is taken and no session served twice.
  ghost predicate Apart(items: seq<Item>) {
    && (forall i, j :: 0 <= i < j < |items| && TakesSlot(items[i]) && TakesSlot(items[j]) ==> items[i].slot != items[j].slot)
    && (forall i, j :: 0 <= i < j < |items| && items[i].Served? && items[j].Served? ==> items[i].id != items[j].id)
  }

  // The books of a fresh pass account for exactly the items so far.
  ghost predicate Accounts(t: Tokens, items: seq<Item>, b: Books) {
    && b.slots == SlotsOf(items) && b.ids == IdsOf(items)
    && b.tokens.Valid() && b.tokens.limited == t.limited
    && (t.limited ==> b.tokens.remaining + |Plans(items)| == t.remaining)
  }

  lemma OneMoreItem(items: seq<Item>, item: Item)
    requires Apart(items)
    requires TakesSlot(item) ==> item.slot !in SlotsOf(items)
    requires item.Served? ==> item.id !in IdsOf(items)
    ensures Apart(items + [item])
  {
    assert forall i :: 0 <= i < |items| && TakesSlot(items[i]) ==> items[i].slot in SlotsOf(items);
    assert forall i :: 0 <= i < |items| && items[i].Served? ==> items[i].id in IdsOf(items);
  }

  lemma MoreSlots(items: seq<Item>, item: Item)
    ensures SlotsOf(items + [item]) == SlotsOf(items) + if TakesSlot(item) then {item.slot} else {}
  {
    var more := items + [item];
    assert forall i :: 0 <= i < |items| ==> more[i] == items[i];
    assert more[|items|] == item;
  }

  lemma MoreIds(items: seq<Item>, item: Item)
    ensures IdsOf(items + [item]) == IdsOf(items) + if item.Served? then {item.id} else {}
  {
    var more := items + [item];
    assert forall i :: 0 <= i < |items| ==> more[i] == items[i];
    assert more[|items|] == item;
  }

  lemma MorePlans(items: seq<Item>, item: Item)
    ensures |Plans(items + [item])| == |Plans(items)| + if item.Planned? then 1 else 0
  {
    assert Plans(items + [item]) == Plans(items) + if item.Planned? then {|items|} else {};
  }

  lemma OneMoreAccount(p: Pool, t: Tokens, items: seq<Item>, b: Books, r: Request)
    requires Apart(items) && Accounts(t, items, b)
    ensures Apart(items + [ItemFor(p, b, r)]) && Accounts(t, items + [ItemFor(p, b, r)], BooksAfter(p, b, r))
  {
    ChoiceSound(p, b, r);
    MoreSlots(items, ItemFor(p, b, r));
    MoreIds(items, ItemFor(p, b, r));
    MorePlans(items, ItemFor(p, b, r));
    OneMoreItem(items, ItemFor(p, b, r));
    if !Named(r) && Choose(p, b, r).Plan? {
      GrantKeepsValid(b.tokens, p.number);
    }
  }

  /** Over all requests of a pass: no slot is taken twice and no session serves twice; the slot
      book holds exactly the slots of the items, so every refusal left it as it was; and exactly
      one token is gone for each plan. */
  lemma {:induction false} ItemsAccounted(p: Pool, t: Tokens, requests: seq<Request>, n: nat)
    requires t.Valid() && n <= |requests|
    ensures var items := Items(p, Books({}, {}, t), requests, n);
            Apart(items) && Accounts(t, items, BooksAt(p, Books({}, {}, t), requests, n))
  {
    if n > 0 {
      ItemsAccounted(p, t, requests, n - 1);
      OneMoreAccount(p, t, Items(p, Books({}, {}, t), requests, n - 1), BooksAt(p, Books({}, {}, t), requests, n - 1), requests[n - 1]);
    } else {
      assert Plans([]) == {};
    }
  }

  /** A planned slot is in range, held by no live session and planned only past the gates. */
  lemma PlansGood(p: Pool, b: Books, requests: seq<Request>, i: nat)
    requires i < |requests| && Items(p, b, requests, |requests|)[i].Planned?
    ensures p.GoodPlan(Items(p, b, requests, |requests|)[i].slot) && p.Ungated()
  {
    ItemAt(p, b, requests, |requests|, i);
    ChoiceSound(p, BooksAt(p, b, requests, i), requests[i]);
  }

  /** A request is skipped exactly when its preferred session is a named one, or its own session's
      slot is taken or name unavailable, or, without one, no session serves it and a create is
      not to be had. */
  lemma SkippedExactly(p: Pool, b: Books, requests: seq<Request>, i: nat)
    requires i < |requests|
    ensures var r, at := requests[i], BooksAt(p, b, requests, i);
            Items(p, b, requests, |requests|)[i].Skip? <==>
              || Named(r)
              || (Preferred(at.ids, r) && (Breaks(p, r, r.prefer.value) || (!p.Canonical() && PreferredClaim(p, at.slots, r.prefer.value, r.resumes) == 0)))
              || (!Preferred(at.ids, r) && Reusable(p, at, r).Some? && Breaks(p, r, Reusable(p, at, r).value))
              || (!Preferred(at.ids, r) && !CanPlan(p, at, r) && forall j :: 0 <= j < |r.reusable| ==> !Serves(p, at, r.reusable[j], false))
  {
    var r, at := requests[i], BooksAt(p, b, requests, i);
    ItemAt(p, b, requests, |requests|, i);
    if !Preferred(at.ids, r) {
      RefusedExactly(p, at, r);
    }
  }

  // ---- Results --------------------------------------------------------------------------

  datatype CreateResult = Created(id: string) | CreateFailed

  datatype Entry = Entry(id: string, slot: int)

  ghost function Failures(items: seq<Item>, results: seq<CreateResult>): set<nat>
    requires |items| == |results|
  {
    set i: nat | i < |items| && items[i].Planned? && results[i].CreateFailed?
  }

  ghost function Successes(items: seq<Item>, results: seq<CreateResult>): set<nat>
    requires |items| == |results|
  {
    set i: nat | i < |items| && items[i].Planned? && results[i].Created?
  }

  ghost function FailedSlots(items: seq<Item>, results: seq<CreateResult>): set<int>
    requires |items| == |results|
  {
    set i | 0 <= i < |items| && items[i].Planned? && results[i].CreateFailed? :: items[i].slot
  }

  // One pending create less.
  lemma OneDone(items: seq<Item>, results: seq<CreateResult>, pending: set<nat>, i: nat)
    requires |items| == |results| && i in pending && pending <= Plans(items)
    ensures |Failures(items, results) - (pending - {i})| ==
            |Failures(items, results) - pending| + if results[i].CreateFailed? then 1 else 0
  {
    var done := Failures(items, results) - pending;
    assert Failures(items, results) - (pending - {i}) == done + if results[i].CreateFailed? then {i} else {};
  }

  // The tokens as they stand while some creates are still under way.
  ghost function Settled(t: Tokens, items: seq<Item>, results: seq<CreateResult>, pending: set<nat>): Tokens
    requires |items| == |results|
  {
    t.Refunded(|Failures(items, results) - pending|)
  }

  lemma SettledAll(t: Tokens, items: seq<Item>, results: seq<CreateResult>)
    requires t.Valid() && |items| == |results|
    ensures Settled(t, items, results, Plans(items)) == t && Settled(t, items, results, {}) == t.Refunded(|Failures(items, results)|)
  {
    assert Failures(items, results) - Plans(items) == {};
    assert Failures(items, results) - {} == Failures(items, results);
    RefundsAdd(t, 0);
  }

  lemma OneSettled(t: Tokens, items: seq<Item>, results: seq<CreateResult>, pending: set<nat>, i: nat)
    requires t.Valid() && |items| == |results| && i in pending && pending <= Plans(items)
    ensures var now := Settled(t, items, results, pending);
            now.Valid() && Settled(t, items, results, pending - {i}) == if results[i].CreateFailed? then now.Refunded(1) else now
  {
    OneDone(items, results, pending, i);
    RefundsAdd(t, |Failures(items, results) - pending|);
  }

  lemma MoreFailed(items: seq<Item>, results: seq<CreateResult>, n: nat)
    requires |items| == |results| && n < |items|
    ensures FailedSlots(items[..n + 1], results[..n + 1]) == FailedSlots(items[..n], results[..n]) +
              if items[n].Planned? && results[n].CreateFailed? then {items[n].slot} else {}
  {
    var now, rs := items[..n + 1], results[..n + 1];
    assert forall i :: 0 <= i < n ==> now[i] == items[..n][i] && rs[i] == results[..n][i];
    assert now[n] == items[n] && rs[n] == results[n];
  }

  // The sessions in use once the first n results are in.
  ghost function IdsAt(items: seq<Item>, results: seq<CreateResult>, ids: set<string>, n: nat): set<string>
    requires |items| == |results| && n <= |items|
  {
    ids + set i | 0 <= i < n && items[i].Planned? && results[i].Created? :: results[i].id
  }

  // The entry item i comes to: its session, unless the create failed or made a session in use.
  ghost function EntryAt(items: seq<Item>, results: seq<CreateResult>, ids: set<string>, i: nat): Option<Entry>
    requires |items| == |results| && i < |items|
  {
    match items[i]
    case Skip => None
    case Served(id, slot) => Some(Entry(id, slot))
    case Planned(slot) =>
      if results[i].Created? && results[i].id !in IdsAt(items, results, ids, i) then Some(Entry(results[i].id, slot)) else None
  }

  ghost function Entries(items: seq<Item>, results: seq<CreateResult>, ids: set<string>, n: nat): seq<Entry>
    requires |items| == |results| && n <= |items|
  {
    if n == 0 then []
    else
      var e := EntryAt(items, results, ids, n - 1);
      Entries(items, results, ids, n - 1) + if e.Some? then [e.value] else []
  }

  lemma {:induction false} EntryComes(items: seq<Item>, results: seq<CreateResult>, ids: set<string>, n: nat, e: Entry)
    requires |items| == |results| && n <= |items|
    ensures e in Entries(items, results, ids, n) <==> exists i :: 0 <= i < n && EntryAt(items, results, ids, i) == Some(e)
  {
    if n > 0 {
      EntryComes(items, results, ids, n - 1, e);
    }
  }

  ghost predicate HasSession(es: seq<Entry>, id: string) {
    exists e :: e in es && e.id == id
  }

  // Every request that was served has its session among the entries, and every create that
  // succeeded has its: the new one, or the entry of the session it turned out to be.
  ghost predicate AllAppear(items: seq<Item>, results: seq<CreateResult>, es: seq<Entry>) {
    && |items| == |results|
    && (forall i :: 0 <= i < |items| && items[i].Served? ==> Entry(items[i].id, items[i].slot) in es)
    && (forall i :: 0 <= i < |items| && items[i].Planned? && results[i].Created? ==> HasSession(es, results[i].id))
  }

  /** Nothing that was served or created is left out of the entries. */
  lemma CreatesAppear(items: seq<Item>, results: seq<CreateResult>)
    requires |items| == |results|
    ensures AllAppear(items, results, Entries(items, results, IdsOf(items), |items|))
  {
    var ids := IdsOf(items);
    forall i | 0 <= i < |items| && items[i].Served?
      ensures Entry(items[i].id, items[i].slot) in Entries(items, results, ids, |items|)
    {
      assert EntryAt(items, results, ids, i) == Some(Entry(items[i].id, items[i].slot));
      EntryComes(items, results, ids, |items|, Entry(items[i].id, items[i].slot));
    }
    forall i | 0 <= i < |items| && items[i].Planned? && results[i].Created?
      ensures HasSession(Entries(items, results, ids, |items|), results[i].id)
    {
      var j := FirstWith(items, results, ids, i);
      EntryComes(items, results, ids, |items|, EntryAt(items, results, ids, j).value);
    }
  }

  // The item whose entry carries the session create i made.
  lemma {:induction false} FirstWith(items: seq<Item>, results: seq<CreateResult>, ids: set<string>, i: nat) returns (j: nat)
    requires |items| == |results| && i < |items| && items[i].Planned? && results[i].Created? && ids == IdsOf(items)
    ensures j < |items| && EntryAt(items, results, ids, j).Some? && EntryAt(items, results, ids, j).value.id == results[i].id
    decreases i
  {
    if results[i].id in ids {
      j :| 0 <= j < |items| && items[j].Served? && items[j].id == results[i].id;
    } else if results[i].id in IdsAt(items, results, ids, i) {
      var k :| 0 <= k < i && items[k].Planned? && results[k].Created? && results[k].id == results[i].id;
      j := FirstWith(items, results, ids, k);
    } else {
      j := i;
    }
  }

  lemma EntryIdsDiffer(items: seq<Item>, results: seq<CreateResult>, i: nat, j: nat)
    requires |items| == |results| && i < j < |items| && Apart(items)
    requires EntryAt(items, results, IdsOf(items), i).Some? && EntryAt(items, results, IdsOf(items), j).Some?
    ensures EntryAt(items, results, IdsOf(items), i).value.id != EntryAt(items, results, IdsOf(items), j).value.id
  {
    assert items[i].Served? ==> items[i].id in IdsOf(items);
    assert items[j].Served? ==> items[j].id in IdsOf(items);
    assert items[i].Planned? ==> results[i].id in IdsAt(items, results, IdsOf(items), j);
  }

  ghost predicate DistinctIds(es: seq<Entry>) {
    forall k, m :: 0 <= k < m < |es| ==> es[k].id != es[m].id
  }

  lemma OneMoreEntry(es: seq<Entry>, e: Entry)
    requires DistinctIds(es) && forall other :: other in es ==> other.id != e.id
    ensures DistinctIds(es + [e])
  {
    assert forall k :: 0 <= k < |es| ==> es[k] in es;
  }

  /** No session has two entries. */
  lemma {:induction false} EntriesApart(items: seq<Item>, results: seq<CreateResult>, n: nat)
    requires |items| == |results| && n <= |items| && Apart(items)
    ensures DistinctIds(Entries(items, results, IdsOf(items), n))
  {
    if n > 0 {
      EntriesApart(items, results, n - 1);
      var es := Entries(items, results, IdsOf(items), n - 1);
      var last := EntryAt(items, results, IdsOf(items), n - 1);
      if last.Some? {
        forall e | e in es
          ensures e.id != last.value.id
        {
          EntryComes(items, results, IdsOf(items), n - 1, e);
          var i :| 0 <= i < n - 1 && EntryAt(items, results, IdsOf(items), i) == Some(e);
          EntryIdsDiffer(items, results, i, n - 1);
        }
        OneMoreEntry(es, last.value);
      } else {
        assert es + [] == es;
      }
    }
  }

  // A claimed slot is free again exactly when its create failed.
  lemma FreedSlots(items: seq<Item>, results: seq<CreateResult>, i: nat)
    requires |items| == |results| && Apart(items) && i < |items| && TakesSlot(items[i])
    ensures items[i].slot !in SlotsOf(items) - FailedSlots(items, results) <==> i in Failures(items, results)
  {
    assert items[i].slot in SlotsOf(items);
    if items[i].slot in FailedSlots(items, results) {
      var j: nat :| j < |items| && items[j].Planned? && results[j].CreateFailed? && items[j].slot == items[i].slot;
      assert TakesSlot(items[j]) && !(i < j) && !(j < i);
      assert i in Failures(items, results);
    }
    if i in Failures(items, results) {
      assert items[i].slot in FailedSlots(items, results);
    }
  }
}
