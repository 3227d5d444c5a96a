/** One realisation pass of a pool, in place: requests are matched to existing sessions or planned
    as fresh creates (phase A), the plans are executed (phase B), the results are collected
    (phase C). */
module PoolRealize {
  import opened CreateBudgets
  import opened PoolPlan
  import opened PoolSlots
  import opened Text

  class Pass {
    const pool: Pool
    const book: SlotBook
    const budget: CreateBudget
    var used: set<string>

    constructor (pool: Pool, book: SlotBook, budget: CreateBudget)
      ensures this.pool == pool && this.book == book && this.budget == budget && used == {}
    {
      this.pool, this.book, this.budget := pool, book, budget;
      used := {};
    }

    ghost function Books(): Books
      reads this, book, budget
    {
      PoolPlan.Books.Books(book.used, used, budget.tokens)
    }

    /** Takes the slot a session already holds, or the least one this pass has not used. */
    method ClaimHeld(evidence: Evidence) returns (slot: int)
      modifies book
      ensures slot == HeldClaim(pool, old(book.used), evidence) && slot >= 0
      ensures book.used == old(book.used) + if slot > 0 then {slot} else {}
    {
      UnusedIsFree(book.used);
      slot := ExistingSlot(pool.agent, evidence);
      if slot > 0 {
        if slot in book.used {
          return 0;
        }
        book.used := book.used + {slot};
        return;
      }
      slot := 1;
      while slot in book.used
        invariant book.used == old(book.used)
        invariant slot >= 1 && forall s :: 1 <= s < slot ==> s in book.used
        decreases |book.used| + 1 - slot
      {
        FullPrefix(book.used, slot);
        slot := slot + 1;
      }
      OneLeast(Unlimited, book.used, slot, LeastUnused(book.used));
      book.used := book.used + {slot};
    }

    method ClaimPreferred(session: Session, resumes: bool) returns (slot: int)
      requires !pool.Canonical()
      modifies book
      ensures slot == PreferredClaim(pool, old(book.used), session, resumes) && slot >= 0
      ensures book.used == old(book.used) + if slot > 0 then {slot} else {}
    {
      if resumes && session.aboveCapacity > 0 {
        if session.aboveCapacity in book.used {
          return 0;
        }
        book.used := book.used + {session.aboveCapacity};
        return session.aboveCapacity;
      }
      slot := ClaimHeld(session.evidence);
    }

    /** Serves one request: its own session first, then any reusable one, and a fresh create only
        when none is left. */
    method SelectOrPlan(r: Request) returns (c: Choice)
      requires budget.tokens.Valid()
      modifies book, budget
      ensures budget.tokens.Valid() && c == Choose(pool, old(Books()), r)
      ensures c.Plan? ==> old(budget.tokens).Open(pool.number)
      ensures Books() == Booked(pool, old(Books()), c)
    {
      if Preferred(used, r) {
        c := Resume(r);
        return;
      }
      var session := Find(r, true);
      if session.None? && pool.Canonical() {
        session := Find(r, false);
      }
      if session.Some? {
        var slot := 0;
        if !pool.Canonical() {
          slot := ClaimHeld(session.value.evidence);
        }
        return if Breaks(pool, r, session.value) then RefusedReuse else Reuse(session.value, slot);
      }
      c := PlanFresh(r);
    }

    method Resume(r: Request) returns (c: Choice)
      requires Preferred(used, r)
      modifies book
      ensures c == Choose(pool, old(Books()), r) && !c.Plan? && Books() == Booked(pool, old(Books()), c)
    {
      var session := r.prefer.value;
      if pool.Canonical() {
        return if Breaks(pool, r, session) then RefusedReuse else Reuse(session, 0);
      }
      var slot := ClaimPreferred(session, r.resumes);
      return if slot == 0 then RefusedReuse else Reuse(session, slot);
    }

    // The first reusable session that could serve; a session whose slot is taken is passed over.
    method Find(r: Request, canonicalOnly: bool) returns (session: Option<Session>)
      ensures session == First(pool, Books(), r.reusable, canonicalOnly)
    {
      for i := 0 to |r.reusable|
        invariant First(pool, Books(), r.reusable, canonicalOnly) == First(pool, Books(), r.reusable[i..], canonicalOnly)
      {
        var s := r.reusable[i];
        assert r.reusable[i..][0] == s && r.reusable[i..][1..] == r.reusable[i + 1..];
        ClaimExact(pool, book.used, s.evidence);
        if s.id !in used && s.hasRuntimeName {
          if pool.Canonical() {
            if !canonicalOnly || s.canonical {
              return Some(s);
            }
          } else {
            var held := ExistingSlot(pool.agent, s.evidence);
            if held == 0 || held !in book.used {
              return Some(s);
            }
          }
        }
      }
      session := None;
    }

    /** Plans a fresh create on the least free slot, with one token, exactly when it may; a refused
        plan leaves slots and budget as they were. */
    method PlanFresh(r: Request) returns (c: Choice)
      requires budget.tokens.Valid()
      modifies book, budget
      ensures budget.tokens.Valid()
      ensures c == if CanPlan(pool, old(Books()), r) then Plan(FreshSlot(pool, old(book.used)).value) else RefusedPlan
      ensures c.Plan? ==> old(budget.tokens).Open(pool.number)
      ensures Books() == Booked(pool, old(Books()), c)
    {
      if !pool.gates.snapshotComplete {
        return RefusedPlan;
      }
      var slot := TakeFresh();
      if slot.None? {
        return RefusedPlan;
      }
      if !r.triggerOk || pool.gates.partialDemand || pool.gates.providerRed {
        book.used := book.used - {slot.value};
        return RefusedPlan;
      }
      var granted := budget.TryClaim(pool.number);
      if !granted {
        book.used := book.used - {slot.value};
        return RefusedPlan;
      }
      c := Plan(slot.value);
    }

    method TakeFresh() returns (slot: Option<int>)
      modifies book
      ensures slot == FreshSlot(pool, old(book.used)) && (slot.Some? ==> slot.value !in old(book.used))
      ensures book.used == old(book.used) + if slot.Some? then {slot.value} else {}
    {
      slot := book.ClaimFresh(pool.agent, pool.census);
      ghost var r, occupied := FreshRange(pool.agent), old(book.used) + HeldSlots(pool.agent, pool.census);
      ghost var k := FreshSlot(pool, old(book.used));
      if r != Singleton {
        if slot.Some? {
          assert LeastFree(r, occupied, slot.value);
        }
        if k.Some? {
          assert InRange(r, k.value) && k.value !in occupied;
        }
        if slot.Some? && k.Some? {
          FreshIsLeast(pool, old(book.used));
          OneLeast(r, occupied, slot.value, k.value);
        }
      }
    }

    /** Phase A: plans every request in order, sharing the books. */
    method PlanAll(requests: seq<Request>) returns (items: seq<Item>)
      requires budget.tokens.Valid()
      modifies this, book, budget
      ensures budget.tokens.Valid()
      ensures items == Items(pool, old(Books()), requests, |requests|)
      ensures Books() == BooksAt(pool, old(Books()), requests, |requests|)
    {
      items := [];
      for n := 0 to |requests|
        invariant budget.tokens.Valid()
        invariant items == Items(pool, old(Books()), requests, n)
        invariant Books() == BooksAt(pool, old(Books()), requests, n)
      {
        var item := PlanOne(requests[n]);
        items := items + [item];
      }
    }

    method PlanOne(r: Request) returns (item: Item)
      requires budget.tokens.Valid()
      modifies this, book, budget
      ensures budget.tokens.Valid()
      ensures item == ItemFor(pool, old(Books()), r) && Books() == BooksAfter(pool, old(Books()), r)
    {
      if r.prefer.Some? && r.prefer.value.named {
        return Skip;
      }
      var c := SelectOrPlan(r);
      match c {
        case Plan(slot) => item := Planned(slot);
        case Reuse(session, slot) =>
          used := used + {session.id};
          item := Served(session.id, slot);
        case _ => item := Skip;
      }
    }

    /** Phase B: the planned creates run in parallel, so in any order; each that fails gives its
        token back. */
    method ExecuteAll(items: seq<Item>, results: seq<CreateResult>)
      requires budget.tokens.Valid() && |results| == |items|
      modifies budget
      ensures budget.tokens.Valid() && budget.tokens == old(budget.tokens).Refunded(|Failures(items, results)|)
    {
      var pending := Plans(items);
      ghost var t := budget.tokens;
      SettledAll(t, items, results);
      while pending != {}
        invariant budget.tokens.Valid() && pending <= Plans(items)
        invariant budget.tokens == Settled(t, items, results, pending)
        decreases pending
      {
        var i :| i in pending;
        OneSettled(t, items, results, pending, i);
        if results[i].CreateFailed? {
          budget.Release();
        }
        pending := pending - {i};
      }
    }

    /** Phase C: collects results in request order. A failed create frees its slot; a session that
        is already in use is dropped. */
    method Collect(items: seq<Item>, results: seq<CreateResult>) returns (entries: seq<Entry>)
      requires |results| == |items|
      modifies this, book
      ensures entries == Entries(items, results, old(used), |items|)
      ensures book.used == old(book.used) - FailedSlots(items, results)
      ensures used == IdsAt(items, results, old(used), |items|)
    {
      entries := [];
      for n := 0 to |items|
        invariant entries == Entries(items, results, old(used), n)
        invariant book.used == old(book.used) - FailedSlots(items[..n], results[..n])
        invariant used == IdsAt(items, results, old(used), n)
      {
        MoreFailed(items, results, n);
        match items[n] {
          case Skip =>
          case Served(id, slot) => entries := entries + [Entry(id, slot)];
          case Planned(slot) =>
            match results[n] {
              case CreateFailed => book.used := book.used - {slot};
              case Created(id) =>
                if id !in used {
                  used := used + {id};
                  entries := entries + [Entry(id, slot)];
                }
            }
        }
      }
      assert items[..|items|] == items && results[..|items|] == results;
    }

    /** The whole pass. Fresh creates take pairwise distinct slots, in range and held by no live
        session; no session serves twice; the tokens gone are exactly the creates that succeeded;
        every session served and every session created is among the entries; and of the slots
        taken exactly those of failed creates are free again. */
    method Realise(requests: seq<Request>, results: seq<CreateResult>)
      returns (items: seq<Item>, entries: seq<Entry>)
      requires budget.tokens.Valid() && used == {} && book.used == {} && |results| == |requests|
      modifies this, book, budget
      ensures items == Items(pool, old(Books()), requests, |requests|) && Apart(items)
      ensures forall i :: 0 <= i < |items| && items[i].Planned? ==> pool.GoodPlan(items[i].slot) && pool.Ungated()
      ensures budget.tokens.Valid() && budget.tokens.limited == old(budget.tokens.limited)
      ensures budget.tokens.limited ==> budget.tokens.remaining + |Successes(items, results)| == old(budget.tokens.remaining)
      ensures entries == Entries(items, results, IdsOf(items), |items|)
      ensures DistinctIds(entries) && AllAppear(items, results, entries)
      ensures book.used == SlotsOf(items) - FailedSlots(items, results)
    {
      ghost var b := Books();
      items := PlanAll(requests);
      ItemsAccounted(pool, b.tokens, requests, |requests|);
      assert b == PoolPlan.Books.Books({}, {}, b.tokens);
      forall i | 0 <= i < |items| && items[i].Planned?
        ensures pool.GoodPlan(items[i].slot) && pool.Ungated()
      {
        PlansGood(pool, b, requests, i);
      }
      ExecuteAll(items, results);
      assert Plans(items) == Successes(items, results) + Failures(items, results);
      entries := Collect(items, results);
      EntriesApart(items, results, |items|);
      CreatesAppear(items, results);
    }
  }
}
