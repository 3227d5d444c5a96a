/** Ready reads for controller demand, and the per-pass memo in front of them. */
module ReadyCache {
  import opened Beads
  import opened Text

  // A store's unfiltered ready sets on its two tiers. Some stores have no tiers of their own.
  datatype Store = Store(cached: Read, live: Read, hasHandles: bool)

  // An empty assignee or a limit of zero selects everything.
  datatype Query = Query(assignee: string, limit: int)

  // ---- Selecting ----------------------------------------------------------------

  ghost function Matching(rows: seq<Bead>, assignee: string): (m: seq<Bead>)
    ensures |m| <= |rows|
  {
    if rows == [] then []
    else
      var last := rows[|rows| - 1];
      Matching(rows[..|rows| - 1], assignee) + if assignee == "" || last.assignee == assignee then [last] else []
  }

  ghost function FirstOf(rows: seq<Bead>, limit: int): seq<Bead> {
    if 0 < limit < |rows| then rows[..limit] else rows
  }

  // Filter in order, then truncate: what the stores do with a query.
  ghost function Select(rows: seq<Bead>, q: Query): seq<Bead> {
    FirstOf(Matching(rows, q.assignee), q.limit)
  }

  lemma {:induction false} MatchingAll(rows: seq<Bead>)
    ensures Matching(rows, "") == rows
  {
    if rows != [] {
      MatchingAll(rows[..|rows| - 1]);
    }
  }

  lemma {:induction false} MatchingGrows(rows: seq<Bead>, assignee: string, k: nat)
    requires k <= |rows|
    ensures Matching(rows[..k], assignee) <= Matching(rows, assignee)
    decreases |rows|
  {
    if k < |rows| {
      MatchingGrows(rows[..|rows| - 1], assignee, k);
      assert rows[..|rows| - 1][..k] == rows[..k];
    } else {
      assert rows[..k] == rows;
    }
  }

  /** filterReadySnapshot: stops as soon as the limit is reached. */
  method FilterSnapshot(rows: seq<Bead>, q: Query) returns (kept: seq<Bead>)
    ensures kept == Select(rows, q)
  {
    if q.assignee == "" && q.limit <= 0 {
      MatchingAll(rows);
      return rows;
    }
    kept := [];
    for i := 0 to |rows|
      invariant kept == Matching(rows[..i], q.assignee)
      invariant q.limit > 0 ==> |kept| < q.limit
    {
      assert rows[..i + 1][..i] == rows[..i];
      if q.assignee == "" || rows[i].assignee == q.assignee {
        kept := kept + [rows[i]];
        if q.limit > 0 && |kept| >= q.limit {
          MatchingGrows(rows, q.assignee, i + 1);
          return;
        }
      }
    }
    assert rows[..|rows|] == rows;
  }

  // ---- Merging the tiers --------------------------------------------------------

  ghost predicate HasId(rows: seq<Bead>, id: string) {
    exists i :: 0 <= i < |rows| && rows[i].id == id
  }

  // Live rows first; cached rows fill in the IDs the live read lacks.
  ghost function Fill(into: seq<Bead>, rows: seq<Bead>): seq<Bead>
    decreases |rows|
  {
    if rows == [] then into
    else Fill(if rows[0].id == "" || HasId(into, rows[0].id) then into else into + [rows[0]], rows[1..])
  }

  ghost function Identified(rows: seq<Bead>): seq<Bead> {
    if rows == [] then [] else Identified(rows[..|rows| - 1]) + if rows[|rows| - 1].id != "" then [rows[|rows| - 1]] else []
  }

  ghost function Merge(cached: seq<Bead>, live: seq<Bead>): seq<Bead> {
    if cached == [] then live else if live == [] then cached else Fill(Identified(live), cached)
  }

  method MergeById(cached: seq<Bead>, live: seq<Bead>) returns (rows: seq<Bead>)
    ensures rows == Merge(cached, live)
  {
    if cached == [] {
      return live;
    }
    if live == [] {
      return cached;
    }
    var seen: set<string> := {};
    rows := [];
    for i := 0 to |live|
      invariant rows == Identified(live[..i])
      invariant forall id :: id in seen <==> HasId(rows, id)
    {
      assert live[..i + 1][..i] == live[..i];
      if live[i].id != "" {
        seen := seen + {live[i].id};
        HasIdAppend(rows, live[i]);
        rows := rows + [live[i]];
      }
    }
    assert live[..|live|] == live;
    for i := 0 to |cached|
      invariant Fill(rows, cached[i..]) == Fill(Identified(live), cached)
      invariant forall id :: id in seen <==> HasId(rows, id)
    {
      assert cached[i..][1..] == cached[i + 1..];
      if cached[i].id != "" && cached[i].id !in seen {
        seen := seen + {cached[i].id};
        HasIdAppend(rows, cached[i]);
        rows := rows + [cached[i]];
      }
    }
  }

  lemma HasIdAppend(rows: seq<Bead>, b: Bead)
    ensures forall id :: HasId(rows + [b], id) <==> HasId(rows, id) || id == b.id
  {
    var more := rows + [b];
    assert more[|rows|] == b && forall i :: 0 <= i < |rows| ==> more[i] == rows[i];
  }

  lemma {:induction false} FillKeeps(into: seq<Bead>, rows: seq<Bead>)
    ensures into <= Fill(into, rows)
    ensures forall i :: 0 <= i < |rows| && rows[i].id != "" ==> HasId(Fill(into, rows), rows[i].id)
    decreases |rows|
  {
    if rows != [] {
      var next := if rows[0].id == "" || HasId(into, rows[0].id) then into else into + [rows[0]];
      FillKeeps(next, rows[1..]);
      HasIdAppend(into, rows[0]);
      var out := Fill(into, rows);
      if rows[0].id != "" {
        var k :| 0 <= k < |next| && next[k].id == rows[0].id;
        assert out[k] == next[k];
      }
      forall i | 0 <= i < |rows| && rows[i].id != ""
        ensures HasId(out, rows[i].id)
      {
        if i > 0 {
          assert rows[1..][i - 1] == rows[i];
        }
      }
    }
  }

  /** No identified row of either tier is lost, and every live row survives as it is. */
  lemma MergeLosesNothing(cached: seq<Bead>, live: seq<Bead>, b: Bead)
    requires b.id != "" && (b in cached || b in live)
    ensures HasId(Merge(cached, live), b.id)
    ensures b in live ==> b in Merge(cached, live)
  {
    FillKeeps(Identified(live), cached);
    IdentifiedKeeps(live, b);
  }

  lemma {:induction false} IdentifiedKeeps(rows: seq<Bead>, b: Bead)
    requires b.id != ""
    ensures b in rows <==> b in Identified(rows)
  {
    if rows != [] {
      IdentifiedKeeps(rows[..|rows| - 1], b);
      assert rows == rows[..|rows| - 1] + [rows[|rows| - 1]];
    }
  }

  // ---- Direct reads -------------------------------------------------------------

  ghost function LiveDirect(s: Store, q: Query): Read {
    Read(Select(s.live.rows, q), s.live.err)
  }

  ghost function DemandDirect(s: Store): Read {
    if s.cached.err.Some? && s.cached.err.value.IsCacheUnavailable() then s.live
    else if !s.hasHandles then s.cached
    else if s.live.err.None? then s.live
    else Backfilled(s.cached, s.live)
  }

  // A failed or partial live read topped up from the cache. Rows that survive an outright
  // failure are reported as a partial result.
  ghost function Backfilled(cached: Read, live: Read): Read {
    var rows, err := Merge(cached.Usable(), live.Usable()), Join(cached.err, live.err);
    if rows != [] && err.Some? && !err.value.IsPartial() then Read(rows, Some(PartialResult(err.value))) else Read(rows, err)
  }

  /** A demand read that carries rows and an error reports a partial result, so the rows still
      count - except exactly when it hands through one tier's own outright failure: the live
      tier because the cache is unavailable, or the cache of a store without tiers. */
  lemma RowsWithErrorArePartial(s: Store)
    ensures var r := DemandDirect(s);
            r.rows != [] && r.err.Some? && !r.err.value.IsPartial() <==>
              var cacheless := s.cached.err.Some? && s.cached.err.value.IsCacheUnavailable();
              var through := if cacheless then s.live else s.cached;
              (cacheless || !s.hasHandles) && through.rows != [] && through.Usable() == []
  {
  }

  /** Such reads: the cache is unavailable and the live tier fails with a row in hand, or the one
      tier of a store without handles does. The row is returned and does not count. */
  lemma RowLostWithFailure(b: Bead, cause: string, hasHandles: bool)
    ensures var failed := Read([b], Some(Failed(cause)));
            var r := DemandDirect(Store(Read([], Some(CacheUnavailable)), failed, hasHandles));
            var r' := DemandDirect(Store(failed, Read([b], None), false));
            r.rows == r'.rows == [b] && r.Usable() == r'.Usable() == []
  {
  }

  /** On a store with tiers whose cache answers, a demand read loses no row either tier
      vouches for when the live read falls short. */
  lemma OutageKeepsRows(s: Store, b: Bead)
    requires s.hasHandles && s.live.err.Some? && !(s.cached.err.Some? && s.cached.err.value.IsCacheUnavailable())
    requires b.id != "" && (b in s.cached.Usable() || b in s.live.Usable())
    ensures HasId(DemandDirect(s).rows, b.id) && DemandDirect(s).err.Some? && HasId(DemandDirect(s).Usable(), b.id)
  {
    MergeLosesNothing(s.cached.Usable(), s.live.Usable(), b);
  }

  // ---- The memo -----------------------------------------------------------------

  datatype Ask = AskLive(store: nat, query: Query) | AskDemand(store: nat)

  ghost function Direct(stores: seq<Store>, a: Ask): Read
    requires a.store < |stores|
  {
    if a.AskLive? then LiveDirect(stores[a.store], a.query) else DemandDirect(stores[a.store])
  }

  lemma OneMoreKey(m: map<nat, Read>, s: nat, r: Read)
    requires s !in m
    ensures multiset(m[s := r].Keys) == multiset(m.Keys) + multiset{s}
  {
    assert m[s := r].Keys == m.Keys + {s};
  }

  class Memo {
    const stores: seq<Store>
    var live: map<nat, Read>
    var cached: map<nat, Read>
    ghost var liveReads: multiset<nat>    // the reads that went to a store's live tier
    ghost var cachedReads: multiset<nat>

    constructor (stores: seq<Store>)
      ensures this.stores == stores && Valid() && live == map[] && cached == map[]
    {
      this.stores := stores;
      live, cached, liveReads, cachedReads := map[], map[], multiset{}, multiset{};
    }

    // Each memo entry is what the store would answer, and came from the one read made.
    ghost predicate Valid()
      reads this
    {
      && (forall s :: s in live ==> s < |stores| && live[s] == stores[s].live)
      && (forall s :: s in cached ==> s < |stores| && cached[s] == stores[s].cached)
      && liveReads == multiset(live.Keys) && cachedReads == multiset(cached.Keys)
    }

    method LiveSnapshot(s: nat) returns (r: Read)
      requires Valid() && s < |stores|
      modifies this
      ensures Valid() && r == stores[s].live
    {
      if s !in live {
        OneMoreKey(live, s, stores[s].live);
        live := live[s := stores[s].live];
        liveReads := liveReads + multiset{s};
      }
      r := live[s];
    }

    method CachedSnapshot(s: nat) returns (r: Read)
      requires Valid() && s < |stores|
      modifies this
      ensures Valid() && r == stores[s].cached
    {
      if s !in cached {
        OneMoreKey(cached, s, stores[s].cached);
        cached := cached[s := stores[s].cached];
        cachedReads := cachedReads + multiset{s};
      }
      r := cached[s];
    }

    method LiveReady(s: nat, q: Query) returns (r: Read)
      requires Valid() && s < |stores|
      modifies this
      ensures Valid() && r == LiveDirect(stores[s], q)
    {
      var snapshot := LiveSnapshot(s);
      var rows := FilterSnapshot(snapshot.rows, q);
      r := Read(rows, snapshot.err);
    }

    method DemandReady(s: nat) returns (r: Read)
      requires Valid() && s < |stores|
      modifies this
      ensures Valid() && r == DemandDirect(stores[s])
    {
      var fromCache := CachedSnapshot(s);
      if fromCache.err.Some? && fromCache.err.value.IsCacheUnavailable() {
        r := LiveSnapshot(s);
        return;
      }
      if !stores[s].hasHandles {
        return fromCache;
      }
      var fromLive := LiveSnapshot(s);
      if fromLive.err.None? {
        return fromLive;
      }
      var rows := MergeById(fromCache.Usable(), fromLive.Usable());
      var err := Join(fromCache.err, fromLive.err);
      r := if rows != [] && !err.value.IsPartial() then Read(rows, Some(PartialResult(err.value))) else Read(rows, err);
    }

    method Answer(a: Ask) returns (r: Read)
      requires Valid() && a.store < |stores|
      modifies this
      ensures Valid() && r == Direct(stores, a)
    {
      match a {
        case AskLive(s, q) => r := LiveReady(s, q);
        case AskDemand(s) => r := DemandReady(s);
      }
    }

    /** Any sequence of questions is answered as direct reads would, rows and error, while each
        tier of each store is read at most once. */
    method AnswerAll(asks: seq<Ask>) returns (answers: seq<Read>)
      requires Valid() && forall i :: 0 <= i < |asks| ==> asks[i].store < |stores|
      modifies this
      ensures Valid() && |answers| == |asks|
      ensures forall i :: 0 <= i < |asks| ==> answers[i] == Direct(stores, asks[i])
      ensures forall s :: liveReads[s] <= 1 && cachedReads[s] <= 1
    {
      answers := [];
      for i := 0 to |asks|
        invariant Valid() && |answers| == i
        invariant forall j :: 0 <= j < i ==> answers[j] == Direct(stores, asks[j])
      {
        var r := Answer(asks[i]);
        answers := answers + [r];
      }
    }
  }
}
