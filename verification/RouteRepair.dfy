/** The bounded repair sweep over control rows whose route names a dispatcher of another
    store scope. One sweep runs per reconciler pass; it starts at a rotating cursor and may
    attempt five durable writes. */
module RouteRepair {
  import opened RepairRotation
  import opened Rotation
  import opened Text

  // The gc.kind vocabulary: the kinds the control dispatcher executes, and the rest.
  datatype Kind =
    | Retry | Ralph | Check | RetryEval | Fanout | Drain | ScopeCheck | WorkflowFinalize
    | OtherKind(kind: string)
  {
    predicate Control() { !OtherKind? }
  }

  // A store ref, taken apart: "", "city", "city:<name>", "class:<token>", "rig:<name>", or a
  // bare name. Names may be empty; metadata is read through TrimSpace throughout.
  datatype Ref = Blank | CityWord | City(name: string) | Class(token: string) | Rig(name: string) | Bare(name: string)
  {
    // The ref names a scope outright; blank, bare and incomplete refs do not.
    predicate Scoped() {
      match this
      case City(name) => name != ""
      case Class(token) => token != ""
      case Rig(name) => name != ""
      case _ => false
    }

    // The rig whose dispatcher serves the store; "" for the city.
    function RigContext(): string {
      match this
      case Blank => ""
      case CityWord => ""
      case City(_) => ""
      case Class(token) => "class:" + token
      case Rig(name) => name
      case Bare(name) => name
    }
  }

  // The part of a work row the sweep looks at.
  datatype Row = Row(id: string, kind: Kind, root: Ref, routedTo: Option<string>, fallback: bool)

  // How the row's own store answers a write in this pass.
  datatype Store = NoStore | Accepts | Rejects

  // One durable write: the route it sets, if any, and whether it blanks the fallback marker.
  datatype Patch = Patch(id: string, routedTo: Option<string>, clearFallback: bool)

  // Configured dispatchers by rig context; the city's own is under "".
  type Dispatchers = map<string, string>

  function Route(d: Dispatchers, ref: Ref): Option<string> {
    if ref.RigContext() in d then Some(d[ref.RigContext()]) else None
  }

  predicate Eligible(row: Row) {
    row.kind.Control() && row.root.Scoped()
  }

  predicate NeedsRoute(row: Row, route: string) {
    row.routedTo != Some(route)
  }

  // The row asks for a durable write: wrong route, or a stale fallback marker.
  predicate NeedsWrite(d: Dispatchers, row: Row, ref: Ref) {
    Eligible(row) &&
    var route := Route(d, ref);
    route.Some? && (NeedsRoute(row, route.value) || row.fallback)
  }

  function PatchFor(d: Dispatchers, row: Row, ref: Ref): Patch
    requires NeedsWrite(d, row, ref)
  {
    var route := Route(d, ref).value;
    Patch(row.id, if NeedsRoute(row, route) then Some(route) else None, row.fallback)
  }

  // The row as this pass's demand snapshot sees it afterwards.
  function Swept(d: Dispatchers, row: Row, ref: Ref, persisted: bool): Row {
    if !Eligible(row) then row
    else if Route(d, ref).None? then row.(routedTo := None)
    else if !NeedsWrite(d, row, ref) then row
    else
      var route := Route(d, ref).value;
      if persisted then
        row.(routedTo := if NeedsRoute(row, route) then Some(route) else row.routedTo,
             fallback := false)
      else if NeedsRoute(row, route) then row.(routedTo := None)
      else row
  }

  // A durable row with a patch applied.
  function Patched(row: Row, p: Patch): Row {
    row.(routedTo := if p.routedTo.Some? then p.routedTo else row.routedTo,
         fallback := row.fallback && !p.clearFallback)
  }

  // ---- What a sweep leaves behind -----------------------------------------------

  ghost function Asks(d: Dispatchers, rows: seq<Row>, refs: seq<Ref>): (asks: seq<bool>)
    requires |rows| == |refs|
    ensures |asks| == |rows| && forall i :: 0 <= i < |rows| ==> asks[i] == NeedsWrite(d, rows[i], refs[i])
  {
    seq(|rows|, i requires 0 <= i < |rows| => NeedsWrite(d, rows[i], refs[i]))
  }

  // The columns of the snapshot a sweep starts from.
  datatype Snapshot = Snapshot(rows: seq<Row>, stores: seq<Store>, refs: seq<Ref>, start: nat)
  {
    ghost predicate Aligned() {
      |rows| == |stores| == |refs| && start < |rows|
    }

    // Row i's write is attempted and lands.
    ghost predicate Lands(d: Dispatchers, i: nat)
      requires Aligned() && i < |rows|
    {
      Attempted(Asks(d, rows, refs), start, i) && stores[i] == Accepts
    }

    // Row i after the first `offset` visits.
    ghost function RowAt(d: Dispatchers, offset: nat, i: nat): Row
      requires Aligned() && i < |rows|
    {
      if Turn(start, i, |rows|) < offset then Swept(d, rows[i], refs[i], Lands(d, i)) else rows[i]
    }

    // The durable writes of the first `offset` visits, in order.
    ghost function Written(d: Dispatchers, offset: nat): seq<Patch>
      requires Aligned() && offset <= |rows|
    {
      if offset == 0 then []
      else
        var i := Place(start, offset - 1, |rows|);
        Written(d, offset - 1) + if Lands(d, i) then [PatchFor(d, rows[i], refs[i])] else []
    }

    ghost predicate SweptSoFar(d: Dispatchers, offset: nat, now: seq<Row>, attempts: set<nat>, writes: seq<Patch>) {
      && Aligned() && offset <= |rows| == |now|
      && attempts == Hits(Asks(d, rows, refs), start, offset)
      && (forall i :: 0 <= i < |rows| ==> now[i] == RowAt(d, offset, i))
      && writes == Written(d, offset)
    }

    lemma OneVisit(d: Dispatchers, offset: nat, now: seq<Row>, attempts: set<nat>, writes: seq<Patch>)
      requires SweptSoFar(d, offset, now, attempts, writes) && offset < |rows|
      ensures var i := Place(start, offset, |rows|);
              && now[i] == rows[i]
              && SweptSoFar(d, offset + 1, now[i := Swept(d, rows[i], refs[i], Lands(d, i))],
                            attempts + (if Attempted(Asks(d, rows, refs), start, i) then {i} else {}),
                            writes + if Lands(d, i) then [PatchFor(d, rows[i], refs[i])] else [])
    {
      var i := Place(start, offset, |rows|);
      assert Turn(start, i, |rows|) == offset && now[i] == RowAt(d, offset, i);
      var now' := now[i := Swept(d, rows[i], refs[i], Lands(d, i))];
      forall j | 0 <= j < |rows|
        ensures now'[j] == RowAt(d, offset + 1, j)
      {
        assert now[j] == RowAt(d, offset, j);
        assert j != i ==> Turn(start, j, |rows|) != offset;
      }
      NextHit(Asks(d, rows, refs), start, offset);
    }
  }

  // ---- The sweep itself ---------------------------------------------------------

  /** Per-pass state: memoised scope lookups, scopes already reported, writes left. */
  class Sweep {
    const dispatchers: Dispatchers
    var routeByScope: map<string, Option<string>>
    var reportedMissing: set<string>
    var writesRemaining: nat

    constructor (dispatchers: Dispatchers)
      ensures this.dispatchers == dispatchers && writesRemaining == WRITE_LIMIT && MemoAgrees()
      ensures reportedMissing == {}
    {
      this.dispatchers := dispatchers;
      routeByScope := map[];
      reportedMissing := {};
      writesRemaining := WRITE_LIMIT;
    }

    ghost predicate MemoAgrees()
      reads this
    {
      forall ref: Ref :: ref.RigContext() in routeByScope ==> routeByScope[ref.RigContext()] == Route(dispatchers, ref)
    }

    method DesiredRoute(ref: Ref) returns (route: Option<string>)
      requires MemoAgrees()
      modifies this`routeByScope, this`reportedMissing
      ensures MemoAgrees()
      ensures route == Route(dispatchers, ref)
      ensures reportedMissing == old(reportedMissing) + (if route.None? then {ref.RigContext()} else {})
    {
      var rig := ref.RigContext();
      if rig in routeByScope {
        route := routeByScope[rig];
      } else {
        route := if rig in dispatchers then Some(dispatchers[rig]) else None;
        routeByScope := routeByScope[rig := route];
      }
      if route.None? {
        reportedMissing := reportedMissing + {rig};
      }
    }

    /** Realigns one row. The write is charged to the budget when it is attempted, whether or
        not the store takes it. */
    method RepairBead(row: Row, store: Store, ref: Ref) returns (row': Row, attempted: bool, patch: Option<Patch>)
      requires MemoAgrees()
      modifies this
      ensures MemoAgrees()
      ensures attempted <==> NeedsWrite(dispatchers, row, ref) && old(writesRemaining) > 0
      ensures writesRemaining == old(writesRemaining) - (if attempted then 1 else 0)
      ensures patch.Some? <==> attempted && store == Accepts
      ensures patch.Some? ==> patch.value == PatchFor(dispatchers, row, ref)
      ensures row' == Swept(dispatchers, row, ref, patch.Some?)
    {
      row', attempted, patch := row, false, None;
      if !row.kind.Control() {
        return;
      }
      if !row.root.Scoped() {
        return;
      }
      var desired := DesiredRoute(ref);
      if desired.None? {
        row' := row.(routedTo := None);
        return;
      }
      var route := desired.value;
      var needsRoute := row.routedTo != Some(route);
      var clearFallback := row.fallback;
      if !needsRoute && !clearFallback {
        return;
      }
      if writesRemaining > 0 {
        writesRemaining := writesRemaining - 1;
        attempted := true;
        if store == Accepts {
          patch := Some(Patch(row.id, if needsRoute then Some(route) else None, clearFallback));
          if needsRoute {
            row' := row'.(routedTo := Some(route));
          }
          if clearFallback {
            row' := row'.(fallback := false);
          }
          return;
        }
      }
      if needsRoute {
        row' := row.(routedTo := None);
      }
    }
  }

  // The rotating start offset of one city. The Go cursor is an atomic 64-bit counter.
  class Cursor {
    var value: nat

    constructor ()
      ensures value == 0
    {
      value := 0;
    }

    method Advance() returns (was: nat)
      requires value < CURSOR_MODULUS
      modifies this
      ensures was == old(value) && value == (old(value) + WRITE_LIMIT) % CURSOR_MODULUS
    {
      was := value;
      value := (value + WRITE_LIMIT) % CURSOR_MODULUS;
    }
  }

  /** One pass over the work snapshot, rewriting its rows in place. */
  method RepairRoutes(d: Dispatchers, cursor: Cursor, rows: array<Row>, stores: seq<Store>, refs: seq<Ref>)
    returns (attempts: set<nat>, writes: seq<Patch>)
    requires cursor.value < CURSOR_MODULUS
    modifies cursor, rows
    ensures rows.Length == 0 || |stores| != rows.Length || |refs| != rows.Length ==>
              && attempts == {} && writes == [] && cursor.value == old(cursor.value)
              && forall i :: 0 <= i < rows.Length ==> rows[i] == Suppressed(old(rows[i]))
    ensures rows.Length > 0 && |stores| == rows.Length && |refs| == rows.Length ==>
              var snapshot := Snapshot(old(rows[..]), stores, refs, old(cursor.value) % rows.Length);
              && snapshot.SweptSoFar(d, rows.Length, rows[..], attempts, writes)
              && cursor.value == (old(cursor.value) + WRITE_LIMIT) % CURSOR_MODULUS
  {
    attempts, writes := {}, [];
    var n := rows.Length;
    if n == 0 {
      return;
    }
    if |stores| != n || |refs| != n {
      SuppressRoutes(rows);
      return;
    }
    var was := cursor.Advance();
    attempts, writes := SweepFrom(d, was % n, rows, stores, refs);
  }

  method SweepFrom(d: Dispatchers, start: nat, rows: array<Row>, stores: seq<Store>, refs: seq<Ref>)
    returns (attempts: set<nat>, writes: seq<Patch>)
    requires |stores| == |refs| == rows.Length && start < rows.Length
    modifies rows
    ensures Snapshot(old(rows[..]), stores, refs, start).SweptSoFar(d, rows.Length, rows[..], attempts, writes)
  {
    attempts, writes := {}, [];
    var sweep := new Sweep(d);
    ghost var snapshot := Snapshot(rows[..], stores, refs, start);
    for offset := 0 to rows.Length
      invariant sweep.dispatchers == d && sweep.MemoAgrees()
      invariant sweep.writesRemaining + |attempts| == WRITE_LIMIT
      invariant snapshot.SweptSoFar(d, offset, rows[..], attempts, writes)
    {
      attempts, writes := VisitRow(sweep, start, offset, rows, stores, refs, attempts, writes, snapshot);
    }
  }

  // One row of the sweep.
  method VisitRow(sweep: Sweep, start: nat, offset: nat, rows: array<Row>, stores: seq<Store>, refs: seq<Ref>,
                  attempts: set<nat>, writes: seq<Patch>, ghost snapshot: Snapshot)
    returns (attempts': set<nat>, writes': seq<Patch>)
    requires snapshot.stores == stores && snapshot.refs == refs && snapshot.start == start
    requires |stores| == |refs| == |snapshot.rows| == rows.Length && start < rows.Length && offset < rows.Length
    requires sweep.MemoAgrees() && sweep.writesRemaining + |attempts| == WRITE_LIMIT
    requires snapshot.SweptSoFar(sweep.dispatchers, offset, rows[..], attempts, writes)
    modifies rows, sweep
    ensures sweep.MemoAgrees() && sweep.writesRemaining + |attempts'| == WRITE_LIMIT
    ensures snapshot.SweptSoFar(sweep.dispatchers, offset + 1, rows[..], attempts', writes')
  {
    var i := Place(start, offset, rows.Length);
    ghost var now := rows[..];
    snapshot.OneVisit(sweep.dispatchers, offset, now, attempts, writes);
    var row', attempted, patch := sweep.RepairBead(rows[i], stores[i], refs[i]);
    rows[i] := row';
    assert rows[..] == now[i := row'];
    attempts' := if attempted then attempts + {i} else attempts;
    writes' := if patch.Some? then writes + [patch.value] else writes;
  }

  // When the snapshot's columns do not line up nothing is trusted: no control row keeps a route.
  function Suppressed(row: Row): Row {
    if row.kind.Control() then row.(routedTo := None) else row
  }

  method SuppressRoutes(rows: array<Row>)
    modifies rows
    ensures forall i :: 0 <= i < rows.Length ==>
              rows[i] == Suppressed(old(rows[i]))
  {
    for i := 0 to rows.Length
      invariant forall j :: i <= j < rows.Length ==> rows[j] == old(rows[j])
      invariant forall j :: 0 <= j < i ==> rows[j] == Suppressed(old(rows[j]))
    {
      if rows[i].kind.Control() {
        rows[i] := rows[i].(routedTo := None);
      }
    }
  }

  // ---- What a sweep guarantees --------------------------------------------------

  /** Afterwards a store-scoped control row carries its own scope's dispatcher route or no
      route at all; no other row has changed, and no row changed in any other field. At most
      five writes were attempted, each on a row that asked for one, and every durable write
      is one of those attempts. */
  lemma SweepSound(s: Snapshot, d: Dispatchers, after: seq<Row>, attempts: set<nat>, writes: seq<Patch>, i: nat)
    requires s.SweptSoFar(d, |s.rows|, after, attempts, writes) && i < |s.rows|
    ensures Eligible(s.rows[i]) ==> after[i].routedTo == None || after[i].routedTo == Route(d, s.refs[i])
    ensures !Eligible(s.rows[i]) ==> after[i] == s.rows[i]
    ensures after[i].(routedTo := s.rows[i].routedTo, fallback := s.rows[i].fallback) == s.rows[i]
    ensures after[i].fallback ==> s.rows[i].fallback
    ensures i in attempts ==> NeedsWrite(d, s.rows[i], s.refs[i])
    ensures |attempts| <= WRITE_LIMIT && |writes| <= |attempts|
  {
    assert after[i] == s.RowAt(d, |s.rows|, i);
    WritesAreAttempts(s, d, |s.rows|);
  }

  lemma {:induction false} WritesAreAttempts(s: Snapshot, d: Dispatchers, offset: nat)
    requires s.Aligned() && offset <= |s.rows|
    ensures |s.Written(d, offset)| <= Least(Asking(Asks(d, s.rows, s.refs), s.start, offset), WRITE_LIMIT)
    decreases offset
  {
    if offset > 0 {
      WritesAreAttempts(s, d, offset - 1);
      assert Turn(s.start, Place(s.start, offset - 1, |s.rows|), |s.rows|) == offset - 1;
    }
  }

  /** A write that lands settles its row for good: the durable row no longer asks, and the
      snapshot row equals it. */
  lemma PatchSettles(d: Dispatchers, row: Row, ref: Ref)
    requires NeedsWrite(d, row, ref)
    ensures !NeedsWrite(d, Patched(row, PatchFor(d, row, ref)), ref)
    ensures Patched(row, PatchFor(d, row, ref)) == Swept(d, row, ref, true)
  {
  }

  // What one pass finds: rows, stores and configuration may all have changed since the last.
  datatype Pass = Pass(dispatchers: Dispatchers, rows: seq<Row>, stores: seq<Store>, refs: seq<Ref>)
  {
    ghost predicate Sized(n: nat) {
      |rows| == |stores| == |refs| == n
    }

    // Row i asks for a write.
    ghost predicate AsksAt(i: int) {
      0 <= i < |rows| == |refs| && NeedsWrite(dispatchers, rows[i], refs[i])
    }

    // The rows a sweep with the cursor at c attempts.
    ghost function HitsFrom(c: nat): set<nat> {
      if rows == [] || |rows| != |refs| then {} else Hits(Asks(dispatchers, rows, refs), c % |rows|, |rows|)
    }
  }

  ghost predicate AllSized(passes: seq<Pass>, n: nat) {
    forall k :: 0 <= k < |passes| ==> passes[k].Sized(n)
  }

  ghost predicate AlwaysAsks(passes: seq<Pass>, i: int) {
    forall k :: 0 <= k < |passes| ==> passes[k].AsksAt(i)
  }

  /** The fairness of the rotation, on the rows themselves: a row that asks for a write in
      each of ceil(n/5) consecutive passes is attempted in one of them. */
  lemma RepairIsFair(passes: seq<Pass>, first: nat, n: nat, i: nat) returns (p: nat)
    requires 0 < n <= CURSOR_MODULUS && i < n && |passes| == Bound(n)
    requires AllSized(passes, n) && AlwaysAsks(passes, i)
    requires first < CURSOR_MODULUS && Fair(first, n)
    ensures p < |passes| && i in passes[p].HitsFrom(CursorAt(first, p))
  {
    var asks := seq(|passes|, k requires 0 <= k < |passes| => Asks(passes[k].dispatchers, passes[k].rows, passes[k].refs));
    p := EveryRowGetsATurn(asks, first, n, i);
  }

  lemma CursorMoves(first: nat, p: nat)
    ensures CursorAt(first, p + 1) == (CursorAt(first, p) + WRITE_LIMIT) % CURSOR_MODULUS
  {
  }

  // One pass on a snapshot of its own, k passes after the cursor stood at `first`.
  method RepairPass(cursor: Cursor, pass: Pass, n: nat, ghost first: nat, ghost k: nat) returns (attempts: set<nat>)
    requires cursor.value == CursorAt(first, k) && n > 0 && pass.Sized(n)
    modifies cursor
    ensures cursor.value == CursorAt(first, k + 1) && attempts == pass.HitsFrom(CursorAt(first, k))
  {
    var rows := new Row[n](j requires 0 <= j < n => pass.rows[j]);
    assert rows[..] == pass.rows;
    CursorMoves(first, k);
    var writes;
    attempts, writes := RepairRoutes(pass.dispatchers, cursor, rows, pass.stores, pass.refs);
  }

  // The passes on one cursor: each sweep starts where the cursor has come to.
  ghost predicate SweptInTurn(passes: seq<Pass>, first: nat, attempts: seq<set<nat>>) {
    |attempts| <= |passes| && forall k :: 0 <= k < |attempts| ==> attempts[k] == passes[k].HitsFrom(CursorAt(first, k))
  }

  ghost predicate SomewhereIn(attempts: seq<set<nat>>, i: int) {
    exists p :: 0 <= p < |attempts| && i in attempts[p]
  }

  /** Consecutive passes on one cursor, each five rows on from the last: ceil(n/5) of them leave
      out no row that asks in each, provided the cursor does not wrap unfairly in between. */
  method RepairPasses(cursor: Cursor, passes: seq<Pass>, n: nat) returns (attempts: seq<set<nat>>)
    requires cursor.value < CURSOR_MODULUS && 0 < n <= CURSOR_MODULUS && AllSized(passes, n)
    modifies cursor
    ensures |attempts| == |passes| && SweptInTurn(passes, old(cursor.value), attempts)
    ensures cursor.value == CursorAt(old(cursor.value), |passes|)
    ensures |passes| == Bound(n) && Fair(old(cursor.value), n) ==>
              forall i :: 0 <= i < n && AlwaysAsks(passes, i) ==> SomewhereIn(attempts, i)
  {
    attempts := [];
    ghost var first := cursor.value;
    for k := 0 to |passes|
      invariant |attempts| == k && SweptInTurn(passes, first, attempts)
      invariant cursor.value == CursorAt(first, k)
    {
      var hits := RepairPass(cursor, passes[k], n, first, k);
      attempts := attempts + [hits];
    }
    if |passes| == Bound(n) && Fair(first, n) {
      TurnsGiven(passes, first, n, attempts);
    }
  }

  lemma TurnsGiven(passes: seq<Pass>, first: nat, n: nat, attempts: seq<set<nat>>)
    requires 0 < n <= CURSOR_MODULUS && first < CURSOR_MODULUS && AllSized(passes, n)
    requires |attempts| == |passes| == Bound(n) && Fair(first, n) && SweptInTurn(passes, first, attempts)
    ensures forall i :: 0 <= i < n && AlwaysAsks(passes, i) ==> SomewhereIn(attempts, i)
  {
    forall i: nat | i < n && AlwaysAsks(passes, i)
      ensures SomewhereIn(attempts, i)
    {
      var p := RepairIsFair(passes, first, n, i);
      assert i in attempts[p];
    }
  }

  // The rig context a scoped ref declares: class bindings belong to the city.
  function ScopeContext(ref: Ref): string {
    if ref.Rig? then ref.name else ""
  }

  /** Where the declared scope has a dispatcher, a control row ends up routed to it in some outcome
      of the sweep if and only if its leg is not a class binding, or the binding's own ref happens
      to name a dispatcher of the same route. */
  lemma ScopeServedExactly(d: Dispatchers, row: Row, ref: Ref)
    requires Eligible(row) && ref.Scoped() && ScopeContext(ref) in d
    ensures (exists persisted :: Swept(d, row, ref, persisted).routedTo == Some(d[ScopeContext(ref)]))
            <==> !ref.Class? || (ref.RigContext() in d && d[ref.RigContext()] == d[ScopeContext(ref)])
  {
    assert Route(d, ref).Some? ==> Swept(d, row, ref, true).routedTo == Route(d, ref);
  }

  /** A control row on a class leg loses its route and is never repaired, though the city has a
      dispatcher: whatever the stores answer and wherever the sweep starts, it ends without a
      route and without an attempt exactly when no dispatcher is configured under the binding's
      own ref. */
  lemma ClassLegLosesRoute(s: Snapshot, d: Dispatchers, after: seq<Row>, attempts: set<nat>, writes: seq<Patch>, i: nat)
    requires s.SweptSoFar(d, |s.rows|, after, attempts, writes) && i < |s.rows|
    requires Eligible(s.rows[i]) && s.refs[i].Class? && "" in d
    ensures after[i].routedTo == None && !NeedsWrite(d, s.rows[i], s.refs[i]) <==> s.refs[i].RigContext() !in d
    ensures s.refs[i].RigContext() !in d ==> i !in attempts
  {
    assert after[i] == s.RowAt(d, |s.rows|, i);
    assert Turn(s.start, i, |s.rows|) < |s.rows|;
  }

  /** Such a row: a retry row of the city, routed to the city's own dispatcher, held in a class
      binding. */
  lemma ClassLegInput()
    ensures var d: Dispatchers := map["" := "control"];
            var row := Row("gc-1", Retry, City("c"), Some("control"), false);
            Eligible(row) && Swept(d, row, Class("orders"), true).routedTo == None && Swept(d, row, City("c"), true) == row
  {
    assert Class("orders").RigContext()[0] == 'c';
  }
}
