/** Collecting the work that sessions already hold, and which of it may keep a session awake. */
module AssignedWork {
  import opened Beads
  import opened Text

  datatype Pass = InProgress | Message | Molecule | OpenRouted | Ready

  // The passes whose rows have met a readiness rule.
  predicate Marks(p: Pass) { p != OpenRouted }

  type Handle = nat

  // Which rows a pass admits. Session rows are never work.
  type Rules = (Pass, Bead) -> bool

  // The admission rules. Whether an unassigned in-progress row is stranded pool work, and the
  // target a legacy workflow row names, are the caller's.
  predicate Assigned(b: Bead) { Trim(b.assignee) != "" }

  predicate Mail(b: Bead) {
    b.issueType == "message" && b.status == "open" && Assigned(b)
  }

  predicate MoleculeRoot(b: Bead) {
    && b.status == "open" && Assigned(b) && (b.issueType == "molecule" || b.issueType == "wisp")
    && (b.ephemeral || b.noHistory || b.Meta("gc.kind") == "workflow")
  }

  predicate Admits(p: Pass, b: Bead, stranded: Bead -> bool, legacyTarget: Bead -> string) {
    && b.issueType != "session"
    && match p
       case InProgress => Assigned(b) || stranded(b)
       case Message => Mail(b)
       case Molecule => MoleculeRoot(b)
       case OpenRouted => Assigned(b) && (b.Meta("gc.routed_to") != "" || legacyTarget(b) != "")
       case Ready => Assigned(b)
  }

  function SourceRules(stranded: Bead -> bool, legacyTarget: Bead -> string): Rules {
    (p, b) => Admits(p, b, stranded, legacyTarget)
  }

  // The IDs a pass would admit from a list.
  ghost function Ids(rules: Rules, p: Pass, rows: seq<Bead>): set<string> {
    set i | 0 <= i < |rows| && rules(p, rows[i]) :: rows[i].id
  }

  lemma OneMoreId(rules: Rules, p: Pass, rows: seq<Bead>, i: nat)
    requires i < |rows|
    ensures Ids(rules, p, rows[..i + 1]) == Ids(rules, p, rows[..i]) + if rules(p, rows[i]) then {rows[i].id} else {}
  {
    var now := rows[..i + 1];
    assert forall k :: 0 <= k < i ==> now[k] == rows[..i][k];
    assert now[i] == rows[i];
  }

  // Three aligned lists of what was kept, with the store and ref each row came from.
  datatype Work = Work(beads: seq<Bead>, stores: seq<Handle>, refs: seq<string>)

  const NONE := Work([], [], [])

  ghost predicate Aligned(w: Work) {
    |w.stores| == |w.refs| == |w.beads|
  }

  function Plus(w: Work, more: Work): Work {
    Work(w.beads + more.beads, w.stores + more.stores, w.refs + more.refs)
  }

  // One leg's collection so far: what was kept and by which pass, the IDs marked ready and the
  // IDs seen.
  datatype State = State(work: Work, passes: seq<Pass>, ready: set<string>, seen: set<string>)

  const START := State(NONE, [], {}, {})

  function Keep(s: State, ref: string, store: Handle, p: Pass, b: Bead): State {
    if b.id in s.seen then s
    else State(Plus(s.work, Work([b], [store], [ref])), s.passes + [p],
               if Marks(p) then s.ready + {b.id} else s.ready, s.seen + {b.id})
  }

  ghost function KeepAll(rules: Rules, ref: string, store: Handle, s: State, p: Pass, rows: seq<Bead>): State {
    if rows == [] then s
    else
      var s', b := KeepAll(rules, ref, store, s, p, rows[..|rows| - 1]), rows[|rows| - 1];
      if rules(p, b) then Keep(s', ref, store, p, b) else s'
  }

  // No ID twice, and each row under the pass that kept it, which marked it ready or not.
  ghost predicate Sound(rules: Rules, ref: string, store: Handle, s: State) {
    && Aligned(s.work) && |s.passes| == |s.work.beads|
    && (forall k :: 0 <= k < |s.work.beads| ==>
          && s.work.stores[k] == store && s.work.refs[k] == ref && rules(s.passes[k], s.work.beads[k])
          && s.work.beads[k].id in s.seen && (s.work.beads[k].id in s.ready <==> Marks(s.passes[k])))
    && (forall j, k :: 0 <= j < k < |s.work.beads| ==> s.work.beads[j].id != s.work.beads[k].id)
    && s.ready <= s.seen && forall id :: id in s.seen ==> Holds(s.work, id)
  }

  ghost predicate Holds(w: Work, id: string) {
    exists k :: 0 <= k < |w.beads| && w.beads[k].id == id
  }

  lemma KeepSound(rules: Rules, ref: string, store: Handle, s: State, p: Pass, b: Bead)
    requires Sound(rules, ref, store, s) && rules(p, b)
    ensures Sound(rules, ref, store, Keep(s, ref, store, p, b))
  {
    if b.id !in s.seen {
      var w := Keep(s, ref, store, p, b).work;
      assert w.beads[|s.work.beads|] == b;
      forall id | id in s.seen
        ensures Holds(w, id)
      {
        var k :| 0 <= k < |s.work.beads| && s.work.beads[k].id == id;
        assert w.beads[k].id == id;
      }
      assert Holds(w, b.id);
    }
  }

  lemma {:induction false} KeepAllSound(rules: Rules, ref: string, store: Handle, s: State, p: Pass, rows: seq<Bead>)
    requires Sound(rules, ref, store, s)
    ensures Sound(rules, ref, store, KeepAll(rules, ref, store, s, p, rows))
  {
    if rows != [] {
      KeepAllSound(rules, ref, store, s, p, rows[..|rows| - 1]);
      if rules(p, rows[|rows| - 1]) {
        KeepSound(rules, ref, store, KeepAll(rules, ref, store, s, p, rows[..|rows| - 1]), p, rows[|rows| - 1]);
      }
    }
  }

  /** One pass over a list: exactly the admitted IDs not seen before are kept, and marked if the
      pass marks. */
  lemma {:induction false} KeepAllIds(rules: Rules, ref: string, store: Handle, s: State, p: Pass, rows: seq<Bead>)
    ensures var s' := KeepAll(rules, ref, store, s, p, rows);
            && s'.seen == s.seen + Ids(rules, p, rows)
            && s'.ready == if Marks(p) then s.ready + (Ids(rules, p, rows) - s.seen) else s.ready
  {
    if rows != [] {
      KeepAllIds(rules, ref, store, s, p, rows[..|rows| - 1]);
      OneMoreId(rules, p, rows, |rows| - 1);
      assert rows[..|rows|] == rows;
    }
  }

  // Rows kept beyond `w0` come from the list and are admitted.
  ghost predicate Rooted(rules: Rules, p: Pass, rows: seq<Bead>, w0: Work, w: Work) {
    w0.beads <= w.beads && forall k :: |w0.beads| <= k < |w.beads| ==> w.beads[k] in rows && rules(p, w.beads[k])
  }

  lemma {:induction false} KeepAllRooted(rules: Rules, ref: string, store: Handle, s: State, p: Pass, rows: seq<Bead>)
    ensures Rooted(rules, p, rows, s.work, KeepAll(rules, ref, store, s, p, rows).work)
  {
    if rows != [] {
      KeepAllRooted(rules, ref, store, s, p, rows[..|rows| - 1]);
    }
  }

  // One leg's collection, in place.
  class Leg {
    const ref: string
    const store: Handle
    const rules: Rules
    var work: Work
    var ready: set<string>
    var seen: set<string>
    ghost var passes: seq<Pass>

    constructor (ref: string, store: Handle, rules: Rules)
      ensures this.ref == ref && this.store == store && this.rules == rules && Abs() == START
    {
      this.ref, this.store, this.rules := ref, store, rules;
      work, ready, seen, passes := NONE, {}, {}, [];
    }

    ghost function Abs(): State
      reads this
    {
      State(work, passes, ready, seen)
    }

    method AppendUnique(b: Bead, pass: Pass) returns (added: bool)
      modifies this
      ensures Abs() == Keep(old(Abs()), ref, store, pass, b) && added == (b.id !in old(seen))
    {
      if b.id in seen {
        return false;
      }
      seen := seen + {b.id};
      work := Plus(work, Work([b], [store], [ref]));
      passes := passes + [pass];
      if Marks(pass) {
        ready := ready + {b.id};
      }
      return true;
    }

    method Append(pass: Pass, rows: seq<Bead>)
      modifies this
      ensures Abs() == KeepAll(rules, ref, store, old(Abs()), pass, rows)
    {
      for i := 0 to |rows|
        invariant Abs() == KeepAll(rules, ref, store, old(Abs()), pass, rows[..i])
      {
        assert rows[..i + 1][..i] == rows[..i];
        if rules(pass, rows[i]) {
          var added := AppendUnique(rows[i], pass);
        }
      }
      assert rows[..|rows|] == rows;
    }
  }

  // ---- One leg's held work ---------------------------------------------------------

  datatype Source = Source(ref: string, store: Handle, inProgress: Read, openLive: Read, openCached: Read)

  // The IDs of a leg's rows that met a readiness rule.
  ghost function Held(rules: Rules, l: Source): set<string> {
    Ids(rules, InProgress, l.inProgress.Usable())
    + Ids(rules, Message, l.openLive.Usable()) + Ids(rules, Molecule, l.openLive.Usable())
  }

  ghost function Rows(l: Source): seq<Bead> {
    l.inProgress.Usable() + l.openLive.Usable() + l.openCached.Usable()
  }

  predicate Failing(l: Source) {
    l.inProgress.err.Some? || l.openLive.err.Some? || l.openCached.err.Some?
  }

  // Row `k` is a row of leg `l`, kept by a pass that admits it, and that pass marks it exactly
  // when its ID is held ready.
  ghost predicate RowOf(rules: Rules, l: Source, w: Work, passes: seq<Pass>, k: nat)
    requires Aligned(w) && k < |w.beads| == |passes|
  {
    && w.stores[k] == l.store && w.refs[k] == l.ref && w.beads[k] in Rows(l)
    && rules(passes[k], w.beads[k]) && (Marks(passes[k]) <==> w.beads[k].id in Held(rules, l))
  }

  /** Under the controller's own rules an ID is held ready exactly when one of the leg's rows with
      that ID is in progress and assigned or stranded, or is open assigned mail, or is an open
      assigned molecule root; session rows and rows only listed as open never count. */
  lemma HeldUnderSourceRules(stranded: Bead -> bool, legacyTarget: Bead -> string, l: Source, id: string)
    ensures id in Held(SourceRules(stranded, legacyTarget), l) <==>
              || (exists b :: b in l.inProgress.Usable() && b.id == id && b.issueType != "session" && (Assigned(b) || stranded(b)))
              || (exists b :: b in l.openLive.Usable() && b.id == id && Mail(b))
              || (exists b :: b in l.openLive.Usable() && b.id == id && MoleculeRoot(b))
  {
    var rules := SourceRules(stranded, legacyTarget);
    IdsByRow(rules, InProgress, l.inProgress.Usable(), id);
    IdsByRow(rules, Message, l.openLive.Usable(), id);
    IdsByRow(rules, Molecule, l.openLive.Usable(), id);
    assert forall b :: Mail(b) <==> rules(Message, b);
    assert forall b :: MoleculeRoot(b) <==> rules(Molecule, b);
  }

  lemma IdsByRow(rules: Rules, p: Pass, rows: seq<Bead>, id: string)
    ensures id in Ids(rules, p, rows) <==> exists b :: b in rows && b.id == id && rules(p, b)
  {
    if b :| b in rows && b.id == id && rules(p, b) {
      var i :| 0 <= i < |rows| && rows[i] == b;
    }
  }

  /** The passes of one leg, in place. */
  method Scan(rules: Rules, l: Source) returns (work: Work, ready: set<string>)
    ensures work == AfterScan(rules, l).work && ready == Held(rules, l)
  {
    var leg := new Leg(l.ref, l.store, rules);
    leg.Append(InProgress, l.inProgress.Usable());
    leg.Append(Message, l.openLive.Usable());
    leg.Append(Molecule, l.openLive.Usable());
    leg.Append(OpenRouted, l.openCached.Usable());
    Scanned(rules, l);
    work, ready := leg.work, leg.ready;
  }

  ghost function AfterScan(rules: Rules, l: Source): State {
    var s1 := KeepAll(rules, l.ref, l.store, START, InProgress, l.inProgress.Usable());
    var s2 := KeepAll(rules, l.ref, l.store, s1, Message, l.openLive.Usable());
    var s3 := KeepAll(rules, l.ref, l.store, s2, Molecule, l.openLive.Usable());
    KeepAll(rules, l.ref, l.store, s3, OpenRouted, l.openCached.Usable())
  }

  /** What one leg holds: ready are exactly the IDs its in-progress, message and molecule rows
      give; no ID is kept twice; a row only the open-routed pass admits is kept but never ready. */
  lemma Scanned(rules: Rules, l: Source)
    ensures var s := AfterScan(rules, l);
            && s.ready == Held(rules, l)
            && s.seen == Held(rules, l) + Ids(rules, OpenRouted, l.openCached.Usable())
            && Sound(rules, l.ref, l.store, s)
            && (forall k :: 0 <= k < |s.work.beads| ==> s.work.beads[k] in Rows(l) && RowOf(rules, l, s.work, s.passes, k))
  {
    var s1 := KeepAll(rules, l.ref, l.store, START, InProgress, l.inProgress.Usable());
    var s2 := KeepAll(rules, l.ref, l.store, s1, Message, l.openLive.Usable());
    var s3 := KeepAll(rules, l.ref, l.store, s2, Molecule, l.openLive.Usable());
    ScanPass(rules, l, START, InProgress, l.inProgress.Usable());
    ScanPass(rules, l, s1, Message, l.openLive.Usable());
    ScanPass(rules, l, s2, Molecule, l.openLive.Usable());
    ScanPass(rules, l, s3, OpenRouted, l.openCached.Usable());
  }

  lemma ScanPass(rules: Rules, l: Source, s: State, p: Pass, rows: seq<Bead>)
    requires Sound(rules, l.ref, l.store, s) && forall b :: b in s.work.beads ==> b in Rows(l)
    requires forall b :: b in rows ==> b in Rows(l)
    ensures var s' := KeepAll(rules, l.ref, l.store, s, p, rows);
            && Sound(rules, l.ref, l.store, s') && (forall b :: b in s'.work.beads ==> b in Rows(l))
            && s'.seen == s.seen + Ids(rules, p, rows)
            && s'.ready == if Marks(p) then s.ready + (Ids(rules, p, rows) - s.seen) else s.ready
  {
    KeepAllSound(rules, l.ref, l.store, s, p, rows);
    KeepAllIds(rules, l.ref, l.store, s, p, rows);
    KeepAllRooted(rules, l.ref, l.store, s, p, rows);
  }

  // ---- All legs ----------------------------------------------------------------------

  // A ready verdict is scoped to the store it came from.
  datatype Key = Key(ref: string, id: string)

  ghost predicate FromLegs(rules: Rules, legs: seq<Source>, w: Work, passes: seq<Pass>, from: seq<nat>) {
    && Aligned(w) && |passes| == |from| == |w.beads|
    && forall k :: 0 <= k < |w.beads| ==> from[k] < |legs| && RowOf(rules, legs[from[k]], w, passes, k)
  }

  // Appending one leg's rows keeps every row with its leg.
  lemma OneMoreLeg(rules: Rules, legs: seq<Source>, w: Work, passes: seq<Pass>, from: seq<nat>, i: nat, w': Work, passes': seq<Pass>)
    requires FromLegs(rules, legs, w, passes, from) && i < |legs|
    requires Aligned(w') && |passes'| == |w'.beads|
    requires forall k :: 0 <= k < |w'.beads| ==> RowOf(rules, legs[i], w', passes', k)
    ensures FromLegs(rules, legs, Plus(w, w'), passes + passes', from + seq(|w'.beads|, _ => i))
  {
    var all, ps, f := Plus(w, w'), passes + passes', from + seq(|w'.beads|, _ => i);
    forall k | 0 <= k < |all.beads|
      ensures f[k] < |legs| && RowOf(rules, legs[f[k]], all, ps, k)
    {
      if k < |w.beads| {
        assert RowOf(rules, legs[from[k]], w, passes, k);
      } else {
        assert RowOf(rules, legs[i], w', passes', k - |w.beads|);
      }
    }
  }

  ghost predicate HeldKey(rules: Rules, legs: seq<Source>, key: Key) {
    exists i :: 0 <= i < |legs| && legs[i].ref == key.ref && key.id in Held(rules, legs[i])
  }

  lemma OneMoreHeld(rules: Rules, legs: seq<Source>, i: nat, key: Key)
    requires i < |legs|
    ensures HeldKey(rules, legs[..i + 1], key) <==>
              HeldKey(rules, legs[..i], key) || (legs[i].ref == key.ref && key.id in Held(rules, legs[i]))
  {
    var now := legs[..i + 1];
    assert forall k :: 0 <= k < i ==> now[k] == legs[..i][k];
    assert now[i] == legs[i];
  }

  ghost predicate Gathered(rules: Rules, legs: seq<Source>, ready: set<Key>) {
    forall key :: key in ready <==> HeldKey(rules, legs, key)
  }

  lemma GatherOne(rules: Rules, legs: seq<Source>, i: nat, ready: set<Key>, ids: set<string>)
    requires i < |legs| && Gathered(rules, legs[..i], ready) && ids == Held(rules, legs[i])
    ensures Gathered(rules, legs[..i + 1], ready + set id | id in ids :: Key(legs[i].ref, id))
  {
    forall key {
      OneMoreHeld(rules, legs, i, key);
    }
  }

  lemma OneMoreFailing(legs: seq<Source>, i: nat)
    requires i < |legs|
    ensures AnyFailing(legs[..i + 1]) <==> AnyFailing(legs[..i]) || Failing(legs[i])
  {
    var now := legs[..i + 1];
    assert forall k :: 0 <= k < i ==> now[k] == legs[..i][k];
    assert now[i] == legs[i];
  }

  ghost predicate AnyFailing(legs: seq<Source>) {
    exists i :: 0 <= i < |legs| && Failing(legs[i])
  }

  // The rows of all legs, leg after leg.
  ghost function HeldWork(rules: Rules, legs: seq<Source>): Work {
    if legs == [] then NONE
    else Plus(HeldWork(rules, legs[..|legs| - 1]), AfterScan(rules, legs[|legs| - 1]).work)
  }

  // The pass that kept each held row, and the leg it came from.
  ghost function HeldPasses(rules: Rules, legs: seq<Source>): seq<Pass> {
    if legs == [] then []
    else HeldPasses(rules, legs[..|legs| - 1]) + AfterScan(rules, legs[|legs| - 1]).passes
  }

  ghost function HeldFrom(rules: Rules, legs: seq<Source>): seq<nat> {
    if legs == [] then []
    else HeldFrom(rules, legs[..|legs| - 1]) + seq(|AfterScan(rules, legs[|legs| - 1]).work.beads|, _ => |legs| - 1)
  }

  /** Every held row is one of its own leg's, under that leg's store and ref. */
  lemma {:induction false} HeldFromLegs(rules: Rules, legs: seq<Source>)
    ensures FromLegs(rules, legs, HeldWork(rules, legs), HeldPasses(rules, legs), HeldFrom(rules, legs))
  {
    if legs != [] {
      var front, l := legs[..|legs| - 1], legs[|legs| - 1];
      HeldFromLegs(rules, front);
      ScannedRows(rules, l);
      MoreLegs(rules, front, legs, HeldWork(rules, front), HeldPasses(rules, front), HeldFrom(rules, front));
      OneMoreLeg(rules, legs, HeldWork(rules, front), HeldPasses(rules, front), HeldFrom(rules, front), |front|,
                 AfterScan(rules, l).work, AfterScan(rules, l).passes);
    }
  }

  lemma ScannedRows(rules: Rules, l: Source)
    ensures var s := AfterScan(rules, l);
            && Aligned(s.work) && |s.passes| == |s.work.beads|
            && forall k :: 0 <= k < |s.work.beads| ==> RowOf(rules, l, s.work, s.passes, k)
  {
    Scanned(rules, l);
  }

  lemma MoreLegs(rules: Rules, front: seq<Source>, legs: seq<Source>, w: Work, passes: seq<Pass>, from: seq<nat>)
    requires front <= legs && FromLegs(rules, front, w, passes, from)
    ensures FromLegs(rules, legs, w, passes, from)
  {
    forall k | 0 <= k < |w.beads|
      ensures from[k] < |legs| && RowOf(rules, legs[from[k]], w, passes, k)
    {
      assert RowOf(rules, front[from[k]], w, passes, k);
    }
  }

  lemma OneMoreHeldLeg(rules: Rules, legs: seq<Source>, i: nat)
    requires i < |legs|
    ensures HeldWork(rules, legs[..i + 1]) == Plus(HeldWork(rules, legs[..i]), AfterScan(rules, legs[i]).work)
  {
    assert legs[..i + 1][..i] == legs[..i];
  }

  /** The first half of the collection. The ready keys are exactly the held IDs under their own
      leg's ref; a row of the same ID in another store plays no part. */
  method CollectHeld(rules: Rules, legs: seq<Source>) returns (work: Work, ready: set<Key>, partial: bool)
    ensures work == HeldWork(rules, legs)
    ensures Gathered(rules, legs, ready) && (partial <==> AnyFailing(legs))
  {
    work, ready, partial := NONE, {}, false;
    for i := 0 to |legs|
      invariant work == HeldWork(rules, legs[..i])
      invariant Gathered(rules, legs[..i], ready) && (partial <==> AnyFailing(legs[..i]))
    {
      var w, ids := Scan(rules, legs[i]);
      OneMoreHeldLeg(rules, legs, i);
      GatherOne(rules, legs, i, ready, ids);
      OneMoreFailing(legs, i);
      work := Plus(work, w);
      ready := ready + set id | id in ids :: Key(legs[i].ref, id);
      partial := partial || Failing(legs[i]);
    }
    assert legs[..|legs|] == legs;
  }

  // The assignee a captured row speaks for: mail and finished rows speak for nobody.
  function Holder(b: Bead): Option<string> {
    if Trim(b.assignee) != "" && (b.status == "open" || b.status == "in_progress") && b.issueType != "message"
    then Some(Trim(b.assignee)) else None
  }

  // Row `k` has a ready verdict in its own store.
  predicate Captured(w: Work, ready: set<Key>, k: nat)
    requires k < |w.beads|
  {
    k < |w.refs| && Key(w.refs[k], w.beads[k].id) in ready
  }

  ghost predicate Spared(holder: Bead -> Option<string>, w: Work, ready: set<Key>, n: nat, a: string)
    requires n <= |w.beads|
  {
    exists k :: 0 <= k < n && holder(w.beads[k]) == Some(a) && Captured(w, ready, k)
  }

  /** The assignees that need no ready probe; `holder` is `Holder` in the controller. */
  method CapturedAssignees(holder: Bead -> Option<string>, w: Work, ready: set<Key>) returns (skip: set<string>)
    ensures forall a :: a in skip <==> Spared(holder, w, ready, |w.beads|, a)
  {
    skip := {};
    for k := 0 to |w.beads|
      invariant forall a :: a in skip <==> Spared(holder, w, ready, k, a)
    {
      var h := holder(w.beads[k]);
      if h.Some? && Captured(w, ready, k) {
        skip := skip + {h.value};
      }
    }
  }

  /** No probe is skipped on account of an open-routed row: with one leg per ref, a captured row
      was kept by a pass that marks. */
  lemma CapturedIsReady(rules: Rules, legs: seq<Source>, w: Work, passes: seq<Pass>, from: seq<nat>, ready: set<Key>, k: nat)
    requires FromLegs(rules, legs, w, passes, from) && k < |w.beads|
    requires Gathered(rules, legs, ready)
    requires forall i, j :: 0 <= i < j < |legs| ==> legs[i].ref != legs[j].ref
    ensures Key(w.refs[k], w.beads[k].id) in ready <==> Marks(passes[k])
    ensures Captured(w, ready, k) ==> passes[k] != OpenRouted
  {
    var key := Key(w.refs[k], w.beads[k].id);
    assert RowOf(rules, legs[from[k]], w, passes, k);
    if key in ready {
      var i :| 0 <= i < |legs| && legs[i].ref == key.ref && key.id in Held(rules, legs[i]);
      assert i == from[k];
    }
  }

  // ---- The ready probe -----------------------------------------------------------------

  // The whole result.
  datatype Found = Found(work: Work, ready: set<Key>, partial: bool)

  ghost predicate ReadyRow(rules: Rules, legs: seq<Source>, answers: seq<Read>, w: Work, k: nat)
    requires Aligned(w) && k < |w.beads| && |answers| == |legs|
  {
    exists i :: 0 <= i < |legs| && w.stores[k] == legs[i].store && w.refs[k] == legs[i].ref
      && w.beads[k] in answers[i].rows && rules(Ready, w.beads[k])
  }

  ghost predicate ReadyRows(rules: Rules, legs: seq<Source>, answers: seq<Read>, w: Work)
    requires |answers| == |legs|
  {
    Aligned(w) && forall k :: 0 <= k < |w.beads| ==> ReadyRow(rules, legs, answers, w, k)
  }

  ghost predicate ReadyKey(rules: Rules, legs: seq<Source>, answers: seq<Read>, n: nat, key: Key)
    requires |answers| == |legs| && n <= |legs|
  {
    exists i :: 0 <= i < n && legs[i].ref == key.ref && key.id in Ids(rules, Ready, answers[i].rows)
  }

  ghost predicate AnyErr(answers: seq<Read>, n: nat)
    requires n <= |answers|
  {
    exists i :: 0 <= i < n && answers[i].err.Some?
  }

  lemma MoreReadyRows(rules: Rules, legs: seq<Source>, answers: seq<Read>, w: Work, i: nat, w': Work)
    requires |answers| == |legs| && i < |legs| && ReadyRows(rules, legs, answers, w)
    requires Aligned(w') && Rooted(rules, Ready, answers[i].rows, NONE, w')
    requires forall k :: 0 <= k < |w'.beads| ==> w'.stores[k] == legs[i].store && w'.refs[k] == legs[i].ref
    ensures ReadyRows(rules, legs, answers, Plus(w, w'))
  {
    forall k | 0 <= k < |w.beads| + |w'.beads|
      ensures ReadyRow(rules, legs, answers, Plus(w, w'), k)
    {
      if k < |w.beads| {
        assert ReadyRow(rules, legs, answers, w, k);
      }
    }
  }

  // One leg's ready rows, and those of the first n legs.
  ghost function ReadyOf(rules: Rules, l: Source, rows: seq<Bead>): State {
    KeepAll(rules, l.ref, l.store, START, Ready, rows)
  }

  ghost function ReadyWork(rules: Rules, legs: seq<Source>, answers: seq<Read>, n: nat): Work
    requires |answers| == |legs| && n <= |legs|
  {
    if n == 0 then NONE
    else Plus(ReadyWork(rules, legs, answers, n - 1), ReadyOf(rules, legs[n - 1], answers[n - 1].rows).work)
  }

  lemma ReadyOfLeg(rules: Rules, l: Source, rows: seq<Bead>)
    ensures var s := ReadyOf(rules, l, rows);
            && Sound(rules, l.ref, l.store, s) && Rooted(rules, Ready, rows, NONE, s.work)
            && s.ready == s.seen == Ids(rules, Ready, rows)
  {
    KeepAllSound(rules, l.ref, l.store, START, Ready, rows);
    KeepAllIds(rules, l.ref, l.store, START, Ready, rows);
    KeepAllRooted(rules, l.ref, l.store, START, Ready, rows);
  }

  lemma {:induction false} ReadyWorkRows(rules: Rules, legs: seq<Source>, answers: seq<Read>, n: nat)
    requires |answers| == |legs| && n <= |legs|
    ensures ReadyRows(rules, legs, answers, ReadyWork(rules, legs, answers, n))
  {
    if n > 0 {
      ReadyWorkRows(rules, legs, answers, n - 1);
      ReadyOfLeg(rules, legs[n - 1], answers[n - 1].rows);
      MoreReadyRows(rules, legs, answers, ReadyWork(rules, legs, answers, n - 1), n - 1, ReadyOf(rules, legs[n - 1], answers[n - 1].rows).work);
    }
  }

  method ReadyLeg(rules: Rules, l: Source, rows: seq<Bead>) returns (work: Work, ids: set<string>)
    ensures work == ReadyOf(rules, l, rows).work && ids == Ids(rules, Ready, rows)
  {
    var leg := new Leg(l.ref, l.store, rules);
    leg.Append(Ready, rows);
    ReadyOfLeg(rules, l, rows);
    work, ids := leg.work, leg.ready;
  }

  /** The second half: every leg's ready answer, kept in full even beside an error. */
  method CollectReady(rules: Rules, legs: seq<Source>, answers: seq<Read>) returns (work: Work, ready: set<Key>, partial: bool)
    requires |answers| == |legs|
    ensures work == ReadyWork(rules, legs, answers, |legs|)
    ensures forall key :: key in ready <==> ReadyKey(rules, legs, answers, |legs|, key)
    ensures partial <==> AnyErr(answers, |answers|)
  {
    work, ready, partial := NONE, {}, false;
    for i := 0 to |legs|
      invariant work == ReadyWork(rules, legs, answers, i)
      invariant forall key :: key in ready <==> ReadyKey(rules, legs, answers, i, key)
      invariant partial <==> AnyErr(answers, i)
    {
      var w, ids := ReadyLeg(rules, legs[i], answers[i].rows);
      work := Plus(work, w);
      ready := ready + set id | id in ids :: Key(legs[i].ref, id);
      partial := partial || answers[i].err.Some?;
    }
  }

  // ---- Keys and rows -------------------------------------------------------------------

  // A row of that ID was kept from a leg of that ref.
  ghost predicate HasRow(legs: seq<Source>, w: Work, key: Key) {
    exists k, i :: RowFor(legs, w, key, k, i)
  }

  ghost predicate RowFor(legs: seq<Source>, w: Work, key: Key, k: nat, i: nat) {
    && i < |legs| && legs[i].ref == key.ref
    && k < |w.beads| && k < |w.stores| && k < |w.refs|
    && w.beads[k].id == key.id && w.refs[k] == key.ref && w.stores[k] == legs[i].store
  }

  lemma RowStays(legs: seq<Source>, w: Work, more: Work, key: Key)
    requires Aligned(w) && Aligned(more) && (HasRow(legs, w, key) || HasRow(legs, more, key))
    ensures HasRow(legs, Plus(w, more), key)
  {
    if HasRow(legs, w, key) {
      var k, i :| RowFor(legs, w, key, k, i);
      assert RowFor(legs, Plus(w, more), key, k, i);
    } else {
      var k, i :| RowFor(legs, more, key, k, i);
      assert RowFor(legs, Plus(w, more), key, |w.beads| + k, i);
    }
  }

  // A leg's own rows.
  lemma RowOfLeg(rules: Rules, legs: seq<Source>, i: nat, s: State, id: string)
    requires i < |legs| && Sound(rules, legs[i].ref, legs[i].store, s) && id in s.seen
    ensures HasRow(legs, s.work, Key(legs[i].ref, id))
  {
    assert Holds(s.work, id);
    var k: nat :| k < |s.work.beads| && s.work.beads[k].id == id;
    assert RowFor(legs, s.work, Key(legs[i].ref, id), k, i);
  }

  /** Every ID the ready probe marks has its row among those kept, from a leg of that ref. */
  lemma {:induction false} ReadyKeyHasRow(rules: Rules, legs: seq<Source>, answers: seq<Read>, n: nat, key: Key)
    requires |answers| == |legs| && n <= |legs| && ReadyKey(rules, legs, answers, n, key)
    ensures HasRow(legs, ReadyWork(rules, legs, answers, n), key)
  {
    var i :| 0 <= i < n && legs[i].ref == key.ref && key.id in Ids(rules, Ready, answers[i].rows);
    var last := ReadyOf(rules, legs[n - 1], answers[n - 1].rows);
    ReadyWorkRows(rules, legs, answers, n - 1);
    ReadyOfLeg(rules, legs[n - 1], answers[n - 1].rows);
    if i == n - 1 {
      RowOfLeg(rules, legs, i, last, key.id);
    } else {
      assert ReadyKey(rules, legs, answers, n - 1, key);
      ReadyKeyHasRow(rules, legs, answers, n - 1, key);
    }
    RowStays(legs, ReadyWork(rules, legs, answers, n - 1), last.work, key);
  }

  lemma HeldAligned(rules: Rules, legs: seq<Source>)
    ensures Aligned(HeldWork(rules, legs))
  {
    HeldFromLegs(rules, legs);
  }

  lemma ScannedHasRow(rules: Rules, legs: seq<Source>, i: nat, id: string)
    requires i < |legs|
    ensures Aligned(AfterScan(rules, legs[i]).work)
    ensures id in Held(rules, legs[i]) ==> HasRow(legs, AfterScan(rules, legs[i]).work, Key(legs[i].ref, id))
  {
    Scanned(rules, legs[i]);
    if id in Held(rules, legs[i]) {
      RowOfLeg(rules, legs, i, AfterScan(rules, legs[i]), id);
    }
  }

  ghost function Joined(works: seq<Work>): Work {
    if works == [] then NONE else Plus(Joined(works[..|works| - 1]), works[|works| - 1])
  }

  lemma {:induction false} RowInJoined(legs: seq<Source>, works: seq<Work>, i: nat, key: Key)
    requires i < |works| && HasRow(legs, works[i], key) && forall j :: 0 <= j < |works| ==> Aligned(works[j])
    ensures HasRow(legs, Joined(works), key)
  {
    var front := works[..|works| - 1];
    JoinedAligned(front);
    if i < |front| {
      RowInJoined(legs, front, i, key);
    }
    RowStays(legs, Joined(front), works[|works| - 1], key);
  }

  lemma {:induction false} JoinedAligned(works: seq<Work>)
    requires forall j :: 0 <= j < |works| ==> Aligned(works[j])
    ensures Aligned(Joined(works))
  {
    if works != [] {
      JoinedAligned(works[..|works| - 1]);
    }
  }

  ghost function Scans(rules: Rules, legs: seq<Source>): seq<Work> {
    seq(|legs|, i requires 0 <= i < |legs| => AfterScan(rules, legs[i]).work)
  }

  lemma {:induction false} HeldIsJoined(rules: Rules, legs: seq<Source>)
    ensures HeldWork(rules, legs) == Joined(Scans(rules, legs))
  {
    if legs != [] {
      HeldIsJoined(rules, legs[..|legs| - 1]);
      assert Scans(rules, legs)[..|legs| - 1] == Scans(rules, legs[..|legs| - 1]);
    }
  }

  /** So has every ID held ready. */
  lemma HeldHasRow(rules: Rules, legs: seq<Source>, i: nat, id: string)
    requires i < |legs| && id in Held(rules, legs[i])
    ensures HasRow(legs, HeldWork(rules, legs), Key(legs[i].ref, id))
  {
    forall j | 0 <= j < |legs|
      ensures Aligned(Scans(rules, legs)[j])
    {
      ScannedHasRow(rules, legs, j, id);
    }
    ScannedHasRow(rules, legs, i, id);
    HeldIsJoined(rules, legs);
    RowInJoined(legs, Scans(rules, legs), i, Key(legs[i].ref, id));
  }

  // Row `k` is one of a leg's own, under its store and ref, admitted by some pass.
  ghost predicate HeldRow(rules: Rules, legs: seq<Source>, w: Work, k: nat)
    requires Aligned(w) && k < |w.beads|
  {
    exists i, p :: 0 <= i < |legs| && Came(rules, legs[i], w, k, p)
  }

  ghost predicate Came(rules: Rules, l: Source, w: Work, k: nat, p: Pass)
    requires Aligned(w) && k < |w.beads|
  {
    w.stores[k] == l.store && w.refs[k] == l.ref && w.beads[k] in Rows(l) && rules(p, w.beads[k])
  }

  lemma HeldRows(rules: Rules, legs: seq<Source>, w: Work, passes: seq<Pass>, from: seq<nat>, more: Work)
    requires FromLegs(rules, legs, w, passes, from) && Aligned(more)
    ensures Aligned(Plus(w, more)) && forall k :: 0 <= k < |w.beads| ==> HeldRow(rules, legs, Plus(w, more), k)
  {
    forall k | 0 <= k < |w.beads|
      ensures HeldRow(rules, legs, Plus(w, more), k)
    {
      assert RowOf(rules, legs[from[k]], w, passes, k);
      assert Came(rules, legs[from[k]], Plus(w, more), k, passes[k]);
    }
  }

  lemma AskedRows(rules: Rules, legs: seq<Source>, answers: seq<Read>, w: Work, more: Work)
    requires |answers| == |legs| && Aligned(w) && ReadyRows(rules, legs, answers, more)
    ensures forall k :: |w.beads| <= k < |w.beads| + |more.beads| ==> ReadyRow(rules, legs, answers, Plus(w, more), k)
  {
    forall k | |w.beads| <= k < |w.beads| + |more.beads|
      ensures ReadyRow(rules, legs, answers, Plus(w, more), k)
    {
      assert ReadyRow(rules, legs, answers, more, k - |w.beads|);
    }
  }

  // Row `k` of the held work speaks for its holder: it has a ready verdict in its own store.
  ghost predicate SpeaksFor(holder: Bead -> Option<string>, rules: Rules, legs: seq<Source>, w: Work, k: nat, a: string) {
    k < |w.beads| && k < |w.refs| && holder(w.beads[k]) == Some(a) && HeldKey(rules, legs, Key(w.refs[k], w.beads[k].id))
  }

  // The assignees already spoken for; `holder` is `Holder` in the controller.
  ghost function Skips(holder: Bead -> Option<string>, rules: Rules, legs: seq<Source>): set<string> {
    SpokenFor(holder, rules, legs, HeldWork(rules, legs))
  }

  ghost function SpokenFor(holder: Bead -> Option<string>, rules: Rules, legs: seq<Source>, w: Work): (skip: set<string>)
    ensures forall a :: a in skip <==> exists k :: SpeaksFor(holder, rules, legs, w, k, a)
  {
    set k: nat | k < |w.beads| && holder(w.beads[k]).Some? && SpeaksFor(holder, rules, legs, w, k, holder(w.beads[k]).value)
      :: holder(w.beads[k]).value
  }

  // The answers the ready probe uses: none when every assignee left is skipped. `probes` gives
  // the assignees still to ask about and `answers` each leg's ready rows for them.
  ghost function Asked(rules: Rules, legs: seq<Source>, probes: set<string> -> seq<string>, answers: seq<string> -> seq<Read>): Option<seq<Read>> {
    var skip := Skips(Holder, rules, legs);
    if skip != {} && probes(skip) == [] then None else Some(answers(probes(skip)))
  }

  ghost function Kept(rules: Rules, legs: seq<Source>, asked: Option<seq<Read>>): Work
    requires asked.Some? ==> |asked.value| == |legs|
  {
    Plus(HeldWork(rules, legs), if asked.Some? then ReadyWork(rules, legs, asked.value, |legs|) else NONE)
  }

  // What a collection found, given the ready answers it used: the rows of both halves, and the
  // ready keys exactly those held or answered.
  ghost predicate Exact(rules: Rules, legs: seq<Source>, asked: Option<seq<Read>>, f: Found) {
    && (asked.Some? ==> |asked.value| == |legs|)
    && f.work == Kept(rules, legs, asked)
    && (forall key :: key in f.ready <==>
          HeldKey(rules, legs, key) || (asked.Some? && ReadyKey(rules, legs, asked.value, |legs|, key)))
    && (f.partial <==> AnyFailing(legs) || (asked.Some? && AnyErr(asked.value, |legs|)))
  }

  /** Then every row is under its own store and ref, and every ready key has a row kept from a leg
      of that ref. */
  lemma ExactIsComplete(rules: Rules, legs: seq<Source>, asked: Option<seq<Read>>, f: Found)
    requires Exact(rules, legs, asked, f)
    ensures Aligned(f.work)
    ensures forall k :: 0 <= k < |f.work.beads| ==>
              HeldRow(rules, legs, f.work, k) || (asked.Some? && ReadyRow(rules, legs, asked.value, f.work, k))
    ensures forall key :: key in f.ready ==> HasRow(legs, f.work, key)
  {
    RowsKept(rules, legs, asked);
    forall key | key in f.ready
      ensures HasRow(legs, f.work, key)
    {
      KeysHaveRows(rules, legs, asked, key);
    }
  }

  // The rows of both halves together.
  lemma RowsKept(rules: Rules, legs: seq<Source>, asked: Option<seq<Read>>)
    requires asked.Some? ==> |asked.value| == |legs|
    ensures var w := Kept(rules, legs, asked);
            && Aligned(w)
            && (forall k :: 0 <= k < |w.beads| ==>
                  HeldRow(rules, legs, w, k) || (asked.Some? && ReadyRow(rules, legs, asked.value, w, k)))
  {
    HeldFromLegs(rules, legs);
    var held := HeldWork(rules, legs);
    if asked.Some? {
      ReadyWorkRows(rules, legs, asked.value, |legs|);
      var more := ReadyWork(rules, legs, asked.value, |legs|);
      HeldRows(rules, legs, held, HeldPasses(rules, legs), HeldFrom(rules, legs), more);
      AskedRows(rules, legs, asked.value, held, more);
    } else {
      HeldRows(rules, legs, held, HeldPasses(rules, legs), HeldFrom(rules, legs), NONE);
    }
  }

  lemma KeysHaveRows(rules: Rules, legs: seq<Source>, asked: Option<seq<Read>>, key: Key)
    requires asked.Some? ==> |asked.value| == |legs|
    requires HeldKey(rules, legs, key) || (asked.Some? && ReadyKey(rules, legs, asked.value, |legs|, key))
    ensures HasRow(legs, Kept(rules, legs, asked), key)
  {
    HeldAligned(rules, legs);
    assert legs[..|legs|] == legs;
    if HeldKey(rules, legs, key) {
      var i :| 0 <= i < |legs| && legs[i].ref == key.ref && key.id in Held(rules, legs[i]);
      HeldHasRow(rules, legs, i, key.id);
    } else {
      ReadyKeyHasRow(rules, legs, asked.value, |legs|, key);
    }
    if asked.Some? {
      ReadyWorkRows(rules, legs, asked.value, |legs|);
      RowStays(legs, HeldWork(rules, legs), ReadyWork(rules, legs, asked.value, |legs|), key);
    } else {
      RowStays(legs, HeldWork(rules, legs), NONE, key);
    }
  }

  /** The whole collection. */
  method Collect(rules: Rules, legs: seq<Source>, probes: set<string> -> seq<string>, answers: seq<string> -> seq<Read>) returns (found: Found)
    requires forall names :: |answers(names)| == |legs|
    ensures Exact(rules, legs, Asked(rules, legs, probes, answers), found)
  {
    var work, ready, partial := CollectHeld(rules, legs);
    var skip := CapturedAssignees(Holder, work, ready);
    SkipsAre(Holder, rules, legs, work, ready, skip);
    var names := probes(skip);
    if skip != {} && names == [] {
      HeldAlone(rules, legs, work, ready, partial);
      return Found(work, ready, partial);
    }
    var more, ready', partial' := CollectReady(rules, legs, answers(names));
    HeldAndReady(rules, legs, answers(names), work, ready, partial, more, ready', partial');
    return Found(Plus(work, more), ready + ready', partial || partial');
  }

  lemma HeldAlone(rules: Rules, legs: seq<Source>, work: Work, ready: set<Key>, partial: bool)
    requires work == HeldWork(rules, legs) && Gathered(rules, legs, ready) && (partial <==> AnyFailing(legs))
    ensures Exact(rules, legs, None, Found(work, ready, partial))
  {
    assert Plus(work, NONE) == work;
  }

  lemma HeldAndReady(rules: Rules, legs: seq<Source>, answers: seq<Read>, work: Work, ready: set<Key>, partial: bool, more: Work, ready': set<Key>, partial': bool)
    requires work == HeldWork(rules, legs) && Gathered(rules, legs, ready) && (partial <==> AnyFailing(legs))
    requires |answers| == |legs| && more == ReadyWork(rules, legs, answers, |legs|) && (partial' <==> AnyErr(answers, |answers|))
    requires forall key :: key in ready' <==> ReadyKey(rules, legs, answers, |legs|, key)
    ensures Exact(rules, legs, Some(answers), Found(Plus(work, more), ready + ready', partial || partial'))
  {
  }

  lemma SkipsAre(holder: Bead -> Option<string>, rules: Rules, legs: seq<Source>, w: Work, ready: set<Key>, skip: set<string>)
    requires w == HeldWork(rules, legs) && Gathered(rules, legs, ready)
    requires forall a :: a in skip <==> Spared(holder, w, ready, |w.beads|, a)
    ensures skip == Skips(holder, rules, legs)
  {
    forall a
      ensures Spared(holder, w, ready, |w.beads|, a) <==> exists k :: SpeaksFor(holder, rules, legs, w, k, a)
    {
      if Spared(holder, w, ready, |w.beads|, a) {
        var k :| 0 <= k < |w.beads| && holder(w.beads[k]) == Some(a) && Captured(w, ready, k);
        assert SpeaksFor(holder, rules, legs, w, k, a);
      }
      if k :| SpeaksFor(holder, rules, legs, w, k, a) {
        assert Captured(w, ready, k);
      }
    }
  }
}
