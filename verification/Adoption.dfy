/** The adoption barrier: every running session gets an open bead before the controller starts,
    over any interleaving of complete, crashed and repeated runs. */
module Adoption {
  import opened Text

  // What a session's turn meets: whether its process answers, and which store call fails.
  datatype Fault = NoFault | ProbeFails | CreateFails
  datatype Probe = Probe(alive: bool, fault: Fault)

  datatype Tally = Tally(adopted: nat, already: nat, skipped: nat, total: int)

  // One run of the barrier over the names it listed. `live` collects the names found alive and
  // `closed` the names closed by others since the run listed the open beads.
  datatype Run = Run(names: seq<string>, next: nat, listed: set<string>, dry: bool, partial: bool,
                     tally: Tally, live: set<string>, closed: set<string>)

  predicate Open(r: Run) { r.next < |r.names| }

  predicate Passed(r: Run) { !Open(r) && r.tally.skipped == 0 && !r.partial }

  function Begun(names: seq<string>, partial: bool, dry: bool, listed: set<string>): Run {
    Run(names, 0, listed, dry, partial, Tally(0, 0, 0, |names|), {}, {})
  }

  datatype Verdict = Dropped | Adopted | Already | Skipped

  function Judge(r: Run, open: multiset<string>, p: Probe): Verdict
    requires Open(r)
  {
    var n := r.names[r.next];
    if !p.alive then Dropped
    else if n in r.listed then Already
    else if r.dry then Adopted
    else if p.fault == ProbeFails then Skipped
    else if n in open then Already
    else if p.fault == CreateFails then Skipped
    else Adopted
  }

  function Plus(t: Tally, v: Verdict): Tally {
    match v
    case Dropped => t.(total := t.total - 1)
    case Adopted => t.(adopted := t.adopted + 1)
    case Already => t.(already := t.already + 1)
    case Skipped => t.(skipped := t.skipped + 1)
  }

  // A run's next session. The probe and the create happen under the session's identifier locks,
  // so they see and change the open beads in one step.
  function Body(r: Run, open: multiset<string>, p: Probe): (Run, multiset<string>)
    requires Open(r)
  {
    var n, v := r.names[r.next], Judge(r, open, p);
    (r.(next := r.next + 1, tally := Plus(r.tally, v), live := if v.Dropped? then r.live else r.live + {n}),
     if v.Adopted? && !r.dry then open + multiset{n} else open)
  }

  // ---- All runs together ---------------------------------------------------------

  datatype World = World(open: multiset<string>, runs: map<nat, Run>)

  datatype Step =
    | Begin(id: nat, names: seq<string>, partial: bool, dry: bool, listed: set<string>)
    | Visit(id: nat, probe: Probe)
    | Crash(id: nat)                          // between two sessions
    | CrashInside(id: nat, probe: Probe)      // after the store call, before it is counted
    | Close(name: string)                     // a bead is closed by someone else

  predicate Enabled(w: World, s: Step) {
    match s
    case Begin(id, _, _, _, listed) => id !in w.runs && forall n :: n in listed ==> n in w.open
    case Visit(id, _) => id in w.runs && Open(w.runs[id])
    case Crash(id) => id in w.runs
    case CrashInside(id, _) => id in w.runs && Open(w.runs[id])
    case Close(n) => n in w.open
  }

  function Apply(w: World, s: Step): World
    requires Enabled(w, s)
  {
    match s
    case Begin(id, names, partial, dry, listed) => w.(runs := w.runs[id := Begun(names, partial, dry, listed)])
    case Visit(id, p) =>
      var (r, open) := Body(w.runs[id], w.open, p);
      World(open, w.runs[id := r])
    case Crash(id) => w.(runs := w.runs - {id})
    case CrashInside(id, p) => World(Body(w.runs[id], w.open, p).1, w.runs - {id})
    case Close(n) =>
      World(w.open - multiset{n}, map id | id in w.runs :: w.runs[id].(closed := w.runs[id].closed + {n}))
  }

  ghost predicate ValidRun(w: World, steps: seq<Step>)
    decreases |steps|
  {
    steps == [] || (Enabled(w, steps[0]) && ValidRun(Apply(w, steps[0]), steps[1..]))
  }

  ghost function After(w: World, steps: seq<Step>): World
    requires ValidRun(w, steps)
    decreases |steps|
  {
    if steps == [] then w else After(Apply(w, steps[0]), steps[1..])
  }

  // ---- What holds throughout -------------------------------------------------------

  ghost predicate OneEach(open: multiset<string>) {
    forall n :: open[n] <= 1
  }

  // Every session handled is counted once, and dropped ones leave the total.
  predicate Counted(r: Run) {
    r.next <= |r.names| && r.tally.adopted + r.tally.already + r.tally.skipped + (|r.names| - r.next) == r.tally.total
  }

  // A name the run listed or found alive has an open bead, unless it was closed meanwhile or its
  // adoption was skipped.
  ghost predicate Backed(r: Run, open: multiset<string>) {
    && (forall n :: n in r.listed && n !in r.closed ==> n in open)
    && (!r.dry && r.tally.skipped == 0 ==> forall n :: n in r.live && n !in r.closed ==> n in open)
  }

  ghost predicate Inv(w: World) {
    OneEach(w.open) && forall id :: id in w.runs ==> Counted(w.runs[id]) && Backed(w.runs[id], w.open)
  }

  lemma BodyGrows(r: Run, open: multiset<string>, p: Probe)
    requires Open(r) && OneEach(open) && Counted(r) && Backed(r, open)
    ensures var (r', open') := Body(r, open, p);
            OneEach(open') && Counted(r') && Backed(r', open') && open <= open'
  {
  }

  // One run's turn leaves the others as well off as before.
  lemma TurnKeepsInv(w: World, id: nat, p: Probe)
    requires Inv(w) && id in w.runs && Open(w.runs[id])
    ensures var (r, open) := Body(w.runs[id], w.open, p);
            Inv(World(open, w.runs[id := r])) && Inv(World(open, w.runs - {id}))
  {
    var (r, open) := Body(w.runs[id], w.open, p);
    BodyGrows(w.runs[id], w.open, p);
    forall other | other in w.runs
      ensures Backed(w.runs[other], open)
    {
      assert Backed(w.runs[other], w.open);
    }
  }

  lemma StepKeepsInv(w: World, s: Step)
    requires Inv(w) && Enabled(w, s)
    ensures Inv(Apply(w, s))
  {
    match s {
      case Begin(_, _, _, _, _) =>
      case Visit(id, p) => TurnKeepsInv(w, id, p);
      case Crash(_) =>
      case CrashInside(id, p) => TurnKeepsInv(w, id, p);
      case Close(n) =>
        forall id | id in w.runs
          ensures Backed(Apply(w, s).runs[id], Apply(w, s).open)
        {
          assert Backed(w.runs[id], w.open);
        }
    }
  }

  lemma {:induction false} RunKeepsInv(w: World, steps: seq<Step>)
    requires Inv(w) && ValidRun(w, steps)
    ensures Inv(After(w, steps))
    decreases |steps|
  {
    if steps != [] {
      StepKeepsInv(w, steps[0]);
      RunKeepsInv(Apply(w, steps[0]), steps[1..]);
    }
  }

  /** From any store with one open bead a name, over every sequence of starts, session turns,
      crashes at any point and closes by others, with any number of runs in flight: no session
      name ever has two open beads, every run's counts add up, and a run that passes leaves an
      open bead for every session it found alive and nobody closed since. */
  lemma AdoptionSafe(open: multiset<string>, steps: seq<Step>)
    requires OneEach(open) && ValidRun(World(open, map[]), steps)
    ensures var w := After(World(open, map[]), steps);
            && OneEach(w.open)
            && forall id :: id in w.runs ==>
                 var r := w.runs[id];
                 && (!Open(r) ==> r.tally.adopted + r.tally.already + r.tally.skipped == r.tally.total)
                 && (Passed(r) && !r.dry ==> forall n :: n in r.live && n !in r.closed ==> n in w.open)
  {
    RunKeepsInv(World(open, map[]), steps);
  }

  // ---- One undisturbed run ---------------------------------------------------------

  ghost function Visits(r: Run, open: multiset<string>, probes: seq<Probe>): (v: (Run, multiset<string>))
    requires r.next + |probes| <= |r.names|
    ensures v.0.next == r.next + |probes|
    ensures (v.0.names, v.0.listed, v.0.dry, v.0.partial, v.0.closed) == (r.names, r.listed, r.dry, r.partial, r.closed)
    decreases |probes|
  {
    if probes == [] then (r, open)
    else
      var (r', open') := Visits(r, open, probes[..|probes| - 1]);
      Body(r', open', probes[|probes| - 1])
  }

  class Sessions {
    var open: multiset<string>

    // The locked body of one adoption: look again, then create.
    method Adopt(name: string, fault: Fault) returns (had: bool, failed: bool)
      modifies this
      ensures failed <==> fault == ProbeFails || (old(name !in open) && fault == CreateFails)
      ensures had <==> !failed && old(name in open)
      ensures open == if had || failed then old(open) else old(open) + multiset{name}
    {
      had, failed := false, false;
      if fault == ProbeFails {
        failed := true;
      } else if name in open {
        had := true;
      } else if fault == CreateFails {
        failed := true;
      } else {
        open := open + multiset{name};
      }
    }
  }

  lemma NextVisit(r: Run, open: multiset<string>, probes: seq<Probe>, i: nat)
    requires i < |probes| && r.next + |probes| <= |r.names|
    ensures var (r', open') := Visits(r, open, probes[..i]);
            Visits(r, open, probes[..i + 1]) == Body(r', open', probes[i])
  {
    assert probes[..i + 1][..i] == probes[..i];
  }

  ghost predicate Sound(r: Run, open: multiset<string>) {
    OneEach(open) && Counted(r) && Backed(r, open)
  }

  lemma {:induction false} VisitsKeep(r: Run, open: multiset<string>, probes: seq<Probe>)
    requires r.next + |probes| <= |r.names| && Sound(r, open)
    ensures Sound(Visits(r, open, probes).0, Visits(r, open, probes).1)
    decreases |probes|
  {
    if probes != [] {
      var (r', open') := Visits(r, open, probes[..|probes| - 1]);
      VisitsKeep(r, open, probes[..|probes| - 1]);
      BodyGrows(r', open', probes[|probes| - 1]);
    }
  }

  lemma BodySees(r: Run, open: multiset<string>, p: Probe)
    requires Open(r)
    ensures r.live <= Body(r, open, p).0.live && (p.alive ==> r.names[r.next] in Body(r, open, p).0.live)
  {
  }

  lemma {:induction false} VisitsSee(r: Run, open: multiset<string>, probes: seq<Probe>, i: nat)
    requires r.next + |probes| <= |r.names| && i < |probes| && probes[i].alive
    ensures r.names[r.next + i] in Visits(r, open, probes).0.live
    decreases |probes|
  {
    var front := probes[..|probes| - 1];
    var (r', open') := Visits(r, open, front);
    BodySees(r', open', probes[|probes| - 1]);
    if i < |front| {
      VisitsSee(r, open, front, i);
    }
  }

  ghost predicate AllBacked(names: seq<string>, probes: seq<Probe>, open: multiset<string>)
    requires |probes| <= |names|
  {
    forall i :: 0 <= i < |probes| && probes[i].alive ==> names[i] in open
  }

  /** A real run nobody disturbs, from a truthful listing: passing means every live session has
      an open bead. */
  lemma PassMeansBacked(names: seq<string>, partial: bool, listed: set<string>, open: multiset<string>, probes: seq<Probe>)
    requires |probes| == |names| && OneEach(open) && forall n :: n in listed ==> n in open
    ensures var (r, open') := Visits(Begun(names, partial, false, listed), open, probes);
            OneEach(open') && (Passed(r) ==> AllBacked(names, probes, open'))
  {
    var r0 := Begun(names, partial, false, listed);
    VisitsKeep(r0, open, probes);
    forall i: nat | i < |probes| && probes[i].alive
      ensures names[i] in Visits(r0, open, probes).0.live
    {
      VisitsSee(r0, open, probes, i);
    }
  }

  // One session's turn.
  method Turn(store: Sessions, name: string, listed: set<string>, dry: bool, probe: Probe, tally: Tally, ghost r: Run)
    returns (tally': Tally)
    requires Open(r) && name == r.names[r.next] && listed == r.listed && dry == r.dry && tally == r.tally
    modifies store
    ensures (tally', store.open) == (Body(r, old(store.open), probe).0.tally, Body(r, old(store.open), probe).1)
  {
    if !probe.alive {
      return Plus(tally, Dropped);
    }
    if name in listed {
      return Plus(tally, Already);
    }
    if dry {
      return Plus(tally, Adopted);
    }
    var had, failed := store.Adopt(name, probe.fault);
    return Plus(tally, if had then Already else if failed then Skipped else Adopted);
  }

  // The result of listing running sessions: an error that is not partial ends the barrier.
  datatype Running = Names(names: seq<string>, partial: bool) | Unlisted

  /** The barrier's own loop, over a store nobody else changes meanwhile. */
  method Barrier(store: Sessions, running: Running, listing: Option<set<string>>, probes: seq<Probe>, dry: bool)
    returns (tally: Tally, passed: bool)
    requires running.Names? ==> |probes| == |running.names|
    modifies store
    ensures running.Unlisted? ==> tally == Tally(0, 0, 0, 0) && !passed && store.open == old(store.open)
    ensures running.Names? && running.names == [] ==> passed == !running.partial && store.open == old(store.open)
    ensures running.Names? && running.names != [] && listing.None? ==> !passed && store.open == old(store.open)
    ensures running.Names? && running.names != [] && listing.Some? ==>
              var (r, open) := Visits(Begun(running.names, running.partial, dry, listing.value), old(store.open), probes);
              tally == r.tally && passed == Passed(r) && store.open == open
    ensures passed && !dry && running.names != [] && OneEach(old(store.open))
            && (forall n :: n in listing.value ==> n in old(store.open)) ==>
              OneEach(store.open) && AllBacked(running.names, probes, store.open)
  {
    tally := Tally(0, 0, 0, 0);
    if running.Unlisted? {
      return tally, false;
    }
    var names := running.names;
    tally := Tally(0, 0, 0, |names|);
    if names == [] {
      return tally, !running.partial;
    }
    if listing.None? {
      return tally, false;
    }
    ghost var r0 := Begun(names, running.partial, dry, listing.value);
    ghost var open0 := store.open;
    for i := 0 to |names|
      invariant (tally, store.open) == (Visits(r0, open0, probes[..i]).0.tally, Visits(r0, open0, probes[..i]).1)
    {
      NextVisit(r0, open0, probes, i);
      tally := Turn(store, names[i], listing.value, dry, probes[i], tally, Visits(r0, open0, probes[..i]).0);
    }
    assert probes[..|names|] == probes;
    if OneEach(open0) && (forall n :: n in listing.value ==> n in open0) {
      PassMeansBacked(names, running.partial, listing.value, open0, probes);
    }
    passed := tally.skipped == 0 && !running.partial;
  }

  /** Running again is harmless: when every session has a bead the listing knows, a run creates
      nothing and skips nothing, so a complete listing passes, whatever the store does. */
  lemma {:induction false} RerunDoesNothing(r: Run, open: multiset<string>, probes: seq<Probe>)
    requires r.next + |probes| <= |r.names|
    requires forall i :: r.next <= i < r.next + |probes| ==> r.names[i] in r.listed
    ensures var (r', open') := Visits(r, open, probes);
            && open' == open && r'.tally.adopted == r.tally.adopted && r'.tally.skipped == r.tally.skipped
            && (r.next + |probes| == |r.names| && r.tally.skipped == 0 && !r.partial ==> Passed(r'))
  {
    if probes != [] {
      RerunDoesNothing(r, open, probes[..|probes| - 1]);
    }
  }

  // Names still to come have no bead the listing does not know.
  ghost predicate Fair(r: Run, open: multiset<string>, from: nat) {
    forall i :: from <= i < |r.names| && r.names[i] !in r.listed ==> r.names[i] !in open
  }

  // The two runs, turn by turn.
  ghost predicate InStep(planned: Run, actual: Run, open: multiset<string>) {
    && planned.dry && !actual.dry && planned.names == actual.names && planned.next == actual.next
    && planned.listed == actual.listed && planned.tally == actual.tally
    && Fair(actual, open, actual.next)
  }

  lemma StaysInStep(planned: Run, actual: Run, before: multiset<string>, open: multiset<string>, p: Probe)
    requires InStep(planned, actual, open) && Open(actual) && p.fault == NoFault
    requires forall i, j :: 0 <= i < j < |actual.names| ==> actual.names[i] != actual.names[j]
    ensures InStep(Body(planned, before, p).0, Body(actual, open, p).0, Body(actual, open, p).1)
    ensures Body(planned, before, p).1 == before
  {
  }

  lemma {:induction false} RunInStep(planned: Run, actual: Run, open: multiset<string>, probes: seq<Probe>)
    requires InStep(planned, actual, open) && actual.next + |probes| <= |actual.names|
    requires forall i, j :: 0 <= i < j < |actual.names| ==> actual.names[i] != actual.names[j]
    requires forall p :: p in probes ==> p.fault == NoFault
    ensures InStep(Visits(planned, open, probes).0, Visits(actual, open, probes).0, Visits(actual, open, probes).1)
    ensures Visits(planned, open, probes).1 == open
    decreases |probes|
  {
    if probes != [] {
      var front := probes[..|probes| - 1];
      RunInStep(planned, actual, open, front);
      StaysInStep(Visits(planned, open, front).0, Visits(actual, open, front).0, open, Visits(actual, open, front).1, probes[|probes| - 1]);
    }
  }

  /** A dry run predicts the real one: with distinct names, a listing of every open bead and no
      store failures, both count the same and the dry run creates nothing. */
  lemma DryRunPredicts(names: seq<string>, partial: bool, listed: set<string>, open: multiset<string>, probes: seq<Probe>)
    requires |probes| <= |names|
    requires forall i, j :: 0 <= i < j < |names| ==> names[i] != names[j]
    requires forall n :: n in open ==> n in listed
    requires forall p :: p in probes ==> p.fault == NoFault
    ensures var planned := Visits(Begun(names, partial, true, listed), open, probes);
            planned.0.tally == Visits(Begun(names, partial, false, listed), open, probes).0.tally && planned.1 == open
  {
    RunInStep(Begun(names, partial, true, listed), Begun(names, partial, false, listed), open, probes);
  }
}
