/** Creating session rows under identifier locks.

  Pool creators and the adoption barrier both follow one discipline: take the locks of
  every identifier the new row will use, in sorted order; re-read the session census one
  store leg at a time; decide; write; let the locks go again. Each of these is one step
  here, so any number of creators interleave freely, rows are closed or marked failed
  under their feet, foreign programs add rows without taking any lock, and a creator may
  die at any point.

  Identifiers are ranked by Go's string order; 0 stands for the empty string. */
module SessionLocks {

  type Ident = nat

  const NO_NAME: Ident := 0

  datatype Status = Open | FailedCreate | Closed

  datatype Writer = Foreign | Creator(id: nat)

  datatype Row = Row(leg: nat, name: Ident, alias: Ident, agent: Ident, status: Status, writer: Writer)

  // The part of a create that is fixed before the locks are taken. The first availability
  // name is the runtime name; `known` holds the planning-time projections that are unioned
  // with the census read under the locks, and `legs` the store legs that census covers.
  datatype Plan = Plan(
    names: seq<Ident>, alias: Ident, persistAlias: bool, agent: Ident,
    locks: seq<Ident>, leg: nat, legs: seq<nat>, known: set<Row>)
  {
    ghost predicate WellFormed() {
      && names != []
      && leg in legs
      && Ascending(locks)
      && (forall n :: n in names ==> n in locks)
      && (alias != NO_NAME ==> alias in locks)
    }
  }

  // ---- The lock set -------------------------------------------------------------

  ghost predicate Ascending(s: seq<Ident>) {
    forall i, j :: 0 <= i < j < |s| ==> s[i] < s[j]
  }

  // Adds one identifier: the empty one and those already present are dropped.
  function Add(s: seq<Ident>, id: Ident): (r: seq<Ident>)
    requires Ascending(s)
    ensures Ascending(r)
    ensures forall x :: x in r <==> x in s || (x == id && id != NO_NAME)
  {
    if id == NO_NAME then s
    else if s == [] || id < s[0] then [id] + s
    else if id == s[0] then s
    else
      var tail, rest := s[1..], Add(s[1..], id);
      assert s == [s[0]] + tail;
      assert forall x :: x in tail ==> s[0] < x;
      Prepended(s[0], rest);
      [s[0]] + rest
  }

  lemma Prepended(x: Ident, s: seq<Ident>)
    requires Ascending(s) && forall y :: y in s ==> x < y
    ensures Ascending([x] + s)
  {
    var r := [x] + s;
    forall i, j | 0 <= i < j < |r|
      ensures r[i] < r[j]
    {
      assert r[j] == s[j - 1] && s[j - 1] in s;
    }
  }

  function AddAll(s: seq<Ident>, ids: seq<Ident>): (r: seq<Ident>)
    requires Ascending(s)
    decreases |ids|
    ensures Ascending(r)
    ensures forall x :: x in r <==> x in s || (x in ids && x != NO_NAME)
  {
    if ids == [] then s else AddAll(Add(s, ids[0]), ids[1..])
  }

  // Every availability name, the qualified alias and the resolved tmux alias; sorted.
  function LockIdentifiers(names: seq<Ident>, alias: Ident, tmux: Ident): (r: seq<Ident>)
    ensures Ascending(r)
    ensures forall x :: x in r <==> x != NO_NAME && (x in names || x == alias || x == tmux)
  {
    Add(Add(AddAll([], names), alias), tmux)
  }

  // A create planned with that lock set holds, under lock, every identifier it may persist.
  lemma LocksCoverPlan(p: Plan, tmux: Ident)
    requires p.names != [] && NO_NAME !in p.names && p.leg in p.legs
    requires p.locks == LockIdentifiers(p.names, p.alias, tmux)
    ensures p.WellFormed()
  {
  }

  // ---- The state machine --------------------------------------------------------

  datatype Outcome = Undecided | Wrote | Refused(partialLeg: bool)

  datatype Phase =
    | Acquiring(held: nat)
    | Reading(done: nat, seen: set<Row>)
    | Writing(row: Row)
    | Releasing(left: nat, outcome: Outcome)
    | Finished(result: Outcome)

  datatype State = State(plans: seq<Plan>, rows: seq<Row>, phases: seq<Phase>)

  // What the primary store and the configuration answer about the alias.
  datatype AliasReply = Free | Taken | Unanswered

  datatype Step =
    | Acquire(c: nat)
    | StartCensus(c: nat)
    | ReadLeg(c: nat, complete: bool)
    | Decide(c: nat, reply: AliasReply, namesFree: bool)
    | Write(c: nat, ok: bool)
    | Release(c: nat)
    | Crash(c: nat)
    | CloseRow(i: nat)
    | FailRow(i: nat)
    | AddForeign(row: Row)
  {
    predicate ByCreator() {
      Acquire? || StartCensus? || ReadLeg? || Decide? || Write? || Release?
    }
  }

  function Holding(p: Plan, ph: Phase): (ids: seq<Ident>) {
    match ph
    case Acquiring(k) => if k <= |p.locks| then p.locks[..k] else []
    case Reading(_, _) => p.locks
    case Writing(_) => p.locks
    case Releasing(k, _) => if k <= |p.locks| then p.locks[..k] else []
    case Finished(_) => []
  }

  // A census read of one leg drops closed rows and keeps everything else.
  function OpenRows(rows: seq<Row>, leg: nat): set<Row> {
    set r | r in rows && r.leg == leg && r.status != Closed
  }

  predicate AliasCollides(seen: set<Row>, alias: Ident) {
    exists r :: r in seen && r.status == Open && (r.name == alias || r.alias == alias || r.agent == alias)
  }

  // A failed row keeps its runtime name until it is closed.
  predicate NameTaken(seen: set<Row>, name: Ident) {
    exists r :: r in seen && r.status != Closed && r.name == name
  }

  function Decision(p: Plan, c: nat, seen: set<Row>, reply: AliasReply, namesFree: bool): Phase
    requires p.names != []
  {
    var n := |p.locks|;
    if p.alias != NO_NAME && reply == Unanswered then Releasing(n, Refused(false))
    else if !namesFree || exists i :: 0 <= i < |p.names| && NameTaken(seen, p.names[i]) then
      Releasing(n, Refused(false))
    else
      var keep := p.alias != NO_NAME && reply == Free && !AliasCollides(seen, p.alias) && p.persistAlias;
      Writing(Row(p.leg, p.names[0], if keep then p.alias else NO_NAME, p.agent, Open, Creator(c)))
  }

  predicate Enabled(s: State, t: Step) {
    |s.plans| == |s.phases| &&
    match t
    case Acquire(c) =>
      c < |s.plans| && s.phases[c].Acquiring? && s.phases[c].held < |s.plans[c].locks|
      && forall d :: 0 <= d < |s.plans| ==> s.plans[c].locks[s.phases[c].held] !in Holding(s.plans[d], s.phases[d])
    case StartCensus(c) =>
      c < |s.plans| && s.phases[c].Acquiring? && s.phases[c].held == |s.plans[c].locks|
    case ReadLeg(c, _) =>
      c < |s.plans| && s.phases[c].Reading? && s.phases[c].done < |s.plans[c].legs|
    case Decide(c, _, _) =>
      c < |s.plans| && s.phases[c].Reading? && s.phases[c].done == |s.plans[c].legs| && s.plans[c].names != []
    case Write(c, _) => c < |s.plans| && s.phases[c].Writing?
    case Release(c) => c < |s.plans| && s.phases[c].Releasing? && s.phases[c].left <= |s.plans[c].locks|
    case Crash(c) => c < |s.plans| && !s.phases[c].Finished?
    case CloseRow(i) => i < |s.rows|
    case FailRow(i) => i < |s.rows| && s.rows[i].status == Open
    case AddForeign(row) => row.writer == Foreign
  }

  function Apply(s: State, t: Step): State
    requires Enabled(s, t)
  {
    match t
    case Acquire(c) =>
      s.(phases := s.phases[c := Acquiring(s.phases[c].held + 1)])
    case StartCensus(c) =>
      s.(phases := s.phases[c := Reading(0, s.plans[c].known)])
    case ReadLeg(c, complete) =>
      var Reading(k, seen) := s.phases[c];
      s.(phases := s.phases[c := if complete then Reading(k + 1, seen + OpenRows(s.rows, s.plans[c].legs[k]))
                                 else Releasing(|s.plans[c].locks|, Refused(true))])
    case Decide(c, reply, namesFree) =>
      s.(phases := s.phases[c := Decision(s.plans[c], c, s.phases[c].seen, reply, namesFree)])
    case Write(c, ok) =>
      var n := |s.plans[c].locks|;
      if ok then s.(rows := s.rows + [s.phases[c].row], phases := s.phases[c := Releasing(n, Wrote)])
      else s.(phases := s.phases[c := Releasing(n, Refused(false))])
    case Release(c) =>
      var Releasing(k, o) := s.phases[c];
      s.(phases := s.phases[c := if k == 0 then Finished(o) else Releasing(k - 1, o)])
    case Crash(c) =>
      s.(phases := s.phases[c := Finished(if s.phases[c].Releasing? then s.phases[c].outcome else Undecided)])
    case CloseRow(i) => s.(rows := s.rows[i := s.rows[i].(status := Closed)])
    case FailRow(i) => s.(rows := s.rows[i := s.rows[i].(status := FailedCreate)])
    case AddForeign(row) => s.(rows := s.rows + [row])
  }

  ghost predicate ValidRun(s: State, run: seq<Step>)
    decreases |run|
  {
    run == [] || (Enabled(s, run[0]) && ValidRun(Apply(s, run[0]), run[1..]))
  }

  ghost function After(s: State, run: seq<Step>): State
    requires ValidRun(s, run)
    decreases |run|
  {
    if run == [] then s else After(Apply(s, run[0]), run[1..])
  }

  // No creator has started; whatever rows exist were written by others.
  ghost predicate Initial(s: State) {
    && |s.plans| == |s.phases|
    && (forall c :: 0 <= c < |s.plans| ==> s.plans[c].WellFormed() && s.phases[c] == Acquiring(0))
    && (forall i :: 0 <= i < |s.rows| ==> s.rows[i].writer == Foreign)
  }

  // ---- What every step keeps ----------------------------------------------------

  // A row that claims an identifier `id` as its runtime name, or as its alias.
  ghost predicate ByUs(r: Row) { r.writer.Creator? }

  ghost predicate Shape(s: State) {
    && |s.plans| == |s.phases|
    && (forall c :: 0 <= c < |s.plans| ==> s.plans[c].WellFormed())
    && (forall c :: 0 <= c < |s.plans| ==> PhaseShape(s.plans[c], c, s.phases[c]))
    && (forall i :: 0 <= i < |s.rows| ==> RowShape(s.plans, s.rows[i]))
  }

  ghost predicate PhaseShape(p: Plan, c: nat, ph: Phase) {
    match ph
    case Acquiring(k) => k <= |p.locks|
    case Reading(k, _) => k <= |p.legs|
    case Writing(row) => row.writer == Creator(c) && row.status == Open && RowFits(p, row)
    case Releasing(k, o) => k <= |p.locks| && o != Undecided
    case Finished(_) => true
  }

  ghost predicate RowFits(p: Plan, r: Row) {
    p.names != [] && r.name == p.names[0] && r.leg == p.leg && (r.alias == NO_NAME || r.alias == p.alias)
  }

  ghost predicate RowShape(plans: seq<Plan>, r: Row) {
    r.writer.Creator? ==> r.writer.id < |plans| && RowFits(plans[r.writer.id], r)
  }

  // No identifier is held by two creators.
  ghost predicate Exclusive(s: State)
    requires |s.plans| == |s.phases|
  {
    forall c, d, id :: Holds(s, c, id) && Holds(s, d, id) ==> c == d
  }

  ghost predicate Holds(s: State, c: int, id: Ident)
    requires |s.plans| == |s.phases|
  {
    0 <= c < |s.plans| && id in Holding(s.plans[c], s.phases[c])
  }

  // Every row of ours now in a leg already read is covered by the census taken so far.
  ghost predicate Covered(p: Plan, k: nat, seen: set<Row>, r: Row)
    requires k <= |p.legs| && p.names != []
  {
    ByUs(r) && r.leg in p.legs[..k] ==>
      && (r.status != Closed && r.name == p.names[0] ==> NameTaken(seen, p.names[0]))
      && (p.alias != NO_NAME && r.status == Open && (r.alias == p.alias || r.name == p.alias) ==> AliasCollides(seen, p.alias))
  }

  ghost predicate Clear(p: Plan, row: Row, r: Row) {
    ByUs(r) && r.leg in p.legs ==>
      && (r.status != Closed ==> r.name != row.name)
      && (row.alias != NO_NAME && r.status == Open ==> r.alias != row.alias && r.name != row.alias)
  }

  ghost predicate CensusSound(s: State)
    requires Shape(s)
  {
    forall c, i :: 0 <= c < |s.plans| && 0 <= i < |s.rows| ==> CreatorSafe(s.plans[c], s.phases[c], s.rows[i])
  }

  ghost predicate CreatorSafe(p: Plan, ph: Phase, r: Row)
    requires p.names != [] && (ph.Reading? ==> ph.done <= |p.legs|)
  {
    && (ph.Reading? ==> Covered(p, ph.done, ph.seen, r))
    && (ph.Writing? ==> Clear(p, ph.row, r))
  }

  // The later row's creator had looked into the earlier row's leg, so they share neither a
  // runtime name nor an alias, and the alias is no earlier runtime name either.
  ghost predicate Apart(p: Plan, later: Row, r: Row) {
    ByUs(r) && r.leg in p.legs ==>
      && (r.status != Closed && later.status != Closed ==> r.name != later.name)
      && (r.status == Open && later.status == Open && later.alias != NO_NAME ==>
            r.alias != later.alias && r.name != later.alias)
  }

  ghost predicate AllApart(s: State)
    requires Shape(s)
  {
    forall i, j :: 0 <= i < j < |s.rows| && ByUs(s.rows[j]) ==>
      Apart(s.plans[s.rows[j].writer.id], s.rows[j], s.rows[i])
  }

  function OutcomeOf(ph: Phase): Outcome {
    match ph
    case Releasing(_, o) => o
    case Finished(o) => o
    case _ => Undecided
  }

  // A creator owns a row exactly when its outcome says so, and never two.
  ghost predicate OutcomesTrue(s: State)
    requires Shape(s)
  {
    && (forall i :: 0 <= i < |s.rows| && ByUs(s.rows[i]) ==> OutcomeOf(s.phases[s.rows[i].writer.id]) == Wrote)
    && (forall c :: 0 <= c < |s.phases| && OutcomeOf(s.phases[c]) == Wrote ==> HasRow(s.rows, c))
    && (forall i, j :: 0 <= i < j < |s.rows| && ByUs(s.rows[i]) ==> s.rows[j].writer != s.rows[i].writer)
  }

  ghost predicate HasRow(rows: seq<Row>, c: nat) {
    exists i :: 0 <= i < |rows| && rows[i].writer == Creator(c)
  }

  ghost predicate Inv(s: State) {
    Shape(s) && Exclusive(s) && CensusSound(s) && AllApart(s) && OutcomesTrue(s)
  }

  lemma InitialInv(s: State)
    requires Initial(s)
    ensures Inv(s)
  {
  }

  // ---- Preservation, one aspect at a time ---------------------------------------

  // Each creator's next phase has the right shape.
  lemma PhaseStays(s: State, t: Step, c: nat)
    requires Shape(s) && Enabled(s, t) && c < |s.plans|
    ensures |Apply(s, t).phases| == |s.phases| && Apply(s, t).plans == s.plans
    ensures PhaseShape(s.plans[c], c, Apply(s, t).phases[c])
  {
    assert PhaseShape(s.plans[c], c, s.phases[c]);
  }

  lemma RowStays(s: State, t: Step, i: nat)
    requires Shape(s) && Enabled(s, t) && i < |Apply(s, t).rows|
    ensures RowShape(s.plans, Apply(s, t).rows[i])
  {
    if i < |s.rows| {
      assert RowShape(s.plans, s.rows[i]);
    } else if t.Write? {
      assert PhaseShape(s.plans[t.c], t.c, s.phases[t.c]);
    }
  }

  lemma StepShape(s: State, t: Step)
    requires Shape(s) && Enabled(s, t)
    ensures Shape(Apply(s, t))
  {
    var s' := Apply(s, t);
    forall c | 0 <= c < |s.plans|
      ensures |s'.phases| == |s.phases| && s'.plans == s.plans && PhaseShape(s.plans[c], c, s'.phases[c])
    {
      PhaseStays(s, t, c);
    }
    forall i | 0 <= i < |s'.rows|
      ensures RowShape(s.plans, s'.rows[i])
    {
      RowStays(s, t, i);
    }
  }

  lemma StepLocks(s: State, t: Step)
    requires Shape(s) && Exclusive(s) && Enabled(s, t)
    ensures |Apply(s, t).plans| == |Apply(s, t).phases| && Exclusive(Apply(s, t))
  {
    var s' := Apply(s, t);
    forall c, d, id | Holds(s', c, id) && Holds(s', d, id)
      ensures c == d
    {
      NewlyHeld(s, t, c, id);
      NewlyHeld(s, t, d, id);
      assert !Holds(s, c, id) ==> !Holds(s, d, id);
    }
  }

  // The only lock a step can add is the one it acquires.
  lemma NewlyHeld(s: State, t: Step, c: int, id: Ident)
    requires Shape(s) && Enabled(s, t) && Holds(Apply(s, t), c, id)
    ensures Holds(s, c, id) || (t == Acquire(c) && id == s.plans[c].locks[s.phases[c].held])
  {
    if t.Acquire? {
      AcquireAdds(s, t.c, c, id);
    } else if Apply(s, t).phases[c] != s.phases[c] {
      NothingAdded(s, t, c, id);
    }
  }

  lemma AcquireAdds(s: State, a: nat, c: int, id: Ident)
    requires Shape(s) && Enabled(s, Acquire(a)) && Holds(Apply(s, Acquire(a)), c, id)
    ensures Holds(s, c, id) || (a == c && id == s.plans[c].locks[s.phases[c].held])
  {
    if a == c {
      var locks, k := s.plans[c].locks, s.phases[c].held;
      assert locks[..k + 1] == locks[..k] + [locks[k]];
    }
  }

  lemma NothingAdded(s: State, t: Step, c: nat, id: Ident)
    requires Shape(s) && Enabled(s, t) && !t.Acquire? && c < |s.plans| && Apply(s, t).phases[c] != s.phases[c]
    requires id in Holding(s.plans[c], Apply(s, t).phases[c])
    ensures id in Holding(s.plans[c], s.phases[c])
  {
    assert PhaseShape(s.plans[c], c, s.phases[c]);
  }

  lemma StepOutcomes(s: State, t: Step)
    requires Inv(s) && Enabled(s, t)
    ensures Shape(Apply(s, t)) && OutcomesTrue(Apply(s, t))
  {
    StepShape(s, t);
    var s' := Apply(s, t);
    forall c | 0 <= c < |s'.phases| && OutcomeOf(s'.phases[c]) == Wrote
      ensures HasRow(s'.rows, c)
    {
      RowKept(s, t, c);
    }
    forall i | 0 <= i < |s'.rows| && ByUs(s'.rows[i])
      ensures OutcomeOf(s'.phases[s'.rows[i].writer.id]) == Wrote
    {
      OutcomeAt(s, t, i);
    }
    forall i, j | 0 <= i < j < |s'.rows| && ByUs(s'.rows[i])
      ensures s'.rows[j].writer != s'.rows[i].writer
    {
      WritersDiffer(s, t, i, j);
    }
  }

  lemma OutcomeAt(s: State, t: Step, i: nat)
    requires Inv(s) && Enabled(s, t) && Shape(Apply(s, t)) && i < |Apply(s, t).rows| && ByUs(Apply(s, t).rows[i])
    ensures OutcomeOf(Apply(s, t).phases[Apply(s, t).rows[i].writer.id]) == Wrote
  {
    if i < |s.rows| {
      assert OutcomeOf(s.phases[s.rows[i].writer.id]) == Wrote;
    }
  }

  lemma WritersDiffer(s: State, t: Step, i: nat, j: nat)
    requires Inv(s) && Enabled(s, t) && i < j < |Apply(s, t).rows| && ByUs(Apply(s, t).rows[i])
    ensures Apply(s, t).rows[j].writer != Apply(s, t).rows[i].writer
  {
    assert s.rows[i].writer == Apply(s, t).rows[i].writer;
    assert OutcomeOf(s.phases[s.rows[i].writer.id]) == Wrote;
    if j == |s.rows| && t.Write? {
      assert PhaseShape(s.plans[t.c], t.c, s.phases[t.c]);
    }
  }

  lemma RowKept(s: State, t: Step, c: nat)
    requires Inv(s) && Enabled(s, t) && c < |s.phases| && OutcomeOf(Apply(s, t).phases[c]) == Wrote
    ensures HasRow(Apply(s, t).rows, c)
  {
    if t.Write? && t.c == c {
      assert Apply(s, t).rows[|s.rows|].writer == Creator(c);
    } else {
      assert OutcomeOf(s.phases[c]) == Wrote;
      var i :| 0 <= i < |s.rows| && s.rows[i].writer == Creator(c);
      assert Apply(s, t).rows[i].writer == Creator(c);
    }
  }

  // Closing or failing a row only weakens what it claims.
  lemma WeakerRow(p: Plan, ph: Phase, r: Row, r': Row)
    requires p.names != [] && (ph.Reading? ==> ph.done <= |p.legs|)
    requires CreatorSafe(p, ph, r)
    requires r' == r.(status := Closed) || (r.status == Open && r' == r.(status := FailedCreate))
    ensures CreatorSafe(p, ph, r')
  {
  }

  // Two creators past acquisition hold disjoint locks, so one's new row cannot touch what
  // the other is checking.
  lemma OthersRow(s: State, c: nat, d: nat)
    requires Inv(s) && c < |s.plans| && d < |s.plans| && c != d
    requires s.phases[c].Writing?
    ensures CreatorSafe(s.plans[d], s.phases[d], s.phases[c].row)
  {
    if s.phases[d].Reading? || s.phases[d].Writing? {
      var p, q, row := s.plans[c], s.plans[d], s.phases[c].row;
      assert q.names[0] in q.names && p.names[0] in p.names;
      assert Holds(s, c, row.name);
      assert Holds(s, d, q.names[0]);
      assert q.alias != NO_NAME ==> Holds(s, d, q.alias);
      assert row.alias != NO_NAME ==> Holds(s, c, row.alias);
    }
  }

  // One more leg read completely covers that leg's rows too.
  lemma LegCovered(p: Plan, k: nat, seen: set<Row>, rows: seq<Row>, r: Row)
    requires p.names != [] && k < |p.legs| && r in rows
    requires Covered(p, k, seen, r)
    ensures Covered(p, k + 1, seen + OpenRows(rows, p.legs[k]), r)
  {
    assert p.legs[..k + 1] == p.legs[..k] + [p.legs[k]];
    var now := seen + OpenRows(rows, p.legs[k]);
    if r.leg == p.legs[k] && r.status != Closed {
      assert r in now;
    }
    if NameTaken(seen, p.names[0]) {
      var w :| w in seen && w.status != Closed && w.name == p.names[0];
      assert w in now;
    }
    if AliasCollides(seen, p.alias) {
      var w :| w in seen && w.status == Open && (w.name == p.alias || w.alias == p.alias || w.agent == p.alias);
      assert w in now;
    }
  }

  // A decision to write, taken on a complete census, is clear of every row of ours.
  lemma DecisionClear(p: Plan, c: nat, seen: set<Row>, reply: AliasReply, namesFree: bool, r: Row)
    requires p.names != [] && Covered(p, |p.legs|, seen, r)
    ensures CreatorSafe(p, Decision(p, c, seen, reply, namesFree), r)
  {
    assert p.legs[..|p.legs|] == p.legs;
  }

  lemma StepCensus(s: State, t: Step)
    requires Inv(s) && Enabled(s, t)
    ensures Shape(Apply(s, t)) && CensusSound(Apply(s, t))
  {
    StepShape(s, t);
    var s' := Apply(s, t);
    forall d, i | 0 <= d < |s'.plans| && 0 <= i < |s'.rows|
      ensures CreatorSafe(s'.plans[d], s'.phases[d], s'.rows[i])
    {
      CensusAt(s, t, d, i);
    }
  }

  lemma CensusAt(s: State, t: Step, d: nat, i: nat)
    requires Inv(s) && Enabled(s, t) && Shape(Apply(s, t))
    requires d < |s.plans| && i < |Apply(s, t).rows|
    ensures CreatorSafe(s.plans[d], Apply(s, t).phases[d], Apply(s, t).rows[i])
  {
    var s' := Apply(s, t);
    if i < |s.rows| {
      assert CreatorSafe(s.plans[d], s.phases[d], s.rows[i]);
      match t
      case CloseRow(k) => if k == i { WeakerRow(s.plans[d], s.phases[d], s.rows[i], s'.rows[i]); }
      case FailRow(k) => if k == i { WeakerRow(s.plans[d], s.phases[d], s.rows[i], s'.rows[i]); }
      case ReadLeg(c, ok) =>
        if c == d && ok { LegCovered(s.plans[d], s.phases[d].done, s.phases[d].seen, s.rows, s.rows[i]); }
      case Decide(c, reply, free) =>
        if c == d { DecisionClear(s.plans[d], c, s.phases[d].seen, reply, free, s.rows[i]); }
      case _ =>
    } else if t.Write? && t.c != d {
      OthersRow(s, t.c, d);
    }
  }

  lemma StepApart(s: State, t: Step)
    requires Inv(s) && Enabled(s, t)
    ensures Shape(Apply(s, t)) && AllApart(Apply(s, t))
  {
    StepShape(s, t);
    var s' := Apply(s, t);
    forall i, j | 0 <= i < j < |s'.rows| && ByUs(s'.rows[j])
      ensures Apart(s'.plans[s'.rows[j].writer.id], s'.rows[j], s'.rows[i])
    {
      if j < |s.rows| {
        assert Apart(s.plans[s.rows[j].writer.id], s.rows[j], s.rows[i]);
      } else {
        assert CreatorSafe(s.plans[t.c], s.phases[t.c], s.rows[i]);
      }
    }
  }

  lemma StepInv(s: State, t: Step)
    requires Inv(s) && Enabled(s, t)
    ensures Inv(Apply(s, t))
  {
    StepShape(s, t);
    StepLocks(s, t);
    StepCensus(s, t);
    StepApart(s, t);
    StepOutcomes(s, t);
  }

  lemma {:induction false} RunInv(s: State, run: seq<Step>)
    requires Inv(s) && ValidRun(s, run)
    ensures Inv(After(s, run))
    ensures After(s, run).plans == s.plans
    decreases |run|
  {
    if run != [] {
      StepInv(s, run[0]);
      RunInv(Apply(s, run[0]), run[1..]);
    }
  }

  // ---- Main results -------------------------------------------------------------

  ghost predicate Reaches(s: State, run: seq<Step>, e: State) {
    Initial(s) && ValidRun(s, run) && After(s, run) == e
  }

  // Every creator's census covers every leg any creator writes to.
  ghost predicate FullCensus(s: State) {
    forall c, d :: 0 <= c < |s.plans| && 0 <= d < |s.plans| ==> s.plans[d].leg in s.plans[c].legs
  }

  /** In every interleaving, no two open non-failed rows written by creators carry the same
      non-empty alias, and no two that are not closed carry the same runtime name. */
  lemma NoSharedIdentifiers(s: State, run: seq<Step>, e: State, i: nat, j: nat)
    requires Reaches(s, run, e) && FullCensus(s)
    requires i < |e.rows| && j < |e.rows| && i != j && ByUs(e.rows[i]) && ByUs(e.rows[j])
    ensures e.rows[i].status == Open && e.rows[j].status == Open && e.rows[i].alias != NO_NAME ==>
              e.rows[i].alias != e.rows[j].alias
    ensures e.rows[i].status != Closed && e.rows[j].status != Closed ==> e.rows[i].name != e.rows[j].name
  {
    InitialInv(s);
    RunInv(s, run);
    var a, b := if i < j then i else j, if i < j then j else i;
    assert RowShape(e.plans, e.rows[a]) && RowShape(e.plans, e.rows[b]);
    assert Apart(e.plans[e.rows[b].writer.id], e.rows[b], e.rows[a]);
  }

  /** Creators that look only into the leg they write to - the adoption barrier - still keep
      at most one unclosed row per runtime name in that leg, against each other and against
      pool creators writing there. */
  lemma OneRowPerNameAndLeg(s: State, run: seq<Step>, e: State, i: nat, j: nat)
    requires Reaches(s, run, e)
    requires i < j < |e.rows| && ByUs(e.rows[i]) && ByUs(e.rows[j]) && e.rows[i].leg == e.rows[j].leg
    requires e.rows[i].status != Closed && e.rows[j].status != Closed
    ensures e.rows[i].name != e.rows[j].name
  {
    InitialInv(s);
    RunInv(s, run);
    assert RowShape(e.plans, e.rows[j]);
    assert Apart(e.plans[e.rows[j].writer.id], e.rows[j], e.rows[i]);
  }

  lemma {:induction false} RefusalStays(s: State, run: seq<Step>, c: nat)
    requires Inv(s) && ValidRun(s, run) && c < |s.phases| && OutcomeOf(s.phases[c]).Refused?
    ensures c < |After(s, run).phases| && OutcomeOf(After(s, run).phases[c]).Refused?
    decreases |run|
  {
    if run != [] {
      StepInv(s, run[0]);
      RefusalStays(Apply(s, run[0]), run[1..], c);
    }
  }

  lemma {:induction false} PartialLegRefuses(s: State, run: seq<Step>, c: nat)
    requires Inv(s) && ValidRun(s, run) && ReadLeg(c, false) in run
    ensures c < |After(s, run).phases| && OutcomeOf(After(s, run).phases[c]).Refused?
    decreases |run|
  {
    StepInv(s, run[0]);
    if run[0] == ReadLeg(c, false) {
      RefusalStays(Apply(s, run[0]), run[1..], c);
    } else {
      assert ReadLeg(c, false) in run[1..];
      PartialLegRefuses(Apply(s, run[0]), run[1..], c);
    }
  }

  /** A creator that met a partial census leg never has a row, however the run goes on;
      any other creator has at most one. */
  lemma PartialLegWritesNothing(s: State, run: seq<Step>, e: State, c: nat)
    requires Reaches(s, run, e)
    ensures ReadLeg(c, false) in run ==> !HasRow(e.rows, c)
    ensures forall i, j :: 0 <= i < j < |e.rows| && e.rows[i].writer == Creator(c) ==> e.rows[j].writer != Creator(c)
  {
    InitialInv(s);
    RunInv(s, run);
    if ReadLeg(c, false) in run {
      PartialLegRefuses(s, run, c);
    }
  }

  // ---- No deadlock, no livelock -------------------------------------------------

  ghost predicate Waiting(s: State, c: int)
    requires |s.plans| == |s.phases|
  {
    0 <= c < |s.plans| && s.phases[c].Acquiring? && s.phases[c].held < |s.plans[c].locks|
  }

  ghost function Wanted(s: State, c: nat): Ident
    requires |s.plans| == |s.phases| && Waiting(s, c)
  {
    s.plans[c].locks[s.phases[c].held]
  }

  // Among the first n creators, the one waiting for the greatest identifier.
  lemma GreatestWanted(s: State, n: nat, c: nat) returns (m: nat)
    requires Inv(s) && n <= |s.plans| && Waiting(s, c)
    ensures Waiting(s, m) && Wanted(s, m) >= Wanted(s, c)
    ensures forall d :: 0 <= d < n && Waiting(s, d) ==> Wanted(s, d) <= Wanted(s, m)
  {
    if n == 0 {
      m := c;
    } else {
      m := GreatestWanted(s, n - 1, c);
      if Waiting(s, n - 1) && Wanted(s, n - 1) > Wanted(s, m) {
        m := n - 1;
      }
    }
  }

  lemma NextStep(s: State, c: nat) returns (t: Step)
    requires Inv(s) && c < |s.plans| && !s.phases[c].Finished? && !Waiting(s, c)
    ensures Enabled(s, t) && t.ByCreator()
  {
    match s.phases[c]
    case Acquiring(_) => t := StartCensus(c);
    case Reading(k, _) => t := if k < |s.plans[c].legs| then ReadLeg(c, true) else Decide(c, Free, true);
    case Writing(_) => t := Write(c, true);
    case Releasing(_, _) => t := Release(c);
  }

  /** Taking locks in sorted order cannot deadlock: while a creator is unfinished, some
      creator can move. */
  lemma NoDeadlock(s: State, run: seq<Step>, e: State, c: nat) returns (t: Step)
    requires Reaches(s, run, e) && c < |e.phases| && !e.phases[c].Finished?
    ensures Enabled(e, t) && t.ByCreator()
  {
    InitialInv(s);
    RunInv(s, run);
    if d :| 0 <= d < |e.plans| && !e.phases[d].Finished? && !Waiting(e, d) {
      t := NextStep(e, d);
    } else {
      var m := GreatestWanted(e, |e.plans|, c);
      t := Acquire(m);
      forall d | 0 <= d < |e.plans|
        ensures Wanted(e, m) !in Holding(e.plans[d], e.phases[d])
      {
        if Wanted(e, m) in Holding(e.plans[d], e.phases[d]) {
          HeldBelowWanted(e, d, Wanted(e, m));
          assert false;
        }
      }
    }
  }

  lemma HeldBelowWanted(s: State, d: nat, id: Ident)
    requires Inv(s) && d < |s.plans| && (s.phases[d].Finished? || Waiting(s, d))
    requires id in Holding(s.plans[d], s.phases[d])
    ensures Waiting(s, d) && id < Wanted(s, d)
  {
    var i :| 0 <= i < s.phases[d].held && s.plans[d].locks[i] == id;
  }

  // Steps a creator still has ahead of it, at most.
  ghost function Rank(p: Plan, ph: Phase): nat {
    var n := |p.locks|;
    match ph
    case Acquiring(k) => if k <= n then (n - k) + 1 + |p.legs| + 2 + n + 1 else 0
    case Reading(k, _) => if k <= |p.legs| then (|p.legs| - k) + 2 + n + 1 else 0
    case Writing(_) => 1 + n + 1
    case Releasing(k, _) => k + 1
    case Finished(_) => 0
  }

  ghost function Ranks(plans: seq<Plan>, phases: seq<Phase>): nat
    requires |plans| == |phases|
  {
    if plans == [] then 0 else Ranks(plans[..|plans| - 1], phases[..|plans| - 1]) + Rank(plans[|plans| - 1], phases[|plans| - 1])
  }

  lemma {:induction false} RanksUpdate(plans: seq<Plan>, phases: seq<Phase>, c: nat, ph: Phase)
    requires |plans| == |phases| && c < |plans|
    ensures Ranks(plans, phases[c := ph]) + Rank(plans[c], phases[c]) == Ranks(plans, phases) + Rank(plans[c], ph)
    decreases |plans|
  {
    var n := |plans| - 1;
    if c == n {
      assert phases[c := ph][..n] == phases[..n];
    } else {
      assert phases[c := ph][..n] == phases[..n][c := ph];
      RanksUpdate(plans[..n], phases[..n], c, ph);
    }
  }

  ghost function CreatorSteps(run: seq<Step>): nat {
    if run == [] then 0 else (if run[0].ByCreator() then 1 else 0) + CreatorSteps(run[1..])
  }

  lemma RankFalls(s: State, t: Step)
    requires Shape(s) && Enabled(s, t) && (t.ByCreator() || t.Crash?)
    ensures var p, ph := s.plans[t.c], s.phases[t.c];
            Rank(p, Apply(s, t).phases[t.c]) + (if t.ByCreator() then 1 else 0) <= Rank(p, ph)
  {
    assert PhaseShape(s.plans[t.c], t.c, s.phases[t.c]);
  }

  lemma StepRank(s: State, t: Step)
    requires Shape(s) && Enabled(s, t)
    ensures var s' := Apply(s, t);
            Ranks(s'.plans, s'.phases) + (if t.ByCreator() then 1 else 0) <= Ranks(s.plans, s.phases)
  {
    if t.ByCreator() || t.Crash? {
      var ph := Apply(s, t).phases[t.c];
      RankFalls(s, t);
      RanksUpdate(s.plans, s.phases, t.c, ph);
      assert Apply(s, t).phases == s.phases[t.c := ph];
    }
  }

  /** Nor can it run for ever: the creators' steps in any run are bounded by the ranks they
      started with, whatever the environment does in between. */
  lemma {:induction false} BoundedWork(s: State, run: seq<Step>)
    requires Inv(s) && ValidRun(s, run)
    ensures CreatorSteps(run) <= Ranks(s.plans, s.phases)
    decreases |run|
  {
    if run != [] {
      StepInv(s, run[0]);
      StepRank(s, run[0]);
      BoundedWork(Apply(s, run[0]), run[1..]);
    }
  }
}
