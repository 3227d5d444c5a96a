/** The default scale check over store groups, and what it keeps running when a read fails. */
module ScaleCheck {
  import opened Beads
  import opened Demand
  import opened Text

  // The templates counted against one store, and that store's demand read.
  datatype Group = Group(templates: set<string>, read: Read)

  // A row's normalised route candidates, best first; none for a row no worker would be served.
  type Routes = Bead -> seq<string>

  // The first candidate among the group's templates.
  function ServedBy(candidates: seq<string>, templates: set<string>): (t: Option<string>)
    ensures t.Some? ==> t.value in templates
    ensures t.Some? ==> exists i :: 0 <= i < |candidates| && candidates[i] == t.value && forall j :: 0 <= j < i ==> candidates[j] !in templates
    ensures t.None? ==> forall c :: c in candidates ==> c !in templates
  {
    if candidates == [] then None
    else if candidates[0] in templates then Some(candidates[0])
    else
      var t := ServedBy(candidates[1..], templates);
      assert forall j :: 0 < j < |candidates| ==> candidates[j] == candidates[1..][j - 1];
      t
  }

  // The rows of one read that count towards a template.
  ghost function RowsIn(rows: seq<Bead>, templates: set<string>, routes: Routes, t: string): seq<Row> {
    if rows == [] then []
    else
      var b := rows[|rows| - 1];
      RowsIn(rows[..|rows| - 1], templates, routes, t)
      + if ServedBy(routes(b), templates) == Some(t) then [RowOf(ViewOf(b))] else []
  }

  // All rows that count towards a template, group after group. A read that failed outright
  // contributes none.
  ghost function RowsFor(groups: seq<Group>, routes: Routes, t: string): seq<Row> {
    if groups == [] then []
    else
      var g := groups[|groups| - 1];
      RowsFor(groups[..|groups| - 1], routes, t) + RowsIn(g.read.Usable(), g.templates, routes, t)
  }

  function TallyOf(tallies: map<string, Tally>, t: string): Tally {
    if t in tallies then tallies[t] else NOTHING
  }

  // The templates of groups whose read had any error.
  ghost function PartialTemplates(groups: seq<Group>): set<string> {
    set i, t | 0 <= i < |groups| && groups[i].read.err.Some? && t in groups[i].templates :: t
  }

  lemma {:induction false} CountAppend(rows: seq<Row>, r: Row)
    ensures CountAll(rows + [r]) == Count(CountAll(rows), r)
  {
    assert (rows + [r])[..|rows|] == rows;
  }

  /** Counts every template's demand over all groups, whatever their order; a template counted
      against a store whose read had an error is partial. */
  method CountDemand(groups: seq<Group>, routes: Routes) returns (tallies: map<string, Tally>, partial: set<string>)
    ensures forall t :: TallyOf(tallies, t) == CountAll(RowsFor(groups, routes, t))
    ensures partial == PartialTemplates(groups)
  {
    tallies, partial := map[], {};
    for i := 0 to |groups|
      invariant forall t :: TallyOf(tallies, t) == CountAll(RowsFor(groups[..i], routes, t))
      invariant partial == PartialTemplates(groups[..i])
    {
      var g := groups[i];
      assert groups[..i + 1][..i] == groups[..i];
      if g.read.err.Some? {
        partial := partial + g.templates;
      }
      tallies := CountGroup(g.read.Usable(), g.templates, routes, tallies);
      forall t
        ensures TallyOf(tallies, t) == CountAll(RowsFor(groups[..i + 1], routes, t))
      {
        CountSplit(RowsFor(groups[..i], routes, t), RowsIn(g.read.Usable(), g.templates, routes, t));
      }
    }
    assert groups[..|groups|] == groups;
  }

  // Counting on from a running tally.
  ghost function CountMore(tally: Tally, rows: seq<Row>): Tally {
    if rows == [] then tally else Count(CountMore(tally, rows[..|rows| - 1]), rows[|rows| - 1])
  }

  lemma {:induction false} CountSplit(first: seq<Row>, rest: seq<Row>)
    ensures CountMore(CountAll(first), rest) == CountAll(first + rest)
  {
    if rest == [] {
      assert first + rest == first;
    } else {
      var front, r := rest[..|rest| - 1], rest[|rest| - 1];
      CountSplit(first, front);
      CountAppend(first + front, r);
      assert first + rest == (first + front) + [r];
    }
  }

  method CountGroup(rows: seq<Bead>, templates: set<string>, routes: Routes, before: map<string, Tally>) returns (tallies: map<string, Tally>)
    ensures forall t :: TallyOf(tallies, t) == CountMore(TallyOf(before, t), RowsIn(rows, templates, routes, t))
  {
    tallies := before;
    for j := 0 to |rows|
      invariant forall t :: TallyOf(tallies, t) == CountMore(TallyOf(before, t), RowsIn(rows[..j], templates, routes, t))
    {
      var b := rows[j];
      assert rows[..j + 1][..j] == rows[..j];
      var served := ServedBy(routes(b), templates);
      ghost var was := tallies;
      if served.Some? {
        tallies := tallies[served.value := Count(TallyOf(tallies, served.value), RowOf(ViewOf(b)))];
      }
      forall t
        ensures TallyOf(tallies, t) == CountMore(TallyOf(before, t), RowsIn(rows[..j + 1], templates, routes, t))
      {
        assert TallyOf(was, t) == CountMore(TallyOf(before, t), RowsIn(rows[..j], templates, routes, t));
        var now := RowsIn(rows[..j + 1], templates, routes, t);
        if served == Some(t) {
          assert now[..|now| - 1] == RowsIn(rows[..j], templates, routes, t);
        } else {
          assert now == RowsIn(rows[..j], templates, routes, t);
        }
      }
    }
    assert rows[..|rows|] == rows;
  }

  // ---- Keeping sessions through an outage ---------------------------------------

  // An open session; `retainable` when it is active, awake or a create still in flight.
  datatype Live = Live(template: string, poolManaged: bool, retainable: bool)

  ghost function Retainable(sessions: seq<Live>, t: string): nat {
    if sessions == [] then 0
    else
      var s := sessions[|sessions| - 1];
      Retainable(sessions[..|sessions| - 1], t) + if s.template == t && s.poolManaged && s.retainable then 1 else 0
  }

  function At(counts: map<string, nat>, t: string): nat {
    if t in counts then counts[t] else 0
  }

  /** Lifts the count of a partial template to its retainable sessions; no count is lowered and
      no other template is touched. */
  method Retain(counts: map<string, nat>, sessions: seq<Live>, partial: set<string>) returns (desired: map<string, nat>)
    ensures forall t :: At(desired, t) ==
              if t in partial && Retainable(sessions, t) > At(counts, t) then Retainable(sessions, t) else At(counts, t)
  {
    var retained: map<string, nat> := map[];
    for i := 0 to |sessions|
      invariant forall t :: At(retained, t) == if t in partial then Retainable(sessions[..i], t) else 0
      invariant forall t :: t in retained ==> retained[t] > 0
    {
      var s := sessions[i];
      assert sessions[..i + 1][..i] == sessions[..i];
      if s.template in partial && s.poolManaged && s.retainable {
        retained := retained[s.template := At(retained, s.template) + 1];
      }
    }
    assert sessions[..|sessions|] == sessions;
    desired := counts;
    var left := retained.Keys;
    while left != {}
      invariant left <= retained.Keys
      invariant forall t :: At(desired, t) ==
                  if t in retained.Keys - left && retained[t] > At(counts, t) then retained[t] else At(counts, t)
      decreases left
    {
      var t :| t in left;
      if At(desired, t) < retained[t] {
        desired := desired[t := retained[t]];
      }
      left := left - {t};
    }
    assert forall t :: t in retained ==> At(retained, t) == retained[t];
  }

  function Counts(tallies: map<string, Tally>): map<string, nat> {
    map t | t in tallies :: |tallies[t].ids|
  }

  /** A failed store read never takes a pool below its live sessions: whatever the error and
      however few rows came back, every template counted against that store keeps at least its
      retainable sessions, and a template read without error gets exactly its demand. */
  method DesiredCounts(groups: seq<Group>, routes: Routes, sessions: seq<Live>) returns (desired: map<string, nat>)
    ensures forall i, t :: 0 <= i < |groups| && groups[i].read.err.Some? && t in groups[i].templates ==>
              At(desired, t) >= Retainable(sessions, t)
    ensures forall t :: At(desired, t) >= |CountAll(RowsFor(groups, routes, t)).ids|
    ensures forall t :: t !in PartialTemplates(groups) ==> At(desired, t) == |CountAll(RowsFor(groups, routes, t)).ids|
  {
    var tallies, partial := CountDemand(groups, routes);
    assert forall t :: At(Counts(tallies), t) == |TallyOf(tallies, t).ids|;
    desired := Retain(Counts(tallies), sessions, partial);
    assert forall i, t :: 0 <= i < |groups| && groups[i].read.err.Some? && t in groups[i].templates ==> t in partial;
  }

  /** The same groups in another order, or with a group added whose rows were all seen, give
      every template the same demand - for any template whose rows are consistent. */
  lemma GroupOrderIrrelevant(groups: seq<Group>, groups': seq<Group>, routes: Routes, t: string)
    requires Consistent(RowsFor(groups, routes, t))
    requires forall r :: r in RowsFor(groups, routes, t) <==> r in RowsFor(groups', routes, t)
    ensures |CountAll(RowsFor(groups, routes, t)).ids| == |CountAll(RowsFor(groups', routes, t)).ids|
    ensures |CountAll(RowsFor(groups, routes, t)).ids| == |Units(RowsFor(groups, routes, t))|
  {
    var rows, rows' := RowsFor(groups, routes, t), RowsFor(groups', routes, t);
    ReadsConsistent(rows, rows');
    OrderAndAliasesIrrelevant(rows, rows');
    DemandIsUnits(rows);
  }

  ghost predicate CountedIn(g: Group, routes: Routes, t: string, r: Row) {
    r in RowsIn(g.read.Usable(), g.templates, routes, t)
  }

  lemma SomeGroup(front: seq<Group>, last: Group, p: Group -> bool)
    ensures (exists g :: g in front + [last] && p(g)) <==> (exists g :: g in front && p(g)) || p(last)
  {
    assert last in front + [last];
    assert forall g :: g in front + [last] <==> g in front || g == last;
  }

  lemma RowsGrow(front: seq<Group>, last: Group, routes: Routes, t: string, r: Row)
    ensures r in RowsFor(front + [last], routes, t) <==> r in RowsFor(front, routes, t) || CountedIn(last, routes, t, r)
  {
    assert (front + [last])[..|front|] == front;
  }

  lemma {:induction false} RowsOfGroup(groups: seq<Group>, routes: Routes, t: string, r: Row)
    ensures r in RowsFor(groups, routes, t) <==> exists g :: g in groups && CountedIn(g, routes, t, r)
  {
    if groups != [] {
      var front, last := groups[..|groups| - 1], groups[|groups| - 1];
      assert groups == front + [last];
      RowsOfGroup(front, routes, t, r);
      RowsGrow(front, last, routes, t, r);
      SomeGroup(front, last, g => CountedIn(g, routes, t, r));
    }
  }

  /** In particular any reordering of the groups: the map they live in may be walked in any
      order. */
  lemma AnyWalk(groups: seq<Group>, groups': seq<Group>, routes: Routes, t: string)
    requires multiset(groups) == multiset(groups') && Consistent(RowsFor(groups, routes, t))
    ensures |CountAll(RowsFor(groups, routes, t)).ids| == |CountAll(RowsFor(groups', routes, t)).ids|
  {
    forall r: Row
      ensures r in RowsFor(groups, routes, t) <==> r in RowsFor(groups', routes, t)
    {
      RowsOfGroup(groups, routes, t, r);
      RowsOfGroup(groups', routes, t, r);
      assert forall g :: g in groups <==> g in multiset(groups');
    }
    GroupOrderIrrelevant(groups, groups', routes, t);
  }

  // ---- Demand in sessions -----------------------------------------------------------

  // The rows that count towards a template, before they are reduced to ID and key.
  ghost function ViewsIn(rows: seq<Bead>, templates: set<string>, routes: Routes, t: string): seq<View> {
    if rows == [] then []
    else
      var b := rows[|rows| - 1];
      ViewsIn(rows[..|rows| - 1], templates, routes, t) + if ServedBy(routes(b), templates) == Some(t) then [ViewOf(b)] else []
  }

  ghost function ViewsFor(groups: seq<Group>, routes: Routes, t: string): seq<View> {
    if groups == [] then []
    else
      var g := groups[|groups| - 1];
      ViewsFor(groups[..|groups| - 1], routes, t) + ViewsIn(g.read.Usable(), g.templates, routes, t)
  }

  lemma RowsJoin(a: seq<View>, b: seq<View>)
    ensures RowsOf(a + b) == RowsOf(a) + RowsOf(b)
  {
  }

  lemma {:induction false} RowsAreViews(rows: seq<Bead>, templates: set<string>, routes: Routes, t: string)
    ensures RowsIn(rows, templates, routes, t) == RowsOf(ViewsIn(rows, templates, routes, t))
  {
    if rows != [] {
      RowsAreViews(rows[..|rows| - 1], templates, routes, t);
      RowsJoin(ViewsIn(rows[..|rows| - 1], templates, routes, t), [ViewOf(rows[|rows| - 1])]);
      assert RowsOf([ViewOf(rows[|rows| - 1])]) == [RowOf(ViewOf(rows[|rows| - 1]))];
    }
  }

  lemma {:induction false} AllRowsAreViews(groups: seq<Group>, routes: Routes, t: string)
    ensures RowsFor(groups, routes, t) == RowsOf(ViewsFor(groups, routes, t))
  {
    if groups != [] {
      var g := groups[|groups| - 1];
      AllRowsAreViews(groups[..|groups| - 1], routes, t);
      RowsAreViews(g.read.Usable(), g.templates, routes, t);
      RowsJoin(ViewsFor(groups[..|groups| - 1], routes, t), ViewsIn(g.read.Usable(), g.templates, routes, t));
    }
  }

  /** A template's count over all groups is the number of sessions its rows need: one per bead, or
      one per required continuation group. */
  lemma TemplateDemand(groups: seq<Group>, routes: Routes, t: string)
    requires Agreed(ViewsFor(groups, routes, t))
    ensures |CountAll(RowsFor(groups, routes, t)).ids| == |Capacities(ViewsFor(groups, routes, t))|
  {
    AllRowsAreViews(groups, routes, t);
    DemandIsCapacity(ViewsFor(groups, routes, t));
  }
}
