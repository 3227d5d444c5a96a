/** Keeping one session of every template that live templates depend on. */
module DependencyFloors {
  import opened Text

  // `held` when the agent is suspended or sits in a suspended rig; `generic` when it supports
  // sessions no request asked for.
  datatype Agent = Agent(name: string, dependsOn: seq<string>, held: bool, generic: bool)

  // `find` resolves a template name; several names may resolve to one agent.
  datatype City = City(agents: seq<Agent>, find: string -> Option<Agent>)

  ghost predicate ValidCity(c: City) {
    && (forall t :: c.find(t).Some? ==> c.find(t).value in c.agents)
    && c.find("").None?
  }

  // ---- The graph ---------------------------------------------------------------

  predicate Wanted(c: City, dep: string) {
    c.find(dep).Some? && !c.find(dep).value.held
  }

  predicate Edge(c: City, t: string, dep: string) {
    c.find(t).Some? && dep in c.find(t).value.dependsOn && Wanted(c, dep)
  }

  ghost predicate Walk(c: City, p: seq<string>) {
    forall i {:trigger p[i]} :: 0 <= i < |p| - 1 ==> Edge(c, p[i], p[i + 1])
  }

  ghost predicate From(c: City, roots: set<string>, t: string, p: seq<string>) {
    |p| >= 1 && p[0] in roots && p[|p| - 1] == t && Walk(c, p)
  }

  ghost predicate Reached(c: City, roots: set<string>, t: string) {
    exists p :: From(c, roots, t, p)
  }

  // Reachable by at least one edge.
  ghost predicate Needed(c: City, roots: set<string>, t: string) {
    exists p :: From(c, roots, t, p) && |p| >= 2
  }

  ghost function Names(c: City): set<string> {
    set a, d | a in c.agents && d in a.dependsOn :: d
  }

  // The targets of all edges out of a set of names.
  ghost function Targets(c: City, from: set<string>): set<string> {
    set d | d in Names(c) && exists t :: t in from && Edge(c, t, d)
  }

  lemma TargetsOf(c: City, from: set<string>, d: string)
    requires ValidCity(c)
    ensures d in Targets(c, from) <==> exists t :: t in from && Edge(c, t, d)
  {
    if t :| t in from && Edge(c, t, d) {
      assert c.find(t).value in c.agents && d in c.find(t).value.dependsOn;
    }
  }

  lemma OneEdgeMore(c: City, roots: set<string>, t: string, d: string)
    requires Reached(c, roots, t) && Edge(c, t, d)
    ensures Reached(c, roots, d) && Needed(c, roots, d)
  {
    var p :| From(c, roots, t, p);
    var q := p + [d];
    forall i {:trigger q[i]} | 0 <= i < |q| - 1
      ensures Edge(c, q[i], q[i + 1])
    {
      if i < |p| - 1 {
        assert q[i] == p[i] && q[i + 1] == p[i + 1];
      }
    }
    assert From(c, roots, d, q);
  }

  ghost predicate Closed(c: City, names: set<string>) {
    forall t :: t in names ==> Targets(c, {t}) <= names
  }

  /** A set of names that holds the roots and is closed under edges holds every walk. */
  lemma {:induction false} WalkStays(c: City, roots: set<string>, closed: set<string>, p: seq<string>, i: nat)
    requires ValidCity(c) && i < |p| && p[0] in roots && Walk(c, p)
    requires roots <= closed && Closed(c, closed)
    ensures p[i] in closed
  {
    if i > 0 {
      WalkStays(c, roots, closed, p, i - 1);
      assert Edge(c, p[i - 1], p[i]);
      TargetsOf(c, {p[i - 1]}, p[i]);
    }
  }

  lemma LastEdge(c: City, roots: set<string>, closed: set<string>, d: string) returns (t: string)
    requires ValidCity(c) && Needed(c, roots, d)
    requires roots <= closed && Closed(c, closed)
    ensures t in closed && Edge(c, t, d)
  {
    var p :| From(c, roots, d, p) && |p| >= 2;
    t := p[|p| - 2];
    WalkStays(c, roots, closed, p, |p| - 2);
    assert Edge(c, p[|p| - 2], p[|p| - 2 + 1]);
  }

  /** Walking is exact: a set between the roots and what they reach, closed under edges, has as
      its edge targets exactly the names reachable by at least one edge. */
  lemma ClosureIsReach(c: City, roots: set<string>, visited: set<string>, d: string)
    requires ValidCity(c) && roots <= visited && Closed(c, visited)
    requires forall t :: t in visited ==> Reached(c, roots, t)
    ensures d in Targets(c, visited) <==> Needed(c, roots, d)
  {
    TargetsOf(c, visited, d);
    if d in Targets(c, visited) {
      var t :| t in visited && Edge(c, t, d);
      OneEdgeMore(c, roots, t, d);
    }
    if Needed(c, roots, d) {
      var t := LastEdge(c, roots, visited, d);
    }
  }

  // ---- Desired sessions ----------------------------------------------------------

  datatype Entry = Entry(template: string, floor: bool)

  predicate HasTemplate(desired: map<string, Entry>, t: string) {
    exists n :: n in desired && desired[n].template == t
  }

  ghost predicate Alone(desired: map<string, Entry>, n: string)
    requires n in desired
  {
    forall m :: m in desired && desired[m].template == desired[n].template ==> m == n
  }

  // The outcome of building a floor session: the session name, or nothing when transport
  // validation, slot claim, selection or template resolution fails. It may differ from attempt
  // to attempt.
  type Builds = (nat, Agent) -> Option<string>

  // The desired sessions, and how many builds were attempted for them.
  datatype Book = Book(desired: map<string, Entry>, attempts: nat)

  // Ensuring one template: nothing if it takes no generic session or has one already; else one
  // build, which may fail.
  function EnsureOne(c: City, build: Builds, b: Book, dep: string): Book {
    if c.find(dep).None? then b
    else
      var agent := c.find(dep).value;
      if !agent.generic || HasTemplate(b.desired, agent.name) then b
      else
        var session := build(b.attempts, agent);
        Book(if session.Some? then b.desired[session.value := Entry(agent.name, true)] else b.desired, b.attempts + 1)
  }

  ghost function EnsureAll(c: City, build: Builds, b: Book, calls: seq<string>): Book {
    if calls == [] then b
    else EnsureOne(c, build, EnsureAll(c, build, b, calls[..|calls| - 1]), calls[|calls| - 1])
  }

  lemma EnsureMore(c: City, build: Builds, b: Book, calls: seq<string>, dep: string)
    ensures EnsureAll(c, build, b, calls + [dep]) == EnsureOne(c, build, EnsureAll(c, build, b, calls), dep)
  {
    assert (calls + [dep])[..|calls|] == calls;
  }

  // The call made the entry.
  ghost predicate Made(c: City, e: Entry, dep: string) {
    c.find(dep).Some? && c.find(dep).value.generic && e == Entry(c.find(dep).value.name, true)
  }

  // An entry is as before, or is the only session of a template some call ensured.
  ghost predicate Kept(c: City, before: map<string, Entry>, desired: map<string, Entry>, calls: seq<string>, n: string)
    requires n in desired
  {
    || (n in before && desired[n] == before[n])
    || (Alone(desired, n) && exists dep :: dep in calls && Made(c, desired[n], dep))
  }

  /** Ensuring only adds: no session name disappears, and a session that is new or changed is the
      floor of an ensured template that has no other session. */
  lemma {:induction false} OneFloorEach(c: City, build: Builds, b: Book, calls: seq<string>)
    ensures var after := EnsureAll(c, build, b, calls).desired;
            b.desired.Keys <= after.Keys && forall n :: n in after ==> Kept(c, b.desired, after, calls, n)
  {
    if calls != [] {
      var front, dep := calls[..|calls| - 1], calls[|calls| - 1];
      OneFloorEach(c, build, b, front);
      var mid, after := EnsureAll(c, build, b, front), EnsureAll(c, build, b, calls);
      forall n | n in after.desired
        ensures Kept(c, b.desired, after.desired, calls, n)
      {
        if n in mid.desired && mid.desired[n] == after.desired[n] {
          assert Kept(c, b.desired, mid.desired, front, n);
        } else {
          assert Made(c, after.desired[n], dep);
        }
      }
    }
  }

  // Session names tell templates apart: no name serves two templates.
  ghost predicate NamesApart(build: Builds, before: map<string, Entry>, owner: string -> string) {
    && (forall k, a :: build(k, a).Some? ==> owner(build(k, a).value) == a.name)
    && (forall n :: n in before ==> before[n].template == owner(n))
  }

  // The template has a session, or a build for it failed.
  ghost predicate Covered(c: City, build: Builds, b: Book, dep: string) {
    c.find(dep).Some? && c.find(dep).value.generic ==>
      || HasTemplate(b.desired, c.find(dep).value.name)
      || exists k: nat :: k < b.attempts && build(k, c.find(dep).value).None?
  }

  /** While session names tell templates apart, every ensured template that takes generic
      sessions ends up with one, unless a build for it failed. */
  lemma {:induction false} EnsuredCovered(c: City, build: Builds, b: Book, calls: seq<string>, owner: string -> string)
    requires NamesApart(build, b.desired, owner)
    ensures var after := EnsureAll(c, build, b, calls);
            && (forall n :: n in after.desired ==> after.desired[n].template == owner(n))
            && forall dep :: dep in calls ==> Covered(c, build, after, dep)
  {
    if calls != [] {
      var front, dep := calls[..|calls| - 1], calls[|calls| - 1];
      EnsuredCovered(c, build, b, front, owner);
      var mid := EnsureAll(c, build, b, front);
      LastCovered(c, build, mid, dep);
      forall d | d in front
        ensures Covered(c, build, EnsureOne(c, build, mid, dep), d)
      {
        StaysCovered(c, build, mid, dep, d, owner);
      }
      assert forall d :: d in calls ==> d in front || d == dep;
    }
  }

  lemma LastCovered(c: City, build: Builds, b: Book, dep: string)
    ensures Covered(c, build, EnsureOne(c, build, b, dep), dep)
  {
    if c.find(dep).Some? && c.find(dep).value.generic && !HasTemplate(b.desired, c.find(dep).value.name) {
      var agent, after := c.find(dep).value, EnsureOne(c, build, b, dep);
      var session := build(b.attempts, agent);
      if session.Some? {
        assert after.desired[session.value].template == agent.name;
      }
    }
  }

  lemma StaysCovered(c: City, build: Builds, b: Book, dep: string, d: string, owner: string -> string)
    requires Covered(c, build, b, d) && (forall n :: n in b.desired ==> b.desired[n].template == owner(n))
    requires forall k, a :: build(k, a).Some? ==> owner(build(k, a).value) == a.name
    ensures Covered(c, build, EnsureOne(c, build, b, dep), d)
  {
    var after := EnsureOne(c, build, b, dep);
    if c.find(d).Some? && HasTemplate(b.desired, c.find(d).value.name) {
      var n :| n in b.desired && b.desired[n].template == c.find(d).value.name;
      assert n in after.desired && after.desired[n].template == owner(n);
    }
  }

  ghost function WantedAmong(c: City, deps: seq<string>): set<string> {
    set d | d in deps && Wanted(c, d)
  }

  lemma TargetsSplit(c: City, done: set<string>, more: set<string>)
    ensures Targets(c, done + more) == Targets(c, done) + Targets(c, more)
  {
  }

  lemma TargetsOfOne(c: City, t: string)
    requires ValidCity(c)
    ensures Targets(c, {t}) == if c.find(t).Some? then WantedAmong(c, c.find(t).value.dependsOn) else {}
  {
    forall d {
      TargetsOf(c, {t}, d);
    }
  }

  // Everything the `done` names point at was visited.
  ghost predicate Through(c: City, done: set<string>, visited: set<string>) {
    forall t :: t in done ==> Targets(c, {t}) <= visited
  }

  ghost predicate AllReached(c: City, roots: set<string>, visited: set<string>) {
    forall t :: t in visited ==> Reached(c, roots, t)
  }

  // Where the walk over a template's dependencies stands after the first `i`, from `v0` and `e0`.
  ghost predicate Upto(c: City, deps: seq<string>, i: nat, v0: set<string>, e0: set<string>, v: set<string>, e: set<string>)
    requires i <= |deps|
  {
    && v0 + WantedAmong(c, deps[..i]) <= v
    && e == e0 + Targets(c, v - v0) + WantedAmong(c, deps[..i])
    && Through(c, v - v0, v)
  }

  lemma OneDependency(c: City, deps: seq<string>, i: nat, v0: set<string>, e0: set<string>, v: set<string>, e: set<string>, v': set<string>)
    requires i < |deps| && Upto(c, deps, i, v0, e0, v, e)
    requires v <= v' && Through(c, v' - v, v')
    requires if Wanted(c, deps[i]) then deps[i] in v' else v' == v
    ensures Upto(c, deps, i + 1, v0, e0, v',
                 e + if Wanted(c, deps[i]) then {deps[i]} + Targets(c, v' - v) else {})
  {
    assert WantedAmong(c, deps[..i + 1]) == WantedAmong(c, deps[..i]) + if Wanted(c, deps[i]) then {deps[i]} else {};
    TargetsSplit(c, v - v0, v' - v);
    assert v' - v0 == (v - v0) + (v' - v);
  }

  lemma ThroughBoth(c: City, v: set<string>, v': set<string>)
    requires v <= v' && Through(c, v, v) && Through(c, v' - v, v')
    ensures Through(c, v', v') && Targets(c, v') == Targets(c, v) + Targets(c, v' - v)
  {
    TargetsSplit(c, v, v' - v);
    assert v' == v + (v' - v);
  }

  lemma AtRoot(c: City, roots: set<string>, t: string)
    requires t in roots
    ensures Reached(c, roots, t)
  {
    assert From(c, roots, t, [t]);
  }

  lemma RootsDone(c: City, roots: set<string>, visited: set<string>)
    requires ValidCity(c) && roots <= visited + {""}
    requires AllReached(c, roots, visited) && Through(c, visited, visited)
    ensures forall d :: d in Targets(c, visited) <==> Needed(c, roots, d)
  {
    var all := if "" in roots then visited + {""} else visited;
    if "" in roots {
      AtRoot(c, roots, "");
      TargetsOfOne(c, "");
      TargetsSplit(c, visited, {""});
    }
    forall d
      ensures d in Targets(c, visited) <==> Needed(c, roots, d)
    {
      ClosureIsReach(c, roots, all, d);
    }
  }

  class Floors {
    const city: City
    const roots: set<string>
    const build: Builds
    ghost const before: map<string, Entry>
    var visited: set<string>
    var book: Book
    ghost var calls: seq<string>

    constructor (city: City, roots: set<string>, build: Builds, desired: map<string, Entry>)
      ensures this.city == city && this.roots == roots && this.build == build && before == desired
      ensures visited == {} && calls == [] && Booked()
    {
      this.city, this.roots, this.build, this.before := city, roots, build, desired;
      visited, book, calls := {}, Book(desired, 0), [];
    }

    // The book is what the calls so far make of it.
    ghost predicate Booked()
      reads this
    {
      book == EnsureAll(city, build, Book(before, 0), calls)
    }

    ghost function Ensured(): set<string>
      reads this
    {
      set d | d in calls
    }

    // The book after one call; `calls` is not yet told.
    method Keep(dep: string)
      modifies this`book
      ensures book == EnsureOne(city, build, old(book), dep)
    {
      var agent := city.find(dep);
      if agent.None? || !agent.value.generic || HasTemplate(book.desired, agent.value.name) {
        return;
      }
      var session := build(book.attempts, agent.value);
      if session.None? {
        book := Book(book.desired, book.attempts + 1);
        return;
      }
      book := Book(book.desired[session.value := Entry(agent.value.name, true)], book.attempts + 1);
    }

    method Ensure(dep: string)
      requires Booked()
      modifies this`book, this`calls
      ensures calls == old(calls) + [dep] && Booked() && Ensured() == old(Ensured()) + {dep}
    {
      Keep(dep);
      EnsureMore(city, build, Book(before, 0), calls, dep);
      calls := calls + [dep];
    }

    /** Visits a template and everything below it, however the graph loops back. */
    method Visit(t: string)
      requires ValidCity(city) && Booked()
      requires AllReached(city, roots, visited) && Reached(city, roots, t) && t in roots + Names(city)
      modifies this`visited, this`book, this`calls
      ensures Booked() && AllReached(city, roots, visited) && old(visited) <= visited && (t == "" || t in visited)
      ensures Ensured() == old(Ensured()) + Targets(city, visited - old(visited))
      ensures Through(city, visited - old(visited), visited)
      decreases roots + Names(city) - visited, 0
    {
      if t == "" || t in visited {
        assert visited - old(visited) == {};
        return;
      }
      visited := visited + {t};
      TargetsOfOne(city, t);
      assert visited - old(visited) == {t};
      var agent := city.find(t);
      if agent.None? {
        return;
      }
      VisitAll(t, agent.value.dependsOn);
      TargetsSplit(city, visited - old(visited) - {t}, {t});
      assert visited - old(visited) == visited - old(visited) - {t} + {t};
    }

    method VisitAll(t: string, deps: seq<string>)
      requires ValidCity(city) && Booked() && AllReached(city, roots, visited) && t in visited
      requires city.find(t).Some? && deps == city.find(t).value.dependsOn
      modifies this`visited, this`book, this`calls
      ensures Booked() && AllReached(city, roots, visited)
      ensures Upto(city, deps, |deps|, old(visited), old(Ensured()), visited, Ensured())
      decreases roots + Names(city) - visited, 1
    {
      assert visited - old(visited) == {};
      for i := 0 to |deps|
        invariant Booked() && AllReached(city, roots, visited)
        invariant Upto(city, deps, i, old(visited), old(Ensured()), visited, Ensured())
      {
        ghost var v, e := visited, Ensured();
        if Wanted(city, deps[i]) {
          assert Edge(city, t, deps[i]);
          OneEdgeMore(city, roots, t, deps[i]);
          assert city.find(t).value in city.agents;
          Ensure(deps[i]);
          Visit(deps[i]);
          assert Ensured() == e + ({deps[i]} + Targets(city, visited - v));
        }
        OneDependency(city, deps, i, old(visited), old(Ensured()), v, e, visited);
      }
    }

    /** The whole walk, from roots taken in any order: ensured are exactly the templates a walk of
        at least one edge reaches from a root, cycles included, and the desired sessions are what
        those calls make of them. */
    method Realise()
      requires ValidCity(city) && Booked() && visited == {} && calls == []
      modifies this`visited, this`book, this`calls
      ensures forall d :: d in calls <==> Needed(city, roots, d)
      ensures Booked()
    {
      var left := roots;
      assert Targets(city, {}) == {};
      while left != {}
        invariant left <= roots
        invariant Booked() && AllReached(city, roots, visited)
        invariant forall r :: r in roots ==> r in left || r == "" || r in visited
        invariant Ensured() == Targets(city, visited) && Through(city, visited, visited)
        decreases left
      {
        var t :| t in left;
        ghost var v := visited;
        AtRoot(city, roots, t);
        Visit(t);
        ThroughBoth(city, v, visited);
        left := left - {t};
      }
      RootsDone(city, roots, visited);
      assert forall d :: d in calls <==> d in Ensured();
    }
  }
}
