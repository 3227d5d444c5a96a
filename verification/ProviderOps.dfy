/** Provider lifecycle operations of concurrent callers: one at a time per city, and recoveries
    that keep their distance. */
module ProviderOps {
  type City = nat
  type Id = nat

  datatype Op = StartOp | HealthOp | RecoverOp
  datatype Health = Healthy | BreakerOpen | Unhealthy

  // Where a caller stands. `Waiting` is for the city's semaphore; from `Ready` to `Leaving` it is
  // held.
  datatype Pc =
    | Waiting
    | Ready
    | Running(op: Op)
    | Retrying                  // a failed start looks at the health once more
    | Failed                    // a health check said no
    | Clocked(at: nat)          // read the clock, about to load the last recovery
    | Allowed(at: nat)          // past the cooldown check, about to store
    | Stamped(at: nat)          // about to recover
    | Leaving
    | Gone

  datatype Kind = Starter | Checker

  // A caller on a city, with its last health answer and whether it owns the managed server.
  datatype Caller = Caller(city: City, kind: Kind, pc: Pc, health: Health, owned: bool)

  // One recover operation: the stamp that allowed it and when it began.
  datatype Recovery = Recovery(stamp: nat, at: nat)

  // Each city has one semaphore for the life of the process; `held` says by whom it is taken.
  datatype State = State(now: nat, held: map<City, Id>, last: map<City, nat>,
                         callers: map<Id, Caller>, recoveries: map<City, seq<Recovery>>)

  // `bd` are the cities whose provider follows the bd store contract.
  datatype Rules = Rules(bd: set<City>, cooldown: nat)

  const START := State(0, map[], map[], map[], map[])

  // What a caller does next.
  datatype Act =
    | GiveUp                                // its context ended while it waited
    | Acquire
    | Abandon                               // no environment for the provider
    | Begin                                 // its first operation
    | EndStart(ok: bool, managed: bool)
    | BeginRetry
    | EndHealth(health: Health)
    | Judge(owned: bool)                    // after a failed health check
    | Check                                 // load the last recovery
    | Store                                 // store this one
    | BeginRecover
    | EndRecover
    | Release

  datatype Step = Tick(d: nat) | Arrive(id: Id, city: City, kind: Kind) | Turn(id: Id, act: Act)

  predicate Holding(pc: Pc) { !pc.Waiting? && !pc.Gone? }

  predicate CanAct(s: State, c: Caller, act: Act) {
    match act
    case GiveUp => c.pc.Waiting?
    case Acquire => c.pc.Waiting? && c.city !in s.held
    case Abandon => c.pc.Ready?
    case Begin => c.pc.Ready?
    case EndStart(_, _) => c.pc == Running(StartOp)
    case BeginRetry => c.pc.Retrying?
    case EndHealth(_) => c.pc == Running(HealthOp)
    case Judge(_) => c.pc.Failed?
    case Check => c.pc.Clocked?
    case Store => c.pc.Allowed?
    case BeginRecover => c.pc.Stamped?
    case EndRecover => c.pc == Running(RecoverOp)
    case Release => c.pc.Leaving?
  }

  predicate Enabled(s: State, step: Step) {
    match step
    case Tick(_) => true
    case Arrive(id, _, _) => id !in s.callers
    case Turn(id, act) => id in s.callers && CanAct(s, s.callers[id], act)
  }

  // Where the act takes the caller.
  function NextPc(rules: Rules, s: State, c: Caller, act: Act): Pc
    requires CanAct(s, c, act)
  {
    match act
    case GiveUp => Gone
    case Acquire => Ready
    case Abandon => Leaving
    case Begin => Running(if c.kind.Starter? then StartOp else HealthOp)
    case EndStart(ok, managed) => if ok || !managed then Leaving else Retrying
    case BeginRetry => Running(HealthOp)
    case EndHealth(health) => if health.Healthy? || c.kind.Starter? then Leaving else Failed
    case Judge(owned) =>
      if c.city !in rules.bd then Stamped(s.now)
      else if !owned || c.health.BreakerOpen? then Leaving
      else Clocked(s.now)
    case Check => if c.city in s.last && c.pc.at - s.last[c.city] < rules.cooldown then Leaving else Allowed(c.pc.at)
    case Store => Stamped(c.pc.at)
    case BeginRecover => Running(RecoverOp)
    case EndRecover => Leaving
    case Release => Gone
  }

  function Next(rules: Rules, s: State, c: Caller, act: Act): Caller
    requires CanAct(s, c, act)
  {
    Caller(c.city, c.kind, NextPc(rules, s, c, act),
           if act.EndHealth? then act.health else c.health,
           if act.Judge? then act.owned else c.owned)
  }

  function RecoveriesOf(s: State, city: City): seq<Recovery> {
    if city in s.recoveries then s.recoveries[city] else []
  }

  function Apply(rules: Rules, s: State, step: Step): State
    requires Enabled(s, step)
  {
    match step
    case Tick(d) => s.(now := s.now + d)
    case Arrive(id, city, kind) => s.(callers := s.callers[id := Caller(city, kind, Waiting, Healthy, false)])
    case Turn(id, act) =>
      var c := s.callers[id];
      State(s.now,
            if act.Acquire? then s.held[c.city := id] else if act.Release? then s.held - {c.city} else s.held,
            if act.Store? then s.last[c.city := c.pc.at] else s.last,
            s.callers[id := Next(rules, s, c, act)],
            if act.BeginRecover? then s.recoveries[c.city := RecoveriesOf(s, c.city) + [Recovery(c.pc.at, s.now)]] else s.recoveries)
  }

  ghost predicate ValidRun(rules: Rules, s: State, steps: seq<Step>)
    decreases |steps|
  {
    steps == [] || (Enabled(s, steps[0]) && ValidRun(rules, Apply(rules, s, steps[0]), steps[1..]))
  }

  ghost function After(rules: Rules, s: State, steps: seq<Step>): State
    requires ValidRun(rules, s, steps)
    decreases |steps|
  {
    if steps == [] then s else After(rules, Apply(rules, s, steps[0]), steps[1..])
  }

  // ---- Mutual exclusion ------------------------------------------------------------

  // A city's semaphore is taken by exactly the one caller past its wait there.
  ghost predicate Locked(s: State) {
    && (forall id :: id in s.callers && Holding(s.callers[id].pc) ==> s.callers[id].city in s.held && s.held[s.callers[id].city] == id)
    && (forall city :: city in s.held ==> Holds(s, s.held[city], city))
  }

  ghost predicate Holds(s: State, id: Id, city: City) {
    id in s.callers && Holding(s.callers[id].pc) && s.callers[id].city == city
  }

  lemma StepKeepsLocked(rules: Rules, s: State, step: Step)
    requires Locked(s) && Enabled(s, step)
    ensures Locked(Apply(rules, s, step))
  {
  }

  // ---- Recoveries --------------------------------------------------------------------

  // The recoveries of a city are allowed by stamps at least the cooldown apart, none after `bound`.
  ghost predicate Spaced(cooldown: nat, rs: seq<Recovery>) {
    && (forall i :: 0 <= i < |rs| ==> rs[i].stamp <= rs[i].at)
    && (forall i, j :: 0 <= i < j < |rs| ==> rs[i].stamp + cooldown <= rs[j].stamp)
  }

  ghost predicate AllBefore(rs: seq<Recovery>, bound: int) {
    forall i :: 0 <= i < |rs| ==> rs[i].stamp <= bound
  }

  // What the clock readings of a caller on a bd city mean.
  ghost predicate Timed(rules: Rules, s: State, c: Caller) {
    match c.pc
    case Clocked(at) => at <= s.now && c.health.Unhealthy? && c.owned
    case Allowed(at) => at <= s.now && c.health.Unhealthy? && c.owned && (c.city in s.last ==> s.last[c.city] + rules.cooldown <= at)
    case Stamped(at) =>
      && at <= s.now && c.health.Unhealthy? && c.owned && c.city in s.last && s.last[c.city] == at
      && AllBefore(RecoveriesOf(s, c.city), at - rules.cooldown)
    case Running(op) => op.RecoverOp? ==> c.health.Unhealthy? && c.owned
    case Failed => !c.health.Healthy?
    case _ => true
  }

  ghost predicate CityTimed(rules: Rules, s: State, city: City) {
    && Spaced(rules.cooldown, RecoveriesOf(s, city))
    && AllBefore(RecoveriesOf(s, city), if city in s.last then s.last[city] else -1)
    && (city in s.last ==> s.last[city] <= s.now)
  }

  ghost predicate Inv(rules: Rules, s: State) {
    && Locked(s)
    && (forall city :: city in rules.bd ==> CityTimed(rules, s, city))
    && (forall id :: id in s.callers && s.callers[id].city in rules.bd ==> Timed(rules, s, s.callers[id]))
  }

  // The caller that acts.
  lemma ActorTimed(rules: Rules, s: State, id: Id, act: Act)
    requires Inv(rules, s) && Enabled(s, Turn(id, act)) && s.callers[id].city in rules.bd
    ensures var s' := Apply(rules, s, Turn(id, act)); Timed(rules, s', s'.callers[id])
  {
    var c := s.callers[id];
    assert Timed(rules, s, c) && CityTimed(rules, s, c.city);
  }

  // A caller that stands by: on the actor's city it holds nothing, so no reading of its own can
  // go stale.
  lemma OtherTimed(rules: Rules, s: State, id: Id, act: Act, other: Id)
    requires Inv(rules, s) && Enabled(s, Turn(id, act))
    requires other in s.callers && other != id && s.callers[other].city in rules.bd
    ensures Timed(rules, Apply(rules, s, Turn(id, act)), s.callers[other])
  {
    var c, o := s.callers[id], s.callers[other];
    assert Timed(rules, s, o);
    if o.city == c.city && Holding(c.pc) {
      assert s.held[c.city] == id;
      assert !Holding(o.pc);
    }
  }

  lemma CityStaysTimed(rules: Rules, s: State, id: Id, act: Act, city: City)
    requires Inv(rules, s) && Enabled(s, Turn(id, act)) && city in rules.bd
    ensures CityTimed(rules, Apply(rules, s, Turn(id, act)), city)
  {
    assert CityTimed(rules, s, city);
    if s.callers[id].city == city {
      assert Timed(rules, s, s.callers[id]);
      if act.Store? {
        StoreKeepsTimed(rules, s, id);
      } else if act.BeginRecover? {
        RecoverKeepsTimed(rules, s, id);
      }
    }
  }

  lemma StoreKeepsTimed(rules: Rules, s: State, id: Id)
    requires Enabled(s, Turn(id, Store)) && Timed(rules, s, s.callers[id]) && CityTimed(rules, s, s.callers[id].city)
    ensures CityTimed(rules, Apply(rules, s, Turn(id, Store)), s.callers[id].city)
  {
  }

  lemma RecoverKeepsTimed(rules: Rules, s: State, id: Id)
    requires Enabled(s, Turn(id, BeginRecover)) && Timed(rules, s, s.callers[id]) && CityTimed(rules, s, s.callers[id].city)
    ensures CityTimed(rules, Apply(rules, s, Turn(id, BeginRecover)), s.callers[id].city)
  {
    SpacedGrows(rules.cooldown, RecoveriesOf(s, s.callers[id].city), Recovery(s.callers[id].pc.at, s.now));
  }

  lemma SpacedGrows(cooldown: nat, rs: seq<Recovery>, r: Recovery)
    requires Spaced(cooldown, rs) && AllBefore(rs, r.stamp - cooldown) && r.stamp <= r.at
    ensures Spaced(cooldown, rs + [r]) && AllBefore(rs + [r], r.stamp)
  {
  }

  lemma TurnKeepsInv(rules: Rules, s: State, id: Id, act: Act)
    requires Inv(rules, s) && Enabled(s, Turn(id, act)) && Locked(Apply(rules, s, Turn(id, act)))
    ensures Inv(rules, Apply(rules, s, Turn(id, act)))
  {
    forall city | city in rules.bd {
      CityStaysTimed(rules, s, id, act, city);
    }
    forall other | other in s.callers && s.callers[other].city in rules.bd
      ensures var s' := Apply(rules, s, Turn(id, act)); Timed(rules, s', s'.callers[other])
    {
      if other == id {
        ActorTimed(rules, s, id, act);
      } else {
        OtherTimed(rules, s, id, act, other);
      }
    }
  }

  lemma StepKeepsInv(rules: Rules, s: State, step: Step)
    requires Inv(rules, s) && Enabled(s, step)
    ensures Inv(rules, Apply(rules, s, step))
  {
    StepKeepsLocked(rules, s, step);
    if step.Turn? {
      TurnKeepsInv(rules, s, step.id, step.act);
    }
  }

  lemma {:induction false} RunKeepsInv(rules: Rules, s: State, steps: seq<Step>)
    requires Inv(rules, s) && ValidRun(rules, s, steps)
    ensures Inv(rules, After(rules, s, steps))
    decreases |steps|
  {
    if steps != [] {
      StepKeepsInv(rules, s, steps[0]);
      RunKeepsInv(rules, Apply(rules, s, steps[0]), steps[1..]);
    }
  }

  // A caller with an operation under way.
  predicate Busy(s: State, id: Id) {
    id in s.callers && s.callers[id].pc.Running?
  }

  /** Operations on one city never overlap, whatever the interleaving. */
  lemma OneAtATime(rules: Rules, steps: seq<Step>, a: Id, b: Id)
    requires ValidRun(rules, START, steps)
    ensures var s := After(rules, START, steps);
            Busy(s, a) && Busy(s, b) && s.callers[a].city == s.callers[b].city ==> a == b
  {
    RunKeepsInv(rules, START, steps);
  }

  /** On a bd city the stamps that allow recoveries lie at least the cooldown apart, and a recovery
      begins at least the cooldown after the stamp of any earlier one; so when every recovery
      begins at its stamp, recoveries begin at least the cooldown apart. */
  lemma RecoveriesKeepTheirDistance(rules: Rules, steps: seq<Step>, city: City, i: nat, j: nat)
    requires ValidRun(rules, START, steps) && city in rules.bd
    requires i < j < |RecoveriesOf(After(rules, START, steps), city)|
    ensures var rs := RecoveriesOf(After(rules, START, steps), city);
            rs[i].stamp + rules.cooldown <= rs[j].stamp && rs[i].stamp + rules.cooldown <= rs[j].at
  {
    RunKeepsInv(rules, START, steps);
    assert CityTimed(rules, After(rules, START, steps), city);
  }

  /** No recovery follows a breaker-open answer, nor one by a caller that does not own the server. */
  lemma RecoveryNeedsPlainFailure(rules: Rules, steps: seq<Step>, id: Id)
    requires ValidRun(rules, START, steps)
    ensures var s := After(rules, START, steps);
            id in s.callers && s.callers[id].city in rules.bd && s.callers[id].pc == Running(RecoverOp) ==>
              s.callers[id].health.Unhealthy? && s.callers[id].owned
  {
    RunKeepsInv(rules, START, steps);
  }

  // ---- Stamps and starts -------------------------------------------------------------

  lemma {:induction false} Extend(rules: Rules, s: State, steps: seq<Step>, more: seq<Step>)
    requires ValidRun(rules, s, steps) && ValidRun(rules, After(rules, s, steps), more)
    ensures ValidRun(rules, s, steps + more) && After(rules, s, steps + more) == After(rules, After(rules, s, steps), more)
    decreases |steps|
  {
    if steps == [] {
      assert steps + more == more;
    } else {
      Extend(rules, Apply(rules, s, steps[0]), steps[1..], more);
      assert (steps + more)[1..] == steps[1..] + more;
    }
  }

  lemma Chain(rules: Rules, s: State, steps: seq<Step>, s': State, step: Step) returns (steps': seq<Step>)
    requires ValidRun(rules, s, steps) && After(rules, s, steps) == s' && Enabled(s', step)
    ensures ValidRun(rules, s, steps') && After(rules, s, steps') == Apply(rules, s', step)
  {
    var s'' := Apply(rules, s', step);
    assert ValidRun(rules, s'', []) && After(rules, s'', []) == s'';
    assert ValidRun(rules, s', [step]) && After(rules, s', [step]) == s'';
    Extend(rules, s, steps, [step]);
    steps' := steps + [step];
  }

  lemma Two(rules: Rules, s: State, a: Step, b: Step, s': State) returns (steps: seq<Step>)
    requires Enabled(s, a) && Enabled(Apply(rules, s, a), b) && s' == Apply(rules, Apply(rules, s, a), b)
    ensures ValidRun(rules, s, steps) && After(rules, s, steps) == s'
  {
    steps := Chain(rules, s, [], s, a);
    steps := Chain(rules, s, steps, Apply(rules, s, a), b);
  }

  lemma Join(rules: Rules, s: State, steps: seq<Step>, s': State, more: seq<Step>, s'': State) returns (all: seq<Step>)
    requires ValidRun(rules, s, steps) && After(rules, s, steps) == s'
    requires ValidRun(rules, s', more) && After(rules, s', more) == s''
    ensures ValidRun(rules, s, all) && After(rules, s, all) == s''
  {
    Extend(rules, s, steps, more);
    all := steps + more;
  }

  // A caller arrives, takes the semaphore and finds the server unhealthy.
  lemma FindUnhealthy(rules: Rules, s: State, id: Id, city: City) returns (steps: seq<Step>)
    requires id !in s.callers && city !in s.held
    ensures ValidRun(rules, s, steps)
    ensures After(rules, s, steps) ==
            s.(held := s.held[city := id], callers := s.callers[id := Caller(city, Checker, Failed, Unhealthy, false)])
  {
    var held := s.held[city := id];
    var s1 := s.(held := held, callers := s.callers[id := Caller(city, Checker, Ready, Healthy, false)]);
    var s2 := s.(held := held, callers := s.callers[id := Caller(city, Checker, Failed, Unhealthy, false)]);
    steps := Two(rules, s, Arrive(id, city, Checker), Turn(id, Acquire), s1);
    var more := Two(rules, s1, Turn(id, Begin), Turn(id, EndHealth(Unhealthy)), s2);
    steps := Join(rules, s, steps, s1, more, s2);
  }

  // Past the cooldown, it stamps its recovery.
  lemma Stamp(rules: Rules, s: State, id: Id) returns (steps: seq<Step>)
    requires id in s.callers && s.callers[id].pc.Failed? && s.callers[id].health.Unhealthy? && s.callers[id].city in rules.bd
    requires s.callers[id].city in s.last ==> s.last[s.callers[id].city] + rules.cooldown <= s.now
    ensures ValidRun(rules, s, steps)
    ensures After(rules, s, steps) ==
            s.(last := s.last[s.callers[id].city := s.now],
               callers := s.callers[id := s.callers[id].(pc := Stamped(s.now), owned := true)])
  {
    var s1 := Apply(rules, s, Turn(id, Judge(true)));
    var s2 := Apply(rules, s1, Turn(id, Check));
    steps := Chain(rules, s, [], s, Turn(id, Judge(true)));
    steps := Chain(rules, s, steps, s1, Turn(id, Check));
    steps := Chain(rules, s, steps, s2, Turn(id, Store));
  }

  // `delay` later it recovers and leaves.
  lemma Recover(rules: Rules, s: State, id: Id, delay: nat) returns (steps: seq<Step>)
    requires id in s.callers && s.callers[id].pc.Stamped?
    ensures ValidRun(rules, s, steps)
    ensures var c := s.callers[id];
            After(rules, s, steps) ==
            s.(now := s.now + delay, held := s.held - {c.city}, callers := s.callers[id := c.(pc := Gone)],
               recoveries := s.recoveries[c.city := RecoveriesOf(s, c.city) + [Recovery(c.pc.at, s.now + delay)]])
  {
    var c := s.callers[id];
    var rs := s.recoveries[c.city := RecoveriesOf(s, c.city) + [Recovery(c.pc.at, s.now + delay)]];
    var s1 := s.(now := s.now + delay, callers := s.callers[id := c.(pc := Running(RecoverOp))], recoveries := rs);
    var s2 := s.(now := s.now + delay, held := s.held - {c.city}, callers := s.callers[id := c.(pc := Gone)], recoveries := rs);
    steps := Two(rules, s, Tick(delay), Turn(id, BeginRecover), s1);
    var more := Two(rules, s1, Turn(id, EndRecover), Turn(id, Release), s2);
    steps := Join(rules, s, steps, s1, more, s2);
  }

  lemma WholeRecovery(rules: Rules, s: State, id: Id, city: City, delay: nat) returns (steps: seq<Step>, s': State)
    requires id !in s.callers && city !in s.held && city in rules.bd
    requires city in s.last ==> s.last[city] + rules.cooldown <= s.now
    ensures ValidRun(rules, s, steps) && After(rules, s, steps) == s'
    ensures s'.now == s.now + delay && city !in s'.held && s'.last == s.last[city := s.now] && s'.callers.Keys == s.callers.Keys + {id}
    ensures RecoveriesOf(s', city) == RecoveriesOf(s, city) + [Recovery(s.now, s.now + delay)]
  {
    steps := FindUnhealthy(rules, s, id, city);
    var s1 := After(rules, s, steps);
    var more := Stamp(rules, s1, id);
    Extend(rules, s, steps, more);
    steps := steps + more;
    var s2 := After(rules, s, steps);
    more := Recover(rules, s2, id, delay);
    Extend(rules, s, steps, more);
    steps := steps + more;
    s' := After(rules, s, steps);
  }

  /** The distance kept is between stamps, not between the operations themselves: a recovery that
      begins `delay` after its stamp can be followed by one only `cooldown - delay` later. */
  lemma StartsCanCrowd(rules: Rules, city: City, delay: nat, gap: nat) returns (steps: seq<Step>)
    requires city in rules.bd && rules.cooldown <= delay + gap
    ensures ValidRun(rules, START, steps)
    ensures RecoveriesOf(After(rules, START, steps), city) == [Recovery(0, delay), Recovery(delay + gap, delay + gap)]
  {
    var first, s1 := WholeRecovery(rules, START, 0, city, delay);
    var s2 := Apply(rules, s1, Tick(gap));
    var waited := Chain(rules, START, first, s1, Tick(gap));
    var second, s3 := WholeRecovery(rules, s2, 1, city, 0);
    Extend(rules, START, waited, second);
    steps := waited + second;
  }

  // Two recoveries, the earlier one begun `delay` after its stamp and the later one begun `gap`
  // after that.
  ghost predicate Crowds(rs: seq<Recovery>, delay: nat, gap: nat) {
    exists i, j :: 0 <= i < j < |rs| && rs[i].at == rs[i].stamp + delay && rs[j].at == rs[i].at + gap
  }

  ghost predicate CrowdedRun(rules: Rules, steps: seq<Step>, city: City, delay: nat, gap: nat) {
    ValidRun(rules, START, steps) && Crowds(RecoveriesOf(After(rules, START, steps), city), delay, gap)
  }

  /** How close two recoveries of a bd city can begin, over all runs: `gap` after one that was
      itself `delay` late if and only if the two together make up the cooldown. */
  lemma CrowdsExactly(rules: Rules, city: City, delay: nat, gap: nat)
    requires city in rules.bd
    ensures (exists steps :: CrowdedRun(rules, steps, city, delay, gap)) <==> rules.cooldown <= delay + gap
  {
    if steps :| CrowdedRun(rules, steps, city, delay, gap) {
      var rs := RecoveriesOf(After(rules, START, steps), city);
      var i: nat, j: nat :| i < j < |rs| && rs[i].at == rs[i].stamp + delay && rs[j].at == rs[i].at + gap;
      RecoveriesKeepTheirDistance(rules, steps, city, i, j);
    }
    if rules.cooldown <= delay + gap {
      var steps := StartsCanCrowd(rules, city, delay, gap);
      var rs := RecoveriesOf(After(rules, START, steps), city);
      assert rs[0].at == rs[0].stamp + delay && rs[1].at == rs[0].at + gap;
      assert CrowdedRun(rules, steps, city, delay, gap);
    }
  }
}
