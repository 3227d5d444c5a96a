/** The create budget shared by the pools of one planning cycle, and its division. */
module FairShare {
  import opened Rotation

  ghost function Total(s: seq<nat>): nat {
    if s == [] then 0 else Total(s[..|s| - 1]) + s[|s| - 1]
  }

  // The sum over the picked places only.
  ghost function Picked(s: seq<nat>, pick: seq<bool>): nat
    requires |s| == |pick|
  {
    if s == [] then 0
    else Picked(s[..|s| - 1], pick[..|s| - 1]) + if pick[|s| - 1] then s[|s| - 1] else 0
  }

  lemma {:induction false} RaiseOne(s: seq<nat>, pick: seq<bool>, i: nat)
    requires |s| == |pick| && i < |s|
    ensures Total(s[i := s[i] + 1]) == Total(s) + 1
    ensures Picked(s[i := s[i] + 1], pick) == Picked(s, pick) + if pick[i] then 1 else 0
    decreases |s|
  {
    var n := |s| - 1;
    var s' := s[i := s[i] + 1];
    if i == n {
      assert s'[..n] == s[..n];
    } else {
      RaiseOne(s[..n], pick[..n], i);
      assert s'[..n] == s[..n][i := s[i] + 1];
    }
  }

  lemma {:induction false} Monotone(s: seq<nat>, s': seq<nat>, pick: seq<bool>)
    requires |s| == |s'| == |pick| && forall i :: 0 <= i < |s| && pick[i] ==> s[i] <= s'[i]
    ensures Picked(s, pick) <= Picked(s', pick)
    decreases |s|
  {
    if s != [] {
      Monotone(s[..|s| - 1], s'[..|s| - 1], pick[..|s| - 1]);
    }
  }

  lemma {:induction false} AllZero(n: nat, pick: seq<bool>)
    requires |pick| == n
    ensures Total(seq(n, _ => 0)) == 0 && Picked(seq(n, _ => 0), pick) == 0
    decreases n
  {
    if n > 0 {
      AllZero(n - 1, pick[..n - 1]);
      assert seq(n, _ => 0)[..n - 1] == seq(n - 1, _ => 0);
    }
  }

  ghost predicate WithinDemand(s: seq<nat>, demand: seq<nat>) {
    |s| == |demand| && forall i :: 0 <= i < |s| ==> s[i] <= demand[i]
  }

  // Who would take a token.
  ghost function Hungry(demand: seq<nat>, eligible: seq<bool>, shares: seq<nat>): (h: seq<bool>)
    requires |demand| == |eligible| == |shares|
    ensures |h| == |demand| && forall i :: 0 <= i < |h| ==> h[i] == (eligible[i] && shares[i] < demand[i])
  {
    seq(|demand|, i requires 0 <= i < |demand| => eligible[i] && shares[i] < demand[i])
  }

  // What a round has handed out after `offset` visits.
  ghost predicate Visits(hungry: seq<bool>, shares: seq<nat>, start: nat, tokens: nat, offset: nat, now: seq<nat>) {
    && |hungry| == |shares| == |now| && start < |hungry|
    && forall i :: 0 <= i < |now| ==> now[i] == shares[i] + if Turn(start, i, |hungry|) < offset && Among(hungry, start, tokens, i) then 1 else 0
  }

  // Up to `tokens` tokens so far, all to eligible pools.
  ghost predicate Tally(eligible: seq<bool>, shares: seq<nat>, now: seq<nat>, given: nat) {
    && |eligible| == |shares| == |now|
    && Total(now) == Total(shares) + given && Picked(now, eligible) == Picked(shares, eligible) + given
  }

  lemma VisitOne(hungry: seq<bool>, shares: seq<nat>, start: nat, tokens: nat, offset: nat, now: seq<nat>)
    requires Visits(hungry, shares, start, tokens, offset, now) && offset < |hungry|
    ensures var i := Place(start, offset, |hungry|);
            && now[i] == shares[i]
            && Visits(hungry, shares, start, tokens, offset + 1, if Among(hungry, start, tokens, i) then now[i := now[i] + 1] else now)
  {
    var n, i := |hungry|, Place(start, offset, |hungry|);
    assert Turn(start, i, n) == offset;
    var next := if Among(hungry, start, tokens, i) then now[i := now[i] + 1] else now;
    forall j | 0 <= j < n
      ensures next[j] == shares[j] + if Turn(start, j, n) < offset + 1 && Among(hungry, start, tokens, j) then 1 else 0
    {
      assert j != i ==> Turn(start, j, n) != offset;
    }
  }

  // Whether the visit feeds the pool, told by the tokens given so far.
  lemma FedNow(hungry: seq<bool>, start: nat, tokens: nat, offset: nat, given: nat)
    requires start < |hungry| && offset < |hungry| && given == Least(Asking(hungry, start, offset), tokens)
    ensures var i := Place(start, offset, |hungry|);
            && (Among(hungry, start, tokens, i) <==> given < tokens && hungry[i])
            && (if Among(hungry, start, tokens, i) then given + 1 else given) == Least(Asking(hungry, start, offset + 1), tokens)
  {
    assert Turn(start, Place(start, offset, |hungry|), |hungry|) == offset;
  }

  /** One round: visits every pool once from `start` around, giving a token to each eligible pool
      that still wants one, until the tokens run out: exactly the first hungry ones in rotation
      order are fed. */
  method GiveRound(demand: seq<nat>, eligible: seq<bool>, shares: seq<nat>, start: nat, tokens: nat)
    returns (shares': seq<nat>, given: nat)
    requires |demand| == |eligible| == |shares| && start < |demand|
    ensures Visits(Hungry(demand, eligible, shares), shares, start, tokens, |demand|, shares')
    ensures given == Least(Asking(Hungry(demand, eligible, shares), start, |demand|), tokens)
    ensures Tally(eligible, shares, shares', given)
  {
    ghost var hungry := Hungry(demand, eligible, shares);
    shares', given := Feed(demand, eligible, shares, start, tokens, hungry);
  }

  method Feed(demand: seq<nat>, eligible: seq<bool>, shares: seq<nat>, start: nat, tokens: nat, ghost hungry: seq<bool>)
    returns (shares': seq<nat>, given: nat)
    requires |demand| == |eligible| == |shares| == |hungry| && start < |demand|
    requires forall i :: 0 <= i < |hungry| ==> hungry[i] == (eligible[i] && shares[i] < demand[i])
    ensures Visits(hungry, shares, start, tokens, |demand|, shares')
    ensures given == Least(Asking(hungry, start, |demand|), tokens) && Tally(eligible, shares, shares', given)
  {
    shares', given := shares, 0;
    for offset := 0 to |demand|
      invariant Visits(hungry, shares, start, tokens, offset, shares')
      invariant given == Least(Asking(hungry, start, offset), tokens) && Tally(eligible, shares, shares', given)
    {
      var i := Place(start, offset, |demand|);
      VisitOne(hungry, shares, start, tokens, offset, shares');
      FedNow(hungry, start, tokens, offset, given);
      RaiseOne(shares', eligible, i);
      if given < tokens && eligible[i] && shares'[i] < demand[i] {
        shares', given := shares'[i := shares'[i] + 1], given + 1;
      }
    }
  }

  // What a round means pool by pool.
  lemma Served(demand: seq<nat>, eligible: seq<bool>, shares: seq<nat>, start: nat, tokens: nat, shares': seq<nat>, i: nat)
    requires |demand| == |eligible| && WithinDemand(shares, demand) && start < |demand| && i < |demand|
    requires Visits(Hungry(demand, eligible, shares), shares, start, tokens, |demand|, shares')
    ensures shares[i] <= shares'[i] <= shares[i] + 1 && shares'[i] <= demand[i] && (!eligible[i] ==> shares'[i] == shares[i])
    ensures eligible[i] && shares[i] < demand[i] && Asking(Hungry(demand, eligible, shares), start, |demand|) <= tokens ==> shares'[i] == shares[i] + 1
    ensures i == start && tokens > 0 && eligible[i] && shares[i] < demand[i] ==> shares'[i] == shares[i] + 1
  {
    if eligible[i] && shares[i] < demand[i] {
      AmongWhen(Hungry(demand, eligible, shares), start, tokens, i);
    }
  }

  lemma AmongWhen(hungry: seq<bool>, start: nat, tokens: nat, i: nat)
    requires start < |hungry| && i < |hungry| && hungry[i]
    ensures Asking(hungry, start, |hungry|) <= tokens || (i == start && tokens > 0) ==> Among(hungry, start, tokens, i)
  {
    AskingGrows(hungry, start, Turn(start, i, |hungry|) + 1, |hungry|);
    assert Place(start, Turn(start, i, |hungry|), |hungry|) == i;
  }

  lemma {:induction false} AskingGrows(asks: seq<bool>, start: nat, few: nat, many: nat)
    requires start < |asks| && few <= many <= |asks|
    ensures Asking(asks, start, few) <= Asking(asks, start, many)
    decreases many
  {
    if few < many {
      AskingGrows(asks, start, few, many - 1);
    }
  }

  // What rounds make of the shares: nobody loses, only eligible pools gain, and the first pool of
  // the rotation gains if it wants to.
  ghost predicate Given(demand: seq<nat>, eligible: seq<bool>, start: nat, shares: seq<nat>, shares': seq<nat>, some: bool) {
    && |demand| == |eligible| == |shares| == |shares'| && start < |demand|
    && WithinDemand(shares', demand)
    && (forall i :: 0 <= i < |demand| ==> shares[i] <= shares'[i] && (!eligible[i] ==> shares'[i] == shares[i]))
    && (some && eligible[start] && shares[start] < demand[start] ==> shares[start] < shares'[start])
  }

  lemma RoundGives(demand: seq<nat>, eligible: seq<bool>, shares: seq<nat>, start: nat, tokens: nat, shares': seq<nat>)
    requires |demand| == |eligible| && WithinDemand(shares, demand) && start < |demand|
    requires Visits(Hungry(demand, eligible, shares), shares, start, tokens, |demand|, shares')
    ensures Given(demand, eligible, start, shares, shares', tokens > 0)
  {
    forall i | 0 <= i < |demand|
      ensures shares[i] <= shares'[i] && shares'[i] <= demand[i] && (!eligible[i] ==> shares'[i] == shares[i])
    {
      Served(demand, eligible, shares, start, tokens, shares', i);
    }
    Served(demand, eligible, shares, start, tokens, shares', start);
  }

  lemma NobodyHungry(demand: seq<nat>, eligible: seq<bool>, shares: seq<nat>, start: nat)
    requires |demand| == |eligible| && WithinDemand(shares, demand) && start < |demand|
    requires Asking(Hungry(demand, eligible, shares), start, |demand|) == 0
    ensures forall i :: 0 <= i < |demand| && eligible[i] ==> shares[i] == demand[i]
  {
    var hungry := Hungry(demand, eligible, shares);
    forall i | 0 <= i < |demand| && eligible[i]
      ensures shares[i] == demand[i]
    {
      AskingGrows(hungry, start, Turn(start, i, |demand|) + 1, |demand|);
      assert Place(start, Turn(start, i, |demand|), |demand|) == i;
    }
  }

  /** Rounds until the tokens are gone or nobody eligible wants more. */
  method GiveAll(demand: seq<nat>, eligible: seq<bool>, shares: seq<nat>, start: nat, tokens: nat)
    returns (shares': seq<nat>, left: nat)
    requires |demand| == |eligible| && WithinDemand(shares, demand) && start < |demand|
    ensures left <= tokens && Tally(eligible, shares, shares', tokens - left)
    ensures Total(shares') + left == Total(shares) + tokens
    ensures Given(demand, eligible, start, shares, shares', tokens > 0)
    ensures left > 0 ==> forall i :: 0 <= i < |demand| && eligible[i] ==> shares'[i] == demand[i]
    ensures tokens == 0 ==> shares' == shares
  {
    shares', left := shares, tokens;
    while left > 0
      invariant left <= tokens && Tally(eligible, shares, shares', tokens - left)
      invariant Given(demand, eligible, start, shares, shares', left < tokens)
      invariant left == tokens ==> shares' == shares
      decreases left
    {
      var next, given := GiveRound(demand, eligible, shares', start, left);
      RoundGives(demand, eligible, shares', start, left, next);
      if given == 0 {
        NobodyHungry(demand, eligible, shares', start);
        return;
      }
      shares', left := next, left - given;
    }
  }

  // A pool with fresh demand; a floor asks for at least one session.
  datatype Demand = Demand(creates: nat, floor: bool)

  function Fresh(ds: seq<Demand>): (r: seq<nat>)
    ensures |r| == |ds| && forall i :: 0 <= i < |ds| ==> r[i] == ds[i].creates
  {
    seq(|ds|, i requires 0 <= i < |ds| => ds[i].creates)
  }

  function Floors(ds: seq<Demand>, want: bool): (r: seq<bool>)
    ensures |r| == |ds| && forall i :: 0 <= i < |ds| ==> r[i] == (ds[i].floor == want)
  {
    seq(|ds|, i requires 0 <= i < |ds| => ds[i].floor == want)
  }

  method Sum(s: seq<nat>, pick: seq<bool>) returns (t: nat)
    requires |s| == |pick|
    ensures t == Picked(s, pick)
  {
    t := 0;
    for i := 0 to |s|
      invariant t == Picked(s[..i], pick[..i])
    {
      assert s[..i + 1][..i] == s[..i] && pick[..i + 1][..i] == pick[..i];
      if pick[i] {
        t := t + s[i];
      }
    }
    assert s[..|s|] == s && pick[..|s|] == pick;
  }

  // What is set aside for pools without a floor: a quarter, or all they want.
  function ElasticReserve(limit: nat, wanted: nat): (r: nat)
    ensures r <= limit && r <= wanted
  {
    Least(limit / 4, wanted)
  }

  ghost function FloorPools(ds: seq<Demand>): set<nat> {
    set i: nat | i < |ds| && ds[i].floor
  }

  ghost function FloorsServed(ds: seq<Demand>, shares: seq<nat>): set<nat>
    requires |ds| == |shares|
  {
    set i: nat | i < |ds| && ds[i].floor && shares[i] >= 1
  }

  // One token each to the first pools with a floor.
  lemma FloorsFed(ds: seq<Demand>, start: nat, tokens: nat, none: seq<nat>, shares: seq<nat>)
    requires start < |ds| && |none| == |ds| && forall i :: 0 <= i < |ds| ==> none[i] == 0
    requires Visits(Floors(ds, true), none, start, tokens, |ds|, shares)
    ensures |FloorsServed(ds, shares)| == Least(|FloorPools(ds)|, tokens)
    ensures Asking(Floors(ds, true), start, |ds|) == |FloorPools(ds)|
  {
    var floors := Floors(ds, true);
    FirstAskersCount(floors, start, tokens, |ds|);
    FirstAskersAre(floors, start, tokens, |ds|);
    assert FloorsServed(ds, shares) == FirstAskers(floors, start, tokens, |ds|);
    assert Visited(floors, start, |ds|) == FloorPools(ds);
  }

  lemma NothingPicked(s: seq<nat>, pick: seq<bool>)
    requires |s| == |pick| && forall i :: 0 <= i < |s| && pick[i] ==> s[i] == 0
    ensures Picked(s, pick) == 0
  {
    var none: seq<nat> := seq(|s|, _ => 0);
    AllZero(|s|, pick);
    Monotone(s, none, pick);
  }

  // The floor round: one token for each pool with a floor, in rotation order.
  method FloorRound(ds: seq<Demand>, start: nat, tokens: nat) returns (shares: seq<nat>, used: nat)
    requires start < |ds| && forall i :: 0 <= i < |ds| ==> ds[i].creates > 0
    ensures |shares| == |ds| && used == Least(|FloorPools(ds)|, tokens) && Total(shares) == used
    ensures WithinDemand(shares, Fresh(ds)) && forall i :: 0 <= i < |ds| && !ds[i].floor ==> shares[i] == 0
    ensures |FloorsServed(ds, shares)| == used
    ensures shares[start] == if ds[start].floor && tokens > 0 then 1 else 0
    ensures Picked(shares, Floors(ds, false)) == 0
  {
    var n, demand, floors := |ds|, Fresh(ds), Floors(ds, true);
    var none: seq<nat> := seq(n, _ => 0);
    shares, used := GiveRound(demand, floors, none, start, tokens);
    assert Hungry(demand, floors, none) == floors;
    RoundGives(demand, floors, none, start, tokens, shares);
    FloorsFed(ds, start, tokens, none, shares);
    AllZero(n, floors);
    NothingPicked(shares, Floors(ds, false));
  }

  // A pool that gets a token whenever the seed puts it first.
  ghost predicate ServedWhenFirst(ds: seq<Demand>, limit: nat, i: nat) {
    limit > 0 && i < |ds| && (ds[i].floor || limit >= 4 || |FloorPools(ds)| < limit)
  }

  ghost predicate FirstServedExactly(ds: seq<Demand>, limit: nat, seed: nat, shares: seq<nat>) {
    && ds != [] && |shares| == |ds|
    && var first := seed % |ds|; (shares[first] >= 1 <==> ServedWhenFirst(ds, limit, first))
  }

  /** Divides `limit` tokens over contending pools (all with fresh demand).

      No token is lost or invented; no pool gets more than it wants; tokens are left over only
      when every pool has all it wants; pools without a floor get at least their reserve; as many
      floors are served as there are tokens outside that reserve; and the pool the seed puts first
      is served unless it has no floor, the limit is below four and floors take it all. */
  method FairShares(ds: seq<Demand>, limit: nat, seed: nat) returns (shares: seq<nat>, spare: nat)
    requires |ds| > 1 && forall i :: 0 <= i < |ds| ==> ds[i].creates > 0
    ensures |shares| == |ds| && Total(shares) + spare == limit
    ensures forall i :: 0 <= i < |ds| ==> shares[i] <= ds[i].creates
    ensures spare > 0 ==> forall i :: 0 <= i < |ds| ==> shares[i] == ds[i].creates
    ensures var reserve := ElasticReserve(limit, Picked(Fresh(ds), Floors(ds, false)));
            && Picked(shares, Floors(ds, false)) >= reserve
            && |FloorsServed(ds, shares)| >= Least(|FloorPools(ds)|, limit - reserve)
    ensures FirstServedExactly(ds, limit, seed, shares)
  {
    var start := seed % |ds|;
    var second, left, first, floorUsed := Reserve(ds, limit, start);
    shares, spare := GiveAll(Fresh(ds), seq(|ds|, _ => true), second, start, left);
    LastPhase(ds, limit, start, first, floorUsed, second, left, shares);
  }

  const SEED_MODULUS: nat := 0x1_0000_0000_0000_0000

  // The seed c cycles on: a 64-bit counter.
  function SeedAt(seed: nat, c: nat): (s: nat)
    ensures seed + c < SEED_MODULUS ==> s == seed + c
    ensures SEED_MODULUS <= seed + c < 2 * SEED_MODULUS ==> s == seed + c - SEED_MODULUS
  {
    (seed + c) % SEED_MODULUS
  }

  // One of n cycles puts pool i first.
  ghost predicate EverFirst(seed: nat, n: nat, i: nat)
    requires n > 0
  {
    exists c: nat :: c < n && SeedAt(seed, c) % n == i
  }

  // What the caller can check: the counter does not wrap meanwhile, or wraps to where it was.
  predicate FairSeed(seed: nat, n: nat)
    requires n > 0
  {
    seed + n <= SEED_MODULUS || SEED_MODULUS % n == 0
  }

  lemma GetsFirst(seed: nat, n: nat, i: nat) returns (c: nat)
    requires 0 < n <= SEED_MODULUS && seed < SEED_MODULUS && i < n && FairSeed(seed, n)
    ensures c < n && SeedAt(seed, c) % n == i
  {
    c := CountTo(seed, n, i);
    if seed + c >= SEED_MODULUS {
      SameRemainder(seed + c, seed + c - SEED_MODULUS, SEED_MODULUS / n, n);
    }
  }

  // The pool that a wrap after w cycles leaves out, r being where the count would have come to.
  function LeftOut(w: nat, r: nat, n: nat): (i: nat)
    requires 0 < w < n && 0 < r < n
    ensures n - w <= i < n && (Turn(i, r, n) == 0 || Turn(i, r, n) > w)
  {
    if r < w then r + n - w - 1 else n - 1
  }

  lemma NeverFirst(seed: nat, n: nat, c: nat)
    requires c < n <= SEED_MODULUS && seed < SEED_MODULUS && !FairSeed(seed, n)
    ensures SeedAt(seed, c) % n != LeftOut(SEED_MODULUS - seed, SEED_MODULUS % n, n)
  {
    var w := SEED_MODULUS - seed;
    if c < w {
      Ahead(seed + c, w - c, n);
    } else {
      Divided(c - w, 0, c - w, n);
    }
  }

  /** Of n consecutive cycles over the same n pools each is first in one, if and only if the
      64-bit counter does not wrap among them or n divides 2^64. */
  lemma FirstInTurnExactly(seed: nat, n: nat)
    requires 0 < n <= SEED_MODULUS && seed < SEED_MODULUS
    ensures (forall i: nat :: i < n ==> EverFirst(seed, n, i)) <==> FairSeed(seed, n)
  {
    if FairSeed(seed, n) {
      forall i: nat | i < n
        ensures EverFirst(seed, n, i)
      {
        var c := GetsFirst(seed, n, i);
      }
    } else {
      var i := LeftOut(SEED_MODULUS - seed, SEED_MODULUS % n, n);
      forall c: nat | c < n
        ensures SeedAt(seed, c) % n != i
      {
        NeverFirst(seed, n, c);
      }
      assert !EverFirst(seed, n, i);
    }
  }

  /** So no pool starves: of n such cycles, whatever their demands, each pool that a first place
      would serve throughout is served in one. */
  lemma NoPoolStarves(cycles: seq<seq<Demand>>, limit: nat, seed: nat, shares: seq<seq<nat>>, i: nat) returns (k: nat)
    requires |cycles| == |shares| && i < |cycles| <= SEED_MODULUS && seed < SEED_MODULUS && FairSeed(seed, |cycles|)
    requires forall c :: 0 <= c < |cycles| ==> |cycles[c]| == |cycles|
    requires forall c :: 0 <= c < |cycles| ==> FirstServedExactly(cycles[c], limit, SeedAt(seed, c), shares[c])
    requires forall c :: 0 <= c < |cycles| ==> ServedWhenFirst(cycles[c], limit, i)
    ensures k < |cycles| && i < |shares[k]| && shares[k][i] >= 1
  {
    k := GetsFirst(seed, |cycles|, i);
    assert FirstServedExactly(cycles[k], limit, SeedAt(seed, k), shares[k]);
  }

  // What is known when floors and reserve are given out: `first` after the floor round, `second`
  // after the reserve.
  ghost predicate Reserved(ds: seq<Demand>, limit: nat, start: nat, first: seq<nat>, floorUsed: nat, second: seq<nat>, left: nat) {
    var reserve := ElasticReserve(limit, Picked(Fresh(ds), Floors(ds, false)));
    && start < |ds| && |first| == |ds|
    && floorUsed == |FloorsServed(ds, first)| == Least(|FloorPools(ds)|, limit - reserve)
    && first[start] == (if ds[start].floor && limit > 0 then 1 else 0)
    && Given(Fresh(ds), Floors(ds, false), start, first, second, reserve > 0)
    && (!ds[start].floor && limit >= 4 ==> second[start] > 0)
    && (reserve == 0 ==> second == first)
    && Picked(second, Floors(ds, false)) == reserve
    && Total(second) + left == limit && left == limit - floorUsed - reserve
  }

  // Floors first, then the elastic reserve.
  method Reserve(ds: seq<Demand>, limit: nat, start: nat) returns (second: seq<nat>, left: nat, ghost first: seq<nat>, ghost floorUsed: nat)
    requires start < |ds| && forall i :: 0 <= i < |ds| ==> ds[i].creates > 0
    ensures Reserved(ds, limit, start, first, floorUsed, second, left)
  {
    var demand, elastic := Fresh(ds), Floors(ds, false);
    var wanted := Sum(demand, elastic);
    var reserve := ElasticReserve(limit, wanted);
    var one, used := FloorRound(ds, start, limit - reserve);
    var two, unused := GiveAll(demand, elastic, one, start, reserve);
    SecondPhase(ds, limit, start, reserve, one, two, unused);
    second, left, first, floorUsed := two, limit - used - reserve, one, used;
  }

  lemma LastPhase(ds: seq<Demand>, limit: nat, start: nat, first: seq<nat>, floorUsed: nat, second: seq<nat>, left: nat, shares: seq<nat>)
    requires Reserved(ds, limit, start, first, floorUsed, second, left) && ds[start].creates > 0
    requires Given(Fresh(ds), seq(|ds|, _ => true), start, second, shares, left > 0)
    requires left == 0 ==> shares == second
    ensures Picked(shares, Floors(ds, false)) >= ElasticReserve(limit, Picked(Fresh(ds), Floors(ds, false)))
    ensures |FloorsServed(ds, shares)| >= Least(|FloorPools(ds)|, limit - ElasticReserve(limit, Picked(Fresh(ds), Floors(ds, false))))
    ensures shares[start] >= 1 <==> limit > 0 && (ds[start].floor || limit >= 4 || |FloorPools(ds)| < limit)
  {
    Monotone(second, shares, Floors(ds, false));
    StillServed(ds, first, shares);
    FirstServed(ds, limit, start, ElasticReserve(limit, Picked(Fresh(ds), Floors(ds, false))), first, floorUsed, second, shares);
  }

  lemma FirstServed(ds: seq<Demand>, limit: nat, start: nat, reserve: nat, first: seq<nat>, floorUsed: nat, second: seq<nat>, shares: seq<nat>)
    requires start < |ds| && |first| == |second| == |shares| == |ds| && reserve <= limit / 4
    requires floorUsed == Least(|FloorPools(ds)|, limit - reserve)
    requires first[start] <= second[start] <= shares[start] && (limit == 0 ==> first[start] == 0)
    requires ds[start].floor ==> limit > 0 ==> first[start] == 1
    requires !ds[start].floor && limit >= 4 ==> second[start] > 0
    requires limit - floorUsed - reserve > 0 ==> second[start] > 0 || shares[start] > 0
    requires limit - floorUsed - reserve == 0 ==> shares == second
    requires reserve == 0 ==> second == first
    requires !ds[start].floor ==> first[start] == 0
    ensures shares[start] >= 1 <==> limit > 0 && (ds[start].floor || limit >= 4 || |FloorPools(ds)| < limit)
  {
  }

  // The elastic reserve is given out in full, and reaches the first pool if it has no floor.
  lemma SecondPhase(ds: seq<Demand>, limit: nat, start: nat, reserve: nat, first: seq<nat>, second: seq<nat>, unused: nat)
    requires start < |ds| && forall i :: 0 <= i < |ds| ==> ds[i].creates > 0
    requires reserve == ElasticReserve(limit, Picked(Fresh(ds), Floors(ds, false))) && unused <= reserve
    requires |first| == |ds| && Picked(first, Floors(ds, false)) == 0
    requires Tally(Floors(ds, false), first, second, reserve - unused)
    requires unused > 0 ==> forall i :: 0 <= i < |ds| && !ds[i].floor ==> second[i] == ds[i].creates
    ensures unused == 0 && Picked(second, Floors(ds, false)) == reserve
    ensures limit >= 4 && !ds[start].floor ==> reserve > 0
  {
    var demand, elastic := Fresh(ds), Floors(ds, false);
    if unused > 0 {
      Monotone(demand, second, elastic);
    }
    if !ds[start].floor {
      PickedAtLeast(demand, elastic, start);
    }
  }

  lemma {:induction false} PickedAtLeast(s: seq<nat>, pick: seq<bool>, i: nat)
    requires |s| == |pick| && i < |s| && pick[i]
    ensures Picked(s, pick) >= s[i]
    decreases |s|
  {
    if i < |s| - 1 {
      PickedAtLeast(s[..|s| - 1], pick[..|s| - 1], i);
    }
  }

  lemma StillServed(ds: seq<Demand>, s: seq<nat>, s': seq<nat>)
    requires |ds| == |s| == |s'| && forall i :: 0 <= i < |ds| ==> s[i] <= s'[i]
    ensures |FloorsServed(ds, s)| <= |FloorsServed(ds, s')|
  {
    assert FloorsServed(ds, s) <= FloorsServed(ds, s');
    Subset(FloorsServed(ds, s), FloorsServed(ds, s'));
  }

  lemma {:induction false} Subset(a: set<nat>, b: set<nat>)
    requires a <= b
    ensures |a| <= |b|
  {
    if a != {} {
      var x :| x in a;
      Subset(a - {x}, b - {x});
    }
  }
}
