/** Who gets one of the few write attempts of a sweep that visits every row once, starting
    at a rotating cursor. Rows only say whether they ask for an attempt. */
module RepairRotation {
  import opened Rotation

  const WRITE_LIMIT: nat := 5

  const CURSOR_MODULUS: nat := 0x1_0000_0000_0000_0000

  // Row i is attempted: it asks, and fewer than five rows visited before it did.
  ghost predicate Attempted(asks: seq<bool>, start: nat, i: nat)
    requires start < |asks| && i < |asks|
  {
    Among(asks, start, WRITE_LIMIT, i)
  }

  // The rows attempted in the first `offset` visits.
  ghost function Hits(asks: seq<bool>, start: nat, offset: nat): (hits: set<nat>)
    requires start < |asks| && offset <= |asks|
    ensures forall i :: i in hits <==> 0 <= i < |asks| && Turn(start, i, |asks|) < offset && Attempted(asks, start, i)
    ensures |hits| == Least(Asking(asks, start, offset), WRITE_LIMIT)
  {
    FirstAskersCount(asks, start, WRITE_LIMIT, offset);
    FirstAskersAre(asks, start, WRITE_LIMIT, offset);
    FirstAskers(asks, start, WRITE_LIMIT, offset)
  }

  lemma NextHit(asks: seq<bool>, start: nat, offset: nat)
    requires start < |asks| && offset < |asks|
    ensures var i := Place(start, offset, |asks|);
            Hits(asks, start, offset + 1) == Hits(asks, start, offset) + if Attempted(asks, start, i) then {i} else {}
  {
    assert Turn(start, Place(start, offset, |asks|), |asks|) == offset;
  }

  ghost function Backlog(asks: seq<bool>): set<nat> {
    set i: nat | i < |asks| && asks[i]
  }

  /** A full sweep attempts min(5, backlog) rows, every one of which asked. */
  lemma BudgetSpent(asks: seq<bool>, start: nat)
    requires start < |asks|
    ensures Hits(asks, start, |asks|) <= Backlog(asks)
    ensures |Hits(asks, start, |asks|)| == Least(|Backlog(asks)|, WRITE_LIMIT)
  {
    assert Visited(asks, start, |asks|) == Backlog(asks);
  }

  // ---- Draining a backlog whose writes land -------------------------------------

  ghost function AfterPass(asks: seq<bool>, start: nat): (r: seq<bool>)
    requires start < |asks|
    ensures |r| == |asks|
  {
    seq(|asks|, i requires 0 <= i < |asks| => asks[i] && !Attempted(asks, start, i))
  }

  ghost function AfterPasses(asks: seq<bool>, starts: seq<nat>): (r: seq<bool>)
    requires forall k :: 0 <= k < |starts| ==> starts[k] < |asks|
    ensures |r| == |asks|
    decreases |starts|
  {
    if starts == [] then asks else AfterPasses(AfterPass(asks, starts[0]), starts[1..])
  }

  /** While writes land, each pass takes five rows off the backlog, wherever it starts. */
  lemma {:induction false} BacklogDrains(asks: seq<bool>, starts: seq<nat>)
    requires forall k :: 0 <= k < |starts| ==> starts[k] < |asks|
    ensures var b := |Backlog(asks)|;
            |Backlog(AfterPasses(asks, starts))| == b - Least(b, WRITE_LIMIT * |starts|)
    decreases |starts|
  {
    if starts != [] {
      var hits := Hits(asks, starts[0], |asks|);
      BudgetSpent(asks, starts[0]);
      assert Backlog(AfterPass(asks, starts[0])) == Backlog(asks) - hits;
      BacklogDrains(AfterPass(asks, starts[0]), starts[1..]);
    }
  }

  // ---- Fairness -----------------------------------------------------------------

  // The cursor's value before the p-th pass.
  function CursorAt(first: nat, p: nat): (c: nat)
    ensures c < CURSOR_MODULUS
  {
    (first + WRITE_LIMIT * p) % CURSOR_MODULUS
  }

  // The passes the bound speaks of: ceil(n/5).
  function Bound(n: nat): nat {
    (n + WRITE_LIMIT - 1) / WRITE_LIMIT
  }

  // The p-th pass starts at most four rows before row i.
  predicate InWindow(first: nat, n: nat, i: nat, p: nat)
    requires n > 0 && i < n
  {
    Turn(CursorAt(first, p) % n, i, n) < WRITE_LIMIT
  }

  // Passes over an n-row snapshot throughout which row i keeps asking.
  ghost predicate KeepsAsking(passes: seq<seq<bool>>, n: nat, i: nat) {
    |passes| == Bound(n) && forall k :: 0 <= k < |passes| ==> |passes[k]| == n && i < n && passes[k][i]
  }

  // Every pass finds all n rows asking.
  ghost function AllAsk(n: nat): seq<seq<bool>> {
    seq(Bound(n), _ => seq(n, _ => true))
  }

  ghost predicate GetsATurn(passes: seq<seq<bool>>, first: nat, n: nat, i: nat)
    requires n > 0 && KeepsAsking(passes, n, i)
  {
    exists p :: 0 <= p < |passes| && Attempted(passes[p], CursorAt(first, p) % n, i)
  }

  /** Row i is sure of an attempt - whatever the other rows do, and however often their writes
      fail - if and only if one of the ceil(n/5) passes starts at most four rows before it. */
  lemma TurnExactly(first: nat, n: nat, i: nat)
    requires n > 0 && i < n
    ensures (forall passes :: KeepsAsking(passes, n, i) ==> GetsATurn(passes, first, n, i))
            <==> exists p :: 0 <= p < Bound(n) && InWindow(first, n, i, p)
  {
    var all := AllAsk(n);
    assert KeepsAsking(all, n, i);
    if GetsATurn(all, first, n, i) {
      var p :| 0 <= p < |all| && Attempted(all[p], CursorAt(first, p) % n, i);
      OnlyItsOwnWindow(all[p], CursorAt(first, p) % n, i);
      assert InWindow(first, n, i, p);
    }
    if p :| 0 <= p < Bound(n) && InWindow(first, n, i, p) {
      forall passes | KeepsAsking(passes, n, i)
        ensures GetsATurn(passes, first, n, i)
      {
        assert Attempted(passes[p], CursorAt(first, p) % n, i);
      }
    }
  }

  // What the caller can check: the last pass still starts before the cursor wraps, or the wrap
  // shifts the rotation by no more rows than the passes have to spare.
  predicate Fair(first: nat, n: nat)
    requires n > 0
  {
    first + WRITE_LIMIT * (Bound(n) - 1) < CURSOR_MODULUS || CURSOR_MODULUS % n <= WRITE_LIMIT * Bound(n) - n
  }

  lemma CursorWraps(first: nat, p: nat)
    ensures var c := first + WRITE_LIMIT * p;
            && (c < CURSOR_MODULUS ==> CursorAt(first, p) == c)
            && (CURSOR_MODULUS <= c < 2 * CURSOR_MODULUS ==> CursorAt(first, p) == c - CURSOR_MODULUS)
  {
  }

  // Pass p before the wrap, and pass p after it, for the row x rows ahead of the first start.
  lemma BeforeWrap(first: nat, n: nat, x: nat, p: nat)
    requires x < n && WRITE_LIMIT * p <= x && first + WRITE_LIMIT * p < CURSOR_MODULUS
    ensures Turn(CursorAt(first, p) % n, (first + x) % n, n) == x - WRITE_LIMIT * p
  {
    CursorWraps(first, p);
    Ahead(first + WRITE_LIMIT * p, x - WRITE_LIMIT * p, n);
  }

  lemma AfterWrap(first: nat, n: nat, x: nat, p: nat, t: nat)
    requires t < n && CURSOR_MODULUS <= first + WRITE_LIMIT * p < 2 * CURSOR_MODULUS
    requires t == x + CURSOR_MODULUS % n - WRITE_LIMIT * p
    ensures Turn(CursorAt(first, p) % n, (first + x) % n, n) == t
  {
    CursorWraps(first, p);
    WrappedAhead(CURSOR_MODULUS, first + x, first + WRITE_LIMIT * p - CURSOR_MODULUS, t, n);
  }

  lemma WrappedAhead(modulus: nat, y: nat, c: nat, t: nat, n: nat)
    requires t < n && y + modulus % n == c + t + modulus
    ensures Turn(c % n, y % n, n) == t
  {
    SameRemainder(y, c + t, modulus / n, n);
    Ahead(c, t, n);
  }

  // The pass that reaches the row x rows ahead, r being what the wrap costs.
  lemma ReachedBefore(x: nat, n: nat)
    requires x < n
    ensures var p := x / WRITE_LIMIT; p < Bound(n) && WRITE_LIMIT * p <= x < WRITE_LIMIT * p + WRITE_LIMIT
  {
  }

  lemma ReachedAfter(modulus: nat, first: nat, x: nat, r: nat, n: nat)
    requires x < n <= modulus && first < modulus <= first + WRITE_LIMIT * (x / WRITE_LIMIT)
    requires first + WRITE_LIMIT * (Bound(n) - 1) < modulus || r <= WRITE_LIMIT * Bound(n) - n
    ensures var p := (x + r) / WRITE_LIMIT;
            && p < Bound(n) && modulus <= first + WRITE_LIMIT * p < 2 * modulus
            && WRITE_LIMIT * p <= x + r < WRITE_LIMIT * p + WRITE_LIMIT <= n + WRITE_LIMIT
            && WRITE_LIMIT < n
  {
    ReachedBefore(x, n);
    ReachedBefore(x + r, x + r + 1);
  }

  lemma FairCovers(first: nat, n: nat, i: nat) returns (p: nat)
    requires 0 < n <= CURSOR_MODULUS && first < CURSOR_MODULUS && i < n && Fair(first, n)
    ensures p < Bound(n) && InWindow(first, n, i, p)
  {
    var x := CountTo(first, n, i);
    p := x / WRITE_LIMIT;
    if first + WRITE_LIMIT * p < CURSOR_MODULUS {
      ReachedBefore(x, n);
      BeforeWrap(first, n, x, p);
    } else {
      p := CoversAfter(first, n, x);
    }
  }

  lemma CoversAfter(first: nat, n: nat, x: nat) returns (p: nat)
    requires x < n <= CURSOR_MODULUS && first < CURSOR_MODULUS <= first + WRITE_LIMIT * (x / WRITE_LIMIT)
    requires Fair(first, n)
    ensures p < Bound(n) && InWindow(first, n, (first + x) % n, p)
  {
    var r := CURSOR_MODULUS % n;
    p := (x + r) / WRITE_LIMIT;
    ReachedAfter(CURSOR_MODULUS, first, x, r, n);
    AfterWrap(first, n, x, p, x + r - WRITE_LIMIT * p);
  }

  // The row a wrap leaves out: the last one of the round, or the last one before the rotation
  // starts again.
  lemma WrapLeavesOut(first: nat, n: nat) returns (i: nat)
    requires 0 < n <= CURSOR_MODULUS && first < CURSOR_MODULUS && !Fair(first, n)
    ensures i < n && forall p :: 0 <= p < Bound(n) ==> !InWindow(first, n, i, p)
  {
    var r := CURSOR_MODULUS % n;
    var w := FirstWrapped(first, Bound(n));
    var x := if r <= WRITE_LIMIT * w then n - 1 else n + WRITE_LIMIT * w - r - 1;
    i := (first + x) % n;
    forall p | 0 <= p < Bound(n)
      ensures !InWindow(first, n, i, p)
    {
      if p < w {
        BeforeWrap(first, n, x, p);
      } else {
        AfterWrap(first, n, x, p, x + r - WRITE_LIMIT * p);
      }
    }
  }

  lemma FirstWrapped(first: nat, m: nat) returns (w: nat)
    requires first < CURSOR_MODULUS && m > 0 && first + WRITE_LIMIT * (m - 1) >= CURSOR_MODULUS
    ensures 0 < w < m && first + WRITE_LIMIT * (w - 1) < CURSOR_MODULUS <= first + WRITE_LIMIT * w
  {
    w := 1;
    while first + WRITE_LIMIT * w < CURSOR_MODULUS
      invariant 0 < w < m && first + WRITE_LIMIT * (w - 1) < CURSOR_MODULUS
      decreases m - w
    {
      w := w + 1;
    }
  }

  /** For a cursor value and a snapshot within 64 bits, every row that keeps asking is attempted
      within ceil(n/5) passes if and only if the last of them starts before the cursor wraps, or
      2^64 leaves a remainder by n no greater than the 5*ceil(n/5) - n attempts to spare. */
  lemma FairnessExact(first: nat, n: nat)
    requires 0 < n <= CURSOR_MODULUS && first < CURSOR_MODULUS
    ensures (forall i, passes :: 0 <= i < n && KeepsAsking(passes, n, i) ==> GetsATurn(passes, first, n, i)) <==> Fair(first, n)
  {
    if Fair(first, n) {
      forall i, passes | 0 <= i < n && KeepsAsking(passes, n, i)
        ensures GetsATurn(passes, first, n, i)
      {
        var p := FairCovers(first, n, i);
        TurnExactly(first, n, i);
      }
    } else {
      var i := WrapLeavesOut(first, n);
      TurnExactly(first, n, i);
    }
  }

  /** So without a wrap every row gets its turn. */
  lemma EveryRowGetsATurn(passes: seq<seq<bool>>, first: nat, n: nat, i: nat) returns (p: nat)
    requires 0 < n <= CURSOR_MODULUS && i < n && KeepsAsking(passes, n, i)
    requires first < CURSOR_MODULUS && Fair(first, n)
    ensures p < |passes| && Attempted(passes[p], CursorAt(first, p) % n, i)
  {
    p := FairCovers(first, n, i);
  }

  /** Five a pass is all there is: when every row keeps asking, row i is attempted exactly in the
      passes whose start lies at most four rows before it. */
  lemma OnlyItsOwnWindow(asks: seq<bool>, start: nat, i: nat)
    requires start < |asks| && i < |asks| && forall j :: 0 <= j < |asks| ==> asks[j]
    ensures Attempted(asks, start, i) <==> Turn(start, i, |asks|) < WRITE_LIMIT
  {
    AllAsking(asks, start, Turn(start, i, |asks|));
  }

  lemma WrapStart(p: nat)
    requires p < 3
    ensures CursorAt(CURSOR_MODULUS - 10, p) % 11 == if p == 0 then 6 else 0
  {
  }

  /** A wrap that breaks the bound: eleven rows, all asking, and the cursor ten short of 2^64. None
      of the three passes attempts row 5, which asks in each. */
  lemma WrapBreaksFairness(p: nat)
    requires p < Bound(11)
    ensures !Fair(CURSOR_MODULUS - 10, 11) && KeepsAsking(AllAsk(11), 11, 5)
    ensures !Attempted(AllAsk(11)[p], CursorAt(CURSOR_MODULUS - 10, p) % 11, 5)
  {
    OnlyItsOwnWindow(AllAsk(11)[p], CursorAt(CURSOR_MODULUS - 10, p) % 11, 5);
    WrapStart(p);
  }
}
