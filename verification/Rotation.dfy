/** Visiting the places 0..n-1 once each, from a start place on and around. */
module Rotation {

  // The place visited offset-th by a round that starts at `start` and wraps around:
  // (start + offset) % n, by PlaceIsRemainder.
  function Place(start: nat, offset: nat, n: nat): (i: nat)
    requires start < n && offset < n
    ensures i < n
  {
    if start + offset < n then start + offset else start + offset - n
  }

  // When a round gets to place i.
  function Turn(start: nat, i: nat, n: nat): (offset: nat)
    requires start < n && i < n
    ensures offset < n && Place(start, offset, n) == i
  {
    if start <= i then i - start else i + n - start
  }

  function Least(a: nat, b: nat): nat {
    if a < b then a else b
  }

  // Places asking among the first `offset` visited.
  ghost function Asking(asks: seq<bool>, start: nat, offset: nat): (k: nat)
    requires start < |asks| && offset <= |asks|
    ensures k <= offset
  {
    if offset == 0 then 0
    else Asking(asks, start, offset - 1) + if asks[Place(start, offset - 1, |asks|)] then 1 else 0
  }

  // Those places.
  ghost function Visited(asks: seq<bool>, start: nat, offset: nat): (v: set<nat>)
    requires start < |asks| && offset <= |asks|
    ensures forall i :: i in v <==> 0 <= i < |asks| && Turn(start, i, |asks|) < offset && asks[i]
    ensures |v| == Asking(asks, start, offset)
  {
    if offset == 0 then {}
    else
      var i := Place(start, offset - 1, |asks|);
      assert Turn(start, i, |asks|) == offset - 1;
      if asks[i] then Visited(asks, start, offset - 1) + {i} else Visited(asks, start, offset - 1)
  }

  // Place i asks, and fewer than `limit` places visited before it did.
  ghost predicate Among(asks: seq<bool>, start: nat, limit: nat, i: nat)
    requires start < |asks| && i < |asks|
  {
    asks[i] && Asking(asks, start, Turn(start, i, |asks|)) < limit
  }

  // The first `limit` places to ask, among the first `offset` visited.
  ghost function FirstAskers(asks: seq<bool>, start: nat, limit: nat, offset: nat): (v: set<nat>)
    requires start < |asks| && offset <= |asks|
    ensures forall i :: i in v ==> i < |asks|
  {
    if offset == 0 then {}
    else
      var i := Place(start, offset - 1, |asks|);
      var v := FirstAskers(asks, start, limit, offset - 1);
      if asks[i] && Asking(asks, start, offset - 1) < limit then v + {i} else v
  }

  lemma OnePlaceEach(start: nat, t: nat, u: nat, n: nat)
    requires start < n && t < n && u < n
    ensures Place(start, t, n) == Place(start, u, n) <==> t == u
  {
  }

  lemma {:induction false} FirstAskersAt(asks: seq<bool>, start: nat, limit: nat, offset: nat, t: nat)
    requires start < |asks| && offset <= |asks| && t < |asks|
    ensures var i := Place(start, t, |asks|);
            i in FirstAskers(asks, start, limit, offset) <==> t < offset && asks[i] && Asking(asks, start, t) < limit
    decreases offset
  {
    if offset > 0 {
      FirstAskersAt(asks, start, limit, offset - 1, t);
      OnePlaceEach(start, t, offset - 1, |asks|);
    }
  }

  /** They are the places that ask before `limit` others have. */
  lemma FirstAskersAre(asks: seq<bool>, start: nat, limit: nat, offset: nat)
    requires start < |asks| && offset <= |asks|
    ensures FirstAskers(asks, start, limit, offset) ==
            set i: nat | i < |asks| && Turn(start, i, |asks|) < offset && Among(asks, start, limit, i)
  {
    forall i: nat | i < |asks|
      ensures i in FirstAskers(asks, start, limit, offset) <==> Turn(start, i, |asks|) < offset && Among(asks, start, limit, i)
    {
      FirstAskersAt(asks, start, limit, offset, Turn(start, i, |asks|));
    }
  }

  lemma OneMore(v: set<nat>, i: nat)
    requires i !in v
    ensures |v + {i}| == |v| + 1
  {
  }

  /** There are `limit` of them, or as many as ask. */
  lemma {:induction false} FirstAskersCount(asks: seq<bool>, start: nat, limit: nat, offset: nat)
    requires start < |asks| && offset <= |asks|
    ensures |FirstAskers(asks, start, limit, offset)| == Least(Asking(asks, start, offset), limit)
    decreases offset
  {
    if offset > 0 {
      FirstAskersCount(asks, start, limit, offset - 1);
      FirstAskersAt(asks, start, limit, offset - 1, offset - 1);
      OneMore(FirstAskers(asks, start, limit, offset - 1), Place(start, offset - 1, |asks|));
    }
  }

  lemma {:induction false} AllAsking(asks: seq<bool>, start: nat, offset: nat)
    requires start < |asks| && offset <= |asks| && forall i :: 0 <= i < |asks| ==> asks[i]
    ensures Asking(asks, start, offset) == offset
    decreases offset
  {
    if offset > 0 {
      AllAsking(asks, start, offset - 1);
    }
  }

  lemma Scaled(k: int, n: nat)
    ensures k >= 1 ==> k * n >= n
    ensures k <= -1 ==> k * n + n <= 0
  {
    if k >= 1 {
      assert (k - 1) * n >= 0;
    } else if k <= -1 {
      assert (-k - 1) * n >= 0;
    }
  }

  lemma Divided(x: nat, q: nat, r: nat, n: nat)
    requires r < n && x == q * n + r
    ensures x % n == r
  {
    var k := x / n - q;
    assert k * n == (x / n) * n - q * n;
    Scaled(k, n);
  }

  lemma PlaceIsRemainder(start: nat, offset: nat, n: nat)
    requires start < n && offset < n
    ensures Place(start, offset, n) == (start + offset) % n
  {
    Divided(start + offset, if start + offset < n then 0 else 1, Place(start, offset, n), n);
  }

  // Counting on from any number moves its remainder around like a place.
  lemma CountedOn(x: nat, q: nat, r: nat, steps: nat, n: nat)
    requires r < n && steps < n && x == q * n + r
    ensures (x + steps) % n == Place(r, steps, n)
  {
    if r + steps < n {
      Divided(x + steps, q, r + steps, n);
    } else {
      assert (q + 1) * n == q * n + n;
      Divided(x + steps, q + 1, r + steps - n, n);
    }
  }

  // Counting on from any number gets to every place within a round.
  lemma CountTo(first: nat, n: nat, i: nat) returns (x: nat)
    requires n > 0 && i < n
    ensures x < n && (first + x) % n == i
  {
    x := Turn(first % n, i, n);
    CountedOn(first, first / n, first % n, x, n);
  }

  // The number t past c falls t places ahead of the place c falls on.
  lemma Ahead(c: nat, t: nat, n: nat)
    requires t < n
    ensures Turn(c % n, (c + t) % n, n) == t
  {
    CountedOn(c, c / n, c % n, t, n);
  }

  lemma SameRemainder(a: nat, b: nat, q: nat, n: nat)
    requires n > 0 && a == b + q * n
    ensures a % n == b % n
  {
    var k := b / n;
    assert b == k * n + b % n;
    assert (k + q) * n == k * n + q * n;
    Divided(a, k + q, b % n, n);
  }
}
