/** The create budget shared by all pools of a planning cycle. */
module CreateBudgets {
  import opened FairShare
  import opened Text

  // A budget's tokens: those remaining and, once a fair share is configured, how they are
  // reserved per pool, with the rest spare for any. An unlimited budget grants all.
  datatype Tokens = Tokens(limited: bool, remaining: nat, shares: Option<seq<nat>>, spare: nat)
  {
    ghost predicate Valid() {
      limited && shares.Some? ==> Total(shares.value) + spare == remaining
    }

    predicate Reserved(pool: nat) {
      shares.Some? && pool < |shares.value| && shares.value[pool] > 0
    }

    // The pool may still be granted a token.
    predicate Open(pool: nat) {
      !limited || (remaining > 0 && (shares.None? || Reserved(pool) || spare > 0))
    }

    // A grant takes the pool's own reserved token before a spare one.
    function Granted(pool: nat): Tokens
      requires Open(pool)
    {
      if !limited then this
      else if shares.None? then this.(remaining := remaining - 1)
      else if Reserved(pool) then this.(remaining := remaining - 1, shares := Some(shares.value[pool := shares.value[pool] - 1]))
      else this.(remaining := remaining - 1, spare := spare - 1)
    }

    // Returned tokens are spare capacity for any pool.
    function Refunded(n: nat): Tokens {
      if !limited then this
      else this.(remaining := remaining + n, spare := if shares.Some? then spare + n else spare)
    }
  }

  lemma GrantKeepsValid(t: Tokens, pool: nat)
    requires t.Valid() && t.Open(pool)
    ensures t.Granted(pool).Valid()
  {
    if t.limited && t.Reserved(pool) {
      Lowered(t.shares.value, pool);
    }
  }

  lemma RefundsAdd(t: Tokens, n: nat)
    requires t.Valid()
    ensures t.Refunded(n).Valid() && t.Refunded(n).Refunded(1) == t.Refunded(n + 1) && t.Refunded(0) == t
  {
  }

  class CreateBudget {
    var tokens: Tokens

    constructor (limit: int)
      ensures tokens == Tokens(limit > 0, if limit > 0 then limit else 0, None, 0) && tokens.Valid()
    {
      tokens := Tokens(limit > 0, if limit > 0 then limit else 0, None, 0);
    }

    /** Divides what remains over the pools with fresh demand, if more than one contends. */
    method ConfigureFairShare(ds: seq<Demand>, seed: nat)
      modifies this
      ensures tokens.Valid() && tokens.limited == old(tokens.limited) && tokens.remaining == old(tokens.remaining)
      ensures tokens.limited ==>
                && (tokens.shares.Some? <==> tokens.remaining > 0 && Contend(ds))
                && (tokens.shares.Some? ==> Fits(ds, tokens.shares.value, tokens.spare))
      ensures !tokens.limited ==> tokens == old(tokens)
    {
      if tokens.limited {
        var shares, spare := ShareOut(ds, tokens.remaining, seed);
        tokens := Tokens(true, tokens.remaining, shares, spare);
      }
    }

    method TryClaim(pool: nat) returns (ok: bool)
      requires tokens.Valid()
      modifies this
      ensures tokens.Valid() && ok == old(tokens.Open(pool))
      ensures tokens == if ok then old(tokens).Granted(pool) else old(tokens)
    {
      if !tokens.limited {
        return true;
      }
      if tokens.remaining == 0 {
        return false;
      }
      if tokens.shares.Some? {
        var shares := tokens.shares.value;
        if pool < |shares| && shares[pool] > 0 {
          Lowered(shares, pool);
          tokens := tokens.(shares := Some(shares[pool := shares[pool] - 1]));
        } else if tokens.spare > 0 {
          tokens := tokens.(spare := tokens.spare - 1);
        } else {
          return false;
        }
      }
      tokens := tokens.(remaining := tokens.remaining - 1);
      return true;
    }

    method Release()
      requires tokens.Valid()
      modifies this
      ensures tokens.Valid() && tokens == old(tokens).Refunded(1)
    {
      if tokens.limited {
        tokens := Tokens(true, tokens.remaining + 1, tokens.shares, if tokens.shares.Some? then tokens.spare + 1 else tokens.spare);
      }
    }
  }

  // Two pools have fresh demand.
  ghost predicate Contend(ds: seq<Demand>) {
    exists i, j :: 0 <= i < j < |ds| && ds[i].creates > 0 && ds[j].creates > 0
  }

  // No pool gets more than it wants, and a token is spare only when all get that much.
  ghost predicate Fits(ds: seq<Demand>, shares: seq<nat>, spare: nat) {
    && |shares| == |ds|
    && forall i :: 0 <= i < |ds| ==> shares[i] <= ds[i].creates && (spare > 0 ==> shares[i] == ds[i].creates)
  }

  method ShareOut(ds: seq<Demand>, limit: nat, seed: nat) returns (shares: Option<seq<nat>>, spare: nat)
    ensures shares.Some? <==> limit > 0 && Contend(ds)
    ensures shares.Some? ==> Fits(ds, shares.value, spare) && Total(shares.value) + spare == limit
    ensures shares.None? ==> spare == 0
  {
    var active := ActivePools(ds);
    if limit == 0 || |active| <= 1 {
      return None, 0;
    }
    assert active[0] < active[1];
    var some, left := FairShares(seq(|active|, k requires 0 <= k < |active| => ds[active[k]]), limit, seed);
    var full := Scatter(|ds|, active, some);
    forall i | 0 <= i < |ds|
      ensures full[i] <= ds[i].creates && (left > 0 ==> full[i] == ds[i].creates)
    {
      if i in active {
        var k :| 0 <= k < |active| && active[k] == i;
        assert full[active[k]] == some[k];
      }
    }
    return Some(full), left;
  }

  // The pools with fresh demand, in order.
  method ActivePools(ds: seq<Demand>) returns (active: seq<nat>)
    ensures forall k :: 0 <= k < |active| ==> active[k] < |ds| && ds[active[k]].creates > 0
    ensures forall j, k :: 0 <= j < k < |active| ==> active[j] < active[k]
    ensures forall i :: 0 <= i < |ds| && ds[i].creates > 0 ==> i in active
  {
    active := [];
    for i := 0 to |ds|
      invariant forall k :: 0 <= k < |active| ==> active[k] < i && ds[active[k]].creates > 0
      invariant forall j, k :: 0 <= j < k < |active| ==> active[j] < active[k]
      invariant forall j :: 0 <= j < i && ds[j].creates > 0 ==> j in active
    {
      if ds[i].creates > 0 {
        active := active + [i];
      }
    }
  }

  // Shares of the active pools, back under the numbers of all pools.
  method Scatter(n: nat, active: seq<nat>, shares: seq<nat>) returns (full: seq<nat>)
    requires |active| == |shares| && forall k :: 0 <= k < |active| ==> active[k] < n
    requires forall j, k :: 0 <= j < k < |active| ==> active[j] < active[k]
    ensures |full| == n && Total(full) == Total(shares)
    ensures forall k :: 0 <= k < |active| ==> full[active[k]] == shares[k]
    ensures forall i :: 0 <= i < n && i !in active ==> full[i] == 0
  {
    full := seq(n, _ => 0);
    AllZero(n, seq(n, _ => true));
    for k := 0 to |active|
      invariant |full| == n && Total(full) == Total(shares[..k])
      invariant forall j :: 0 <= j < k ==> full[active[j]] == shares[j]
      invariant forall i :: 0 <= i < n && i !in active[..k] ==> full[i] == 0
    {
      assert shares[..k + 1][..k] == shares[..k] && active[..k + 1] == active[..k] + [active[k]];
      SetOne(full, active[k], shares[k]);
      full := full[active[k] := shares[k]];
    }
    assert shares[..|shares|] == shares && active[..|active|] == active;
  }

  lemma {:induction false} SetOne(s: seq<nat>, i: nat, v: nat)
    requires i < |s|
    ensures Total(s[i := v]) + s[i] == Total(s) + v
  {
    var front := s[..|s| - 1];
    if i < |s| - 1 {
      SetOne(front, i, v);
      assert s[i := v][..|s| - 1] == front[i := v];
    } else {
      assert s[i := v][..|s| - 1] == front;
    }
  }

  lemma Lowered(s: seq<nat>, i: nat)
    requires i < |s| && s[i] > 0
    ensures Total(s[i := s[i] - 1]) + 1 == Total(s)
  {
    var s' := s[i := s[i] - 1];
    RaiseOne(s', seq(|s|, _ => true), i);
    assert s'[i := s'[i] + 1] == s;
  }
}
