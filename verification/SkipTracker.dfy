/** Edge-triggered reporting of worktrees the reaper leaves in place. */
module SkipTracker {
  datatype Skip = Skip(path: string, reason: string)

  // The last decision of a pass for each path it judged.
  function Decided(skips: seq<Skip>): map<string, string> {
    if skips == [] then map[]
    else
      var last := skips[|skips| - 1];
      Decided(skips[..|skips| - 1])[last.path := last.reason]
  }

  // Whether a decision differs from what was last decided for its path.
  predicate News(memory: map<string, string>, s: Skip) {
    s.path !in memory || memory[s.path] != s.reason
  }

  // What surfaces in a pass, judged against a memory that the pass itself extends.
  ghost function Surfaced(memory: map<string, string>, skips: seq<Skip>): (r: seq<bool>)
    ensures |r| == |skips|
  {
    if skips == [] then []
    else
      var front := skips[..|skips| - 1];
      Surfaced(memory, front) + [News(memory + Decided(front), skips[|skips| - 1])]
  }

  lemma OneMoreSkip(memory: map<string, string>, skips: seq<Skip>, i: nat)
    requires i < |skips|
    ensures Surfaced(memory, skips[..i + 1]) == Surfaced(memory, skips[..i]) + [News(memory + Decided(skips[..i]), skips[i])]
    ensures Decided(skips[..i + 1]) == Decided(skips[..i])[skips[i].path := skips[i].reason]
    ensures memory + Decided(skips[..i + 1]) == (memory + Decided(skips[..i]))[skips[i].path := skips[i].reason]
  {
    assert skips[..i + 1][..i] == skips[..i];
  }

  class Tracker {
    var lastReason: map<string, string>
    var thisPass: set<string>

    constructor ()
      ensures lastReason == map[]
    {
      lastReason, thisPass := map[], {};
    }

    method BeginPass()
      modifies this`thisPass
      ensures thisPass == {}
    {
      thisPass := {};
    }

    method ShouldSurface(path: string, reason: string) returns (news: bool)
      modifies this
      ensures news <==> News(old(lastReason), Skip(path, reason))
      ensures lastReason == old(lastReason)[path := reason] && thisPass == old(thisPass) + {path}
    {
      thisPass := thisPass + {path};
      if path in lastReason && lastReason[path] == reason {
        assert lastReason == lastReason[path := reason];
        return false;
      }
      lastReason := lastReason[path := reason];
      return true;
    }

    method EndPass()
      modifies this`lastReason
      ensures lastReason == map path | path in old(lastReason) && path in thisPass :: old(lastReason)[path]
    {
      var left := lastReason.Keys;
      while left != {}
        invariant left <= old(lastReason).Keys
        invariant lastReason == map path | path in old(lastReason) && (path in thisPass || path in left) :: old(lastReason)[path]
        decreases left
      {
        var path :| path in left;
        if path !in thisPass {
          lastReason := lastReason - {path};
        }
        left := left - {path};
      }
    }

    method JudgeAll(skips: seq<Skip>) returns (surfaced: seq<bool>)
      requires thisPass == {}
      modifies this
      ensures surfaced == Surfaced(old(lastReason), skips)
      ensures lastReason == old(lastReason) + Decided(skips) && thisPass == Decided(skips).Keys
    {
      surfaced := [];
      for i := 0 to |skips|
        invariant surfaced == Surfaced(old(lastReason), skips[..i])
        invariant lastReason == old(lastReason) + Decided(skips[..i])
        invariant thisPass == Decided(skips[..i]).Keys
      {
        OneMoreSkip(old(lastReason), skips, i);
        var news := ShouldSurface(skips[i].path, skips[i].reason);
        surfaced := surfaced + [news];
      }
      assert skips[..|skips|] == skips;
    }

    /** One pass: what surfaces is exactly what is new against the memory and the pass so far;
        afterwards the memory holds this pass and nothing older. */
    method Sweep(skips: seq<Skip>) returns (surfaced: seq<bool>)
      modifies this
      ensures surfaced == Surfaced(old(lastReason), skips)
      ensures lastReason == Decided(skips)
    {
      BeginPass();
      surfaced := JudgeAll(skips);
      EndPass();
    }

    /** Any run of passes over a fresh tracker: each pass is judged against the one before it,
        and only that one. */
    method SweepAll(passes: seq<seq<Skip>>) returns (surfaced: seq<seq<bool>>)
      requires lastReason == map[]
      modifies this
      ensures surfaced == PassByPass(passes, |passes|)
      ensures lastReason == Before(passes, |passes|)
    {
      surfaced := [];
      for p := 0 to |passes|
        invariant surfaced == PassByPass(passes, p)
        invariant lastReason == Before(passes, p)
      {
        var news := Sweep(passes[p]);
        surfaced := surfaced + [news];
      }
    }
  }

  // The memory a pass starts from.
  ghost function Before(passes: seq<seq<Skip>>, p: nat): map<string, string>
    requires p <= |passes|
  {
    if p == 0 then map[] else Decided(passes[p - 1])
  }

  // Every pass judged against the one before it.
  ghost function PassByPass(passes: seq<seq<Skip>>, n: nat): (r: seq<seq<bool>>)
    requires n <= |passes|
    ensures |r| == n
  {
    if n == 0 then [] else PassByPass(passes, n - 1) + [Surfaced(Before(passes, n - 1), passes[n - 1])]
  }

  lemma {:induction false} PassAt(passes: seq<seq<Skip>>, n: nat, p: nat)
    requires p < n <= |passes|
    ensures PassByPass(passes, n)[p] == Surfaced(Before(passes, p), passes[p])
  {
    if p < n - 1 {
      PassAt(passes, n - 1, p);
    }
  }

  /** Over any run of passes, each judging a path at most once: a path surfaces exactly when the
      previous pass did not skip it for the same reason. */
  lemma RunSurfacesOnChange(passes: seq<seq<Skip>>, p: nat, i: nat)
    requires p < |passes| && i < |passes[p]|
    requires forall q :: 0 <= q < |passes| ==> OnceEach(passes[q])
    ensures |PassByPass(passes, |passes|)[p]| == |passes[p]|
    ensures PassByPass(passes, |passes|)[p][i] <==> p == 0 || passes[p][i] !in passes[p - 1]
  {
    PassAt(passes, |passes|, p);
    if p == 0 {
      SurfacesOnChange([], passes[p], i);
    } else {
      SurfacesOnChange(passes[p - 1], passes[p], i);
    }
  }

  ghost predicate OnceEach(skips: seq<Skip>) {
    forall j, k :: 0 <= j < k < |skips| ==> skips[j].path != skips[k].path
  }

  /** With each path judged at most once per pass, a skip surfaces exactly when the previous pass
      did not skip that path for that same reason. */
  lemma SurfacesOnChange(before: seq<Skip>, skips: seq<Skip>, i: nat)
    requires i < |skips| && OnceEach(skips) && OnceEach(before)
    ensures Surfaced(Decided(before), skips)[i] <==> skips[i] !in before
  {
    SurfacedAt(Decided(before), skips, i);
    DecidedIs(before, skips[i]);
    NotYet(skips[..i], skips[i].path);
  }

  lemma {:induction false} SurfacedAt(memory: map<string, string>, skips: seq<Skip>, i: nat)
    requires i < |skips|
    ensures Surfaced(memory, skips)[i] <==> News(memory + Decided(skips[..i]), skips[i])
  {
    if i < |skips| - 1 {
      SurfacedAt(memory, skips[..|skips| - 1], i);
      assert skips[..|skips| - 1][..i] == skips[..i];
    }
  }

  lemma {:induction false} NotYet(skips: seq<Skip>, path: string)
    requires forall i :: 0 <= i < |skips| ==> skips[i].path != path
    ensures path !in Decided(skips)
  {
    if skips != [] {
      NotYet(skips[..|skips| - 1], path);
    }
  }

  lemma {:induction false} DecidedIs(skips: seq<Skip>, s: Skip)
    requires OnceEach(skips)
    ensures !News(Decided(skips), s) <==> s in skips
  {
    if skips != [] {
      var front, last := skips[..|skips| - 1], skips[|skips| - 1];
      DecidedIs(front, s);
      assert skips == front + [last];
      NotYet(front, last.path);
    }
  }
}
