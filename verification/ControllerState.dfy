/** The controller state object, whose methods carry out the steps of ConfigProtocol. */
module ControllerState {
  import opened ConfigProtocol
  import opened Text

  // storeTopologyRigs: later rigs of the same name win.
  method TopologyRigs(rigs: seq<Rig>) returns (places: map<string, Place>)
    ensures places == RigPlaces(rigs)
  {
    places := map[];
    for i := 0 to |rigs|
      invariant places == RigPlaces(rigs[..i])
    {
      assert rigs[..i + 1][..i] == rigs[..i];
      places := places[rigs[i].name := Place(rigs[i].path, rigs[i].prefix)];
    }
    assert rigs[..|rigs|] == rigs;
  }

  /** Compares the providers, the prefix and the rigs both ways: equal sizes, and every rig of
      the one placed alike in the other. */
  method SameStoreTopology(current: City, next: City) returns (same: bool)
    ensures same <==> TopologyOf(current) == TopologyOf(next)
  {
    if current.beadsProvider != next.beadsProvider || current.mailProvider != next.mailProvider || current.hqPrefix != next.hqPrefix {
      return false;
    }
    var mine := TopologyRigs(current.rigs);
    var theirs := TopologyRigs(next.rigs);
    if |mine| != |theirs| {
      return false;
    }
    var left := mine.Keys;
    while left != {}
      invariant left <= mine.Keys
      invariant forall name :: name in mine.Keys - left ==> name in theirs && theirs[name] == mine[name]
      decreases left
    {
      var name :| name in left;
      if name !in theirs || theirs[name] != mine[name] {
        return false;
      }
      left := left - {name};
    }
    SameKeys(mine.Keys, theirs.Keys);
    assert mine == theirs;
    same := true;
  }

  lemma {:induction false} SameKeys(a: set<string>, b: set<string>)
    requires a <= b && |a| == |b|
    ensures a == b
  {
    if a != {} {
      var x :| x in a;
      SameKeys(a - {x}, b - {x});
    }
  }

  // configDropsBoundRigs.
  method DropsBound(current: City, next: City) returns (drops: bool)
    ensures drops <==> DropsBoundRigs(current, next)
  {
    var theirs := TopologyRigs(next.rigs);
    for i := 0 to |current.rigs|
      invariant forall j :: 0 <= j < i && current.rigs[j].path != "" ==>
                  current.rigs[j].name in theirs && theirs[current.rigs[j].name].path != ""
    {
      var rig := current.rigs[i];
      if rig.path != "" && (rig.name !in theirs || theirs[rig.name].path == "") {
        return true;
      }
    }
    drops := false;
  }

  /** Schedules the handles of replaced stores for closing: each once, however many rigs
      shared it, and none that is in use again. */
  method CloseReplaced(was: map<string, nat>, now: map<string, nat>) returns (scheduled: multiset<nat>)
    ensures scheduled == multiset(was.Values - now.Values)
  {
    scheduled := multiset{};
    var inUse, closed: set<nat> := now.Values, {};
    var left := was.Keys;
    while left != {}
      invariant left <= was.Keys
      invariant forall name :: name in was.Keys - left ==> was[name] in closed || was[name] in inUse
      invariant closed <= was.Values - inUse
      invariant scheduled == multiset(closed)
      decreases left
    {
      var name :| name in left;
      var store := was[name];
      if store !in inUse && store !in closed {
        closed := closed + {store};
        scheduled := scheduled + multiset{store};
      }
      left := left - {name};
    }
    assert closed == was.Values - inUse;
  }

  class Controller {
    var disk: Disk
    var cfg: City
    var pending: bool
    var pendingRev: string
    var stores: Stores
    ghost var past: History

    ghost function Abs(): Ctl
      reads this
    {
      Ctl(disk, cfg, pending, pendingRev, stores, past)
    }

    /** Opens the stores of the configuration and, if it can, the city store. */
    constructor (disk: Disk, cfg: City, o: Opening)
      ensures Initial(Abs()) && this.cfg == cfg && this.disk == disk && (stores.city.Some? <==> o.cityOpens)
    {
      this.disk, this.cfg, pending, pendingRev := disk, cfg, false, "";
      var rigs, n := OpenStores(cfg.rigs, o.legacy, 0);
      stores := Stores(rigs, if o.cityOpens then Some(n) else None, o.signature, n + 1, multiset{});
      past := History(cfg, "", cfg, o.signature, rigs.Values + if o.cityOpens then {n} else {});
      BuiltStoresServe(cfg.rigs, o.legacy, 0);
      assert forall h :: h in rigs.Values ==> h < n;
    }

    static method OpenStores(rigs: seq<Rig>, legacy: set<string>, shared: nat) returns (handles: map<string, nat>, n: nat)
      ensures (handles, n) == BuildStores(rigs, legacy, shared)
    {
      handles, n := map[], shared + 1;
      for i := 0 to |rigs|
        invariant (handles, n) == BuildStores(rigs[..i], legacy, shared)
      {
        assert rigs[..i + 1][..i] == rigs[..i];
        if rigs[i].path != "" {
          if rigs[i].name in legacy {
            handles := handles[rigs[i].name := shared];
          } else {
            handles, n := handles[rigs[i].name := n], n + 1;
          }
        }
      }
      assert rigs[..|rigs|] == rigs;
    }

    /** Rebuilds every store, swaps them in and schedules the replaced ones for closing. */
    method Update(cfg: City, o: Opening)
      modifies this
      ensures Abs() == ConfigProtocol.Update(old(Abs()), cfg, o)
    {
      var rigs, n := OpenStores(cfg.rigs, o.legacy, stores.next);
      stores := Exchange(stores, o, rigs, n);
      this.cfg := cfg;
      past := past.(builtFrom := cfg, builtSig := o.signature, ever := past.ever + rigs.Values + (if o.cityOpens then {n} else {}));
    }

    static method Exchange(was: Stores, o: Opening, rigs: map<string, nat>, n: nat) returns (now: Stores)
      ensures now == SwapStores(was, o, rigs, n)
    {
      var closing := was.closing;
      if o.cityOpens && was.city.Some? {
        closing := closing + multiset{was.city.value};
      }
      var replaced := CloseReplaced(was.rigs, rigs);
      now := Stores(rigs, was.city, was.signature, n + 1, closing + replaced);
      if o.cityOpens {
        now := now.(city := Some(n), signature := o.signature);
      }
    }

    method ReusesStores(next: City, signature: string) returns (ok: bool)
      ensures ok <==> CanReuse(Abs(), next, signature)
    {
      var same := SameStoreTopology(cfg, next);
      if stores.city.None? || !same || (stores.signature != "" && stores.signature != signature) {
        return false;
      }
      for i := 0 to |next.rigs|
        invariant forall j :: 0 <= j < i && next.rigs[j].path != "" ==> next.rigs[j].name in stores.rigs
      {
        if next.rigs[i].path != "" && next.rigs[i].name !in stores.rigs {
          return false;
        }
      }
      ok := true;
    }

    method UpdateFromRuntime(next: City, rev: string, o: Opening)
      modifies this
      ensures Abs() == Apply(old(Abs()), Reload(next, rev, o))
    {
      if pending {
        if pendingRev == "" || rev == "" {
          return;
        }
        if rev == pendingRev {
          var drops := DropsBound(cfg, next);
          if drops {
            return;
          }
        } else if !(disk.Loaded? && disk.rev == rev) {
          return;
        }
      } else if rev != "" && !(disk.Loaded? && disk.rev == rev) {
        return;
      }
      var reuse := ReusesStores(next, o.signature);
      if reuse {
        cfg := next;
      } else {
        Update(next, o);
      }
      pending, pendingRev := false, "";
    }

    /** A reload that finds the revision unchanged still rebuilds when the metadata changed. */
    method RefreshMetadata(next: City, o: Opening)
      modifies this
      ensures Abs() == Apply(old(Abs()), ConfigProtocol.RefreshMetadata(next, o))
    {
      if stores.signature != "" && stores.signature != o.signature {
        Update(next, o);
      }
    }

    /** Runs an edit, refreshes from disk and marks the mutation pending; a refresh that fails
        puts the files back. */
    method MutateAndPoke(edited: Disk, editFails: bool, restores: bool, o: Opening) returns (ok: bool)
      modifies this
      ensures Abs() == Apply(old(Abs()), Mutate(edited, editFails, restores, o))
      ensures ok <==> !editFails && RefreshSucceeds(edited)
    {
      var snapshot := disk;
      disk := edited;
      if editFails {
        return false;
      }
      if disk.Unloadable? || disk.rev == "" {
        if restores {
          disk := snapshot;
        }
        return false;
      }
      Update(disk.cfg, o);
      pendingRev, pending := disk.rev, true;
      past := past.(mutationCfg := disk.cfg, mutationRev := disk.rev);
      ok := true;
    }
  }
}
