/** The controller's configuration and store handles over whole runs: API mutations, failed
    mutations, edits from outside, runtime reloads and metadata refreshes, each one step. */
module ConfigProtocol {
  import opened Text

  // A configured rig. An unbound rig has no path; paths are resolved scope roots.
  datatype Rig = Rig(name: string, path: string, prefix: string)

  // A loaded city configuration; `rest` stands for everything the stores do not depend on.
  datatype City = City(beadsProvider: string, mailProvider: string, hqPrefix: string, rigs: seq<Rig>, rest: int)

  // What loading the configuration from disk gives.
  datatype Disk = Unloadable | Loaded(cfg: City, rev: string)

  datatype Place = Place(path: string, prefix: string)

  datatype Topology = Topology(beadsProvider: string, mailProvider: string, hqPrefix: string, rigs: map<string, Place>)

  function RigPlaces(rigs: seq<Rig>): map<string, Place> {
    if rigs == [] then map[]
    else var r := rigs[|rigs| - 1]; RigPlaces(rigs[..|rigs| - 1])[r.name := Place(r.path, r.prefix)]
  }

  function TopologyOf(c: City): Topology {
    Topology(c.beadsProvider, c.mailProvider, c.hqPrefix, RigPlaces(c.rigs))
  }

  // A bound rig of the current configuration that the next one lacks or unbinds.
  predicate DropsBoundRigs(current: City, next: City) {
    exists i :: 0 <= i < |current.rigs| && current.rigs[i].path != "" &&
      (current.rigs[i].name !in RigPlaces(next.rigs) || RigPlaces(next.rigs)[current.rigs[i].name].path == "")
  }

  ghost predicate BoundRigsServed(c: City, stores: map<string, nat>) {
    forall i :: 0 <= i < |c.rigs| && c.rigs[i].path != "" ==> c.rigs[i].name in stores
  }

  // ---- State --------------------------------------------------------------------

  // The store side of the controller. Handles are pointers, named by number; those from
  // `next` on are not allocated yet.
  datatype Stores = Stores(rigs: map<string, nat>, city: Option<nat>, signature: string, next: nat, closing: multiset<nat>)

  // What happened before: the configuration and revision of the last mutation, the
  // configuration and metadata signature the rig stores were built from, and every handle
  // that was ever installed.
  datatype History = History(mutationCfg: City, mutationRev: string, builtFrom: City, builtSig: string, ever: set<nat>)

  datatype Ctl = Ctl(disk: Disk, cfg: City, pending: bool, pendingRev: string, stores: Stores, past: History)

  function Installed(s: Ctl): set<nat> {
    s.stores.rigs.Values + if s.stores.city.Some? then {s.stores.city.value} else {}
  }

  // How the stores open in one rebuild: which rigs share the legacy file store, whether the
  // city store opens, and the metadata signature on disk at that moment.
  datatype Opening = Opening(legacy: set<string>, cityOpens: bool, signature: string)

  // One handle a bound rig, allocated in order; legacy rigs share the handle `shared`.
  function BuildStores(rigs: seq<Rig>, legacy: set<string>, shared: nat): (r: (map<string, nat>, nat))
    ensures r.1 > shared && forall n :: n in r.0 ==> shared <= r.0[n] < r.1
  {
    if rigs == [] then (map[], shared + 1)
    else
      var rig, (stores, next) := rigs[|rigs| - 1], BuildStores(rigs[..|rigs| - 1], legacy, shared);
      if rig.path == "" then (stores, next)
      else if rig.name in legacy then (stores[rig.name := shared], next)
      else (stores[rig.name := next], next + 1)
  }

  // update: rebuild every store, swap, and schedule what was replaced for closing. A city
  // store that does not open leaves the old one, and the old signature, in place.
  function Update(s: Ctl, cfg: City, o: Opening): Ctl {
    var (stores, n) := BuildStores(cfg.rigs, o.legacy, s.stores.next);
    Swap(s, cfg, o, stores, n)
  }

  function Swap(s: Ctl, cfg: City, o: Opening, rigs: map<string, nat>, n: nat): Ctl {
    s.(cfg := cfg, stores := SwapStores(s.stores, o, rigs, n),
       past := s.past.(builtFrom := cfg, builtSig := o.signature, ever := s.past.ever + rigs.Values + if o.cityOpens then {n} else {}))
  }

  function SwapStores(s: Stores, o: Opening, rigs: map<string, nat>, n: nat): Stores {
    var closing := if o.cityOpens && s.city.Some? then s.closing + multiset{s.city.value} else s.closing;
    Stores(rigs, if o.cityOpens then Some(n) else s.city, if o.cityOpens then o.signature else s.signature,
           n + 1, closing + multiset(s.rigs.Values - rigs.Values))
  }

  predicate CanReuse(s: Ctl, next: City, signature: string) {
    && s.stores.city.Some? && TopologyOf(s.cfg) == TopologyOf(next)
    && (s.stores.signature == "" || s.stores.signature == signature)
    && forall i :: 0 <= i < |next.rigs| && next.rigs[i].path != "" ==> next.rigs[i].name in s.stores.rigs
  }

  function Mutated(s: Ctl, edited: Disk): Ctl
    requires edited.Loaded?
  {
    s.(pending := true, pendingRev := edited.rev, past := s.past.(mutationCfg := edited.cfg, mutationRev := edited.rev))
  }

  function Cleared(s: Ctl): Ctl {
    s.(pending := false, pendingRev := "")
  }

  predicate OnDisk(s: Ctl, rev: string) {
    s.disk.Loaded? && s.disk.rev == rev
  }

  // updateFromRuntime turns a reload away.
  predicate Refuses(s: Ctl, cfg: City, rev: string) {
    if s.pending then
      if s.pendingRev == "" || rev == "" then true
      else if rev == s.pendingRev then DropsBoundRigs(s.cfg, cfg)
      else !OnDisk(s, rev)
    else rev != "" && !OnDisk(s, rev)
  }

  // `loaded` is what the editor left on disk; a failed refresh puts the old files back when
  // `restores` holds.
  datatype Step =
    | Mutate(edited: Disk, editFails: bool, restores: bool, o: Opening)
    | Edit(disk: Disk)
    | Reload(cfg: City, rev: string, o: Opening)
    | RefreshMetadata(cfg: City, o: Opening)

  // The bead-store metadata is not what the stores were recorded under.
  predicate MetadataChanged(s: Ctl, signature: string) {
    s.stores.signature != "" && s.stores.signature != signature
  }

  predicate RefreshSucceeds(d: Disk) {
    d.Loaded? && d.rev != ""
  }

  function Apply(s: Ctl, t: Step): Ctl {
    match t
    case Mutate(edited, editFails, restores, o) =>
      if editFails then s.(disk := edited)
      else if !RefreshSucceeds(edited) then s.(disk := if restores then s.disk else edited)
      else Mutated(Update(s.(disk := edited), edited.cfg, o), edited)
    case Edit(disk) => s.(disk := disk)
    case Reload(cfg, rev, o) =>
      if Refuses(s, cfg, rev) then s
      else if CanReuse(s, cfg, o.signature) then Cleared(s.(cfg := cfg))
      else Cleared(Update(s, cfg, o))
    case RefreshMetadata(cfg, o) => if MetadataChanged(s, o.signature) then Update(s, cfg, o) else s
  }

  function After(s: Ctl, run: seq<Step>): Ctl
    decreases |run|
  {
    if run == [] then s else After(Apply(s, run[0]), run[1..])
  }

  // A freshly constructed controller; its city store may have failed to open.
  ghost predicate Initial(s: Ctl) {
    && !s.pending && s.pendingRev == "" && s.past.builtFrom == s.cfg && s.stores.closing == multiset{}
    && BoundRigsServed(s.cfg, s.stores.rigs) && s.past.ever == Installed(s) && (forall h :: h in s.past.ever ==> h < s.stores.next)
    && (s.stores.city.Some? ==> s.stores.city.value !in s.stores.rigs.Values)
  }

  // ---- The pending-revision handshake -------------------------------------------

  // While a mutation is pending, what is installed is what that mutation installed.
  ghost predicate PendingTrue(s: Ctl) {
    s.pending ==> s.cfg == s.past.mutationCfg && s.pendingRev == s.past.mutationRev && s.pendingRev != ""
  }

  // A metadata refresh is harmless when the metadata is unchanged, nothing is pending, or it
  // re-installs what is there.
  predicate Harmless(s: Ctl, t: Step) {
    t.RefreshMetadata? && MetadataChanged(s, t.o.signature) ==> !s.pending || t.cfg == s.cfg
  }

  /** One step keeps the handshake exactly when it is not a metadata refresh that, finding the
      metadata changed, installs another configuration over a pending one. */
  lemma StepKeepsPending(s: Ctl, t: Step)
    requires PendingTrue(s)
    ensures PendingTrue(Apply(s, t)) <==> Harmless(s, t)
  {
  }

  ghost predicate HarmlessRun(s: Ctl, run: seq<Step>)
    decreases |run|
  {
    run == [] || (Harmless(s, run[0]) && HarmlessRun(Apply(s, run[0]), run[1..]))
  }

  /** Over every run of mutations, failed mutations, edits, reloads and harmless refreshes,
      the installed configuration of a pending mutation is the one it installed. */
  lemma {:induction false} PendingInstalled(s: Ctl, run: seq<Step>)
    requires PendingTrue(s) && HarmlessRun(s, run)
    ensures PendingTrue(After(s, run))
    decreases |run|
  {
    if run != [] {
      StepKeepsPending(s, run[0]);
      PendingInstalled(Apply(s, run[0]), run[1..]);
    }
  }

  /** A refresh whose configuration was loaded before a mutation: if the mutation recorded a
      signature that the older configuration does not have - as when it adds a rig - the refresh
      puts the older configuration back while the mutation is still marked pending. */
  lemma RefreshOverwritesMutation(s: Ctl, edited: Disk, o: Opening, o': Opening)
    requires RefreshSucceeds(edited) && s.cfg != edited.cfg
    requires o.cityOpens && o.signature != "" && o'.signature != o.signature
    ensures var e := After(s, [Mutate(edited, false, true, o), RefreshMetadata(s.cfg, o')]);
            e.pending && e.pendingRev == edited.rev && e.cfg == s.cfg != e.past.mutationCfg
  {
    var s1 := Apply(s, Mutate(edited, false, true, o));
    var run := [Mutate(edited, false, true, o), RefreshMetadata(s.cfg, o')];
    assert run[1..] == [RefreshMetadata(s.cfg, o')];
    assert After(s1, run[1..]) == After(Apply(s1, run[1]), []);
  }

  // ---- Reloads over a run ---------------------------------------------------------

  lemma {:induction false} AfterOneMore(s: Ctl, run: seq<Step>, k: nat)
    requires k < |run|
    ensures After(s, run[..k + 1]) == Apply(After(s, run[..k]), run[k])
    decreases k
  {
    if k == 0 {
      assert run[..1] == [run[0]] && run[..0] == [] && [run[0]][1..] == [];
    } else {
      AfterOneMore(Apply(s, run[0]), run[1..], k - 1);
      assert run[..k + 1][1..] == run[1..][..k] && run[..k][1..] == run[1..][..k - 1];
    }
  }

  predicate Succeeds(t: Step) {
    t.Mutate? && !t.editFails && RefreshSucceeds(t.edited)
  }

  // Step j is a reload that is taken.
  ghost predicate Taken(s: Ctl, run: seq<Step>, j: nat)
    requires j < |run|
  {
    run[j].Reload? && !Refuses(After(s, run[..j]), run[j].cfg, run[j].rev)
  }

  // Step i is the last successful mutation before k, and no reload was taken since.
  ghost predicate Unsettled(s: Ctl, run: seq<Step>, k: nat, i: nat)
    requires k <= |run|
  {
    i < k && Succeeds(run[i]) && forall j :: i < j < k ==> !Succeeds(run[j]) && !Taken(s, run, j)
  }

  // The files after the first k steps, by the steps alone.
  function DiskAt(disk: Disk, run: seq<Step>, k: nat): Disk
    requires k <= |run|
  {
    if k == 0 then disk
    else match run[k - 1]
      case Mutate(edited, editFails, restores, _) =>
        if !editFails && !RefreshSucceeds(edited) && restores then DiskAt(disk, run, k - 1) else edited
      case Edit(d) => d
      case _ => DiskAt(disk, run, k - 1)
  }

  lemma {:induction false} DiskIs(s: Ctl, run: seq<Step>, k: nat)
    requires k <= |run|
    ensures After(s, run[..k]).disk == DiskAt(s.disk, run, k)
  {
    if k > 0 {
      DiskIs(s, run, k - 1);
      AfterOneMore(s, run, k - 1);
    }
  }

  /** What is pending after any number of steps is the last successful mutation of the run that no
      reload has settled. */
  lemma {:induction false} PendingIsUnsettled(s: Ctl, run: seq<Step>, k: nat)
    requires Initial(s) && k <= |run|
    ensures After(s, run[..k]).pending <==> exists i: nat :: Unsettled(s, run, k, i)
    ensures forall i: nat :: Unsettled(s, run, k, i) ==> After(s, run[..k]).pendingRev == run[i].edited.rev != ""
  {
    if k == 0 {
      assert run[..0] == [];
    } else {
      PendingIsUnsettled(s, run, k - 1);
      AfterOneMore(s, run, k - 1);
      StillUnsettled(s, run, k);
      var at, now := After(s, run[..k - 1]), After(s, run[..k]);
      if Succeeds(run[k - 1]) {
        assert Unsettled(s, run, k, k - 1);
      } else if Taken(s, run, k - 1) {
        assert !now.pending;
      } else {
        assert now.pending == at.pending && now.pendingRev == at.pendingRev;
        if at.pending {
          var i: nat :| Unsettled(s, run, k - 1, i);
          assert Unsettled(s, run, k, i);
        }
      }
    }
  }

  // One step more: a successful mutation takes over, a taken reload settles, the rest changes
  // nothing.
  lemma StillUnsettled(s: Ctl, run: seq<Step>, k: nat)
    requires 0 < k <= |run|
    ensures forall i: nat :: Unsettled(s, run, k, i) <==>
              if Succeeds(run[k - 1]) then i == k - 1 else !Taken(s, run, k - 1) && Unsettled(s, run, k - 1, i)
  {
  }

  /** Over every run from a fresh controller: a reload that is taken has the revision of the last
      successful mutation no reload has settled - and then drops no rig bound in what is installed
      - or the revision on disk at that moment; with no such mutation, any revision it has is the
      one on disk. What it brings is installed and nothing stays pending. A refused reload, and a
      mutation that fails, leave the installed configuration, the stores and what is pending as
      they were, and a mutation that cannot be refreshed puts the files back if it can; and the revision on disk is refused only when it is that of the unsettled mutation
      and drops a bound rig. */
  lemma ReloadsOverRuns(s: Ctl, run: seq<Step>, k: nat)
    requires Initial(s) && k < |run|
    ensures var at, next := After(s, run[..k]), After(s, run[..k + 1]);
            var disk := DiskAt(s.disk, run, k);
            && (Taken(s, run, k) ==>
                  && next.cfg == run[k].cfg && !next.pending
                  && (forall i: nat :: Unsettled(s, run, k, i) ==>
                        (run[k].rev == run[i].edited.rev && !DropsBoundRigs(at.cfg, run[k].cfg)) || (disk.Loaded? && disk.rev == run[k].rev))
                  && ((forall i: nat :: !Unsettled(s, run, k, i)) && run[k].rev != "" ==> disk.Loaded? && disk.rev == run[k].rev))
            && (run[k].Reload? && !Taken(s, run, k) ==> next == at)
            && (run[k].Reload? && !Taken(s, run, k) && run[k].rev != "" && disk.Loaded? && disk.rev == run[k].rev ==>
                  DropsBoundRigs(at.cfg, run[k].cfg) && exists i: nat :: Unsettled(s, run, k, i) && run[i].edited.rev == run[k].rev)
            && (run[k].Mutate? && !Succeeds(run[k]) ==>
                  next == at.(disk := next.disk) && (!run[k].editFails && run[k].restores ==> next.disk == at.disk))
            && next.disk == DiskAt(s.disk, run, k + 1)
  {
    PendingIsUnsettled(s, run, k);
    DiskIs(s, run, k);
    DiskIs(s, run, k + 1);
    AfterOneMore(s, run, k);
  }

  /** And while the refreshes are harmless, the configuration of the last unsettled mutation is the
      one installed. */
  lemma UnsettledInstalled(s: Ctl, run: seq<Step>, k: nat, i: nat)
    requires Initial(s) && k <= |run| && HarmlessRun(s, run[..k]) && Unsettled(s, run, k, i)
    ensures After(s, run[..k]).cfg == run[i].edited.cfg
  {
    InitialSound(s);
    PendingIsUnsettled(s, run, k);
    PendingInstalled(s, run[..k]);
    MutationIs(s, run, k, i);
  }

  lemma {:induction false} MutationIs(s: Ctl, run: seq<Step>, k: nat, i: nat)
    requires k <= |run| && Unsettled(s, run, k, i)
    ensures After(s, run[..k]).past.mutationCfg == run[i].edited.cfg
  {
    AfterOneMore(s, run, k - 1);
    if i < k - 1 {
      assert Unsettled(s, run, k - 1, i);
      MutationIs(s, run, k - 1, i);
    }
  }

  // ---- Stores and handles -------------------------------------------------------

  // The stores belong to the installed configuration; every handle ever installed is either
  // installed still or scheduled for closing, never both, and scheduled at most once.
  ghost predicate StoresSound(s: Ctl) {
    && TopologyOf(s.past.builtFrom) == TopologyOf(s.cfg)
    && BoundRigsServed(s.cfg, s.stores.rigs)
    && (s.stores.city.Some? ==> s.stores.city.value !in s.stores.rigs.Values)
    && forall h: nat :: HandleSound(s, h)
  }

  ghost predicate HandleSound(s: Ctl, h: nat) {
    && (h in s.past.ever ==> h < s.stores.next)
    && (h in s.past.ever <==> h in Installed(s) || h in s.stores.closing)
    && (h in Installed(s) ==> h !in s.stores.closing)
    && s.stores.closing[h] <= 1
  }

  lemma {:induction false} BuiltStoresServe(rigs: seq<Rig>, legacy: set<string>, shared: nat)
    ensures forall i :: 0 <= i < |rigs| && rigs[i].path != "" ==> rigs[i].name in BuildStores(rigs, legacy, shared).0
    decreases |rigs|
  {
    if rigs != [] {
      BuiltStoresServe(rigs[..|rigs| - 1], legacy, shared);
    }
  }

  lemma UpdateSound(s: Ctl, cfg: City, o: Opening)
    requires StoresSound(s)
    ensures StoresSound(Update(s, cfg, o))
  {
    BuiltStoresServe(cfg.rigs, o.legacy, s.stores.next);
    var (stores, n) := BuildStores(cfg.rigs, o.legacy, s.stores.next);
    SwapSound(s, cfg, o, stores, n);
  }

  // Installing handles that were never installed before, and scheduling what they replace.
  lemma SwapSound(s: Ctl, cfg: City, o: Opening, stores: map<string, nat>, n: nat)
    requires StoresSound(s) && BoundRigsServed(cfg, stores)
    requires n >= s.stores.next && forall name :: name in stores ==> s.stores.next <= stores[name] < n
    ensures StoresSound(Swap(s, cfg, o, stores, n))
  {
    var e := Swap(s, cfg, o, stores, n);
    assert forall h :: h in stores.Values ==> s.stores.next <= h < n;
    assert s.stores.city.Some? ==> HandleSound(s, s.stores.city.value);
    forall h: nat
      ensures HandleSound(e, h)
    {
      assert HandleSound(s, h);
      HandleSwapped(s, e, stores.Values, if o.cityOpens then Some(n) else None, h);
    }
  }

  lemma HandleSwapped(s: Ctl, e: Ctl, rigs: set<nat>, city: Option<nat>, h: nat)
    requires HandleSound(s, h) && s.stores.next <= e.stores.next
    requires s.stores.city.Some? ==> s.stores.city.value !in s.stores.rigs.Values
    requires h in rigs ==> s.stores.next <= h < e.stores.next
    requires city == Some(h) ==> s.stores.next <= h < e.stores.next && h !in rigs
    requires e.stores.rigs.Values == rigs && e.stores.city == (if city.Some? then city else s.stores.city)
    requires e.stores.closing == (if city.Some? && s.stores.city.Some? then s.stores.closing + multiset{s.stores.city.value} else s.stores.closing)
                          + multiset(s.stores.rigs.Values - rigs)
    requires e.past.ever == s.past.ever + rigs + (if city.Some? then {city.value} else {})
    ensures HandleSound(e, h)
  {
  }

  // Only the configuration, the stores and their history matter.
  lemma OtherFields(s: Ctl, e: Ctl)
    requires StoresSound(s)
    requires e.stores == s.stores && e.past.builtFrom == s.past.builtFrom && e.past.ever == s.past.ever
    requires TopologyOf(e.cfg) == TopologyOf(s.cfg) && BoundRigsServed(e.cfg, s.stores.rigs)
    ensures StoresSound(e)
  {
    assert Installed(e) == Installed(s);
    assert forall h: nat :: HandleSound(s, h) ==> HandleSound(e, h);
  }

  lemma StepSound(s: Ctl, t: Step)
    requires StoresSound(s)
    ensures StoresSound(Apply(s, t))
  {
    match t
    case Mutate(edited, editFails, _, o) =>
      if editFails || !RefreshSucceeds(edited) {
        OtherFields(s, Apply(s, t));
      } else {
        OtherFields(s, s.(disk := edited));
        var u := Update(s.(disk := edited), edited.cfg, o);
        UpdateSound(s.(disk := edited), edited.cfg, o);
        OtherFields(u, Apply(s, t));
      }
    case Edit(d) => OtherFields(s, s.(disk := d));
    case Reload(cfg, rev, o) =>
      if !Refuses(s, cfg, rev) {
        UpdateSound(s, cfg, o);
        OtherFields(if CanReuse(s, cfg, o.signature) then s else Update(s, cfg, o), Apply(s, t));
      }
    case RefreshMetadata(cfg, o) => UpdateSound(s, cfg, o);
  }

  /** At every point of every run the rig stores were built for the installed topology, every
      bound rig has one, no installed handle is scheduled for closing, and each replaced
      handle is scheduled exactly once. */
  lemma {:induction false} StoresSoundAlways(s: Ctl, run: seq<Step>)
    requires StoresSound(s)
    ensures StoresSound(After(s, run))
    decreases |run|
  {
    if run != [] {
      StepSound(s, run[0]);
      StoresSoundAlways(Apply(s, run[0]), run[1..]);
    }
  }

  lemma InitialSound(s: Ctl)
    requires Initial(s)
    ensures StoresSound(s) && PendingTrue(s)
  {
  }

  // The recorded signature is the one the installed rig stores were built under.
  ghost predicate SignatureTrue(s: Ctl) {
    s.stores.signature == s.past.builtSig
  }

  /** It is, after a rebuild, exactly when the city store reopened - or the signature had not
      changed anyway. Otherwise a later reload may reuse stores built under metadata that is no
      longer the recorded one. */
  lemma RebuildSignature(s: Ctl, cfg: City, o: Opening)
    ensures SignatureTrue(Update(s, cfg, o)) <==> o.cityOpens || s.stores.signature == o.signature
  {
  }

  /** A reload that reuses the stores finds them built for its own topology, with a store for
      every rig it binds and, where the recorded signature is true, from the same metadata. */
  lemma ReuseSound(s: Ctl, cfg: City, o: Opening)
    requires StoresSound(s) && CanReuse(s, cfg, o.signature)
    ensures TopologyOf(s.past.builtFrom) == TopologyOf(cfg) && BoundRigsServed(cfg, s.stores.rigs)
    ensures SignatureTrue(s) && s.stores.signature != "" ==> s.past.builtSig == o.signature
  {
  }
}
