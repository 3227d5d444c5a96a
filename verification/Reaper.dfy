/** Removing the worktrees of closed beads: every gate fails towards keeping the tree. */
module Reaper {
  import opened Paths
  import opened Text

  // A git probe's answer.
  datatype Answer = Yes | No | Unknown

  // A worktree git lists, with what each probe of it would say. `removes` is whether removing it
  // would succeed.
  datatype Tree = Tree(path: string, base: string, bead: Option<string>, age: Option<int>,
                       uncommitted: bool, unreachable: Answer, stashes: Answer, removes: bool)

  // A row of the borrow scan: the directories its metadata names, "" when it names none.
  datatype Row = Row(id: string, terminal: bool, workDir: string, legacyDir: string)

  // A rig: its worktrees, its closed beads, and the rows of its store unless listing them fails.
  datatype Rig = Rig(dir: Path, trees: seq<Tree>, closed: set<string>, rows: Option<seq<Row>>)

  // The host. `norm` resolves a path for comparison; only the empty path resolves to nothing.
  // `cwds` is absent when processes could not be scanned.
  datatype Host = Host(norm: string -> Option<Path>, root: Path, homes: set<string>, minAge: int,
                       cwds: Option<seq<Path>>, sessionDirs: seq<string>)

  ghost predicate ValidHost(h: Host) {
    && (forall s :: h.norm(s).Some? <==> s != "")
    && (forall s :: h.norm(s).Some? ==> Clean(h.norm(s).value))
    && (h.cwds.Some? ==> forall i :: 0 <= i < |h.cwds.value| ==> Clean(h.cwds.value[i]))
    && Clean(h.root)
  }

  datatype Reason =
    | AgeUnknown | TooYoung | ScanFailed | Borrowed(ids: seq<string>)
    | LivenessUnknown | InUse | ProbeFailed | UnsafeGit

  // ---- Liveness ------------------------------------------------------------------

  // Something works at or below the path.
  ghost predicate Busy(h: Host, path: string) {
    && h.norm(path).Some? && h.cwds.Some?
    && var wt := h.norm(path).value;
       || (exists i :: 0 <= i < |h.cwds.value| && wt <= h.cwds.value[i])
       || (exists i :: 0 <= i < |h.sessionDirs| && h.norm(h.sessionDirs[i]).Some? && wt <= h.norm(h.sessionDirs[i]).value)
  }

  // A process works there.
  method ProcessIn(wt: Path, cwds: seq<Path>) returns (found: bool)
    requires Clean(wt) && forall i :: 0 <= i < |cwds| ==> Clean(cwds[i])
    ensures found <==> exists i :: 0 <= i < |cwds| && wt <= cwds[i]
  {
    for i := 0 to |cwds|
      invariant forall j :: 0 <= j < i ==> !(wt <= cwds[j])
    {
      AtOrUnderIsPrefix(wt, cwds[i]);
      if AtOrUnder(wt, cwds[i]) {
        return true;
      }
    }
    return false;
  }

  /** Live exactly when a process or a session directory sits at or beneath the worktree. */
  method WorktreeIsLive(h: Host, path: string) returns (live: bool)
    requires ValidHost(h) && h.cwds.Some?
    ensures live <==> Busy(h, path)
  {
    if h.norm(path).None? {
      return false;
    }
    var wt := h.norm(path).value;
    live := ProcessIn(wt, h.cwds.value);
    if live {
      return;
    }
    for i := 0 to |h.sessionDirs|
      invariant forall j :: 0 <= j < i && h.norm(h.sessionDirs[j]).Some? ==> !(wt <= h.norm(h.sessionDirs[j]).value)
    {
      var d := h.norm(h.sessionDirs[i]);
      if d.None? {
        continue;
      }
      AtOrUnderIsPrefix(wt, d.value);
      if AtOrUnder(wt, d.value) {
        return true;
      }
    }
  }

  // ---- The borrow scan -------------------------------------------------------------

  // The candidate a normalised path stands for: the last one, when several normalise alike.
  function Owner(h: Host, candidates: seq<Tree>, p: Option<Path>): (o: Option<string>)
    ensures o.Some? ==> exists i :: 0 <= i < |candidates| && candidates[i].path == o.value && h.norm(o.value) == p
    ensures o.None? ==> forall i :: 0 <= i < |candidates| ==> h.norm(candidates[i].path) != p
  {
    if candidates == [] then None
    else
      var last := candidates[|candidates| - 1];
      if h.norm(last.path) == p then Some(last.path)
      else
        var o := Owner(h, candidates[..|candidates| - 1], p);
        o
  }

  // The candidate a directory name points at, if any.
  function Points(h: Host, candidates: seq<Tree>, dir: string): Option<string> {
    if dir == "" then None else Owner(h, candidates, h.norm(dir))
  }

  // The one candidate a row vetoes: its first directory that points at any.
  function Vetoes(h: Host, candidates: seq<Tree>, r: Row): Option<string> {
    if r.terminal then None
    else if Points(h, candidates, r.workDir).Some? then Points(h, candidates, r.workDir)
    else Points(h, candidates, r.legacyDir)
  }

  // The rows that veto a path, in order.
  function Borrowers(h: Host, candidates: seq<Tree>, rows: seq<Row>, path: string): seq<string> {
    if rows == [] then []
    else
      var r := rows[|rows| - 1];
      Borrowers(h, candidates, rows[..|rows| - 1], path)
      + if Vetoes(h, candidates, r) == Some(path) then [r.id] else []
  }

  function At(refs: map<string, seq<string>>, path: string): seq<string> {
    if path in refs then refs[path] else []
  }

  // The candidates by normalised path, the last of several that normalise alike.
  method IndexByNorm(h: Host, candidates: seq<Tree>) returns (byNorm: map<Option<Path>, string>)
    ensures forall p :: Owner(h, candidates, p) == if p in byNorm then Some(byNorm[p]) else None
  {
    byNorm := map[];
    for i := 0 to |candidates|
      invariant forall p :: Owner(h, candidates[..i], p) == if p in byNorm then Some(byNorm[p]) else None
    {
      assert candidates[..i + 1][..i] == candidates[..i];
      byNorm := byNorm[h.norm(candidates[i].path) := candidates[i].path];
    }
    assert candidates[..|candidates|] == candidates;
  }

  // The candidate a row vetoes, looked up in the index.
  method VetoOf(h: Host, byNorm: map<Option<Path>, string>, r: Row, ghost candidates: seq<Tree>) returns (raw: Option<string>)
    requires forall p :: Owner(h, candidates, p) == if p in byNorm then Some(byNorm[p]) else None
    ensures raw == Vetoes(h, candidates, r)
  {
    if r.terminal {
      return None;
    }
    if r.workDir != "" && h.norm(r.workDir) in byNorm {
      return Some(byNorm[h.norm(r.workDir)]);
    }
    if r.legacyDir != "" && h.norm(r.legacyDir) in byNorm {
      return Some(byNorm[h.norm(r.legacyDir)]);
    }
    return None;
  }

  ghost predicate Scanned(h: Host, candidates: seq<Tree>, rows: seq<Row>, refs: map<string, seq<string>>) {
    forall path :: At(refs, path) == Borrowers(h, candidates, rows, path)
  }

  lemma OneMoreRow(h: Host, candidates: seq<Tree>, rows: seq<Row>, i: nat, refs: map<string, seq<string>>)
    requires i < |rows| && Scanned(h, candidates, rows[..i], refs)
    ensures var raw := Vetoes(h, candidates, rows[i]);
            Scanned(h, candidates, rows[..i + 1], if raw.None? then refs else refs[raw.value := At(refs, raw.value) + [rows[i].id]])
  {
    assert rows[..i + 1][..i] == rows[..i];
    var raw := Vetoes(h, candidates, rows[i]);
    var refs' := if raw.None? then refs else refs[raw.value := At(refs, raw.value) + [rows[i].id]];
    forall path
      ensures At(refs', path) == Borrowers(h, candidates, rows[..i + 1], path)
    {
      assert At(refs, path) == Borrowers(h, candidates, rows[..i], path);
    }
  }

  /** The batched scan: for every candidate path, the rows that veto it, in order. */
  method ScanBorrows(h: Host, rows: seq<Row>, candidates: seq<Tree>) returns (refs: map<string, seq<string>>)
    ensures Scanned(h, candidates, rows, refs)
  {
    var byNorm := IndexByNorm(h, candidates);
    refs := map[];
    for i := 0 to |rows|
      invariant Scanned(h, candidates, rows[..i], refs)
    {
      OneMoreRow(h, candidates, rows, i, refs);
      var raw := VetoOf(h, byNorm, rows[i], candidates);
      if raw.Some? {
        refs := refs[raw.value := At(refs, raw.value) + [rows[i].id]];
      }
    }
    assert rows[..|rows|] == rows;
  }

  // ---- What the scan is for ----------------------------------------------------------

  // A live row's metadata still names the tree, in whatever spelling.
  ghost predicate References(h: Host, r: Row, t: Tree) {
    && !r.terminal
    && ((r.workDir != "" && h.norm(r.workDir) == h.norm(t.path))
        || (r.legacyDir != "" && h.norm(r.legacyDir) == h.norm(t.path)))
  }

  ghost predicate Apart(h: Host, candidates: seq<Tree>) {
    forall i, j :: 0 <= i < j < |candidates| ==> h.norm(candidates[i].path) != h.norm(candidates[j].path)
  }

  // A row whose two directories point at two different candidates.
  ghost predicate Straddles(h: Host, candidates: seq<Tree>, r: Row) {
    && !r.terminal
    && Points(h, candidates, r.workDir).Some? && Points(h, candidates, r.legacyDir).Some?
    && Points(h, candidates, r.workDir) != Points(h, candidates, r.legacyDir)
  }

  lemma OwnerIs(h: Host, candidates: seq<Tree>, i: nat)
    requires Apart(h, candidates) && i < |candidates|
    ensures Owner(h, candidates, h.norm(candidates[i].path)) == Some(candidates[i].path)
  {
    var o := Owner(h, candidates, h.norm(candidates[i].path));
    assert o.Some?;
    var j :| 0 <= j < |candidates| && candidates[j].path == o.value && h.norm(o.value) == h.norm(candidates[i].path);
    assert j == i;
  }

  /** A row that names one candidate vetoes it; one that names two vetoes only the first, so the
      scan sees every reference exactly when no row straddles two candidates. */
  lemma VetoExact(h: Host, candidates: seq<Tree>, r: Row)
    requires Apart(h, candidates)
    ensures (forall i :: 0 <= i < |candidates| && References(h, r, candidates[i]) ==> Vetoes(h, candidates, r) == Some(candidates[i].path))
            <==> !Straddles(h, candidates, r)
  {
    forall i | 0 <= i < |candidates|
      ensures Owner(h, candidates, h.norm(candidates[i].path)) == Some(candidates[i].path)
    {
      OwnerIs(h, candidates, i);
    }
    if Straddles(h, candidates, r) {
      var second := Points(h, candidates, r.legacyDir).value;
      var i :| 0 <= i < |candidates| && candidates[i].path == second && h.norm(second) == h.norm(r.legacyDir);
      assert References(h, r, candidates[i]) && Vetoes(h, candidates, r) != Some(candidates[i].path);
    }
  }

  lemma {:induction false} BorrowersNonEmpty(h: Host, candidates: seq<Tree>, rows: seq<Row>, path: string)
    ensures Borrowers(h, candidates, rows, path) != [] <==> exists k :: 0 <= k < |rows| && Vetoes(h, candidates, rows[k]) == Some(path)
  {
    if rows != [] {
      var front := rows[..|rows| - 1];
      BorrowersNonEmpty(h, candidates, front, path);
      assert forall k :: 0 <= k < |front| ==> front[k] == rows[k];
    }
  }

  ghost predicate Referenced(h: Host, rows: seq<Row>, t: Tree) {
    exists k :: 0 <= k < |rows| && References(h, rows[k], t)
  }

  /** With a straddling row alone in the listing, the scan misses a reference. */
  lemma StraddlerMissed(h: Host, candidates: seq<Tree>, r: Row) returns (i: nat)
    requires Apart(h, candidates) && Straddles(h, candidates, r)
    ensures i < |candidates| && Referenced(h, [r], candidates[i]) && Borrowers(h, candidates, [r], candidates[i].path) == []
  {
    VetoExact(h, candidates, r);
    i :| 0 <= i < |candidates| && References(h, r, candidates[i]) && Vetoes(h, candidates, r) != Some(candidates[i].path);
    assert References(h, [r][0], candidates[i]);
    BorrowersNonEmpty(h, candidates, [r], candidates[i].path);
  }

  // A live row's first directory points at another candidate.
  ghost predicate NamesOtherFirst(h: Host, candidates: seq<Tree>, r: Row, t: Tree) {
    Points(h, candidates, r.workDir).Some? && Points(h, candidates, r.workDir) != Some(t.path)
  }

  // Another candidate of the same normal form takes the tree's place in the index.
  ghost predicate Shadowed(h: Host, candidates: seq<Tree>, t: Tree) {
    Owner(h, candidates, h.norm(t.path)) != Some(t.path)
  }

  // No live row's word for the tree is heard.
  ghost predicate Unheard(h: Host, candidates: seq<Tree>, rows: seq<Row>, t: Tree) {
    Shadowed(h, candidates, t) || forall k :: 0 <= k < |rows| && References(h, rows[k], t) ==> NamesOtherFirst(h, candidates, rows[k], t)
  }

  // A row vetoes a candidate it names, unless it names another first or the index has lost it.
  lemma VetoesExactly(h: Host, candidates: seq<Tree>, r: Row, i: nat)
    requires i < |candidates|
    ensures Vetoes(h, candidates, r) == Some(candidates[i].path) <==>
              References(h, r, candidates[i]) && !NamesOtherFirst(h, candidates, r, candidates[i]) && !Shadowed(h, candidates, candidates[i])
  {
  }

  /** A whole listing of rows, and any candidates: a candidate has no borrower exactly when every
      live row that names it names another candidate first, or a later candidate normalises to the
      same path. */
  lemma MissedExactly(h: Host, candidates: seq<Tree>, rows: seq<Row>, i: nat)
    requires i < |candidates|
    ensures Borrowers(h, candidates, rows, candidates[i].path) == [] <==> Unheard(h, candidates, rows, candidates[i])
  {
    BorrowersNonEmpty(h, candidates, rows, candidates[i].path);
    forall k | 0 <= k < |rows|
      ensures Vetoes(h, candidates, rows[k]) == Some(candidates[i].path) <==>
                References(h, rows[k], candidates[i]) && !NamesOtherFirst(h, candidates, rows[k], candidates[i]) && !Shadowed(h, candidates, candidates[i])
    {
      VetoesExactly(h, candidates, rows[k], i);
    }
  }

  // A row that names a candidate second, after another one.
  lemma OtherFirstStraddles(h: Host, candidates: seq<Tree>, r: Row, i: nat)
    requires Apart(h, candidates) && i < |candidates| && References(h, r, candidates[i]) && !Straddles(h, candidates, r)
    ensures !NamesOtherFirst(h, candidates, r, candidates[i])
  {
    OwnerIs(h, candidates, i);
  }

  /** Without straddling rows the scan is exact: a candidate has borrowers if and only if some
      non-terminal row still names its path. */
  lemma BorrowScanExact(h: Host, candidates: seq<Tree>, rows: seq<Row>, i: nat)
    requires Apart(h, candidates) && i < |candidates|
    requires forall k :: 0 <= k < |rows| ==> !Straddles(h, candidates, rows[k])
    ensures Unheard(h, candidates, rows, candidates[i]) <==> !Referenced(h, rows, candidates[i])
    ensures Borrowers(h, candidates, rows, candidates[i].path) != [] <==> Referenced(h, rows, candidates[i])
  {
    MissedExactly(h, candidates, rows, i);
    OwnerIs(h, candidates, i);
    forall k | 0 <= k < |rows| && References(h, rows[k], candidates[i])
      ensures !NamesOtherFirst(h, candidates, rows[k], candidates[i])
    {
      OtherFirstStraddles(h, candidates, rows[k], i);
    }
  }

  // ---- The two passes ------------------------------------------------------------------

  predicate InScope(h: Host, rig: Rig, t: Tree) {
    var p := h.norm(t.path);
    && p.Some? && AtOrUnder(rig.dir, p.value) && p.value != rig.dir && StrictlyUnder(h.root, p.value)
    && t.base !in h.homes && t.bead.Some?
  }

  // What the first pass makes of a tree: nothing, a candidate, or protected for its age.
  datatype Sorted = Ignored | Candidate | Young(reason: Reason)

  function Sort(h: Host, rig: Rig, t: Tree): Sorted {
    if !InScope(h, rig, t) || t.bead.value !in rig.closed then Ignored
    else if t.age.None? then Young(AgeUnknown)
    else if h.minAge > 0 && t.age.value < h.minAge then Young(TooYoung)
    else Candidate
  }

  function Candidates(h: Host, rig: Rig, trees: seq<Tree>): seq<Tree> {
    if trees == [] then []
    else
      var t := trees[|trees| - 1];
      Candidates(h, rig, trees[..|trees| - 1]) + if Sort(h, rig, t).Candidate? then [t] else []
  }

  datatype Kept = Kept(tree: Tree, reason: Reason)

  function TooSoon(h: Host, rig: Rig, trees: seq<Tree>): seq<Kept> {
    if trees == [] then []
    else
      var t := trees[|trees| - 1];
      TooSoon(h, rig, trees[..|trees| - 1]) + if Sort(h, rig, t).Young? then [Kept(t, Sort(h, rig, t).reason)] else []
  }

  // The git gate.
  function GitGate(t: Tree): Option<Reason> {
    if t.unreachable.Unknown? || t.stashes.Unknown? then Some(ProbeFailed)
    else if t.uncommitted || t.unreachable.Yes? || t.stashes.Yes? then Some(UnsafeGit)
    else None
  }

  // What keeps a candidate, if anything.
  ghost function Gate(h: Host, rig: Rig, candidates: seq<Tree>, t: Tree): Option<Reason> {
    if rig.rows.None? then Some(ScanFailed)
    else if Borrowers(h, candidates, rig.rows.value, t.path) != [] then Some(Borrowed(Borrowers(h, candidates, rig.rows.value, t.path)))
    else if h.cwds.None? then Some(LivenessUnknown)
    else if Busy(h, t.path) then Some(InUse)
    else GitGate(t)
  }

  datatype Report = Report(reaped: seq<Tree>, protected: seq<Kept>)

  function Plus(a: Report, b: Report): Report {
    Report(a.reaped + b.reaped, a.protected + b.protected)
  }

  ghost function Judged(h: Host, rig: Rig, all: seq<Tree>, candidates: seq<Tree>, dry: bool): Report {
    if candidates == [] then Report([], [])
    else
      var t := candidates[|candidates| - 1];
      var g := Gate(h, rig, all, t);
      Plus(Judged(h, rig, all, candidates[..|candidates| - 1], dry),
           if g.Some? then Report([], [Kept(t, g.value)])
           else if dry || t.removes then Report([t], [])
           else Report([], []))
  }

  ghost function Outcome(h: Host, rig: Rig, dry: bool): Report {
    var candidates := Candidates(h, rig, rig.trees);
    Plus(Report([], TooSoon(h, rig, rig.trees)), Judged(h, rig, candidates, candidates, dry))
  }

  method SortOne(h: Host, rig: Rig, t: Tree) returns (s: Sorted)
    ensures s == Sort(h, rig, t)
  {
    if !InScope(h, rig, t) || t.bead.value !in rig.closed {
      return Ignored;
    }
    if t.age.None? {
      return Young(AgeUnknown);
    }
    if h.minAge > 0 && t.age.value < h.minAge {
      return Young(TooYoung);
    }
    return Candidate;
  }

  lemma OneMoreTree(h: Host, rig: Rig, trees: seq<Tree>, i: nat, s: Sorted)
    requires i < |trees| && s == Sort(h, rig, trees[i])
    ensures Candidates(h, rig, trees[..i + 1]) == Candidates(h, rig, trees[..i]) + if s.Candidate? then [trees[i]] else []
    ensures TooSoon(h, rig, trees[..i + 1]) == TooSoon(h, rig, trees[..i]) + if s.Young? then [Kept(trees[i], s.reason)] else []
  {
    assert trees[..i + 1][..i] == trees[..i];
  }

  // The first pass.
  method SortTrees(h: Host, rig: Rig) returns (candidates: seq<Tree>, protected: seq<Kept>)
    ensures candidates == Candidates(h, rig, rig.trees) && protected == TooSoon(h, rig, rig.trees)
  {
    candidates, protected := [], [];
    for i := 0 to |rig.trees|
      invariant candidates == Candidates(h, rig, rig.trees[..i]) && protected == TooSoon(h, rig, rig.trees[..i])
    {
      var s := SortOne(h, rig, rig.trees[i]);
      OneMoreTree(h, rig, rig.trees, i, s);
      match s {
        case Ignored =>
        case Young(reason) => protected := protected + [Kept(rig.trees[i], reason)];
        case Candidate => candidates := candidates + [rig.trees[i]];
      }
    }
    assert rig.trees[..|rig.trees|] == rig.trees;
  }

  // The liveness of every tree git lists, computed once; unknown when processes were not scanned.
  method Discover(h: Host, trees: seq<Tree>) returns (live: map<string, bool>)
    requires ValidHost(h)
    ensures forall t :: t in trees ==> t.path in live
    ensures forall path :: path in live && h.cwds.Some? ==> (live[path] <==> Busy(h, path))
  {
    live := map[];
    for i := 0 to |trees|
      invariant forall j :: 0 <= j < i ==> trees[j].path in live
      invariant forall path :: path in live && h.cwds.Some? ==> (live[path] <==> Busy(h, path))
    {
      var busy := false;
      if h.cwds.Some? {
        busy := WorktreeIsLive(h, trees[i].path);
      }
      live := live[trees[i].path := busy];
    }
  }

  method GateOf(h: Host, rig: Rig, refs: map<string, seq<string>>, live: map<string, bool>, t: Tree, ghost candidates: seq<Tree>) returns (g: Option<Reason>)
    requires rig.rows.Some? && Scanned(h, candidates, rig.rows.value, refs)
    requires t.path in live && (h.cwds.Some? ==> (live[t.path] <==> Busy(h, t.path)))
    ensures g == Gate(h, rig, candidates, t)
  {
    if At(refs, t.path) != [] {
      return Some(Borrowed(At(refs, t.path)));
    }
    if h.cwds.None? {
      return Some(LivenessUnknown);
    }
    if live[t.path] {
      return Some(InUse);
    }
    return GitGate(t);
  }

  // The worktrees on disk.
  class Disk {
    var paths: set<string>

    method Remove(t: Tree) returns (ok: bool)
      modifies this
      ensures ok == t.removes && paths == if ok then old(paths) - {t.path} else old(paths)
    {
      if t.removes {
        paths := paths - {t.path};
      }
      return t.removes;
    }
  }

  ghost function PathsOf(trees: seq<Tree>): set<string> {
    set i | 0 <= i < |trees| :: trees[i].path
  }

  lemma OneMoreJudged(h: Host, rig: Rig, all: seq<Tree>, candidates: seq<Tree>, i: nat, dry: bool)
    requires i < |candidates|
    ensures var g, t := Gate(h, rig, all, candidates[i]), candidates[i];
            Judged(h, rig, all, candidates[..i + 1], dry) ==
            Plus(Judged(h, rig, all, candidates[..i], dry),
                 if g.Some? then Report([], [Kept(t, g.value)]) else if dry || t.removes then Report([t], []) else Report([], []))
  {
    assert candidates[..i + 1][..i] == candidates[..i];
  }

  lemma PathsPlus(a: seq<Tree>, t: Tree)
    ensures PathsOf(a + [t]) == PathsOf(a) + {t.path}
  {
    assert (a + [t])[|a|] == t;
    assert forall i :: 0 <= i < |a| ==> (a + [t])[i] == a[i];
  }

  // The second pass.
  method JudgeAll(h: Host, rig: Rig, dry: bool, disk: Disk, refs: map<string, seq<string>>, live: map<string, bool>, candidates: seq<Tree>)
    returns (report: Report)
    requires rig.rows.Some? && Scanned(h, candidates, rig.rows.value, refs)
    requires forall t :: t in candidates ==> t.path in live && (h.cwds.Some? ==> (live[t.path] <==> Busy(h, t.path)))
    modifies disk
    ensures report == Judged(h, rig, candidates, candidates, dry)
    ensures disk.paths == if dry then old(disk.paths) else old(disk.paths) - PathsOf(report.reaped)
  {
    report := Report([], []);
    for i := 0 to |candidates|
      invariant report == Judged(h, rig, candidates, candidates[..i], dry)
      invariant disk.paths == if dry then old(disk.paths) else old(disk.paths) - PathsOf(report.reaped)
    {
      OneMoreJudged(h, rig, candidates, candidates, i, dry);
      var t := candidates[i];
      var g := GateOf(h, rig, refs, live, t, candidates);
      assert report.reaped + [] == report.reaped;
      if g.Some? {
        report := Plus(report, Report([], [Kept(t, g.value)]));
        continue;
      }
      var gone := true;
      if !dry {
        gone := disk.Remove(t);
      }
      PathsPlus(report.reaped, t);
      report := Plus(report, if gone then Report([t], []) else Report([], []));
    }
    assert candidates[..|candidates|] == candidates;
  }

  /** One rig's sweep. A dry run touches nothing; a real run removes exactly what it reports as
      reaped. */
  method ReapRig(h: Host, rig: Rig, dry: bool, disk: Disk) returns (report: Report)
    requires ValidHost(h)
    modifies disk
    ensures report == Outcome(h, rig, dry)
    ensures disk.paths == if dry then old(disk.paths) else old(disk.paths) - PathsOf(report.reaped)
  {
    var live := Discover(h, rig.trees);
    var candidates, young := SortTrees(h, rig);
    CandidatesIn(h, rig, rig.trees);
    var judged: Report;
    if rig.rows.None? {
      judged := ProtectAll(h, rig, candidates, dry);
    } else {
      var refs := ScanBorrows(h, rig.rows.value, candidates);
      judged := JudgeAll(h, rig, dry, disk, refs, live, candidates);
    }
    report := Plus(Report([], young), judged);
    assert report.reaped == judged.reaped;
  }

  // A failed borrow scan protects every candidate.
  method ProtectAll(h: Host, rig: Rig, candidates: seq<Tree>, dry: bool) returns (report: Report)
    requires rig.rows.None?
    ensures report == Judged(h, rig, candidates, candidates, dry) && report.reaped == []
  {
    report := Report([], []);
    for i := 0 to |candidates|
      invariant report == Judged(h, rig, candidates, candidates[..i], dry) && report.reaped == []
    {
      OneMoreJudged(h, rig, candidates, candidates, i, dry);
      report := Report([], report.protected + [Kept(candidates[i], ScanFailed)]);
    }
    assert candidates[..|candidates|] == candidates;
  }

  lemma {:induction false} CandidatesIn(h: Host, rig: Rig, trees: seq<Tree>)
    ensures forall t :: t in Candidates(h, rig, trees) <==> t in trees && Sort(h, rig, t).Candidate?
  {
    if trees != [] {
      CandidatesIn(h, rig, trees[..|trees| - 1]);
      assert trees == trees[..|trees| - 1] + [trees[|trees| - 1]];
    }
  }

  // ---- What a sweep promises -------------------------------------------------------------

  lemma {:induction false} JudgedReaped(h: Host, rig: Rig, all: seq<Tree>, candidates: seq<Tree>, dry: bool, t: Tree)
    ensures t in Judged(h, rig, all, candidates, dry).reaped <==>
              t in candidates && Gate(h, rig, all, t).None? && (dry || t.removes)
  {
    if candidates != [] {
      JudgedReaped(h, rig, all, candidates[..|candidates| - 1], dry, t);
      assert candidates == candidates[..|candidates| - 1] + [candidates[|candidates| - 1]];
    }
  }

  // The tree lies inside the rig's and the city's worktree directories, just below the latter
  // under a name that does not begin with two dots, and names a bead and no agent home.
  ghost predicate Located(h: Host, rig: Rig, t: Tree) {
    && h.norm(t.path).Some? && rig.dir < h.norm(t.path).value && h.root < h.norm(t.path).value
    && !HasPrefix(h.norm(t.path).value[|h.root|], "..")
    && t.base !in h.homes && t.bead.Some?
  }

  ghost predicate CleanPaths(h: Host, rig: Rig, t: Tree) {
    Clean(rig.dir) && Clean(h.root) && (h.norm(t.path).Some? ==> Clean(h.norm(t.path).value))
  }

  /** Scope in terms of directories. */
  lemma ScopeIsLocation(h: Host, rig: Rig, t: Tree)
    requires CleanPaths(h, rig, t)
    ensures InScope(h, rig, t) <==> Located(h, rig, t)
  {
    if h.norm(t.path).Some? {
      AtOrUnderIsPrefix(rig.dir, h.norm(t.path).value);
      StrictlyUnderExact(h.root, h.norm(t.path).value);
    }
  }

  // Every further gate in its own terms: its bead is closed, it is old enough, nothing works in
  // it, and git has nothing to lose.
  ghost predicate Gates(h: Host, rig: Rig, t: Tree) {
    Ripe(h, rig, t) && Idle(h, rig, t)
  }

  predicate Ripe(h: Host, rig: Rig, t: Tree) {
    t.bead.Some? && t.bead.value in rig.closed && t.age.Some? && (h.minAge > 0 ==> t.age.value >= h.minAge)
  }

  ghost predicate Idle(h: Host, rig: Rig, t: Tree) {
    && rig.rows.Some? && h.cwds.Some? && !Busy(h, t.path)
    && !t.uncommitted && t.unreachable.No? && t.stashes.No?
  }

  lemma CandidateWhen(h: Host, rig: Rig, t: Tree)
    ensures Sort(h, rig, t).Candidate? <==> InScope(h, rig, t) && Ripe(h, rig, t)
  {
  }

  /** Every tree reported as reaped is where it should be and passed every gate. */
  lemma ReapedPassedGates(h: Host, rig: Rig, dry: bool, t: Tree)
    requires CleanPaths(h, rig, t) && t in Outcome(h, rig, dry).reaped
    ensures t in rig.trees && Located(h, rig, t) && Gates(h, rig, t)
  {
    var candidates := Candidates(h, rig, rig.trees);
    CandidatesIn(h, rig, rig.trees);
    JudgedReaped(h, rig, candidates, candidates, dry, t);
    ScopeIsLocation(h, rig, t);
  }

  lemma SortedAndGated(h: Host, rig: Rig, dry: bool, t: Tree)
    requires t in rig.trees
    ensures t in Outcome(h, rig, dry).reaped <==>
              Sort(h, rig, t).Candidate? && Gate(h, rig, Candidates(h, rig, rig.trees), t).None? && (dry || t.removes)
  {
    CandidatesIn(h, rig, rig.trees);
    JudgedReaped(h, rig, Candidates(h, rig, rig.trees), Candidates(h, rig, rig.trees), dry, t);
  }

  lemma Unborrowed(h: Host, rig: Rig, t: Tree)
    requires t in rig.trees && Sort(h, rig, t).Candidate? && rig.rows.Some?
    ensures var candidates := Candidates(h, rig, rig.trees);
            Borrowers(h, candidates, rig.rows.value, t.path) == [] <==> Unheard(h, candidates, rig.rows.value, t)
  {
    var candidates := Candidates(h, rig, rig.trees);
    CandidatesIn(h, rig, rig.trees);
    var i :| 0 <= i < |candidates| && candidates[i] == t;
    MissedExactly(h, candidates, rig.rows.value, i);
  }

  /** Which trees a sweep reaps, in every case: those in scope that pass every gate and for which
      no live row is heard - less, in a real run, any whose removal fails. */
  lemma ReapedInAllCases(h: Host, rig: Rig, dry: bool, t: Tree)
    requires t in rig.trees
    ensures t in Outcome(h, rig, dry).reaped <==>
              && InScope(h, rig, t) && Gates(h, rig, t)
              && Unheard(h, Candidates(h, rig, rig.trees), rig.rows.value, t) && (dry || t.removes)
  {
    var unnamed := rig.rows.Some? && Unheard(h, Candidates(h, rig, rig.trees), rig.rows.value, t);
    if Sort(h, rig, t).Candidate? && rig.rows.Some? {
      Unborrowed(h, rig, t);
    }
    ReapedWhen(h, rig, dry, t, Sort(h, rig, t).Candidate?, unnamed);
    CandidateWhen(h, rig, t);
  }

  ghost predicate NoStraddlers(h: Host, rig: Rig, candidates: seq<Tree>) {
    rig.rows.Some? ==> forall k :: 0 <= k < |rig.rows.value| ==> !Straddles(h, candidates, rig.rows.value[k])
  }

  /** With candidates that normalise apart and no row straddling two of them, the reaped trees are
      exactly those in scope that pass every gate and that no non-terminal row names, less any
      whose removal fails. */
  lemma ReapedExactly(h: Host, rig: Rig, dry: bool, t: Tree)
    requires t in rig.trees
    requires Apart(h, Candidates(h, rig, rig.trees)) && NoStraddlers(h, rig, Candidates(h, rig, rig.trees))
    ensures t in Outcome(h, rig, dry).reaped <==>
              InScope(h, rig, t) && Gates(h, rig, t) && !Referenced(h, rig.rows.value, t) && (dry || t.removes)
  {
    ReapedInAllCases(h, rig, dry, t);
    CandidateWhen(h, rig, t);
    if InScope(h, rig, t) && Gates(h, rig, t) {
      var candidates := Candidates(h, rig, rig.trees);
      CandidatesIn(h, rig, rig.trees);
      var i :| 0 <= i < |candidates| && candidates[i] == t;
      BorrowScanExact(h, candidates, rig.rows.value, i);
    }
  }

  lemma ReapedWhen(h: Host, rig: Rig, dry: bool, t: Tree, candidate: bool, unnamed: bool)
    requires t in rig.trees && candidate == Sort(h, rig, t).Candidate?
    requires candidate && rig.rows.Some? ==>
               (Borrowers(h, Candidates(h, rig, rig.trees), rig.rows.value, t.path) == [] <==> unnamed)
    ensures t in Outcome(h, rig, dry).reaped <==> candidate && Idle(h, rig, t) && unnamed && (dry || t.removes)
  {
    SortedAndGated(h, rig, dry, t);
    GateOpen(h, rig, Candidates(h, rig, rig.trees), t);
  }

  lemma GateOpen(h: Host, rig: Rig, candidates: seq<Tree>, t: Tree)
    ensures Gate(h, rig, candidates, t).None? <==>
              Idle(h, rig, t) && Borrowers(h, candidates, rig.rows.value, t.path) == []
  {
  }

  lemma {:induction false} NothingJudged(h: Host, rig: Rig, all: seq<Tree>, candidates: seq<Tree>, dry: bool)
    requires h.cwds.None? || rig.rows.None?
    ensures Judged(h, rig, all, candidates, dry).reaped == []
  {
    if candidates != [] {
      NothingJudged(h, rig, all, candidates[..|candidates| - 1], dry);
    }
  }

  /** An unscanned process table, or a failed borrow scan, reaps nothing. */
  lemma UnknownReapsNothing(h: Host, rig: Rig, dry: bool)
    requires h.cwds.None? || rig.rows.None?
    ensures Outcome(h, rig, dry).reaped == []
  {
    NothingJudged(h, rig, Candidates(h, rig, rig.trees), Candidates(h, rig, rig.trees), dry);
  }

  lemma {:induction false} SameJudgement(h: Host, rig: Rig, all: seq<Tree>, candidates: seq<Tree>)
    requires forall t :: t in candidates ==> t.removes
    ensures Judged(h, rig, all, candidates, true) == Judged(h, rig, all, candidates, false)
  {
    if candidates != [] {
      SameJudgement(h, rig, all, candidates[..|candidates| - 1]);
    }
  }

  /** A dry run reports exactly what a real run does, when every removal succeeds. */
  lemma DryRunIsFaithful(h: Host, rig: Rig)
    requires forall t :: t in rig.trees ==> t.removes
    ensures Outcome(h, rig, true) == Outcome(h, rig, false)
  {
    CandidatesIn(h, rig, rig.trees);
    SameJudgement(h, rig, Candidates(h, rig, rig.trees), Candidates(h, rig, rig.trees));
  }
}
