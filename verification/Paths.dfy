/** Containment of cleaned absolute paths, as decided through relative paths. */
module Paths {
  import opened Text

  // A cleaned absolute path: its components, none of them empty, "." or "..".
  type Path = seq<string>

  ghost predicate Clean(p: Path) {
    forall i :: 0 <= i < |p| ==> Name(p[i])
  }

  predicate Name(s: string) {
    s != "" && s != "." && s != ".." && '/' !in s
  }

  function Join(p: seq<string>): string {
    if p == [] then ""
    else if |p| == 1 then p[0]
    else p[0] + "/" + Join(p[1..])
  }

  // How many leading components two paths share.
  function Common(a: Path, b: Path): (c: nat)
    ensures c <= |a| && c <= |b| && a[..c] == b[..c]
    ensures c < |a| && c < |b| ==> a[c] != b[c]
  {
    if a != [] && b != [] && a[0] == b[0] then
      var c := Common(a[1..], b[1..]);
      assert a[..c + 1] == [a[0]] + a[1..][..c] && b[..c + 1] == [b[0]] + b[1..][..c];
      c + 1
    else 0
  }

  // Up out of what is left of `base`, then down to `target`.
  function Steps(base: Path, target: Path): seq<string> {
    seq(|base| - Common(base, target), _ => "..") + target[Common(base, target)..]
  }

  function Rel(base: Path, target: Path): string {
    if base == target then "." else Join(Steps(base, target))
  }

  predicate AtOrUnder(root: Path, candidate: Path) {
    root == candidate || (Rel(root, candidate) != ".." && !HasPrefix(Rel(root, candidate), "../"))
  }

  predicate StrictlyUnder(dir: Path, path: Path) {
    Rel(dir, path) != "." && !HasPrefix(Rel(dir, path), "..")
  }

  lemma Head(p: seq<string>)
    requires p != []
    ensures HasPrefix(Join(p), p[0])
    ensures |p| == 1 ==> Join(p) == p[0]
    ensures |p| > 1 ==> HasPrefix(Join(p), p[0] + "/")
  {
  }

  lemma {:induction false} CommonPrefix(a: Path, b: Path)
    ensures Common(a, b) == |a| <==> a <= b
  {
    if a != [] && b != [] && a[0] == b[0] {
      CommonPrefix(a[1..], b[1..]);
      assert a == [a[0]] + a[1..] && b == [b[0]] + b[1..];
    }
  }

  // Where the walk from `base` to `target` starts.
  lemma FirstStep(base: Path, target: Path)
    requires base != target
    ensures Steps(base, target) != []
    ensures Steps(base, target)[0] == if base <= target then target[|base|] else ".."
  {
    CommonPrefix(base, target);
  }

  /** A path is at or under a root exactly when the root's components begin it. */
  lemma AtOrUnderIsPrefix(root: Path, candidate: Path)
    requires Clean(root) && Clean(candidate)
    ensures AtOrUnder(root, candidate) <==> root <= candidate
  {
    if root != candidate {
      FirstStep(root, candidate);
      Head(Steps(root, candidate));
      if root <= candidate {
        NameStep(Steps(root, candidate), Rel(root, candidate));
      }
    }
  }

  lemma NameStep(steps: seq<string>, rel: string)
    requires steps != [] && Name(steps[0]) && rel == Join(steps)
    ensures rel != ".." && rel != "." && !HasPrefix(rel, "../")
    ensures HasPrefix(rel, "..") <==> HasPrefix(steps[0], "..")
  {
    Head(steps);
    var n := steps[0];
    assert rel[..|n|] == n;
    assert forall i :: 0 <= i < |n| ==> rel[i] == n[i];
    if |n| == 1 {
      assert rel[0] == n[0] && n == [n[0]];
      assert |rel| > 1 ==> rel[1] == '/';
    } else if |n| == 2 {
      assert n == [n[0], n[1]] && rel[..2] == n;
    } else {
      assert rel[2] == n[2] && n[2] in n;
      assert rel[..2] == n[..2];
    }
  }

  /** The stricter check also turns away paths whose first component below the directory begins
      with two dots. */
  lemma StrictlyUnderExact(dir: Path, path: Path)
    requires Clean(dir) && Clean(path)
    ensures StrictlyUnder(dir, path) <==> dir < path && !HasPrefix(path[|dir|], "..")
  {
    if dir != path {
      FirstStep(dir, path);
      Head(Steps(dir, path));
      if dir <= path {
        NameStep(Steps(dir, path), Rel(dir, path));
      }
    }
  }

  lemma DottedNameTurnedAway()
    ensures ["wt"] < ["wt", "..a"] && Clean(["wt", "..a"]) && !StrictlyUnder(["wt"], ["wt", "..a"])
  {
    assert HasPrefix("..a", "..");
    StrictlyUnderExact(["wt"], ["wt", "..a"]);
  }
}
