/** Which copy of a dependency the textual walk of the V2 compiler finds, over any install paths. */
module NearestCopies {
  import opened Options
  import opened InstallPaths
  import opened CandidateV2

  /** The path itself, and every prefix of it that a host boundary follows. */
  predicate HostAt(path: string, h: int) {
    h == |path| || OccursAt(path, BOUNDARY, h)
  }

  function CopyAt(path: string, h: int, name: string): string
    requires 0 <= h <= |path|
  {
    path[..h] + BOUNDARY + name
  }

  function TopCopy(name: string): string {
    NODE_MODULES + "/" + name
  }

  predicate HasCopy(path: string, name: string, paths: set<string>, h: int) {
    0 <= h <= |path| && HostAt(path, h) && CopyAt(path, h, name) in paths
  }

  /** The copy under the longest host that has one, else the top copy, else nothing. */
  ghost predicate NearestCopy(path: string, name: string, paths: set<string>, target: Option<string>) {
    match target
    case None => (forall g :: !HasCopy(path, name, paths, g)) && TopCopy(name) !in paths
    case Some(copy) =>
      || (exists h :: HasCopy(path, name, paths, h) && copy == CopyAt(path, h, name) && forall g :: g > h ==>
         !HasCopy(path, name, paths, g))
      || (copy == TopCopy(name) && copy in paths && forall g :: !HasCopy(path, name, paths, g))
  }

  /** Two boundaries share a slash: a directory `node_modules` directly inside another. */
  predicate DoubledAt(path: string, i: int) {
    OccursAt(path, BOUNDARY, i) && OccursAt(path, BOUNDARY, i + 13)
  }

  ghost predicate Doubled(path: string) {
    exists i :: DoubledAt(path, i)
  }

  lemma CharOfBoundary(path: string, i: int, k: int)
    requires OccursAt(path, BOUNDARY, i) && 0 <= k < 14
    ensures path[i + k] == BOUNDARY[k]
  {
    assert path[i..i + 14][k] == path[i + k];
  }

  /** Boundaries overlap in no other way. */
  lemma OverlapIsDoubled(path: string, i: int, j: int)
    requires OccursAt(path, BOUNDARY, i) && OccursAt(path, BOUNDARY, j) && i < j < i + 14
    ensures j == i + 13
  {
    CharOfBoundary(path, j, 0);
    CharOfBoundary(path, i, j - i);
    assert BOUNDARY[0] == '/' && forall k :: 1 <= k < 13 ==> BOUNDARY[k] != '/';
  }

  /** The boundaries of a prefix are those of the path that end within it. */
  lemma OccursInPrefix(path: string, b: int, i: int)
    requires 0 <= b <= |path|
    ensures OccursAt(path[..b], BOUNDARY, i) <==> OccursAt(path, BOUNDARY, i) && i + 14 <= b
  {
    if 0 <= i && i + 14 <= b {
      assert path[..b][i..i + 14] == path[i..i + 14];
    }
  }

  /** Cutting at the last boundary keeps the hosts before it and drops the path itself. */
  lemma HostsOfCut(path: string, name: string, paths: set<string>, h: int)
    requires !Doubled(path) && LastIndexOf(path, BOUNDARY) >= 0
    ensures var b := LastIndexOf(path, BOUNDARY);
            h < |path| ==> (HasCopy(path, name, paths, h) <==> HasCopy(path[..b], name, paths, h))
    ensures var b := LastIndexOf(path, BOUNDARY); 0 <= h <= b ==> CopyAt(path[..b], h, name) == CopyAt(path, h, name)
  {
    var b := LastIndexOf(path, BOUNDARY);
    OccursInPrefix(path, b, h);
    if 0 <= h <= b {
      assert path[..b][..h] == path[..h];
    }
    assert !DoubledAt(path, h);
    if OccursAt(path, BOUNDARY, h) && h < b < h + 14 {
      OverlapIsDoubled(path, h, b);
    }
  }

  lemma CutIsNotDoubled(path: string, b: int)
    requires !Doubled(path) && 0 <= b <= |path|
    ensures !Doubled(path[..b])
  {
    forall i ensures !DoubledAt(path[..b], i) {
      OccursInPrefix(path, b, i);
      OccursInPrefix(path, b, i + 13);
      assert !DoubledAt(path, i);
    }
  }

  /** Unless the path is doubled somewhere the walk finds the nearest copy, whatever is installed. */
  lemma {:induction false} WalkFindsNearest(path: string, name: string, paths: set<string>)
    requires !Doubled(path)
    ensures NearestCopy(path, name, paths, ResolveNearest(path, name, paths))
    decreases |path|
  {
    var b := LastIndexOf(path, BOUNDARY);
    assert path[..|path|] == path;
    if HasCopy(path, name, paths, |path|) {
    } else if b < 0 {
      assert forall h :: !HasCopy(path, name, paths, h);
    } else {
      CutIsNotDoubled(path, b);
      WalkFindsNearest(path[..b], name, paths);
      forall h ensures HasCopy(path, name, paths, h) <==> HasCopy(path[..b], name, paths, h) {
        if h < |path| {
          HostsOfCut(path, name, paths, h);
        }
      }
      forall h | 0 <= h <= b ensures CopyAt(path[..b], h, name) == CopyAt(path, h, name) {
        HostsOfCut(path, name, paths, h);
      }
    }
  }

  // ----- Doubled paths -----

  ghost predicate LastDoubled(path: string, i: int) {
    DoubledAt(path, i) && forall j :: DoubledAt(path, j) ==> j <= i
  }

  lemma {:induction false} FindLastDoubled(path: string, from: nat) returns (i: int)
    requires exists j :: DoubledAt(path, j) && from <= j
    ensures LastDoubled(path, i)
    decreases |path| - from
  {
    var j :| DoubledAt(path, j) && from <= j;
    if exists k :: DoubledAt(path, k) && j + 1 <= k {
      i := FindLastDoubled(path, j + 1);
    } else {
      i := j;
    }
  }

  /** From past the last doubling, or from before its hidden host, the walk never looks under that host. */
  lemma {:induction false} HiddenHost(path: string, i: int, h: int, name: string)
    requires LastDoubled(path, i) && 0 <= h <= |path| && (h < i || h == i + 13 || h >= i + 27)
    ensures ResolveNearest(path[..h], name, {CopyAt(path, i, name)}) == None
    decreases h
  {
    var cursor := path[..h];
    var b := LastIndexOf(cursor, BOUNDARY);
    assert |CopyAt(path, h, name)| != |CopyAt(path, i, name)|;
    assert |TopCopy(name)| < |CopyAt(path, i, name)|;
    if b >= 0 {
      OccursInPrefix(path, h, b);
      OccursInPrefix(path, h, i + 13);
      assert !DoubledAt(path, i + 13);
      if h >= i + 27 && i + 13 < b < i + 27 {
        OverlapIsDoubled(path, i + 13, b);
      }
      assert cursor[..b] == path[..b];
      HiddenHost(path, i, b, name);
    }
  }

  /**
    * The walk finds the nearest copy whatever is installed exactly when no `node_modules` lies directly inside
    * another.
    */
  lemma NearestWhateverInstalledIff(path: string, name: string)
    ensures (forall paths :: NearestCopy(path, name, paths, ResolveNearest(path, name, paths))) <==> !Doubled(path)
  {
    if Doubled(path) {
      var i := FindLastDoubled(path, 0);
      var paths := {CopyAt(path, i, name)};
      assert path[..|path|] == path;
      HiddenHost(path, i, |path|, name);
      assert HasCopy(path, name, paths, i);
      assert !NearestCopy(path, name, paths, ResolveNearest(path, name, paths));
    } else {
      forall paths ensures NearestCopy(path, name, paths, ResolveNearest(path, name, paths)) {
        WalkFindsNearest(path, name, paths);
      }
    }
  }
}
