/** Joined paths: files the walk can reach have different text exactly when they are different. */
module SnapshotPaths {
  import opened Order
  import opened References
  import opened FileTree
  import opened Snapshot
  import opened SnapshotAtomicity

  predicate AllSafe(path: Path) {
    forall i | 0 <= i < |path| :: SafeName(path[i])
  }

  /** The last separator splits a text in one way only. */
  lemma {:induction false} SplitLast(x: string, y: string, x': string, y': string)
    requires x + "/" + y == x' + "/" + y' && '/' !in y && '/' !in y'
    ensures x == x' && y == y'
  {
    var s, s' := x + "/" + y, x' + "/" + y';
    assert s[|x|] == '/' && s'[|x'|] == '/';
    assert x == s[..|x|] && x' == s'[..|x'|];
    assert y == s[|x| + 1..] && y' == s'[|x'| + 1..];
  }

  lemma JoinHasSeparator(p: Path)
    requires |p| > 1
    ensures '/' in Join(p)
  {
    assert Join(p)[|Join(p[..|p| - 1])|] == '/';
  }

  lemma {:induction false} JoinInjective(a: Path, b: Path)
    requires a != [] && b != [] && AllSafe(a) && AllSafe(b) && Join(a) == Join(b)
    ensures a == b
    decreases |a|
  {
    var m, n := |a| - 1, |b| - 1;
    assert SafeName(a[m]) && SafeName(b[n]);
    if m > 0 {
      JoinHasSeparator(a);
    }
    if n > 0 {
      JoinHasSeparator(b);
    }
    if m > 0 && n > 0 {
      SplitLast(Join(a[..m]), a[m], Join(b[..n]), b[n]);
      JoinInjective(a[..m], b[..n]);
      assert a == a[..m] + [a[m]] && b == b[..n] + [b[n]];
    }
  }

  /** The entry that a recorded file was reached through. */
  lemma ThroughEntry(w: World, lo: nat, hi: nat, d: NodeId, p: Path, snaps: Snapshots, obs: Files, x: (Path, Bytes))
    returns (e: Entry)
    requires Walked(w, lo, hi, d, p, snaps, obs) && x in obs && p < x.0
    ensures Shaped(p, e) && SafeName(e.name) && x.0[|p|] == e.name
    ensures |x.0| > |p| + 1 ==> e.isDirectory && DirectoryWalked(w, lo, hi, e, snaps, obs)
  {
    hide FileRead, Classify, Shaped, SafeName, DirectoryWalked, ReadsFile, Ordered, StatSeen, Ignored, AllCovered,
      SafeNames;
    assert CoveredBy(w, lo, hi, p, snaps[p], x.0, x.1);
    var i :| 0 <= i < |snaps[p]| && Covered(w, lo, hi, p, snaps[p][i], x.0, x.1);
    e := snaps[p][i];
  }

  /** Whatever raced with the walk, what it recorded below a safe path has safe names only. */
  lemma {:induction false} WalkedSafe(w: World, lo: nat, hi: nat, d: NodeId, p: Path, snaps: Snapshots, obs: Files,
                                      x: (Path, Bytes))
    requires Walked(w, lo, hi, d, p, snaps, obs) && AllSafe(p) && x in obs && p < x.0
    ensures AllSafe(x.0)
    decreases 256 - |Join(p)|
  {
    hide Walked, DirectoryWalked, SafeName, AllSafe, Join;
    var e := ThroughEntry(w, lo, hi, d, p, snaps, obs, x);
    SafeExtends(p, e.name);
    PathThrough(p, e.name, x.0);
    if |x.0| > |p| + 1 {
      JoinGrows(p, e.name);
      var c, from, b := InsideDirectory(w, lo, hi, e, snaps, obs);
      WalkedSafe(w, from, b, c, e.path, snaps, obs, x);
    }
  }

  lemma InsideDirectory(w: World, lo: nat, hi: nat, e: Entry, snaps: Snapshots, obs: Files)
    returns (c: NodeId, from: nat, b: nat)
    requires DirectoryWalked(w, lo, hi, e, snaps, obs)
    ensures Walked(w, from, b, c, e.path, snaps, obs)
  {
    hide Walked;
    var n, a: nat, k: nat, m: nat :|
      && lo <= a < k < m < hi && IsDirectory(w(k), n)
      && HasIdentity(w(a), n, e.identity) && HasIdentity(w(m), n, e.identity)
      && Walked(w, k, m, n, e.path, snaps, obs);
    c, from, b := n, k, m;
  }

  lemma SafeExtends(p: Path, name: Name)
    requires AllSafe(p) && SafeName(name)
    ensures AllSafe(p + [name])
  {
    hide SafeName;
  }

  lemma PathThrough(p: Path, name: Name, q: Path)
    requires p < q && q[|p|] == name
    ensures if |q| == |p| + 1 then q == p + [name] else p + [name] < q
  {
  }

  /** A joined path names one content, so the result reads as a map. */
  ghost predicate OnePathOneFile(files: seq<(Path, Bytes)>) {
    && (forall i | 0 <= i < |files| :: files[i].0 != [] && AllSafe(files[i].0))
    && (forall i, j | 0 <= i < j < |files| :: Join(files[i].0) != Join(files[j].0))
  }

  lemma SafePaths(files: seq<(Path, Bytes)>)
    requires forall x | x in files :: x.0 != [] && AllSafe(x.0)
    requires forall x :: multiset(files)[x] <= 1
    requires forall x, y | x in files && y in files && x.0 == y.0 :: x == y
    ensures OnePathOneFile(files)
  {
    hide AllSafe, Join;
    forall i, j | 0 <= i < j < |files| ensures Join(files[i].0) != Join(files[j].0) {
      if Join(files[i].0) == Join(files[j].0) {
        assert files[i] in files && files[j] in files;
        JoinInjective(files[i].0, files[j].0);
        TwiceCounts(files, i, j);
        assert false;
      }
    }
  }

  /** Under any race no two files of a result share a joined path. */
  lemma ResultPaths(w: World, lim: Limits, now: nat, root: NodeId, curated: Path)
    requires History(w) && Succeeds(w, lim, now, root, curated) && AllSafe(curated)
    ensures OnePathOneFile(ObserveMarkdownFiles(w, lim, now, root, curated).files)
  {
    var files := ObserveMarkdownFiles(w, lim, now, root, curated).files;
    var s := RunWalk(w, lim, now, root, curated).state;
    assert multiset(files) == multiset(s.observed);
    hide ObserveMarkdownFiles, RunWalk, History, InPathOrder, Succeeds, OpenSubtree, AllSafe, OnePathOneFile, Walked,
      Revalidated, UniquePaths, DirectorySnapshot;
    RunFacts(w, lim, now, root, curated);
    ObservationCanonical(w, lim, now, root, curated);
    var (top, start) := OpenSubtree(w, now, root, curated);
    forall x | x in files ensures x.0 != [] && AllSafe(x.0) {
      assert x in multiset(files);
      assert x in s.observed;
      WalkedSafe(w, start, s.now, top.value, curated, s.snapshots, Elements(s.observed), x);
    }
    SafePaths(files);
  }

  lemma TwiceCounts<T>(xs: seq<T>, i: nat, j: nat)
    requires i < j < |xs| && xs[i] == xs[j]
    ensures multiset(xs)[xs[i]] >= 2
  {
    assert xs == xs[..j] + [xs[j]] + xs[j + 1..];
    assert xs[..j][i] == xs[i];
  }
}
