/**
 From the file system to the log: what a completed scan leaves active is exactly the Markdown
 files, with their content digests, that the tree had at one instant.
 */
module ScannedTree {
  import opened Order
  import opened References
  import FileTree
  import Walk = Snapshot
  import Atomic = SnapshotAtomicity
  import Files = SnapshotPaths
  import opened ChangeFeed
  import opened ChangePaging
  import opened ChangeStore
  import opened FileScan
  import Quiet = SnapshotRest
  import ChangeHistory
  import ScanLiveness
  import ScanOutcome

  type Names = seq<FileTree.Name>

  /** What `read_changes` keeps of a file: its joined path, digest and length. */
  function Digested(sha256: Bytes -> string, content: Bytes): Content {
    Content(sha256(content), |content|)
  }

  function AsFiles(sha256: Bytes -> string, files: seq<(Names, Bytes)>): seq<File> {
    seq(|files|, i requires 0 <= i < |files| => File(Walk.Join(files[i].0), Digested(sha256, files[i].1)))
  }

  lemma {:induction false} TreeAt(files: seq<File>, p: Path)
    requires forall i, j | 0 <= i < j < |files| :: files[i].path != files[j].path
    ensures p in Tree(files) <==> exists i :: 0 <= i < |files| && files[i].path == p
    ensures forall i | 0 <= i < |files| && files[i].path == p :: p in Tree(files) && Tree(files)[p] == files[i].content
  {
    if files != [] {
      var n := |files| - 1;
      var init := files[..n];
      TreeAt(init, p);
      assert forall i | 0 <= i < n :: init[i] == files[i];
    }
  }

  /** The active map is the tree at the instant: every file there, with its digest, and no other. */
  ghost predicate Mirrors(active: map<Path, Content>, sha256: Bytes -> string, s: FileTree.Tree,
                          top: FileTree.NodeId, p: Names) {
    && (forall path, content | Walk.InTree(s, top, p, path, content) ::
          Walk.Join(path) in active && active[Walk.Join(path)] == Digested(sha256, content))
    && (forall x | x in active :: exists path, content :: Walk.InTree(s, top, p, path, content) && Walk.Join(path) == x)
  }

  lemma ObservedMirrors(sha256: Bytes -> string, files: seq<(Names, Bytes)>, s: FileTree.Tree, top: FileTree.NodeId,
                        p: Names)
    requires Files.OnePathOneFile(files) && Atomic.IsTreeOf(files, s, top, p)
    ensures Mirrors(Tree(AsFiles(sha256, files)), sha256, s, top, p)
  {
    hide Walk.InTree, Walk.Join, Tree;
    var listed := AsFiles(sha256, files);
    var active := Tree(listed);
    forall path, content | Walk.InTree(s, top, p, path, content)
      ensures Walk.Join(path) in active && active[Walk.Join(path)] == Digested(sha256, content)
    {
      assert (path, content) in files;
      var i :| 0 <= i < |files| && files[i] == (path, content);
      TreeAt(listed, Walk.Join(path));
      assert listed[i].path == Walk.Join(path);
    }
    forall x | x in active
      ensures exists path, content :: Walk.InTree(s, top, p, path, content) && Walk.Join(path) == x
    {
      TreeAt(listed, x);
      var i :| 0 <= i < |listed| && listed[i].path == x;
      assert (files[i].0, files[i].1) in files;
    }
  }

  /** However the tree is being changed elsewhere: a scan whose first read saw a walk of it, and that
      completed, recorded a list that leaves exactly that instant's Markdown files active. */
  lemma ScanMirrorsInstant(w: FileTree.World, lim: Walk.Limits, now: nat, root: FileTree.NodeId, curated: Names,
                           sha256: Bytes -> string, st: Store, s: Source, selection: Option<string>,
                           env: nat -> Observation,
                           bound: nat, limit: Positive)
    requires FileTree.History(w) && Atomic.Succeeds(w, lim, now, root, curated) && Files.AllSafe(curated)
    requires Walk.OpenSubtree(w, now, root, curated).0.Some?
    requires Atomic.TopQuiet(w, Atomic.Instant(w, lim, now, root, curated), Atomic.Top(w, now, root, curated), curated)
    requires Startable(s)
    requires env(0) == Observed(AsFiles(sha256, Walk.ObserveMarkdownFiles(w, lim, now, root, curated).files))
    requires RunScan(st, s, selection, env, 0, bound, limit, InitialScan).ending == Completed
    ensures Mirrors(Active(Flatten(RunScan(st, s, selection, env, 0, bound, limit, InitialScan).pages)), sha256,
                    w(Atomic.Instant(w, lim, now, root, curated)), Atomic.Top(w, now, root, curated), curated)
  {
    hide RunScan, Walk.ObserveMarkdownFiles, Atomic.TopQuiet, FileTree.History, Walk.OpenSubtree,
      Files.OnePathOneFile, Atomic.IsTreeOf, Mirrors, AsFiles, Files.AllSafe, Changes, Active, Tree, Chain,
      StrictlySorted;
    var files := Walk.ObserveMarkdownFiles(w, lim, now, root, curated).files;
    Files.ResultPaths(w, lim, now, root, curated);
    Atomic.AtomicWhenTopQuiet(w, lim, now, root, curated);
    ObservedMirrors(sha256, files, w(Atomic.Instant(w, lim, now, root, curated)), Atomic.Top(w, now, root, curated),
                    curated);
    CompletedList(st, s, selection, env, bound, limit);
    ChangesMeaning(s, AsFiles(sha256, files));
  }

  // ---- a tree at rest, from the file system to the scan's end ----------------------

  /** How `read_changes` takes the outcome of a walk. */
  function Taken(sha256: Bytes -> string, outcome: Walk.Observation): Observation {
    match outcome
    case Observed(files) => Observed(AsFiles(sha256, files))
    case NotAvailable => Denied
    case RetryLater => Unstable
    case TooManyFiles => OverBound
  }

  /** The k-th read walks the tree at rest at some time of its own. */
  function Reads(sha256: Bytes -> string, s: FileTree.Tree, lim: Walk.Limits, at: nat -> nat, root: FileTree.NodeId,
                 curated: Names): nat -> Observation {
    (k: nat) => Taken(sha256, Walk.ObserveMarkdownFiles(Quiet.Rest(s), lim, at(k), root, curated))
  }

  ghost function Sight(sha256: Bytes -> string, s: FileTree.Tree, lim: Walk.Limits, root: FileTree.NodeId,
                       curated: Names)
    : Observation
    requires Quiet.Whole(s) && FileTree.IsDirectory(s, root)
  {
    var top := Walk.OpenSubtree(Quiet.Rest(s), 0, root, curated).0;
    if top.None? then Denied
    else
      Quiet.OpenRests(s, 0, root, curated);
      Taken(sha256, Quiet.OutcomeOf(s, lim, Quiet.CandidatesOf(s, top.value, curated)))
  }

  lemma ReadsSame(sha256: Bytes -> string, s: FileTree.Tree, lim: Walk.Limits, at: nat -> nat, root: FileTree.NodeId,
                  curated: Names, k: nat)
    requires Quiet.Whole(s) && FileTree.IsDirectory(s, root)
    ensures Reads(sha256, s, lim, at, root, curated)(k) == Sight(sha256, s, lim, root, curated)
  {
    hide Walk.ObserveMarkdownFiles, Walk.OpenSubtree, Quiet.Whole, Quiet.CandidatesOf, Quiet.OutcomeOf, AsFiles;
    Quiet.OpenSame(s, at(k), 0, root, curated);
    Quiet.RestingWalk(s, lim, at(k), root, curated);
  }

  /** A tree at rest, whatever it holds: the scan is refused if the subtree cannot be opened, a file
      over the ceiling blocks the walk or there are too many files; otherwise it ends as the store,
      the files, the bound and the page size decide. */
  lemma RestingTreeScanned(sha256: Bytes -> string, s: FileTree.Tree, lim: Walk.Limits, at: nat -> nat,
                           root: FileTree.NodeId, curated: Names, st: Store, selection: Option<string>, limit: Positive)
    requires Quiet.Whole(s) && FileTree.IsDirectory(s, root) && ChangeHistory.Log(st)
    requires lim.maxBaselineEntries <= MAX_SCAN_BOUND && limit <= MAX_PAGE
    ensures RunScan(st, ReadSource(st), selection, Reads(sha256, s, lim, at, root, curated), 0, lim.maxBaselineEntries,
                    limit, InitialScan).ending ==
            ScanOutcome.EndingFor(ReadSource(st), selection, Sight(sha256, s, lim, root, curated),
                                  lim.maxBaselineEntries, limit)
  {
    hide RunScan, ChangeHistory.Log, ReadSource, Reads, Sight, Quiet.Whole, ScanOutcome.EndingFor, ScanLiveness.Always;
    var seen := Sight(sha256, s, lim, root, curated);
    var env := Reads(sha256, s, lim, at, root, curated);
    forall k: nat ensures env(k) == ScanLiveness.Always(seen)(k) {
      ReadsSame(sha256, s, lim, at, root, curated, k);
      AlwaysSees(seen, k);
    }
    SameReads(st, ReadSource(st), selection, env, ScanLiveness.Always(seen), 0, lim.maxBaselineEntries, limit,
              InitialScan);
    ScanOutcome.RestingScanEnds(st, selection, seen, lim.maxBaselineEntries, limit);
  }

  lemma AlwaysSees(seen: Observation, k: nat)
    ensures ScanLiveness.Always(seen)(k) == seen
  {
  }
}
