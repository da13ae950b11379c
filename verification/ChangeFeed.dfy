/**
 `FileChangeProvider.read_changes` for delete-observing File sources: one observed tree is
 compared with the durable baseline and cut into pages. SHA-256 over canonical JSON is an
 injective constructor, and a signed cursor is a value only its signer builds.
 */
module ChangeFeed {
  import opened Order

  type Path = string
  type Uuid = nat

  datatype Kind = Upsert | Delete
  datatype Content = Content(sha256: string, length: nat)
  datatype File = File(path: Path, content: Content)
  datatype Change = Change(kind: Kind, path: Path, content: Content)

  // ---- digests and signed values --------------------------------------------------

  datatype Owner = Owner(organization: Uuid, source: Uuid, version: Uuid)

  /** Digest of the scan document. */
  datatype ScanRef = ScanRef(owner: Owner, bound: nat, entries: seq<Change>, baseline: Option<RefDoc>)

  /** Digest of the epoch document, cut to a UUID. */
  datatype Epoch = Epoch(owner: Owner, scanRef: ScanRef, predecessor: Option<HeadDoc>)
  datatype HeadDoc = HeadDoc(checkpointRef: CheckpointRef, pageRef: PageRef, epoch: Epoch, sequence: nat)

  /** `FileChangeBaselineRef` without its own lineage, as it enters documents. */
  datatype RefDoc = RefDoc(version: Uuid, scanRef: ScanRef, epoch: Epoch, pageRef: PageRef,
                           checkpointRef: CheckpointRef, sequence: nat, bound: nat)

  datatype CheckpointRef = CheckpointRef(organization: Uuid, source: Uuid, sequence: nat, pageRef: PageRef)

  /** Digest of the page document. */
  datatype PageRef = PageRef(page: Page)
  datatype Predecessor = Predecessor(pageRef: PageRef, checkpointRef: CheckpointRef, sequence: nat)

  /** The claims a provider signs into a pending cursor. */
  datatype Claims = Claims(owner: Owner, scanRef: ScanRef, epoch: Epoch, bound: nat, limit: nat, offset: nat)

  datatype Page = Page(
    owner: Owner, scanRef: ScanRef, epoch: Epoch, limit: nat, predecessor: Option<Predecessor>,
    superseded: Option<Epoch>, baseline: Option<RefDoc>, changes: seq<Change>, next: Option<Claims>,
    complete: bool, bound: nat)

  /** What Control signs once it has accepted a page. */
  datatype Accepted = Accepted(pending: Claims, scanRef: ScanRef, epoch: Epoch, pageRef: PageRef,
                               checkpointRef: CheckpointRef, sequence: nat)

  /** A continuation is Control's signed value; anything else fails verification. */
  datatype Cursor = InitialScan | Continue(claims: Accepted) | Unverifiable

  // ---- durable inputs -------------------------------------------------------------

  datatype Head = Head(version: Uuid, scanRef: ScanRef, epoch: Epoch, limit: nat, pageRef: PageRef,
                       checkpointRef: CheckpointRef, sequence: nat, complete: bool, bound: nat,
                       superseded: Option<Epoch>)

  datatype Baseline = Baseline(reference: RefDoc, comparison: Option<RefDoc>, entries: seq<Change>)

  datatype Source = Source(owner: Owner, capable: bool, head: Option<Head>, baseline: Option<Baseline>)

  const MAX_PAGE: nat := 100

  function Paths(xs: seq<Change>): seq<Path> {
    seq(|xs|, i requires 0 <= i < |xs| => xs[i].path)
  }

  function FilePaths(xs: seq<File>): seq<Path> {
    seq(|xs|, i requires 0 <= i < |xs| => xs[i].path)
  }

  /** `FileChangeBaseline` and `FileChangeSource` construction checks. */
  ghost predicate ValidBaseline(owner: Owner, b: Baseline) {
    && StrictlySorted(Paths(b.entries)) && b.reference.version == owner.version
    && (b.comparison.Some? ==> b.comparison.value.version == b.reference.version)
  }

  ghost predicate ValidSource(s: Source) {
    s.baseline.Some? ==> ValidBaseline(s.owner, s.baseline.value)
  }

  // ---- comparing the tree with the baseline ---------------------------------------

  function Tree(files: seq<File>): map<Path, Content> {
    if files == [] then map[]
    else Tree(files[..|files| - 1])[files[|files| - 1].path := files[|files| - 1].content]
  }

  /** The paths a complete list leaves active, with their content. */
  function Active(entries: seq<Change>): map<Path, Content> {
    if entries == [] then map[]
    else
      var last := entries[|entries| - 1];
      var before := Active(entries[..|entries| - 1]);
      if last.kind.Upsert? then before[last.path := last.content] else before
  }

  function Deleted(entries: seq<Change>): set<Path> {
    set i | 0 <= i < |entries| && entries[i].kind.Delete? :: entries[i].path
  }

  predicate Unchanged(b: Baseline, tree: map<Path, Content>) {
    tree == Active(b.entries) && Deleted(b.entries) !! tree.Keys
  }

  predicate IsCurrentHead(s: Source, r: RefDoc) {
    && s.head.Some? && s.head.value.complete
    && var h := s.head.value;
       RefDoc(h.version, h.scanRef, h.epoch, h.pageRef, h.checkpointRef, h.sequence, r.bound) == r
  }

  function ChangeAt(prior: map<Path, Content>, tree: map<Path, Content>, p: Path): Change
    requires p in prior.Keys + tree.Keys
  {
    if p in tree then Change(Upsert, p, tree[p]) else Change(Delete, p, prior[p])
  }

  function ChangesAt(prior: map<Path, Content>, tree: map<Path, Content>, paths: seq<Path>): (r: seq<Change>)
    requires forall i | 0 <= i < |paths| :: paths[i] in prior.Keys + tree.Keys
    ensures |r| == |paths|
    ensures forall i | 0 <= i < |paths| :: r[i] == ChangeAt(prior, tree, paths[i])
  {
    if paths == [] then [] else [ChangeAt(prior, tree, paths[0])] + ChangesAt(prior, tree, paths[1..])
  }

  /** Every observed file, every path lost since the baseline, in canonical order. */
  function Difference(prior: map<Path, Content>, tree: map<Path, Content>): seq<Change> {
    var paths := Sort(prior.Keys + tree.Keys);
    assert forall i | 0 <= i < |paths| :: paths[i] in Elements(paths);
    ChangesAt(prior, tree, paths)
  }

  /** `_changes`: the change list and the baseline reference it is bound to. */
  function Changes(s: Source, files: seq<File>): (seq<Change>, Option<RefDoc>) {
    var tree := Tree(files);
    match s.baseline
    case None => (Difference(map[], tree), None)
    case Some(b) =>
      if Unchanged(b, tree)
      then (b.entries, if IsCurrentHead(s, b.reference) then b.comparison else Some(b.reference))
      else (Difference(Active(b.entries), tree), Some(b.reference))
  }

  predicate ReplayBranch(s: Source, files: seq<File>) {
    s.baseline.Some? && Unchanged(s.baseline.value, Tree(files))
  }

  function ScanRefOf(s: Source, files: seq<File>, bound: nat): ScanRef {
    var (changes, reference) := Changes(s, files);
    ScanRef(s.owner, bound, changes, reference)
  }

  predicate HeadServes(s: Source, scanRef: ScanRef) {
    s.head.Some? && s.head.value.version == s.owner.version && s.head.value.scanRef == scanRef
  }

  function HeadDocOf(h: Head): HeadDoc {
    HeadDoc(h.checkpointRef, h.pageRef, h.epoch, h.sequence)
  }

  /** `_scan_epoch`: keep the head's epoch for the same scan, else open a new one after it. */
  function ScanEpoch(s: Source, scanRef: ScanRef): (Epoch, Option<Epoch>) {
    if HeadServes(s, scanRef) then (s.head.value.epoch, s.head.value.superseded)
    else if s.head.None? then (Epoch(s.owner, scanRef, None), None)
    else (Epoch(s.owner, scanRef, Some(HeadDocOf(s.head.value))), Some(s.head.value.epoch))
  }

  // ---- read_changes ---------------------------------------------------------------

  datatype Observation = Observed(files: seq<File>) | Denied | Unstable | OverBound

  datatype Outcome =
    | Ok(page: Page)
    | Unsupported
    | GenericDenied
    | RetryLater
    | InvalidCheckpoint
    | BoundExceeded(bound: nat)

  predicate OutsideSelection(s: Source, selection: Option<string>) {
    && selection.Some? && s.baseline.Some?
    && exists i :: 0 <= i < |s.baseline.value.entries| && s.baseline.value.entries[i].kind.Upsert?
         && !(selection.value <= s.baseline.value.entries[i].path)
  }

  predicate CursorAccepted(s: Source, c: Accepted, scanRef: ScanRef, limit: nat, count: nat, bound: nat) {
    && s.head.Some?
    && s.head.value.version == s.owner.version
    && s.head.value.scanRef == c.scanRef
    && s.head.value.epoch == c.epoch
    && c.sequence <= s.head.value.sequence
    && c.pending == Claims(s.owner, scanRef, c.epoch, bound, limit, c.pending.offset)
    && 1 <= c.pending.offset < count
  }

  function Take(xs: seq<Change>, offset: nat, limit: nat): (r: seq<Change>)
    requires offset <= |xs|
    ensures offset + |r| <= |xs| && r == xs[offset..offset + |r|]
    ensures |r| == if offset + limit <= |xs| then limit else |xs| - offset
  {
    xs[offset..if offset + limit <= |xs| then offset + limit else |xs|]
  }

  function BuildPage(s: Source, scanRef: ScanRef, epoch: Epoch, superseded: Option<Epoch>, limit: nat, offset: nat,
                     predecessor: Option<Predecessor>): Page
    requires offset <= |scanRef.entries|
  {
    var selected := Take(scanRef.entries, offset, limit);
    var next := offset + |selected|;
    var complete := next == |scanRef.entries|;
    Page(s.owner, scanRef, epoch, limit, predecessor, superseded, scanRef.baseline, selected,
         if complete then None else Some(Claims(s.owner, scanRef, epoch, scanRef.bound, limit, next)),
         complete, scanRef.bound)
  }

  function ReadChanges(s: Source, selection: Option<string>, seen: Observation, bound: nat, cursor: Cursor,
                       limit: nat): Outcome {
    if !s.capable then Unsupported
    else if OutsideSelection(s, selection) then GenericDenied
    else
      match seen
      case OverBound => BoundExceeded(bound)
      case Denied => GenericDenied
      case Unstable => RetryLater
      case Observed(files) =>
        var scanRef := ScanRefOf(s, files, bound);
        if |scanRef.entries| > bound then BoundExceeded(bound)
        else
          match cursor
          case Unverifiable => InvalidCheckpoint
          case InitialScan =>
            var used := if HeadServes(s, scanRef) then s.head.value.limit else limit;
            var (epoch, superseded) := ScanEpoch(s, scanRef);
            Ok(BuildPage(s, scanRef, epoch, superseded, used, 0, None))
          case Continue(c) =>
            if !CursorAccepted(s, c, scanRef, limit, |scanRef.entries|, bound) then InvalidCheckpoint
            else Ok(BuildPage(s, scanRef, c.epoch, None, limit, c.pending.offset,
                              Some(Predecessor(c.pageRef, c.checkpointRef, c.sequence))))
  }

  // ---- what a change list means ---------------------------------------------------

  lemma DifferenceSorted(prior: map<Path, Content>, tree: map<Path, Content>)
    ensures Paths(Difference(prior, tree)) == Sort(prior.Keys + tree.Keys)
    ensures StrictlySorted(Paths(Difference(prior, tree)))
  {
    hide Sort, Less, StrictlySorted;
    var paths := Sort(prior.Keys + tree.Keys);
    var d := Difference(prior, tree);
    assert forall i | 0 <= i < |paths| :: paths[i] in Elements(paths);
    assert Paths(d) == paths;
  }

  lemma DifferenceHas(prior: map<Path, Content>, tree: map<Path, Content>, p: Path)
    ensures var d := Difference(prior, tree);
      && (p in prior.Keys + tree.Keys ==> exists i :: 0 <= i < |d| && d[i] == ChangeAt(prior, tree, p))
      && (forall i | 0 <= i < |d| && d[i].path == p :: p in prior.Keys + tree.Keys && d[i] == ChangeAt(prior, tree, p))
  {
    hide Sort, Less, StrictlySorted;
    var d := Difference(prior, tree);
    var paths := Sort(prior.Keys + tree.Keys);
    assert forall i | 0 <= i < |paths| :: paths[i] in Elements(paths);
    if p in prior.Keys + tree.Keys {
      assert p in Elements(paths);
      var i :| 0 <= i < |paths| && paths[i] == p;
      assert d[i] == ChangeAt(prior, tree, p);
    }
    forall i | 0 <= i < |d| && d[i].path == p ensures p in prior.Keys + tree.Keys && d[i] == ChangeAt(prior, tree, p) {
      assert d[i] == ChangeAt(prior, tree, paths[i]);
    }
  }

  lemma {:induction false} ActiveAt(entries: seq<Change>, p: Path)
    requires Distinct(Paths(entries))
    ensures p in Active(entries) <==> exists i :: 0 <= i < |entries| && entries[i].path == p && entries[i].kind.Upsert?
    ensures forall i | 0 <= i < |entries| && entries[i].path == p && entries[i].kind.Upsert? ::
              p in Active(entries) && Active(entries)[p] == entries[i].content
  {
    if entries != [] {
      var n := |entries| - 1;
      var init := entries[..n];
      assert Distinct(Paths(init)) by {
        assert forall i | 0 <= i < n :: Paths(init)[i] == Paths(entries)[i];
      }
      ActiveAt(init, p);
      assert forall i | 0 <= i < n :: init[i] == entries[i];
      forall i | 0 <= i < n ensures entries[i].path != entries[n].path {
        assert Paths(entries)[i] != Paths(entries)[n];
      }
    }
  }

  lemma DifferenceActiveAt(prior: map<Path, Content>, tree: map<Path, Content>, p: Path)
    ensures p in Active(Difference(prior, tree)) <==> p in tree
    ensures p in tree ==> p in Active(Difference(prior, tree)) && Active(Difference(prior, tree))[p] == tree[p]
  {
    hide Difference, Active, Distinct, StrictlySorted;
    var d := Difference(prior, tree);
    DifferenceSorted(prior, tree);
    StrictlySortedDistinct(Paths(d));
    ActiveAt(d, p);
    DifferenceHas(prior, tree, p);
    if p in tree {
      var i :| 0 <= i < |d| && d[i] == ChangeAt(prior, tree, p);
      assert d[i].path == p && d[i].kind.Upsert?;
    }
  }

  /** The change list turns any baseline into exactly the observed tree. */
  lemma DifferenceActive(prior: map<Path, Content>, tree: map<Path, Content>)
    ensures Active(Difference(prior, tree)) == tree
    ensures Deleted(Difference(prior, tree)) == prior.Keys - tree.Keys
  {
    hide Difference, Active;
    var d := Difference(prior, tree);
    forall p ensures p in Active(d) <==> p in tree
             ensures p in tree ==> p in Active(d) && Active(d)[p] == tree[p]
    {
      DifferenceActiveAt(prior, tree, p);
    }
    assert Active(d).Keys == tree.Keys;
    forall p ensures p in Deleted(d) <==> p in prior.Keys - tree.Keys {
      DifferenceHas(prior, tree, p);
      if p in prior.Keys - tree.Keys {
        var i :| 0 <= i < |d| && d[i] == ChangeAt(prior, tree, p);
        assert d[i].kind.Delete? && d[i].path == p;
      }
    }
  }

  /** Whatever the branch, the list is strictly ordered by path, leaves exactly the observed
      tree active, and deletes nothing that is there. */
  lemma ChangesMeaning(s: Source, files: seq<File>)
    requires ValidSource(s)
    ensures var changes := Changes(s, files).0;
      && StrictlySorted(Paths(changes))
      && Active(changes) == Tree(files)
      && Deleted(changes) !! Tree(files).Keys
  {
    var tree := Tree(files);
    if !ReplayBranch(s, files) {
      var prior := if s.baseline.None? then map[] else Active(s.baseline.value.entries);
      DifferenceSorted(prior, tree);
      DifferenceActive(prior, tree);
    }
  }
}
