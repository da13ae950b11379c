/**
 The two-pass recursive Markdown observation of `FileRootRegistry`: pass one reads every
 directory and file, pass two looks at every directory again. Each system call happens at
 its own instant of a `World` that other processes keep changing.
 */
module Snapshot {
  import opened Order
  import opened References
  import opened FileTree

  type Positive = x: nat | 1 <= x witness 1

  /** `FileReadLimits`, and how many bytes one raw read may return. */
  datatype Limits = Limits(maxFileBytes: Positive, maxBaselineEntries: Positive, readSize: Positive)

  const MAX_PATH_LENGTH: nat := 255
  const SHORTEST_SUFFIX: nat := |"/.md"|

  // ---- names and paths ------------------------------------------------------------

  function Join(p: Path): string {
    if |p| == 0 then ""
    else if |p| == 1 then p[0]
    else Join(p[..|p| - 1]) + "/" + p[|p| - 1]
  }

  lemma JoinGrows(p: Path, name: Name)
    requires name != ""
    ensures |Join(p)| < |Join(p + [name])|
  {
    if p != [] {
      assert (p + [name])[..|p|] == p;
    }
  }

  predicate IsControl(c: char) { c < ' ' }

  predicate SafeName(name: Name) {
    && name != "" && name != "." && name != ".."
    && '/' !in name && '\\' !in name
    && forall i | 0 <= i < |name| :: !IsControl(name[i])
  }

  predicate EndsInMarkdown(v: string) {
    && |v| >= 3 && v[|v| - 3] == '.'
    && v[|v| - 2] in {'m', 'M'} && v[|v| - 1] in {'d', 'D'}
  }

  /** `FileImportPath` accepts the joined components. */
  predicate IsImportPath(p: Path) {
    var v := Join(p);
    && v != ""
    && !IsSpace(v[0]) && !IsSpace(v[|v| - 1])
    && '\\' !in v
    && EndsInMarkdown(v)
    && |v| <= MAX_PATH_LENGTH
    && (forall i | 0 <= i < |p| :: p[i] != "" && p[i] != "." && p[i] != "..")
    && (forall i | 0 <= i < |v| :: !IsControl(v[i]))
  }

  /** Keep a name as a directory to descend, as a Markdown candidate, or not at all. */
  function Classify(p: Path, mode: Mode): Option<bool> {
    if mode.DirectoryMode? && |Join(p)| + SHORTEST_SUFFIX <= MAX_PATH_LENGTH then Some(true)
    else if IsImportPath(p) then Some(false)
    else None
  }

  // ---- what the tree contains at one instant --------------------------------------

  function LinkAt(s: Tree, d: NodeId, name: Name): (r: Option<NodeId>)
    ensures r.Some? ==> r.value in s.nodes
  {
    if IsDirectory(s, d) && name in Entries(s, d) && Entries(s, d)[name] in s.nodes
    then Some(Entries(s, d)[name])
    else None
  }

  function StatAt(s: Tree, d: NodeId, name: Name): Option<Identity> {
    match LinkAt(s, d, name)
    case None => None
    case Some(n) => Some(s.nodes[n].identity)
  }

  /** Below directory `d`, whose own path is `p`, the tree `s` has a regular Markdown file. */
  ghost predicate InTree(s: Tree, d: NodeId, p: Path, path: Path, content: Bytes)
    decreases 256 - |Join(p)|
  {
    IsDirectory(s, d) && exists name | name in Entries(s, d) ::
      SafeName(name) && Entries(s, d)[name] in s.nodes &&
      var c := Entries(s, d)[name];
      JoinGrows(p, name);
      match Classify(p + [name], s.nodes[c].identity.mode)
      case Some(true) => InTree(s, c, p + [name], path, content)
      case Some(false) => path == p + [name] && s.nodes[c].body == Regular(content)
      case None => false
  }

  // ---- the walk -------------------------------------------------------------------

  datatype Entry = Entry(name: Name, path: Path, identity: Identity, isDirectory: bool)

  predicate Shaped(p: Path, e: Entry) {
    && e.name != "" && e.path == p + [e.name]
    && (e.isDirectory ==> |Join(e.path)| + SHORTEST_SUFFIX <= MAX_PATH_LENGTH)
  }

  predicate AllShaped(p: Path, es: seq<Entry>) {
    forall i | 0 <= i < |es| :: Shaped(p, es[i])
  }

  predicate ReadsFile(e: Entry) {
    !e.isDirectory && IsImportPath(e.path) && e.identity.mode.RegularMode?
  }

  type Snapshots = map<Path, seq<Entry>>
  datatype State = State(now: nat, observed: seq<(Path, Bytes)>, snapshots: Snapshots)
  datatype Verdict = Stable | Unstable | BoundExceeded

  /** One `os.stat` per name, each at its own instant; the first missing name gives up. */
  function StatNames(w: World, now: nat, d: NodeId, p: Path, names: seq<Name>): (r: Option<seq<Entry>>)
    ensures r.Some? && (forall i | 0 <= i < |names| :: names[i] != "") ==> AllShaped(p, r.value)
    decreases |names|
  {
    if names == [] then Some([])
    else
      match StatAt(w(now), d, names[0])
      case None => None
      case Some(id) =>
        match StatNames(w, now + 1, d, p, names[1..])
        case None => None
        case Some(rest) =>
          match Classify(p + [names[0]], id.mode)
          case None => Some(rest)
          case Some(isDirectory) => Some([Entry(names[0], p + [names[0]], id, isDirectory)] + rest)
  }

  function SafeNames(s: Tree, d: NodeId): (r: seq<Name>)
    requires IsDirectory(s, d)
    ensures StrictlySorted(r)
    ensures forall name :: name in r <==> name in Entries(s, d) && SafeName(name)
  {
    var safe := set name | name in Entries(s, d) && SafeName(name);
    var r := Sort(safe);
    assert forall name :: name in r <==> name in Elements(r);
    r
  }

  /** `_directory_snapshot`: one listing, then one stat per safe name. */
  function DirectorySnapshot(w: World, now: nat, d: NodeId, p: Path): (r: (Option<seq<Entry>>, nat))
    ensures r.0.Some? ==> AllShaped(p, r.0.value)
    ensures now < r.1
  {
    if !IsDirectory(w(now), d) then (None, now + 1)
    else
      var names := SafeNames(w(now), d);
      (StatNames(w, now + 1, d, p, names), now + 1 + |names|)
  }

  /** Bytes a raw read returns at `now`, given how many were read before. */
  function Chunk(s: Tree, n: NodeId, have: nat, lim: Limits): Bytes {
    if n in s.nodes && s.nodes[n].body.Regular? && have < |s.nodes[n].body.content|
    then
      var content := s.nodes[n].body.content;
      content[have..if have + lim.readSize < |content| then have + lim.readSize else |content|]
    else []
  }

  /** `stream.read(max + 1)`: raw reads at successive instants until enough or end of file. */
  function ReadStream(w: World, now: nat, n: NodeId, payload: Bytes, lim: Limits): (r: (Bytes, nat))
    ensures now <= r.1
    decreases lim.maxFileBytes + 1 - |payload|
  {
    if |payload| > lim.maxFileBytes then (payload, now)
    else
      var chunk := Chunk(w(now), n, |payload|, lim);
      if chunk == [] then (payload, now + 1) else ReadStream(w, now + 1, n, payload + chunk, lim)
  }

  /** `_read_regular_at`: open, stat, read, stat again; `None` stands for its refusals. */
  function ReadRegularAt(w: World, now: nat, d: NodeId, name: Name, lim: Limits)
    : (r: (Option<(Bytes, Identity)>, nat))
    ensures now < r.1
  {
    match LinkAt(w(now), d, name)
    case None => (None, now + 1)
    case Some(n) =>
      if n !in w(now + 1).nodes then (None, now + 2)
      else
        var before := w(now + 1).nodes[n].identity;
        if !before.mode.RegularMode? || before.size > lim.maxFileBytes then (None, now + 2)
        else
          var (payload, t) := ReadStream(w, now + 2, n, [], lim);
          if |payload| > lim.maxFileBytes || n !in w(t).nodes || w(t).nodes[n].identity != before
          then (None, t + 1)
          else (Some((payload, before)), t + 1)
  }

  function ObserveDirectory(w: World, lim: Limits, s: State, d: NodeId, p: Path): (r: (Verdict, State))
    ensures s.now < r.1.now
    decreases 256 - |Join(p)|, 3, 0
  {
    var (initial, now) := DirectorySnapshot(w, s.now, d, p);
    if initial.None? || p in s.snapshots then (Unstable, s.(now := now))
    else
      var (verdict, s') :=
        ObserveEntries(w, lim, State(now, s.observed, s.snapshots[p := initial.value]), d, p, initial.value);
      if verdict != Stable then (verdict, s')
      else
        var (again, now') := DirectorySnapshot(w, s'.now, d, p);
        (if again == initial then Stable else Unstable, s'.(now := now'))
  }

  function ObserveEntries(w: World, lim: Limits, s: State, d: NodeId, p: Path, es: seq<Entry>)
    : (r: (Verdict, State))
    requires AllShaped(p, es)
    ensures s.now <= r.1.now
    decreases 256 - |Join(p)|, 2, |es|
  {
    if es == [] then (Stable, s)
    else
      var (verdict, s') := ObserveEntry(w, lim, s, d, p, es[0]);
      if verdict != Stable then (verdict, s')
      else ObserveEntries(w, lim, s', d, p, es[1..])
  }

  function ObserveEntry(w: World, lim: Limits, s: State, d: NodeId, p: Path, e: Entry): (r: (Verdict, State))
    requires Shaped(p, e)
    ensures s.now <= r.1.now
    decreases 256 - |Join(p)|, 1, 0
  {
    if e.isDirectory then ObserveChild(w, lim, s, d, p, e)
    else if !ReadsFile(e) then (Stable, s)
    else
      var (read, now) := ReadRegularAt(w, s.now, d, e.name, lim);
      if read.None? then (Unstable, s.(now := now))
      else
        var after := StatAt(w(now), d, e.name);
        var s' := s.(now := now + 1);
        if !(Some(e.identity) == after && e.identity == read.value.1) then (Unstable, s')
        else
          var observed := s.observed + [(e.path, read.value.0)];
          (if |observed| > lim.maxBaselineEntries then BoundExceeded else Stable, s'.(observed := observed))
  }

  function ObserveChild(w: World, lim: Limits, s: State, d: NodeId, p: Path, e: Entry): (r: (Verdict, State))
    requires Shaped(p, e) && e.isDirectory
    ensures s.now <= r.1.now
    decreases 256 - |Join(p)|, 0, 0
  {
    JoinGrows(p, e.name);
    var child := LinkAt(w(s.now), d, e.name);
    if child.None? || !IsDirectory(w(s.now), child.value) then (Unstable, s.(now := s.now + 1))
    else
      var c := child.value;
      if c !in w(s.now + 1).nodes || w(s.now + 1).nodes[c].identity != e.identity
      then (Unstable, s.(now := s.now + 2))
      else
        var (verdict, s') := ObserveDirectory(w, lim, s.(now := s.now + 2), c, e.path);
        if verdict != Stable then (verdict, s')
        else
          var after := StatAt(w(s'.now), d, e.name);
          (if after == Some(e.identity) then Stable else Unstable, s'.(now := s'.now + 1))
  }

  /** `_revalidate_directory_tree`: the second pass over the recorded directories. */
  function Revalidate(w: World, now: nat, d: NodeId, p: Path, snapshots: Snapshots): (r: (bool, nat))
    ensures now <= r.1
    decreases 256 - |Join(p)|, 1, 0
  {
    if p !in snapshots then (false, now)
    else
      var (again, now') := DirectorySnapshot(w, now, d, p);
      if again != Some(snapshots[p]) then (false, now')
      else RevalidateEntries(w, now', d, p, snapshots[p], snapshots)
  }

  function RevalidateEntries(w: World, now: nat, d: NodeId, p: Path, es: seq<Entry>, snapshots: Snapshots)
    : (r: (bool, nat))
    requires AllShaped(p, es)
    ensures now <= r.1
    decreases 256 - |Join(p)|, 0, |es|
  {
    if es == [] then (true, now)
    else if !es[0].isDirectory then RevalidateEntries(w, now, d, p, es[1..], snapshots)
    else
      JoinGrows(p, es[0].name);
      var child := LinkAt(w(now), d, es[0].name);
      if child.None? || !IsDirectory(w(now), child.value) then (false, now + 1)
      else
        var c := child.value;
        if c !in w(now + 1).nodes || w(now + 1).nodes[c].identity != es[0].identity
        then (false, now + 2)
        else
          var (ok, now') := Revalidate(w, now + 2, c, es[0].path, snapshots);
          if !ok then (false, now') else RevalidateEntries(w, now', d, p, es[1..], snapshots)
  }

  // ---- one whole observation ------------------------------------------------------

  /** Open the curated subtree, one component per instant. */
  function OpenSubtree(w: World, now: nat, d: NodeId, names: seq<Name>): (r: (Option<NodeId>, nat))
    ensures now <= r.1
    decreases |names|
  {
    if names == [] then (Some(d), now)
    else
      var child := LinkAt(w(now), d, names[0]);
      if child.None? || !IsDirectory(w(now), child.value) then (None, now + 1)
      else OpenSubtree(w, now + 1, child.value, names[1..])
  }

  ghost predicate InPathOrder(xs: seq<(Path, Bytes)>) {
    forall i, j :: 0 <= i < j < |xs| ==> !Less(Join(xs[j].0), Join(xs[i].0))
  }

  /** `sorted(observed, key=path)`. */
  function InsertFile(x: (Path, Bytes), xs: seq<(Path, Bytes)>): (r: seq<(Path, Bytes)>)
    ensures multiset(r) == multiset(xs) + multiset{x}
  {
    if xs == [] || Less(Join(x.0), Join(xs[0].0)) then [x] + xs
    else
      assert xs == [xs[0]] + xs[1..];
      [xs[0]] + InsertFile(x, xs[1..])
  }

  function SortFiles(xs: seq<(Path, Bytes)>): (r: seq<(Path, Bytes)>)
    ensures multiset(r) == multiset(xs)
  {
    if xs == [] then []
    else
      assert xs == xs[..|xs| - 1] + [xs[|xs| - 1]];
      InsertFile(xs[|xs| - 1], SortFiles(xs[..|xs| - 1]))
  }

  lemma {:induction false} InsertFileInOrder(x: (Path, Bytes), xs: seq<(Path, Bytes)>)
    requires InPathOrder(xs)
    ensures InPathOrder(InsertFile(x, xs))
  {
    if xs == [] {
    } else if Less(Join(x.0), Join(xs[0].0)) {
      forall j | 0 <= j < |xs| ensures !Less(Join(xs[j].0), Join(x.0)) {
        if Less(Join(xs[j].0), Join(x.0)) {
          LessTransitive(Join(xs[j].0), Join(x.0), Join(xs[0].0));
          LessIrreflexive(Join(xs[j].0));
        }
      }
    } else {
      InsertFileInOrder(x, xs[1..]);
      var rest := InsertFile(x, xs[1..]);
      forall j | 0 <= j < |rest| ensures !Less(Join(rest[j].0), Join(xs[0].0)) {
        assert rest[j] in multiset(rest);
        assert rest[j] == x || rest[j] in xs[1..];
      }
    }
  }

  lemma {:induction false} SortFilesInOrder(xs: seq<(Path, Bytes)>)
    ensures InPathOrder(SortFiles(xs))
  {
    if xs != [] {
      SortFilesInOrder(xs[..|xs| - 1]);
      InsertFileInOrder(xs[|xs| - 1], SortFiles(xs[..|xs| - 1]));
    }
  }

  datatype Observation = Observed(files: seq<(Path, Bytes)>) | NotAvailable | RetryLater | TooManyFiles

  /** Everything one observation decides, with the facts later proofs speak about. */
  datatype Run = Run(top: Option<NodeId>, verdict: Verdict, state: State, confirmed: bool)

  function RunWalk(w: World, lim: Limits, now: nat, root: NodeId, curated: Path): Run {
    var (top, start) := OpenSubtree(w, now, root, curated);
    if top.None? then Run(top, Unstable, State(start, [], map[]), false)
    else
      var (verdict, s) := ObserveDirectory(w, lim, State(start, [], map[]), top.value, curated);
      Run(top, verdict, s, verdict == Stable && Revalidate(w, s.now, top.value, curated, s.snapshots).0)
  }

  function ObserveMarkdownFiles(w: World, lim: Limits, now: nat, root: NodeId, curated: Path): Observation {
    var run := RunWalk(w, lim, now, root, curated);
    if run.top.None? then NotAvailable
    else
      match run.verdict
      case Unstable => RetryLater
      case BoundExceeded => TooManyFiles
      case Stable => if run.confirmed then Observed(SortFiles(run.state.observed)) else RetryLater
  }
}
