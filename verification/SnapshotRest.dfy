/**
 On a tree that nobody changes the two-pass walk is exact: it returns every Markdown file, unless
 one of those it comes to read is over the byte ceiling, when it asks to retry for ever, or there
 are too many, which it reports.
 */
module SnapshotRest {
  import opened Order
  import opened References
  import opened FileTree
  import opened Snapshot
  import opened SnapshotAtomicity

  function Rest(s: Tree): World {
    (k: nat) => s
  }

  /** Links lead to nodes. */
  ghost predicate Whole(s: Tree) {
    && WellFormed(s)
    && forall d, name | IsDirectory(s, d) && name in Entries(s, d) :: Entries(s, d)[name] in s.nodes
  }

  lemma RestIsHistory(s: Tree)
    requires WellFormed(s)
    ensures History(Rest(s))
  {
  }

  // ---- listings -------------------------------------------------------------------

  ghost function Listed(s: Tree, d: NodeId, p: Path, names: seq<Name>): seq<Entry>
    requires IsDirectory(s, d)
    requires forall i | 0 <= i < |names| :: names[i] in Entries(s, d) && Entries(s, d)[names[i]] in s.nodes
  {
    if names == [] then []
    else
      var id := s.nodes[Entries(s, d)[names[0]]].identity;
      var rest := Listed(s, d, p, names[1..]);
      match Classify(p + [names[0]], id.mode)
      case None => rest
      case Some(isDirectory) => [Entry(names[0], p + [names[0]], id, isDirectory)] + rest
  }

  lemma {:induction false} StatRest(s: Tree, now: nat, d: NodeId, p: Path, names: seq<Name>)
    requires IsDirectory(s, d)
    requires forall i | 0 <= i < |names| :: names[i] in Entries(s, d) && Entries(s, d)[names[i]] in s.nodes
    ensures StatNames(Rest(s), now, d, p, names) == Some(Listed(s, d, p, names))
    decreases |names|
  {
    hide Classify;
    if names != [] {
      StatRest(s, now + 1, d, p, names[1..]);
    }
  }

  /** What any listing of the directory shows. */
  ghost function Listing(s: Tree, d: NodeId, p: Path): seq<Entry>
    requires IsDirectory(s, d) && forall name | name in Entries(s, d) :: Entries(s, d)[name] in s.nodes
  {
    Listed(s, d, p, SafeNames(s, d))
  }

  lemma SnapshotRests(s: Tree, now: nat, d: NodeId, p: Path)
    requires Whole(s) && IsDirectory(s, d)
    ensures DirectorySnapshot(Rest(s), now, d, p).0 == Some(Listing(s, d, p))
  {
    hide StatNames, Listed;
    StatRest(s, now + 1, d, p, SafeNames(s, d));
  }

  /** An entry that the directory's listing shows. */
  ghost predicate Shows(s: Tree, d: NodeId, p: Path, e: Entry) {
    && Shaped(p, e) && SafeName(e.name) && IsDirectory(s, d) && e.name in Entries(s, d)
    && Entries(s, d)[e.name] in s.nodes && e.identity == s.nodes[Entries(s, d)[e.name]].identity
    && (e.isDirectory ==> IsDirectory(s, Entries(s, d)[e.name]))
  }

  ghost predicate ShowsAll(s: Tree, d: NodeId, p: Path, es: seq<Entry>) {
    && (forall i | 0 <= i < |es| :: Shows(s, d, p, es[i]))
    && (forall i, j | 0 <= i < j < |es| :: es[i].path != es[j].path)
  }

  lemma {:induction false} ListedShows(s: Tree, d: NodeId, p: Path, names: seq<Name>)
    requires WellFormed(s) && IsDirectory(s, d) && Distinct(names)
    requires forall i | 0 <= i < |names| ::
            names[i] in Entries(s, d) && Entries(s, d)[names[i]] in s.nodes && SafeName(names[i])
    ensures ShowsAll(s, d, p, Listed(s, d, p, names))
    ensures forall i | 0 <= i < |Listed(s, d, p, names)| :: Listed(s, d, p, names)[i].name in names
  {
    hide IsImportPath;
    if names != [] {
      ListedShows(s, d, p, names[1..]);
      var rest := Listed(s, d, p, names[1..]);
      forall i | 0 <= i < |rest| ensures rest[i].path != p + [names[0]] {
        assert Shows(s, d, p, rest[i]);
        assert rest[i].name in names[1..];
        assert (p + [names[0]])[|p|] == names[0] && rest[i].path[|p|] == rest[i].name;
      }
    }
  }

  lemma ListingShows(s: Tree, d: NodeId, p: Path)
    requires Whole(s) && IsDirectory(s, d)
    ensures ShowsAll(s, d, p, Listing(s, d, p)) && AllShaped(p, Listing(s, d, p))
  {
    hide Listed, StrictlySorted;
    var names := SafeNames(s, d);
    StrictlySortedDistinct(names);
    forall i | 0 <= i < |names|
      ensures names[i] in Entries(s, d) && Entries(s, d)[names[i]] in s.nodes && SafeName(names[i])
    {
      assert names[i] in names;
    }
    ListedShows(s, d, p, names);
  }

  // ---- candidates in walking order ------------------------------------------------

  /** A regular Markdown file that the walk will try to read. */
  datatype Candidate = Candidate(path: Path, node: NodeId)

  ghost predicate IsFile(s: Tree, c: Candidate) {
    c.node in s.nodes && s.nodes[c.node].body.Regular?
  }

  ghost predicate AllFiles(s: Tree, cs: seq<Candidate>) {
    forall i | 0 <= i < |cs| :: IsFile(s, cs[i])
  }

  /** Over the byte ceiling, by its size or by what it holds. */
  ghost predicate Oversized(s: Tree, lim: Limits, c: Candidate) {
    IsFile(s, c) &&
    (s.nodes[c.node].identity.size > lim.maxFileBytes || |s.nodes[c.node].body.content| > lim.maxFileBytes)
  }

  ghost function CandidatesAmong(s: Tree, d: NodeId, p: Path, es: seq<Entry>): (cs: seq<Candidate>)
    requires Whole(s) && ShowsAll(s, d, p, es)
    ensures AllFiles(s, cs)
    decreases 256 - |Join(p)|, 1, |es|
  {
    if es == [] then []
    else
      assert Shows(s, d, p, es[0]);
      CandidatesAt(s, d, p, es[0]) + CandidatesAmong(s, d, p, es[1..])
  }

  ghost function CandidatesAt(s: Tree, d: NodeId, p: Path, e: Entry): (cs: seq<Candidate>)
    requires Whole(s) && Shows(s, d, p, e)
    ensures AllFiles(s, cs)
    decreases 256 - |Join(p)|, 0, 0
  {
    var c := Entries(s, d)[e.name];
    if e.isDirectory then JoinGrows(p, e.name); CandidatesOf(s, c, e.path)
    else if ReadsFile(e) then [Candidate(e.path, c)]
    else []
  }

  ghost function CandidatesOf(s: Tree, d: NodeId, p: Path): (cs: seq<Candidate>)
    requires Whole(s) && IsDirectory(s, d)
    ensures AllFiles(s, cs)
    decreases 256 - |Join(p)|, 2, 0
  {
    ListingShows(s, d, p);
    CandidatesAmong(s, d, p, Listing(s, d, p))
  }

  ghost function FilesOf(s: Tree, cs: seq<Candidate>): seq<(Path, Bytes)>
    requires AllFiles(s, cs)
  {
    seq(|cs|, i requires 0 <= i < |cs| && IsFile(s, cs[i]) => (cs[i].path, s.nodes[cs[i].node].body.content))
  }

  lemma {:induction false} StreamRests(s: Tree, now: nat, n: NodeId, k: nat, lim: Limits)
    requires n in s.nodes && s.nodes[n].body.Regular? && k <= |s.nodes[n].body.content| && k <= lim.maxFileBytes
    ensures var payload := ReadStream(Rest(s), now, n, s.nodes[n].body.content[..k], lim).0;
      if |s.nodes[n].body.content| <= lim.maxFileBytes then payload == s.nodes[n].body.content
      else |payload| > lim.maxFileBytes
    decreases lim.maxFileBytes + 1 - k
  {
    var content := s.nodes[n].body.content;
    var chunk := Chunk(s, n, k, lim);
    if chunk != [] {
      assert content[..k] + chunk == content[..k + |chunk|];
      if k + |chunk| <= lim.maxFileBytes {
        StreamRests(s, now + 1, n, k + |chunk|, lim);
      }
    } else {
      assert content[..k] == content;
    }
  }

  /** A file at rest is read whole, or refused when it is over the ceiling. */
  lemma ReadRests(s: Tree, lim: Limits, now: nat, d: NodeId, p: Path, e: Entry)
    requires Whole(s) && Shows(s, d, p, e) && ReadsFile(e)
    ensures s.nodes[Entries(s, d)[e.name]].body.Regular?
    ensures ReadRegularAt(Rest(s), now, d, e.name, lim).0 ==
            if Oversized(s, lim, Candidate(e.path, Entries(s, d)[e.name])) then None
            else Some((s.nodes[Entries(s, d)[e.name]].body.content, e.identity))
  {
    hide IsImportPath, ReadStream;
    var n := Entries(s, d)[e.name];
    assert s.nodes[n].body.content[..0] == [];
    StreamRests(s, now + 2, n, 0, lim);
  }

  // ---- the candidates are the tree's Markdown files -------------------------------

  ghost predicate HasCandidate(s: Tree, cs: seq<Candidate>, path: Path, content: Bytes) {
    exists i :: 0 <= i < |cs| && cs[i].path == path && IsFile(s, cs[i]) && s.nodes[cs[i].node].body.content == content
  }

  lemma HasConcat(s: Tree, a: seq<Candidate>, b: seq<Candidate>, path: Path, content: Bytes)
    ensures HasCandidate(s, a + b, path, content) <==>
            HasCandidate(s, a, path, content) || HasCandidate(s, b, path, content)
  {
    var ab := a + b;
    assert forall i | 0 <= i < |a| :: ab[i] == a[i];
    assert forall i | 0 <= i < |b| :: ab[|a| + i] == b[i];
    if HasCandidate(s, ab, path, content) {
      var i :| 0 <= i < |ab| && ab[i].path == path && IsFile(s, ab[i]) && s.nodes[ab[i].node].body.content == content;
      assert i < |a| || b[i - |a|] == ab[i];
    }
  }

  lemma {:induction false} ListedHas(s: Tree, d: NodeId, p: Path, names: seq<Name>, name: Name) returns (i: nat)
    requires IsDirectory(s, d) && name in names
    requires forall i | 0 <= i < |names| :: names[i] in Entries(s, d) && Entries(s, d)[names[i]] in s.nodes
    requires Classify(p + [name], s.nodes[Entries(s, d)[name]].identity.mode).Some?
    ensures i < |Listed(s, d, p, names)|
    ensures Listed(s, d, p, names)[i] ==
            Entry(name, p + [name], s.nodes[Entries(s, d)[name]].identity,
                  Classify(p + [name], s.nodes[Entries(s, d)[name]].identity.mode).value)
  {
    hide Classify;
    if names[0] == name {
      i := 0;
    } else {
      var k := ListedHas(s, d, p, names[1..], name);
      i := if Classify(p + [names[0]], s.nodes[Entries(s, d)[names[0]]].identity.mode).None? then k else k + 1;
    }
  }

  lemma {:induction false} AmongHas(s: Tree, d: NodeId, p: Path, es: seq<Entry>, i: nat, path: Path, content: Bytes)
    requires Whole(s) && ShowsAll(s, d, p, es) && i < |es| && Shows(s, d, p, es[i])
    requires HasCandidate(s, CandidatesAt(s, d, p, es[i]), path, content)
    ensures HasCandidate(s, CandidatesAmong(s, d, p, es), path, content)
    decreases |es|
  {
    hide Whole, Shows, CandidatesAt, HasCandidate;
    LaterShows(s, d, p, es);
    HasConcat(s, CandidatesAt(s, d, p, es[0]), CandidatesAmong(s, d, p, es[1..]), path, content);
    if i > 0 {
      assert es[1..][i - 1] == es[i];
      AmongHas(s, d, p, es[1..], i - 1, path, content);
    }
  }

  lemma {:induction false} AmongFrom(s: Tree, d: NodeId, p: Path, es: seq<Entry>, path: Path, content: Bytes)
    returns (i: nat)
    requires Whole(s) && ShowsAll(s, d, p, es) && HasCandidate(s, CandidatesAmong(s, d, p, es), path, content)
    ensures i < |es| && Shows(s, d, p, es[i]) && HasCandidate(s, CandidatesAt(s, d, p, es[i]), path, content)
    decreases |es|
  {
    hide Whole, Shows, CandidatesAt;
    if es == [] {
      assert false;
    }
    LaterShows(s, d, p, es);
    hide HasCandidate;
    HasConcat(s, CandidatesAt(s, d, p, es[0]), CandidatesAmong(s, d, p, es[1..]), path, content);
    if HasCandidate(s, CandidatesAt(s, d, p, es[0]), path, content) {
      i := 0;
    } else {
      var k := AmongFrom(s, d, p, es[1..], path, content);
      i := k + 1;
    }
  }

  /** The candidates are exactly the regular Markdown files of the tree, with their content. */
  lemma {:induction false} CandidatesExact(s: Tree, d: NodeId, p: Path, path: Path, content: Bytes)
    requires Whole(s) && IsDirectory(s, d)
    ensures HasCandidate(s, CandidatesOf(s, d, p), path, content) <==> InTree(s, d, p, path, content)
    decreases 256 - |Join(p)|
  {
    ListingShows(s, d, p);
    if HasCandidate(s, CandidatesOf(s, d, p), path, content) {
      var i := AmongFrom(s, d, p, Listing(s, d, p), path, content);
      CandidateInTree(s, d, p, Listing(s, d, p)[i], path, content);
    }
    if InTree(s, d, p, path, content) {
      TreeHasCandidate(s, d, p, path, content);
    }
  }

  lemma {:induction false} CandidateInTree(s: Tree, d: NodeId, p: Path, e: Entry, path: Path, content: Bytes)
    requires Whole(s) && Shows(s, d, p, e) && HasCandidate(s, CandidatesAt(s, d, p, e), path, content)
    ensures InTree(s, d, p, path, content)
    decreases 256 - |Join(p)|, 0
  {
    var c := Entries(s, d)[e.name];
    JoinGrows(p, e.name);
    if e.isDirectory {
      hide CandidatesOf, IsImportPath, HasCandidate;
      CandidatesExact(s, c, e.path, path, content);
      assert Classify(p + [e.name], s.nodes[c].identity.mode) == Some(true);
    } else {
      hide IsImportPath;
      assert Classify(p + [e.name], s.nodes[c].identity.mode) == Some(false);
    }
  }

  lemma {:induction false} TreeHasCandidate(s: Tree, d: NodeId, p: Path, path: Path, content: Bytes)
    requires Whole(s) && IsDirectory(s, d) && InTree(s, d, p, path, content)
    ensures HasCandidate(s, CandidatesOf(s, d, p), path, content)
    decreases 256 - |Join(p)|, 1
  {
    hide Classify;
    var name :| name in Entries(s, d) && SafeName(name) && Entries(s, d)[name] in s.nodes &&
      var c := Entries(s, d)[name];
      match Classify(p + [name], s.nodes[c].identity.mode)
      case Some(true) => InTree(s, c, p + [name], path, content)
      case Some(false) => path == p + [name] && s.nodes[c].body == Regular(content)
      case None => false;
    var c := Entries(s, d)[name];
    var es := Listing(s, d, p);
    ListingShows(s, d, p);
    var i := ListedHas(s, d, p, SafeNames(s, d), name);
    var e := es[i];
    assert Shows(s, d, p, e) && e.name == name && e.path == p + [name];
    if e.isDirectory {
      DirectoryRoom(p, name, s.nodes[c].identity.mode);
      CandidatesExact(s, c, e.path, path, content);
    } else {
      RegularCandidate(s, d, p, e);
    }
    hide InTree, HasCandidate, Listing;
    AmongHas(s, d, p, es, i, path, content);
  }

  lemma RegularCandidate(s: Tree, d: NodeId, p: Path, e: Entry)
    requires Whole(s) && Shows(s, d, p, e) && !e.isDirectory && s.nodes[Entries(s, d)[e.name]].body.Regular?
    requires Classify(e.path, e.identity.mode) == Some(false)
    ensures CandidatesAt(s, d, p, e) == [Candidate(e.path, Entries(s, d)[e.name])]
    ensures HasCandidate(s, CandidatesAt(s, d, p, e), e.path, s.nodes[Entries(s, d)[e.name]].body.content)
  {
    hide IsImportPath;
    assert CandidatesAt(s, d, p, e)[0].path == e.path;
  }

  // ---- the first pass -------------------------------------------------------------

  ghost predicate Clear(snaps: Snapshots, p: Path) {
    forall q | q in snaps :: !(p <= q)
  }

  /** Below `p` every directory is recorded as it is. */
  ghost predicate Complete(s: Tree, d: NodeId, p: Path, snaps: Snapshots)
    requires Whole(s) && IsDirectory(s, d)
    decreases 256 - |Join(p)|
  {
    ListingShows(s, d, p);
    && p in snaps && snaps[p] == Listing(s, d, p)
    && forall i | 0 <= i < |snaps[p]| && snaps[p][i].isDirectory ::
         JoinGrows(p, snaps[p][i].name);
         Shows(s, d, p, snaps[p][i]) && Complete(s, Entries(s, d)[snaps[p][i].name], snaps[p][i].path, snaps)
  }

  ghost predicate SameAbove(a: Snapshots, b: Snapshots, p: Path) {
    forall q :: p <= q || ((q in a <==> q in b) && (q in a ==> a[q] == b[q]))
  }

  /** Only what lies below the entries changed. */
  ghost predicate SameBeside(a: Snapshots, b: Snapshots, es: seq<Entry>) {
    forall q :: (exists i | 0 <= i < |es| :: es[i].path <= q) || ((q in a <==> q in b) && (q in a ==> a[q] == b[q]))
  }

  lemma {:induction false} CompleteFrame(s: Tree, d: NodeId, p: Path, a: Snapshots, b: Snapshots)
    requires Whole(s) && IsDirectory(s, d) && Complete(s, d, p, a)
    requires forall q | p <= q && q in a :: q in b && b[q] == a[q]
    ensures Complete(s, d, p, b)
    decreases 256 - |Join(p)|
  {
    hide Listing, Whole;
    ListingShows(s, d, p);
    forall i | 0 <= i < |b[p]| && b[p][i].isDirectory
      ensures Shows(s, d, p, b[p][i]) && Complete(s, Entries(s, d)[b[p][i].name], b[p][i].path, b)
    {
      JoinGrows(p, b[p][i].name);
      CompleteFrame(s, Entries(s, d)[b[p][i].name], b[p][i].path, a, b);
    }
  }

  ghost predicate ChildrenComplete(s: Tree, d: NodeId, p: Path, es: seq<Entry>, snaps: Snapshots)
    requires Whole(s) && ShowsAll(s, d, p, es)
  {
    forall i | 0 <= i < |es| && es[i].isDirectory ::
      Shows(s, d, p, es[i]) && Complete(s, Entries(s, d)[es[i].name], es[i].path, snaps)
  }

  /** Some candidate is over the ceiling and comes before the bound stops the walk, when `n` files
      were read before. */
  ghost predicate Blocked(s: Tree, lim: Limits, n: nat, cs: seq<Candidate>)
    requires AllFiles(s, cs)
  {
    exists i | 0 <= i < |cs| :: n + i <= lim.maxBaselineEntries && Oversized(s, lim, cs[i])
  }

  ghost function VerdictOf(s: Tree, lim: Limits, n: nat, cs: seq<Candidate>): Verdict
    requires AllFiles(s, cs)
  {
    if Blocked(s, lim, n, cs) then Unstable else if n + |cs| > lim.maxBaselineEntries then BoundExceeded else Stable
  }

  /** What a pass at rest over a part of the tree with these candidates gives. */
  ghost predicate Passed(s: Tree, lim: Limits, verdict: Verdict, st: State, st': State, cs: seq<Candidate>) {
    && AllFiles(s, cs) && |st.observed| <= lim.maxBaselineEntries
    && verdict == VerdictOf(s, lim, |st.observed|, cs)
    && (verdict == Stable ==> st'.observed == st.observed + FilesOf(s, cs))
  }

  lemma BlockedConcat(s: Tree, lim: Limits, n: nat, a: seq<Candidate>, b: seq<Candidate>)
    requires AllFiles(s, a) && AllFiles(s, b)
    ensures AllFiles(s, a + b)
    ensures Blocked(s, lim, n, a + b) <==> Blocked(s, lim, n, a) || Blocked(s, lim, n + |a|, b)
  {
    hide Oversized, IsFile;
    var ab := a + b;
    forall i | 0 <= i < |ab| ensures IsFile(s, ab[i]) {
      assert ab[i] == if i < |a| then a[i] else b[i - |a|];
    }
    if Blocked(s, lim, n, a) {
      var i :| 0 <= i < |a| && n + i <= lim.maxBaselineEntries && Oversized(s, lim, a[i]);
      assert ab[i] == a[i];
    }
    if Blocked(s, lim, n + |a|, b) {
      var i :| 0 <= i < |b| && n + |a| + i <= lim.maxBaselineEntries && Oversized(s, lim, b[i]);
      assert ab[|a| + i] == b[i];
    }
    if Blocked(s, lim, n, ab) {
      var i :| 0 <= i < |ab| && n + i <= lim.maxBaselineEntries && Oversized(s, lim, ab[i]);
      if i < |a| {
        assert a[i] == ab[i];
      } else {
        assert b[i - |a|] == ab[i];
      }
    }
  }

  lemma FilesConcat(s: Tree, a: seq<Candidate>, b: seq<Candidate>)
    requires AllFiles(s, a) && AllFiles(s, b) && AllFiles(s, a + b)
    ensures FilesOf(s, a + b) == FilesOf(s, a) + FilesOf(s, b)
  {
  }

  lemma PassedChain(s: Tree, lim: Limits, v: Verdict, st: State, mid: State, st': State, first: seq<Candidate>,
                    rest: seq<Candidate>)
    requires Passed(s, lim, Stable, st, mid, first) && Passed(s, lim, v, mid, st', rest)
    ensures Passed(s, lim, v, st, st', first + rest)
  {
    hide Blocked, AllFiles;
    BlockedConcat(s, lim, |st.observed|, first, rest);
    FilesConcat(s, first, rest);
    assert |mid.observed| == |st.observed| + |first|;
    if v == Stable {
      assert st.observed + FilesOf(s, first) + FilesOf(s, rest) == st.observed + (FilesOf(s, first) + FilesOf(s, rest));
    }
  }

  /** Once the walk has stopped, what would have come does not matter. */
  lemma PassedStops(s: Tree, lim: Limits, v: Verdict, st: State, st': State, first: seq<Candidate>,
                    rest: seq<Candidate>)
    requires Passed(s, lim, v, st, st', first) && v != Stable && AllFiles(s, rest)
    ensures Passed(s, lim, v, st, st', first + rest)
  {
    BlockedConcat(s, lim, |st.observed|, first, rest);
    hide FilesOf, IsFile, Oversized;
    if v == BoundExceeded {
      assert !Blocked(s, lim, |st.observed| + |first|, rest);
    }
  }

  lemma NothingPassed(s: Tree, lim: Limits, st: State, st': State)
    requires |st.observed| <= lim.maxBaselineEntries && st'.observed == st.observed
    ensures Passed(s, lim, Stable, st, st', [])
  {
    assert st.observed + [] == st.observed;
  }

  lemma OnePassed(s: Tree, lim: Limits, st: State, c: Candidate)
    requires IsFile(s, c) && |st.observed| <= lim.maxBaselineEntries
    ensures VerdictOf(s, lim, |st.observed|, [c]) ==
            if Oversized(s, lim, c) then Unstable
            else if |st.observed| + 1 > lim.maxBaselineEntries then BoundExceeded else Stable
    ensures FilesOf(s, [c]) == [(c.path, s.nodes[c.node].body.content)]
  {
    assert [c][0] == c;
  }

  lemma FileRests(s: Tree, lim: Limits, st: State, d: NodeId, p: Path, e: Entry)
    requires Whole(s) && Shows(s, d, p, e) && !e.isDirectory && |st.observed| <= lim.maxBaselineEntries
    ensures var (v, st') := ObserveEntry(Rest(s), lim, st, d, p, e);
      Passed(s, lim, v, st, st', CandidatesAt(s, d, p, e)) && st'.snapshots == st.snapshots
  {
    hide IsImportPath, ReadRegularAt, Blocked, Oversized;
    if ReadsFile(e) {
      ReadRests(s, lim, st.now, d, p, e);
      OnePassed(s, lim, st, Candidate(e.path, Entries(s, d)[e.name]));
    } else {
      NothingPassed(s, lim, st, st);
    }
  }

  lemma {:induction false} DirectoryRests(s: Tree, lim: Limits, st: State, d: NodeId, p: Path)
    requires Whole(s) && IsDirectory(s, d) && Clear(st.snapshots, p) && |st.observed| <= lim.maxBaselineEntries
    ensures var (v, st') := ObserveDirectory(Rest(s), lim, st, d, p);
      && Passed(s, lim, v, st, st', CandidatesOf(s, d, p))
      && (v == Stable ==> Complete(s, d, p, st'.snapshots) && SameAbove(st.snapshots, st'.snapshots, p))
    decreases 256 - |Join(p)|, 2, 0
  {
    var es := Listing(s, d, p);
    ListingShows(s, d, p);
    var st1 := State(DirectorySnapshot(Rest(s), st.now, d, p).1, st.observed, st.snapshots[p := es]);
    DirectoryOutcome(s, lim, st, d, p);
    hide Whole, Listing, ObserveEntries, ObserveDirectory, DirectorySnapshot, CandidatesAmong, Shaped, Shows,
      Passed, AllFiles;
    ClearBelow(st.snapshots, p, es);
    EntriesRest(s, lim, st1, d, p, es);
    var (v, st2) := ObserveEntries(Rest(s), lim, st1, d, p, es);
    var st' := ObserveDirectory(Rest(s), lim, st, d, p).1;
    PassedSame(s, lim, v, st1, st2, st, st', CandidatesAmong(s, d, p, es));
    if v == Stable {
      PathNotBelow(p, es);
      assert p in st2.snapshots && st2.snapshots[p] == es;
      AboveFromBeside(st.snapshots, st2.snapshots, p, es);
      CompleteFromChildren(s, d, p, st2.snapshots);
    }
  }

  /** Observing a directory at rest does what observing its entries does. */
  lemma DirectoryOutcome(s: Tree, lim: Limits, st: State, d: NodeId, p: Path)
    requires Whole(s) && IsDirectory(s, d) && Clear(st.snapshots, p)
    ensures AllShaped(p, Listing(s, d, p))
    ensures var es := Listing(s, d, p);
      var st1 := State(DirectorySnapshot(Rest(s), st.now, d, p).1, st.observed, st.snapshots[p := es]);
      var (v, inner) := ObserveEntries(Rest(s), lim, st1, d, p, es);
      var (w, st') := ObserveDirectory(Rest(s), lim, st, d, p);
      v == w && st'.observed == inner.observed && st'.snapshots == inner.snapshots
  {
    var es := Listing(s, d, p);
    ListingShows(s, d, p);
    assert p !in st.snapshots;
    hide Whole, Listing, ObserveEntries, DirectorySnapshot, Shaped, Shows, ShowsAll;
    SnapshotRests(s, st.now, d, p);
    var st1 := State(DirectorySnapshot(Rest(s), st.now, d, p).1, st.observed, st.snapshots[p := es]);
    var (v, st2) := ObserveEntries(Rest(s), lim, st1, d, p, es);
    SnapshotRests(s, st2.now, d, p);
  }

  lemma PassedSame(s: Tree, lim: Limits, v: Verdict, a: State, a': State, b: State, b': State, cs: seq<Candidate>)
    requires Passed(s, lim, v, a, a', cs) && a.observed == b.observed && a'.observed == b'.observed
    ensures Passed(s, lim, v, b, b', cs)
  {
    hide VerdictOf, AllFiles, FilesOf;
  }

  lemma CompleteFromChildren(s: Tree, d: NodeId, p: Path, snaps: Snapshots)
    requires Whole(s) && IsDirectory(s, d) && p in snaps && snaps[p] == Listing(s, d, p)
    requires ShowsAll(s, d, p, snaps[p]) && ChildrenComplete(s, d, p, snaps[p], snaps)
    ensures Complete(s, d, p, snaps)
  {
    hide Whole, Listing;
  }

  lemma PathNotBelow(p: Path, es: seq<Entry>)
    requires AllShaped(p, es)
    ensures !exists i | 0 <= i < |es| :: es[i].path <= p
  {
  }

  lemma BelowEntry(p: Path, e: Entry, q: Path)
    requires Shaped(p, e)
    ensures e.path <= q ==> p < q
  {
  }

  lemma ClearBelow(snaps: Snapshots, p: Path, es: seq<Entry>)
    requires Clear(snaps, p) && AllShaped(p, es)
    ensures forall i | 0 <= i < |es| :: Clear(snaps[p := es], es[i].path)
  {
    var more := snaps[p := es];
    forall i | 0 <= i < |es| ensures Clear(more, es[i].path) {
      forall q | q in more ensures !(es[i].path <= q) {
        BelowEntry(p, es[i], q);
      }
    }
  }

  lemma AboveFromBeside(a: Snapshots, b: Snapshots, p: Path, es: seq<Entry>)
    requires AllShaped(p, es) && SameBeside(a[p := es], b, es)
    ensures SameAbove(a, b, p)
  {
    forall q | !(p <= q) ensures (q in a <==> q in b) && (q in a ==> a[q] == b[q]) {
      forall i | 0 <= i < |es| ensures !(es[i].path <= q) {
        BelowEntry(p, es[i], q);
      }
    }
  }

  lemma {:induction false} EntriesRest(s: Tree, lim: Limits, st: State, d: NodeId, p: Path, es: seq<Entry>)
    requires Whole(s) && ShowsAll(s, d, p, es) && AllShaped(p, es)
    requires |st.observed| <= lim.maxBaselineEntries && forall i | 0 <= i < |es| :: Clear(st.snapshots, es[i].path)
    ensures var (v, st') := ObserveEntries(Rest(s), lim, st, d, p, es);
      && Passed(s, lim, v, st, st', CandidatesAmong(s, d, p, es))
      && (v == Stable ==>
            ChildrenComplete(s, d, p, es, st'.snapshots) && SameBeside(st.snapshots, st'.snapshots, es))
    decreases 256 - |Join(p)|, 1, |es|
  {
    hide Whole, ObserveEntry, Complete, CandidatesAt, Clear, Shows, Shaped, Passed;
    if es == [] {
      NothingPassed(s, lim, st, st);
    } else {
      var e := es[0];
      var (v1, st1) := ObserveEntry(Rest(s), lim, st, d, p, e);
      EntryRests(s, lim, st, d, p, e);
      LaterShows(s, d, p, es);
      if v1 != Stable {
        PassedStops(s, lim, v1, st, st1, CandidatesAt(s, d, p, e), CandidatesAmong(s, d, p, es[1..]));
      } else {
        PassedWithin(s, lim, st, st1, CandidatesAt(s, d, p, e));
        LaterClear(s, d, p, st.snapshots, st1.snapshots, es);
        EntriesRest(s, lim, st1, d, p, es[1..]);
        var (v, st') := ObserveEntries(Rest(s), lim, st1, d, p, es[1..]);
        PassedChain(s, lim, v, st, st1, st', CandidatesAt(s, d, p, e), CandidatesAmong(s, d, p, es[1..]));
        if v == Stable {
          FirstStays(s, d, p, es, st.snapshots, st1.snapshots, st'.snapshots);
        }
      }
    }
  }

  lemma LaterShows(s: Tree, d: NodeId, p: Path, es: seq<Entry>)
    requires es != [] && ShowsAll(s, d, p, es)
    ensures ShowsAll(s, d, p, es[1..]) && Shows(s, d, p, es[0])
  {
    hide Shows;
  }

  lemma PassedWithin(s: Tree, lim: Limits, st: State, st': State, cs: seq<Candidate>)
    requires Passed(s, lim, Stable, st, st', cs)
    ensures |st'.observed| <= lim.maxBaselineEntries
  {
    hide Blocked;
  }

  /** One entry, file or directory. */
  lemma {:induction false} EntryRests(s: Tree, lim: Limits, st: State, d: NodeId, p: Path, e: Entry)
    requires Whole(s) && Shows(s, d, p, e) && Clear(st.snapshots, e.path) && |st.observed| <= lim.maxBaselineEntries
    ensures var (v, st') := ObserveEntry(Rest(s), lim, st, d, p, e);
      && Passed(s, lim, v, st, st', CandidatesAt(s, d, p, e))
      && (v == Stable ==>
            && (e.isDirectory ==> Complete(s, Entries(s, d)[e.name], e.path, st'.snapshots))
            && SameAbove(st.snapshots, st'.snapshots, e.path))
    decreases 256 - |Join(p)|, 0, 0
  {
    if e.isDirectory {
      JoinGrows(p, e.name);
      var c := Entries(s, d)[e.name];
      ChildOutcome(s, lim, st, d, p, e);
      hide Whole, ObserveDirectory, ObserveEntry, CandidatesOf, Complete, Clear, SameAbove, Shaped, VerdictOf, FilesOf;
      DirectoryRests(s, lim, st.(now := st.now + 2), c, e.path);
    } else {
      hide ObserveEntry, CandidatesAt, Passed;
      FileRests(s, lim, st, d, p, e);
    }
  }

  /** Entering a directory at rest does what observing it does. */
  lemma ChildOutcome(s: Tree, lim: Limits, st: State, d: NodeId, p: Path, e: Entry)
    requires Whole(s) && Shows(s, d, p, e) && e.isDirectory
    ensures var (v, st') := ObserveEntry(Rest(s), lim, st, d, p, e);
      var (w, inner) := ObserveDirectory(Rest(s), lim, st.(now := st.now + 2), Entries(s, d)[e.name], e.path);
      v == w && st'.observed == inner.observed && st'.snapshots == inner.snapshots
  {
    hide ObserveDirectory, Whole, IsImportPath;
  }

  lemma LaterClear(s: Tree, d: NodeId, p: Path, a: Snapshots, b: Snapshots, es: seq<Entry>)
    requires es != [] && ShowsAll(s, d, p, es) && AllShaped(p, es)
    requires (forall i | 0 <= i < |es| :: Clear(a, es[i].path)) && SameAbove(a, b, es[0].path)
    ensures forall i | 0 <= i < |es[1..]| :: Clear(b, es[1..][i].path)
    ensures ShowsAll(s, d, p, es[1..]) && AllShaped(p, es[1..])
  {
    var rest := es[1..];
    hide Shows;
    forall i | 0 <= i < |rest| ensures Clear(b, rest[i].path) {
      assert rest[i] == es[i + 1];
      forall q | q in b ensures !(rest[i].path <= q) {
        if rest[i].path <= q {
          DifferentBranches(p, es[0], rest[i], q);
        }
      }
    }
  }

  lemma DifferentBranches(p: Path, a: Entry, b: Entry, q: Path)
    requires Shaped(p, a) && Shaped(p, b) && a.path != b.path && b.path <= q
    ensures !(a.path <= q)
  {
  }

  lemma FirstStays(s: Tree, d: NodeId, p: Path, es: seq<Entry>, a: Snapshots, b: Snapshots, c: Snapshots)
    requires Whole(s) && es != [] && ShowsAll(s, d, p, es) && AllShaped(p, es) && ShowsAll(s, d, p, es[1..])
    requires Shows(s, d, p, es[0]) && (es[0].isDirectory ==> Complete(s, Entries(s, d)[es[0].name], es[0].path, b))
    requires SameAbove(a, b, es[0].path) && SameBeside(b, c, es[1..]) && ChildrenComplete(s, d, p, es[1..], c)
    ensures ChildrenComplete(s, d, p, es, c) && SameBeside(a, c, es)
  {
    hide Whole, Complete;
    var rest := es[1..];
    if es[0].isDirectory {
      forall q | es[0].path <= q && q in b ensures q in c && c[q] == b[q] {
        forall i | 0 <= i < |rest| ensures !(rest[i].path <= q) {
          assert rest[i] == es[i + 1];
          DifferentBranches(p, rest[i], es[0], q);
        }
      }
      CompleteFrame(s, Entries(s, d)[es[0].name], es[0].path, b, c);
    }
    forall i | 0 <= i < |es| && es[i].isDirectory
      ensures Shows(s, d, p, es[i]) && Complete(s, Entries(s, d)[es[i].name], es[i].path, c)
    {
      if i > 0 {
        assert es[i] == rest[i - 1];
      }
    }
    BesideCons(a, b, c, es);
  }

  lemma BesideCons(a: Snapshots, b: Snapshots, c: Snapshots, es: seq<Entry>)
    requires es != [] && SameAbove(a, b, es[0].path) && SameBeside(b, c, es[1..])
    ensures SameBeside(a, c, es)
  {
    var rest := es[1..];
    forall q | !exists i | 0 <= i < |es| :: es[i].path <= q ensures (q in a <==> q in c) && (q in a ==> a[q] == c[q]) {
      assert !(es[0].path <= q);
      forall i | 0 <= i < |rest| ensures !(rest[i].path <= q) {
        assert rest[i] == es[i + 1];
      }
    }
  }

  // ---- the second pass and the whole walk -----------------------------------------

  lemma {:induction false} RevalidateRests(s: Tree, now: nat, d: NodeId, p: Path, snaps: Snapshots)
    requires Whole(s) && IsDirectory(s, d) && Complete(s, d, p, snaps)
    ensures Revalidate(Rest(s), now, d, p, snaps).0
    decreases 256 - |Join(p)|, 1, 0
  {
    var es := Listing(s, d, p);
    hide Whole, Listing, DirectorySnapshot, RevalidateEntries;
    SnapshotRests(s, now, d, p);
    ListingShows(s, d, p);
    assert ChildrenComplete(s, d, p, es, snaps);
    hide Complete;
    RevalidateChildren(s, DirectorySnapshot(Rest(s), now, d, p).1, d, p, es, snaps);
  }

  lemma {:induction false} RevalidateChildren(s: Tree, now: nat, d: NodeId, p: Path, es: seq<Entry>,
                                              snaps: Snapshots)
    requires Whole(s) && ShowsAll(s, d, p, es) && AllShaped(p, es) && ChildrenComplete(s, d, p, es, snaps)
    ensures RevalidateEntries(Rest(s), now, d, p, es, snaps).0
    decreases 256 - |Join(p)|, 0, |es|
  {
    hide Whole, Complete, Revalidate;
    if es != [] {
      var e := es[0];
      assert Shows(s, d, p, e) && Shaped(p, e);
      var rest := es[1..];
      assert ShowsAll(s, d, p, rest) && AllShaped(p, rest) && ChildrenComplete(s, d, p, rest, snaps);
      if e.isDirectory {
        JoinGrows(p, e.name);
        var c := Entries(s, d)[e.name];
        RevalidateRests(s, now + 2, c, e.path, snaps);
        RevalidateChildren(s, Revalidate(Rest(s), now + 2, c, e.path, snaps).1, d, p, rest, snaps);
      } else {
        RevalidateChildren(s, now, d, p, rest, snaps);
      }
    }
  }

  lemma {:induction false} OpenRests(s: Tree, now: nat, d: NodeId, names: seq<Name>)
    requires IsDirectory(s, d) && OpenSubtree(Rest(s), now, d, names).0.Some?
    ensures IsDirectory(s, OpenSubtree(Rest(s), now, d, names).0.value)
    decreases |names|
  {
    if names != [] {
      OpenRests(s, now + 1, LinkAt(s, d, names[0]).value, names[1..]);
    }
  }

  lemma {:induction false} OpenSame(s: Tree, now: nat, later: nat, d: NodeId, names: seq<Name>)
    ensures OpenSubtree(Rest(s), now, d, names).0 == OpenSubtree(Rest(s), later, d, names).0
    decreases |names|
  {
    if names != [] {
      var child := LinkAt(s, d, names[0]);
      if child.Some? {
        OpenSame(s, now + 1, later + 1, child.value, names[1..]);
      }
    }
  }

  /** What a walk of a tree at rest must give. */
  ghost function OutcomeOf(s: Tree, lim: Limits, cs: seq<Candidate>): Observation
    requires AllFiles(s, cs)
  {
    if Blocked(s, lim, 0, cs) then RetryLater
    else if |cs| > lim.maxBaselineEntries then TooManyFiles
    else Observed(SortFiles(FilesOf(s, cs)))
  }

  /** On a tree at rest, with its Markdown files in walking order: the walk asks to retry if and only
      if one among the first `maxBaselineEntries + 1` is over the byte ceiling; otherwise it reports
      too many if and only if there are; otherwise it returns exactly the tree. */
  lemma RestingWalk(s: Tree, lim: Limits, now: nat, root: NodeId, curated: Path)
    requires Whole(s) && IsDirectory(s, root)
    ensures var entered := OpenSubtree(Rest(s), now, root, curated).0;
      var outcome := ObserveMarkdownFiles(Rest(s), lim, now, root, curated);
      if entered.None? then outcome == NotAvailable
      else
        && IsDirectory(s, entered.value)
        && outcome == OutcomeOf(s, lim, CandidatesOf(s, entered.value, curated))
        && (outcome.Observed? ==> IsTreeOf(outcome.files, s, entered.value, curated))
  {
    var (top', start) := OpenSubtree(Rest(s), now, root, curated);
    if top'.Some? {
      OpenRests(s, now, root, curated);
      var top := top'.value;
      RestIsHistory(s);
      var st := State(start, [], map[]);
      QuietAtRest(s, Instant(Rest(s), lim, now, root, curated), top, curated);
      hide Whole, ObserveDirectory, Revalidate, CandidatesOf, SortFiles, OpenSubtree, History, TopQuiet, InTree,
        Blocked,
        FilesOf, AllFiles;
      DirectoryRests(s, lim, st, top, curated);
      var (v, st') := ObserveDirectory(Rest(s), lim, st, top, curated);
      if v == Stable {
        var files := FilesOf(s, CandidatesOf(s, top, curated));
        assert [] + files == files;
        RevalidateRests(s, st'.now, top, curated, st'.snapshots);
        AtomicWhenTopQuiet(Rest(s), lim, now, root, curated);
      }
    }
  }

  lemma QuietAtRest(s: Tree, t: nat, top: NodeId, p: Path)
    requires IsDirectory(s, top)
    ensures TopQuiet(Rest(s), t, top, p)
  {
  }

  // ---- one large file -------------------------------------------------------------

  const Folder: NodeId := NodeId(0, 0)
  const Large: NodeId := NodeId(0, 1)

  function LargeContent(lim: Limits): Bytes {
    seq(lim.maxFileBytes + 1, _ => Byte(0, 0, 0, 0))
  }

  /** A directory with one Markdown file, a byte over the ceiling. */
  function LargeTree(lim: Limits): Tree {
    Tree(map[Folder := Node(Identity(Folder, DirectoryMode, 0, 0, 0), Directory(map["x.md" := Large])),
             Large := Node(Identity(Large, RegularMode, lim.maxFileBytes + 1, 0, 0), Regular(LargeContent(lim)))],
         0)
  }

  lemma LargeIsWhole(lim: Limits)
    ensures Whole(LargeTree(lim)) && IsDirectory(LargeTree(lim), Folder)
  {
  }

  lemma LargeIsMarkdown()
    ensures SafeName("x.md") && IsImportPath(["x.md"])
  {
    var p := ["x.md"];
    assert Join(p) == "x.md" && p[0] == "x.md";
    assert |"x.md"| == 4 && "x.md"[1] == '.' && "x.md"[2] == 'm' && "x.md"[3] == 'd';
  }

  lemma LargeInTree(lim: Limits)
    ensures InTree(LargeTree(lim), Folder, [], ["x.md"], LargeContent(lim))
  {
    hide IsImportPath, SafeName, LargeContent;
    LargeIsMarkdown();
    var s := LargeTree(lim);
    JoinGrows([], "x.md");
    assert [] + ["x.md"] == ["x.md"];
    assert "x.md" in Entries(s, Folder) && Entries(s, Folder)["x.md"] == Large;
    assert Classify([] + ["x.md"], s.nodes[Large].identity.mode) == Some(false);
  }

  lemma LargeAlone(lim: Limits)
    requires Whole(LargeTree(lim)) && IsDirectory(LargeTree(lim), Folder)
    ensures |CandidatesOf(LargeTree(lim), Folder, [])| <= 1
  {
    var s := LargeTree(lim);
    var es := Listing(s, Folder, []);
    ListingShows(s, Folder, []);
    hide Listing, Whole;
    forall i | 0 <= i < |es| ensures es[i].path == [] + ["x.md"] {
      assert Shows(s, Folder, [], es[i]);
    }
    if |es| == 1 {
      assert Shows(s, Folder, [], es[0]);
      assert es[1..] == [];
      assert CandidatesAmong(s, Folder, [], es[1..]) == [];
    }
  }

  /** One Markdown file over the ceiling, on a tree that nobody touches, makes every walk ask to retry. */
  lemma LargeFileRetries(lim: Limits, now: nat)
    ensures Whole(LargeTree(lim)) && ObserveMarkdownFiles(Rest(LargeTree(lim)), lim, now, Folder, []) == RetryLater
  {
    var s := LargeTree(lim);
    LargeIsWhole(lim);
    LargeInTree(lim);
    LargeAlone(lim);
    CandidatesExact(s, Folder, [], ["x.md"], LargeContent(lim));
    var cs := CandidatesOf(s, Folder, []);
    assert Oversized(s, lim, cs[0]);
    assert OpenSubtree(Rest(s), now, Folder, []).0 == Some(Folder);
    hide LargeTree, CandidatesOf, InTree, ObserveMarkdownFiles, Whole, Oversized;
    RestingWalk(s, lim, now, Folder, []);
  }
}
