/**
 What a successful two-pass walk proves about the tree. The single instant is the listing
 of the walk's top directory that opens the second pass.
 */
module SnapshotAtomicity {
  import opened Order
  import opened References
  import opened FileTree
  import opened Snapshot

  // ---- what one snapshot call saw -------------------------------------------------

  ghost predicate StatSeen(w: World, lo: nat, hi: nat, d: NodeId, name: Name, id: Identity) {
    exists t: nat :: lo <= t < hi && StatAt(w(t), d, name) == Some(id)
  }

  ghost predicate Ignored(w: World, lo: nat, hi: nat, d: NodeId, p: Path, name: Name) {
    exists t: nat :: lo <= t < hi && StatAt(w(t), d, name).Some? &&
      Classify(p + [name], StatAt(w(t), d, name).value.mode) == None
  }

  ghost predicate Names(snap: seq<Entry>, name: Name) {
    exists i :: 0 <= i < |snap| && snap[i].name == name
  }

  ghost predicate Faithful(p: Path, e: Entry) {
    && Shaped(p, e) && SafeName(e.name)
    && Classify(e.path, e.identity.mode) == Some(e.isDirectory)
  }

  ghost predicate Ordered(snap: seq<Entry>) {
    forall i, j :: 0 <= i < j < |snap| ==> Less(snap[i].name, snap[j].name)
  }

  ghost predicate AllSeen(w: World, lo: nat, hi: nat, d: NodeId, p: Path, names: seq<Name>, snap: seq<Entry>) {
    forall i | 0 <= i < |snap| ::
      && Faithful(p, snap[i]) && snap[i].name in names
      && StatSeen(w, lo, hi, d, snap[i].name, snap[i].identity)
  }

  ghost predicate AllCovered(w: World, lo: nat, hi: nat, d: NodeId, p: Path, names: seq<Name>, snap: seq<Entry>) {
    forall i | 0 <= i < |names| :: Names(snap, names[i]) || Ignored(w, lo, hi, d, p, names[i])
  }

  /** `snap` was taken of `d` by a listing at `lo` and stats after it and before `hi`. */
  ghost predicate Snapshotted(w: World, lo: nat, hi: nat, d: NodeId, p: Path, snap: seq<Entry>) {
    && lo < hi && IsDirectory(w(lo), d)
    && Ordered(snap)
    && AllSeen(w, lo + 1, hi, d, p, SafeNames(w(lo), d), snap)
    && AllCovered(w, lo + 1, hi, d, p, SafeNames(w(lo), d), snap)
  }

  lemma {:induction false} StatNamesSeen(w: World, now: nat, d: NodeId, p: Path, names: seq<Name>)
    requires StrictlySorted(names)
    requires forall i | 0 <= i < |names| :: SafeName(names[i])
    requires StatNames(w, now, d, p, names).Some?
    ensures var snap := StatNames(w, now, d, p, names).value;
      Ordered(snap) && AllSeen(w, now, now + |names|, d, p, names, snap)
    decreases |names|
  {
    if names != [] {
      var snap := StatNames(w, now, d, p, names).value;
      var rest := StatNames(w, now + 1, d, p, names[1..]).value;
      StatNamesSeen(w, now + 1, d, p, names[1..]);
      SeenEarlier(w, now, d, p, names, rest);
      var id := StatAt(w(now), d, names[0]).value;
      hide Faithful, AllSeen, Ordered;
      if Classify(p + [names[0]], id.mode).Some? {
        var e := Entry(names[0], p + [names[0]], id, Classify(p + [names[0]], id.mode).value);
        assert snap == [e] + rest;
        HeadSeen(w, now, d, p, names, e, rest);
      }
    }
  }

  lemma HeadSeen(w: World, now: nat, d: NodeId, p: Path, names: seq<Name>, e: Entry, rest: seq<Entry>)
    requires names != [] && SafeName(names[0]) && StatAt(w(now), d, names[0]) == Some(e.identity)
    requires e.name == names[0] && e.path == p + [e.name] && Classify(e.path, e.identity.mode) == Some(e.isDirectory)
    requires Ordered(rest) && AllSeen(w, now, now + |names|, d, p, names, rest)
    requires forall j | 0 <= j < |rest| :: Less(names[0], rest[j].name)
    ensures Ordered([e] + rest) && AllSeen(w, now, now + |names|, d, p, names, [e] + rest)
  {
    assert StatSeen(w, now, now + |names|, d, e.name, e.identity);
    assert Faithful(p, e);
    hide Faithful, StatSeen;
  }

  lemma SeenEarlier(w: World, now: nat, d: NodeId, p: Path, names: seq<Name>, rest: seq<Entry>)
    requires names != [] && StrictlySorted(names)
    requires AllSeen(w, now + 1, now + |names|, d, p, names[1..], rest)
    ensures AllSeen(w, now, now + |names|, d, p, names, rest)
    ensures forall j | 0 <= j < |rest| :: Less(names[0], rest[j].name)
  {
    forall j | 0 <= j < |rest|
      ensures rest[j].name in names && Less(names[0], rest[j].name)
      ensures StatSeen(w, now, now + |names|, d, rest[j].name, rest[j].identity)
    {
      var t: nat :| now + 1 <= t < now + |names| && StatAt(w(t), d, rest[j].name) == Some(rest[j].identity);
      var k :| 0 <= k < |names[1..]| && names[1..][k] == rest[j].name;
      assert names[k + 1] == rest[j].name;
    }
  }

  lemma {:induction false} StatNamesCovered(w: World, now: nat, d: NodeId, p: Path, names: seq<Name>)
    requires StatNames(w, now, d, p, names).Some?
    ensures AllCovered(w, now, now + |names|, d, p, names, StatNames(w, now, d, p, names).value)
    decreases |names|
  {
    if names != [] {
      var snap := StatNames(w, now, d, p, names).value;
      var rest := StatNames(w, now + 1, d, p, names[1..]).value;
      StatNamesCovered(w, now + 1, d, p, names[1..]);
      var id := StatAt(w(now), d, names[0]).value;
      var kept := Classify(p + [names[0]], id.mode).Some?;
      assert kept ==> snap[0].name == names[0] && snap[1..] == rest;
      forall i | 0 <= i < |names|
        ensures Names(snap, names[i]) || Ignored(w, now, now + |names|, d, p, names[i])
      {
        if i == 0 {
          assert kept || (StatAt(w(now), d, names[0]).Some? && Classify(p + [names[0]], id.mode) == None);
        } else {
          assert names[1..][i - 1] == names[i];
          if Names(rest, names[i]) {
            var j :| 0 <= j < |rest| && rest[j].name == names[i];
            assert snap[if kept then j + 1 else j].name == names[i];
          } else {
            var t: nat :| now + 1 <= t < now + |names| && StatAt(w(t), d, names[i]).Some? &&
              Classify(p + [names[i]], StatAt(w(t), d, names[i]).value.mode) == None;
          }
        }
      }
    }
  }

  lemma SnapshotSound(w: World, now: nat, d: NodeId, p: Path)
    requires DirectorySnapshot(w, now, d, p).0.Some?
    ensures Snapshotted(w, now, DirectorySnapshot(w, now, d, p).1, d, p, DirectorySnapshot(w, now, d, p).0.value)
  {
    StatNamesSeen(w, now + 1, d, p, SafeNames(w(now), d));
    StatNamesCovered(w, now + 1, d, p, SafeNames(w(now), d));
  }

  // ---- what a read saw ------------------------------------------------------------

  ghost predicate FileRead(w: World, lo: nat, hi: nat, id: Identity, content: Bytes) {
    exists t: nat, n :: lo <= t < hi && HasIdentity(w(t), n, id) && w(t).nodes[n].body == Regular(content)
  }

  /** If the content never changes while it is read, the chunks add up to it. */
  lemma {:induction false} ReadStreamSteady(w: World, now: nat, n: NodeId, payload: Bytes, lim: Limits, content: Bytes)
    requires |payload| <= |content| && payload == content[..|payload|]
    requires forall t: nat | now <= t < ReadStream(w, now, n, payload, lim).1 ::
               n in w(t).nodes && w(t).nodes[n].body == Regular(content)
    ensures var r := ReadStream(w, now, n, payload, lim).0; r == content || |r| > lim.maxFileBytes
    decreases lim.maxFileBytes + 1 - |payload|
  {
    if |payload| <= lim.maxFileBytes {
      var chunk := Chunk(w(now), n, |payload|, lim);
      assert now < ReadStream(w, now, n, payload, lim).1;
      if chunk != [] {
        assert payload + chunk == content[..|payload| + |chunk|];
        ReadStreamSteady(w, now + 1, n, payload + chunk, lim, content);
      } else {
        assert payload == content;
      }
    }
  }

  lemma ReadSound(w: World, now: nat, d: NodeId, name: Name, lim: Limits)
    requires History(w)
    requires ReadRegularAt(w, now, d, name, lim).0.Some?
    ensures var (r, t) := ReadRegularAt(w, now, d, name, lim); FileRead(w, now, t, r.value.1, r.value.0)
  {
    var n := LinkAt(w(now), d, name).value;
    var before := w(now + 1).nodes[n].identity;
    var (payload, t) := ReadStream(w, now + 2, n, [], lim);
    assert WellFormed(w(now + 1));
    var content := w(now + 1).nodes[n].body.content;
    forall k: nat | now + 1 <= k < t ensures n in w(k).nodes && w(k).nodes[n].body == Regular(content) {
      Steady(w, now + 1, k, t, n, n, before);
    }
    ReadStreamSteady(w, now + 2, n, [], lim, content);
    assert HasIdentity(w(now + 1), n, before) && w(now + 1).nodes[n].body == Regular(payload);
  }

  // ---- what pass one leaves behind ------------------------------------------------

  type Files = set<(Path, Bytes)>

  /** A recorded file below `p` goes through entry `e`: read there, or deeper in that directory. */
  ghost predicate Covered(w: World, lo: nat, hi: nat, p: Path, e: Entry, path: Path, content: Bytes) {
    && p < path && path[|p|] == e.name
    && (if |path| == |p| + 1 then ReadsFile(e) && FileRead(w, lo, hi, e.identity, content) else e.isDirectory)
  }

  ghost predicate CoveredBy(w: World, lo: nat, hi: nat, p: Path, es: seq<Entry>, path: Path, content: Bytes) {
    exists i :: 0 <= i < |es| && Covered(w, lo, hi, p, es[i], path, content)
  }

  /** Directory `d` at path `p` was walked in `[lo, hi)`; `obs` holds what was read below it. */
  ghost predicate Walked(w: World, lo: nat, hi: nat, d: NodeId, p: Path, snaps: Snapshots, obs: Files)
    decreases 256 - |Join(p)|, 0
  {
    && p in snaps
    && Snapshotted(w, lo, hi, d, p, snaps[p])
    && (forall i | 0 <= i < |snaps[p]| ::
          && (snaps[p][i].isDirectory ==>
                (JoinGrows(p, snaps[p][i].name); DirectoryWalked(w, lo, hi, snaps[p][i], snaps, obs)))
          && (ReadsFile(snaps[p][i]) ==> exists content :: (snaps[p][i].path, content) in obs))
    && (forall x | x in obs && p < x.0 :: CoveredBy(w, lo, hi, p, snaps[p], x.0, x.1))
  }

  /** The child held its recorded identity just before and just after it was walked. */
  ghost predicate DirectoryWalked(w: World, lo: nat, hi: nat, e: Entry, snaps: Snapshots, obs: Files)
    decreases 256 - |Join(e.path)|, 1
  {
    exists c, a: nat, from: nat, b: nat ::
      && lo <= a < from < b < hi && IsDirectory(w(from), c)
      && HasIdentity(w(a), c, e.identity) && HasIdentity(w(b), c, e.identity)
      && Walked(w, from, b, c, e.path, snaps, obs)
  }

  ghost predicate EntryDone(w: World, lo: nat, hi: nat, e: Entry, snaps: Snapshots, obs: Files) {
    && (e.isDirectory ==> DirectoryWalked(w, lo, hi, e, snaps, obs))
    && (ReadsFile(e) ==> exists content :: (e.path, content) in obs)
  }

  ghost predicate Contains(big: Snapshots, small: Snapshots) {
    forall q | q in small :: q in big && big[q] == small[q]
  }

  ghost predicate UniquePaths(observed: seq<(Path, Bytes)>) {
    forall i, j :: 0 <= i < j < |observed| ==> observed[i].0 != observed[j].0
  }

  /** From `s` to `s'` records were only added, and only below `p` through the entries `es`. */
  ghost predicate Grown(w: World, lo: nat, s: State, s': State, p: Path, es: seq<Entry>) {
    && s.now <= s'.now
    && Contains(s'.snapshots, s.snapshots)
    && s.observed <= s'.observed
    && (forall i | |s.observed| <= i < |s'.observed| ::
          CoveredBy(w, lo, s'.now, p, es, s'.observed[i].0, s'.observed[i].1))
    && (UniquePaths(s.observed) ==> UniquePaths(s'.observed))
  }

  ghost predicate NothingBelow(observed: seq<(Path, Bytes)>, p: Path) {
    forall i | 0 <= i < |observed| :: !(p <= observed[i].0)
  }

  lemma StatSeenLater(w: World, lo: nat, hi: nat, hi': nat, d: NodeId, name: Name, id: Identity)
    requires hi <= hi' && StatSeen(w, lo, hi, d, name, id)
    ensures StatSeen(w, lo, hi', d, name, id)
  {
  }

  lemma IgnoredLater(w: World, lo: nat, hi: nat, hi': nat, d: NodeId, p: Path, name: Name)
    requires hi <= hi' && Ignored(w, lo, hi, d, p, name)
    ensures Ignored(w, lo, hi', d, p, name)
  {
  }

  lemma SnapshottedLater(w: World, lo: nat, hi: nat, hi': nat, d: NodeId, p: Path, snap: seq<Entry>)
    requires hi <= hi' && Snapshotted(w, lo, hi, d, p, snap)
    ensures Snapshotted(w, lo, hi', d, p, snap)
  {
    var names := SafeNames(w(lo), d);
    forall i | 0 <= i < |snap| ensures StatSeen(w, lo + 1, hi', d, snap[i].name, snap[i].identity) {
      StatSeenLater(w, lo + 1, hi, hi', d, snap[i].name, snap[i].identity);
    }
    forall i | 0 <= i < |names| ensures Names(snap, names[i]) || Ignored(w, lo + 1, hi', d, p, names[i]) {
      if Ignored(w, lo + 1, hi, d, p, names[i]) {
        IgnoredLater(w, lo + 1, hi, hi', d, p, names[i]);
      }
    }
  }

  lemma CoveredLater(w: World, lo: nat, lo': nat, hi: nat, hi': nat, p: Path, es: seq<Entry>, es': seq<Entry>,
                     path: Path, content: Bytes)
    requires lo' <= lo && hi <= hi' && CoveredBy(w, lo, hi, p, es, path, content)
    requires forall i | 0 <= i < |es| :: es[i] in es'
    ensures CoveredBy(w, lo', hi', p, es', path, content)
  {
    var i :| 0 <= i < |es| && Covered(w, lo, hi, p, es[i], path, content);
    var j :| 0 <= j < |es'| && es'[j] == es[i];
    if |path| == |p| + 1 {
      var t: nat, n :| lo <= t < hi && HasIdentity(w(t), n, es[i].identity) && w(t).nodes[n].body == Regular(content);
    }
    assert Covered(w, lo', hi', p, es'[j], path, content);
  }

  /** Records added elsewhere do not disturb what was established below `p`. */
  lemma {:induction false} WalkedFrame(w: World, lo: nat, hi: nat, d: NodeId, p: Path,
                                       snaps: Snapshots, obs: Files, snaps': Snapshots, obs': Files)
    requires Walked(w, lo, hi, d, p, snaps, obs)
    requires Contains(snaps', snaps) && obs <= obs'
    requires forall x | x in obs' && p <= x.0 :: x in obs
    ensures Walked(w, lo, hi, d, p, snaps', obs')
    decreases 256 - |Join(p)|, 0
  {
    hide Snapshotted, CoveredBy;
    assert snaps'[p] == snaps[p];
    WalkedShape(w, lo, hi, d, p, snaps, obs);
    forall i | 0 <= i < |snaps[p]| ensures EntryDone(w, lo, hi, snaps[p][i], snaps', obs') {
      var e := snaps[p][i];
      JoinGrows(p, e.name);
      assert p <= e.path;
      if e.isDirectory {
        EntryDoneFrame(w, lo, hi, e, snaps, obs, snaps', obs');
      }
    }
  }

  lemma WalkedShape(w: World, lo: nat, hi: nat, d: NodeId, p: Path, snaps: Snapshots, obs: Files)
    requires Walked(w, lo, hi, d, p, snaps, obs)
    ensures AllShaped(p, snaps[p])
  {
  }

  // ---- pass one establishes it ----------------------------------------------------

  lemma {:induction false} ObserveDirectoryWalked(w: World, lim: Limits, s: State, d: NodeId, p: Path)
    requires History(w) && NothingBelow(s.observed, p)
    requires ObserveDirectory(w, lim, s, d, p).0 == Stable
    ensures var s' := ObserveDirectory(w, lim, s, d, p).1;
      && p in s'.snapshots && Grown(w, s.now, s, s', p, s'.snapshots[p])
      && Walked(w, s.now, s'.now, d, p, s'.snapshots, Elements(s'.observed))
    decreases 256 - |Join(p)|, 3, 0
  {
    var (initial, now) := DirectorySnapshot(w, s.now, d, p);
    var es := initial.value;
    SnapshotSound(w, s.now, d, p);
    var mid := State(now, s.observed, s.snapshots[p := es]);
    var s2 := ObserveEntries(w, lim, mid, d, p, es).1;
    NothingBelowEntries(s.observed, p, es);
    ObserveEntriesWalked(w, lim, mid, d, p, es, s.now);
    DirectoryAssembled(w, s, mid, s2, DirectorySnapshot(w, s2.now, d, p).1, d, p, es);
  }

  ghost predicate NothingBelowAny(observed: seq<(Path, Bytes)>, es: seq<Entry>) {
    forall j | 0 <= j < |es| :: NothingBelow(observed, es[j].path)
  }

  lemma NothingBelowEntries(observed: seq<(Path, Bytes)>, p: Path, es: seq<Entry>)
    requires NothingBelow(observed, p) && AllShaped(p, es)
    ensures NothingBelowAny(observed, es)
  {
    forall i, j | 0 <= i < |observed| && 0 <= j < |es| ensures !(es[j].path <= observed[i].0) {
      assert p <= es[j].path;
    }
  }

  lemma DirectoryAssembled(w: World, s: State, mid: State, s2: State, end: nat, d: NodeId, p: Path, es: seq<Entry>)
    requires NothingBelow(s.observed, p) && p !in s.snapshots && s.now <= mid.now && s2.now <= end
    requires mid == State(mid.now, s.observed, s.snapshots[p := es])
    requires Snapshotted(w, s.now, mid.now, d, p, es)
    requires Grown(w, s.now, mid, s2, p, es)
    requires forall i | 0 <= i < |es| :: EntryDone(w, s.now, s2.now, es[i], s2.snapshots, Elements(s2.observed))
    ensures var s' := s2.(now := end);
      && p in s'.snapshots && s'.snapshots[p] == es && Grown(w, s.now, s, s', p, es)
      && Walked(w, s.now, end, d, p, s'.snapshots, Elements(s'.observed))
  {
    assert p in mid.snapshots;
    var obs := Elements(s2.observed);
    SnapshottedLater(w, s.now, mid.now, end, d, p, es);
    GrownLater(w, s, mid, s2, end, p, es);
    forall i | 0 <= i < |es| ensures EntryDone(w, s.now, end, es[i], s2.snapshots, obs) {
      EntryDoneLater(w, s.now, s2.now, end, es[i], s2.snapshots, obs);
    }
    forall x | x in obs && p < x.0 ensures CoveredBy(w, s.now, end, p, es, x.0, x.1) {
      var i :| 0 <= i < |s2.observed| && s2.observed[i] == x;
      assert s.observed <= s2.observed;
    }
    WalkedIntro(w, s.now, end, d, p, s2.snapshots, obs);
  }

  lemma WalkedIntro(w: World, lo: nat, hi: nat, d: NodeId, p: Path, snaps: Snapshots, obs: Files)
    requires p in snaps && Snapshotted(w, lo, hi, d, p, snaps[p])
    requires forall i | 0 <= i < |snaps[p]| :: EntryDone(w, lo, hi, snaps[p][i], snaps, obs)
    requires forall x | x in obs && p < x.0 :: CoveredBy(w, lo, hi, p, snaps[p], x.0, x.1)
    ensures Walked(w, lo, hi, d, p, snaps, obs)
  {
  }

  lemma GrownLater(w: World, s: State, mid: State, s2: State, end: nat, p: Path, es: seq<Entry>)
    requires p !in s.snapshots && s.now <= mid.now && s2.now <= end
    requires mid == State(mid.now, s.observed, s.snapshots[p := es])
    requires Grown(w, s.now, mid, s2, p, es)
    ensures Grown(w, s.now, s, s2.(now := end), p, es)
  {
    forall i | |s.observed| <= i < |s2.observed|
      ensures CoveredBy(w, s.now, end, p, es, s2.observed[i].0, s2.observed[i].1)
    {
      CoveredLater(w, s.now, s.now, s2.now, end, p, es, es, s2.observed[i].0, s2.observed[i].1);
    }
    forall q | q in s.snapshots ensures q in s2.snapshots && s2.snapshots[q] == s.snapshots[q] {
      assert q in mid.snapshots;
    }
  }

  lemma EntryDoneLater(w: World, lo: nat, hi: nat, hi': nat, e: Entry, snaps: Snapshots, obs: Files)
    requires hi <= hi' && EntryDone(w, lo, hi, e, snaps, obs)
    ensures EntryDone(w, lo, hi', e, snaps, obs)
  {
    if e.isDirectory {
      DirectoryWalkedLater(w, lo, hi, hi', e, snaps, obs);
    }
    hide DirectoryWalked;
  }

  lemma DirectoryWalkedLater(w: World, lo: nat, hi: nat, hi': nat, e: Entry, snaps: Snapshots, obs: Files)
    requires hi <= hi' && DirectoryWalked(w, lo, hi, e, snaps, obs)
    ensures DirectoryWalked(w, lo, hi', e, snaps, obs)
  {
    hide Walked;
  }

  lemma EntryDoneFrame(w: World, lo: nat, hi: nat, e: Entry, snaps: Snapshots, obs: Files, snaps': Snapshots,
                       obs': Files)
    requires EntryDone(w, lo, hi, e, snaps, obs)
    requires Contains(snaps', snaps) && obs <= obs'
    requires forall x | x in obs' && e.path <= x.0 :: x in obs
    ensures EntryDone(w, lo, hi, e, snaps', obs')
    decreases 256 - |Join(e.path)|, 2
  {
    hide DirectoryWalked;
    if e.isDirectory {
      DirectoryWalkedFrame(w, lo, hi, e, snaps, obs, snaps', obs');
    }
    if ReadsFile(e) {
      var content :| (e.path, content) in obs;
      assert (e.path, content) in obs';
    }
  }

  lemma DirectoryWalkedFrame(w: World, lo: nat, hi: nat, e: Entry, snaps: Snapshots, obs: Files, snaps': Snapshots,
                             obs': Files)
    requires DirectoryWalked(w, lo, hi, e, snaps, obs)
    requires Contains(snaps', snaps) && obs <= obs'
    requires forall x | x in obs' && e.path <= x.0 :: x in obs
    ensures DirectoryWalked(w, lo, hi, e, snaps', obs')
    decreases 256 - |Join(e.path)|, 1
  {
    hide Walked;
    var c, a: nat, from: nat, b: nat :|
      && lo <= a < from < b < hi && IsDirectory(w(from), c)
      && HasIdentity(w(a), c, e.identity) && HasIdentity(w(b), c, e.identity)
      && Walked(w, from, b, c, e.path, snaps, obs);
    WalkedFrame(w, from, b, c, e.path, snaps, obs, snaps', obs');
  }

  lemma {:induction false} ObserveEntriesWalked(w: World, lim: Limits, s: State, d: NodeId, p: Path, es: seq<Entry>,
                                                lo: nat)
    requires History(w) && AllShaped(p, es) && Ordered(es) && lo <= s.now
    requires NothingBelowAny(s.observed, es)
    requires ObserveEntries(w, lim, s, d, p, es).0 == Stable
    ensures var s' := ObserveEntries(w, lim, s, d, p, es).1;
      && Grown(w, lo, s, s', p, es)
      && forall i | 0 <= i < |es| :: EntryDone(w, lo, s'.now, es[i], s'.snapshots, Elements(s'.observed))
    decreases 256 - |Join(p)|, 2, |es|
  {
    if es != [] {
      var s1 := ObserveEntry(w, lim, s, d, p, es[0]).1;
      var s2 := ObserveEntries(w, lim, s1, d, p, es[1..]).1;
      ObserveEntryWalked(w, lim, s, d, p, es[0], lo);
      StillNothingBelow(w, lo, s, s1, p, es);
      ObserveEntriesWalked(w, lim, s1, d, p, es[1..], lo);
      GrownChain(w, lo, s, s1, s2, p, es);
      FirstEntryKept(w, lo, s1, s2, p, es);
      forall i | 0 <= i < |es| ensures EntryDone(w, lo, s2.now, es[i], s2.snapshots, Elements(s2.observed)) {
        assert i > 0 ==> es[i] == es[1..][i - 1];
      }
    }
  }

  lemma OtherName(es: seq<Entry>, j: nat)
    requires Ordered(es) && 1 <= j < |es|
    ensures es[0].name != es[j].name
  {
    LessIrreflexive(es[0].name);
    assert Less(es[0].name, es[j].name);
  }

  lemma StillNothingBelow(w: World, lo: nat, s: State, s1: State, p: Path, es: seq<Entry>)
    requires es != [] && AllShaped(p, es) && Ordered(es)
    requires NothingBelowAny(s.observed, es) && Grown(w, lo, s, s1, p, [es[0]])
    ensures NothingBelowAny(s1.observed, es[1..])
  {
    forall i, j | 0 <= i < |s1.observed| && 0 <= j < |es[1..]| ensures !(es[1..][j].path <= s1.observed[i].0) {
      assert es[1..][j] == es[j + 1];
      if i < |s.observed| {
        assert s1.observed[i] == s.observed[i];
        assert NothingBelow(s.observed, es[j + 1].path);
      } else {
        OtherName(es, j + 1);
        assert s1.observed[i].0[|p|] == es[0].name;
        assert es[j + 1].path[|p|] == es[j + 1].name;
      }
    }
  }

  lemma FirstEntryKept(w: World, lo: nat, s1: State, s2: State, p: Path, es: seq<Entry>)
    requires es != [] && AllShaped(p, es) && Ordered(es)
    requires Grown(w, lo, s1, s2, p, es[1..])
    requires EntryDone(w, lo, s1.now, es[0], s1.snapshots, Elements(s1.observed))
    ensures EntryDone(w, lo, s2.now, es[0], s2.snapshots, Elements(s2.observed))
  {
    var obs, obs' := Elements(s1.observed), Elements(s2.observed);
    forall x | x in obs' && es[0].path <= x.0 ensures x in obs {
      var i :| 0 <= i < |s2.observed| && s2.observed[i] == x;
      if i >= |s1.observed| {
        assert CoveredBy(w, lo, s2.now, p, es[1..], x.0, x.1);
        var j :| 0 <= j < |es[1..]| && Covered(w, lo, s2.now, p, es[1..][j], x.0, x.1);
        OtherName(es, j + 1);
      } else {
        assert s1.observed[i] == x;
      }
    }
    forall x | x in obs ensures x in obs' {
      var i :| 0 <= i < |s1.observed| && s1.observed[i] == x;
      assert s2.observed[i] == x;
    }
    EntryDoneLater(w, lo, s1.now, s2.now, es[0], s1.snapshots, obs);
    EntryDoneFrame(w, lo, s2.now, es[0], s1.snapshots, obs, s2.snapshots, obs');
  }

  lemma GrownChain(w: World, lo: nat, s: State, s1: State, s2: State, p: Path, es: seq<Entry>)
    requires es != [] && Grown(w, lo, s, s1, p, [es[0]]) && Grown(w, lo, s1, s2, p, es[1..])
    ensures Grown(w, lo, s, s2, p, es)
  {
    forall i | |s.observed| <= i < |s2.observed|
      ensures CoveredBy(w, lo, s2.now, p, es, s2.observed[i].0, s2.observed[i].1)
    {
      if i < |s1.observed| {
        assert s2.observed[i] == s1.observed[i];
        CoveredLater(w, lo, lo, s1.now, s2.now, p, [es[0]], es, s2.observed[i].0, s2.observed[i].1);
      } else {
        CoveredLater(w, lo, lo, s2.now, s2.now, p, es[1..], es, s2.observed[i].0, s2.observed[i].1);
      }
    }
  }

  lemma {:induction false} ObserveEntryWalked(w: World, lim: Limits, s: State, d: NodeId, p: Path, e: Entry, lo: nat)
    requires History(w) && Shaped(p, e) && lo <= s.now
    requires NothingBelow(s.observed, e.path)
    requires ObserveEntry(w, lim, s, d, p, e).0 == Stable
    ensures var s' := ObserveEntry(w, lim, s, d, p, e).1;
      && Grown(w, lo, s, s', p, [e])
      && EntryDone(w, lo, s'.now, e, s'.snapshots, Elements(s'.observed))
    decreases 256 - |Join(p)|, 1, 0
  {
    var s' := ObserveEntry(w, lim, s, d, p, e).1;
    if e.isDirectory {
      ObserveChildWalked(w, lim, s, d, p, e, lo);
    } else if ReadsFile(e) {
      ReadSound(w, s.now, d, e.name, lim);
      var (read, now) := ReadRegularAt(w, s.now, d, e.name, lim);
      FileAssembled(w, lo, s, s', now, p, e, read.value.0);
    }
  }

  lemma {:induction false} ObserveChildWalked(w: World, lim: Limits, s: State, d: NodeId, p: Path, e: Entry, lo: nat)
    requires History(w) && Shaped(p, e) && e.isDirectory && lo <= s.now
    requires NothingBelow(s.observed, e.path)
    requires ObserveChild(w, lim, s, d, p, e).0 == Stable
    ensures var s' := ObserveChild(w, lim, s, d, p, e).1;
      && Grown(w, lo, s, s', p, [e])
      && EntryDone(w, lo, s'.now, e, s'.snapshots, Elements(s'.observed))
    decreases 256 - |Join(p)|, 0, 0
  {
    hide Walked, Grown, EntryDone, ObserveDirectory;
    JoinGrows(p, e.name);
    var c := LinkAt(w(s.now), d, e.name).value;
    var start := s.(now := s.now + 2);
    var s1 := ObserveDirectory(w, lim, start, c, e.path).1;
    ObserveDirectoryWalked(w, lim, start, c, e.path);
    StatIdentity(w(s1.now), d, e.name, e.identity);
    ChildAssembled(w, lo, s, s1, p, e, c, e.identity.node);
  }

  lemma StatIdentity(s: Tree, d: NodeId, name: Name, id: Identity)
    requires WellFormed(s) && StatAt(s, d, name) == Some(id)
    ensures HasIdentity(s, id.node, id) && LinkAt(s, d, name) == Some(id.node)
  {
  }

  lemma ChildAssembled(w: World, lo: nat, s: State, s1: State, p: Path, e: Entry, c: NodeId, c': NodeId)
    requires History(w) && Shaped(p, e) && e.isDirectory && lo <= s.now
    requires e.path in s1.snapshots && Grown(w, s.now + 2, s.(now := s.now + 2), s1, e.path, s1.snapshots[e.path])
    requires HasIdentity(w(s.now + 1), c, e.identity) && HasIdentity(w(s1.now), c', e.identity)
    requires Walked(w, s.now + 2, s1.now, c, e.path, s1.snapshots, Elements(s1.observed))
    ensures var s' := s1.(now := s1.now + 1);
      && Grown(w, lo, s, s', p, [e])
      && EntryDone(w, lo, s'.now, e, s'.snapshots, Elements(s'.observed))
  {
    Steady(w, s.now + 1, s1.now, s1.now, c, c', e.identity);
    ChildGrown(w, lo, s, s1, p, e);
    DirectoryWalkedIntro(w, lo, s.now + 1, s.now + 2, s1.now, e, c, s1.snapshots, Elements(s1.observed));
  }

  lemma ChildGrown(w: World, lo: nat, s: State, s1: State, p: Path, e: Entry)
    requires Shaped(p, e) && e.isDirectory && lo <= s.now
    requires e.path in s1.snapshots && Grown(w, s.now + 2, s.(now := s.now + 2), s1, e.path, s1.snapshots[e.path])
    ensures Grown(w, lo, s, s1.(now := s1.now + 1), p, [e])
  {
    var s' := s1.(now := s1.now + 1);
    forall i | |s.observed| <= i < |s'.observed|
      ensures CoveredBy(w, lo, s'.now, p, [e], s'.observed[i].0, s'.observed[i].1)
    {
      assert CoveredBy(w, s.now + 2, s1.now, e.path, s1.snapshots[e.path], s1.observed[i].0, s1.observed[i].1);
      assert e.path < s'.observed[i].0;
      assert Covered(w, lo, s'.now, p, [e][0], s'.observed[i].0, s'.observed[i].1);
    }
  }

  lemma DirectoryWalkedIntro(w: World, lo: nat, a: nat, from: nat, b: nat, e: Entry, c: NodeId, snaps: Snapshots,
                             obs: Files)
    requires lo <= a < from && e.isDirectory
    requires HasIdentity(w(a), c, e.identity) && HasIdentity(w(b), c, e.identity)
    requires Walked(w, from, b, c, e.path, snaps, obs)
    ensures EntryDone(w, lo, b + 1, e, snaps, obs)
  {
  }

  lemma FileAssembled(w: World, lo: nat, s: State, s': State, now: nat, p: Path, e: Entry, content: Bytes)
    requires Shaped(p, e) && ReadsFile(e) && lo <= s.now <= now
    requires NothingBelow(s.observed, e.path)
    requires FileRead(w, s.now, now, e.identity, content)
    requires s' == State(now + 1, s.observed + [(e.path, content)], s.snapshots)
    ensures Grown(w, lo, s, s', p, [e])
    ensures EntryDone(w, lo, s'.now, e, s'.snapshots, Elements(s'.observed))
  {
    var t: nat, n :| s.now <= t < now && HasIdentity(w(t), n, e.identity) && w(t).nodes[n].body == Regular(content);
    assert Covered(w, lo, s'.now, p, [e][0], e.path, content);
    assert s'.observed[|s.observed|] == (e.path, content);
    assert (e.path, content) in Elements(s'.observed);
  }

  // ---- pass two -------------------------------------------------------------------

  ghost predicate SnapshottedFrom(w: World, lo: nat, d: NodeId, p: Path, snap: seq<Entry>) {
    exists hi: nat :: Snapshotted(w, lo, hi, d, p, snap)
  }

  /** Directory `d` was looked at again by a listing at `lo`, and so was everything below it later. */
  ghost predicate Revalidated(w: World, lo: nat, d: NodeId, p: Path, snaps: Snapshots)
    decreases 256 - |Join(p)|, 0
  {
    && p in snaps
    && SnapshottedFrom(w, lo, d, p, snaps[p])
    && (forall i | 0 <= i < |snaps[p]| && snaps[p][i].isDirectory ::
          JoinGrows(p, snaps[p][i].name);
          DirectoryRevalidated(w, lo, snaps[p][i], snaps))
  }

  ghost predicate DirectoryRevalidated(w: World, lo: nat, e: Entry, snaps: Snapshots)
    decreases 256 - |Join(e.path)|, 1
  {
    exists c, a: nat, from: nat ::
      && lo <= a < from && IsDirectory(w(from), c)
      && HasIdentity(w(a), c, e.identity) && Revalidated(w, from, c, e.path, snaps)
  }

  lemma {:induction false} RevalidateSound(w: World, now: nat, d: NodeId, p: Path, snaps: Snapshots)
    requires Revalidate(w, now, d, p, snaps).0
    ensures Revalidated(w, now, d, p, snaps)
    decreases 256 - |Join(p)|, 1, 0
  {
    hide Snapshotted;
    var now' := DirectorySnapshot(w, now, d, p).1;
    SnapshotSound(w, now, d, p);
    RevalidateEntriesSound(w, now', d, p, snaps[p], snaps);
    forall i | 0 <= i < |snaps[p]| && snaps[p][i].isDirectory
      ensures DirectoryRevalidated(w, now, snaps[p][i], snaps)
    {
      DirectoryRevalidatedEarlier(w, now', now, snaps[p][i], snaps);
    }
  }

  lemma DirectoryRevalidatedEarlier(w: World, lo: nat, lo': nat, e: Entry, snaps: Snapshots)
    requires lo' <= lo && DirectoryRevalidated(w, lo, e, snaps)
    ensures DirectoryRevalidated(w, lo', e, snaps)
  {
    hide Revalidated;
  }

  lemma DirectoryRevalidatedIntro(w: World, lo: nat, a: nat, from: nat, c: NodeId, e: Entry, snaps: Snapshots)
    requires lo <= a < from && HasIdentity(w(a), c, e.identity) && Revalidated(w, from, c, e.path, snaps)
    ensures DirectoryRevalidated(w, lo, e, snaps)
  {
    var hi: nat :| Snapshotted(w, from, hi, c, e.path, snaps[e.path]);
    assert IsDirectory(w(from), c);
    hide Revalidated;
  }

  lemma {:induction false} RevalidateEntriesSound(w: World, now: nat, d: NodeId, p: Path, es: seq<Entry>,
                                                  snaps: Snapshots)
    requires AllShaped(p, es) && RevalidateEntries(w, now, d, p, es, snaps).0
    ensures forall i | 0 <= i < |es| && es[i].isDirectory :: DirectoryRevalidated(w, now, es[i], snaps)
    decreases 256 - |Join(p)|, 0, |es|
  {
    hide Revalidated, Revalidate, DirectoryRevalidated;
    if es != [] {
      var e := es[0];
      var mid := now;
      if e.isDirectory {
        JoinGrows(p, e.name);
        var c := LinkAt(w(now), d, e.name).value;
        mid := Revalidate(w, now + 2, c, e.path, snaps).1;
        RevalidateSound(w, now + 2, c, e.path, snaps);
        DirectoryRevalidatedIntro(w, now, now + 1, now + 2, c, e, snaps);
      }
      RevalidateEntriesSound(w, mid, d, p, es[1..], snaps);
      forall i | 0 <= i < |es| && es[i].isDirectory ensures DirectoryRevalidated(w, now, es[i], snaps) {
        if i > 0 {
          assert es[i] == es[1..][i - 1];
          DirectoryRevalidatedEarlier(w, mid, now, es[i], snaps);
        }
      }
    }
  }

  // ---- the single instant ---------------------------------------------------------

  /** At state `s`, directory `d` has exactly the recorded relevant entries. */
  ghost predicate Matches(s: Tree, d: NodeId, p: Path, snap: seq<Entry>) {
    && IsDirectory(s, d)
    && (forall i | 0 <= i < |snap| :: Faithful(p, snap[i]) && StatAt(s, d, snap[i].name) == Some(snap[i].identity))
    && (forall name | name in Entries(s, d) && SafeName(name) && StatAt(s, d, name).Some? && !Names(snap, name) ::
          Classify(p + [name], StatAt(s, d, name).value.mode) == None)
  }

  /** An entry of a directory that is untouched from `a` to `z`, seen before and after `t`, is there at `t`. */
  lemma FencedEntry(w: World, t: nat, a: nat, k1: nat, z: nat, k2: nat, d: NodeId, id: Identity, name: Name,
                    child: Identity)
    requires History(w) && a <= k1 <= t <= z && t <= k2
    requires HasIdentity(w(a), d, id) && HasIdentity(w(z), d, id)
    requires StatAt(w(k1), d, name) == Some(child) && StatAt(w(k2), d, name) == Some(child)
    ensures StatAt(w(t), d, name) == Some(child)
  {
    Steady(w, a, k1, z, d, d, id);
    Steady(w, a, t, z, d, d, id);
    StatIdentity(w(k1), d, name, child);
    StatIdentity(w(k2), d, name, child);
    Steady(w, k1, t, k2, child.node, child.node, child);
  }

  lemma FencedIgnored(w: World, t: nat, a: nat, lo: nat, hi: nat, z: nat, d: NodeId, id: Identity, p: Path, name: Name)
    requires History(w) && a < lo && hi <= t <= z
    requires HasIdentity(w(a), d, id) && HasIdentity(w(z), d, id)
    requires Ignored(w, lo, hi, d, p, name) && StatAt(w(t), d, name).Some?
    ensures Classify(p + [name], StatAt(w(t), d, name).value.mode) == None
  {
    var k: nat :| lo <= k < hi && StatAt(w(k), d, name).Some? &&
      Classify(p + [name], StatAt(w(k), d, name).value.mode) == None;
    Steady(w, a, k, z, d, d, id);
    Steady(w, a, t, z, d, d, id);
    var n := Entries(w(a), d)[name];
    assert ModeAt(w(a), n) == ModeAt(w(k), n) == ModeAt(w(t), n);
  }

  /** A child whose identity is fenced on both sides of `t` matches its record at `t`. */
  lemma FencedMatches(w: World, t: nat, a: nat, lo: nat, hi: nat, z: nat, lo2: nat,
                      d: NodeId, id: Identity, p: Path, snap: seq<Entry>)
    requires History(w) && a < lo && hi <= t <= z < lo2
    requires HasIdentity(w(a), d, id) && HasIdentity(w(z), d, id)
    requires Snapshotted(w, lo, hi, d, p, snap) && SnapshottedFrom(w, lo2, d, p, snap)
    ensures Matches(w(t), d, p, snap)
  {
    hide Classify, Faithful;
    var hi2: nat :| Snapshotted(w, lo2, hi2, d, p, snap);
    Steady(w, a, t, z, d, d, id);
    Steady(w, a, lo, z, d, d, id);
    assert Entries(w(lo), d) == Entries(w(t), d);
    FencedEntries(w, t, a, lo, hi, z, lo2, hi2, d, id, p, snap);
    forall name | name in Entries(w(t), d) && SafeName(name) && StatAt(w(t), d, name).Some? && !Names(snap, name)
      ensures Classify(p + [name], StatAt(w(t), d, name).value.mode) == None
    {
      FencedName(w, lo, hi, d, p, snap, name);
      FencedIgnored(w, t, a, lo + 1, hi, z, d, id, p, name);
    }
  }

  lemma FencedName(w: World, lo: nat, hi: nat, d: NodeId, p: Path, snap: seq<Entry>, name: Name)
    requires Snapshotted(w, lo, hi, d, p, snap) && name in Entries(w(lo), d) && SafeName(name) && !Names(snap, name)
    ensures Ignored(w, lo + 1, hi, d, p, name)
  {
    var names := SafeNames(w(lo), d);
    var i :| 0 <= i < |names| && names[i] == name;
  }

  lemma FencedEntries(w: World, t: nat, a: nat, lo: nat, hi: nat, z: nat, lo2: nat, hi2: nat,
                      d: NodeId, id: Identity, p: Path, snap: seq<Entry>)
    requires History(w) && a < lo && hi <= t <= z < lo2
    requires HasIdentity(w(a), d, id) && HasIdentity(w(z), d, id)
    requires Snapshotted(w, lo, hi, d, p, snap) && Snapshotted(w, lo2, hi2, d, p, snap)
    ensures forall i | 0 <= i < |snap| ::
            Faithful(p, snap[i]) && StatAt(w(t), d, snap[i].name) == Some(snap[i].identity)
  {
    hide Classify, Faithful, StatAt, AllCovered;
    forall i | 0 <= i < |snap| ensures StatAt(w(t), d, snap[i].name) == Some(snap[i].identity) {
      assert StatSeen(w, lo + 1, hi, d, snap[i].name, snap[i].identity);
      assert StatSeen(w, lo2 + 1, hi2, d, snap[i].name, snap[i].identity);
      var k1: nat :| lo + 1 <= k1 < hi && StatAt(w(k1), d, snap[i].name) == Some(snap[i].identity);
      var k2: nat :| lo2 + 1 <= k2 < hi2 && StatAt(w(k2), d, snap[i].name) == Some(snap[i].identity);
      FencedEntry(w, t, a, k1, z, k2, d, id, snap[i].name, snap[i].identity);
    }
  }

  /** The recorded files below `p` are exactly those the tree `s` has there. */
  ghost predicate Exact(s: Tree, d: NodeId, p: Path, obs: Files) {
    forall path, content | p < path :: (path, content) in obs <==> InTree(s, d, p, path, content)
  }

  lemma ReadAtInstant(w: World, t: nat, lo: nat, hi: nat, id: Identity, n: NodeId, content: Bytes)
    requires History(w) && hi <= t && FileRead(w, lo, hi, id, content) && HasIdentity(w(t), n, id)
    ensures w(t).nodes[n].body == Regular(content)
  {
    var k: nat, m :| lo <= k < hi && HasIdentity(w(k), m, id) && w(k).nodes[m].body == Regular(content);
    Steady(w, k, t, t, m, n, id);
  }

  lemma {:induction false} InTreeBelow(s: Tree, d: NodeId, p: Path, path: Path, content: Bytes)
    requires InTree(s, d, p, path, content)
    ensures p < path
    decreases 256 - |Join(p)|
  {
    hide Classify;
    var name :| name in Entries(s, d) && SafeName(name) && Entries(s, d)[name] in s.nodes &&
      var c := Entries(s, d)[name];
      match Classify(p + [name], s.nodes[c].identity.mode)
      case Some(true) => InTree(s, c, p + [name], path, content)
      case Some(false) => path == p + [name] && s.nodes[c].body == Regular(content)
      case None => false;
    var c := Entries(s, d)[name];
    if Classify(p + [name], s.nodes[c].identity.mode) == Some(true) {
      DirectoryRoom(p, name, s.nodes[c].identity.mode);
      InTreeBelow(s, c, p + [name], path, content);
    }
  }

  lemma DirectoryRoom(p: Path, name: Name, mode: Mode)
    requires name != "" && Classify(p + [name], mode) == Some(true)
    ensures |Join(p)| < |Join(p + [name])| < 256
  {
    JoinGrows(p, name);
  }

  /** Membership through one named entry, at a matching directory. */
  lemma InTreeThrough(s: Tree, d: NodeId, p: Path, e: Entry, path: Path, content: Bytes)
    requires WellFormed(s) && IsDirectory(s, d)
    requires Faithful(p, e) && StatAt(s, d, e.name) == Some(e.identity)
    requires if e.isDirectory then InTree(s, e.identity.node, e.path, path, content)
             else path == e.path && s.nodes[e.identity.node].body == Regular(content)
    ensures InTree(s, d, p, path, content)
  {
    hide Classify;
    StatIdentity(s, d, e.name, e.identity);
    assert e.name in Entries(s, d);
  }

  ghost predicate ChildrenExact(s: Tree, snap: seq<Entry>, obs: Files) {
    forall i | 0 <= i < |snap| && snap[i].isDirectory :: Exact(s, snap[i].identity.node, snap[i].path, obs)
  }

  lemma RecordedInTree(w: World, t: nat, lo: nat, hi: nat, d: NodeId, p: Path, snap: seq<Entry>, obs: Files,
                       path: Path, content: Bytes)
    requires History(w) && hi <= t && Matches(w(t), d, p, snap) && ChildrenExact(w(t), snap, obs)
    requires (path, content) in obs && CoveredBy(w, lo, hi, p, snap, path, content)
    ensures InTree(w(t), d, p, path, content)
  {
    hide InTree, Classify;
    var i :| 0 <= i < |snap| && Covered(w, lo, hi, p, snap[i], path, content);
    var e := snap[i];
    StatIdentity(w(t), d, e.name, e.identity);
    if |path| == |p| + 1 {
      assert path == e.path;
      ReadAtInstant(w, t, lo, hi, e.identity, e.identity.node, content);
    } else {
      assert e.path < path;
      assert Exact(w(t), e.identity.node, e.path, obs);
    }
    InTreeThrough(w(t), d, p, e, path, content);
  }

  lemma TreeRecorded(w: World, t: nat, lo: nat, hi: nat, d: NodeId, p: Path, snap: seq<Entry>, obs: Files,
                     path: Path, content: Bytes)
    requires History(w) && hi <= t && Matches(w(t), d, p, snap) && ChildrenExact(w(t), snap, obs)
    requires forall i | 0 <= i < |snap| && ReadsFile(snap[i]) :: exists content :: (snap[i].path, content) in obs
    requires forall x | x in obs && p < x.0 :: CoveredBy(w, lo, hi, p, snap, x.0, x.1)
    requires Ordered(snap) && InTree(w(t), d, p, path, content)
    ensures (path, content) in obs
  {
    var s := w(t);
    var name :| name in Entries(s, d) && SafeName(name) && Entries(s, d)[name] in s.nodes &&
      var c := Entries(s, d)[name];
      match Classify(p + [name], s.nodes[c].identity.mode)
      case Some(true) => InTree(s, c, p + [name], path, content)
      case Some(false) => path == p + [name] && s.nodes[c].body == Regular(content)
      case None => false;
    hide InTree;
    var c := Entries(s, d)[name];
    assert StatAt(s, d, name) == Some(s.nodes[c].identity);
    assert Names(snap, name);
    var i :| 0 <= i < |snap| && snap[i].name == name;
    var e := snap[i];
    assert WellFormed(s);
    assert c == e.identity.node;
    if e.isDirectory {
      InTreeBelow(s, c, e.path, path, content);
      assert Exact(s, c, e.path, obs);
    } else {
      FileRecorded(w, t, lo, hi, p, snap, i, obs, content);
    }
  }

  lemma FileRecorded(w: World, t: nat, lo: nat, hi: nat, p: Path, snap: seq<Entry>, i: nat, obs: Files, content: Bytes)
    requires History(w) && hi <= t && i < |snap| && Ordered(snap)
    requires Faithful(p, snap[i]) && !snap[i].isDirectory
    requires HasIdentity(w(t), snap[i].identity.node, snap[i].identity)
    requires w(t).nodes[snap[i].identity.node].body == Regular(content)
    requires ReadsFile(snap[i]) ==> exists content :: (snap[i].path, content) in obs
    requires forall x | x in obs && p < x.0 :: CoveredBy(w, lo, hi, p, snap, x.0, x.1)
    ensures (snap[i].path, content) in obs
  {
    var e := snap[i];
    assert WellFormed(w(t));
    assert ReadsFile(e);
    var content' :| (e.path, content') in obs;
    assert CoveredBy(w, lo, hi, p, snap, e.path, content');
    var j :| 0 <= j < |snap| && Covered(w, lo, hi, p, snap[j], e.path, content');
    SameName(snap, i, j);
    ReadAtInstant(w, t, lo, hi, e.identity, e.identity.node, content');
  }

  lemma SameName(snap: seq<Entry>, i: nat, j: nat)
    requires Ordered(snap) && i < |snap| && j < |snap| && snap[i].name == snap[j].name
    ensures i == j
  {
    LessIrreflexive(snap[i].name);
  }

  /** From a matching top directory, the whole subtree is the tree at instant `t`. */
  lemma {:induction false} SubtreeAtomic(w: World, t: nat, lo: nat, hi: nat, lo2: nat, d: NodeId, p: Path,
                                         snaps: Snapshots, obs: Files)
    requires History(w) && hi <= t <= lo2
    requires Walked(w, lo, hi, d, p, snaps, obs) && Revalidated(w, lo2, d, p, snaps)
    requires Matches(w(t), d, p, snaps[p])
    ensures Exact(w(t), d, p, obs)
    decreases 256 - |Join(p)|, 0
  {
    hide InTree, Classify, CoveredBy;
    var snap := snaps[p];
    forall i | 0 <= i < |snap| && snap[i].isDirectory
      ensures Exact(w(t), snap[i].identity.node, snap[i].path, obs)
    {
      var e := snap[i];
      JoinGrows(p, e.name);
      ChildAtomic(w, t, lo, hi, lo2, e, snaps, obs);
    }
    forall path, content | p < path ensures (path, content) in obs <==> InTree(w(t), d, p, path, content) {
      if (path, content) in obs {
        assert CoveredBy(w, lo, hi, p, snap, path, content);
        RecordedInTree(w, t, lo, hi, d, p, snap, obs, path, content);
      }
      if InTree(w(t), d, p, path, content) {
        TreeRecorded(w, t, lo, hi, d, p, snap, obs, path, content);
      }
    }
  }

  lemma {:induction false} ChildAtomic(w: World, t: nat, lo: nat, hi: nat, lo2: nat, e: Entry,
                                       snaps: Snapshots, obs: Files)
    requires History(w) && hi <= t <= lo2 && e.isDirectory
    requires DirectoryWalked(w, lo, hi, e, snaps, obs) && DirectoryRevalidated(w, lo2, e, snaps)
    ensures Exact(w(t), e.identity.node, e.path, obs)
    decreases 256 - |Join(e.path)|, 1
  {
    hide Exact, Matches, Snapshotted;
    var c, a: nat, from: nat, b: nat :|
      && lo <= a < from < b < hi && IsDirectory(w(from), c)
      && HasIdentity(w(a), c, e.identity) && HasIdentity(w(b), c, e.identity)
      && Walked(w, from, b, c, e.path, snaps, obs);
    var c', a': nat, from': nat :|
      && lo2 <= a' < from' && IsDirectory(w(from'), c')
      && HasIdentity(w(a'), c', e.identity) && Revalidated(w, from', c', e.path, snaps);
    Steady(w, a, t, a', c, c', e.identity);
    assert c == e.identity.node by {
      assert WellFormed(w(a));
    }
    FencedMatches(w, t, a, from, b, a', from', c, e.identity, e.path, snaps[e.path]);
    SubtreeAtomic(w, t, from, b, from', c, e.path, snaps, obs);
  }

  // ---- the theorems ---------------------------------------------------------------

  ghost predicate Succeeds(w: World, lim: Limits, now: nat, root: NodeId, curated: Path) {
    ObserveMarkdownFiles(w, lim, now, root, curated).Observed?
  }

  /** The instant: the listing of the top directory that opens the second pass. */
  ghost function Instant(w: World, lim: Limits, now: nat, root: NodeId, curated: Path): nat {
    RunWalk(w, lim, now, root, curated).state.now
  }

  ghost function Top(w: World, now: nat, root: NodeId, curated: Path): NodeId
    requires OpenSubtree(w, now, root, curated).0.Some?
  {
    OpenSubtree(w, now, root, curated).0.value
  }

  lemma RunFacts(w: World, lim: Limits, now: nat, root: NodeId, curated: Path)
    requires History(w) && Succeeds(w, lim, now, root, curated)
    ensures var s := RunWalk(w, lim, now, root, curated).state;
      var (top, start) := OpenSubtree(w, now, root, curated);
      && top.Some? && curated in s.snapshots
      && Walked(w, start, s.now, top.value, curated, s.snapshots, Elements(s.observed))
      && Revalidated(w, s.now, top.value, curated, s.snapshots)
      && UniquePaths(s.observed)
      && (forall x | x in s.observed :: curated < x.0)
      && DirectorySnapshot(w, s.now, top.value, curated).0 == Some(s.snapshots[curated])
  {
    hide Walked, Revalidated, ObserveDirectory, OpenSubtree, DirectorySnapshot;
    var (top, start) := OpenSubtree(w, now, root, curated);
    var s := RunWalk(w, lim, now, root, curated).state;
    ObserveDirectoryWalked(w, lim, State(start, [], map[]), top.value, curated);
    RevalidateSound(w, s.now, top.value, curated, s.snapshots);
    forall x | x in s.observed ensures curated < x.0 {
      var i :| 0 <= i < |s.observed| && s.observed[i] == x;
      assert CoveredBy(w, start, s.now, curated, s.snapshots[curated], x.0, x.1);
    }
  }

  /** The result lists exactly the regular Markdown files and contents of the tree `s`. */
  ghost predicate IsTreeOf(files: seq<(Path, Bytes)>, s: Tree, d: NodeId, p: Path) {
    forall path, content :: (path, content) in files <==> InTree(s, d, p, path, content)
  }

  /** If the top directory's own entries at the instant are the recorded ones, so is the whole tree. */
  lemma ObservationAtomic(w: World, lim: Limits, now: nat, root: NodeId, curated: Path)
    requires History(w) && Succeeds(w, lim, now, root, curated)
    ensures OpenSubtree(w, now, root, curated).0.Some?
    ensures var s := RunWalk(w, lim, now, root, curated).state;
      var t := Instant(w, lim, now, root, curated);
      var top := Top(w, now, root, curated);
      && curated in s.snapshots
      && (Matches(w(t), top, curated, s.snapshots[curated]) ==>
            IsTreeOf(ObserveMarkdownFiles(w, lim, now, root, curated).files, w(t), top, curated))
  {
    hide Walked, Revalidated, Matches, InTree;
    RunFacts(w, lim, now, root, curated);
    var (top, start) := OpenSubtree(w, now, root, curated);
    var s := RunWalk(w, lim, now, root, curated).state;
    if Matches(w(s.now), top.value, curated, s.snapshots[curated]) {
      SubtreeAtomic(w, s.now, start, s.now, s.now, top.value, curated, s.snapshots, Elements(s.observed));
      ExactIsTree(w(s.now), top.value, curated, s.observed);
    }
  }

  lemma ExactIsTree(s: Tree, d: NodeId, p: Path, observed: seq<(Path, Bytes)>)
    requires Exact(s, d, p, Elements(observed)) && forall x | x in observed :: p < x.0
    ensures IsTreeOf(SortFiles(observed), s, d, p)
  {
    hide InTree;
    forall path, content ensures (path, content) in SortFiles(observed) <==> InTree(s, d, p, path, content) {
      assert (path, content) in SortFiles(observed) <==> (path, content) in multiset(SortFiles(observed));
      assert (path, content) in multiset(observed) <==> (path, content) in observed;
      if InTree(s, d, p, path, content) {
        InTreeBelow(s, d, p, path, content);
      }
    }
  }

  lemma {:induction false} UniqueOnce(observed: seq<(Path, Bytes)>, x: (Path, Bytes))
    requires UniquePaths(observed)
    ensures multiset(observed)[x] <= 1
  {
    if observed != [] {
      var rest := observed[..|observed| - 1];
      assert observed == rest + [observed[|observed| - 1]];
      UniqueOnce(rest, x);
      if observed[|observed| - 1] == x {
        assert x !in rest;
      }
    }
  }

  /** The result is in canonical path order and lists every path at most once, whatever raced with it. */
  lemma ObservationCanonical(w: World, lim: Limits, now: nat, root: NodeId, curated: Path)
    requires History(w) && Succeeds(w, lim, now, root, curated)
    ensures var files := ObserveMarkdownFiles(w, lim, now, root, curated).files;
      && InPathOrder(files)
      && (forall x :: multiset(files)[x] <= 1)
      && (forall x, y | x in files && y in files && x.0 == y.0 :: x == y)
  {
    hide Walked, Revalidated, InPathOrder, SortFiles, UniquePaths, ObserveDirectory, Revalidate;
    RunFacts(w, lim, now, root, curated);
    SortedUnique(RunWalk(w, lim, now, root, curated).state.observed);
  }

  lemma SortedUnique(observed: seq<(Path, Bytes)>)
    requires UniquePaths(observed)
    ensures InPathOrder(SortFiles(observed))
    ensures forall x :: multiset(SortFiles(observed))[x] <= 1
    ensures forall x, y | x in SortFiles(observed) && y in SortFiles(observed) && x.0 == y.0 :: x == y
  {
    var files := SortFiles(observed);
    SortFilesInOrder(observed);
    hide InPathOrder, SortFiles;
    forall x ensures multiset(files)[x] <= 1 {
      UniqueOnce(observed, x);
    }
    forall x, y | x in files && y in files && x.0 == y.0 ensures x == y {
      assert x in multiset(files) && y in multiset(files);
      assert x in observed && y in observed;
    }
  }

  /** Nobody touched the top directory while its second snapshot was taken. */
  ghost predicate TopQuiet(w: World, t: nat, top: NodeId, curated: Path) {
    forall k: nat | t <= k < DirectorySnapshot(w, t, top, curated).1 :: Kept(w(t), w(k), top)
  }

  lemma QuietMatches(w: World, lo: nat, hi: nat, t: nat, top: NodeId, p: Path, snap: seq<Entry>)
    requires History(w) && hi <= t
    requires Snapshotted(w, lo, hi, top, p, snap)
    requires DirectorySnapshot(w, t, top, p).0 == Some(snap) && TopQuiet(w, t, top, p)
    ensures Matches(w(t), top, p, snap)
  {
    hide Classify, Faithful, StatAt, SafeNames;
    SnapshotSound(w, t, top, p);
    var end := DirectorySnapshot(w, t, top, p).1;
    forall i | 0 <= i < |snap| ensures StatAt(w(t), top, snap[i].name) == Some(snap[i].identity) {
      QuietEntry(w, lo, hi, t, end, top, snap[i].name, snap[i].identity);
    }
    forall name | name in Entries(w(t), top) && SafeName(name) && StatAt(w(t), top, name).Some? && !Names(snap, name)
      ensures Classify(p + [name], StatAt(w(t), top, name).value.mode) == None
    {
      FencedName(w, t, end, top, p, snap, name);
      QuietIgnored(w, t, end, top, p, name);
    }
  }

  lemma QuietIgnored(w: World, t: nat, end: nat, top: NodeId, p: Path, name: Name)
    requires Ignored(w, t + 1, end, top, p, name) && StatAt(w(t), top, name).Some?
    requires forall k: nat | t <= k < end :: Kept(w(t), w(k), top)
    ensures Classify(p + [name], StatAt(w(t), top, name).value.mode) == None
  {
    hide Classify;
    var k: nat :| t + 1 <= k < end && StatAt(w(k), top, name).Some? &&
      Classify(p + [name], StatAt(w(k), top, name).value.mode) == None;
    assert Kept(w(t), w(k), top);
    var n := Entries(w(t), top)[name];
    assert ModeAt(w(t), n) == ModeAt(w(k), n);
  }

  lemma QuietEntry(w: World, lo: nat, hi: nat, t: nat, end: nat, top: NodeId, name: Name, id: Identity)
    requires History(w) && hi <= t
    requires StatSeen(w, lo + 1, hi, top, name, id) && StatSeen(w, t + 1, end, top, name, id)
    requires forall k: nat | t <= k < end :: Kept(w(t), w(k), top)
    ensures StatAt(w(t), top, name) == Some(id)
  {
    var k1: nat :| lo + 1 <= k1 < hi && StatAt(w(k1), top, name) == Some(id);
    var k2: nat :| t + 1 <= k2 < end && StatAt(w(k2), top, name) == Some(id);
    StatIdentity(w(k1), top, name, id);
    StatIdentity(w(k2), top, name, id);
    Steady(w, k1, t, k2, id.node, id.node, id);
    assert Kept(w(t), w(k2), top);
  }

  /** Whatever others do anywhere else, at any time, a successful walk returns the tree at one instant. */
  lemma AtomicWhenTopQuiet(w: World, lim: Limits, now: nat, root: NodeId, curated: Path)
    requires History(w) && Succeeds(w, lim, now, root, curated)
    requires OpenSubtree(w, now, root, curated).0.Some?
    requires TopQuiet(w, Instant(w, lim, now, root, curated), Top(w, now, root, curated), curated)
    ensures IsTreeOf(ObserveMarkdownFiles(w, lim, now, root, curated).files,
                     w(Instant(w, lim, now, root, curated)), Top(w, now, root, curated), curated)
  {
    hide Revalidated, Matches, InTree, TopQuiet;
    RunFacts(w, lim, now, root, curated);
    var (top, start) := OpenSubtree(w, now, root, curated);
    var s := RunWalk(w, lim, now, root, curated).state;
    QuietMatches(w, start, s.now, s.now, top.value, curated, s.snapshots[curated]);
    ObservationAtomic(w, lim, now, root, curated);
  }

  /** Every recorded directory, not only the top one, matches the tree `s`. */
  ghost predicate TreeMatches(s: Tree, d: NodeId, p: Path, snaps: Snapshots)
    decreases 256 - |Join(p)|
  {
    && p in snaps
    && Matches(s, d, p, snaps[p])
    && (forall i | 0 <= i < |snaps[p]| && snaps[p][i].isDirectory ::
          JoinGrows(p, snaps[p][i].name);
          TreeMatches(s, snaps[p][i].identity.node, snaps[p][i].path, snaps))
  }

  /** The walk fences every directory except its top: the record is the tree at the instant exactly
      when the one unfenced directory shows its recorded entries there. */
  lemma RecordExactlyTop(w: World, lim: Limits, now: nat, root: NodeId, curated: Path)
    requires History(w) && Succeeds(w, lim, now, root, curated)
    requires OpenSubtree(w, now, root, curated).0.Some?
    ensures var s := RunWalk(w, lim, now, root, curated).state;
      var t := Instant(w, lim, now, root, curated);
      var top := Top(w, now, root, curated);
      && curated in s.snapshots
      && (TreeMatches(w(t), top, curated, s.snapshots) <==> Matches(w(t), top, curated, s.snapshots[curated]))
  {
    hide Walked, Revalidated, Matches;
    RunFacts(w, lim, now, root, curated);
    var (top, start) := OpenSubtree(w, now, root, curated);
    var s := RunWalk(w, lim, now, root, curated).state;
    if Matches(w(s.now), top.value, curated, s.snapshots[curated]) {
      SubtreeMatches(w, s.now, start, s.now, s.now, top.value, curated, s.snapshots, Elements(s.observed));
    }
  }

  lemma {:induction false} SubtreeMatches(w: World, t: nat, lo: nat, hi: nat, lo2: nat, d: NodeId, p: Path,
                                          snaps: Snapshots, obs: Files)
    requires History(w) && hi <= t <= lo2
    requires Walked(w, lo, hi, d, p, snaps, obs) && Revalidated(w, lo2, d, p, snaps)
    requires Matches(w(t), d, p, snaps[p])
    ensures TreeMatches(w(t), d, p, snaps)
    decreases 256 - |Join(p)|, 0
  {
    hide Matches, CoveredBy;
    forall i | 0 <= i < |snaps[p]| && snaps[p][i].isDirectory
      ensures TreeMatches(w(t), snaps[p][i].identity.node, snaps[p][i].path, snaps)
    {
      JoinGrows(p, snaps[p][i].name);
      ChildMatches(w, t, lo, hi, lo2, snaps[p][i], snaps, obs);
    }
  }

  lemma {:induction false} ChildMatches(w: World, t: nat, lo: nat, hi: nat, lo2: nat, e: Entry, snaps: Snapshots,
                                        obs: Files)
    requires History(w) && hi <= t <= lo2 && e.isDirectory
    requires DirectoryWalked(w, lo, hi, e, snaps, obs) && DirectoryRevalidated(w, lo2, e, snaps)
    ensures TreeMatches(w(t), e.identity.node, e.path, snaps)
    decreases 256 - |Join(e.path)|, 1
  {
    hide TreeMatches, Matches, Snapshotted;
    var c, a: nat, from: nat, b: nat :|
      && lo <= a < from < b < hi && IsDirectory(w(from), c)
      && HasIdentity(w(a), c, e.identity) && HasIdentity(w(b), c, e.identity)
      && Walked(w, from, b, c, e.path, snaps, obs);
    var c', a': nat, from': nat :|
      && lo2 <= a' < from' && IsDirectory(w(from'), c')
      && HasIdentity(w(a'), c', e.identity) && Revalidated(w, from', c', e.path, snaps);
    Steady(w, a, t, a', c, c', e.identity);
    assert c == e.identity.node by {
      assert WellFormed(w(a));
    }
    FencedMatches(w, t, a, from, b, a', from', c, e.identity, e.path, snaps[e.path]);
    SubtreeMatches(w, t, from, b, from', c, e.path, snaps, obs);
  }
}
