/**
 The walk as the registry runs it: lists that grow, a dictionary of snapshots, loops over
 entries, and a clock that moves on at every system call. Each method is tied to the
 function of `Snapshot` that the theorems are about.
 */
module SnapshotWalk {
  import opened Order
  import opened References
  import opened FileTree
  import opened Snapshot

  class Walk {
    const world: World
    const limits: Limits
    var now: nat
    var observed: seq<(Path, Bytes)>
    var snapshots: Snapshots

    constructor (world: World, limits: Limits, now: nat)
      ensures this.world == world && this.limits == limits
      ensures this.now == now && observed == [] && snapshots == map[]
    {
      this.world, this.limits, this.now := world, limits, now;
      observed, snapshots := [], map[];
    }

    function Current(): State
      reads this
    {
      State(now, observed, snapshots)
    }

    method TakeSnapshot(d: NodeId, p: Path) returns (r: Option<seq<Entry>>)
      modifies `now
      ensures r == DirectorySnapshot(world, old(now), d, p).0
      ensures r.Some? ==> now == DirectorySnapshot(world, old(now), d, p).1
    {
      hide Classify, StatAt, SafeNames, StatNames;
      if !IsDirectory(world(now), d) {
        return None;
      }
      var names := SafeNames(world(now), d);
      now := now + 1;
      ghost var start := now;
      var entries: seq<Entry> := [];
      assert names[0..] == names;
      PrependedNothing(StatNames(world, now, d, p, names));
      for i := 0 to |names|
        invariant now == start + i
        invariant StatNames(world, start, d, p, names) ==
                  Prepended(entries, StatNames(world, now, d, p, names[i..]))
      {
        assert names[i..][0] == names[i] && names[i..][1..] == names[i + 1..];
        PrependedStep(world, now, d, p, names[i..], entries);
        var found := StatAt(world(now), d, names[i]);
        if found.None? {
          return None;
        }
        var kind := Classify(p + [names[i]], found.value.mode);
        if kind.Some? {
          entries := entries + [Entry(names[i], p + [names[i]], found.value, kind.value)];
        }
        now := now + 1;
      }
      assert names[|names|..] == [];
      StatNothing(world, now, d, p, entries);
      r := Some(entries);
    }

    method ReadRegular(d: NodeId, name: Name) returns (r: Option<(Bytes, Identity)>)
      modifies `now
      ensures r == ReadRegularAt(world, old(now), d, name, limits).0
      ensures r.Some? ==> now == ReadRegularAt(world, old(now), d, name, limits).1
    {
      var file := LinkAt(world(now), d, name);
      if file.None? || file.value !in world(now + 1).nodes {
        return None;
      }
      var n := file.value;
      var before := world(now + 1).nodes[n].identity;
      now := now + 2;
      if !before.mode.RegularMode? || before.size > limits.maxFileBytes {
        return None;
      }
      var payload: Bytes := [];
      var more := true;
      ghost var start := now;
      while more && |payload| <= limits.maxFileBytes
        invariant ReadStream(world, start, n, [], limits) ==
                  if more then ReadStream(world, now, n, payload, limits) else (payload, now)
        decreases more, limits.maxFileBytes + 1 - |payload|
      {
        var chunk := Chunk(world(now), n, |payload|, limits);
        now := now + 1;
        assert chunk == [] ==> payload + chunk == payload;
        payload := payload + chunk;
        more := chunk != [];
      }
      if |payload| > limits.maxFileBytes || n !in world(now).nodes || world(now).nodes[n].identity != before {
        return None;
      }
      now := now + 1;
      r := Some((payload, before));
    }

    method Observe(d: NodeId, p: Path) returns (v: Verdict)
      modifies this
      ensures v == ObserveDirectory(world, limits, old(Current()), d, p).0
      ensures v == Stable ==> Current() == ObserveDirectory(world, limits, old(Current()), d, p).1
      decreases 256 - |Join(p)|, 1
    {
      var initial := TakeSnapshot(d, p);
      if initial.None? || p in snapshots {
        return Unstable;
      }
      var es := initial.value;
      snapshots := snapshots[p := es];
      ghost var mid := Current();
      for i := 0 to |es|
        invariant ObserveEntries(world, limits, mid, d, p, es) ==
                  ObserveEntries(world, limits, Current(), d, p, es[i..])
      {
        assert es[i..][0] == es[i] && es[i..][1..] == es[i + 1..];
        v := ObserveOne(d, p, es[i]);
        if v != Stable {
          return;
        }
      }
      assert es[|es|..] == [];
      var again := TakeSnapshot(d, p);
      v := if again == initial then Stable else Unstable;
    }

    method ObserveOne(d: NodeId, p: Path, e: Entry) returns (v: Verdict)
      requires Shaped(p, e)
      modifies this
      ensures v == ObserveEntry(world, limits, old(Current()), d, p, e).0
      ensures v == Stable ==> Current() == ObserveEntry(world, limits, old(Current()), d, p, e).1
      decreases 256 - |Join(p)|, 0
    {
      if e.isDirectory {
        JoinGrows(p, e.name);
        var child := LinkAt(world(now), d, e.name);
        if child.None? || !IsDirectory(world(now), child.value) {
          return Unstable;
        }
        var c := child.value;
        if c !in world(now + 1).nodes || world(now + 1).nodes[c].identity != e.identity {
          return Unstable;
        }
        now := now + 2;
        v := Observe(c, e.path);
        if v == Stable {
          v := if StatAt(world(now), d, e.name) == Some(e.identity) then Stable else Unstable;
          now := now + 1;
        }
      } else if !ReadsFile(e) {
        v := Stable;
      } else {
        var read := ReadRegular(d, e.name);
        if read.None? || StatAt(world(now), d, e.name) != Some(e.identity) || read.value.1 != e.identity {
          return Unstable;
        }
        now := now + 1;
        observed := observed + [(e.path, read.value.0)];
        v := if |observed| > limits.maxBaselineEntries then BoundExceeded else Stable;
      }
    }

    method Confirm(d: NodeId, p: Path) returns (ok: bool)
      modifies `now
      ensures ok == Revalidate(world, old(now), d, p, snapshots).0
      ensures ok ==> now == Revalidate(world, old(now), d, p, snapshots).1
      decreases 256 - |Join(p)|, 1
    {
      if p !in snapshots {
        return false;
      }
      var again := TakeSnapshot(d, p);
      if again != Some(snapshots[p]) {
        return false;
      }
      var es := snapshots[p];
      ghost var start := now;
      assert es[0..] == es;
      for i := 0 to |es|
        invariant RevalidateEntries(world, start, d, p, es, snapshots) ==
                  RevalidateEntries(world, now, d, p, es[i..], snapshots)
      {
        assert es[i..][0] == es[i] && es[i..][1..] == es[i + 1..];
        if es[i].isDirectory {
          ok := ConfirmChild(d, p, es[i..], es[i]);
          if !ok {
            return;
          }
        }
      }
      assert es[|es|..] == [];
      ok := true;
    }

    method ConfirmChild(d: NodeId, p: Path, ghost es: seq<Entry>, e: Entry) returns (ok: bool)
      requires AllShaped(p, es) && es != [] && es[0] == e && e.isDirectory
      modifies `now
      ensures !ok ==> !RevalidateEntries(world, old(now), d, p, es, snapshots).0
      ensures ok ==> RevalidateEntries(world, old(now), d, p, es, snapshots) ==
                     RevalidateEntries(world, now, d, p, es[1..], snapshots)
      decreases 256 - |Join(p)|, 0
    {
      JoinGrows(p, e.name);
      var child := LinkAt(world(now), d, e.name);
      if child.None? || !IsDirectory(world(now), child.value) {
        return false;
      }
      var c := child.value;
      if c !in world(now + 1).nodes || world(now + 1).nodes[c].identity != e.identity {
        return false;
      }
      now := now + 2;
      ok := Confirm(c, e.path);
    }

    /** `_observe_markdown_files`: on a fresh walk, exactly the function the theorems speak about. */
    method ObserveMarkdownFiles(root: NodeId, curated: Path) returns (r: Observation)
      requires observed == [] && snapshots == map[]
      modifies this
      ensures r == Snapshot.ObserveMarkdownFiles(world, limits, old(now), root, curated)
    {
      var d := root;
      for i := 0 to |curated|
        invariant observed == [] && snapshots == map[]
        invariant OpenSubtree(world, old(now), root, curated) == OpenSubtree(world, now, d, curated[i..])
      {
        assert curated[i..][0] == curated[i] && curated[i..][1..] == curated[i + 1..];
        var child := LinkAt(world(now), d, curated[i]);
        if child.None? || !IsDirectory(world(now), child.value) {
          return NotAvailable;
        }
        d := child.value;
        now := now + 1;
      }
      assert curated[|curated|..] == [];
      var v := Observe(d, curated);
      if v != Stable {
        return if v == BoundExceeded then TooManyFiles else RetryLater;
      }
      var ok := Confirm(d, curated);
      r := if ok then Observed(SortFiles(observed)) else RetryLater;
    }
  }

  /** Entries found so far in front of what the rest of the names will give. */
  ghost function Prepended(done: seq<Entry>, rest: Option<seq<Entry>>): Option<seq<Entry>> {
    match rest
    case None => None
    case Some(es) => Some(done + es)
  }

  lemma PrependedNothing(rest: Option<seq<Entry>>)
    ensures Prepended([], rest) == rest
  {
    assert rest.Some? ==> [] + rest.value == rest.value;
  }

  lemma PrependedStep(w: World, now: nat, d: NodeId, p: Path, names: seq<Name>, done: seq<Entry>)
    requires names != []
    ensures Prepended(done, StatNames(w, now, d, p, names)) ==
            match StatAt(w(now), d, names[0])
            case None => None
            case Some(id) =>
              var done' := match Classify(p + [names[0]], id.mode)
                           case None => done
                           case Some(isDirectory) => done + [Entry(names[0], p + [names[0]], id, isDirectory)];
              Prepended(done', StatNames(w, now + 1, d, p, names[1..]))
  {
    match StatAt(w(now), d, names[0])
    case None =>
    case Some(id) =>
      var rest := StatNames(w, now + 1, d, p, names[1..]);
      if rest.Some? && Classify(p + [names[0]], id.mode).Some? {
        var e := Entry(names[0], p + [names[0]], id, Classify(p + [names[0]], id.mode).value);
        assert done + ([e] + rest.value) == (done + [e]) + rest.value;
      }
  }

  lemma StatNothing(w: World, now: nat, d: NodeId, p: Path, done: seq<Entry>)
    ensures Prepended(done, StatNames(w, now, d, p, [])) == Some(done)
  {
    assert done + [] == done;
  }
}
