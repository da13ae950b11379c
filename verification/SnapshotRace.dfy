/**
 The top directory of a walk is the one directory whose identity is never compared. Two
 names in it that are directories except at the instants they are looked at go unseen, and
 the walk then returns a listing the tree never had at any instant.
 */
module SnapshotRace {
  import opened Order
  import opened References
  import opened FileTree
  import opened Snapshot

  const ROOT := NodeId(1, 0)
  const PLAIN := NodeId(1, 1)
  const DIR_S := NodeId(1, 2)
  const DIR_U := NodeId(1, 3)

  function Dir(n: NodeId, entries: map<Name, NodeId>, stamp: nat): Node {
    Node(Identity(n, DirectoryMode, 0, stamp, stamp), Directory(entries))
  }

  function Plain(n: NodeId): Node {
    Node(Identity(n, RegularMode, 0, 0, 0), Regular([]))
  }

  /** Name "s" is a plain file only at instants 1, 4, 7, ...; name "u" only at 2, 5, 8, ... */
  function TopEntries(t: nat): map<Name, NodeId> {
    map["s" := if t % 3 == 1 then PLAIN else DIR_S, "u" := if t % 3 == 2 then PLAIN else DIR_U]
  }

  function RacingTree(t: nat): Tree {
    Tree(map[
      ROOT := Dir(ROOT, TopEntries(t), t),
      PLAIN := Plain(PLAIN),
      DIR_S := Dir(DIR_S, map["x.md" := PLAIN], 0),
      DIR_U := Dir(DIR_U, map["x.md" := PLAIN], 0)], t)
  }

  function Racing(): World { (t: nat) => RacingTree(t) }

  lemma RacingEvolves(k: nat)
    ensures WellFormed(RacingTree(k)) && Evolves(RacingTree(k), RacingTree(k + 1))
  {
    var s, s' := RacingTree(k), RacingTree(k + 1);
    assert s'.nodes.Keys == {ROOT, PLAIN, DIR_S, DIR_U};
    assert s'.nodes[ROOT].identity.changedNs > s.clock;
    assert Kept(s, s', PLAIN);
    assert Entries(s, DIR_S).Keys == {"x.md"} && Kept(s, s', DIR_S);
    assert Entries(s, DIR_U).Keys == {"x.md"} && Kept(s, s', DIR_U);
  }

  lemma RacingIsHistory()
    ensures History(Racing())
  {
    forall k: nat ensures WellFormed(Racing()(k)) && Evolves(Racing()(k), Racing()(k + 1)) {
      RacingEvolves(k);
    }
  }

  lemma NamesSorted(t: nat)
    ensures SafeNames(RacingTree(t), ROOT) == ["s", "u"]
  {
    var names := SafeNames(RacingTree(t), ROOT);
    assert SafeName("s") && SafeName("u");
    assert Less("s", "u");
    assert Elements(names) == Elements(["s", "u"]) by {
      assert forall x :: x in names <==> x in ["s", "u"];
    }
    StrictlySortedUnique(names, ["s", "u"]);
  }

  lemma NotMarkdown(name: Name)
    requires |name| == 1
    ensures !IsImportPath([name]) && Classify([name], RegularMode) == None
  {
    assert Join([name]) == name;
  }

  lemma StatPlain(t: nat)
    requires t % 3 == 0
    ensures StatAt(RacingTree(t + 1), ROOT, "s") == Some(Plain(PLAIN).identity)
    ensures StatAt(RacingTree(t + 2), ROOT, "u") == Some(Plain(PLAIN).identity)
  {
    assert "s" in TopEntries(t + 1) && TopEntries(t + 1)["s"] == PLAIN;
    assert "u" in TopEntries(t + 2) && TopEntries(t + 2)["u"] == PLAIN;
  }

  lemma SnapshotEmpty(t: nat)
    requires t % 3 == 0
    ensures DirectorySnapshot(Racing(), t, ROOT, []) == (Some([]), t + 3)
  {
    hide RacingTree, SafeNames, Classify, StatAt;
    var w := Racing();
    NamesSorted(t);
    NotMarkdown("s");
    NotMarkdown("u");
    StatPlain(t);
    assert [] + ["s"] == ["s"] && [] + ["u"] == ["u"];
    assert ["s", "u"][1..] == ["u"] && ["u"][1..] == [];
    assert StatNames(w, t + 2, ROOT, [], ["u"]) == Some([]);
    assert IsDirectory(w(t), ROOT) by {
      TopIsDirectory(t);
    }
  }

  lemma TopIsDirectory(t: nat)
    ensures IsDirectory(RacingTree(t), ROOT) && Entries(RacingTree(t), ROOT) == TopEntries(t)
  {
  }

  lemma JoinTwo(a: Name, b: Name)
    ensures Join([a, b]) == a + "/" + b
  {
    assert [a, b][..1] == [a];
    assert Join([a]) == a;
  }

  lemma MarkdownPath(name: Name)
    requires |name| == 1 && SafeName(name) && !IsSpace(name[0])
    ensures Classify([name], DirectoryMode) == Some(true)
    ensures Classify([name, "x.md"], RegularMode) == Some(false)
  {
    JoinTwo(name, "x.md");
    assert Join([name, "x.md"]) == [name[0], '/', 'x', '.', 'm', 'd'];
    assert IsImportPath([name, "x.md"]);
  }

  lemma MarkdownBelow(s: Tree, name: Name, d: NodeId)
    requires |name| == 1 && SafeName(name) && !IsSpace(name[0])
    requires IsDirectory(s, ROOT) && name in Entries(s, ROOT) && Entries(s, ROOT)[name] == d
    requires d in s.nodes && s.nodes[d] == Dir(d, map["x.md" := PLAIN], 0)
    requires PLAIN in s.nodes && s.nodes[PLAIN] == Plain(PLAIN)
    ensures InTree(s, ROOT, [], [name, "x.md"], [])
  {
    hide Classify;
    MarkdownPath(name);
    assert [] + [name] == [name] && [name] + ["x.md"] == [name, "x.md"];
    assert SafeName("x.md");
    assert "x.md" in Entries(s, d);
    assert InTree(s, d, [name], [name, "x.md"], []);
    assert InTree(s, ROOT, [], [name, "x.md"], []);
  }

  ghost predicate HasSomeFile(s: Tree) {
    exists path, content :: InTree(s, ROOT, [], path, content)
  }

  lemma LettersVisible()
    ensures !IsSpace('s') && !IsSpace('u')
  {
  }

  lemma FileAlways(t: nat)
    ensures HasSomeFile(RacingTree(t))
  {
    hide InTree, IsSpace;
    TopIsDirectory(t);
    assert !IsSpace('s') && !IsSpace('u') by {
      LettersVisible();
    }
    if t % 3 == 1 {
      MarkdownBelow(RacingTree(t), "u", DIR_U);
    } else {
      MarkdownBelow(RacingTree(t), "s", DIR_S);
    }
  }

  lemma WalkSucceeds(lim: Limits)
    ensures ObserveMarkdownFiles(Racing(), lim, 0, ROOT, []) == Observed([])
  {
    hide RacingTree, DirectorySnapshot;
    var w := Racing();
    SnapshotEmpty(0);
    SnapshotEmpty(3);
    SnapshotEmpty(6);
    var s1 := State(3, [], map[[] := []]);
    assert ObserveEntries(w, lim, s1, ROOT, [], []) == (Stable, s1);
    assert ObserveDirectory(w, lim, State(0, [], map[]), ROOT, []) == (Stable, s1.(now := 6));
    assert RevalidateEntries(w, 9, ROOT, [], [], s1.snapshots) == (true, 9);
    assert Revalidate(w, 6, ROOT, [], s1.snapshots) == (true, 9);
  }

  /** A legal history in which the walk succeeds with no file, while every instant has one. */
  lemma TopRaceDefeatsAtomicity(lim: Limits)
    ensures History(Racing())
    ensures ObserveMarkdownFiles(Racing(), lim, 0, ROOT, []) == Observed([])
    ensures forall t: nat :: HasSomeFile(Racing()(t))
  {
    hide HasSomeFile, RacingTree, History, ObserveMarkdownFiles;
    RacingIsHistory();
    WalkSucceeds(lim);
    forall t: nat ensures HasSomeFile(Racing()(t)) {
      FileAlways(t);
    }
  }
}
