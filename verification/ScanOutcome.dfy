/**
 How every scan of a resting tree ends: completed, replayed or refused, as the store, the tree, the
 bound and the page size decide it.
 */
module ScanOutcome {
  import opened Order
  import opened ChangeFeed
  import opened ChangePaging
  import opened ChangeStore
  import opened ChangeHistory
  import opened FileScan
  import opened ScanLiveness

  // ---- a replayed delete ----------------------------------------------------------

  lemma {:induction false} RecordedIn(rows: seq<Row>, version: Uuid, epoch: Epoch, i: nat, c: Change)
    requires i < |rows| && rows[i].page.owner.version == version && rows[i].page.epoch == epoch
    requires c in rows[i].page.changes
    ensures c in EpochChanges(rows, version, epoch)
  {
    var n := |rows| - 1;
    if i < n {
      assert rows[..n][i] == rows[i];
      RecordedIn(rows[..n], version, epoch, i, c);
    }
  }

  lemma OneEntryPerPath(entries: seq<Change>, c: Change, d: Change)
    requires StrictlySorted(Paths(entries)) && c in entries && d in entries && c.path == d.path
    ensures c == d
  {
    hide StrictlySorted;
    StrictlySortedDistinct(Paths(entries));
    var a :| 0 <= a < |entries| && entries[a] == c;
    var b :| 0 <= b < |entries| && entries[b] == d;
    assert Paths(entries)[a] == Paths(entries)[b];
  }

  /** A page bound to a completed scan that repeats one of that scan's own deletes is never
      accepted: the scan has no upsert for the path. */
  lemma ReplayedDeleteRefused(st: Store, i: nat, page: Page, k: nat)
    requires Log(st) && i < |st.rows| && st.rows[i].page.complete && st.rows[i].page.owner.version == st.active
    requires page.baseline == Some(RefOf(st, st.rows[i]))
    requires k < |page.changes| && page.changes[k].kind.Delete? && page.changes[k] in st.rows[i].page.scanRef.entries
    ensures Accept(st, page).None?
  {
    hide Log, BoundKept, BaselineRow, SortChanges, EpochChanges, StrictlySorted;
    CompleteEntries(st, i);
    var entries := st.rows[i].page.scanRef.entries;
    var c := page.changes[k];
    if DeletesKnown(st, page) {
      var j :| 0 <= j < |st.rows| && st.rows[j].page.owner.version == st.active
               && st.rows[j].page.epoch == page.baseline.value.epoch && c.(kind := Upsert) in st.rows[j].page.changes;
      RecordedIn(st.rows, st.active, page.baseline.value.epoch, j, c.(kind := Upsert));
      SortHas(EpochChanges(st.rows, st.active, page.baseline.value.epoch), c.(kind := Upsert));
      OneEntryPerPath(entries, c, c.(kind := Upsert));
      assert false;
    }
  }

  // ---- every accepted page was acceptable somewhere -------------------------------

  ghost predicate SameSource(st: Store, st': Store) {
    && st.rows <= st'.rows
    && st.organization == st'.organization && st.source == st'.source && st.active == st'.active
  }

  /** The page was accepted by a sound store that extends this one. */
  ghost predicate AcceptedLater(st: Store, page: Page) {
    exists st' :: Log(st') && SameSource(st, st') && Accept(st', page).Some?
  }

  lemma AcceptedEarlier(st: Store, st': Store, page: Page)
    requires SameSource(st, st') && AcceptedLater(st', page)
    ensures AcceptedLater(st, page)
  {
    hide Log, Accept;
    var at :| Log(at) && SameSource(st', at) && Accept(at, page).Some?;
    assert SameSource(st, at);
  }

  lemma AcceptKeepsSource(st: Store, page: Page)
    requires Log(st) && Issued(st, page) && Accept(st, page).Some?
    ensures Log(Accept(st, page).value.0) && SameSource(st, Accept(st, page).value.0)
    ensures var (st', i) := Accept(st, page).value; i < |st'.rows| && st'.rows[i].page == page
  {
    AcceptExtends(st, page);
    AcceptIndex(st, page);
    AcceptParts(st, page);
    hide Log, Issued, Accept, LinkedAt, Admissible, InOrder, BaselineExpected, NewRow;
  }

  ghost predicate Informed(st: Store, s: Source, cursor: Cursor) {
    && Log(st) && ValidSource(s)
    && KnownHead(st, s.head) && KnownBaseline(st, s.baseline) && KnownCursor(st, cursor)
  }

  lemma ReadIssued(st: Store, s: Source, selection: Option<string>, seen: Observation, bound: nat, limit: Positive,
                   cursor: Cursor)
    requires Informed(st, s, cursor) && ReadChanges(s, selection, seen, bound, cursor, limit).Ok?
    ensures Issued(st, ReadChanges(s, selection, seen, bound, cursor, limit).page)
  {
    hide Log, ReadChanges, KnownHead, KnownBaseline, KnownCursor, ValidSource;
    var q := Request(s, selection, seen, bound, cursor, limit);
    assert Honest(st, q);
    assert Answer(q) == Ok(ReadChanges(s, selection, seen, bound, cursor, limit).page);
  }

  lemma InformedNext(st: Store, st': Store, s: Source, cursor: Cursor, i: nat)
    requires Informed(st, s, cursor) && Log(st') && SameSource(st, st') && i < |st'.rows|
    ensures Informed(st', s.(head := Some(HeadAt(st', i))), CursorAt(st', i))
  {
    hide Log, KnownRef, HeadAt, CursorAt, StrictlySorted;
    var h := Some(HeadAt(st', i));
    assert h.value == HeadAt(st', i).(superseded := h.value.superseded);
    if s.baseline.Some? {
      KnownRefKept(st, st', s.baseline.value.reference);
      if s.baseline.value.comparison.Some? {
        KnownRefKept(st, st', s.baseline.value.comparison.value);
      }
    }
  }

  lemma {:induction false} PagesAccepted(st: Store, s: Source, selection: Option<string>, env: nat -> Observation,
                                         k: nat,
                                         bound: nat, limit: Positive, cursor: Cursor)
    requires Informed(st, s, cursor)
    ensures forall page | page in RunScan(st, s, selection, env, k, bound, limit, cursor).pages ::
            AcceptedLater(st, page)
    decreases cursor.InitialScan?, Remaining(cursor)
  {
    var scan := RunScan(st, s, selection, env, k, bound, limit, cursor);
    hide ReadChanges, Accept, AcceptedLater, Informed, ReplaysBaseline, HeadAt, CursorAt, Remaining, SameSource;
    if scan.pages != [] {
      var page := ReadChanges(s, selection, env(k), bound, cursor, limit).page;
      ReadIssued(st, s, selection, env(k), bound, limit, cursor);
      InformedLog(st, s, cursor);
      AcceptKeepsSource(st, page);
      PageAcceptedHere(st, page);
      var (st', i) := Accept(st, page).value;
      if page.next.Some? {
        var s' := s.(head := Some(HeadAt(st', i)));
        CursorMoves(s, selection, env(k), bound, cursor, limit, st', i);
        InformedNext(st, st', s, cursor, i);
        PagesAccepted(st', s', selection, env, k + 1, bound, limit, CursorAt(st', i));
        var rest := RunScan(st', s', selection, env, k + 1, bound, limit, CursorAt(st', i));
        assert scan.pages == [page] + rest.pages;
        forall p | p in scan.pages ensures AcceptedLater(st, p) {
          if p != page {
            AcceptedEarlier(st, st', p);
          }
        }
      }
    }
  }

  lemma InformedLog(st: Store, s: Source, cursor: Cursor)
    requires Informed(st, s, cursor)
    ensures Log(st)
  {
  }

  lemma PageAcceptedHere(st: Store, page: Page)
    requires Log(st) && Accept(st, page).Some?
    ensures AcceptedLater(st, page)
  {
    hide Log, Accept;
    assert SameSource(st, st);
  }

  // ---- a scan that repeats a superseded baseline ----------------------------------

  lemma {:induction false} FlattenHas(pages: seq<Page>, c: Change)
    requires c in Flatten(pages)
    ensures exists k :: 0 <= k < |pages| && c in pages[k].changes
  {
    var n := |pages| - 1;
    if c in Flatten(pages[..n]) {
      FlattenHas(pages[..n], c);
      var k :| 0 <= k < n && c in pages[..n][k].changes;
      assert pages[k] == pages[..n][k];
    }
  }

  lemma ChainShape(pages: seq<Page>, k: nat)
    requires Chain(pages) && k < |pages|
    ensures pages[k].baseline == pages[0].scanRef.baseline
  {
    hide ServedFirst, ServedNext, Flatten, StrictlySorted;
    ChainList(pages);
    assert SameScan(pages[k], pages[0]);
    if k == 0 {
      FirstShape(pages[0]);
    } else {
      NextShape(pages[k], pages[k - 1]);
    }
  }

  lemma SourceInformed(st: Store)
    requires Log(st)
    ensures Informed(st, ReadSource(st), InitialScan)
  {
    SourceStartable(st);
    hide Log, BaselineOf, KnownBaseline, ValidSource, HeadAt;
    if st.rows != [] {
      var h := HeadAt(st, |st.rows| - 1);
      assert h == HeadAt(st, |st.rows| - 1).(superseded := h.superseded);
    }
  }

  /** A delete of the baseline's own list cannot come through a page bound to that baseline. */
  lemma DeleteNotAccepted(st: Store, page: Page, c: Change)
    requires Log(st) && BaselineOf(st).Some? && page.baseline == Some(BaselineOf(st).value.reference)
    requires c in BaselineOf(st).value.entries && c.kind.Delete? && c in page.changes
    ensures !AcceptedLater(st, page)
  {
    var i := LatestComplete(st).value;
    assert st.rows[i].page.complete && st.rows[i].page.owner.version == st.active;
    CompleteEntries(st, i);
    hide Log, Accept, SortChanges, EpochChanges, StrictlySorted, LatestComplete;
    if AcceptedLater(st, page) {
      var at :| Log(at) && SameSource(st, at) && Accept(at, page).Some?;
      var k :| 0 <= k < |page.changes| && page.changes[k] == c;
      assert at.rows[i] == st.rows[i];
      ReplayedDeleteRefused(at, i, page, k);
      assert false;
    }
  }

  /** A list bound to the baseline that repeats one of its deletes is never scanned to the end,
      whatever the tree does after the first read. */
  lemma ReplayedDeletesRefused(st: Store, selection: Option<string>, files: seq<File>, env: nat -> Observation,
                               bound: nat,
                               limit: Positive)
    requires Log(st) && env(0) == Observed(files)
    requires var s := ReadSource(st);
      ReplayBranch(s, files) && !IsCurrentHead(s, s.baseline.value.reference) && Deleted(s.baseline.value.entries) != {}
    ensures RunScan(st, ReadSource(st), selection, env, 0, bound, limit, InitialScan).ending == Refused
  {
    var s := ReadSource(st);
    var scan := RunScan(st, s, selection, env, 0, bound, limit, InitialScan);
    NotReplayed(st, selection, files, env, bound, limit);
    if scan.ending == Completed {
      var c := SomeDelete(s.baseline.value.entries);
      RepeatsBaseline(s, files);
      hide RunScan, Changes, ReplayBranch, IsCurrentHead, Deleted, Log, Informed, AcceptedLater;
      DeleteInPages(st, s, selection, files, env, bound, limit, c);
      assert false;
    }
  }

  lemma RepeatsBaseline(s: Source, files: seq<File>)
    requires ReplayBranch(s, files) && !IsCurrentHead(s, s.baseline.value.reference)
    ensures Changes(s, files) == (s.baseline.value.entries, Some(s.baseline.value.reference))
  {
    hide Unchanged, IsCurrentHead;
  }

  lemma SomeDelete(entries: seq<Change>) returns (c: Change)
    requires Deleted(entries) != {}
    ensures c in entries && c.kind.Delete?
  {
    var p :| p in Deleted(entries);
    var i :| 0 <= i < |entries| && entries[i].kind.Delete? && entries[i].path == p;
    c := entries[i];
  }

  /** If the scan completed, the delete would be in one of its accepted pages. */
  lemma DeleteInPages(st: Store, s: Source, selection: Option<string>, files: seq<File>, env: nat -> Observation,
                      bound: nat,
                      limit: Positive, c: Change)
    requires Log(st) && s == ReadSource(st) && env(0) == Observed(files) && s.baseline.Some?
    requires Changes(s, files) == (s.baseline.value.entries, Some(s.baseline.value.reference))
    requires c in s.baseline.value.entries && c.kind.Delete?
    ensures RunScan(st, s, selection, env, 0, bound, limit, InitialScan).ending != Completed
  {
    var scan := RunScan(st, s, selection, env, 0, bound, limit, InitialScan);
    if scan.ending == Completed {
      assert s.baseline == BaselineOf(st);
      hide RunScan, Changes, Log, AcceptedLater, Chain, Flatten, BaselineOf, ReadSource, ReadChanges, StrictlySorted;
      SourceStartable(st);
      SourceInformed(st);
      hide Informed, Startable;
      PagesAccepted(st, s, selection, env, 0, bound, limit, InitialScan);
      CompletedList(st, s, selection, env, bound, limit);
      FirstPageScan(st, s, selection, env, bound, limit);
      FlattenHas(scan.pages, c);
      var k :| 0 <= k < |scan.pages| && c in scan.pages[k].changes;
      ChainShape(scan.pages, k);
      assert scan.pages[k] in scan.pages;
      DeleteNotAccepted(st, scan.pages[k], c);
      assert false;
    }
  }

  lemma FirstPageScan(st: Store, s: Source, selection: Option<string>, env: nat -> Observation, bound: nat,
                      limit: Positive)
    requires Startable(s) && env(0).Observed?
    requires RunScan(st, s, selection, env, 0, bound, limit, InitialScan).ending == Completed
    ensures var pages := RunScan(st, s, selection, env, 0, bound, limit, InitialScan).pages;
      pages != [] && pages[0].scanRef == ScanRefOf(s, env(0).files, bound)
  {
    hide RunScan, Chain, ReadChanges, Changes, StrictlySorted;
    ScanIsChain(st, s, selection, env, bound, limit);
    InitialOk(s, selection, env(0), bound, limit);
  }

  lemma NotReplayed(st: Store, selection: Option<string>, files: seq<File>, env: nat -> Observation, bound: nat,
                    limit: Positive)
    requires Log(st) && env(0) == Observed(files) && BoundToBaseline(ReadSource(st), files)
    ensures RunScan(st, ReadSource(st), selection, env, 0, bound, limit, InitialScan).ending != Replayed
  {
    var s := ReadSource(st);
    SourceStartable(st);
    NotAReplay(s, files, bound);
    hide Log, ReadSource, ReplaysBaseline, Accept, HeadAt, Changes, BoundToBaseline, StrictlySorted, ReadChanges;
    var outcome := ReadChanges(s, selection, env(0), bound, InitialScan, limit);
    if outcome.Ok? {
      InitialOk(s, selection, env(0), bound, limit);
      if outcome.page.limit == limit && Accept(st, outcome.page).Some? {
        RunScanStep(st, s, selection, env, 0, bound, limit, InitialScan, outcome.page);
        var (st', i) := Accept(st, outcome.page).value;
        if outcome.page.next.Some? {
          var s' := s.(head := Some(HeadAt(st', i)));
          ScanContinues(st', s', selection, env, 1, bound, limit, CursorAt(st', i), outcome.page);
        }
      }
    }
  }

  /** A tree that returned to a completed scan while another scan is open: it is scanned to the end if
      and only if that completed scan has no deletes, and refused otherwise. */
  lemma ReplayEnds(st: Store, selection: Option<string>, files: seq<File>, bound: nat, limit: Positive)
    requires Log(st)
    requires var s := ReadSource(st);
      && ReplayBranch(s, files) && !IsCurrentHead(s, s.baseline.value.reference)
      && !OutsideSelection(s, selection) && |Changes(s, files).0| <= bound && SameLimit(s, files, bound, limit)
    requires 1 <= bound <= MAX_SCAN_BOUND && limit <= MAX_PAGE
    ensures RunScan(st, ReadSource(st), selection, Still(files), 0, bound, limit, InitialScan).ending ==
            if Deleted(ReadSource(st).baseline.value.entries) == {} then Completed else Refused
  {
    var s := ReadSource(st);
    hide Log, ReadSource, RunScan, Changes, SameLimit, OutsideSelection, Deleted, Unchanged, IsCurrentHead;
    if Deleted(s.baseline.value.entries) == {} {
      ScanCompletes(st, selection, files, bound, limit);
    } else {
      ReplayedDeletesRefused(st, selection, files, Still(files), bound, limit);
    }
  }

  // ---- every scan of a resting tree -----------------------------------------------

  /** An interrupted scan that was cut with another page size is not resumed. */
  lemma OtherLimitRefused(st: Store, s: Source, selection: Option<string>, files: seq<File>, env: nat -> Observation,
                          bound: nat, limit: Positive)
    requires env(0) == Observed(files) && !SameLimit(s, files, bound, limit)
    ensures RunScan(st, s, selection, env, 0, bound, limit, InitialScan) == Scan(st, [], [], Refused)
  {
    hide Changes, Accept, ReplaysBaseline, OutsideSelection;
  }

  lemma UnreadableRefused(st: Store, s: Source, selection: Option<string>, files: seq<File>, env: nat -> Observation,
                          bound: nat, limit: Positive)
    requires env(0) == Observed(files) && (OutsideSelection(s, selection) || |Changes(s, files).0| > bound)
    ensures RunScan(st, s, selection, env, 0, bound, limit, InitialScan) == Scan(st, [], [], Refused)
  {
    hide Changes, Accept, ReplaysBaseline, OutsideSelection, BuildPage;
  }

  ghost function EndingOf(s: Source, selection: Option<string>, files: seq<File>, bound: nat, limit: nat): Ending {
    if OutsideSelection(s, selection) || |Changes(s, files).0| > bound || !SameLimit(s, files, bound, limit)
    then Refused
    else if !ReplayBranch(s, files) then Completed
    else if IsCurrentHead(s, s.baseline.value.reference) then if s.head.value.bound == bound then Replayed else Refused
    else if Deleted(s.baseline.value.entries) == {} then Completed
    else Refused
  }

  lemma ObservedScanEnds(st: Store, selection: Option<string>, files: seq<File>, bound: nat, limit: Positive)
    requires Log(st) && 1 <= bound <= MAX_SCAN_BOUND && limit <= MAX_PAGE
    ensures RunScan(st, ReadSource(st), selection, Still(files), 0, bound, limit, InitialScan).ending ==
            EndingOf(ReadSource(st), selection, files, bound, limit)
  {
    var s := ReadSource(st);
    hide Log, ReadSource, RunScan, Changes, SameLimit, OutsideSelection, Deleted, IsCurrentHead, Unchanged, Finished;
    if OutsideSelection(s, selection) || |Changes(s, files).0| > bound {
      UnreadableRefused(st, s, selection, files, Still(files), bound, limit);
    } else if !SameLimit(s, files, bound, limit) {
      OtherLimitRefused(st, s, selection, files, Still(files), bound, limit);
    } else if !ReplayBranch(s, files) {
      ScanCompletes(st, selection, files, bound, limit);
      FinishedCompletes(RunScan(st, s, selection, Still(files), 0, bound, limit, InitialScan), files,
                        ScanRefOf(s, files, bound), bound, limit);
    } else if IsCurrentHead(s, s.baseline.value.reference) {
      CurrentDecided(st, selection, files, bound, limit);
    } else {
      ReplayEnds(st, selection, files, bound, limit);
    }
  }

  /** A tree that cannot be observed is never scanned. */
  lemma UnobservedRefused(st: Store, s: Source, selection: Option<string>, env: nat -> Observation, bound: nat,
                          limit: Positive)
    requires !env(0).Observed?
    ensures RunScan(st, s, selection, env, 0, bound, limit, InitialScan) == Scan(st, [], [], Refused)
  {
    hide Accept, ReplaysBaseline, OutsideSelection;
  }

  ghost function EndingFor(s: Source, selection: Option<string>, seen: Observation, bound: nat, limit: nat): Ending {
    if seen.Observed? then EndingOf(s, selection, seen.files, bound, limit) else Refused
  }

  /** From every sound log, for every way a resting tree can look, and every bound and page size that
      Control allows: how the scan ends, decided by what the caller knows before it starts. */
  lemma RestingScanEnds(st: Store, selection: Option<string>, seen: Observation, bound: nat, limit: Positive)
    requires Log(st) && 1 <= bound <= MAX_SCAN_BOUND && limit <= MAX_PAGE
    ensures RunScan(st, ReadSource(st), selection, Always(seen), 0, bound, limit, InitialScan).ending ==
            EndingFor(ReadSource(st), selection, seen, bound, limit)
  {
    hide Log, ReadSource, RunScan, EndingOf;
    if seen.Observed? {
      ObservedScanEnds(st, selection, seen.files, bound, limit);
      assert Still(seen.files) == Always(seen);
    } else {
      UnobservedRefused(st, ReadSource(st), selection, Always(seen), bound, limit);
    }
  }

  lemma FinishedCompletes(scan: Scan, files: seq<File>, scanRef: ScanRef, bound: nat, limit: nat)
    requires Finished(scan, files, scanRef, bound, limit)
    ensures scan.ending == Completed && JustCompleted(scan.store, files)
    ensures scan.store.rows != [] && scan.store.rows[|scan.store.rows| - 1].page.scanRef == scanRef
  {
    hide Log, AnsweredFor;
  }

  lemma CurrentDecided(st: Store, selection: Option<string>, files: seq<File>, bound: nat, limit: Positive)
    requires Current(st, files) && !OutsideSelection(ReadSource(st), selection)
    requires var s := ReadSource(st); |Changes(s, files).0| <= bound && SameLimit(s, files, bound, limit)
    ensures RunScan(st, ReadSource(st), selection, Still(files), 0, bound, limit, InitialScan).ending ==
            if ReadSource(st).head.value.bound == bound then Replayed else Refused
  {
    CurrentRow(st, files);
    RescanReads(st, selection, files, bound, limit);
    CurrentEnds(st, selection, files, Still(files), bound, limit);
    hide Log, BaselineOf, RunScan, Changes, EpochStart, OutsideSelection, ReadChanges, StrictlySorted, Unchanged,
      OpeningPage;
  }

  // ---- a run into the refusal -----------------------------------------------------

  /** How many paths two trees have together. */
  ghost function Together(a: seq<File>, b: seq<File>): nat {
    |Tree(a).Keys + Tree(b).Keys|
  }

  ghost predicate Loses(a: seq<File>, b: seq<File>) {
    Tree(a).Keys - Tree(b).Keys != {}
  }

  lemma DifferenceSize(prior: map<Path, Content>, tree: map<Path, Content>)
    ensures |Difference(prior, tree)| == |prior.Keys + tree.Keys|
  {
    hide Sort, StrictlySorted, Difference;
    DifferenceSorted(prior, tree);
    assert |Paths(Difference(prior, tree))| == |Difference(prior, tree)|;
  }

  /** Right after one tree was scanned, a different one is a real difference that the head does not serve. */
  lemma NextDifference(st: Store, before: seq<File>, files: seq<File>, bound: nat)
    requires JustCompleted(st, before) && Tree(files) != Tree(before)
    ensures var s := ReadSource(st);
      && s.baseline.Some? && !ReplayBranch(s, files) && !HeadServes(s, ScanRefOf(s, files, bound))
      && Changes(s, files).0 == Difference(Tree(before), Tree(files))
      && |Changes(s, files).0| == Together(before, files)
  {
    var s := ReadSource(st);
    RescanReproduces(st, before);
    AnswerMeaning(st.rows[|st.rows| - 1].page, before);
    CompletedIsCurrent(st, before);
    CurrentRow(st, before);
    hide Log, AnsweredFor, BaselineOf, Difference, Active, Tree, StrictlySorted, EpochStart, Deleted;
    DifferenceSize(Tree(before), Tree(files));
    assert !ReplayBranch(s, files);
    DifferentScan(s, files, bound);
    hide IsCurrentHead;
  }

  /** A third scan was opened after a completed one, and is not complete. */
  ghost predicate Interrupted(done: Store, st: Store) {
    && done.rows != [] && |st.rows| == |done.rows| + 1 && done.rows <= st.rows && !st.rows[|done.rows|].page.complete
    && done.organization == st.organization && done.source == st.source && done.active == st.active
  }

  /** While that scan is open, the completed tree is a replay of a baseline that is not the head. */
  lemma ReturnReplays(done: Store, st: Store, files: seq<File>)
    requires JustCompleted(done, files) && Interrupted(done, st) && Log(st)
    ensures var s := ReadSource(st);
      && ReplayBranch(s, files) && !IsCurrentHead(s, s.baseline.value.reference)
      && s.baseline.value.entries == done.rows[|done.rows| - 1].page.scanRef.entries
  {
    var n := |done.rows| - 1;
    assert st.rows[n] == done.rows[n];
    AnswerMeaning(done.rows[n].page, files);
    hide Log, AnsweredFor, SortChanges, EpochChanges, Active, Deleted, Tree, StrictlySorted;
    CompleteEntries(st, n);
    assert LatestComplete(st) == Some(n);
    hide LatestComplete;
  }

  lemma OpeningIncomplete(s: Source, files: seq<File>, bound: nat, limit: Positive)
    requires limit < |Changes(s, files).0| && !HeadServes(s, ScanRefOf(s, files, bound))
    ensures !OpeningPage(s, files, bound, limit).complete
  {
    hide Changes;
  }

  lemma Interrupts(st: Store, before: seq<File>, files: seq<File>, bound: nat, limit: Positive) returns (st': Store)
    requires JustCompleted(st, before) && Tree(files) != Tree(before)
    requires limit < Together(before, files) <= bound <= MAX_SCAN_BOUND && limit <= MAX_PAGE
    ensures Accept(st, OpeningPage(ReadSource(st), files, bound, limit)) == Some((st', |st.rows|))
    ensures Log(st') && Interrupted(st, st')
  {
    var s := ReadSource(st);
    NextDifference(st, before, files, bound);
    assert Log(st);
    hide Log, AnsweredFor, ReadSource, Changes, ReplayBranch, HeadServes, DeletesRecorded, KnownBaseline, ValidSource,
      Accept, OpeningPage, NewRow, IsCurrentHead, Deleted, Tree, Together;
    SourceStartable(st);
    RecordableDeletes(st, files);
    SourceOwner(st);
    assert Stable(st, s, None, files, bound, limit);
    OpenFresh(st, None, files, bound, limit);
    OpeningIssued(st, None, files, bound, limit);
    OpeningIncomplete(s, files, bound, limit);
    AcceptKeepsSource(st, OpeningPage(s, files, bound, limit));
    st' := Accept(st, OpeningPage(s, files, bound, limit)).value.0;
  }

  lemma SourceOwner(st: Store)
    ensures ReadSource(st).owner == Owner(st.organization, st.source, st.active) && ReadSource(st).capable
    ensures !OutsideSelection(ReadSource(st), None)
  {
  }

  /** Scan a tree, lose one of its paths and scan to the end, open a scan of a third tree and leave
      it, return to the second tree: its scan is refused. */
  lemma ReplayedDeleteReached(start: Store, a: seq<File>, b: seq<File>, c: seq<File>, bound: nat, limit: Positive)
    requires start.rows == [] && Loses(a, b) && Tree(c) != Tree(b)
    requires |Tree(a)| <= bound && Together(a, b) <= bound && 1 <= bound <= MAX_SCAN_BOUND && limit <= MAX_PAGE
    requires limit < Together(b, c) <= bound
    ensures var first := ScanFrom(start, a, bound, limit);
      var second := ScanFrom(first.store, b, bound, limit);
      var third := Accept(second.store, OpeningPage(ReadSource(second.store), c, bound, limit));
      && first.ending == Completed && second.ending == Completed
      && third.Some? && Interrupted(second.store, third.value.0)
      && ScanFrom(third.value.0, b, bound, limit).ending == Refused
  {
    hide ScanFrom, JustCompleted, ReadSource, Tree, Interrupted, Deleted, Accept, OpeningPage, Together, Loses;
    var first := ScanFrom(start, a, bound, limit);
    FirstFinishes(start, a, bound, limit);
    SecondFinishes(first.store, a, b, bound, limit);
    ReturnRefused(ScanFrom(first.store, b, bound, limit).store, b, c, bound, limit);
  }

  /** A whole scan of a resting tree, from the store as it is. */
  ghost function ScanFrom(st: Store, files: seq<File>, bound: nat, limit: Positive): Scan {
    RunScan(st, ReadSource(st), None, Still(files), 0, bound, limit, InitialScan)
  }

  /** A completed scan with deletes, another scan left open, and the tree back: refused. */
  lemma ReturnRefused(done: Store, b: seq<File>, c: seq<File>, bound: nat, limit: Positive)
    requires JustCompleted(done, b) && done.rows != [] && Tree(c) != Tree(b)
    requires Deleted(done.rows[|done.rows| - 1].page.scanRef.entries) != {}
    requires limit < Together(b, c) <= bound <= MAX_SCAN_BOUND && limit <= MAX_PAGE
    ensures var third := Accept(done, OpeningPage(ReadSource(done), c, bound, limit));
      && third.Some? && Interrupted(done, third.value.0) && ScanFrom(third.value.0, b, bound, limit).ending == Refused
  {
    hide RunScan, JustCompleted, Log, ReadSource, Tree, Changes, ReplayBranch, IsCurrentHead, Interrupted, Deleted,
      Accept,
      OpeningPage, Still, Together;
    var st := Interrupts(done, b, c, bound, limit);
    ReturnReplays(done, st, b);
    StillShows(b);
    ReplayedDeletesRefused(st, None, b, Still(b), bound, limit);
  }

  lemma StillShows(files: seq<File>)
    ensures Still(files)(0) == Observed(files)
  {
  }

  lemma FirstFinishes(start: Store, files: seq<File>, bound: nat, limit: Positive)
    requires start.rows == [] && |Tree(files)| <= bound && 1 <= bound <= MAX_SCAN_BOUND && limit <= MAX_PAGE
    ensures var scan := ScanFrom(start, files, bound, limit);
      scan.ending == Completed && JustCompleted(scan.store, files)
  {
    var s := ReadSource(start);
    assert s.head.None? && s.baseline.None? && Log(start);
    assert Changes(s, files).0 == Difference(map[], Tree(files));
    DifferenceSize(map[], Tree(files));
    EmptyUnion(map[], Tree(files));
    SourceOwner(start);
    hide RunScan, JustCompleted, Log, ReadSource, Difference, Tree;
    ScanCompletes(start, None, files, bound, limit);
  }

  /** The second scan records what was lost. */
  lemma SecondFinishes(st: Store, a: seq<File>, b: seq<File>, bound: nat, limit: Positive)
    requires JustCompleted(st, a) && Loses(a, b)
    requires Together(a, b) <= bound && 1 <= bound <= MAX_SCAN_BOUND && limit <= MAX_PAGE
    ensures var scan := ScanFrom(st, b, bound, limit);
      && scan.ending == Completed && JustCompleted(scan.store, b) && scan.store.rows != []
      && Deleted(scan.store.rows[|scan.store.rows| - 1].page.scanRef.entries) != {}
  {
    CompletedIsCurrent(st, a);
    hide RunScan, Log, ReadSource, Difference, Tree, ReplayBranch, HeadServes, Changes, Deleted, AnsweredFor,
      Together, Loses,
      JustCompleted, Finished, OutsideSelection, IsCurrentHead;
    LossDeletes(a, b);
    NextDifference(st, a, b, bound);
    SourceOwner(st);
    ScanCompletes(st, None, b, bound, limit);
    FinishedCompletes(ScanFrom(st, b, bound, limit), b, ScanRefOf(ReadSource(st), b, bound), bound, limit);
  }

  lemma LossDeletes(a: seq<File>, b: seq<File>)
    requires Loses(a, b)
    ensures Tree(b) != Tree(a) && Deleted(Difference(Tree(a), Tree(b))) != {}
  {
    hide Tree, Difference, Deleted, Active;
    DifferenceActive(Tree(a), Tree(b));
  }

  function One(path: Path): File { File(path, Content("", 0)) }

  /** A concrete case: one file, then none, then an interrupted scan of two, then none again. */
  lemma ReplayedDeleteExample(start: Store)
    requires start.rows == []
    ensures var a, b, c := [One("a.md")], [], [One("b.md"), One("c.md")];
      var first := ScanFrom(start, a, 2, 1);
      var second := ScanFrom(first.store, b, 2, 1);
      var third := Accept(second.store, OpeningPage(ReadSource(second.store), c, 2, 1));
      && first.ending == Completed && second.ending == Completed && third.Some?
      && ScanFrom(third.value.0, b, 2, 1).ending == Refused
  {
    hide ScanFrom, ReadSource, Accept, OpeningPage, Interrupted;
    var a, b, c := [One("a.md")], [], [One("b.md"), One("c.md")];
    ExampleTrees();
    ReplayedDeleteReached(start, a, b, c, 2, 1);
  }

  lemma ExampleTrees()
    ensures var x := Content("", 0);
      && Tree([One("a.md")]) == map["a.md" := x] && Tree([]) == map[]
      && Tree([One("b.md"), One("c.md")]) == map["b.md" := x, "c.md" := x]
      && |map["a.md" := x]| == 1 && |{"a.md"}| == 1 && |{"b.md", "c.md"}| == 2
  {
    var f, g := [One("a.md")], [One("b.md"), One("c.md")];
    assert f[..0] == [] && g[..1] == [One("b.md")] && [One("b.md")][..0] == [];
    assert "b.md"[0] != "c.md"[0];
    assert Tree([One("b.md")]) == map["b.md" := Content("", 0)];
  }
}
