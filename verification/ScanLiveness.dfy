/**
 A scan of a tree that stays put always finishes: its opening page and every continuation are
 accepted, also when the scan was interrupted and its first pages are already in the log. The
 store it leaves is a fixed point: the next scan of the same tree accepts nothing.
 */
module ScanLiveness {
  import opened Order
  import opened ChangeFeed
  import opened ChangePaging
  import opened ChangeStore
  import opened ChangeHistory
  import opened FileScan

  lemma LogParts(st: Store, i: nat)
    requires Log(st) && i < |st.rows|
    ensures AllLinked(st.rows) && AnswersAt(st, i)
  {
    hide LinkedAt, Sequenced, BaselinesKnown;
  }

  // ---- what every row of a log carries --------------------------------------------

  ghost predicate RowShape(page: Page) {
    && page.baseline == page.scanRef.baseline && page.bound == page.scanRef.bound && page.owner == page.scanRef.owner
    && (page.baseline.Some? ==> page.baseline.value.version == page.owner.version)
    && StrictlySorted(Paths(page.scanRef.entries))
  }

  lemma FirstShape(page: Page)
    requires ServedFirst(page)
    ensures RowShape(page) && page.predecessor.None?
  {
    hide ReadChanges, StrictlySorted, Changes, ValidSource;
    var s, selection, seen, bound, limit :|
      && ValidSource(s) && 1 <= limit && (s.head.Some? ==> 1 <= s.head.value.limit)
      && ReadChanges(s, selection, seen, bound, InitialScan, limit) == Ok(page);
    InitialOk(s, selection, seen, bound, limit);
    ListVersion(s, seen.files);
  }

  lemma ListVersion(s: Source, files: seq<File>)
    requires ValidSource(s)
    ensures Changes(s, files).1.Some? ==> Changes(s, files).1.value.version == s.owner.version
  {
    hide StrictlySorted, Difference, Unchanged, IsCurrentHead;
  }

  lemma NextShape(page: Page, prev: Page)
    requires ServedNext(page, prev)
    ensures RowShape(page) && page.predecessor.Some? && page.superseded.None?
  {
    hide ReadChanges, StrictlySorted, Changes, ValidSource;
    var s, selection, seen, bound, c: Accepted, limit :|
      && ValidSource(s) && prev.next == Some(c.pending)
      && ReadChanges(s, selection, seen, bound, Continue(c), limit) == Ok(page);
    ContinueOk(s, selection, seen, bound, c, limit);
    ListVersion(s, seen.files);
  }

  lemma RowFacts(rows: seq<Row>, i: nat)
    requires AllLinked(rows) && i < |rows|
    ensures RowShape(rows[i].page)
    ensures rows[i].ordinal == 1 <==> rows[i].page.predecessor.None?
    ensures rows[i].ordinal != 1 ==> i > 0 && Continues(rows[i - 1], rows[i]) && rows[i].page.superseded.None?
  {
    hide ServedFirst, ServedNext, RowShape;
    assert LinkedAt(rows, i);
    if rows[i].ordinal == 1 {
      BlockIsChain(rows, i);
      assert PagesOf(Block(rows, i))[0] == rows[i].page;
      FirstShape(rows[i].page);
    } else {
      NextShape(rows[i].page, rows[i - 1].page);
    }
  }

  /** Every row is the slice of its scan's list that its ordinal says. */
  lemma RowSlice(rows: seq<Row>, i: nat)
    requires AllLinked(rows) && i < |rows|
    ensures 1 <= rows[i].ordinal && Slice(rows[i].page, Offset(rows[i].ordinal - 1, rows[i].page.limit))
  {
    hide ServedFirst, ServedNext, Slice;
    BlockIsChain(rows, i);
    var pages := PagesOf(Block(rows, i));
    ChainSliced(pages);
    var k := |pages| - 1;
    assert pages[k] == rows[i].page;
    assert SameScan(pages[k], pages[0]) && Slice(pages[k], Offset(k, pages[0].limit));
  }

  /** Reading the store always gives the provider a well-formed source. */
  lemma SourceStartable(st: Store)
    requires Log(st)
    ensures Startable(ReadSource(st))
    ensures KnownBaseline(st, ReadSource(st).baseline)
  {
    hide StrictlySorted, SortChanges, EpochChanges;
    var latest := LatestComplete(st);
    if latest.Some? {
      CompleteEntries(st, latest.value);
    }
    hide LinkedAt, AnswersAt, BaselinesKnown;
  }

  // ---- deletes and the baseline row -----------------------------------------------

  /** An upsert of the scan with this epoch is in the log. */
  ghost predicate Recorded(st: Store, epoch: Epoch, c: Change) {
    exists i | 0 <= i < |st.rows| ::
      st.rows[i].page.owner.version == st.active && st.rows[i].page.epoch == epoch && c in st.rows[i].page.changes
  }

  ghost predicate BaselineRecorded(st: Store, b: Baseline) {
    forall c | c in b.entries :: Recorded(st, b.reference.epoch, c)
  }

  lemma {:induction false} EpochChangesHas(st: Store, n: nat, epoch: Epoch, c: Change)
    requires n <= |st.rows| && c in EpochChanges(st.rows[..n], st.active, epoch)
    ensures Recorded(st, epoch, c)
    decreases n
  {
    var last := st.rows[..n][n - 1];
    assert st.rows[..n][..n - 1] == st.rows[..n - 1];
    if c in EpochChanges(st.rows[..n - 1], st.active, epoch) {
      EpochChangesHas(st, n - 1, epoch, c);
    } else {
      assert st.rows[n - 1] == last;
    }
  }

  lemma {:induction false} InsertHas(x: Change, xs: seq<Change>, c: Change)
    ensures c in InsertChange(x, xs) <==> c == x || c in xs
  {
    if xs != [] && !Less(x.path, xs[0].path) {
      InsertHas(x, xs[1..], c);
      assert xs == [xs[0]] + xs[1..];
    }
  }

  lemma {:induction false} SortHas(xs: seq<Change>, c: Change)
    ensures c in SortChanges(xs) <==> c in xs
  {
    if xs != [] {
      var n := |xs| - 1;
      assert xs == xs[..n] + [xs[n]];
      SortHas(xs[..n], c);
      InsertHas(xs[n], SortChanges(xs[..n]), c);
    }
  }

  lemma BaselineIsRecorded(st: Store)
    requires BaselineOf(st).Some?
    ensures BaselineRecorded(st, BaselineOf(st).value)
  {
    hide Recorded, EpochChanges, SortChanges;
    var b := BaselineOf(st).value;
    forall c | c in b.entries ensures Recorded(st, b.reference.epoch, c) {
      SortHas(EpochChanges(st.rows, st.active, b.reference.epoch), c);
      assert st.rows[..|st.rows|] == st.rows;
      EpochChangesHas(st, |st.rows|, b.reference.epoch, c);
    }
  }

  lemma RecordedKept(st: Store, st': Store, epoch: Epoch, c: Change)
    requires Recorded(st, epoch, c) && st.rows <= st'.rows && st.active == st'.active
    ensures Recorded(st', epoch, c)
  {
    var i :| 0 <= i < |st.rows| && st.rows[i].page.owner.version == st.active && st.rows[i].page.epoch == epoch
             && c in st.rows[i].page.changes;
    assert st'.rows[i] == st.rows[i];
  }

  lemma {:induction false} ActiveFrom(entries: seq<Change>, p: Path)
    requires p in Active(entries)
    ensures Change(Upsert, p, Active(entries)[p]) in entries
  {
    var n := |entries| - 1;
    assert entries == entries[..n] + [entries[n]];
    if !(entries[n].kind.Upsert? && entries[n].path == p) {
      ActiveFrom(entries[..n], p);
    }
  }

  /** Deletes of a list that is a real difference repeat upserts the baseline's scan recorded. */
  lemma DifferenceDeletes(st: Store, s: Source, files: seq<File>, c: Change)
    requires s.baseline.Some? ==> BaselineRecorded(st, s.baseline.value)
    requires ValidSource(s) && !ReplayBranch(s, files)
    requires c in Changes(s, files).0 && c.kind.Delete?
    ensures s.baseline.Some? && Recorded(st, s.baseline.value.reference.epoch, c.(kind := Upsert))
  {
    hide Recorded, Difference, Active;
    var prior := Prior(s);
    DifferenceHas(prior, Tree(files), c.path);
    var d := Changes(s, files).0;
    var i :| 0 <= i < |d| && d[i] == c;
    assert d[i].path == c.path;
    ActiveFrom(s.baseline.value.entries, c.path);
  }

  /** The list is bound to the baseline itself: it is a real difference, or the baseline is no
      longer the head. */
  ghost predicate BoundToBaseline(s: Source, files: seq<File>) {
    ReplayBranch(s, files) ==> !IsCurrentHead(s, s.baseline.value.reference)
  }

  lemma BaselineBinds(s: Source, files: seq<File>)
    requires BoundToBaseline(s, files)
    ensures Changes(s, files).1 == if s.baseline.None? then None else Some(s.baseline.value.reference)
  {
    hide Difference, Active, IsCurrentHead;
  }

  /** Every delete of the list repeats an upsert that the baseline's scan recorded. */
  ghost predicate DeletesRecorded(st: Store, s: Source, files: seq<File>) {
    forall c | c in Changes(s, files).0 && c.kind.Delete? ::
      s.baseline.Some? && Recorded(st, s.baseline.value.reference.epoch, c.(kind := Upsert))
  }

  /** A list can be recorded: it is a real difference, or repeats a superseded baseline without deletes. */
  ghost predicate Recordable(s: Source, files: seq<File>) {
    ReplayBranch(s, files) ==> !IsCurrentHead(s, s.baseline.value.reference) && Deleted(s.baseline.value.entries) == {}
  }

  lemma RecordableDeletes(st: Store, files: seq<File>)
    requires ValidSource(ReadSource(st)) && Recordable(ReadSource(st), files)
    ensures DeletesRecorded(st, ReadSource(st), files)
  {
    var s := ReadSource(st);
    hide Recorded, Difference, Active, ReadSource, BaselineOf, BaselineRecorded;
    if s.baseline.Some? {
      SourceRecorded(st);
    }
    forall c | c in Changes(s, files).0 && c.kind.Delete?
      ensures s.baseline.Some? && Recorded(st, s.baseline.value.reference.epoch, c.(kind := Upsert))
    {
      assert !ReplayBranch(s, files) by {
        if ReplayBranch(s, files) {
          NoDeletes(s.baseline.value.entries, c);
        }
      }
      DifferenceDeletes(st, s, files, c);
    }
  }

  lemma NoDeletes(entries: seq<Change>, c: Change)
    requires Deleted(entries) == {} && c in entries
    ensures c.kind.Upsert?
  {
    var i :| 0 <= i < |entries| && entries[i] == c;
    assert c.kind.Delete? ==> c.path in Deleted(entries);
  }

  lemma SourceRecorded(st: Store)
    requires ReadSource(st).baseline.Some?
    ensures BaselineRecorded(st, ReadSource(st).baseline.value)
  {
    hide BaselineRecorded, BaselineOf;
    BaselineIsRecorded(st);
  }

  lemma DeletesKept(st: Store, st': Store, s: Source, files: seq<File>)
    requires DeletesRecorded(st, s, files) && st.rows <= st'.rows && st.active == st'.active
    ensures DeletesRecorded(st', s, files)
  {
    hide Changes;
    forall c | c in Changes(s, files).0 && c.kind.Delete?
      ensures s.baseline.Some? && Recorded(st', s.baseline.value.reference.epoch, c.(kind := Upsert))
    {
      RecordedKept(st, st', s.baseline.value.reference.epoch, c.(kind := Upsert));
    }
  }

  lemma PageDeletesKnown(st: Store, s: Source, files: seq<File>, page: Page)
    requires BoundToBaseline(s, files) && DeletesRecorded(st, s, files)
    requires forall c | c in page.changes :: c in Changes(s, files).0
    requires page.baseline == Changes(s, files).1
    ensures DeletesKnown(st, page)
  {
    BaselineBinds(s, files);
    hide Changes, BoundToBaseline;
    forall k | 0 <= k < |page.changes| && page.changes[k].kind.Delete?
      ensures page.baseline.Some? && Recorded(st, page.baseline.value.epoch, page.changes[k].(kind := Upsert))
    {
      assert page.changes[k] in page.changes;
    }
  }

  // ---- counting the scan's rows ---------------------------------------------------

  lemma {:induction false} ScanCountNone(rows: seq<Row>, page: Page)
    requires forall k | 0 <= k < |rows| :: rows[k].page.epoch != page.epoch
    ensures ScanCount(rows, page) == 0
  {
    if rows != [] {
      ScanCountNone(rows[..|rows| - 1], page);
    }
  }

  /** The other rows of a scan and the page itself together hold no more than its chain. */
  lemma {:induction false} ScanCountChain(rows: seq<Row>, m: nat, page: Page)
    requires m <= |rows|
    requires forall k | 0 <= k < m :: rows[k].page.epoch != page.epoch
    ensures ScanCount(rows, page) <= |Flatten(PagesOf(rows[m..]))|
    ensures (exists k | m <= k < |rows| :: rows[k].page == page)
            ==> ScanCount(rows, page) + |page.changes| <= |Flatten(PagesOf(rows[m..]))|
  {
    if m == |rows| {
      ScanCountNone(rows, page);
    } else {
      var n := |rows| - 1;
      var init := rows[..n];
      ScanCountChain(init, m, page);
      var pages := PagesOf(rows[m..]);
      assert pages[..|pages| - 1] == PagesOf(init[m..]);
      assert pages[|pages| - 1] == rows[n].page;
      if exists k | m <= k < |rows| :: rows[k].page == page {
        if rows[n].page != page {
          var k :| m <= k < |rows| && rows[k].page == page;
          assert init[k].page == page;
        }
      }
    }
  }

  ghost predicate RestOfScan(rows: seq<Row>, i: nat)
    requires i < |rows|
  {
    forall k | i <= k < |rows| :: OfScan(rows[k], rows[i].page)
  }

  lemma CountAt(rows: seq<Row>, e: nat)
    requires AllLinked(rows) && e < |rows| && RestOfScan(rows, e)
    ensures ScanCount(rows, rows[e].page) + |rows[e].page.changes| <= |rows[e].page.scanRef.entries|
  {
    hide ServedFirst, ServedNext, StrictlySorted, ScanCount, Flatten;
    var n := |rows| - 1;
    BlockIsChain(rows, n);
    BlockIsChain(rows, e);
    var m := n + 1 - rows[n].ordinal;
    var block := rows[m..];
    assert Block(rows, n) == block;
    assert OfScan(rows[n], rows[e].page);
    assert rows[m] == block[0] && OfScan(block[0], block[|block| - 1].page);
    EarlierEpochs(rows, m);
    assert m <= e by {
      assert rows[e].page.epoch == rows[m].page.epoch;
    }
    ScanCountChain(rows, m, rows[e].page);
    var pages := PagesOf(block);
    assert pages[|pages| - 1] == rows[n].page;
    ChainList(pages);
    assert SameScan(pages[|pages| - 1], pages[0]);
  }

  // ---- following a fixed tree -----------------------------------------------------

  /** The tree, baseline and limits of one scan: a recordable list within the bound. */
  ghost predicate Stable(st: Store, s: Source, selection: Option<string>, files: seq<File>, bound: nat, limit: nat) {
    && Log(st) && ValidSource(s) && s.capable && s.owner == Owner(st.organization, st.source, st.active)
    && KnownBaseline(st, s.baseline) && DeletesRecorded(st, s, files)
    && !OutsideSelection(s, selection) && BoundToBaseline(s, files)
    && |Changes(s, files).0| <= bound && 1 <= bound <= MAX_SCAN_BOUND && 1 <= limit <= MAX_PAGE
  }

  /** Row `i` is a page of this scan, and so is everything after it. */
  ghost predicate Following(st: Store, i: nat, s: Source, selection: Option<string>, files: seq<File>, bound: nat,
                            limit: nat) {
    && Stable(st, s, selection, files, bound, limit)
    && i < |st.rows| && RestOfScan(st.rows, i) && s.head == Some(HeadAt(st, i))
    && st.rows[i].page.scanRef == ScanRefOf(s, files, bound) && st.rows[i].page.limit == limit
  }

  /** How deep the baselines of a scan digest nest; a digest never contains itself. */
  ghost function Nesting(r: ScanRef): nat {
    if r.baseline.None? then 0 else 1 + Nesting(r.baseline.value.scanRef)
  }

  /** A list bound to its baseline never has the digest of that baseline. */
  lemma DifferentScan(s: Source, files: seq<File>, bound: nat)
    requires s.baseline.Some? && BoundToBaseline(s, files)
    ensures ScanRefOf(s, files, bound) != s.baseline.value.reference.scanRef
  {
    BaselineBinds(s, files);
    hide Changes, BoundToBaseline;
    assert Nesting(ScanRefOf(s, files, bound)) == 1 + Nesting(s.baseline.value.reference.scanRef);
  }

  /** The list does not move when its own pages become the head. */
  lemma HeadIndependent(s: Source, h: Head, files: seq<File>, bound: nat)
    requires BoundToBaseline(s, files) && h.scanRef == ScanRefOf(s, files, bound)
    ensures var s' := s.(head := Some(h));
      && BoundToBaseline(s', files) && Changes(s', files) == Changes(s, files)
      && ScanRefOf(s', files, bound) == ScanRefOf(s, files, bound)
  {
    if s.baseline.Some? {
      DifferentScan(s, files, bound);
    }
    hide Difference, Active;
  }

  lemma Fits(st: Store, s: Source, selection: Option<string>, files: seq<File>, bound: nat, limit: nat, page: Page)
    requires Stable(st, s, selection, files, bound, limit)
    requires page.scanRef == ScanRefOf(s, files, bound) && RowShape(page) && page.limit == limit
    requires |page.changes| <= limit && forall c | c in page.changes :: c in page.scanRef.entries
    requires ScanCount(st.rows, page) + |page.changes| <= |page.scanRef.entries|
    ensures Admissible(st, page)
  {
    hide StrictlySorted, BaselineRow, DeletesKnown, Changes, Log, BoundToBaseline, DeletesRecorded;
    BaselineBinds(s, files);
    PageDeletesKnown(st, s, files, page);
    if page.baseline.Some? {
      ParentFound(st, page.baseline.value);
    }
    BoundsAgree(st, page);
  }

  lemma BoundsAgree(st: Store, page: Page)
    requires Log(st) && RowShape(page)
    ensures forall k | 0 <= k < |st.rows| && OfScan(st.rows[k], page) :: st.rows[k].page.bound == page.bound
  {
    assert AllLinked(st.rows);
    hide Log, AllLinked, StrictlySorted;
    forall k | 0 <= k < |st.rows| && OfScan(st.rows[k], page) ensures st.rows[k].page.bound == page.bound {
      RowFacts(st.rows, k);
    }
  }

  /** The page that must follow row `i`. */
  ghost function NextPage(st: Store, i: nat, s: Source, limit: nat): Page
    requires i < |st.rows| && Offset(st.rows[i].ordinal, limit) <= |st.rows[i].page.scanRef.entries|
  {
    BuildPage(s, st.rows[i].page.scanRef, st.rows[i].page.epoch, None, limit, Offset(st.rows[i].ordinal, limit),
              Some(PredecessorOf(st, st.rows[i])))
  }

  lemma RowNext(rows: seq<Row>, i: nat)
    requires AllLinked(rows) && i < |rows| && !rows[i].page.complete
    ensures var page := rows[i].page;
      var offset := Offset(rows[i].ordinal, page.limit);
      && 1 <= offset < |page.scanRef.entries|
      && page.next == Some(Claims(page.owner, page.scanRef, page.epoch, page.bound, page.limit, offset))
  {
    hide AllLinked, StrictlySorted;
    RowSlice(rows, i);
    assert Offset(rows[i].ordinal, rows[i].page.limit) ==
        Offset(rows[i].ordinal - 1, rows[i].page.limit) + rows[i].page.limit;
  }

  lemma ContinueBuilds(s: Source, selection: Option<string>, files: seq<File>, bound: nat, c: Accepted, limit: nat)
    requires s.capable && !OutsideSelection(s, selection)
    requires s.head.Some? && s.head.value.version == s.owner.version && s.head.value.scanRef == c.scanRef
    requires s.head.value.epoch == c.epoch && s.head.value.sequence == c.sequence
    requires c.pending == Claims(s.owner, ScanRefOf(s, files, bound), c.epoch, bound, limit, c.pending.offset)
    requires 1 <= c.pending.offset < |c.pending.scanRef.entries| <= bound
    ensures ReadChanges(s, selection, Observed(files), bound, Continue(c), limit) ==
            Ok(BuildPage(s, c.pending.scanRef, c.epoch, None, limit, c.pending.offset,
                         Some(Predecessor(c.pageRef, c.checkpointRef, c.sequence))))
  {
    hide Changes, BuildPage, OutsideSelection;
  }

  lemma LiveRead(st: Store, i: nat, s: Source, selection: Option<string>, files: seq<File>, bound: nat, limit: nat)
    requires Following(st, i, s, selection, files, bound, limit) && !st.rows[i].page.complete
    ensures Offset(st.rows[i].ordinal, limit) < |st.rows[i].page.scanRef.entries|
    ensures ReadChanges(s, selection, Observed(files), bound, CursorAt(st, i), limit) == Ok(NextPage(st, i, s, limit))
  {
    hide Log, AllLinked, StrictlySorted, BuildPage, Changes, DeletesRecorded, KnownBaseline, OutsideSelection,
      BoundToBaseline,
      ReadChanges, ValidSource, Offset, EpochStart;
    LogParts(st, i);
    RowNext(st.rows, i);
    RowFacts(st.rows, i);
    ContinueBuilds(s, selection, files, bound, CursorAt(st, i).claims, limit);
  }

  /** A row that continues row `i` holds exactly the page that must follow. */
  lemma NextRowIs(st: Store, i: nat, s: Source, limit: nat)
    requires Log(st) && i + 1 < |st.rows| && RestOfScan(st.rows, i) && !st.rows[i].page.complete
    requires limit == st.rows[i].page.limit && s.owner == st.rows[i].page.owner
    ensures Offset(st.rows[i].ordinal, limit) < |st.rows[i].page.scanRef.entries|
    ensures st.rows[i + 1].page == NextPage(st, i, s, limit)
  {
    hide Log, AllLinked, StrictlySorted, ServedNext, ServedFirst, Slice, RowShape, BuildPage, Offset;
    LogParts(st, i + 1);
    assert OfScan(st.rows[i + 1], st.rows[i].page);
    RowNext(st.rows, i);
    RowFacts(st.rows, i + 1);
    RowSlice(st.rows, i);
    RowSlice(st.rows, i + 1);
    SameEpochContinues(st.rows, i);
    PairSame(st.rows, i);
    PageDetermined(s, st.rows[i].page, st.rows[i + 1].page, Offset(st.rows[i].ordinal, limit));
  }

  lemma PageDetermined(s: Source, a: Page, b: Page, offset: nat)
    requires s.owner == a.owner && SameScan(b, a) && offset <= |b.scanRef.entries| && Slice(b, offset)
    requires RowShape(b) && b.superseded.None?
    ensures a.scanRef == b.scanRef && b.limit == a.limit
    ensures b == BuildPage(s, b.scanRef, a.epoch, None, a.limit, offset, b.predecessor)
  {
    hide StrictlySorted;
  }

  lemma SameEpochContinues(rows: seq<Row>, i: nat)
    requires AllLinked(rows) && i + 1 < |rows| && OfScan(rows[i + 1], rows[i].page)
    ensures Continues(rows[i], rows[i + 1])
  {
    hide ServedFirst, ServedNext;
    assert LinkedAt(rows, i + 1);
  }

  lemma PairSame(rows: seq<Row>, i: nat)
    requires AllLinked(rows) && i + 1 < |rows| && Continues(rows[i], rows[i + 1])
    ensures SameScan(rows[i + 1].page, rows[i].page)
  {
    hide ServedFirst, ServedNext, Slice;
    RowSlice(rows, i);
    NextSlice(rows[i + 1].page, rows[i].page, Offset(rows[i].ordinal - 1, rows[i].page.limit));
  }

  /** Only the row after `i` names row `i` as its predecessor. */
  lemma PredecessorUnique(st: Store, i: nat, e: nat)
    requires Log(st) && i < |st.rows| && e < |st.rows|
    requires st.rows[e].page.predecessor == Some(PredecessorOf(st, st.rows[i]))
    ensures e == i + 1
  {
    assert AllLinked(st.rows) && AnswersAt(st, e);
    RowFacts(st.rows, e);
    hide AllLinked, LinkedAt, BaselinesKnown;
    assert st.rows[e - 1].sequence == st.rows[i].sequence;
  }

  lemma LinkedAppend(rows: seq<Row>, b: Row)
    requires AllLinked(rows) && rows != [] && Continues(rows[|rows| - 1], b)
    ensures AllLinked(rows + [b])
  {
    hide Continues, Opens, ServedFirst;
    forall k | 0 <= k < |rows + [b]| ensures LinkedAt(rows + [b], k) {
      if k < |rows| {
        assert LinkedAt(rows, k);
      }
    }
  }

  lemma CountNext(st: Store, i: nat, page: Page)
    requires Log(st) && i < |st.rows| && RestOfScan(st.rows, i)
    requires i + 1 < |st.rows| ==> st.rows[i + 1].page == page
    requires i + 1 == |st.rows| ==> OfScan(st.rows[i], page) && ServedNext(page, st.rows[i].page)
    ensures ScanCount(st.rows, page) + |page.changes| <= |page.scanRef.entries|
  {
    hide Log, AllLinked, ServedNext, ServedFirst;
    LogParts(st, i);
    if i + 1 < |st.rows| {
      CountAt(st.rows, i + 1);
    } else {
      var b := Row(page, 0, st.rows[i].ordinal + 1);
      var rows := st.rows + [b];
      LinkedAppend(st.rows, b);
      CountAt(rows, i + 1);
      assert rows[..|rows| - 1] == st.rows;
    }
  }

  lemma NextServed(st: Store, i: nat, s: Source, selection: Option<string>, files: seq<File>, bound: nat, limit: nat)
    requires Following(st, i, s, selection, files, bound, limit) && !st.rows[i].page.complete
    ensures Offset(st.rows[i].ordinal, limit) < |st.rows[i].page.scanRef.entries|
    ensures ServedNext(NextPage(st, i, s, limit), st.rows[i].page)
    ensures Issued(st, NextPage(st, i, s, limit)) && AnsweredFor(NextPage(st, i, s, limit), files)
  {
    hide ReadChanges, Log, AllLinked, DeletesRecorded, Changes, RestOfScan, NextPage, HeadAt, OutsideSelection, Offset;
    LiveRead(st, i, s, selection, files, bound, limit);
    LogParts(st, i);
    RowNext(st.rows, i);
    var q := Request(s, selection, Observed(files), bound, CursorAt(st, i), limit);
    assert ReadChanges(s, selection, Observed(files), bound, Continue(CursorAt(st, i).claims), limit) ==
        Ok(NextPage(st, i, s, limit));
    assert Answer(q) == Ok(NextPage(st, i, s, limit));
    assert s.head.value == HeadAt(st, i).(superseded := s.head.value.superseded);
    assert Honest(st, q);
  }

  /** Control accepts the page that must follow row `i`, as row `i + 1`. */
  lemma AcceptNext(st: Store, i: nat, s: Source, selection: Option<string>, files: seq<File>, bound: nat, limit: nat)
    requires Following(st, i, s, selection, files, bound, limit) && !st.rows[i].page.complete
    ensures Offset(st.rows[i].ordinal, limit) < |st.rows[i].page.scanRef.entries|
    ensures var accepted := Accept(st, NextPage(st, i, s, limit));
      && accepted.Some? && accepted.value.1 == i + 1
      && (if i + 1 < |st.rows| then accepted.value.0 == st
          else
            accepted.value.0 ==
            st.(rows := st.rows + [NewRow(st, NextPage(st, i, s, limit))], lastSequence := st.lastSequence + 1))
  {
    hide Log, AllLinked, StrictlySorted, Changes, DeletesRecorded, KnownBaseline, OutsideSelection, BoundToBaseline,
      ReadChanges, ValidSource, Offset, EpochStart, Admissible, Accept, ServedNext, HeadAt, Issued, AnsweredFor;
    LogParts(st, i);
    RowNext(st.rows, i);
    RowFacts(st.rows, i);
    NextServed(st, i, s, selection, files, bound, limit);
    var page := NextPage(st, i, s, limit);
    NextPageFits(st, i, s, selection, files, bound, limit);
    if i + 1 < |st.rows| {
      NextRowIs(st, i, s, limit);
      AcceptAgain(st, i, page);
    } else {
      NextInOrder(st, page);
      AcceptNew(st, i, page);
    }
  }

  lemma NextPageFits(st: Store, i: nat, s: Source, selection: Option<string>, files: seq<File>, bound: nat, limit: nat)
    requires Following(st, i, s, selection, files, bound, limit) && !st.rows[i].page.complete
    ensures Offset(st.rows[i].ordinal, limit) < |st.rows[i].page.scanRef.entries|
    ensures Admissible(st, NextPage(st, i, s, limit))
  {
    hide Log, AllLinked, StrictlySorted, Changes, DeletesRecorded, KnownBaseline, OutsideSelection, BoundToBaseline,
      ReadChanges, ValidSource, Offset, EpochStart, Admissible, Accept, ServedNext, HeadAt, Issued, AnsweredFor,
      ScanCount;
    LogParts(st, i);
    RowNext(st.rows, i);
    RowFacts(st.rows, i);
    NextServed(st, i, s, selection, files, bound, limit);
    var page := NextPage(st, i, s, limit);
    if i + 1 < |st.rows| {
      NextRowIs(st, i, s, limit);
    }
    CountNext(st, i, page);
    Fits(st, s, selection, files, bound, limit, page);
  }

  lemma AcceptAgain(st: Store, i: nat, page: Page)
    requires Log(st) && i + 1 < |st.rows| && st.rows[i + 1].page == page && Admissible(st, page)
    requires page.predecessor == Some(PredecessorOf(st, st.rows[i]))
    ensures Accept(st, page) == Some((st, i + 1))
  {
    hide Log, Admissible, BaselineExpected, InOrder, NewRow;
    var f := (r: Row) => r.page == page;
    var e := FindLast(st.rows, (r: Row) => r.page == page);
    assert st.rows[i + 1].page == page;
    PredecessorUnique(st, i, e.value);
  }

  lemma AcceptNew(st: Store, i: nat, page: Page)
    requires Log(st) && i + 1 == |st.rows| && Admissible(st, page) && BaselineExpected(st, page) && InOrder(st, page)
    requires page.predecessor == Some(PredecessorOf(st, st.rows[i]))
    ensures Accept(st, page) ==
            Some((st.(rows := st.rows + [NewRow(st, page)], lastSequence := st.lastSequence + 1), i + 1))
  {
    hide Log, Admissible, BaselineExpected, InOrder, NewRow;
    var e := FindLast(st.rows, (r: Row) => r.page == page);
    assert e.None? by {
      if e.Some? {
        PredecessorUnique(st, i, e.value);
      }
    }
  }

  lemma NextInOrder(st: Store, page: Page)
    requires Log(st) && st.rows != [] && RowShape(page)
    requires var last := st.rows[|st.rows| - 1];
      && OfScan(last, page) && !last.page.complete && page.superseded.None?
      && page.predecessor == Some(PredecessorOf(st, last))
    ensures InOrder(st, page) && BaselineExpected(st, page)
  {
    hide Log, AllLinked, StrictlySorted, ServedNext, ServedFirst;
    var rows := st.rows;
    var n := |rows| - 1;
    LogParts(st, n);
    forall k | 0 <= k < |rows| && OfScan(rows[k], page)
      ensures !rows[k].page.complete && rows[k].page.baseline == page.baseline
    {
      RowFacts(rows, k);
      if rows[k].page.complete {
        LaterEpochs(rows, k);
      }
    }
    BlockIsChain(rows, n);
    var m := n + 1 - rows[n].ordinal;
    var block := Block(rows, n);
    assert rows[m] == block[0];
    assert OfScan(block[0], block[|block| - 1].page);
    var f := (r: Row) => OfScan(r, page) && r.ordinal == 1;
    assert f(rows[m]);
    var g := (r: Row) => OfScan(r, page);
    assert g(rows[n]);
  }

  lemma StableNext(st: Store, st': Store, s: Source, h: Head, selection: Option<string>, files: seq<File>, bound: nat,
                   limit: nat)
    requires Stable(st, s, selection, files, bound, limit) && h.scanRef == ScanRefOf(s, files, bound)
    requires Log(st') && st.rows <= st'.rows && Owner(st'.organization, st'.source, st'.active) == s.owner
    ensures Stable(st', s.(head := Some(h)), selection, files, bound, limit)
  {
    hide Log, Changes, DeletesRecorded, KnownRef, OutsideSelection, BoundToBaseline, StrictlySorted;
    HeadIndependent(s, h, files, bound);
    SelectionIgnoresHead(s, Some(h), selection);
    DeletesKept(st, st', s, files);
    DeletesIgnoreHead(st', s, Some(h), files);
    if s.baseline.Some? {
      KnownRefKept(st, st', s.baseline.value.reference);
      if s.baseline.value.comparison.Some? {
        KnownRefKept(st, st', s.baseline.value.comparison.value);
      }
    }
  }

  lemma DeletesIgnoreHead(st: Store, s: Source, h: Option<Head>, files: seq<File>)
    requires DeletesRecorded(st, s, files) && Changes(s.(head := h), files) == Changes(s, files)
    ensures DeletesRecorded(st, s.(head := h), files)
  {
    hide Changes, Recorded;
  }

  lemma HeadScan(st: Store, i: nat)
    requires i < |st.rows|
    ensures HeadAt(st, i).scanRef == st.rows[i].page.scanRef
  {
  }

  lemma SelectionIgnoresHead(s: Source, h: Option<Head>, selection: Option<string>)
    ensures OutsideSelection(s.(head := h), selection) == OutsideSelection(s, selection)
  {
  }

  lemma FollowingNext(st: Store, i: nat, s: Source, selection: Option<string>, files: seq<File>, bound: nat, limit: nat)
    requires Following(st, i, s, selection, files, bound, limit) && !st.rows[i].page.complete
    ensures Offset(st.rows[i].ordinal, limit) < |st.rows[i].page.scanRef.entries|
    ensures Accept(st, NextPage(st, i, s, limit)).Some?
    ensures var st' := Accept(st, NextPage(st, i, s, limit)).value.0;
      && i + 1 < |st'.rows| && st'.rows[i + 1].page == NextPage(st, i, s, limit)
      && Following(st', i + 1, s.(head := Some(HeadAt(st', i + 1))), selection, files, bound, limit)
  {
    hide Log, Changes, Stable, Accept, HeadAt, AnsweredFor, Issued, BoundToBaseline, ServedNext, AllLinked, Offset,
      BuildPage, Extends;
    AcceptNext(st, i, s, selection, files, bound, limit);
    NextServed(st, i, s, selection, files, bound, limit);
    var page := NextPage(st, i, s, limit);
    var st' := Accept(st, page).value.0;
    StableParts(st, s, selection, files, bound, limit);
    AcceptExtends(st, page);
    LogParts(st, i);
    RowFacts(st.rows, i);
    if i + 1 < |st.rows| {
      NextRowIs(st, i, s, limit);
    }
    BuiltScan(s, st.rows[i].page.scanRef, st.rows[i].page.epoch, limit, Offset(st.rows[i].ordinal, limit),
              Some(PredecessorOf(st, st.rows[i])));
    HeadScan(st', i + 1);
    HeadIndependent(s, HeadAt(st', i + 1), files, bound);
    StableNext(st, st', s, HeadAt(st', i + 1), selection, files, bound, limit);
    hide ScanRefOf, NextPage;
  }

  lemma StableParts(st: Store, s: Source, selection: Option<string>, files: seq<File>, bound: nat, limit: nat)
    requires Stable(st, s, selection, files, bound, limit)
    ensures Log(st) && s.owner == Owner(st.organization, st.source, st.active) && BoundToBaseline(s, files)
  {
  }

  lemma BuiltScan(s: Source, scanRef: ScanRef, epoch: Epoch, limit: nat, offset: nat, predecessor: Option<Predecessor>)
    requires offset <= |scanRef.entries|
    ensures var page := BuildPage(s, scanRef, epoch, None, limit, offset, predecessor);
      page.owner == s.owner && page.scanRef == scanRef && page.epoch == epoch && page.limit == limit
  {
  }

  /** What a finished scan leaves: its last page heads the log. */
  ghost predicate Finished(scan: Scan, files: seq<File>, scanRef: ScanRef, bound: nat, limit: nat) {
    && scan.ending == Completed && JustCompleted(scan.store, files)
    && var last := scan.store.rows[|scan.store.rows| - 1].page;
       last.scanRef == scanRef && last.bound == bound && last.limit == limit
  }

  /** Every read sees the same. */
  function Always(seen: Observation): nat -> Observation {
    (_: nat) => seen
  }

  /** A tree that nobody touches, and that can be read. */
  function Still(files: seq<File>): nat -> Observation {
    Always(Observed(files))
  }

  lemma {:induction false} LiveRun(st: Store, i: nat, s: Source, selection: Option<string>, files: seq<File>,
                                   k: nat, bound: nat,
                                   limit: Positive)
    requires Following(st, i, s, selection, files, bound, limit) && !st.rows[i].page.complete
    ensures Finished(RunScan(st, s, selection, Still(files), k, bound, limit, CursorAt(st, i)), files,
                     st.rows[i].page.scanRef, bound, limit)
    decreases Remaining(CursorAt(st, i))
  {
    hide Log, Changes, Following, Accept, HeadAt, AnsweredFor, Issued, BoundToBaseline, ServedNext, AllLinked,
      Offset, BuildPage, ReadChanges, NextPage,
      JustCompleted;
    FollowingNext(st, i, s, selection, files, bound, limit);
    AcceptNext(st, i, s, selection, files, bound, limit);
    LiveRead(st, i, s, selection, files, bound, limit);
    NextServed(st, i, s, selection, files, bound, limit);
    var page := NextPage(st, i, s, limit);
    var st' := Accept(st, page).value.0;
    var s' := s.(head := Some(HeadAt(st', i + 1)));
    CursorContinues(st, i, s, selection, files, bound, limit);
    NextKeeps(st, i, s, limit);
    FollowingEnds(st', i + 1, s', selection, files, bound, limit);
    if page.next.Some? {
      NextRemaining(s, selection, Observed(files), bound, CursorAt(st, i), limit, st', i + 1);
      LiveRun(st', i + 1, s', selection, files, k + 1, bound, limit);
      hide Finished;
      StepContinues(st, s, selection, files, k, bound, limit, CursorAt(st, i), page);
    } else {
      assert RunScan(st, s, selection, Still(files), k, bound, limit, CursorAt(st, i)).store == st';
      CompletedState(st', i + 1, files);
    }
  }

  lemma CompletedState(st: Store, i: nat, files: seq<File>)
    requires Log(st) && i + 1 == |st.rows| && st.rows[i].page.complete
    requires st.rows[i].page.owner == Owner(st.organization, st.source, st.active)
    requires AnsweredFor(st.rows[i].page, files)
    ensures JustCompleted(st, files)
  {
    hide Log, AnsweredFor;
  }

  lemma StepContinues(st: Store, s: Source, selection: Option<string>, files: seq<File>, k: nat, bound: nat,
                      limit: Positive,
                      cursor: Cursor, page: Page)
    requires ReadChanges(s, selection, Observed(files), bound, cursor, limit) == Ok(page)
    requires page.limit == limit && page.next.Some?
    requires cursor.InitialScan? ==> !ReplaysBaseline(s, page.scanRef, page.epoch)
    requires Accept(st, page).Some?
    ensures var (st', i) := Accept(st, page).value;
      i < |st'.rows| &&
      var rest := RunScan(st', s.(head := Some(HeadAt(st', i))), selection, Still(files), k + 1, bound, limit,
                          CursorAt(st', i));
      var scan := RunScan(st, s, selection, Still(files), k, bound, limit, cursor);
      scan.store == rest.store && scan.ending == rest.ending && scan.pages == [page] + rest.pages
  {
    hide ReadChanges, Accept, ReplaysBaseline, HeadAt;
    AcceptIndex(st, page);
  }

  lemma CursorContinues(st: Store, i: nat, s: Source, selection: Option<string>, files: seq<File>, bound: nat,
                        limit: nat)
    requires Following(st, i, s, selection, files, bound, limit) && !st.rows[i].page.complete
    ensures CursorAt(st, i).Continue?
  {
    hide Changes, BoundToBaseline, KnownBaseline, DeletesRecorded, OutsideSelection;
    LogParts(st, i);
    RowNext(st.rows, i);
  }

  lemma NextKeeps(st: Store, i: nat, s: Source, limit: nat)
    requires i < |st.rows| && Offset(st.rows[i].ordinal, limit) <= |st.rows[i].page.scanRef.entries|
    ensures var page := NextPage(st, i, s, limit);
      page.limit == limit && page.scanRef == st.rows[i].page.scanRef
  {
    hide Offset;
  }

  /** The scan's row is complete exactly when it has no cursor, and then it heads the log. */
  lemma FollowingEnds(st: Store, i: nat, s: Source, selection: Option<string>, files: seq<File>, bound: nat, limit: nat)
    requires Following(st, i, s, selection, files, bound, limit)
    ensures st.rows[i].page.complete <==> st.rows[i].page.next.None?
    ensures st.rows[i].page.complete ==> i + 1 == |st.rows|
    ensures st.rows[i].page.bound == bound && st.rows[i].page.limit == limit && Log(st)
    ensures st.rows[i].page.owner == Owner(st.organization, st.source, st.active)
  {
    hide Changes, BoundToBaseline, KnownBaseline, DeletesRecorded, OutsideSelection, AllLinked, Log, StrictlySorted,
      HeadAt;
    LogParts(st, i);
    RowSlice(st.rows, i);
    RowFacts(st.rows, i);
    if st.rows[i].page.complete {
      LaterEpochs(st.rows, i);
      assert i + 1 < |st.rows| ==> OfScan(st.rows[i + 1], st.rows[i].page);
    }
  }

  // ---- opening the scan -----------------------------------------------------------

  lemma InitialBuilds(s: Source, selection: Option<string>, files: seq<File>, bound: nat, limit: nat)
    requires s.capable && !OutsideSelection(s, selection) && |ScanRefOf(s, files, bound).entries| <= bound
    ensures ReadChanges(s, selection, Observed(files), bound, InitialScan, limit) ==
            Ok(OpeningPage(s, files, bound, limit))
  {
    hide Changes, BuildPage, OutsideSelection;
  }

  ghost function OpeningPage(s: Source, files: seq<File>, bound: nat, limit: nat): Page {
    var scanRef := ScanRefOf(s, files, bound);
    BuildPage(s, scanRef, ScanEpoch(s, scanRef).0, ScanEpoch(s, scanRef).1,
              if HeadServes(s, scanRef) then s.head.value.limit else limit, 0, None)
  }

  lemma FreshEpoch(st: Store, e: Epoch)
    requires Log(st)
    requires st.rows != [] ==> e.predecessor.Some? && e.predecessor.value.epoch == st.rows[|st.rows| - 1].page.epoch
    ensures forall k | 0 <= k < |st.rows| :: st.rows[k].page.epoch != e
  {
    hide Log, AllLinked;
    forall k | 0 <= k < |st.rows| ensures st.rows[k].page.epoch != e {
      LogParts(st, k);
      DepthAlong(st.rows, k, |st.rows| - 1);
    }
  }

  lemma OpeningShape(s: Source, files: seq<File>, bound: nat, limit: nat)
    requires ValidSource(s)
    ensures var page := OpeningPage(s, files, bound, limit);
      && RowShape(page) && page.scanRef == ScanRefOf(s, files, bound) && page.owner == s.owner
      && (page.epoch, page.superseded) == ScanEpoch(s, page.scanRef) && page.predecessor.None?
      && page.limit == (if HeadServes(s, page.scanRef) then s.head.value.limit else limit)
      && |page.changes| <= page.limit && (forall c | c in page.changes :: c in page.scanRef.entries)
      && |page.changes| <= |page.scanRef.entries|
  {
    ChangesMeaning(s, files);
    ListVersion(s, files);
    hide Changes, StrictlySorted, Active;
  }

  /** The page that opens a new scan is issued for this store and not yet in it. */
  lemma OpeningIssued(st: Store, selection: Option<string>, files: seq<File>, bound: nat, limit: nat)
    requires Stable(st, ReadSource(st), selection, files, bound, limit)
    ensures var page := OpeningPage(ReadSource(st), files, bound, limit);
      && ReadChanges(ReadSource(st), selection, Observed(files), bound, InitialScan, limit) == Ok(page)
      && Issued(st, page) && AnsweredFor(page, files)
  {
    hide Log, Changes, KnownBaseline, DeletesRecorded, BoundToBaseline, OpeningPage, ReadChanges, HeadAt,
      BaselineOf, OutsideSelection;
    var s := ReadSource(st);
    InitialBuilds(s, selection, files, bound, limit);
    var page := OpeningPage(s, files, bound, limit);
    var q := Request(s, selection, Observed(files), bound, InitialScan, limit);
    assert Answer(q) == Ok(page);
    assert KnownHead(st, s.head) by {
      if s.head.Some? {
        assert s.head.value == HeadAt(st, |st.rows| - 1).(superseded := s.head.value.superseded);
      }
    }
    assert Honest(st, q);
  }

  lemma OpeningExpected(st: Store, files: seq<File>, bound: nat, page: Page)
    requires page.scanRef == ScanRefOf(ReadSource(st), files, bound) && page.baseline == page.scanRef.baseline
    requires BoundToBaseline(ReadSource(st), files) && page.predecessor.None?
    ensures BaselineExpected(st, page)
  {
    BaselineBinds(ReadSource(st), files);
    hide Changes, BoundToBaseline, SortChanges, EpochChanges, HeadAt;
  }

  /** A scan the head does not serve opens a new epoch right after the head, and is accepted. */
  lemma OpenFresh(st: Store, selection: Option<string>, files: seq<File>, bound: nat, limit: nat)
    requires Stable(st, ReadSource(st), selection, files, bound, limit)
    requires !HeadServes(ReadSource(st), ScanRefOf(ReadSource(st), files, bound))
    ensures var page := OpeningPage(ReadSource(st), files, bound, limit);
      && page.limit == limit
      && Accept(st, page) ==
         Some((st.(rows := st.rows + [NewRow(st, page)], lastSequence := st.lastSequence + 1), |st.rows|))
  {
    hide Log, Changes, KnownBaseline, DeletesRecorded, BoundToBaseline, OpeningPage, ReadChanges, OutsideSelection,
      BaselineOf, Admissible, BaselineExpected, NewRow, EpochStart, StrictlySorted, RowShape, FindLast;
    var s := ReadSource(st);
    var page := OpeningPage(s, files, bound, limit);
    OpeningShape(s, files, bound, limit);
    FreshEpoch(st, page.epoch);
    ScanCountNone(st.rows, page);
    Fits(st, s, selection, files, bound, limit, page);
    ShapeBaseline(page);
    OpeningExpected(st, files, bound, page);
    AcceptOpening(st, page);
  }

  lemma ShapeBaseline(page: Page)
    requires RowShape(page)
    ensures page.baseline == page.scanRef.baseline
  {
  }

  lemma AcceptOpening(st: Store, page: Page)
    requires Admissible(st, page) && BaselineExpected(st, page) && page.predecessor.None?
    requires page.superseded == (if st.rows == [] then None else Some(st.rows[|st.rows| - 1].page.epoch))
    requires forall k | 0 <= k < |st.rows| :: st.rows[k].page.epoch != page.epoch
    ensures Accept(st, page) ==
            Some((st.(rows := st.rows + [NewRow(st, page)], lastSequence := st.lastSequence + 1), |st.rows|))
  {
    hide Admissible, BaselineExpected, NewRow;
  }

  // ---- resuming an interrupted scan -----------------------------------------------

  /** A log holds one opening row for each epoch. */
  lemma OpeningUnique(rows: seq<Row>, a: nat, b: nat)
    requires AllLinked(rows) && a < |rows| && b < |rows|
    requires rows[a].ordinal == 1 && rows[b].ordinal == 1 && rows[a].page.epoch == rows[b].page.epoch
    ensures a == b
  {
    EarlierEpochs(rows, a);
    EarlierEpochs(rows, b);
  }

  lemma SameScanBack(a: Page, b: Page)
    requires SameScan(a, b)
    ensures SameScan(b, a)
  {
  }

  lemma ChainSame(pages: seq<Page>)
    requires Chain(pages)
    ensures SameScan(pages[0], pages[|pages| - 1])
  {
    hide ServedFirst, ServedNext, Flatten, StrictlySorted, SameScan;
    ChainList(pages);
    SameScanBack(pages[|pages| - 1], pages[0]);
  }

  lemma WholeSame(block: seq<Row>)
    requires WholeScan(block)
    ensures block != [] && block[0].ordinal == 1 && SameScan(block[0].page, block[|block| - 1].page)
    ensures OfScan(block[0], block[|block| - 1].page)
  {
    hide Chain, SameScan;
    var pages := PagesOf(block);
    assert pages[0] == block[0].page && pages[|pages| - 1] == block[|block| - 1].page;
    ChainSame(pages);
  }

  lemma WholeHas(block: seq<Row>, k: nat)
    requires WholeScan(block) && k < |block|
    ensures OfScan(block[k], block[|block| - 1].page)
  {
    hide Chain, PagesOf;
  }

  lemma BlockAt(rows: seq<Row>, n: nat, k: nat)
    requires n < |rows| && 1 <= rows[n].ordinal <= n + 1 && n + 1 - rows[n].ordinal <= k <= n
    ensures |Block(rows, n)| == rows[n].ordinal && Block(rows, n)[k - (n + 1 - rows[n].ordinal)] == rows[k]
  {
  }

  lemma HeadBlock(st: Store) returns (m: nat)
    requires Log(st) && st.rows != []
    ensures m < |st.rows| && st.rows[m].ordinal == 1 && RestOfScan(st.rows, m)
    ensures SameScan(st.rows[m].page, st.rows[|st.rows| - 1].page)
  {
    hide Log, AllLinked, SameScan, WholeScan, Block;
    var n := |st.rows| - 1;
    LogParts(st, n);
    BlockIsChain(st.rows, n);
    m := n + 1 - st.rows[n].ordinal;
    WholeSame(Block(st.rows, n));
    BlockAt(st.rows, n, m);
    BlockAt(st.rows, n, n);
    forall k | m <= k < |st.rows| ensures OfScan(st.rows[k], st.rows[m].page) {
      BlockAt(st.rows, n, k);
      WholeHas(Block(st.rows, n), k - m);
    }
  }

  lemma StartFound(st: Store, m: nat)
    requires Log(st) && m < |st.rows| && st.rows[m].ordinal == 1 && RestOfScan(st.rows, m)
    ensures EpochStart(st, |st.rows| - 1) == Some(m)
  {
    hide Log, AllLinked;
    var n := |st.rows| - 1;
    LogParts(st, n);
    assert OfScan(st.rows[n], st.rows[m].page);
    var f := (r: Row) =>
      r.ordinal == 1 && r.page.epoch == st.rows[n].page.epoch && r.page.owner.version == st.rows[n].page.owner.version;
    assert f(st.rows[m]);
    var e := EpochStart(st, n);
    OpeningUnique(st.rows, m, e.value);
  }

  /** Where the head's scan begins. */
  lemma HeadStart(st: Store) returns (m: nat)
    requires Log(st) && st.rows != []
    ensures m < |st.rows| && st.rows[m].ordinal == 1 && RestOfScan(st.rows, m)
    ensures SameScan(st.rows[m].page, st.rows[|st.rows| - 1].page)
    ensures EpochStart(st, |st.rows| - 1) == Some(m)
  {
    hide Log, SameScan, RestOfScan, EpochStart;
    m := HeadBlock(st);
    StartFound(st, m);
  }

  lemma OpeningDetermined(s: Source, page: Page, files: seq<File>, bound: nat, limit: nat)
    requires RowShape(page) && Slice(page, 0) && page.predecessor.None?
    requires page.scanRef == ScanRefOf(s, files, bound) && HeadServes(s, page.scanRef)
    requires s.head.value.epoch == page.epoch && s.head.value.superseded == page.superseded
    requires s.head.value.limit == page.limit
    ensures OpeningPage(s, files, bound, limit) == page
  {
    hide Changes, StrictlySorted;
  }

  /** A scan the head serves starts again from its first page, which Control already holds. */
  lemma OpenResume(st: Store, selection: Option<string>, files: seq<File>, bound: nat, limit: nat) returns (m: nat)
    requires Stable(st, ReadSource(st), selection, files, bound, limit)
    requires HeadServes(ReadSource(st), ScanRefOf(ReadSource(st), files, bound))
    requires ReadSource(st).head.value.limit == limit
    ensures m < |st.rows| && RestOfScan(st.rows, m)
    ensures var page := OpeningPage(ReadSource(st), files, bound, limit);
      page == st.rows[m].page && page.limit == limit && Accept(st, page) == Some((st, m))
  {
    hide Log, Changes, KnownBaseline, DeletesRecorded, BoundToBaseline, OpeningPage, ReadChanges, OutsideSelection,
      BaselineOf, EpochStart, StrictlySorted, RowShape, Slice, AllLinked, Accept;
    var s := ReadSource(st);
    m := HeadStart(st);
    LogParts(st, m);
    RowFacts(st.rows, m);
    RowSlice(st.rows, m);
    var page := st.rows[m].page;
    OpeningDetermined(s, page, files, bound, limit);
    OpeningShape(s, files, bound, limit);
    CountAt(st.rows, m);
    Fits(st, s, selection, files, bound, limit, page);
    AcceptOpeningAgain(st, m);
  }

  lemma AcceptOpeningAgain(st: Store, m: nat)
    requires Log(st) && m < |st.rows| && st.rows[m].ordinal == 1 && Admissible(st, st.rows[m].page)
    ensures Accept(st, st.rows[m].page) == Some((st, m))
  {
    hide Log, Admissible, BaselineExpected, InOrder, NewRow, AllLinked;
    var page := st.rows[m].page;
    var f := (r: Row) => r.page == page;
    assert f(st.rows[m]);
    var e := FindLast(st.rows, (r: Row) => r.page == page).value;
    LogParts(st, e);
    RowFacts(st.rows, m);
    RowFacts(st.rows, e);
    OpeningUnique(st.rows, m, e);
  }

  // ---- the theorems ---------------------------------------------------------------

  /** The head's scan, if it is this one, was cut into pages of the same size. */
  ghost predicate SameLimit(s: Source, files: seq<File>, bound: nat, limit: nat) {
    HeadServes(s, ScanRefOf(s, files, bound)) ==> s.head.value.limit == limit
  }

  lemma Opened(st: Store, selection: Option<string>, files: seq<File>, bound: nat, limit: nat)
    returns (st': Store, i: nat)
    requires var s := ReadSource(st);
      Stable(st, s, selection, files, bound, limit) && SameLimit(s, files, bound, limit)
    ensures var s := ReadSource(st);
      var page := OpeningPage(s, files, bound, limit);
      && ReadChanges(s, selection, Observed(files), bound, InitialScan, limit) == Ok(page)
      && page.limit == limit && Accept(st, page) == Some((st', i)) && AnsweredFor(page, files)
      && i < |st'.rows| && st'.rows[i].page == page
      && Following(st', i, s.(head := Some(HeadAt(st', i))), selection, files, bound, limit)
  {
    hide Log, Changes, Stable, OpeningPage, ReadChanges, Accept, ReadSource, AnsweredFor, Issued, HeadAt, ScanRefOf,
      RowShape;
    var s := ReadSource(st);
    var page := OpeningPage(s, files, bound, limit);
    StableParts(st, s, selection, files, bound, limit);
    OpeningIssued(st, selection, files, bound, limit);
    SourceStartable(st);
    OpeningShape(s, files, bound, limit);
    if HeadServes(s, ScanRefOf(s, files, bound)) {
      i := OpenResume(st, selection, files, bound, limit);
      st' := st;
    } else {
      OpenFresh(st, selection, files, bound, limit);
      st', i := Accept(st, page).value.0, |st.rows|;
    }
    AcceptExtends(st, page);
    HeadScan(st', i);
    HeadIndependent(s, HeadAt(st', i), files, bound);
    StableNext(st, st', s, HeadAt(st', i), selection, files, bound, limit);
  }

  /** A list bound to its baseline is never taken for a replay. */
  lemma NotAReplay(s: Source, files: seq<File>, bound: nat)
    requires BoundToBaseline(s, files)
    ensures !ReplaysBaseline(s, ScanRefOf(s, files, bound), ScanEpoch(s, ScanRefOf(s, files, bound)).0)
  {
    hide Changes, BoundToBaseline;
    if s.baseline.Some? {
      DifferentScan(s, files, bound);
    }
  }

  lemma StableScanCompletes(st: Store, selection: Option<string>, files: seq<File>, bound: nat, limit: Positive)
    requires var s := ReadSource(st);
      Stable(st, s, selection, files, bound, limit) && SameLimit(s, files, bound, limit)
    ensures Finished(RunScan(st, ReadSource(st), selection, Still(files), 0, bound, limit, InitialScan), files,
                     ScanRefOf(ReadSource(st), files, bound), bound, limit)
  {
    hide Log, Changes, Stable, OpeningPage, ReadChanges, Accept, ReadSource, AnsweredFor, Issued, HeadAt, ScanRefOf,
      Following,
      ReplaysBaseline, JustCompleted, RowShape;
    var s := ReadSource(st);
    var page := OpeningPage(s, files, bound, limit);
    var st', i := Opened(st, selection, files, bound, limit);
    StableParts(st, s, selection, files, bound, limit);
    NotAReplay(s, files, bound);
    SourceStartable(st);
    OpeningShape(s, files, bound, limit);
    var s' := s.(head := Some(HeadAt(st', i)));
    FollowingEnds(st', i, s', selection, files, bound, limit);
    if page.next.Some? {
      LiveRun(st', i, s', selection, files, 1, bound, limit);
      hide Finished;
      StepContinues(st, s, selection, files, 0, bound, limit, InitialScan, page);
    } else {
      assert RunScan(st, s, selection, Still(files), 0, bound, limit, InitialScan).store == st';
      CompletedState(st', i, files);
    }
  }

  /** From every sound log, a scan of a tree that stays put finishes when its list can be recorded,
      whether it opens anew or was interrupted earlier. */
  lemma ScanCompletes(st: Store, selection: Option<string>, files: seq<File>, bound: nat, limit: Positive)
    requires Log(st)
    requires var s := ReadSource(st);
      && !OutsideSelection(s, selection) && Recordable(s, files) && |Changes(s, files).0| <= bound
      && SameLimit(s, files, bound, limit)
    requires 1 <= bound <= MAX_SCAN_BOUND && limit <= MAX_PAGE
    ensures Finished(RunScan(st, ReadSource(st), selection, Still(files), 0, bound, limit, InitialScan), files,
                     ScanRefOf(ReadSource(st), files, bound), bound, limit)
  {
    hide Log, Changes, OutsideSelection, ReplayBranch, SameLimit, Finished, RunScan, DeletesRecorded, HeadOf,
      BaselineOf,
      KnownBaseline, ValidSource, IsCurrentHead, Deleted;
    SourceStartable(st);
    RecordableDeletes(st, files);
    StableScanCompletes(st, selection, files, bound, limit);
  }

  ghost predicate InSelection(selection: Option<string>, files: seq<File>) {
    selection.Some? ==> forall i | 0 <= i < |files| :: selection.value <= files[i].path
  }

  lemma {:induction false} TreeFrom(files: seq<File>, p: Path)
    requires p in Tree(files)
    ensures exists i :: 0 <= i < |files| && files[i].path == p
  {
    var n := |files| - 1;
    if files[n].path != p {
      TreeFrom(files[..n], p);
      var i :| 0 <= i < n && files[..n][i].path == p;
      assert files[i].path == p;
    }
  }

  lemma SelectionKept(s: Source, selection: Option<string>, files: seq<File>)
    requires ValidSource(s) && ReplayBranch(s, files) && InSelection(selection, files)
    ensures !OutsideSelection(s, selection)
  {
    hide Active, Tree, Distinct;
    if OutsideSelection(s, selection) {
      var entries := s.baseline.value.entries;
      var i :| 0 <= i < |entries| && entries[i].kind.Upsert? && !(selection.value <= entries[i].path);
      StrictlySortedDistinct(Paths(entries));
      ActiveAt(entries, entries[i].path);
      TreeFrom(files, entries[i].path);
      assert false;
    }
  }

  /** The tree is the one the complete head recorded. */
  ghost predicate Current(st: Store, files: seq<File>) {
    && Log(st)
    && var s := ReadSource(st);
       ReplayBranch(s, files) && IsCurrentHead(s, s.baseline.value.reference)
  }

  lemma CompletedIsCurrent(st: Store, files: seq<File>)
    requires JustCompleted(st, files)
    ensures Current(st, files)
  {
    hide Log, AnsweredFor, ReadSource, ReplayBranch, IsCurrentHead;
    RescanReproduces(st, files);
  }

  /** A complete head of the active version is the baseline. */
  lemma HeadIsBaseline(st: Store, files: seq<File>)
    requires Current(st, files)
    ensures st.rows != []
    ensures var n := |st.rows| - 1;
      && LatestComplete(st) == Some(n) && st.rows[n].page.complete
      && st.rows[n].page.owner == Owner(st.organization, st.source, st.active)
      && ReadSource(st).head == Some(HeadAt(st, n))
  {
    assert ReadSource(st).baseline.Some?;
    hide SortChanges, EpochChanges, ReplayBranch, LinkedAt, AnswersAt, BaselinesKnown;
    var n := |st.rows| - 1;
    var latest := LatestComplete(st);
    assert latest.Some? && st.rows[latest.value].page.owner.version == st.active;
    assert st.rows[n].page.complete && st.rows[n].page.owner.version == st.active;
  }

  lemma CurrentRow(st: Store, files: seq<File>)
    requires Current(st, files)
    ensures st.rows != [] && RowShape(st.rows[|st.rows| - 1].page)
    ensures var n := |st.rows| - 1;
      var s := ReadSource(st);
      && s.head == Some(HeadAt(st, n)) && st.rows[n].page.complete
      && s.baseline == Some(Baseline(RefOf(st, st.rows[n]), st.rows[n].page.baseline, st.rows[n].page.scanRef.entries))
      && st.rows[n].page.owner == Owner(st.organization, st.source, st.active)
  {
    HeadIsBaseline(st, files);
    hide Log, SortChanges, EpochChanges, ReplayBranch, IsCurrentHead, StrictlySorted, HeadAt;
    var n := |st.rows| - 1;
    CompleteEntries(st, n);
    LogParts(st, n);
    RowFacts(st.rows, n);
    if st.rows[n].page.baseline.Some? {
      BaselineIsKnown(st, n);
      ParentFound(st, st.rows[n].page.baseline.value);
    }
    hide LatestComplete, BaselineRow, AllLinked;
  }

  /** What the first read of a tree finds that the complete head recorded. */
  lemma RescanReads(st: Store, selection: Option<string>, files: seq<File>, bound: nat, limit: Positive)
    requires Current(st, files) && !OutsideSelection(ReadSource(st), selection)
    ensures st.rows != []
    ensures var n := |st.rows| - 1;
      var s := ReadSource(st);
      && ReadChanges(s, selection, Observed(files), bound, InitialScan, limit) ==
         (if |st.rows[n].page.scanRef.entries| <= bound then Ok(OpeningPage(s, files, bound, limit))
          else BoundExceeded(bound))
      && ScanRefOf(s, files, bound) == st.rows[n].page.scanRef.(bound := bound)
      && Changes(s, files).0 == st.rows[n].page.scanRef.entries
  {
    CurrentRow(st, files);
    var s := ReadSource(st);
    hide Log, SortChanges, EpochChanges, OutsideSelection, StrictlySorted, HeadAt, RefOf, Unchanged;
    assert Changes(s, files) == (s.baseline.value.entries, s.baseline.value.comparison);
    OpeningOutcome(s, selection, files, bound, limit);
    hide ReadSource, Changes, ReadChanges, OpeningPage, ReplayBranch, IsCurrentHead;
  }

  lemma OpeningOutcome(s: Source, selection: Option<string>, files: seq<File>, bound: nat, limit: nat)
    requires s.capable && !OutsideSelection(s, selection)
    ensures ReadChanges(s, selection, Observed(files), bound, InitialScan, limit) ==
            if |Changes(s, files).0| <= bound then Ok(OpeningPage(s, files, bound, limit)) else BoundExceeded(bound)
  {
    hide OutsideSelection, Changes;
    if |Changes(s, files).0| <= bound {
      InitialBuilds(s, selection, files, bound, limit);
    }
    hide OpeningPage;
  }

  lemma AnswerFits(page: Page, files: seq<File>)
    requires AnsweredFor(page, files)
    ensures |page.scanRef.entries| <= page.bound
  {
    hide StrictlySorted, Changes;
    var q: Request :| ValidSource(q.source) && q.seen == Observed(files) && Answer(q) == Ok(page);
    VerifiableAnswer(q);
    if q.cursor.InitialScan? {
      InitialOk(q.source, q.selection, q.seen, q.bound, q.limit);
    } else {
      ContinueOk(q.source, q.selection, q.seen, q.bound, q.cursor.claims, q.limit);
    }
  }

  /** Under another bound the opening page names the completed scan's own baseline, while Control
      expects the completed scan itself: the page is refused. */
  lemma OtherBoundRefused(st: Store, files: seq<File>, page: Page)
    requires Current(st, files) && st.rows != []
    requires var last := st.rows[|st.rows| - 1].page;
      && page.baseline == last.baseline && page.predecessor.None?
      && page.epoch.predecessor.Some? && page.epoch.predecessor.value.epoch == last.epoch
    ensures Accept(st, page).None?
  {
    HeadIsBaseline(st, files);
    CurrentRow(st, files);
    var n := |st.rows| - 1;
    hide Log, ReadSource, Admissible, InOrder, NewRow, LatestComplete, StrictlySorted, ReplayBranch, IsCurrentHead;
    FreshEpoch(st, page.epoch);
    var existing := FindLast(st.rows, (r: Row) => r.page == page);
    assert existing.None?;
    BaselineIsOlder(st.rows[n].page);
  }

  lemma BaselineIsOlder(page: Page)
    requires page.baseline == page.scanRef.baseline
    ensures page.baseline.Some? ==> page.baseline.value.pageRef.page != page
  {
    if page.baseline.Some? && page.baseline.value.pageRef.page == page {
      PageContains(page);
    }
  }

  ghost function PageDepth(p: Page): nat {
    if p.baseline.None? then 0 else 1 + PageDepth(p.baseline.value.pageRef.page)
  }

  lemma PageContains(page: Page)
    requires page.baseline.Some?
    ensures PageDepth(page) == 1 + PageDepth(page.baseline.value.pageRef.page)
  {
  }

  lemma RescanSameBound(st: Store, selection: Option<string>, files: seq<File>, limit: Positive)
    requires Current(st, files) && !OutsideSelection(ReadSource(st), selection) && st.rows != []
    requires var last := st.rows[|st.rows| - 1].page; |last.scanRef.entries| <= last.bound
    ensures var last := st.rows[|st.rows| - 1].page;
      var outcome := ReadChanges(ReadSource(st), selection, Observed(files), last.bound, InitialScan, limit);
      && outcome.Ok? && outcome.page.limit == last.limit
      && ReplaysBaseline(ReadSource(st), outcome.page.scanRef, outcome.page.epoch)
  {
    CurrentRow(st, files);
    hide ReadChanges, BaselineOf, Changes, Log, EpochStart, StrictlySorted, OutsideSelection, Unchanged;
    RescanReads(st, selection, files, st.rows[|st.rows| - 1].page.bound, limit);
  }

  lemma RescanOtherBound(st: Store, selection: Option<string>, files: seq<File>, bound: nat, limit: Positive)
    requires Current(st, files) && !OutsideSelection(ReadSource(st), selection) && st.rows != []
    requires bound != st.rows[|st.rows| - 1].page.bound
    ensures var outcome := ReadChanges(ReadSource(st), selection, Observed(files), bound, InitialScan, limit);
      outcome.Ok? ==>
        && !ReplaysBaseline(ReadSource(st), outcome.page.scanRef, outcome.page.epoch)
        && Accept(st, outcome.page).None?
  {
    CurrentRow(st, files);
    hide ReadChanges, BaselineOf, Changes, Log, EpochStart, Accept, StrictlySorted, OutsideSelection, Unchanged;
    RescanReads(st, selection, files, bound, limit);
    var page := OpeningPage(ReadSource(st), files, bound, limit);
    OtherBoundRefused(st, files, page);
  }

  /** Scanning the tree that the complete head recorded never accepts anything. The loop takes the
      replay exit if and only if bound and page size are still the same; otherwise it is refused. */
  lemma CurrentEnds(st: Store, selection: Option<string>, files: seq<File>, env: nat -> Observation, bound: nat,
                    limit: Positive)
    requires Current(st, files) && !OutsideSelection(ReadSource(st), selection) && env(0) == Observed(files)
    ensures st.rows != []
    ensures var last := st.rows[|st.rows| - 1].page;
      RunScan(st, ReadSource(st), selection, env, 0, bound, limit, InitialScan) ==
      Scan(st, [], [], if |last.scanRef.entries| <= bound && bound == last.bound && limit == last.limit then Replayed
                       else Refused)
  {
    RescanReads(st, selection, files, bound, limit);
    hide Current, ReadChanges, ReplaysBaseline, Accept, ReadSource, OutsideSelection, ScanRefOf, OpeningPage, Changes;
    var last := st.rows[|st.rows| - 1].page;
    if |last.scanRef.entries| <= bound {
      if bound == last.bound {
        RescanSameBound(st, selection, files, limit);
      } else {
        RescanOtherBound(st, selection, files, bound, limit);
      }
    }
  }

  /** Right after a scan completed: the replay exit for the same tree, bound and page size, for every
      tree and every earlier baseline, and a refusal under any other bound or page size. */
  lemma RescanEnds(st: Store, selection: Option<string>, files: seq<File>, env: nat -> Observation, bound: nat,
                   limit: Positive)
    requires JustCompleted(st, files) && InSelection(selection, files) && env(0) == Observed(files)
    ensures var last := st.rows[|st.rows| - 1].page;
      RunScan(st, ReadSource(st), selection, env, 0, bound, limit, InitialScan) ==
      Scan(st, [], [], if bound == last.bound && limit == last.limit then Replayed else Refused)
  {
    CompletedIsCurrent(st, files);
    AnswerFits(st.rows[|st.rows| - 1].page, files);
    hide RunScan, Log, AnsweredFor, InSelection, OutsideSelection, ReadSource, ReplayBranch, IsCurrentHead;
    SourceStartable(st);
    SelectionKept(ReadSource(st), selection, files);
    CurrentEnds(st, selection, files, env, bound, limit);
  }

  /** From every store that the database can reach, a changed tree that then rests is scanned to
      the end in max(1, ceil(n / limit)) pages holding exactly its n changes, and the scan after
      that accepts nothing. */
  lemma ScanThenRescan(run: seq<Store>, selection: Option<string>, files: seq<File>, bound: nat, limit: Positive)
    requires Run(run) && InSelection(selection, files)
    requires var s := ReadSource(run[|run| - 1]);
      && !OutsideSelection(s, selection) && Recordable(s, files) && |Changes(s, files).0| <= bound
      && SameLimit(s, files, bound, limit)
    requires 1 <= bound <= MAX_SCAN_BOUND && limit <= MAX_PAGE
    ensures var s := ReadSource(run[|run| - 1]);
      var scan := RunScan(run[|run| - 1], s, selection, Still(files), 0, bound, limit, InitialScan);
      var n := |Changes(s, files).0|;
      && scan.ending == Completed && Flatten(scan.pages) == Changes(s, files).0
      && (|scan.pages| == 1 || (|scan.pages| - 1) * limit < n) && n <= |scan.pages| * limit
      && RunScan(scan.store, ReadSource(scan.store), selection, Still(files), 0, bound, limit, InitialScan) ==
         Scan(scan.store, [], [], Replayed)
  {
    hide ChangeHistory.Step, Log, OutsideSelection, Recordable, Changes, SameLimit, RunScan, ReadSource,
      JustCompleted, InSelection;
    var st := run[|run| - 1];
    RunLogs(run, |run| - 1, |run| - 1);
    ScanCompletes(st, selection, files, bound, limit);
    SourceStartable(st);
    CompletedList(st, ReadSource(st), selection, Still(files), bound, limit);
    var scan := RunScan(st, ReadSource(st), selection, Still(files), 0, bound, limit, InitialScan);
    RescanEnds(scan.store, selection, files, Still(files), bound, limit);
    PageCount(st, ReadSource(st), selection, Still(files), bound, limit);
  }

  /** In particular the first scan of any tree within the bound. */
  lemma FirstScan(organization: Uuid, source: Uuid, version: Uuid, selection: Option<string>, files: seq<File>,
                  bound: nat,
                  limit: Positive)
    requires InSelection(selection, files) && |Tree(files)| <= bound <= MAX_SCAN_BOUND && 1 <= bound
    requires limit <= MAX_PAGE
    ensures var st := Store(organization, source, version, [], 0);
      var scan := RunScan(st, ReadSource(st), selection, Still(files), 0, bound, limit, InitialScan);
      && scan.ending == Completed && Active(Flatten(scan.pages)) == Tree(files)
      && RunScan(scan.store, ReadSource(scan.store), selection, Still(files), 0, bound, limit, InitialScan) ==
         Scan(scan.store, [], [], Replayed)
  {
    hide RunScan, Flatten, Tree, Difference, Active, InSelection, StrictlySorted;
    var st := Store(organization, source, version, [], 0);
    var s := ReadSource(st);
    assert s.head.None? && s.baseline.None?;
    DifferenceSorted(map[], Tree(files));
    assert |Changes(s, files).0| == |Paths(Difference(map[], Tree(files)))| == |Tree(files)| by {
      EmptyUnion(map[], Tree(files));
      assert |Sort(Tree(files).Keys)| == |Tree(files).Keys|;
    }
    ScanThenRescan([st], selection, files, bound, limit);
    ChangesMeaning(s, files);
  }

  lemma EmptyUnion(none: map<Path, Content>, tree: map<Path, Content>)
    requires none == map[]
    ensures none.Keys + tree.Keys == tree.Keys && |tree.Keys| == |tree|
  {
  }

  lemma PageCount(st: Store, s: Source, selection: Option<string>, env: nat -> Observation, bound: nat, limit: Positive)
    requires Startable(s) && RunScan(st, s, selection, env, 0, bound, limit, InitialScan).ending == Completed
    ensures var pages := RunScan(st, s, selection, env, 0, bound, limit, InitialScan).pages;
      && pages != []
      && (|pages| == 1 || (|pages| - 1) * limit < |Flatten(pages)|) && |Flatten(pages)| <= |pages| * limit
  {
    hide Chain, Flatten, ReadChanges, Accept, ReplaysBaseline, StrictlySorted, Slice;
    ScanIsChain(st, s, selection, env, bound, limit);
    var pages := RunScan(st, s, selection, env, 0, bound, limit, InitialScan).pages;
    assert pages[0].limit == limit;
    hide RunScan;
    ChainSliced(pages);
    ChainFrozen(pages);
    LastComplete(pages);
  }
}
