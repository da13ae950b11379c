/**
 `scan_file_source`: read a page, accept it, schedule what is new, continue from the accepted
 cursor. The tree may change before every read; `env(k)` is what the k-th read observes.
 */
module FileScan {
  import opened Order
  import opened ChangeFeed
  import opened ChangePaging
  import opened ChangeStore

  type Positive = x: nat | 1 <= x witness 1

  datatype Ending = Completed | Replayed | Refused
  datatype Scan = Scan(store: Store, pages: seq<Page>, rows: seq<nat>, ending: Ending)

  /** `_replays_complete_baseline`: the page is the complete scan that is already head and baseline. */
  predicate ReplaysBaseline(s: Source, scanRef: ScanRef, epoch: Epoch) {
    && s.baseline.Some? && s.head.Some? && s.head.value.complete
    && var h := s.head.value;
       && RefDoc(h.version, h.scanRef, h.epoch, h.pageRef, h.checkpointRef, h.sequence, h.bound) ==
          s.baseline.value.reference
       && scanRef == s.baseline.value.reference.scanRef && epoch == s.baseline.value.reference.epoch
  }

  function Remaining(c: Cursor): nat {
    if c.Continue? && c.claims.pending.offset <= |c.claims.pending.scanRef.entries|
    then |c.claims.pending.scanRef.entries| - c.claims.pending.offset
    else 0
  }

  lemma AcceptIndex(st: Store, page: Page)
    requires Accept(st, page).Some?
    ensures var (st', i) := Accept(st, page).value; i < |st'.rows| && st'.rows[i].page == page
  {
    hide Admissible, InOrder, BaselineExpected;
  }

  lemma NextRemaining(s: Source, selection: Option<string>, seen: Observation, bound: nat, cursor: Cursor,
                      limit: Positive,
                      st: Store, i: nat)
    requires ReadChanges(s, selection, seen, bound, cursor, limit).Ok?
    requires i < |st.rows| && st.rows[i].page == ReadChanges(s, selection, seen, bound, cursor, limit).page
    requires st.rows[i].page.next.Some? && cursor.Continue?
    ensures CursorAt(st, i).Continue? && Remaining(CursorAt(st, i)) < Remaining(cursor)
  {
    hide Changes;
  }

  /** The loop from a given cursor on; `pages` and `rows` collect what was accepted. */
  function RunScan(st: Store, s: Source, selection: Option<string>, env: nat -> Observation, k: nat, bound: nat,
                   limit: Positive, cursor: Cursor): Scan
    decreases cursor.InitialScan?, Remaining(cursor)
  {
    var outcome := ReadChanges(s, selection, env(k), bound, cursor, limit);
    if !outcome.Ok? || outcome.page.limit != limit then Scan(st, [], [], Refused)
    else if cursor.InitialScan? && ReplaysBaseline(s, outcome.page.scanRef, outcome.page.epoch)
    then Scan(st, [], [], Replayed)
    else
      var accepted := Accept(st, outcome.page);
      if accepted.None? then Scan(st, [], [], Refused)
      else
        AcceptIndex(st, outcome.page);
        var (st', i) := accepted.value;
        if outcome.page.next.None? then Scan(st', [outcome.page], [i], Completed)
        else
          assert CursorAt(st', i).Continue?;
          assert cursor.InitialScan? || Remaining(CursorAt(st', i)) < Remaining(cursor) by {
            if cursor.Continue? {
              NextRemaining(s, selection, env(k), bound, cursor, limit, st', i);
            }
          }
          var rest := RunScan(st', s.(head := Some(HeadAt(st', i))), selection, env, k + 1, bound, limit,
                              CursorAt(st', i));
          Scan(rest.store, [outcome.page] + rest.pages, [i] + rest.rows, rest.ending)
  }

  /** Only what the reads see matters. */
  lemma {:induction false} SameReads(st: Store, s: Source, selection: Option<string>, a: nat -> Observation,
                                     b: nat -> Observation, k: nat, bound: nat, limit: Positive, cursor: Cursor)
    requires forall i: nat :: a(i) == b(i)
    ensures RunScan(st, s, selection, a, k, bound, limit, cursor) ==
            RunScan(st, s, selection, b, k, bound, limit, cursor)
    decreases cursor.InitialScan?, Remaining(cursor)
  {
    hide ReadChanges, Accept, ReplaysBaseline, HeadAt;
    var outcome := ReadChanges(s, selection, a(k), bound, cursor, limit);
    if outcome.Ok? && Accept(st, outcome.page).Some? && outcome.page.next.Some? {
      AcceptIndex(st, outcome.page);
      var (st', i) := Accept(st, outcome.page).value;
      CursorMoves(s, selection, a(k), bound, cursor, limit, st', i);
      SameReads(st', s.(head := Some(HeadAt(st', i))), selection, a, b, k + 1, bound, limit, CursorAt(st', i));
    }
  }

  // ---- the accepted pages are one chain -------------------------------------------

  ghost predicate ChainAfter(prev: Page, pages: seq<Page>) {
    forall i | 0 <= i < |pages| :: ServedNext(pages[i], Before(prev, pages, i))
  }

  ghost function Before(prev: Page, pages: seq<Page>, i: nat): Page
    requires i < |pages|
  {
    if i == 0 then prev else pages[i - 1]
  }

  lemma {:induction false} ScanContinues(st: Store, s: Source, selection: Option<string>, env: nat -> Observation,
                                         k: nat,
                                         bound: nat, limit: Positive, cursor: Cursor, prev: Page)
    requires ValidSource(s) && cursor.Continue? && prev.next == Some(cursor.claims.pending)
    ensures ChainAfter(prev, RunScan(st, s, selection, env, k, bound, limit, cursor).pages)
    ensures var scan := RunScan(st, s, selection, env, k, bound, limit, cursor);
      scan.ending == Completed ==> scan.pages != [] && scan.pages[|scan.pages| - 1].next.None?
    ensures RunScan(st, s, selection, env, k, bound, limit, cursor).ending != Replayed
    decreases Remaining(cursor)
  {
    hide ReadChanges, Accept, ServedNext;
    var scan := RunScan(st, s, selection, env, k, bound, limit, cursor);
    if scan.pages != [] {
      var page := ReadChanges(s, selection, env(k), bound, cursor, limit).page;
      PageServed(s, selection, env(k), bound, cursor, limit, prev);
      AcceptIndex(st, page);
      var (st', i) := Accept(st, page).value;
      if page.next.Some? {
        NextRemaining(s, selection, env(k), bound, cursor, limit, st', i);
        var s' := s.(head := Some(HeadAt(st', i)));
        ScanContinues(st', s', selection, env, k + 1, bound, limit, CursorAt(st', i), page);
        var rest := RunScan(st', s', selection, env, k + 1, bound, limit, CursorAt(st', i));
        assert scan.pages == [page] + rest.pages;
        ChainCons(prev, page, rest.pages);
      } else {
        assert scan.pages == [page];
      }
    }
  }

  lemma ChainCons(prev: Page, page: Page, rest: seq<Page>)
    requires ServedNext(page, prev) && ChainAfter(page, rest)
    ensures ChainAfter(prev, [page] + rest)
  {
    hide ReadChanges, ValidSource;
    var all := [page] + rest;
    forall i | 0 <= i < |all| ensures ServedNext(all[i], Before(prev, all, i)) {
      if i > 0 {
        assert ServedNext(rest[i - 1], Before(page, rest, i - 1));
        assert Before(page, rest, i - 1) == Before(prev, all, i);
      }
    }
  }

  lemma ChainStart(page: Page, rest: seq<Page>)
    requires ServedFirst(page) && ChainAfter(page, rest)
    ensures Chain([page] + rest)
  {
    hide ReadChanges, ValidSource;
    var all := [page] + rest;
    forall i | 0 < i < |all| ensures ServedNext(all[i], all[i - 1]) {
      assert ServedNext(rest[i - 1], Before(page, rest, i - 1));
      assert Before(page, rest, i - 1) == all[i - 1];
    }
  }

  lemma PageServed(s: Source, selection: Option<string>, seen: Observation, bound: nat, cursor: Cursor,
                   limit: Positive, prev: Page)
    requires ValidSource(s) && cursor.Continue? && prev.next == Some(cursor.claims.pending)
    requires ReadChanges(s, selection, seen, bound, cursor, limit).Ok?
    ensures ServedNext(ReadChanges(s, selection, seen, bound, cursor, limit).page, prev)
  {
    hide ReadChanges;
    var page := ReadChanges(s, selection, seen, bound, cursor, limit).page;
    assert ReadChanges(s, selection, seen, bound, Continue(cursor.claims), limit) == Ok(page);
  }

  ghost predicate Startable(s: Source) {
    ValidSource(s) && (s.head.Some? ==> 1 <= s.head.value.limit)
  }

  /** The first page answers the source itself; the rest answer each other's cursors. */
  lemma ScanIsChain(st: Store, s: Source, selection: Option<string>, env: nat -> Observation, bound: nat,
                    limit: Positive)
    requires Startable(s)
    ensures var scan := RunScan(st, s, selection, env, 0, bound, limit, InitialScan);
      && (scan.pages != [] ==>
            && Chain(scan.pages)
            && ReadChanges(s, selection, env(0), bound, InitialScan, limit) == Ok(scan.pages[0]))
      && (scan.ending == Completed ==> scan.pages != [] && scan.pages[|scan.pages| - 1].next.None?)
  {
    hide ReadChanges, Accept, ServedNext, ReplaysBaseline;
    var scan := RunScan(st, s, selection, env, 0, bound, limit, InitialScan);
    if scan.pages != [] {
      var page := ReadChanges(s, selection, env(0), bound, InitialScan, limit).page;
      assert ServedFirst(page);
      AcceptIndex(st, page);
      var (st', i) := Accept(st, page).value;
      if page.next.Some? {
        var s' := s.(head := Some(HeadAt(st', i)));
        ScanContinues(st', s', selection, env, 1, bound, limit, CursorAt(st', i), page);
        var rest := RunScan(st', s', selection, env, 1, bound, limit, CursorAt(st', i));
        assert scan.pages == [page] + rest.pages;
        ChainStart(page, rest.pages);
      } else {
        assert scan.pages == [page];
      }
    }
  }

  /** A completed scan has accepted exactly the list that its first read compared, each change once
      and in order, even if the tree moved and came back between reads. */
  lemma CompletedList(st: Store, s: Source, selection: Option<string>, env: nat -> Observation, bound: nat,
                      limit: Positive)
    requires Startable(s)
    requires RunScan(st, s, selection, env, 0, bound, limit, InitialScan).ending == Completed
    ensures env(0).Observed?
    ensures var pages := RunScan(st, s, selection, env, 0, bound, limit, InitialScan).pages;
      Chain(pages) && Flatten(pages) == Changes(s, env(0).files).0
  {
    hide Chain, Flatten, RunScan, Sliced, Changes, ReadChanges, StrictlySorted, ScanEpoch;
    ScanIsChain(st, s, selection, env, bound, limit);
    var pages := RunScan(st, s, selection, env, 0, bound, limit, InitialScan).pages;
    InitialOk(s, selection, env(0), bound, limit);
    ChainSliced(pages);
    LastComplete(pages);
    ChainList(pages);
  }

  // ---- what a scan reports --------------------------------------------------------

  function Counted(xs: seq<Change>, f: Change -> bool): nat {
    if xs == [] then 0 else Counted(xs[..|xs| - 1], f) + if f(xs[|xs| - 1]) then 1 else 0
  }

  function PathsWhere(xs: seq<Change>, f: Change -> bool): set<Path> {
    set i | 0 <= i < |xs| && f(xs[i]) :: xs[i].path
  }

  lemma {:induction false} CountedConcat(xs: seq<Change>, ys: seq<Change>, f: Change -> bool)
    ensures Counted(xs + ys, f) == Counted(xs, f) + Counted(ys, f)
  {
    if ys == [] {
      assert xs + ys == xs;
    } else {
      assert (xs + ys)[..|xs + ys| - 1] == xs + ys[..|ys| - 1];
      CountedConcat(xs, ys[..|ys| - 1], f);
    }
  }

  /** Counting changes of a list with distinct paths counts paths. */
  lemma {:induction false} CountedIsCardinality(xs: seq<Change>, f: Change -> bool)
    requires Distinct(Paths(xs))
    ensures Counted(xs, f) == |PathsWhere(xs, f)|
  {
    if xs != [] {
      var n := |xs| - 1;
      var init := xs[..n];
      assert forall i | 0 <= i < n :: Paths(init)[i] == Paths(xs)[i];
      CountedIsCardinality(init, f);
      var old' := PathsWhere(init, f);
      assert xs[n].path !in old' by {
        forall i | 0 <= i < |init| ensures init[i].path != xs[n].path {
          assert Paths(xs)[i] != Paths(xs)[n];
        }
      }
      PathsWhereLast(xs, f);
    }
  }

  lemma PathsWhereLast(xs: seq<Change>, f: Change -> bool)
    requires xs != []
    ensures var n := |xs| - 1;
      PathsWhere(xs, f) == PathsWhere(xs[..n], f) + (if f(xs[n]) then {xs[n].path} else {})
  {
    var n := |xs| - 1;
    var init := xs[..n];
    forall p ensures p in PathsWhere(xs, f) <==> p in PathsWhere(init, f) + (if f(xs[n]) then {xs[n].path} else {}) {
      if p in PathsWhere(init, f) {
        var i :| 0 <= i < |init| && f(init[i]) && init[i].path == p;
        assert xs[i] == init[i];
      }
      if p in PathsWhere(xs, f) {
        var i :| 0 <= i < |xs| && f(xs[i]) && xs[i].path == p;
        assert i < n ==> init[i] == xs[i];
      }
    }
  }

  function Prior(s: Source): map<Path, Content> {
    if s.baseline.None? then map[] else Active(s.baseline.value.entries)
  }

  predicate IsNovel(prior: map<Path, Content>, c: Change) {
    c.kind.Upsert? && !(c.path in prior && prior[c.path] == c.content)
  }

  function Novel(prior: map<Path, Content>): Change -> bool { (c: Change) => IsNovel(prior, c) }
  function Deletion(): Change -> bool { (c: Change) => c.kind.Delete? }
  function Effective(prior: map<Path, Content>): Change -> bool { (c: Change) => c.kind.Delete? || IsNovel(prior, c) }

  /** The paths on which two content maps disagree. */
  function KeyedDifference(a: map<Path, Content>, b: map<Path, Content>): set<Path> {
    set p | p in a.Keys + b.Keys && !(p in a && p in b && a[p] == b[p])
  }

  lemma DifferencePaths(prior: map<Path, Content>, tree: map<Path, Content>)
    ensures PathsWhere(Difference(prior, tree), Effective(prior)) == KeyedDifference(prior, tree)
    ensures PathsWhere(Difference(prior, tree), Deletion()) == prior.Keys - tree.Keys
  {
    hide Difference;
    var d := Difference(prior, tree);
    forall p ensures p in PathsWhere(d, Effective(prior)) <==> p in KeyedDifference(prior, tree)
             ensures p in PathsWhere(d, Deletion()) <==> p in prior.Keys - tree.Keys
    {
      DifferenceHas(prior, tree, p);
      if p in prior.Keys + tree.Keys {
        var i :| 0 <= i < |d| && d[i] == ChangeAt(prior, tree, p);
        assert d[i].path == p;
      }
    }
  }

  /** When the tree differs from the baseline, the scan's effective changes are exactly the paths on
      which they disagree, and its deletes exactly the lost paths. */
  lemma ScanDelta(s: Source, files: seq<File>)
    requires ValidSource(s) && !ReplayBranch(s, files)
    ensures var changes := Changes(s, files).0;
      var tree := Tree(files);
      && Active(changes) == tree
      && Counted(changes, Effective(Prior(s))) == |KeyedDifference(Prior(s), tree)|
      && Counted(changes, Deletion()) == |Prior(s).Keys - tree.Keys|
  {
    hide Difference, Active, StrictlySorted, Distinct;
    var changes := Changes(s, files).0;
    ChangesMeaning(s, files);
    StrictlySortedDistinct(Paths(changes));
    DifferencePaths(Prior(s), Tree(files));
    CountedIsCardinality(changes, Effective(Prior(s)));
    CountedIsCardinality(changes, Deletion());
  }

  // ---- the loop -------------------------------------------------------------------

  datatype Report = Report(pathsObserved: nat, changesAccepted: nat, deletesObserved: nat,
                           advanced: Option<CheckpointRef>,
                           bound: nat)

  function Upserted(): Change -> bool { (c: Change) => c.kind.Upsert? }

  predicate NeedsSchedule(page: Page, prior: map<Path, Content>, reconciled: set<PageRef>) {
    Counted(page.changes, Novel(prior)) > 0 && PageRef(page) !in reconciled
  }

  /** The pages that get a schedule call, in order. */
  function Schedules(pages: seq<Page>, prior: map<Path, Content>, reconciled: set<PageRef>): seq<PageRef> {
    if pages == [] then []
    else
      var last := pages[|pages| - 1];
      Schedules(pages[..|pages| - 1], prior, reconciled) +
      if NeedsSchedule(last, prior, reconciled) then [PageRef(last)] else []
  }

  lemma FlattenSnoc(pages: seq<Page>, page: Page)
    ensures Flatten(pages + [page]) == Flatten(pages) + page.changes
  {
    assert (pages + [page])[..|pages|] == pages;
  }

  lemma SchedulesSnoc(pages: seq<Page>, page: Page, prior: map<Path, Content>, reconciled: set<PageRef>)
    ensures Schedules(pages + [page], prior, reconciled) ==
            Schedules(pages, prior, reconciled) + if NeedsSchedule(page, prior, reconciled) then [PageRef(page)] else []
  {
    assert (pages + [page])[..|pages|] == pages;
  }

  lemma PathsWhereConcat(xs: seq<Change>, ys: seq<Change>, f: Change -> bool)
    ensures PathsWhere(xs + ys, f) == PathsWhere(xs, f) + PathsWhere(ys, f)
  {
    forall p ensures p in PathsWhere(xs + ys, f) <==> p in PathsWhere(xs, f) + PathsWhere(ys, f) {
      if p in PathsWhere(xs, f) {
        var i :| 0 <= i < |xs| && f(xs[i]) && xs[i].path == p;
        assert (xs + ys)[i] == xs[i];
      }
      if p in PathsWhere(ys, f) {
        var i :| 0 <= i < |ys| && f(ys[i]) && ys[i].path == p;
        assert (xs + ys)[|xs| + i] == ys[i];
      }
    }
  }

  /** One turn of the loop, seen from the whole run. */
  lemma RunScanStep(st: Store, s: Source, selection: Option<string>, env: nat -> Observation, k: nat, bound: nat,
                    limit: Positive, cursor: Cursor, page: Page)
    requires ReadChanges(s, selection, env(k), bound, cursor, limit) == Ok(page) && page.limit == limit
    requires cursor.InitialScan? ==> !ReplaysBaseline(s, page.scanRef, page.epoch)
    requires Accept(st, page).Some?
    ensures var (st', i) := Accept(st, page).value;
      i < |st'.rows| && st'.rows[i].page == page &&
      var scan := RunScan(st, s, selection, env, k, bound, limit, cursor);
      if page.next.None? then scan == Scan(st', [page], [i], Completed)
      else
        var rest := RunScan(st', s.(head := Some(HeadAt(st', i))), selection, env, k + 1, bound, limit,
                            CursorAt(st', i));
        scan == Scan(rest.store, [page] + rest.pages, [i] + rest.rows, rest.ending)
  {
    hide ReadChanges, Accept, ReplaysBaseline, HeadAt;
    AcceptIndex(st, page);
  }

  /** The loop's counters and schedule calls after accepting `pages`. */
  ghost predicate Tally(pages: seq<Page>, prior: map<Path, Content>, pending: seq<PageRef>, paths: set<Path>,
                        changes: nat, deletes: nat, scheduled: seq<PageRef>)
  {
    && paths == PathsWhere(Flatten(pages), Upserted())
    && changes == Counted(Flatten(pages), Effective(prior))
    && deletes == Counted(Flatten(pages), Deletion())
    && scheduled == pending + Schedules(pages, prior, Elements(pending))
  }

  lemma TallyStart(prior: map<Path, Content>, pending: seq<PageRef>)
    ensures Tally([], prior, pending, {}, 0, 0, pending)
  {
    assert pending + [] == pending;
  }

  lemma TallyStep(pages: seq<Page>, page: Page, prior: map<Path, Content>, pending: seq<PageRef>, paths: set<Path>,
                  changes: nat, deletes: nat, scheduled: seq<PageRef>)
    requires Tally(pages, prior, pending, paths, changes, deletes, scheduled)
    ensures Tally(pages + [page], prior, pending, paths + PathsWhere(page.changes, Upserted()),
                  changes + Counted(page.changes, Effective(prior)), deletes + Counted(page.changes, Deletion()),
                  scheduled + if NeedsSchedule(page, prior, Elements(pending)) then [PageRef(page)] else [])
  {
    hide Counted, PathsWhere, Flatten, Schedules, NeedsSchedule;
    FlattenSnoc(pages, page);
    SchedulesSnoc(pages, page, prior, Elements(pending));
    PathsWhereConcat(Flatten(pages), page.changes, Upserted());
    CountedConcat(Flatten(pages), page.changes, Effective(prior));
    CountedConcat(Flatten(pages), page.changes, Deletion());
    var more: seq<PageRef> := if NeedsSchedule(page, prior, Elements(pending)) then [PageRef(page)] else [];
    var had := Schedules(pages, prior, Elements(pending));
    assert (pending + had) + more == pending + (had + more);
  }

  /** The loop stops here without accepting a page. */
  lemma RunScanStops(st: Store, s: Source, selection: Option<string>, env: nat -> Observation, k: nat, bound: nat,
                     limit: Positive, cursor: Cursor)
    ensures var outcome := ReadChanges(s, selection, env(k), bound, cursor, limit);
      var scan := RunScan(st, s, selection, env, k, bound, limit, cursor);
      && (!outcome.Ok? || outcome.page.limit != limit ==> scan == Scan(st, [], [], Refused))
      && (outcome.Ok? && outcome.page.limit == limit ==>
            if cursor.InitialScan? && ReplaysBaseline(s, outcome.page.scanRef, outcome.page.epoch)
            then scan == Scan(st, [], [], Replayed)
            else Accept(st, outcome.page).None? ==> scan == Scan(st, [], [], Refused))
  {
    hide ReadChanges, Accept, ReplaysBaseline;
  }

  method ScanFileSource(st0: Store, s0: Source, selection: Option<string>, env: nat -> Observation, bound: nat,
                        limit: Positive,
                        pending: seq<PageRef>)
    returns (ending: Ending, report: Report, st: Store, scheduled: seq<PageRef>)
    ensures var scan := RunScan(st0, s0, selection, env, 0, bound, limit, InitialScan);
      && ending == scan.ending && st == scan.store
      && scheduled == pending + Schedules(scan.pages, Prior(s0), Elements(pending))
      && (ending == Completed ==>
            && report.pathsObserved == |PathsWhere(Flatten(scan.pages), Upserted())|
            && report.changesAccepted == Counted(Flatten(scan.pages), Effective(Prior(s0)))
            && report.deletesObserved == Counted(Flatten(scan.pages), Deletion())
            && report.bound == bound
            && scan.pages != []
            && (exists i | 0 <= i < |st.rows| ::
                  && st.rows[i].page == scan.pages[|scan.pages| - 1]
                  && report.advanced == Some(CheckpointOf(st, st.rows[i]))))
      && (ending == Replayed ==>
            && s0.baseline.Some?
            && report == Report(Counted(s0.baseline.value.entries, Upserted()), 0, 0,
                                Some(s0.baseline.value.reference.checkpointRef), s0.baseline.value.reference.bound))
  {
    hide ReadChanges, Accept, HeadAt, CursorAt, Tally, NeedsSchedule, RunScan, Elements, Counted, PathsWhere, Flatten,
      Schedules, Prior, Remaining;
    st := st0;
    var s := s0;
    var cursor: Cursor := InitialScan;
    var prior := Prior(s0);
    var paths: set<Path> := {};
    var changesAccepted: nat, deletesObserved: nat, k: nat := 0, 0, 0;
    var reconciled := Elements(pending);
    scheduled := pending;
    ghost var pages: seq<Page>, rows: seq<nat> := [], [];
    TallyStart(prior, pending);
    PrependNothing(RunScan(st, s, selection, env, k, bound, limit, cursor));
    while true
      invariant s.baseline == s0.baseline
      invariant Tally(pages, prior, pending, paths, changesAccepted, deletesObserved, scheduled)
      invariant RunScan(st0, s0, selection, env, 0, bound, limit, InitialScan) ==
                Prepend(pages, rows, RunScan(st, s, selection, env, k, bound, limit, cursor))
      invariant cursor.InitialScan? ==> pages == []
      decreases cursor.InitialScan?, Remaining(cursor)
    {
      var outcome := ReadChanges(s, selection, env(k), bound, cursor, limit);
      RunScanStops(st, s, selection, env, k, bound, limit, cursor);
      if !outcome.Ok? || outcome.page.limit != limit {
        ending, report := Refused, Report(|paths|, changesAccepted, deletesObserved, None, bound);
        break;
      }
      var page := outcome.page;
      if cursor.InitialScan? && ReplaysBaseline(s, page.scanRef, page.epoch) {
        var b := s.baseline.value;
        ending := Replayed;
        report := Report(Counted(b.entries, Upserted()), 0, 0, Some(b.reference.checkpointRef), b.reference.bound);
        break;
      }
      var accepted := Accept(st, page);
      if accepted.None? {
        ending, report := Refused, Report(|paths|, changesAccepted, deletesObserved, None, bound);
        break;
      }
      var (st', i) := accepted.value;
      RunScanStep(st, s, selection, env, k, bound, limit, cursor, page);
      TallyStep(pages, page, prior, pending, paths, changesAccepted, deletesObserved, scheduled);
      paths := paths + PathsWhere(page.changes, Upserted());
      changesAccepted := changesAccepted + Counted(page.changes, Effective(prior));
      deletesObserved := deletesObserved + Counted(page.changes, Deletion());
      scheduled := scheduled + if NeedsSchedule(page, prior, reconciled) then [PageRef(page)] else [];
      if page.next.None? {
        ghost var none := Scan(st', [], [], Completed);
        PrependStep(pages, rows, page, i, none);
        pages, rows, st := pages + [page], rows + [i], st';
        ending := Completed;
        report := Report(|paths|, changesAccepted, deletesObserved, Some(CheckpointOf(st, st.rows[i])), bound);
        break;
      }
      PrependStep(pages, rows, page, i,
                  RunScan(st', s.(head := Some(HeadAt(st', i))), selection, env, k + 1, bound, limit,
                          CursorAt(st', i)));
      CursorMoves(s, selection, env(k), bound, cursor, limit, st', i);
      pages, rows := pages + [page], rows + [i];
      st, s, cursor, k := st', s.(head := Some(HeadAt(st', i))), CursorAt(st', i), k + 1;
    }
    assert pages + [] == pages;
    TallyMeaning(pages, prior, pending, paths, changesAccepted, deletesObserved, scheduled);
  }

  lemma TallyMeaning(pages: seq<Page>, prior: map<Path, Content>, pending: seq<PageRef>, paths: set<Path>,
                     changes: nat, deletes: nat, scheduled: seq<PageRef>)
    requires Tally(pages, prior, pending, paths, changes, deletes, scheduled)
    ensures paths == PathsWhere(Flatten(pages), Upserted())
    ensures changes == Counted(Flatten(pages), Effective(prior)) && deletes == Counted(Flatten(pages), Deletion())
    ensures scheduled == pending + Schedules(pages, prior, Elements(pending))
  {
  }

  lemma PrependNothing(rest: Scan)
    ensures Prepend([], [], rest) == rest
  {
    assert [] + rest.pages == rest.pages && [] + rest.rows == rest.rows;
  }

  ghost function Prepend(pages: seq<Page>, rows: seq<nat>, rest: Scan): Scan {
    Scan(rest.store, pages + rest.pages, rows + rest.rows, rest.ending)
  }

  lemma PrependStep(pages: seq<Page>, rows: seq<nat>, page: Page, i: nat, rest: Scan)
    ensures Prepend(pages, rows, Scan(rest.store, [page] + rest.pages, [i] + rest.rows, rest.ending)) ==
            Prepend(pages + [page], rows + [i], rest)
  {
    assert pages + ([page] + rest.pages) == (pages + [page]) + rest.pages;
    assert rows + ([i] + rest.rows) == (rows + [i]) + rest.rows;
  }

  lemma CursorMoves(s: Source, selection: Option<string>, seen: Observation, bound: nat, cursor: Cursor,
                    limit: Positive,
                    st: Store, i: nat)
    requires ReadChanges(s, selection, seen, bound, cursor, limit).Ok?
    requires i < |st.rows| && st.rows[i].page == ReadChanges(s, selection, seen, bound, cursor, limit).page
    requires st.rows[i].page.next.Some?
    ensures CursorAt(st, i).Continue?
    ensures cursor.InitialScan? || Remaining(CursorAt(st, i)) < Remaining(cursor)
  {
    hide Changes, BuildPage, Remaining;
    if cursor.Continue? {
      NextRemaining(s, selection, seen, bound, cursor, limit, st, i);
    }
  }

  lemma UpsertedPaths(entries: seq<Change>)
    requires Distinct(Paths(entries))
    ensures PathsWhere(entries, Upserted()) == Active(entries).Keys
  {
    forall p ensures p in PathsWhere(entries, Upserted()) <==> p in Active(entries) {
      ActiveAt(entries, p);
    }
  }

  /** What a completed scan of a changed tree reports: the observed files, the paths on which tree
      and baseline disagree, and the paths that were lost. */
  lemma ReportMeaning(st: Store, s: Source, selection: Option<string>, env: nat -> Observation, bound: nat,
                      limit: Positive)
    requires Startable(s)
    requires RunScan(st, s, selection, env, 0, bound, limit, InitialScan).ending == Completed
    requires env(0).Observed? && !ReplayBranch(s, env(0).files)
    ensures var all := Flatten(RunScan(st, s, selection, env, 0, bound, limit, InitialScan).pages);
      var tree := Tree(env(0).files);
      && Active(all) == tree && PathsWhere(all, Upserted()) == tree.Keys
      && Counted(all, Effective(Prior(s))) == |KeyedDifference(Prior(s), tree)|
      && Counted(all, Deletion()) == |Prior(s).Keys - tree.Keys|
  {
    hide RunScan, Chain, Changes, StrictlySorted, Distinct, Active, Counted, PathsWhere, KeyedDifference, ReplayBranch;
    CompletedList(st, s, selection, env, bound, limit);
    var changes := Changes(s, env(0).files).0;
    ScanDelta(s, env(0).files);
    ChangesMeaning(s, env(0).files);
    StrictlySortedDistinct(Paths(changes));
    UpsertedPaths(changes);
  }

  /** Pages of one chain are pairwise different. */
  lemma ChainDistinct(pages: seq<Page>)
    requires Chain(pages)
    ensures forall i, j | 0 <= i < j < |pages| :: pages[i] != pages[j]
  {
    hide Chain, StrictlySorted, Take;
    ChainSliced(pages);
    forall i, j | 0 <= i < j < |pages| ensures pages[i] != pages[j] {
      assert Slice(pages[i], Offset(i, pages[0].limit)) && Slice(pages[j], Offset(j, pages[0].limit));
      assert SameScan(pages[i], pages[0]) && SameScan(pages[j], pages[0]);
      OffsetGrows(i, j, pages[0].limit);
    }
  }

  lemma {:induction false} OffsetGrows(i: nat, j: nat, limit: nat)
    requires i < j && 1 <= limit
    ensures Offset(i, limit) < Offset(j, limit)
    decreases j
  {
    if i < j - 1 {
      OffsetGrows(i, j - 1, limit);
    }
  }

  lemma {:induction false} SchedulesCount(pages: seq<Page>, prior: map<Path, Content>, reconciled: set<PageRef>,
                                          page: Page)
    requires forall i, j | 0 <= i < j < |pages| :: pages[i] != pages[j]
    ensures multiset(Schedules(pages, prior, reconciled))[PageRef(page)] ==
            if page in pages && NeedsSchedule(page, prior, reconciled) then 1 else 0
  {
    hide NeedsSchedule;
    if pages != [] {
      var n := |pages| - 1;
      var init := pages[..n];
      assert pages == init + [pages[n]];
      SchedulesCount(init, prior, reconciled, page);
      assert multiset(Schedules(pages, prior, reconciled)) == multiset(Schedules(init, prior, reconciled))
        + multiset(if NeedsSchedule(pages[n], prior, reconciled) then [PageRef(pages[n])] else []);
      assert page == pages[n] ==> page !in init;
    }
  }

  /** Every accepted page with a new or changed file gets exactly one schedule call in the run:
      either as a pending one at the start or right after its acceptance. */
  lemma ScheduledOnce(pages: seq<Page>, prior: map<Path, Content>, pending: seq<PageRef>, page: Page)
    requires Chain(pages) && page in pages && Counted(page.changes, Novel(prior)) > 0
    requires forall i, j | 0 <= i < j < |pending| :: pending[i] != pending[j]
    ensures multiset(pending + Schedules(pages, prior, Elements(pending)))[PageRef(page)] == 1
  {
    hide Chain, Schedules, Novel;
    ChainDistinct(pages);
    SchedulesCount(pages, prior, Elements(pending), page);
    PendingCount(pending, PageRef(page));
  }

  lemma {:induction false} PendingCount(pending: seq<PageRef>, r: PageRef)
    requires forall i, j | 0 <= i < j < |pending| :: pending[i] != pending[j]
    ensures multiset(pending)[r] == if r in Elements(pending) then 1 else 0
  {
    if pending != [] {
      var n := |pending| - 1;
      assert pending == pending[..n] + [pending[n]];
      PendingCount(pending[..n], r);
      assert r in Elements(pending) <==> r in Elements(pending[..n]) || r == pending[n];
    }
  }
}
