/**
 Properties of the change log over every run: pages come from readers of any earlier state,
 epochs never come back, and a completed scan is a fixed point of rescanning.
 */
module ChangeHistory {
  import opened Order
  import opened ChangeFeed
  import opened ChangePaging
  import opened ChangeStore

  // ---- honest pages ---------------------------------------------------------------

  /** A head some reader may hold: any row's, however stale; its superseded epoch is not relied on. */
  ghost predicate KnownHead(st: Store, h: Option<Head>) {
    h.Some? ==> exists i | 0 <= i < |st.rows| :: h.value == HeadAt(st, i).(superseded := h.value.superseded)
  }

  ghost predicate KnownRef(st: Store, r: RefDoc) {
    exists i | 0 <= i < |st.rows| :: st.rows[i].page.complete && RefOf(st, st.rows[i]) == r
  }

  ghost predicate KnownBaseline(st: Store, b: Option<Baseline>) {
    b.Some? ==> KnownRef(st, b.value.reference) && (b.value.comparison.Some? ==> KnownRef(st, b.value.comparison.value))
  }

  /** Only Control signs continuations, so a cursor that verifies belongs to an accepted row. */
  ghost predicate KnownCursor(st: Store, c: Cursor) {
    c.Continue? ==> exists i | 0 <= i < |st.rows| :: c == CursorAt(st, i)
  }

  datatype Request = Request(source: Source, selection: Option<string>, seen: Observation, bound: nat,
                             cursor: Cursor, limit: nat)

  ghost predicate Honest(st: Store, q: Request) {
    && ValidSource(q.source) && 1 <= q.limit
    && KnownHead(st, q.source.head) && KnownBaseline(st, q.source.baseline) && KnownCursor(st, q.cursor)
  }

  function Answer(q: Request): Outcome {
    ReadChanges(q.source, q.selection, q.seen, q.bound, q.cursor, q.limit)
  }

  /** A provider that read the store at this or an earlier moment signed this page. */
  ghost predicate Issued(st: Store, page: Page) {
    exists q :: Honest(st, q) && Answer(q) == Ok(page)
  }

  // ---- the log invariant ----------------------------------------------------------

  ghost predicate Opens(a: Row, b: Row) {
    && b.ordinal == 1 && ServedFirst(b.page)
    && b.page.epoch.predecessor.Some? && b.page.epoch.predecessor.value.epoch == a.page.epoch
  }

  ghost predicate Continues(a: Row, b: Row) {
    b.ordinal == a.ordinal + 1 && OfScan(a, b.page) && ServedNext(b.page, a.page)
  }

  ghost predicate LinkedAt(rows: seq<Row>, i: nat)
    requires i < |rows|
  {
    if i == 0 then rows[0].ordinal == 1 && ServedFirst(rows[0].page)
    else Opens(rows[i - 1], rows[i]) || Continues(rows[i - 1], rows[i])
  }

  ghost predicate Sequenced(rows: seq<Row>, last: nat) {
    && (forall i | 0 <= i < |rows| :: 1 <= rows[i].page.limit && rows[i].sequence <= last)
    && (forall i, j | 0 <= i < j < |rows| :: rows[i].sequence < rows[j].sequence)
  }

  ghost predicate BaselinesKnown(st: Store) {
    forall i | 0 <= i < |st.rows| && st.rows[i].page.baseline.Some? :: KnownRef(st, st.rows[i].page.baseline.value)
  }

  /** `rows[i]` names the row before it as the page it continues. */
  ghost predicate AnswersAt(st: Store, i: nat)
    requires i < |st.rows|
  {
    i > 0 && st.rows[i].ordinal != 1 ==> st.rows[i].page.predecessor == Some(PredecessorOf(st, st.rows[i - 1]))
  }

  /** Every row is a page of this organization's source, of some version. */
  ghost predicate Owned(st: Store) {
    forall i | 0 <= i < |st.rows| ::
      st.rows[i].page.owner.organization == st.organization && st.rows[i].page.owner.source == st.source
  }

  ghost predicate Log(st: Store) {
    && (forall i | 0 <= i < |st.rows| :: LinkedAt(st.rows, i))
    && (forall i | 0 <= i < |st.rows| :: AnswersAt(st, i))
    && Owned(st)
    && Sequenced(st.rows, st.lastSequence)
    && BaselinesKnown(st)
  }

  // ---- one accepted page ----------------------------------------------------------

  lemma InitialAnswer(q: Request)
    requires ValidSource(q.source) && q.cursor.InitialScan? && Answer(q).Ok?
    ensures var page := Answer(q).page;
      && q.seen.Observed? && page.predecessor.None? && page.owner == q.source.owner && page.bound == q.bound
      && page.scanRef == ScanRefOf(q.source, q.seen.files, q.bound)
      && (page.epoch, page.superseded) == ScanEpoch(q.source, page.scanRef)
      && page.baseline == page.scanRef.baseline
  {
    hide Changes;
    InitialOk(q.source, q.selection, q.seen, q.bound, q.limit);
    hide ReadChanges;
  }

  lemma ContinueAnswer(q: Request)
    requires ValidSource(q.source) && q.cursor.Continue? && Answer(q).Ok?
    ensures var page := Answer(q).page;
      var c := q.cursor.claims;
      && q.seen.Observed? && page.predecessor == Some(Predecessor(c.pageRef, c.checkpointRef, c.sequence))
      && page.scanRef == ScanRefOf(q.source, q.seen.files, q.bound) && page.epoch == c.epoch
      && page.baseline == page.scanRef.baseline && page.owner == q.source.owner && page.bound == q.bound
  {
    hide Changes;
    ContinueOk(q.source, q.selection, q.seen, q.bound, q.cursor.claims, q.limit);
    hide ReadChanges;
  }

  lemma RefIsKnown(st: Store, q: Request, page: Page)
    requires Honest(st, q) && Answer(q) == Ok(page) && page.baseline.Some?
    ensures KnownRef(st, page.baseline.value)
  {
    hide Difference, Active, Deleted;
    if q.cursor.InitialScan? {
      InitialAnswer(q);
    } else {
      ContinueAnswer(q);
    }
    hide Answer;
  }

  /** An accepted opening page starts right after the current head's epoch. */
  lemma OpeningRow(st: Store, q: Request, page: Page)
    requires Honest(st, q) && Answer(q) == Ok(page) && q.cursor.InitialScan?
    requires Admissible(st, page) && InOrder(st, page)
    ensures st.rows != [] ==>
              (page.epoch.predecessor.Some? && page.epoch.predecessor.value.epoch == st.rows[|st.rows| - 1].page.epoch)
    ensures NewRow(st, page).ordinal == 1
  {
    hide ScanRefOf, FindLast;
    InitialAnswer(q);
    hide Answer;
  }

  lemma IssuedFirst(st: Store, q: Request, page: Page)
    requires Sequenced(st.rows, st.lastSequence)
    requires Honest(st, q) && Answer(q) == Ok(page) && q.cursor.InitialScan?
    ensures ServedFirst(page)
  {
    assert q.source.head.Some? ==> 1 <= q.source.head.value.limit;
    hide ReadChanges;
    assert ReadChanges(q.source, q.selection, q.seen, q.bound, InitialScan, q.limit) == Ok(page);
  }

  /** An accepted continuation answers exactly the head's own cursor. */
  lemma ContinuingRow(st: Store, q: Request, page: Page)
    requires Honest(st, q) && Answer(q) == Ok(page) && q.cursor.Continue?
    requires Admissible(st, page) && InOrder(st, page)
    ensures st.rows != [] && Continues(st.rows[|st.rows| - 1], NewRow(st, page))
  {
    hide ScanRefOf;
    ContinueAnswer(q);
    hide Answer, Honest;
    var c := q.cursor.claims;
    var n := |st.rows| - 1;
    var i :| 0 <= i < |st.rows| && q.cursor == CursorAt(st, i);
    assert st.rows[i].page == st.rows[n].page;
    assert st.rows[n].page.next == Some(c.pending);
    HeadIsScanEnd(st, page);
    NextFrom(q, page, st.rows[n].page);
  }

  lemma NextFrom(q: Request, page: Page, prev: Page)
    requires ValidSource(q.source) && q.cursor.Continue? && Answer(q) == Ok(page)
    requires prev.next == Some(q.cursor.claims.pending)
    ensures ServedNext(page, prev)
  {
    hide ReadChanges;
    assert ReadChanges(q.source, q.selection, q.seen, q.bound, Continue(q.cursor.claims), q.limit) == Ok(page);
  }

  lemma HeadIsScanEnd(st: Store, page: Page)
    requires InOrder(st, page) && page.predecessor.Some?
    ensures NewRow(st, page).ordinal == st.rows[|st.rows| - 1].ordinal + 1
    ensures OfScan(st.rows[|st.rows| - 1], page)
  {
    var n := |st.rows| - 1;
    var f := (r: Row) => OfScan(r, page);
    var scan := FindLast(st.rows, f);
    assert st.rows[scan.value].page == st.rows[n].page;
    assert f(st.rows[n]);
  }

  lemma SequencedAppend(rows: seq<Row>, last: nat, r: Row)
    requires Sequenced(rows, last) && r.sequence == last + 1 && 1 <= r.page.limit
    ensures Sequenced(rows + [r], last + 1)
  {
  }

  lemma KnownRefKept(st: Store, st': Store, r: RefDoc)
    requires KnownRef(st, r) && st.rows <= st'.rows
    requires st.organization == st'.organization && st.source == st'.source
    ensures KnownRef(st', r)
  {
    var i :| 0 <= i < |st.rows| && st.rows[i].page.complete && RefOf(st, st.rows[i]) == r;
    assert st'.rows[i] == st.rows[i];
  }

  /** What acceptance may do to the log: nothing, or one row that opens after or continues the head. */
  ghost predicate Extends(st: Store, st': Store) {
    || st'.rows == st.rows
    || (|st'.rows| == |st.rows| + 1 && st.rows <= st'.rows && LinkedAt(st'.rows, |st.rows|))
  }

  lemma AcceptExtends(st: Store, page: Page)
    requires Log(st) && Issued(st, page) && Accept(st, page).Some?
    ensures Log(Accept(st, page).value.0) && Extends(st, Accept(st, page).value.0)
  {
    hide ServedFirst, ServedNext, Accept, Honest, Answer, KnownRef;
    AcceptParts(st, page);
    var st' := Accept(st, page).value.0;
    if st' != st {
      var q :| Honest(st, q) && Answer(q) == Ok(page);
      NewRowLinked(st, q, page);
      if page.baseline.Some? {
        RefIsKnown(st, q, page);
      }
      hide Admissible, InOrder;
      assert AnswersAt(st', |st.rows|);
      AppendLog(st, st', NewRow(st, page));
    }
  }

  lemma AcceptParts(st: Store, page: Page)
    requires Accept(st, page).Some?
    ensures Admissible(st, page)
    ensures var st' := Accept(st, page).value.0;
      || st' == st
      || (InOrder(st, page) && BaselineExpected(st, page) &&
          st' == st.(rows := st.rows + [NewRow(st, page)], lastSequence := st.lastSequence + 1))
  {
    hide Admissible, InOrder, BaselineExpected, NewRow, FindLast;
  }

  lemma NewRowLinked(st: Store, q: Request, page: Page)
    requires Log(st) && Honest(st, q) && Answer(q) == Ok(page)
    requires Admissible(st, page) && InOrder(st, page)
    ensures LinkedAt(st.rows + [NewRow(st, page)], |st.rows|)
    ensures NewRow(st, page).ordinal == 1 ||
            (st.rows != [] && page.predecessor == Some(PredecessorOf(st, st.rows[|st.rows| - 1])))
  {
    hide ServedFirst, ServedNext, Admissible, InOrder;
    if q.cursor.InitialScan? {
      OpeningRow(st, q, page);
      IssuedFirst(st, q, page);
    } else {
      assert q.cursor.Continue? by {
        VerifiableAnswer(q);
      }
      ContinuingRow(st, q, page);
      ContinueAnswer(q);
      PredecessorIsHead(st, page);
    }
    hide Answer, Honest;
  }

  lemma PredecessorIsHead(st: Store, page: Page)
    requires InOrder(st, page) && page.predecessor.Some?
    ensures st.rows != [] && page.predecessor == Some(PredecessorOf(st, st.rows[|st.rows| - 1]))
  {
  }

  lemma VerifiableAnswer(q: Request)
    requires Answer(q).Ok?
    ensures !q.cursor.Unverifiable?
  {
    hide Changes, BuildPage;
  }

  lemma AppendLog(st: Store, st': Store, r: Row)
    requires Log(st) && st' == st.(rows := st.rows + [r], lastSequence := st.lastSequence + 1)
    requires r.sequence == st.lastSequence + 1 && 1 <= r.page.limit
    requires r.page.owner.organization == st.organization && r.page.owner.source == st.source
    requires r.page.baseline.Some? ==> KnownRef(st, r.page.baseline.value)
    requires LinkedAt(st'.rows, |st.rows|) && AnswersAt(st', |st.rows|)
    ensures Log(st')
  {
    hide KnownRef, Opens, Continues;
    forall i | 0 <= i < |st'.rows| ensures AnswersAt(st', i) {
      if i < |st.rows| {
        assert AnswersAt(st, i);
      }
    }
    SequencedAppend(st.rows, st.lastSequence, r);
    forall i | 0 <= i < |st'.rows| ensures LinkedAt(st'.rows, i) {
      if i < |st.rows| {
        assert LinkedAt(st.rows, i);
        assert st'.rows[i] == st.rows[i] && (i > 0 ==> st'.rows[i - 1] == st.rows[i - 1]);
      }
    }
    forall i | 0 <= i < |st'.rows| && st'.rows[i].page.baseline.Some?
      ensures KnownRef(st', st'.rows[i].page.baseline.value)
    {
      KnownRefKept(st, st', st'.rows[i].page.baseline.value);
    }
  }

  // ---- epochs never come back -----------------------------------------------------

  /** How many scans an epoch supersedes in line; a digest never contains itself. */
  ghost function Depth(e: Epoch): nat {
    if e.predecessor.None? then 0 else 1 + Depth(e.predecessor.value.epoch)
  }

  ghost predicate AllLinked(rows: seq<Row>) {
    forall i | 0 <= i < |rows| :: LinkedAt(rows, i)
  }

  lemma {:induction false} DepthAlong(rows: seq<Row>, i: nat, j: nat)
    requires AllLinked(rows) && i <= j < |rows|
    ensures Depth(rows[i].page.epoch) <= Depth(rows[j].page.epoch)
    ensures Depth(rows[i].page.epoch) == Depth(rows[j].page.epoch) ==> rows[i].page.epoch == rows[j].page.epoch
    decreases j - i
  {
    hide ServedFirst, ServedNext;
    if i < j {
      DepthAlong(rows, i, j - 1);
      assert LinkedAt(rows, j);
    }
  }

  /** One move of the database: a provider's page, some other checkpoint, or a new active version. */
  ghost predicate Step(st: Store, st': Store) {
    || (exists page :: Issued(st, page) && Accept(st, page).Some? && Accept(st, page).value.0 == st')
    || (st.lastSequence <= st'.lastSequence && st' == st.(lastSequence := st'.lastSequence))
    || st' == st.(active := st'.active)
  }

  ghost predicate Run(run: seq<Store>) {
    && run != [] && run[0].rows == []
    && forall i | 0 < i < |run| :: Step(run[i - 1], run[i])
  }

  lemma StepExtends(st: Store, st': Store)
    requires Log(st) && Step(st, st')
    ensures Log(st') && Extends(st, st') && st.rows <= st'.rows
  {
    if page :| Issued(st, page) && Accept(st, page).Some? && Accept(st, page).value.0 == st' {
      AcceptExtends(st, page);
    } else {
      hide Issued, KnownRef, LinkedAt, Accept;
      forall i | 0 <= i < |st'.rows| ensures AnswersAt(st', i) {
        assert AnswersAt(st, i);
      }
      forall i | 0 <= i < |st'.rows| && st'.rows[i].page.baseline.Some?
        ensures KnownRef(st', st'.rows[i].page.baseline.value)
      {
        KnownRefKept(st, st', st'.rows[i].page.baseline.value);
      }
    }
  }

  /** Every reachable store keeps the log invariant, and the log only grows. */
  lemma {:induction false} RunLogs(run: seq<Store>, i: nat, j: nat)
    requires Run(run) && i <= j < |run|
    ensures Log(run[j]) && run[i].rows <= run[j].rows
    decreases j
  {
    hide Step, LinkedAt, KnownRef;
    if j > 0 {
      RunLogs(run, if i < j then i else 0, j - 1);
      assert Step(run[j - 1], run[j]);
      StepExtends(run[j - 1], run[j]);
    }
  }

  ghost predicate HeadHasEpoch(st: Store, e: Epoch) {
    st.rows != [] && st.rows[|st.rows| - 1].page.epoch == e
  }

  /** Once the head has moved on from an epoch it never returns to it. */
  lemma EpochGone(run: seq<Store>, i: nat, j: nat, k: nat, e: Epoch)
    requires Run(run) && i <= j <= k < |run|
    requires HeadHasEpoch(run[i], e) && !HeadHasEpoch(run[j], e)
    ensures !HeadHasEpoch(run[k], e)
  {
    hide Step, LinkedAt, KnownRef, Run;
    RunLogs(run, i, j);
    RunLogs(run, j, k);
    var rows := run[k].rows;
    var a, b := |run[i].rows| - 1, |run[j].rows| - 1;
    assert rows[a] == run[j].rows[a] == run[i].rows[a] && rows[b] == run[j].rows[b];
    DepthAlong(rows, a, b);
    DepthAlong(rows, b, |rows| - 1);
  }

  /** A cursor of a superseded scan is refused in every later state, whatever tree is found there:
      also when the tree is back to the scanned content and the scan digest recurs. */
  lemma SupersededCursorRefused(run: seq<Store>, i: nat, j: nat, k: nat, c: Accepted, s: Source,
                                selection: Option<string>, seen: Observation, bound: nat, limit: nat)
    requires Run(run) && i <= j <= k < |run|
    requires HeadHasEpoch(run[i], c.epoch) && !HeadHasEpoch(run[j], c.epoch)
    requires s.head == HeadOf(run[k])
    ensures !ReadChanges(s, selection, seen, bound, Continue(c), limit).Ok?
  {
    EpochGone(run, i, j, k, c.epoch);
    hide Run, Changes;
  }

  // ---- a completed scan is a fixed point ------------------------------------------

  ghost function PagesOf(rows: seq<Row>): seq<Page> {
    seq(|rows|, i requires 0 <= i < |rows| => rows[i].page)
  }

  /** The rows of the scan that row `i` belongs to, up to `i`. */
  ghost function Block(rows: seq<Row>, i: nat): seq<Row>
    requires i < |rows| && 1 <= rows[i].ordinal <= i + 1
  {
    rows[i + 1 - rows[i].ordinal..i + 1]
  }

  ghost predicate WholeScan(block: seq<Row>) {
    && block != [] && block[0].ordinal == 1 && Chain(PagesOf(block))
    && forall k | 0 <= k < |block| :: OfScan(block[k], block[|block| - 1].page)
  }

  lemma {:induction false} BlockIsChain(rows: seq<Row>, i: nat)
    requires AllLinked(rows) && i < |rows|
    ensures 1 <= rows[i].ordinal <= i + 1 && WholeScan(Block(rows, i))
    decreases i
  {
    hide ServedFirst, ServedNext;
    assert LinkedAt(rows, i);
    if rows[i].ordinal == 1 {
      assert Block(rows, i) == [rows[i]];
      assert i > 0 ==> !Continues(rows[i - 1], rows[i]) by {
        if i > 0 {
          BlockIsChain(rows, i - 1);
        }
      }
      assert PagesOf([rows[i]]) == [rows[i].page];
    } else {
      BlockIsChain(rows, i - 1);
      assert Block(rows, i) == Block(rows, i - 1) + [rows[i]];
      ExtendScan(Block(rows, i - 1), rows[i - 1], rows[i]);
    }
  }

  lemma ExtendScan(block: seq<Row>, a: Row, b: Row)
    requires WholeScan(block) && block[|block| - 1] == a && Continues(a, b)
    ensures WholeScan(block + [b])
  {
    hide ServedFirst, ServedNext;
    var pages, more := PagesOf(block), PagesOf(block + [b]);
    assert more == pages + [b.page];
    forall i | 0 < i < |more| ensures ServedNext(more[i], more[i - 1]) {
      if i < |pages| {
        assert ServedNext(pages[i], pages[i - 1]);
      }
    }
  }

  lemma {:induction false} EpochChangesSplit(rows: seq<Row>, m: nat, version: Uuid, epoch: Epoch)
    requires m <= |rows|
    requires forall k | 0 <= k < m :: rows[k].page.epoch != epoch
    requires forall k | m <= k < |rows| :: rows[k].page.epoch == epoch && rows[k].page.owner.version == version
    ensures EpochChanges(rows, version, epoch) == Flatten(PagesOf(rows[m..]))
  {
    if rows != [] {
      var n := |rows| - 1;
      var init := rows[..n];
      if m <= n {
        EpochChangesSplit(init, m, version, epoch);
        var pages := PagesOf(rows[m..]);
        assert pages[..|pages| - 1] == PagesOf(init[m..]);
        assert pages[|pages| - 1] == rows[n].page;
      } else {
        EpochChangesSplit(init, m - 1, version, epoch);
        assert rows[m..] == [] && init[m - 1..] == [];
        assert EpochChanges(init, version, epoch) + [] == EpochChanges(init, version, epoch);
      }
    }
  }

  lemma {:induction false} InsertLast(x: Change, xs: seq<Change>)
    requires forall i | 0 <= i < |xs| :: Less(xs[i].path, x.path)
    ensures InsertChange(x, xs) == xs + [x]
  {
    if xs != [] {
      LessTrichotomy(xs[0].path, x.path);
      InsertLast(x, xs[1..]);
      assert xs == [xs[0]] + xs[1..];
    }
  }

  lemma {:induction false} SortedStays(xs: seq<Change>)
    requires StrictlySorted(Paths(xs))
    ensures SortChanges(xs) == xs
  {
    hide Less;
    if xs != [] {
      var n := |xs| - 1;
      var init := xs[..n];
      assert forall i | 0 <= i < n :: Paths(init)[i] == Paths(xs)[i];
      SortedStays(init);
      forall i | 0 <= i < n ensures Less(init[i].path, xs[n].path) {
        assert Less(Paths(xs)[i], Paths(xs)[n]);
      }
      InsertLast(xs[n], init);
      assert xs == init + [xs[n]];
    }
  }

  lemma {:induction false} EpochChangesEarlier(rows: seq<Row>, m: nat, version: Uuid, epoch: Epoch)
    requires m <= |rows| && forall k | m <= k < |rows| :: rows[k].page.epoch != epoch
    ensures EpochChanges(rows, version, epoch) == EpochChanges(rows[..m], version, epoch)
  {
    if m < |rows| {
      var init := rows[..|rows| - 1];
      EpochChangesEarlier(init, m, version, epoch);
      assert init[..m] == rows[..m];
      assert EpochChanges(init, version, epoch) + [] == EpochChanges(init, version, epoch);
    } else {
      assert rows[..m] == rows;
    }
  }

  /** Nothing continues a complete page. */
  lemma ContinuedIncomplete(rows: seq<Row>, i: nat)
    requires AllLinked(rows) && i + 1 < |rows| && Continues(rows[i], rows[i + 1])
    ensures !rows[i].page.complete
  {
    hide ServedFirst, ServedNext;
    BlockIsChain(rows, i);
    BlockIsChain(rows, i + 1);
    var pages := PagesOf(Block(rows, i + 1));
    ChainSliced(pages);
    var k := |pages| - 2;
    assert pages[k] == rows[i].page;
  }

  lemma LaterEpochs(rows: seq<Row>, i: nat)
    requires AllLinked(rows) && i < |rows| && rows[i].page.complete
    ensures forall k | i + 1 <= k < |rows| :: rows[k].page.epoch != rows[i].page.epoch
  {
    hide ServedFirst, ServedNext;
    forall k | i + 1 <= k < |rows| ensures rows[k].page.epoch != rows[i].page.epoch {
      assert LinkedAt(rows, i + 1);
      assert !Continues(rows[i], rows[i + 1]) by {
        if Continues(rows[i], rows[i + 1]) {
          ContinuedIncomplete(rows, i);
        }
      }
      DepthAlong(rows, i + 1, k);
    }
  }

  /** The rows of one scan, and only they, carry its epoch: reading them back gives its list so far. */
  lemma BlockChanges(rows: seq<Row>, i: nat)
    requires AllLinked(rows) && i < |rows|
    ensures 1 <= rows[i].ordinal <= i + 1 && WholeScan(Block(rows, i))
    ensures EpochChanges(rows[..i + 1], rows[i].page.owner.version, rows[i].page.epoch) ==
            Flatten(PagesOf(Block(rows, i)))
  {
    hide ServedFirst, ServedNext;
    BlockIsChain(rows, i);
    var m := i + 1 - rows[i].ordinal;
    var block := Block(rows, i);
    assert rows[m] == block[0];
    assert OfScan(block[0], block[|block| - 1].page);
    EarlierEpochs(rows, m);
    var upto := rows[..i + 1];
    forall k | m <= k < |upto|
      ensures upto[k].page.epoch == rows[i].page.epoch && upto[k].page.owner.version == rows[i].page.owner.version
    {
      assert OfScan(block[k - m], block[|block| - 1].page);
    }
    assert upto[m..] == block;
    EpochChangesSplit(upto, m, rows[i].page.owner.version, rows[i].page.epoch);
  }

  /** Reading back any completely accepted scan of a sound log gives that scan's own list. */
  lemma CompleteEntries(st: Store, i: nat)
    requires Log(st) && i < |st.rows| && st.rows[i].page.complete
    requires st.rows[i].page.owner.version == st.active
    ensures var page := st.rows[i].page;
      && SortChanges(EpochChanges(st.rows, st.active, page.epoch)) == page.scanRef.entries
      && StrictlySorted(Paths(page.scanRef.entries))
  {
    var rows := st.rows;
    assert AllLinked(rows);
    hide KnownRef, StrictlySorted, AllLinked, Log, EpochChanges, SortChanges, Chain, Flatten, ServedFirst, ServedNext;
    BlockChanges(rows, i);
    LaterEpochs(rows, i);
    EpochChangesEarlier(rows, i + 1, st.active, rows[i].page.epoch);
    var pages := PagesOf(Block(rows, i));
    assert pages[|pages| - 1] == rows[i].page;
    ChainList(pages);
    assert SameScan(pages[|pages| - 1], pages[0]);
    SortedStays(rows[i].page.scanRef.entries);
  }

  lemma EarlierEpochs(rows: seq<Row>, m: nat)
    requires AllLinked(rows) && m < |rows| && rows[m].ordinal == 1
    ensures forall k | 0 <= k < m :: rows[k].page.epoch != rows[m].page.epoch
  {
    hide ServedFirst, ServedNext;
    if m > 0 {
      assert LinkedAt(rows, m);
      BlockIsChain(rows, m - 1);
      assert Opens(rows[m - 1], rows[m]);
      forall k | 0 <= k < m ensures rows[k].page.epoch != rows[m].page.epoch {
        DepthAlong(rows, k, m - 1);
      }
    }
  }

  lemma ParentFound(st: Store, r: RefDoc)
    requires Log(st) && KnownRef(st, r) && r.version == st.active
    ensures var parent := BaselineRow(st, r); parent.Some? && RefOf(st, st.rows[parent.value]) == r
  {
    hide LinkedAt;
    var i :| 0 <= i < |st.rows| && st.rows[i].page.complete && RefOf(st, st.rows[i]) == r;
    var f := (x: Row) => x.page.complete && x.page.owner.version == st.active && RefOf(st, x).(bound := r.bound) == r;
    assert f(st.rows[i]);
    var parent := BaselineRow(st, r);
    assert st.rows[parent.value].sequence == r.sequence == st.rows[i].sequence;
  }

  /** The page was answered for the tree `files`. */
  ghost predicate AnsweredFor(page: Page, files: seq<File>) {
    exists q: Request :: ValidSource(q.source) && q.seen == Observed(files) && Answer(q) == Ok(page)
  }

  lemma AnswerMeaning(page: Page, files: seq<File>)
    requires AnsweredFor(page, files)
    ensures page.baseline == page.scanRef.baseline && page.bound == page.scanRef.bound
    ensures page.owner == page.scanRef.owner
    ensures page.baseline.Some? ==> page.baseline.value.version == page.owner.version
    ensures Active(page.scanRef.entries) == Tree(files) && Deleted(page.scanRef.entries) !! Tree(files).Keys
  {
    hide StrictlySorted, Active, Deleted;
    var q: Request :| ValidSource(q.source) && q.seen == Observed(files) && Answer(q) == Ok(page);
    ChangesMeaning(q.source, files);
    VerifiableAnswer(q);
    if q.cursor.InitialScan? {
      InitialAnswer(q);
    } else {
      ContinueAnswer(q);
    }
    hide Answer;
  }

  /** The state right after a scan of `files` completed: its last page heads the log. */
  ghost predicate JustCompleted(st: Store, files: seq<File>) {
    && Log(st) && st.rows != []
    && var page := st.rows[|st.rows| - 1].page;
       && page.complete && page.owner == Owner(st.organization, st.source, st.active)
       && AnsweredFor(page, files)
  }

  /** Rescanning an unchanged tree under the same bound reproduces the completed scan: the same
      list, digest and epoch, whatever was scanned before it. */
  lemma RescanReproduces(st: Store, files: seq<File>)
    requires JustCompleted(st, files)
    ensures var page := st.rows[|st.rows| - 1].page;
      var s := ReadSource(st);
      && s.head.Some? && s.baseline.Some?
      && s.baseline.value.reference == RefOf(st, st.rows[|st.rows| - 1])
      && s.baseline.value.entries == page.scanRef.entries
      && ReplayBranch(s, files) && IsCurrentHead(s, s.baseline.value.reference)
      && ScanRefOf(s, files, page.bound) == page.scanRef
      && ScanEpoch(s, page.scanRef).0 == page.epoch
  {
    hide Log, AnsweredFor, SortChanges, EpochChanges, Active, Deleted, Difference;
    var n := |st.rows| - 1;
    var page := st.rows[n].page;
    CompleteEntries(st, n);
    AnswerMeaning(page, files);
    assert LatestComplete(st) == Some(n);
    if page.baseline.Some? {
      BaselineIsKnown(st, n);
      ParentFound(st, page.baseline.value);
    }
    hide BaselineRow;
  }

  lemma BaselineIsKnown(st: Store, i: nat)
    requires Log(st) && i < |st.rows| && st.rows[i].page.baseline.Some?
    ensures KnownRef(st, st.rows[i].page.baseline.value)
  {
  }
}
