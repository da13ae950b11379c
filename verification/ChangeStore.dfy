/**
 The durable side of the change feed: the Control database accepts a provider-signed page
 only at the end of the log it extends, and later reads give the provider its scan head and
 complete baseline. Other checkpoint kinds may advance the sequence in between.
 */
module ChangeStore {
  import opened Order
  import opened ChangeFeed

  const MAX_SCAN_BOUND: nat := 15000

  datatype Row = Row(page: Page, sequence: nat, ordinal: nat)

  datatype Store = Store(organization: Uuid, source: Uuid, active: Uuid, rows: seq<Row>, lastSequence: nat)

  function CheckpointOf(st: Store, r: Row): CheckpointRef {
    CheckpointRef(st.organization, st.source, r.sequence, PageRef(r.page))
  }

  function PredecessorOf(st: Store, r: Row): Predecessor {
    Predecessor(PageRef(r.page), CheckpointOf(st, r), r.sequence)
  }

  function RefOf(st: Store, r: Row): RefDoc {
    RefDoc(r.page.owner.version, r.page.scanRef, r.page.epoch, PageRef(r.page), CheckpointOf(st, r), r.sequence,
           r.page.bound)
  }

  function FindLast(rows: seq<Row>, f: Row -> bool): (r: Option<nat>)
    ensures r.Some? ==> r.value < |rows| && f(rows[r.value]) && forall j | r.value < j < |rows| :: !f(rows[j])
    ensures r.None? ==> forall j | 0 <= j < |rows| :: !f(rows[j])
  {
    if rows == [] then None
    else if f(rows[|rows| - 1]) then Some(|rows| - 1)
    else FindLast(rows[..|rows| - 1], f)
  }

  predicate OfScan(r: Row, page: Page) {
    r.page.owner.version == page.owner.version && r.page.scanRef == page.scanRef && r.page.epoch == page.epoch
  }

  // ---- acceptance -----------------------------------------------------------------

  /** Changes the scan already holds, this page aside. */
  function ScanCount(rows: seq<Row>, page: Page): nat {
    if rows == [] then 0
    else
      var last := rows[|rows| - 1];
      ScanCount(rows[..|rows| - 1], page) + if OfScan(last, page) && last.page != page then |last.page.changes| else 0
  }

  predicate BoundKept(st: Store, page: Page) {
    && 1 <= page.bound <= MAX_SCAN_BOUND
    && (forall i | 0 <= i < |st.rows| && OfScan(st.rows[i], page) :: st.rows[i].page.bound == page.bound)
    && ScanCount(st.rows, page) + |page.changes| <= page.bound
  }

  /** The row a page's baseline document names, every field but the bound compared. */
  function BaselineRow(st: Store, b: RefDoc): Option<nat> {
    FindLast(st.rows, (r: Row) =>
      r.page.complete && r.page.owner.version == st.active && RefOf(st, r).(bound := b.bound) == b)
  }

  /** A delete must repeat an upsert of the baseline's scan. */
  predicate DeletesKnown(st: Store, page: Page) {
    forall k | 0 <= k < |page.changes| && page.changes[k].kind.Delete? ::
      && page.baseline.Some?
      && exists i | 0 <= i < |st.rows| ::
           && st.rows[i].page.owner.version == st.active
           && st.rows[i].page.epoch == page.baseline.value.epoch
           && page.changes[k].(kind := Upsert) in st.rows[i].page.changes
  }

  function LatestComplete(st: Store): Option<nat> {
    FindLast(st.rows, (r: Row) => r.page.complete && r.page.owner.version == st.active)
  }

  function InitialRow(st: Store, page: Page): Option<nat> {
    FindLast(st.rows, (r: Row) => OfScan(r, page) && r.ordinal == 1)
  }

  function BaselinePage(b: Option<RefDoc>): Option<PageRef> {
    match b case None => None case Some(r) => Some(r.pageRef)
  }

  predicate BaselineExpected(st: Store, page: Page) {
    if page.predecessor.None? then
      var latest := LatestComplete(st);
      BaselinePage(page.baseline) == if latest.None? then None else Some(PageRef(st.rows[latest.value].page))
    else
      var initial := InitialRow(st, page);
      initial.Some? && BaselinePage(st.rows[initial.value].page.baseline) == BaselinePage(page.baseline)
  }

  /** The page opens a scan after the current head, or continues the head itself. */
  predicate InOrder(st: Store, page: Page) {
    var scan := FindLast(st.rows, (r: Row) => OfScan(r, page));
    match page.predecessor
    case None =>
      && page.superseded == (if st.rows == [] then None else Some(st.rows[|st.rows| - 1].page.epoch))
      && scan.None?
    case Some(p) =>
      && page.superseded.None? && st.rows != []
      && p == PredecessorOf(st, st.rows[|st.rows| - 1])
      && scan.Some? && PageRef(st.rows[scan.value].page) == p.pageRef
      && (forall i | 0 <= i < |st.rows| && OfScan(st.rows[i], page) :: !st.rows[i].page.complete)
  }

  predicate Admissible(st: Store, page: Page) {
    && 1 <= page.limit <= MAX_PAGE && |page.changes| <= page.limit
    && page.owner == Owner(st.organization, st.source, st.active)
    && BoundKept(st, page)
    && (page.baseline.Some? ==> BaselineRow(st, page.baseline.value).Some?)
    && DeletesKnown(st, page)
  }

  function NewRow(st: Store, page: Page): Row {
    var scan := FindLast(st.rows, (r: Row) => OfScan(r, page));
    Row(page, st.lastSequence + 1, if scan.None? then 1 else st.rows[scan.value].ordinal + 1)
  }

  /** `accept_file_change_page`: the new store and the index of the row that now holds the page. */
  function Accept(st: Store, page: Page): Option<(Store, nat)> {
    if !Admissible(st, page) then None
    else
      var existing := FindLast(st.rows, (r: Row) => r.page == page);
      if existing.Some? then Some((st, existing.value))
      else if !BaselineExpected(st, page) || !InOrder(st, page) then None
      else
        Some((st.(rows := st.rows + [NewRow(st, page)], lastSequence := st.lastSequence + 1), |st.rows|))
  }

  // ---- reads ----------------------------------------------------------------------

  function EpochStart(st: Store, i: nat): Option<nat>
    requires i < |st.rows|
  {
    FindLast(st.rows, (r: Row) =>
      r.ordinal == 1 && r.page.epoch == st.rows[i].page.epoch && r.page.owner.version == st.rows[i].page.owner.version)
  }

  /** The head that row `i` is, or was, for a reader. */
  function HeadAt(st: Store, i: nat): Head
    requires i < |st.rows|
  {
    var r := st.rows[i];
    var start := EpochStart(st, i);
    Head(r.page.owner.version, r.page.scanRef, r.page.epoch, r.page.limit, PageRef(r.page), CheckpointOf(st, r),
         r.sequence, r.page.complete, r.page.bound,
         if start.None? then None else st.rows[start.value].page.superseded)
  }

  function HeadOf(st: Store): Option<Head> {
    if st.rows == [] then None else Some(HeadAt(st, |st.rows| - 1))
  }

  /** The cursor Control signs for an accepted row. */
  function CursorAt(st: Store, i: nat): Cursor
    requires i < |st.rows|
  {
    var r := st.rows[i];
    match r.page.next
    case None => Unverifiable
    case Some(claims) =>
      Continue(Accepted(claims, r.page.scanRef, r.page.epoch, PageRef(r.page), CheckpointOf(st, r), r.sequence))
  }

  function EpochChanges(rows: seq<Row>, version: Uuid, epoch: Epoch): seq<Change> {
    if rows == [] then []
    else
      var last := rows[|rows| - 1];
      EpochChanges(rows[..|rows| - 1], version, epoch) +
      if last.page.owner.version == version && last.page.epoch == epoch then last.page.changes else []
  }

  function InsertChange(x: Change, xs: seq<Change>): seq<Change> {
    if xs == [] || Less(x.path, xs[0].path) then [x] + xs else [xs[0]] + InsertChange(x, xs[1..])
  }

  function SortChanges(xs: seq<Change>): seq<Change> {
    if xs == [] then [] else InsertChange(xs[|xs| - 1], SortChanges(xs[..|xs| - 1]))
  }

  /** The latest completely accepted scan: its terminal page, its parent's, and its entries. */
  function BaselineOf(st: Store): Option<Baseline> {
    var latest := LatestComplete(st);
    if latest.None? then None
    else
      var r := st.rows[latest.value];
      var parent := if r.page.baseline.None? then None else BaselineRow(st, r.page.baseline.value);
      Some(Baseline(RefOf(st, r),
                    if parent.None? then None else Some(RefOf(st, st.rows[parent.value])),
                    SortChanges(EpochChanges(st.rows, st.active, r.page.epoch))))
  }

  function ReadSource(st: Store): Source {
    Source(Owner(st.organization, st.source, st.active), true, HeadOf(st), BaselineOf(st))
  }
}
