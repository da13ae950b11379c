/**
 Paging: whatever happens to the tree between calls, the pages that do come out of one
 chain of cursors are the consecutive slices of one change list fixed by the first page.
 */
module ChangePaging {
  import opened Order
  import opened ChangeFeed

  ghost predicate ServedFirst(page: Page) {
    exists s, selection, seen, bound, limit ::
      && ValidSource(s) && 1 <= limit && (s.head.Some? ==> 1 <= s.head.value.limit)
      && ReadChanges(s, selection, seen, bound, InitialScan, limit) == Ok(page)
  }

  /** `page` answers a cursor that Control issued for `prev`, against any later tree and head. */
  ghost predicate ServedNext(page: Page, prev: Page) {
    exists s, selection, seen, bound, c: Accepted, limit ::
      && ValidSource(s) && prev.next == Some(c.pending)
      && ReadChanges(s, selection, seen, bound, Continue(c), limit) == Ok(page)
  }

  ghost predicate Chain(pages: seq<Page>) {
    && pages != [] && ServedFirst(pages[0])
    && forall i | 0 < i < |pages| :: ServedNext(pages[i], pages[i - 1])
  }

  ghost function Flatten(pages: seq<Page>): seq<Change> {
    if pages == [] then [] else Flatten(pages[..|pages| - 1]) + pages[|pages| - 1].changes
  }

  ghost predicate SameScan(a: Page, b: Page) {
    a.owner == b.owner && a.scanRef == b.scanRef && a.epoch == b.epoch && a.limit == b.limit && a.bound == b.bound
  }

  /** `page` is the slice of the scan's list that starts at `offset`. */
  ghost predicate Slice(page: Page, offset: nat) {
    var all := page.scanRef.entries;
    && 1 <= page.limit && offset <= |all|
    && page.changes == Take(all, offset, page.limit)
    && (page.complete <==> offset + page.limit >= |all|)
    && (page.complete ==> page.next == None)
    && (!page.complete ==>
          page.next == Some(Claims(page.owner, page.scanRef, page.epoch, page.bound, page.limit, offset + page.limit)))
    && StrictlySorted(Paths(all))
  }

  /** A successful continuation builds the page its cursor names, for the same list. */
  lemma ContinueOk(s: Source, selection: Option<string>, seen: Observation, bound: nat, c: Accepted, limit: nat)
    requires ValidSource(s) && ReadChanges(s, selection, seen, bound, Continue(c), limit).Ok?
    ensures seen.Observed? && c.pending.scanRef == ScanRefOf(s, seen.files, bound)
    ensures c.pending == Claims(s.owner, c.pending.scanRef, c.epoch, c.pending.scanRef.bound, limit, c.pending.offset)
    ensures 1 <= c.pending.offset < |c.pending.scanRef.entries|
    ensures ReadChanges(s, selection, seen, bound, Continue(c), limit).page ==
            BuildPage(s, c.pending.scanRef, c.epoch, None, limit, c.pending.offset,
                      Some(Predecessor(c.pageRef, c.checkpointRef, c.sequence)))
    ensures StrictlySorted(Paths(c.pending.scanRef.entries))
  {
    hide StrictlySorted, BuildPage;
    ChangesMeaning(s, seen.files);
    hide Changes, ValidSource;
  }

  lemma InitialOk(s: Source, selection: Option<string>, seen: Observation, bound: nat, limit: nat)
    requires ValidSource(s) && ReadChanges(s, selection, seen, bound, InitialScan, limit).Ok?
    ensures seen.Observed?
    ensures var scanRef := ScanRefOf(s, seen.files, bound);
      && |scanRef.entries| <= bound
      && StrictlySorted(Paths(scanRef.entries))
      && ReadChanges(s, selection, seen, bound, InitialScan, limit).page ==
         BuildPage(s, scanRef, ScanEpoch(s, scanRef).0, ScanEpoch(s, scanRef).1,
                   if HeadServes(s, scanRef) then s.head.value.limit else limit, 0, None)
  {
    hide StrictlySorted, BuildPage;
    ChangesMeaning(s, seen.files);
    hide Changes, ValidSource;
  }

  lemma BuiltSlice(s: Source, scanRef: ScanRef, epoch: Epoch, superseded: Option<Epoch>, limit: nat, offset: nat,
                   predecessor: Option<Predecessor>)
    requires 1 <= limit && offset <= |scanRef.entries| && StrictlySorted(Paths(scanRef.entries))
    ensures Slice(BuildPage(s, scanRef, epoch, superseded, limit, offset, predecessor), offset)
  {
    hide StrictlySorted;
  }

  lemma FirstSlice(page: Page)
    requires ServedFirst(page)
    ensures Slice(page, 0)
  {
    hide Slice, ReadChanges, StrictlySorted, BuildPage, ScanRefOf;
    var s, selection, seen, bound, limit :|
      && ValidSource(s) && 1 <= limit && (s.head.Some? ==> 1 <= s.head.value.limit)
      && ReadChanges(s, selection, seen, bound, InitialScan, limit) == Ok(page);
    InitialOk(s, selection, seen, bound, limit);
    var scanRef := ScanRefOf(s, seen.files, bound);
    BuiltSlice(s, scanRef, ScanEpoch(s, scanRef).0, ScanEpoch(s, scanRef).1,
               if HeadServes(s, scanRef) then s.head.value.limit else limit, 0, None);
  }

  lemma NextSlice(page: Page, prev: Page, offset: nat)
    requires ServedNext(page, prev) && Slice(prev, offset)
    ensures SameScan(page, prev) && Slice(page, offset + prev.limit)
    ensures !prev.complete
  {
    hide ReadChanges, StrictlySorted, ScanRefOf;
    var s, selection, seen, bound, c: Accepted, limit :|
      && ValidSource(s) && prev.next == Some(c.pending)
      && ReadChanges(s, selection, seen, bound, Continue(c), limit) == Ok(page);
    ContinueOk(s, selection, seen, bound, c, limit);
    BuiltSlice(s, c.pending.scanRef, c.epoch, None, limit, c.pending.offset,
               Some(Predecessor(c.pageRef, c.checkpointRef, c.sequence)));
    hide Take;
  }

  function Offset(k: nat, limit: nat): nat {
    if k == 0 then 0 else Offset(k - 1, limit) + limit
  }

  lemma {:induction false} OffsetIsProduct(k: nat, limit: nat)
    ensures Offset(k, limit) == k * limit
  {
    if k > 0 {
      OffsetIsProduct(k - 1, limit);
    }
  }

  ghost predicate Sliced(pages: seq<Page>) {
    pages != [] && forall k | 0 <= k < |pages| ::
      && SameScan(pages[k], pages[0]) && Slice(pages[k], Offset(k, pages[0].limit))
      && (k + 1 < |pages| ==> !pages[k].complete)
  }

  lemma {:induction false} ChainSliced(pages: seq<Page>)
    requires Chain(pages)
    ensures Sliced(pages)
  {
    hide Slice, ServedNext, ServedFirst;
    if |pages| == 1 {
      FirstSlice(pages[0]);
    } else {
      var n := |pages| - 1;
      var init := pages[..n];
      forall i | 0 < i < n ensures ServedNext(init[i], init[i - 1]) {
        assert ServedNext(pages[i], pages[i - 1]);
      }
      ChainSliced(init);
      assert init[n - 1] == pages[n - 1] && init[0] == pages[0];
      assert ServedNext(pages[n], pages[n - 1]);
      NextSlice(pages[n], pages[n - 1], Offset(n - 1, pages[0].limit));
      forall k | 0 <= k < |pages|
        ensures SameScan(pages[k], pages[0]) && Slice(pages[k], Offset(k, pages[0].limit))
        ensures k + 1 < |pages| ==> !pages[k].complete
      {
        assert k < n ==> init[k] == pages[k];
      }
    }
  }

  function Upto(xs: seq<Change>, k: nat): seq<Change> {
    if k <= |xs| then xs[..k] else xs
  }

  /** Read so far: exactly the first `k` slices of the frozen list. */
  lemma {:induction false} SlicedPrefix(pages: seq<Page>, k: nat)
    requires Sliced(pages) && k <= |pages|
    ensures Flatten(pages[..k]) == Upto(pages[0].scanRef.entries, Offset(k, pages[0].limit))
    decreases k
  {
    if k > 0 {
      hide Sliced, Flatten, Take, Upto;
      SlicedPrefix(pages, k - 1);
      FlattenStep(pages, k);
      SlicedAt(pages, k - 1);
      TakeExtends(pages[0].scanRef.entries, Offset(k - 1, pages[0].limit), pages[0].limit);
    } else {
      assert pages[..0] == [];
    }
  }

  lemma FlattenStep(pages: seq<Page>, k: nat)
    requires 0 < k <= |pages|
    ensures Flatten(pages[..k]) == Flatten(pages[..k - 1]) + pages[k - 1].changes
  {
    assert pages[..k][..k - 1] == pages[..k - 1];
  }

  lemma SlicedAt(pages: seq<Page>, k: nat)
    requires Sliced(pages) && k < |pages|
    ensures var all := pages[0].scanRef.entries;
      var at := Offset(k, pages[0].limit);
      at <= |all| && pages[k].changes == Take(all, at, pages[0].limit)
  {
    hide StrictlySorted, Take;
    assert SameScan(pages[k], pages[0]) && Slice(pages[k], Offset(k, pages[0].limit));
  }

  lemma TakeExtends(all: seq<Change>, at: nat, limit: nat)
    requires at <= |all|
    ensures Upto(all, at) + Take(all, at, limit) == Upto(all, at + limit)
  {
  }

  /** One frozen, strictly ordered list; the chain has read a prefix of it in order, and has read
      all of it exactly when its last page says complete. */
  lemma ChainList(pages: seq<Page>)
    requires Chain(pages)
    ensures var all := pages[0].scanRef.entries;
      && StrictlySorted(Paths(all))
      && (forall k | 0 <= k < |pages| :: SameScan(pages[k], pages[0]))
      && Flatten(pages) <= all
      && (pages[|pages| - 1].complete <==> Flatten(pages) == all)
  {
    hide Chain, StrictlySorted, Less, Flatten;
    ChainSliced(pages);
    var n := |pages|;
    assert pages[..n] == pages;
    SlicedPrefix(pages, n);
    assert SameScan(pages[n - 1], pages[0]) && Slice(pages[n - 1], Offset(n - 1, pages[0].limit));
  }

  /** The list is the concatenation of the chain, and a complete chain took max(1, ceil(n / limit))
      pages. */
  lemma ChainFrozen(pages: seq<Page>)
    requires Chain(pages)
    ensures var all := pages[0].scanRef.entries;
      var limit := pages[0].limit;
      var last := pages[|pages| - 1];
      && StrictlySorted(Paths(all))
      && (forall k | 0 <= k < |pages| :: SameScan(pages[k], pages[0]))
      && Flatten(pages) <= all
      && (last.complete <==> Flatten(pages) == all)
      && (last.complete ==> 1 <= limit && (|pages| == 1 || (|pages| - 1) * limit < |all|) && |all| <= |pages| * limit)
  {
    hide Chain, StrictlySorted, Less, Flatten;
    ChainList(pages);
    ChainSliced(pages);
    var n := |pages|;
    var limit := pages[0].limit;
    OffsetIsProduct(n, limit);
    OffsetIsProduct(n - 1, limit);
    assert SameScan(pages[n - 1], pages[0]) && Slice(pages[n - 1], Offset(n - 1, limit));
    if n > 1 {
      assert SameScan(pages[n - 2], pages[0]) && Slice(pages[n - 2], Offset(n - 2, limit));
    }
  }

  lemma LastComplete(pages: seq<Page>)
    requires Sliced(pages) && pages[|pages| - 1].next.None?
    ensures pages[|pages| - 1].complete
  {
    hide StrictlySorted, Take;
    assert Slice(pages[|pages| - 1], Offset(|pages| - 1, pages[0].limit));
  }
}
