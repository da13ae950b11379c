/**
 A consumer that applies every page's documents and deletes holds exactly what the checkpoint
 says, for every sequence of vault snapshots; once the vault rests, it catches up in batches.
 */
module VaultConvergence {
  import opened Order
  import opened JsonValue
  import opened References
  import opened VaultSync

  type Held = map<string, Digest>

  function ApplyDocuments(h: Hashes, m: Held, docs: seq<Document>): Held {
    if docs == [] then m
    else ApplyDocuments(h, m, docs[..|docs| - 1])[docs[|docs| - 1].reference := h.content(docs[|docs| - 1].content)]
  }

  function Apply(h: Hashes, m: Held, page: Page): Held {
    ApplyDocuments(h, m, page.documents) - Elements(page.deleted)
  }

  /** The consumer holds one document for each entry, with that content, and nothing else. */
  ghost predicate Holds(h: Hashes, m: Held, entries: Entries) {
    && (forall p | p in entries :: h.reference(p) in m && m[h.reference(p)] == entries[p])
    && (forall r | r in m :: exists p :: p in entries && h.reference(p) == r)
  }

  lemma {:induction false} UpsertsLast(h: Hashes, m: Held, contents: map<Path, Bytes>, selected: seq<Path>)
    requires selected != []
    ensures var init := selected[..|selected| - 1];
      var p := selected[|selected| - 1];
      var before := ApplyDocuments(h, m, Upserts(h, contents, init));
      ApplyDocuments(h, m, Upserts(h, contents, selected)) ==
      if p in contents then before[h.reference(p) := h.content(contents[p])] else before
  {
    var init := selected[..|selected| - 1];
    var docs := Upserts(h, contents, selected);
    var before := Upserts(h, contents, init);
    if selected[|selected| - 1] in contents {
      assert docs[..|docs| - 1] == before;
    } else {
      assert docs == before;
    }
  }

  /** Some selected path with content has this reference. */
  ghost predicate Upserted(h: Hashes, contents: map<Path, Bytes>, selected: seq<Path>, r: string) {
    exists p :: p in selected && p in contents && h.reference(p) == r
  }

  lemma UpsertedLast(h: Hashes, contents: map<Path, Bytes>, selected: seq<Path>, r: string)
    requires selected != []
    ensures var p := selected[|selected| - 1];
      Upserted(h, contents, selected, r) <==>
      Upserted(h, contents, selected[..|selected| - 1], r) || (p in contents && h.reference(p) == r)
  {
    var n := |selected| - 1;
    assert selected == selected[..n] + [selected[n]];
    if Upserted(h, contents, selected[..n], r) {
      var p :| p in selected[..n] && p in contents && h.reference(p) == r;
      assert p in selected;
    }
    assert selected[n] in selected;
  }

  lemma {:induction false} DocumentsKeys(h: Hashes, m: Held, contents: map<Path, Bytes>, selected: seq<Path>, r: string)
    ensures var after := ApplyDocuments(h, m, Upserts(h, contents, selected));
      r in after <==> r in m || Upserted(h, contents, selected, r)
  {
    if selected != [] {
      hide Upserted;
      DocumentsKeys(h, m, contents, selected[..|selected| - 1], r);
      UpsertsLast(h, m, contents, selected);
      UpsertedLast(h, contents, selected, r);
      hide ApplyDocuments, Upserts;
    }
  }

  lemma {:induction false} DocumentsOld(h: Hashes, m: Held, contents: map<Path, Bytes>, selected: seq<Path>, r: string)
    requires r in m && !Upserted(h, contents, selected, r)
    ensures var after := ApplyDocuments(h, m, Upserts(h, contents, selected));
      r in after && after[r] == m[r]
  {
    if selected != [] {
      hide Upserted;
      UpsertedLast(h, contents, selected, r);
      DocumentsOld(h, m, contents, selected[..|selected| - 1], r);
      UpsertsLast(h, m, contents, selected);
      hide ApplyDocuments, Upserts;
    }
  }

  lemma {:induction false} DocumentsNew(h: Hashes, m: Held, contents: map<Path, Bytes>, selected: seq<Path>, p: Path)
    requires Sound(h) && p in selected && p in contents
    ensures var after := ApplyDocuments(h, m, Upserts(h, contents, selected));
      h.reference(p) in after && after[h.reference(p)] == h.content(contents[p])
  {
    var n := |selected| - 1;
    assert selected == selected[..n] + [selected[n]];
    UpsertsLast(h, m, contents, selected);
    assert h.reference(selected[n]) == h.reference(p) ==> selected[n] == p;
    hide Sound, ApplyDocuments, Upserts;
    if selected[n] != p {
      DocumentsNew(h, m, contents, selected[..n], p);
    }
  }

  lemma {:induction false} DeletesAt(h: Hashes, contents: map<Path, Bytes>, selected: seq<Path>, r: string)
    ensures r in Elements(Deletes(h, contents, selected)) <==>
            exists p :: p in selected && p !in contents && h.reference(p) == r
  {
    if selected != [] {
      var n := |selected| - 1;
      var init := selected[..n];
      assert selected == init + [selected[n]];
      DeletesAt(h, contents, init, r);
      assert forall p | p in init :: p in selected;
      assert selected[n] in selected;
    }
  }

  lemma PageKept(h: Hashes, m: Held, prior: Entries, contents: map<Path, Bytes>, selected: seq<Path>, p: Path)
    requires Sound(h) && Holds(h, m, prior)
    requires p in Patch(prior, Digests(h, contents), selected)
    ensures var upserted := ApplyDocuments(h, m, Upserts(h, contents, selected));
      var after := upserted - Elements(Deletes(h, contents, selected));
      h.reference(p) in after && after[h.reference(p)] == Patch(prior, Digests(h, contents), selected)[p]
  {
    DeletesAt(h, contents, selected, h.reference(p));
    if p in selected {
      DocumentsNew(h, m, contents, selected, p);
    } else {
      DocumentsOld(h, m, contents, selected, h.reference(p));
    }
    hide ApplyDocuments, Upserts, Deletes;
  }

  lemma PageOnly(h: Hashes, m: Held, prior: Entries, contents: map<Path, Bytes>, selected: seq<Path>, r: string)
    requires Sound(h) && Holds(h, m, prior)
    requires r in ApplyDocuments(h, m, Upserts(h, contents, selected)) - Elements(Deletes(h, contents, selected))
    ensures exists p :: p in Patch(prior, Digests(h, contents), selected) && h.reference(p) == r
  {
    DocumentsKeys(h, m, contents, selected, r);
    DeletesAt(h, contents, selected, r);
    hide ApplyDocuments, Upserts, Deletes;
    if Upserted(h, contents, selected, r) {
      var p :| p in selected && p in contents && h.reference(p) == r;
      assert p in Patch(prior, Digests(h, contents), selected);
    } else {
      var p :| p in prior && h.reference(p) == r;
      assert p in Patch(prior, Digests(h, contents), selected);
    }
  }

  /** Applying a page moves the consumer exactly as the page's proposal moves the checkpoint. */
  lemma PageApplies(h: Hashes, m: Held, prior: Entries, contents: map<Path, Bytes>)
    requires Sound(h) && Holds(h, m, prior)
    ensures var selected := Selected(prior, Digests(h, contents));
      Holds(h, Apply(h, m, PageFor(h, prior, contents)), Patch(prior, Digests(h, contents), selected))
  {
    var selected := Selected(prior, Digests(h, contents));
    var next := Patch(prior, Digests(h, contents), selected);
    var after := Apply(h, m, PageFor(h, prior, contents));
    hide Selected, Patch, Sound, Encode, Digests;
    forall p | p in next ensures h.reference(p) in after && after[h.reference(p)] == next[p] {
      PageKept(h, m, prior, contents, selected, p);
    }
    forall r | r in after ensures exists p :: p in next && h.reference(p) == r {
      PageOnly(h, m, prior, contents, selected, r);
    }
  }

  // ---- the proposal ---------------------------------------------------------------

  lemma {:induction false} ContentsCanonical(snapshot: seq<VaultFile>, p: Path)
    requires ValidFiles(snapshot) && p in Contents(snapshot)
    ensures IsCanonical(p)
  {
    var n := |snapshot| - 1;
    if snapshot[n].path != p {
      ContentsCanonical(snapshot[..n], p);
    }
  }

  lemma PatchValid(h: Hashes, prior: Entries, snapshot: seq<VaultFile>, selected: seq<Path>)
    requires Sound(h) && ValidEntries(prior) && ValidFiles(snapshot)
    ensures ValidEntries(Patch(prior, Digests(h, Contents(snapshot)), selected))
  {
    hide IsCanonical, IsDigest, ValidFiles, Contents;
    var next := Patch(prior, Digests(h, Contents(snapshot)), selected);
    forall p | p in next ensures IsCanonical(p) && IsDigest(next[p]) {
      if p in Contents(snapshot) {
        ContentsCanonical(snapshot, p);
      }
    }
  }

  /** Every emitted proposal loads again, as exactly the patched entries. */
  lemma ProposalLoads(h: Hashes, payload: Json, snapshot: seq<VaultFile>, acl: Path -> bool)
    requires Sound(h) && RunOnce(h, payload, snapshot, acl).Ok?
    ensures var page := RunOnce(h, payload, snapshot, acl).value;
      var prior := Lookup(Decode(payload).value.entries);
      var current := Digests(h, Contents(snapshot));
      && page == PageFor(h, prior, Contents(snapshot))
      && Decode(page.proposal).Some?
      && Lookup(Decode(page.proposal).value.entries) == Patch(prior, current, Selected(prior, current))
  {
    hide Sound, Selected, Patch, Contents, Digests, Sorted, Lookup, Decode, Encode, Sort, ValidCheckpoint, Elements;
    var c := Decode(payload).value;
    DecodeSound(payload);
    LookupValid(c);
    var prior := Lookup(c.entries);
    var current := Digests(h, Contents(snapshot));
    var next := Patch(prior, current, Selected(prior, current));
    PatchValid(h, prior, snapshot, Selected(prior, current));
    SortedValid(next);
    CheckpointRoundTrip(Checkpoint(Sorted(next)));
    SortedLookup(next);
  }

  // ---- every run ------------------------------------------------------------------

  datatype Attempt = Attempt(snapshot: seq<VaultFile>, acl: Path -> bool)
  datatype State = State(payload: Json, held: Held)

  function Step(h: Hashes, st: State, a: Attempt): State {
    match RunOnce(h, st.payload, a.snapshot, a.acl)
    case Err(_) => st
    case Ok(page) => State(page.proposal, Apply(h, st.held, page))
  }

  function Sync(h: Hashes, st: State, attempts: seq<Attempt>): State {
    if attempts == [] then st else Step(h, Sync(h, st, attempts[..|attempts| - 1]), attempts[|attempts| - 1])
  }

  ghost predicate InStep(h: Hashes, st: State) {
    Decode(st.payload).Some? && Holds(h, st.held, Lookup(Decode(st.payload).value.entries))
  }

  function Start(): State { State(Encode(Checkpoint([])), map[]) }

  lemma StartInStep(h: Hashes)
    ensures InStep(h, Start())
  {
    hide Encode, Decode;
    var none: seq<Entry> := [];
    assert PathsOf(none) == [];
    var nobody: Entries := map[];
    assert Sorted(nobody) == none;
    SortedValid(nobody);
    CheckpointRoundTrip(Checkpoint(none));
  }

  lemma StepInStep(h: Hashes, st: State, a: Attempt)
    requires Sound(h) && InStep(h, st)
    ensures InStep(h, Step(h, st, a))
  {
    hide Sound, Holds, RunOnce, Apply, PageFor, Patch, Selected, Digests, Contents, Lookup, Decode;
    if RunOnce(h, st.payload, a.snapshot, a.acl).Ok? {
      ProposalLoads(h, st.payload, a.snapshot, a.acl);
      PageApplies(h, st.held, Lookup(Decode(st.payload).value.entries), Contents(a.snapshot));
    }
  }

  lemma {:induction false} KeepsInStep(h: Hashes, st: State, attempts: seq<Attempt>)
    requires Sound(h) && InStep(h, st)
    ensures InStep(h, Sync(h, st, attempts))
  {
    hide Sound, InStep, Step, ValidFiles;
    if attempts != [] {
      var n := |attempts| - 1;
      KeepsInStep(h, st, attempts[..n]);
      StepInStep(h, Sync(h, st, attempts[..n]), attempts[n]);
    }
  }

  /** Whatever the vault did between runs and whichever runs failed, the consumer holds exactly
      the loaded checkpoint's entries after every page. */
  lemma AlwaysInStep(h: Hashes, attempts: seq<Attempt>)
    requires Sound(h)
    ensures InStep(h, Sync(h, Start(), attempts))
  {
    hide Sound, InStep, ValidFiles, Sync;
    StartInStep(h);
    KeepsInStep(h, Start(), attempts);
  }

  // ---- catching up ----------------------------------------------------------------

  lemma {:induction false} DistinctCount<T>(s: seq<T>)
    requires Distinct(s)
    ensures |Elements(s)| == |s|
  {
    if s != [] {
      ElementsTail(s);
      DistinctCount(s[1..]);
    }
  }

  lemma DifferenceShrinks(prior: Entries, current: Entries)
    ensures var selected := Selected(prior, current);
      Difference(Patch(prior, current, selected), current) == Difference(prior, current) - Elements(selected)
  {
    hide Selected;
  }

  /** One page clears one hundred differences, or all that are left. */
  lemma PageClears(prior: Entries, current: Entries)
    ensures var d := |Difference(prior, current)|;
      |Difference(Patch(prior, current, Selected(prior, current)), current)| ==
          if d <= BATCH_SIZE then 0 else d - BATCH_SIZE
  {
    hide Selected, Difference, Patch, StrictlySorted;
    var selected := Selected(prior, current);
    DifferenceShrinks(prior, current);
    SelectedShape(prior, current);
    DistinctCount(selected);
    assert Elements(selected) <= Difference(prior, current);
  }

  function Repeat(a: Attempt, k: nat): seq<Attempt> {
    seq(k, _ => a)
  }

  ghost function Behind(h: Hashes, st: State, a: Attempt): nat
    requires Decode(st.payload).Some?
  {
    |Difference(Lookup(Decode(st.payload).value.entries), Digests(h, Contents(a.snapshot)))|
  }

  ghost predicate Restful(a: Attempt) {
    && ValidFiles(a.snapshot) && FilePaths(a.snapshot) == Sort(Elements(FilePaths(a.snapshot)))
    && forall p :: a.acl(p)
  }

  lemma StepClears(h: Hashes, st: State, a: Attempt)
    requires Sound(h) && Restful(a) && Decode(st.payload).Some?
    ensures var r := RunOnce(h, st.payload, a.snapshot, a.acl);
      && r.Ok? && (r.value.terminal <==> Behind(h, st, a) == 0)
      && Decode(Step(h, st, a).payload).Some?
      && Behind(h, Step(h, st, a), a) == if Behind(h, st, a) <= BATCH_SIZE then 0 else Behind(h, st, a) - BATCH_SIZE
  {
    hide Sound, ValidFiles, Decode, Lookup, Digests, Contents, Difference, Selected, Patch, Apply, Sort, Encode,
      Sorted, StrictlySorted;
    ProposalLoads(h, st.payload, a.snapshot, a.acl);
    var prior := Lookup(Decode(st.payload).value.entries);
    PageClears(prior, Digests(h, Contents(a.snapshot)));
    SelectedShape(prior, Digests(h, Contents(a.snapshot)));
  }

  ghost function Left(d: nat, k: nat): nat {
    if d <= k * BATCH_SIZE then 0 else d - k * BATCH_SIZE
  }

  lemma {:induction false} Remaining(h: Hashes, st: State, a: Attempt, k: nat)
    requires Sound(h) && Restful(a) && Decode(st.payload).Some?
    ensures Decode(Sync(h, st, Repeat(a, k)).payload).Some?
    ensures Behind(h, Sync(h, st, Repeat(a, k)), a) == Left(Behind(h, st, a), k)
    decreases k
  {
    hide Sound, Restful, Step, Decode, Behind;
    if k > 0 {
      var all := Repeat(a, k);
      assert all[..k - 1] == Repeat(a, k - 1) && all[k - 1] == a;
      Remaining(h, st, a, k - 1);
      StepClears(h, Sync(h, st, Repeat(a, k - 1)), a);
    }
  }

  /** Once the vault rests with `d` differences left, page `k + 1` is terminal if and only if
      `d <= 100 * k`: they are cleared in ceil(d / 100) pages and the next one is the first
      terminal page. From then on the consumer holds exactly the vault. */
  lemma CatchesUp(h: Hashes, st: State, a: Attempt, k: nat)
    requires Sound(h) && Restful(a) && InStep(h, st)
    ensures var at := Sync(h, st, Repeat(a, k));
      var r := RunOnce(h, at.payload, a.snapshot, a.acl);
      && r.Ok? && (r.value.terminal <==> Behind(h, st, a) <= k * BATCH_SIZE)
      && (r.value.terminal ==> Holds(h, at.held, Digests(h, Contents(a.snapshot))))
  {
    hide Sound, Holds, Behind, Decode, Digests, Contents, Lookup, RunOnce, ValidFiles;
    Remaining(h, st, a, k);
    var at := Sync(h, st, Repeat(a, k));
    StepClears(h, at, a);
    KeepsInStep(h, st, Repeat(a, k));
    if RunOnce(h, at.payload, a.snapshot, a.acl).value.terminal {
      NothingLeft(h, at, a);
    }
  }

  lemma NothingLeft(h: Hashes, st: State, a: Attempt)
    requires Decode(st.payload).Some? && Behind(h, st, a) == 0
    ensures Lookup(Decode(st.payload).value.entries) == Digests(h, Contents(a.snapshot))
  {
    hide Lookup, Decode, Digests, Contents;
    var x, y := Lookup(Decode(st.payload).value.entries), Digests(h, Contents(a.snapshot));
    assert Difference(x, y) == {};
    forall p | p in x.Keys + y.Keys ensures p in x && p in y && x[p] == y[p] {
      assert p !in Difference(x, y);
    }
    assert x.Keys == y.Keys;
  }
}
