/**
 The File connector: each run compares the vault with the loaded checkpoint and emits at most
 one hundred changes together with the checkpoint that results from them.
 */
module VaultSync {
  import opened Order
  import opened JsonValue
  import opened References

  type Path = string
  type Entries = map<Path, Digest>

  const BATCH_SIZE: nat := 100

  /** SHA-256: of content in hexadecimal, and of a path as a document reference. */
  datatype Hashes = Hashes(content: Bytes -> Digest, reference: Path -> string)

  ghost predicate Sound(h: Hashes) {
    && (forall c :: IsDigest(h.content(c)))
    && (forall p, q :: h.reference(p) == h.reference(q) ==> p == q)
  }

  // ---- checkpoint -----------------------------------------------------------------

  predicate IsCanonical(p: Path) {
    p != "" && !IsSpace(p[0]) && !IsSpace(p[|p| - 1])
  }

  datatype Entry = Entry(path: Path, digest: Digest)
  datatype Checkpoint = Checkpoint(entries: seq<Entry>)

  function PathsOf(entries: seq<Entry>): seq<Path> {
    seq(|entries|, i requires 0 <= i < |entries| => entries[i].path)
  }

  /** `FileCheckpoint.__post_init__`. */
  predicate ValidCheckpoint(c: Checkpoint) {
    && (forall i | 0 <= i < |c.entries| :: IsCanonical(c.entries[i].path) && IsDigest(c.entries[i].digest))
    && PathsOf(c.entries) == Sort(Elements(PathsOf(c.entries)))
  }

  function Encode(c: Checkpoint): Json {
    Object(map["entries" := List(seq(|c.entries|, i requires 0 <= i < |c.entries| =>
                                     List([Text(c.entries[i].path), Text(c.entries[i].digest)]))),
               "version" := Int(1)])
  }

  /** Python compares `True` and `1.0` equal to 1. */
  predicate IsOne(v: Json) {
    v == Int(1) || v == Bool(true) || v == Float(1.0)
  }

  /** Two leading strings; whatever follows them in the list is ignored. */
  predicate IsPair(v: Json) {
    v.List? && |v.items| >= 2 && v.items[0].Text? && v.items[1].Text?
  }

  function EntriesOf(items: seq<Json>): seq<Entry>
    requires forall i | 0 <= i < |items| :: IsPair(items[i])
  {
    seq(|items|, i requires 0 <= i < |items| && IsPair(items[i]) =>
        Entry(items[i].items[0].text, items[i].items[1].text))
  }

  /** `decode_file_checkpoint`, from the parsed payload. */
  function Decode(v: Json): Option<Checkpoint> {
    if !HasExactly(v, {"entries", "version"}) || !IsOne(v.fields["version"]) || !v.fields["entries"].List? then None
    else
      var items := v.fields["entries"].items;
      if exists i | 0 <= i < |items| :: !IsPair(items[i]) then None
      else
        var c := Checkpoint(EntriesOf(items));
        if ValidCheckpoint(c) then Some(c) else None
  }

  lemma CheckpointRoundTrip(c: Checkpoint)
    ensures Decode(Encode(c)) == if ValidCheckpoint(c) then Some(c) else None
  {
    hide ValidCheckpoint;
    var items := Encode(c).fields["entries"].items;
    assert EntriesOf(items) == c.entries;
  }

  /** What decodes is valid, and encoding it again is a fixed point. */
  lemma DecodeSound(v: Json)
    requires Decode(v).Some?
    ensures ValidCheckpoint(Decode(v).value) && Decode(Encode(Decode(v).value)) == Decode(v)
  {
    hide ValidCheckpoint, Encode;
    CheckpointRoundTrip(Decode(v).value);
  }

  /** Among the accepted payloads the encoder's own are exactly those whose version is the integer 1
      and whose entries are pairs and no more. */
  lemma DecodeCanonical(v: Json)
    requires Decode(v).Some?
    ensures var items := v.fields["entries"].items;
      v == Encode(Decode(v).value) <==>
      v.fields["version"] == Int(1) && forall i | 0 <= i < |items| :: |items[i].items| == 2
  {
    hide ValidCheckpoint;
    var items := v.fields["entries"].items;
    var c := Decode(v).value;
    var back := Encode(c).fields["entries"].items;
    assert |back| == |items|;
    assert forall i | 0 <= i < |items| :: back[i] == List([Text(items[i].items[0].text), Text(items[i].items[1].text)]);
    if v.fields["version"] == Int(1) && forall i | 0 <= i < |items| :: |items[i].items| == 2 {
      forall i | 0 <= i < |items| ensures back[i] == items[i] {
        assert items[i].items == [items[i].items[0], items[i].items[1]];
      }
      assert back == items;
      assert v.fields == Encode(c).fields;
    }
  }

  function WithVersion(c: Checkpoint, version: Json): Json {
    Object(Encode(c).fields["version" := version])
  }

  /** The checkpoint with something appended to its first entry. */
  function WithExtra(c: Checkpoint, extra: Json): Json
    requires c.entries != []
  {
    var items := Encode(c).fields["entries"].items;
    Object(Encode(c).fields["entries" := List(items[0 := List(items[0].items + [extra])])])
  }

  /** Payloads that the encoder never writes and the decoder reads as a valid checkpoint. */
  lemma DecoderWider(c: Checkpoint, extra: Json)
    requires ValidCheckpoint(c)
    ensures forall one | one in {Bool(true), Float(1.0)} ::
              Decode(WithVersion(c, one)) == Some(c) && WithVersion(c, one) != Encode(c)
    ensures c.entries != [] ==> Decode(WithExtra(c, extra)) == Some(c) && WithExtra(c, extra) != Encode(c)
  {
    hide ValidCheckpoint;
    var items := Encode(c).fields["entries"].items;
    assert EntriesOf(items) == c.entries;
    forall one | one in {Bool(true), Float(1.0)}
      ensures Decode(WithVersion(c, one)) == Some(c) && WithVersion(c, one) != Encode(c)
    {
      assert WithVersion(c, one).fields["entries"].items == items;
      assert WithVersion(c, one).fields["version"] != Encode(c).fields["version"];
    }
    if c.entries != [] {
      var more := WithExtra(c, extra).fields["entries"].items;
      assert |more[0].items| == 3 && |items[0].items| == 2;
      assert EntriesOf(more) == c.entries;
      assert more != items;
    }
  }

  function Lookup(entries: seq<Entry>): Entries {
    if entries == [] then map[]
    else Lookup(entries[..|entries| - 1])[entries[|entries| - 1].path := entries[|entries| - 1].digest]
  }

  /** The entries of a map, sorted by path. */
  function Sorted(m: Entries): seq<Entry> {
    var paths := Sort(m.Keys);
    assert forall i | 0 <= i < |paths| :: paths[i] in Elements(paths);
    seq(|paths|, i requires 0 <= i < |paths| => Entry(paths[i], m[paths[i]]))
  }

  lemma {:induction false} LookupAt(entries: seq<Entry>, p: Path)
    requires Distinct(PathsOf(entries))
    ensures p in Lookup(entries) <==> exists i :: 0 <= i < |entries| && entries[i].path == p
    ensures forall i | 0 <= i < |entries| && entries[i].path == p ::
            p in Lookup(entries) && Lookup(entries)[p] == entries[i].digest
  {
    if entries != [] {
      var n := |entries| - 1;
      var init := entries[..n];
      assert forall i | 0 <= i < n :: PathsOf(init)[i] == PathsOf(entries)[i];
      LookupAt(init, p);
      assert forall i | 0 <= i < n :: init[i] == entries[i];
      forall i | 0 <= i < n ensures entries[i].path != entries[n].path {
        assert PathsOf(entries)[i] != PathsOf(entries)[n];
      }
    }
  }

  lemma SortedLookup(m: Entries)
    ensures PathsOf(Sorted(m)) == Sort(m.Keys) && Lookup(Sorted(m)) == m
  {
    hide Sort, Less, StrictlySorted;
    var paths := Sort(m.Keys);
    var entries := Sorted(m);
    assert forall i | 0 <= i < |paths| :: paths[i] in Elements(paths);
    assert PathsOf(entries) == paths;
    StrictlySortedDistinct(paths);
    forall p ensures p in Lookup(entries) <==> p in m
             ensures p in m ==> p in Lookup(entries) && Lookup(entries)[p] == m[p]
    {
      LookupAt(entries, p);
      if p in m {
        assert p in Elements(paths);
        var i :| 0 <= i < |paths| && paths[i] == p;
        assert entries[i].path == p && entries[i].digest == m[p];
      }
    }
    assert Lookup(entries).Keys == m.Keys;
  }

  ghost predicate ValidEntries(m: Entries) {
    forall p | p in m :: IsCanonical(p) && IsDigest(m[p])
  }

  lemma SortedValid(m: Entries)
    requires ValidEntries(m)
    ensures ValidCheckpoint(Checkpoint(Sorted(m)))
  {
    hide Sort, Less, StrictlySorted, IsDigest, IsCanonical, Lookup;
    SortedLookup(m);
    var paths := Sort(m.Keys);
    assert forall i | 0 <= i < |paths| :: paths[i] in Elements(paths);
  }

  lemma LookupValid(c: Checkpoint)
    requires ValidCheckpoint(c)
    ensures ValidEntries(Lookup(c.entries))
  {
    hide Sort, Less, IsDigest, IsCanonical, Lookup, StrictlySorted;
    StrictlySortedDistinct(PathsOf(c.entries));
    forall p | p in Lookup(c.entries) ensures IsCanonical(p) && IsDigest(Lookup(c.entries)[p]) {
      LookupAt(c.entries, p);
    }
  }

  // ---- one run --------------------------------------------------------------------

  datatype VaultFile = VaultFile(path: Path, content: Bytes)

  /** `VaultSnapshotEntry` construction. */
  predicate ValidFile(f: VaultFile) {
    IsCanonical(f.path) && f.content != []
  }

  predicate ValidFiles(snapshot: seq<VaultFile>) {
    forall i | 0 <= i < |snapshot| :: ValidFile(snapshot[i])
  }

  function FilePaths(snapshot: seq<VaultFile>): seq<Path> {
    seq(|snapshot|, i requires 0 <= i < |snapshot| => snapshot[i].path)
  }

  function Contents(snapshot: seq<VaultFile>): map<Path, Bytes> {
    if snapshot == [] then map[]
    else Contents(snapshot[..|snapshot| - 1])[snapshot[|snapshot| - 1].path := snapshot[|snapshot| - 1].content]
  }

  function Digests(h: Hashes, contents: map<Path, Bytes>): Entries {
    map p | p in contents :: h.content(contents[p])
  }

  predicate Differs(a: Entries, b: Entries, p: Path) {
    !(p in a && p in b && a[p] == b[p]) && (p in a || p in b)
  }

  function Difference(a: Entries, b: Entries): set<Path> {
    set p | p in a.Keys + b.Keys && Differs(a, b, p)
  }

  /** The differing paths among `paths`, in their order. */
  function Differing(paths: seq<Path>, a: Entries, b: Entries): seq<Path> {
    if paths == [] then []
    else Differing(paths[..|paths| - 1], a, b) + if Differs(a, b, paths[|paths| - 1]) then [paths[|paths| - 1]] else []
  }

  lemma {:induction false} DifferingKeeps(paths: seq<Path>, a: Entries, b: Entries)
    requires StrictlySorted(paths)
    ensures StrictlySorted(Differing(paths, a, b))
    ensures forall p :: p in Differing(paths, a, b) <==> p in paths && Differs(a, b, p)
  {
    hide Less, Differs;
    if paths != [] {
      var n := |paths| - 1;
      var init := paths[..n];
      DifferingKeeps(init, a, b);
      assert paths == init + [paths[n]];
      var d := Differing(init, a, b);
      forall i | 0 <= i < |d| ensures Less(d[i], paths[n]) {
        assert d[i] in init;
      }
    }
  }

  function Changed(a: Entries, b: Entries): seq<Path> {
    Differing(Sort(a.Keys + b.Keys), a, b)
  }

  /** The changed paths are exactly the difference, each once, in canonical order. */
  lemma ChangedIsDifference(a: Entries, b: Entries)
    ensures Changed(a, b) == Sort(Difference(a, b))
    ensures |Changed(a, b)| == |Difference(a, b)|
  {
    hide Sort, Less, StrictlySorted, Differing;
    var paths := Sort(a.Keys + b.Keys);
    DifferingKeeps(paths, a, b);
    var d := Changed(a, b);
    assert forall p :: p in paths <==> p in Elements(paths);
    assert Elements(d) == Difference(a, b);
    StrictlySortedUnique(d, Sort(Difference(a, b)));
  }

  function Selected(a: Entries, b: Entries): seq<Path> {
    var changed := Changed(a, b);
    if |changed| <= BATCH_SIZE then changed else changed[..BATCH_SIZE]
  }

  /** `prior` with the selected paths brought up to `current`. */
  function Patch(prior: Entries, current: Entries, selected: seq<Path>): Entries {
    map p | p in prior.Keys + current.Keys && (if p in selected then p in current else p in prior)
      :: if p in selected then current[p] else prior[p]
  }

  datatype Document = Document(reference: string, content: Bytes, digest: Digest, path: Path)

  datatype Page = Page(documents: seq<Document>, deleted: seq<string>, proposal: Json, terminal: bool)

  datatype Error = NotLoaded | InvalidCheckpoint | InvalidSnapshot | UnsortedSnapshot | PermissionFailed
  datatype Result<+T> = Ok(value: T) | Err(error: Error)

  function Upserts(h: Hashes, contents: map<Path, Bytes>, selected: seq<Path>): seq<Document> {
    if selected == [] then []
    else
      var p := selected[|selected| - 1];
      Upserts(h, contents, selected[..|selected| - 1]) +
      if p in contents then [Document(h.reference(p), contents[p], h.content(contents[p]), p)] else []
  }

  function Deletes(h: Hashes, contents: map<Path, Bytes>, selected: seq<Path>): seq<string> {
    if selected == [] then []
    else
      var p := selected[|selected| - 1];
      Deletes(h, contents, selected[..|selected| - 1]) + if p in contents then [] else [h.reference(p)]
  }

  function PageFor(h: Hashes, prior: Entries, contents: map<Path, Bytes>): Page {
    var selected := Selected(prior, Digests(h, contents));
    Page(Upserts(h, contents, selected), Deletes(h, contents, selected),
         Encode(Checkpoint(Sorted(Patch(prior, Digests(h, contents), selected)))), selected == [])
  }

  /** One connector run from a payload: `_generate` through the runner. A snapshot with an entry that
      cannot be constructed raises before anything is compared. */
  function RunOnce(h: Hashes, payload: Json, snapshot: seq<VaultFile>, acl: Path -> bool): Result<Page> {
    var prior := Decode(payload);
    if prior.None? then Err(InvalidCheckpoint)
    else if !ValidFiles(snapshot) then Err(InvalidSnapshot)
    else if FilePaths(snapshot) != Sort(Elements(FilePaths(snapshot))) then Err(UnsortedSnapshot)
    else
      var entries := Lookup(prior.value.entries);
      var selected := Selected(entries, Digests(h, Contents(snapshot)));
      if exists i | 0 <= i < |selected| :: !acl(selected[i]) then Err(PermissionFailed)
      else Ok(PageFor(h, entries, Contents(snapshot)))
  }

  lemma PatchStep(prior: Entries, current: Entries, selected: seq<Path>, p: Path)
    requires p in prior.Keys + current.Keys && p !in selected
    ensures var before := Patch(prior, current, selected);
      Patch(prior, current, selected + [p]) == if p in current then before[p := current[p]] else before - {p}
  {
  }

  lemma PatchNothing(prior: Entries, current: Entries)
    ensures Patch(prior, current, []) == prior
  {
  }

  class FileConnectorAdapter {
    const hashes: Hashes
    var checkpoint: Option<Json>
    var emittedPages: seq<Page>
    var lastEmittedPage: Option<Page>

    constructor (hashes: Hashes)
      ensures this.hashes == hashes && checkpoint == None && emittedPages == [] && lastEmittedPage == None
    {
      this.hashes := hashes;
      checkpoint, emittedPages, lastEmittedPage := None, [], None;
    }

    method LoadCheckpoint(payload: Option<Json>) returns (ok: bool)
      modifies this`checkpoint, this`lastEmittedPage
      ensures lastEmittedPage == None
      ensures ok <==> payload.None? || Decode(payload.value).Some?
      ensures checkpoint ==
              if !ok then old(checkpoint) else if payload.None? then Some(Encode(Checkpoint([]))) else payload
    {
      lastEmittedPage := None;
      if payload.None? {
        checkpoint, ok := Some(Encode(Checkpoint([]))), true;
      } else if Decode(payload.value).Some? {
        checkpoint, ok := payload, true;
      } else {
        ok := false;
      }
    }

    /** The generator's loop: bring the selected paths up to date one by one. */
    method Generate(prior: Entries, contents: map<Path, Bytes>, selected: seq<Path>, acl: Path -> bool)
      returns (ok: bool, documents: seq<Document>, deleted: seq<string>, next: Entries)
      requires forall i | 0 <= i < |selected| :: selected[i] in prior.Keys + contents.Keys
      requires forall i, j | 0 <= i < j < |selected| :: selected[i] != selected[j]
      ensures ok <==> forall i | 0 <= i < |selected| :: acl(selected[i])
      ensures ok ==> documents == Upserts(hashes, contents, selected) && deleted == Deletes(hashes, contents, selected)
      ensures ok ==> next == Patch(prior, Digests(hashes, contents), selected)
    {
      hide Patch;
      documents, deleted, next := [], [], prior;
      ghost var current := Digests(hashes, contents);
      PatchNothing(prior, current);
      for i := 0 to |selected|
        invariant documents == Upserts(hashes, contents, selected[..i])
        invariant deleted == Deletes(hashes, contents, selected[..i])
        invariant next == Patch(prior, current, selected[..i])
        invariant forall j | 0 <= j < i :: acl(selected[j])
      {
        var p := selected[i];
        if !acl(p) {
          return false, documents, deleted, next;
        }
        assert selected[..i + 1] == selected[..i] + [p];
        assert selected[..i + 1][..i] == selected[..i];
        PatchStep(prior, current, selected[..i], p);
        if p !in contents {
          next := next - {p};
          deleted := deleted + [hashes.reference(p)];
        } else {
          next := next[p := hashes.content(contents[p])];
          documents := documents + [Document(hashes.reference(p), contents[p], hashes.content(contents[p]), p)];
        }
      }
      assert selected[..|selected|] == selected;
      ok := true;
    }

    /** `load` and `poll`: run from the loaded checkpoint, which only a later load advances. */
    method Run(snapshot: seq<VaultFile>, acl: Path -> bool) returns (r: Result<Page>)
      modifies this`emittedPages, this`lastEmittedPage
      ensures r == if checkpoint.None? then Err(NotLoaded) else RunOnce(hashes, checkpoint.value, snapshot, acl)
      ensures r.Ok? ==> emittedPages == old(emittedPages) + [r.value] && lastEmittedPage == Some(r.value)
      ensures r.Err? ==> emittedPages == old(emittedPages) && lastEmittedPage == old(lastEmittedPage)
    {
      hide Decode, Encode, Sorted, Patch, Sort, Selected, StrictlySorted, Upserts, Deletes, Lookup, Contents,
        Digests, Elements;
      if checkpoint.None? {
        return Err(NotLoaded);
      }
      var prior := Decode(checkpoint.value);
      if prior.None? {
        return Err(InvalidCheckpoint);
      }
      if !ValidFiles(snapshot) {
        return Err(InvalidSnapshot);
      }
      if FilePaths(snapshot) != Sort(Elements(FilePaths(snapshot))) {
        return Err(UnsortedSnapshot);
      }
      var entries := Lookup(prior.value.entries);
      var contents := Contents(snapshot);
      var selected := Selected(entries, Digests(hashes, contents));
      SelectedUsable(entries, hashes, contents);
      var ok, documents, deleted, next := Generate(entries, contents, selected, acl);
      if !ok {
        return Err(PermissionFailed);
      }
      EmptyPage(hashes, contents, selected);
      var page := Page(documents, deleted, Encode(Checkpoint(Sorted(next))), documents == [] && deleted == []);
      emittedPages := emittedPages + [page];
      lastEmittedPage := Some(page);
      r := Ok(page);
    }
  }

  lemma SelectedShape(a: Entries, b: Entries)
    ensures var selected := Selected(a, b);
      && StrictlySorted(selected) && Distinct(selected)
      && (forall i | 0 <= i < |selected| :: selected[i] in Difference(a, b))
      && |selected| == if |Difference(a, b)| <= BATCH_SIZE then |Difference(a, b)| else BATCH_SIZE
  {
    hide Sort, Less, Changed, Difference;
    ChangedIsDifference(a, b);
    var changed := Changed(a, b);
    assert forall p :: p in changed <==> p in Elements(changed);
    StrictlySortedDistinct(Selected(a, b));
  }

  lemma SelectedUsable(prior: Entries, h: Hashes, contents: map<Path, Bytes>)
    ensures var selected := Selected(prior, Digests(h, contents));
      && (forall i | 0 <= i < |selected| :: selected[i] in prior.Keys + contents.Keys)
      && (forall i, j | 0 <= i < j < |selected| :: selected[i] != selected[j])
  {
    hide Selected, StrictlySorted;
    SelectedShape(prior, Digests(h, contents));
  }

  lemma {:induction false} EmptyPage(h: Hashes, contents: map<Path, Bytes>, selected: seq<Path>)
    ensures |Upserts(h, contents, selected)| + |Deletes(h, contents, selected)| == |selected|
  {
    if selected != [] {
      EmptyPage(h, contents, selected[..|selected| - 1]);
    }
  }
}
