/**
 The Feishu twin fixture at the level of parsed JSON: what the serializer writes, the offline
 runner's parser reads back, for every kind of reply.
 */
module TwinFixture {
  import opened Order
  import opened JsonValue
  import opened References
  import opened Opaque
  import opened GroupFlattening
  import opened FeishuAcl

  type Time = nat

  /** ISO 8601 text of UTC timestamps. */
  datatype Clock = Clock(format: Time -> string, parse: string -> Option<Time>)

  ghost predicate Reads(clock: Clock) {
    forall t: Time :: clock.parse(clock.format(t)) == Some(t)
  }

  const MAX_ITEMS: nat := 100
  const MAX_RETRY: int := 3600

  // ---- facts ----------------------------------------------------------------------

  datatype Document = Document(ref: string, revision: string, content: seq<Byte>)
  datatype Deletion = Deletion(ref: string, at: Time)

  datatype PageReply =
    | ChangePage(documents: seq<Document>, deletions: seq<Deletion>, next: Option<string>, checkpoint: string)
    | PageRateLimited(seconds: int)
    | PageError

  datatype AclReply =
    | AclResolved(visibility: Visibility, subjects: seq<Subject>, at: Time)
    | AclFailed(at: Time)
    | AclRateLimited(seconds: int)
    | AclError

  datatype IdentityReply = IdentityMapping(principal: Option<string>) | IdentityError

  datatype GroupNode = GroupNode(ref: string, node: Node)
  datatype GroupReply = GroupSnapshot(version: string, nodes: seq<GroupNode>, at: Time) | GroupError

  /** Replies are keyed by the page token, document or identity they answer for. */
  datatype Fixture = Fixture(pages: map<Option<string>, PageReply>, acls: map<string, AclReply>,
                             identities: map<string, IdentityReply>, groups: GroupReply)

  // ---- construction checks --------------------------------------------------------

  predicate OptionalRef(x: Option<string>) {
    x.Some? ==> IsRef(x.value)
  }

  predicate ValidDocument(d: Document) {
    IsRef(d.ref) && IsRef(d.revision) && d.content != []
  }

  function DocumentRefs(ds: seq<Document>): seq<string> {
    seq(|ds|, i requires 0 <= i < |ds| => ds[i].ref)
  }

  function DeletionRefs(ds: seq<Deletion>): seq<string> {
    seq(|ds|, i requires 0 <= i < |ds| => ds[i].ref)
  }

  predicate ValidPage(p: PageReply) {
    match p
    case ChangePage(documents, deletions, next, checkpoint) =>
      && (forall i | 0 <= i < |documents| :: ValidDocument(documents[i]))
      && (forall i | 0 <= i < |deletions| :: IsRef(deletions[i].ref))
      && |documents| + |deletions| <= MAX_ITEMS
      && StrictlySorted(DocumentRefs(documents)) && StrictlySorted(DeletionRefs(deletions))
      && Elements(DocumentRefs(documents)) !! Elements(DeletionRefs(deletions))
      && OptionalRef(next) && IsRef(checkpoint)
    case PageRateLimited(seconds) => 1 <= seconds <= MAX_RETRY
    case PageError => true
  }

  predicate ValidAcl(a: AclReply) {
    match a
    case AclResolved(_, subjects, _) => ValidSubjects(subjects)
    case AclRateLimited(seconds) => 1 <= seconds <= MAX_RETRY
    case _ => true
  }

  predicate ValidIdentity(m: IdentityReply) {
    m.IdentityMapping? ==> OptionalRef(m.principal)
  }

  /** The source tests `xs == sorted(set(xs))`, here and for every other list of references; by
      `Order.SortedTestExact` that is strict order. */
  predicate ValidRefs(xs: seq<string>) {
    (forall i | 0 <= i < |xs| :: IsRef(xs[i])) && StrictlySorted(xs)
  }

  predicate ValidNode(g: GroupNode) {
    IsRef(g.ref) && OptionalRef(g.node.localGroup) && ValidRefs(g.node.identities) && ValidRefs(g.node.children)
  }

  function NodeRefs(gs: seq<GroupNode>): seq<string> {
    seq(|gs|, i requires 0 <= i < |gs| => gs[i].ref)
  }

  predicate ValidGroups(g: GroupReply) {
    g.GroupSnapshot? ==>
      && IsRef(g.version) && StrictlySorted(NodeRefs(g.nodes))
      && forall i | 0 <= i < |g.nodes| :: ValidNode(g.nodes[i])
  }

  predicate ValidFixture(x: Fixture) {
    && (forall t | t in x.pages :: OptionalRef(t) && ValidPage(x.pages[t]))
    && (forall r | r in x.acls :: IsRef(r) && ValidAcl(x.acls[r]))
    && (forall r | r in x.identities :: IsRef(r) && ValidIdentity(x.identities[r]))
    && ValidGroups(x.groups)
  }

  // ---- standard base64 content ----------------------------------------------------

  /** Section 4 of RFC 4648: `+` and `/` instead of `-` and `_`, padded. */
  function StandardChar(x: Sextet): char {
    if CharOf(x) == '-' then '+' else if CharOf(x) == '_' then '/' else CharOf(x)
  }

  predicate InStandard(c: char) {
    c == '+' || c == '/' || (InAlphabet(c) && c != '-' && c != '_')
  }

  function StandardValue(c: char): Sextet
    requires InStandard(c)
  {
    SextetOf(if c == '+' then '-' else if c == '/' then '_' else c)
  }

  function ToBase64(b: seq<Byte>): string {
    var x := Sextets(b);
    seq(|x|, i requires 0 <= i < |x| => StandardChar(x[i])) + Pad(PadCount(|x|))
  }

  function FromBase64(s: string): Option<seq<Byte>> {
    var body := Strip(s);
    if |s| % 4 != 0 || |s| > |body| + 2 || exists i | 0 <= i < |body| :: !InStandard(body[i]) then None
    else Some(Octets(seq(|body|, i requires 0 <= i < |body| && InStandard(body[i]) => StandardValue(body[i]))))
  }

  lemma StandardExact(x: Sextet)
    ensures InStandard(StandardChar(x)) && StandardValue(StandardChar(x)) == x && StandardChar(x) != '='
  {
    AlphabetExact(x, 'A');
  }

  lemma Base64RoundTrip(b: seq<Byte>)
    ensures FromBase64(ToBase64(b)) == Some(b)
  {
    hide Sextets, Octets, StandardChar, StandardValue, InStandard;
    var x := Sextets(b);
    var body := seq(|x|, i requires 0 <= i < |x| => StandardChar(x[i]));
    forall i | 0 <= i < |x|
      ensures InStandard(body[i]) && StandardValue(StandardChar(x[i])) == x[i] && body[i] != '='
    {
      StandardExact(x[i]);
    }
    OctetsInvert(b);
    StripPad(body, PadCount(|x|));
    hide Strip;
    assert seq(|body|, i requires 0 <= i < |body| && InStandard(body[i]) => StandardValue(body[i])) == x;
  }

  // ---- lists ----------------------------------------------------------------------

  /** Every element parses, or the list does not. */
  function ParseAll<T>(f: Json -> Option<T>, items: seq<Json>): Option<seq<T>> {
    if items == [] then Some([])
    else
      var before, last := ParseAll(f, items[..|items| - 1]), f(items[|items| - 1]);
      if before.None? || last.None? then None else Some(before.value + [last.value])
  }

  lemma {:induction false} ParseAllInverts<T>(f: Json -> Option<T>, items: seq<Json>, xs: seq<T>)
    requires |items| == |xs| && forall i | 0 <= i < |xs| :: f(items[i]) == Some(xs[i])
    ensures ParseAll(f, items) == Some(xs)
  {
    if xs != [] {
      var n := |xs| - 1;
      ParseAllInverts(f, items[..n], xs[..n]);
      assert xs == xs[..n] + [xs[n]];
    }
  }

  function Optional(x: Option<string>): Json {
    if x.None? then Null else Text(x.value)
  }

  /** Outer None: neither null nor a reference. */
  function ParseOptionalRef(v: Json): Option<Option<string>> {
    if v.Null? then Some(None) else if v.Text? && IsRef(v.text) then Some(Some(v.text)) else None
  }

  function ParseRef(v: Json): Option<string> {
    if v.Text? && IsRef(v.text) then Some(v.text) else None
  }

  function ParseTime(clock: Clock, v: Json): Option<Time> {
    if v.Text? then clock.parse(v.text) else None
  }

  predicate Says(v: Json, field: string, text: string) {
    v.Object? && field in v.fields && v.fields[field] == Text(text)
  }

  // ---- pages ----------------------------------------------------------------------

  function WriteDocument(d: Document): Json {
    Object(map["content" := Text(ToBase64(d.content)), "document_ref" := Text(d.ref),
               "revision_ref" := Text(d.revision)])
  }

  function ReadDocument(v: Json): Option<Document> {
    if !HasExactly(v, {"content", "document_ref", "revision_ref"}) then None
    else
      var ref, revision := ParseRef(v.fields["document_ref"]), ParseRef(v.fields["revision_ref"]);
      if ref.None? || revision.None? || !v.fields["content"].Text? then None
      else
        var content := FromBase64(v.fields["content"].text);
        if content.None? || content.value == [] then None else Some(Document(ref.value, revision.value, content.value))
  }

  function WriteDeletion(clock: Clock, d: Deletion): Json {
    Object(map["document_ref" := Text(d.ref), "observed_at" := Text(clock.format(d.at))])
  }

  function ReadDeletion(clock: Clock, v: Json): Option<Deletion> {
    if !HasExactly(v, {"document_ref", "observed_at"}) then None
    else
      var ref, at := ParseRef(v.fields["document_ref"]), ParseTime(clock, v.fields["observed_at"]);
      if ref.None? || at.None? then None else Some(Deletion(ref.value, at.value))
  }

  function WritePage(clock: Clock, token: Option<string>, p: PageReply): Json {
    match p
    case PageRateLimited(seconds) =>
      Object(map["page_token" := Optional(token), "outcome" := Text("rate_limited"),
                 "retry_after_seconds" := Int(seconds)])
    case PageError => Object(map["page_token" := Optional(token), "outcome" := Text("source_error")])
    case ChangePage(documents, deletions, next, checkpoint) =>
      Object(map["checkpoint_token" := Text(checkpoint),
                 "deleted_documents" := List(seq(|deletions|, i requires 0 <= i < |deletions| =>
                                                 WriteDeletion(clock, deletions[i]))),
                 "documents" := List(seq(|documents|, i requires 0 <= i < |documents| => WriteDocument(documents[i]))),
                 "next_page_token" := Optional(next), "outcome" := Text("page"), "page_token" := Optional(token)])
  }

  function ReadRetry(v: Json): Option<int> {
    if v.Int? && 1 <= v.number <= MAX_RETRY then Some(v.number) else None
  }

  const ChangePageFields: set<string> := {"checkpoint_token", "deleted_documents", "documents", "next_page_token",
                                          "outcome", "page_token"}

  function ReadChangePage(clock: Clock, v: Json): Option<PageReply> {
    if !HasExactly(v, ChangePageFields) then None
    else if !v.fields["documents"].List? || !v.fields["deleted_documents"].List? then None
    else
      var documents := ParseAll(ReadDocument, v.fields["documents"].items);
      var deletions := ParseAll((x: Json) => ReadDeletion(clock, x), v.fields["deleted_documents"].items);
      var next, checkpoint := ParseOptionalRef(v.fields["next_page_token"]), ParseRef(v.fields["checkpoint_token"]);
      if documents.None? || deletions.None? || next.None? || checkpoint.None? then None
      else
        var page := ChangePage(documents.value, deletions.value, next.value, checkpoint.value);
        if ValidPage(page) then Some(page) else None
  }

  function ReadPage(clock: Clock, v: Json): Option<(Option<string>, PageReply)> {
    if !v.Object? then None
    else
      var token := if "page_token" in v.fields then ParseOptionalRef(v.fields["page_token"]) else Some(None);
      if token.None? then None
      else if Says(v, "outcome", "rate_limited") then
        if !HasExactly(v, {"outcome", "page_token", "retry_after_seconds"}) then None
        else
          var retry := ReadRetry(v.fields["retry_after_seconds"]);
          if retry.None? then None else Some((token.value, PageRateLimited(retry.value)))
      else if Says(v, "outcome", "source_error") then
        if !HasExactly(v, {"outcome", "page_token"}) then None else Some((token.value, PageError))
      else if !Says(v, "outcome", "page") then None
      else
        var page := ReadChangePage(clock, v);
        if page.None? then None else Some((token.value, page.value))
  }

  lemma DocumentInverts(d: Document)
    requires ValidDocument(d)
    ensures ReadDocument(WriteDocument(d)) == Some(d)
  {
    hide IsRef, FromBase64, ToBase64;
    Base64RoundTrip(d.content);
    assert WriteDocument(d).fields.Keys == {"content", "document_ref", "revision_ref"};
  }

  lemma DeletionInverts(clock: Clock, d: Deletion)
    requires Reads(clock) && IsRef(d.ref)
    ensures ReadDeletion(clock, WriteDeletion(clock, d)) == Some(d)
  {
    hide IsRef;
    assert WriteDeletion(clock, d).fields.Keys == {"document_ref", "observed_at"};
  }

  lemma ChangePageInverts(clock: Clock, token: Option<string>, p: PageReply)
    requires Reads(clock) && ValidPage(p) && p.ChangePage?
    ensures ReadChangePage(clock, WritePage(clock, token, p)) == Some(p)
  {
    hide IsRef, ValidDocument, StrictlySorted, ReadDocument, WriteDocument, ReadDeletion, WriteDeletion, ParseAll,
      Elements;
    var v := WritePage(clock, token, p);
    assert v.fields.Keys == ChangePageFields;
    var docs, dels := v.fields["documents"].items, v.fields["deleted_documents"].items;
    forall i | 0 <= i < |docs| ensures ReadDocument(docs[i]) == Some(p.documents[i]) {
      DocumentInverts(p.documents[i]);
    }
    ParseAllInverts(ReadDocument, docs, p.documents);
    var read := (x: Json) => ReadDeletion(clock, x);
    forall i | 0 <= i < |dels| ensures read(dels[i]) == Some(p.deletions[i]) {
      DeletionInverts(clock, p.deletions[i]);
    }
    ParseAllInverts(read, dels, p.deletions);
    hide ValidPage, DocumentRefs, DeletionRefs;
  }

  lemma PageInverts(clock: Clock, token: Option<string>, p: PageReply)
    requires Reads(clock) && OptionalRef(token) && ValidPage(p)
    ensures ReadPage(clock, WritePage(clock, token, p)) == Some((token, p))
  {
    hide IsRef, ReadChangePage;
    var v := WritePage(clock, token, p);
    OutcomesDiffer();
    match p
    case PageRateLimited(_) =>
      assert v.fields.Keys == {"outcome", "page_token", "retry_after_seconds"};
    case PageError =>
      assert v.fields.Keys == {"outcome", "page_token"};
    case ChangePage(_, _, _, _) =>
      ChangePageInverts(clock, token, p);
      hide ValidPage;
  }

  lemma OutcomesDiffer()
    ensures "rate_limited" != "source_error" && "rate_limited" != "page" && "source_error" != "page"
    ensures "rate_limited" != "observation" && "source_error" != "observation"
    ensures "source_error" != "mapping" && "source_error" != "snapshot" && "failed" != "resolved"
  {
    assert "rate_limited"[0] != "source_error"[0] && "source_error"[1] != "snapshot"[1];
  }

  // ---- ACL observations -----------------------------------------------------------

  function KindText(k: SubjectKind): string {
    match k case Group => "group" case User => "user"
  }

  function VisibilityText(v: Visibility): string {
    match v case PrivateVisibility => "private" case OrganizationVisibility => "organization"
  }

  function ReadVisibility(v: Json): Option<Visibility> {
    if v == Text("private") then Some(PrivateVisibility)
    else if v == Text("organization") then Some(OrganizationVisibility)
    else None
  }

  function WriteSubject(s: Subject): Json {
    Object(map["external_ref" := Text(s.ref), "kind" := Text(KindText(s.kind))])
  }

  function ReadSubject(v: Json): Option<Subject> {
    if !HasExactly(v, {"external_ref", "kind"}) then None
    else
      var ref := ParseRef(v.fields["external_ref"]);
      if ref.None? then None
      else if v.fields["kind"] == Text("group") then Some(Subject(Group, ref.value))
      else if v.fields["kind"] == Text("user") then Some(Subject(User, ref.value))
      else None
  }

  function WriteAcl(clock: Clock, ref: string, a: AclReply): Json {
    match a
    case AclRateLimited(seconds) =>
      Object(map["document_ref" := Text(ref), "outcome" := Text("rate_limited"), "retry_after_seconds" := Int(seconds)])
    case AclError => Object(map["document_ref" := Text(ref), "outcome" := Text("source_error")])
    case AclFailed(at) =>
      Object(map["document_ref" := Text(ref), "observed_at" := Text(clock.format(at)), "outcome" := Text("observation"),
                 "status" := Text("failed"), "subjects" := List([]), "visibility" := Null])
    case AclResolved(visibility, subjects, at) =>
      Object(map["document_ref" := Text(ref), "observed_at" := Text(clock.format(at)), "outcome" := Text("observation"),
                 "status" := Text("resolved"),
                 "subjects" := List(seq(|subjects|, i requires 0 <= i < |subjects| => WriteSubject(subjects[i]))),
                 "visibility" := Text(VisibilityText(visibility))])
  }

  function ReadObservation(clock: Clock, v: Json): Option<AclReply> {
    if !HasExactly(v, {"document_ref", "observed_at", "outcome", "status", "subjects", "visibility"}) then None
    else if !v.fields["subjects"].List? then None
    else
      var at := ParseTime(clock, v.fields["observed_at"]);
      if at.None? then None
      else if v.fields["status"] == Text("failed") then
        if v.fields["subjects"] != List([]) || v.fields["visibility"] != Null then None else Some(AclFailed(at.value))
      else if v.fields["status"] != Text("resolved") then None
      else
        var subjects := ParseAll(ReadSubject, v.fields["subjects"].items);
        var visibility := ReadVisibility(v.fields["visibility"]);
        if subjects.None? || visibility.None? || !ValidSubjects(subjects.value) then None
        else Some(AclResolved(visibility.value, subjects.value, at.value))
  }

  function ReadAcl(clock: Clock, v: Json): Option<(string, AclReply)> {
    if !v.Object? || "document_ref" !in v.fields then None
    else
      var ref := ParseRef(v.fields["document_ref"]);
      if ref.None? then None
      else if Says(v, "outcome", "rate_limited") then
        if !HasExactly(v, {"document_ref", "outcome", "retry_after_seconds"}) then None
        else
          var retry := ReadRetry(v.fields["retry_after_seconds"]);
          if retry.None? then None else Some((ref.value, AclRateLimited(retry.value)))
      else if Says(v, "outcome", "source_error") then
        if !HasExactly(v, {"document_ref", "outcome"}) then None else Some((ref.value, AclError))
      else if !Says(v, "outcome", "observation") then None
      else
        var observation := ReadObservation(clock, v);
        if observation.None? then None else Some((ref.value, observation.value))
  }

  lemma SubjectInverts(s: Subject)
    requires IsRef(s.ref)
    ensures ReadSubject(WriteSubject(s)) == Some(s)
  {
    hide IsRef;
    assert WriteSubject(s).fields.Keys == {"external_ref", "kind"};
    assert |"group"| != |"user"|;
  }

  lemma ObservationInverts(clock: Clock, ref: string, a: AclReply)
    requires Reads(clock) && ValidAcl(a) && (a.AclFailed? || a.AclResolved?)
    ensures ReadObservation(clock, WriteAcl(clock, ref, a)) == Some(a)
  {
    hide IsRef, ReadSubject, WriteSubject, ParseAll, SubjectLess;
    OutcomesDiffer();
    var v := WriteAcl(clock, ref, a);
    assert v.fields.Keys == {"document_ref", "observed_at", "outcome", "status", "subjects", "visibility"};
    if a.AclResolved? {
      var items := v.fields["subjects"].items;
      forall i | 0 <= i < |items| ensures ReadSubject(items[i]) == Some(a.subjects[i]) {
        SubjectInverts(a.subjects[i]);
      }
      ParseAllInverts(ReadSubject, items, a.subjects);
      assert |"private"| != |"organization"|;
      hide ValidSubjects;
    }
  }

  lemma AclInverts(clock: Clock, ref: string, a: AclReply)
    requires Reads(clock) && IsRef(ref) && ValidAcl(a)
    ensures ReadAcl(clock, WriteAcl(clock, ref, a)) == Some((ref, a))
  {
    hide IsRef, ReadObservation, ValidSubjects;
    OutcomesDiffer();
    var v := WriteAcl(clock, ref, a);
    match a
    case AclRateLimited(_) =>
      assert v.fields.Keys == {"document_ref", "outcome", "retry_after_seconds"};
    case AclError =>
      assert v.fields.Keys == {"document_ref", "outcome"};
    case _ =>
      ObservationInverts(clock, ref, a);
  }

  // ---- identities -----------------------------------------------------------------

  function WriteIdentity(ref: string, m: IdentityReply): Json {
    match m
    case IdentityError => Object(map["external_ref" := Text(ref), "outcome" := Text("source_error")])
    case IdentityMapping(principal) =>
      Object(map["external_ref" := Text(ref), "local_principal_ref" := Optional(principal),
                 "outcome" := Text("mapping")])
  }

  function ReadIdentity(v: Json): Option<(string, IdentityReply)> {
    if !v.Object? || "external_ref" !in v.fields then None
    else
      var ref := ParseRef(v.fields["external_ref"]);
      if ref.None? then None
      else if Says(v, "outcome", "source_error") then
        if !HasExactly(v, {"external_ref", "outcome"}) then None else Some((ref.value, IdentityError))
      else if !Says(v, "outcome", "mapping") || !HasExactly(v, {"external_ref", "local_principal_ref", "outcome"})
      then None
      else
        var principal := ParseOptionalRef(v.fields["local_principal_ref"]);
        if principal.None? then None else Some((ref.value, IdentityMapping(principal.value)))
  }

  lemma IdentityInverts(ref: string, m: IdentityReply)
    requires IsRef(ref) && ValidIdentity(m)
    ensures ReadIdentity(WriteIdentity(ref, m)) == Some((ref, m))
  {
    hide IsRef;
    OutcomesDiffer();
    var v := WriteIdentity(ref, m);
    if m.IdentityError? {
      assert v.fields.Keys == {"external_ref", "outcome"};
    } else {
      assert v.fields.Keys == {"external_ref", "local_principal_ref", "outcome"};
    }
  }

  // ---- groups ---------------------------------------------------------------------

  function WriteNode(g: GroupNode): Json {
    Object(map["child_group_refs" := List(Texts(g.node.children)), "external_ref" := Text(g.ref),
               "identity_refs" := List(Texts(g.node.identities)), "local_group_ref" := Optional(g.node.localGroup)])
  }

  function ReadNode(v: Json): Option<GroupNode> {
    if !HasExactly(v, {"child_group_refs", "external_ref", "identity_refs", "local_group_ref"}) then None
    else if !v.fields["identity_refs"].List? || !v.fields["child_group_refs"].List? then None
    else
      var ref, localGroup := ParseRef(v.fields["external_ref"]), ParseOptionalRef(v.fields["local_group_ref"]);
      var identities := ParseAll(ParseRef, v.fields["identity_refs"].items);
      var children := ParseAll(ParseRef, v.fields["child_group_refs"].items);
      if ref.None? || localGroup.None? || identities.None? || children.None? then None
      else if !StrictlySorted(identities.value) || !StrictlySorted(children.value) then None
      else Some(GroupNode(ref.value, Node(localGroup.value, identities.value, children.value)))
  }

  function WriteGroups(clock: Clock, g: GroupReply): Json {
    match g
    case GroupError => Object(map["outcome" := Text("source_error")])
    case GroupSnapshot(version, nodes, at) =>
      Object(map["nodes" := List(seq(|nodes|, i requires 0 <= i < |nodes| => WriteNode(nodes[i]))),
                 "observed_at" := Text(clock.format(at)), "outcome" := Text("snapshot"),
                 "version_ref" := Text(version)])
  }

  function ReadGroups(clock: Clock, v: Json): Option<GroupReply> {
    if Says(v, "outcome", "source_error") then if HasExactly(v, {"outcome"}) then Some(GroupError) else None
    else if !Says(v, "outcome", "snapshot") || !HasExactly(v, {"nodes", "observed_at", "outcome", "version_ref"})
    then None
    else if !v.fields["nodes"].List? then None
    else
      var nodes := ParseAll(ReadNode, v.fields["nodes"].items);
      var version, at := ParseRef(v.fields["version_ref"]), ParseTime(clock, v.fields["observed_at"]);
      if nodes.None? || version.None? || at.None? || !StrictlySorted(NodeRefs(nodes.value)) then None
      else Some(GroupSnapshot(version.value, nodes.value, at.value))
  }

  lemma RefsInvert(xs: seq<string>)
    requires ValidRefs(xs)
    ensures ParseAll(ParseRef, Texts(xs)) == Some(xs)
  {
    hide IsRef, StrictlySorted;
    ParseAllInverts(ParseRef, Texts(xs), xs);
  }

  lemma NodeInverts(g: GroupNode)
    requires ValidNode(g)
    ensures ReadNode(WriteNode(g)) == Some(g)
  {
    hide IsRef, StrictlySorted, ParseAll;
    assert WriteNode(g).fields.Keys == {"child_group_refs", "external_ref", "identity_refs", "local_group_ref"};
    RefsInvert(g.node.identities);
    RefsInvert(g.node.children);
    hide Texts;
  }

  lemma GroupsInvert(clock: Clock, g: GroupReply)
    requires Reads(clock) && ValidGroups(g)
    ensures ReadGroups(clock, WriteGroups(clock, g)) == Some(g)
  {
    hide IsRef, StrictlySorted, ParseAll, ReadNode, WriteNode, ValidNode;
    OutcomesDiffer();
    var v := WriteGroups(clock, g);
    if g.GroupSnapshot? {
      assert v.fields.Keys == {"nodes", "observed_at", "outcome", "version_ref"};
      var items := v.fields["nodes"].items;
      forall i | 0 <= i < |items| ensures ReadNode(items[i]) == Some(g.nodes[i]) {
        NodeInverts(g.nodes[i]);
      }
      ParseAllInverts(ReadNode, items, g.nodes);
    }
  }

  // ---- the fixture ----------------------------------------------------------------

  /** Page tokens sort with the missing one first. */
  function SortTokens(keys: set<Option<string>>): seq<Option<string>> {
    var texts := Sort(set k | k in keys && k.Some? :: k.value);
    (if None in keys then [None] else []) + seq(|texts|, i requires 0 <= i < |texts| => Some(texts[i]))
  }

  function AsMap<K, V>(pairs: seq<(K, V)>): map<K, V> {
    if pairs == [] then map[] else AsMap(pairs[..|pairs| - 1])[pairs[|pairs| - 1].0 := pairs[|pairs| - 1].1]
  }

  function Firsts<K, V>(pairs: seq<(K, V)>): seq<K> {
    seq(|pairs|, i requires 0 <= i < |pairs| => pairs[i].0)
  }

  /** The entries of `m` under `keys`. */
  function Pairs<K, V>(m: map<K, V>, keys: seq<K>): seq<(K, V)>
    requires forall i | 0 <= i < |keys| :: keys[i] in m
  {
    seq(|keys|, i requires 0 <= i < |keys| && keys[i] in m => (keys[i], m[keys[i]]))
  }

  lemma {:induction false} PairsInvert<K, V>(m: map<K, V>, keys: seq<K>)
    requires forall i | 0 <= i < |keys| :: keys[i] in m
    ensures Firsts(Pairs(m, keys)) == keys
    ensures AsMap(Pairs(m, keys)).Keys == Elements(keys)
    ensures forall k | k in keys :: AsMap(Pairs(m, keys))[k] == m[k]
  {
    if keys != [] {
      var n := |keys| - 1;
      PairsInvert(m, keys[..n]);
      assert Pairs(m, keys)[..n] == Pairs(m, keys[..n]);
      assert keys == keys[..n] + [keys[n]];
    }
  }

  lemma PairsRestore<K, V>(m: map<K, V>, keys: seq<K>)
    requires Elements(keys) == m.Keys
    ensures forall i | 0 <= i < |keys| :: keys[i] in m
    ensures Firsts(Pairs(m, keys)) == keys && AsMap(Pairs(m, keys)) == m
  {
    forall i | 0 <= i < |keys| ensures keys[i] in m {
      assert keys[i] in Elements(keys);
    }
    PairsInvert(m, keys);
    var back := AsMap(Pairs(m, keys));
    forall k | k in m ensures back[k] == m[k] {
      assert k in Elements(keys);
    }
  }

  lemma SortTokensElements(keys: set<Option<string>>)
    ensures Elements(SortTokens(keys)) == keys
  {
    hide Sort;
    var texts := Sort(set k | k in keys && k.Some? :: k.value);
    assert forall t :: t in texts <==> t in Elements(texts);
    var all := SortTokens(keys);
    forall k ensures k in Elements(all) <==> k in keys {
      if k in keys && k.Some? {
        assert k.value in texts;
        var i :| 0 <= i < |texts| && texts[i] == k.value;
        assert all[|all| - |texts| + i] == k;
      }
      if k in keys && k.None? {
        assert all[0] == k;
      }
      if k in all {
        var j :| 0 <= j < |all| && all[j] == k;
        if k.Some? {
          assert k.value in texts;
        }
      }
    }
  }

  function Written<K, V>(write: (K, V) -> Json, pairs: seq<(K, V)>): Json {
    List(seq(|pairs|, i requires 0 <= i < |pairs| => write(pairs[i].0, pairs[i].1)))
  }

  function PagePairs(x: Fixture): seq<(Option<string>, PageReply)> {
    var keys := SortTokens(x.pages.Keys);
    SortTokensElements(x.pages.Keys);
    PairsRestore(x.pages, keys);
    Pairs(x.pages, keys)
  }

  function RefPairs<V>(m: map<string, V>): seq<(string, V)> {
    PairsRestore(m, Sort(m.Keys));
    Pairs(m, Sort(m.Keys))
  }

  const FixtureFields: set<string> := {"acl_responses", "group_snapshot", "identity_mappings", "pages",
                                       "schema_version"}

  /** `serialize_feishu_twin_fixture`. */
  function Serialize(clock: Clock, x: Fixture): Json {
    Object(map["acl_responses" := Written((r, a) => WriteAcl(clock, r, a), RefPairs(x.acls)),
               "group_snapshot" := WriteGroups(clock, x.groups),
               "identity_mappings" := Written(WriteIdentity, RefPairs(x.identities)),
               "pages" := Written((t, p) => WritePage(clock, t, p), PagePairs(x)),
               "schema_version" := Text("feishu-docs-twin-v2")])
  }

  /** The parse in `DeterministicFeishuTwin.__init__`. */
  function Parse(clock: Clock, v: Json): Option<Fixture> {
    if !HasExactly(v, FixtureFields) || v.fields["schema_version"] != Text("feishu-docs-twin-v2") then None
    else if !v.fields["acl_responses"].List? || !v.fields["identity_mappings"].List? || !v.fields["pages"].List?
    then None
    else
      var pages := ParseAll((x: Json) => ReadPage(clock, x), v.fields["pages"].items);
      var acls := ParseAll((x: Json) => ReadAcl(clock, x), v.fields["acl_responses"].items);
      var identities := ParseAll(ReadIdentity, v.fields["identity_mappings"].items);
      var groups := ReadGroups(clock, v.fields["group_snapshot"]);
      if pages.None? || acls.None? || identities.None? || groups.None? then None
      else
        var tokens, refs, ids := Firsts(pages.value), Firsts(acls.value), Firsts(identities.value);
        if tokens != SortTokens(Elements(tokens)) || refs != Sort(Elements(refs)) || ids != Sort(Elements(ids))
        then None
        else Some(Fixture(AsMap(pages.value), AsMap(acls.value), AsMap(identities.value), groups.value))
  }

  lemma PagesInvert(clock: Clock, x: Fixture)
    requires Reads(clock) && ValidFixture(x)
    ensures ParseAll((v: Json) => ReadPage(clock, v), Written((t, p) => WritePage(clock, t, p), PagePairs(x)).items) ==
            Some(PagePairs(x))
    ensures Firsts(PagePairs(x)) == SortTokens(x.pages.Keys) && AsMap(PagePairs(x)) == x.pages
    ensures Elements(SortTokens(x.pages.Keys)) == x.pages.Keys
  {
    hide IsRef, ReadPage, WritePage, ParseAll, ValidPage, ValidAcl, ValidIdentity, ValidGroups, OptionalRef,
      SortTokens, AsMap;
    SortTokensElements(x.pages.Keys);
    var keys := SortTokens(x.pages.Keys);
    PairsRestore(x.pages, keys);
    var pairs := PagePairs(x);
    var read := (v: Json) => ReadPage(clock, v);
    var items := Written((t, p) => WritePage(clock, t, p), pairs).items;
    forall i | 0 <= i < |pairs| ensures read(items[i]) == Some(pairs[i]) {
      PageInverts(clock, pairs[i].0, pairs[i].1);
    }
    ParseAllInverts(read, items, pairs);
  }

  lemma AclsInvert(clock: Clock, x: Fixture)
    requires Reads(clock) && ValidFixture(x)
    ensures ParseAll((v: Json) => ReadAcl(clock, v),
                     Written((r, a) => WriteAcl(clock, r, a), RefPairs(x.acls)).items) == Some(RefPairs(x.acls))
    ensures Firsts(RefPairs(x.acls)) == Sort(x.acls.Keys) && AsMap(RefPairs(x.acls)) == x.acls
  {
    hide IsRef, ReadAcl, WriteAcl, ParseAll, ValidPage, ValidAcl, ValidIdentity, ValidGroups, OptionalRef, Sort, AsMap;
    var keys := Sort(x.acls.Keys);
    PairsRestore(x.acls, keys);
    var pairs := RefPairs(x.acls);
    var read := (v: Json) => ReadAcl(clock, v);
    var items := Written((r, a) => WriteAcl(clock, r, a), pairs).items;
    forall i | 0 <= i < |pairs| ensures read(items[i]) == Some(pairs[i]) {
      AclInverts(clock, pairs[i].0, pairs[i].1);
    }
    ParseAllInverts(read, items, pairs);
  }

  lemma IdentitiesInvert(x: Fixture)
    requires ValidFixture(x)
    ensures ParseAll(ReadIdentity, Written(WriteIdentity, RefPairs(x.identities)).items) == Some(RefPairs(x.identities))
    ensures Firsts(RefPairs(x.identities)) == Sort(x.identities.Keys) && AsMap(RefPairs(x.identities)) == x.identities
  {
    hide IsRef, ReadIdentity, WriteIdentity, ParseAll, ValidPage, ValidAcl, ValidIdentity, ValidGroups, OptionalRef,
      Sort, AsMap;
    var keys := Sort(x.identities.Keys);
    PairsRestore(x.identities, keys);
    var pairs := RefPairs(x.identities);
    var items := Written(WriteIdentity, pairs).items;
    forall i | 0 <= i < |pairs| ensures ReadIdentity(items[i]) == Some(pairs[i]) {
      IdentityInverts(pairs[i].0, pairs[i].1);
    }
    ParseAllInverts(ReadIdentity, items, pairs);
  }

  /** Parsing a serialized fixture gives back every page, ACL response, identity mapping and the
      group snapshot, across all kinds of reply. */
  lemma FixtureRoundTrip(clock: Clock, x: Fixture)
    requires Reads(clock) && ValidFixture(x)
    ensures Parse(clock, Serialize(clock, x)) == Some(x)
  {
    hide ParseAll, Sort, SortTokens, AsMap, Firsts, Elements, RefPairs, PagePairs, ReadGroups, WriteGroups, Reads;
    assert Serialize(clock, x).fields.Keys == FixtureFields;
    PagesInvert(clock, x);
    AclsInvert(clock, x);
    IdentitiesInvert(x);
    GroupsInvert(clock, x.groups);
    hide ValidFixture;
  }

  // ---- what parses is well formed -------------------------------------------------

  lemma {:induction false} ParseAllEach<T>(f: Json -> Option<T>, items: seq<Json>)
    requires ParseAll(f, items).Some?
    ensures var xs := ParseAll(f, items).value;
      |xs| == |items| && forall i | 0 <= i < |xs| :: f(items[i]) == Some(xs[i])
  {
    if items != [] {
      ParseAllEach(f, items[..|items| - 1]);
    }
  }

  lemma {:induction false} AsMapFrom<K, V>(pairs: seq<(K, V)>, k: K)
    requires k in AsMap(pairs)
    ensures (k, AsMap(pairs)[k]) in pairs
  {
    var n := |pairs| - 1;
    assert pairs == pairs[..n] + [pairs[n]];
    if pairs[n].0 != k {
      AsMapFrom(pairs[..n], k);
    }
  }

  lemma PageReadValid(clock: Clock, v: Json)
    requires ReadPage(clock, v).Some?
    ensures OptionalRef(ReadPage(clock, v).value.0) && ValidPage(ReadPage(clock, v).value.1)
  {
    hide IsRef, ParseAll, StrictlySorted, DocumentRefs, DeletionRefs, ValidDocument;
  }

  lemma AclReadValid(clock: Clock, v: Json)
    requires ReadAcl(clock, v).Some?
    ensures IsRef(ReadAcl(clock, v).value.0) && ValidAcl(ReadAcl(clock, v).value.1)
  {
    hide IsRef, ParseAll, ValidSubjects;
  }

  lemma IdentityReadValid(v: Json)
    requires ReadIdentity(v).Some?
    ensures IsRef(ReadIdentity(v).value.0) && ValidIdentity(ReadIdentity(v).value.1)
  {
    hide IsRef;
  }

  lemma RefsReadValid(items: seq<Json>)
    requires ParseAll(ParseRef, items).Some? && StrictlySorted(ParseAll(ParseRef, items).value)
    ensures ValidRefs(ParseAll(ParseRef, items).value)
  {
    hide IsRef, StrictlySorted, ParseAll;
    ParseAllEach(ParseRef, items);
  }

  lemma NodeReadValid(v: Json)
    requires ReadNode(v).Some?
    ensures ValidNode(ReadNode(v).value)
  {
    hide IsRef, StrictlySorted, ParseAll, ValidRefs;
    RefsReadValid(v.fields["identity_refs"].items);
    RefsReadValid(v.fields["child_group_refs"].items);
  }

  lemma GroupsReadValid(clock: Clock, v: Json)
    requires ReadGroups(clock, v).Some?
    ensures ValidGroups(ReadGroups(clock, v).value)
  {
    hide IsRef, StrictlySorted, ParseAll, ReadNode, ValidNode, NodeRefs;
    var g := ReadGroups(clock, v).value;
    if g.GroupSnapshot? {
      var items := v.fields["nodes"].items;
      ParseAllEach(ReadNode, items);
      forall i | 0 <= i < |g.nodes| ensures ValidNode(g.nodes[i]) {
        NodeReadValid(items[i]);
      }
    }
  }

  lemma PagesReadValid(clock: Clock, items: seq<Json>)
    requires ParseAll((x: Json) => ReadPage(clock, x), items).Some?
    ensures var pages := AsMap(ParseAll((x: Json) => ReadPage(clock, x), items).value);
      forall t | t in pages :: OptionalRef(t) && ValidPage(pages[t])
  {
    hide ReadPage, ValidPage, OptionalRef, ParseAll, AsMap;
    var pairs := ParseAll((x: Json) => ReadPage(clock, x), items).value;
    ParseAllEach((x: Json) => ReadPage(clock, x), items);
    forall t | t in AsMap(pairs) ensures OptionalRef(t) && ValidPage(AsMap(pairs)[t]) {
      AsMapFrom(pairs, t);
      var i :| 0 <= i < |pairs| && pairs[i] == (t, AsMap(pairs)[t]);
      PageReadValid(clock, items[i]);
    }
  }

  lemma AclsReadValid(clock: Clock, items: seq<Json>)
    requires ParseAll((x: Json) => ReadAcl(clock, x), items).Some?
    ensures var acls := AsMap(ParseAll((x: Json) => ReadAcl(clock, x), items).value);
      forall r | r in acls :: IsRef(r) && ValidAcl(acls[r])
  {
    hide ReadAcl, ValidAcl, IsRef, ParseAll, AsMap;
    var pairs := ParseAll((x: Json) => ReadAcl(clock, x), items).value;
    ParseAllEach((x: Json) => ReadAcl(clock, x), items);
    forall r | r in AsMap(pairs) ensures IsRef(r) && ValidAcl(AsMap(pairs)[r]) {
      AsMapFrom(pairs, r);
      var i :| 0 <= i < |pairs| && pairs[i] == (r, AsMap(pairs)[r]);
      AclReadValid(clock, items[i]);
    }
  }

  lemma IdentitiesReadValid(items: seq<Json>)
    requires ParseAll(ReadIdentity, items).Some?
    ensures var identities := AsMap(ParseAll(ReadIdentity, items).value);
      forall r | r in identities :: IsRef(r) && ValidIdentity(identities[r])
  {
    hide ReadIdentity, ValidIdentity, IsRef, ParseAll, AsMap;
    var pairs := ParseAll(ReadIdentity, items).value;
    ParseAllEach(ReadIdentity, items);
    forall r | r in AsMap(pairs) ensures IsRef(r) && ValidIdentity(AsMap(pairs)[r]) {
      AsMapFrom(pairs, r);
      var i :| 0 <= i < |pairs| && pairs[i] == (r, AsMap(pairs)[r]);
      IdentityReadValid(items[i]);
    }
  }

  /** Whatever parses is well formed, so serializing it again is a fixed point of the parser. */
  lemma ParsedIsValid(clock: Clock, v: Json)
    requires Parse(clock, v).Some?
    ensures ValidFixture(Parse(clock, v).value)
    ensures Reads(clock) ==> Parse(clock, Serialize(clock, Parse(clock, v).value)) == Parse(clock, v)
  {
    var x := Parse(clock, v).value;
    hide ParseAll, Sort, SortTokens, AsMap, Firsts, Elements, ReadGroups, Reads, Serialize, OptionalRef, ValidPage,
      ValidAcl,
      ValidIdentity, ValidGroups, IsRef;
    PagesReadValid(clock, v.fields["pages"].items);
    AclsReadValid(clock, v.fields["acl_responses"].items);
    IdentitiesReadValid(v.fields["identity_mappings"].items);
    GroupsReadValid(clock, v.fields["group_snapshot"]);
    assert ValidFixture(x);
    if Reads(clock) {
      FixtureRoundTrip(clock, x);
    }
  }
}
