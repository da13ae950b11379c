/**
 The Feishu connector's ACL decision for one document: fail closed unless every lookup answered
 and every reachable group is known and mapped to a local group.
 */
module FeishuAcl {
  import opened Order
  import opened References
  import opened GroupFlattening

  datatype SubjectKind = Group | User
  datatype Subject = Subject(kind: SubjectKind, ref: string)
  datatype Visibility = PrivateVisibility | OrganizationVisibility

  /** What the client answers for a document; `Unusable` is a raise or an answer for another one. */
  datatype Reply = Unusable | Failure | Response(visibility: Visibility, subjects: seq<Subject>)

  datatype Status = Resolved | Failed | UnresolvedGroup
  datatype PolicyKind = Organization | Groups | Private

  datatype Observation = Observation(
    status: Status, policyKind: Option<PolicyKind>, localGroups: seq<string>, localPrincipals: seq<string>,
    identityClaims: seq<(string, string)>, opaqueIdentities: seq<string>, directIdentities: seq<string>,
    flattened: Artifact)

  /** Subjects order by kind value, `group` before `user`, then by reference. */
  predicate SubjectLess(a: Subject, b: Subject) {
    (a.kind.Group? && b.kind.User?) || (a.kind == b.kind && Less(a.ref, b.ref))
  }

  /** `FeishuAclResponse` and `FeishuPermissionSubject` construction checks. */
  predicate ValidSubjects(subjects: seq<Subject>) {
    && (forall i | 0 <= i < |subjects| :: IsRef(subjects[i].ref))
    && (forall i, j | 0 <= i < j < |subjects| :: SubjectLess(subjects[i], subjects[j]))
  }

  function RefsOf(subjects: seq<Subject>, kind: SubjectKind): seq<string> {
    if subjects == [] then []
    else
      var last := subjects[|subjects| - 1];
      RefsOf(subjects[..|subjects| - 1], kind) + if last.kind == kind then [last.ref] else []
  }

  const NoArtifact: Artifact := Artifact([], [], [], [], [], [], [], [])

  function FailedObservation(): Observation {
    Observation(Failed, None, [], [], [], [], [], NoArtifact)
  }

  function KindOf(visibility: Visibility, a: Artifact): Option<PolicyKind> {
    if a.unresolved != [] then None
    else if visibility.OrganizationVisibility? then Some(Organization)
    else if a.localGroups != [] then Some(Groups)
    else Some(Private)
  }

  function Assemble(visibility: Visibility, a: Artifact, principals: set<string>, claims: map<string, string>,
                    opaques: set<string>): Observation {
    var kind := KindOf(visibility, a);
    Observation(if kind.None? then UnresolvedGroup else Resolved, kind,
                if kind == Some(Groups) then a.localGroups else [],
                if kind.None? then [] else Sort(principals),
                Items(claims), Sort(opaques), Sort(claims.Keys + opaques), a)
  }

  function FlattenedFor(snapshot: Option<Graph>, groups: seq<string>, mapper: Mapper): Option<Artifact> {
    if snapshot.None? then None else Flattened(snapshot.value, groups, mapper)
  }

  /** `_observe`, as a function of the client's answers; a claim for an identity is its mapping,
      so direct and nested claims agree. None: no observation, and no page, comes out. */
  function Decision(reply: Reply, snapshot: Option<Graph>, mapper: Mapper): Option<Observation> {
    match reply
    case Unusable => None
    case Failure => Some(FailedObservation())
    case Response(visibility, subjects) =>
      if !ValidSubjects(subjects) then None
      else
        var users := Elements(RefsOf(subjects, User));
        var flat := FlattenedFor(snapshot, RefsOf(subjects, Group), mapper);
        if !Available(mapper, users) || flat.None? then Some(FailedObservation())
        else
          var a := flat.value;
          Some(Assemble(visibility, a, Principals(mapper, users) + Elements(a.localPrincipals),
                        Claims(mapper, users) + Claims(mapper, Elements(a.mappedIdentities)),
                        OpaqueAmong(mapper, users) + Elements(a.opaqueIdentities)))
  }

  method Observe(reply: Reply, snapshot: Option<Graph>, mapper: Mapper) returns (r: Option<Observation>)
    ensures r == Decision(reply, snapshot, mapper)
  {
    hide Assemble, Flattened, Search.Consistent, RefsOf, ValidSubjects, Elements, Principals, Claims, OpaqueAmong,
      Available;
    match reply {
      case Unusable => return None;
      case Failure => return Some(FailedObservation());
      case Response(visibility, subjects) =>
        if !ValidSubjects(subjects) {
          return None;
        }
        var users := RefsOf(subjects, User);
        var ok, principals, claims, opaques := MapUsers(users, mapper);
        if !ok || snapshot.None? {
          return Some(FailedObservation());
        }
        var flat := Flatten(snapshot.value, RefsOf(subjects, Group), mapper);
        if flat.None? {
          return Some(FailedObservation());
        }
        var a := flat.value;
        r := Some(Assemble(visibility, a, principals + Elements(a.localPrincipals),
                           claims + Claims(mapper, Elements(a.mappedIdentities)),
                           opaques + Elements(a.opaqueIdentities)));
    }
  }

  /** The loop over the response's direct users. */
  method MapUsers(users: seq<string>, mapper: Mapper)
    returns (ok: bool, principals: set<string>, claims: map<string, string>, opaques: set<string>)
    ensures ok <==> Available(mapper, Elements(users))
    ensures ok ==> principals == Principals(mapper, Elements(users)) && claims == Claims(mapper, Elements(users))
    ensures ok ==> opaques == OpaqueAmong(mapper, Elements(users))
  {
    var search := new Search(map[], mapper);
    ok := search.ReadMembers(users);
    principals, claims, opaques := search.localPrincipals, search.claims, search.opaqueIdentities;
    assert ok ==> search.members == Elements(users);
  }

  // ---- what the decision means ----------------------------------------------------

  ghost predicate HasSubject(subjects: seq<Subject>, kind: SubjectKind, ref: string) {
    exists i :: 0 <= i < |subjects| && subjects[i] == Subject(kind, ref)
  }

  lemma {:induction false} RefsExact(subjects: seq<Subject>, kind: SubjectKind, ref: string)
    ensures ref in RefsOf(subjects, kind) <==> HasSubject(subjects, kind, ref)
  {
    if subjects != [] {
      var n := |subjects| - 1;
      var init := subjects[..n];
      RefsExact(init, kind, ref);
      if HasSubject(subjects, kind, ref) && subjects[n] != Subject(kind, ref) {
        var i :| 0 <= i < |subjects| && subjects[i] == Subject(kind, ref);
        assert init[i] == subjects[i];
      }
      if HasSubject(init, kind, ref) {
        var i :| 0 <= i < |init| && init[i] == Subject(kind, ref);
        assert subjects[i] == init[i];
      }
    }
  }

  lemma RefsValid(subjects: seq<Subject>, kind: SubjectKind)
    requires ValidSubjects(subjects)
    ensures AllRefs(RefsOf(subjects, kind))
  {
    var refs := RefsOf(subjects, kind);
    hide RefsOf, IsRef;
    forall i | 0 <= i < |refs| ensures IsRef(refs[i]) {
      RefsExact(subjects, kind, refs[i]);
    }
  }

  /** Some identity the decision depends on could not be looked up, or the groups could not. */
  ghost predicate LookupFailed(subjects: seq<Subject>, snapshot: Option<Graph>, mapper: Mapper) {
    || snapshot.None?
    || (exists i :: Consulted(subjects, snapshot.value, i) && mapper(i).Unavailable?)
  }

  /** A direct user, or a member of a known group reachable from the response's groups. */
  ghost predicate Consulted(subjects: seq<Subject>, nodes: Graph, i: string) {
    HasSubject(subjects, User, i) || ReachableMember(nodes, RefsOf(subjects, Group), i)
  }

  ghost predicate IsMapped(nodes: Graph, g: string) {
    g in nodes && nodes[g].localGroup.Some?
  }

  ghost predicate AllGroupsMapped(subjects: seq<Subject>, nodes: Graph) {
    forall g | Reachable(nodes, RefsOf(subjects, Group), g) :: IsMapped(nodes, g)
  }

  lemma AssembleResolves()
    ensures forall v, a, p, c, o {:trigger Assemble(v, a, p, c, o)} ::
              Assemble(v, a, p, c, o).status != Failed && Assemble(v, a, p, c, o).flattened == a
  {
  }

  /** A failed lookup is exactly what makes the observation failed. */
  lemma FailedExactly(visibility: Visibility, subjects: seq<Subject>, snapshot: Option<Graph>, mapper: Mapper)
    requires ValidSubjects(subjects)
    ensures var o := Decision(Response(visibility, subjects), snapshot, mapper);
      && o.Some? && (o.value.status == Failed <==> LookupFailed(subjects, snapshot, mapper))
      && (o.value.status == Failed ==> o.value == FailedObservation())
      && (o.value.status != Failed ==>
            && snapshot.Some? && Flattened(snapshot.value, RefsOf(subjects, Group), mapper).Some?
            && o.value.flattened == Flattened(snapshot.value, RefsOf(subjects, Group), mapper).value)
  {
    hide Flattened, ReachableMember, RefsOf, HasSubject, Assemble, ValidSubjects, Available, Elements, Principals,
      Claims, OpaqueAmong, AllRefs;
    RefsValid(subjects, Group);
    AssembleResolves();
    if snapshot.Some? {
      FlattenFails(snapshot.value, RefsOf(subjects, Group), mapper);
      UsersAvailable(subjects, mapper);
    }
  }

  lemma UsersAvailable(subjects: seq<Subject>, mapper: Mapper)
    ensures Available(mapper, Elements(RefsOf(subjects, User))) <==>
            forall i | HasSubject(subjects, User, i) :: !mapper(i).Unavailable?
  {
    hide RefsOf, HasSubject;
    forall i ensures i in Elements(RefsOf(subjects, User)) <==> HasSubject(subjects, User, i) {
      RefsExact(subjects, User, i);
    }
  }

  lemma UnresolvedExactly(subjects: seq<Subject>, nodes: Graph, mapper: Mapper)
    requires Flattened(nodes, RefsOf(subjects, Group), mapper).Some?
    ensures Flattened(nodes, RefsOf(subjects, Group), mapper).value.unresolved == [] <==>
            AllGroupsMapped(subjects, nodes)
  {
    hide Flattened, RefsOf, Reachable, ReachableLocal;
    var groups := RefsOf(subjects, Group);
    var unresolved := Flattened(nodes, groups, mapper).value.unresolved;
    forall g ensures g in unresolved <==> Reachable(nodes, groups, g) && !IsMapped(nodes, g) {
      FlattenGroups(nodes, groups, mapper, g);
    }
    if unresolved != [] {
      assert unresolved[0] in unresolved;
    }
  }

  /** A policy kind is emitted if and only if no lookup failed and every reachable group is known
      and locally mapped; otherwise no local group and no local principal comes out. */
  lemma PolicyExactly(visibility: Visibility, subjects: seq<Subject>, snapshot: Option<Graph>, mapper: Mapper)
    requires ValidSubjects(subjects)
    ensures var o := Decision(Response(visibility, subjects), snapshot, mapper);
      && o.Some?
      && (o.value.policyKind.Some? <==>
            !LookupFailed(subjects, snapshot, mapper) && AllGroupsMapped(subjects, snapshot.value))
      && (o.value.policyKind.None? ==> o.value.localGroups == [] && o.value.localPrincipals == [])
      && (o.value.status == Resolved <==> o.value.policyKind.Some?)
  {
    hide Flattened, RefsOf, Sort, Items, ValidSubjects, LookupFailed, AllGroupsMapped, Elements, Principals, Claims,
      OpaqueAmong;
    FailedExactly(visibility, subjects, snapshot, mapper);
    if !LookupFailed(subjects, snapshot, mapper) {
      UnresolvedExactly(subjects, snapshot.value, mapper);
    }
  }

  /** Which kind it is, and what it grants: groups exactly when a private response names groups,
      and then exactly the reachable local groups; principals are exactly the mapped consulted
      identities. */
  lemma GrantsExactly(visibility: Visibility, subjects: seq<Subject>, nodes: Graph, mapper: Mapper, x: string)
    requires ValidSubjects(subjects)
    requires Decision(Response(visibility, subjects), Some(nodes), mapper).value.policyKind.Some?
    ensures var o := Decision(Response(visibility, subjects), Some(nodes), mapper).value;
      && (o.policyKind == Some(Organization) <==> visibility.OrganizationVisibility?)
      && (o.policyKind == Some(Groups) <==> visibility.PrivateVisibility? && RefsOf(subjects, Group) != [])
      && (x in o.localGroups <==> o.policyKind == Some(Groups) && ReachableLocal(nodes, RefsOf(subjects, Group), x))
      && (x in o.localPrincipals <==> exists i :: Consulted(subjects, nodes, i) && mapper(i) == Mapped(x))
  {
    hide Flattened, RefsOf, Sort, Items, ValidSubjects, LookupFailed, Reachable, Consulted;
    var groups := RefsOf(subjects, Group);
    FailedExactly(visibility, subjects, Some(nodes), mapper);
    var a := Flattened(nodes, groups, mapper).value;
    FlattenGroups(nodes, groups, mapper, x);
    PrincipalsExactly(subjects, nodes, mapper, a, x);
    GroupsGranted(visibility, subjects, nodes, mapper);
  }

  lemma PrincipalsExactly(subjects: seq<Subject>, nodes: Graph, mapper: Mapper, a: Artifact, x: string)
    requires Flattened(nodes, RefsOf(subjects, Group), mapper) == Some(a)
    ensures x in Sort(Principals(mapper, Elements(RefsOf(subjects, User))) + Elements(a.localPrincipals)) <==>
            exists i :: Consulted(subjects, nodes, i) && mapper(i) == Mapped(x)
  {
    hide Flattened, RefsOf, Sort, ReachableMember, HasSubject;
    var users := Elements(RefsOf(subjects, User));
    InSort(Principals(mapper, users) + Elements(a.localPrincipals), x);
    FlattenIdentities(nodes, RefsOf(subjects, Group), mapper, x);
    forall i ensures i in users <==> HasSubject(subjects, User, i) {
      RefsExact(subjects, User, i);
    }
    if i :| Consulted(subjects, nodes, i) && mapper(i) == Mapped(x) {
      assert HasSubject(subjects, User, i) ==> i in users;
    }
    if i :| i in users && mapper(i) == Mapped(x) {
      assert Consulted(subjects, nodes, i);
    }
    if i :| ReachableMember(nodes, RefsOf(subjects, Group), i) && mapper(i) == Mapped(x) {
      assert Consulted(subjects, nodes, i);
    }
  }

  /** When every reachable group is mapped, local groups are granted iff any group was named. */
  lemma GroupsGranted(visibility: Visibility, subjects: seq<Subject>, nodes: Graph, mapper: Mapper)
    requires var flat := Flattened(nodes, RefsOf(subjects, Group), mapper);
      flat.Some? && flat.value.unresolved == []
    ensures Flattened(nodes, RefsOf(subjects, Group), mapper).value.localGroups != [] <==> RefsOf(subjects, Group) != []
  {
    var groups := RefsOf(subjects, Group);
    hide Flattened, RefsOf;
    var a := Flattened(nodes, groups, mapper).value;
    UnresolvedExactly(subjects, nodes, mapper);
    if groups != [] {
      assert Walk(nodes, [groups[0]]);
      assert Reachable(nodes, groups, groups[0]);
      assert IsMapped(nodes, groups[0]);
      var l := nodes[groups[0]].localGroup.value;
      assert KnownGroup(nodes, groups, groups[0]);
      FlattenGroups(nodes, groups, mapper, l);
    }
    if a.localGroups != [] {
      FlattenGroups(nodes, groups, mapper, a.localGroups[0]);
    }
  }

  /** Identity claims and opaque identities are exactly the consulted ones, and group claims exactly
      the nodes of reachable local groups, also when a group stays unresolved and the observation
      grants nothing. */
  lemma ClaimsExactly(visibility: Visibility, subjects: seq<Subject>, nodes: Graph, mapper: Mapper, x: string,
                      p: string)
    requires ValidSubjects(subjects) && !LookupFailed(subjects, Some(nodes), mapper)
    ensures var o := Decision(Response(visibility, subjects), Some(nodes), mapper).value;
      && ((x, p) in o.identityClaims <==> Consulted(subjects, nodes, x) && mapper(x) == Mapped(p))
      && (x in o.opaqueIdentities <==> Consulted(subjects, nodes, x) && mapper(x).Opaque?)
      && ((x, p) in o.flattened.groupClaims <==>
            x in nodes && nodes[x].localGroup == Some(p) && ReachableLocal(nodes, RefsOf(subjects, Group), p))
  {
    hide Flattened, RefsOf, Sort, Items, ValidSubjects, LookupFailed, HasSubject, ReachableMember, Decision,
      ReachableLocal;
    AnsweredParts(visibility, subjects, nodes, mapper);
    var a := Flattened(nodes, RefsOf(subjects, Group), mapper).value;
    var users := Elements(RefsOf(subjects, User));
    RefsExact(subjects, User, x);
    FlattenIdentities(nodes, RefsOf(subjects, Group), mapper, x);
    InItems(Claims(mapper, users) + Claims(mapper, Elements(a.mappedIdentities)), x, p);
    InSort(OpaqueAmong(mapper, users) + Elements(a.opaqueIdentities), x);
    GroupClaimsExactly(nodes, RefsOf(subjects, Group), mapper, x, p);
  }

  lemma AnsweredParts(visibility: Visibility, subjects: seq<Subject>, nodes: Graph, mapper: Mapper)
    requires ValidSubjects(subjects) && !LookupFailed(subjects, Some(nodes), mapper)
    ensures Decision(Response(visibility, subjects), Some(nodes), mapper).Some?
    ensures Flattened(nodes, RefsOf(subjects, Group), mapper).Some?
    ensures var o := Decision(Response(visibility, subjects), Some(nodes), mapper).value;
      var a := Flattened(nodes, RefsOf(subjects, Group), mapper).value;
      var users := Elements(RefsOf(subjects, User));
      && o.identityClaims == Items(Claims(mapper, users) + Claims(mapper, Elements(a.mappedIdentities)))
      && o.opaqueIdentities == Sort(OpaqueAmong(mapper, users) + Elements(a.opaqueIdentities))
      && o.flattened == a
  {
    hide Flattened, RefsOf, Sort, Items, ValidSubjects, LookupFailed, Claims, OpaqueAmong, Principals, Elements,
      Available;
    FailedExactly(visibility, subjects, Some(nodes), mapper);
  }

  lemma GroupClaimsExactly(nodes: Graph, groups: seq<string>, mapper: Mapper, x: string, l: string)
    requires Flattened(nodes, groups, mapper).Some?
    ensures (x, l) in Flattened(nodes, groups, mapper).value.groupClaims <==>
            x in nodes && nodes[x].localGroup == Some(l) && ReachableLocal(nodes, groups, l)
  {
    hide Flattened, ReachableLocal, Reachable;
    FlattenGroups(nodes, groups, mapper, x);
    FlattenGroups(nodes, groups, mapper, l);
  }
}
