/**
 `flatten_feishu_groups`: nested external groups, possibly cyclic, are flattened by a
 depth-first search that prunes along the current path only.
 */
module GroupFlattening {
  import opened Order
  import opened References

  datatype Node = Node(localGroup: Option<string>, identities: seq<string>, children: seq<string>)
  type Graph = map<string, Node>

  /** A lookup that raises, or answers for another identity, is unavailable. */
  datatype Mapping = Unavailable | Opaque | Mapped(principal: string)
  type Mapper = string -> Mapping

  // ---- what the search visits -----------------------------------------------------

  /** The groups a visit records, and those whose members and children it reads. */
  function Visited(nodes: Graph, g: string, path: set<string>): set<string>
    decreases nodes.Keys - path, 0
  {
    if g !in nodes || g in path then {g} else {g} + VisitedAll(nodes, nodes[g].children, path + {g})
  }

  function VisitedAll(nodes: Graph, gs: seq<string>, path: set<string>): set<string>
    decreases nodes.Keys - path, 1 + |gs|
  {
    if gs == [] then {} else VisitedAll(nodes, gs[..|gs| - 1], path) + Visited(nodes, gs[|gs| - 1], path)
  }

  function Expanded(nodes: Graph, g: string, path: set<string>): set<string>
    decreases nodes.Keys - path, 0
  {
    if g !in nodes || g in path then {} else {g} + ExpandedAll(nodes, nodes[g].children, path + {g})
  }

  function ExpandedAll(nodes: Graph, gs: seq<string>, path: set<string>): set<string>
    decreases nodes.Keys - path, 1 + |gs|
  {
    if gs == [] then {} else ExpandedAll(nodes, gs[..|gs| - 1], path) + Expanded(nodes, gs[|gs| - 1], path)
  }

  // ---- reachability, independently of the search ----------------------------------

  ghost predicate Walk(nodes: Graph, w: seq<string>) {
    w != [] && forall i | 0 <= i < |w| - 1 :: w[i] in nodes && w[i + 1] in nodes[w[i]].children
  }

  ghost predicate Reachable(nodes: Graph, requested: seq<string>, g: string) {
    exists w :: Walk(nodes, w) && w[0] in requested && w[|w| - 1] == g
  }

  lemma {:induction false} VisitedSound(nodes: Graph, g: string, path: set<string>, x: string) returns (w: seq<string>)
    requires x in Visited(nodes, g, path)
    ensures Walk(nodes, w) && w[0] == g && w[|w| - 1] == x
    decreases nodes.Keys - path, 0
  {
    if x == g {
      w := [g];
    } else {
      var v := VisitedAllSound(nodes, nodes[g].children, path + {g}, x);
      w := [g] + v;
      assert forall i | 0 < i < |w| :: w[i] == v[i - 1];
    }
  }

  lemma {:induction false} VisitedAllSound(nodes: Graph, gs: seq<string>, path: set<string>, x: string)
    returns (w: seq<string>)
    requires x in VisitedAll(nodes, gs, path)
    ensures Walk(nodes, w) && w[0] in gs && w[|w| - 1] == x
    decreases nodes.Keys - path, 1 + |gs|
  {
    var n := |gs| - 1;
    if x in Visited(nodes, gs[n], path) {
      w := VisitedSound(nodes, gs[n], path, x);
    } else {
      w := VisitedAllSound(nodes, gs[..n], path, x);
    }
  }

  lemma {:induction false} VisitedAllHas(nodes: Graph, gs: seq<string>, path: set<string>, g: string)
    requires g in gs
    ensures Visited(nodes, g, path) <= VisitedAll(nodes, gs, path)
    ensures Expanded(nodes, g, path) <= ExpandedAll(nodes, gs, path)
  {
    var n := |gs| - 1;
    if gs[n] != g {
      VisitedAllHas(nodes, gs[..n], path, g);
    }
  }

  ghost predicate Avoids(w: seq<string>, path: set<string>) {
    forall i | 0 <= i < |w| - 1 :: w[i] !in path
  }

  /** Where a walk leaves `g` for the last time before its end. */
  ghost function LastExit(w: seq<string>, g: string, n: nat): (k: nat)
    requires 0 < n < |w| && w[0] == g
    ensures k < n && w[k] == g && forall i | k < i < n :: w[i] != g
  {
    if w[n - 1] == g then n - 1 else LastExit(w, g, n - 1)
  }

  /** Pruning along the path loses nothing: cut the walk after its last return to `g`. */
  lemma {:induction false} VisitedComplete(nodes: Graph, w: seq<string>, path: set<string>)
    requires Walk(nodes, w) && Avoids(w, path)
    ensures w[|w| - 1] in Visited(nodes, w[0], path)
    decreases |w|
  {
    if |w| > 1 {
      var g := w[0];
      var k := LastExit(w, g, |w| - 1);
      var rest := w[k + 1..];
      assert Walk(nodes, rest) && Avoids(rest, path + {g}) by {
        forall i | 0 <= i < |rest| - 1
          ensures rest[i] in nodes && rest[i + 1] in nodes[rest[i]].children && rest[i] !in path + {g}
        {
          assert rest[i] == w[k + 1 + i] && rest[i + 1] == w[k + 2 + i];
        }
      }
      VisitedComplete(nodes, rest, path + {g});
      assert rest[|rest| - 1] == w[|w| - 1] && rest[0] == w[k + 1];
      VisitedAllHas(nodes, nodes[g].children, path + {g}, rest[0]);
    }
  }

  /** The search visits exactly the reachable groups, on every graph, cycles included. */
  lemma ReachExact(nodes: Graph, requested: seq<string>, g: string)
    ensures g in VisitedAll(nodes, requested, {}) <==> Reachable(nodes, requested, g)
  {
    if g in VisitedAll(nodes, requested, {}) {
      var w := VisitedAllSound(nodes, requested, {}, g);
    }
    if Reachable(nodes, requested, g) {
      var w :| Walk(nodes, w) && w[0] in requested && w[|w| - 1] == g;
      VisitedComplete(nodes, w, {});
      VisitedAllHas(nodes, requested, {}, w[0]);
    }
  }

  lemma {:induction false} ExpandedBounds(nodes: Graph, g: string, path: set<string>)
    ensures forall x | x in Expanded(nodes, g, path) :: x in Visited(nodes, g, path) && x in nodes
    ensures forall x | x in Visited(nodes, g, path) && x in nodes :: x in Expanded(nodes, g, path) || x in path
    decreases nodes.Keys - path, 0
  {
    if g in nodes && g !in path {
      ExpandedAllBounds(nodes, nodes[g].children, path + {g});
    }
  }

  lemma {:induction false} ExpandedAllBounds(nodes: Graph, gs: seq<string>, path: set<string>)
    ensures forall x | x in ExpandedAll(nodes, gs, path) :: x in VisitedAll(nodes, gs, path) && x in nodes
    ensures forall x | x in VisitedAll(nodes, gs, path) && x in nodes :: x in ExpandedAll(nodes, gs, path) || x in path
    decreases nodes.Keys - path, 1 + |gs|
  {
    if gs != [] {
      ExpandedAllBounds(nodes, gs[..|gs| - 1], path);
      ExpandedBounds(nodes, gs[|gs| - 1], path);
    }
  }

  /** The members of every known reachable group are read. */
  lemma ExpandedExact(nodes: Graph, requested: seq<string>)
    ensures ExpandedAll(nodes, requested, {}) == VisitedAll(nodes, requested, {}) * nodes.Keys
  {
    ExpandedAllBounds(nodes, requested, {});
  }

  // ---- what is recorded about them ------------------------------------------------

  function LocalGroups(nodes: Graph, visited: set<string>): set<string> {
    set g | g in visited && g in nodes && nodes[g].localGroup.Some? :: nodes[g].localGroup.value
  }

  function Unresolved(nodes: Graph, visited: set<string>): set<string> {
    set g | g in visited && (g !in nodes || nodes[g].localGroup.None?)
  }

  function Members(nodes: Graph, groups: set<string>): set<string> {
    set g, i | g in groups && g in nodes && 0 <= i < |nodes[g].identities| :: nodes[g].identities[i]
  }

  function OpaqueAmong(mapper: Mapper, ids: set<string>): set<string> {
    set i | i in ids && mapper(i).Opaque?
  }

  function Claims(mapper: Mapper, ids: set<string>): map<string, string> {
    map i | i in ids && mapper(i).Mapped? :: mapper(i).principal
  }

  function Principals(mapper: Mapper, ids: set<string>): set<string> {
    set i | i in ids && mapper(i).Mapped? :: mapper(i).principal
  }

  predicate Available(mapper: Mapper, ids: set<string>) {
    forall i | i in ids :: !mapper(i).Unavailable?
  }

  function Items(m: map<string, string>): seq<(string, string)> {
    var keys := Sort(m.Keys);
    assert forall i | 0 <= i < |keys| :: keys[i] in Elements(keys);
    seq(|keys|, i requires 0 <= i < |keys| => (keys[i], m[keys[i]]))
  }

  /** Every node whose local group was granted, visited or not. */
  function GroupClaims(nodes: Graph, localGroups: set<string>): map<string, string> {
    map g | g in nodes && nodes[g].localGroup.Some? && nodes[g].localGroup.value in localGroups ::
      nodes[g].localGroup.value
  }

  datatype Artifact = Artifact(
    requested: seq<string>, localGroups: seq<string>, localPrincipals: seq<string>, groupClaims: seq<(string, string)>,
    identityClaims: seq<(string, string)>, mappedIdentities: seq<string>, opaqueIdentities: seq<string>,
    unresolved: seq<string>)

  function ArtifactOf(nodes: Graph, requested: seq<string>, mapper: Mapper, reach: set<string>): Artifact {
    var ids := Members(nodes, reach);
    Artifact(requested, Sort(LocalGroups(nodes, reach)), Sort(Principals(mapper, ids)),
             Items(GroupClaims(nodes, LocalGroups(nodes, reach))), Items(Claims(mapper, ids)),
             Sort(Claims(mapper, ids).Keys), Sort(OpaqueAmong(mapper, ids)), Sort(Unresolved(nodes, reach)))
  }

  /** The artifact in terms of reachability alone; unavailable if a reachable identity lookup fails. */
  function Flattened(nodes: Graph, requested: seq<string>, mapper: Mapper): Option<Artifact> {
    var reach := VisitedAll(nodes, requested, {});
    if !(forall i | 0 <= i < |requested| :: IsRef(requested[i])) || !Available(mapper, Members(nodes, reach)) then None
    else Some(ArtifactOf(nodes, requested, mapper, reach))
  }

  class Search {
    const nodes: Graph
    const mapper: Mapper
    var localGroups: set<string>
    var localPrincipals: set<string>
    var claims: map<string, string>
    var opaqueIdentities: set<string>
    var unresolved: set<string>
    ghost var visited: set<string>
    ghost var members: set<string>

    constructor (nodes: Graph, mapper: Mapper)
      ensures this.nodes == nodes && this.mapper == mapper && Consistent() && visited == {} && members == {}
    {
      this.nodes, this.mapper := nodes, mapper;
      localGroups, localPrincipals, claims, opaqueIdentities, unresolved := {}, {}, map[], {}, {};
      visited, members := {}, {};
    }

    /** The accumulators are what the visited groups and the members read so far call for. */
    ghost predicate Consistent()
      reads this
    {
      && localGroups == LocalGroups(nodes, visited) && unresolved == Unresolved(nodes, visited)
      && opaqueIdentities == OpaqueAmong(mapper, members) && claims == Claims(mapper, members)
      && localPrincipals == Principals(mapper, members) && Available(mapper, members)
    }

    method Record(g: string)
      requires Consistent()
      modifies this`localGroups, this`unresolved, this`visited
      ensures Consistent() && visited == old(visited) + {g}
    {
      if g !in nodes || nodes[g].localGroup.None? {
        unresolved := unresolved + {g};
      } else {
        localGroups := localGroups + {nodes[g].localGroup.value};
      }
      visited := visited + {g};
    }

    method ReadMember(i: string) returns (ok: bool)
      requires Consistent()
      modifies this`localPrincipals, this`claims, this`opaqueIdentities, this`members
      ensures ok <==> !mapper(i).Unavailable?
      ensures ok ==> Consistent() && members == old(members) + {i}
    {
      match mapper(i) {
        case Unavailable =>
          return false;
        case Opaque =>
          opaqueIdentities := opaqueIdentities + {i};
        case Mapped(principal) =>
          localPrincipals := localPrincipals + {principal};
          claims := claims[i := principal];
      }
      members := members + {i};
      ok := true;
    }

    method ReadMembers(ids: seq<string>) returns (ok: bool)
      requires Consistent()
      modifies this`localPrincipals, this`claims, this`opaqueIdentities, this`members
      ensures ok <==> Available(mapper, Elements(ids))
      ensures ok ==> Consistent() && members == old(members) + Elements(ids)
    {
      hide Consistent;
      for k := 0 to |ids|
        invariant Consistent() && members == old(members) + Elements(ids[..k])
        invariant Available(mapper, Elements(ids[..k]))
      {
        assert Elements(ids[..k + 1]) == Elements(ids[..k]) + {ids[k]};
        ok := ReadMember(ids[k]);
        if !ok {
          assert ids[k] in Elements(ids);
          return;
        }
      }
      assert ids[..|ids|] == ids;
      ok := true;
    }

    method Report(requested: seq<string>) returns (a: Artifact)
      requires Consistent() && members == Members(nodes, visited)
      ensures a == ArtifactOf(nodes, requested, mapper, visited)
    {
      hide Sort, Items, LocalGroups, Unresolved, OpaqueAmong, Claims, Principals, GroupClaims, Available, Members;
      a := Artifact(requested, Sort(localGroups), Sort(localPrincipals), Items(GroupClaims(nodes, localGroups)),
                    Items(claims), Sort(claims.Keys), Sort(opaqueIdentities), Sort(unresolved));
    }

    method Visit(g: string, path: set<string>) returns (ok: bool)
      requires Consistent()
      modifies this
      ensures ok <==> Available(mapper, Members(nodes, Expanded(nodes, g, path)))
      ensures ok ==> Consistent() && visited == old(visited) + Visited(nodes, g, path)
      ensures ok ==> members == old(members) + Members(nodes, Expanded(nodes, g, path))
      decreases nodes.Keys - path, 0
    {
      hide Consistent, Members, Available;
      Record(g);
      if g !in nodes || g in path {
        NoMembers(nodes, mapper);
        return true;
      }
      ghost var inner := ExpandedAll(nodes, nodes[g].children, path + {g});
      MembersSplit(nodes, g, inner);
      AvailableUnion(mapper, Elements(nodes[g].identities), Members(nodes, inner));
      ok := ReadMembers(nodes[g].identities);
      if ok {
        ok := VisitAll(nodes[g].children, path + {g});
      }
    }

    /** The loop over child groups. */
    method VisitAll(gs: seq<string>, path: set<string>) returns (ok: bool)
      requires Consistent()
      modifies this
      ensures ok <==> Available(mapper, Members(nodes, ExpandedAll(nodes, gs, path)))
      ensures ok ==> Consistent() && visited == old(visited) + VisitedAll(nodes, gs, path)
      ensures ok ==> members == old(members) + Members(nodes, ExpandedAll(nodes, gs, path))
      decreases nodes.Keys - path, 1
    {
      hide Consistent, Members, Available;
      NoMembers(nodes, mapper);
      for k := 0 to |gs|
        invariant Consistent() && visited == old(visited) + VisitedAll(nodes, gs[..k], path)
        invariant members == old(members) + Members(nodes, ExpandedAll(nodes, gs[..k], path))
        invariant Available(mapper, Members(nodes, ExpandedAll(nodes, gs[..k], path)))
      {
        assert gs[..k + 1][..k] == gs[..k] && gs[..k + 1][k] == gs[k];
        MembersUnion(nodes, ExpandedAll(nodes, gs[..k], path), Expanded(nodes, gs[k], path));
        AvailableUnion(mapper, Members(nodes, ExpandedAll(nodes, gs[..k], path)),
                       Members(nodes, Expanded(nodes, gs[k], path)));
        ok := Visit(gs[k], path);
        if !ok {
          ExpandedPrefix(nodes, gs, k + 1, path);
          UnavailableSuperset(mapper, Members(nodes, ExpandedAll(nodes, gs[..k + 1], path)),
                              Members(nodes, ExpandedAll(nodes, gs, path)));
          return;
        }
      }
      assert gs[..|gs|] == gs;
      ok := true;
    }
  }

  /** `flatten_feishu_groups`. */
  method Flatten(nodes: Graph, requested: seq<string>, mapper: Mapper) returns (r: Option<Artifact>)
    ensures r == Flattened(nodes, requested, mapper)
  {
    hide Available, Members, ArtifactOf, IsRef, Search.Consistent, Expanded;
    var search := new Search(nodes, mapper);
    NoMembers(nodes, mapper);
    for k := 0 to |requested|
      invariant search.nodes == nodes && search.mapper == mapper && search.Consistent()
      invariant search.visited == VisitedAll(nodes, requested[..k], {})
      invariant search.members == Members(nodes, ExpandedAll(nodes, requested[..k], {}))
      invariant Available(mapper, search.members)
      invariant forall i | 0 <= i < k :: IsRef(requested[i])
    {
      if !IsRef(requested[k]) {
        return None;
      }
      assert requested[..k + 1][..k] == requested[..k] && requested[..k + 1][k] == requested[k];
      ghost var before := ExpandedAll(nodes, requested[..k], {});
      MembersUnion(nodes, before, Expanded(nodes, requested[k], {}));
      AvailableUnion(mapper, Members(nodes, before), Members(nodes, Expanded(nodes, requested[k], {})));
      var ok := search.Visit(requested[k], {});
      if !ok {
        ExpandedPrefix(nodes, requested, k + 1, {});
        UnavailableSuperset(mapper, Members(nodes, ExpandedAll(nodes, requested[..k + 1], {})),
                        Members(nodes, ExpandedAll(nodes, requested, {})));
        MembersKnown(nodes, requested);
        return None;
      }
    }
    assert requested[..|requested|] == requested;
    MembersKnown(nodes, requested);
    var artifact := search.Report(requested);
    r := Some(artifact);
  }

  lemma NoMembers(nodes: Graph, mapper: Mapper)
    ensures Members(nodes, {}) == {} && Available(mapper, {})
  {
  }

  lemma AvailableUnion(mapper: Mapper, a: set<string>, b: set<string>)
    ensures Available(mapper, a + b) <==> Available(mapper, a) && Available(mapper, b)
  {
  }

  lemma UnavailableSuperset(mapper: Mapper, a: set<string>, b: set<string>)
    requires a <= b && !Available(mapper, a)
    ensures !Available(mapper, b)
  {
  }

  lemma MembersKnown(nodes: Graph, requested: seq<string>)
    ensures Members(nodes, ExpandedAll(nodes, requested, {})) == Members(nodes, VisitedAll(nodes, requested, {}))
  {
    ExpandedExact(nodes, requested);
  }

  lemma MembersUnion(nodes: Graph, a: set<string>, b: set<string>)
    ensures Members(nodes, a + b) == Members(nodes, a) + Members(nodes, b)
  {
  }

  lemma MembersSplit(nodes: Graph, g: string, rest: set<string>)
    requires g in nodes
    ensures Members(nodes, {g} + rest) == Elements(nodes[g].identities) + Members(nodes, rest)
  {
    MembersUnion(nodes, {g}, rest);
    assert Members(nodes, {g}) == Elements(nodes[g].identities);
  }

  lemma {:induction false} ExpandedPrefix(nodes: Graph, gs: seq<string>, k: nat, path: set<string>)
    requires k <= |gs|
    ensures ExpandedAll(nodes, gs[..k], path) <= ExpandedAll(nodes, gs, path)
    ensures Members(nodes, ExpandedAll(nodes, gs[..k], path)) <= Members(nodes, ExpandedAll(nodes, gs, path))
  {
    if k == |gs| {
      assert gs[..k] == gs;
    } else {
      var n := |gs| - 1;
      assert gs[..n][..k] == gs[..k];
      ExpandedPrefix(nodes, gs[..n], k, path);
      MembersUnion(nodes, ExpandedAll(nodes, gs[..n], path), Expanded(nodes, gs[n], path));
    }
  }

  // ---- what the artifact means ----------------------------------------------------

  lemma InSort(s: set<string>, x: string)
    ensures x in Sort(s) <==> x in s
  {
    hide Sort;
    assert x in Sort(s) <==> x in Elements(Sort(s));
  }

  lemma InItems(m: map<string, string>, k: string, v: string)
    ensures (k, v) in Items(m) <==> k in m && m[k] == v
  {
    hide Sort, StrictlySorted, Less;
    var keys := Sort(m.Keys);
    assert forall i | 0 <= i < |keys| :: keys[i] in Elements(keys);
    if k in m && m[k] == v {
      assert k in Elements(keys);
      var i :| 0 <= i < |keys| && keys[i] == k;
      assert Items(m)[i] == (k, v);
    }
  }

  ghost predicate KnownGroup(nodes: Graph, requested: seq<string>, g: string) {
    g in nodes && Reachable(nodes, requested, g)
  }

  /** `i` is a direct member of a known group reachable from the request. */
  ghost predicate ReachableMember(nodes: Graph, requested: seq<string>, i: string) {
    exists g :: KnownGroup(nodes, requested, g) && i in nodes[g].identities
  }

  ghost predicate ReachableLocal(nodes: Graph, requested: seq<string>, l: string) {
    exists g :: KnownGroup(nodes, requested, g) && nodes[g].localGroup == Some(l)
  }

  lemma MemberExact(nodes: Graph, requested: seq<string>, i: string)
    ensures i in Members(nodes, VisitedAll(nodes, requested, {})) <==> ReachableMember(nodes, requested, i)
  {
    hide Reachable, VisitedAll;
    var reach := VisitedAll(nodes, requested, {});
    if i in Members(nodes, reach) {
      var g, k :| g in reach && g in nodes && 0 <= k < |nodes[g].identities| && nodes[g].identities[k] == i;
      ReachExact(nodes, requested, g);
      assert KnownGroup(nodes, requested, g);
    }
    if ReachableMember(nodes, requested, i) {
      var g :| KnownGroup(nodes, requested, g) && i in nodes[g].identities;
      ReachExact(nodes, requested, g);
      var k :| 0 <= k < |nodes[g].identities| && nodes[g].identities[k] == i;
    }
  }

  lemma LocalExact(nodes: Graph, requested: seq<string>, l: string)
    ensures l in LocalGroups(nodes, VisitedAll(nodes, requested, {})) <==> ReachableLocal(nodes, requested, l)
  {
    hide Reachable, VisitedAll;
    var reach := VisitedAll(nodes, requested, {});
    if l in LocalGroups(nodes, reach) {
      var g :| g in reach && g in nodes && nodes[g].localGroup == Some(l);
      ReachExact(nodes, requested, g);
      assert KnownGroup(nodes, requested, g);
    }
    if ReachableLocal(nodes, requested, l) {
      var g :| KnownGroup(nodes, requested, g) && nodes[g].localGroup == Some(l);
      ReachExact(nodes, requested, g);
    }
  }

  ghost predicate AllRefs(requested: seq<string>) {
    forall i | 0 <= i < |requested| :: IsRef(requested[i])
  }

  /** Flattening fails exactly when a reachable member's identity lookup does. */
  lemma FlattenFails(nodes: Graph, requested: seq<string>, mapper: Mapper)
    requires AllRefs(requested)
    ensures Flattened(nodes, requested, mapper).None? <==>
            exists i :: ReachableMember(nodes, requested, i) && mapper(i).Unavailable?
  {
    hide Members, VisitedAll, ReachableMember, ArtifactOf;
    var ids := Members(nodes, VisitedAll(nodes, requested, {}));
    if i :| ReachableMember(nodes, requested, i) && mapper(i).Unavailable? {
      MemberExact(nodes, requested, i);
    }
    if !Available(mapper, ids) {
      var i :| i in ids && mapper(i).Unavailable?;
      MemberExact(nodes, requested, i);
    }
  }

  /** Groups of the artifact: exactly the local groups of what is reachable, exactly the
      reachable references that are unknown or unmapped, and claims that cover every reachable
      mapped node while naming granted groups only. */
  lemma FlattenGroups(nodes: Graph, requested: seq<string>, mapper: Mapper, x: string)
    requires Flattened(nodes, requested, mapper).Some?
    ensures var a := Flattened(nodes, requested, mapper).value;
      && (x in a.localGroups <==> ReachableLocal(nodes, requested, x))
      && (x in a.unresolved <==> Reachable(nodes, requested, x) && (x !in nodes || nodes[x].localGroup.None?))
      && (KnownGroup(nodes, requested, x) && nodes[x].localGroup.Some? ==>
            (x, nodes[x].localGroup.value) in a.groupClaims)
      && (forall l :: (x, l) in a.groupClaims <==> x in nodes && nodes[x].localGroup == Some(l) && l in a.localGroups)
  {
    hide Members, VisitedAll, Sort, Items, Claims, Principals, OpaqueAmong, Reachable;
    var reach := VisitedAll(nodes, requested, {});
    ReachExact(nodes, requested, x);
    LocalExact(nodes, requested, x);
    InSort(LocalGroups(nodes, reach), x);
    InSort(Unresolved(nodes, reach), x);
    if x in reach && x in nodes && nodes[x].localGroup.Some? {
      InSort(LocalGroups(nodes, reach), nodes[x].localGroup.value);
    }
    forall l ensures (x, l) in Items(GroupClaims(nodes, LocalGroups(nodes, reach))) <==>
                     x in nodes && nodes[x].localGroup == Some(l) && l in Sort(LocalGroups(nodes, reach))
    {
      InItems(GroupClaims(nodes, LocalGroups(nodes, reach)), x, l);
      InSort(LocalGroups(nodes, reach), l);
    }
  }

  /** Identities of the artifact: exactly the reachable members, split by their mapping. */
  lemma FlattenIdentities(nodes: Graph, requested: seq<string>, mapper: Mapper, x: string)
    requires Flattened(nodes, requested, mapper).Some?
    ensures var a := Flattened(nodes, requested, mapper).value;
      && (x in a.opaqueIdentities <==> ReachableMember(nodes, requested, x) && mapper(x).Opaque?)
      && (x in a.mappedIdentities <==> ReachableMember(nodes, requested, x) && mapper(x).Mapped?)
      && (forall p :: (x, p) in a.identityClaims <==> ReachableMember(nodes, requested, x) && mapper(x) == Mapped(p))
      && (x in a.localPrincipals <==> exists i :: ReachableMember(nodes, requested, i) && mapper(i) == Mapped(x))
  {
    hide Members, VisitedAll, Sort, Items, GroupClaims, LocalGroups, Unresolved, ReachableMember;
    var ids := Members(nodes, VisitedAll(nodes, requested, {}));
    MemberExact(nodes, requested, x);
    InSort(OpaqueAmong(mapper, ids), x);
    InSort(Claims(mapper, ids).Keys, x);
    InSort(Principals(mapper, ids), x);
    forall p ensures (x, p) in Items(Claims(mapper, ids)) <==> x in ids && mapper(x) == Mapped(p) {
      InItems(Claims(mapper, ids), x, p);
    }
    if x in Principals(mapper, ids) {
      var i :| i in ids && mapper(i) == Mapped(x);
      MemberExact(nodes, requested, i);
    }
    if i :| ReachableMember(nodes, requested, i) && mapper(i) == Mapped(x) {
      MemberExact(nodes, requested, i);
    }
  }

  function SharedGroup(): Graph {
    map["a" := Node(Some("l"), [], []), "b" := Node(Some("l"), [], [])]
  }

  lemma SharedVisits()
    ensures VisitedAll(SharedGroup(), ["a"], {}) == {"a"}
  {
    var nodes := SharedGroup();
    var requested := ["a"];
    assert requested[..0] == [];
    assert VisitedAll(nodes, requested[..0], {}) == {};
    assert Visited(nodes, "a", {}) == {"a"};
  }

  /** A claim may name a node nothing requested reaches, when it shares a granted local group. */
  lemma ClaimBeyondReach(mapper: Mapper)
    ensures var a := Flattened(SharedGroup(), ["a"], mapper);
      a.Some? && ("b", "l") in a.value.groupClaims && !Reachable(SharedGroup(), ["a"], "b")
  {
    hide Sort, Items, VisitedAll, Reachable, LocalGroups, Claims, Principals, Unresolved, GroupClaims, OpaqueAmong;
    var nodes, requested := SharedGroup(), ["a"];
    SharedVisits();
    ReachExact(nodes, requested, "b");
    ReachExact(nodes, requested, "a");
    assert Members(nodes, {"a"}) == {};
    FlattenGroups(nodes, requested, mapper, "b");
    FlattenGroups(nodes, requested, mapper, "l");
    assert KnownGroup(nodes, requested, "a");
  }
}
