/**
 Article visibility: the first-ingest cascade, and the floor that source ACL evidence puts
 under it. Every observation can only narrow what the local policy shows, or isolate.
 */
module AccessPolicy {
  import opened Order
  import opened References

  type Uuid = nat
  const MAX_VERSION: int := 0x7fff_ffff_ffff_ffff

  datatype Kind = Private | Organization | Groups
  datatype Setting = Setting(kind: Kind, groups: set<string>)

  /** Who owns a group, as far as the directory can tell. */
  type Directory = string -> Option<Uuid>

  datatype Policy = Policy(organization: Uuid, setting: Setting, version: int)

  datatype Rung = ExplicitArticle | SourceDefault | TenantDefault | Isolation
  datatype Resolution = Resolution(policy: Option<Policy>, rung: Rung)

  datatype Status = Resolved | Missing | Failed | UnresolvedGroup
  datatype Evidence = Evidence(status: Status, observed: Option<Setting>, mirrored: bool)

  const Isolated: Resolution := Resolution(None, Isolation)

  /** `_require_policy_setting_shape`, with `GroupRef` construction. */
  predicate WellShaped(s: Setting) {
    && (forall g | g in s.groups :: IsRef(g))
    && (s.kind.Groups? <==> s.groups != {})
  }

  predicate Owned(org: Uuid, directory: Directory, s: Setting) {
    forall g | g in s.groups :: directory(g) == Some(org)
  }

  /** `_validated_policy`; None is the exception. */
  function Validated(org: Uuid, directory: Directory, s: Setting, version: int): Option<Policy> {
    if WellShaped(s) && Owned(org, directory, s) && 1 <= version <= MAX_VERSION then Some(Policy(org, s, version))
    else None
  }

  predicate ValidResolution(r: Resolution) {
    r.rung.Isolation? <==> r.policy.None?
  }

  predicate ValidEvidence(e: Evidence) {
    e.mirrored && (e.status.Resolved? <==> e.observed.Some?)
  }

  /** `resolve_article_access_policy`; None when the chosen setting does not validate. */
  function Resolve(org: Uuid, explicit: Option<Setting>, source: Option<Setting>, tenant: Option<Setting>,
                   directory: Directory): Option<Resolution> {
    var (setting, rung) :=
      if explicit.Some? then (explicit, ExplicitArticle)
      else if source.Some? then (source, SourceDefault)
      else if tenant.Some? then (tenant, TenantDefault)
      else (None, Isolation);
    if setting.None? then Some(Isolated)
    else
      var policy := Validated(org, directory, setting.value, 1);
      if policy.None? then None else Some(Resolution(policy, rung))
  }

  /** `_intersect_policy_settings`. */
  function Intersect(local: Setting, source: Setting): Option<Setting> {
    if local.kind.Private? then Some(local)
    else if source.kind.Private? then Some(source)
    else if local.kind.Organization? then Some(source)
    else if source.kind.Organization? then Some(local)
    else
      var shared := local.groups * source.groups;
      if shared == {} then None else Some(Setting(Groups, shared))
  }

  /** `apply_source_acl_floor`. */
  function Floor(org: Uuid, directory: Directory, r: Resolution, e: Option<Evidence>): Resolution {
    if !ValidResolution(r) then Isolated
    else if r.policy.None? then r
    else
      var local := Validated(org, directory, r.policy.value.setting, r.policy.value.version);
      if local.None? || e.None? || !ValidEvidence(e.value) || !e.value.status.Resolved? then Isolated
      else
        var source := Validated(org, directory, e.value.observed.value, local.value.version);
        if source.None? then Isolated
        else
          var both := Intersect(local.value.setting, source.value.setting);
          if both.None? then Isolated
          else
            var policy := Validated(org, directory, both.value, local.value.version);
            if policy.None? then Isolated else Resolution(policy, r.rung)
  }

  /** The cascade takes the first setting present and never a broader later one: an invalid first
      setting is refused, not skipped. */
  lemma ResolveFirst(org: Uuid, explicit: Option<Setting>, source: Option<Setting>, tenant: Option<Setting>,
                     directory: Directory)
    ensures var r := Resolve(org, explicit, source, tenant, directory);
      var first := if explicit.Some? then explicit else if source.Some? then source else tenant;
      && (r.Some? ==> Sound(org, directory, r.value))
      && (r.Some? && r.value.policy.Some? ==> first == Some(r.value.policy.value.setting))
      && (first.None? ==> r == Some(Isolated))
      && (first.Some? ==> (r.Some? <==> WellShaped(first.value) && Owned(org, directory, first.value)))
  {
    hide WellShaped;
  }

  // ---- who can see ----------------------------------------------------------------

  /** Whether a member of the organization with these groups may see the article. */
  predicate SettingShows(s: Setting, viewer: set<string>) {
    match s.kind
    case Private => false
    case Organization => true
    case Groups => viewer * s.groups != {}
  }

  predicate Shows(r: Resolution, viewer: set<string>) {
    r.policy.Some? && SettingShows(r.policy.value.setting, viewer)
  }

  /** One observation is usable for this organization. */
  predicate Usable(org: Uuid, directory: Directory, e: Option<Evidence>) {
    && e.Some? && ValidEvidence(e.value) && e.value.status.Resolved?
    && WellShaped(e.value.observed.value) && Owned(org, directory, e.value.observed.value)
  }

  predicate Sound(org: Uuid, directory: Directory, r: Resolution) {
    && ValidResolution(r)
    && (r.policy.Some? ==>
          var p := r.policy.value;
          && p.organization == org && WellShaped(p.setting) && Owned(org, directory, p.setting)
          && 1 <= p.version <= MAX_VERSION)
  }

  /** The floor publishes exactly when both sides are valid and meet; the final validation of the
      intersection never fails, and it keeps rung and version. */
  lemma FloorExactly(org: Uuid, directory: Directory, r: Resolution, e: Option<Evidence>)
    requires Sound(org, directory, r)
    ensures var after := Floor(org, directory, r, e);
      && Sound(org, directory, after)
      && (after.policy.Some? <==>
            && r.policy.Some? && Usable(org, directory, e)
            && Intersect(r.policy.value.setting, e.value.observed.value).Some?)
      && (after.policy.Some? ==>
            && after.rung == r.rung
            && after.policy.value ==
               Policy(org, Intersect(r.policy.value.setting, e.value.observed.value).value, r.policy.value.version))
      && (after.policy.None? ==> after == Isolated)
  {
    hide IsRef;
  }

  /** Nobody sees more than the local policy or the source shows. */
  lemma FloorNarrows(org: Uuid, directory: Directory, r: Resolution, e: Option<Evidence>, viewer: set<string>)
    requires Shows(Floor(org, directory, r, e), viewer)
    ensures Shows(r, viewer) && e.Some? && e.value.observed.Some? && SettingShows(e.value.observed.value, viewer)
  {
    hide IsRef;
    var both := Floor(org, directory, r, e).policy.value.setting;
    if both.kind.Groups? {
      var g :| g in viewer * both.groups;
      assert g in viewer * r.policy.value.setting.groups || r.policy.value.setting.kind.Organization?;
      assert g in viewer * e.value.observed.value.groups || e.value.observed.value.kind.Organization?;
    }
  }

  // ---- many observations ----------------------------------------------------------

  /** One observation, with the directory as it was then. */
  datatype Observation = Observation(evidence: Option<Evidence>, directory: Directory)

  function Fold(org: Uuid, r: Resolution, seen: seq<Observation>): Resolution {
    if seen == [] then r
    else Floor(org, seen[|seen| - 1].directory, Fold(org, r, seen[..|seen| - 1]), seen[|seen| - 1].evidence)
  }

  lemma FloorShape(org: Uuid, directory: Directory, r: Resolution, e: Option<Evidence>)
    requires ValidResolution(r)
    ensures var after := Floor(org, directory, r, e);
      && ValidResolution(after)
      && (after.policy.Some? ==> r.policy.Some? && after.rung == r.rung && Usable(org, directory, e))
      && (after.policy.None? ==> after == Isolated)
  {
    hide IsRef;
  }

  /** Over any list of observations, under directories that may change: visibility never widens,
      the rung stays while published, and one unusable observation isolates for good. */
  lemma {:induction false} FoldNarrows(org: Uuid, r: Resolution, seen: seq<Observation>)
    requires ValidResolution(r)
    ensures var after := Fold(org, r, seen);
      && ValidResolution(after)
      && (forall viewer | Shows(after, viewer) :: Shows(r, viewer))
      && (after.policy.Some? ==> r.policy.Some? && after.rung == r.rung)
      && (after.policy.Some? ==> forall i | 0 <= i < |seen| :: Usable(org, seen[i].directory, seen[i].evidence))
      && (after.policy.None? ==> after == Isolated)
  {
    hide Floor, Usable, Shows;
    if seen != [] {
      var n := |seen| - 1;
      FoldNarrows(org, r, seen[..n]);
      var before := Fold(org, r, seen[..n]);
      FloorShape(org, seen[n].directory, before, seen[n].evidence);
      forall viewer | Shows(Fold(org, r, seen), viewer) ensures Shows(r, viewer) {
        FloorNarrows(org, seen[n].directory, before, seen[n].evidence, viewer);
      }
    }
  }

  // ---- the order of observations --------------------------------------------------

  type Evidences = seq<Option<Evidence>>

  function FoldAll(org: Uuid, directory: Directory, r: Resolution, es: Evidences): Resolution {
    if es == [] then r
    else Floor(org, directory, FoldAll(org, directory, r, es[..|es| - 1]), es[|es| - 1])
  }

  predicate Restricts(e: Option<Evidence>, kind: Kind) {
    e.Some? && e.value.observed.Some? && e.value.observed.value.kind == kind
  }

  ghost predicate AllUsable(org: Uuid, directory: Directory, es: Evidences) {
    forall e | e in es :: Usable(org, directory, e)
  }

  ghost predicate AnyOf(es: Evidences, kind: Kind) {
    exists e | e in es :: Restricts(e, kind)
  }

  /** The group is in the local policy, unless that is open, and in every group observation. */
  ghost predicate InAll(local: Setting, es: Evidences, g: string) {
    && (local.kind.Groups? ==> g in local.groups)
    && (forall e | e in es && Restricts(e, Groups) :: g in e.value.observed.value.groups)
  }

  /** Without a private side, the result shows exactly the shared groups, or everyone if nothing
      names groups. */
  ghost predicate MeetIs(local: Setting, es: Evidences, s: Setting) {
    && (s.kind.Organization? <==> local.kind.Organization? && !AnyOf(es, Groups))
    && !s.kind.Private?
    && (s.kind.Groups? ==> forall g :: g in s.groups <==> InAll(local, es, g))
  }

  ghost predicate Meets(local: Setting, es: Evidences) {
    (local.kind.Organization? && !AnyOf(es, Groups)) || exists g :: InAll(local, es, g)
  }

  ghost predicate HasPrivate(local: Setting, es: Evidences) {
    local.kind.Private? || AnyOf(es, Private)
  }

  /** The observations before the first private one. */
  ghost function BeforePrivate(es: Evidences): Evidences {
    if es == [] then []
    else
      var init, last := es[..|es| - 1], es[|es| - 1];
      if AnyOf(init, Private) then BeforePrivate(init) else if Restricts(last, Private) then init else es
  }

  /** What folding gives, said of the list as a whole: it publishes exactly when the local policy is
      private or meets every observation before the first private one. */
  ghost predicate FoldsTo(org: Uuid, directory: Directory, r: Resolution, es: Evidences, after: Resolution)
    requires r.policy.Some?
  {
    var local := r.policy.value.setting;
    && Sound(org, directory, after)
    && (after.policy.None? ==> after == Isolated)
    && (after.policy.Some? ==> after.rung == r.rung && after.policy.value.version == r.policy.value.version)
    && (!AllUsable(org, directory, es) ==> after == Isolated)
    && (AllUsable(org, directory, es) ==> (after.policy.Some? <==> Publishes(local, es)))
    && (AllUsable(org, directory, es) && after.policy.Some? ==>
          if HasPrivate(local, es) then after.policy.value.setting.kind.Private?
          else MeetIs(local, es, after.policy.value.setting))
  }

  ghost predicate Publishes(local: Setting, es: Evidences) {
    local.kind.Private? || Meets(local, BeforePrivate(es))
  }

  lemma BeforeSnoc(init: Evidences, e: Option<Evidence>)
    ensures BeforePrivate(init + [e]) ==
            if AnyOf(init, Private) then BeforePrivate(init) else if Restricts(e, Private) then init else init + [e]
  {
    hide AnyOf, Restricts;
    assert (init + [e])[..|init|] == init;
  }

  lemma {:induction false} BeforeNone(es: Evidences)
    requires !AnyOf(es, Private)
    ensures BeforePrivate(es) == es
  {
    if es != [] {
      var n := |es| - 1;
      assert es == es[..n] + [es[n]];
      assert es[n] in es && forall e | e in es[..n] :: e in es;
    }
  }

  lemma Snoc(org: Uuid, directory: Directory, local: Setting, init: Evidences, e: Option<Evidence>)
    ensures var es := init + [e];
      && (AllUsable(org, directory, es) <==> AllUsable(org, directory, init) && Usable(org, directory, e))
      && (forall kind :: AnyOf(es, kind) <==> AnyOf(init, kind) || Restricts(e, kind))
      && (forall g :: InAll(local, es, g) <==>
            InAll(local, init, g) && (Restricts(e, Groups) ==> g in e.value.observed.value.groups))
  {
    hide Usable;
    var es := init + [e];
    assert forall x :: x in es <==> x in init || x == e;
    forall kind ensures AnyOf(es, kind) <==> AnyOf(init, kind) || Restricts(e, kind) {
      if x :| x in init && Restricts(x, kind) {
        assert x in es;
      }
      if Restricts(e, kind) {
        assert e in es;
      }
    }
    forall g
      ensures InAll(local, es, g) <==>
              InAll(local, init, g) && (Restricts(e, Groups) ==> g in e.value.observed.value.groups)
    {
      if InAll(local, es, g) {
        assert forall x | x in init :: x in es;
        assert e in es;
      }
    }
  }

  lemma {:induction false} FoldExactly(org: Uuid, directory: Directory, r: Resolution, es: Evidences)
    requires Sound(org, directory, r) && r.policy.Some?
    ensures FoldsTo(org, directory, r, es, FoldAll(org, directory, r, es))
  {
    if es == [] {
      EmptyFold(org, directory, r);
    } else {
      var n := |es| - 1;
      assert es == es[..n] + [es[n]];
      FoldExactly(org, directory, r, es[..n]);
      hide FoldsTo, Sound, Floor;
      FoldStep(org, directory, r, es[..n], FoldAll(org, directory, r, es[..n]), es[n]);
    }
  }

  lemma EmptyFold(org: Uuid, directory: Directory, r: Resolution)
    requires Sound(org, directory, r) && r.policy.Some?
    ensures FoldsTo(org, directory, r, [], r)
  {
    var local := r.policy.value.setting;
    if local.kind.Groups? {
      var g :| g in local.groups;
      assert InAll(local, [], g);
    }
  }

  lemma FoldStep(org: Uuid, directory: Directory, r: Resolution, init: Evidences, before: Resolution,
                 e: Option<Evidence>)
    requires r.policy.Some? && FoldsTo(org, directory, r, init, before)
    ensures FoldsTo(org, directory, r, init + [e], Floor(org, directory, before, e))
  {
    hide Floor, Usable, AllUsable, WellShaped, Owned, BeforePrivate, Meets, MeetIs, AnyOf;
    var local := r.policy.value.setting;
    Snoc(org, directory, local, init, e);
    FloorExactly(org, directory, before, e);
    BeforeSnoc(init, e);
    var es, after := init + [e], Floor(org, directory, before, e);
    if AllUsable(org, directory, es) {
      UsableParts(org, directory, e);
      if !AnyOf(init, Private) {
        BeforeNone(init);
      }
      if !HasPrivate(local, es) {
        if before.policy.Some? {
          ShapedKind(before.policy.value.setting);
          MeetStep(local, init, before.policy.value.setting, e);
        } else {
          NoMeetStep(local, init, e);
        }
      }
    }
  }

  lemma UsableParts(org: Uuid, directory: Directory, e: Option<Evidence>)
    requires Usable(org, directory, e)
    ensures e.Some? && e.value.observed.Some? && WellShaped(e.value.observed.value)
    ensures e.value.observed.value.kind.Groups? <==> e.value.observed.value.groups != {}
  {
  }

  lemma ShapedKind(s: Setting)
    requires WellShaped(s)
    ensures s.kind.Groups? <==> s.groups != {}
  {
  }

  lemma MeetStep(local: Setting, init: Evidences, s: Setting, e: Option<Evidence>)
    requires MeetIs(local, init, s) && e.Some? && e.value.observed.Some? && !Restricts(e, Private)
    requires !local.kind.Private? && (s.kind.Groups? <==> s.groups != {})
    requires e.value.observed.value.kind.Groups? <==> e.value.observed.value.groups != {}
    ensures var es := init + [e];
      var both := Intersect(s, e.value.observed.value);
      && (both.Some? <==> Meets(local, es))
      && (both.Some? ==> MeetIs(local, es, both.value))
  {
    hide AnyOf, InAll;
    Snoc(0, _ => None, local, init, e);
    var seen := e.value.observed.value;
    if s.kind.Organization? {
      Unrestricted(local, init);
      if seen.kind.Groups? {
        var g :| g in seen.groups;
        assert InAll(local, init + [e], g);
      }
    } else if seen.kind.Organization? {
      var g :| g in s.groups;
      assert InAll(local, init + [e], g);
    } else if s.groups * seen.groups != {} {
      var g :| g in s.groups * seen.groups;
      assert InAll(local, init + [e], g);
    } else {
      forall g ensures !InAll(local, init + [e], g) {
        assert g !in s.groups * seen.groups;
      }
      assert AnyOf(init + [e], Groups);
    }
  }

  lemma Unrestricted(local: Setting, es: Evidences)
    requires local.kind.Organization? && !AnyOf(es, Groups)
    ensures forall g :: InAll(local, es, g)
  {
  }

  lemma NoMeetStep(local: Setting, init: Evidences, e: Option<Evidence>)
    requires !Meets(local, init)
    ensures !Meets(local, init + [e])
  {
    hide AnyOf, InAll;
    Snoc(0, _ => None, local, init, e);
  }

  lemma SameMembers(es: Evidences, fs: Evidences)
    requires multiset(es) == multiset(fs)
    ensures forall e :: e in es <==> e in fs
  {
    forall e ensures e in es <==> e in fs {
      assert e in es <==> e in multiset(es);
      assert e in fs <==> e in multiset(fs);
    }
  }

  /** Any two orders of the same observations give the same resolution, except that one may leave
      the article private where the other isolates it. */
  lemma OrderMatters(org: Uuid, directory: Directory, r: Resolution, es: Evidences, fs: Evidences)
    requires Sound(org, directory, r) && multiset(es) == multiset(fs)
    ensures var a, b := FoldAll(org, directory, r, es), FoldAll(org, directory, r, fs);
      || a == b
      || (a == Isolated && b.policy.Some? && b.policy.value.setting.kind.Private?)
      || (b == Isolated && a.policy.Some? && a.policy.value.setting.kind.Private?)
  {
    hide Floor, FoldAll, Usable, Sound, FoldsTo;
    if r.policy.None? {
      StaysIsolated(org, directory, r, es);
      StaysIsolated(org, directory, r, fs);
    } else {
      FoldExactly(org, directory, r, es);
      FoldExactly(org, directory, r, fs);
      SameMembers(es, fs);
      SameMeaning(org, directory, r.policy.value.setting, es, fs);
      SameOutcome(org, directory, r, es, fs, FoldAll(org, directory, r, es), FoldAll(org, directory, r, fs));
    }
  }

  lemma {:induction false} StaysIsolated(org: Uuid, directory: Directory, r: Resolution, es: Evidences)
    requires Sound(org, directory, r) && r.policy.None?
    ensures FoldAll(org, directory, r, es) == r
  {
    if es != [] {
      StaysIsolated(org, directory, r, es[..|es| - 1]);
    }
  }

  lemma SameMeaning(org: Uuid, directory: Directory, local: Setting, es: Evidences, fs: Evidences)
    requires forall e :: e in es <==> e in fs
    ensures AllUsable(org, directory, es) == AllUsable(org, directory, fs)
    ensures HasPrivate(local, es) == HasPrivate(local, fs) && Meets(local, es) == Meets(local, fs)
    ensures forall s :: MeetIs(local, es, s) == MeetIs(local, fs, s)
  {
    hide Usable, Restricts;
    assert forall kind :: AnyOf(es, kind) == AnyOf(fs, kind) by {
      forall kind ensures AnyOf(es, kind) == AnyOf(fs, kind) {
      }
    }
    assert forall g :: InAll(local, es, g) == InAll(local, fs, g);
    hide AnyOf, InAll;
  }

  lemma SameOutcome(org: Uuid, directory: Directory, r: Resolution, es: Evidences, fs: Evidences, a: Resolution,
                    b: Resolution)
    requires r.policy.Some? && FoldsTo(org, directory, r, es, a) && FoldsTo(org, directory, r, fs, b)
    requires var local := r.policy.value.setting;
      && AllUsable(org, directory, es) == AllUsable(org, directory, fs)
      && HasPrivate(local, es) == HasPrivate(local, fs) && Meets(local, es) == Meets(local, fs)
      && (forall s :: MeetIs(local, es, s) == MeetIs(local, fs, s))
    ensures a == b || (a == Isolated && b.policy.Some? && b.policy.value.setting.kind.Private?)
            || (b == Isolated && a.policy.Some? && a.policy.value.setting.kind.Private?)
  {
    hide AllUsable, AnyOf, BeforePrivate, Meets, IsRef, Owned;
    var local := r.policy.value.setting;
    if !HasPrivate(local, es) {
      BeforeNone(es);
      BeforeNone(fs);
    }
    if a.policy.Some? && b.policy.Some? {
      var s, t := a.policy.value.setting, b.policy.value.setting;
      if AllUsable(org, directory, es) && !HasPrivate(local, es) {
        MeetUnique(local, es, s, t);
      }
    }
    hide MeetIs;
  }

  lemma MeetUnique(local: Setting, es: Evidences, s: Setting, t: Setting)
    requires MeetIs(local, es, s) && MeetIs(local, es, t)
    requires (s.kind.Groups? <==> s.groups != {}) && (t.kind.Groups? <==> t.groups != {})
    ensures s == t
  {
    hide AnyOf, InAll;
    if s.kind.Groups? {
      assert forall g :: g in s.groups <==> g in t.groups;
    }
  }

  // ---- exactly when the order does not matter -------------------------------------

  lemma MeetsFewer(local: Setting, es: Evidences, some: Evidences)
    requires Meets(local, es) && forall e | e in some && Restricts(e, Groups) :: e in es
    ensures Meets(local, some)
  {
    hide Restricts;
    if AnyOf(some, Groups) {
      var e :| e in some && Restricts(e, Groups);
      assert AnyOf(es, Groups);
    }
    if g :| InAll(local, es, g) {
      assert InAll(local, some, g);
    }
  }

  lemma {:induction false} BeforeSubset(es: Evidences, e: Option<Evidence>)
    requires e in BeforePrivate(es)
    ensures e in es
  {
    hide AnyOf, Restricts;
    if es != [] && e in BeforePrivate(es[..|es| - 1]) {
      BeforeSubset(es[..|es| - 1], e);
    }
  }

  /** The condition a caller can check before folding. */
  ghost predicate OrderFree(org: Uuid, directory: Directory, local: Setting, es: Evidences) {
    !AllUsable(org, directory, es) || local.kind.Private? || !AnyOf(es, Private) || Meets(local, es)
  }

  lemma OrderFreeSame(org: Uuid, directory: Directory, r: Resolution, es: Evidences, fs: Evidences)
    requires Sound(org, directory, r) && r.policy.Some? && multiset(es) == multiset(fs)
    requires OrderFree(org, directory, r.policy.value.setting, es)
    ensures FoldAll(org, directory, r, fs) == FoldAll(org, directory, r, es)
  {
    hide Floor, FoldAll, Usable, AllUsable, WellShaped, Owned, BeforePrivate, Meets, MeetIs, AnyOf;
    var local := r.policy.value.setting;
    FoldExactly(org, directory, r, es);
    FoldExactly(org, directory, r, fs);
    SameMembers(es, fs);
    SameMeaning(org, directory, local, es, fs);
    OrderMatters(org, directory, r, es, fs);
    if AllUsable(org, directory, es) && HasPrivate(local, es) && !local.kind.Private? {
      MeetsBefore(local, es);
      MeetsBefore(local, fs);
    }
    if AllUsable(org, directory, es) && !HasPrivate(local, es) {
      BeforeNone(es);
      BeforeNone(fs);
    }
  }

  lemma MeetsBefore(local: Setting, es: Evidences)
    requires Meets(local, es)
    ensures Meets(local, BeforePrivate(es))
  {
    hide Meets, BeforePrivate, Restricts;
    forall e | e in BeforePrivate(es) ensures e in es {
      BeforeSubset(es, e);
    }
    MeetsFewer(local, es, BeforePrivate(es));
  }

  /** The observations that are, or are not, private, in their order. */
  ghost function Part(es: Evidences, closed: bool): Evidences {
    if es == [] then []
    else
      var last := es[|es| - 1];
      Part(es[..|es| - 1], closed) + if Restricts(last, Private) == closed then [last] else []
  }

  lemma {:induction false} PartHas(es: Evidences, closed: bool, e: Option<Evidence>)
    ensures e in Part(es, closed) <==> e in es && Restricts(e, Private) == closed
  {
    hide Restricts;
    if es != [] {
      var n := |es| - 1;
      PartHas(es[..n], closed, e);
      assert es == es[..n] + [es[n]];
    }
  }

  lemma {:induction false} PartsSplit(es: Evidences)
    ensures multiset(Part(es, false) + Part(es, true)) == multiset(es)
  {
    hide Restricts;
    if es != [] {
      var n := |es| - 1;
      PartsSplit(es[..n]);
      assert es == es[..n] + [es[n]];
    }
  }

  lemma {:induction false} BeforeParts(open: Evidences, closed: Evidences)
    requires !AnyOf(open, Private) && forall e | e in closed :: Restricts(e, Private)
    ensures BeforePrivate(open + closed) == open
  {
    hide Restricts;
    if closed == [] {
      assert open + closed == open;
      BeforeNone(open);
    } else {
      var n := |closed| - 1;
      BeforeParts(open, closed[..n]);
      assert open + closed == (open + closed[..n]) + [closed[n]];
      BeforeSnoc(open + closed[..n], closed[n]);
      if n == 0 {
        assert open + closed[..n] == open;
      } else {
        assert closed[0] in open + closed[..n];
      }
    }
  }

  lemma MeetsNothing(local: Setting)
    requires !local.kind.Private? && (local.kind.Groups? <==> local.groups != {})
    ensures Meets(local, [])
  {
    if local.kind.Groups? {
      var g :| g in local.groups;
      assert InAll(local, [], g);
    }
  }

  /** A private observation first publishes; all of them last isolates. */
  lemma TwoOrders(org: Uuid, directory: Directory, r: Resolution, es: Evidences) returns (fs: Evidences, gs: Evidences)
    requires Sound(org, directory, r) && r.policy.Some? && !OrderFree(org, directory, r.policy.value.setting, es)
    ensures multiset(fs) == multiset(es) && multiset(gs) == multiset(es)
    ensures FoldAll(org, directory, r, fs).policy.Some? && FoldAll(org, directory, r, gs).policy.None?
  {
    var local := r.policy.value.setting;
    var x :| x in es && Restricts(x, Private);
    ShapedKind(local);
    hide FoldAll, Floor, Usable, AllUsable, WellShaped, Owned, Restricts, Meets, BeforePrivate;
    fs := PrivateFirst(es, x);
    gs := PrivateLast(local, es);
    MeetsNothing(local);
    SameMembers(es, fs);
    SameMembers(es, gs);
    SameMeaning(org, directory, local, es, fs);
    SameMeaning(org, directory, local, es, gs);
    FoldExactly(org, directory, r, fs);
    FoldExactly(org, directory, r, gs);
  }

  lemma PrivateFirst(es: Evidences, x: Option<Evidence>) returns (fs: Evidences)
    requires x in es && Restricts(x, Private)
    ensures multiset(fs) == multiset(es) && BeforePrivate(fs) == []
  {
    var i :| 0 <= i < |es| && es[i] == x;
    var rest := es[..i] + es[i + 1..];
    assert es == es[..i] + [x] + es[i + 1..];
    fs := [x] + rest;
    assert multiset(fs) == multiset(es);
    FirstStops(x, rest);
  }

  lemma {:induction false} FirstStops(x: Option<Evidence>, rest: Evidences)
    requires Restricts(x, Private)
    ensures BeforePrivate([x] + rest) == []
  {
    hide Restricts;
    if rest == [] {
      assert [x] + rest == [] + [x];
      BeforeSnoc([], x);
    } else {
      var n := |rest| - 1;
      FirstStops(x, rest[..n]);
      assert [x] + rest == ([x] + rest[..n]) + [rest[n]];
      assert ([x] + rest[..n])[0] == x;
      BeforeSnoc([x] + rest[..n], rest[n]);
    }
  }

  lemma PrivateLast(local: Setting, es: Evidences) returns (gs: Evidences)
    requires !Meets(local, es)
    ensures multiset(gs) == multiset(es) && !Meets(local, BeforePrivate(gs))
  {
    PartsSplit(es);
    var open, closed := Part(es, false), Part(es, true);
    forall e ensures e in open <==> e in es && !Restricts(e, Private) {
      PartHas(es, false, e);
    }
    forall e | e in closed ensures Restricts(e, Private) {
      PartHas(es, true, e);
    }
    gs := open + closed;
    BeforeParts(open, closed);
    if Meets(local, open) {
      MeetsFewer(local, open, es);
      assert false;
    }
  }

  /** Every order of the observations gives the same resolution if and only if something is unusable,
      nothing observed is private, the local policy is, or all sides meet anyway. */
  lemma OrderFreeExactly(org: Uuid, directory: Directory, r: Resolution, es: Evidences)
    requires Sound(org, directory, r) && r.policy.Some?
    ensures (forall fs | multiset(fs) == multiset(es) ::
               FoldAll(org, directory, r, fs) == FoldAll(org, directory, r, es)) <==>
            OrderFree(org, directory, r.policy.value.setting, es)
  {
    hide FoldAll, OrderFree, Sound;
    if OrderFree(org, directory, r.policy.value.setting, es) {
      forall fs | multiset(fs) == multiset(es)
        ensures FoldAll(org, directory, r, fs) == FoldAll(org, directory, r, es)
      {
        OrderFreeSame(org, directory, r, es, fs);
      }
    } else {
      var fs, gs := TwoOrders(org, directory, r, es);
    }
  }

  function SoleOwner(org: Uuid): Directory {
    (_: string) => Some(org)
  }

  function Observed(s: Setting): Option<Evidence> {
    Some(Evidence(Resolved, Some(s), true))
  }

  /** The exception is real: a private observation hides the disjoint groups that isolate. */
  lemma PrivateOrIsolated(org: Uuid)
    ensures var directory := SoleOwner(org);
      var r := Resolution(Some(Policy(org, Setting(Groups, {"a"}), 1)), SourceDefault);
      var other, closed := Observed(Setting(Groups, {"b"})), Observed(Setting(Private, {}));
      && Sound(org, directory, r)
      && FoldAll(org, directory, r, [other, closed]) == Isolated
      && FoldAll(org, directory, r, [closed, other]) ==
         Resolution(Some(Policy(org, Setting(Private, {}), 1)), SourceDefault)
  {
    var directory := SoleOwner(org);
    var r := Resolution(Some(Policy(org, Setting(Groups, {"a"}), 1)), SourceDefault);
    var other, closed := Observed(Setting(Groups, {"b"})), Observed(Setting(Private, {}));
    assert "a"[0] != "b"[0];
    assert {"a"} * {"b"} == {};
    assert Usable(org, directory, other) && Usable(org, directory, closed);
    FloorExactly(org, directory, r, other);
    FloorExactly(org, directory, r, closed);
    FloorExactly(org, directory, Floor(org, directory, r, closed), other);
    hide Floor, Usable;
    assert [other, closed][..1] == [other] && [closed, other][..1] == [closed];
    assert [other][..0] == [] && [closed][..0] == [];
    assert FoldAll(org, directory, r, [other]) == Isolated;
    assert FoldAll(org, directory, r, [closed]) == Floor(org, directory, r, closed);
    StaysIsolated(org, directory, Isolated, [closed]);
    assert FoldAll(org, directory, Isolated, [closed]) == Floor(org, directory, Isolated, closed);
  }
}
