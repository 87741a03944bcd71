/** Revalidation: a replacement whose draft is built from the current revision (`src/store.cpp`). */
module SrfRevalidation {
  import opened SrfTypes
  import opened SrfCanonical
  import opened SrfValidation
  import opened SrfStoreModel
  import opened SrfStoreLaws
  import opened SrfValidationLaws
  import opened SrfValidationExact

  /** The ids of the bound path, route and constraint are copied, their generations are not. */
  function RevalidationDraft(x: SegmentList, expected: u64): Draft {
    var c := x.content;
    Draft(c.id, c.scope, c.profile, 0, c.policy, 0, c.strictness, 0, 0, c.path, 0, c.route, 0, c.constraint, 0,
          c.segments, if expected != 0 then expected else x.generation, 0, 0, x.provenance.constraint != 0)
  }

  ghost predicate Unbound(x: SegmentList) {
    x.content.path == 0 && x.content.route == 0 && x.content.constraint == 0
  }

  /** Segments as a committed revision holds them. */
  ghost predicate CanonicalList(x: SegmentList) { CanonicalizeAll(x.content.segments) == x.content.segments }

  lemma CommittedIsCanonical(cfg: Config, ctx: Context, d: Draft, res: Resolved)
    requires res.existing.Some? ==> res.existing.value.generation < U64_MAX
    ensures CanonicalList(MakeList(cfg, ctx, d, res))
  {
    hide ContentDigest; hide SequenceDigest;
    var ss := CanonicalizeAll(d.segments);
    assert forall i :: 0 <= i < |ss| ==> Canonical(ss[i]) == ss[i];
  }

  /** A revision bound to a path, a route or a constraint never passes revalidation, whatever the evidence says: its
      draft names the binding with the generation zero. */
  lemma BoundListsNeverRevalidate(cfg: Config, ctx: Context, x: SegmentList, expected: u64, res: Resolved)
    requires cfg.limits.maxReasons >= 1 && !Unbound(x)
    ensures !DraftValid(cfg, ctx, REVALIDATE, RevalidationDraft(x, expected), res)
  {
    hide CallerChecks; hide EpochChecks; hide ListChecks; hide ProfileChecks; hide PolicyChecks; hide StructuralChecks;
    hide CapabilityChecks; hide TopologyChecks; hide ResourceChecks; hide StoreChecks; hide DraftValid;
    var d := RevalidationDraft(x, expected);
    if DraftValid(cfg, ctx, REVALIDATE, d, res) {
      AcceptedGroups(cfg, ctx, REVALIDATE, d, res);
      BindingFails(DraftRequest(cfg, ctx, REVALIDATE, d, res));
    }
  }

  lemma BindingFails(r: Request)
    requires r.pathAuthority == 0 && r.routeGeneration == 0 && r.constraintGeneration == 0
    requires r.path != 0 || r.route != 0 || r.constraint != 0
    ensures exists c :: (c in PathChecks(r) || c in RouteChecks(r) || c in ConstraintChecks(r)) && c.fails
  {
    if r.path != 0 { assert PathChecks(r)[0] in PathChecks(r) && PathChecks(r)[0].fails; }
    else if r.route != 0 { assert RouteChecks(r)[0] in RouteChecks(r) && RouteChecks(r)[0].fails; }
    else { assert ConstraintChecks(r)[0] in ConstraintChecks(r) && ConstraintChecks(r)[0].fails; }
  }

  /** A successful revalidation is the next generation of the same thing: scope, profile, policy, strictness and the
      segment sequence are those of the revision it replaces, and it names exactly the generation it read. */
  lemma RevalidationKeepsContent(cfg: Config, ctx: Context, x: SegmentList, expected: u64, ls: seq<SegmentList>,
                                 reg: Registry)
    requires cfg.limits.maxReasons >= 1 && CanonicalList(x) && FindList(ls, x.content.id) == Some(x)
    requires var d := RevalidationDraft(x, expected);
             DraftValid(cfg, ctx, REVALIDATE, d, Resolve(ls, reg.profiles, reg.policies, d))
    ensures Unbound(x) && (expected == 0 || expected == x.generation)
    ensures var d := RevalidationDraft(x, expected);
            var y := MakeList(cfg, ctx, d, Resolve(ls, reg.profiles, reg.policies, d));
            && y.generation == x.generation + 1 && y.lineage.supersedes == x.generation
            && y.content.id == x.content.id && y.content.scope == x.content.scope
            && y.content.profile == x.content.profile && y.content.policy == x.content.policy
            && y.content.strictness == x.content.strictness && y.content.segments == x.content.segments
            && y.state == Active && y.currentness == Current
  {
    hide ContentDigest; hide SequenceDigest; hide DraftOutcome;
    var d := RevalidationDraft(x, expected);
    var res := Resolve(ls, reg.profiles, reg.policies, d);
    if !Unbound(x) { BoundListsNeverRevalidate(cfg, ctx, x, expected, res); }
    AcceptedExisting(cfg, ctx, REVALIDATE, d, res);
    AcceptedProfile(cfg, ctx, REVALIDATE, d, res);
  }

  /** When a list can be revalidated: it is bound to no path, route or constraint, active or waiting for it, at the
      expected generation if one is named, and its content stands against the present profile, policy and fabric, each
      at whatever generation it now has. */
  lemma RevalidatesExactly(cfg: Config, ctx: Context, x: SegmentList, expected: u64, res: Resolved)
    requires cfg.limits.maxReasons >= 1 && res.existing == Some(x) && res.superseded.None?
    ensures var c, e := x.content, Some(ctx.evidence);
            DraftValid(cfg, ctx, REVALIDATE, RevalidationDraft(x, expected), res) <==>
            && Unbound(x) && x.state in {Active, RevalidationRequired} && (expected == 0 || expected == x.generation)
            && c.id != 0 && 0 < x.generation < U64_MAX
            && CallerStands(ctx.caller, ctx.authority) && EpochStands(ctx.caller, ctx.authority)
            && (match res.policy
                case None => c.policy == 0
                case Some(p) =>
                  ObeysPolicy(p, 0, c.scope, c.profile, c.strictness, x.provenance.constraint != 0, true, c.segments))
            && SizesStand(cfg.limits, c.segments) && (forall s :: s in c.segments ==> SegmentStands(e, s))
            && TopologyStands(c.segments, 0, e)
            && match res.profile
               case None => false
               case Some(p) => ProfileStands(cfg.limits, c.segments, p, c.profile, 0, c.strictness)
                               && CapabilitiesStand(p.capabilities, 0, e)
  {
    hide DraftValid; hide CallerStands; hide EpochStands; hide ObeysPolicy; hide SizesStand; hide SegmentStands;
    hide TopologyStands; hide ProfileStands; hide CapabilitiesStand; hide LineageStands;
    var d := RevalidationDraft(x, expected);
    DraftValidExactly(cfg, ctx, REVALIDATE, d, res);
    ShapesExactly(d.id, Some(x), d.expectedGeneration);
    assert LineageFor(REVALIDATE, d.id, Some(x), d.expectedGeneration) <==>
           LineageStands(d.id, Some(x), d.expectedGeneration, REVALIDATE.intent, true, false);
  }
}
