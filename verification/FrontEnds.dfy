/** The compact front end against what is advertised and accepted. */
module FrontEnds {
  import opened Common
  import opened TypeText
  import opened Schema
  import opened Plans
  import opened Arguments
  import opened Compiler
  import opened Disclosing
  import opened CompactPlans
  import opened Flattening
  import opened Advertised
  import opened Collector
  import opened Acceptance
  import opened Costs
  import opened PlanAcceptance

  ghost function AdvertisedPaths(cap: Capability): seq<Path>
    requires cap.entity in cap.catalog
  {
    Paths(cap.catalog, cap.limits.maximumDepth, cap.entity, 0, [cap.entity])
  }

  /** An advertised path has plain segments and splits back from its dotted form. */
  lemma AdvertisedPathIsPlain(cap: Capability, p: Path)
    requires ValidCatalog(cap.catalog) && cap.entity in cap.catalog && p in AdvertisedPaths(cap)
    ensures p != [] && (forall i :: 0 <= i < |p| ==> ValidName(p[i]) && PlainSegment(p[i])) && Split(Join(p)) == p
  {
    PathsAreExact(cap.catalog, cap.limits.maximumDepth, cap.entity, 0, [cap.entity], p);
    PathNamesAreValid(cap.catalog, cap.limits.maximumDepth, cap.entity, p, 0, [cap.entity]);
    forall i | 0 <= i < |p| ensures PlainSegment(p[i]) {
      NameIsPlain(p[i]);
    }
    SplitJoin(p);
  }

  lemma NameIsPlain(s: string)
    requires ValidName(s)
    ensures PlainSegment(s)
  {
  }

  /** No string is advertised twice. */
  lemma AdvertisedStringsAreDistinct(cap: Capability)
    requires ValidCatalog(cap.catalog) && cap.entity in cap.catalog
    ensures Distinct(Advertises(cap, cap.entity, 0, [cap.entity], ""))
  {
    var paths := AdvertisedPaths(cap);
    PathsAreDistinct(cap.catalog, cap.limits.maximumDepth, cap.entity, 0, [cap.entity]);
    hide Paths, Join, Split;
    forall i | 0 <= i < |paths| ensures Split(Join(paths[i])) == paths[i] {
      AdvertisedPathIsPlain(cap, paths[i]);
    }
    var strings := Dotted("", paths);
    forall i | 0 <= i < |paths| ensures strings[i] == Join(paths[i]) {
      JoinIsFromNothing(paths[i]);
    }
  }

  lemma JoinIsFromNothing(p: Path)
    ensures Join(p) == JoinFrom("", p)
  {
  }

  /** The compact front end expands an advertised path exactly when no segment has a reserved name. */
  lemma AdvertisedIsExpandableIff(cap: Capability, p: Path)
    requires ValidCatalog(cap.catalog) && cap.entity in cap.catalog && 0 < cap.limits.maximumDepth
    requires p in AdvertisedPaths(cap)
    ensures ValidPath(Split(Join(p)), cap.limits.maximumDepth) <==> forall i :: 0 <= i < |p| ==> !("__" <= p[i])
  {
    AdvertisedPathIsPlain(cap, p);
    PathsAreExact(cap.catalog, cap.limits.maximumDepth, cap.entity, 0, [cap.entity], p);
    PathsAreShort(cap.catalog, cap.limits.maximumDepth, cap.entity, p, 0, [cap.entity]);
  }

  ghost predicate ListsAdvertised(cap: Capability, c: Compact)
    requires cap.entity in cap.catalog
  {
    forall s :: s in c.selections ==> exists p :: p in AdvertisedPaths(cap) && s == Join(p)
  }

  lemma ListedAreSelectedPaths(cap: Capability, c: Compact, plan: Plan)
    requires ValidCatalog(cap.catalog) && cap.entity in cap.catalog
    requires Describes(c, plan) && forall s :: s in c.selections ==> ValidPath(Split(s), cap.limits.maximumDepth)
    ensures ListsAdvertised(cap, c) <==> SelectsAdvertised(cap, plan)
  {
    hide Split, Join, Selects, Paths, OptionsMatch, ValidCatalog;
    if ListsAdvertised(cap, c) {
      forall q | Selects(plan, q) ensures q in AdvertisedPaths(cap) {
        var s :| s in c.selections && Split(s) == q;
        var p :| p in AdvertisedPaths(cap) && s == Join(p);
        AdvertisedPathIsPlain(cap, p);
      }
    }
    if SelectsAdvertised(cap, plan) {
      forall s | s in c.selections ensures exists p :: p in AdvertisedPaths(cap) && s == Join(p) {
        ValidPathIsPlain(Split(s), cap.limits.maximumDepth);
        JoinSplit(s);
        assert Selects(plan, Split(s)) && Split(s) in AdvertisedPaths(cap);
      }
    }
  }

  lemma ShapedIffListed(c: Compact, plan: Plan)
    requires Describes(c, plan) && Regular(plan)
    ensures Shaped(plan) <==> c.selections != []
  {
    if c.selections != [] {
      assert c.selections[0] in c.selections;
      var p := Split(c.selections[0]);
      assert Selects(plan, p);
    }
    if Shaped(plan) {
      var p := ShapedSelects(plan);
    }
  }

  /**
   * The compact front end joined to the compiler. The tree of an expandable compact plan compiles to a query if and
   * only if something is listed, every listed string is an advertised one, root and relationships have their options
   * and routes, no reserved name is taken up on a route, and the plan is within the limits.
   */
  lemma CompactPlanCompilesIff(cap: Capability, c: Compact, plan: Plan)
    requires WellFormedTypes(cap.types) && ValidCatalog(cap.catalog) && ValidatedEntities(cap.types, cap.catalog)
    requires cap.entity in cap.catalog && 0 < cap.limits.maximumDepth
    requires Expandable(c, cap.limits.maximumSelectedFields, cap.limits.maximumDepth)
    requires Describes(c, plan) && Regular(plan)
    ensures CompileTypedPlan(cap, plan).Ok? <==>
      && RootOk(cap, plan)
      && c.selections != [] && ListsAdvertised(cap, c) && HeadsOk(cap, cap.entity, plan)
      && PlanDisclosable(cap, plan)
      && Affordable(cap.limits, PlanCost(cap, plan))
  {
    hide CompileTypedPlan, HeadsOk, SelectsAdvertised, ListsAdvertised, Describes, Regular, Shaped, WellFormedTypes,
      ValidCatalog, ValidatedEntities, ValidPath, PlanDisclosable, Affordable, PlanCost, RootOk;
    PlanCompilesIff(cap, plan);
    ListedAreSelectedPaths(cap, c, plan);
    ShapedIffListed(c, plan);
  }
}
