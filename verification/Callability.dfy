/** Which advertised paths some plan can select. */
module Callability {
  import opened Common
  import opened Disclosure
  import opened Schema
  import opened Plans
  import opened Arguments
  import opened Compiler
  import opened Disclosing
  import opened Heads
  import opened Advertised
  import opened Acceptance
  import opened LeastOptions
  import opened Costs
  import opened PathCosts
  import opened PlanAcceptance

  /** Every relationship that the path follows is callable. */
  ghost predicate CallablePath(cap: Capability, entityName: string, p: Path)
    decreases |p|
  {
    || |p| <= 1
    || (entityName in cap.catalog && exists f :: f in cap.catalog[entityName].fields
                                       && CallableStep(cap, entityName, f, p))
  }

  ghost predicate CallableStep(cap: Capability, entityName: string, f: Field, p: Path)
    requires |p| > 1
    decreases |p|, 0
  {
    f.name == p[0] && Callable(cap, entityName, f) && CallablePath(cap, f.relationship.value.target, p[1..])
  }

  /** The plan selects this path and no other. */
  ghost predicate SelectsOnly(plan: Plan, p: Path) {
    forall q :: Selects(plan, q) <==> q == p
  }

  /** Some options of the root field are in order. */
  ghost predicate RootCallable(cap: Capability) {
    var root := ObjectField(cap.types, cap.queryRoot, cap.fieldName);
    && root.Some? && |PageArguments(cap.types, root.value.arguments)| <= 1
    && OptionsExist(cap, root.value.arguments, HasList(cap.route))
  }

  /** What a plan that selects the path costs at least, with the root's own arguments and route. */
  ghost function LeastCost(cap: Capability, p: Path): Cost {
    var root := InputsOf(cap, cap.queryRoot, cap.fieldName);
    var bound: u32 := if HasList(cap.route) then LeastSize(cap, root) else 1;
    var below := PathCost(cap, cap.entity, p);
    Cost(below.nodes, LeastArguments(cap.types, root, HasList(cap.route)) + below.arguments,
         RouteRecords(cap.route, bound, below.records))
  }

  /** Everything a single path must have to be selected, said without any plan. */
  ghost predicate Selectable(cap: Capability, p: Path)
    requires cap.entity in cap.catalog
  {
    && p in Paths(cap.catalog, cap.limits.maximumDepth, cap.entity, 0, [cap.entity])
    && RootCallable(cap) && CallablePath(cap, cap.entity, p)
    && ValidFieldName(cap.fieldName) && PlainRoute(cap.route)
    && PathDisclosable(cap, cap.entity, p, 1 + Levels(cap.route))
    && Affordable(cap.limits, LeastCost(cap, p))
  }

  lemma {:induction false} HeadsAlongPath(cap: Capability, entityName: string, plan: Plan, p: Path)
    requires HeadsOk(cap, entityName, plan) && Selects(plan, p)
    ensures CallablePath(cap, entityName, p)
    decreases |p|
  {
    hide HeadOk, Callable;
    if |p| > 1 {
      var child := plan.relationships[p[0]];
      var f :| f in cap.catalog[entityName].fields && f.name == p[0] && f.relationship.Some?
               && HeadOk(cap, entityName, f, child) && HeadsOk(cap, f.relationship.value.target, child);
      HeadOkIsCallable(cap, entityName, f, child);
      HeadsAlongPath(cap, f.relationship.value.target, child, p[1..]);
      assert CallableStep(cap, entityName, f, p);
    }
  }

  /** Whatever a plan selects is advertised and callable, as soon as its selection compiles. */
  lemma AcceptedPathsAreCallable(cap: Capability, st: State, plan: Plan, p: Path)
    requires WellFormedTypes(cap.types) && ValidCatalog(cap.catalog) && ValidatedEntities(cap.types, cap.catalog)
    requires cap.entity in cap.catalog && 0 < cap.limits.maximumDepth
    requires CompileEntity(cap, st, cap.entity, plan, [cap.entity], 0).Ok? && Selects(plan, p)
    ensures p in Paths(cap.catalog, cap.limits.maximumDepth, cap.entity, 0, [cap.entity])
    ensures CallablePath(cap, cap.entity, p)
  {
    AcceptedIffAdvertised(cap, st, plan);
    HeadsAlongPath(cap, cap.entity, plan, p);
  }

  /** A plan for one callable path, with the least options for each relationship on the way. */
  lemma {:induction false} PlanForPath(
    cap: Capability, entityName: string, p: Path, depth: nat, ancestry: seq<string>, level: nat)
    returns (plan: Plan)
    requires WellFormedTypes(cap.types) && ValidCatalog(cap.catalog)
    requires PathOk(cap.catalog, cap.limits.maximumDepth, entityName, p, depth, ancestry)
    requires CallablePath(cap, entityName, p)
    ensures Shaped(plan) && SelectsOnly(plan, p) && HeadsOk(cap, entityName, plan)
    ensures EntityCost(cap, entityName, plan) == PathCost(cap, entityName, p)
    ensures PathDisclosable(cap, entityName, p, level) ==> Disclosable(cap, entityName, plan, level)
    decreases |p|
  {
    hide HeadOk, Callable, ValidCatalog, WellFormedTypes, Shaped, SelectsOnly, EntityCost, PathCost, Disclosable,
      PathDisclosable, ArgumentCount, LeastArguments, LeastSize, RouteOf, Levels;
    if |p| == 1 {
      plan := Plan(map[], map[p[0] := true], map[], None);
      SelectsLeaf(plan, p[0]);
      assert p == [p[0]];
      LeafCosts(cap, entityName, plan, p[0], level);
    } else {
      var f :| f in cap.catalog[entityName].fields && CallableStep(cap, entityName, f, p);
      CallableIsRelationship(cap, entityName, f);
      var target := f.relationship.value.target;
      StepOfPath(cap.catalog, cap.limits.maximumDepth, entityName, f, p, depth, ancestry);
      var below := level + 1 + Levels(RouteOf(cap, entityName, f));
      var rest := PlanForPath(cap, target, p[1..], depth + 1, ancestry + [target], below);
      var supplied, maximumItems := CallableHasOptions(cap, entityName, f);
      var child := rest.(arguments := supplied, maximumItems := maximumItems);
      OptionsAreBeside(cap, target, rest, child, below);
      plan := Plan(map[], map[], map[p[0] := child], None);
      SelectsBelow(plan, p[0], child, p[1..]);
      assert p == [p[0]] + p[1..];
      assert HeadOk(cap, entityName, f, child);
      StepCosts(cap, entityName, f, p, plan);
      if PathDisclosable(cap, entityName, p, level) {
        StepDiscloses(cap, entityName, f, p, plan, level);
      }
    }
  }

  lemma CallableIsRelationship(cap: Capability, entityName: string, f: Field)
    requires Callable(cap, entityName, f)
    ensures f.relationship.Some? && ObjectField(cap.types, entityName, f.name).Some?
  {
  }

  lemma SelectsLeaf(plan: Plan, name: string)
    requires plan.fields == map[name := true] && plan.relationships == map[]
    ensures SelectsOnly(plan, [name]) && Shaped(plan)
  {
    assert name in plan.fields;
    forall q ensures Selects(plan, q) <==> q == [name] {
      if |q| == 1 { assert q == [q[0]]; }
    }
  }

  lemma SelectsBelow(plan: Plan, name: string, child: Plan, p: Path)
    requires plan.fields == map[] && plan.relationships == map[name := child]
    requires SelectsOnly(child, p) && Shaped(child) && p != []
    ensures SelectsOnly(plan, [name] + p) && Shaped(plan)
  {
    assert name in plan.relationships;
    forall q ensures Selects(plan, q) <==> q == [name] + p {
      if |q| > 1 {
        assert q == [q[0]] + q[1..];
        assert Selects(child, q[1..]) <==> q[1..] == p;
      }
      assert ([name] + p)[1..] == p;
    }
  }

  /** The options of a node are not looked at by what is selected below it. */
  lemma OptionsAreBeside(cap: Capability, entityName: string, a: Plan, b: Plan, level: nat)
    requires b.fields == a.fields && b.relationships == a.relationships
    ensures Shaped(b) <==> Shaped(a)
    ensures HeadsOk(cap, entityName, b) <==> HeadsOk(cap, entityName, a)
    ensures forall p :: SelectsOnly(b, p) <==> SelectsOnly(a, p)
    ensures EntityCost(cap, entityName, b) == EntityCost(cap, entityName, a)
    ensures Disclosable(cap, entityName, b, level) <==> Disclosable(cap, entityName, a, level)
  {
    hide HeadOk, EntityCost, Disclosable;
    forall q ensures Selects(b, q) <==> Selects(a, q) {
    }
    OptionsAreFree(cap, entityName, a, b, level);
  }

  // ---------------------------------------------------------------- exactly which paths

  /** Whatever a compiled plan selects could be selected by itself. */
  lemma CompiledPathsAreSelectable(cap: Capability, plan: Plan, p: Path)
    requires WellFormedTypes(cap.types) && ValidCatalog(cap.catalog) && ValidatedEntities(cap.types, cap.catalog)
    requires cap.entity in cap.catalog && 0 < cap.limits.maximumDepth
    requires CompileTypedPlan(cap, plan).Ok? && Selects(plan, p)
    ensures Selectable(cap, p)
  {
    hide CompileTypedPlan, CallablePath, HeadsOk, WellFormedTypes, ValidCatalog, ValidatedEntities, Disclosable,
      PathDisclosable, EntityCost, PathCost, RouteRecords, ArgumentCount, LeastArguments, LeastSize, OptionsOk,
      OptionsExist, HasList, PlainRoute, Levels, Shaped, Paths;
    PlanCompilesIff(cap, plan);
    HeadsAlongPath(cap, cap.entity, plan, p);
    var inputs := InputsOf(cap, cap.queryRoot, cap.fieldName);
    OptionsOkExist(cap, inputs, HasList(cap.route), plan.arguments, plan.maximumItems);
    OptionsCostAtLeast(cap, inputs, HasList(cap.route), plan.arguments, plan.maximumItems);
    PlanCostsAtLeast(cap, cap.entity, plan, p);
    PlanDisclosesPath(cap, cap.entity, plan, p, 1 + Levels(cap.route));
    RootCostsAtLeast(cap, plan, p);
  }

  lemma RootCostsAtLeast(cap: Capability, plan: Plan, p: Path)
    requires var inputs := InputsOf(cap, cap.queryRoot, cap.fieldName);
      && OptionsOk(cap, inputs, HasList(cap.route), plan.arguments, plan.maximumItems)
      && LeastArguments(cap.types, inputs, HasList(cap.route))
         <= ArgumentCount(cap.types, inputs, HasList(cap.route), plan.arguments)
      && (HasList(cap.route) ==> LeastSize(cap, inputs) <= plan.maximumItems.value)
    requires AtMost(PathCost(cap, cap.entity, p), EntityCost(cap, cap.entity, plan))
    ensures AtMost(LeastCost(cap, p), PlanCost(cap, plan))
  {
    hide EntityCost, PathCost, RouteRecords, ArgumentCount, LeastArguments, LeastSize, PagedArgumentsOk, ArgumentsOk;
    var inputs := InputsOf(cap, cap.queryRoot, cap.fieldName);
    var bound: u32 := if HasList(cap.route) then LeastSize(cap, inputs) else 1;
    RouteIsMonotone(cap.route, bound, RootMaximum(plan), PathCost(cap, cap.entity, p).records,
      EntityCost(cap, cap.entity, plan).records);
  }

  /** A selectable path is selected, alone, by a plan with the least options everywhere. */
  lemma SelectablePathHasPlan(cap: Capability, p: Path) returns (plan: Plan)
    requires WellFormedTypes(cap.types) && ValidCatalog(cap.catalog) && ValidatedEntities(cap.types, cap.catalog)
    requires cap.entity in cap.catalog && 0 < cap.limits.maximumDepth
    requires Selectable(cap, p)
    ensures SelectsOnly(plan, p) && CompileTypedPlan(cap, plan).Ok?
  {
    hide CompileTypedPlan, CallablePath, HeadsOk, WellFormedTypes, ValidCatalog, ValidatedEntities, Disclosable,
      PathDisclosable, EntityCost, PathCost, RouteRecords, ArgumentCount, LeastArguments, LeastSize, OptionsOk,
      OptionsExist, HasList, PlainRoute, Levels, Shaped, Paths;
    PathsAreExact(cap.catalog, cap.limits.maximumDepth, cap.entity, 0, [cap.entity], p);
    var bare := PlanForPath(cap, cap.entity, p, 0, [cap.entity], 1 + Levels(cap.route));
    var root := ObjectField(cap.types, cap.queryRoot, cap.fieldName).value;
    RootInputsAreDistinct(cap, root);
    var supplied, maximumItems := LeastOptionsExist(cap, root.arguments, HasList(cap.route));
    plan := bare.(arguments := supplied, maximumItems := maximumItems);
    OptionsAreBeside(cap, cap.entity, bare, plan, 1 + Levels(cap.route));
    assert SelectsOnly(plan, p);
    PlanCompilesIff(cap, plan);
  }

  /**
   * Exactly which paths can be selected. Some plan that selects the path compiles if and only if the path is
   * advertised, the root and every relationship on it are callable, no reserved name lies on it, its nesting fits a
   * disclosure, and with the fewest arguments and least bounds it stays within the limits. Then some plan selects it
   * and nothing else.
   */
  lemma PathIsAcceptedIff(cap: Capability, p: Path)
    requires WellFormedTypes(cap.types) && ValidCatalog(cap.catalog) && ValidatedEntities(cap.types, cap.catalog)
    requires cap.entity in cap.catalog && 0 < cap.limits.maximumDepth
    ensures (exists plan :: Selects(plan, p) && CompileTypedPlan(cap, plan).Ok?) <==> Selectable(cap, p)
    ensures (exists plan :: SelectsOnly(plan, p) && CompileTypedPlan(cap, plan).Ok?) <==> Selectable(cap, p)
  {
    hide CompileTypedPlan, Selectable, WellFormedTypes, ValidCatalog, ValidatedEntities;
    if plan :| Selects(plan, p) && CompileTypedPlan(cap, plan).Ok? {
      CompiledPathsAreSelectable(cap, plan, p);
    }
    if plan :| SelectsOnly(plan, p) && CompileTypedPlan(cap, plan).Ok? {
      assert Selects(plan, p);
      CompiledPathsAreSelectable(cap, plan, p);
    }
    if Selectable(cap, p) {
      var plan := SelectablePathHasPlan(cap, p);
      assert Selects(plan, p);
    }
  }
}
