/** What selecting one path costs at least. */
module PathCosts {
  import opened Common
  import opened Disclosure
  import opened Records
  import opened Schema
  import opened Routes
  import opened Plans
  import opened Arguments
  import opened Compiler
  import opened Heads
  import opened Acceptance
  import opened LeastOptions
  import opened Costs

  // ---------------------------------------------------------------- the costs of a path

  function RelationshipNamed(fields: seq<Field>, name: string): (r: Option<Field>)
    ensures r.Some? ==> r.value in fields && r.value.name == name && r.value.relationship.Some?
  {
    if fields == [] then None
    else if fields[0].name == name && fields[0].relationship.Some? then Some(fields[0])
    else RelationshipNamed(fields[1..], name)
  }

  /** The relationship that a path of several segments follows first. */
  function FirstStep(catalog: Catalog, entityName: string, p: Path): (r: Option<Field>)
    ensures r.Some? ==> r.value.relationship.Some?
  {
    if |p| <= 1 || entityName !in catalog then None else RelationshipNamed(catalog[entityName].fields, p[0])
  }

  /** The least bound under which a relationship can be selected. */
  ghost function LeastBound(cap: Capability, inputs: seq<SchemaInput>, r: Relationship): u32 {
    match r.bound
    case Some(ServerFixed(maximumItems)) => maximumItems
    case Some(Pageable(_)) => LeastSize(cap, inputs)
    case None => 1
  }

  ghost function PathCost(cap: Capability, entityName: string, p: Path): Cost
    decreases |p|
  {
    var step := FirstStep(cap.catalog, entityName, p);
    if step.None? then Cost(|p|, 0, 1)
    else
      var f := step.value;
      var r := f.relationship.value;
      var below := PathCost(cap, r.target, p[1..]);
      var inputs := InputsOf(cap, entityName, f.name);
      Cost(|p|, LeastArguments(cap.types, inputs, IsPageable(r)) + below.arguments,
           1 + RouteRecords(RouteOf(cap, entityName, f), LeastBound(cap, inputs, r), below.records))
  }

  /** Every name and route along the path may stand in a disclosure, within the nesting left from `level` on. */
  ghost predicate PathDisclosable(cap: Capability, entityName: string, p: Path, level: nat)
    decreases |p|
  {
    && p != [] && ValidFieldName(p[0]) && level < MAXIMUM_DISCLOSURE_SCHEMA_DEPTH
    && var step := FirstStep(cap.catalog, entityName, p);
       if step.None? then |p| == 1
       else
         && StepDisclosable(cap, entityName, step.value)
         && PathDisclosable(cap, step.value.relationship.value.target, p[1..],
                            level + 1 + Levels(RouteOf(cap, entityName, step.value)))
  }

  lemma FirstStepIs(catalog: Catalog, entityName: string, p: Path, f: Field)
    requires ValidCatalog(catalog) && entityName in catalog && f in catalog[entityName].fields
    requires |p| > 1 && f.name == p[0] && f.relationship.Some?
    ensures FirstStep(catalog, entityName, p) == Some(f)
  {
    NamedIsFound(catalog[entityName].fields, p[0], f);
    var g := RelationshipNamed(catalog[entityName].fields, p[0]).value;
    SameField(catalog, entityName, f, g);
  }

  lemma {:induction false} NamedIsFound(fields: seq<Field>, name: string, f: Field)
    requires f in fields && f.name == name && f.relationship.Some?
    ensures RelationshipNamed(fields, name).Some?
    decreases |fields|
  {
    assert fields == [fields[0]] + fields[1..];
    if f in fields[1..] {
      NamedIsFound(fields[1..], name, f);
    }
  }

  // ---------------------------------------------------------------- no plan selects the path for less

  lemma {:induction false} RouteIsMonotone(route: Route, m: nat, n: nat, a: nat, b: nat)
    requires m <= n && a <= b
    ensures RouteRecords(route, m, a) <= RouteRecords(route, n, b)
    decreases |route|
  {
    if route != [] {
      RouteIsMonotone(route[1..], m, n, a, b);
      var x, y := RouteRecords(route[1..], m, a), RouteRecords(route[1..], n, b);
      ProductMonotone(m, n, x);
      ProductMonotone(x, y, n);
    }
  }

  lemma {:induction false} OneOfMany(cap: Capability, entityName: string, fields: seq<Field>, plan: Plan, f: Field)
    requires f in fields && f.name in plan.relationships && f.relationship.Some?
    ensures AtMost(RelationshipCost(cap, entityName, f, plan.relationships[f.name]),
                   RelationshipsCost(cap, entityName, fields, plan))
    decreases |fields|
  {
    hide RelationshipCost;
    assert fields == [fields[0]] + fields[1..];
    if f in fields[1..] {
      OneOfMany(cap, entityName, fields[1..], plan, f);
    }
  }

  lemma HeadCostsAtLeast(cap: Capability, entityName: string, f: Field, plan: Plan)
    requires HeadOk(cap, entityName, f, plan)
    ensures var r, inputs := f.relationship.value, InputsOf(cap, entityName, f.name);
      && LeastArguments(cap.types, inputs, IsPageable(r)) <= ArgumentCount(cap.types, inputs, IsPageable(r),
        plan.arguments)
      && LeastBound(cap, inputs, r) <= ListMaximum(r.bound, plan)
  {
    hide RouteWithin, LeastArguments, ArgumentCount, LeastSize;
    var inputs := InputsOf(cap, entityName, f.name);
    OptionsCostAtLeast(cap, inputs, IsPageable(f.relationship.value), plan.arguments, plan.maximumItems);
  }

  lemma NamedHead(cap: Capability, entityName: string, plan: Plan, name: string) returns (f: Field)
    requires HeadsOk(cap, entityName, plan) && name in plan.relationships
    ensures entityName in cap.catalog && f in cap.catalog[entityName].fields && f.name == name && f.relationship.Some?
    ensures HeadOk(cap, entityName, f, plan.relationships[name])
    ensures HeadsOk(cap, f.relationship.value.target, plan.relationships[name])
  {
    hide HeadOk;
    f :| f in cap.catalog[entityName].fields && f.name == name && f.relationship.Some?
         && HeadOk(cap, entityName, f, plan.relationships[name])
         && HeadsOk(cap, f.relationship.value.target, plan.relationships[name]);
  }

  /** Whatever else a plan selects, it costs no less than any one of its paths. */
  lemma {:induction false} PlanCostsAtLeast(cap: Capability, entityName: string, plan: Plan, p: Path)
    requires ValidCatalog(cap.catalog) && HeadsOk(cap, entityName, plan) && Selects(plan, p)
    ensures AtMost(PathCost(cap, entityName, p), EntityCost(cap, entityName, plan))
    decreases |p|
  {
    hide HeadOk, HeadsOk, ValidCatalog, ArgumentCount, LeastArguments, LeastBound, RouteRecords, RelationshipsCost;
    if |p| == 1 {
      assert p[0] in plan.fields.Keys && |plan.fields.Keys| == |plan.fields|;
    } else {
      var child := plan.relationships[p[0]];
      var f := NamedHead(cap, entityName, plan, p[0]);
      FirstStepIs(cap.catalog, entityName, p, f);
      var target := f.relationship.value.target;
      PlanCostsAtLeast(cap, target, child, p[1..]);
      HeadCostsAtLeast(cap, entityName, f, child);
      OneOfMany(cap, entityName, cap.catalog[entityName].fields, plan, f);
      RouteIsMonotone(RouteOf(cap, entityName, f), LeastBound(cap, InputsOf(cap, entityName, f.name),
        f.relationship.value), ListMaximum(f.relationship.value.bound, child),
        PathCost(cap, target, p[1..]).records, EntityCost(cap, target, child).records);
    }
  }

  lemma {:induction false} PlanDisclosesPath(cap: Capability, entityName: string, plan: Plan, p: Path, level: nat)
    requires ValidCatalog(cap.catalog) && HeadsOk(cap, entityName, plan) && Selects(plan, p)
    requires Disclosable(cap, entityName, plan, level)
    ensures PathDisclosable(cap, entityName, p, level)
    decreases |p|
  {
    hide HeadOk, HeadsOk, ValidCatalog, StepDisclosable, Disclosable, ValidFieldName, RouteOf, Levels;
    NamesDisclosable(cap, entityName, plan, level);
    if |p| > 1 {
      var child := plan.relationships[p[0]];
      var f := NamedHead(cap, entityName, plan, p[0]);
      FirstStepIs(cap.catalog, entityName, p, f);
      StepIsDisclosable(cap, entityName, plan, f, level);
      PlanDisclosesPath(cap, f.relationship.value.target, child, p[1..], level + 1
        + Levels(RouteOf(cap, entityName, f)));
    }
  }

  lemma NamesDisclosable(cap: Capability, entityName: string, plan: Plan, level: nat)
    requires Disclosable(cap, entityName, plan, level)
    ensures forall k :: k in plan.fields ==> ValidFieldName(k) && level < MAXIMUM_DISCLOSURE_SCHEMA_DEPTH
  {
  }

  lemma StepIsDisclosable(cap: Capability, entityName: string, plan: Plan, f: Field, level: nat)
    requires Disclosable(cap, entityName, plan, level) && f in cap.catalog[entityName].fields
    requires f.name in plan.relationships && f.relationship.Some?
    ensures StepDisclosable(cap, entityName, f) && ValidFieldName(f.name) && level < MAXIMUM_DISCLOSURE_SCHEMA_DEPTH
    ensures Disclosable(cap, f.relationship.value.target, plan.relationships[f.name],
                        level + 1 + Levels(RouteOf(cap, entityName, f)))
  {
  }

  // ---------------------------------------------------------------- a plan that selects the path alone

  lemma OptionsAreFree(cap: Capability, entityName: string, a: Plan, b: Plan, level: nat)
    requires b.fields == a.fields && b.relationships == a.relationships
    ensures EntityCost(cap, entityName, b) == EntityCost(cap, entityName, a)
    ensures Disclosable(cap, entityName, b, level) <==> Disclosable(cap, entityName, a, level)
  {
    hide Disclosable, RelationshipDisclosable, RelationshipsCost;
    if entityName in cap.catalog {
      OptionsAreFreeBelow(cap, entityName, cap.catalog[entityName].fields, a, b);
      DisclosableIff(cap, entityName, a, level);
      DisclosableIff(cap, entityName, b, level);
    } else {
      NothingDisclosable(cap, entityName, a, level);
      NothingDisclosable(cap, entityName, b, level);
    }
  }

  lemma NothingDisclosable(cap: Capability, entityName: string, plan: Plan, level: nat)
    requires entityName !in cap.catalog
    ensures !Disclosable(cap, entityName, plan, level)
  {
  }

  lemma {:induction false} OptionsAreFreeBelow(
    cap: Capability, entityName: string, fields: seq<Field>, a: Plan, b: Plan)
    requires b.relationships == a.relationships
    ensures RelationshipsCost(cap, entityName, fields, b) == RelationshipsCost(cap, entityName, fields, a)
    decreases |fields|
  {
    if fields != [] {
      OptionsAreFreeBelow(cap, entityName, fields[1..], a, b);
    }
  }

  lemma {:induction false} NoRelationshipIsFree(cap: Capability, entityName: string, fields: seq<Field>, plan: Plan)
    requires forall f :: f in fields ==> f.name !in plan.relationships
    ensures RelationshipsCost(cap, entityName, fields, plan) == Cost(0, 0, 0)
    decreases |fields|
  {
    if fields != [] {
      assert fields[0] in fields;
      NoRelationshipIsFree(cap, entityName, fields[1..], plan);
    }
  }

  lemma {:induction false} OneRelationshipCosts(
    cap: Capability, entityName: string, fields: seq<Field>, plan: Plan, f: Field)
    requires DistinctNames(fields) && f in fields && f.relationship.Some? && plan.relationships.Keys == {f.name}
    ensures RelationshipsCost(cap, entityName, fields, plan)
      == RelationshipCost(cap, entityName, f, plan.relationships[f.name])
    decreases |fields|
  {
    hide RelationshipCost, DistinctNames, FieldNames;
    FieldTail(fields);
    if f == fields[0] {
      NoRelationshipIsFree(cap, entityName, fields[1..], plan);
    } else {
      OneRelationshipCosts(cap, entityName, fields[1..], plan, f);
    }
  }

  /** A plan that selects one leaf. */
  lemma LeafCosts(cap: Capability, entityName: string, plan: Plan, name: string, level: nat)
    requires entityName in cap.catalog
    requires plan.fields == map[name := true] && plan.relationships == map[]
    ensures EntityCost(cap, entityName, plan) == PathCost(cap, entityName, [name])
    ensures PathDisclosable(cap, entityName, [name], level) ==> Disclosable(cap, entityName, plan, level)
  {
    NoRelationshipIsFree(cap, entityName, cap.catalog[entityName].fields, plan);
    assert |plan.fields| == 1;
  }

  /** A plan that follows one relationship with the least options. */
  lemma StepCosts(cap: Capability, entityName: string, f: Field, p: Path, plan: Plan)
    requires ValidCatalog(cap.catalog) && entityName in cap.catalog && f in cap.catalog[entityName].fields
    requires |p| > 1 && f.name == p[0] && f.relationship.Some?
    requires plan.fields == map[] && plan.relationships.Keys == {f.name}
    requires var child, r, inputs :=
               plan.relationships[f.name], f.relationship.value, InputsOf(cap, entityName, f.name);
      && ArgumentCount(cap.types, inputs, IsPageable(r), child.arguments)
         == LeastArguments(cap.types, inputs, IsPageable(r))
      && ListMaximum(r.bound, child) == LeastBound(cap, inputs, r)
      && EntityCost(cap, r.target, child) == PathCost(cap, r.target, p[1..])
    ensures EntityCost(cap, entityName, plan) == PathCost(cap, entityName, p)
  {
    hide ValidCatalog, LeastArguments, ArgumentCount, LeastBound, ListMaximum, RouteRecords, DistinctNames,
      RelationshipsCost, EntityCost, PathCost, RouteOf;
    FirstStepIs(cap.catalog, entityName, p, f);
    NamesAreDistinct(cap, entityName);
    OneRelationshipCosts(cap, entityName, cap.catalog[entityName].fields, plan, f);
    UnfoldStep(cap, entityName, f, p, plan);
  }

  lemma UnfoldStep(cap: Capability, entityName: string, f: Field, p: Path, plan: Plan)
    requires entityName in cap.catalog && FirstStep(cap.catalog, entityName, p) == Some(f)
    requires plan.fields == map[] && f.name in plan.relationships
    ensures EntityCost(cap, entityName, plan)
      == Plus(Cost(0, 0, 1), RelationshipsCost(cap, entityName, cap.catalog[entityName].fields, plan))
    ensures var below := PathCost(cap, f.relationship.value.target, p[1..]);
      var inputs := InputsOf(cap, entityName, f.name);
      PathCost(cap, entityName, p)
      == Cost(|p|, LeastArguments(cap.types, inputs, IsPageable(f.relationship.value)) + below.arguments,
              1 + RouteRecords(RouteOf(cap, entityName, f), LeastBound(cap, inputs, f.relationship.value),
                               below.records))
    ensures PathCost(cap, f.relationship.value.target, p[1..]).nodes == |p| - 1
  {
    hide LeastArguments, ArgumentCount, LeastBound, RouteRecords, RouteOf, RelationshipsCost;
  }

  lemma StepDiscloses(cap: Capability, entityName: string, f: Field, p: Path, plan: Plan, level: nat)
    requires ValidCatalog(cap.catalog) && entityName in cap.catalog && f in cap.catalog[entityName].fields
    requires |p| > 1 && f.name == p[0] && f.relationship.Some?
    requires plan.fields == map[] && plan.relationships.Keys == {f.name}
    requires PathDisclosable(cap, entityName, p, level)
    requires var below := level + 1 + Levels(RouteOf(cap, entityName, f));
      PathDisclosable(cap, f.relationship.value.target, p[1..], below) ==>
        Disclosable(cap, f.relationship.value.target, plan.relationships[f.name], below)
    ensures Disclosable(cap, entityName, plan, level)
  {
    hide ValidCatalog, StepDisclosable;
    FirstStepIs(cap.catalog, entityName, p, f);
    forall g | g in cap.catalog[entityName].fields && g.name in plan.relationships ensures g == f {
      SameField(cap.catalog, entityName, f, g);
    }
  }
}
