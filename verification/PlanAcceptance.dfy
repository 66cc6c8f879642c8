/** Exactly which plans compile. */
module PlanAcceptance {
  import opened Common
  import opened Disclosure
  import opened Records
  import opened TypeText
  import opened Schema
  import opened Routes
  import opened Plans
  import opened Arguments
  import opened Execution
  import opened Compiler
  import opened Disclosing
  import opened Heads
  import opened Acceptance
  import opened LeastOptions
  import opened Costs

  // ---------------------------------------------------------------- the guards

  /** The root field exists, has at most one page argument, and gets the arguments and bound it asks for. */
  ghost predicate RootOk(cap: Capability, plan: Plan) {
    var root := ObjectField(cap.types, cap.queryRoot, cap.fieldName);
    && root.Some? && |PageArguments(cap.types, root.value.arguments)| <= 1
    && OptionsOk(cap, root.value.arguments, HasList(cap.route), plan.arguments, plan.maximumItems)
  }

  /** What the plan costs in all, with the root's own arguments and route. */
  ghost function PlanCost(cap: Capability, plan: Plan): Cost {
    var root := InputsOf(cap, cap.queryRoot, cap.fieldName);
    var below := EntityCost(cap, cap.entity, plan);
    Cost(below.nodes, ArgumentCount(cap.types, root, HasList(cap.route), plan.arguments) + below.arguments,
         RouteRecords(cap.route, RootMaximum(plan), below.records))
  }

  predicate Affordable(limits: Limits, cost: Cost) {
    && cost.nodes <= limits.maximumSelectedFields
    && cost.arguments <= limits.maximumArguments
    && cost.records <= limits.maximumResultRecords
  }

  /** No name on the way from the root to a selected field is reserved, and the nesting is within the schema depth. */
  ghost predicate PlanDisclosable(cap: Capability, plan: Plan) {
    ValidFieldName(cap.fieldName) && PlainRoute(cap.route) && Disclosable(cap, cap.entity, plan, 1 + Levels(cap.route))
  }

  // ---------------------------------------------------------------- the guards are exact

  lemma TighteningIsFree(s: Shape, floor: Option<Classification>, level: nat)
    ensures ValidShape(TightenRoot(s, floor), level) <==> ValidShape(s, level)
    ensures Worst(TightenRoot(s, floor)) == Worst(s)
  {
    if s.Object? {
      WorstIgnoresRule(s.rule, s.fields);
      WorstIgnoresRule(TightenRoot(s, floor).rule, s.fields);
    }
  }

  lemma SealOkIff(
    cap: Capability, arguments: seq<Argument>, selections: seq<Selection>, result: Shape, state: State)
    ensures Seal(cap, arguments, selections, result, state).Ok? <==>
      && state.selectedFields <= cap.limits.maximumSelectedFields && state.arguments <= cap.limits.maximumArguments
      && ValidFieldName(cap.fieldName) && ValidShape(result, 1)
      && Worst(result) <= cap.limits.maximumResultRecords
  {
    hide MaximumRecordCount, Worst, ValidFieldName, PositiveLists;
    var d := Object(ExportableRule(MaximumClassification(result)), map[cap.fieldName := result]);
    assert |d.fields| == 1 && cap.fieldName in d.fields && forall k :: k in d.fields ==> k == cap.fieldName;
    assert ValidShape(d, 0) <==> ValidFieldName(cap.fieldName) && ValidShape(result, 1) by {
      hide ValidIdentity;
    }
    assert MaximumGraphqlRecordCount(d) == MaximumRecordCount(result);
    StaticCountIsExact(result);
    if ValidShape(result, 1) {
      ValidIsPositive(result, 1);
    }
  }

  lemma RootOkIff(cap: Capability, plan: Plan)
    ensures var root := ObjectField(cap.types, cap.queryRoot, cap.fieldName);
      RootOk(cap, plan) <==>
        && root.Some? && RootBoundArgument(cap.types, root.value, cap.route).Ok?
        && CompileArguments(cap.types, cap.limits, cap.validators, EMPTY_STATE, root.value.arguments, plan.arguments,
             plan.maximumItems, HasList(cap.route), RootBoundArgument(cap.types, root.value, cap.route).value).Ok?
  {
    hide InjectPageLimit, BindArguments, PagedArgumentsOk, ArgumentsOk, AllPrevalid, IsPageArgument;
    var root := ObjectField(cap.types, cap.queryRoot, cap.fieldName);
    if root.Some? {
      OptionsOkIff(cap, EMPTY_STATE, root.value.arguments, HasList(cap.route), plan.arguments, plan.maximumItems);
      PagedHasOne(cap, root.value.arguments, plan);
    }
  }

  lemma PagedHasOne(cap: Capability, inputs: seq<SchemaInput>, plan: Plan)
    ensures OptionsOk(cap, inputs, true, plan.arguments, plan.maximumItems) ==> |PageArguments(cap.types, inputs)| == 1
  {
    if OptionsOk(cap, inputs, true, plan.arguments, plan.maximumItems) {
      var i: nat :| PagedArgumentsOk(cap, inputs, plan.arguments, plan.maximumItems.value, i);
      OnlyPageIsListed(cap.types, inputs, i);
    }
  }

  /** Once root and selection are compiled, what is left to fail are the totals, the disclosure and the budget. */
  lemma CompiledIsSealedIff(cap: Capability, plan: Plan, root: SchemaField, st: State, entity: CompiledEntity)
    requires WellFormedTypes(cap.types) && ValidCatalog(cap.catalog)
    requires ObjectField(cap.types, cap.queryRoot, cap.fieldName) == Some(root)
    requires RootBoundArgument(cap.types, root, cap.route).Ok?
    requires var r := CompileArguments(cap.types, cap.limits, cap.validators, EMPTY_STATE, root.arguments,
                        plan.arguments, plan.maximumItems, HasList(cap.route),
                        RootBoundArgument(cap.types, root, cap.route).value);
      r.Ok? && r.value.0 == st
    requires CompileEntity(cap, st, cap.entity, plan, [cap.entity], 0) == Ok(entity)
    ensures CompileTypedPlan(cap, plan).Ok? <==>
      Affordable(cap.limits, PlanCost(cap, plan)) && PlanDisclosable(cap, plan)
  {
    hide CompileArguments, CompileEntity, WellFormedTypes, ValidCatalog, ValidShape, Worst, Seal, Disclosable,
      EntityCost, WrapRoute, Levels, RouteRecords, PlainRoute, ArgumentCount, HasList, ValidFieldName, TightenRoot;
    var inject := RootBoundArgument(cap.types, root, cap.route).value;
    RootInputsAreDistinct(cap, root);
    ArgumentsAreCounted(
      cap, EMPTY_STATE, root.arguments, HasList(cap.route), inject, plan.arguments, plan.maximumItems);
    EntityIsCharged(cap, st, cap.entity, plan, [cap.entity], 0, entity, 1 + Levels(cap.route));
    var maximum := RootMaximum(plan);
    var (selections, shape) := WrapRoute(cap.route, entity.selections, entity.shape, maximum);
    WrapIsCounted(cap.route, entity.selections, entity.shape, maximum);
    WrapIsValid(cap.route, entity.selections, entity.shape, maximum, 1);
    TighteningIsFree(shape, cap.resultFloor, 1);
    forall arguments {
      SealOkIff(cap, arguments, selections, TightenRoot(shape, cap.resultFloor), entity.state);
    }
  }

  lemma RootInputsAreDistinct(cap: Capability, root: SchemaField)
    requires WellFormedTypes(cap.types) && ObjectField(cap.types, cap.queryRoot, cap.fieldName) == Some(root)
    ensures DistinctInputNames(root.arguments)
  {
    assert root in cap.types[cap.queryRoot].fields;
  }

  /**
   * Exactly which plans compile. The root has its arguments and bound; flags are true and no node is empty; every
   * selected path is advertised; every relationship named has its arguments, bound and route; no reserved name is
   * taken up and the nesting fits a disclosure; and nodes, arguments and worst-case records are within the limits.
   */
  lemma PlanCompilesIff(cap: Capability, plan: Plan)
    requires WellFormedTypes(cap.types) && ValidCatalog(cap.catalog) && ValidatedEntities(cap.types, cap.catalog)
    requires cap.entity in cap.catalog && 0 < cap.limits.maximumDepth
    ensures CompileTypedPlan(cap, plan).Ok? <==>
      && RootOk(cap, plan)
      && Shaped(plan) && SelectsAdvertised(cap, plan) && HeadsOk(cap, cap.entity, plan)
      && PlanDisclosable(cap, plan)
      && Affordable(cap.limits, PlanCost(cap, plan))
  {
    hide CompileArguments, CompileEntity, WellFormedTypes, ValidCatalog, ValidatedEntities, Seal, SelectsAdvertised,
      Shaped, HeadsOk, PlanDisclosable, Affordable, PlanCost, RootOk, WrapRoute, HasList;
    RootOkIff(cap, plan);
    if RootOk(cap, plan) {
      var root := ObjectField(cap.types, cap.queryRoot, cap.fieldName).value;
      var inject := RootBoundArgument(cap.types, root, cap.route).value;
      var st := CompileArguments(cap.types, cap.limits, cap.validators, EMPTY_STATE, root.arguments, plan.arguments,
                                 plan.maximumItems, HasList(cap.route), inject).value.0;
      AcceptedIffAdvertised(cap, st, plan);
      var entity := CompileEntity(cap, st, cap.entity, plan, [cap.entity], 0);
      if entity.Ok? {
        CompiledIsSealedIff(cap, plan, root, st, entity.value);
      }
    }
  }
}
