/** Plans whose result shape the capability fixes: scalar results and aggregates. */
module FixedPlans {
  import opened Common
  import opened JsonModel
  import opened Disclosure
  import opened Records
  import opened TypeText
  import opened Schema
  import opened Execution
  import opened Plans
  import opened Arguments
  import opened Compiler
  import opened Context
  import opened Aggregate
  import opened AggregateRows

  /** `QueryOutput::Scalar` and `QueryOutput::Aggregate`. */
  datatype FixedOutput =
    | ScalarOutput(classification: Classification, maximumItems: Option<u32>)
    | AggregateOutput(entity: Option<AggregateEntity>, row: RowNames)
  {
    predicate RequiresBound() {
      AggregateOutput? || maximumItems.Some?
    }
  }

  /** `root_bound_argument` for these outputs: only aggregates demand a page argument. */
  function FixedBoundArgument(types: Types, root: SchemaField, output: FixedOutput): Result<bool, CompileError> {
    var candidates := |PageArguments(types, root.arguments)|;
    if candidates > 1 || (output.AggregateOutput? && candidates != 1) then Err(NoUniquePageArgument)
      else Ok(candidates == 1)
  }

  /** The argument map in iteration order: every argument once, with its value. */
  ghost predicate ListsArguments(listing: seq<Entry>, arguments: map<string, Json>) {
    && (forall i, j :: 0 <= i < j < |listing| ==> listing[i].key != listing[j].key)
    && (forall e :: e in listing ==> e.key in arguments && arguments[e.key] == e.value)
    && forall name :: name in arguments ==> exists e :: e in listing && e.key == name
  }

  /** An aggregate output is the row that the schema offers behind the root field. */
  ghost predicate IsResolved(cap: Capability, output: FixedOutput) {
    var root := ObjectField(cap.types, cap.queryRoot, cap.fieldName);
    output.AggregateOutput? && root.Some? ==> AggregateRow(cap.types, root.value.ty) == Some(output.row)
  }

  function Leaves(names: seq<string>): seq<Selection> {
    seq(|names|, i requires 0 <= i < |names| => Selection(names[i], names[i], [], []))
  }

  function RowSelections(row: RowNames): seq<Selection> {
    [Selection(row.groups, row.groups, [], Leaves(row.values)),
      Selection(row.metrics, row.metrics, [], Leaves(row.values))]
  }

  function ScalarShape(classification: Classification, maximumItems: Option<u32>): Shape {
    var scalar := Scalar(ExportableRule(classification));
    if maximumItems.Some? then List(ExportableRule(classification), maximumItems.value, None, scalar) else scalar
  }

  // ---------------------------------------------------------------- labels as functions of the request

  ghost function GroupLabels(entity: AggregateEntity, values: seq<Json>): (labelled: seq<Labelled>)
    requires forall v :: v in values ==> GroupOf(entity, v).Some?
    ensures AllGroups(entity, values, labelled)
  {
    seq(|values|, i requires 0 <= i < |values| => assert values[i] in values; GroupOf(entity, values[i]).value)
  }

  ghost function MetricLabels(entity: AggregateEntity, values: seq<Json>): (labelled: seq<Labelled>)
    requires forall v :: v in values ==> MetricOf(entity, v).Some?
    ensures AllMetrics(entity, values, labelled)
  {
    seq(|values|, i requires 0 <= i < |values| => assert values[i] in values; MetricOf(entity, values[i]).value)
  }

  /** The disclosure of the rows, when every selection is available. */
  ghost function AggregateShape(
    entity: Option<AggregateEntity>, row: RowNames, arguments: seq<Entry>, maximumGroups: u32): Option<Shape>
  {
    if !Selectable(entity, arguments) || IdentityNames(row).None? then None
    else
      var groups := GroupLabels(entity.value, GroupValues(arguments));
      var metrics := MetricLabels(entity.value, ArgumentArray(arguments, "metrics").value);
      var default := entity.value.defaultClassification;
      Some(RowsShape(IdentityNames(row).value, HighestOr(groups, default), HighestOr(metrics, default),
                     Labels(groups), Labels(metrics), maximumGroups))
  }

  lemma AggregateShapeIsDisclosure(
    s: Shape, entity: Option<AggregateEntity>, row: RowNames, arguments: seq<Entry>, maximumGroups: u32,
    groups: seq<Labelled>, metrics: seq<Labelled>)
    requires Selectable(entity, arguments) && IdentityNames(row).Some?
    ensures IsDisclosureOf(s, IdentityNames(row).value, entity.value, arguments, maximumGroups, groups, metrics) <==>
      && groups == GroupLabels(entity.value, GroupValues(arguments))
      && metrics == MetricLabels(entity.value, ArgumentArray(arguments, "metrics").value)
      && Some(s) == AggregateShape(entity, row, arguments, maximumGroups)
  {
    hide GroupOf, MetricOf, RowsShape, HighestOr, Labels, ArgumentArray, GroupValues;
    var asked, measured := GroupValues(arguments), ArgumentArray(arguments, "metrics").value;
    if AllGroups(entity.value, asked, groups) {
      assert forall i :: 0 <= i < |asked| ==> GroupOf(entity.value, asked[i]) == Some(groups[i]);
      assert groups == GroupLabels(entity.value, asked);
    }
    if AllMetrics(entity.value, measured, metrics) {
      assert forall i :: 0 <= i < |measured| ==> MetricOf(entity.value, measured[i]) == Some(metrics[i]);
      assert metrics == MetricLabels(entity.value, measured);
    }
  }

  // ---------------------------------------------------------------- compilation

  /** What the output contributes: a projection and its disclosure. `listing` holds the arguments in iteration order. */
  ghost function FixedResult(
    output: FixedOutput, plan: Plan, listing: seq<Entry>): Result<(seq<Selection>, Shape), CompileError>
  {
    if plan.fields != map[] || plan.relationships != map[] then Err(FixedResultShape)
    else
      match output
      case ScalarOutput(classification, maximumItems) =>
        if maximumItems.Some? != plan.maximumItems.Some? then Err(FixedResultShape)
        else if plan.maximumItems.Some? && !(0 < plan.maximumItems.value <= maximumItems.value)
          then Err(FixedResultShape)
        else Ok(([], ScalarShape(classification, plan.maximumItems)))
      case AggregateOutput(entity, row) =>
        if plan.maximumItems.None? then Err(AggregateBoundMissing)
        else
          var shape := AggregateShape(entity, row, listing, plan.maximumItems.value);
          if shape.None? then Err(AggregateUnavailable) else Ok((RowSelections(row), shape.value))
  }

  /** `compile_typed_plan` for these outputs. */
  ghost function CompileFixedPlan(
    cap: Capability, output: FixedOutput, plan: Plan, listing: seq<Entry>): Result<Compiled, CompileError>
    requires ListsArguments(listing, plan.arguments)
  {
    var root := ObjectField(cap.types, cap.queryRoot, cap.fieldName);
    if root.None? then Err(MissingSchemaField)
    else
      var inject :- FixedBoundArgument(cap.types, root.value, output);
      var (st, arguments) :- CompileArguments(
        cap.types, cap.limits, cap.validators, EMPTY_STATE, root.value.arguments, plan.arguments, plan.maximumItems,
        output.RequiresBound(), inject);
      var (selections, shape) :- FixedResult(output, plan, listing);
      Seal(cap, arguments, selections, shape, st)
  }

  method CompileFixed(cap: Capability, output: FixedOutput, plan: Plan, listing: seq<Entry>)
    returns (r: Result<Compiled, CompileError>)
    requires ListsArguments(listing, plan.arguments)
    ensures r == CompileFixedPlan(cap, output, plan, listing)
  {
    hide Seal, Selectable, IdentityNames, Arguments.CompileArguments, PageArguments;
    var root := ObjectField(cap.types, cap.queryRoot, cap.fieldName);
    if root.None? {
      return Err(MissingSchemaField);
    }
    var inject := FixedBoundArgument(cap.types, root.value, output);
    if inject.Err? {
      return Err(inject.error);
    }
    var context := new CompileContext(cap);
    var arguments := context.CompileArguments(
      root.value.arguments, plan.arguments, plan.maximumItems, output.RequiresBound(), inject.value);
    if arguments.Err? {
      return Err(arguments.error);
    }
    if plan.fields != map[] || plan.relationships != map[] {
      return Err(FixedResultShape);
    }
    match output
    case ScalarOutput(classification, maximumItems) =>
      if maximumItems.Some? != plan.maximumItems.Some? {
        return Err(FixedResultShape);
      }
      if plan.maximumItems.Some? && !(0 < plan.maximumItems.value <= maximumItems.value) {
        return Err(FixedResultShape);
      }
      r := SealPlan(context, arguments.value, [], ScalarShape(classification, plan.maximumItems));
    case AggregateOutput(entity, row) =>
      if plan.maximumItems.None? {
        return Err(AggregateBoundMissing);
      }
      var rows, groups, metrics := ExactAggregateDisclosure(entity, row, listing, plan.maximumItems.value);
      if rows.Err? {
        return Err(AggregateUnavailable);
      }
      AggregateShapeIsDisclosure(rows.value, entity, row, listing, plan.maximumItems.value, groups, metrics);
      r := SealPlan(context, arguments.value, RowSelections(row), rows.value);
  }

  // ---------------------------------------------------------------- the order of the arguments

  /** No two argument names are the same to the aggregate lookups. */
  ghost predicate DistinctArgumentKeys(arguments: map<string, Json>) {
    forall a, b :: a in arguments && b in arguments && SemanticNameKey(a) == SemanticNameKey(b) ==> a == b
  }

  lemma {:induction false} FoundByKey(listing: seq<Entry>, expected: string)
    ensures match FindByKey(listing, expected)
            case Some(v) => exists e :: e in listing && SemanticNameKey(e.key) == SemanticNameKey(expected)
                              && e.value == v
            case None => forall e :: e in listing ==> SemanticNameKey(e.key) != SemanticNameKey(expected)
  {
    hide SemanticNameKey;
    if listing != [] {
      assert listing == [listing[0]] + listing[1..];
      FoundByKey(listing[1..], expected);
    }
  }

  lemma LookupIgnoresOrder(a: seq<Entry>, b: seq<Entry>, arguments: map<string, Json>, expected: string)
    requires ListsArguments(a, arguments) && ListsArguments(b, arguments) && DistinctArgumentKeys(arguments)
    ensures FindByKey(a, expected) == FindByKey(b, expected)
  {
    hide SemanticNameKey;
    FoundByKey(a, expected);
    FoundByKey(b, expected);
    forall e | e in a ensures exists d :: d in b && d.key == e.key {
    }
    forall e | e in b ensures exists d :: d in a && d.key == e.key {
    }
  }

  /** The order in which the arguments are listed does not matter while their names differ to the lookups. */
  lemma ListingIsIrrelevant(cap: Capability, output: FixedOutput, plan: Plan, a: seq<Entry>, b: seq<Entry>)
    requires ListsArguments(a, plan.arguments) && ListsArguments(b, plan.arguments)
      && DistinctArgumentKeys(plan.arguments)
    ensures CompileFixedPlan(cap, output, plan, a) == CompileFixedPlan(cap, output, plan, b)
  {
    hide ListsArguments, DistinctArgumentKeys, FindByKey, Arguments.CompileArguments, Seal, GroupOf, MetricOf,
      RowsShape;
    LookupIgnoresOrder(a, b, plan.arguments, "groupBy");
    LookupIgnoresOrder(a, b, plan.arguments, "metrics");
    assert GroupValues(a) == GroupValues(b) && ArgumentArray(a, "metrics") == ArgumentArray(b, "metrics");
  }

  // ---------------------------------------------------------------- accepted plans stay within the budget

  lemma FixedHasStages(cap: Capability, output: FixedOutput, plan: Plan, listing: seq<Entry>) returns (result: Shape)
    requires ListsArguments(listing, plan.arguments) && CompileFixedPlan(cap, output, plan, listing).Ok?
    ensures FixedResult(output, plan, listing).Ok? && result == FixedResult(output, plan, listing).value.1
    ensures var d := CompileFixedPlan(cap, output, plan, listing).value.disclosure;
      && d == Object(ExportableRule(MaximumClassification(result)), map[cap.fieldName := result])
      && ValidShape(d, 0) && ValidShape(result, 1)
      && MaximumGraphqlRecordCount(d) == MaximumRecordCount(result) && MaximumRecordCount(result).Some?
      && MaximumRecordCount(result).value <= cap.limits.maximumResultRecords
    ensures plan.maximumItems.Some? ==> plan.maximumItems.value > 0
  {
    hide FixedResult, MaximumRecordCount, ValidIdentity, BindArguments, InjectPageLimit;
    result := FixedResult(output, plan, listing).value.1;
    var d := CompileFixedPlan(cap, output, plan, listing).value.disclosure;
    assert |d.fields| == 1 && cap.fieldName in d.fields;
    assert forall k :: k in d.fields ==> k == cap.fieldName;
  }

  lemma ValidRowsHaveValidNames(
    names: AggregateNames, s: Shape, entity: AggregateEntity, listing: seq<Entry>, maximumGroups: u32,
    groups: seq<Labelled>, metrics: seq<Labelled>)
    requires ArgumentArray(listing, "metrics").Some? && IdentityNames(names.row) == Some(names)
    requires IsDisclosureOf(s, names, entity, listing, maximumGroups, groups, metrics)
    requires ValidShape(s, 1) && names.row.groups != names.row.metrics
    ensures ValidNames(names) && |groups| <= U32_MAX && |metrics| <= U32_MAX
  {
    IdentityNamesDiffer(names.row);
    var row := s.item;
    assert ValidShape(row, 2);
    assert names.row.groups in row.fields && names.row.metrics in row.fields;
    var g, m := row.fields[names.row.groups], row.fields[names.row.metrics];
    assert ValidShape(g, 3) && ValidShape(m, 3);
    var identity := g.identity.value;
    assert ValidIdentity(identity, g.maximumItems) && ValidIdentity(m.identity.value, m.maximumItems);
    assert identity.fields[0] == names.field && identity.fields[1] == names.operator;
    assert ValidShape(g.item, 4);
    assert forall name :: name in names.Values() ==> name in g.item.fields;
  }

  /** An accepted aggregate plan asks for no more records than the budget: rows times values, counted exactly. */
  lemma AcceptedAggregateFitsBudget(cap: Capability, output: FixedOutput, plan: Plan, listing: seq<Entry>)
    requires output.AggregateOutput? && IsResolved(cap, output) && ListsArguments(listing, plan.arguments)
    requires CompileFixedPlan(cap, output, plan, listing).Ok?
    ensures plan.maximumItems.Some? && ArgumentArray(listing, "metrics").Some?
    ensures var n := AggregateRecords(
                       plan.maximumItems.value, |GroupValues(listing)|, |ArgumentArray(listing, "metrics").value|);
      && n <= cap.limits.maximumResultRecords
      && MaximumGraphqlRecordCount(CompileFixedPlan(cap, output, plan, listing).value.disclosure) == Some(n)
  {
    hide CompileFixedPlan, GroupValues, ArgumentArray, ValidShape, MaximumRecordCount, MaximumGraphqlRecordCount,
      ValidNames, IdentityNames, IsDisclosureOf, ListsArguments, AggregateRow;
    var s := FixedHasStages(cap, output, plan, listing);
    RootExists(cap, output, plan, listing);
    AggregateRowIsUsable(cap.types, ObjectField(cap.types, cap.queryRoot, cap.fieldName).value.ty);
    var entity, names, maximum := output.entity, IdentityNames(output.row).value, plan.maximumItems.value;
    var groups := GroupLabels(entity.value, GroupValues(listing));
    var metrics := MetricLabels(entity.value, ArgumentArray(listing, "metrics").value);
    AggregateShapeIsDisclosure(s, entity, output.row, listing, maximum, groups, metrics);
    NamesKeepTheirRow(output.row);
    ValidRowsHaveValidNames(names, s, entity.value, listing, maximum, groups, metrics);
    AggregateCountIsExact(s, names, entity.value, listing, maximum, groups, metrics);
  }

  lemma RootExists(cap: Capability, output: FixedOutput, plan: Plan, listing: seq<Entry>)
    requires ListsArguments(listing, plan.arguments) && CompileFixedPlan(cap, output, plan, listing).Ok?
    ensures ObjectField(cap.types, cap.queryRoot, cap.fieldName).Some?
  {
  }

  lemma NamesKeepTheirRow(row: RowNames)
    ensures IdentityNames(row).Some? ==> IdentityNames(row).value.row == row
  {
  }

  /** Whatever conforms to the disclosure of an accepted plan passes the run-time check at the compiled ceiling. */
  lemma AcceptedFixedPlanDiscloses(cap: Capability, output: FixedOutput, plan: Plan, listing: seq<Entry>, v: Json)
    requires ListsArguments(listing, plan.arguments)
    requires CompileFixedPlan(cap, output, plan, listing).Ok? && cap.limits.maximumResultRecords > 0
    requires UniqueKeys(v) && v.JObject? && Get(v.entries, cap.fieldName).Some?
    requires Conforms(v, CompileFixedPlan(cap, output, plan, listing).value.disclosure)
    ensures GraphqlFailure(v, CompileFixedPlan(cap, output, plan, listing).value.disclosure,
      cap.limits.maximumResultRecords).None?
  {
    hide CompileFixedPlan, FixedResult, ValidShape, MaximumRecordCount, MaximumGraphqlRecordCount, GraphqlFailure;
    var s := FixedHasStages(cap, output, plan, listing);
    CompiledCeilingIsNeverExceeded(
      v, CompileFixedPlan(cap, output, plan, listing).value.disclosure, cap.limits.maximumResultRecords, cap.fieldName);
  }

  // ---------------------------------------------------------------- scalar results are disclosed

  /** A scalar, or a flat list of scalars kept within the bound it was asked for. */
  lemma ScalarDataDiscloses(
    types: Types, w: World, vars: Variables, ty: Type, d: Data, c: Classification, maximumItems: Option<u32>)
    requires Fits(types, w, d, ty) && !IsObject(types, ty.Base())
    requires if maximumItems.Some? then ty.ListOf? && ty.item.Named? else ty.Named?
    requires maximumItems.Some? && d.Items? ==> |d.items| <= maximumItems.value
    ensures Discloses(Complete(w, vars, d, []), ScalarShape(c, maximumItems))
  {
    if d.Items? {
      forall i | 0 <= i < |d.items|
        ensures Discloses(Complete(w, vars, d.items[i], []), Scalar(ExportableRule(c)))
      {
        assert Fits(types, w, d.items[i], ty.item);
      }
    }
  }

  /** Every conforming response to an accepted scalar plan is disclosed, within the ceiling. */
  lemma AcceptedScalarDiscloses(
    cap: Capability, output: FixedOutput, plan: Plan, listing: seq<Entry>, w: World, root: nat)
    requires ListsArguments(listing, plan.arguments)
    requires output.ScalarOutput? && CompileFixedPlan(cap, output, plan, listing).Ok?
      && cap.limits.maximumResultRecords > 0
    requires ConformingWorld(cap.types, w) && w.typeOf(root) == cap.queryRoot
    requires var field := ObjectField(cap.types, cap.queryRoot, cap.fieldName);
      field.Some? ==>
        && !IsObject(cap.types, field.value.ty.Base())
        && if output.maximumItems.Some? then field.value.ty.ListOf? && field.value.ty.item.Named?
          else field.value.ty.Named?
    requires var c := CompileFixedPlan(cap, output, plan, listing).value;
      var d := w.resolve(root, cap.fieldName, ArgumentValues(c.document.arguments, c.state.variables));
      plan.maximumItems.Some? && d.Items? ==> |d.items| <= plan.maximumItems.value
    ensures var c := CompileFixedPlan(cap, output, plan, listing).value;
      var response := JObject([Entry(cap.fieldName, ExecuteField(w, c.state.variables, root, c.document))]);
      GraphqlFailure(response, c.disclosure, cap.limits.maximumResultRecords).None?
  {
    hide Arguments.CompileArguments, ValidShape, MaximumRecordCount, MaximumGraphqlRecordCount, GraphqlFailure;
    var c := CompileFixedPlan(cap, output, plan, listing).value;
    var s := FixedHasStages(cap, output, plan, listing);
    var ty := ObjectField(cap.types, cap.queryRoot, cap.fieldName).value.ty;
    var d := w.resolve(root, cap.fieldName, ArgumentValues(c.document.arguments, c.state.variables));
    assert Fits(cap.types, w, d, ty);
    ScalarDataDiscloses(cap.types, w, c.state.variables, ty, d, output.classification, plan.maximumItems);
    var response := JObject([Entry(cap.fieldName, ExecuteField(w, c.state.variables, root, c.document))]);
    assert Get(response.entries, cap.fieldName) == Some(response.entries[0].value);
    AcceptedFixedPlanDiscloses(cap, output, plan, listing, response);
  }
}
