/** The closed plan compiler: selection, lifted variables and disclosure shape. */
module Compiler {
  import opened Common
  import opened Disclosure
  import opened Records
  import opened TypeText
  import opened Schema
  import opened Routes
  import opened Execution
  import opened Plans
  import opened Arguments

  /** What one compiled capability fixes before any plan arrives. */
  datatype Capability = Capability(
    types: Types,
    catalog: Catalog,
    limits: Limits,
    validators: Validators,
    queryRoot: string,
    fieldName: string,
    entity: string,
    route: Route,
    resultFloor: Option<Classification>)

  // ---------------------------------------------------------------- classifications

  /** The greatest class of a set; `Public` is the least there is. */
  function Greatest(classes: set<Classification>): Classification {
    if Secret in classes then Secret
    else if Restricted in classes then Restricted
    else if Confidential in classes then Confidential
    else if Internal in classes then Internal
    else Public
  }

  /** `maximum_classification`: the rule's own class against those of the children. */
  function MaximumClassification(s: Shape): Classification {
    match s
    case Scalar(rule) => rule.classification
    case Object(rule, fields) =>
      MaxClass(rule.classification, Greatest(set k | k in fields :: MaximumClassification(fields[k])))
    case List(rule, _, _, item) => MaxClass(rule.classification, MaximumClassification(item))
  }

  /** The greatest class among field shapes, with a default for none. */
  function MaximumOfFields(fields: map<string, Shape>, default: Classification): Classification {
    if fields == map[] then default else Greatest(set k | k in fields :: MaximumClassification(fields[k]))
  }

  // ---------------------------------------------------------------- wrapping along a route

  /** `wrap_projection_route`, from the innermost segment outwards. */
  function WrapRoute(route: Route, sub: seq<Selection>, shape: Shape, maximumItems: u32): (seq<Selection>, Shape) {
    if route == [] then (sub, shape)
    else
      var (inner, d) := WrapRoute(route[1..], sub, shape, maximumItems);
      WrapSegment(route[0], inner, d, maximumItems)
  }

  function WrapSegment(segment: Segment, sub: seq<Selection>, d: Shape, maximumItems: u32): (seq<Selection>, Shape) {
    var listed := if segment.isList
                  then List(ExportableRule(MaximumClassification(d)), maximumItems, None, d) else d;
    if segment.fieldName == "" then (sub, listed)
    else ([Selection(segment.fieldName, segment.fieldName, [], sub)],
          Object(ExportableRule(MaximumClassification(listed)), map[segment.fieldName := listed]))
  }

  method WrapProjectionRoute(route: Route, sub: seq<Selection>, shape: Shape, maximumItems: u32)
    returns (projection: seq<Selection>, disclosure: Shape)
    ensures (projection, disclosure) == WrapRoute(route, sub, shape, maximumItems)
  {
    projection, disclosure := sub, shape;
    var i := |route|;
    while i > 0
      invariant 0 <= i <= |route|
      invariant (projection, disclosure) == WrapRoute(route[i..], sub, shape, maximumItems)
    {
      i := i - 1;
      assert route[i..][1..] == route[i + 1..];
      var wrapped := WrapSegment(route[i], projection, disclosure, maximumItems);
      projection, disclosure := wrapped.0, wrapped.1;
    }
    assert route[0..] == route;
  }

  // ---------------------------------------------------------------- one entity

  /** A selection under construction. */
  datatype Partial = Partial(state: State, rendered: seq<Selection>, shapes: map<string, Shape>)

  function Count(st: State): State {
    st.(selectedFields := st.selectedFields + 1)
  }

  function CompileScalars(cap: Capability, entityName: string, fields: seq<Field>, plan: Plan, p: Partial)
    : Result<Partial, CompileError>
  {
    if fields == [] then Ok(p)
    else
      var f := fields[0];
      if f.name !in plan.fields then CompileScalars(cap, entityName, fields[1..], plan, p)
      else if !SelectableScalar(f) then Err(HiddenOrNotScalar)
      else if ObjectField(cap.types, entityName, f.name).None? then Err(MissingSchemaField)
      else CompileScalars(cap, entityName, fields[1..], plan, AddScalar(p, f))
  }

  function AddScalar(p: Partial, f: Field): Partial {
    Partial(Count(p.state), p.rendered + [Selection(f.name, f.name, [], [])],
            p.shapes[f.name := Scalar(ExportableRule(f.classification))])
  }

  /** `collection_execution`. */
  function CollectionExecution(r: Relationship): Result<Option<CollectionBound>, CompileError> {
    match r.cardinality
    case One => if r.bound.Some? then Err(CollectionBoundInvalid) else Ok(None)
    case Many => if r.bound.None? then Err(CollectionBoundInvalid) else Ok(r.bound)
  }

  predicate ModelMaySelectMaximum(collection: Option<CollectionBound>) {
    collection.Some? && collection.value.Pageable?
  }

  function ListMaximum(collection: Option<CollectionBound>, plan: Plan): u32 {
    match collection
    case Some(ServerFixed(maximumItems)) => maximumItems
    case Some(Pageable(_)) => if plan.maximumItems.Some? then plan.maximumItems.value else 1
    case None => 1
  }

  /** A compiled selection set with the shape of the object it selects from. */
  datatype CompiledEntity = CompiledEntity(state: State, selections: seq<Selection>, shape: Shape)

  function CompileRelationships(cap: Capability, entityName: string, fields: seq<Field>, plan: Plan,
                                ancestry: seq<string>, depth: nat, p: Partial): Result<Partial, CompileError>
    requires depth < cap.limits.maximumDepth
    decreases cap.limits.maximumDepth - depth, 1, |fields|
  {
    if fields == [] then Ok(p)
    else if fields[0].name !in plan.relationships then
      CompileRelationships(cap, entityName, fields[1..], plan, ancestry, depth, p)
    else
      var q :- CompileRelationship(cap, entityName, fields[0], plan.relationships[fields[0].name], ancestry, depth, p);
      CompileRelationships(cap, entityName, fields[1..], plan, ancestry, depth, q)
  }

  function CompileRelationship(cap: Capability, entityName: string, f: Field, plan: Plan,
                               ancestry: seq<string>, depth: nat, p: Partial): Result<Partial, CompileError>
    requires depth < cap.limits.maximumDepth
    decreases cap.limits.maximumDepth - depth, 0
  {
    var head :- CompileRelationshipHead(cap, entityName, f, plan, ancestry, p.state);
    var target := f.relationship.value.target;
    var nested :- CompileEntity(cap, head.state, target, plan, ancestry + [target], depth + 1);
    var route := SpecificRoute(cap.types, target, head.ty, cap.limits.maximumDepth);
    if route.None? then Err(NoRoute)
    else Ok(AddRelationship(p, f, head, nested, route.value))
  }

  /** What is settled about a relationship before its own selection is compiled. */
  datatype Head = Head(state: State, arguments: seq<Argument>, ty: Type, maximum: u32)

  function CompileRelationshipHead(
    cap: Capability, entityName: string, f: Field, plan: Plan, ancestry: seq<string>, st: State)
    : (r: Result<Head, CompileError>)
    ensures r.Ok? ==> Traversable(f)
  {
    if f.relationship.None? then Err(NotARelationship)
    else if !Traversable(f) || f.relationship.value.target in ancestry then Err(HiddenOrCyclic)
    else
      var actual := ObjectField(cap.types, entityName, f.name);
      if actual.None? then Err(MissingSchemaField)
      else
        var collection :- CollectionExecution(f.relationship.value);
        if collection.Some? && collection.value.ServerFixed? && plan.maximumItems.Some? then Err(FixedBoundSelected)
        else
          var pageable := ModelMaySelectMaximum(collection);
          var (state, arguments) :- CompileArguments(
            cap.types, cap.limits, cap.validators, st, actual.value.arguments, plan.arguments, plan.maximumItems,
            pageable, pageable);
          Ok(Head(state, arguments, actual.value.ty, ListMaximum(collection, plan)))
  }

  function AddRelationship(p: Partial, f: Field, head: Head, nested: CompiledEntity, route: Route): Partial {
    var wrapped := WrapRoute(route, nested.selections, nested.shape, head.maximum);
    Partial(Count(nested.state),
            p.rendered + [Selection(f.name, f.name, head.arguments, wrapped.0)],
            p.shapes[f.name := wrapped.1])
  }

  predicate HasField(fields: seq<Field>, name: string) {
    exists i :: 0 <= i < |fields| && fields[i].name == name
  }

  /** `compile_entity_selection`. */
  function CompileEntity(cap: Capability, st: State, entityName: string, plan: Plan, ancestry: seq<string>, depth: nat)
    : Result<CompiledEntity, CompileError>
    decreases cap.limits.maximumDepth - depth, 2
  {
    if depth >= cap.limits.maximumDepth then Err(TooDeep)
    else if entityName !in cap.catalog then Err(MissingEntity)
    else if exists k :: k in plan.fields && !plan.fields[k] then Err(FlagMustBeTrue)
    else
      var fields := cap.catalog[entityName].fields;
      var scalars :- CompileScalars(cap, entityName, fields, plan, Partial(st, [], map[]));
      if exists k :: k in plan.fields && !HasField(fields, k) then Err(UnknownFieldName)
      else
        var p :- CompileRelationships(cap, entityName, fields, plan, ancestry, depth, scalars);
        if exists k :: k in plan.relationships && !HasField(fields, k) then Err(UnknownRelationship)
        else if p.rendered == [] then Err(EmptySelection)
        else
          Ok(CompiledEntity(p.state, p.rendered,
                            Object(ExportableRule(MaximumOfFields(p.shapes,
                              cap.catalog[entityName].defaultClassification)), p.shapes)))
  }

  // ---------------------------------------------------------------- a whole plan

  predicate HasList(route: Route) {
    exists i :: 0 <= i < |route| && route[i].isList
  }

  /** `root_bound_argument`, for an entity root. */
  function RootBoundArgument(types: Types, root: SchemaField, route: Route): Result<bool, CompileError> {
    var candidates := |PageArguments(types, root.arguments)|;
    if candidates > 1 || (HasList(route) && candidates != 1) then Err(NoUniquePageArgument) else Ok(candidates == 1)
  }

  function TightenRoot(s: Shape, floor: Option<Classification>): Shape {
    if floor.None? then s
    else
      var rule := s.rule.(classification := MaxClass(s.rule.classification, floor.value));
      s.(rule := rule)
  }

  datatype Compiled = Compiled(document: Selection, state: State, disclosure: Shape)

  /** The end of `compile_typed_plan`: totals, the envelope around the result, its validity and the record budget. */
  ghost function Seal(
    cap: Capability, arguments: seq<Argument>, selections: seq<Selection>, result: Shape, state: State)
    : Result<Compiled, CompileError>
  {
    if state.selectedFields > cap.limits.maximumSelectedFields || state.arguments > cap.limits.maximumArguments
    then Err(TooComplex)
    else
      var disclosure := Object(ExportableRule(MaximumClassification(result)), map[cap.fieldName := result]);
      if !ValidShape(disclosure, 0) then Err(InvalidDisclosure)
      else
        var records := MaximumGraphqlRecordCount(disclosure);
        if records.None? || records.value > cap.limits.maximumResultRecords then Err(RecordBudgetExceeded)
        else Ok(Compiled(Selection(cap.fieldName, cap.fieldName, arguments, selections), state, disclosure))
  }

  /** `compile_typed_plan` for a capability whose result is an entity. */
  ghost function CompileTypedPlan(cap: Capability, plan: Plan): Result<Compiled, CompileError> {
    var root := ObjectField(cap.types, cap.queryRoot, cap.fieldName);
    if root.None? then Err(MissingSchemaField)
    else
      var inject :- RootBoundArgument(cap.types, root.value, cap.route);
      var (st, arguments) :- CompileArguments(
        cap.types, cap.limits, cap.validators, EMPTY_STATE, root.value.arguments, plan.arguments, plan.maximumItems,
        HasList(cap.route), inject);
      var entity :- CompileEntity(cap, st, cap.entity, plan, [cap.entity], 0);
      var maximum: u32 := if plan.maximumItems.Some? then plan.maximumItems.value else 1;
      var (selections, shape) := WrapRoute(cap.route, entity.selections, entity.shape, maximum);
      Seal(cap, arguments, selections, TightenRoot(shape, cap.resultFloor), entity.state)
  }
}
