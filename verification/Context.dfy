/**
 * The compiler as the source runs it: one mutable context, loops over inputs and fields. Each method is tied
 * to the specification function of the same step.
 */
module Context {
  import opened Common
  import opened JsonModel
  import opened Disclosure
  import opened Records
  import opened TypeText
  import opened Schema
  import opened Routes
  import opened Execution
  import opened Plans
  import opened Arguments
  import opened Compiler

  /** Puts rendered arguments in front of those still to come. */
  function Prepend(
    rendered: seq<Argument>, rest: Result<(State, seq<Argument>), CompileError>)
      : Result<(State, seq<Argument>), CompileError>
  {
    match rest
    case Err(error) => Err(error)
    case Ok((state, others)) => Ok((state, rendered + others))
  }

  lemma PrependTwice(a: seq<Argument>, b: seq<Argument>, rest: Result<(State, seq<Argument>), CompileError>)
    ensures Prepend(a, Prepend(b, rest)) == Prepend(a + b, rest)
    ensures Prepend([], rest) == rest
  {
    if rest.Ok? {
      assert [] + rest.value.1 == rest.value.1;
      assert a + (b + rest.value.1) == (a + b) + rest.value.1;
    }
  }

  class CompileContext {
    const cap: Capability
    var variables: map<string, Json>
    var definitions: seq<Definition>
    var schemas: map<string, Type>
    var selectedFields: nat
    var arguments: nat

    ghost function Now(): State
      reads this
    {
      State(variables, definitions, schemas, selectedFields, arguments)
    }

    constructor (cap: Capability)
      ensures this.cap == cap && Now() == EMPTY_STATE
    {
      this.cap := cap;
      variables, definitions, schemas, selectedFields, arguments := map[], [], map[], 0, 0;
    }

    method Lift(ty: Type, value: Json) returns (variable: string)
      modifies this
      ensures variable == VariableName(|old(variables)|) && Now() == Bind(old(Now()), ty, value)
    {
      variable := VariableName(|variables|);
      variables := variables[variable := value];
      definitions := definitions + [Definition(variable, ty)];
      schemas := schemas[variable := ty];
      arguments := arguments + 1;
    }

    /** Renders the inputs that have a value, each through a fresh variable. */
    method RenderArguments(
      inputs: seq<SchemaInput>, values: map<string, Json>) returns (r: Result<seq<Argument>, CompileError>)
      modifies this
      ensures match BindArguments(cap.validators, old(Now()), inputs, values)
              case Err(error) => r == Err(error)
              case Ok((state, rendered)) => r == Ok(rendered) && Now() == state
    {
      var rendered: seq<Argument> := [];
      var i := 0;
      assert inputs[0..] == inputs;
      PrependTwice([], [], BindArguments(cap.validators, Now(), inputs, values));
      while i < |inputs|
        invariant i <= |inputs|
        invariant BindArguments(cap.validators, old(Now()), inputs, values) ==
                  Prepend(rendered, BindArguments(cap.validators, Now(), inputs[i..], values))
      {
        var input := inputs[i];
        assert inputs[i..][1..] == inputs[i + 1..];
        if input.name !in values {
          if input.ty.nonNull && !input.hasDefault {
            return Err(MissingArgument);
          }
        } else {
          if !cap.validators.admits(input.ty, values[input.name]) {
            return Err(InvalidArgument);
          }
          var variable := Lift(input.ty, values[input.name]);
          PrependTwice(rendered, [Argument(input.name, Variable(variable))],
            BindArguments(cap.validators, Now(), inputs[i + 1..], values));
          rendered := rendered + [Argument(input.name, Variable(variable))];
        }
        i := i + 1;
      }
      assert rendered + [] == rendered;
      r := Ok(rendered);
    }

    method CompileArguments(inputs: seq<SchemaInput>, supplied: map<string, Json>, maximumItems: Option<u32>,
                            expectBound: bool, injectBound: bool) returns (r: Result<seq<Argument>, CompileError>)
      modifies this
      ensures match Arguments.CompileArguments(cap.types, cap.limits, cap.validators, old(Now()), inputs, supplied,
        maximumItems, expectBound, injectBound)
              case Err(error) => r == Err(error)
              case Ok((state, rendered)) => r == Ok(rendered) && Now() == state
    {
      if expectBound != maximumItems.Some? {
        return Err(BoundMissingOrUnexpected);
      }
      if maximumItems.Some? && (maximumItems.value == 0 || maximumItems.value > cap.limits.maximumListItems
                                || maximumItems.value > cap.limits.maximumResultRecords) {
        return Err(BoundExceedsLimits);
      }
      if !AllPrevalid(cap.validators, inputs, supplied) {
        return Err(InvalidArgument);
      }
      var values := supplied;
      if maximumItems.Some? && injectBound {
        var injected := InjectPageLimit(cap.types, inputs, values, maximumItems.value);
        if injected.Err? {
          return Err(injected.error);
        }
        values := injected.value;
      }
      if !(values.Keys <= InputNames(inputs)) {
        return Err(UnknownArgument);
      }
      r := RenderArguments(inputs, values);
    }

    method SelectScalars(entityName: string, fields: seq<Field>, plan: Plan)
      returns (r: Result<(seq<Selection>, map<string, Shape>), CompileError>)
      modifies this
      ensures match CompileScalars(cap, entityName, fields, plan, Partial(old(Now()), [], map[]))
              case Err(error) => r == Err(error)
              case Ok(p) => r == Ok((p.rendered, p.shapes)) && Now() == p.state
    {
      var rendered: seq<Selection>, shapes: map<string, Shape> := [], map[];
      var i := 0;
      assert fields[0..] == fields;
      while i < |fields|
        invariant i <= |fields|
        invariant CompileScalars(cap, entityName, fields[i..], plan, Partial(Now(), rendered, shapes)) ==
                  CompileScalars(cap, entityName, fields, plan, Partial(old(Now()), [], map[]))
      {
        var f := fields[i];
        assert fields[i..][1..] == fields[i + 1..];
        if f.name in plan.fields {
          if !SelectableScalar(f) {
            return Err(HiddenOrNotScalar);
          }
          if ObjectField(cap.types, entityName, f.name).None? {
            return Err(MissingSchemaField);
          }
          rendered := rendered + [Selection(f.name, f.name, [], [])];
          shapes := shapes[f.name := Scalar(ExportableRule(f.classification))];
          selectedFields := selectedFields + 1;
        }
        i := i + 1;
      }
      r := Ok((rendered, shapes));
    }

    /** One relationship: its arguments, then its own selection, then the wrappers along its route. */
    method SelectRelationship(
      entityName: string, f: Field, plan: Plan, ancestry: seq<string>, depth: nat, ghost p: Partial)
      returns (r: Result<(Selection, Shape), CompileError>)
      requires depth < cap.limits.maximumDepth && p.state == Now() && WellFormedTypes(cap.types)
      modifies this
      ensures match CompileRelationship(cap, entityName, f, plan, ancestry, depth, p)
              case Err(error) => r == Err(error)
              case Ok(q) => r.Ok? && q == Partial(Now(), p.rendered + [r.value.0], p.shapes[f.name := r.value.1])
      decreases cap.limits.maximumDepth - depth, 0
    {
      if f.relationship.None? {
        return Err(NotARelationship);
      }
      if !Traversable(f) || f.relationship.value.target in ancestry {
        return Err(HiddenOrCyclic);
      }
      var target := f.relationship.value.target;
      var actual := ObjectField(cap.types, entityName, f.name);
      if actual.None? {
        return Err(MissingSchemaField);
      }
      var collection := CollectionExecution(f.relationship.value);
      if collection.Err? {
        return Err(collection.error);
      }
      if collection.value.Some? && collection.value.value.ServerFixed? && plan.maximumItems.Some? {
        return Err(FixedBoundSelected);
      }
      var pageable := ModelMaySelectMaximum(collection.value);
      var rendered := CompileArguments(actual.value.arguments, plan.arguments, plan.maximumItems, pageable, pageable);
      if rendered.Err? {
        return Err(rendered.error);
      }
      var nested := CompileEntitySelection(target, plan, ancestry + [target], depth + 1);
      if nested.Err? {
        return Err(nested.error);
      }
      var route := ResolveSpecificEntityRoute(cap.types, target, actual.value.ty, cap.limits.maximumDepth);
      if route.None? {
        return Err(NoRoute);
      }
      var projection, disclosure :=
        WrapProjectionRoute(route.value, nested.value.0, nested.value.1, ListMaximum(collection.value, plan));
      selectedFields := selectedFields + 1;
      r := Ok((Selection(f.name, f.name, rendered.value, projection), disclosure));
    }

    method CompileEntitySelection(entityName: string, plan: Plan, ancestry: seq<string>, depth: nat)
      returns (r: Result<(seq<Selection>, Shape), CompileError>)
      requires WellFormedTypes(cap.types)
      modifies this
      ensures match CompileEntity(cap, old(Now()), entityName, plan, ancestry, depth)
              case Err(error) => r == Err(error)
              case Ok(c) => r == Ok((c.selections, c.shape)) && Now() == c.state
      decreases cap.limits.maximumDepth - depth, 2
    {
      if depth >= cap.limits.maximumDepth {
        return Err(TooDeep);
      }
      if entityName !in cap.catalog {
        return Err(MissingEntity);
      }
      if exists k :: k in plan.fields && !plan.fields[k] {
        return Err(FlagMustBeTrue);
      }
      var fields := cap.catalog[entityName].fields;
      var scalars := SelectScalars(entityName, fields, plan);
      if scalars.Err? {
        return Err(scalars.error);
      }
      if exists k :: k in plan.fields && !HasField(fields, k) {
        return Err(UnknownFieldName);
      }
      var related := SelectRelationships(entityName, fields, plan, ancestry, depth, scalars.value.0, scalars.value.1);
      if related.Err? {
        return Err(related.error);
      }
      if exists k :: k in plan.relationships && !HasField(fields, k) {
        return Err(UnknownRelationship);
      }
      var (rendered, shapes) := related.value;
      if rendered == [] {
        return Err(EmptySelection);
      }
      r := Ok((rendered,
        Object(ExportableRule(MaximumOfFields(shapes, cap.catalog[entityName].defaultClassification)), shapes)));
    }

    method SelectRelationships(entityName: string, fields: seq<Field>, plan: Plan, ancestry: seq<string>, depth: nat,
                               first: seq<Selection>, firstShapes: map<string, Shape>)
      returns (r: Result<(seq<Selection>, map<string, Shape>), CompileError>)
      requires depth < cap.limits.maximumDepth && WellFormedTypes(cap.types)
      modifies this
      ensures match CompileRelationships(cap, entityName, fields, plan, ancestry, depth,
        Partial(old(Now()), first, firstShapes))
              case Err(error) => r == Err(error)
              case Ok(p) => r == Ok((p.rendered, p.shapes)) && Now() == p.state
      decreases cap.limits.maximumDepth - depth, 1
    {
      var rendered, shapes := first, firstShapes;
      var i := 0;
      assert fields[0..] == fields;
      while i < |fields|
        invariant i <= |fields|
        invariant CompileRelationships(cap, entityName, fields[i..], plan, ancestry, depth,
          Partial(Now(), rendered, shapes)) ==
                  CompileRelationships(cap, entityName, fields, plan, ancestry, depth,
                    Partial(old(Now()), first, firstShapes))
      {
        hide CompileRelationship, WellFormedTypes;
        var f := fields[i];
        assert fields[i..][1..] == fields[i + 1..];
        if f.name in plan.relationships {
          var one := SelectRelationship(entityName, f, plan.relationships[f.name], ancestry, depth,
            Partial(Now(), rendered, shapes));
          if one.Err? {
            return Err(one.error);
          }
          rendered := rendered + [one.value.0];
          shapes := shapes[f.name := one.value.1];
        }
        i := i + 1;
      }
      r := Ok((rendered, shapes));
    }

    /** `ensure_totals`. */
    method EnsureTotals() returns (ok: bool)
      ensures ok <==>
        Now().selectedFields <= cap.limits.maximumSelectedFields && Now().arguments <= cap.limits.maximumArguments
    {
      ok := selectedFields <= cap.limits.maximumSelectedFields && arguments <= cap.limits.maximumArguments;
    }
  }

  /** `compile_typed_plan` for an entity result, over one fresh context. */
  method CompilePlan(cap: Capability, plan: Plan) returns (r: Result<Compiled, CompileError>)
    requires WellFormedTypes(cap.types)
    ensures r == CompileTypedPlan(cap, plan)
  {
    hide CompileEntity, WellFormedTypes, PageArguments, ValidShape, MaximumRecordCount, WrapRoute,
      MaximumClassification, Arguments.CompileArguments;
    var root := ObjectField(cap.types, cap.queryRoot, cap.fieldName);
    if root.None? {
      return Err(MissingSchemaField);
    }
    var inject := RootBoundArgument(cap.types, root.value, cap.route);
    if inject.Err? {
      return Err(inject.error);
    }
    var context := new CompileContext(cap);
    var arguments := context.CompileArguments(root.value.arguments, plan.arguments, plan.maximumItems,
      HasList(cap.route), inject.value);
    if arguments.Err? {
      return Err(arguments.error);
    }
    var entity := context.CompileEntitySelection(cap.entity, plan, [cap.entity], 0);
    if entity.Err? {
      return Err(entity.error);
    }
    var maximum: u32 := if plan.maximumItems.Some? then plan.maximumItems.value else 1;
    var selections, shape := WrapProjectionRoute(cap.route, entity.value.0, entity.value.1, maximum);
    r := SealPlan(context, arguments.value, selections, TightenRoot(shape, cap.resultFloor));
  }

  /** The checks that end every compilation. */
  method SealPlan(context: CompileContext, arguments: seq<Argument>, selections: seq<Selection>, result: Shape)
    returns (r: Result<Compiled, CompileError>)
    ensures r == Seal(context.cap, arguments, selections, result, context.Now())
  {
    var cap := context.cap;
    var within := context.EnsureTotals();
    if !within {
      return Err(TooComplex);
    }
    var disclosure := Object(ExportableRule(MaximumClassification(result)), map[cap.fieldName := result]);
    if !ValidShape(disclosure, 0) {
      return Err(InvalidDisclosure);
    }
    var records := CountGraphqlRecords(disclosure);
    if records.None? || records.value > cap.limits.maximumResultRecords {
      return Err(RecordBudgetExceeded);
    }
    var state :=
      State(context.variables, context.definitions, context.schemas, context.selectedFields, context.arguments);
    r := Ok(Compiled(Selection(cap.fieldName, cap.fieldName, arguments, selections), state, disclosure));
  }
}
