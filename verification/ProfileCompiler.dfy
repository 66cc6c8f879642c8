/** The profile compiler, and what its documents and results satisfy. */
module ProfileCompiler {
  import opened Common
  import opened JsonModel
  import opened Disclosure
  import opened Records
  import opened TypeText
  import opened Schema
  import opened Execution
  import opened ProfileArguments
  import opened ProfileProjection

  datatype InputType =
    | StringInput(minimumLength: u32, maximumLength: u32)
    | IntegerInput(minimum: int, maximum: int)
    | NumberInput(least: real, most: real)
    | BooleanInput
    | EnumInput(values: seq<string>)

  datatype ProfileInput = ProfileInput(name: string, required: bool, inputType: InputType)

  /** `AiGraphqlToolProfile`; `otherwiseValid` stands for its text, media, preview and write-policy checks. */
  datatype Profile = Profile(
    rootType: string,
    fieldName: string,
    inputs: seq<ProfileInput>,
    arguments: seq<ArgumentPlan>,
    selections: seq<Projection>,
    rootMaximumItems: Option<u32>,
    disclosure: Shape,
    maximumResultBytes: nat,
    maximumResultRecords: u32,
    otherwiseValid: bool)

  datatype Definition = Definition(name: string, ty: Type)

  datatype Document = Document(definitions: seq<Definition>, root: Selection)

  // ---------------------------------------------------------------- profile shape

  predicate BoundedAdapter(value: Adapter, depth: nat) {
    && depth <= MAXIMUM_PROJECTION_DEPTH
    && match value
       case ObjectAdapter(fields) =>
         |fields| <= MAXIMUM_PROFILE_INPUTS && forall i :: 0 <= i < |fields| ==>
                                                 BoundedAdapter(fields[i].value, depth + 1)
       case ListAdapter(items) =>
         |items| <= MAXIMUM_PROFILE_INPUTS && forall i :: 0 <= i < |items| ==> BoundedAdapter(items[i], depth + 1)
       case _ => true
  }

  predicate BoundedSelections(selections: seq<Projection>, depth: nat)
    decreases selections
  {
    && depth <= MAXIMUM_PROJECTION_DEPTH && |selections| <= MAXIMUM_SELECTIONS_PER_LEVEL
    && forall i :: 0 <= i < |selections| ==>
         && (forall j :: 0 <= j < |selections[i].arguments| ==> BoundedAdapter(selections[i].arguments[j].value, depth))
         && BoundedSelections(selections[i].selections, depth + 1)
  }

  predicate ValidInputType(t: InputType) {
    match t
    case StringInput(minimum, maximum) => maximum > 0 && minimum <= maximum
    case IntegerInput(minimum, maximum) => minimum <= maximum
    case NumberInput(least, most) => least <= most
    case BooleanInput => true
    case EnumInput(values) =>
      && values != []
      && (forall i, j :: 0 <= i < j < |values| ==> values[i] != values[j])
      && forall i :: 0 <= i < |values| ==> SafeName(values[i])
  }

  /** `validate_profile_shape`, but for the record ceiling. */
  predicate ValidProfileShape(p: Profile) {
    && p.otherwiseValid
    && SafeName(p.fieldName)
    && |p.inputs| <= MAXIMUM_PROFILE_INPUTS
    && p.maximumResultBytes > 0 && p.maximumResultRecords > 0
    && p.selections != []
    && (forall i :: 0 <= i < |p.arguments| ==> BoundedAdapter(p.arguments[i].value, 0))
    && BoundedSelections(p.selections, 0)
    && (forall i, j :: 0 <= i < j < |p.inputs| ==> p.inputs[i].name != p.inputs[j].name)
    && forall i :: 0 <= i < |p.inputs| ==> SafeName(p.inputs[i].name) && ValidInputType(p.inputs[i].inputType)
  }

  ghost predicate WithinCeiling(p: Profile) {
    var count := MaximumGraphqlRecordCount(p.disclosure);
    count.Some? && count.value <= p.maximumResultRecords
  }

  // ---------------------------------------------------------------- inputs against inferred types

  /** One turn of `validate_inferred_inputs`. */
  predicate InputFits(types: Types, input: ProfileInput, ty: Type) {
    && (ty.nonNull ==> input.required)
    && PlainType(ty).Some?
    && var name := PlainType(ty).value;
       match input.inputType
       case StringInput(_, _) => name == "String" || name == "ID"
       case IntegerInput(_, _) => name == "Int"
       case NumberInput(_, _) => name == "Float"
       case BooleanInput => name == "Boolean"
       case EnumInput(values) =>
         name in types && types[name].EnumType?
         && forall i :: 0 <= i < |values| ==> values[i] in types[name].values
  }

  /** The declared type: the inferred one, made non-null for a required input. */
  function Declared(input: ProfileInput, ty: Type): Type {
    if input.required && !ty.nonNull then AsNonNull(ty) else ty
  }

  function AsNonNull(ty: Type): Type {
    match ty
    case Named(name, _) => Named(name, true)
    case ListOf(item, _) => ListOf(item, true)
  }

  function InputNames(inputs: seq<ProfileInput>): set<string> {
    set i | 0 <= i < |inputs| :: inputs[i].name
  }

  ghost function NamesOf(uses: set<Use>): set<string> {
    set u | u in uses :: u.name
  }

  ghost predicate InputsFit(types: Types, inputs: seq<ProfileInput>, uses: set<Use>) {
    forall i, u :: 0 <= i < |inputs| && u in uses && u.name == inputs[i].name ==> InputFits(types, inputs[i], u.ty)
  }

  // ---------------------------------------------------------------- the whole profile

  function RootSelection(p: Profile): Selection {
    Selection(p.fieldName, p.fieldName, WrittenArguments(p.arguments), WrittenSelections(p.selections))
  }

  ghost function Uses(types: Types, p: Profile, field: SchemaField): set<Use> {
    ArgumentUses(types, field.arguments, WrittenArguments(p.arguments))
    + SelectionUses(types, field.ty, WrittenSelections(p.selections))
  }

  ghost function ResponseShape(types: Types, p: Profile, field: SchemaField): ProjectedShape {
    ProjectedObject(map[p.fieldName := ShapeOf(types, field.ty, p.selections, p.rootMaximumItems)])
  }

  ghost predicate Renders(types: Types, p: Profile, field: SchemaField) {
    && FitsArguments(types, field.arguments, p.arguments, InputNames(p.inputs))
    && FitsProjection(types, field.ty, p.selections, p.rootMaximumItems, InputNames(p.inputs), 0)
    && Consistent(Uses(types, p, field))
  }

  /** Which profiles compile. */
  ghost predicate Acceptable(types: Types, p: Profile) {
    var field := ObjectField(types, p.rootType, p.fieldName);
    && ValidProfileShape(p) && WithinCeiling(p)
    && field.Some?
    && Renders(types, p, field.value)
    && NamesOf(Uses(types, p, field.value)) == InputNames(p.inputs)
    && InputsFit(types, p.inputs, Uses(types, p, field.value))
    && EraseRules(p.disclosure) == ResponseShape(types, p, field.value)
    && AllExportable(p.disclosure)
  }

  /** Which document an accepted profile compiles to. */
  ghost predicate IsDocumentOf(types: Types, p: Profile, field: SchemaField, d: Document) {
    && d.root == RootSelection(p)
    && |d.definitions| == |p.inputs|
    && forall i :: 0 <= i < |p.inputs| ==> Defines(d.definitions[i], p.inputs[i], Uses(types, p, field))
  }

  /** The definition of an input, typed by one of its uses. */
  ghost predicate Defines(d: Definition, input: ProfileInput, uses: set<Use>) {
    d.name == input.name && exists u :: u in uses && u.name == input.name && d.ty == Declared(input, u.ty)
  }

  /** `AiGraphqlToolManifestBuilder::compile`, up to the printed document. */
  method CompileProfile(types: Types, p: Profile) returns (r: Result<Document, ProfileError>)
    requires ValidShape(p.disclosure, 0)
    ensures r.Ok? <==> Acceptable(types, p)
    ensures r.Ok? ==> IsDocumentOf(types, p, ObjectField(types, p.rootType, p.fieldName).value, r.value)
  {
    hide FitsArguments, FitsProjection, ArgumentUses, SelectionUses, WrittenArguments, WrittenSelections, ShapeOf,
      ValidShape, ValidProfileShape, EraseRules, AllExportable, MaximumGraphqlRecordCount, InputsFit, Infers,
        InputNames,
      NamesOf, Recorded, Consistent;
    var records := CountGraphqlRecords(p.disclosure);
    if !ValidProfileShape(p) || records.None? || records.value > p.maximumResultRecords {
      return Err(InvalidProfile);
    }
    var field := ObjectField(types, p.rootType, p.fieldName);
    if field.None? {
      return Err(InvalidProfile);
    }
    var inputs := InputNames(p.inputs);
    var arguments := RenderArguments(types, field.value.arguments, p.arguments, inputs, map[]);
    if arguments.Err? {
      RootArgumentsFail(types, p, field.value);
      return Err(arguments.error);
    }
    var projection := RenderProjection(types, field.value.ty, p.selections, p.rootMaximumItems, inputs,
      arguments.value.1, 0);
    RootRendered(types, p, field.value, arguments.value.1, projection.Ok?, if projection.Ok? then projection.value.2
      else map[]);
    if projection.Err? {
      return Err(projection.error);
    }
    var inferred := projection.value.2;
    RecordedNames(inferred);
    if inferred.Keys != inputs {
      return Err(InvalidInputs);
    }
    var fits := ValidateInferredInputs(types, p.inputs, inferred);
    if !fits {
      return Err(InvalidInputs);
    }
    var response := ProjectedObject(map[p.fieldName := projection.value.1]);
    var coincide := ValidateDisclosureShape(p.disclosure, response);
    if !coincide {
      return Err(DisclosureMismatch);
    }
    var definitions := Define(p.inputs, inferred);
    r := Ok(Document(definitions, Selection(p.fieldName, p.fieldName, arguments.value.0, projection.value.0)));
  }

  lemma RootArgumentsFail(types: Types, p: Profile, field: SchemaField)
    requires Infers(map[], FitsArguments(types, field.arguments, p.arguments, InputNames(p.inputs)),
                    ArgumentUses(types, field.arguments, WrittenArguments(p.arguments)), false, map[])
    ensures !Renders(types, p, field)
  {
    var uses := ArgumentUses(types, field.arguments, WrittenArguments(p.arguments));
    assert Recorded(map[]) + uses == uses;
    if Consistent(Uses(types, p, field)) {
      ConsistentPart(uses, Uses(types, p, field));
    }
  }

  lemma RootRendered(
    types: Types, p: Profile, field: SchemaField, mid: map<string, Type>, ok: bool, inferred: map<string, Type>)
    requires Infers(map[], FitsArguments(types, field.arguments, p.arguments, InputNames(p.inputs)),
                    ArgumentUses(types, field.arguments, WrittenArguments(p.arguments)), true, mid)
    requires Infers(mid, FitsProjection(types, field.ty, p.selections, p.rootMaximumItems, InputNames(p.inputs), 0),
                    SelectionUses(types, field.ty, WrittenSelections(p.selections)), ok, inferred)
    ensures ok <==> Renders(types, p, field)
    ensures ok ==> Recorded(inferred) == Uses(types, p, field)
  {
    hide FitsArguments, FitsProjection, ArgumentUses, SelectionUses, WrittenArguments, WrittenSelections;
    InfersNext(map[], mid, inferred,
               FitsArguments(types, field.arguments, p.arguments, InputNames(p.inputs)),
               ArgumentUses(types, field.arguments, WrittenArguments(p.arguments)),
               FitsProjection(types, field.ty, p.selections, p.rootMaximumItems, InputNames(p.inputs), 0),
               SelectionUses(types, field.ty, WrittenSelections(p.selections)), ok);
    assert Recorded(map[]) + Uses(types, p, field) == Uses(types, p, field);
  }

  lemma RecordedNames(inferred: map<string, Type>)
    ensures NamesOf(Recorded(inferred)) == inferred.Keys
  {
    forall name | name in inferred ensures name in NamesOf(Recorded(inferred)) {
      assert Use(name, inferred[name]) in Recorded(inferred);
    }
  }

  /** `validate_inferred_inputs`. */
  method ValidateInferredInputs(types: Types, inputs: seq<ProfileInput>, inferred: map<string, Type>) returns (ok: bool)
    requires InputNames(inputs) == inferred.Keys
    ensures ok <==> InputsFit(types, inputs, Recorded(inferred))
  {
    for i := 0 to |inputs|
      invariant forall j, u :: 0 <= j < i && u in Recorded(inferred) && u.name == inputs[j].name
                               ==> InputFits(types, inputs[j], u.ty)
    {
      assert inputs[i].name in InputNames(inputs);
      var ty := inferred[inputs[i].name];
      assert Use(inputs[i].name, ty) in Recorded(inferred);
      if !InputFits(types, inputs[i], ty) {
        return false;
      }
    }
    ok := true;
  }

  /** The variable definitions, in the order of the inputs. */
  method Define(inputs: seq<ProfileInput>, inferred: map<string, Type>) returns (definitions: seq<Definition>)
    requires InputNames(inputs) == inferred.Keys
    ensures |definitions| == |inputs|
    ensures forall i :: 0 <= i < |inputs| ==> Defines(definitions[i], inputs[i], Recorded(inferred))
  {
    definitions := [];
    for n := 0 to |inputs|
      invariant |definitions| == n
      invariant forall i :: 0 <= i < n ==> Defines(definitions[i], inputs[i], Recorded(inferred))
    {
      assert inputs[n].name in InputNames(inputs);
      var ty := inferred[inputs[n].name];
      assert Use(inputs[n].name, ty) in Recorded(inferred);
      var d := Definition(inputs[n].name, Declared(inputs[n], ty));
      assert Defines(d, inputs[n], Recorded(inferred));
      definitions := definitions + [d];
    }
  }

  // ---------------------------------------------------------------- the document is valid GraphQL

  ghost predicate Used(uses: set<Use>, name: string) {
    exists u :: u in uses && u.name == name
  }

  /** Sections 5.8.1, 5.8.3, 5.8.4 and 5.8.5: names, declarations, uses and positions of variables. */
  ghost predicate VariablesValid(definitions: seq<Definition>, uses: set<Use>) {
    && (forall i, j :: 0 <= i < j < |definitions| ==> definitions[i].name != definitions[j].name)
    && (forall u :: u in uses ==> exists i :: 0 <= i < |definitions| && definitions[i].name == u.name)
    && (forall i :: 0 <= i < |definitions| ==> Used(uses, definitions[i].name))
    && (forall i, u :: 0 <= i < |definitions| && u in uses && u.name == definitions[i].name ==>
          definitions[i].ty == u.ty || definitions[i].ty == AsNonNull(u.ty))
  }

  /** Section 5.4.2.1 at every field of a selection set on an object type. */
  ghost predicate SelectionsSupplied(types: Types, fields: seq<SchemaField>, selections: seq<Selection>)
    decreases selections, 1
  {
    forall i :: 0 <= i < |selections| ==> FieldSupplied(types, fields, selections[i])
  }

  ghost predicate FieldSupplied(types: Types, fields: seq<SchemaField>, s: Selection)
    decreases s
  {
    var field := FindField(fields, s.name);
    && field.Some?
    && RequiredSupplied(types, field.value.arguments, s.arguments)
    && (ProjectedFields(types, field.value.ty).Some? ==>
          SelectionsSupplied(types, ProjectedFields(types, field.value.ty).value, s.sub))
  }

  lemma {:induction false} WrittenSelectionAt(selections: seq<Projection>, i: nat)
    requires i < |selections|
    ensures WrittenSelections(selections)[i] == WrittenSelection(selections[i])
    decreases |selections|
  {
    var n := |selections| - 1;
    if i < n {
      WrittenSelectionAt(selections[..n], i);
    }
  }

  lemma {:induction false} FittingSelectionsAreSupplied(
    types: Types, fields: seq<SchemaField>, selections: seq<Projection>, inputs: set<string>, depth: nat)
    requires FitsSelections(types, fields, selections, inputs, depth)
    ensures SelectionsSupplied(types, fields, WrittenSelections(selections))
    decreases selections
  {
    forall i | 0 <= i < |selections| ensures FieldSupplied(types, fields, WrittenSelections(selections)[i]) {
      WrittenSelectionAt(selections, i);
      var s := selections[i];
      assert FitsSelection(types, fields, s, inputs, depth);
      var field := FindField(fields, s.fieldName).value;
      FittingArgumentsAreSupplied(types, field.arguments, s.arguments, inputs);
      assert FitsProjection(types, field.ty, s.selections, s.maximumItems, inputs, depth);
      if ProjectedFields(types, field.ty).Some? {
        FittingSelectionsAreSupplied(types, ProjectedFields(types, field.ty).value, s.selections, inputs, depth + 1);
      }
    }
  }

  /** Every document the compiler emits declares, uses and types its variables as GraphQL demands. */
  lemma CompiledDocumentIsValid(types: Types, p: Profile, field: SchemaField, d: Document)
    requires Acceptable(types, p) && field == ObjectField(types, p.rootType, p.fieldName).value
    requires IsDocumentOf(types, p, field, d)
    ensures VariablesValid(d.definitions, FieldUses(types, types[p.rootType].fields, d.root))
    ensures FieldSupplied(types, types[p.rootType].fields, d.root)
  {
    hide Renders, Uses, ValidInputType, BoundedSelections, BoundedAdapter, WithinCeiling, FitsArguments, FitsProjection,
      FieldUses, FieldSupplied, Consistent, InputsFit, VariablesValid, EraseRules, AllExportable, Defines, NamesOf,
        InputNames;
    RootUses(types, p, field);
    RootIsSupplied(types, p, field);
    DefinitionsAreValid(p.inputs, d.definitions, Uses(types, p, field));
  }

  lemma DefinitionsAreValid(inputs: seq<ProfileInput>, definitions: seq<Definition>, uses: set<Use>)
    requires Consistent(uses) && NamesOf(uses) == InputNames(inputs)
    requires forall i, j :: 0 <= i < j < |inputs| ==> inputs[i].name != inputs[j].name
    requires |definitions| == |inputs| && forall i :: 0 <= i < |inputs| ==> Defines(definitions[i], inputs[i], uses)
    ensures VariablesValid(definitions, uses)
  {
    forall i | 0 <= i < |definitions|
      ensures definitions[i].name == inputs[i].name
      ensures Used(uses, definitions[i].name)
      ensures forall u :: u in uses && u.name == definitions[i].name ==>
        definitions[i].ty == u.ty || definitions[i].ty == AsNonNull(u.ty)
    {
      assert Defines(definitions[i], inputs[i], uses);
    }
    forall u | u in uses ensures exists i :: 0 <= i < |definitions| && definitions[i].name == u.name {
      assert u.name in NamesOf(uses);
      var i :| 0 <= i < |inputs| && inputs[i].name == u.name;
      assert definitions[i].name == u.name;
    }
  }

  lemma RootUses(types: Types, p: Profile, field: SchemaField)
    requires Acceptable(types, p) && field == ObjectField(types, p.rootType, p.fieldName).value
    ensures FieldUses(types, types[p.rootType].fields, RootSelection(p)) == Uses(types, p, field)
    ensures Consistent(Uses(types, p, field))
  {
  }

  lemma RootIsSupplied(types: Types, p: Profile, field: SchemaField)
    requires Acceptable(types, p) && field == ObjectField(types, p.rootType, p.fieldName).value
    ensures FieldSupplied(types, types[p.rootType].fields, RootSelection(p))
  {
    FittingArgumentsAreSupplied(types, field.arguments, p.arguments, InputNames(p.inputs));
    if ProjectedFields(types, field.ty).Some? {
      FittingSelectionsAreSupplied(types, ProjectedFields(types, field.ty).value, p.selections, InputNames(p.inputs),
        1);
    }
  }

  // ---------------------------------------------------------------- results are disclosed

  ghost predicate NoIdentities(s: Shape) {
    match s
    case Scalar(_) => true
    case Object(_, fields) => forall name :: name in fields ==> NoIdentities(fields[name])
    case List(_, _, identity, item) => identity.None? && NoIdentities(item)
  }

  /** The data keeps every list within the bound its selection declares. */
  ghost predicate BoundsHeld(types: Types, w: World, vars: Variables, typeName: string, selections: seq<Projection>)
    decreases selections
  {
    forall i :: 0 <= i < |selections| ==>
      var s := selections[i];
      var field := ObjectField(types, typeName, s.fieldName);
      field.Some? ==>
        && (s.maximumItems.Some? ==> ListBoundHeld(w, vars, typeName, s, s.maximumItems.value))
        && (PlainType(ItemType(field.value.ty)).Some? ==>
              BoundsHeld(types, w, vars, PlainType(ItemType(field.value.ty)).value, s.selections))
  }

  ghost predicate ListBoundHeld(w: World, vars: Variables, typeName: string, s: Projection, bound: nat) {
    forall id: nat :: w.typeOf(id) == typeName ==>
      WithinBound(w.resolve(id, s.fieldName, ArgumentValues(WrittenArguments(s.arguments), vars)), bound)
  }

  predicate WithinBound(d: Data, bound: nat) {
    d.Items? ==> |d.items| <= bound
  }

  lemma {:induction false} ShapesOfAt(types: Types, fields: seq<SchemaField>, selections: seq<Projection>, i: nat)
    requires i < |selections| && Distinct(ResponseNames(selections))
    ensures selections[i].ResponseName() in ShapesOf(types, fields, selections)
    ensures ShapesOf(types, fields, selections)[selections[i].ResponseName()]
      == SelectionShape(types, fields, selections[i])
    decreases |selections|
  {
    var n := |selections| - 1;
    if i < n {
      var names := ResponseNames(selections);
      assert names[i] != names[n];
      assert ResponseNames(selections[..n]) == names[..n];
      ShapesOfAt(types, fields, selections[..n], i);
    }
  }

  /** Whatever one projected position holds, the matching disclosure accepts what is answered for it. */
  lemma {:induction false} ProjectionDiscloses(
    types: Types, w: World, vars: Variables, ty: Type, d: Data, selections: seq<Projection>,
    maximumItems: Option<u32>, inputs: set<string>, depth: nat, shape: Shape)
    requires WellFormedTypes(types) && ConformingWorld(types, w) && Fits(types, w, d, ty)
    requires FitsProjection(types, ty, selections, maximumItems, inputs, depth)
    requires EraseRules(shape) == ShapeOf(types, ty, selections, maximumItems)
    requires AllExportable(shape) && NoIdentities(shape)
    requires maximumItems.Some? ==> WithinBound(d, maximumItems.value)
    requires PlainType(ItemType(ty)).Some? ==> BoundsHeld(types, w, vars, PlainType(ItemType(ty)).value, selections)
    ensures Discloses(Complete(w, vars, d, WrittenSelections(selections)), shape)
    decreases selections, 2
  {
    hide FitsSelections, ShapesOf, WrittenSelections, ExecuteSelections, ConformingWorld, WellFormedTypes, BoundsHeld;
    if ty.ListOf? {
      if d.Items? {
        forall k | 0 <= k < |d.items|
          ensures Discloses(Complete(w, vars, d.items[k], WrittenSelections(selections)), shape.item)
        {
          ItemDiscloses(types, w, vars, ty, d.items[k], selections, inputs, depth, shape.item);
        }
      }
    } else {
      ItemDiscloses(types, w, vars, ty, d, selections, inputs, depth, shape);
    }
  }

  lemma {:induction false} ItemDiscloses(
    types: Types, w: World, vars: Variables, ty: Type, d: Data, selections: seq<Projection>,
    inputs: set<string>, depth: nat, shape: Shape)
    requires WellFormedTypes(types) && ConformingWorld(types, w) && Fits(types, w, d, ItemType(ty))
    requires if ProjectedFields(types, ty).Some?
             then Distinct(ResponseNames(selections))
                  && FitsSelections(types, ProjectedFields(types, ty).value, selections, inputs, depth + 1)
             else IsLeafType(types, ty)
    requires EraseRules(shape) ==
             if ProjectedFields(types, ty).Some?
             then ProjectedObject(ShapesOf(types, ProjectedFields(types, ty).value, selections)) else ProjectedScalar
    requires AllExportable(shape) && NoIdentities(shape)
    requires PlainType(ItemType(ty)).Some? ==> BoundsHeld(types, w, vars, PlainType(ItemType(ty)).value, selections)
    ensures Discloses(Complete(w, vars, d, WrittenSelections(selections)), shape)
    decreases selections, 1
  {
    hide FitsSelections, ShapesOf, WrittenSelections, ExecuteSelections, ConformingWorld, WellFormedTypes, BoundsHeld;
    if ProjectedFields(types, ty).Some? {
      ObjectProjectionDiscloses(types, w, vars, ty, selections, inputs, depth, shape);
    }
  }

  lemma {:induction false} ObjectProjectionDiscloses(
    types: Types, w: World, vars: Variables, ty: Type, selections: seq<Projection>, inputs: set<string>, depth: nat,
    shape: Shape)
    requires WellFormedTypes(types) && ConformingWorld(types, w)
    requires ProjectedFields(types, ty).Some? && Distinct(ResponseNames(selections))
    requires FitsSelections(types, ProjectedFields(types, ty).value, selections, inputs, depth + 1)
    requires EraseRules(shape) == ProjectedObject(ShapesOf(types, ProjectedFields(types, ty).value, selections))
    requires AllExportable(shape) && NoIdentities(shape)
    requires BoundsHeld(types, w, vars, PlainType(ItemType(ty)).value, selections)
    ensures NodeDiscloses(w, vars, PlainType(ItemType(ty)).value, WrittenSelections(selections), shape)
    decreases selections, 0
  {
    hide WrittenSelections, ExecuteSelections, ShapesOf, WellFormedTypes, ConformingWorld, FitsSelection;
    var typeName := PlainType(ItemType(ty)).value;
    var fields := ProjectedFields(types, ty).value;
    var written := WrittenSelections(selections);
    forall i | 0 <= i < |selections|
      ensures written[i].key == ResponseNames(selections)[i] && written[i].key in shape.fields
      ensures FieldDiscloses(w, vars, typeName, written[i], shape.fields[written[i].key])
    {
      var s := selections[i];
      WrittenSelectionAt(selections, i);
      ShapesOfAt(types, fields, selections, i);
      assert written[i] == WrittenSelection(s);
      var child := shape.fields[s.ResponseName()];
      assert EraseRules(child) == SelectionShape(types, fields, s);
      SelectedFieldDiscloses(types, w, vars, typeName, s, inputs, depth + 1, child);
    }
    ObjectDiscloses(w, vars, typeName, written, shape);
  }

  lemma {:induction false} SelectedFieldDiscloses(
    types: Types, w: World, vars: Variables, typeName: string, s: Projection, inputs: set<string>, depth: nat,
    shape: Shape)
    requires WellFormedTypes(types) && ConformingWorld(types, w) && IsObject(types, typeName)
    requires FitsSelection(types, types[typeName].fields, s, inputs, depth)
    requires EraseRules(shape) == SelectionShape(types, types[typeName].fields, s)
    requires AllExportable(shape) && NoIdentities(shape)
    requires var field := ObjectField(types, typeName, s.fieldName);
      field.Some? ==>
        && (s.maximumItems.Some? ==> ListBoundHeld(w, vars, typeName, s, s.maximumItems.value))
        && (PlainType(ItemType(field.value.ty)).Some? ==>
              BoundsHeld(types, w, vars, PlainType(ItemType(field.value.ty)).value, s.selections))
    ensures FieldDiscloses(w, vars, typeName, WrittenSelection(s), shape)
    decreases s
  {
    hide FitsProjection, WellFormedTypes, BoundsHeld, EraseRules, AllExportable, NoIdentities, FitsArguments;
    var field := ObjectField(types, typeName, s.fieldName).value;
    forall id: nat | w.typeOf(id) == typeName
      ensures Discloses(ExecuteField(w, vars, id, WrittenSelection(s)), shape)
    {
      var d := w.resolve(id, s.fieldName, ArgumentValues(WrittenArguments(s.arguments), vars));
      assert Fits(types, w, d, field.ty);
      ProjectionDiscloses(types, w, vars, field.ty, d, s.selections, s.maximumItems, inputs, depth, shape);
    }
  }

  /** The response envelope of running a compiled document at a root object. */
  ghost function Response(w: World, vars: Variables, root: nat, p: Profile): Json {
    JObject([Entry(p.fieldName, ExecuteField(w, vars, root, RootSelection(p)))])
  }

  /** Every conforming response to a compiled profile passes its disclosure check, within its own record limit. */
  lemma CompiledProfileDiscloses(types: Types, p: Profile, w: World, vars: Variables, root: nat)
    requires WellFormedTypes(types) && ConformingWorld(types, w) && w.typeOf(root) == p.rootType
    requires Acceptable(types, p) && ValidShape(p.disclosure, 0) && NoIdentities(p.disclosure)
    requires BoundsHeld(types, w, vars, p.rootType,
                        [Projection(p.fieldName, None, p.arguments, p.selections, p.rootMaximumItems)])
    ensures GraphqlFailure(Response(w, vars, root, p), p.disclosure, p.maximumResultRecords).None?
  {
    hide ConformingWorld, WellFormedTypes, FitsProjection, FitsArguments, ShapeOf, ValidShape, MaximumRecordCount,
      GraphqlFailure, WrittenArguments, WrittenSelections, ExecuteField, InputsFit, Uses, Consistent;
    var s := Projection(p.fieldName, None, p.arguments, p.selections, p.rootMaximumItems);
    var field := ObjectField(types, p.rootType, p.fieldName).value;
    assert EraseRules(p.disclosure).fields.Keys == {p.fieldName};
    assert p.disclosure.fields.Keys == {p.fieldName};
    var shape := p.disclosure.fields[p.fieldName];
    assert EraseRules(shape) == EraseRules(p.disclosure).fields[p.fieldName];
    RootIsASelection(types, p, field);
    assert [s][0] == s;
    SelectedFieldDiscloses(types, w, vars, p.rootType, s, InputNames(p.inputs), 0, shape);
    var v := Response(w, vars, root, p);
    assert FieldDiscloses(w, vars, p.rootType, WrittenSelection(s), shape);
    assert Discloses(v.entries[0].value, shape);
    assert Get(v.entries, p.fieldName) == Some(v.entries[0].value);
    CompiledCeilingIsNeverExceeded(v, p.disclosure, p.maximumResultRecords, p.fieldName);
  }

  lemma RootIsASelection(types: Types, p: Profile, field: SchemaField)
    requires Acceptable(types, p) && field == ObjectField(types, p.rootType, p.fieldName).value
    ensures var s := Projection(p.fieldName, None, p.arguments, p.selections, p.rootMaximumItems);
      && FitsSelection(types, types[p.rootType].fields, s, InputNames(p.inputs), 0)
      && WrittenSelection(s) == RootSelection(p)
      && SelectionShape(types, types[p.rootType].fields, s)
        == ShapeOf(types, field.ty, p.selections, p.rootMaximumItems)
  {
  }
}
