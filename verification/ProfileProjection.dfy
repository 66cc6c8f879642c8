/** Profile projections and the disclosures that must match them. */
module ProfileProjection {
  import opened Common
  import opened Disclosure
  import opened TypeText
  import opened Schema
  import opened Execution
  import opened ProfileArguments

  const MAXIMUM_SELECTIONS_PER_LEVEL: nat := 128

  /** `AiGraphqlSelection`. */
  datatype Projection = Projection(
    fieldName: string,
    alias: Option<string>,
    arguments: seq<ArgumentPlan>,
    selections: seq<Projection>,
    maximumItems: Option<u32>) {

    function ResponseName(): string {
      if alias.Some? then alias.value else fieldName
    }
  }

  datatype ProjectedShape =
    | ProjectedScalar
    | ProjectedObject(fields: map<string, ProjectedShape>)
    | ProjectedList(maximumItems: u32, item: ProjectedShape)

  function WrapList(shape: ProjectedShape, maximumItems: Option<u32>): ProjectedShape {
    if maximumItems.Some? then ProjectedList(maximumItems.value, shape) else shape
  }

  function ItemType(ty: Type): Type {
    if ty.ListOf? then ty.item else ty
  }

  /** The object type behind at most one list, if that is what the type is. */
  function ProjectedFields(types: Types, ty: Type): Option<seq<SchemaField>> {
    match PlainType(ItemType(ty))
    case Some(name) => if IsObject(types, name) then Some(types[name].fields) else None
    case None => None
  }

  predicate IsLeafType(types: Types, ty: Type) {
    var name := PlainType(ItemType(ty));
    name.Some? && (name.value in types ==> types[name.value].ScalarType? || types[name.value].EnumType?)
  }

  // ---------------------------------------------------------------- what is admitted

  function ResponseNames(selections: seq<Projection>): seq<string> {
    seq(|selections|, i requires 0 <= i < |selections| => selections[i].ResponseName())
  }

  predicate FitsBounds(ty: Type, selections: seq<Projection>, maximumItems: Option<u32>, depth: nat) {
    && depth <= MAXIMUM_PROJECTION_DEPTH && |selections| <= MAXIMUM_SELECTIONS_PER_LEVEL
    && (ty.ListOf? <==> maximumItems.Some?)
    && maximumItems != Some(0)
  }

  ghost predicate FitsProjection(
    types: Types, ty: Type, selections: seq<Projection>, maximumItems: Option<u32>, inputs: set<string>, depth: nat)
    decreases selections, 2
  {
    && FitsBounds(ty, selections, maximumItems, depth)
    && if ProjectedFields(types, ty).Some? then
         && selections != []
         && Distinct(ResponseNames(selections))
         && FitsSelections(types, ProjectedFields(types, ty).value, selections, inputs, depth + 1)
       else IsLeafType(types, ty) && selections == []
  }

  ghost predicate FitsSelections(
    types: Types, fields: seq<SchemaField>, selections: seq<Projection>, inputs: set<string>, depth: nat)
    decreases selections, 1
  {
    forall i :: 0 <= i < |selections| ==> FitsSelection(types, fields, selections[i], inputs, depth)
  }

  ghost predicate FitsSelection(types: Types, fields: seq<SchemaField>, s: Projection, inputs: set<string>, depth: nat)
    decreases s
  {
    && SafeName(s.fieldName)
    && (s.alias.Some? ==> SafeName(s.alias.value))
    && FindField(fields, s.fieldName).Some?
    && FitsArguments(types, FindField(fields, s.fieldName).value.arguments, s.arguments, inputs)
    && FitsProjection(types, FindField(fields, s.fieldName).value.ty, s.selections, s.maximumItems, inputs, depth)
  }

  // ---------------------------------------------------------------- what is written

  function WrittenSelections(selections: seq<Projection>): (r: seq<Selection>)
    ensures |r| == |selections|
    decreases selections, 0
  {
    if selections == [] then []
    else
      var n := |selections| - 1;
      WrittenSelections(selections[..n]) + [WrittenSelection(selections[n])]
  }

  function WrittenSelection(s: Projection): Selection
    decreases s
  {
    Selection(s.ResponseName(), s.fieldName, WrittenArguments(s.arguments), WrittenSelections(s.selections))
  }

  /** The response tree of a rendered selection, read off the document and the schema; bounds come from the plan. */
  function ShapeOf(types: Types, ty: Type, selections: seq<Projection>, maximumItems: Option<u32>): ProjectedShape
    decreases selections, 2
  {
    WrapList(
      if ProjectedFields(types, ty).Some? then
        ProjectedObject(ShapesOf(types, ProjectedFields(types, ty).value, selections))
      else ProjectedScalar,
      maximumItems)
  }

  function ShapesOf(types: Types, fields: seq<SchemaField>, selections: seq<Projection>): map<string, ProjectedShape>
    decreases selections, 1
  {
    if selections == [] then map[]
    else
      var n := |selections| - 1;
      ShapesOf(types, fields,
        selections[..n])[selections[n].ResponseName() := SelectionShape(types, fields, selections[n])]
  }

  function SelectionShape(types: Types, fields: seq<SchemaField>, s: Projection): ProjectedShape
    decreases s
  {
    if FindField(fields, s.fieldName).Some? then
      ShapeOf(types, FindField(fields, s.fieldName).value.ty, s.selections, s.maximumItems)
    else ProjectedScalar
  }

  // ---------------------------------------------------------------- where variables stand

  /** Every variable occurrence in a rendered selection set on an object type. */
  ghost function SelectionUses(types: Types, ty: Type, selections: seq<Selection>): set<Use>
    decreases selections, 1
  {
    if selections == [] || ProjectedFields(types, ty).None? then {}
    else
      var n := |selections| - 1;
      SelectionUses(types, ty, selections[..n]) + FieldUses(types, ProjectedFields(types, ty).value, selections[n])
  }

  ghost function FieldUses(types: Types, fields: seq<SchemaField>, s: Selection): set<Use>
    decreases s
  {
    match FindField(fields, s.name)
    case Some(field) => ArgumentUses(types, field.arguments, s.arguments) + SelectionUses(types, field.ty, s.sub)
    case None => {}
  }

  lemma LastSelectionUses(types: Types, ty: Type, selections: seq<Projection>)
    requires selections != [] && ProjectedFields(types, ty).Some?
    ensures SelectionUses(types, ty, WrittenSelections(selections)) ==
            SelectionUses(types, ty, WrittenSelections(selections[..|selections| - 1]))
            + FieldUses(types, ProjectedFields(types, ty).value, WrittenSelection(selections[|selections| - 1]))
  {
    var written := WrittenSelections(selections);
    assert written[..|written| - 1] == WrittenSelections(selections[..|selections| - 1]);
  }

  lemma {:induction false} PrefixSelectionUses(types: Types, ty: Type, selections: seq<Projection>, i: nat)
    requires i <= |selections| && ProjectedFields(types, ty).Some?
    ensures SelectionUses(types, ty, WrittenSelections(selections[..i])) <=
            SelectionUses(types, ty, WrittenSelections(selections))
    decreases |selections|
  {
    hide ProjectedFields, SelectionUses, FieldUses, WrittenSelections, WrittenSelection;
    if i < |selections| {
      var n := |selections| - 1;
      PrefixSelectionUses(types, ty, selections[..n], i);
      assert selections[..n][..i] == selections[..i];
      LastSelectionUses(types, ty, selections);
    } else {
      assert selections[..i] == selections;
    }
  }

  // ---------------------------------------------------------------- the renderer

  /** One turn of the loop of `render_projection`, seen from the whole selection set. */
  lemma SelectionStep(
    types: Types, ty: Type, selections: seq<Projection>, maximumItems: Option<u32>, inputs: set<string>, depth: nat,
    i: nat, inferred: map<string, Type>, mid: map<string, Type>, after: map<string, Type>, ok: bool)
    requires i < |selections| && ProjectedFields(types, ty).Some?
    requires var fields := ProjectedFields(types, ty).value;
      && Infers(inferred, FitsSelections(types, fields, selections[..i], inputs, depth + 1),
                SelectionUses(types, ty, WrittenSelections(selections[..i])), true, mid)
      && Infers(mid, FitsSelection(types, fields, selections[i], inputs, depth + 1),
                FieldUses(types, fields, WrittenSelection(selections[i])), ok, after)
    ensures ok ==> Infers(inferred,
      FitsSelections(types, ProjectedFields(types, ty).value, selections[..i + 1], inputs, depth + 1),
                          SelectionUses(types, ty, WrittenSelections(selections[..i + 1])), true, after)
    ensures !ok ==> Infers(inferred, FitsProjection(types, ty, selections, maximumItems, inputs, depth),
                           SelectionUses(types, ty, WrittenSelections(selections)), false, after)
  {
    hide Infers, FitsSelection, WrittenSelections, WrittenSelection, SelectionUses, FieldUses, ProjectedFields,
      FitsBounds;
    var fields := ProjectedFields(types, ty).value;
    var part := selections[..i + 1];
    assert part == selections[..i] + [selections[i]] && part[..i] == selections[..i];
    LastSelectionUses(types, ty, part);
    var uses := SelectionUses(types, ty, WrittenSelections(selections[..i]));
    InfersNext(inferred, mid, after, FitsSelections(types, fields, selections[..i], inputs, depth + 1), uses,
               FitsSelection(types, fields, selections[i], inputs, depth + 1),
               FieldUses(types, fields, WrittenSelection(selections[i])), ok);
    assert FitsSelections(types, fields, part, inputs, depth + 1)
      <==> FitsSelections(types, fields, selections[..i], inputs, depth + 1)
           && FitsSelection(types, fields, selections[i], inputs, depth + 1);
    if !ok {
      PrefixSelectionUses(types, ty, selections, i + 1);
      assert FitsSelections(types, fields, selections, inputs, depth + 1)
        ==> FitsSelections(types, fields, part, inputs, depth + 1);
      InfersFailure(inferred, after, FitsSelections(types, fields, part, inputs, depth + 1),
                    SelectionUses(types, ty, WrittenSelections(part)),
                    FitsProjection(types, ty, selections, maximumItems, inputs, depth),
                    SelectionUses(types, ty, WrittenSelections(selections)), after);
    }
  }

  lemma NothingProjected(
    types: Types, ty: Type, selections: seq<Projection>, inputs: set<string>, depth: nat, inferred: map<string, Type>)
    ensures ProjectedFields(types, ty).Some? ==>
      Infers(inferred, FitsSelections(types, ProjectedFields(types, ty).value, selections[..0], inputs, depth),
             SelectionUses(types, ty, WrittenSelections(selections[..0])), true, inferred)
    ensures WrittenSelections(selections[..0]) == [] && Members(ResponseNames(selections)[..0]) == {}
    ensures ProjectedFields(types, ty).Some? ==>
      ShapesOf(types, ProjectedFields(types, ty).value, selections[..0]) == map[]
  {
    InfersNothing(inferred);
  }

  lemma WrittenNextSelection(types: Types, fields: seq<SchemaField>, selections: seq<Projection>, i: nat)
    requires i < |selections|
    ensures WrittenSelections(selections[..i + 1])
      == WrittenSelections(selections[..i]) + [WrittenSelection(selections[i])]
    ensures ShapesOf(types, fields, selections[..i + 1]) ==
            ShapesOf(types, fields,
              selections[..i])[selections[i].ResponseName() := SelectionShape(types, fields, selections[i])]
  {
    assert selections[..i + 1][..i] == selections[..i];
  }

  lemma NextResponseName(names: seq<string>, i: nat)
    requires i < |names| && Distinct(names[..i])
    ensures names[i] !in Members(names[..i]) ==> Distinct(names[..i + 1])
    ensures Distinct(names) ==> names[i] !in Members(names[..i])
    ensures Members(names[..i]) + {names[i]} == Members(names[..i + 1])
  {
    assert names[..i + 1] == names[..i] + [names[i]];
    if names[i] in names[..i] {
      var j :| 0 <= j < i && names[j] == names[i];
    }
  }

  /** `render_projection`. */
  method RenderProjection(
    types: Types, ty: Type, selections: seq<Projection>, maximumItems: Option<u32>, inputs: set<string>,
    inferred: map<string, Type>, depth: nat)
    returns (r: Result<(seq<Selection>, ProjectedShape, map<string, Type>), ProfileError>)
    ensures Infers(inferred, FitsProjection(types, ty, selections, maximumItems, inputs, depth),
                   SelectionUses(types, ty, WrittenSelections(selections)), r.Ok?, if r.Ok? then r.value.2 else map[])
    ensures r.Ok? ==> r.value.0 == WrittenSelections(selections)
    ensures r.Ok? ==> r.value.1 == ShapeOf(types, ty, selections, maximumItems)
    decreases selections, 1
  {
    hide FitsSelections, WrittenSelections, SelectionUses, ShapesOf, Consistent, Recorded, Members, Distinct;
    var fields := ProjectedFields(types, ty);
    if !FitsBounds(ty, selections, maximumItems, depth) {
      return Err(InvalidProjection);
    }
    NothingProjected(types, ty, selections, inputs, depth + 1, inferred);
    if fields.None? {
      if !IsLeafType(types, ty) || selections != [] {
        return Err(InvalidProjection);
      }
      LeafProjection(types, ty, inferred);
      return Ok(([], WrapList(ProjectedScalar, maximumItems), inferred));
    }
    if selections == [] {
      return Err(InvalidProjection);
    }
    var names := ResponseNames(selections);
    var seen: set<string> := {};
    var shapes: map<string, ProjectedShape> := map[];
    var rendered: seq<Selection> := [];
    var current := inferred;
    assert Distinct(names[..0]) by { DistinctNone(names); }
    for i := 0 to |selections|
      invariant rendered == WrittenSelections(selections[..i])
      invariant shapes == ShapesOf(types, fields.value, selections[..i])
      invariant seen == Members(names[..i]) && Distinct(names[..i])
      invariant Infers(inferred, FitsSelections(types, fields.value, selections[..i], inputs, depth + 1),
                       SelectionUses(types, ty, WrittenSelections(selections[..i])), true, current)
    {
      var s := selections[i];
      NextResponseName(names, i);
      if s.ResponseName() in seen {
        return Err(InvalidProjection);
      }
      seen := seen + {s.ResponseName()};
      var field := RenderSelection(types, fields.value, s, inputs, current, depth + 1);
      SelectionStep(types, ty, selections, maximumItems, inputs, depth, i, inferred, current,
                    if field.Ok? then field.value.2 else map[], field.Ok?);
      if field.Err? {
        return Err(field.error);
      }
      WrittenNextSelection(types, fields.value, selections, i);
      rendered := rendered + [field.value.0];
      shapes := shapes[s.ResponseName() := field.value.1];
      current := field.value.2;
    }
    assert selections[..|selections|] == selections && names[..|selections|] == names;
    r := Ok((rendered, WrapList(ProjectedObject(shapes), maximumItems), current));
  }

  lemma DistinctNone(names: seq<string>)
    ensures Distinct(names[..0])
  {
  }

  lemma LeafProjection(types: Types, ty: Type, inferred: map<string, Type>)
    ensures SelectionUses(types, ty, WrittenSelections([])) == {} && WrittenSelections([]) == []
    ensures Infers(inferred, true, {}, true, inferred)
  {
    InfersNothing(inferred);
  }

  /** The body of that loop: one selected field with its arguments and its own sub-selection. */
  method RenderSelection(
    types: Types, fields: seq<SchemaField>, s: Projection, inputs: set<string>, inferred: map<string, Type>, depth: nat)
    returns (r: Result<(Selection, ProjectedShape, map<string, Type>), ProfileError>)
    ensures Infers(inferred, FitsSelection(types, fields, s, inputs, depth),
                   FieldUses(types, fields, WrittenSelection(s)), r.Ok?, if r.Ok? then r.value.2 else map[])
    ensures r.Ok? ==> r.value.0 == WrittenSelection(s) && r.value.1 == SelectionShape(types, fields, s)
    decreases s
  {
    hide SafeName, FitsArguments, FitsProjection, WrittenArguments, WrittenSelections, ArgumentUses, SelectionUses,
      Recorded, Consistent, ShapeOf, FindField;
    if !SafeName(s.fieldName) || (s.alias.Some? && !SafeName(s.alias.value)) {
      return Err(InvalidProjection);
    }
    var field := FindField(fields, s.fieldName);
    if field.None? {
      return Err(InvalidProjection);
    }
    var arguments := RenderArguments(types, field.value.arguments, s.arguments, inputs, inferred);
    ghost var first := ArgumentUses(types, field.value.arguments, WrittenArguments(s.arguments));
    ghost var second := SelectionUses(types, field.value.ty, WrittenSelections(s.selections));
    ghost var firstFits := FitsArguments(types, field.value.arguments, s.arguments, inputs);
    ghost var secondFits := FitsProjection(types, field.value.ty, s.selections, s.maximumItems, inputs, depth);
    if arguments.Err? {
      InfersFailure(inferred, map[], firstFits, first, firstFits && secondFits, first + second, map[]);
      return Err(arguments.error);
    }
    var nested := RenderProjection(types, field.value.ty, s.selections, s.maximumItems, inputs, arguments.value.1,
      depth);
    InfersNext(inferred, arguments.value.1, if nested.Ok? then nested.value.2 else map[],
               firstFits, first, secondFits, second, nested.Ok?);
    if nested.Err? {
      return Err(nested.error);
    }
    r := Ok((Selection(s.ResponseName(), s.fieldName, arguments.value.0, nested.value.0), nested.value.1,
      nested.value.2));
  }

  // ---------------------------------------------------------------- the disclosure must coincide

  /** A disclosure shape with its rules and identities erased. */
  ghost function EraseRules(s: Shape): ProjectedShape {
    match s
    case Scalar(_) => ProjectedScalar
    case Object(_, fields) => ProjectedObject(map name | name in fields :: EraseRules(fields[name]))
    case List(_, maximumItems, _, item) => ProjectedList(maximumItems, EraseRules(item))
  }

  ghost predicate AllExportable(s: Shape) {
    && s.rule.disposition == Exportable
    && match s
       case Scalar(_) => true
       case Object(_, fields) => forall name :: name in fields ==> AllExportable(fields[name])
       case List(_, _, _, item) => AllExportable(item)
  }

  lemma SameSizeSubset(a: set<string>, b: set<string>)
    requires |a| == |b| && a <= b
    ensures a == b
  {
    assert |b - a| == |b| - |a|;
  }

  /** `validate_disclosure_shape`: it succeeds exactly on a never-withholding disclosure of the same tree. */
  method ValidateDisclosureShape(disclosure: Shape, projection: ProjectedShape) returns (ok: bool)
    ensures ok <==> EraseRules(disclosure) == projection && AllExportable(disclosure)
    decreases disclosure
  {
    if disclosure.Scalar? && projection.ProjectedScalar? {
      return disclosure.rule.disposition == Exportable;
    }
    if disclosure.Object? && projection.ProjectedObject? {
      var fields, projected := disclosure.fields, projection.fields;
      if disclosure.rule.disposition == NeverExport {
        return false;
      }
      if |fields.Keys| != |projected.Keys| || exists name :: name in fields.Keys && name !in projected {
        assert (EraseRules(disclosure) == projection ==> EraseRules(disclosure).fields.Keys == projected.Keys);
        assert EraseRules(disclosure).fields.Keys == fields.Keys;
        return false;
      }
      SameSizeSubset(fields.Keys, projected.Keys);
      var left := fields.Keys;
      while left != {}
        invariant left <= fields.Keys
        invariant forall name :: name in fields && name !in left ==>
          EraseRules(fields[name]) == projected[name] && AllExportable(fields[name])
      {
        var name :| name in left;
        var same := ValidateDisclosureShape(fields[name], projected[name]);
        if !same {
          assert EraseRules(disclosure).fields[name] == EraseRules(fields[name]);
          return false;
        }
        left := left - {name};
      }
      assert EraseRules(disclosure).fields == projected;
      return true;
    }
    if disclosure.List? && projection.ProjectedList? && disclosure.maximumItems == projection.maximumItems {
      if disclosure.rule.disposition == NeverExport {
        return false;
      }
      ok := ValidateDisclosureShape(disclosure.item, projection.item);
      return;
    }
    return false;
  }
}
