/**
 * The finished schema and the semantic catalogue, as far as the two compilers read them, with what a parsed
 * schema and a validated catalogue guarantee.
 */
module Schema {
  import opened Common
  import opened Disclosure
  import opened TypeText

  // A BTreeMap that the source only reads is listed in key order; its names are distinct.
  datatype SchemaInput = SchemaInput(name: string, ty: Type, hasDefault: bool)
  datatype SchemaField = SchemaField(name: string, ty: Type, arguments: seq<SchemaInput>)
  datatype SchemaType =
    | ScalarType
    | EnumType(values: set<string>)
    | ObjectType(fields: seq<SchemaField>)
    | InputObjectType(inputs: seq<SchemaInput>)
    | UnsupportedType

  type Types = map<string, SchemaType>

  function FindField(fields: seq<SchemaField>, name: string): (r: Option<SchemaField>)
    ensures r.Some? ==> r.value in fields && r.value.name == name
    ensures r.None? ==> forall f :: f in fields ==> f.name != name
  {
    if fields == [] then None
    else if fields[0].name == name then Some(fields[0])
    else FindField(fields[1..], name)
  }

  function FindInput(inputs: seq<SchemaInput>, name: string): (r: Option<SchemaInput>)
    ensures r.Some? ==> r.value in inputs && r.value.name == name
    ensures r.None? ==> forall f :: f in inputs ==> f.name != name
  {
    if inputs == [] then None
    else if inputs[0].name == name then Some(inputs[0])
    else FindInput(inputs[1..], name)
  }

  predicate IsObject(types: Types, name: string) {
    name in types && types[name].ObjectType?
  }

  /** `object_field`. */
  function ObjectField(types: Types, typeName: string, name: string): (r: Option<SchemaField>)
    ensures r.Some? ==> IsObject(types, typeName) && r.value in types[typeName].fields && r.value.name == name
  {
    if IsObject(types, typeName) then FindField(types[typeName].fields, name) else None
  }

  ghost predicate DistinctFieldNames(fields: seq<SchemaField>) {
    forall i, j :: 0 <= i < j < |fields| ==> fields[i].name != fields[j].name
  }

  ghost predicate DistinctInputNames(inputs: seq<SchemaInput>) {
    forall i, j :: 0 <= i < j < |inputs| ==> inputs[i].name != inputs[j].name
  }

  /** What the BTreeMaps of a parsed schema guarantee. */
  ghost predicate WellFormedTypes(types: Types) {
    forall name :: IsObject(types, name) ==> WellFormedFields(types[name].fields)
  }

  ghost predicate WellFormedFields(fields: seq<SchemaField>) {
    && DistinctFieldNames(fields)
    && forall f :: f in fields ==> f.name != "" && DistinctInputNames(f.arguments)
  }

  lemma {:induction false} FindFieldAt(fields: seq<SchemaField>, i: nat)
    requires DistinctFieldNames(fields) && i < |fields|
    ensures FindField(fields, fields[i].name) == Some(fields[i])
  {
    if i > 0 {
      FindFieldAt(fields[1..], i - 1);
    }
  }

  // ---------------------------------------------------------------- semantic catalogue

  datatype CollectionBound = Pageable(argumentName: string) | ServerFixed(maximumItems: u32)

  datatype Cardinality = One | Many

  datatype Relationship = Relationship(target: string, cardinality: Cardinality, bound: Option<CollectionBound>)

  datatype Field = Field(
    name: string,
    selectable: bool,
    disposition: Disposition,
    classification: Classification,
    relationship: Option<Relationship>)

  datatype Entity = Entity(defaultClassification: Classification, fields: seq<Field>)

  // Entity names are unique in a validated catalogue, so the entity list is a finite map.
  type Catalog = map<string, Entity>

  /** What `GraphqlSemanticCatalog::validate` establishes about entities. */
  ghost predicate ValidCatalog(catalog: Catalog) {
    forall name :: name in catalog ==> ValidEntity(catalog[name])
  }

  ghost predicate ValidEntity(entity: Entity) {
    && (forall i, j :: 0 <= i < j < |entity.fields| ==> entity.fields[i].name != entity.fields[j].name)
    && forall f :: f in entity.fields ==>
         && ValidName(f.name)
         && entity.defaultClassification.Level() <= f.classification.Level()
         && (f.classification == Secret ==> f.disposition == NeverExport)
  }

  /** `selectable_exportable_scalar`. */
  predicate SelectableScalar(f: Field) {
    f.selectable && f.relationship.None? && f.disposition == Exportable && f.classification != Secret
  }

  /** A relationship that a plan may traverse. */
  predicate Traversable(f: Field) {
    f.selectable && f.relationship.Some? && f.disposition == Exportable && f.classification != Secret
  }
}
